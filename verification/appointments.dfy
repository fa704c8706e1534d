/** The appointment record and the read-only queries over a list of appointments:
    lookup by id, filtering by status, and the summary statistics. */
module Appointments {
  import opened Wrappers
  import Seqs

  datatype Status = Pending | Completed | Cancelled

  /** The status as the string the screens compare against. */
  function StatusName(s: Status): string {
    match s
    case Pending => "pending"
    case Completed => "completed"
    case Cancelled => "cancelled"
  }

  /** Each status has its own name, and none of them is the `"all"` filter value. */
  lemma StatusNames(s: Status, t: Status)
    ensures StatusName(s) == StatusName(t) <==> s == t
    ensures StatusName(s) != "all"
  {
  }

  /** One booking. `date` is the display date `DD/MM/YYYY` and `time` the label `HH:MM`, both
      kept as the text the screens split; `price` is read only by the accounting screen. */
  datatype Appointment = Appointment(
    id: string,
    clientName: string,
    date: string,
    time: string,
    serviceType: string,
    location: string,
    isHomeService: bool,
    status: Status,
    price: Option<int>)

  predicate HasId(a: Appointment, id: string) {
    a.id == id
  }

  /** `getAppointmentById`: the first appointment carrying `id`, or `None` if none does. */
  function GetAppointmentById(xs: seq<Appointment>, id: string): (r: Option<Appointment>)
    ensures r.None? <==> forall a :: a in xs ==> a.id != id
    ensures r.Some? ==> exists i :: (0 <= i < |xs| && xs[i] == r.value && xs[i].id == id
      && forall j :: 0 <= j < i ==> xs[j].id != id)
  {
    var i := Seqs.FindIndex(xs, a => HasId(a, id));
    if i.Some? then Some(xs[i.value]) else None
  }

  /** The test `app.status === status`, as a predicate value. */
  function HasStatusNamed(status: string): Appointment -> bool {
    (a: Appointment) => StatusName(a.status) == status
  }

  /** The appointments whose status is named `status`, in their original order. */
  function WithStatus(xs: seq<Appointment>, status: string): (r: seq<Appointment>)
    ensures forall a :: a in r <==> a in xs && StatusName(a.status) == status
    ensures Seqs.IsSubsequence(r, xs)
    ensures forall a :: multiset(r)[a] == if StatusName(a.status) == status then multiset(xs)[a] else 0
  {
    Seqs.Filter(xs, HasStatusNamed(status))
  }

  /** `getAppointmentsByStatus`: `"all"` gives the whole list, any other string the
      appointments whose status has that name. */
  function GetAppointmentsByStatus(xs: seq<Appointment>, status: string): (r: seq<Appointment>)
    ensures status == "all" ==> r == xs
    ensures status != "all" ==> forall a :: a in r <==> a in xs && StatusName(a.status) == status
    ensures status != "all" ==> |r| <= |xs|
    ensures status != "all" ==> Seqs.IsSubsequence(r, xs)
    ensures status != "all" ==>
      forall a :: multiset(r)[a] == if StatusName(a.status) == status then multiset(xs)[a] else 0
  {
    if status == "all" then xs else WithStatus(xs, status)
  }

  /** A string that names no status selects nothing. */
  lemma UnknownStatusSelectsNothing(xs: seq<Appointment>, status: string)
    requires status != "all"
    requires forall s: Status :: StatusName(s) != status
    ensures GetAppointmentsByStatus(xs, status) == []
  {
    Seqs.FilterNone(xs, HasStatusNamed(status));
  }

  /** The three status filters split the list: every appointment is in exactly one of them. */
  lemma {:induction false} StatusFiltersPartition(xs: seq<Appointment>)
    ensures |WithStatus(xs, "pending")| + |WithStatus(xs, "completed")| + |WithStatus(xs, "cancelled")| == |xs|
  {
    if xs != [] {
      StatusFiltersPartition(xs[1..]);
      FilterLengthStep(xs, "pending");
      FilterLengthStep(xs, "completed");
      FilterLengthStep(xs, "cancelled");
      StatusNames(xs[0].status, Pending);
      StatusNames(xs[0].status, Completed);
      StatusNames(xs[0].status, Cancelled);
    }
  }

  /** Taking the first appointment off shortens a status filter by one exactly when it matched. */
  lemma FilterLengthStep(xs: seq<Appointment>, status: string)
    requires xs != []
    ensures |WithStatus(xs, status)|
      == (if StatusName(xs[0].status) == status then 1 else 0) + |WithStatus(xs[1..], status)|
  {
  }

  function ServiceKey(a: Appointment): string {
    a.serviceType
  }

  /** The `serviceTypes` record: visiting the list in order, a type seen for the first time is
      set to 1 and a type seen again is incremented. */
  function ServiceTypeCounts(xs: seq<Appointment>): (m: map<string, nat>)
    ensures CountsOf(xs, m)
    decreases |xs|
  {
    if xs == [] then map[]
    else
      var init, a := xs[..|xs| - 1], xs[|xs| - 1];
      assert xs == init + [a];
      var m := ServiceTypeCounts(init);
      CountStep(init, a, m);
      m[a.serviceType := if a.serviceType in m then m[a.serviceType] + 1 else 1]
  }

  /** `m` holds, for each service type present in `xs`, the number of appointments of that type. */
  ghost predicate CountsOf(xs: seq<Appointment>, m: map<string, nat>) {
    TypesOf(xs, m) && SizesOf(xs, m)
  }

  /** The keys of `m` are exactly the service types present in `xs`. */
  ghost predicate TypesOf(xs: seq<Appointment>, m: map<string, nat>) {
    forall k :: k in m <==> exists a :: a in xs && a.serviceType == k
  }

  /** Each key of `m` maps to the positive size of its group in `xs`. */
  ghost predicate SizesOf(xs: seq<Appointment>, m: map<string, nat>) {
    forall k :: k in m ==> m[k] == |Seqs.Group(xs, ServiceKey, k)| && m[k] >= 1
  }

  /** One more visited appointment: its type is created at 1 or incremented. */
  lemma CountStep(init: seq<Appointment>, a: Appointment, m: map<string, nat>)
    requires CountsOf(init, m)
    ensures CountsOf(init + [a], m[a.serviceType := if a.serviceType in m then m[a.serviceType] + 1 else 1])
  {
    TypesStepAll(init, a, m);
    SizesStepAll(init, a, m);
  }

  lemma TypesStepAll(init: seq<Appointment>, a: Appointment, m: map<string, nat>)
    requires TypesOf(init, m)
    ensures TypesOf(init + [a], m[a.serviceType := if a.serviceType in m then m[a.serviceType] + 1 else 1])
  {
    var m' := m[a.serviceType := if a.serviceType in m then m[a.serviceType] + 1 else 1];
    forall j
      ensures j in m' <==> exists b :: b in init + [a] && b.serviceType == j
    {
      TypesStep(init, a, m, j);
    }
  }

  lemma SizesStepAll(init: seq<Appointment>, a: Appointment, m: map<string, nat>)
    requires SizesOf(init, m) && TypesOf(init, m)
    ensures SizesOf(init + [a], m[a.serviceType := if a.serviceType in m then m[a.serviceType] + 1 else 1])
  {
    var m' := m[a.serviceType := if a.serviceType in m then m[a.serviceType] + 1 else 1];
    forall j | j in m'
      ensures m'[j] == |Seqs.Group(init + [a], ServiceKey, j)| && m'[j] >= 1
    {
      CountStepAt(init, a, m, j);
    }
  }

  lemma TypesStep(init: seq<Appointment>, a: Appointment, m: map<string, nat>, j: string)
    requires forall k :: k in m <==> exists b :: b in init && b.serviceType == k
    ensures j in m || j == a.serviceType <==> exists b :: b in init + [a] && b.serviceType == j
  {
    if j in m {
      var b :| b in init && b.serviceType == j;
      assert b in init + [a];
    } else if j == a.serviceType {
      assert a in init + [a];
    }
  }

  /** The step above, for one service type `j`. */
  lemma CountStepAt(init: seq<Appointment>, a: Appointment, m: map<string, nat>, j: string)
    requires TypesOf(init, m) && SizesOf(init, m)
    ensures var m' := m[a.serviceType := if a.serviceType in m then m[a.serviceType] + 1 else 1];
      j in m' ==> m'[j] == |Seqs.Group(init + [a], ServiceKey, j)| && m'[j] >= 1
  {
    Seqs.GroupSnoc(init, a, ServiceKey, j);
    if j !in m {
      Seqs.GroupNone(init, ServiceKey, j);
    }
  }

  /** The counts over the keys `ks`, added up. */
  function SumCounts(m: map<string, nat>, ks: seq<string>): int
    requires forall k :: k in ks ==> k in m
    decreases |ks|
  {
    if ks == [] then 0 else m[ks[0]] + SumCounts(m, ks[1..])
  }

  /** Listing each service type once, the counts add up to the number of appointments. */
  lemma ServiceTypeCountsSumToTotal(xs: seq<Appointment>, ks: seq<string>)
    requires Seqs.Distinct(ks)
    requires forall k :: k in ks <==> k in ServiceTypeCounts(xs)
    ensures SumCounts(ServiceTypeCounts(xs), ks) == |xs|
  {
    var m := ServiceTypeCounts(xs);
    CountsAreGroupSizes(xs, m, ks);
    Seqs.GroupsSumToWhole(xs, ServiceKey, Seqs.One, ks);
    Seqs.SumOfOnes(xs);
  }

  lemma {:induction false} CountsAreGroupSizes(xs: seq<Appointment>, m: map<string, nat>, ks: seq<string>)
    requires forall k :: k in ks ==> k in m && m[k] == |Seqs.Group(xs, ServiceKey, k)|
    ensures SumCounts(m, ks) == Seqs.SumOfGroups(xs, ServiceKey, Seqs.One, ks)
    decreases |ks|
  {
    if ks != [] {
      Seqs.SumOfOnes(Seqs.Group(xs, ServiceKey, ks[0]));
      CountsAreGroupSizes(xs, m, ks[1..]);
    }
  }

  /** The result of `getAppointmentStats`. `completionRate` is the exact percentage; the
      floating-point rounding of the division is not modelled. */
  datatype Stats = Stats(
    total: nat,
    completed: nat,
    cancelled: nat,
    pending: nat,
    completionRate: real,
    homeServices: nat,
    workshopServices: nat,
    serviceTypes: map<string, nat>)

  predicate IsHome(a: Appointment) {
    a.isHomeService
  }

  predicate IsWorkshop(a: Appointment) {
    !a.isHomeService
  }

  /** `getAppointmentStats`: the counts partition the list by status and by place of service,
      and the completion rate is a percentage. */
  function GetAppointmentStats(xs: seq<Appointment>): (s: Stats)
    ensures s.total == |xs|
    ensures s.completed + s.cancelled + s.pending == s.total
    ensures s.homeServices + s.workshopServices == s.total
    ensures s.completed == |set i: nat | i < |xs| && xs[i].status == Completed|
    ensures s.cancelled == |set i: nat | i < |xs| && xs[i].status == Cancelled|
    ensures s.pending == |set i: nat | i < |xs| && xs[i].status == Pending|
    ensures s.homeServices == |set i: nat | i < |xs| && xs[i].isHomeService|
    ensures s.workshopServices == |set i: nat | i < |xs| && !xs[i].isHomeService|
    ensures s.total == 0 ==> s.completionRate == 0.0
    ensures s.total > 0 ==> s.completionRate == (s.completed as real / s.total as real) * 100.0
    ensures 0.0 <= s.completionRate <= 100.0
    ensures CountsOf(xs, s.serviceTypes)
  {
    var total := |xs|;
    var completed := CountStatus(xs, Completed);
    var cancelled := CountStatus(xs, Cancelled);
    var pending := CountStatus(xs, Pending);
    var home, workshop := CountHome(xs), CountWorkshop(xs);
    CountsPartition(xs);
    var rate := if total > 0 then (completed as real / total as real) * 100.0 else 0.0;
    PercentageBounds(completed, total);
    Stats(total, completed, cancelled, pending, rate, home, workshop, ServiceTypeCounts(xs))
  }

  /** `xs.filter(app => app.status === st).length`. */
  function CountStatus(xs: seq<Appointment>, st: Status): (n: nat)
    ensures n == |set i: nat | i < |xs| && xs[i].status == st|
  {
    StatusCount(xs, st);
    |WithStatus(xs, StatusName(st))|
  }

  /** `xs.filter(app => app.isHomeService).length`. */
  function CountHome(xs: seq<Appointment>): (n: nat)
    ensures n == |set i: nat | i < |xs| && xs[i].isHomeService|
  {
    PlaceCount(xs);
    |Seqs.Filter(xs, IsHome)|
  }

  /** `xs.filter(app => !app.isHomeService).length`. */
  function CountWorkshop(xs: seq<Appointment>): (n: nat)
    ensures n == |set i: nat | i < |xs| && !xs[i].isHomeService|
  {
    PlaceCount(xs);
    |Seqs.Filter(xs, IsWorkshop)|
  }

  /** Every appointment has exactly one status and exactly one place of service. */
  lemma CountsPartition(xs: seq<Appointment>)
    ensures CountStatus(xs, Completed) + CountStatus(xs, Cancelled) + CountStatus(xs, Pending) == |xs|
    ensures CountHome(xs) + CountWorkshop(xs) == |xs|
  {
    StatusFiltersPartition(xs);
    Seqs.FilterComplement(xs, IsHome, IsWorkshop);
  }

  /** A status filter's length counts the positions holding that status. */
  lemma StatusCount(xs: seq<Appointment>, st: Status)
    ensures |WithStatus(xs, StatusName(st))| == |set i: nat | i < |xs| && xs[i].status == st|
  {
    Seqs.FilterCountsPositions(xs, HasStatusNamed(StatusName(st)));
    StatusPositions(xs, st);
  }

  /** Matching a status by its name is matching the status itself. */
  lemma StatusPositions(xs: seq<Appointment>, st: Status)
    ensures Seqs.Positions(xs, HasStatusNamed(StatusName(st))) == set i: nat | i < |xs| && xs[i].status == st
  {
    var p := HasStatusNamed(StatusName(st));
    forall i: nat | i < |xs|
      ensures p(xs[i]) <==> xs[i].status == st
    {
      StatusNames(xs[i].status, st);
    }
  }

  /** The home and workshop filters' lengths count the positions with that place of service. */
  lemma PlaceCount(xs: seq<Appointment>)
    ensures |Seqs.Filter(xs, IsHome)| == |set i: nat | i < |xs| && xs[i].isHomeService|
    ensures |Seqs.Filter(xs, IsWorkshop)| == |set i: nat | i < |xs| && !xs[i].isHomeService|
  {
    Seqs.FilterCountsPositions(xs, IsHome);
    Seqs.FilterCountsPositions(xs, IsWorkshop);
    assert Seqs.Positions(xs, IsHome) == set i: nat | i < |xs| && xs[i].isHomeService;
    assert Seqs.Positions(xs, IsWorkshop) == set i: nat | i < |xs| && !xs[i].isHomeService;
  }

  lemma PercentageBounds(part: nat, whole: nat)
    requires part <= whole
    ensures whole > 0 ==> 0.0 <= (part as real / whole as real) * 100.0 <= 100.0
  {
    if whole > 0 {
      assert part as real / whole as real <= 1.0;
    }
  }

  /** The eight sample appointments the service returns. */
  const SampleAppointments: seq<Appointment> := [
    Appointment("1", "Carlos Rodríguez", "05/05/2025", "10:00", "Lavado completo", "Taller principal", false, Pending, None),
    Appointment("2", "María González", "05/05/2025", "11:30", "Lavado exterior", "Av. Libertad 1250", true, Pending, None),
    Appointment("3", "Juan Pérez", "05/05/2025", "14:00", "Lavado y encerado", "Taller principal", false, Completed, None),
    Appointment("4", "Ana Martínez", "06/05/2025", "09:15", "Limpieza de interiores", "Calle Robles 456", true, Completed, None),
    Appointment("5", "Roberto Fernández", "06/05/2025", "16:30", "Lavado premium", "Taller principal", false, Cancelled, None),
    Appointment("6", "Laura Díaz", "07/05/2025", "11:00", "Lavado completo", "Av. Principal 789", true, Pending, None),
    Appointment("7", "Daniel Torres", "07/05/2025", "15:45", "Limpieza de tapicería", "Taller principal", false, Pending, None),
    Appointment("8", "Carolina Sánchez", "08/05/2025", "10:30", "Lavado y encerado", "Calle Norte 321", true, Pending, None)
  ]
}
