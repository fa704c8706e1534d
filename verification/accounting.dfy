/** The accounting hook's two aggregates over the completed appointments: the total revenue and
    the revenue per `MM/YYYY` month key. A missing price counts as 0. */
module Accounting {
  import Seqs
  import Text
  import Dates
  import Appointments

  type Appointment = Appointments.Appointment

  /** `appointment.price || 0`. */
  function PriceOf(a: Appointment): int {
    a.price.GetOr(0)
  }

  /** `calculateTotalRevenue`: `reduce` from the left, starting at 0. It equals the plain sum
      of the prices. */
  function TotalRevenue(xs: seq<Appointment>): (total: int)
    ensures total == Seqs.Sum(xs, PriceOf)
    ensures xs == [] ==> total == 0
    decreases |xs|
  {
    if xs == [] then 0
    else
      var init, a := xs[..|xs| - 1], xs[|xs| - 1];
      assert xs == init + [a];
      Seqs.SumAppend(init, [a], PriceOf);
      TotalRevenue(init) + PriceOf(a)
  }

  /** A destructured field: the part at position `i`, or the text "undefined" that a missing
      part prints as inside a template literal. */
  function Field(parts: seq<string>, i: nat): string {
    if i < |parts| then parts[i] else "undefined"
  }

  /** `${month}/${year}` where `[day, month, year] = appointment.date.split('/')`. */
  function MonthKey(a: Appointment): string {
    var parts := Text.Split(a.date, '/');
    Field(parts, 1) + "/" + Field(parts, 2)
  }

  /** For a date written `DD/MM/YYYY` the key is its `MM/YYYY` tail. */
  lemma MonthKeyOfDisplayDate(a: Appointment, dd: string, mm: string, yyyy: string)
    requires '/' !in dd && '/' !in mm && '/' !in yyyy
    requires a.date == dd + "/" + mm + "/" + yyyy
    ensures MonthKey(a) == mm + "/" + yyyy
  {
    Dates.SplitDisplayDate(dd, mm, yyyy);
    assert Text.Split(a.date, '/') == [dd, mm, yyyy];
  }

  /** `m` holds, for each month key present in `xs`, the revenue of that month's appointments. */
  ghost predicate MonthlyRevenueOf(xs: seq<Appointment>, m: map<string, int>) {
    MonthsOf(xs, m) && RevenuesOf(xs, m)
  }

  /** The keys of `m` are exactly the month keys present in `xs`. */
  ghost predicate MonthsOf(xs: seq<Appointment>, m: map<string, int>) {
    forall k :: k in m <==> exists a :: a in xs && MonthKey(a) == k
  }

  /** Each key of `m` maps to the summed prices of its month in `xs`. */
  ghost predicate RevenuesOf(xs: seq<Appointment>, m: map<string, int>) {
    forall k :: k in m ==> m[k] == Seqs.Sum(Seqs.Group(xs, MonthKey, k), PriceOf)
  }

  /** `calculateRevenueByMonth`: visiting the list in order, a month seen for the first time
      starts at 0, and each appointment adds its price to its month. */
  function RevenueByMonth(xs: seq<Appointment>): (m: map<string, int>)
    ensures MonthlyRevenueOf(xs, m)
    ensures xs == [] ==> m == map[]
    decreases |xs|
  {
    if xs == [] then map[]
    else
      var init, a := xs[..|xs| - 1], xs[|xs| - 1];
      assert xs == init + [a];
      var m := RevenueByMonth(init);
      MonthStep(init, a, m);
      m[MonthKey(a) := (if MonthKey(a) in m then m[MonthKey(a)] else 0) + PriceOf(a)]
  }

  lemma MonthStep(init: seq<Appointment>, a: Appointment, m: map<string, int>)
    requires MonthlyRevenueOf(init, m)
    ensures MonthlyRevenueOf(init + [a], m[MonthKey(a) := (if MonthKey(a) in m then m[MonthKey(a)] else 0) + PriceOf(a)])
  {
    MonthsStepAll(init, a, m);
    RevenuesStepAll(init, a, m);
  }

  lemma MonthsStepAll(init: seq<Appointment>, a: Appointment, m: map<string, int>)
    requires MonthsOf(init, m)
    ensures MonthsOf(init + [a], m[MonthKey(a) := (if MonthKey(a) in m then m[MonthKey(a)] else 0) + PriceOf(a)])
  {
    var m' := m[MonthKey(a) := (if MonthKey(a) in m then m[MonthKey(a)] else 0) + PriceOf(a)];
    forall j
      ensures j in m' <==> exists b :: b in init + [a] && MonthKey(b) == j
    {
      MonthKeysStep(init, a, m, j);
    }
  }

  lemma RevenuesStepAll(init: seq<Appointment>, a: Appointment, m: map<string, int>)
    requires MonthsOf(init, m) && RevenuesOf(init, m)
    ensures RevenuesOf(init + [a], m[MonthKey(a) := (if MonthKey(a) in m then m[MonthKey(a)] else 0) + PriceOf(a)])
  {
    var m' := m[MonthKey(a) := (if MonthKey(a) in m then m[MonthKey(a)] else 0) + PriceOf(a)];
    forall j | j in m'
      ensures m'[j] == Seqs.Sum(Seqs.Group(init + [a], MonthKey, j), PriceOf)
    {
      assert j !in m ==> forall b :: b in init ==> MonthKey(b) != j;
      MonthStepAt(init, a, m, j);
    }
  }

  lemma MonthKeysStep(init: seq<Appointment>, a: Appointment, m: map<string, int>, j: string)
    requires MonthsOf(init, m)
    ensures j in m || j == MonthKey(a) <==> exists b :: b in init + [a] && MonthKey(b) == j
  {
    if j in m {
      var b :| b in init && MonthKey(b) == j;
      assert b in init + [a];
    } else if j == MonthKey(a) {
      assert a in init + [a];
    }
  }

  /** The step above, for one month key `j`. */
  lemma MonthStepAt(init: seq<Appointment>, a: Appointment, m: map<string, int>, j: string)
    requires j in m ==> m[j] == Seqs.Sum(Seqs.Group(init, MonthKey, j), PriceOf)
    requires j !in m ==> forall b :: b in init ==> MonthKey(b) != j
    ensures var m' := m[MonthKey(a) := (if MonthKey(a) in m then m[MonthKey(a)] else 0) + PriceOf(a)];
      j in m' ==> m'[j] == Seqs.Sum(Seqs.Group(init + [a], MonthKey, j), PriceOf)
  {
    var g := Seqs.Group(init, MonthKey, j);
    var extra := if MonthKey(a) == j then [a] else [];
    Seqs.GroupSnoc(init, a, MonthKey, j);
    Seqs.SumAppend(g, extra, PriceOf);
    assert Seqs.Sum(extra, PriceOf) == if MonthKey(a) == j then PriceOf(a) else 0;
    if j !in m {
      Seqs.GroupNone(init, MonthKey, j);
    }
  }

  function SumMonths(m: map<string, int>, ks: seq<string>): int
    requires forall k :: k in ks ==> k in m
    decreases |ks|
  {
    if ks == [] then 0 else m[ks[0]] + SumMonths(m, ks[1..])
  }

  /** Listing each month once, the monthly revenues add up to the total revenue. */
  lemma MonthsSumToTotal(xs: seq<Appointment>, ks: seq<string>)
    requires Seqs.Distinct(ks)
    requires forall k :: k in ks <==> k in RevenueByMonth(xs)
    ensures SumMonths(RevenueByMonth(xs), ks) == TotalRevenue(xs)
  {
    MonthsAreGroupSums(xs, RevenueByMonth(xs), ks);
    Seqs.GroupsSumToWhole(xs, MonthKey, PriceOf, ks);
  }

  lemma {:induction false} MonthsAreGroupSums(xs: seq<Appointment>, m: map<string, int>, ks: seq<string>)
    requires forall k :: k in ks ==> k in m && m[k] == Seqs.Sum(Seqs.Group(xs, MonthKey, k), PriceOf)
    ensures SumMonths(m, ks) == Seqs.SumOfGroups(xs, MonthKey, PriceOf, ks)
    decreases |ks|
  {
    if ks != [] {
      MonthsAreGroupSums(xs, m, ks[1..]);
    }
  }
}
