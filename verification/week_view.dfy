/** The week view: one column per visible day, each column the day's appointments grouped by
    hour key and stacked. */
module WeekView {
  import opened Wrappers
  import Seqs
  import Dates
  import Breakpoints
  import Calendar
  import HourGrid
  import Appointments

  type Appointment = Appointments.Appointment

  /** The second and later entries of a group: inline `marginTop: -4px`, the `ml-2` indent
      (0.5rem, 8px at the default root size), `shadow-md` and a "+1" badge. */
  const WeekStyle: HourGrid.StackStyle := HourGrid.StackStyle(-4, 8, "+1")

  /** `getColumnClass`: the number of grid columns for a number of days. */
  function ColumnCount(daysCount: nat): (cols: nat)
    ensures cols in {3, 4, 5, 7}
    ensures daysCount <= 7 ==> daysCount <= cols
    ensures daysCount > 5 ==> cols == 7
    ensures 3 <= daysCount <= 5 ==> cols == daysCount
  {
    if daysCount <= 3 then 3
    else if daysCount <= 4 then 4
    else if daysCount <= 5 then 5
    else 7
  }

  /** Every visible day gets a column; at two days one column of three stays empty. */
  lemma ColumnsFitVisibleDays(selected: int, f: Breakpoints.Flags)
    ensures var n := |Calendar.VisibleDays(selected, f)|;
      n <= ColumnCount(n) && (n == 2 ==> ColumnCount(n) == 3)
  {
  }

  /** The view's own previous/next row shows when any of the three mobile ranges matches. Its
      buttons call the optional `onPrevious`/`onNext`, which the calendar page does not pass. */
  predicate ShowsOwnButtons(f: Breakpoints.Flags) {
    f.isSmallMobile || f.isMediumMobile || f.isLargeMobile
  }

  /** At a settled width the view's own test agrees with the page's `isMobile`. */
  lemma OwnButtonsAtWidth(width: int)
    ensures ShowsOwnButtons(Breakpoints.At(width)) <==> Breakpoints.IsMobile(width)
  {
  }

  /** One drawn day: its hour groups, each stacked. */
  datatype DayColumn = DayColumn(day: int, groups: map<string, seq<HourGrid.Placement>>)

  function Column(appointments: Option<seq<Appointment>>, day: int): (c: DayColumn)
    ensures c.day == day
    ensures var dayApps := Calendar.AppointmentsForDay(appointments, day);
      && (forall k :: k in c.groups <==> exists a :: a in dayApps && HourGrid.HourKey(a) == k)
      && (forall k :: k in c.groups ==> c.groups[k] == HourGrid.Stack(Seqs.Group(dayApps, HourGrid.HourKey, k), WeekStyle))
  {
    DayColumn(day, StackAll(HourGrid.Buckets(Calendar.AppointmentsForDay(appointments, day))))
  }

  /** Each bucket of the day, stacked. */
  function StackAll(m: map<string, seq<Appointment>>): (g: map<string, seq<HourGrid.Placement>>)
    ensures forall k :: k in g <==> k in m
    ensures forall k :: k in g ==> g[k] == HourGrid.Stack(m[k], WeekStyle)
  {
    map k | k in m :: HourGrid.Stack(m[k], WeekStyle)
  }

  /** The whole view: a column per day, in the order of `days`. */
  function Grid(days: seq<int>, appointments: Option<seq<Appointment>>): (cols: seq<DayColumn>)
    ensures |cols| == |days|
    ensures forall j :: 0 <= j < |days| ==> cols[j] == Column(appointments, days[j])
  {
    seq(|days|, j requires 0 <= j < |days| => Column(appointments, days[j]))
  }

  /** `a` is drawn in `col` under the hour key `k`. */
  predicate DrawnIn(col: DayColumn, k: string, a: Appointment) {
    k in col.groups && exists i :: 0 <= i < |col.groups[k]| && col.groups[k][i].appointment == a
  }

  /** Where an appointment is drawn: under its own hour key, in the column of the day its date
      denotes, and nowhere else. With distinct days that is exactly one place or, when its day
      is not visible or its date does not parse, none. */
  lemma DrawnWhereItBelongs(days: seq<int>, xs: seq<Appointment>, a: Appointment, j: int, k: string)
    requires a in xs && 0 <= j < |days|
    ensures DrawnIn(Grid(days, Some(xs))[j], k, a)
      <==> k == HourGrid.HourKey(a) && Dates.DisplayDay(a.date) == Some(days[j])
  {
    var col := Grid(days, Some(xs))[j];
    var dayApps := Calendar.AppointmentsForDay(Some(xs), days[j]);
    var m := HourGrid.Buckets(dayApps);
    assert col.groups == StackAll(m);
    if k in m {
      HourGrid.StackedAppointments(m[k], WeekStyle, a);
    }
    if k == HourGrid.HourKey(a) && Dates.DisplayDay(a.date) == Some(days[j]) {
      assert a in dayApps;
      HourGrid.InExactlyOneBucket(dayApps, a);
    }
  }

  /** Days listed once each show each appointment at most once. */
  lemma DrawnAtMostOnce(days: seq<int>, xs: seq<Appointment>, a: Appointment, j1: int, k1: string, j2: int, k2: string)
    requires Seqs.Distinct(days)
    requires a in xs && 0 <= j1 < |days| && 0 <= j2 < |days|
    requires DrawnIn(Grid(days, Some(xs))[j1], k1, a) && DrawnIn(Grid(days, Some(xs))[j2], k2, a)
    ensures j1 == j2 && k1 == k2
  {
    DrawnWhereItBelongs(days, xs, a, j1, k1);
    DrawnWhereItBelongs(days, xs, a, j2, k2);
    assert days[j1] == days[j2];
  }

  /** The visible days are listed once each. */
  lemma VisibleDaysDistinct(selected: int, f: Breakpoints.Flags)
    ensures Seqs.Distinct(Calendar.VisibleDays(selected, f))
  {
  }
}
