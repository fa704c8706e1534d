/** The calendar hook and page: how many days the week view shows, which days they are,
    the per-day filter, navigation and the refresh counter. Days are day numbers. */
module Calendar {
  import opened Wrappers
  import Seqs
  import Dates
  import Breakpoints
  import Appointments

  /** `getDaysToShow`: 2, 3 or 4 on the three mobile ranges (checked in that order), else 7. */
  function DaysToShow(f: Breakpoints.Flags): (n: nat)
    ensures n in {2, 3, 4, 7}
    ensures n < 7 <==> f.isSmallMobile || f.isMediumMobile || f.isLargeMobile
  {
    if f.isSmallMobile then 2
    else if f.isMediumMobile then 3
    else if f.isLargeMobile then 4
    else 7
  }

  /** At a settled width, the day count steps down with the width, and is 7 exactly off mobile. */
  lemma DaysToShowAtWidth(width: int)
    ensures var n := DaysToShow(Breakpoints.At(width));
      && (width <= 430 ==> n == 2)
      && (431 <= width <= 639 ==> n == 3)
      && (640 <= width <= 767 ==> n == 4)
      && (n == 7 <==> !Breakpoints.IsMobile(width))
  {
  }

  /** The number of days `getDaysOfWeek` lists. */
  function DayCount(f: Breakpoints.Flags): (n: nat)
    ensures 2 <= n <= 7
    ensures !f.isMobile ==> n == 7
    ensures f.isMobile ==> n == DaysToShow(f)
  {
    if f.isMobile then DaysToShow(f) else 7
  }

  /** The days of the week view: they start on the Monday of the week holding `selected`, run
      on day by day, and number `getDaysToShow()` on mobile and 7 otherwise. */
  function VisibleDays(selected: int, f: Breakpoints.Flags): (days: seq<int>)
    ensures |days| == DayCount(f)
    ensures Dates.Weekday(days[0]) == 0 && days[0] <= selected < days[0] + 7
    ensures forall i :: 0 <= i < |days| ==> days[i] == days[0] + i
  {
    var start := Dates.StartOfWeek(selected);
    seq(DayCount(f), i => start + i)
  }

  /** `getDaysOfWeek` as written: from the start of the week, push each day up to `end`, which
      is `start + daysToShow - 1` on mobile and the end of the week (Sunday) otherwise. */
  method GetDaysOfWeek(selected: int, f: Breakpoints.Flags) returns (days: seq<int>)
    ensures days == VisibleDays(selected, f)
  {
    var start := Dates.StartOfWeek(selected);
    var daysToShow := DaysToShow(f);
    var end := if f.isMobile then start + daysToShow - 1 else start + 6;
    days := [];
    var day := start;
    while day <= end
      invariant start <= day <= end + 1
      invariant |days| == day - start
      invariant forall i :: 0 <= i < |days| ==> days[i] == start + i
    {
      days := days + [day];
      day := day + 1;
    }
  }

  /** The visible days depend only on the week holding `selected`: two dates show the same days
      exactly when they share a Monday. */
  lemma VisibleDaysDependOnlyOnWeek(a: int, b: int, f: Breakpoints.Flags)
    ensures VisibleDays(a, f) == VisibleDays(b, f) <==> Dates.StartOfWeek(a) == Dates.StartOfWeek(b)
  {
    if VisibleDays(a, f) == VisibleDays(b, f) {
      assert VisibleDays(a, f)[0] == VisibleDays(b, f)[0];
    }
  }

  /** On mobile only the first `getDaysToShow()` weekdays are ever visible: the week view never
      reaches Thursday to Sunday at two or three days, nor Friday to Sunday at four. */
  lemma MobileShowsOnlyEarlyWeekdays(selected: int, f: Breakpoints.Flags)
    requires f.isMobile
    ensures forall d :: d in VisibleDays(selected, f) ==> Dates.Weekday(d) < DaysToShow(f)
  {
    var days := VisibleDays(selected, f);
    forall d | d in days
      ensures Dates.Weekday(d) < DaysToShow(f)
    {
      var i :| 0 <= i < |days| && days[i] == d;
      assert d == days[0] + i;
      assert Dates.StartOfWeek(d) == days[0] by {
        Dates.StartOfWeekUnique(d, days[0]);
      }
    }
  }

  /** `handleNextDays`: forward by `getDaysToShow()` days. */
  function NextDays(selected: int, f: Breakpoints.Flags): (r: int)
    ensures r - selected == DaysToShow(f)
  {
    selected + DaysToShow(f)
  }

  /** `handlePrevDays`: back by `getDaysToShow()` days. */
  function PrevDays(selected: int, f: Breakpoints.Flags): (r: int)
    ensures selected - r == DaysToShow(f)
  {
    selected - DaysToShow(f)
  }

  /** Forward then back, or back then forward, under the same breakpoint, returns to the start. */
  lemma NavigationRoundTrip(selected: int, f: Breakpoints.Flags)
    ensures PrevDays(NextDays(selected, f), f) == selected
    ensures NextDays(PrevDays(selected, f), f) == selected
  {
  }

  /** On mobile, "next" from a day early enough in its week stays in that week, so the visible
      days do not change. */
  lemma NextCanKeepVisibleDays(selected: int, f: Breakpoints.Flags)
    requires Dates.Weekday(selected) + DaysToShow(f) < 7
    ensures VisibleDays(NextDays(selected, f), f) == VisibleDays(selected, f)
  {
    var next := NextDays(selected, f);
    Dates.StartOfWeekUnique(next, Dates.StartOfWeek(selected));
  }

  /** At 400px, "next" from any Monday moves to Wednesday, and the view still shows that
      Monday and Tuesday. */
  lemma SmallMobileNextFromMonday(monday: int)
    requires Dates.Weekday(monday) == 0
    ensures var f := Breakpoints.At(400);
      && NextDays(monday, f) == monday + 2
      && VisibleDays(NextDays(monday, f), f) == VisibleDays(monday, f) == [monday, monday + 1]
  {
    var f := Breakpoints.At(400);
    NextCanKeepVisibleDays(monday, f);
    Dates.StartOfWeekUnique(monday, monday);
  }

  /** The previous/next buttons appear only on mobile in the week tab. */
  predicate ShowsNavigation(isMobile: bool, activeView: string) {
    isMobile && activeView == "week"
  }

  /** At a settled width the buttons are offered exactly when the week tab shows a cut-down
      week, so there are days of the week to step to that are not on screen. */
  lemma NavigationOnlyWhenWeekCut(width: int, activeView: string, selected: int)
    ensures ShowsNavigation(Breakpoints.At(width).isMobile, activeView)
      <==> activeView == "week" && DaysToShow(Breakpoints.At(width)) < 7
    ensures ShowsNavigation(Breakpoints.At(width).isMobile, activeView)
      ==> |VisibleDays(selected, Breakpoints.At(width))| < 7
  {
  }

  /** `getAppointmentsForDay`: nothing when the list is absent, otherwise the appointments whose
      display date denotes `day`, in their original order. */
  function AppointmentsForDay(appointments: Option<seq<Appointment>>, day: int): (r: seq<Appointment>)
    ensures appointments.None? ==> r == []
    ensures appointments.Some? ==>
      && |r| <= |appointments.value|
      && (forall a :: a in r <==> a in appointments.value && Dates.DisplayDay(a.date) == Some(day))
      && Seqs.IsSubsequence(r, appointments.value)
      && forall a :: multiset(r)[a] ==
           if Dates.DisplayDay(a.date) == Some(day) then multiset(appointments.value)[a] else 0
  {
    match appointments
    case None => []
    case Some(xs) => Seqs.Filter(xs, (a: Appointment) => Dates.DisplayDay(a.date) == Some(day))
  }

  type Appointment = Appointments.Appointment

  /** The page state the handlers change. */
  datatype State = State(selectedDate: int, activeView: string, refreshKey: int)

  /** What the user can do on the calendar page. `Added` is both a new booking and a status
      change made from the details dialog, which share the `handleAppointmentAdded` callback. */
  datatype Event = Prev | Next | Today(today: int) | SelectView(view: string) | Added

  /** One handler run. Prev and Next only do something when their buttons are on screen. */
  function Step(s: State, f: Breakpoints.Flags, e: Event): (t: State)
    ensures t.refreshKey == s.refreshKey + (if e.Added? then 1 else 0)
    ensures !e.SelectView? ==> t.activeView == s.activeView
    ensures (e.Prev? || e.Next?) && !ShowsNavigation(f.isMobile, s.activeView) ==> t == s
    ensures e.Next? && ShowsNavigation(f.isMobile, s.activeView)
      ==> t == s.(selectedDate := s.selectedDate + DaysToShow(f))
    ensures e.Prev? && ShowsNavigation(f.isMobile, s.activeView)
      ==> t == s.(selectedDate := s.selectedDate - DaysToShow(f))
    ensures e.Today? ==> t == s.(selectedDate := e.today)
    ensures e.SelectView? ==> t == s.(activeView := e.view)
    ensures e.Added? ==> t == s.(refreshKey := s.refreshKey + 1)
  {
    match e
    case Prev =>
      if ShowsNavigation(f.isMobile, s.activeView) then s.(selectedDate := PrevDays(s.selectedDate, f)) else s
    case Next =>
      if ShowsNavigation(f.isMobile, s.activeView) then s.(selectedDate := NextDays(s.selectedDate, f)) else s
    case Today(d) => s.(selectedDate := d)
    case SelectView(v) => s.(activeView := v)
    case Added => s.(refreshKey := s.refreshKey + 1)
  }

  function Run(s: State, f: Breakpoints.Flags, events: seq<Event>): State
    decreases |events|
  {
    if events == [] then s else Run(Step(s, f, events[0]), f, events[1..])
  }

  function CountAdded(events: seq<Event>): nat
    decreases |events|
  {
    if events == [] then 0 else (if events[0].Added? then 1 else 0) + CountAdded(events[1..])
  }

  /** The refresh key only ever grows, by one per added or updated appointment, so every such
      change triggers a fresh load. */
  lemma {:induction false} RefreshKeyCountsChanges(s: State, f: Breakpoints.Flags, events: seq<Event>)
    ensures Run(s, f, events).refreshKey == s.refreshKey + CountAdded(events)
    decreases |events|
  {
    if events != [] {
      RefreshKeyCountsChanges(Step(s, f, events[0]), f, events[1..]);
    }
  }
}
