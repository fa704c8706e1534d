/** The appointments page: the list filtered by a name search and a status filter, the actions
    the details dialog offers for each status, and the refresh counter that reloads the list. */
module AppointmentsPage {
  import opened Wrappers
  import Seqs
  import Text
  import Appointments

  type Appointment = Appointments.Appointment
  type Status = Appointments.Status

  /** The client name contains the search term, ignoring case, and the status passes the filter. */
  predicate Matches(a: Appointment, searchTerm: string, statusFilter: string) {
    && Text.Contains(Text.Lower(a.clientName), Text.Lower(searchTerm))
    && (statusFilter == "all" || Appointments.StatusName(a.status) == statusFilter)
  }

  function Matching(searchTerm: string, statusFilter: string): Appointment -> bool {
    (a: Appointment) => Matches(a, searchTerm, statusFilter)
  }

  /** `filteredAppointments`: the appointments that match, in list order. */
  function FilteredAppointments(xs: seq<Appointment>, searchTerm: string, statusFilter: string): (r: seq<Appointment>)
    ensures |r| <= |xs|
    ensures forall a :: a in r <==> a in xs && Matches(a, searchTerm, statusFilter)
    ensures Seqs.IsSubsequence(r, xs)
    ensures forall a :: multiset(r)[a] == if Matches(a, searchTerm, statusFilter) then multiset(xs)[a] else 0
  {
    Seqs.Filter(xs, Matching(searchTerm, statusFilter))
  }

  /** With no search term and the "all" filter, the whole list is shown. */
  lemma EmptySearchShowsAll(xs: seq<Appointment>)
    ensures FilteredAppointments(xs, "", "all") == xs
  {
    forall a | a in xs
      ensures Matching("", "all")(a)
    {
      Text.ContainsEmpty(Text.Lower(a.clientName));
    }
    Seqs.FilterAll(xs, Matching("", "all"));
  }

  /** Filtering the filtered list again changes nothing. */
  lemma FilterIsIdempotent(xs: seq<Appointment>, searchTerm: string, statusFilter: string)
    ensures FilteredAppointments(FilteredAppointments(xs, searchTerm, statusFilter), searchTerm, statusFilter)
      == FilteredAppointments(xs, searchTerm, statusFilter)
  {
    Seqs.FilterIdempotent(xs, Matching(searchTerm, statusFilter));
  }

  /** With no search term, the page's status filter selects exactly what the service's
      `getAppointmentsByStatus` returns for the same filter value. */
  lemma StatusFilterAgreesWithService(xs: seq<Appointment>, statusFilter: string)
    ensures FilteredAppointments(xs, "", statusFilter) == Appointments.GetAppointmentsByStatus(xs, statusFilter)
  {
    if statusFilter == "all" {
      EmptySearchShowsAll(xs);
    } else {
      forall a | a in xs
        ensures Matching("", statusFilter)(a) == Appointments.HasStatusNamed(statusFilter)(a)
      {
        Text.ContainsEmpty(Text.Lower(a.clientName));
      }
      Seqs.FilterCongruent(xs, Matching("", statusFilter), Appointments.HasStatusNamed(statusFilter));
    }
  }

  /** The buttons of the details dialog. */
  datatype Action = CancelAppointment | CompleteAppointment | Close

  /** A pending appointment offers cancel and complete; a completed or cancelled one only close. */
  function ActionsFor(s: Status): (acts: seq<Action>)
    ensures CancelAppointment in acts <==> s.Pending?
    ensures CompleteAppointment in acts <==> s.Pending?
    ensures Close in acts <==> !s.Pending?
  {
    match s
    case Pending => [CancelAppointment, CompleteAppointment]
    case Completed => [Close]
    case Cancelled => [Close]
  }

  /** The status an action asks for; closing asks for none. */
  function Target(act: Action): Option<Status> {
    match act
    case CancelAppointment => Some(Appointments.Cancelled)
    case CompleteAppointment => Some(Appointments.Completed)
    case Close => None
  }

  /** The only status changes the dialog can request are pending to completed and pending to
      cancelled; a completed or cancelled appointment is final. */
  lemma OnlyPendingChanges(s: Status, act: Action)
    requires act in ActionsFor(s) && Target(act).Some?
    ensures s.Pending?
    ensures Target(act) == Some(Appointments.Completed) || Target(act) == Some(Appointments.Cancelled)
  {
  }

  /** The page state the handlers touch. */
  datatype PageState = PageState(
    searchTerm: string, statusFilter: string, selected: Option<Appointment>, refreshKey: int)

  /** `handleStatusUpdate`, given whether the status service found and updated the appointment:
      on success the list is reloaded and the dialog closed; otherwise nothing changes. */
  function HandleStatusUpdate(st: PageState, updated: bool): (t: PageState)
    ensures updated ==> t == st.(refreshKey := st.refreshKey + 1, selected := None)
    ensures !updated ==> t == st
  {
    if updated then st.(refreshKey := st.refreshKey + 1, selected := None) else st
  }

  /** `handleAppointmentAdded`: reload the list. */
  function HandleAppointmentAdded(st: PageState): (t: PageState)
    ensures t.refreshKey == st.refreshKey + 1
    ensures t.(refreshKey := st.refreshKey) == st
  {
    st.(refreshKey := st.refreshKey + 1)
  }

  /** The dialog's "Cerrar" button, or the dialog closed from outside: no appointment is
      selected any more, and nothing else changes. */
  function CloseDetails(st: PageState): (t: PageState)
    ensures t.selected.None?
    ensures t.(selected := st.selected) == st
  {
    st.(selected := None)
  }

  /** The button `act` is on screen: a dialog is open and offers it for its appointment. */
  predicate Offered(st: PageState, act: Action) {
    st.selected.Some? && act in ActionsFor(st.selected.value.status)
  }

  /** What can happen on the page. `Press` is a button of the details dialog; for the two status
      buttons it carries the outcome the status service reports. `Dismiss` is the dialog closed
      from outside it. */
  datatype Event =
    | Search(term: string)
    | SetFilter(filter: string)
    | Open(appointment: Appointment)
    | Press(act: Action, updated: bool)
    | Added
    | Dismiss

  /** One handler run. A button the open dialog does not show cannot be pressed, so a status
      update reaches `handleStatusUpdate` only from a pending appointment's dialog. */
  function Step(st: PageState, e: Event): (t: PageState)
    ensures e.Search? ==> t == st.(searchTerm := e.term)
    ensures e.SetFilter? ==> t == st.(statusFilter := e.filter)
    ensures e.Open? ==> t == st.(selected := Some(e.appointment))
    ensures e.Added? ==> t == st.(refreshKey := st.refreshKey + 1)
    ensures e.Dismiss? ==> t == st.(selected := None)
    ensures e.Press? && !Offered(st, e.act) ==> t == st
    ensures e.Press? && Offered(st, e.act) && e.act == Close ==> t == st.(selected := None)
    ensures e.Press? && Offered(st, e.act) && e.act != Close ==> t == HandleStatusUpdate(st, e.updated)
    ensures e.Press? && t != st ==> st.selected.Some? && (st.selected.value.status.Pending? <==> e.act != Close)
  {
    match e
    case Search(term) => st.(searchTerm := term)
    case SetFilter(filter) => st.(statusFilter := filter)
    case Open(a) => st.(selected := Some(a))
    case Press(act, updated) =>
      if !Offered(st, act) then st
      else if act == Close then CloseDetails(st)
      else HandleStatusUpdate(st, updated)
    case Added => HandleAppointmentAdded(st)
    case Dismiss => CloseDetails(st)
  }

  /** A status change made through the page's events comes from a pending appointment and asks
      for completed or cancelled. */
  lemma StepChangesOnlyPending(st: PageState, act: Action, updated: bool)
    requires Step(st, Press(act, updated)).refreshKey != st.refreshKey
    ensures st.selected.Some? && st.selected.value.status.Pending?
    ensures Target(act) == Some(Appointments.Completed) || Target(act) == Some(Appointments.Cancelled)
  {
    OnlyPendingChanges(st.selected.value.status, act);
  }

  function Run(st: PageState, events: seq<Event>): PageState
    decreases |events|
  {
    if events == [] then st else Run(Step(st, events[0]), events[1..])
  }

  /** The number of events that change the stored appointments: additions, and status buttons
      actually offered whose update succeeded. */
  function Changes(st: PageState, events: seq<Event>): nat
    decreases |events|
  {
    if events == [] then 0
    else
      var e := events[0];
      (if e.Added? || (e.Press? && e.updated && e.act != Close && Offered(st, e.act)) then 1 else 0)
        + Changes(Step(st, e), events[1..])
  }

  /** The refresh key grows by exactly one per added appointment or successful status update,
      so each such change reloads the list and nothing else does. */
  lemma {:induction false} RefreshKeyCountsChanges(st: PageState, events: seq<Event>)
    ensures Run(st, events).refreshKey == st.refreshKey + Changes(st, events)
    decreases |events|
  {
    if events != [] {
      RefreshKeyCountsChanges(Step(st, events[0]), events[1..]);
    }
  }

  /** Whatever its status, an opened dialog can be closed again without touching anything else:
      opening and then dismissing leaves the page as it was, with no appointment selected. */
  lemma OpenThenDismiss(st: PageState, a: Appointment)
    ensures Run(st, [Open(a), Dismiss]) == st.(selected := None)
  {
    assert [Open(a), Dismiss][1..] == [Dismiss];
    assert [Dismiss][1..] == [];
  }
}
