/** The doctor's appointment list: a status filter whose options come from
    the appointments themselves (a missing status counts as "pending"), and
    the confirm action. The record, the shown status, the options and the
    confirm rule are those of the schedule screen. */
module DoctorAppointments {
  import opened Wrappers
  import opened Text
  import Lists
  import opened DoctorSchedule

  /** `filteredAppointments`. */
  function FilterAppointments(appts: seq<Appointment>, filter: String): (r: seq<Appointment>)
    ensures |r| <= |appts|
    ensures filter == "all" ==> r == appts
    ensures filter != "all" ==> forall i :: 0 <= i < |r| ==> StatusOrPending(r[i]) == filter
  {
    if filter == "all" then appts else Lists.Filter(appts, ShownStatusIs(filter))
  }

  /** The list holds, in order, exactly the appointments whose shown status
      is the filter; "Showing n of m" never has n > m. */
  lemma FilterAppointmentsSpec(appts: seq<Appointment>, filter: String)
    ensures Lists.IsSubsequence(FilterAppointments(appts, filter), appts)
    ensures forall a :: a in FilterAppointments(appts, filter) <==> a in appts && (filter == "all" || StatusOrPending(a) == filter)
  {
    if filter == "all" {
      Lists.SubsequenceRefl(appts);
    } else {
      Lists.FilterIsSubsequence(appts, ShownStatusIs(filter));
      forall a
        ensures a in FilterAppointments(appts, filter) <==> a in appts && StatusOrPending(a) == filter
      {
        Lists.FilterMembers(appts, ShownStatusIs(filter), a);
      }
    }
  }

  /** Every status button other than "All" selects at least one appointment. */
  lemma OfferedStatusSelectsSomething(appts: seq<Appointment>, status: String)
    requires status in AvailableStatuses(appts)[1..]
    ensures status != "all" ==> |FilterAppointments(appts, status)| > 0
  {
    var i :| 0 <= i < |appts| && StatusOrPending(appts[i]) == status;
    FilterAppointmentsSpec(appts, status);
    assert appts[i] in FilterAppointments(appts, status);
  }

  /** The clear button goes back to "all", which lists everything. */
  function ClearFilter(filter: String): (r: String)
    ensures forall appts :: FilterAppointments(appts, r) == appts
  {
    "all"
  }

  /** The schedule's list for a day is this list restricted to that day:
      filtering by status and by day commute. */
  lemma ScheduleAgreesWithList(appts: seq<Appointment>, date: String, filter: String)
    requires date != []
    ensures SelectedAppointments(appts, Some(date), filter) == AppointmentsForDate(FilterAppointments(appts, filter), date)
  {
    if filter != "all" {
      Lists.FilterFilter(appts, OnDate(date), ShownStatusIs(filter));
      Lists.FilterFilter(appts, ShownStatusIs(filter), OnDate(date));
      Lists.FilterCongruent(appts, Lists.And(OnDate(date), ShownStatusIs(filter)), Lists.And(ShownStatusIs(filter), OnDate(date)));
    }
  }

  datatype ConfirmRequest = ConfirmRequest(apId: int)

  /** The confirm button and the request it sends. */
  function Confirm(a: Appointment): (r: Option<ConfirmRequest>)
    ensures r.Some? <==> a.apStatus == Some("pending")
    ensures r.Some? ==> r.value.apId == a.apId
  {
    if OffersConfirm(a) then Some(ConfirmRequest(a.apId)) else None
  }

  /** Under the "pending" filter some cards may have no confirm button:
      exactly those without a status. */
  lemma PendingFilterWithoutConfirm(appts: seq<Appointment>, a: Appointment)
    requires a in FilterAppointments(appts, "pending")
    ensures Confirm(a).None? <==> !TruthyOpt(a.apStatus)
  {
    FilterAppointmentsSpec(appts, "pending");
  }
}
