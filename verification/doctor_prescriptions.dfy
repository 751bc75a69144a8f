/** The doctor's prescription screen: the confirmed-appointment list, the
    prescription form with its validation, the filtered prescription
    history, and the two paginations with their Previous/Next buttons and
    five-page window. */
module DoctorPrescriptions {
  import opened Wrappers
  import opened Text
  import Lists
  import Paging
  import Envelope

  const AppointmentsPerPage: nat := 5
  const PrescriptionsPerPage: nat := 9

  /** A numeric id is falsy when absent or 0. */
  predicate IdTruthy(id: Option<int>)
  {
    id.Some? && id.value != 0
  }

  /* ---------- appointments to prescribe for ---------- */

  datatype Patient = Patient(user_id: Option<int>, userId: Option<int>, fName: Option<String>, lName: Option<String>)

  datatype AppointmentRow = AppointmentRow(apId: int, apStatus: Option<String>, users: Patient)

  /** `users.user_id || users.userId`. */
  function PatientId(p: Patient): (r: Option<int>)
    ensures IdTruthy(p.user_id) ==> r == p.user_id
    ensures !IdTruthy(p.user_id) ==> r == p.userId
  {
    if IdTruthy(p.user_id) then p.user_id else p.userId
  }

  predicate IsConfirmed(a: AppointmentRow)
  {
    a.apStatus == Some("confirmed")
  }

  /** `confirmedAppointments`. */
  function ConfirmedAppointments(appts: seq<AppointmentRow>): (r: seq<AppointmentRow>)
    ensures forall i :: 0 <= i < |r| ==> r[i].apStatus == Some("confirmed")
  {
    Lists.Filter(appts, IsConfirmed)
  }

  /** Exactly the appointments whose status is the string "confirmed", in order. */
  lemma ConfirmedAppointmentsSpec(appts: seq<AppointmentRow>)
    ensures Lists.IsSubsequence(ConfirmedAppointments(appts), appts)
    ensures forall a :: a in ConfirmedAppointments(appts) <==> a in appts && a.apStatus == Some("confirmed")
  {
    Lists.FilterIsSubsequence(appts, IsConfirmed);
    forall a
      ensures a in ConfirmedAppointments(appts) <==> a in appts && IsConfirmed(a)
    {
      Lists.FilterMembers(appts, IsConfirmed, a);
    }
  }

  /** `confirmedAppointments.find(appt => appt.appointments.apId === id)`. */
  function FindAppointment(appts: seq<AppointmentRow>, id: int): (r: Option<AppointmentRow>)
    ensures r.None? <==> forall i :: 0 <= i < |appts| ==> appts[i].apId != id
    ensures r.Some? ==> (exists i :: (0 <= i < |appts| && appts[i] == r.value && r.value.apId == id &&
      (forall j :: 0 <= j < i ==> appts[j].apId != id)))
  {
    if |appts| == 0 then None
    else if appts[0].apId == id then Some(appts[0])
    else
      var r := FindAppointment(appts[1..], id);
      assert forall j :: 0 < j < |appts| ==> appts[j] == appts[1..][j - 1];
      r
  }

  /* ---------- the prescription form ---------- */

  datatype Form = Form(appointment: Option<int>, patient: Option<int>, notes: String)

  const EmptyForm: Form := Form(None, None, "")

  /** Clicking an appointment card picks it and its patient. */
  function ClickAppointment(f: Form, a: AppointmentRow): (r: Form)
    ensures r.appointment == Some(a.apId) && r.patient == PatientId(a.users) && r.notes == f.notes
  {
    f.(appointment := Some(a.apId), patient := PatientId(a.users))
  }

  /** Choosing in the appointment select (`Number` of the option value, so
      the empty option arrives as 0): the patient follows only when the id
      is one of the confirmed appointments, otherwise it is kept. */
  function ChangeAppointment(f: Form, confirmed: seq<AppointmentRow>, selectedId: int): (r: Form)
    ensures r.appointment == Some(selectedId) && r.notes == f.notes
    ensures (forall i :: 0 <= i < |confirmed| ==> confirmed[i].apId != selectedId) ==> r.patient == f.patient
    ensures forall i :: (0 <= i < |confirmed| && confirmed[i].apId == selectedId &&
      (forall j :: 0 <= j < i ==> confirmed[j].apId != selectedId)) ==> r.patient == PatientId(confirmed[i].users)
  {
    match FindAppointment(confirmed, selectedId)
    case None => f.(appointment := Some(selectedId))
    case Some(a) => f.(appointment := Some(selectedId), patient := PatientId(a.users))
  }

  /** Choosing an appointment in the select has the same effect as clicking its card. */
  lemma ChangeAgreesWithClick(f: Form, confirmed: seq<AppointmentRow>, i: int)
    requires 0 <= i < |confirmed|
    requires forall j :: 0 <= j < |confirmed| && confirmed[j].apId == confirmed[i].apId ==> j == i
    ensures ChangeAppointment(f, confirmed, confirmed[i].apId) == ClickAppointment(f, confirmed[i])
  {
  }

  datatype PrescriptionRequest = PrescriptionRequest(apId: int, userId: int, docId: int, notes: String)

  datatype Submission = Refused(message: String) | Sent(request: PrescriptionRequest)

  /** `handleSubmit` up to the request: the four checks in order, then the payload. */
  function Submit(f: Form, doctorId: Option<int>): (r: Submission)
    ensures r.Sent? <==> IdTruthy(f.appointment) && IdTruthy(f.patient) && IdTruthy(doctorId) && Trim(f.notes) != []
    ensures !IdTruthy(f.appointment) ==> r == Refused("Please select an appointment.")
    ensures IdTruthy(f.appointment) && !IdTruthy(f.patient) ==> r == Refused("Patient ID not found. Please reselect the appointment.")
    ensures IdTruthy(f.appointment) && IdTruthy(f.patient) && !IdTruthy(doctorId) ==> r == Refused("Doctor ID not found. Please refresh the page.")
    ensures IdTruthy(f.appointment) && IdTruthy(f.patient) && IdTruthy(doctorId) && Trim(f.notes) == [] ==> r == Refused("Please enter prescription notes.")
    ensures r.Sent? ==> r.request == PrescriptionRequest(f.appointment.value, f.patient.value, doctorId.value, Trim(f.notes))
  {
    if !IdTruthy(f.appointment) then Refused("Please select an appointment.")
    else if !IdTruthy(f.patient) then Refused("Patient ID not found. Please reselect the appointment.")
    else if !IdTruthy(doctorId) then Refused("Doctor ID not found. Please refresh the page.")
    else if Trim(f.notes) == [] then Refused("Please enter prescription notes.")
    else Sent(PrescriptionRequest(f.appointment.value, f.patient.value, doctorId.value, Trim(f.notes)))
  }

  /** Notes made only of blanks are refused, and the notes sent carry no
      surrounding blanks: sending again what was sent sends the same notes. */
  lemma SubmitNotes(f: Form, doctorId: Option<int>)
    ensures IsBlank(f.notes) ==> Submit(f, doctorId).Refused?
    ensures Submit(f, doctorId).Sent? ==>
      var n := Submit(f, doctorId).request.notes;
      n != [] && !IsSpace(n[0]) && !IsSpace(n[|n| - 1]) &&
      Submit(f.(notes := n), doctorId) == Submit(f, doctorId)
  {
    TrimEmptyIffBlank(f.notes);
    TrimIdempotent(f.notes);
  }

  /** `resetForm`. */
  function ResetForm(f: Form): (r: Form)
    ensures r.appointment.None? && r.patient.None? && r.notes == []
  {
    EmptyForm
  }

  /** After a created prescription the form is cleared. */
  function AfterCreated(f: Form): (r: Form)
    ensures r.appointment.None? && r.patient.None? && r.notes == []
  {
    Form(None, None, "")
  }

  /** A successful submit leaves the same form as Reset, and a cleared form is refused. */
  lemma CreatedEqualsReset(f: Form, doctorId: Option<int>)
    ensures AfterCreated(f) == ResetForm(f) == EmptyForm
    ensures Submit(AfterCreated(f), doctorId) == Refused("Please select an appointment.")
  {
  }

  /* ---------- the prescription history ---------- */

  datatype PrescriptionItem = PrescriptionItem(users: Option<Patient>, apDate: Option<String>, notes: String)

  datatype Filters = Filters(patientName: String, date: String, notes: String)

  const NoFilters: Filters := Filters("", "", "")

  /** "first last" of the patient, missing parts empty. */
  function PatientName(item: PrescriptionItem): String
  {
    var first := if item.users.Some? then item.users.value.fName else None;
    var last := if item.users.Some? then item.users.value.lName else None;
    OrEmpty(first) + " " + OrEmpty(last)
  }

  predicate ItemMatches(item: PrescriptionItem, fs: Filters)
  {
    && (fs.patientName == [] || Contains(Lower(PatientName(item)), Lower(fs.patientName)))
    && (fs.date == [] || Contains(OrEmpty(item.apDate), fs.date))
    && (fs.notes == [] || Contains(Lower(item.notes), Lower(fs.notes)))
  }

  function MatchesFilters(fs: Filters): PrescriptionItem -> bool
  {
    item => ItemMatches(item, fs)
  }

  /** `filteredPrescriptions`. */
  function FilterPrescriptions(items: seq<PrescriptionItem>, fs: Filters): (r: seq<PrescriptionItem>)
    ensures |r| <= |items|
    ensures forall i :: 0 <= i < |r| ==> ItemMatches(r[i], fs)
  {
    Lists.Filter(items, MatchesFilters(fs))
  }

  /** The history keeps exactly the matching prescriptions in order; an
      empty filter constrains nothing, so it is the same as a plain
      substring test with the empty string; with no filter every
      prescription is kept. */
  lemma FilterPrescriptionsSpec(items: seq<PrescriptionItem>, fs: Filters)
    ensures Lists.IsSubsequence(FilterPrescriptions(items, fs), items)
    ensures forall item :: item in FilterPrescriptions(items, fs) <==> item in items && ItemMatches(item, fs)
    ensures forall item :: ItemMatches(item, fs) <==>
      && ContainsIgnoringCase(PatientName(item), fs.patientName)
      && Contains(OrEmpty(item.apDate), fs.date)
      && ContainsIgnoringCase(item.notes, fs.notes)
    ensures FilterPrescriptions(items, NoFilters) == items
  {
    Lists.FilterIsSubsequence(items, MatchesFilters(fs));
    forall item
      ensures item in FilterPrescriptions(items, fs) <==> item in items && ItemMatches(item, fs)
    {
      Lists.FilterMembers(items, MatchesFilters(fs), item);
    }
    forall item
      ensures ItemMatches(item, fs) <==>
        && ContainsIgnoringCase(PatientName(item), fs.patientName)
        && Contains(OrEmpty(item.apDate), fs.date)
        && ContainsIgnoringCase(item.notes, fs.notes)
    {
      ContainsEmpty(Lower(PatientName(item)));
      ContainsEmpty(OrEmpty(item.apDate));
      ContainsEmpty(Lower(item.notes));
    }
    forall i | 0 <= i < |items|
      ensures ItemMatches(items[i], NoFilters)
    {
    }
    Lists.FilterAll(items, MatchesFilters(NoFilters));
  }

  /** `activeFiltersCount`: how many of the three filters are non-empty. */
  function ActiveFiltersCount(fs: Filters): (n: nat)
    ensures n <= 3
    ensures n == 0 <==> fs == NoFilters
  {
    (if fs.patientName != [] then 1 else 0) + (if fs.date != [] then 1 else 0) + (if fs.notes != [] then 1 else 0)
  }

  /** The property names a prescriptions response may wrap its list in, in the order tried. */
  const PrescriptionKeys: seq<String> := ["prescriptions", "data"]

  /** `prescriptionsList`. */
  function PrescriptionsList(b: Envelope.Body<PrescriptionItem>): (r: seq<PrescriptionItem>)
    ensures b.NoBody? ==> r == []
    ensures b.ArrayBody? ==> r == b.items
  {
    Envelope.Unwrap(b, PrescriptionKeys)
  }

  /** `.prescriptions` is tried before `.data`. */
  lemma PrescriptionsKeyOrder(fields: map<String, seq<PrescriptionItem>>)
    ensures "prescriptions" in fields ==> PrescriptionsList(Envelope.ObjectBody(fields)) == fields["prescriptions"]
    ensures "prescriptions" !in fields && "data" in fields ==> PrescriptionsList(Envelope.ObjectBody(fields)) == fields["data"]
    ensures "prescriptions" !in fields && "data" !in fields ==> PrescriptionsList(Envelope.ObjectBody(fields)) == []
  {
    Envelope.UnwrapOrder(fields, "prescriptions", "data");
  }

  /* ---------- the screen's filter and page state ---------- */

  datatype View = View(filters: Filters, appointmentsPage: int, prescriptionsPage: int)

  const InitialView: View := View(NoFilters, 1, 1)

  function SetPatientNameFilter(v: View, s: String): View { v.(filters := v.filters.(patientName := s), prescriptionsPage := 1) }
  function SetDateFilter(v: View, s: String): View { v.(filters := v.filters.(date := s), prescriptionsPage := 1) }
  function SetNotesFilter(v: View, s: String): View { v.(filters := v.filters.(notes := s), prescriptionsPage := 1) }

  /** `clearFilters`. */
  function ClearFilters(v: View): (r: View)
    ensures r.filters == NoFilters && r.prescriptionsPage == 1
    ensures r.appointmentsPage == v.appointmentsPage
  {
    v.(filters := NoFilters, prescriptionsPage := 1)
  }

  /** Every filter edit and clearing go back to page 1 of the history and
      leave the appointments page alone; after clearing no filter is active. */
  lemma FilterEditsResetPage(v: View, s: String)
    ensures SetPatientNameFilter(v, s).prescriptionsPage == 1 && SetPatientNameFilter(v, s).appointmentsPage == v.appointmentsPage
    ensures SetDateFilter(v, s).prescriptionsPage == 1 && SetDateFilter(v, s).appointmentsPage == v.appointmentsPage
    ensures SetNotesFilter(v, s).prescriptionsPage == 1 && SetNotesFilter(v, s).appointmentsPage == v.appointmentsPage
    ensures ActiveFiltersCount(ClearFilters(v).filters) == 0
    ensures ActiveFiltersCount(SetDateFilter(ClearFilters(v), s).filters) == (if s == [] then 0 else 1)
  {
  }

  /** Previous/Next on the appointment list (functional updates clamped to the range). */
  function AppointmentsPrevious(v: View): View { v.(appointmentsPage := Paging.PrevPage(v.appointmentsPage)) }
  function AppointmentsNext(v: View, totalPages: int): View { v.(appointmentsPage := Paging.NextPage(v.appointmentsPage, totalPages)) }
  function PrescriptionsPrevious(v: View): View { v.(prescriptionsPage := Paging.PrevPage(v.prescriptionsPage)) }
  function PrescriptionsNext(v: View, totalPages: int): View { v.(prescriptionsPage := Paging.NextPage(v.prescriptionsPage, totalPages)) }

  /** Both page counters stay within [1, totalPages] under Previous and
      Next, and each button moves only its own counter. */
  lemma PageButtonsStayInRange(v: View, apptPages: int, prescPages: int)
    requires 1 <= v.appointmentsPage <= apptPages && 1 <= v.prescriptionsPage <= prescPages
    ensures 1 <= AppointmentsPrevious(v).appointmentsPage <= apptPages
    ensures 1 <= AppointmentsNext(v, apptPages).appointmentsPage <= apptPages
    ensures 1 <= PrescriptionsPrevious(v).prescriptionsPage <= prescPages
    ensures 1 <= PrescriptionsNext(v, prescPages).prescriptionsPage <= prescPages
    ensures AppointmentsNext(v, apptPages).prescriptionsPage == v.prescriptionsPage
    ensures PrescriptionsNext(v, prescPages).appointmentsPage == v.appointmentsPage
  {
    Paging.PrevNextStayInRange(v.appointmentsPage, apptPages);
    Paging.PrevNextStayInRange(v.prescriptionsPage, prescPages);
  }

  /** The appointment cards on the current page. */
  function AppointmentsOnPage(appts: seq<AppointmentRow>, v: View): (r: seq<AppointmentRow>)
    requires v.appointmentsPage >= 1
    ensures |r| <= AppointmentsPerPage
    ensures forall i :: 0 <= i < |r| ==> r[i].apStatus == Some("confirmed")
  {
    var rows := ConfirmedAppointments(appts);
    var r := Paging.PageRows(rows, v.appointmentsPage, AppointmentsPerPage);
    assert forall i :: 0 <= i < |r| ==> r[i] == rows[Paging.PageStart(v.appointmentsPage, AppointmentsPerPage) + i];
    r
  }

  /** The prescription cards on the current page. */
  function PrescriptionsOnPage(b: Envelope.Body<PrescriptionItem>, v: View): (r: seq<PrescriptionItem>)
    requires v.prescriptionsPage >= 1
    ensures |r| <= PrescriptionsPerPage
    ensures forall i :: 0 <= i < |r| ==> ItemMatches(r[i], v.filters)
  {
    var rows := FilterPrescriptions(PrescriptionsList(b), v.filters);
    var r := Paging.PageRows(rows, v.prescriptionsPage, PrescriptionsPerPage);
    assert forall i :: 0 <= i < |r| ==> r[i] == rows[Paging.PageStart(v.prescriptionsPage, PrescriptionsPerPage) + i];
    r
  }

  /** The numbered buttons of the history pager. */
  function HistoryPageButtons(b: Envelope.Body<PrescriptionItem>, v: View): (r: seq<int>)
    ensures |r| <= 5
    ensures forall k :: 0 <= k < |r| ==> r[k] == r[0] + k
  {
    Paging.SlidingWindow(Paging.TotalPages(|FilterPrescriptions(PrescriptionsList(b), v.filters)|, PrescriptionsPerPage), v.prescriptionsPage)
  }

  /** "Showing lo-hi of n": the first and last position of the current page. */
  function ShowingRange(page: int, perPage: nat, n: nat): (int, int)
  {
    (Paging.PageStart(page, perPage) + 1, Paging.Min(Paging.PageStart(page, perPage) + perPage, n))
  }

  /** On a non-empty page the "Showing" caption counts exactly the rows shown. */
  lemma ShowingRangeCountsRows<T>(rows: seq<T>, page: int, perPage: nat)
    requires page >= 1 && perPage > 0 && |Paging.PageRows(rows, page, perPage)| > 0
    ensures var (lo, hi) := ShowingRange(page, perPage, |rows|);
      hi - lo + 1 == |Paging.PageRows(rows, page, perPage)|
  {
  }
}
