/** The patient's "browse and book doctors" screen. Both copies of it (the
    routed one and the dashboard one) share the slot catalogue, the
    disabled-slot rule, the end-time derivation, the booking guard and
    payload and the reset on close; where they differ the functions take a
    `Copy`. */
module Booking {
  import opened Wrappers
  import opened Text
  import Lists
  import Sorting
  import Calendar

  datatype Copy = Routed | Dashboard

  /** The consultation fee sent with every booking. */
  const Amount: int := 500

  /* ---------- clock times ---------- */

  /** `HH:MM` for a minute of the day, as `toTimeString().slice(0, 5)` shows it. */
  function FormatTime(m: nat): (r: String)
    requires m < 1440
    ensures |r| == 5 && r[2] == ':'
    ensures AllDigits(r[..2]) && AllDigits(r[3..])
  {
    Pad2(m / 60) + ":" + Pad2(m % 60)
  }

  /** `time.split(":").map(Number)` read as a minute count (hours may run
      past 23 and minutes past 59, as `setHours`/`setMinutes` allow; an
      empty part counts as 0, as `Number("")` does). `None` stands for NaN. */
  function ParseTime(s: String): (r: Option<nat>)
  {
    if ':' !in s then None
    else
      var i := Lists.FirstIndex(s, ':');
      var hour := s[..i];
      var rest := s[i + 1..];
      var minute := if ':' in rest then rest[..Lists.FirstIndex(rest, ':')] else rest;
      if AllDigits(hour) && AllDigits(minute) then Some(DigitsValue(hour) * 60 + DigitsValue(minute)) else None
  }

  /** Reading a formatted time gives back its minute of the day. */
  lemma ParseFormatTime(m: nat)
    requires m < 1440
    ensures ParseTime(FormatTime(m)) == Some(m)
  {
    var s := FormatTime(m);
    assert s[2] == ':';
    assert s[0] != ':' && s[1] != ':';
    assert Lists.FirstIndex(s, ':') == 2;
    assert s[..2] == Pad2(m / 60);
    assert s[3..] == Pad2(m % 60);
    assert ':' !in s[3..];
    Pad2Value(m / 60);
    Pad2Value(m % 60);
  }

  lemma FormatTimeInjective(m: nat, n: nat)
    requires m < 1440 && n < 1440 && FormatTime(m) == FormatTime(n)
    ensures m == n
  {
    ParseFormatTime(m);
    ParseFormatTime(n);
  }

  /** A minute count read on a 24-hour clock. */
  function MinuteOfDay(t: nat): (r: nat)
    ensures r < 1440
    ensures t < 1440 ==> r == t
    ensures (r - t) % 1440 == 0
  {
    t % 1440
  }

  /** `handleStartTimeChange`'s end time: the start plus 30 minutes on
      today's clock, wrapping past midnight; a start that is not a time
      gives the first five letters of "Invalid Date". */
  function EndTime(start: String): (r: String)
    ensures ParseTime(start).Some? ==> |r| == 5 && ParseTime(r) == Some((ParseTime(start).value + 30) % 1440)
    ensures ParseTime(r).Some? <==> ParseTime(start).Some?
    ensures ParseTime(start).None? ==> r == "Inval"
  {
    match ParseTime(start)
    case None => "Inval"
    case Some(t) =>
      ParseFormatTime(MinuteOfDay(t + 30));
      FormatTime(MinuteOfDay(t + 30))
  }

  /** End time of a formatted start is the start 30 minutes later, carrying the hour. */
  lemma EndTimeOfFormatted(m: nat)
    requires m < 1440
    ensures EndTime(FormatTime(m)) == FormatTime(MinuteOfDay(m + 30))
    ensures ParseTime(EndTime(FormatTime(m))) == Some(MinuteOfDay(m + 30))
  {
    ParseFormatTime(m);
    assert ParseTime(FormatTime(m)) == Some(m);
    ParseFormatTime(MinuteOfDay(m + 30));
  }

  /* ---------- the slot catalogue ---------- */

  const Catalogue: seq<String> := [
    "08:00", "08:30", "09:00", "09:30",
    "10:00", "10:30", "11:00", "11:30",
    "12:00", "12:30", "13:00", "13:30",
    "14:00", "14:30", "15:00", "15:30"
  ]

  lemma Slot0()
    ensures Catalogue[0] == FormatTime(480)
  {
    assert FormatTime(480) == "08:00";
  }

  lemma Slot1()
    ensures Catalogue[1] == FormatTime(510)
  {
    assert FormatTime(510) == "08:30";
  }

  lemma Slot2()
    ensures Catalogue[2] == FormatTime(540)
  {
    assert FormatTime(540) == "09:00";
  }

  lemma Slot3()
    ensures Catalogue[3] == FormatTime(570)
  {
    assert FormatTime(570) == "09:30";
  }

  lemma Slot4()
    ensures Catalogue[4] == FormatTime(600)
  {
    assert FormatTime(600) == "10:00";
  }

  lemma Slot5()
    ensures Catalogue[5] == FormatTime(630)
  {
    assert FormatTime(630) == "10:30";
  }

  lemma Slot6()
    ensures Catalogue[6] == FormatTime(660)
  {
    assert FormatTime(660) == "11:00";
  }

  lemma Slot7()
    ensures Catalogue[7] == FormatTime(690)
  {
    assert FormatTime(690) == "11:30";
  }

  lemma Slot8()
    ensures Catalogue[8] == FormatTime(720)
  {
    assert FormatTime(720) == "12:00";
  }

  lemma Slot9()
    ensures Catalogue[9] == FormatTime(750)
  {
    assert FormatTime(750) == "12:30";
  }

  lemma Slot10()
    ensures Catalogue[10] == FormatTime(780)
  {
    assert FormatTime(780) == "13:00";
  }

  lemma Slot11()
    ensures Catalogue[11] == FormatTime(810)
  {
    assert FormatTime(810) == "13:30";
  }

  lemma Slot12()
    ensures Catalogue[12] == FormatTime(840)
  {
    assert FormatTime(840) == "14:00";
  }

  lemma Slot13()
    ensures Catalogue[13] == FormatTime(870)
  {
    assert FormatTime(870) == "14:30";
  }

  lemma Slot14()
    ensures Catalogue[14] == FormatTime(900)
  {
    assert FormatTime(900) == "15:00";
  }

  lemma Slot15()
    ensures Catalogue[15] == FormatTime(930)
  {
    assert FormatTime(930) == "15:30";
  }

  lemma SlotTime(i: int)
    requires 0 <= i < |Catalogue|
    ensures Catalogue[i] == FormatTime(480 + 30 * i)
  {
    if i < 4 {
      if i == 0 { Slot0(); } else if i == 1 { Slot1(); } else if i == 2 { Slot2(); } else { Slot3(); }
    } else if i < 8 {
      if i == 4 { Slot4(); } else if i == 5 { Slot5(); } else if i == 6 { Slot6(); } else { Slot7(); }
    } else if i < 12 {
      if i == 8 { Slot8(); } else if i == 9 { Slot9(); } else if i == 10 { Slot10(); } else { Slot11(); }
    } else {
      if i == 12 { Slot12(); } else if i == 13 { Slot13(); } else if i == 14 { Slot14(); } else { Slot15(); }
    }
  }

  /** Slot `i` starts at 08:00 plus `i` half-hours. */
  lemma CatalogueSlots()
    ensures |Catalogue| == 16
    ensures forall i :: 0 <= i < |Catalogue| ==> Catalogue[i] == FormatTime(480 + 30 * i)
  {
    forall i | 0 <= i < |Catalogue|
      ensures Catalogue[i] == FormatTime(480 + 30 * i)
    {
      SlotTime(i);
    }
  }

  /** The slots are distinct and run in increasing order of time. */
  lemma CatalogueIncreasing()
    ensures forall i :: 0 <= i < |Catalogue| ==> ParseTime(Catalogue[i]) == Some(480 + 30 * i)
    ensures forall i, j :: 0 <= i < j < |Catalogue| ==> ParseTime(Catalogue[i]).value < ParseTime(Catalogue[j]).value
    ensures Lists.NoDuplicates(Catalogue)
  {
    CatalogueSlots();
    forall i | 0 <= i < |Catalogue|
      ensures ParseTime(Catalogue[i]) == Some(480 + 30 * i)
    {
      ParseFormatTime(480 + 30 * i);
    }
  }

  lemma FormattedEndTime(m: nat, s: String)
    requires m + 30 < 1440 && s == FormatTime(m)
    ensures EndTime(s) == FormatTime(m + 30)
  {
    EndTimeOfFormatted(m);
  }

  lemma SlotEndTime(i: int)
    requires 0 <= i < |Catalogue|
    ensures EndTime(Catalogue[i]) == FormatTime(510 + 30 * i)
  {
    SlotTime(i);
    FormattedEndTime(480 + 30 * i, Catalogue[i]);
  }

  /** Each slot ends half an hour after it starts, where the next slot starts. */
  lemma CatalogueEndTimes()
    ensures forall i :: 0 <= i < |Catalogue| ==> EndTime(Catalogue[i]) == FormatTime(510 + 30 * i)
    ensures forall i :: 0 <= i < |Catalogue| - 1 ==> EndTime(Catalogue[i]) == Catalogue[i + 1]
  {
    forall i | 0 <= i < |Catalogue|
      ensures EndTime(Catalogue[i]) == FormatTime(510 + 30 * i)
    {
      SlotEndTime(i);
    }
    forall i | 0 <= i < |Catalogue| - 1
      ensures EndTime(Catalogue[i]) == Catalogue[i + 1]
    {
      SlotEndsAtNext(i);
    }
  }

  lemma SlotEndsAtNext(i: int)
    requires 0 <= i < |Catalogue| - 1
    ensures EndTime(Catalogue[i]) == Catalogue[i + 1]
  {
    SlotTime(i);
    SlotTime(i + 1);
    NextFormattedEndTime(480 + 30 * i, Catalogue[i], Catalogue[i + 1]);
  }

  lemma NextFormattedEndTime(m: nat, s: String, t: String)
    requires m + 30 < 1440 && s == FormatTime(m) && t == FormatTime(m + 30)
    ensures EndTime(s) == t
  {
    FormattedEndTime(m, s);
  }

  /** The last slot, 15:30, ends at 16:00. */
  lemma LastSlotEndsAtFour()
    ensures Catalogue[|Catalogue| - 1] == "15:30"
    ensures EndTime(Catalogue[|Catalogue| - 1]) == "16:00"
  {
    SlotEndTime(15);
    FourOClock();
  }

  lemma FourOClock()
    ensures FormatTime(960) == "16:00"
  {
    assert Pad2(16) == "16" && Pad2(0) == "00";
  }

  /* ---------- the booking draft ---------- */

  datatype Doctor = Doctor(docId: int, fName: String, lName: String, specialization: Option<String>)

  /** The booking mutation's status as the hook reports it. */
  datatype Mutation = Idle | Loading | Succeeded | Failed(serverMessage: Option<String>)

  datatype Draft = Draft(
    doctor: Option<Doctor>,
    date: String,
    startTime: String,
    endTime: String,
    modalOpen: bool,
    mutation: Mutation)

  const Initial: Draft := Draft(None, "", "", "", false, Idle)

  /** The taken-slot query runs only with both a doctor and a date chosen. */
  predicate QuerySkipped(d: Draft)
  {
    d.doctor.None? || !Truthy(d.date)
  }

  /** The appointments the slot grid sees: the fetched ones, or none while
      the query is skipped. Each entry is its `startTime`, if it has one. */
  function TakenTimes(d: Draft, fetched: seq<Option<String>>): (r: seq<Option<String>>)
    ensures QuerySkipped(d) ==> r == []
    ensures !QuerySkipped(d) ==> r == fetched
  {
    if QuerySkipped(d) then [] else fetched
  }

  /** Some fetched appointment's start time begins with the slot. */
  predicate SlotTaken(slot: String, taken: seq<Option<String>>)
  {
    exists k :: 0 <= k < |taken| && taken[k].Some? && StartsWith(taken[k].value, slot)
  }

  /** `isDisabled` of a slot button. */
  predicate SlotDisabled(slot: String, taken: seq<Option<String>>, m: Mutation)
  {
    SlotTaken(slot, taken) || m.Succeeded?
  }

  /** A taken `HH:MM:SS` start disables exactly the slot it starts with: two
      different catalogue slots cannot both be prefixes of one start time. */
  lemma TakenStartDisablesOneSlot(start: String, i: int, j: int)
    requires 0 <= i < |Catalogue| && 0 <= j < |Catalogue|
    requires StartsWith(start, Catalogue[i]) && StartsWith(start, Catalogue[j])
    ensures i == j
  {
    CatalogueSlots();
    assert Catalogue[i] == start[..5] == Catalogue[j];
    CatalogueIncreasing();
  }

  /** A slot booked as `slot + ":00"` shows as disabled, and after a
      successful booking every slot is disabled. */
  lemma SlotDisabledWhen(slot: String, taken: seq<Option<String>>, m: Mutation)
    ensures Some(slot + ":00") in taken ==> SlotDisabled(slot, taken, m)
    ensures m.Succeeded? ==> SlotDisabled(slot, taken, m)
    ensures !m.Succeeded? && (forall k :: 0 <= k < |taken| ==> taken[k].None?) ==> !SlotDisabled(slot, taken, m)
  {
    if Some(slot + ":00") in taken {
      var k :| 0 <= k < |taken| && taken[k] == Some(slot + ":00");
      assert StartsWith(taken[k].value, slot);
    }
  }

  /** Without both a doctor and a date nothing is fetched, so only a
      successful booking disables slots. */
  lemma SkippedQueryDisablesNothing(d: Draft, fetched: seq<Option<String>>, slot: String)
    requires QuerySkipped(d) && !d.mutation.Succeeded?
    ensures !SlotDisabled(slot, TakenTimes(d, fetched), d.mutation)
  {
  }

  /** Opening the booking dialog for a doctor (dashboard `openBookingModal`,
      routed card click): the date and time already chosen are kept. */
  function ChooseDoctor(d: Draft, doc: Doctor): (r: Draft)
    ensures r.doctor == Some(doc) && r.modalOpen && r.mutation == Idle
    ensures r.date == d.date && r.startTime == d.startTime && r.endTime == d.endTime
  {
    d.(doctor := Some(doc), modalOpen := true, mutation := Idle)
  }

  /** The date input; it is disabled once the booking has succeeded. Its
      `min` restricts only the picker (see `PickerOffers`): whatever value
      the input reports is taken, a date typed before today included. */
  function SetDate(d: Draft, value: String): (r: Draft)
    ensures d.mutation.Succeeded? ==> r == d
    ensures !d.mutation.Succeeded? ==> r == d.(date := value)
  {
    if d.mutation.Succeeded? then d else d.(date := value)
  }

  /** The days the date picker offers: none before `today`, the day whose
      rendering `new Date().toISOString().split("T")[0]` is the input's
      `min`, so today is the UTC date. */
  predicate PickerOffers(today: Calendar.Date, day: Calendar.Date)
  {
    !Calendar.DateBefore(day, today)
  }

  /** The `min` text sets the same bound as the dates: a day is offered
      exactly when its rendering does not sort before today's. Picking an
      offered day sets a date no earlier than today; today itself is offered. */
  lemma PickedDateNotBeforeToday(d: Draft, today: Calendar.Date, day: Calendar.Date)
    requires Calendar.Valid(today) && Calendar.Valid(day)
    requires 0 <= today.year <= 9999 && 0 <= day.year <= 9999
    ensures PickerOffers(today, day) <==> !Sorting.StrLess(Calendar.IsoDate(day), Calendar.IsoDate(today))
    ensures PickerOffers(today, today)
    ensures PickerOffers(today, day) && !d.mutation.Succeeded? ==>
      !Sorting.StrLess(SetDate(d, Calendar.IsoDate(day)).date, Calendar.IsoDate(today))
  {
    Calendar.IsoDateOrder(day, today);
  }

  /** Clicking a slot button: a disabled button does nothing, otherwise the
      start is the slot and the end is derived from it. */
  function ClickSlot(d: Draft, slot: String, taken: seq<Option<String>>): (r: Draft)
    ensures SlotDisabled(slot, taken, d.mutation) ==> r == d
    ensures !SlotDisabled(slot, taken, d.mutation) ==> r == d.(startTime := slot, endTime := EndTime(slot))
  {
    if SlotDisabled(slot, taken, d.mutation) then d else d.(startTime := slot, endTime := EndTime(slot))
  }

  /** After a successful booking neither the date nor the slot can change. */
  lemma SucceededDraftFrozen(d: Draft, value: String, slot: String, taken: seq<Option<String>>)
    requires d.mutation.Succeeded?
    ensures SetDate(d, value) == d
    ensures ClickSlot(d, slot, taken) == d
  {
  }

  /** Picking free catalogue slot `i` sets the start to it and the end half an hour later. */
  lemma ClickFreeCatalogueSlot(d: Draft, i: int, taken: seq<Option<String>>)
    requires 0 <= i < |Catalogue| && !SlotDisabled(Catalogue[i], taken, d.mutation)
    ensures ParseTime(ClickSlot(d, Catalogue[i], taken).startTime) == Some(480 + 30 * i)
    ensures ParseTime(ClickSlot(d, Catalogue[i], taken).endTime) == Some(510 + 30 * i)
  {
    var r := ClickSlot(d, Catalogue[i], taken);
    assert r.startTime == Catalogue[i] && r.endTime == EndTime(Catalogue[i]);
    SlotTime(i);
    ParseFormatTime(480 + 30 * i);
    SlotEndTime(i);
    ParseFormatTime(510 + 30 * i);
  }

  /** Whether the Confirm button can be pressed. The dashboard copy hides it
      after success and disables it while loading; the routed copy always
      shows it with a start time and disables it while loading or after success. */
  predicate ConfirmEnabled(copy: Copy, d: Draft)
  {
    match copy
    case Dashboard => (!d.mutation.Succeeded? && Truthy(d.startTime)) && !d.mutation.Loading?
    case Routed => Truthy(d.startTime) && !(d.mutation.Loading? || d.mutation.Succeeded?)
  }

  /** Both copies let Confirm be pressed in exactly the same drafts. */
  lemma ConfirmSameInBothCopies(d: Draft)
    ensures ConfirmEnabled(Routed, d) == ConfirmEnabled(Dashboard, d)
    ensures ConfirmEnabled(Routed, d) <==> Truthy(d.startTime) && !d.mutation.Loading? && !d.mutation.Succeeded?
  {
  }

  /** `closeModal`. */
  function Close(d: Draft): (r: Draft)
    ensures r.doctor.None? && r.date == [] && r.startTime == [] && r.endTime == []
    ensures !r.modalOpen && r.mutation == Idle
  {
    Initial
  }

  /** Nothing of a draft survives closing: any two drafts close to the same
      state, closing twice is closing once, and a closed draft is refused. */
  lemma CloseForgetsDraft(d1: Draft, d2: Draft, copy: Copy, userId: Option<int>, createdOn: String, updatedOn: String)
    ensures Close(d1) == Close(d2) == Initial
    ensures Close(Close(d1)) == Close(d1)
    ensures Submit(copy, Close(d1), userId, createdOn, updatedOn).Refused?
  {
  }

  /* ---------- submitting ---------- */

  /** The booking request body; `createdOn` and `updatedOn` carry two clock
      readings taken one after the other, passed in because the clock is
      outside the model. */
  datatype BookingRequest = BookingRequest(
    userId: int,
    docId: int,
    apDate: String,
    startTime: String,
    endTime: String,
    amount: int,
    createdOn: String,
    updatedOn: String)

  datatype Submission = Refused(message: String) | Sent(request: BookingRequest, next: Draft)

  /** A numeric id is falsy when absent or 0. */
  predicate IdTruthy(id: Option<int>)
  {
    id.Some? && id.value != 0
  }

  function MissingFieldsMessage(copy: Copy): String
  {
    match copy
    case Dashboard => "Please fill in all fields"
    case Routed => "Please fill in all required fields"
  }

  /** `handleBooking` up to the request: the guard, then the payload. */
  function Submit(copy: Copy, d: Draft, userId: Option<int>, createdOn: String, updatedOn: String): (r: Submission)
    ensures r.Sent? <==> IdTruthy(userId) && d.doctor.Some? && Truthy(d.date) && Truthy(d.startTime) && Truthy(d.endTime)
    ensures r.Refused? ==> r.message == MissingFieldsMessage(copy)
    ensures r.Sent? ==>
      && r.request.userId == userId.value
      && r.request.docId == d.doctor.value.docId
      && r.request.apDate == d.date
      && r.request.startTime == d.startTime + ":00"
      && r.request.endTime == d.endTime + ":00"
      && r.request.amount == Amount
      && r.request.createdOn == createdOn && r.request.updatedOn == updatedOn
      && r.next == d.(mutation := Loading)
  {
    if !IdTruthy(userId) || d.doctor.None? || !Truthy(d.date) || !Truthy(d.startTime) || !Truthy(d.endTime) then
      Refused(MissingFieldsMessage(copy))
    else
      var req := BookingRequest(userId.value, d.doctor.value.docId, d.date, d.startTime + ":00", d.endTime + ":00", Amount, createdOn, updatedOn);
      Sent(req, d.(mutation := Loading))
  }

  /** Dropping the seconds the payload adds gives back the chosen times. */
  lemma PayloadTimesRoundTrip(copy: Copy, d: Draft, userId: Option<int>, createdOn: String, updatedOn: String)
    requires Submit(copy, d, userId, createdOn, updatedOn).Sent?
    ensures var q := Submit(copy, d, userId, createdOn, updatedOn).request;
      && q.startTime[..|q.startTime| - 3] == d.startTime
      && q.endTime[..|q.endTime| - 3] == d.endTime
      && StartsWith(q.startTime, d.startTime)
  {
  }

  /** Booking free catalogue slot `i` for a chosen doctor and date sends
      `HH:MM:00` start and end times half an hour apart. */
  lemma BookCatalogueSlot(copy: Copy, d: Draft, i: int, taken: seq<Option<String>>, userId: Option<int>,
                          createdOn: String, updatedOn: String)
    requires 0 <= i < |Catalogue| && !SlotDisabled(Catalogue[i], taken, d.mutation)
    requires d.doctor.Some? && Truthy(d.date) && IdTruthy(userId)
    ensures var s := Submit(copy, ClickSlot(d, Catalogue[i], taken), userId, createdOn, updatedOn);
      && s.Sent?
      && s.request.startTime == FormatTime(480 + 30 * i) + ":00"
      && s.request.endTime == FormatTime(510 + 30 * i) + ":00"
      && s.request.amount == 500
  {
    CatalogueSlots();
    CatalogueEndTimes();
  }

  /** What the server answered. */
  datatype Response = Accepted | Rejected(message: Option<String>)

  datatype Settled = Settled(next: Draft, notice: Option<String>)

  /** The notice shown for a failed booking: the server's own message when
      it sent one (dashboard), or the copy's fixed text. */
  function FailureNotice(copy: Copy, serverMessage: Option<String>): (r: String)
    ensures copy == Dashboard && TruthyOpt(serverMessage) ==> r == serverMessage.value
    ensures copy == Dashboard && !TruthyOpt(serverMessage) ==> r == "Error booking appointment. Please try again."
    ensures copy == Routed ==> r == "Failed to book appointment."
  {
    match copy
    case Dashboard => if TruthyOpt(serverMessage) then serverMessage.value else "Error booking appointment. Please try again."
    case Routed => "Failed to book appointment."
  }

  /** The dashboard's `catch` as written reads the hook's `error` captured
      when Confirm was pressed, i.e. the mutation state before this request. */
  function FailureNoticeAsWritten(copy: Copy, atClick: Mutation, serverMessage: Option<String>): (r: String)
    ensures copy == Routed ==> r == FailureNotice(copy, serverMessage)
    ensures copy == Dashboard ==> r == FailureNotice(copy, if atClick.Failed? then atClick.serverMessage else None)
  {
    match copy
    case Dashboard => FailureNotice(copy, if atClick.Failed? then atClick.serverMessage else None)
    case Routed => FailureNotice(copy, serverMessage)
  }

  /** On a first failure (the dialog was just opened, so the mutation is
      idle) the server's message is never shown. */
  lemma StaleErrorHidesServerMessage()
    ensures FailureNoticeAsWritten(Dashboard, Idle, Some("Slot already booked")) == "Error booking appointment. Please try again."
    ensures FailureNotice(Dashboard, Some("Slot already booked")) == "Slot already booked"
  {
  }

  /** The answer arrives: the mutation records it and a notice is shown.
      `atClick` is the mutation state when Confirm was pressed, which the
      dashboard's failure notice reads as written. */
  function Settle(copy: Copy, atClick: Mutation, d: Draft, resp: Response): (r: Settled)
    ensures resp.Accepted? ==> r.next == d.(mutation := Succeeded)
    ensures resp.Rejected? ==> r.next == d.(mutation := Failed(resp.message))
    ensures resp.Accepted? && copy == Dashboard ==> r.notice == Some("Appointment booked successfully!")
    ensures resp.Accepted? && copy == Routed ==> r.notice.None?
    ensures resp.Rejected? && copy == Routed ==> r.notice == Some("Failed to book appointment.")
    ensures resp.Rejected? && copy == Dashboard && !atClick.Failed? ==>
      r.notice == Some("Error booking appointment. Please try again.")
    ensures resp.Rejected? && copy == Dashboard && atClick.Failed? ==>
      r.notice == Some(FailureNotice(Dashboard, atClick.serverMessage))
  {
    match resp
    case Accepted => Settled(d.(mutation := Succeeded), if copy == Dashboard then Some("Appointment booked successfully!") else None)
    case Rejected(msg) => Settled(d.(mutation := Failed(msg)), Some(FailureNoticeAsWritten(copy, atClick, msg)))
  }

  /** The whole first attempt on the dashboard: a dialog just opened from a
      doctor card, a booking sent, and a refusal. Whatever the server says,
      the fixed fallback text is shown, although the mutation records the
      server's message. */
  lemma FirstRefusalShowsFallback(d: Draft, doc: Doctor, userId: Option<int>, createdOn: String, updatedOn: String,
                                  msg: Option<String>)
    requires Submit(Dashboard, ChooseDoctor(d, doc), userId, createdOn, updatedOn).Sent?
    ensures var chosen := ChooseDoctor(d, doc);
      var r := Settle(Dashboard, chosen.mutation, Submit(Dashboard, chosen, userId, createdOn, updatedOn).next, Rejected(msg));
      && r.notice == Some("Error booking appointment. Please try again.")
      && r.next.mutation == Failed(msg)
  {
  }

  /** A second refusal in a row shows the first refusal's message: on the
      dashboard the notice lags one answer behind the server. */
  lemma RetryShowsPreviousMessage(d: Draft, first: Option<String>, second: Option<String>)
    ensures var failed := Settle(Dashboard, Idle, d, Rejected(first)).next;
      Settle(Dashboard, failed.mutation, failed.(mutation := Loading), Rejected(second)).notice
        == Some(FailureNotice(Dashboard, first))
  {
  }

  /** After an accepted booking the draft is frozen and Confirm cannot be pressed again. */
  lemma AcceptedBookingLocks(copy: Copy, atClick: Mutation, d: Draft, slot: String, taken: seq<Option<String>>)
    ensures var n := Settle(copy, atClick, d, Accepted).next;
      && !ConfirmEnabled(copy, n)
      && SlotDisabled(slot, taken, n.mutation)
      && ClickSlot(n, slot, taken) == n
  {
  }

  /* ---------- the doctor list ---------- */

  function FullName(doc: Doctor): String
  {
    doc.fName + " " + doc.lName
  }

  predicate DoctorMatches(doc: Doctor, search: String, specialization: String)
  {
    && ContainsIgnoringCase(FullName(doc), search)
    && (Truthy(specialization) ==> doc.specialization == Some(specialization))
  }

  /** `filteredDoctors`. */
  function FilterDoctors(ds: seq<Doctor>, search: String, specialization: String): (r: seq<Doctor>)
    ensures |r| <= |ds|
    ensures forall i :: 0 <= i < |r| ==> DoctorMatches(r[i], search, specialization)
  {
    Lists.Filter(ds, doc => DoctorMatches(doc, search, specialization))
  }

  /** The list keeps, in order, exactly the doctors whose "first last"
      contains the search ignoring case and whose specialization is the
      chosen one, when one is chosen. */
  lemma FilterDoctorsSpec(ds: seq<Doctor>, search: String, specialization: String)
    ensures Lists.IsSubsequence(FilterDoctors(ds, search, specialization), ds)
    ensures forall doc :: doc in FilterDoctors(ds, search, specialization) <==>
      doc in ds && ContainsIgnoringCase(FullName(doc), search) &&
      (Truthy(specialization) ==> doc.specialization == Some(specialization))
    ensures search == [] && specialization == [] ==> FilterDoctors(ds, search, specialization) == ds
  {
    var p := doc => DoctorMatches(doc, search, specialization);
    Lists.FilterIsSubsequence(ds, p);
    forall doc
      ensures doc in FilterDoctors(ds, search, specialization) <==> doc in ds && p(doc)
    {
      Lists.FilterMembers(ds, p, doc);
    }
    if search == [] && specialization == [] {
      forall i | 0 <= i < |ds|
        ensures p(ds[i])
      {
        ContainsEmpty(Lower(FullName(ds[i])));
      }
      Lists.FilterAll(ds, p);
    }
  }

  /** Typing the search in upper or lower case gives the same list. */
  lemma FilterDoctorsIgnoresCase(ds: seq<Doctor>, search: String, specialization: String)
    ensures FilterDoctors(ds, Lower(search), specialization) == FilterDoctors(ds, search, specialization)
  {
    LowerIdempotent(search);
    Lists.FilterCongruent(ds, doc => DoctorMatches(doc, Lower(search), specialization), doc => DoctorMatches(doc, search, specialization));
  }

  function Specializations(ds: seq<Doctor>): (r: seq<Option<String>>)
    ensures |r| == |ds|
    ensures forall i :: 0 <= i < |ds| ==> r[i] == ds[i].specialization
  {
    seq(|ds|, i requires 0 <= i < |ds| => ds[i].specialization)
  }

  /** `uniqueSpecializations`: the options of the specialization select. */
  function SpecializationOptions(ds: seq<Doctor>): (r: seq<Option<String>>)
    ensures Lists.NoDuplicates(r)
    ensures forall i :: 0 <= i < |ds| ==> ds[i].specialization in r
    ensures forall i :: 0 <= i < |r| ==> exists k :: 0 <= k < |ds| && ds[k].specialization == r[i]
  {
    var all := Specializations(ds);
    var r := Lists.Dedupe(all);
    assert forall i :: 0 <= i < |ds| ==> all[i] in r;
    assert forall i :: 0 <= i < |r| ==> r[i] in all;
    r
  }

  /** The options appear in the order in which their first doctor appears. */
  lemma SpecializationOptionsOrder(ds: seq<Doctor>)
    ensures var all := Specializations(ds); var r := SpecializationOptions(ds);
      forall i, j :: 0 <= i < j < |r| ==> Lists.FirstIndex(all, r[i]) < Lists.FirstIndex(all, r[j])
  {
    Lists.DedupeFirstOccurrenceOrder(Specializations(ds));
  }
}
