/** The doctor's schedule: a six-week month calendar with per-day
    appointment counts, the appointments of the selected day under a status
    filter, the status options, and the confirm action. */
module DoctorSchedule {
  import opened Wrappers
  import opened Text
  import Lists
  import opened Calendar

  datatype Appointment = Appointment(apId: int, apDate: String, apStatus: Option<String>)

  /* ---------- appointments by day ---------- */

  function OnDate(date: String): Appointment -> bool
  {
    (a: Appointment) => a.apDate == date
  }

  /** `getAppointmentsForDate`. */
  function AppointmentsForDate(appts: seq<Appointment>, date: String): (r: seq<Appointment>)
    ensures |r| <= |appts|
    ensures forall i :: 0 <= i < |r| ==> r[i].apDate == date
  {
    Lists.Filter(appts, OnDate(date))
  }

  /** The status shown for an appointment: `apStatus || 'pending'`. */
  function StatusOrPending(a: Appointment): (s: String)
    ensures s != []
    ensures TruthyOpt(a.apStatus) ==> s == a.apStatus.value
  {
    if TruthyOpt(a.apStatus) then a.apStatus.value else "pending"
  }

  function ShownStatusIs(status: String): Appointment -> bool
  {
    (a: Appointment) => StatusOrPending(a) == status
  }

  /** `getSelectedDateAppointments`. */
  function SelectedAppointments(appts: seq<Appointment>, selected: Option<String>, filter: String): (r: seq<Appointment>)
    ensures !TruthyOpt(selected) ==> r == []
    ensures TruthyOpt(selected) && filter == "all" ==> r == AppointmentsForDate(appts, selected.value)
    ensures forall i :: 0 <= i < |r| ==> r[i].apDate == selected.value
    ensures filter != "all" ==> forall i :: 0 <= i < |r| ==> StatusOrPending(r[i]) == filter
  {
    if !TruthyOpt(selected) then []
    else
      var onDay := AppointmentsForDate(appts, selected.value);
      if filter == "all" then onDay
      else
        var r := Lists.Filter(onDay, ShownStatusIs(filter));
        Lists.FilterSubset(onDay, ShownStatusIs(filter));
        assert forall i :: 0 <= i < |r| ==> r[i] in onDay;
        r
  }

  /** With a day selected, the list holds exactly the appointments on that
      day whose shown status passes the filter, in their order. */
  lemma SelectedAppointmentsSpec(appts: seq<Appointment>, date: String, filter: String)
    requires date != []
    ensures Lists.IsSubsequence(SelectedAppointments(appts, Some(date), filter), appts)
    ensures forall a :: a in SelectedAppointments(appts, Some(date), filter) <==>
      a in appts && a.apDate == date && (filter == "all" || StatusOrPending(a) == filter)
  {
    var onDay := AppointmentsForDate(appts, date);
    Lists.FilterIsSubsequence(appts, OnDate(date));
    Lists.FilterFilter(appts, OnDate(date), ShownStatusIs(filter));
    Lists.FilterIsSubsequence(appts, Lists.And(OnDate(date), ShownStatusIs(filter)));
    forall a
      ensures a in SelectedAppointments(appts, Some(date), filter) <==>
        a in appts && a.apDate == date && (filter == "all" || StatusOrPending(a) == filter)
    {
      Lists.FilterMembers(appts, OnDate(date), a);
      Lists.FilterMembers(onDay, ShownStatusIs(filter), a);
    }
  }

  /** The status each appointment shows, in list order. */
  function ShownStatuses(appts: seq<Appointment>): (r: seq<String>)
    ensures |r| == |appts| && forall i :: 0 <= i < |appts| ==> r[i] == StatusOrPending(appts[i])
  {
    seq(|appts|, i requires 0 <= i < |appts| => StatusOrPending(appts[i]))
  }

  /** `availableStatuses`: "all", then each shown status once (see
      `AvailableStatusesOrder` for their order). */
  function AvailableStatuses(appts: seq<Appointment>): (r: seq<String>)
    ensures |r| > 0 && r[0] == "all"
    ensures Lists.NoDuplicates(r[1..])
    ensures forall i :: 0 <= i < |appts| ==> StatusOrPending(appts[i]) in r[1..]
    ensures forall s :: s in r[1..] ==> exists i :: 0 <= i < |appts| && StatusOrPending(appts[i]) == s
  {
    var shown := ShownStatuses(appts);
    var d := Lists.Dedupe(shown);
    assert forall i :: 0 <= i < |appts| ==> shown[i] in d;
    assert (["all"] + d)[1..] == d;
    ["all"] + d
  }

  /** After "all", the statuses come in the order of their first appearance. */
  lemma AvailableStatusesOrder(appts: seq<Appointment>)
    ensures var shown := ShownStatuses(appts); var r := AvailableStatuses(appts)[1..];
      forall i, j :: 0 <= i < j < |r| ==> Lists.FirstIndex(shown, r[i]) < Lists.FirstIndex(shown, r[j])
  {
    assert AvailableStatuses(appts)[1..] == Lists.Dedupe(ShownStatuses(appts));
    Lists.DedupeFirstOccurrenceOrder(ShownStatuses(appts));
  }

  /** Confirm is offered only for an appointment whose status is exactly "pending". */
  predicate OffersConfirm(a: Appointment)
  {
    a.apStatus == Some("pending")
  }

  /** An appointment with no status is shown, filtered and counted as
      pending but is not offered the confirm button; any confirmable
      appointment shows as pending. */
  lemma MissingStatusNotConfirmable(a: Appointment)
    ensures !TruthyOpt(a.apStatus) ==> StatusOrPending(a) == "pending" && !OffersConfirm(a)
    ensures OffersConfirm(a) ==> StatusOrPending(a) == "pending"
  {
  }

  /* ---------- the six-week grid ---------- */

  /** `n` consecutive days from `d`, as the loop that advances `currentDate` visits them. */
  function Days(d: Date, n: nat): (r: seq<Date>)
    requires Valid(d)
    ensures |r| == n
    ensures n > 0 ==> r[0] == d
    ensures forall i :: 0 <= i < n ==> Valid(r[i])
    decreases n
  {
    if n == 0 then [] else [d] + Days(NextDay(d), n - 1)
  }

  /** Each day of a run is followed by the next day. */
  lemma {:induction false} DaysStep(d: Date, n: nat, i: nat)
    requires Valid(d) && i + 1 < n
    ensures Days(d, n)[i + 1] == NextDay(Days(d, n)[i])
    decreases n
  {
    if i > 0 {
      DaysStep(NextDay(d), n - 1, i - 1);
    }
  }

  /** A run of days is determined by its first day and its length. */
  lemma {:induction false} DaysUnique(d: Date, s: seq<Date>)
    requires Valid(d) && |s| > 0 && s[0] == d
    requires forall i :: 0 <= i < |s| ==> Valid(s[i])
    requires forall i :: 0 <= i < |s| - 1 ==> s[i + 1] == NextDay(s[i])
    ensures s == Days(d, |s|)
    decreases |s|
  {
    if |s| > 1 {
      DaysUnique(NextDay(d), s[1..]);
    }
  }

  /** The first of the month on screen. */
  function FirstOfMonth(ym: YearMonth): (d: Date)
    requires ValidMonth(ym)
    ensures Valid(d)
  {
    Date(ym.year, ym.month, 1)
  }

  /** The first cell: the 1st moved back by its weekday, which `setDate`
      resolves into the last days of the previous month. */
  function GridStart(ym: YearMonth): (d: Date)
    requires ValidMonth(ym)
    ensures Valid(d)
  {
    var first := FirstOfMonth(ym);
    var w := Weekday(first);
    if w == 0 then first
    else
      var p := ShiftMonth(ym, -1);
      Date(p.year, p.month, DaysInMonth(p.year, p.month) - w + 1)
  }

  /** The last day of a month is followed by the 1st of the next month. */
  lemma MonthEnd(ym: YearMonth)
    requires ValidMonth(ym)
    ensures var n := ShiftMonth(ym, 1);
      NextDay(Date(ym.year, ym.month, DaysInMonth(ym.year, ym.month))) == Date(n.year, n.month, 1)
  {
  }

  /** The grid opens on the Sunday on or before the 1st, at most six days earlier. */
  lemma GridStartSunday(ym: YearMonth)
    requires ValidMonth(ym)
    ensures Weekday(GridStart(ym)) == 0
    ensures DayNumber(FirstOfMonth(ym)) - DayNumber(GridStart(ym)) == Weekday(FirstOfMonth(ym)) <= 6
  {
    var first := FirstOfMonth(ym);
    var w := Weekday(first);
    if w != 0 {
      var p := ShiftMonth(ym, -1);
      ShiftMonthInverse(ym, -1);
      MonthEnd(p);
      var last := Date(p.year, p.month, DaysInMonth(p.year, p.month));
      assert DayNumber(last) + 1 == DayNumber(first);
      assert DayNumber(GridStart(ym)) == DayNumber(last) - w + 1;
    }
  }

  /** Cell `i` of the grid read off the calendar: the last `w` days of the
      previous month, the days of the shown month, then the first days of
      the next month, where `w` is the weekday of the 1st. */
  function SegmentDay(ym: YearMonth, i: int): (d: Date)
    requires ValidMonth(ym) && 0 <= i < 42
    ensures Valid(d)
  {
    var w := Weekday(FirstOfMonth(ym));
    var dim := DaysInMonth(ym.year, ym.month);
    if i < w then
      var p := ShiftMonth(ym, -1);
      Date(p.year, p.month, DaysInMonth(p.year, p.month) - w + 1 + i)
    else if i < w + dim then Date(ym.year, ym.month, i - w + 1)
    else
      var n := ShiftMonth(ym, 1);
      Date(n.year, n.month, i - w - dim + 1)
  }

  function Segments(ym: YearMonth): (r: seq<Date>)
    requires ValidMonth(ym)
    ensures |r| == 42
    ensures forall i :: 0 <= i < 42 ==> r[i] == SegmentDay(ym, i)
  {
    seq(42, i requires 0 <= i < 42 => SegmentDay(ym, i))
  }

  lemma SegmentStep(ym: YearMonth, i: int)
    requires ValidMonth(ym) && 0 <= i < 41
    ensures SegmentDay(ym, i + 1) == NextDay(SegmentDay(ym, i))
  {
    var w := Weekday(FirstOfMonth(ym));
    var dim := DaysInMonth(ym.year, ym.month);
    if i == w - 1 {
      var p := ShiftMonth(ym, -1);
      ShiftMonthInverse(ym, -1);
      MonthEnd(p);
    } else if i == w + dim - 1 {
      MonthEnd(ym);
    }
  }

  /** The 42 cells are the three segments. */
  lemma GridSegments(ym: YearMonth)
    requires ValidMonth(ym)
    ensures Days(GridStart(ym), 42) == Segments(ym)
  {
    var s := Segments(ym);
    forall i | 0 <= i < 41
      ensures s[i + 1] == NextDay(s[i])
    {
      SegmentStep(ym, i);
    }
    DaysUnique(GridStart(ym), s);
  }

  /** One cell of the calendar. */
  datatype Cell = Cell(date: Date, dateStr: String, appointmentsCount: nat, isCurrentMonth: bool, isToday: bool, isSelected: bool)

  /** The cell the loop pushes for day `d`. */
  function DayCell(appts: seq<Appointment>, ym: YearMonth, today: Date, selected: Option<String>, d: Date): (c: Cell)
    requires Valid(d) && Valid(today)
    ensures c.date == d && c.dateStr == IsoDate(d)
    ensures c.appointmentsCount == |AppointmentsForDate(appts, c.dateStr)|
    ensures c.isCurrentMonth <==> d.month == ym.month
    ensures c.isToday <==> c.dateStr == IsoDate(today)
    ensures c.isSelected <==> selected == Some(c.dateStr)
  {
    var s := IsoDate(d);
    Cell(d, s, |AppointmentsForDate(appts, s)|, d.month == ym.month, s == IsoDate(today), selected == Some(s))
  }

  /** The cells pushed for a run of days, one per day, in order. */
  function CellsOf(appts: seq<Appointment>, ym: YearMonth, today: Date, selected: Option<String>, days: seq<Date>): (cells: seq<Cell>)
    requires Valid(today) && forall i :: 0 <= i < |days| ==> Valid(days[i])
    ensures |cells| == |days|
    ensures forall i :: 0 <= i < |days| ==> cells[i] == DayCell(appts, ym, today, selected, days[i])
  {
    seq(|days|, i requires 0 <= i < |days| => DayCell(appts, ym, today, selected, days[i]))
  }

  /** `generateCalendarDays` for the month `ym`; `today` is the current UTC date. */
  function CalendarDays(appts: seq<Appointment>, ym: YearMonth, today: Date, selected: Option<String>): (cells: seq<Cell>)
    requires ValidMonth(ym) && Valid(today)
    ensures |cells| == 42
    ensures forall i :: 0 <= i < 42 ==> cells[i].date == Days(GridStart(ym), 42)[i]
    ensures forall i :: 0 <= i < 42 ==> Valid(cells[i].date) && cells[i].dateStr == IsoDate(cells[i].date)
    ensures forall i :: 0 <= i < 42 ==> cells[i].appointmentsCount == |AppointmentsForDate(appts, cells[i].dateStr)|
    ensures forall i :: 0 <= i < 42 ==> (cells[i].isCurrentMonth <==> cells[i].date.month == ym.month)
    ensures forall i :: 0 <= i < 42 ==> (cells[i].isToday <==> cells[i].dateStr == IsoDate(today))
    ensures forall i :: 0 <= i < 42 ==> (cells[i].isSelected <==> selected == Some(cells[i].dateStr))
  {
    CellsOf(appts, ym, today, selected, Days(GridStart(ym), 42))
  }

  /** The grid is 42 consecutive days from the Sunday on or before the 1st. */
  lemma CalendarDaysConsecutive(appts: seq<Appointment>, ym: YearMonth, today: Date, selected: Option<String>)
    requires ValidMonth(ym) && Valid(today)
    ensures var cells := CalendarDays(appts, ym, today, selected);
      && cells[0].date == GridStart(ym) && Weekday(cells[0].date) == 0
      && forall i :: 0 <= i < 41 ==> cells[i + 1].date == NextDay(cells[i].date)
  {
    GridStartSunday(ym);
    forall i | 0 <= i < 41
      ensures Days(GridStart(ym), 42)[i + 1] == NextDay(Days(GridStart(ym), 42)[i])
    {
      DaysStep(GridStart(ym), 42, i);
    }
  }

  /** Cell `i` holds the `i`-th segment day. */
  lemma CellDates(appts: seq<Appointment>, ym: YearMonth, today: Date, selected: Option<String>)
    requires ValidMonth(ym) && Valid(today)
    ensures forall i :: 0 <= i < 42 ==> CalendarDays(appts, ym, today, selected)[i].date == SegmentDay(ym, i)
  {
    GridSegments(ym);
  }

  /** Only the middle segment lies in the shown month, and it lies in the shown year. */
  lemma SegmentMonth(ym: YearMonth, i: int)
    requires ValidMonth(ym) && 0 <= i < 42
    ensures var w := Weekday(FirstOfMonth(ym));
      (SegmentDay(ym, i).month == ym.month <==> w <= i < w + DaysInMonth(ym.year, ym.month))
    ensures var w := Weekday(FirstOfMonth(ym));
      w <= i < w + DaysInMonth(ym.year, ym.month) ==> SegmentDay(ym, i) == Date(ym.year, ym.month, i - w + 1)
  {
    ShiftMonthInverse(ym, -1);
    ShiftMonthInverse(ym, 1);
  }

  /** A cell is marked as the current month exactly when it lies in the
      shown month of the shown year: the test compares months only, but the
      other cells belong to the neighbouring months. */
  lemma CurrentMonthCells(appts: seq<Appointment>, ym: YearMonth, today: Date, selected: Option<String>)
    requires ValidMonth(ym) && Valid(today)
    ensures var cells := CalendarDays(appts, ym, today, selected);
      forall i :: 0 <= i < 42 ==> (cells[i].isCurrentMonth <==> MonthOf(cells[i].date) == ym)
  {
    CellDates(appts, ym, today, selected);
    forall i | 0 <= i < 42
      ensures SegmentDay(ym, i).month == ym.month <==> MonthOf(SegmentDay(ym, i)) == ym
    {
      SegmentMonth(ym, i);
    }
  }

  /** Each day `k` of the shown month has exactly one cell, the one at
      position `w + k - 1`. */
  lemma MonthDaysOnce(appts: seq<Appointment>, ym: YearMonth, today: Date, selected: Option<String>, k: int)
    requires ValidMonth(ym) && Valid(today) && 1 <= k <= DaysInMonth(ym.year, ym.month)
    ensures var cells := CalendarDays(appts, ym, today, selected);
      var i := Weekday(FirstOfMonth(ym)) + k - 1;
      && 0 <= i < 42 && cells[i].date == Date(ym.year, ym.month, k)
      && forall j :: 0 <= j < 42 && cells[j].date == Date(ym.year, ym.month, k) ==> j == i
  {
    var w := Weekday(FirstOfMonth(ym));
    CellDates(appts, ym, today, selected);
    SegmentMonth(ym, w + k - 1);
    forall j | 0 <= j < 42 && SegmentDay(ym, j) == Date(ym.year, ym.month, k)
      ensures j == w + k - 1
    {
      SegmentMonth(ym, j);
    }
  }

  /** A cell's count is the length of the list shown when that day is
      selected with the "all" filter. */
  lemma CellCountIsSelectedList(appts: seq<Appointment>, ym: YearMonth, today: Date, selected: Option<String>, i: int)
    requires ValidMonth(ym) && Valid(today) && 0 <= i < 42
    ensures var c := CalendarDays(appts, ym, today, selected)[i];
      c.appointmentsCount == |SelectedAppointments(appts, Some(c.dateStr), "all")|
  {
  }
}
