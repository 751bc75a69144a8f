/** The administrator's appointment table: six filters, a sortable column
    header, "Clear All" and the four status counters above the table. */
module AdminAppointments {
  import opened Wrappers
  import opened Text
  import Lists
  import Sorting
  import Calendar

  /** A patient or doctor as joined into an appointment row; either name may be missing. */
  datatype Person = Person(fName: Option<String>, lName: Option<String>)

  /** One row of the appointments listing. `payStatus` is `None` when the
      row carries no payment record. */
  datatype Row = Row(
    apId: int,
    apDate: String,
    apStatus: String,
    users: Option<Person>,
    doctors: Option<Person>,
    payStatus: Option<String>)

  /** `${p?.fName || ''} ${p?.lName || ''}`: first and last name around one space. */
  function FullName(p: Option<Person>): (r: String)
    ensures |r| >= 1
    ensures p.None? ==> r == " "
  {
    if p.Some? then OrEmpty(p.value.fName) + " " + OrEmpty(p.value.lName) else " "
  }

  datatype Filters = Filters(
    patient: String,
    doctor: String,
    apId: String,
    status: String,
    payment: String,
    date: String)

  const NoFilters: Filters := Filters("", "", "", "all", "all", "")

  /** The six conditions a row must meet, each passing on its "empty" setting. */
  predicate RowMatches(r: Row, f: Filters)
  {
    && Contains(Lower(FullName(r.users)), Lower(f.patient))
    && Contains(Lower(FullName(r.doctors)), Lower(f.doctor))
    && (f.apId == "" || Contains(IntToString(r.apId), f.apId))
    && (f.status == "all" || r.apStatus == f.status)
    && (f.payment == "all" || r.payStatus == Some(f.payment))
    && (f.date == "" || Contains(r.apDate, f.date))
  }

  function Matches(f: Filters): Row -> bool
  {
    (r: Row) => RowMatches(r, f)
  }

  function FilterRows(rows: seq<Row>, f: Filters): (r: seq<Row>)
    ensures |r| <= |rows|
    ensures forall i :: 0 <= i < |r| ==> RowMatches(r[i], f)
  {
    Lists.Filter(rows, Matches(f))
  }

  /** The filtered rows are the matching rows in their original order, and
      with every filter at rest no row is dropped. */
  lemma FilterRowsSpec(rows: seq<Row>, f: Filters, r: Row)
    ensures Lists.IsSubsequence(FilterRows(rows, f), rows)
    ensures r in FilterRows(rows, f) <==> r in rows && RowMatches(r, f)
    ensures FilterRows(rows, NoFilters) == rows
  {
    Lists.FilterIsSubsequence(rows, Matches(f));
    Lists.FilterMembers(rows, Matches(f), r);
    forall x | x in rows
      ensures RowMatches(x, NoFilters)
    {
      ContainsEmpty(Lower(FullName(x.users)));
      ContainsEmpty(Lower(FullName(x.doctors)));
    }
    Lists.FilterAll(rows, Matches(NoFilters));
  }

  /** The label in the payment column, `payStatus || 'unpaid'`. */
  function PaymentLabel(r: Row): (s: String)
    ensures TruthyOpt(r.payStatus) ==> s == r.payStatus.value
    ensures !TruthyOpt(r.payStatus) ==> s == "unpaid"
  {
    OrElse(r.payStatus, Some("unpaid")).value
  }

  /** A row with no payment record reads "unpaid" in the table, yet the
      "Unpaid" payment filter drops it: the filter compares the raw field,
      not the label. */
  lemma MissingPaymentHiddenByUnpaidFilter(r: Row)
    requires r.payStatus.None?
    ensures PaymentLabel(r) == "unpaid"
    ensures !RowMatches(r, NoFilters.(payment := "unpaid"))
  {
  }

  /* ---------- sorting ---------- */

  datatype Field = ByDate | ByPatient | ByDoctor | ByStatus | ById

  datatype View = View(filters: Filters, sortField: Field, order: Sorting.Order)

  /** The table opens unfiltered, newest date first. */
  const InitialView: View := View(NoFilters, ByDate, Sorting.Desc)

  /** A header click: the same column flips the direction, another column
      starts ascending. */
  function HandleSort(v: View, field: Field): (r: View)
    ensures r.sortField == field && r.filters == v.filters
    ensures v.sortField == field ==> r.order == Sorting.Flip(v.order)
    ensures v.sortField != field ==> r.order == Sorting.Asc
  {
    if v.sortField == field then v.(order := Sorting.Flip(v.order))
    else v.(sortField := field, order := Sorting.Asc)
  }

  /** Two clicks on the sorted column restore the view; two clicks on a new
      column leave it sorted descending by that column. */
  lemma HandleSortTwice(v: View, field: Field)
    ensures v.sortField == field ==> HandleSort(HandleSort(v, field), field) == v
    ensures v.sortField != field ==>
      HandleSort(HandleSort(v, field), field) == v.(sortField := field, order := Sorting.Desc)
  {
  }

  /** "Clear All": every filter back at rest, sort column and direction kept. */
  function ClearFilters(v: View): (r: View)
    ensures r.sortField == v.sortField && r.order == v.order
    ensures forall rows :: FilterRows(rows, r.filters) == rows
  {
    forall rows
      ensures FilterRows(rows, NoFilters) == rows
    {
      FilterRowsSpec(rows, NoFilters, Row(0, "", "", None, None, None));
    }
    v.(filters := NoFilters)
  }

  /** The value compared for each column. The source compares dates as
      `new Date(apDate)` values; the model compares the `apDate` text,
      which orders `YYYY-MM-DD` dates as the calendar does
      (`InitialViewCalendarOrder`). */
  function Column(f: Field): Row -> Sorting.Key
  {
    match f
    case ByDate => (r: Row) => Sorting.StrKey(r.apDate)
    case ByPatient => (r: Row) => Sorting.StrKey(FullName(r.users))
    case ByDoctor => (r: Row) => Sorting.StrKey(FullName(r.doctors))
    case ByStatus => (r: Row) => Sorting.StrKey(r.apStatus)
    case ById => (r: Row) => Sorting.IntKey(r.apId)
  }

  /** The rows on screen, sorted with the consistent comparator `Sorting.Compare`. */
  function Listed(rows: seq<Row>, v: View): (r: seq<Row>)
    ensures multiset(r) == multiset(FilterRows(rows, v.filters))
  {
    Sorting.SortBy(FilterRows(rows, v.filters), Column(v.sortField), v.order)
  }

  /** The listing is a permutation of the matching rows, ordered by the
      chosen column, with rows tied on that column in their original order. */
  lemma ListedSpec(rows: seq<Row>, v: View, x: Row, k: Sorting.Key)
    ensures x in Listed(rows, v) <==> x in rows && RowMatches(x, v.filters)
    ensures Sorting.SortedBy(Listed(rows, v), Column(v.sortField), v.order)
    ensures Lists.Filter(Listed(rows, v), Sorting.KeyIs(Column(v.sortField), k)) ==
      Lists.Filter(FilterRows(rows, v.filters), Sorting.KeyIs(Column(v.sortField), k))
  {
    FilterRowsSpec(rows, v.filters, x);
    assert x in Listed(rows, v) <==> x in multiset(FilterRows(rows, v.filters));
    Sorting.SortBySorted(FilterRows(rows, v.filters), Column(v.sortField), v.order);
    Sorting.SortByStable(FilterRows(rows, v.filters), Column(v.sortField), v.order, k);
  }

  /** The initial view lists every row, latest date first. */
  lemma InitialViewLatestFirst(rows: seq<Row>)
    ensures multiset(Listed(rows, InitialView)) == multiset(rows)
    ensures forall i, j :: 0 <= i < j < |Listed(rows, InitialView)| ==>
      !Sorting.StrLess(Listed(rows, InitialView)[i].apDate, Listed(rows, InitialView)[j].apDate)
  {
    var r := Listed(rows, InitialView);
    FilterRowsSpec(rows, NoFilters, Row(0, "", "", None, None, None));
    Sorting.SortBySorted(rows, Column(ByDate), Sorting.Desc);
    forall i, j | 0 <= i < j < |r|
      ensures !Sorting.StrLess(r[i].apDate, r[j].apDate)
    {
      assert Sorting.Precedes(Column(ByDate)(r[i]), Column(ByDate)(r[j]), Sorting.Desc);
      Sorting.LessTrichotomy(Column(ByDate)(r[i]), Column(ByDate)(r[j]));
    }
  }

  /** On rows dated by the `YYYY-MM-DD` rendering of a calendar day, the
      initial view never lists a row above one with a later day: the text
      order of the date column is the calendar order of the source's
      `new Date(apDate)` comparison. */
  lemma InitialViewCalendarOrder(rows: seq<Row>)
    ensures var r := Listed(rows, InitialView);
      forall i, j, a: Calendar.Date, b: Calendar.Date ::
        0 <= i < j < |r| && Calendar.Valid(a) && Calendar.Valid(b)
        && 0 <= a.year <= 9999 && 0 <= b.year <= 9999
        && r[i].apDate == Calendar.IsoDate(a) && r[j].apDate == Calendar.IsoDate(b)
        ==> !Calendar.DateBefore(a, b)
  {
    var r := Listed(rows, InitialView);
    InitialViewLatestFirst(rows);
    forall i, j, a: Calendar.Date, b: Calendar.Date |
      0 <= i < j < |r| && Calendar.Valid(a) && Calendar.Valid(b)
      && 0 <= a.year <= 9999 && 0 <= b.year <= 9999
      && r[i].apDate == Calendar.IsoDate(a) && r[j].apDate == Calendar.IsoDate(b)
      ensures !Calendar.DateBefore(a, b)
    {
      Calendar.IsoDateOrder(a, b);
    }
  }

  /* ---------- counters ---------- */

  function StatusIs(status: String): Row -> bool
  {
    (r: Row) => r.apStatus == status
  }

  datatype Stats = Stats(total: nat, pending: nat, confirmed: nat, cancelled: nat)

  /** The four counters, over all rows whatever the filters. */
  function ComputeStats(rows: seq<Row>): (s: Stats)
    ensures s.total == |rows|
    ensures s.pending + s.confirmed + s.cancelled <= s.total
  {
    Lists.CountDisjoint3(rows, StatusIs("pending"), StatusIs("confirmed"), StatusIs("cancelled"));
    Stats(|rows|,
      Lists.Count(rows, StatusIs("pending")),
      Lists.Count(rows, StatusIs("confirmed")),
      Lists.Count(rows, StatusIs("cancelled")))
  }

  /** Choosing a status in the filter, with nothing else set, lists as many
      rows as that status's counter shows. */
  lemma StatusFilterMatchesCounter(rows: seq<Row>)
    ensures |FilterRows(rows, NoFilters.(status := "pending"))| == ComputeStats(rows).pending
    ensures |FilterRows(rows, NoFilters.(status := "confirmed"))| == ComputeStats(rows).confirmed
    ensures |FilterRows(rows, NoFilters.(status := "cancelled"))| == ComputeStats(rows).cancelled
  {
    forall x: Row
      ensures Contains(Lower(FullName(x.users)), Lower([])) && Contains(Lower(FullName(x.doctors)), Lower([]))
    {
      ContainsEmpty(Lower(FullName(x.users)));
      ContainsEmpty(Lower(FullName(x.doctors)));
    }
    Lists.FilterCongruent(rows, Matches(NoFilters.(status := "pending")), StatusIs("pending"));
    Lists.FilterCongruent(rows, Matches(NoFilters.(status := "confirmed")), StatusIs("confirmed"));
    Lists.FilterCongruent(rows, Matches(NoFilters.(status := "cancelled")), StatusIs("cancelled"));
  }
}
