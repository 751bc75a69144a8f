/** The patient's ticket list: relative dates, per-status counts, a status
    and search filter, and a three-column sort. */
module PatientTickets {
  import opened Wrappers
  import opened Text
  import Lists
  import Sorting

  datatype DoctorName = DoctorName(fName: String, lName: String)

  /** One complaint; `createdOn` in milliseconds since the epoch. */
  datatype Ticket = Ticket(subject: String, description: String, status: String, createdOn: int, doctors: Option<DoctorName>)

  /* ---------- relative dates ---------- */

  datatype RelativeDate = Today | Yesterday | DaysAgo(days: int) | WeeksAgo(weeks: int) | OnDate

  /** `formatRelativeDate` for a difference of `d` whole days (negative for a
      date in the future). */
  function Relative(d: int): (r: RelativeDate)
    ensures r == Today <==> d == 0
    ensures r == Yesterday <==> d == 1
    ensures r.DaysAgo? <==> d < 7 && d != 0 && d != 1
    ensures r.DaysAgo? ==> r.days == d
    ensures r.WeeksAgo? <==> 7 <= d < 30
    ensures r.WeeksAgo? ==> 1 <= r.weeks <= 4 && 7 * r.weeks <= d < 7 * r.weeks + 7
    ensures r == OnDate <==> d >= 30
  {
    if d == 0 then Today
    else if d == 1 then Yesterday
    else if d < 7 then DaysAgo(d)
    else if d < 30 then WeeksAgo(d / 7)
    else OnDate
  }

  /** The text shown; `absolute` is the long date used past 30 days. */
  function RelativeText(d: int, absolute: String): String
  {
    match Relative(d)
    case Today => "Today"
    case Yesterday => "Yesterday"
    case DaysAgo(n) => IntToString(n) + " days ago"
    case WeeksAgo(w) => IntToString(w) + " weeks ago"
    case OnDate => absolute
  }

  lemma SuffixDistinguishes(a: String, b: String, s: String)
    requires a + s == b + s
    ensures a == b
  {
    assert a == (a + s)[..|a|];
    assert |a| == |b|;
  }

  /** Within the last week the text gives back the number of days, and
      between one and four weeks two ages share a text exactly when they
      fall in the same week. */
  lemma RelativeTextDetermines(d1: int, d2: int, absolute: String)
    ensures 2 <= d1 < 7 && 2 <= d2 < 7 ==> (RelativeText(d1, absolute) == RelativeText(d2, absolute) <==> d1 == d2)
    ensures 7 <= d1 < 30 && 7 <= d2 < 30 ==> (RelativeText(d1, absolute) == RelativeText(d2, absolute) <==> d1 / 7 == d2 / 7)
  {
    if 2 <= d1 < 7 && 2 <= d2 < 7 && RelativeText(d1, absolute) == RelativeText(d2, absolute) {
      SuffixDistinguishes(IntToString(d1), IntToString(d2), " days ago");
      NatToStringInjective(d1, d2);
    }
    if 7 <= d1 < 30 && 7 <= d2 < 30 && RelativeText(d1, absolute) == RelativeText(d2, absolute) {
      SuffixDistinguishes(IntToString(d1 / 7), IntToString(d2 / 7), " weeks ago");
      NatToStringInjective(d1 / 7, d2 / 7);
    }
  }

  /* ---------- counts ---------- */

  function StatusIs(status: String): Ticket -> bool
  {
    (t: Ticket) => t.status == status
  }

  /** `getStatusCount`. */
  function StatusCount(ts: seq<Ticket>, status: String): (n: nat)
    ensures n <= |ts|
    ensures status == "all" ==> n == |ts|
  {
    if status == "all" then |ts| else Lists.Count(ts, StatusIs(status))
  }

  /** The three status tabs never count more tickets than the "All" tab. */
  lemma StatusCountsBounded(ts: seq<Ticket>)
    ensures StatusCount(ts, "In Progress") + StatusCount(ts, "Resolved") + StatusCount(ts, "Closed") <= StatusCount(ts, "all")
  {
    Lists.CountDisjoint3(ts, StatusIs("In Progress"), StatusIs("Resolved"), StatusIs("Closed"));
  }

  /* ---------- view state ---------- */

  datatype Field = ByDate | ByStatus | BySubject

  datatype View = View(statusFilter: String, search: String, sortBy: Field, order: Sorting.Order)

  const Defaults: View := View("all", "", ByDate, Sorting.Desc)

  /** `handleSort`. */
  function HandleSort(v: View, field: Field): (r: View)
    ensures r.sortBy == field
    ensures v.sortBy == field ==> r.order == Sorting.Flip(v.order)
    ensures v.sortBy != field ==> r.order == Sorting.Desc
    ensures r.statusFilter == v.statusFilter && r.search == v.search
  {
    if v.sortBy == field then v.(order := Sorting.Flip(v.order))
    else v.(sortBy := field, order := Sorting.Desc)
  }

  /** Clicking the same header twice restores the view. */
  lemma HandleSortTwice(v: View, field: Field)
    requires v.sortBy == field
    ensures HandleSort(HandleSort(v, field), field) == v
  {
  }

  /* ---------- filtering and sorting ---------- */

  predicate SearchMatches(t: Ticket, search: String)
  {
    || ContainsIgnoringCase(t.subject, search)
    || ContainsIgnoringCase(t.description, search)
    || (t.doctors.Some? && ContainsIgnoringCase(t.doctors.value.fName + " " + t.doctors.value.lName, search))
  }

  predicate TicketMatches(t: Ticket, v: View)
  {
    && (v.statusFilter == "all" || t.status == v.statusFilter)
    && (v.search == [] || SearchMatches(t, v.search))
  }

  function Matches(v: View): Ticket -> bool
  {
    (t: Ticket) => TicketMatches(t, v)
  }

  function FilterTickets(ts: seq<Ticket>, v: View): (r: seq<Ticket>)
    ensures |r| <= |ts|
    ensures forall i :: 0 <= i < |r| ==> TicketMatches(r[i], v)
  {
    Lists.Filter(ts, Matches(v))
  }

  /** The column compared for each sort field (the subject lower-cased). */
  function Column(f: Field): Ticket -> Sorting.Key
  {
    match f
    case ByDate => (t: Ticket) => Sorting.IntKey(t.createdOn)
    case ByStatus => (t: Ticket) => Sorting.StrKey(t.status)
    case BySubject => (t: Ticket) => Sorting.StrKey(Lower(t.subject))
  }

  /** The list on screen, sorted with the consistent comparator. */
  function Listed(ts: seq<Ticket>, v: View): (r: seq<Ticket>)
    ensures multiset(r) == multiset(FilterTickets(ts, v))
  {
    Sorting.SortBy(FilterTickets(ts, v), Column(v.sortBy), v.order)
  }

  /** The list is a permutation of the filtered tickets, which are exactly
      the matching tickets in order; it is ordered by the chosen column, and
      tickets tied on that column keep their order. With the defaults
      nothing is filtered out and the newest ticket comes first. */
  lemma ListedSpec(ts: seq<Ticket>, v: View, k: Sorting.Key)
    ensures Lists.IsSubsequence(FilterTickets(ts, v), ts)
    ensures forall t :: t in Listed(ts, v) <==> t in ts && TicketMatches(t, v)
    ensures Sorting.SortedBy(Listed(ts, v), Column(v.sortBy), v.order)
    ensures Lists.Filter(Listed(ts, v), Sorting.KeyIs(Column(v.sortBy), k)) ==
      Lists.Filter(FilterTickets(ts, v), Sorting.KeyIs(Column(v.sortBy), k))
    ensures FilterTickets(ts, Defaults) == ts
  {
    Lists.FilterIsSubsequence(ts, Matches(v));
    forall t
      ensures t in Listed(ts, v) <==> t in ts && TicketMatches(t, v)
    {
      Lists.FilterMembers(ts, Matches(v), t);
      assert t in Listed(ts, v) <==> t in multiset(FilterTickets(ts, v));
    }
    Sorting.SortBySorted(FilterTickets(ts, v), Column(v.sortBy), v.order);
    Sorting.SortByStable(FilterTickets(ts, v), Column(v.sortBy), v.order, k);
    Lists.FilterAll(ts, Matches(Defaults));
  }

  /** Under the default view the list runs from the newest ticket to the oldest. */
  lemma DefaultsNewestFirst(ts: seq<Ticket>)
    ensures forall i, j :: 0 <= i < j < |Listed(ts, Defaults)| ==>
      Listed(ts, Defaults)[i].createdOn >= Listed(ts, Defaults)[j].createdOn
  {
    var r := Listed(ts, Defaults);
    Sorting.SortBySorted(FilterTickets(ts, Defaults), Column(ByDate), Sorting.Desc);
    forall i, j | 0 <= i < j < |r|
      ensures r[i].createdOn >= r[j].createdOn
    {
      assert Sorting.Precedes(Column(ByDate)(r[i]), Column(ByDate)(r[j]), Sorting.Desc);
    }
  }

  /** Selecting a status tab lists exactly as many tickets as its count says
      when no search is typed. */
  lemma TabCountMatchesList(ts: seq<Ticket>, status: String)
    requires status != "all"
    ensures |Listed(ts, Defaults.(statusFilter := status))| == StatusCount(ts, status)
  {
    var v := Defaults.(statusFilter := status);
    Lists.FilterCongruent(ts, Matches(v), StatusIs(status));
  }
}
