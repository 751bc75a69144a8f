/** The administrator's prescription table: four conjunctive filters, ten
    rows per page, and a pager with the first five page numbers. */
module AdminPrescriptions {
  import opened Wrappers
  import opened Text
  import Lists
  import Paging

  const PerPage: nat := 10

  datatype Person = Person(fName: Option<String>, lName: Option<String>)

  /** One prescription with its patient and doctor. `createdOnDate` is the
      `YYYY-MM-DD` part of the ISO rendering of `createdOn`. */
  datatype Record = Record(prescId: int, apId: int, users: Option<Person>, doctors: Option<Person>, createdOnDate: String)

  datatype Filters = Filters(name: String, doctor: String, appointment: String, date: String)

  const NoFilters: Filters := Filters("", "", "", "")

  /** `${p?.fName || ''} ${p?.lName || ''}`. */
  function DisplayName(p: Option<Person>): (r: String)
    ensures p.None? ==> r == " "
  {
    if p.None? then " " else OrEmpty(p.value.fName) + " " + OrEmpty(p.value.lName)
  }

  predicate RecordMatches(rec: Record, fs: Filters)
  {
    && ContainsIgnoringCase(DisplayName(rec.users), fs.name)
    && ContainsIgnoringCase(DisplayName(rec.doctors), fs.doctor)
    && Contains(IntToString(rec.apId), fs.appointment)
    && (fs.date == [] || rec.createdOnDate == fs.date)
  }

  function MatchesFilters(fs: Filters): Record -> bool
  {
    rec => RecordMatches(rec, fs)
  }

  /** `filteredPrescriptions`. */
  function FilterRecords(records: seq<Record>, fs: Filters): (r: seq<Record>)
    ensures |r| <= |records|
    ensures forall i :: 0 <= i < |r| ==> RecordMatches(r[i], fs)
  {
    Lists.Filter(records, MatchesFilters(fs))
  }

  /** The table keeps exactly the matching records in their order; an empty
      filter constrains nothing; a non-empty date filter is an exact match on
      the calendar date. */
  lemma FilterRecordsSpec(records: seq<Record>, fs: Filters)
    ensures Lists.IsSubsequence(FilterRecords(records, fs), records)
    ensures forall rec :: rec in FilterRecords(records, fs) <==> rec in records && RecordMatches(rec, fs)
    ensures FilterRecords(records, NoFilters) == records
    ensures fs.date != [] ==> forall i :: 0 <= i < |FilterRecords(records, fs)| ==> FilterRecords(records, fs)[i].createdOnDate == fs.date
  {
    Lists.FilterIsSubsequence(records, MatchesFilters(fs));
    forall rec
      ensures rec in FilterRecords(records, fs) <==> rec in records && RecordMatches(rec, fs)
    {
      Lists.FilterMembers(records, MatchesFilters(fs), rec);
    }
    forall i | 0 <= i < |records|
      ensures RecordMatches(records[i], NoFilters)
    {
      ContainsEmpty(Lower(DisplayName(records[i].users)));
      ContainsEmpty(Lower(DisplayName(records[i].doctors)));
      ContainsEmpty(IntToString(records[i].apId));
    }
    Lists.FilterAll(records, MatchesFilters(NoFilters));
  }

  datatype View = View(filters: Filters, page: int)

  const InitialView: View := View(NoFilters, 1)

  function TotalPages(records: seq<Record>, fs: Filters): nat
  {
    Paging.TotalPages(|FilterRecords(records, fs)|, PerPage)
  }

  /** `paginatedPrescriptions`. */
  function PageOfRecords(records: seq<Record>, v: View): (r: seq<Record>)
    requires v.page >= 1
    ensures |r| <= PerPage
    ensures forall i :: 0 <= i < |r| ==> RecordMatches(r[i], v.filters)
    ensures |r| > 0 <==> v.page <= TotalPages(records, v.filters)
  {
    var rows := FilterRecords(records, v.filters);
    var r := Paging.PageRows(rows, v.page, PerPage);
    assert forall i :: 0 <= i < |r| ==> r[i] == rows[Paging.PageStart(v.page, PerPage) + i];
    Paging.PageNonEmptyIff(rows, v.page, PerPage);
    r
  }

  /** The pager is rendered when more than one page's worth of rows match. */
  predicate PagerShown(records: seq<Record>, fs: Filters)
  {
    |FilterRecords(records, fs)| > PerPage
  }

  /** The pager shows exactly when there is more than one page. */
  lemma PagerShownIffSeveralPages(records: seq<Record>, fs: Filters)
    ensures PagerShown(records, fs) <==> TotalPages(records, fs) > 1
  {
  }

  /** The numbered buttons: pages 1 to at most 5, whatever the current page. */
  function PageButtons(records: seq<Record>, fs: Filters): (r: seq<int>)
    ensures |r| == Paging.Min(TotalPages(records, fs), 5)
    ensures forall k :: 0 <= k < |r| ==> r[k] == k + 1
  {
    Paging.LeadingPages(TotalPages(records, fs))
  }

  /** Beyond page 5 the current page has no numbered button. */
  lemma NoButtonBeyondFive(records: seq<Record>, v: View)
    requires v.page > 5
    ensures v.page !in PageButtons(records, v.filters)
  {
  }

  /** Previous: disabled on page 1. */
  function PressPrevious(v: View): (r: View)
    ensures r.filters == v.filters
    ensures v.page == 1 ==> r == v
    ensures v.page != 1 ==> r.page == v.page - 1
  {
    if v.page == 1 then v else v.(page := v.page - 1)
  }

  /** Next: disabled on the last page. */
  function PressNext(v: View, totalPages: int): (r: View)
    ensures r.filters == v.filters
    ensures v.page == totalPages ==> r == v
    ensures v.page != totalPages ==> r.page == v.page + 1
  {
    if v.page == totalPages then v else v.(page := v.page + 1)
  }

  /** A page number button. */
  function PressPage(v: View, page: int): (r: View)
    ensures r.page == page && r.filters == v.filters
  {
    v.(page := page)
  }

  /** Previous and Next keep a page that lies in [1, totalPages] inside it. */
  lemma PagerStaysInRange(v: View, totalPages: int)
    requires 1 <= v.page <= totalPages
    ensures 1 <= PressPrevious(v).page <= totalPages
    ensures 1 <= PressNext(v, totalPages).page <= totalPages
  {
  }

  /** `clearFilters`. */
  function ClearFilters(v: View): (r: View)
    ensures r == InitialView
  {
    View(NoFilters, 1)
  }

  /** After clearing, page 1 lists the first records in their order. */
  lemma ClearFiltersListsFirstPage(records: seq<Record>, v: View)
    ensures PageOfRecords(records, ClearFilters(v)) == records[..Paging.Min(|records|, PerPage)]
  {
    FilterRecordsSpec(records, NoFilters);
  }

  /* ---------- editing a filter ---------- */

  /** Editing the date field as written: the page number is kept. The other
      three fields behave the same way. */
  function SetDateFilterAsWritten(v: View, s: String): (r: View)
    ensures r.page == v.page && r.filters.date == s
  {
    v.(filters := v.filters.(date := s))
  }

  /** The corrected edit of the date field: it goes back to page 1, as
      `clearFilters` does. The three corrected edits after it do the same
      for the other fields. */
  function SetDateFilterCorrected(v: View, s: String): (r: View)
    ensures r.page == 1 && r.filters.date == s
    ensures r.filters.(date := v.filters.date) == v.filters
  {
    View(v.filters.(date := s), 1)
  }

  function SetNameFilterCorrected(v: View, s: String): View { View(v.filters.(name := s), 1) }
  function SetDoctorFilterCorrected(v: View, s: String): View { View(v.filters.(doctor := s), 1) }
  function SetAppointmentFilterCorrected(v: View, s: String): View { View(v.filters.(appointment := s), 1) }

  /** With the page reset, every edit that leaves some record matching shows
      a non-empty first page. */
  lemma FilterEditShowsMatches(records: seq<Record>, v: View, s: String)
    ensures |FilterRecords(records, SetDateFilterCorrected(v, s).filters)| > 0 ==> |PageOfRecords(records, SetDateFilterCorrected(v, s))| > 0
    ensures |FilterRecords(records, SetNameFilterCorrected(v, s).filters)| > 0 ==> |PageOfRecords(records, SetNameFilterCorrected(v, s))| > 0
    ensures |FilterRecords(records, SetDoctorFilterCorrected(v, s).filters)| > 0 ==> |PageOfRecords(records, SetDoctorFilterCorrected(v, s))| > 0
    ensures |FilterRecords(records, SetAppointmentFilterCorrected(v, s).filters)| > 0 ==> |PageOfRecords(records, SetAppointmentFilterCorrected(v, s))| > 0
  {
  }

  /** Eleven records, one of them issued on 2024-01-02. On page 2 of the
      unfiltered table, typing that date keeps page 2: the table is empty
      although a record matches, and the pager (shown only above ten
      matches) is gone, so no button leads back to page 1. */
  lemma StalePageHidesMatch(a: Record, b: Record)
    requires a.createdOnDate == "2024-01-02" && b.createdOnDate == "2024-01-01"
    ensures var records := [a] + seq(10, _ => b);
      var before := View(NoFilters, 2);
      var after := SetDateFilterAsWritten(before, "2024-01-02");
      && PageOfRecords(records, before) == [b]
      && FilterRecords(records, after.filters) == [a]
      && PageOfRecords(records, after) == []
      && !PagerShown(records, after.filters)
      && PageOfRecords(records, SetDateFilterCorrected(before, "2024-01-02")) == [a]
  {
    var records := [a] + seq(10, _ => b);
    var fs := NoFilters.(date := "2024-01-02");
    FilterRecordsSpec(records, NoFilters);
    assert |PageOfRecords(records, View(NoFilters, 2))| == 1;
    ContainsEmpty(Lower(DisplayName(a.users)));
    ContainsEmpty(Lower(DisplayName(a.doctors)));
    ContainsEmpty(IntToString(a.apId));
    assert RecordMatches(a, fs);
    assert !RecordMatches(b, fs);
    Lists.FilterNone(seq(10, _ => b), MatchesFilters(fs));
    Lists.FilterAppend([a], seq(10, _ => b), MatchesFilters(fs));
    assert Lists.Filter([a], MatchesFilters(fs)) == [a];
  }
}
