/** Client-side pagination shared by the table screens: page counts, the
    visible slice, Previous/Next clamping and the three different ways the
    screens choose which numbered page buttons to draw. */
module Paging {
  import opened Wrappers
  import Lists

  function Min(a: int, b: int): int { if a <= b then a else b }
  function Max(a: int, b: int): int { if a >= b then a else b }

  /** `Math.ceil(n / perPage)`: the fewest pages of `perPage` rows that hold `n` rows. */
  function TotalPages(n: nat, perPage: nat): (t: nat)
    requires perPage > 0
    ensures t * perPage >= n
    ensures t > 0 ==> (t - 1) * perPage < n
    ensures t == 0 <==> n == 0
  {
    var m := n + perPage - 1;
    var t := m / perPage;
    assert m == t * perPage + m % perPage;
    assert t * perPage - perPage == (t - 1) * perPage;
    t
  }

  /** Index of the first row of `page` (pages count from 1). */
  function PageStart(page: int, perPage: nat): int
  {
    (page - 1) * perPage
  }

  /** `rows.slice(start, start + perPage)` with `start = (page - 1) * perPage`. */
  function PageRows<T>(rows: seq<T>, page: int, perPage: nat): (r: seq<T>)
    requires page >= 1 && perPage > 0
    ensures |r| <= perPage
    ensures |r| == if PageStart(page, perPage) >= |rows| then 0 else Min(perPage, |rows| - PageStart(page, perPage))
    ensures |r| > 0 ==> 0 <= PageStart(page, perPage) && PageStart(page, perPage) + |r| <= |rows|
    ensures forall k :: 0 <= k < |r| ==> r[k] == rows[PageStart(page, perPage) + k]
  {
    var start := PageStart(page, perPage);
    assert start >= 0;
    if start >= |rows| then [] else rows[start..Min(start + perPage, |rows|)]
  }

  lemma MulMonotone(a: int, b: int, c: nat)
    requires a <= b
    ensures a * c <= b * c
  {
    assert b * c - a * c == (b - a) * c;
  }

  /** Pages 1..TotalPages are exactly the non-empty ones. */
  lemma PageNonEmptyIff<T>(rows: seq<T>, page: int, perPage: nat)
    requires page >= 1 && perPage > 0
    ensures |PageRows(rows, page, perPage)| > 0 <==> page <= TotalPages(|rows|, perPage)
  {
    var t := TotalPages(|rows|, perPage);
    if page <= t {
      MulMonotone(page - 1, t - 1, perPage);
    } else {
      MulMonotone(t, page - 1, perPage);
    }
  }

  /** Every row is shown on exactly one page: row `i` sits on page
      `i / perPage + 1` at position `i % perPage`, and that page exists. */
  lemma RowOnPage<T>(rows: seq<T>, i: int, perPage: nat)
    requires 0 <= i < |rows| && perPage > 0
    ensures var page := i / perPage + 1;
      && 1 <= page <= TotalPages(|rows|, perPage)
      && i % perPage < |PageRows(rows, page, perPage)|
      && PageRows(rows, page, perPage)[i % perPage] == rows[i]
  {
    var page := i / perPage + 1;
    assert PageStart(page, perPage) + i % perPage == i;
    PageNonEmptyIff(rows, page, perPage);
  }

  /** The Previous button: `Math.max(page - 1, 1)`. */
  function PrevPage(page: int): (p: int)
    ensures p >= 1
    ensures page > 1 ==> p == page - 1
  {
    Max(page - 1, 1)
  }

  /** The Next button: `Math.min(page + 1, totalPages)`. */
  function NextPage(page: int, totalPages: int): (p: int)
    ensures p <= totalPages
    ensures page < totalPages ==> p == page + 1
  {
    Min(page + 1, totalPages)
  }

  /** Previous and Next keep a page that lies in [1, totalPages] inside it. */
  lemma PrevNextStayInRange(page: int, totalPages: int)
    requires 1 <= page <= totalPages
    ensures 1 <= PrevPage(page) <= totalPages
    ensures 1 <= NextPage(page, totalPages) <= totalPages
  {
  }

  /** `[lo, lo + 1, ..., hi]` (empty when hi < lo). */
  function Range(lo: int, hi: int): (r: seq<int>)
    ensures |r| == if hi < lo then 0 else hi - lo + 1
    ensures forall k :: 0 <= k < |r| ==> r[k] == lo + k
    decreases hi - lo
  {
    if hi < lo then [] else [lo] + Range(lo + 1, hi)
  }

  predicate StrictlyIncreasing(s: seq<int>)
  {
    forall i, j :: 0 <= i < j < |s| ==> s[i] < s[j]
  }

  /** ViewUsers keeps page 1, the last page and pages within two of the current one. */
  predicate Shown(page: int, totalPages: int, current: int)
  {
    page == 1 || page == totalPages || -2 <= page - current <= 2
  }

  /** `Array.from({length: totalPages}, (_, i) => i + 1).filter(page => ...)`. */
  function ShownPages(totalPages: nat, current: int): (r: seq<int>)
  {
    Lists.Filter(Range(1, totalPages), p => Shown(p, totalPages, current))
  }

  /** The shown pages rise strictly and are exactly the pages in range that
      are first, last, or within two of the current page. */
  lemma ShownPagesSpec(totalPages: nat, current: int)
    ensures StrictlyIncreasing(ShownPages(totalPages, current))
    ensures forall p :: p in ShownPages(totalPages, current) <==> 1 <= p <= totalPages && Shown(p, totalPages, current)
  {
    var all := Range(1, totalPages);
    var f := p => Shown(p, totalPages, current);
    Lists.FilterIsSubsequence(all, f);
    SubsequenceOfIncreasing(ShownPages(totalPages, current), all);
    forall p
      ensures p in ShownPages(totalPages, current) <==> 1 <= p <= totalPages && Shown(p, totalPages, current)
    {
      Lists.FilterMembers(all, f, p);
      if 1 <= p <= totalPages {
        assert all[p - 1] == p;
      }
    }
  }

  lemma {:induction false} SubsequenceOfIncreasing(a: seq<int>, b: seq<int>)
    requires Lists.IsSubsequence(a, b) && StrictlyIncreasing(b)
    ensures StrictlyIncreasing(a)
    ensures forall i :: 0 <= i < |a| ==> a[i] in b
    decreases |b|
  {
    if |a| > 0 {
      assert |b| > 0;
      if a[0] == b[0] {
        SubsequenceOfIncreasing(a[1..], b[1..]);
        forall j | 0 < j < |a|
          ensures a[0] < a[j]
        {
          assert a[1..][j - 1] in b[1..];
        }
      } else {
        SubsequenceOfIncreasing(a, b[1..]);
      }
    }
  }

  datatype PagerItem = PageButton(page: int) | Ellipsis

  /** The numbered buttons of a pager, ignoring ellipses. */
  function Buttons(items: seq<PagerItem>): (r: seq<int>)
    ensures |r| <= |items|
  {
    if |items| == 0 then []
    else (if items[0].PageButton? then [items[0].page] else []) + Buttons(items[1..])
  }

  /** The `.map((page, index, array) => ...)` of ViewUsers: an ellipsis goes
      in front of a page that does not follow the previous shown page. */
  function WithEllipses(pages: seq<int>, prev: Option<int>): (r: seq<PagerItem>)
    ensures Buttons(r) == pages
    ensures |pages| == 0 <==> r == []
    ensures |pages| > 0 ==> r[0] == if prev.Some? && prev.value != pages[0] - 1 then Ellipsis else PageButton(pages[0])
    decreases |pages|
  {
    if |pages| == 0 then []
    else
      var head := if prev.Some? && prev.value != pages[0] - 1 then [Ellipsis, PageButton(pages[0])] else [PageButton(pages[0])];
      var rest := WithEllipses(pages[1..], Some(pages[0]));
      ButtonsAppend(head, rest);
      assert pages == [pages[0]] + pages[1..];
      head + rest
  }

  /** The part of the pager row that precedes the rest of the pages. */
  function Lead(pages: seq<int>, prev: Option<int>): seq<PagerItem>
    requires |pages| > 0
  {
    if prev.Some? && prev.value != pages[0] - 1 then [Ellipsis, PageButton(pages[0])] else [PageButton(pages[0])]
  }

  lemma WithEllipsesUnfold(pages: seq<int>, prev: Option<int>)
    requires |pages| > 0
    ensures WithEllipses(pages, prev) == Lead(pages, prev) + WithEllipses(pages[1..], Some(pages[0]))
  {
  }

  /** The pager row always ends on a numbered button. */
  lemma {:induction false} EllipsesEndOnButton(pages: seq<int>, prev: Option<int>)
    ensures var r := WithEllipses(pages, prev); |pages| > 0 ==> r[|r| - 1] == PageButton(pages[|pages| - 1])
    decreases |pages|
  {
    if |pages| > 0 {
      WithEllipsesUnfold(pages, prev);
    }
    if |pages| > 1 {
      EllipsesEndOnButton(pages[1..], Some(pages[0]));
    }
  }

  /** Two buttons side by side always show consecutive pages. */
  lemma {:induction false} AdjacentButtonsConsecutive(pages: seq<int>, prev: Option<int>)
    ensures var r := WithEllipses(pages, prev);
      forall j :: 0 <= j < |r| - 1 && r[j].PageButton? && r[j + 1].PageButton? ==> r[j + 1].page == r[j].page + 1
    decreases |pages|
  {
    if |pages| > 0 {
      var r := WithEllipses(pages, prev);
      var lead := Lead(pages, prev);
      var rest := WithEllipses(pages[1..], Some(pages[0]));
      WithEllipsesUnfold(pages, prev);
      AdjacentButtonsConsecutive(pages[1..], Some(pages[0]));
      forall j | 0 <= j < |r| - 1 && r[j].PageButton? && r[j + 1].PageButton?
        ensures r[j + 1].page == r[j].page + 1
      {
        if j >= |lead| {
          assert r[j] == rest[j - |lead|] && r[j + 1] == rest[j + 1 - |lead|];
        } else {
          assert j == |lead| - 1 && r[j + 1] == rest[0];
        }
      }
    }
  }

  /** Every ellipsis is followed by a numbered button. */
  lemma {:induction false} EllipsisThenButton(pages: seq<int>, prev: Option<int>)
    ensures var r := WithEllipses(pages, prev);
      forall j :: 0 <= j < |r| - 1 && r[j].Ellipsis? ==> r[j + 1].PageButton?
    decreases |pages|
  {
    if |pages| > 0 {
      var r := WithEllipses(pages, prev);
      var lead := Lead(pages, prev);
      var rest := WithEllipses(pages[1..], Some(pages[0]));
      WithEllipsesUnfold(pages, prev);
      EllipsisThenButton(pages[1..], Some(pages[0]));
      forall j | 0 <= j < |r| - 1 && r[j].Ellipsis?
        ensures r[j + 1].PageButton?
      {
        if j >= |lead| {
          assert r[j] == rest[j - |lead|] && r[j + 1] == rest[j + 1 - |lead|];
        }
      }
    }
  }

  /** An ellipsis that is not first sits between two numbered buttons whose
      pages are not consecutive. */
  lemma {:induction false} EllipsisInGap(pages: seq<int>, prev: Option<int>)
    ensures var r := WithEllipses(pages, prev);
      forall j :: 0 < j < |r| - 1 && r[j].Ellipsis? ==>
        r[j - 1].PageButton? && r[j + 1].PageButton? && r[j + 1].page != r[j - 1].page + 1
    decreases |pages|
  {
    if |pages| > 0 {
      var r := WithEllipses(pages, prev);
      var lead := Lead(pages, prev);
      var rest := WithEllipses(pages[1..], Some(pages[0]));
      WithEllipsesUnfold(pages, prev);
      EllipsisInGap(pages[1..], Some(pages[0]));
      forall j | 0 < j < |r| - 1 && r[j].Ellipsis?
        ensures r[j - 1].PageButton? && r[j + 1].PageButton? && r[j + 1].page != r[j - 1].page + 1
      {
        if j > |lead| {
          assert r[j - 1] == rest[j - 1 - |lead|] && r[j] == rest[j - |lead|] && r[j + 1] == rest[j + 1 - |lead|];
        } else {
          assert j == |lead| && r[j - 1] == PageButton(pages[0]) && r[j] == rest[0] && r[j + 1] == rest[1];
          WithEllipsesUnfold(pages[1..], Some(pages[0]));
        }
      }
    }
  }

  /** Every ellipsis is followed by a button, and one that is not first sits
      between two buttons whose pages are not consecutive. */
  lemma EllipsisMarksGap(pages: seq<int>, prev: Option<int>)
    ensures var r := WithEllipses(pages, prev);
      && (forall j :: 0 <= j < |r| - 1 && r[j].Ellipsis? ==> r[j + 1].PageButton?)
      && (forall j :: 0 < j < |r| - 1 && r[j].Ellipsis? ==> r[j - 1].PageButton? && r[j + 1].page != r[j - 1].page + 1)
  {
    EllipsisThenButton(pages, prev);
    EllipsisInGap(pages, prev);
  }

  lemma {:induction false} ButtonsAppend(a: seq<PagerItem>, b: seq<PagerItem>)
    ensures Buttons(a + b) == Buttons(a) + Buttons(b)
    decreases |a|
  {
    if |a| > 0 {
      ButtonsAppend(a[1..], b);
      assert (a + b)[1..] == a[1..] + b;
    } else {
      assert a + b == b;
    }
  }

  /** The ViewUsers pager row between « and ». */
  function EllipsisPager(totalPages: nat, current: int): (r: seq<PagerItem>)
    ensures Buttons(r) == ShownPages(totalPages, current)
    ensures |r| > 0 ==> r[0].PageButton? && r[|r| - 1].PageButton?
  {
    var pages := ShownPages(totalPages, current);
    EllipsesEndOnButton(pages, None);
    WithEllipses(pages, None)
  }

  /** DoctorPrescription's five-button window. */
  function SlidingWindow(totalPages: nat, current: int): (r: seq<int>)
    ensures |r| == Min(5, totalPages)
    ensures forall k :: 0 <= k < |r| ==> r[k] == r[0] + k
    ensures |r| > 0 ==> 1 <= r[0] && r[|r| - 1] <= totalPages
    ensures 1 <= current <= totalPages ==> current in r
  {
    var first :=
      if totalPages <= 5 then 1
      else if current <= 3 then 1
      else if current >= totalPages - 2 then totalPages - 4
      else current - 2;
    var r := seq(Min(5, totalPages), k requires 0 <= k => first + k);
    assert 1 <= current <= totalPages ==> r[current - first] == current;
    r
  }

  /** ViewPrescriptions' buttons: always pages 1 .. min(totalPages, 5). */
  function LeadingPages(totalPages: nat): (r: seq<int>)
    ensures |r| == Min(totalPages, 5)
    ensures forall k :: 0 <= k < |r| ==> r[k] == k + 1
  {
    Range(1, Min(totalPages, 5))
  }
}
