/** The list reductions every table screen repeats: `Array.prototype.filter`,
    counting with `filter(..).length`, and `[...new Set(xs)]`. */
module Lists {

  /** `a` is obtained from `b` by deleting elements, keeping the order. */
  predicate IsSubsequence<T(==)>(a: seq<T>, b: seq<T>)
    decreases |b|
  {
    |a| == 0 || (|b| > 0 && if a[0] == b[0] then IsSubsequence(a[1..], b[1..]) else IsSubsequence(a, b[1..]))
  }

  /** `xs.filter(p)`. */
  function Filter<T>(xs: seq<T>, p: T -> bool): (r: seq<T>)
    ensures |r| <= |xs|
    ensures forall i :: 0 <= i < |r| ==> p(r[i])
    decreases |xs|
  {
    if |xs| == 0 then [] else (if p(xs[0]) then [xs[0]] else []) + Filter(xs[1..], p)
  }

  /** The elements kept are exactly the members of the input that pass. */
  lemma {:induction false} FilterMembers<T>(xs: seq<T>, p: T -> bool, x: T)
    ensures x in Filter(xs, p) <==> x in xs && p(x)
    decreases |xs|
  {
    if |xs| > 0 {
      FilterMembers(xs[1..], p, x);
      assert xs == [xs[0]] + xs[1..];
    }
  }

  /** Every element kept comes from the input. */
  lemma FilterSubset<T>(xs: seq<T>, p: T -> bool)
    ensures forall x :: x in Filter(xs, p) ==> x in xs
  {
    forall x | x in Filter(xs, p)
      ensures x in xs
    {
      FilterMembers(xs, p, x);
    }
  }

  lemma {:induction false} SubsequenceRefl<T>(a: seq<T>)
    ensures IsSubsequence(a, a)
    decreases |a|
  {
    if |a| > 0 {
      SubsequenceRefl(a[1..]);
    }
  }

  lemma {:induction false} SubsequenceDropHead<T>(a: seq<T>, b: seq<T>)
    requires |a| > 0 && IsSubsequence(a, b)
    ensures IsSubsequence(a[1..], b)
    decreases |b|, 1
  {
    if a[0] == b[0] {
      SubsequenceOfTail(a[1..], b);
    } else {
      SubsequenceDropHead(a, b[1..]);
      SubsequenceOfTail(a[1..], b);
    }
  }

  /** A subsequence of the tail is a subsequence of the whole. */
  lemma {:induction false} SubsequenceOfTail<T>(a: seq<T>, b: seq<T>)
    requires |b| > 0 && IsSubsequence(a, b[1..])
    ensures IsSubsequence(a, b)
    decreases |b|, 0
  {
    if |a| > 0 && a[0] == b[0] {
      SubsequenceDropHead(a, b[1..]);
    }
  }

  /** The filter result keeps its elements in their original order. */
  lemma {:induction false} FilterIsSubsequence<T>(xs: seq<T>, p: T -> bool)
    ensures IsSubsequence(Filter(xs, p), xs)
    decreases |xs|
  {
    if |xs| > 0 {
      FilterIsSubsequence(xs[1..], p);
      var r := Filter(xs, p);
      if p(xs[0]) {
        assert r[0] == xs[0] && r[1..] == Filter(xs[1..], p);
      } else {
        assert r == Filter(xs[1..], p);
        SubsequenceOfTail(r, xs);
      }
    }
  }

  /** A predicate that holds of everything removes nothing. */
  lemma {:induction false} FilterAll<T>(xs: seq<T>, p: T -> bool)
    requires forall i :: 0 <= i < |xs| ==> p(xs[i])
    ensures Filter(xs, p) == xs
    decreases |xs|
  {
    if |xs| > 0 {
      FilterAll(xs[1..], p);
      assert xs == [xs[0]] + xs[1..];
    }
  }

  /** A predicate that holds of nothing keeps nothing. */
  lemma {:induction false} FilterNone<T>(xs: seq<T>, p: T -> bool)
    requires forall i :: 0 <= i < |xs| ==> !p(xs[i])
    ensures Filter(xs, p) == []
    decreases |xs|
  {
    if |xs| > 0 {
      FilterNone(xs[1..], p);
    }
  }

  function And<T>(p: T -> bool, q: T -> bool): T -> bool
  {
    x => p(x) && q(x)
  }

  function Or<T>(p: T -> bool, q: T -> bool): T -> bool
  {
    x => p(x) || q(x)
  }

  /** Filtering twice is filtering once by the conjunction. */
  lemma {:induction false} FilterFilter<T>(xs: seq<T>, p: T -> bool, q: T -> bool)
    ensures Filter(Filter(xs, p), q) == Filter(xs, And(p, q))
    decreases |xs|
  {
    if |xs| > 0 {
      var f := And(p, q);
      var x0 := xs[0];
      FilterFilter(xs[1..], p, q);
      var head := if p(x0) then [x0] else [];
      assert Filter(xs, p) == head + Filter(xs[1..], p);
      FilterAppend(head, Filter(xs[1..], p), q);
      assert Filter(head, q) == if f(x0) then [x0] else [] by {
        if p(x0) {
          assert head[1..] == [];
        }
      }
      assert Filter(xs, f) == (if f(x0) then [x0] else []) + Filter(xs[1..], f);
    }
  }

  lemma {:induction false} FilterAppend<T>(a: seq<T>, b: seq<T>, p: T -> bool)
    ensures Filter(a + b, p) == Filter(a, p) + Filter(b, p)
    decreases |a|
  {
    if |a| > 0 {
      FilterAppend(a[1..], b, p);
      assert (a + b)[1..] == a[1..] + b;
    } else {
      assert a + b == b;
    }
  }

  /** Two predicates that agree everywhere select the same elements. */
  lemma {:induction false} FilterCongruent<T>(xs: seq<T>, p: T -> bool, q: T -> bool)
    requires forall i :: 0 <= i < |xs| ==> p(xs[i]) == q(xs[i])
    ensures Filter(xs, p) == Filter(xs, q)
    decreases |xs|
  {
    if |xs| > 0 {
      FilterCongruent(xs[1..], p, q);
    }
  }

  /** `xs.filter(p).length`. */
  function Count<T>(xs: seq<T>, p: T -> bool): (n: nat)
    ensures n <= |xs|
  {
    |Filter(xs, p)|
  }

  /** Counts of two predicates that never hold together add up to the count
      of their disjunction, hence to at most the length. */
  lemma {:induction false} CountDisjoint<T>(xs: seq<T>, p: T -> bool, q: T -> bool)
    requires forall i :: 0 <= i < |xs| ==> !(p(xs[i]) && q(xs[i]))
    ensures Count(xs, p) + Count(xs, q) == Count(xs, Or(p, q))
    ensures Count(xs, p) + Count(xs, q) <= |xs|
    decreases |xs|
  {
    if |xs| > 0 {
      CountDisjoint(xs[1..], p, q);
    }
  }

  /** Three pairwise exclusive predicates count at most the whole list. */
  lemma CountDisjoint3<T>(xs: seq<T>, p: T -> bool, q: T -> bool, r: T -> bool)
    requires forall i :: 0 <= i < |xs| ==> !(p(xs[i]) && q(xs[i])) && !(p(xs[i]) && r(xs[i])) && !(q(xs[i]) && r(xs[i]))
    ensures Count(xs, p) + Count(xs, q) + Count(xs, r) <= |xs|
  {
    CountDisjoint(xs, p, q);
    CountDisjoint(xs, Or(p, q), r);
  }

  /** Four pairwise exclusive predicates count at most the whole list. */
  lemma CountDisjoint4<T>(xs: seq<T>, p: T -> bool, q: T -> bool, r: T -> bool, s: T -> bool)
    requires forall i :: 0 <= i < |xs| ==>
      !(p(xs[i]) && q(xs[i])) && !(p(xs[i]) && r(xs[i])) && !(p(xs[i]) && s(xs[i])) &&
      !(q(xs[i]) && r(xs[i])) && !(q(xs[i]) && s(xs[i])) && !(r(xs[i]) && s(xs[i]))
    ensures Count(xs, p) + Count(xs, q) + Count(xs, r) + Count(xs, s) <= |xs|
  {
    CountDisjoint(xs, p, q);
    CountDisjoint(xs, r, s);
    CountDisjoint(xs, Or(p, q), Or(r, s));
  }

  predicate NoDuplicates<T(==)>(xs: seq<T>)
  {
    forall i, j :: 0 <= i < j < |xs| ==> xs[i] != xs[j]
  }

  /** Index of the first occurrence of `x` in `xs`. */
  function FirstIndex<T(==)>(xs: seq<T>, x: T): (i: nat)
    requires x in xs
    ensures i < |xs| && xs[i] == x
    ensures forall j :: 0 <= j < i ==> xs[j] != x
  {
    if xs[0] == x then 0 else 1 + FirstIndex(xs[1..], x)
  }

  /** `[...new Set(xs)]`: each distinct element once, in order of first occurrence. */
  function Dedupe<T(==)>(xs: seq<T>): (r: seq<T>)
    ensures NoDuplicates(r)
    ensures forall i :: 0 <= i < |r| ==> r[i] in xs
    ensures forall i :: 0 <= i < |xs| ==> xs[i] in r
    decreases |xs|
  {
    if |xs| == 0 then []
    else
      var r := Dedupe(xs[..|xs| - 1]);
      if xs[|xs| - 1] in r then r else r + [xs[|xs| - 1]]
  }

  /** The distinct elements come in the order of their first occurrence. */
  lemma {:induction false} DedupeFirstOccurrenceOrder<T>(xs: seq<T>)
    ensures forall i, j :: 0 <= i < j < |Dedupe(xs)| ==> FirstIndex(xs, Dedupe(xs)[i]) < FirstIndex(xs, Dedupe(xs)[j])
    decreases |xs|
  {
    if |xs| > 0 {
      var init := xs[..|xs| - 1];
      var last := xs[|xs| - 1];
      DedupeFirstOccurrenceOrder(init);
      FirstIndexPrefix(xs, init);
      var r := Dedupe(init);
      assert Dedupe(xs) == if last in r then r else r + [last];
      forall i | 0 <= i < |r|
        ensures FirstIndex(xs, r[i]) == FirstIndex(init, r[i]) < |xs| - 1
      {
        assert r[i] in init;
      }
    }
  }

  /** First occurrences inside a prefix are first occurrences in the whole. */
  lemma FirstIndexPrefix<T>(xs: seq<T>, init: seq<T>)
    requires |xs| > 0 && init == xs[..|xs| - 1]
    ensures forall x :: x in init ==> FirstIndex(xs, x) == FirstIndex(init, x)
    ensures forall x :: x in xs && x !in init ==> FirstIndex(xs, x) == |xs| - 1
  {
    forall x | x in init
      ensures FirstIndex(xs, x) == FirstIndex(init, x)
    {
      var i := FirstIndex(init, x);
      assert xs[i] == x;
      var k := FirstIndex(xs, x);
      assert k <= i;
    }
  }

  /** The Set-based list is a subsequence of the input. */
  lemma {:induction false} DedupeIsSubsequence<T>(xs: seq<T>)
    ensures IsSubsequence(Dedupe(xs), xs)
    decreases |xs|
  {
    if |xs| > 0 {
      var init := xs[..|xs| - 1];
      DedupeIsSubsequence(init);
      var r := Dedupe(init);
      assert Dedupe(xs) == if xs[|xs| - 1] in r then r else r + [xs[|xs| - 1]];
      if xs[|xs| - 1] in r {
        SubsequenceAppend(r, init, xs[|xs| - 1]);
      } else {
        SubsequenceSnoc(r, init, xs[|xs| - 1]);
      }
      assert init + [xs[|xs| - 1]] == xs;
    }
  }

  lemma {:induction false} SubsequenceAppend<T>(a: seq<T>, b: seq<T>, x: T)
    requires IsSubsequence(a, b)
    ensures IsSubsequence(a, b + [x])
    decreases |b|
  {
    if |a| > 0 {
      assert (b + [x])[1..] == b[1..] + [x];
      if a[0] == b[0] {
        SubsequenceAppend(a[1..], b[1..], x);
      } else {
        SubsequenceAppend(a, b[1..], x);
      }
    }
  }

  lemma {:induction false} SubsequenceSnoc<T>(a: seq<T>, b: seq<T>, x: T)
    requires IsSubsequence(a, b)
    ensures IsSubsequence(a + [x], b + [x])
    decreases |b|
  {
    if |a| == 0 {
      assert a + [x] == [x];
      SubsequenceRefl([x]);
      SubsequenceOfSuffix([x], b);
    } else {
      assert (b + [x])[1..] == b[1..] + [x];
      assert (a + [x])[1..] == a[1..] + [x];
      if a[0] == b[0] {
        SubsequenceSnoc(a[1..], b[1..], x);
      } else {
        SubsequenceSnoc(a, b[1..], x);
      }
    }
  }

  lemma {:induction false} SubsequenceOfSuffix<T>(a: seq<T>, b: seq<T>)
    requires IsSubsequence(a, a)
    ensures IsSubsequence(a, b + a)
    decreases |b|
  {
    if |b| > 0 {
      SubsequenceOfSuffix(a, b[1..]);
      assert (b + a)[1..] == b[1..] + a;
      SubsequenceOfTail(a, b + a);
    } else {
      assert b + a == a;
    }
  }
}
