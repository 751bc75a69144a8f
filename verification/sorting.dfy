/** Sorting as the table screens do it: `Array.prototype.sort` (stable since
    ECMAScript 2019) with a comparator that looks at one column. Each column
    yields a `Key`; numbers compare numerically and strings compare one
    character at a time by code point, which is the order of JavaScript's
    `<` (by UTF-16 code unit) for text with no character beyond U+FFFF. */
module Sorting {
  import opened Text
  import Lists

  datatype Key = IntKey(n: int) | StrKey(s: String)

  datatype Order = Asc | Desc

  function Flip(o: Order): (r: Order)
    ensures r != o
  {
    if o == Asc then Desc else Asc
  }

  /** JavaScript `a < b` on strings, by code point (see above). */
  predicate StrLess(a: String, b: String)
    decreases |a|
  {
    if |a| == 0 then |b| > 0
    else if |b| == 0 then false
    else if a[0] == b[0] then StrLess(a[1..], b[1..])
    else a[0] < b[0]
  }

  lemma {:induction false} StrLessIrreflexive(a: String)
    ensures !StrLess(a, a)
    decreases |a|
  {
    if |a| > 0 {
      StrLessIrreflexive(a[1..]);
    }
  }

  lemma {:induction false} StrLessTransitive(a: String, b: String, c: String)
    requires StrLess(a, b) && StrLess(b, c)
    ensures StrLess(a, c)
    decreases |a|
  {
    if |a| > 0 && |b| > 0 && |c| > 0 && a[0] == b[0] && b[0] == c[0] {
      StrLessTransitive(a[1..], b[1..], c[1..]);
    }
  }

  lemma {:induction false} StrLessTotal(a: String, b: String)
    ensures a == b || StrLess(a, b) || StrLess(b, a)
    decreases |a|
  {
    if |a| > 0 && |b| > 0 && a[0] == b[0] {
      StrLessTotal(a[1..], b[1..]);
      if a[1..] == b[1..] {
        assert a == [a[0]] + a[1..] && b == [b[0]] + b[1..];
      }
    }
  }

  lemma StrLessAsymmetric(a: String, b: String)
    requires StrLess(a, b)
    ensures !StrLess(b, a)
  {
    if StrLess(b, a) {
      StrLessTransitive(a, b, a);
      StrLessIrreflexive(a);
    }
  }

  /** Two strings whose leading parts have one length compare by those
      parts, and by the rest only when the leading parts are equal. */
  lemma {:induction false} StrLessConcat(p: String, q: String, s: String, t: String)
    requires |p| == |q|
    ensures StrLess(p + s, q + t) <==> StrLess(p, q) || (p == q && StrLess(s, t))
    decreases |p|
  {
    if |p| == 0 {
      assert p + s == s && q + t == t;
    } else {
      assert (p + s)[1..] == p[1..] + s && (q + t)[1..] == q[1..] + t;
      assert p == [p[0]] + p[1..] && q == [q[0]] + q[1..];
      StrLessConcat(p[1..], q[1..], s, t);
    }
  }

  /** On decimal strings of one length, text order is numeric order. */
  lemma {:induction false} DigitsOrder(a: String, b: String)
    requires |a| == |b| && AllDigits(a) && AllDigits(b)
    ensures StrLess(a, b) <==> DigitsValue(a) < DigitsValue(b)
    ensures a == b <==> DigitsValue(a) == DigitsValue(b)
    decreases |a|
  {
    if |a| > 0 {
      var n := |a| - 1;
      assert a == a[..n] + [a[n]] && b == b[..n] + [b[n]];
      DigitsOrder(a[..n], b[..n]);
      StrLessConcat(a[..n], b[..n], [a[n]], [b[n]]);
      assert StrLess([a[n]], [b[n]]) <==> a[n] < b[n] by {
        assert [a[n]][1..] == [] && [b[n]][1..] == [];
      }
    }
  }

  /** `a < b` on column values. Every column holds values of one kind; the
      order between a number and a string is fixed arbitrarily. */
  predicate Less(a: Key, b: Key)
  {
    match a
    case IntKey(x) => b.StrKey? || x < b.n
    case StrKey(x) => b.StrKey? && StrLess(x, b.s)
  }

  /** `Less` is a strict total order. */
  lemma LessTrichotomy(a: Key, b: Key)
    ensures a == b || Less(a, b) || Less(b, a)
    ensures !(Less(a, b) && Less(b, a))
    ensures !Less(a, a)
  {
    if a.StrKey? {
      StrLessIrreflexive(a.s);
    }
    if a.StrKey? && b.StrKey? {
      StrLessTotal(a.s, b.s);
      if StrLess(a.s, b.s) {
        StrLessAsymmetric(a.s, b.s);
      }
    }
  }

  lemma LessTransitive(a: Key, b: Key, c: Key)
    requires Less(a, b) && Less(b, c)
    ensures Less(a, c)
  {
    if a.StrKey? {
      StrLessTransitive(a.s, b.s, c.s);
    }
  }

  /** The comparator `if (a < b) return asc ? -1 : 1; if (a > b) return asc ? 1 : -1; return 0`. */
  function Compare(a: Key, b: Key, order: Order): (c: int)
    ensures c == -1 || c == 0 || c == 1
    ensures c == 0 <==> a == b
    ensures order == Asc ==> (c < 0 <==> Less(a, b))
    ensures order == Desc ==> (c < 0 <==> Less(b, a))
  {
    LessTrichotomy(a, b);
    if Less(a, b) then (if order == Asc then -1 else 1)
    else if Less(b, a) then (if order == Asc then 1 else -1)
    else 0
  }

  /** Swapping the arguments negates the result, and descending is ascending negated. */
  lemma CompareAntisymmetric(a: Key, b: Key, order: Order)
    ensures Compare(a, b, order) == -Compare(b, a, order)
    ensures Compare(a, b, Flip(order)) == -Compare(a, b, order)
  {
    LessTrichotomy(a, b);
  }

  /** The comparator as two table screens write it: ascending is
      `a > b ? 1 : -1`, descending is `a < b ? 1 : -1`. It never answers 0. */
  function CompareAsWritten(a: Key, b: Key, order: Order): (c: int)
    ensures c == 1 || c == -1
    ensures order == Asc ==> (c == 1 <==> Less(b, a))
    ensures order == Desc ==> (c == 1 <==> Less(a, b))
  {
    if order == Asc then (if Less(b, a) then 1 else -1)
    else (if Less(a, b) then 1 else -1)
  }

  /** A comparator the ECMAScript `Array.prototype.sort` algorithm can rely
      on must answer 0 for equal values and opposite signs for swapped ones. */
  predicate ConsistentOn(cmp: (Key, Key) -> int, a: Key, b: Key)
  {
    && (a == b ==> cmp(a, b) == 0)
    && (cmp(a, b) < 0 <==> cmp(b, a) > 0)
  }

  /** Two rows with the same value each claim to come first: the written
      comparator is not consistent on ties, whatever the direction, so the
      order of such rows is left to the engine. */
  lemma CompareAsWrittenTies(k: Key, order: Order)
    ensures CompareAsWritten(k, k, order) == -1
    ensures !ConsistentOn((a, b) => CompareAsWritten(a, b, order), k, k)
  {
    LessTrichotomy(k, k);
  }

  /** The corrected comparator `Compare` is consistent on every pair. */
  lemma CompareConsistent(a: Key, b: Key, order: Order)
    ensures ConsistentOn((x, y) => Compare(x, y, order), a, b)
  {
    CompareAntisymmetric(a, b, order);
  }

  /** On distinct values the two comparators agree: they differ only on ties. */
  lemma CompareAsWrittenOffTies(a: Key, b: Key, order: Order)
    requires a != b
    ensures CompareAsWritten(a, b, order) == Compare(a, b, order)
  {
    LessTrichotomy(a, b);
  }

  /** "May come before" under the comparator. */
  predicate Precedes(a: Key, b: Key, order: Order)
  {
    Compare(a, b, order) <= 0
  }

  lemma PrecedesTotal(a: Key, b: Key, order: Order)
    ensures Precedes(a, b, order) || Precedes(b, a, order)
  {
    CompareAntisymmetric(a, b, order);
  }

  lemma PrecedesTransitive(a: Key, b: Key, c: Key, order: Order)
    requires Precedes(a, b, order) && Precedes(b, c, order)
    ensures Precedes(a, c, order)
  {
    if a != b && b != c {
      if order == Asc {
        LessTransitive(a, b, c);
      } else {
        LessTransitive(c, b, a);
      }
    }
  }

  ghost predicate SortedBy<T>(s: seq<T>, key: T -> Key, order: Order)
  {
    forall i, j :: 0 <= i < j < |s| ==> Precedes(key(s[i]), key(s[j]), order)
  }

  /** Place `x` before the first element it may precede. */
  function Insert<T>(x: T, s: seq<T>, key: T -> Key, order: Order): (r: seq<T>)
    ensures multiset(r) == multiset(s) + multiset{x}
    ensures |r| == |s| + 1
  {
    if |s| == 0 then [x]
    else if Precedes(key(x), key(s[0]), order) then [x] + s
    else
      assert s == [s[0]] + s[1..];
      [s[0]] + Insert(x, s[1..], key, order)
  }

  /** `[...xs].sort(comparator)` for the comparator of `Compare` on one column. */
  function SortBy<T>(xs: seq<T>, key: T -> Key, order: Order): (r: seq<T>)
    ensures multiset(r) == multiset(xs)
    ensures |r| == |xs|
  {
    if |xs| == 0 then []
    else
      assert xs == [xs[0]] + xs[1..];
      Insert(xs[0], SortBy(xs[1..], key, order), key, order)
  }

  /** An element that may precede every element of `s` and `x` also may
      precede everything in `Insert(x, s)`. */
  lemma PrecedesInsert<T>(y: T, x: T, s: seq<T>, key: T -> Key, order: Order)
    requires Precedes(key(y), key(x), order)
    requires forall i :: 0 <= i < |s| ==> Precedes(key(y), key(s[i]), order)
    ensures forall j :: 0 <= j < |Insert(x, s, key, order)| ==> Precedes(key(y), key(Insert(x, s, key, order)[j]), order)
  {
    var t := Insert(x, s, key, order);
    forall j | 0 <= j < |t|
      ensures Precedes(key(y), key(t[j]), order)
    {
      assert t[j] in multiset(t);
      if t[j] != x {
        assert t[j] in multiset(s);
        var k :| 0 <= k < |s| && s[k] == t[j];
      }
    }
  }

  /** Putting in front an element that may precede everything keeps a sorted sequence sorted. */
  lemma SortedCons<T>(y: T, t: seq<T>, key: T -> Key, order: Order)
    requires SortedBy(t, key, order)
    requires forall j :: 0 <= j < |t| ==> Precedes(key(y), key(t[j]), order)
    ensures SortedBy([y] + t, key, order)
  {
    var r := [y] + t;
    forall i, j | 0 <= i < j < |r|
      ensures Precedes(key(r[i]), key(r[j]), order)
    {
      if i > 0 {
        assert r[i] == t[i - 1] && r[j] == t[j - 1];
      } else {
        assert r[j] == t[j - 1];
      }
    }
  }

  lemma {:induction false} InsertSorted<T>(x: T, s: seq<T>, key: T -> Key, order: Order)
    requires SortedBy(s, key, order)
    ensures SortedBy(Insert(x, s, key, order), key, order)
    decreases |s|
  {
    if |s| > 0 {
      if Precedes(key(x), key(s[0]), order) {
        forall j | 0 <= j < |s|
          ensures Precedes(key(x), key(s[j]), order)
        {
          if j > 0 {
            PrecedesTransitive(key(x), key(s[0]), key(s[j]), order);
          }
        }
        SortedCons(x, s, key, order);
      } else {
        var t := Insert(x, s[1..], key, order);
        InsertSorted(x, s[1..], key, order);
        PrecedesTotal(key(x), key(s[0]), order);
        PrecedesInsert(s[0], x, s[1..], key, order);
        SortedCons(s[0], t, key, order);
      }
    }
  }

  /** The result is a permutation of the input, ordered by the comparator. */
  lemma {:induction false} SortBySorted<T>(xs: seq<T>, key: T -> Key, order: Order)
    ensures SortedBy(SortBy(xs, key, order), key, order)
    decreases |xs|
  {
    if |xs| > 0 {
      SortBySorted(xs[1..], key, order);
      InsertSorted(xs[0], SortBy(xs[1..], key, order), key, order);
    }
  }

  lemma FilterCons<T>(x: T, s: seq<T>, p: T -> bool)
    ensures Lists.Filter([x] + s, p) == (if p(x) then [x] else []) + Lists.Filter(s, p)
  {
    assert ([x] + s)[1..] == s;
  }

  /** The elements whose column value is `k`. */
  function KeyIs<T>(key: T -> Key, k: Key): T -> bool
  {
    y => key(y) == k
  }

  /** Two neighbours that are not both kept can trade places without
      changing what the filter keeps. */
  lemma FilterSwap<T>(a: T, b: T, rest: seq<T>, p: T -> bool)
    requires !(p(a) && p(b))
    ensures Lists.Filter([a] + ([b] + rest), p) == Lists.Filter([b] + ([a] + rest), p)
  {
    FilterCons(a, [b] + rest, p);
    FilterCons(b, rest, p);
    FilterCons(b, [a] + rest, p);
    FilterCons(a, rest, p);
  }

  /** Inserting keeps the elements of each key in the order they had with `x` in front. */
  lemma {:induction false} InsertKeepsTies<T>(x: T, s: seq<T>, key: T -> Key, order: Order, k: Key)
    ensures Lists.Filter(Insert(x, s, key, order), KeyIs(key, k)) == Lists.Filter([x] + s, KeyIs(key, k))
    decreases |s|
  {
    if |s| > 0 && !Precedes(key(x), key(s[0]), order) {
      var eq := KeyIs(key, k);
      InsertKeepsTies(x, s[1..], key, order, k);
      assert key(x) != key(s[0]);
      assert Insert(x, s, key, order) == [s[0]] + Insert(x, s[1..], key, order);
      FilterCons(s[0], Insert(x, s[1..], key, order), eq);
      FilterCons(s[0], [x] + s[1..], eq);
      FilterSwap(s[0], x, s[1..], eq);
      assert [s[0]] + s[1..] == s;
    }
  }

  /** Stability: elements with equal keys keep their input order. */
  lemma {:induction false} SortByStable<T>(xs: seq<T>, key: T -> Key, order: Order, k: Key)
    ensures Lists.Filter(SortBy(xs, key, order), KeyIs(key, k)) == Lists.Filter(xs, KeyIs(key, k))
    decreases |xs|
  {
    if |xs| > 0 {
      SortByStable(xs[1..], key, order, k);
      var t := SortBy(xs[1..], key, order);
      InsertKeepsTies(xs[0], t, key, order, k);
      FilterCons(xs[0], t, KeyIs(key, k));
      FilterCons(xs[0], xs[1..], KeyIs(key, k));
      assert xs == [xs[0]] + xs[1..];
    }
  }
}
