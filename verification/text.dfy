/** Strings as the screens use them: ASCII case folding, `includes`,
    `startsWith`, `trim`, decimal rendering of numbers and JavaScript
    truthiness of optional strings. */
module Text {
  import opened Wrappers

  type String = seq<char>

  predicate IsUpper(c: char) { 'A' <= c <= 'Z' }

  /** `toLowerCase` on one character, restricted to ASCII letters. */
  function LowerChar(c: char): (r: char)
    ensures !IsUpper(r)
    ensures IsUpper(c) ==> r != c && r as int - c as int == 32
    ensures !IsUpper(c) ==> r == c
  {
    if IsUpper(c) then (c as int + 32) as char else c
  }

  /** `s.toLowerCase()`: the same length, every character folded. */
  function Lower(s: String): (r: String)
    ensures |r| == |s|
    ensures forall i :: 0 <= i < |s| ==> r[i] == LowerChar(s[i])
  {
    seq(|s|, i requires 0 <= i < |s| => LowerChar(s[i]))
  }

  lemma LowerIdempotent(s: String)
    ensures Lower(Lower(s)) == Lower(s)
  {
  }

  lemma LowerConcat(a: String, b: String)
    ensures Lower(a + b) == Lower(a) + Lower(b)
  {
  }

  /** `t` occurs in `s` starting at index `i`. */
  predicate OccursAt(s: String, t: String, i: int)
  {
    0 <= i && i + |t| <= |s| && s[i..i + |t|] == t
  }

  /** `s.includes(t)`. */
  predicate Contains(s: String, t: String)
  {
    exists i :: 0 <= i <= |s| - |t| && OccursAt(s, t, i)
  }

  /** `s.startsWith(t)`. */
  predicate StartsWith(s: String, t: String)
  {
    |t| <= |s| && s[..|t|] == t
  }

  /** Case-insensitive `includes`, as in `a.toLowerCase().includes(b.toLowerCase())`. */
  predicate ContainsIgnoringCase(s: String, t: String)
  {
    Contains(Lower(s), Lower(t))
  }

  lemma ContainsEmpty(s: String)
    ensures Contains(s, [])
  {
    assert OccursAt(s, [], 0);
  }

  lemma ContainsSelf(s: String)
    ensures Contains(s, s)
  {
    assert OccursAt(s, s, 0);
  }

  lemma StartsWithContains(s: String, t: String)
    requires StartsWith(s, t)
    ensures Contains(s, t)
  {
    assert OccursAt(s, t, 0);
  }

  /** A string can only contain strings no longer than itself. */
  lemma ContainsLength(s: String, t: String)
    requires Contains(s, t)
    ensures |t| <= |s|
  {
  }

  /** JavaScript truthiness of a string. */
  predicate Truthy(s: String) { |s| > 0 }

  /** JavaScript truthiness of an optional string (`undefined`, `null` and `""` are falsy). */
  predicate TruthyOpt(s: Option<String>) { s.Some? && |s.value| > 0 }

  /** `a || b` on optional strings. */
  function OrElse(a: Option<String>, b: Option<String>): (r: Option<String>)
    ensures TruthyOpt(a) ==> r == a
    ensures !TruthyOpt(a) ==> r == b
  {
    if TruthyOpt(a) then a else b
  }

  /** `a || ''`: the string, or empty when absent. */
  function OrEmpty(a: Option<String>): (r: String)
    ensures a.Some? ==> r == a.value
    ensures a.None? ==> r == []
  {
    if a.Some? then a.value else []
  }

  /** Characters `String.prototype.trim` removes, restricted to ASCII. */
  predicate IsSpace(c: char)
  {
    c == ' ' || c == '\t' || c == '\n' || c == '\r' || c == '\U{B}' || c == '\U{C}'
  }

  predicate IsBlank(s: String)
  {
    forall i :: 0 <= i < |s| ==> IsSpace(s[i])
  }

  function TrimStart(s: String): (r: String)
    ensures |r| <= |s| && r == s[|s| - |r|..]
    ensures |r| > 0 ==> !IsSpace(r[0])
    ensures IsBlank(s[..|s| - |r|])
  {
    if |s| > 0 && IsSpace(s[0]) then TrimStart(s[1..]) else s
  }

  function TrimEnd(s: String): (r: String)
    ensures |r| <= |s| && r == s[..|r|]
    ensures |r| > 0 ==> !IsSpace(r[|r| - 1])
    ensures IsBlank(s[|r|..])
  {
    if |s| > 0 && IsSpace(s[|s| - 1]) then TrimEnd(s[..|s| - 1]) else s
  }

  /** `s.trim()`: the longest infix with no white space at either end. */
  function Trim(s: String): (r: String)
    ensures |r| <= |s|
    ensures |r| > 0 ==> !IsSpace(r[0]) && !IsSpace(r[|r| - 1])
    ensures r == TrimEnd(TrimStart(s))
    ensures r == s[|s| - |TrimStart(s)|..][..|r|]
  {
    TrimEnd(TrimStart(s))
  }

  /** The trimmed string is empty exactly when the input is all white space:
      the test `!s.trim()` is the test "blank". */
  lemma TrimEmptyIffBlank(s: String)
    ensures Trim(s) == [] <==> IsBlank(s)
  {
    var a := TrimStart(s);
    var k := |s| - |a|;
    if Trim(s) == [] {
      assert a[0..] == a;
      assert IsBlank(a);
      assert |a| == 0;
      assert s[..k] == s;
    }
    if IsBlank(s) {
      BlankTrimStart(s);
    }
  }

  lemma {:induction false} BlankTrimStart(s: String)
    requires IsBlank(s)
    ensures TrimStart(s) == []
    decreases |s|
  {
    if |s| > 0 {
      BlankTrimStart(s[1..]);
    }
  }

  /** Trimming twice changes nothing. */
  lemma TrimIdempotent(s: String)
    ensures Trim(Trim(s)) == Trim(s)
  {
    var r := Trim(s);
    if |r| > 0 {
      assert TrimStart(r) == r;
      assert TrimEnd(r) == r;
    }
  }

  function DigitChar(d: int): (r: char)
    requires 0 <= d < 10
    ensures '0' <= r <= '9'
    ensures r as int - '0' as int == d
  {
    ('0' as int + d) as char
  }

  predicate IsDigit(c: char) { '0' <= c <= '9' }

  predicate AllDigits(s: String) { forall i :: 0 <= i < |s| ==> IsDigit(s[i]) }

  /** Decimal rendering of a natural number, `n.toString()`. */
  function NatToString(n: nat): (r: String)
    ensures |r| > 0
    ensures forall i :: 0 <= i < |r| ==> IsDigit(r[i])
    ensures |r| > 1 ==> r[0] != '0'
  {
    if n < 10 then [DigitChar(n)] else NatToString(n / 10) + [DigitChar(n % 10)]
  }

  function DigitValue(c: char): (r: nat)
    requires IsDigit(c)
    ensures r < 10
  {
    c as int - '0' as int
  }

  /** The value of a string of decimal digits. */
  function DigitsValue(s: String): nat
    requires AllDigits(s)
  {
    if |s| == 0 then 0 else 10 * DigitsValue(s[..|s| - 1]) + DigitValue(s[|s| - 1])
  }

  /** Two decimal digits with a leading zero, `String(n).padStart(2, '0')`. */
  function Pad2(n: nat): (r: String)
    requires n < 100
    ensures |r| == 2 && AllDigits(r)
  {
    [DigitChar(n / 10), DigitChar(n % 10)]
  }

  lemma Pad2Value(n: nat)
    requires n < 100
    ensures DigitsValue(Pad2(n)) == n
  {
    var r := Pad2(n);
    assert r[..1][..0] == [];
    assert DigitsValue(r[..1]) == DigitValue(r[0]) == n / 10;
    assert DigitsValue(r) == 10 * DigitsValue(r[..1]) + DigitValue(r[1]);
  }

  /** Reading back the decimal rendering gives the number: rendering is injective. */
  lemma {:induction false} NatToStringRoundTrip(n: nat)
    ensures DigitsValue(NatToString(n)) == n
  {
    if n >= 10 {
      NatToStringRoundTrip(n / 10);
      var r := NatToString(n);
      assert r[..|r| - 1] == NatToString(n / 10);
    }
  }

  lemma NatToStringInjective(m: nat, n: nat)
    requires NatToString(m) == NatToString(n)
    ensures m == n
  {
    NatToStringRoundTrip(m);
    NatToStringRoundTrip(n);
  }

  /** `n.toString()` for any integer. */
  function IntToString(n: int): (r: String)
    ensures |r| > 0
    ensures n >= 0 ==> r == NatToString(n)
    ensures n < 0 ==> r == ['-'] + NatToString(-n)
  {
    if n >= 0 then NatToString(n) else ['-'] + NatToString(-n)
  }

  /** Distinct numbers have distinct decimal renderings, signs included. */
  lemma IntToStringInjective(m: int, n: int)
    requires IntToString(m) == IntToString(n)
    ensures m == n
  {
    if m >= 0 && n >= 0 {
      NatToStringInjective(m, n);
    } else if m < 0 && n < 0 {
      assert NatToString(-m) == IntToString(m)[1..] == IntToString(n)[1..] == NatToString(-n);
      NatToStringInjective(-m, -n);
    }
  }
}
