/** The list endpoints answer either with a bare array or with an object
    that wraps the array under one of a few property names; the screens
    unwrap them by trying the names in a fixed order. */
module Envelope {
  import opened Wrappers
  import opened Text

  /** A response body as far as unwrapping can tell: nothing (or another
      falsy value), an array, or an object whose array-valued properties are
      listed in `fields` (a property holding a non-array fails
      `Array.isArray` and is as good as missing). */
  datatype Body<T> = NoBody | ArrayBody(items: seq<T>) | ObjectBody(fields: map<String, seq<T>>)

  /** The array under the first of `keys` that the object has. */
  function FirstField<T>(fields: map<String, seq<T>>, keys: seq<String>): (r: Option<seq<T>>)
    ensures r.None? <==> forall i :: 0 <= i < |keys| ==> keys[i] !in fields
    ensures r.Some? ==>
      exists i :: 0 <= i < |keys| && keys[i] in fields && r.value == fields[keys[i]] && (forall j :: 0 <= j < i ==> keys[j] !in fields)
  {
    if |keys| == 0 then None
    else if keys[0] in fields then Some(fields[keys[0]])
    else
      var r := FirstField(fields, keys[1..]);
      assert forall j :: 0 < j < |keys| ==> keys[j] == keys[1..][j - 1];
      r
  }

  /** The list a screen works on: the array itself, else the first wrapped
      array, else the empty list. */
  function Unwrap<T>(b: Body<T>, keys: seq<String>): (r: seq<T>)
    ensures b.NoBody? ==> r == []
    ensures b.ArrayBody? ==> r == b.items
    ensures b.ObjectBody? && (forall i :: 0 <= i < |keys| ==> keys[i] !in b.fields) ==> r == []
    ensures b.ObjectBody? && |keys| > 0 && keys[0] in b.fields ==> r == b.fields[keys[0]]
  {
    match b
    case NoBody => []
    case ArrayBody(items) => items
    case ObjectBody(fields) => FirstField(fields, keys).GetOr([])
  }

  /** Unwrapping is idempotent: an unwrapped list re-wrapped as an array
      unwraps to itself, whatever names are tried. */
  lemma UnwrapIdempotent<T>(b: Body<T>, keys: seq<String>, others: seq<String>)
    ensures Unwrap(ArrayBody(Unwrap(b, keys)), others) == Unwrap(b, keys)
  {
  }

  /** The names are tried in order: the second one is used only when the
      first is missing. */
  lemma UnwrapOrder<T>(fields: map<String, seq<T>>, first: String, second: String)
    ensures first in fields ==> Unwrap(ObjectBody(fields), [first, second]) == fields[first]
    ensures first !in fields && second in fields ==> Unwrap(ObjectBody(fields), [first, second]) == fields[second]
    ensures first !in fields && second !in fields ==> Unwrap(ObjectBody(fields), [first, second]) == []
  {
    if first !in fields {
      assert [first, second][1..] == [second];
      assert FirstField(fields, [first, second]) == FirstField(fields, [second]);
    }
  }
}
