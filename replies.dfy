/** Values shared by every handler: optional request fields and the outcome of a
    request, which is either a payload delivered with status 200 or a bare error
    status. */
module Replies {

  datatype Option<+T> = None | Some(value: T)

  /** A handler's answer: `Done(v)` is a 200 response carrying `v`, `Failed(c)` is
      an error response with HTTP status `c`. */
  datatype Outcome<+T> = Done(value: T) | Failed(code: int)

  const BadRequest: int := 400
  const Unauthorized: int := 401
  const NotFound: int := 404
  const ServerError: int := 500

  /** JavaScript truthiness of a request field that should hold a string: a missing
      field and the empty string are both falsy. */
  predicate Present(field: Option<string>) {
    field.Some? && field.value != ""
  }

  /** JavaScript's `length` of a string: its UTF-16 code units, one for each code
      point up to U+FFFF and two (a surrogate pair) for each code point above. */
  function JsLength(s: string): (n: nat)
    ensures |s| <= n <= 2 * |s|
    ensures n == |s| <==> forall i :: 0 <= i < |s| ==> s[i] as int <= 0xFFFF
  {
    if s == [] then 0
    else
      var n := JsLength(s[1..]) + (if s[0] as int > 0xFFFF then 2 else 1);
      assert forall i :: 1 <= i < |s| ==> s[i] == s[1..][i - 1];
      n
  }

  /** A code point counts for one unit up to U+FFFF and for two above it. */
  function UnitsOf(c: char): nat {
    if c as int > 0xFFFF then 2 else 1
  }

  /** The length of a concatenation is the sum of the lengths, so a string's
      length is the sum of its characters' units. */
  lemma {:induction false} JsLengthConcat(a: string, b: string)
    ensures JsLength(a + b) == JsLength(a) + JsLength(b)
    ensures |a| == 1 ==> JsLength(a) == UnitsOf(a[0])
  {
    if a != [] {
      assert (a + b)[0] == a[0];
      assert (a + b)[1..] == a[1..] + b;
      JsLengthConcat(a[1..], b);
    } else {
      assert a + b == b;
    }
  }
}
