/** Shared vocabulary of the model: optional values, results, errors, time. */
module Common {

  datatype Option<T> = None | Some(value: T)

  /** An error as the services throw it: `new Error(message)`, optionally
      with an HTTP `status` attached (the financial services do this). */
  datatype Error = Error(message: string, status: Option<int>)

  function Err(message: string): Error {
    Error(message, None)
  }

  /** The value of a call that either returns or throws. */
  datatype Result<T> = Ok(value: T) | Fail(error: Error) {
    predicate IsFailure() {
      Fail?
    }

    function PropagateFailure<U>(): Result<U>
      requires Fail?
    {
      Fail(error)
    }

    function Extract(): T
      requires Ok?
    {
      value
    }
  }

  /** The value of a check that returns nothing or throws. */
  datatype Outcome = Pass | Reject(error: Error)

  /** A request-body field: `undefined`, `null` or a value. The two empty
      forms differ under `===`. */
  datatype Input<T> = Undef | Null | Given(value: T)

  /** What a middleware does with a request: call `next()` (with the
      context it attached to the request), answer it, or pass an error on
      with `next(error)`. */
  datatype Gate<C> =
    | Next(context: C)
    | Deny(status: int, message: string, errors: Option<seq<string>>)
    | Forward(error: Error)

  /** The 400 answer of the validators: "Validation failed" with the
      collected errors, or `next()` when there are none. */
  function Validation(errors: seq<string>): (g: Gate<()>)
    ensures g.Next? <==> errors == []
    ensures g.Deny? ==> g == Deny(400, "Validation failed", Some(errors))
  {
    if |errors| > 0 then Deny(400, "Validation failed", Some(errors)) else Next(())
  }

  /** `!s || !s.trim()` for a request-body string. */
  predicate InputBlank(s: Input<string>) {
    !s.Given? || Blank(s.value)
  }

  /** JavaScript truthiness of an optional string: absent and "" are falsy. */
  predicate Present(s: Option<string>) {
    s.Some? && s.value != ""
  }

  /** `s || d` for an optional string. */
  function OrElse(s: Option<string>, d: string): string {
    if Present(s) then s.value else d
  }

  /** `s || null` for an optional string. */
  function OrNull(s: Option<string>): Option<string> {
    if Present(s) then s else None
  }

  /** `x ?? d` / `x !== undefined ? x : d` for an optional value. */
  function Default<T>(x: Option<T>, d: T): T {
    if x.Some? then x.value else d
  }

  /** The position of the first element satisfying `p` (`findIndex`, or
      the document `findOne` returns when the collection is in id order). */
  function FirstWhere<T>(s: seq<T>, p: T -> bool): (r: Option<nat>)
    ensures r.None? <==> forall i :: 0 <= i < |s| ==> !p(s[i])
    ensures r.Some? ==> r.value < |s| && p(s[r.value]) && forall j :: 0 <= j < r.value ==> !p(s[j])
  {
    if s == [] then None
    else if p(s[0]) then Some(0)
    else
      var r := FirstWhere(s[1..], p);
      assert forall i :: 1 <= i < |s| ==> s[i] == s[1..][i - 1];
      if r.None? then None else Some(r.value + 1)
  }

  /** `Array.prototype.filter`: the elements satisfying `keep`, in order.
      Nothing is dropped exactly when every element is kept. */
  function Filter<T(!new)>(s: seq<T>, keep: T -> bool): (r: seq<T>)
    ensures |r| <= |s|
    ensures forall x :: x in r <==> x in s && keep(x)
    ensures |r| == |s| <==> forall i :: 0 <= i < |s| ==> keep(s[i])
  {
    if s == [] then []
    else
      var rest := Filter(s[1..], keep);
      assert forall x :: x in s <==> x == s[0] || x in s[1..];
      assert forall i :: 1 <= i < |s| ==> s[i] == s[1..][i - 1];
      if keep(s[0]) then [s[0]] + rest else rest
  }

  /** No two elements share a key. */
  predicate DistinctKeys<T>(s: seq<T>, key: T -> nat) {
    forall i, j :: 0 <= i < j < |s| ==> key(s[i]) != key(s[j])
  }

  /** Filtering keeps keys distinct. */
  lemma {:induction false} FilterDistinct<T(!new)>(s: seq<T>, keep: T -> bool, key: T -> nat)
    requires DistinctKeys(s, key)
    ensures DistinctKeys(Filter(s, keep), key)
  {
    if s != [] {
      assert DistinctKeys(s[1..], key) by {
        assert forall i :: 1 <= i < |s| ==> s[i] == s[1..][i - 1];
      }
      FilterDistinct(s[1..], keep, key);
      var rest := Filter(s[1..], keep);
      if keep(s[0]) {
        var r := [s[0]] + rest;
        forall i, j | 0 <= i < j < |r|
          ensures key(r[i]) != key(r[j])
        {
          if i == 0 {
            assert r[j] == rest[j - 1] && rest[j - 1] in s[1..];
            var k :| 0 <= k < |s[1..]| && s[1..][k] == r[j];
            assert s[k + 1] == r[j];
          } else {
            assert r[i] == rest[i - 1] && r[j] == rest[j - 1];
          }
        }
      }
    }
  }

  /** Milliseconds in one calendar day (dates are modelled as epoch milliseconds). */
  const DayMs: int := 86_400_000

  /** The white space and line terminators of ECMAScript: what
      String.prototype.trim strips and what `\s` matches. */
  predicate IsWhitespace(c: char) {
    || c == ' ' || c == '\t' || c == '\n' || c == '\r' || c == '\U{000B}' || c == '\U{000C}'
    || c == '\U{00A0}' || c == '\U{1680}' || ('\U{2000}' <= c <= '\U{200A}')
    || c == '\U{2028}' || c == '\U{2029}' || c == '\U{202F}' || c == '\U{205F}'
    || c == '\U{3000}' || c == '\U{FEFF}'
  }

  predicate Blank(s: string) {
    forall i :: 0 <= i < |s| ==> IsWhitespace(s[i])
  }

  /** `!s || !s.trim()` for an optional string. */
  predicate MissingOrBlank(s: Option<string>) {
    s.None? || Blank(s.value)
  }

  /** String.prototype.trim: drops leading and trailing whitespace. */
  function Trim(s: string): (r: string)
    ensures |r| <= |s|
    ensures r == "" <==> Blank(s)
    ensures r != "" ==> !IsWhitespace(r[0]) && !IsWhitespace(r[|r| - 1])
  {
    TrimEnd(TrimStart(s))
  }

  function TrimStart(s: string): (r: string)
    ensures |r| <= |s| && r == s[|s| - |r|..]
    ensures Blank(r) <==> Blank(s)
    ensures r != "" ==> !IsWhitespace(r[0])
  {
    if s != [] && IsWhitespace(s[0]) then
      var r := TrimStart(s[1..]);
      assert s[1..][|s[1..]| - |r|..] == s[|s| - |r|..];
      r
    else s
  }

  function TrimEnd(s: string): (r: string)
    ensures |r| <= |s| && r == s[..|r|]
    ensures Blank(r) <==> Blank(s)
    ensures r == "" <==> Blank(s)
    ensures r != "" ==> !IsWhitespace(r[|r| - 1])
    ensures s != "" && !IsWhitespace(s[0]) && r != "" ==> !IsWhitespace(r[0])
  {
    if s != [] && IsWhitespace(s[|s| - 1]) then
      var r := TrimEnd(s[..|s| - 1]);
      assert s[..|s| - 1][..|r|] == s[..|r|];
      r
    else s
  }

  /** Decimal text of an integer, as a template literal prints it. */
  function IntToString(n: int): string {
    if n < 0 then "-" + NatToString(-n) else NatToString(n)
  }

  function NatToString(n: nat): (r: string)
    ensures |r| >= 1
    ensures forall i :: 0 <= i < |r| ==> '0' <= r[i] <= '9'
    decreases n
  {
    var d := [('0' as int + n % 10) as char];
    if n < 10 then d else NatToString(n / 10) + d
  }
}
