/** Shared vocabulary of the model: identifiers, optional values, HTTP outcomes,
    and the few string operations the backend borrows from PHP
    (`str_starts_with`, `str_contains`, `str_replace`, PHP truthiness and
    decimal formatting of ids inside topic names). */
module Common {

  /** Primary keys of every table are auto-increment integers. */
  type Id = nat

  datatype Option<+T> = None | Some(value: T)

  /** The HTTP status codes the controllers of the core answer with. */
  datatype Status = Ok | Created | Forbidden | NotFound | Unprocessable | ServerError {
    function Code(): nat {
      match this
      case Ok => 200
      case Created => 201
      case Forbidden => 403
      case NotFound => 404
      case Unprocessable => 422
      case ServerError => 500
    }

    /** 2xx answers: the request was carried out. */
    predicate IsSuccess() {
      Ok? || Created?
    }
  }

  // ---------------------------------------------------------------------------
  // Strings (`string` is a sequence of code points)
  // ---------------------------------------------------------------------------

  /** PHP `str_starts_with($s, $prefix)`. */
  predicate StartsWith(s: string, prefix: string) {
    |prefix| <= |s| && s[..|prefix|] == prefix
  }

  /** PHP `str_contains($s, $sub)`: `sub` occurs at some position of `s`. */
  predicate Contains(s: string, sub: string)
    decreases |s|
  {
    StartsWith(s, sub) || (|s| > 0 && Contains(s[1..], sub))
  }

  /** `Contains` means an occurrence at some index. */
  lemma {:induction false} ContainsAt(s: string, sub: string)
    ensures Contains(s, sub) <==> exists i :: 0 <= i <= |s| - |sub| && StartsWith(s[i..], sub)
    decreases |s|
  {
    if StartsWith(s, sub) {
      assert s[0..] == s;
    } else if |s| > 0 {
      ContainsAt(s[1..], sub);
      if Contains(s[1..], sub) {
        var i :| 0 <= i <= |s[1..]| - |sub| && StartsWith(s[1..][i..], sub);
        assert s[1..][i..] == s[i + 1..];
      }
      if exists i :: 0 <= i <= |s| - |sub| && StartsWith(s[i..], sub) {
        var i :| 0 <= i <= |s| - |sub| && StartsWith(s[i..], sub);
        assert i != 0;
        assert s[1..][i - 1..] == s[i..];
      }
    }
  }

  /** PHP `str_replace($from, $to, $s)` for a single search string: scans left to
      right and replaces every non-overlapping occurrence. An empty search string
      leaves the subject unchanged, as PHP 8 does. */
  function ReplaceAll(s: string, from: string, to: string): string
    decreases |s|
  {
    if |from| == 0 || |s| == 0 then s
    else if StartsWith(s, from) then to + ReplaceAll(s[|from|..], from, to)
    else [s[0]] + ReplaceAll(s[1..], from, to)
  }

  /** Text that does not contain the search string comes back unchanged. */
  lemma {:induction false} ReplaceAbsentIsIdentity(s: string, from: string, to: string)
    requires !Contains(s, from)
    ensures ReplaceAll(s, from, to) == s
    decreases |s|
  {
    if |from| == 0 || |s| == 0 {
    } else {
      assert !StartsWith(s, from);
      ReplaceAbsentIsIdentity(s[1..], from, to);
      assert [s[0]] + s[1..] == s;
    }
  }

  /** PHP truthiness of a string: only "" and "0" are falsy. */
  predicate PhpFalsy(s: string) {
    s == "" || s == "0"
  }

  /** PHP `empty()` of a nullable string: null, "" and "0". */
  predicate PhpEmpty(s: Option<string>) {
    s.None? || PhpFalsy(s.value)
  }

  // ---------------------------------------------------------------------------
  // Decimal rendering of ids ("channel." . $id)
  // ---------------------------------------------------------------------------

  predicate IsDigit(c: char) {
    '0' <= c <= '9'
  }

  predicate AllDigits(s: string) {
    forall i :: 0 <= i < |s| ==> IsDigit(s[i])
  }

  function DigitChar(d: nat): (c: char)
    requires d < 10
    ensures IsDigit(c)
  {
    (48 + d) as char
  }

  function DigitValue(c: char): (d: nat)
    requires IsDigit(c)
    ensures d < 10
  {
    (c as int) - 48
  }

  /** PHP string conversion of a non-negative integer. */
  function NatToString(n: nat): (r: string)
    ensures |r| > 0 && AllDigits(r)
    decreases n
  {
    if n < 10 then [DigitChar(n)] else NatToString(n / 10) + [DigitChar(n % 10)]
  }

  /** The value of a string of decimal digits. */
  function DigitsValue(s: string): nat
    requires AllDigits(s)
    decreases |s|
  {
    if |s| == 0 then 0 else DigitsValue(s[..|s| - 1]) * 10 + DigitValue(s[|s| - 1])
  }

  /** Reading back a rendered id gives the id: rendering is injective. */
  lemma {:induction false} NatToStringRoundTrip(n: nat)
    ensures DigitsValue(NatToString(n)) == n
    decreases n
  {
    var r := NatToString(n);
    if n < 10 {
      assert DigitValue(DigitChar(n)) == n;
    } else {
      NatToStringRoundTrip(n / 10);
      assert r[..|r| - 1] == NatToString(n / 10);
      assert DigitValue(r[|r| - 1]) == n % 10;
    }
  }

  lemma NatToStringInjective(a: nat, b: nat)
    requires NatToString(a) == NatToString(b)
    ensures a == b
  {
    NatToStringRoundTrip(a);
    NatToStringRoundTrip(b);
  }

  /** The elements of `xs` satisfying `f`, in their order. */
  function Filter<T(!new)>(xs: seq<T>, f: T -> bool): (r: seq<T>)
    ensures |r| <= |xs|
    ensures forall x :: x in r <==> x in xs && f(x)
  {
    if |xs| == 0 then []
    else if f(xs[0]) then [xs[0]] + Filter(xs[1..], f)
    else Filter(xs[1..], f)
  }

  /** JavaScript `findIndex`: the first position whose element satisfies `p`. */
  function FindFirst<T>(xs: seq<T>, p: T -> bool): (r: Option<nat>)
    ensures r.None? <==> forall i :: 0 <= i < |xs| ==> !p(xs[i])
    ensures r.Some? ==> r.value < |xs| && p(xs[r.value]) && forall j :: 0 <= j < r.value ==> !p(xs[j])
  {
    if |xs| == 0 then None
    else if p(xs[0]) then Some(0)
    else match FindFirst(xs[1..], p)
      case None => None
      case Some(i) => Some(i + 1)
  }

  /** `find` followed by a mutation of the element found: only the first
      element satisfying `p` changes, and nothing changes if there is none. */
  function UpdateFirst<T>(xs: seq<T>, p: T -> bool, f: T -> T): (r: seq<T>)
    ensures |r| == |xs|
    ensures FindFirst(xs, p).None? ==> r == xs
    ensures FindFirst(xs, p).Some? ==>
              var i := FindFirst(xs, p).value;
              r[i] == f(xs[i]) && forall j :: 0 <= j < |xs| && j != i ==> r[j] == xs[j]
  {
    match FindFirst(xs, p)
    case None => xs
    case Some(i) => xs[i := f(xs[i])]
  }

  /** The first position satisfying `p` is what `FindFirst` returns. */
  lemma FindFirstIs<T>(xs: seq<T>, p: T -> bool, i: nat)
    requires i < |xs| && p(xs[i]) && forall j :: 0 <= j < i ==> !p(xs[j])
    ensures FindFirst(xs, p) == Some(i)
  {
    var r := FindFirst(xs, p);
    assert r.Some?;
  }
}
