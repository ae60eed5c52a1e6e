/** The few JavaScript built-ins the application's logic leans on, stated over
    Dafny values: an optional value (for `undefined` / `null`), the characters
    `String.prototype.trim` removes, `trim` itself, and `Math.round` of a ratio
    of two integers. */
module Js {

  datatype Option<+T> = None | Some(value: T)

  /** JavaScript truthiness of an optional string: present and non-empty. */
  predicate Truthy(s: Option<string>) {
    s.Some? && s.value != ""
  }

  /** `value || fallback` for an optional string. */
  function StringOr(value: Option<string>, fallback: string): (r: string)
    ensures Truthy(value) ==> r == value.value
    ensures !Truthy(value) ==> r == fallback
  {
    if Truthy(value) then value.value else fallback
  }

  /** `value || fallback` for a number; `None` stands for `undefined` and `NaN`,
      which are falsy like 0. */
  function NumberOr(value: Option<int>, fallback: int): (r: int)
    ensures value.Some? && value.value != 0 ==> r == value.value
    ensures value.None? || value.value == 0 ==> r == fallback
  {
    if value.Some? && value.value != 0 then value.value else fallback
  }

  /** ECMAScript WhiteSpace and LineTerminator code points, the set `trim` removes. */
  predicate IsWhitespace(c: char) {
    || c == ' ' || c == '\t' || c == '\n' || c == '\r'
    || c == '\U{000B}' || c == '\U{000C}' || c == '\U{00A0}' || c == '\U{FEFF}'
    || c == '\U{1680}' || ('\U{2000}' <= c <= '\U{200A}')
    || c == '\U{2028}' || c == '\U{2029}' || c == '\U{202F}' || c == '\U{205F}' || c == '\U{3000}'
  }

  predicate AllWhitespace(s: string) {
    forall i :: 0 <= i < |s| ==> IsWhitespace(s[i])
  }

  /** A string `trim` leaves as it is: empty, or starting and ending with a non-whitespace character. */
  predicate IsTrimmed(s: string) {
    s == [] || (!IsWhitespace(s[0]) && !IsWhitespace(s[|s| - 1]))
  }

  /** Drops leading whitespace (`TrimStartFacts` states what it keeps and drops). */
  function TrimStart(s: string): (r: string)
    ensures |r| <= |s|
  {
    if s != [] && IsWhitespace(s[0]) then TrimStart(s[1..]) else s
  }

  /** Drops trailing whitespace (`TrimEndFacts` states what it keeps and drops). */
  function TrimEnd(s: string): (r: string)
    ensures |r| <= |s|
  {
    if s != [] && IsWhitespace(s[|s| - 1]) then TrimEnd(s[..|s| - 1]) else s
  }

  /** `TrimStart` returns a suffix of `s` that does not start with whitespace,
      and what it drops is whitespace. */
  lemma {:induction false} TrimStartFacts(s: string)
    ensures TrimStart(s) == s[|s| - |TrimStart(s)|..]
    ensures AllWhitespace(s[..|s| - |TrimStart(s)|])
    ensures TrimStart(s) == [] || !IsWhitespace(TrimStart(s)[0])
    decreases |s|
  {
    if s != [] && IsWhitespace(s[0]) {
      var t := s[1..];
      TrimStartFacts(t);
      var n := |s| - |TrimStart(s)|;
      assert t[n - 1..] == s[n..];
      assert forall i :: 1 <= i < n ==> s[..n][i] == t[..n - 1][i - 1];
    }
  }

  /** `TrimEnd` returns a prefix of `s` that does not end with whitespace, and
      what it drops is whitespace. */
  lemma {:induction false} TrimEndFacts(s: string)
    ensures TrimEnd(s) == s[..|TrimEnd(s)|]
    ensures AllWhitespace(s[|TrimEnd(s)|..])
    ensures TrimEnd(s) == [] || !IsWhitespace(TrimEnd(s)[|TrimEnd(s)| - 1])
    decreases |s|
  {
    if s != [] && IsWhitespace(s[|s| - 1]) {
      var t := s[..|s| - 1];
      TrimEndFacts(t);
      var n := |TrimEnd(s)|;
      assert t[..n] == s[..n];
      assert forall i :: 0 <= i < |s| - 1 - n ==> s[n..][i] == t[n..][i];
    }
  }

  /** How many whitespace characters `s` starts with. */
  function LeadingWhitespace(s: string): (n: nat)
    ensures n <= |s|
  {
    |s| - |TrimStart(s)|
  }

  /** `s.trim()`: drops the leading and the trailing whitespace. */
  function Trim(s: string): (r: string)
    ensures IsTrimmed(r)
    ensures |r| <= |s|
  {
    TrimStartFacts(s);
    TrimEndFacts(TrimStart(s));
    TrimEnd(TrimStart(s))
  }

  /** `s.trim()` is the slice of `s` between its leading and its trailing
      whitespace: what it drops on either side is whitespace. */
  lemma TrimSlice(s: string)
    ensures LeadingWhitespace(s) + |Trim(s)| <= |s|
    ensures Trim(s) == s[LeadingWhitespace(s)..LeadingWhitespace(s) + |Trim(s)|]
    ensures AllWhitespace(s[..LeadingWhitespace(s)])
    ensures AllWhitespace(s[LeadingWhitespace(s) + |Trim(s)|..])
  {
    var a := TrimStart(s);
    TrimStartFacts(s);
    TrimEndFacts(a);
    assert a[|Trim(s)|..] == s[LeadingWhitespace(s) + |Trim(s)|..];
  }

  /** Trimming removes nothing from a string that is already trimmed, so `trim` is idempotent. */
  lemma {:induction false} TrimOfTrimmed(s: string)
    requires IsTrimmed(s)
    ensures Trim(s) == s
  {
  }

  /** `s.trim()` is empty exactly when `s` is all whitespace (the test behind "please enter a topic"). */
  lemma {:induction false} TrimEmptyIffBlank(s: string)
    ensures Trim(s) == [] <==> AllWhitespace(s)
  {
    var a := TrimStart(s);
    TrimStartFacts(s);
    TrimEndFacts(a);
    assert a != [] ==> a[0] == s[|s| - |a|];
    if !AllWhitespace(s) {
      var k :| 0 <= k < |s| && !IsWhitespace(s[k]);
      assert a[k - (|s| - |a|)] == s[k];
    }
  }

  /** `Math.round(num / den)` for integers with `den > 0`: the integer nearest to
      `num / den`, a half rounded up (towards positive infinity, as JavaScript does). */
  function RoundRatio(num: int, den: int): (r: int)
    requires den > 0
    ensures den * (2 * r - 1) <= 2 * num < den * (2 * r + 1)
  {
    var q := (2 * num + den) / (2 * den);
    var m := (2 * num + den) % (2 * den);
    assert 2 * num + den == 2 * den * q + m && 0 <= m < 2 * den;
    assert den * (2 * q - 1) == 2 * den * q - den;
    assert den * (2 * q + 1) == 2 * den * q + den;
    q
  }

  /** Multiplying by a positive number preserves strict order, read backwards. */
  lemma CancelFactor(d: int, x: int, y: int)
    ensures d > 0 && d * x < d * y ==> x < y
  {
    if d > 0 && x >= y {
      assert d * x - d * y == d * (x - y);
    }
  }

  /** The rounding bounds pin the result down: no other integer lies that close to `num / den`. */
  lemma RoundRatioUnique(num: int, den: int, r: int)
    requires den > 0
    requires den * (2 * r - 1) <= 2 * num < den * (2 * r + 1)
    ensures RoundRatio(num, den) == r
  {
    var q := RoundRatio(num, den);
    CancelFactor(den, 2 * q - 1, 2 * r + 1);
    CancelFactor(den, 2 * r - 1, 2 * q + 1);
  }

  /** A ratio that is a whole number rounds to itself. */
  lemma RoundRatioOfMultiple(k: int, den: int)
    requires den > 0
    ensures RoundRatio(k * den, den) == k
  {
    assert den * (2 * k - 1) == 2 * (k * den) - den;
    assert den * (2 * k + 1) == 2 * (k * den) + den;
    RoundRatioUnique(k * den, den, k);
  }

  /** Rounding is monotone in the numerator. */
  lemma RoundRatioMonotone(a: int, b: int, den: int)
    requires den > 0 && a <= b
    ensures RoundRatio(a, den) <= RoundRatio(b, den)
  {
    CancelFactor(den, 2 * RoundRatio(a, den) - 1, 2 * RoundRatio(b, den) + 1);
  }
}
