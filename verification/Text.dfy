/** The fragment of Python's `str` the engine relies on: character classes,
    maximal runs, decimal printing and reading, and code-point order. */
module Text {
  /** `str.isspace` for one character, which is also `\s` in a `str` pattern. */
  predicate IsSpace(c: char) {
    var n := c as int;
    9 <= n <= 13 || 28 <= n <= 32 || n == 0x85 || n == 0xA0 || n == 0x1680 ||
    0x2000 <= n <= 0x200A || n == 0x2028 || n == 0x2029 || n == 0x202F || n == 0x205F || n == 0x3000
  }

  predicate NotSpace(c: char) { !IsSpace(c) }

  predicate IsDigit(c: char) { '0' <= c <= '9' }

  predicate IsIdentStart(c: char) { 'a' <= c <= 'z' || 'A' <= c <= 'Z' || c == '_' }

  predicate IsIdentChar(c: char) { IsIdentStart(c) || IsDigit(c) }

  predicate All(s: string, p: char -> bool) { forall i | 0 <= i < |s| :: p(s[i]) }

  /** A list of names without repetition. */
  predicate Distinct(names: seq<string>) { forall i, k | 0 <= i < k < |names| :: names[i] != names[k] }

  /** The length of the longest prefix of `s` whose characters all satisfy `p`. */
  function Span(s: string, p: char -> bool): (n: nat)
    ensures n <= |s|
    ensures All(s[..n], p)
    ensures n < |s| ==> !p(s[n])
  {
    if s == "" || !p(s[0]) then 0 else 1 + Span(s[1..], p)
  }

  /** A run that is followed by a character outside the class, or by the end, is maximal. */
  lemma {:induction false} SpanOfRun(run: string, rest: string, p: char -> bool)
    requires All(run, p)
    requires rest == "" || !p(rest[0])
    ensures Span(run + rest, p) == |run|
  {
    if run == "" {
      assert run + rest == rest;
    } else {
      assert (run + rest)[1..] == run[1..] + rest;
      SpanOfRun(run[1..], rest, p);
    }
  }

  lemma {:induction false} SpanOfPrefix(s: string, n: nat, p: char -> bool)
    requires Span(s, p) <= n <= |s|
    ensures Span(s[..n], p) == Span(s, p)
  {
    if s != "" && p(s[0]) {
      assert s[..n][1..] == s[1..][..n-1];
      SpanOfPrefix(s[1..], n - 1, p);
    }
  }

  function SkipSpace(s: string): string { s[Span(s, IsSpace)..] }

  lemma SkipSpaceOf(ws: string, rest: string)
    requires All(ws, IsSpace)
    requires rest == "" || !IsSpace(rest[0])
    ensures SkipSpace(ws + rest) == rest
  {
    SpanOfRun(ws, rest, IsSpace);
  }

  function DigitValue(c: char): (d: nat)
    requires IsDigit(c)
    ensures d < 10
  {
    c as int - '0' as int
  }

  function DigitChar(d: nat): (c: char)
    requires d < 10
    ensures IsDigit(c) && DigitValue(c) == d
  {
    (d + '0' as int) as char
  }

  /** The number a run of digits denotes; leading zeros are allowed. */
  function DecimalValue(s: string): nat
    requires All(s, IsDigit)
  {
    if s == "" then 0 else 10 * DecimalValue(s[..|s|-1]) + DigitValue(s[|s|-1])
  }

  /** `str(n)` of a non-negative integer. */
  function DecimalText(n: nat): (s: string)
    ensures s != "" && All(s, IsDigit)
  {
    if n < 10 then [DigitChar(n)] else DecimalText(n / 10) + [DigitChar(n % 10)]
  }

  lemma {:induction false} DecimalRoundTrip(n: nat)
    ensures DecimalValue(DecimalText(n)) == n
  {
    var s := DecimalText(n);
    if n < 10 {
      assert s[..0] == "";
    } else {
      DecimalRoundTrip(n / 10);
      assert s[..|s|-1] == DecimalText(n / 10);
    }
  }

  /** Python's `<` on `str`: lexicographic by code point. */
  predicate StrLess(a: string, b: string) {
    b != "" && (a == "" || a[0] < b[0] || (a[0] == b[0] && StrLess(a[1..], b[1..])))
  }

  lemma {:induction false} StrLessTotal(a: string, b: string)
    ensures a == b || StrLess(a, b) || StrLess(b, a)
    ensures !(StrLess(a, b) && StrLess(b, a))
    ensures !StrLess(a, a)
  {
    if a != "" {
      StrLessTotal(a[1..], a[1..]);
      if b != "" {
        StrLessTotal(a[1..], b[1..]);
        assert a == [a[0]] + a[1..] && b == [b[0]] + b[1..];
      }
    }
  }

  lemma {:induction false} StrLessTransitive(a: string, b: string, c: string)
    requires StrLess(a, b) && StrLess(b, c)
    ensures StrLess(a, c)
  {
    if a != "" && a[0] == b[0] == c[0] {
      StrLessTransitive(a[1..], b[1..], c[1..]);
    }
  }

  /** `str.lower` on ASCII letters. */
  function LowerChar(c: char): char {
    if 'A' <= c <= 'Z' then (c as int + 32) as char else c
  }

  function Lower(s: string): (r: string)
    ensures |r| == |s|
  {
    seq(|s|, i requires 0 <= i < |s| => LowerChar(s[i]))
  }

  /** `str.upper` on ASCII letters. */
  function UpperChar(c: char): char {
    if 'a' <= c <= 'z' then (c as int - 32) as char else c
  }

  function Upper(s: string): (r: string)
    ensures |r| == |s|
  {
    seq(|s|, i requires 0 <= i < |s| => UpperChar(s[i]))
  }
}
