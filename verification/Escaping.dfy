/** How `json.dumps` writes a string: printable ASCII stands for itself, except the quote and the backslash, and
    everything else becomes an escape sequence. Which values the written form still shows, and when replacing a value
    in the written form is replacing it in the string. */
module Escaping {
  import opened Wrappers
  import opened Scrubbing

  predicate Printable(c: char) { ' ' <= c <= '~' }

  /** Written as itself. */
  predicate Verbatim(c: char) { Printable(c) && c != '"' && c != '\\' }

  predicate AllPrintable(s: string) { forall i | 0 <= i < |s| :: Printable(s[i]) }

  predicate AllVerbatim(s: string) { forall i | 0 <= i < |s| :: Verbatim(s[i]) }

  function HexDigit(d: nat): char
    requires d < 16
  {
    if d < 10 then (d + '0' as int) as char else (d - 10 + 'a' as int) as char
  }

  /** A backslash, a "u" and four hexadecimal digits. */
  function CodeUnit(n: nat): string
    requires n < 0x10000
  {
    ['\\', 'u', HexDigit(n / 4096), HexDigit(n / 256 % 16), HexDigit(n / 16 % 16), HexDigit(n % 16)]
  }

  /** The character that follows the backslash in a short escape sequence, if `c` has one. */
  function ShortForm(c: char): Option<char> {
    if c == '"' || c == '\\' then Some(c)
    else if c == '\n' then Some('n')
    else if c == '\r' then Some('r')
    else if c == '\t' then Some('t')
    else if c == '\U{C}' then Some('f')
    else if c == '\U{8}' then Some('b')
    else None
  }

  /** The code units of the escape sequence: one, or a pair of surrogates. */
  function LongForm(n: nat): string
    requires n < 0x110000
  {
    if n < 0x10000 then CodeUnit(n)
    else CodeUnit(0xD800 + (n - 0x10000) / 1024) + CodeUnit(0xDC00 + (n - 0x10000) % 1024)
  }

  function EscapeChar(c: char): string {
    if Verbatim(c) then [c]
    else if ShortForm(c).Some? then ['\\', ShortForm(c).value]
    else LongForm(c as int)
  }

  function Escape(s: string): string {
    if s == "" then "" else EscapeChar(s[0]) + Escape(s[1..])
  }

  // ------------------------------------------------------------ the shape of the written form

  lemma HexDigitShape(d: nat)
    requires d < 16
    ensures Verbatim(HexDigit(d)) && HexDigit(d) != '['
  {
  }

  lemma CodeUnitShape(n: nat)
    requires n < 0x10000
    ensures |CodeUnit(n)| == 6 && CodeUnit(n)[0] == '\\' && AllPrintable(CodeUnit(n)) && '[' !in CodeUnit(n)
  {
    HexDigitShape(n / 4096);
    HexDigitShape(n / 256 % 16);
    HexDigitShape(n / 16 % 16);
    HexDigitShape(n % 16);
  }

  lemma LongFormShape(n: nat)
    requires n < 0x110000
    ensures |LongForm(n)| > 1 && LongForm(n)[0] == '\\' && AllPrintable(LongForm(n)) && '[' !in LongForm(n)
  {
    if n < 0x10000 {
      CodeUnitShape(n);
    } else {
      CodeUnitShape(0xD800 + (n - 0x10000) / 1024);
      CodeUnitShape(0xDC00 + (n - 0x10000) % 1024);
    }
  }

  lemma ShortFormShape(c: char)
    ensures Verbatim(c) ==> ShortForm(c).None?
    ensures ShortForm(c).Some? ==> Printable(ShortForm(c).value) && ShortForm(c).value != '['
    ensures Printable(c) && !Verbatim(c) ==> ShortForm(c) == Some(c)
  {
  }

  /** What every escape sequence has in common. */
  lemma EscapeCharShape(c: char)
    ensures AllPrintable(EscapeChar(c)) && EscapeChar(c) != ""
    ensures if Verbatim(c) then EscapeChar(c) == [c]
            else |EscapeChar(c)| > 1 && EscapeChar(c)[0] == '\\' && '[' !in EscapeChar(c)
    ensures Printable(c) && !Verbatim(c) ==> EscapeChar(c) == ['\\', c]
  {
    ShortFormShape(c);
    if !Verbatim(c) && ShortForm(c).None? { LongFormShape(c as int); }
  }

  lemma Reassociate(a: string, b: string, c: string)
    ensures (a + b) + c == a + (b + c)
  {
  }

  lemma WithoutFirst(a: string, b: string)
    requires a != ""
    ensures (a + b)[0] == a[0] && (a + b)[1..] == a[1..] + b
  {
  }

  /** "é" and "\U0001f600", beyond the basic plane, as they are written. */
  lemma EscapeOfTwo()
    ensures EscapeChar('\U{E9}') == "\\u00e9" && EscapeChar('\U{1F600}') == "\\ud83d\\ude00"
  {
  }

  lemma {:induction false} EscapeConcat(a: string, b: string)
    ensures Escape(a + b) == Escape(a) + Escape(b)
  {
    if a == "" {
      assert a + b == b;
    } else {
      EscapeConcat(a[1..], b);
      WithoutFirst(a, b);
      Reassociate(EscapeChar(a[0]), Escape(a[1..]), Escape(b));
    }
  }

  lemma {:induction false} EscapeVerbatim(s: string)
    requires AllVerbatim(s)
    ensures Escape(s) == s
  {
    if s != "" {
      EscapeVerbatim(s[1..]);
      assert s == [s[0]] + s[1..];
    }
  }

  lemma {:induction false} EscapeIsPrintable(s: string)
    ensures AllPrintable(Escape(s))
  {
    if s != "" {
      EscapeCharShape(s[0]);
      EscapeIsPrintable(s[1..]);
    }
  }

  /** Only strings without escapes keep their length. */
  lemma {:induction false} EscapeGrows(s: string)
    ensures |Escape(s)| >= |s| && (|Escape(s)| == |s| ==> AllVerbatim(s))
  {
    if s != "" {
      EscapeCharShape(s[0]);
      EscapeGrows(s[1..]);
      if |Escape(s)| == |s| {
        forall i | 0 <= i < |s| ensures Verbatim(s[i]) { if i > 0 { assert s[i] == s[1..][i-1]; } }
      }
    }
  }

  // ------------------------------------------------------------ quotes and backslashes

  predicate Specials(s: string) { forall i | 0 <= i < |s| :: s[i] == '"' || s[i] == '\\' }

  predicate Backslashes(s: string) { forall i | 0 <= i < |s| :: s[i] == '\\' }

  lemma {:induction false} EscapeSpecials(s: string)
    requires Specials(s)
    ensures |Escape(s)| == 2 * |s| && Specials(Escape(s))
  {
    if s != "" {
      EscapeSpecials(s[1..]);
      EscapeCharShape(s[0]);
    }
  }

  lemma {:induction false} SpecialAt(s: string, i: nat)
    requires Specials(s) && i < |s|
    ensures 2 * i + 1 < |Escape(s)| && Escape(s)[2*i] == '\\' && Escape(s)[2*i+1] == s[i]
  {
    EscapeCharShape(s[0]);
    EscapeSpecials(s[1..]);
    if i > 0 { SpecialAt(s[1..], i - 1); }
  }

  lemma InMiddle(x: string, w: string, y: string, i: nat)
    requires i < |w|
    ensures (x + (w + y))[|x|+i] == w[i]
  {
  }

  /** Where quotes and backslashes occur within their own written form, all but one are backslashes. */
  lemma {:induction false} SpecialsMatch(w: string, x: string, y: string, i: nat)
    requires Specials(w) && Escape(w) == x + (w + y) && i < |w| && i != |x| - 1
    ensures w[i] == '\\'
    decreases if i < |x| then |x| - i else i
  {
    EscapeSpecials(w);
    InMiddle(x, w, y, i);
    var n := (|x| + i) / 2;
    SpecialAt(w, n);
    if |x| + i == 2 * n + 1 { SpecialsMatch(w, x, y, n); }
  }

  function Plains(s: string): nat {
    if s == "" then 0 else (if Verbatim(s[0]) then 1 else 0) + Plains(s[1..])
  }

  lemma {:induction false} PlainsConcat(a: string, b: string)
    ensures Plains(a + b) == Plains(a) + Plains(b)
  {
    if a == "" {
      assert a + b == b;
    } else {
      PlainsConcat(a[1..], b);
      assert (a + b)[1..] == a[1..] + b;
    }
  }

  lemma {:induction false} PlainsEscape(s: string)
    requires AllPrintable(s)
    ensures Plains(Escape(s)) == Plains(s)
  {
    if s != "" {
      PlainsEscape(s[1..]);
      EscapeCharShape(s[0]);
      PlainsConcat(EscapeChar(s[0]), Escape(s[1..]));
      PlainsOfOne(s[0]);
    }
  }

  lemma PlainsOfOne(c: char)
    requires Printable(c)
    ensures Plains([c]) == (if Verbatim(c) then 1 else 0)
    ensures !Verbatim(c) ==> Plains(['\\', c]) == 0
  {
    assert [c][1..] == "" && ['\\', c][1..] == [c];
  }

  lemma {:induction false} NoPlains(s: string)
    requires AllPrintable(s)
    ensures Plains(s) == 0 <==> Specials(s)
  {
    if s != "" {
      NoPlains(s[1..]);
      if Specials(s[1..]) && !Verbatim(s[0]) {
        forall i | 0 <= i < |s| ensures s[i] == '"' || s[i] == '\\' { if i > 0 { assert s[i] == s[1..][i-1]; } }
      }
    }
  }

  // ------------------------------------------------------------ which values stay visible

  /** Backslashes, perhaps a quote, characters that are written as themselves, backslashes. */
  predicate VisibleAs(v: string, a: string, q: string, w: string, b: string) {
    v == a + (q + (w + b)) && Backslashes(a) && Backslashes(b) && (q == "" || q == "\"") && AllVerbatim(w)
  }

  ghost predicate Visible(v: string) { exists a, q, w, b :: VisibleAs(v, a, q, w, b) }

  lemma VerbatimIsVisible(v: string)
    requires AllVerbatim(v)
    ensures Visible(v)
  {
    assert VisibleAs(v, "", "", v, "");
  }

  lemma {:induction false} EscapeBackslashes(b: string)
    requires Backslashes(b)
    ensures Escape(b) == b + b
  {
    if b != "" {
      EscapeBackslashes(b[1..]);
      MoveBackslash(b[1..]);
      assert b == "\\" + b[1..];
    }
  }

  lemma {:induction false} MoveBackslash(b: string)
    requires Backslashes(b)
    ensures b + "\\" == "\\" + b
  {
  }

  lemma EscapeVisible(v: string, a: string, q: string, w: string, b: string)
    requires VisibleAs(v, a, q, w, b)
    ensures Escape(v) == (a + a) + (Escape(q) + (w + (b + b)))
  {
    EscapeConcat(a, q + (w + b));
    EscapeConcat(q, w + b);
    EscapeConcat(w, b);
    EscapeBackslashes(a);
    EscapeVerbatim(w);
    EscapeBackslashes(b);
  }

  lemma ContainsMiddle(x: string, v: string, y: string)
    ensures Contains(x + (v + y), v)
  {
    assert (x + (v + y))[|x|..] == v + y;
    ContainsSuffix(x + (v + y), |x|, v);
  }

  lemma VisibleShows(v: string, a: string, q: string, w: string, b: string)
    requires VisibleAs(v, a, q, w, b)
    ensures Contains(Escape(v), v)
  {
    EscapeVisible(v, a, q, w, b);
    var x := if q == "" then a else a + "\\";
    if q == "" {
      Doubled(a, w, b);
    } else {
      assert Escape(q) == "\\" + q;
      MoveBackslash(a);
      DoubledQuote(a, q, w, b);
    }
    ContainsMiddle(x, v, b);
  }

  lemma Doubled(a: string, w: string, b: string)
    ensures (a + a) + ("" + (w + (b + b))) == a + ((a + ("" + (w + b))) + b)
  {
  }

  lemma DoubledQuote(a: string, q: string, w: string, b: string)
    requires a + "\\" == "\\" + a
    ensures (a + a) + (("\\" + q) + (w + (b + b))) == (a + "\\") + ((a + (q + (w + b))) + b)
  {
    var rest := q + (w + (b + b));
    Reassociate("\\", q, w + (b + b));
    Reassociate(a, a, "\\" + rest);
    Reassociate(a, "\\", rest);
    Reassociate("\\", a, rest);
    Reassociate(a, "\\", a + rest);
    Spread(a, q, w, b);
  }

  lemma Spread(a: string, q: string, w: string, b: string)
    ensures a + (q + (w + (b + b))) == (a + (q + (w + b))) + b
  {
  }

  lemma FrontSpecials(v: string) returns (s: string, rest: string)
    ensures v == s + rest && Specials(s) && (rest != "" && AllPrintable(v) ==> Verbatim(rest[0]))
  {
    if v == "" || !(v[0] == '"' || v[0] == '\\') {
      s, rest := "", v;
    } else {
      s, rest := FrontSpecials(v[1..]);
      s := [v[0]] + s;
    }
  }

  lemma BackSpecials(v: string) returns (front: string, s: string)
    ensures v == front + s && Specials(s) && (front != "" && AllPrintable(v) ==> Verbatim(front[|front|-1]))
    ensures v != "" && Verbatim(v[0]) ==> front != ""
  {
    if v == "" || !(v[|v|-1] == '"' || v[|v|-1] == '\\') {
      front, s := v, "";
    } else {
      front, s := BackSpecials(v[..|v|-1]);
      s := s + [v[|v|-1]];
    }
  }

  predicate PlainEnds(m: string) { m != "" && Verbatim(m[0]) && Verbatim(m[|m|-1]) }

  lemma FrontNoLonger(a: string, r: string, c: string, u: string)
    requires a + r == c + u && Specials(a) && u != "" && Verbatim(u[0])
    ensures |a| <= |c|
  {
    assert (a + r)[|c|] == u[0];
  }

  lemma BackNoLonger(r: string, b: string, u: string, d: string)
    requires r + b == u + d && Specials(b) && u != "" && Verbatim(u[|u|-1])
    ensures |b| <= |d|
  {
    assert (r + b)[|u|-1] == u[|u|-1];
  }

  lemma SameParts(a: string, r: string, c: string, u: string)
    requires a + r == c + u && |a| == |c|
    ensures a == c && r == u
  {
    assert (a + r)[..|a|] == a && (c + u)[..|c|] == c;
    assert (a + r)[|a|..] == r && (c + u)[|c|..] == u;
  }

  /** Between the quotes and backslashes on either side, a text can be read in one way only. */
  lemma OneMiddle(a: string, m: string, b: string, c: string, n: string, d: string)
    requires Specials(a) && Specials(b) && Specials(c) && Specials(d) && PlainEnds(m) && PlainEnds(n)
    requires a + (m + b) == c + (n + d)
    ensures a == c && m == n && b == d
  {
    FrontNoLonger(a, m + b, c, n + d);
    FrontNoLonger(c, n + d, a, m + b);
    SameParts(a, m + b, c, n + d);
    BackNoLonger(m, b, n, d);
    BackNoLonger(n, d, m, b);
    SameParts(m, b, n, d);
  }

  lemma EscapePlainEnds(m: string)
    requires PlainEnds(m)
    ensures PlainEnds(Escape(m))
  {
    var init, last := m[..|m|-1], [m[|m|-1]];
    assert m == init + last;
    EscapeConcat(init, last);
    EscapeVerbatim(last);
    EscapeCharShape(m[0]);
  }

  /** A printable value that occurs in its own written form: the occurrence takes all plain characters. */
  lemma AroundIsSpecial(v: string, x: string, y: string)
    requires AllPrintable(v) && Escape(v) == x + (v + y)
    ensures Specials(x) && Specials(y)
  {
    EscapeIsPrintable(v);
    PlainsEscape(v);
    PlainsConcat(x, v + y);
    PlainsConcat(v, y);
    assert AllPrintable(x) by { forall i | 0 <= i < |x| ensures Printable(x[i]) { assert x[i] == Escape(v)[i]; } }
    assert AllPrintable(y) by {
      forall i | 0 <= i < |y| ensures Printable(y[i]) { assert y[i] == Escape(v)[|x| + |v| + i]; }
    }
    NoPlains(x);
    NoPlains(y);
  }

  lemma ShownIsPrintable(v: string, x: string, y: string)
    requires Escape(v) == x + (v + y)
    ensures AllPrintable(v)
  {
    EscapeIsPrintable(v);
    forall i | 0 <= i < |v| ensures Printable(v[i]) { assert v[i] == Escape(v)[|x| + i]; }
  }

  lemma OnlySpecials(v: string, x: string, y: string)
    requires Specials(v) && Escape(v) == x + (v + y)
    ensures Visible(v)
  {
    forall i | 0 <= i < |v| && i != |x| - 1 ensures v[i] == '\\' { SpecialsMatch(v, x, y, i); }
    if 0 < |x| <= |v| && v[|x|-1] == '"' {
      assert VisibleAs(v, v[..|x|-1], "\"", "", v[|x|..]);
    } else {
      assert VisibleAs(v, v, "", "", "");
    }
  }

  /** The occurrence of a value in its own written form, when plain characters stand between the specials. */
  lemma SplitOccurrence(v: string, x: string, y: string, a: string, m: string, b: string)
    requires Specials(x) && Specials(y) && Specials(a) && Specials(b) && PlainEnds(m)
    requires v == a + (m + b) && Escape(v) == x + (v + y)
    ensures Escape(a) == x + a && Escape(m) == m && Escape(b) == b + y
  {
    EscapeConcat(a, m + b);
    EscapeConcat(m, b);
    EscapePlainEnds(m);
    EscapeSpecials(a);
    EscapeSpecials(b);
    Outward(x, a, m, b, y);
    OneMiddle(Escape(a), Escape(m), Escape(b), x + a, m, b + y);
  }

  lemma Outward(x: string, a: string, m: string, b: string, y: string)
    ensures x + ((a + (m + b)) + y) == (x + a) + (m + (b + y))
  {
  }

  lemma PlainBetween(v: string, x: string, y: string, a: string, m: string, b: string)
    requires Specials(x) && Specials(y) && Specials(a) && Specials(b) && PlainEnds(m)
    requires v == a + (m + b) && Escape(v) == x + (v + y)
    ensures Visible(v)
  {
    SplitOccurrence(v, x, y, a, m, b);
    EscapeGrows(m);
    EscapeSpecials(a);
    assert Escape(a) == x + (a + "") && Escape(b) == "" + (b + y);
    forall i | 0 <= i < |a| - 1 ensures a[i] == '\\' { SpecialsMatch(a, x, "", i); }
    forall i | 0 <= i < |b| ensures b[i] == '\\' { SpecialsMatch(b, "", y, i); }
    FrontIsVisible(v, a, m, b);
  }

  lemma FrontIsVisible(v: string, a: string, m: string, b: string)
    requires v == a + (m + b) && Specials(a) && Backslashes(b) && AllVerbatim(m)
    requires forall i | 0 <= i < |a| - 1 :: a[i] == '\\'
    ensures Visible(v)
  {
    if a != "" && a[|a|-1] == '"' {
      assert a == a[..|a|-1] + "\"";
      assert VisibleAs(v, a[..|a|-1], "\"", m, b);
    } else {
      assert VisibleAs(v, a, "", m, b);
    }
  }

  lemma ShownIsVisible(v: string)
    requires Contains(Escape(v), v)
    ensures Visible(v)
  {
    var x, y := Around(Escape(v), v);
    ShownIsPrintable(v, x, y);
    AroundIsSpecial(v, x, y);
    var a, rest := FrontSpecials(v);
    if rest == "" {
      assert a + rest == a;
      OnlySpecials(v, x, y);
    } else {
      assert AllPrintable(rest) by {
        forall i | 0 <= i < |rest| ensures Printable(rest[i]) { assert rest[i] == v[|a| + i]; }
      }
      var m, b := BackSpecials(rest);
      assert rest[0] == m[0];
      PlainBetween(v, x, y, a, m, b);
    }
  }

  lemma Around(text: string, v: string) returns (x: string, y: string)
    requires Contains(text, v)
    ensures text == x + (v + y)
  {
    var j := ContainsAt(text, v);
    x, y := text[..j], text[j+|v|..];
  }

  lemma ShownInside(t: string, v: string)
    requires Contains(t, v) && Contains(Escape(v), v)
    ensures Contains(Escape(t), v)
  {
    var x, y := Around(t, v);
    EscapeConcat(x, v + y);
    EscapeConcat(v, y);
    ContainsFirst(Escape(v), Escape(y), v);
    var text, tail := Escape(t), Escape(v) + Escape(y);
    assert text[|Escape(x)|..] == tail;
    ContainsSuffix(text, |Escape(x)|, v);
  }

  ghost predicate AlwaysShown(v: string) { forall t | Contains(t, v) :: Contains(Escape(t), v) }

  /** Every string that holds a value shows it in its written form exactly when the value's characters stand for
      themselves, apart from backslashes at its ends and a quote that nothing but backslashes precedes. */
  lemma ShownExactly(v: string)
    ensures AlwaysShown(v) <==> Visible(v)
  {
    if AlwaysShown(v) {
      assert Contains(v, v);
      ShownIsVisible(v);
    }
    if Visible(v) {
      var a, q, w, b :| VisibleAs(v, a, q, w, b);
      VisibleShows(v, a, q, w, b);
      forall t | Contains(t, v) ensures Contains(Escape(t), v) { ShownInside(t, v); }
    }
  }

  // ------------------------------------------------------------ replacing in the written form

  /** An occurrence of `v` begins inside the escape sequence `e`. */
  ghost predicate StartsInside(v: string, e: string, rest: string) {
    exists k | 0 < k < |e| :: v <= e[k..] + rest
  }

  /** No occurrence of `v` in the written form of `s` begins inside an escape sequence. */
  ghost predicate Aligned(v: string, s: string) {
    s == "" || (!StartsInside(v, EscapeChar(s[0]), Escape(s[1..])) && Aligned(v, s[1..]))
  }

  lemma {:induction false} AlignedFrom(v: string, s: string, k: nat)
    requires k <= |s| && AllVerbatim(s[..k])
    ensures Aligned(v, s) <==> Aligned(v, s[k..])
  {
    if k == 0 {
      assert s[0..] == s;
    } else {
      assert Verbatim(s[..k][0]);
      var front := s[1..][..k-1];
      forall i | 0 <= i < |front| ensures Verbatim(front[i]) { assert front[i] == s[..k][i+1]; }
      AlignedFrom(v, s[1..], k - 1);
      assert s[1..][k-1..] == s[k..];
    }
  }

  lemma {:induction false} VerbatimPrefix(v: string, s: string)
    requires AllVerbatim(v)
    ensures v <= Escape(s) <==> v <= s
  {
    if v != "" && s != "" {
      EscapeCharShape(s[0]);
      assert s == [s[0]] + s[1..];
      if Verbatim(s[0]) {
        VerbatimPrefix(v[1..], s[1..]);
        PrefixStep(s[0], s[1..], v);
        PrefixStep(s[0], Escape(s[1..]), v);
      } else {
        assert Verbatim(v[0]);
      }
    }
  }

  lemma {:induction false} SkipSequence(e: string, j: nat, rest: string, v: string, t: string)
    requires v != "" && j <= |e| && forall k | j <= k < |e| :: !(v <= e[k..] + rest)
    ensures Replace(e[j..] + rest, v, t) == e[j..] + Replace(rest, v, t)
    decreases |e| - j
  {
    if j == |e| {
      assert e[j..] + rest == rest;
    } else {
      SkipSequence(e, j + 1, rest, v, t);
      OneCharacterOn(e, j, rest, v, t);
      OneCharacterBack(e, j, Replace(rest, v, t));
    }
  }

  lemma SkipEscape(s: string, v: string, t: string)
    requires s != "" && v != "" && AllVerbatim(v) && !(v <= s)
    requires !StartsInside(v, EscapeChar(s[0]), Escape(s[1..]))
    ensures Replace(Escape(s), v, t) == EscapeChar(s[0]) + Replace(Escape(s[1..]), v, t)
  {
    var e, rest := EscapeChar(s[0]), Escape(s[1..]);
    VerbatimPrefix(v, s);
    assert e[0..] == e;
    SkipSequence(e, 0, rest, v, t);
  }

  lemma FrontEscape(s: string, v: string)
    requires AllVerbatim(v) && v <= s
    ensures Escape(s) == v + Escape(s[|v|..]) && AllVerbatim(s[..|v|])
  {
    assert s == v + s[|v|..] && s[..|v|] == v;
    EscapeConcat(v, s[|v|..]);
    EscapeVerbatim(v);
  }

  lemma FrontReplaces(s: string, v: string, t: string)
    requires v != "" && AllVerbatim(v) && AllVerbatim(t) && v <= s
    ensures Replace(Escape(s), v, t) == t + Replace(Escape(s[|v|..]), v, t)
    ensures Escape(Replace(s, v, t)) == t + Escape(Replace(s[|v|..], v, t))
  {
    var rest := Escape(s[|v|..]);
    FrontEscape(s, v);
    assert (v + rest)[|v|..] == rest;
    EscapeConcat(t, Replace(s[|v|..], v, t));
    EscapeVerbatim(t);
  }

  lemma StepReplaces(s: string, v: string, t: string)
    requires s != "" && v != "" && !(v <= s)
    ensures Escape(Replace(s, v, t)) == EscapeChar(s[0]) + Escape(Replace(s[1..], v, t))
  {
    assert Replace(s, v, t)[1..] == Replace(s[1..], v, t);
  }

  /** Replacing in the written form is writing the replaced string. */
  lemma {:induction false} ReplaceEscaped(s: string, v: string, t: string)
    requires v != "" && AllVerbatim(v) && AllVerbatim(t) && Aligned(v, s)
    ensures Replace(Escape(s), v, t) == Escape(Replace(s, v, t))
    decreases |s|
  {
    if s != "" {
      if v <= s {
        FrontReplaces(s, v, t);
        FrontEscape(s, v);
        AlignedFrom(v, s, |v|);
        ReplaceEscaped(s[|v|..], v, t);
      } else {
        SkipEscape(s, v, t);
        StepReplaces(s, v, t);
        ReplaceEscaped(s[1..], v, t);
      }
    }
  }

  /** A replacement that begins inside an escape sequence leaves a bracket there. */
  lemma {:induction false} BracketInside(e: string, j: nat, rest: string, v: string, t: string) returns (k: nat)
    requires v != "" && t != "" && t[0] == '[' && j <= |e|
    requires exists n | j <= n < |e| :: v <= e[n..] + rest
    ensures j <= k < |e| && k - j < |Replace(e[j..] + rest, v, t)| && Replace(e[j..] + rest, v, t)[k-j] == '['
    decreases |e| - j
  {
    if v <= e[j..] + rest {
      k := j;
    } else {
      k := BracketInside(e, j + 1, rest, v, t);
      OneCharacterOn(e, j, rest, v, t);
    }
  }

  lemma BracketSomewhere(e: string, rest: string, v: string, t: string)
    requires v != "" && t != "" && t[0] == '['
    ensures StartsInside(v, e, rest) ==>
              var r := Replace(e + rest, v, t); exists k | 0 <= k < |e| && k < |r| :: r[k] == '['
  {
    if StartsInside(v, e, rest) {
      assert e[0..] == e;
      var k := BracketInside(e, 0, rest, v, t);
    }
  }

  lemma SequenceSpoiled(s: string, v: string, t: string, after: string, right: string)
    requires s != "" && v != "" && AllVerbatim(v) && t != "" && t[0] == '['
    requires Replace(Escape(s), v, t) + after == EscapeChar(s[0]) + right
    ensures !StartsInside(v, EscapeChar(s[0]), Escape(s[1..]))
  {
    var e, rest := EscapeChar(s[0]), Escape(s[1..]);
    EscapeCharShape(s[0]);
    BracketSomewhere(e, rest, v, t);
    var r := Replace(e + rest, v, t);
    forall k | 0 <= k < |e| && k < |r| ensures r[k] in e {
      assert (r + after)[k] == (e + right)[k] == e[k];
    }
  }

  lemma DropFront(e: string, a: string, b: string)
    requires e + a == e + b
    ensures a == b
  {
    assert (e + a)[|e|..] == a && (e + b)[|e|..] == b;
  }

  /** And only then. */
  lemma {:induction false} AlignedIfReplaced(s: string, v: string, t: string, after: string, right: string)
    requires v != "" && AllVerbatim(v) && AllVerbatim(t) && t != "" && t[0] == '['
    requires Replace(Escape(s), v, t) + after == Escape(Replace(s, v, t)) + right
    ensures Aligned(v, s)
    decreases |s|
  {
    if s != "" {
      if v <= s {
        var l, r := Replace(Escape(s[|v|..]), v, t), Escape(Replace(s[|v|..], v, t));
        FrontReplaces(s, v, t);
        Reassociate(t, l, after);
        Reassociate(t, r, right);
        DropFront(t, l + after, r + right);
        AlignedIfReplaced(s[|v|..], v, t, after, right);
        FrontEscape(s, v);
        AlignedFrom(v, s, |v|);
      } else {
        var e, l, r := EscapeChar(s[0]), Replace(Escape(s[1..]), v, t), Escape(Replace(s[1..], v, t));
        StepReplaces(s, v, t);
        Reassociate(e, r, right);
        SequenceSpoiled(s, v, t, after, r + right);
        SkipEscape(s, v, t);
        Reassociate(e, l, after);
        DropFront(e, l + after, r + right);
        AlignedIfReplaced(s[1..], v, t, after, right);
      }
    }
  }

  lemma TokenIsVerbatim(t: string)
    requires IsToken(t)
    ensures AllVerbatim(t) && t[0] == '['
  {
    forall i | 0 <= i < |t| ensures Verbatim(t[i]) {
      if i < 10 { assert t[i] == t[..10][i] == "[REDACTED:"[i]; }
    }
    assert t[0] == t[..10][0];
  }

  /** Replacing a value in the written form of a string is replacing it in the string, exactly when no occurrence
      begins inside an escape sequence. */
  lemma ReplaceEscapedExactly(s: string, v: string, t: string)
    requires v != "" && AllVerbatim(v) && IsToken(t)
    ensures Replace(Escape(s), v, t) == Escape(Replace(s, v, t)) <==> Aligned(v, s)
  {
    TokenIsVerbatim(t);
    if Aligned(v, s) { ReplaceEscaped(s, v, t); }
    if Replace(Escape(s), v, t) == Escape(Replace(s, v, t)) { AlignedIfReplaced(s, v, t, "", ""); }
  }

  /** A value that a replacement cannot bring in does not begin to start inside an escape sequence either. */
  lemma {:induction false} AlignedAfterReplace(w: string, s: string, v: string, t: string)
    requires v != "" && AllVerbatim(v) && AllVerbatim(t) && Aligned(v, s) && Aligned(w, s) && Apart(w, t)
    ensures Aligned(w, Replace(s, v, t))
    decreases |s|
  {
    if s != "" {
      if v <= s {
        var r := Replace(s[|v|..], v, t);
        FrontEscape(s, v);
        AlignedFrom(v, s, |v|);
        AlignedFrom(w, s, |v|);
        AlignedAfterReplace(w, s[|v|..], v, t);
        assert (t + r)[..|t|] == t && (t + r)[|t|..] == r;
        AlignedFrom(w, t + r, |t|);
      } else {
        AlignedAfterReplace(w, s[1..], v, t);
        ReplaceEscaped(s[1..], v, t);
        NotFromEscape(w, EscapeChar(s[0]), Escape(s[1..]), v, t);
        assert Replace(s, v, t)[1..] == Replace(s[1..], v, t);
      }
    }
  }

  lemma NotFromEscape(w: string, e: string, rest: string, v: string, t: string)
    requires v != "" && Apart(w, t) && !StartsInside(w, e, rest)
    ensures !StartsInside(w, e, Replace(rest, v, t))
  {
    forall k | 0 < k < |e| ensures !(w <= e[k..] + Replace(rest, v, t)) {
      FromTail(w, e[k..], rest, v, t);
    }
  }

  lemma FromTail(w: string, tail: string, rest: string, v: string, t: string)
    requires v != "" && Apart(w, t) && !(w <= tail + rest)
    ensures !(w <= tail + Replace(rest, v, t))
  {
    var after := Replace(rest, v, t);
    if |w| <= |tail| {
      ShortPrefix(tail, rest, w);
      ShortPrefix(tail, after, w);
    } else if w <= tail + after {
      RestOfPrefix(tail, after, w);
      PrefixWasThere(rest, v, t, w, |tail|);
      LongPrefix(tail, after, w);
      PrefixBack(tail, rest, w);
    }
  }

  lemma PrefixBack(tail: string, rest: string, w: string)
    requires tail <= w && w[|tail|..] <= rest
    ensures w <= tail + rest
  {
    assert w == tail + w[|tail|..];
    assert (tail + rest)[..|w|] == w;
  }
}
