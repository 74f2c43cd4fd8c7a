/** Python's `str.split(sep)`, `str.split()`, `str.strip` and `str.join`. */
module Splitting {
  import opened Text

  // ------------------------------------------------------------ split(sep) and join

  /** The text between the occurrences of `sep`, found from the left. */
  function SplitOn(text: string, sep: string): (r: seq<string>)
    requires sep != ""
    ensures r != []
    decreases |text|
  {
    if text == "" then [""]
    else if sep <= text then [""] + SplitOn(text[|sep|..], sep)
    else
      var r := SplitOn(text[1..], sep);
      [[text[0]] + r[0]] + r[1..]
  }

  function Join(pieces: seq<string>, glue: string): string {
    if pieces == [] then ""
    else if |pieces| == 1 then pieces[0]
    else pieces[0] + glue + Join(pieces[1..], glue)
  }

  lemma JoinGrowsFront(c: char, r: seq<string>, glue: string)
    requires r != []
    ensures Join([[c] + r[0]] + r[1..], glue) == [c] + Join(r, glue)
  {
    var grown := [[c] + r[0]] + r[1..];
    if |r| > 1 {
      assert grown[1..] == r[1..];
      assert ([c] + r[0]) + glue + Join(r[1..], glue) == [c] + (r[0] + glue + Join(r[1..], glue));
    }
  }

  lemma JoinEmptyFront(r: seq<string>, glue: string)
    requires r != []
    ensures Join([""] + r, glue) == glue + Join(r, glue)
  {
    assert ([""] + r)[1..] == r;
    assert "" + glue == glue;
  }

  lemma {:induction false} SplitThenJoin(text: string, sep: string)
    requires sep != ""
    ensures Join(SplitOn(text, sep), sep) == text
    decreases |text|
  {
    if text == "" {
    } else if sep <= text {
      assert text == sep + text[|sep|..];
      SplitThenJoin(text[|sep|..], sep);
      JoinEmptyFront(SplitOn(text[|sep|..], sep), sep);
    } else {
      assert text == [text[0]] + text[1..];
      SplitThenJoin(text[1..], sep);
      JoinGrowsFront(text[0], SplitOn(text[1..], sep), sep);
    }
  }

  // ------------------------------------------------------------ split() into words

  predicate IsWord(w: string) { w != "" && All(w, NotSpace) }

  /** `str.split()`: the maximal runs of characters that are not white space. */
  function Words(s: string): (r: seq<string>)
    ensures forall w | w in r :: IsWord(w)
    decreases |s|
  {
    var t := SkipSpace(s);
    if t == "" then []
    else
      var n := Span(t, NotSpace);
      [t[..n]] + Words(t[n..])
  }

  predicate Blank(s: string) { All(s, IsSpace) }

  lemma SkipBlank(ws: string, rest: string)
    requires Blank(ws)
    ensures SkipSpace(ws + rest) == SkipSpace(rest)
  {
    var n := Span(rest, IsSpace);
    assert ws + rest == (ws + rest[..n]) + rest[n..];
    SkipSpaceOf(ws + rest[..n], rest[n..]);
  }

  lemma WordsSkipBlank(ws: string, rest: string)
    requires Blank(ws)
    ensures Words(ws + rest) == Words(rest)
  {
    SkipBlank(ws, rest);
  }

  lemma WordsOfWord(w: string, rest: string)
    requires IsWord(w) && (rest == "" || IsSpace(rest[0]))
    ensures Words(w + rest) == [w] + Words(rest)
  {
    var text := w + rest;
    assert text[0] == w[0];
    assert Span(text, IsSpace) == 0;
    assert SkipSpace(text) == text;
    SpanOfRun(w, rest, NotSpace);
    assert text[..|w|] == w && text[|w|..] == rest;
  }

  /** A text is white space, then a word, then a rest that white space begins. */
  lemma FirstWord(a: string) returns (blank: string, w: string, rest: string)
    ensures a == blank + (w + rest) && Blank(blank)
    ensures if w == "" then rest == "" else IsWord(w) && (rest == "" || IsSpace(rest[0]))
  {
    var n := Span(a, IsSpace);
    var m := Span(a[n..], NotSpace);
    blank, w, rest := a[..n], a[n..][..m], a[n..][m..];
  }

  lemma WordsAt(blank: string, w: string, rest: string)
    requires Blank(blank) && IsWord(w) && (rest == "" || IsSpace(rest[0]))
    ensures Words(blank + (w + rest)) == [w] + Words(rest)
  {
    WordsSkipBlank(blank, w + rest);
    WordsOfWord(w, rest);
  }

  lemma Regroup<T>(x: seq<T>, y: seq<T>, z: seq<T>)
    ensures (x + y) + z == x + (y + z)
  {
  }

  lemma BlankFront(a: string, b: string)
    requires Blank(a)
    ensures Words(a + b) == Words(a) + Words(b)
  {
    assert a + "" == a;
    WordsSkipBlank(a, "");
    WordsSkipBlank(a, b);
  }

  lemma WordFront(blank: string, w: string, rest: string, b: string)
    requires Blank(blank) && IsWord(w) && (rest == "" || IsSpace(rest[0]))
    requires rest + b == "" || IsSpace((rest + b)[0])
    requires Words(rest + b) == Words(rest) + Words(b)
    ensures Words((blank + (w + rest)) + b) == Words(blank + (w + rest)) + Words(b)
  {
    var whole := (blank + (w + rest)) + b;
    assert whole == blank + (w + (rest + b));
    WordsAt(blank, w, rest);
    WordsAt(blank, w, rest + b);
    Regroup([w], Words(rest), Words(b));
  }

  /** Two texts with white space at the seam: their words follow each other. */
  lemma {:induction false} WordsConcat(a: string, b: string)
    requires a == "" || b == "" || IsSpace(a[|a|-1]) || IsSpace(b[0])
    ensures Words(a + b) == Words(a) + Words(b)
    decreases |a|
  {
    var blank, w, rest := FirstWord(a);
    if w == "" {
      BlankFront(a, b);
    } else {
      SeamMoves(blank, w, rest, b);
      WordsConcat(rest, b);
      WordFront(blank, w, rest, b);
    }
  }

  lemma SeamMoves(blank: string, w: string, rest: string, b: string)
    requires IsWord(w) && (rest == "" || IsSpace(rest[0]))
    requires var a := blank + (w + rest); b == "" || IsSpace(a[|a|-1]) || IsSpace(b[0])
    ensures rest + b == "" || IsSpace((rest + b)[0])
    ensures rest == "" || b == "" || IsSpace(rest[|rest|-1]) || IsSpace(b[0])
  {
    var a := blank + (w + rest);
    if rest == "" {
      assert rest + b == b;
      assert a[|a|-1] == w[|w|-1];
    } else {
      assert a[|a|-1] == rest[|rest|-1];
    }
  }

  // ------------------------------------------------------------ strip

  function StripEnd(s: string): string {
    if s == "" || !IsSpace(s[|s|-1]) then s else StripEnd(s[..|s|-1])
  }

  function Strip(s: string): string { StripEnd(SkipSpace(s)) }

  lemma {:induction false} WordsStripEnd(s: string)
    ensures Words(StripEnd(s)) == Words(s)
  {
    if s != "" && IsSpace(s[|s|-1]) {
      var init, last := s[..|s|-1], [s[|s|-1]];
      assert s == init + last;
      WordsStripEnd(init);
      WordsConcat(init, last);
      assert Blank(last) && last + "" == last;
      WordsSkipBlank(last, "");
    }
  }

  lemma WordsStrip(s: string)
    ensures Words(Strip(s)) == Words(s)
  {
    WordsStripEnd(SkipSpace(s));
    var n := Span(s, IsSpace);
    assert s == s[..n] + s[n..];
    WordsSkipBlank(s[..n], s[n..]);
  }

  // ------------------------------------------------------------ words of joined texts

  function AllWords(pieces: seq<string>): seq<string> {
    if pieces == [] then [] else AllWords(pieces[..|pieces|-1]) + Words(pieces[|pieces|-1])
  }

  lemma {:induction false} AllWordsConcat(a: seq<string>, b: seq<string>)
    ensures AllWords(a + b) == AllWords(a) + AllWords(b)
  {
    if b == [] {
      assert a + b == a;
    } else {
      var init, last := b[..|b|-1], b[|b|-1];
      assert (a + b)[..|a + b|-1] == a + init && (a + b)[|a + b|-1] == last;
      AllWordsConcat(a, init);
      Regroup(AllWords(a), AllWords(init), Words(last));
    }
  }

  lemma AllWordsOne(p: string)
    ensures AllWords([p]) == Words(p)
  {
    assert [p][..0] == [];
  }

  lemma WordsOfGlued(a: string, glue: string, b: string)
    requires glue != "" && Blank(glue)
    ensures Words(a + glue + b) == Words(a) + Words(b)
  {
    Regroup(a, glue, b);
    WordsConcat(a, glue + b);
    WordsSkipBlank(glue, b);
  }

  /** Joining with white space keeps the words. */
  lemma {:induction false} WordsOfJoin(pieces: seq<string>, glue: string)
    requires glue != "" && Blank(glue)
    ensures Words(Join(pieces, glue)) == AllWords(pieces)
  {
    if |pieces| == 1 {
      AllWordsOne(pieces[0]);
    } else if pieces != [] {
      var rest := Join(pieces[1..], glue);
      WordsOfJoin(pieces[1..], glue);
      assert pieces == [pieces[0]] + pieces[1..];
      AllWordsConcat([pieces[0]], pieces[1..]);
      AllWordsOne(pieces[0]);
      WordsOfGlued(pieces[0], glue, rest);
    }
  }

  lemma {:induction false} AllWordsOfWords(ws: seq<string>)
    requires forall w | w in ws :: IsWord(w)
    ensures AllWords(ws) == ws
  {
    if ws != [] {
      var init, last := ws[..|ws|-1], ws[|ws|-1];
      assert ws == init + [last] && last in ws;
      assert forall w | w in init :: w in ws;
      AllWordsOfWords(init);
      assert last + "" == last;
      WordsOfWord(last, "");
    }
  }
}
