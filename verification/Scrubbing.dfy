/** Literal scrubbing: `str.replace` applied for one value after another, and why later replacements
    neither bring earlier values back nor touch the tokens already written. */
module Scrubbing {
  import opened Splitting

  predicate Contains(text: string, w: string) {
    w <= text || (text != "" && Contains(text[1..], w))
  }

  /** `text.replace(v, t)` for a nonempty `v`: leftmost, non-overlapping. */
  function Replace(text: string, v: string, t: string): string
    requires v != ""
    decreases |text|
  {
    if text == "" then ""
    else if v <= text then t + Replace(text[|v|..], v, t)
    else [text[0]] + Replace(text[1..], v, t)
  }

  /** "[REDACTED:" + twelve hexadecimal digits + "]". */
  predicate IsToken(t: string) {
    |t| == 23 && t[..10] == "[REDACTED:" && t[22] == ']' &&
    forall i | 10 <= i < 22 :: '0' <= t[i] <= '9' || 'a' <= t[i] <= 'f'
  }

  predicate Plain(w: string) { '[' !in w && ']' !in w }

  /** The values in the order given; a value that is empty or absent is passed over. */
  function ScrubAll(text: string, order: seq<string>, token: string -> string): string {
    if order == [] then text
    else
      var before, v := ScrubAll(text, order[..|order|-1], token), order[|order|-1];
      if v != "" && Contains(before, v) then Replace(before, v, token(v)) else before
  }

  // ------------------------------------------------------------ containment

  lemma {:induction false} ContainsSuffix(text: string, k: nat, w: string)
    requires k <= |text| && Contains(text[k..], w)
    ensures Contains(text, w)
  {
    if k == 0 {
      assert text[0..] == text;
    } else {
      assert text[1..][k-1..] == text[k..];
      ContainsSuffix(text[1..], k - 1, w);
    }
  }

  lemma ShortPrefix(t: string, rest: string, w: string)
    requires |w| <= |t|
    ensures w <= t + rest <==> w <= t
  {
    assert (t + rest)[..|w|] == t[..|w|];
  }

  /** Neither text occurs in the other, and neither can begin inside the other and run past its end. */
  ghost predicate Apart(w: string, t: string) {
    !Contains(t, w) && !Contains(w, t) &&
    (forall k | 0 < k < |w| :: !(w[k..] <= t)) &&
    (forall k | 0 < k < |w| && k <= |t| :: w[..k] != t[|t|-k..])
  }

  lemma {:induction false} ContainsFirst(text: string, rest: string, v: string)
    requires Contains(text, v)
    ensures Contains(text + rest, v)
  {
    if v <= text {
      ShortPrefix(text, rest, v);
    } else {
      ContainsFirst(text[1..], rest, v);
      assert (text + rest)[1..] == text[1..] + rest;
    }
  }

  lemma LongPrefix(t: string, rest: string, w: string)
    requires w <= t + rest && |t| <= |w|
    ensures t <= w && w[..|t|] == t
  {
    assert w[..|t|] == (t + rest)[..|t|] == t;
  }

  /** A word apart from `t` cannot start inside `t`. */
  lemma NotFromInside(t: string, j: nat, rest: string, w: string)
    requires Apart(w, t) && j < |t|
    ensures !(w <= t[j..] + rest)
  {
    var k, tail := |t| - j, t[j..];
    assert t[|t|-k..] == tail;
    if w <= tail + rest {
      if |w| <= k {
        ShortPrefix(tail, rest, w);
        if Contains(tail, w) { ContainsSuffix(t, j, w); }
      } else {
        LongPrefix(tail, rest, w);
      }
    }
  }

  /** A word apart from `t` that ends inside or beyond `t` does not start before it either. */
  lemma NotAcross(t: string, k: nat, rest: string, w: string)
    requires Apart(w, t) && 0 < k < |w|
    ensures !(w[k..] <= t + rest)
  {
    var tail := w[k..];
    if tail <= t + rest {
      if |tail| <= |t| {
        ShortPrefix(t, rest, tail);
      } else {
        LongPrefix(t, rest, tail);
        if Contains(tail, t) { ContainsSuffix(w, k, t); }
      }
    }
  }

  lemma {:induction false} OutsideBoth(t: string, j: nat, rest: string, w: string)
    requires Apart(w, t) && j <= |t| && !Contains(rest, w)
    ensures !Contains(t[j..] + rest, w)
    decreases |t| - j
  {
    if j == |t| {
      assert t[j..] + rest == rest;
    } else {
      NotFromInside(t, j, rest, w);
      OutsideBoth(t, j + 1, rest, w);
      assert (t[j..] + rest)[1..] == t[j+1..] + rest;
    }
  }

  lemma {:induction false} ReplaceAbsent(text: string, v: string, t: string)
    requires v != "" && !Contains(text, v)
    ensures Replace(text, v, t) == text
  {
    if text != "" {
      ReplaceAbsent(text[1..], v, t);
    }
  }

  // ------------------------------------------------------------ replacement as cutting and joining

  /** Replacing is cutting at the occurrences and joining with the token... */
  lemma {:induction false} ReplaceCutsAndJoins(text: string, v: string, t: string)
    requires v != ""
    ensures Join(SplitOn(text, v), t) == Replace(text, v, t)
    decreases |text|
  {
    if text == "" {
    } else if v <= text {
      ReplaceCutsAndJoins(text[|v|..], v, t);
      JoinEmptyFront(SplitOn(text[|v|..], v), t);
    } else {
      ReplaceCutsAndJoins(text[1..], v, t);
      JoinGrowsFront(text[0], SplitOn(text[1..], v), t);
    }
  }

  /** ...and no cut piece still holds an occurrence. */
  lemma {:induction false} PiecesAreFree(text: string, v: string)
    requires v != ""
    ensures SplitOn(text, v)[0] <= text && forall p | p in SplitOn(text, v) :: !Contains(p, v)
    decreases |text|
  {
    if text == "" {
      assert !Contains("", v);
    } else if v <= text {
      PiecesAreFree(text[|v|..], v);
      assert !Contains("", v);
    } else {
      PiecesAreFree(text[1..], v);
      FrontPieceIsFree(text, SplitOn(text[1..], v)[0], v);
    }
  }

  lemma FrontPieceIsFree(text: string, front: string, v: string)
    requires text != "" && v != "" && !(v <= text) && front <= text[1..] && !Contains(front, v)
    ensures [text[0]] + front <= text && !Contains([text[0]] + front, v)
  {
    var grown := [text[0]] + front;
    assert text == [text[0]] + text[1..];
    assert grown[1..] == front;
    if |v| <= |grown| { ShortPrefix(grown, text[1 + |front|..], v); }
    assert text == grown + text[1 + |front|..];
  }

  // ------------------------------------------------------------ what a replacement can bring in

  lemma PrefixStep(c: char, r: string, w: string)
    requires w != ""
    ensures w <= [c] + r <==> w[0] == c && w[1..] <= r
  {
    assert w == [w[0]] + w[1..];
    if w[0] == c && w[1..] <= r {
      assert ([c] + r)[..|w|] == [c] + r[..|w|-1];
    }
  }

  /** What stands at the start of the result, if it is the rest of a word apart from the token, already stood at
      the start of the text. */
  lemma {:induction false} PrefixWasThere(text: string, v: string, t: string, w: string, k: nat)
    requires v != "" && Apart(w, t) && k <= |w|
    requires w[k..] <= Replace(text, v, t)
    ensures w[k..] <= text
    decreases |text|
  {
    if k < |w| && text != "" {
      if v <= text {
        assert t[0..] == t && w[0..] == w && t != "";
        if k == 0 { NotFromInside(t, 0, Replace(text[|v|..], v, t), w); }
        else { NotAcross(t, k, Replace(text[|v|..], v, t), w); }
      } else {
        PrefixStep(text[0], Replace(text[1..], v, t), w[k..]);
        assert w[k..][1..] == w[k+1..];
        PrefixWasThere(text[1..], v, t, w, k + 1);
        PrefixStep(text[0], text[1..], w[k..]);
        assert text == [text[0]] + text[1..];
      }
    }
  }

  lemma AddFront(c: char, r: string, w: string)
    requires !(w <= [c] + r) && !Contains(r, w)
    ensures !Contains([c] + r, w)
  {
    assert ([c] + r)[1..] == r;
  }

  /** The replaced word is gone, and a word that was not in the text is not in the result. */
  lemma {:induction false} NotReintroduced(text: string, v: string, t: string, w: string)
    requires v != "" && w != "" && Apart(w, t) && (w == v || !Contains(text, w))
    ensures !Contains(Replace(text, v, t), w)
    decreases |text|
  {
    if text != "" {
      if v <= text {
        var rest := text[|v|..];
        if Contains(rest, w) { ContainsSuffix(text, |v|, w); }
        NotReintroduced(rest, v, t, w);
        OutsideBoth(t, 0, Replace(rest, v, t), w);
        assert t[0..] == t;
      } else {
        NotReintroduced(text[1..], v, t, w);
        assert w[0..] == w;
        if w <= Replace(text, v, t) { PrefixWasThere(text, v, t, w, 0); }
        AddFront(text[0], Replace(text[1..], v, t), w);
      }
    }
  }

  // ------------------------------------------------------------ tokens survive

  lemma {:induction false} TokenTailSkipped(s: string, j: nat, b: string, v: string, t: string)
    requires v != "" && Apart(v, s) && j <= |s|
    ensures Replace(s[j..] + b, v, t) == s[j..] + Replace(b, v, t)
    decreases |s| - j
  {
    if j == |s| {
      assert s[j..] + b == b;
    } else {
      NotFromInside(s, j, b, v);
      TokenTailSkipped(s, j + 1, b, v, t);
      OneCharacterOn(s, j, b, v, t);
      OneCharacterBack(s, j, Replace(b, v, t));
    }
  }

  lemma OneCharacterOn(s: string, j: nat, b: string, v: string, t: string)
    requires v != "" && j < |s| && !(v <= s[j..] + b)
    ensures Replace(s[j..] + b, v, t) == [s[j]] + Replace(s[j+1..] + b, v, t)
  {
    assert (s[j..] + b)[1..] == s[j+1..] + b;
  }

  lemma OneCharacterBack(s: string, j: nat, rest: string)
    requires j < |s|
    ensures [s[j]] + (s[j+1..] + rest) == s[j..] + rest
  {
    assert s[j..] == [s[j]] + s[j+1..];
  }

  lemma StartsBefore(a: string, s: string, b: string, v: string)
    requires Apart(v, s) && a != ""
    ensures v <= a + (s + b) <==> v <= a
  {
    if |v| <= |a| {
      ShortPrefix(a, s + b, v);
    } else {
      NotAcross(s, |a|, b, v);
      if v <= a + (s + b) { RestOfPrefix(a, s + b, v); }
    }
  }

  lemma RestOfPrefix(a: string, rest: string, v: string)
    requires v <= a + rest && |a| <= |v|
    ensures v[|a|..] <= rest
  {
    assert v == (a + rest)[..|v|];
    assert v[|a|..] == rest[..|v|-|a|];
  }

  /** A token that the value stays apart from splits the replacement: both sides are replaced on their own. */
  lemma {:induction false} TokenSplits(a: string, s: string, b: string, v: string, t: string)
    requires v != "" && Apart(v, s)
    ensures Replace(a + (s + b), v, t) == Replace(a, v, t) + (s + Replace(b, v, t))
    decreases |a|
  {
    var text := a + (s + b);
    if a == "" {
      assert text == s[0..] + b && s[0..] == s;
      TokenTailSkipped(s, 0, b, v, t);
    } else {
      StartsBefore(a, s, b, v);
      if v <= a {
        assert text[|v|..] == a[|v|..] + (s + b);
        TokenSplits(a[|v|..], s, b, v, t);
      } else {
        assert text[1..] == a[1..] + (s + b);
        TokenSplits(a[1..], s, b, v, t);
      }
    }
  }

  // ------------------------------------------------------------ and only then

  lemma {:induction false} Shrinks(text: string, v: string, t: string)
    requires v != "" && |t| < |v|
    ensures |Replace(text, v, t)| <= |text|
    decreases |text|
  {
    if text != "" {
      if v <= text { Shrinks(text[|v|..], v, t); } else { Shrinks(text[1..], v, t); }
    }
  }

  lemma {:induction false} ReplaceChanges(text: string, v: string, t: string)
    requires v != "" && Contains(text, v) && !Contains(t, v)
    ensures Replace(text, v, t) != text
    decreases |text|
  {
    if v <= text {
      var rest := Replace(text[|v|..], v, t);
      if |t| < |v| {
        Shrinks(text[|v|..], v, t);
      } else if t + rest == text {
        ShortPrefix(t, rest, v);
      }
    } else {
      ReplaceChanges(text[1..], v, t);
      assert text == [text[0]] + text[1..];
      assert Replace(text, v, t)[1..] == Replace(text[1..], v, t);
    }
  }

  lemma {:induction false} LongerIsAbsent(text: string, v: string)
    requires |text| < |v|
    ensures !Contains(text, v)
  {
    if text != "" { LongerIsAbsent(text[1..], v); }
  }

  /** Where an occurrence stands. */
  lemma {:induction false} ContainsAt(text: string, w: string) returns (j: nat)
    requires Contains(text, w)
    ensures j + |w| <= |text| && text[j..j+|w|] == w
  {
    if w <= text {
      j := 0;
    } else {
      j := ContainsAt(text[1..], w);
      assert text[1..][j..j+|w|] == text[1+j..1+j+|w|];
      j := j + 1;
    }
  }

  lemma MeetsBefore(v: string, k: nat, s: string)
    requires k < |v| && v[k..] <= s
    ensures Contains(v[..k] + (s + ""), v)
  {
    assert s == v[k..] + s[|v|-k..];
    assert v[..k] + (s + "") == v + s[|v|-k..];
  }

  lemma MeetsAfter(v: string, k: nat, s: string)
    requires k <= |v| && k <= |s| && v[..k] == s[|s|-k..]
    ensures Contains("" + (s + v[k..]), v)
  {
    CutAt(s, |s| - k);
    CutAt(v, k);
    Overlap(s[..|s|-k], v[..k], v[k..]);
  }

  lemma CutAt(s: string, n: nat)
    requires n <= |s|
    ensures s == s[..n] + s[n..]
  {
  }

  lemma Overlap(front: string, shared: string, back: string)
    ensures Contains("" + ((front + shared) + back), shared + back)
  {
    assert "" + ((front + shared) + back) == front + (shared + back);
    ContainsLast(front, shared + back);
  }

  lemma ContainsLast(front: string, v: string)
    ensures Contains(front + v, v)
  {
    assert (front + v)[|front|..] == v;
    ContainsSuffix(front + v, |front|, v);
  }

  lemma MeetsAround(v: string, s: string) returns (a: string, b: string)
    requires Contains(v, s) && s != ""
    ensures |a| < |v| && |b| < |v| && a + (s + b) == v
  {
    var j := ContainsAt(v, s);
    a, b := v[..j], v[j+|s|..];
  }

  /** If the word and the token are not apart, some text around the token makes the word appear. */
  lemma NotApartMeets(v: string, s: string) returns (a: string, b: string)
    requires v != "" && s != "" && !Apart(v, s)
    ensures |a| < |v| && |b| < |v| && Contains(a + (s + b), v)
  {
    if Contains(s, v) {
      a, b := "", "";
      assert a + (s + b) == s;
    } else if Contains(v, s) {
      a, b := MeetsAround(v, s);
    } else if k :| 0 < k < |v| && v[k..] <= s {
      a, b := v[..k], "";
      MeetsBefore(v, k, s);
    } else {
      var k :| 0 < k < |v| && k <= |s| && v[..k] == s[|s|-k..];
      a, b := "", v[k..];
      MeetsAfter(v, k, s);
    }
  }

  ghost predicate Splits(v: string, t: string, s: string)
    requires v != ""
  {
    forall a, b :: Replace(a + (s + b), v, t) == Replace(a, v, t) + (s + Replace(b, v, t))
  }

  /** A replacement leaves a token alone in every context exactly when the value and the token are apart. */
  lemma TokenKeptExactly(v: string, t: string, s: string)
    requires v != "" && s != "" && !Contains(t, v)
    ensures Splits(v, t, s) <==> Apart(v, s)
  {
    if Apart(v, s) {
      forall a, b ensures Replace(a + (s + b), v, t) == Replace(a, v, t) + (s + Replace(b, v, t)) {
        TokenSplits(a, s, b, v, t);
      }
    } else {
      var a, b := NotApartMeets(v, s);
      LongerIsAbsent(a, v);
      LongerIsAbsent(b, v);
      ReplaceAbsent(a, v, t);
      ReplaceAbsent(b, v, t);
      ReplaceChanges(a + (s + b), v, t);
    }
  }

  // ------------------------------------------------------------ the whole scrub

  ghost predicate Tokens(token: string -> string) { forall v :: IsToken(token(v)) }

  /** Every nonempty value is apart from the token of every value. */
  ghost predicate AllApart(order: seq<string>, token: string -> string) {
    forall w, x | w in order && x in order && w != "" :: Apart(w, token(x))
  }

  ghost predicate CleanOf(text: string, order: seq<string>) {
    forall w | w in order && w != "" :: !Contains(text, w)
  }

  /** Scrubbing is complete in any order: no value is left, and none is brought back. */
  lemma {:induction false} ScrubIsClean(text: string, order: seq<string>, token: string -> string)
    requires AllApart(order, token)
    ensures CleanOf(ScrubAll(text, order, token), order)
  {
    if order != [] {
      var init, v := order[..|order|-1], order[|order|-1];
      assert order == init + [v] && v in order;
      assert forall u | u in init :: u in order;
      ScrubIsClean(text, init, token);
      var before := ScrubAll(text, init, token);
      if v != "" && Contains(before, v) {
        NotReintroduced(before, v, token(v), v);
        forall w | w in init && w != "" ensures !Contains(Replace(before, v, token(v)), w) {
          NotReintroduced(before, v, token(v), w);
        }
      }
    }
  }

  /** A token that every value is apart from stands unchanged wherever it stood, and splits the scrub. */
  lemma {:induction false} ScrubKeepsToken(a: string, x: string, b: string, order: seq<string>, token: string -> string)
    requires forall w | w in order && w != "" :: Apart(w, token(x))
    ensures ScrubAll(a + (token(x) + b), order, token) == ScrubAll(a, order, token) + (token(x) + ScrubAll(b, order, token))
  {
    if order != [] {
      var init, v := order[..|order|-1], order[|order|-1];
      assert order == init + [v];
      ScrubKeepsToken(a, x, b, init, token);
      if v != "" {
        var p, q := ScrubAll(a, init, token), ScrubAll(b, init, token);
        TokenSplits(p, token(x), q, v, token(v));
        AbsentIsIdentity(p + (token(x) + q), v, token(v));
        AbsentIsIdentity(p, v, token(v));
        AbsentIsIdentity(q, v, token(v));
      }
    }
  }

  /** The presence test before `replace` changes nothing. */
  lemma AbsentIsIdentity(text: string, v: string, t: string)
    requires v != ""
    ensures (if Contains(text, v) then Replace(text, v, t) else text) == Replace(text, v, t)
  {
    if !Contains(text, v) { ReplaceAbsent(text, v, t); }
  }

  lemma {:induction false} ScrubEmpty(order: seq<string>, token: string -> string)
    ensures ScrubAll("", order, token) == ""
  {
    if order != [] { ScrubEmpty(order[..|order|-1], token); }
  }

  lemma {:induction false} ScrubAbsent(text: string, order: seq<string>, token: string -> string)
    requires forall v | v in order && v != "" :: !Contains(text, v)
    ensures ScrubAll(text, order, token) == text
  {
    if order != [] {
      var init := order[..|order|-1];
      assert order[|order|-1] in order && forall v | v in init :: v in order;
      ScrubAbsent(text, init, token);
    }
  }

  /** Each value's replacement removes it from its own token's text and leaves every value's token alone in every
      context, exactly when all values are apart from all tokens. */
  lemma ScrubbingIsExact(order: seq<string>, token: string -> string)
    requires Tokens(token)
    ensures (forall v, x | v in order && x in order && v != "" :: !Contains(token(v), v) && Splits(v, token(v), token(x)))
            <==> AllApart(order, token)
  {
    forall v, x | v in order && x in order && v != ""
      ensures !Contains(token(v), v) ==> (Splits(v, token(v), token(x)) <==> Apart(v, token(x)))
    {
      if !Contains(token(v), v) { TokenKeptExactly(v, token(v), token(x)); }
    }
  }

  lemma OneValueScrub(text: string, v: string, token: string -> string)
    requires v != ""
    ensures ScrubAll(text, [v], token) == Replace(text, v, token(v))
  {
    assert [v][..0] == [] && ScrubAll(text, [], token) == text;
    AbsentIsIdentity(text, v, token(v));
  }

  lemma OwnTokenShows(v: string, token: string -> string)
    requires v != "" && Contains(token(v), v)
    ensures !CleanOf(ScrubAll(v, [v], token), [v])
  {
    OneValueScrub(v, v, token);
    assert v[|v|..] == "" && token(v) + "" == token(v);
    assert v in [v];
  }

  /** Every text comes out clean. */
  ghost predicate AlwaysClean(order: seq<string>, token: string -> string) {
    forall text :: CleanOf(ScrubAll(text, order, token), order)
  }

  /** For a single value the whole scrub is one replacement, and the equivalence is about the scrub itself: every
      text comes out clean and the token is kept in every context, exactly when the two are apart. */
  lemma OneValueScrubIsExact(v: string, token: string -> string)
    requires Tokens(token) && v != ""
    ensures AlwaysClean([v], token) && Splits(v, token(v), token(v)) <==> Apart(v, token(v))
  {
    if Contains(token(v), v) {
      OwnTokenShows(v, token);
    } else {
      TokenKeptExactly(v, token(v), token(v));
    }
    if Apart(v, token(v)) { ApartIsClean(v, token); }
  }

  lemma ApartIsClean(v: string, token: string -> string)
    requires Apart(v, token(v))
    ensures AlwaysClean([v], token)
  {
    forall text ensures CleanOf(ScrubAll(text, [v], token), [v]) { ScrubIsClean(text, [v], token); }
  }

  // ------------------------------------------------------------ values and brackets

  lemma TokenShape(t: string, i: nat)
    requires IsToken(t) && i < |t|
    ensures t[i] == '[' <==> i == 0
    ensures t[i] == ']' <==> i == 22
  {
    if i < 10 { assert t[i] == t[..10][i] == "[REDACTED:"[i]; }
  }

  lemma HeadInside(w: string, t: string)
    requires Contains(w, t) && t != ""
    ensures t[0] in w
  {
    var j := ContainsAt(w, t);
    assert w[j] == w[j..j+|t|][0];
  }

  lemma PrefixAt(w: string, k: nat, t: string, i: nat)
    requires k + i < |w| && i < |t|
    ensures w[k..] <= t ==> w[k+i] == t[i]
  {
    assert w[k..][i] == w[k+i];
  }

  lemma SuffixEnd(w: string, k: nat, t: string)
    requires 0 < k <= |w| && k <= |t|
    ensures w[..k] == t[|t|-k..] ==> w[k-1] == t[|t|-1]
  {
    assert w[..k][k-1] == w[k-1] && t[|t|-k..][k-1] == t[|t|-1];
  }

  /** A value without brackets is apart from a token exactly when it does not occur in it. */
  lemma PlainIsApart(w: string, t: string)
    requires IsToken(t) && Plain(w)
    ensures Apart(w, t) <==> !Contains(t, w)
  {
    TokenShape(t, 0);
    TokenShape(t, 22);
    if Contains(w, t) { HeadInside(w, t); }
    forall k | 0 < k < |w| ensures !(w[k..] <= t) {
      PrefixAt(w, k, t, 0);
    }
    forall k | 0 < k < |w| && k <= |t| ensures w[..k] != t[|t|-k..] {
      SuffixEnd(w, k, t);
    }
  }

  /** So the bracket-free values that occur in no token can all be scrubbed. */
  lemma PlainValuesAreApart(order: seq<string>, token: string -> string)
    requires Tokens(token) && (forall v | v in order :: Plain(v))
    ensures AllApart(order, token) <==> forall v, w | v in order && w in order && w != "" :: !Contains(token(v), w)
  {
    forall w, x | w in order && x in order ensures Apart(w, token(x)) <==> !Contains(token(x), w) {
      PlainIsApart(w, token(x));
    }
  }

  lemma SecondInside(t: string, w: string)
    requires Contains(t, w) && IsToken(t) && |w| > 1
    ensures w[1] != '['
  {
    var j := ContainsAt(t, w);
    assert t[j+1] == t[j..j+|w|][1];
    TokenShape(t, j + 1);
  }

  /** A bracket does no harm by itself: "a[b" is apart from every token. */
  lemma InnerBracketIsApart(t: string)
    requires IsToken(t)
    ensures Apart("a[b", t)
  {
    var w := "a[b";
    TokenShape(t, 0);
    TokenShape(t, 22);
    assert t[1] == t[..10][1] == 'R';
    if Contains(t, w) { SecondInside(t, w); }
    LongerIsAbsent(w, t);
    forall k | 0 < k < |w| ensures !(w[k..] <= t) {
      PrefixAt(w, k, t, 0);
      if k == 1 { PrefixAt(w, k, t, 1); }
    }
    forall k | 0 < k < |w| && k <= |t| ensures w[..k] != t[|t|-k..] {
      SuffixEnd(w, k, t);
    }
  }

  /** A bracket at a token's edge is another matter: "x[" is apart from no token... */
  lemma EdgeBracketIsNotApart(t: string)
    requires IsToken(t)
    ensures !Apart("x[", t)
  {
    TokenShape(t, 0);
    assert "x["[1..] == "[" && "[" <= t;
  }

  /** ...and comes back across the edge of its own, from the text "xx[". */
  lemma BracketsCanReturn(token: string -> string)
    requires Tokens(token)
    ensures Contains(ScrubAll("xx[", ["x["], token), "x[")
  {
    var t, v := token("x["), "x[";
    assert "xx["[1..] == v && v[|v|..] == "";
    assert Contains("xx[", v);
    assert !(v <= "xx[") by { assert "xx["[1] == 'x'; }
    assert Replace(v, v, t) == t + "";
    assert Replace("xx[", v, t) == ['x'] + (t + "");
    assert ScrubAll("xx[", [], token) == "xx[";
    assert [v][..0] == [];
    var out := ['x'] + (t + "");
    assert t[..10][0] == '[';
    assert out[..2] == v;
  }

  /** Completeness alone needs less: "[[" is not apart from any token, yet it never survives its own
      replacement, because the leftmost match takes the bracket that could have met the token. */
  lemma {:induction false} DoubleBracketIsRemoved(text: string, t: string)
    requires IsToken(t)
    ensures !Apart("[[", t) && !Contains(Replace(text, "[[", t), "[[")
    decreases |text|
  {
    var v := "[[";
    TokenShape(t, 0);
    TokenShape(t, 22);
    assert v[1..] == "[" && "[" <= t;
    if text != "" {
      if v <= text {
        DoubleBracketIsRemoved(text[2..], t);
        OneBracketToken(t, 0, Replace(text[2..], v, t));
        assert t[0..] == t;
      } else {
        DoubleBracketIsRemoved(text[1..], t);
        var r := Replace(text[1..], v, t);
        if v <= [text[0]] + r { AfterOneBracket(text, r, t); }
        AddFront(text[0], r, v);
      }
    }
  }

  lemma TwoBrackets(text: string)
    ensures "[[" <= text <==> |text| > 1 && text[0] == '[' && text[1] == '['
  {
    if |text| > 1 { assert text[..2] == [text[0], text[1]]; }
  }

  /** A replacement that begins with a bracket began with one before, or with the value. */
  lemma AfterOneBracket(text: string, r: string, t: string)
    requires text != "" && !("[[" <= text) && r == Replace(text[1..], "[[", t) && IsToken(t)
    requires text[0] == '[' || !("[[" <= [text[0]] + r)
    ensures !("[[" <= [text[0]] + r)
  {
    if text[0] == '[' && |text| > 1 {
      TwoBrackets(text);
      TwoBrackets(text[1..]);
      assert r[0] == text[1];
      TwoBrackets([text[0]] + r);
    }
  }

  lemma {:induction false} OneBracketToken(t: string, j: nat, rest: string)
    requires IsToken(t) && j <= |t| && !Contains(rest, "[[")
    ensures !Contains(t[j..] + rest, "[[")
    decreases |t| - j
  {
    if j == |t| {
      assert t[j..] + rest == rest;
    } else {
      var whole := t[j..] + rest;
      TokenShape(t, j);
      assert whole[0] == t[j];
      if j + 1 < |t| {
        TokenShape(t, j + 1);
        assert whole[1] == t[j+1];
      }
      TwoBrackets(whole);
      OneBracketToken(t, j + 1, rest);
      assert whole[1..] == t[j+1..] + rest;
    }
  }
}
