/** The whole longest-first scrub works on every text, in every context, exactly when all values are apart from all
    tokens: a value that is not apart spoils some text that later values cannot mend. */
module WholeScrub {
  import opened Scrubbing

  /** No value is longer than one before it. */
  ghost predicate Descending(order: seq<string>) {
    forall i, k | 0 <= i < k < |order| :: |order[k]| <= |order[i]|
  }

  ghost predicate Kept(order: seq<string>, token: string -> string, x: string) {
    forall a, b ::
      ScrubAll(a + (token(x) + b), order, token) == ScrubAll(a, order, token) + (token(x) + ScrubAll(b, order, token))
  }

  /** Every text comes out clean, and the token of every value is kept in every context. */
  ghost predicate Works(order: seq<string>, token: string -> string) {
    AlwaysClean(order, token) && forall x | x in order :: Kept(order, token, x)
  }

  // ------------------------------------------------------------ scrubbing in two parts

  function ScrubOne(text: string, v: string, token: string -> string): string {
    if v != "" && Contains(text, v) then Replace(text, v, token(v)) else text
  }

  lemma ScrubLast(text: string, order: seq<string>, v: string, token: string -> string)
    ensures ScrubAll(text, order + [v], token) == ScrubOne(ScrubAll(text, order, token), v, token)
  {
    assert (order + [v])[..|order|] == order;
  }

  lemma {:induction false} ScrubParts(text: string, first: seq<string>, second: seq<string>, token: string -> string)
    ensures ScrubAll(text, first + second, token) == ScrubAll(ScrubAll(text, first, token), second, token)
  {
    if second == [] {
      assert first + second == first;
    } else {
      var init, v := second[..|second|-1], second[|second|-1];
      ScrubParts(text, first, init, token);
      assert first + second == (first + init) + [v] && second == init + [v];
      ScrubLast(text, first + init, v, token);
      ScrubLast(ScrubAll(text, first, token), init, v, token);
    }
  }

  /** What the values up to `order[i]` leave to the rest. */
  lemma ScrubFrom(text: string, order: seq<string>, i: nat, token: string -> string)
    requires i < |order| && ScrubAll(text, order[..i], token) == text
    ensures ScrubAll(text, order, token) == ScrubAll(ScrubOne(text, order[i], token), order[i+1..], token)
  {
    assert order == order[..i+1] + order[i+1..] && order[..i+1] == order[..i] + [order[i]];
    ScrubParts(text, order[..i+1], order[i+1..], token);
    ScrubLast(text, order[..i], order[i], token);
  }

  /** Two texts that the values up to `order[i]` turn into the same text are scrubbed alike. */
  lemma ScrubAlike(text: string, other: string, order: seq<string>, i: nat, token: string -> string)
    requires i < |order| && order[i] != ""
    requires ScrubAll(text, order[..i], token) == text && ScrubAll(other, order[..i], token) == other
    requires Replace(text, order[i], token(order[i])) == other && !Contains(other, order[i])
    ensures ScrubAll(text, order, token) == ScrubAll(other, order, token)
  {
    ScrubFrom(text, order, i, token);
    ScrubFrom(other, order, i, token);
    AbsentIsIdentity(text, order[i], token(order[i]));
  }

  lemma {:induction false} ScrubNonempty(text: string, order: seq<string>, token: string -> string)
    requires Tokens(token) && text != ""
    ensures ScrubAll(text, order, token) != ""
  {
    if order != [] {
      ScrubNonempty(text, order[..|order|-1], token);
      assert IsToken(token(order[|order|-1]));
    }
  }

  lemma ShortUntouched(text: string, order: seq<string>, i: nat, token: string -> string)
    requires Descending(order) && i < |order| && |text| < |order[i]|
    ensures ScrubAll(text, order[..i], token) == text
  {
    forall v | v in order[..i] ensures !Contains(text, v) {
      LongerIsAbsent(text, v);
    }
    ScrubAbsent(text, order[..i], token);
  }

  // ------------------------------------------------------------ what works implies

  lemma WorksOutsideTokens(order: seq<string>, token: string -> string, x: string, w: string)
    requires Works(order, token) && x in order && w in order && w != ""
    ensures !Contains(token(x), w) && ScrubAll(token(x), order, token) == token(x)
  {
    assert Kept(order, token, x) && CleanOf(ScrubAll(token(x), order, token), order);
    ScrubEmpty(order, token);
    assert "" + (token(x) + "") == token(x);
  }

  /** Part of a token is left alone by the whole scrub and by its beginning. */
  lemma TokenPartUntouched(order: seq<string>, token: string -> string, x: string, from: nat, to: nat, i: nat)
    requires Works(order, token) && x in order && from <= to <= |token(x)| && i <= |order|
    ensures ScrubAll(token(x)[from..to], order, token) == token(x)[from..to]
    ensures ScrubAll(token(x)[from..to], order[..i], token) == token(x)[from..to]
  {
    var part := token(x)[from..to];
    forall v | v in order && v != "" ensures !Contains(part, v) {
      WorksOutsideTokens(order, token, x, v);
      if Contains(part, v) { PartContains(token(x), from, to, v); }
    }
    ScrubAbsent(part, order, token);
    ScrubAbsent(part, order[..i], token);
  }

  lemma PartContains(text: string, from: nat, to: nat, v: string)
    requires from <= to <= |text| && Contains(text[from..to], v)
    ensures Contains(text, v)
  {
    var head, tail := text[from..to], text[to..];
    assert text[from..] == head + tail;
    ContainsFirst(head, tail, v);
    ContainsSuffix(text, from, v);
  }

  /** The values before `order[i]`. */
  ghost predicate ApartSoFar(order: seq<string>, token: string -> string, i: nat)
    requires i <= |order|
  {
    forall v, x | v in order[..i] && x in order && v != "" :: Apart(v, token(x))
  }

  lemma AroundUntouched(a: string, x: string, b: string, order: seq<string>, i: nat, token: string -> string)
    requires i <= |order| && ApartSoFar(order, token, i) && x in order
    requires ScrubAll(a, order[..i], token) == a && ScrubAll(b, order[..i], token) == b
    ensures ScrubAll(a + (token(x) + b), order[..i], token) == a + (token(x) + b)
  {
    ScrubKeepsToken(a, x, b, order[..i], token);
  }

  // ------------------------------------------------------------ a token inside the value

  lemma NoTokenInside(order: seq<string>, token: string -> string, i: nat, x: string)
    requires Tokens(token) && Descending(order) && Works(order, token)
    requires i < |order| && order[i] != "" && ApartSoFar(order, token, i) && x in order
    ensures !Contains(order[i], token(x))
  {
    var w, t := order[i], token(x);
    WorksOutsideTokens(order, token, x, w);
    WorksOutsideTokens(order, token, w, w);
    if Contains(w, t) { TokenInsideReturns(order, token, i, x); }
  }

  lemma TokenInsideReturns(order: seq<string>, token: string -> string, i: nat, x: string)
    requires Tokens(token) && Descending(order) && Works(order, token)
    requires i < |order| && order[i] != "" && ApartSoFar(order, token, i) && x in order
    requires Contains(order[i], token(x))
    ensures order[i] == token(x)
  {
    var w, t := order[i], token(x);
    var y, z := MeetsAround(w, t);
    ShortUntouched(y, order, i, token);
    ShortUntouched(z, order, i, token);
    AroundUntouched(y, x, z, order, i, token);
    TokenPartUntouched(order, token, w, 0, |token(w)|, i);
    assert token(w)[0..|token(w)|] == token(w);
    WorksOutsideTokens(order, token, w, w);
    WholeReplaced(w, token(w));
    ScrubAlike(w, token(w), order, i, token);
    assert Kept(order, token, x);
    assert IsToken(t) && IsToken(token(w));
    if y != "" { ScrubNonempty(y, order, token); }
    if z != "" { ScrubNonempty(z, order, token); }
    assert y == "" && z == "" && "" + (t + "") == t;
  }

  lemma WholeReplaced(w: string, t: string)
    requires w != ""
    ensures Replace(w, w, t) == t
  {
    assert w[|w|..] == "" && t + "" == t;
  }

  // ------------------------------------------------------------ a value that runs into a token

  lemma NoRunInto(order: seq<string>, token: string -> string, i: nat, x: string, k: nat)
    requires Tokens(token) && Descending(order) && Works(order, token)
    requires i < |order| && ApartSoFar(order, token, i) && x in order && 0 < k < |order[i]|
    ensures !(order[i][k..] <= token(x))
  {
    var w, t := order[i], token(x);
    NoTokenInside(order, token, i, x);
    var a, p := w[..k], w[k..];
    RunsInto(w, k, t);
    if p <= t { RunIntoReturns(order, token, i, x, a, p, t[|p|..]); }
  }

  lemma RunsInto(w: string, k: nat, t: string)
    requires k <= |w|
    ensures w == w[..k] + w[k..]
    ensures w[k..] <= t ==> t == w[k..] + t[|w|-k..] && (t[|w|-k..] == "" ==> Contains(w, t))
  {
    var a, p := w[..k], w[k..];
    CutAt(w, k);
    ContainsLast(a, p);
    if p <= t {
      var tail := t[|p|..];
      CutAt(t, |p|);
      NothingAdded(p, tail);
    }
  }

  lemma NothingAdded(s: string, e: string)
    ensures e == "" ==> s + e == s && e + s == s
  {
  }

  lemma RunIntoReturns(order: seq<string>, token: string -> string, i: nat, x: string, a: string, p: string, tail: string)
    requires Tokens(token) && Descending(order) && Works(order, token)
    requires i < |order| && ApartSoFar(order, token, i) && x in order
    requires order[i] == a + p && token(x) == p + tail && a != "" && p != ""
    ensures tail == ""
  {
    RunIntoAlike(order, token, i, x, a, p, tail);
    assert Kept(order, token, x) && Kept(order, token, order[i]);
    ScrubEmpty(order, token);
    TokenPartUntouched(order, token, x, |p|, |token(x)|, i);
    assert token(x)[|p|..|token(x)|] == tail;
    BracketClash(ScrubAll(a, order, token), p, tail, token(x), token(order[i]));
  }

  /** The value takes the token's beginning with it, and leaves its end. */
  lemma RunIntoAlike(order: seq<string>, token: string -> string, i: nat, x: string, a: string, p: string, tail: string)
    requires Tokens(token) && Descending(order) && Works(order, token)
    requires i < |order| && ApartSoFar(order, token, i) && x in order
    requires order[i] == a + p && token(x) == p + tail && a != "" && p != ""
    ensures ScrubAll(a + (token(x) + ""), order, token) == ScrubAll("" + (token(order[i]) + tail), order, token)
  {
    var w, t := order[i], token(x);
    WorksOutsideTokens(order, token, x, w);
    ShortUntouched(a, order, i, token);
    ShortUntouched("", order, i, token);
    TokenPartUntouched(order, token, x, |p|, |t|, i);
    assert t[|p|..|t|] == tail;
    AroundUntouched(a, x, "", order, i, token);
    AroundUntouched("", w, tail, order, i, token);
    RunIntoReplaced(a, p, tail, w, t, token(w));
    ScrubAlike(a + (t + ""), "" + (token(w) + tail), order, i, token);
  }

  lemma RunIntoReplaced(a: string, p: string, tail: string, w: string, t: string, tw: string)
    requires IsToken(t) && IsToken(tw) && a != "" && p != "" && w == a + p && t == p + tail && !Contains(t, w)
    ensures Replace(a + (t + ""), w, tw) == "" + (tw + tail) && !Contains("" + (tw + tail), w)
  {
    assert a + (t + "") == w + tail && t[|p|..] == tail;
    if Contains(tail, w) { ContainsSuffix(t, |p|, w); }
    FrontReplaced(w, tail, tw);
    assert w[|a|] == p[0] == t[0];
    TokenShape(t, 0);
    NoBracketAfter(t, |p|, tail, tw, w, |a|);
  }

  lemma FrontReplaced(w: string, tail: string, tw: string)
    requires w != "" && !Contains(tail, w)
    ensures Replace(w + tail, w, tw) == "" + (tw + tail)
  {
    assert (w + tail)[|w|..] == tail;
    ReplaceAbsent(tail, w, tw);
  }

  lemma NoBracketAfter(t: string, m: nat, tail: string, tw: string, w: string, k: nat)
    requires IsToken(t) && IsToken(tw) && 0 < m <= |t| && tail == t[m..] && 0 < k < |w| && w[k] == '['
    ensures !Contains("" + (tw + tail), w)
  {
    assert "" + (tw + tail) == tw + tail;
    if Contains(tw + tail, w) { BracketComesFirst(t, m, tail, tw, w, k); }
  }

  lemma BracketComesFirst(t: string, m: nat, tail: string, tw: string, w: string, k: nat)
    requires IsToken(t) && IsToken(tw) && 0 < m <= |t| && tail == t[m..] && k < |w| && w[k] == '['
    requires Contains(tw + tail, w)
    ensures k == 0
  {
    var j := ContainsAt(tw + tail, w);
    assert (tw + tail)[j+k] == (tw + tail)[j..j+|w|][k] == '[';
    if j + k < |tw| {
      TokenShape(tw, j + k);
    } else {
      TokenShape(t, m + j + k - |tw|);
    }
  }

  /** A token closes with a bracket and has no other. */
  lemma BracketClash(s: string, p: string, tail: string, t: string, tw: string)
    requires IsToken(t) && IsToken(tw) && p != "" && t == p + tail
    requires s + (t + "") == "" + (tw + tail)
    ensures tail == ""
  {
    var whole := s + (t + "");
    assert |s| == |tail|;
    assert whole[22] == ("" + (tw + tail))[22] == tw[22] && whole[22] == t[|p|-1];
    TokenShape(tw, 22);
    TokenShape(t, |p| - 1);
  }

  // ------------------------------------------------------------ a value that begins inside a token

  lemma NoRunOut(order: seq<string>, token: string -> string, i: nat, x: string, k: nat)
    requires Tokens(token) && Descending(order) && Works(order, token)
    requires i < |order| && ApartSoFar(order, token, i) && x in order && 0 < k < |order[i]| && k <= |token(x)|
    ensures order[i][..k] != token(x)[|token(x)|-k..]
  {
    var w, t := order[i], token(x);
    NoTokenInside(order, token, i, x);
    var h, q, z := t[..|t|-k], w[..k], w[k..];
    CutAt(w, k);
    CutAt(t, |t| - k);
    FirstContained(q, z);
    NothingAdded(q, h);
    if q == t[|t|-k..] { RunOutReturns(order, token, i, x, h, q, z); }
  }

  lemma FirstContained(v: string, rest: string)
    ensures Contains(v + rest, v)
  {
  }

  lemma RunOutReturns(order: seq<string>, token: string -> string, i: nat, x: string, h: string, q: string, z: string)
    requires Tokens(token) && Descending(order) && Works(order, token)
    requires i < |order| && ApartSoFar(order, token, i) && x in order
    requires token(x) == h + q && order[i] == q + z && q != "" && z != ""
    ensures h == ""
  {
    RunOutAlike(order, token, i, x, h, q, z);
    assert Kept(order, token, x) && Kept(order, token, order[i]);
    ScrubEmpty(order, token);
    TokenPartUntouched(order, token, x, 0, |h|, i);
    assert token(x)[0..|h|] == h;
    ClosingClash(h, q, token(x), token(order[i]), ScrubAll(z, order, token));
  }

  /** The value takes the token's end with it, and leaves its beginning. */
  lemma RunOutAlike(order: seq<string>, token: string -> string, i: nat, x: string, h: string, q: string, z: string)
    requires Tokens(token) && Descending(order) && Works(order, token)
    requires i < |order| && ApartSoFar(order, token, i) && x in order
    requires token(x) == h + q && order[i] == q + z && q != "" && z != ""
    ensures ScrubAll("" + (token(x) + z), order, token) == ScrubAll(h + (token(order[i]) + ""), order, token)
  {
    var w, t := order[i], token(x);
    WorksOutsideTokens(order, token, x, w);
    ShortUntouched(z, order, i, token);
    ShortUntouched("", order, i, token);
    TokenPartUntouched(order, token, x, 0, |h|, i);
    assert t[0..|h|] == h;
    AroundUntouched("", x, z, order, i, token);
    AroundUntouched(h, w, "", order, i, token);
    RunOutReplaced(h, q, z, w, t, token(w));
    ScrubAlike("" + (t + z), h + (token(w) + ""), order, i, token);
  }

  lemma RunOutReplaced(h: string, q: string, z: string, w: string, t: string, tw: string)
    requires IsToken(t) && IsToken(tw) && q != "" && z != "" && t == h + q && w == q + z
    ensures Replace("" + (t + z), w, tw) == h + (tw + "") && !Contains(h + (tw + ""), w)
  {
    assert "" + (t + z) == h + w;
    TokenShape(t, 22);
    assert w[|q|-1] == q[|q|-1] == t[22];
    forall j | 0 <= j < |h| ensures !(w <= (h + w)[j..]) {
      NotBefore(h, q, w, t, j);
    }
    ReplaceAtEnd(h, w, tw);
    if Contains(h + (tw + ""), w) { ClosingIsLast(h, q, t, tw, w); }
  }

  lemma NotBefore(h: string, q: string, w: string, t: string, j: nat)
    requires IsToken(t) && q != "" && q <= w && t == h + q && w[|q|-1] == ']' && j < |h|
    ensures !(w <= (h + w)[j..])
  {
    var k := |q|;
    assert (h + w)[j..][k-1] == (h + w)[j+k-1] == t[j+k-1];
    TokenShape(t, j + k - 1);
  }

  lemma {:induction false} ReplaceAtEnd(h: string, w: string, tw: string)
    requires w != "" && forall j | 0 <= j < |h| :: !(w <= (h + w)[j..])
    ensures Replace(h + w, w, tw) == h + (tw + "")
  {
    if h == "" {
      assert h + w == w && h + (tw + "") == tw;
      WholeReplaced(w, tw);
    } else {
      assert (h + w)[0..] == h + w && (h + w)[1..] == h[1..] + w;
      forall j | 0 <= j < |h[1..]| ensures !(w <= (h[1..] + w)[j..]) {
        assert (h[1..] + w)[j..] == (h + w)[j+1..];
      }
      ReplaceAtEnd(h[1..], w, tw);
      assert [h[0]] + (h[1..] + (tw + "")) == h + (tw + "");
    }
  }

  lemma ClosingIsLast(h: string, q: string, t: string, tw: string, w: string)
    requires IsToken(t) && IsToken(tw) && q != "" && t == h + q && q <= w && w[|q|-1] == ']'
    requires Contains(h + (tw + ""), w)
    ensures |q| == |w|
  {
    var text, k := h + (tw + ""), |q|;
    var j := ContainsAt(text, w);
    assert text[j+k-1] == text[j..j+|w|][k-1] == ']';
    if j + k - 1 < |h| {
      assert text[j+k-1] == t[j+k-1];
      TokenShape(t, j + k - 1);
    } else {
      TokenShape(tw, j + k - 1 - |h|);
    }
  }

  lemma ClosingClash(h: string, q: string, t: string, tw: string, s: string)
    requires IsToken(t) && IsToken(tw) && q != "" && t == h + q
    requires "" + (t + s) == h + (tw + "")
    ensures h == ""
  {
    assert ("" + (t + s))[22] == t[22] && (h + (tw + ""))[22] == tw[22-|h|];
    TokenShape(t, 22);
    TokenShape(tw, 22 - |h|);
  }

  // ------------------------------------------------------------ the equivalence

  lemma NextIsApart(order: seq<string>, token: string -> string, i: nat, x: string)
    requires Tokens(token) && Descending(order) && Works(order, token)
    requires i < |order| && order[i] != "" && ApartSoFar(order, token, i) && x in order
    ensures Apart(order[i], token(x))
  {
    var w, t := order[i], token(x);
    WorksOutsideTokens(order, token, x, w);
    NoTokenInside(order, token, i, x);
    forall k | 0 < k < |w| ensures !(w[k..] <= t) { NoRunInto(order, token, i, x, k); }
    forall k | 0 < k < |w| && k <= |t| ensures w[..k] != t[|t|-k..] { NoRunOut(order, token, i, x, k); }
  }

  lemma {:induction false} AllSoFar(order: seq<string>, token: string -> string, i: nat)
    requires Tokens(token) && Descending(order) && Works(order, token) && i <= |order|
    ensures ApartSoFar(order, token, i)
  {
    if i > 0 {
      AllSoFar(order, token, i - 1);
      assert order[..i] == order[..i-1] + [order[i-1]];
      forall x | x in order && order[i-1] != "" ensures Apart(order[i-1], token(x)) {
        NextIsApart(order, token, i - 1, x);
      }
    }
  }

  /** The whole longest-first scrub, for any number of values: every text comes out clean and every token is kept
      in every context, exactly when all values are apart from all tokens. */
  lemma WholeScrubIsExact(order: seq<string>, token: string -> string)
    requires Tokens(token) && Descending(order)
    ensures Works(order, token) <==> AllApart(order, token)
  {
    if Works(order, token) {
      AllSoFar(order, token, |order|);
      assert order[..|order|] == order;
    }
    if AllApart(order, token) {
      forall text ensures CleanOf(ScrubAll(text, order, token), order) { ScrubIsClean(text, order, token); }
      forall x | x in order ensures Kept(order, token, x) { ApartIsKept(order, token, x); }
    }
  }

  lemma ApartIsKept(order: seq<string>, token: string -> string, x: string)
    requires AllApart(order, token) && x in order
    ensures Kept(order, token, x)
  {
    forall a, b
      ensures ScrubAll(a + (token(x) + b), order, token) ==
              ScrubAll(a, order, token) + (token(x) + ScrubAll(b, order, token))
    {
      ScrubKeepsToken(a, x, b, order, token);
    }
  }
}
