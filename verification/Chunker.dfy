/** Splitting a policy section into chunks of bounded size: cut the paragraphs that are too long, then pack
    greedily under what the header leaves of the limit. */
module Chunker {
  import opened Wrappers
  import opened Splitting
  import opened Text

  const CHUNK_MAX_WORDS: nat := 180

  datatype Chunk = Chunk(
    pattern: string, section: string, text: string,
    sourceFile: string, documentType: string, wordCount: nat)

  /** `range()` with a zero step raises ValueError. */
  datatype ChunkError = ZeroStep

  /** What identifies a section; `body` has been stripped by the caller. */
  datatype Section = Section(pattern: string, name: string, body: string, sourceFile: string, documentType: string)

  function Header(s: Section): string {
    "Fraud Pattern: " + s.pattern + "\n\n" + "## " + s.name + "\n"
  }

  function Overhead(s: Section): nat { |Words(Header(s))| }

  function Budget(s: Section): int { CHUNK_MAX_WORDS - Overhead(s) }

  function Weight(piece: string): nat { |Words(piece)| }

  // ------------------------------------------------------------ paragraphs

  /** `[p.strip() for p in pieces if p.strip()]` */
  function Stripped(pieces: seq<string>): seq<string> {
    if pieces == [] then []
    else
      var p := Strip(pieces[|pieces|-1]);
      Stripped(pieces[..|pieces|-1]) + if p == "" then [] else [p]
  }

  function Paragraphs(body: string): seq<string> { Stripped(SplitOn(body, "\n\n")) }

  /** A run of words cut into texts of `budget` words, the last one possibly shorter. */
  function Cut(words: seq<string>, budget: nat): seq<string>
    requires budget > 0
  {
    if words == [] then []
    else
      var n := if |words| < budget then |words| else budget;
      [Join(words[..n], " ")] + Cut(words[n..], budget)
  }

  /** One paragraph made to fit: kept, cut, lost to an empty range, or refused by a zero step. */
  function FitOne(para: string, budget: int): Result<seq<string>, ChunkError> {
    if Weight(para) <= budget then Ok([para])
    else if budget == 0 then Err(ZeroStep)
    else if budget < 0 then Ok([])
    else Ok(Cut(Words(para), budget))
  }

  function Fit(paragraphs: seq<string>, budget: int): Result<seq<string>, ChunkError> {
    if paragraphs == [] then Ok([])
    else
      var before := Fit(paragraphs[..|paragraphs|-1], budget);
      if before.Err? then before
      else
        var one := FitOne(paragraphs[|paragraphs|-1], budget);
        if one.Err? then one else Ok(before.value + one.value)
  }

  method SplitOversizedParagraphs(paragraphs: seq<string>, budget: int)
      returns (out: Result<seq<string>, ChunkError>)
    ensures out == Fit(paragraphs, budget)
  {
    var pieces: seq<string> := [];
    for k := 0 to |paragraphs|
      invariant Fit(paragraphs[..k], budget) == Ok(pieces)
    {
      var para := paragraphs[k];
      FitStep(paragraphs, k, budget);
      var words := Words(para);
      if |words| <= budget {
        pieces := pieces + [para];
      } else if budget == 0 {
        ErrorSpreads(paragraphs, k + 1, budget);
        return Err(ZeroStep);
      } else if budget > 0 {
        var i, cut := 0, [];
        while i < |words|
          invariant 0 <= i <= |words|
          invariant cut + Cut(words[i..], budget) == Cut(words, budget)
        {
          var stop := if i + budget < |words| then i + budget else |words|;
          CutStep(words, i, stop, budget, cut);
          cut := cut + [Join(words[i..stop], " ")];
          i := stop;
        }
        assert words[|words|..] == [] && cut + [] == cut;
        pieces := pieces + cut;
      } else {
        assert pieces + [] == pieces;
      }
    }
    assert paragraphs[..|paragraphs|] == paragraphs;
    return Ok(pieces);
  }

  lemma FitStep(paragraphs: seq<string>, k: nat, budget: int)
    requires k < |paragraphs|
    ensures Fit(paragraphs[..k+1], budget) ==
            var before := Fit(paragraphs[..k], budget);
            if before.Err? then before
            else
              var one := FitOne(paragraphs[k], budget);
              if one.Err? then one else Ok(before.value + one.value)
  {
    assert paragraphs[..k+1][..k] == paragraphs[..k];
  }

  lemma {:induction false} ErrorSpreads(paragraphs: seq<string>, k: nat, budget: int)
    requires k <= |paragraphs| && Fit(paragraphs[..k], budget).Err?
    ensures Fit(paragraphs, budget) == Err(ZeroStep)
    decreases |paragraphs| - k
  {
    if k == |paragraphs| {
      assert paragraphs[..k] == paragraphs;
      assert Fit(paragraphs, budget).error == ZeroStep;
    } else {
      FitStep(paragraphs, k, budget);
      ErrorSpreads(paragraphs, k + 1, budget);
    }
  }

  lemma CutStep(words: seq<string>, i: nat, stop: nat, budget: nat, cut: seq<string>)
    requires budget > 0 && i < |words| && stop == if i + budget < |words| then i + budget else |words|
    ensures cut + Cut(words[i..], budget) == (cut + [Join(words[i..stop], " ")]) + Cut(words[stop..], budget)
  {
    var rest := words[i..];
    assert rest[..stop-i] == words[i..stop] && rest[stop-i..] == words[stop..];
    Regroup(cut, [Join(words[i..stop], " ")], Cut(words[stop..], budget));
  }

  // ------------------------------------------------------------ greedy packing

  function GroupWeight(group: seq<string>): nat {
    if group == [] then 0 else GroupWeight(group[..|group|-1]) + Weight(group[|group|-1])
  }

  /** A piece goes into the last group while that stays within the budget. */
  function Add(groups: seq<seq<string>>, p: string, budget: int): (r: seq<seq<string>>)
    ensures r != []
  {
    if groups == [] || GroupWeight(groups[|groups|-1]) + Weight(p) > budget then groups + [[p]]
    else groups[..|groups|-1] + [groups[|groups|-1] + [p]]
  }

  function Pack(pieces: seq<string>, budget: int): seq<seq<string>> {
    if pieces == [] then [] else Add(Pack(pieces[..|pieces|-1], budget), pieces[|pieces|-1], budget)
  }

  function Finalize(s: Section, group: seq<string>): Chunk {
    var text := Header(s) + Join(group, "\n\n");
    Chunk(s.pattern, s.name, text, s.sourceFile, s.documentType, |Words(text)|)
  }

  function FinalizeAll(s: Section, groups: seq<seq<string>>): seq<Chunk> {
    seq(|groups|, i requires 0 <= i < |groups| => Finalize(s, groups[i]))
  }

  function Chunks(s: Section): Result<seq<Chunk>, ChunkError> {
    var whole := Header(s) + s.body;
    if |Words(whole)| <= CHUNK_MAX_WORDS then
      Ok([Chunk(s.pattern, s.name, whole, s.sourceFile, s.documentType, |Words(whole)|)])
    else
      var pieces := Fit(Paragraphs(s.body), Budget(s));
      if pieces.Err? then Err(pieces.error) else Ok(FinalizeAll(s, Pack(pieces.value, Budget(s))))
  }

  method BuildChunksForSection(s: Section) returns (r: Result<seq<Chunk>, ChunkError>)
    ensures r == Chunks(s)
  {
    var whole := Header(s) + s.body;
    var wordCount := |Words(whole)|;
    if wordCount <= CHUNK_MAX_WORDS {
      return Ok([Chunk(s.pattern, s.name, whole, s.sourceFile, s.documentType, wordCount)]);
    }
    var budget := CHUNK_MAX_WORDS - |Words(Header(s))|;
    var fitted := SplitOversizedParagraphs(Paragraphs(s.body), budget);
    if fitted.Err? {
      return Err(fitted.error);
    }
    var subChunks := PackParagraphs(s, fitted.value, budget);
    return Ok(subChunks);
  }

  /** The packing loop of the same function. */
  method PackParagraphs(s: Section, pieces: seq<string>, budget: int) returns (subChunks: seq<Chunk>)
    ensures subChunks == FinalizeAll(s, Pack(pieces, budget))
  {
    subChunks := [];
    var currentGroup: seq<string> := [];
    var currentWords := 0;
    ghost var closed: seq<seq<string>> := [];
    for k := 0 to |pieces|
      invariant Packing(s, pieces[..k], budget, closed, currentGroup, currentWords, subChunks)
    {
      var para := pieces[k];
      var paraWords := |Words(para)|;
      PackingStep(s, pieces, k, budget, closed, currentGroup, currentWords, subChunks);
      if currentWords + paraWords > budget && currentGroup != [] {
        subChunks := subChunks + [Finalize(s, currentGroup)];
        closed := closed + [currentGroup];
        currentGroup, currentWords := [], 0;
      }
      currentGroup := currentGroup + [para];
      currentWords := currentWords + paraWords;
    }
    assert pieces[..|pieces|] == pieces;
    FinalizeOneMore(s, closed, currentGroup);
    if currentGroup != [] {
      subChunks := subChunks + [Finalize(s, currentGroup)];
    }
  }

  /** The closed groups and the open one, if it has begun. */
  function Open(closed: seq<seq<string>>, current: seq<string>): seq<seq<string>> {
    if current == [] then closed else closed + [current]
  }

  lemma GroupOneMore(group: seq<string>, p: string)
    ensures GroupWeight(group + [p]) == GroupWeight(group) + Weight(p)
  {
    assert (group + [p])[..|group|] == group;
  }

  lemma FinalizeOneMore(s: Section, groups: seq<seq<string>>, group: seq<string>)
    ensures FinalizeAll(s, groups + [group]) == FinalizeAll(s, groups) + [Finalize(s, group)]
  {
  }

  /** The state of the packing loop after the pieces `done`. */
  ghost predicate Packing(
    s: Section, done: seq<string>, budget: int,
    closed: seq<seq<string>>, current: seq<string>, words: int, chunks: seq<Chunk>)
  {
    Open(closed, current) == Pack(done, budget) && words == GroupWeight(current) &&
    (current == [] ==> closed == []) && chunks == FinalizeAll(s, closed)
  }

  lemma PackingStep(
    s: Section, pieces: seq<string>, k: nat, budget: int,
    closed: seq<seq<string>>, current: seq<string>, words: int, chunks: seq<Chunk>)
    requires k < |pieces| && Packing(s, pieces[..k], budget, closed, current, words, chunks)
    ensures if words + Weight(pieces[k]) > budget && current != []
            then Packing(s, pieces[..k+1], budget, closed + [current], [] + [pieces[k]], Weight(pieces[k]),
                         chunks + [Finalize(s, current)])
            else Packing(s, pieces[..k+1], budget, closed, current + [pieces[k]], words + Weight(pieces[k]), chunks)
  {
    PackStep(pieces, k, budget, closed, current);
    FinalizeOneMore(s, closed, current);
    GroupOneMore(current, pieces[k]);
    GroupOneMore([], pieces[k]);
    assert [] + [pieces[k]] == [pieces[k]];
  }

  lemma PackStep(pieces: seq<string>, k: nat, budget: int, closed: seq<seq<string>>, current: seq<string>)
    requires k < |pieces| && Open(closed, current) == Pack(pieces[..k], budget)
    requires current == [] ==> closed == []
    ensures Pack(pieces[..k+1], budget) ==
            if current == [] || GroupWeight(current) + Weight(pieces[k]) <= budget
            then closed + [current + [pieces[k]]]
            else closed + [current] + [[pieces[k]]]
  {
    assert pieces[..k+1][..k] == pieces[..k];
    var groups := Open(closed, current);
    if current == [] {
      assert current + [pieces[k]] == [pieces[k]];
    } else {
      assert groups[|groups|-1] == current && groups[..|groups|-1] == closed;
    }
  }

  // ------------------------------------------------------------ the pieces

  lemma {:induction false} StrippedWords(pieces: seq<string>)
    ensures AllWords(Stripped(pieces)) == AllWords(pieces)
  {
    if pieces != [] {
      var init, p := pieces[..|pieces|-1], Strip(pieces[|pieces|-1]);
      StrippedWords(init);
      WordsStrip(pieces[|pieces|-1]);
      OneParagraph(Stripped(init), p);
    }
  }

  lemma OneParagraph(before: seq<string>, p: string)
    ensures AllWords(before + if p == "" then [] else [p]) == AllWords(before) + Words(p)
  {
    if p == "" {
      assert before + [] == before;
    } else {
      AllWordsConcat(before, [p]);
      AllWordsOne(p);
    }
  }

  lemma ParagraphWords(body: string)
    ensures AllWords(Paragraphs(body)) == Words(body)
  {
    var glue := "\n\n";
    StrippedWords(SplitOn(body, glue));
    SplitThenJoin(body, glue);
    assert Blank(glue);
    WordsOfJoin(SplitOn(body, glue), glue);
  }

  lemma WordsOfSpaced(words: seq<string>)
    requires forall w | w in words :: IsWord(w)
    ensures Words(Join(words, " ")) == words
  {
    assert Blank(" ");
    WordsOfJoin(words, " ");
    AllWordsOfWords(words);
  }

  ghost predicate Light(pieces: seq<string>, budget: int) { forall p | p in pieces :: Weight(p) <= budget }

  ghost predicate Proper(words: seq<string>) { forall w | w in words :: IsWord(w) }

  lemma LightFront(p: string, rest: seq<string>, budget: int)
    requires Weight(p) <= budget && Light(rest, budget)
    ensures Light([p] + rest, budget)
  {
  }

  lemma CutFirst(words: seq<string>, budget: nat, n: nat)
    requires budget > 0 && Proper(words) && words != []
    requires n == if |words| < budget then |words| else budget
    ensures var piece := Join(words[..n], " ");
            Cut(words, budget) == [piece] + Cut(words[n..], budget) && Words(piece) == words[..n]
    ensures Proper(words[n..])
  {
    PieceWords(words, n);
  }

  lemma {:induction false} CutKeepsWords(words: seq<string>, budget: nat)
    requires budget > 0 && Proper(words)
    ensures AllWords(Cut(words, budget)) == words
    ensures Light(Cut(words, budget), budget)
  {
    if words != [] {
      var n := if |words| < budget then |words| else budget;
      var piece := Join(words[..n], " ");
      CutFirst(words, budget, n);
      CutKeepsWords(words[n..], budget);
      LightFront(piece, Cut(words[n..], budget), budget);
      OnePiece(piece, words[..n], Cut(words[n..], budget), words[n..]);
      Halves(words, n);
    }
  }

  lemma Halves(words: seq<string>, n: nat)
    requires n <= |words|
    ensures words[..n] + words[n..] == words
  {
  }

  lemma PieceWords(words: seq<string>, n: nat)
    requires n <= |words| && Proper(words)
    ensures Words(Join(words[..n], " ")) == words[..n]
  {
    WordsOfSpaced(words[..n]);
  }

  lemma OnePiece(piece: string, front: seq<string>, rest: seq<string>, back: seq<string>)
    requires Words(piece) == front && AllWords(rest) == back
    ensures AllWords([piece] + rest) == front + back
  {
    AllWordsConcat([piece], rest);
    AllWordsOne(piece);
  }

  lemma {:induction false} FitIsExact(paragraphs: seq<string>, budget: int)
    ensures var r := Fit(paragraphs, budget);
            (r.Err? <==> budget == 0 && AllWords(paragraphs) != []) &&
            (r.Ok? ==> (forall p | p in r.value :: Weight(p) <= budget) &&
                       (budget >= 0 ==> AllWords(r.value) == AllWords(paragraphs)) &&
                       (budget < 0 ==> r.value == []))
  {
    if paragraphs != [] {
      var init, para := paragraphs[..|paragraphs|-1], paragraphs[|paragraphs|-1];
      FitIsExact(init, budget);
      FitOneIsExact(para, budget);
      var before, one := Fit(init, budget), FitOne(para, budget);
      if before.Ok? && one.Ok? {
        AllWordsConcat(before.value, one.value);
      }
    }
  }

  lemma FitOneIsExact(para: string, budget: int)
    ensures var r := FitOne(para, budget);
            (r.Err? <==> budget == 0 && Words(para) != []) &&
            (r.Ok? ==> (forall p | p in r.value :: Weight(p) <= budget) &&
                       (budget >= 0 ==> AllWords(r.value) == Words(para)) &&
                       (budget < 0 ==> r.value == []))
  {
    AllWordsOne(para);
    if budget > 0 { CutKeepsWords(Words(para), budget); }
  }

  /** Only the last piece of a cut paragraph may be short. */
  lemma {:induction false} CutIsFull(words: seq<string>, budget: nat, i: nat)
    requires budget > 0 && Proper(words) && i + 1 < |Cut(words, budget)|
    ensures Weight(Cut(words, budget)[i]) == budget
  {
    var n := if |words| < budget then |words| else budget;
    CutFirst(words, budget, n);
    if i > 0 { CutIsFull(words[n..], budget, i - 1); }
  }

  /** A paragraph that fits the budget passes through untouched. */
  lemma {:induction false} FittingParagraphIsKept(paragraphs: seq<string>, budget: int, para: string)
    requires para in paragraphs && Weight(para) <= budget && Fit(paragraphs, budget).Ok?
    ensures para in Fit(paragraphs, budget).value
  {
    var init, last := paragraphs[..|paragraphs|-1], paragraphs[|paragraphs|-1];
    assert paragraphs == init + [last];
    if para in init {
      FittingParagraphIsKept(init, budget, para);
    }
  }

  // ------------------------------------------------------------ the groups

  function Flatten(groups: seq<seq<string>>): seq<string> {
    if groups == [] then [] else Flatten(groups[..|groups|-1]) + groups[|groups|-1]
  }

  lemma FlattenOneMore(groups: seq<seq<string>>, group: seq<string>)
    ensures Flatten(groups + [group]) == Flatten(groups) + group
  {
    assert (groups + [group])[..|groups|] == groups;
  }

  /** Packing keeps the pieces in order, and no group passes the budget when no piece does. */
  lemma {:induction false} PackKeeps(pieces: seq<string>, budget: int)
    requires forall p | p in pieces :: Weight(p) <= budget
    ensures Flatten(Pack(pieces, budget)) == pieces
    ensures forall g | g in Pack(pieces, budget) :: GroupWeight(g) <= budget
  {
    if pieces != [] {
      var init, p := pieces[..|pieces|-1], pieces[|pieces|-1];
      assert pieces == init + [p];
      PackKeeps(init, budget);
      var groups := Pack(init, budget);
      GroupOneMore([], p);
      assert [] + [p] == [p];
      if groups == [] || GroupWeight(groups[|groups|-1]) + Weight(p) > budget {
        FlattenOneMore(groups, [p]);
      } else {
        var front, last := groups[..|groups|-1], groups[|groups|-1];
        FlattenOneMore(front, last + [p]);
        GroupOneMore(last, p);
        Regroup(Flatten(front), last, [p]);
      }
    }
  }

  lemma PackOneMore(done: seq<string>, p: string, budget: int)
    ensures Pack(done + [p], budget) == Add(Pack(done, budget), p, budget)
  {
    assert (done + [p])[..|done|] == done;
  }

  /** At most one group beyond the first `n`, holding at most `w` words. */
  predicate OneBeyond(groups: seq<seq<string>>, n: nat, w: nat) {
    |groups| <= n + 1 && (|groups| == n + 1 ==> GroupWeight(groups[n]) <= w)
  }

  lemma AddGrows(groups: seq<seq<string>>, p: string, budget: int, n: nat, w: nat)
    requires OneBeyond(groups, n, w) && w + Weight(p) <= budget
    ensures OneBeyond(Add(groups, p, budget), n, w + Weight(p))
  {
    GroupOneMore([], p);
    assert [] + [p] == [p];
    if groups != [] { GroupOneMore(groups[|groups|-1], p); }
  }

  /** Adding the pieces of one more allowed group opens at most one group, and that one holds no more. */
  lemma {:induction false} OneGroupMore(before: seq<string>, group: seq<string>, budget: int)
    requires GroupWeight(group) <= budget
    ensures OneBeyond(Pack(before + group, budget), |Pack(before, budget)|, GroupWeight(group))
  {
    if group == [] {
      assert before + group == before;
    } else {
      var init, p := group[..|group|-1], group[|group|-1];
      OneGroupMore(before, init, budget);
      assert before + group == (before + init) + [p];
      PackOneMore(before + init, p, budget);
      AddGrows(Pack(before + init, budget), p, budget, |Pack(before, budget)|, GroupWeight(init));
    }
  }

  /** No way of grouping the same pieces in order within the budget has fewer groups. */
  lemma {:induction false} PackIsOptimal(groups: seq<seq<string>>, budget: int)
    requires forall g | g in groups :: GroupWeight(g) <= budget
    ensures |Pack(Flatten(groups), budget)| <= |groups|
  {
    if groups != [] {
      var init, last := groups[..|groups|-1], groups[|groups|-1];
      assert groups == init + [last] && last in groups;
      assert forall g | g in init :: g in groups;
      PackIsOptimal(init, budget);
      OneGroupMore(Flatten(init), last, budget);
    }
  }

  // ------------------------------------------------------------ the chunks

  lemma {:induction false} GroupWeightIsWords(group: seq<string>)
    ensures GroupWeight(group) == |AllWords(group)|
  {
    if group != [] { GroupWeightIsWords(group[..|group|-1]); }
  }

  lemma HeaderSeam(s: Section, body: string)
    ensures Words(Header(s) + body) == Words(Header(s)) + Words(body)
  {
    var h := Header(s);
    assert h[|h|-1] == '\n';
    WordsConcat(h, body);
  }

  /** The words of a chunk that are not its header's. */
  function Body(s: Section, c: Chunk): seq<string> {
    if Overhead(s) <= |Words(c.text)| then Words(c.text)[Overhead(s)..] else []
  }

  function BodyWords(s: Section, chunks: seq<Chunk>): seq<string> {
    if chunks == [] then [] else BodyWords(s, chunks[..|chunks|-1]) + Body(s, chunks[|chunks|-1])
  }

  lemma FinalizedWords(s: Section, group: seq<string>)
    ensures Words(Finalize(s, group).text) == Words(Header(s)) + AllWords(group)
    ensures Body(s, Finalize(s, group)) == AllWords(group)
  {
    var glue := "\n\n";
    assert Blank(glue);
    WordsOfJoin(group, glue);
    HeaderSeam(s, Join(group, glue));
  }

  lemma {:induction false} BodiesOfGroups(s: Section, groups: seq<seq<string>>)
    ensures BodyWords(s, FinalizeAll(s, groups)) == AllWords(Flatten(groups))
  {
    if groups != [] {
      var init, last := groups[..|groups|-1], groups[|groups|-1];
      var chunks := FinalizeAll(s, groups);
      assert groups == init + [last];
      FinalizeOneMore(s, init, last);
      assert chunks[..|chunks|-1] == FinalizeAll(s, init);
      BodiesOfGroups(s, init);
      FinalizedWords(s, last);
      AllWordsConcat(Flatten(init), last);
    }
  }

  ghost predicate Bounded(s: Section, c: Chunk) {
    Header(s) <= c.text && c.wordCount == |Words(c.text)| <= CHUNK_MAX_WORDS
  }

  lemma GroupIsBounded(s: Section, group: seq<string>)
    requires GroupWeight(group) <= Budget(s)
    ensures Bounded(s, Finalize(s, group))
  {
    FinalizedWords(s, group);
    GroupWeightIsWords(group);
  }

  /** Every chunk of every section is within the limit, header included, and counts its own words. */
  lemma ChunksAreBounded(s: Section, c: Chunk)
    requires Chunks(s).Ok? && c in Chunks(s).value
    ensures Bounded(s, c)
  {
    var whole := Header(s) + s.body;
    if |Words(whole)| > CHUNK_MAX_WORDS {
      var pieces := Fit(Paragraphs(s.body), Budget(s)).value;
      FitIsExact(Paragraphs(s.body), Budget(s));
      PackKeeps(pieces, Budget(s));
      var groups := Pack(pieces, Budget(s));
      var i :| 0 <= i < |groups| && c == FinalizeAll(s, groups)[i];
      assert groups[i] in groups;
      GroupIsBounded(s, groups[i]);
    }
  }

  lemma SplitSectionWords(s: Section)
    requires |Words(Header(s) + s.body)| > CHUNK_MAX_WORDS
    ensures Chunks(s).Err? <==> Budget(s) == 0 && Words(s.body) != []
    ensures Chunks(s).Ok? && Budget(s) >= 0 ==> BodyWords(s, Chunks(s).value) == Words(s.body)
    ensures Chunks(s).Ok? && Budget(s) < 0 ==> Chunks(s).value == []
  {
    var fitted := Fit(Paragraphs(s.body), Budget(s));
    ParagraphWords(s.body);
    FitIsExact(Paragraphs(s.body), Budget(s));
    if fitted.Ok? {
      PackKeeps(fitted.value, Budget(s));
      BodiesOfGroups(s, Pack(fitted.value, Budget(s)));
    }
  }

  /** The bodies of the chunks are the words of the section, in order, exactly when the header leaves room,
      the section fits as it is, or there is nothing to keep; the split fails exactly when the header alone
      fills the limit. */
  lemma WordsAreKept(s: Section)
    ensures Chunks(s).Ok? && BodyWords(s, Chunks(s).value) == Words(s.body)
            <==> Overhead(s) < CHUNK_MAX_WORDS || Overhead(s) + Weight(s.body) <= CHUNK_MAX_WORDS || Words(s.body) == []
    ensures Chunks(s).Err? <==> Overhead(s) == CHUNK_MAX_WORDS && Words(s.body) != []
  {
    HeaderSeam(s, s.body);
    if |Words(Header(s) + s.body)| <= CHUNK_MAX_WORDS {
      var chunks := Chunks(s).value;
      assert chunks[..0] == [];
      assert BodyWords(s, chunks) == Body(s, chunks[0]) == Words(s.body);
    } else {
      SplitSectionWords(s);
    }
  }

  lemma TwoWords(rest: string)
    ensures |Words("Fraud Pattern: " + rest)| == 2 + Weight(rest)
  {
    var a, b := "Fraud", "Pattern:";
    assert IsWord(a) && IsWord(b) && Blank(" ");
    assert "Fraud Pattern: " + rest == a + (" " + (b + (" " + rest)));
    WordsOfWord(a, " " + (b + (" " + rest)));
    WordsSkipBlank(" ", b + (" " + rest));
    WordsOfWord(b, " " + rest);
    WordsSkipBlank(" ", rest);
  }

  lemma OneWord(rest: string)
    ensures |Words("\n\n" + ("## " + rest))| == 1 + Weight(rest)
  {
    assert IsWord("##") && Blank("\n\n") && Blank(" ");
    assert "## " + rest == "##" + (" " + rest);
    WordsSkipBlank("\n\n", "## " + rest);
    WordsOfWord("##", " " + rest);
    WordsSkipBlank(" ", rest);
  }

  lemma HeaderParts(s: Section)
    ensures Header(s) == "Fraud Pattern: " + (s.pattern + ("\n\n" + ("## " + (s.name + "\n"))))
  {
  }

  lemma NameLine(name: string)
    ensures Weight(name + "\n") == Weight(name)
  {
    assert Blank("\n") && "\n" + "" == "\n";
    WordsConcat(name, "\n");
    WordsSkipBlank("\n", "");
  }

  lemma BeforeBreak(a: string, b: string)
    ensures Weight(a + ("\n\n" + b)) == Weight(a) + Weight("\n\n" + b)
  {
    WordsConcat(a, "\n\n" + b);
  }

  /** A header costs three words besides its pattern and its section name. */
  lemma OverheadIs(s: Section)
    ensures Overhead(s) == 3 + Weight(s.pattern) + Weight(s.name)
  {
    var tail := s.name + "\n";
    HeaderParts(s);
    TwoWords(s.pattern + ("\n\n" + ("## " + tail)));
    BeforeBreak(s.pattern, "## " + tail);
    OneWord(tail);
    NameLine(s.name);
  }

  /** A name of `n` words. */
  function LongName(n: nat): string { Join(seq(n, i => "w"), " ") }

  lemma LongNameWeight(n: nat)
    ensures Weight(LongName(n)) == n
  {
    assert IsWord("w");
    WordsOfSpaced(seq(n, i => "w"));
  }

  function Named(pattern: string, n: nat, body: string): Section {
    Section(pattern, LongName(n), body, "policy.md", "POLICY")
  }

  lemma OneWordText(w: string)
    requires IsWord(w)
    ensures Words(w) == [w]
  {
    assert w + "" == w;
    WordsOfWord(w, "");
  }

  lemma NamedOverhead(pattern: string, n: nat, body: string)
    requires IsWord(pattern)
    ensures Overhead(Named(pattern, n, body)) == 4 + n
  {
    OverheadIs(Named(pattern, n, body));
    OneWordText(pattern);
    LongNameWeight(n);
  }

  lemma LongNameLosesBody(pattern: string, body: string)
    requires IsWord(pattern) && IsWord(body)
    ensures Chunks(Named(pattern, 177, body)) == Ok([])
    ensures Chunks(Named(pattern, 176, body)) == Err(ZeroStep)
  {
    NamedOverhead(pattern, 177, body);
    NamedOverhead(pattern, 176, body);
    OneWordText(body);
    HeaderSeam(Named(pattern, 177, body), body);
    SplitSectionWords(Named(pattern, 177, body));
    WordsAreKept(Named(pattern, 176, body));
    WordsAreKept(Named(pattern, 177, body));
    assert Chunks(Named(pattern, 176, body)).error == ZeroStep;
  }

  /** Under the pattern GEO_JUMP, a section name of 177 words leaves its section without any chunk, and one of 176
      words raises. */
  lemma LongHeaderLosesBody()
    ensures Chunks(Named("GEO_JUMP", 177, "body")) == Ok([])
    ensures Chunks(Named("GEO_JUMP", 176, "body")) == Err(ZeroStep)
  {
    LongNameLosesBody("GEO_JUMP", "body");
  }

  /** No order-preserving grouping of the same pieces within the budget gives fewer chunks. */
  lemma ChunksAreFewest(s: Section, groups: seq<seq<string>>)
    requires |Words(Header(s) + s.body)| > CHUNK_MAX_WORDS && Chunks(s).Ok?
    requires Fit(Paragraphs(s.body), Budget(s)) == Ok(Flatten(groups))
    requires forall g | g in groups :: Bounded(s, Finalize(s, g))
    ensures |Chunks(s).value| <= |groups|
  {
    forall g | g in groups ensures GroupWeight(g) <= Budget(s) {
      FinalizedWords(s, g);
      GroupWeightIsWords(g);
    }
    PackIsOptimal(groups, Budget(s));
  }

  // ------------------------------------------------------------ what a chunk holds

  predicate Labelled(s: Section, c: Chunk) {
    c.pattern == s.pattern && c.section == s.name && c.sourceFile == s.sourceFile && c.documentType == s.documentType &&
    c.wordCount == |Words(c.text)|
  }

  function Heading(s: Section): string { "Fraud Pattern: " + s.pattern + "\n\n## " + s.name + "\n" }

  lemma HeadingIsHeader(s: Section)
    ensures Heading(s) == Header(s)
  {
    assert "\n\n" + "## " == "\n\n## ";
    HeaderAssoc("Fraud Pattern: " + s.pattern, "\n\n", "## ", s.name + "\n");
  }

  lemma HeaderAssoc(a: string, b: string, c: string, d: string)
    ensures a + (b + c) + d == a + b + c + d
  {
  }

  lemma {:induction false} GroupsAreFilled(pieces: seq<string>, budget: int)
    ensures forall g | g in Pack(pieces, budget) :: g != []
  {
    if pieces != [] {
      var init, p := pieces[..|pieces|-1], pieces[|pieces|-1];
      GroupsAreFilled(init, budget);
      AddIsFilled(Pack(init, budget), p, budget);
    }
  }

  lemma AddIsFilled(groups: seq<seq<string>>, p: string, budget: int)
    requires forall g | g in groups :: g != []
    ensures forall g | g in Add(groups, p, budget) :: g != []
  {
    forall g | g in Add(groups, p, budget) ensures g != [] {
      if g in groups { assert g != []; } else { assert p in g; }
    }
  }

  /** One chunk for each group, holding the heading and the group's pieces with a blank line between them. */
  ghost predicate Holds(s: Section, chunks: seq<Chunk>, groups: seq<seq<string>>) {
    |chunks| == |groups| &&
    forall i | 0 <= i < |chunks| :: groups[i] != [] && chunks[i].text == Heading(s) + Join(groups[i], "\n\n")
  }

  lemma FinalizedHold(s: Section, groups: seq<seq<string>>)
    requires forall g | g in groups :: g != []
    ensures Holds(s, FinalizeAll(s, groups), groups) && forall c | c in FinalizeAll(s, groups) :: Labelled(s, c)
  {
    HeadingIsHeader(s);
    forall i | 0 <= i < |groups| ensures groups[i] != [] && FinalizeAll(s, groups)[i].text == Heading(s) + Join(groups[i], "\n\n") {
      assert groups[i] in groups;
    }
  }

  ghost predicate HeldInGroups(s: Section, chunks: seq<Chunk>) {
    exists groups :: Holds(s, chunks, groups) && Fit(Paragraphs(s.body), Budget(s)) == Ok(Flatten(groups))
  }

  lemma SplitHolds(s: Section)
    requires Chunks(s).Ok? && |Words(Header(s) + s.body)| > CHUNK_MAX_WORDS
    ensures HeldInGroups(s, Chunks(s).value) && forall c | c in Chunks(s).value :: Labelled(s, c)
  {
    var pieces := Fit(Paragraphs(s.body), Budget(s)).value;
    var groups := Pack(pieces, Budget(s));
    FitIsExact(Paragraphs(s.body), Budget(s));
    PackKeeps(pieces, Budget(s));
    GroupsAreFilled(pieces, Budget(s));
    FinalizedHold(s, groups);
  }

  /** Every chunk carries the labels of its section. A section that fits is one chunk, as it stands under its heading;
      any other is its pieces in order, in groups with a blank line between pieces, each under the heading. */
  lemma ChunksHold(s: Section)
    requires Chunks(s).Ok?
    ensures forall c | c in Chunks(s).value :: Labelled(s, c)
    ensures if |Words(Heading(s) + s.body)| <= CHUNK_MAX_WORDS then
              |Chunks(s).value| == 1 && Chunks(s).value[0].text == Heading(s) + s.body
            else HeldInGroups(s, Chunks(s).value)
  {
    HeadingIsHeader(s);
    if |Words(Header(s) + s.body)| > CHUNK_MAX_WORDS { SplitHolds(s); }
  }

  lemma {:induction false} StripEndIsTrimmed(t: string)
    ensures var p := StripEnd(t); p <= t && (p != "" ==> !IsSpace(p[|p|-1]))
  {
    if t != "" && IsSpace(t[|t|-1]) { StripEndIsTrimmed(t[..|t|-1]); }
  }

  lemma StripIsTrimmed(t: string)
    ensures var p := Strip(t); p != "" ==> !IsSpace(p[0]) && !IsSpace(p[|p|-1])
  {
    StripEndIsTrimmed(SkipSpace(t));
  }

  /** Paragraphs are not empty, and have no white space around them. */
  lemma {:induction false} ParagraphsAreTrimmed(pieces: seq<string>)
    ensures forall p | p in Stripped(pieces) :: p != "" && !IsSpace(p[0]) && !IsSpace(p[|p|-1])
  {
    if pieces != [] {
      ParagraphsAreTrimmed(pieces[..|pieces|-1]);
      StripIsTrimmed(pieces[|pieces|-1]);
    }
  }
}
