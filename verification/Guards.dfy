/** Which texts are guards and what they mean, stated as a grammar: a reference, an operator and a literal, with white
    space around them. The parser accepts exactly these. */
module Guards {
  import opened Wrappers
  import opened Text
  import opened Conditions
  import opened References

  predicate Blank(s: string) { All(s, IsSpace) }

  // ------------------------------------------------------------ literals

  predicate QuotedBy(lit: string, q: char) {
    |lit| >= 2 && lit[0] == q && lit[|lit|-1] == q && forall i | 0 < i < |lit| - 1 :: lit[i] != q
  }

  /** A text in single or double quotes that it does not contain, or one token. */
  predicate LiteralText(lit: string) { QuotedBy(lit, '\'') || QuotedBy(lit, '"') || (lit != "" && All(lit, NotSpace)) }

  predicate LiteralAt(text: string, before: string, lit: string, after: string) {
    text == before + (lit + after) && Blank(before) && LiteralText(lit) && Blank(after)
  }

  ghost predicate HoldsLiteral(text: string, lit: string) { exists before, after :: LiteralAt(text, before, lit, after) }

  lemma QuotedLenExactly(t: string, q: char, other: char -> bool)
    requires forall c :: other(c) <==> c != q
    ensures var n := QuotedLen(t, q, other); n > 0 ==> QuotedBy(t[..n], q) && Blank(t[n..])
  {
    var n := QuotedLen(t, q, other);
    if n > 0 {
      var k := Span(t[1..], other);
      assert t[1..][k] == t[k+1];
      forall i | 0 < i < n - 1 ensures t[..n][i] != q { assert t[..n][i] == t[1..][..k][i-1]; }
    }
  }

  lemma QuotedIsFound(lit: string, after: string, q: char, other: char -> bool)
    requires (forall c :: other(c) <==> c != q) && QuotedBy(lit, q) && Blank(after)
    ensures QuotedLen(lit + after, q, other) == |lit|
  {
    var inner := lit[1..|lit|-1];
    assert lit == [q] + inner + [q];
    forall i | 0 <= i < |inner| ensures other(inner[i]) { assert inner[i] == lit[i+1]; }
    QuotedLenOf(inner, after, q, other);
  }

  lemma TokenIsRun(lit: string, after: string)
    requires lit != "" && All(lit, NotSpace) && Blank(after)
    ensures Span(lit + after, NotSpace) == |lit|
  {
    SpanOfRun(lit, after, NotSpace);
  }

  lemma TokenChar(t: string, k: nat, i: nat)
    requires k <= |t| && i < |t| && All(t[..k], NotSpace) && Blank(t[k..])
    ensures IsSpace(t[i]) <==> i >= k
  {
    if i < k { assert t[i] == t[..k][i]; } else { assert t[i] == t[k..][i-k]; }
  }

  lemma BlankChar(t: string, n: nat, i: nat)
    requires n <= i < |t| && Blank(t[n..])
    ensures IsSpace(t[i])
  {
    assert t[i] == t[n..][i-n];
  }

  lemma QuoteChar(t: string, n: nat, q: char)
    requires n <= |t| && QuotedBy(t[..n], q)
    ensures t[n-1] == q
  {
    assert t[n-1] == t[..n][n-1];
  }

  /** A token that begins and ends as a quotation may be one, of the same text. */
  lemma SameLiteral(t: string, n: nat, q: char, k: nat)
    requires n <= |t| && k <= |t| && QuotedBy(t[..n], q) && Blank(t[n..]) && All(t[..k], NotSpace) && Blank(t[k..])
    requires !IsSpace(q)
    ensures n == k
  {
    QuoteChar(t, n, q);
    TokenChar(t, k, n - 1);
    if n < |t| {
      TokenChar(t, k, n);
      BlankChar(t, n, n);
    }
  }

  lemma TrimmedHolds(t: string)
    requires ParseTrimmed(t).Some?
    ensures LiteralAt(t, "", ParseTrimmed(t).value, t[|ParseTrimmed(t).value|..])
  {
    QuotedLenExactly(t, '\'', NotSingleQuote);
    QuotedLenExactly(t, '"', NotDoubleQuote);
    var lit := ParseTrimmed(t).value;
    assert t == "" + (lit + t[|lit|..]);
  }

  lemma QuotesAreNoSpace()
    ensures !IsSpace('\'') && !IsSpace('"')
  {
  }

  lemma TrimmedFinds(lit: string, after: string)
    requires LiteralText(lit) && Blank(after)
    ensures ParseTrimmed(lit + after) == Some(lit)
  {
    var t := lit + after;
    assert t[..|lit|] == lit && t[|lit|..] == after;
    QuotesAreNoSpace();
    if QuotedBy(lit, '\'') {
      QuotedIsFound(lit, after, '\'', NotSingleQuote);
    } else if QuotedBy(lit, '"') {
      QuotedIsFound(lit, after, '"', NotDoubleQuote);
      assert t[0] == '"';
    } else {
      TokenIsRun(lit, after);
      QuotedLenExactly(t, '\'', NotSingleQuote);
      QuotedLenExactly(t, '"', NotDoubleQuote);
      if QuotedLen(t, '\'', NotSingleQuote) > 0 { SameLiteral(t, QuotedLen(t, '\'', NotSingleQuote), '\'', |lit|); }
      if QuotedLen(t, '"', NotDoubleQuote) > 0 { SameLiteral(t, QuotedLen(t, '"', NotDoubleQuote), '"', |lit|); }
    }
  }

  lemma LiteralStarts(lit: string, after: string)
    requires LiteralText(lit)
    ensures lit != "" && !IsSpace(lit[0])
  {
    QuotesAreNoSpace();
  }

  /** A text is white space and what follows it. */
  lemma SpaceCut(t: string) returns (blank: string)
    ensures t == blank + SkipSpace(t) && Blank(blank) && (SkipSpace(t) != "" ==> !IsSpace(SkipSpace(t)[0]))
  {
    var n := Span(t, IsSpace);
    blank := t[..n];
    assert t == t[..n] + t[n..];
  }

  lemma FoundIsHeld(text: string, lit: string)
    requires ParseLiteral(text) == Some(lit)
    ensures HoldsLiteral(text, lit)
  {
    var blank := SpaceCut(text);
    var t := SkipSpace(text);
    TrimmedHolds(t);
    assert "" + (lit + t[|lit|..]) == lit + t[|lit|..];
    assert LiteralAt(text, blank, lit, t[|lit|..]);
  }

  lemma HeldIsFound(text: string, lit: string)
    requires HoldsLiteral(text, lit)
    ensures ParseLiteral(text) == Some(lit)
  {
    var before, after :| LiteralAt(text, before, lit, after);
    LiteralStarts(lit, after);
    assert (lit + after)[0] == lit[0];
    SkipSpaceOf(before, lit + after);
    TrimmedFinds(lit, after);
  }

  /** A literal is found exactly where the text holds one. */
  lemma LiteralExactly(text: string, lit: string)
    ensures ParseLiteral(text) == Some(lit) <==> HoldsLiteral(text, lit)
  {
    if ParseLiteral(text) == Some(lit) { FoundIsHeld(text, lit); }
    if HoldsLiteral(text, lit) { HeldIsFound(text, lit); }
  }

  // ------------------------------------------------------------ operators

  predicate TwoCharacters(op: Op) { op == Ge || op == Le || op == Eq || op == Ne }

  /** The text is the operator and a literal. */
  ghost predicate HoldsOp(text: string, op: Op, lit: string) {
    OpText(op) <= text && HoldsLiteral(text[|OpText(op)|..], lit)
  }

  /** Of two readings the one with the longer operator is taken. */
  ghost predicate ReadsOp(text: string, op: Op, lit: string) {
    HoldsOp(text, op, lit) && (TwoCharacters(op) || forall o, l | TwoCharacters(o) :: !HoldsOp(text, o, l))
  }

  predicate Fits(text: string, op: Op) { OpText(op) <= text && ParseLiteral(text[|OpText(op)|..]).Some? }

  lemma FitsExactly(text: string, op: Op)
    ensures Fits(text, op) <==> exists lit :: HoldsOp(text, op, lit)
    ensures Fits(text, op) ==> forall lit :: HoldsOp(text, op, lit) <==> ParseLiteral(text[|OpText(op)|..]) == Some(lit)
  {
    if OpText(op) <= text {
      var rest := text[|OpText(op)|..];
      forall lit ensures ParseLiteral(rest) == Some(lit) <==> HoldsLiteral(rest, lit) { LiteralExactly(rest, lit); }
      if ParseLiteral(rest).Some? { assert HoldsOp(text, op, ParseLiteral(rest).value); }
    }
  }

  /** The place of the first operator that fits, or the end. */
  function FirstAt(ops: seq<Op>, fits: Op -> bool): (k: nat)
    ensures k <= |ops| && (k < |ops| ==> fits(ops[k])) && forall j | 0 <= j < k :: !fits(ops[j])
  {
    if ops == [] || fits(ops[0]) then 0 else 1 + FirstAt(ops[1..], fits)
  }

  function FitsIn(text: string): Op -> bool { (op: Op) => Fits(text, op) }

  lemma {:induction false} ParseOpAtFirst(ref: string, text: string, ops: seq<Op>, floatOf: FloatReader)
    ensures var k := FirstAt(ops, FitsIn(text));
            ParseOp(ref, text, ops, floatOf) == if k < |ops| then Some(Reading(ref, text, ops[k], floatOf)) else None
  {
    if ops != [] { ParseOpAtFirst(ref, text, ops[1..], floatOf); }
  }

  lemma ParseOpIs(ref: string, text: string, ops: seq<Op>, floatOf: FloatReader)
    ensures var r := ParseOp(ref, text, ops, floatOf);
            (r.None? <==> forall k | 0 <= k < |ops| :: !Fits(text, ops[k])) &&
            (r.Some? ==> exists k :: 0 <= k < |ops| && FirstFit(text, ops, k) && r == Some(Reading(ref, text, ops[k], floatOf)))
  {
    ParseOpAtFirst(ref, text, ops, floatOf);
    var k := FirstAt(ops, FitsIn(text));
    forall j | 0 <= j < k ensures !Fits(text, ops[j]) { assert !FitsIn(text)(ops[j]); }
    if k < |ops| {
      assert FitsIn(text)(ops[k]);
      assert FirstFit(text, ops, k);
    }
  }

  predicate FirstFit(text: string, ops: seq<Op>, k: nat) {
    k < |ops| && Fits(text, ops[k]) && forall j | 0 <= j < k :: !Fits(text, ops[j])
  }

  function Reading(ref: string, text: string, op: Op, floatOf: FloatReader): Condition
    requires Fits(text, op)
  {
    Condition(ref, op, Coerce(ParseLiteral(text[|OpText(op)|..]).value, floatOf))
  }

  /** No two operators of the same length begin the same text. */
  lemma OneOfLength(text: string, a: Op, b: Op)
    requires OpText(a) <= text && OpText(b) <= text && (TwoCharacters(a) <==> TwoCharacters(b))
    ensures a == b
  {
    assert text[..|OpText(a)|] == OpText(a) && text[..|OpText(b)|] == OpText(b);
    assert OpText(a)[0] == text[0] && OpText(b)[0] == text[0];
  }

  lemma LongerFirst(k: nat, o: Op)
    requires k < |OPS| && !TwoCharacters(OPS[k]) && TwoCharacters(o)
    ensures OpIndex(o) < k && OPS[OpIndex(o)] == o
  {
  }

  lemma FirstIsLongest(text: string, k: nat)
    requires FirstFit(text, OPS, k)
    ensures TwoCharacters(OPS[k]) || forall o | TwoCharacters(o) :: !Fits(text, o)
  {
    if !TwoCharacters(OPS[k]) {
      forall o | TwoCharacters(o) ensures !Fits(text, o) { LongerFirst(k, o); }
    }
  }

  /** The operator part is read exactly as the grammar says. */
  lemma OpExactly(ref: string, text: string, floatOf: FloatReader, c: Condition)
    ensures ParseOp(ref, text, OPS, floatOf) == Some(c) <==>
            exists op, lit :: ReadsOp(text, op, lit) && c == Condition(ref, op, Coerce(lit, floatOf))
  {
    ParseOpIs(ref, text, OPS, floatOf);
    forall o ensures Fits(text, o) <==> exists lit :: HoldsOp(text, o, lit) { FitsExactly(text, o); }
    var r := ParseOp(ref, text, OPS, floatOf);
    if r.Some? {
      var k :| 0 <= k < |OPS| && FirstFit(text, OPS, k) && r == Some(Reading(ref, text, OPS[k], floatOf));
      FirstIsRead(text, k);
      if op, lit :| ReadsOp(text, op, lit) && c == Condition(ref, op, Coerce(lit, floatOf)) { OneReading(text, k, op, lit); }
    } else {
      forall op, lit ensures !ReadsOp(text, op, lit) { assert OPS[OpIndex(op)] == op; }
    }
  }

  lemma FirstIsRead(text: string, k: nat)
    requires FirstFit(text, OPS, k)
    ensures ReadsOp(text, OPS[k], ParseLiteral(text[|OpText(OPS[k])|..]).value)
  {
    FitsExactly(text, OPS[k]);
    FirstIsLongest(text, k);
    forall o, l | TwoCharacters(o) && !TwoCharacters(OPS[k]) ensures !HoldsOp(text, o, l) { FitsExactly(text, o); }
  }

  lemma OneReading(text: string, k: nat, op: Op, lit: string)
    requires FirstFit(text, OPS, k) && ReadsOp(text, op, lit)
    ensures op == OPS[k] && ParseLiteral(text[|OpText(op)|..]) == Some(lit)
  {
    FitsExactly(text, op);
    FitsExactly(text, OPS[k]);
    FirstIsRead(text, k);
    if TwoCharacters(op) && !TwoCharacters(OPS[k]) { FirstIsLongest(text, k); }
    OneOfLength(text, op, OPS[k]);
  }

  // ------------------------------------------------------------ whole guards

  /** A reference without a line break after it. */
  ghost predicate RefAlone(ref: string) { exists r, digits :: SpellsAs(ref, r, digits, "") }

  /** White space, a reference, white space, and what the operator part reads. */
  ghost predicate GuardAs(when: string, blank: string, ref: string, gap: string, rest: string) {
    when == blank + (ref + (gap + rest)) && Blank(blank) && RefAlone(ref) && Blank(gap) && (rest == "" || !IsSpace(rest[0]))
  }

  ghost predicate Guard(when: string, floatOf: FloatReader, c: Condition) {
    exists blank, gap, rest, op, lit ::
      GuardAs(when, blank, c.ref, gap, rest) && ReadsOp(rest, op, lit) && c == Condition(c.ref, op, Coerce(lit, floatOf))
  }

  lemma OpStarts(rest: string, op: Op, lit: string)
    requires HoldsOp(rest, op, lit)
    ensures rest != "" && !IsSpace(rest[0]) && !IsIdentChar(rest[0]) && rest[0] != '.'
  {
    assert rest[0] == OpText(op)[0];
  }

  lemma FieldEndsThere(field: Option<string>, after: string)
    requires (field.Some? ==> ValidField(field.value)) && EndsRef(after)
    ensures FieldLen(FieldText(field) + after) == |FieldText(field)|
  {
    if field.Some? {
      FieldLenOfText(field.value, after);
      assert "." + field.value + after == FieldText(field) + after;
    } else {
      assert FieldText(field) + after == after;
    }
  }

  lemma HeadThenField(head: string, field: string, after: string)
    ensures (head + field) + after == head + (field + after) && (head + (field + after))[|head|..] == field + after
  {
  }

  lemma RefEndsAs(r: Ref, digits: string, after: string)
    requires ValidRef(r) && digits != "" && All(digits, IsDigit) && EndsRef(after)
    ensures var ref := HeadText(r.step, digits) + FieldText(r.field); RefEnd(ref + after) == |ref| > 0 && ref[0] == '$'
  {
    var head, field := HeadText(r.step, digits), FieldText(r.field);
    var tail := field + after;
    HeadThenField(head, field, after);
    assert tail == "" || !IsDigit(tail[0]);
    HeadEndOfHead(r.step, digits, tail);
    FieldEndsThere(r.field, after);
  }

  lemma RefEndsThere(ref: string, after: string)
    requires RefAlone(ref) && EndsRef(after)
    ensures RefEnd(ref + after) == |ref| > 0 && ref[0] == '$'
  {
    var r, digits :| SpellsAs(ref, r, digits, "");
    assert FieldText(r.field) + "" == FieldText(r.field);
    RefEndsAs(r, digits, after);
  }

  lemma MatchedIsAlone(ref: string)
    requires ref != "" && ref[|ref|-1] != '\n' && MatchRef(ref).Some?
    ensures RefAlone(ref)
  {
    var digits, end := MatchedIsSpelled(ref);
    NoBreak(ref, MatchRef(ref).value, digits, end);
  }

  lemma RefIsAlone(s: string)
    requires RefEnd(s) > 0
    ensures RefAlone(s[..RefEnd(s)])
  {
    var ref := s[..RefEnd(s)];
    RefPrefixIsWellFormed(s);
    RefLast(s);
    MatchedIsAlone(ref);
  }

  lemma NoBreak(ref: string, r: Ref, digits: string, end: string)
    requires SpellsAs(ref, r, digits, end) && ref != "" && ref[|ref|-1] != '\n'
    ensures end == ""
  {
    var front := HeadText(r.step, digits) + FieldText(r.field);
    assert ref == front + end;
  }

  /** A matched prefix does not end in a line break. */
  lemma RefLast(s: string)
    requires RefEnd(s) > 0
    ensures s[RefEnd(s)-1] != '\n'
  {
    var h, n := HeadEnd(s), RefEnd(s);
    if n > h {
      var t := s[h..];
      assert s[n-1] == t[n-h-1] == t[1..n-h][n-h-2];
    } else if "$step_" <= s {
      assert s[n-1] == s[6..][..n-6][n-7];
    } else {
      assert s[7] == "$trigger"[7];
    }
  }

  lemma ParsesAt(when: string, blank: string, ref: string, gap: string, rest: string, floatOf: FloatReader)
    requires GuardAs(when, blank, ref, gap, rest) && EndsRef(gap + rest)
    ensures ParseCondition(when, floatOf) == ParseOp(ref, rest, OPS, floatOf)
  {
    var after := gap + rest;
    RefEndsThere(ref, after);
    assert (ref + after)[0] == '$';
    SkipSpaceOf(blank, ref + after);
    SkipSpaceOf(gap, rest);
    ParseConditionAt(when, ref, after, rest, floatOf);
  }

  lemma GuardIsParsed(when: string, blank: string, ref: string, gap: string, rest: string, op: Op, lit: string, floatOf: FloatReader)
    requires GuardAs(when, blank, ref, gap, rest) && ReadsOp(rest, op, lit)
    ensures ParseCondition(when, floatOf) == Some(Condition(ref, op, Coerce(lit, floatOf)))
  {
    OpStarts(rest, op, lit);
    assert (gap + rest)[0] == if gap == "" then rest[0] else gap[0];
    ParsesAt(when, blank, ref, gap, rest, floatOf);
    OpExactly(ref, rest, floatOf, Condition(ref, op, Coerce(lit, floatOf)));
  }

  lemma CutInTwo(s: string, n: nat)
    requires n <= |s|
    ensures s == s[..n] + s[n..]
  {
  }

  /** The parts that the parser cuts a text into. */
  lemma GuardParts(when: string) returns (blank: string, ref: string, gap: string, rest: string)
    requires RefEnd(SkipSpace(when)) > 0
    ensures GuardAs(when, blank, ref, gap, rest)
    ensures var s := SkipSpace(when); ref == s[..RefEnd(s)] && rest == SkipSpace(s[RefEnd(s)..])
  {
    blank := SpaceCut(when);
    var s := SkipSpace(when);
    ref := s[..RefEnd(s)];
    CutInTwo(s, RefEnd(s));
    gap := SpaceCut(s[RefEnd(s)..]);
    rest := SkipSpace(s[RefEnd(s)..]);
    RefIsAlone(s);
  }

  lemma ParsedIsGuard(when: string, floatOf: FloatReader)
    requires ParseCondition(when, floatOf).Some?
    ensures Guard(when, floatOf, ParseCondition(when, floatOf).value)
  {
    var c := ParseCondition(when, floatOf).value;
    var blank, ref, gap, rest := GuardParts(when);
    OpExactly(ref, rest, floatOf, c);
    var op, lit :| ReadsOp(rest, op, lit) && c == Condition(ref, op, Coerce(lit, floatOf));
  }

  /** A guard is parsed to a condition exactly when the grammar reads it so; everything else is refused. */
  lemma GuardsExactly(when: string, floatOf: FloatReader, c: Condition)
    ensures ParseCondition(when, floatOf) == Some(c) <==> Guard(when, floatOf, c)
  {
    if ParseCondition(when, floatOf) == Some(c) { ParsedIsGuard(when, floatOf); }
    if Guard(when, floatOf, c) {
      var blank, gap, rest, op, lit :|
        GuardAs(when, blank, c.ref, gap, rest) && ReadsOp(rest, op, lit) && c == Condition(c.ref, op, Coerce(lit, floatOf));
      GuardIsParsed(when, blank, c.ref, gap, rest, op, lit, floatOf);
    }
  }
}
