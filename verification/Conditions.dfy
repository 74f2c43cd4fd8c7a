/** References (`$step_N.field`, `$trigger.field`) and the one-comparison guard
    grammar `$ref OP literal`: parsing, literal coercion and comparison. */
module Conditions {
  import opened Wrappers
  import opened Text

  /** A JSON-like Python value. Integers and floats share `Num`. */
  datatype Value =
    | Null
    | Bool(b: bool)
    | Num(r: real)
    | Str(s: string)
    | Obj(fields: map<string, Value>)
    | Arr(items: seq<Value>)

  /** What a well-formed reference means; `step.None?` is the trigger payload. */
  datatype Ref = Ref(step: Option<nat>, field: Option<string>)

  datatype Op = Ge | Le | Eq | Ne | Gt | Lt

  datatype Literal = LBool(b: bool) | LInt(n: int) | LFloat(r: real) | LStr(s: string)

  datatype Condition = Condition(ref: string, op: Op, literal: Literal)

  /** `float(text)`: the standard library's reader of decimal text, left abstract. */
  type FloatReader = string -> Option<real>

  // ------------------------------------------------------------ references

  function HeadEnd(s: string): (n: nat)
    ensures n <= |s|
  {
    if "$step_" <= s then
      var k := Span(s[6..], IsDigit);
      if k == 0 then 0 else 6 + k
    else if "$trigger" <= s then 8
    else 0
  }

  function FieldLen(t: string): (n: nat)
    ensures n <= |t|
    ensures n > 0 ==> n >= 2 && t[0] == '.' && IsIdentStart(t[1]) && All(t[1..n], IsIdentChar)
  {
    if |t| >= 2 && t[0] == '.' && IsIdentStart(t[1]) then
      var k := Span(t[1..], IsIdentChar);
      assert t[1..1+k] == t[1..][..k];
      assert k > 0 by { assert t[1..][0] == t[1]; }
      1 + k
    else 0
  }

  /** End of the longest prefix matching `\$(step_\d+|trigger)(\.[A-Za-z_][A-Za-z0-9_]*)?`, or 0. */
  function RefEnd(s: string): (n: nat)
    ensures n <= |s|
    ensures HeadEnd(s) <= n
    ensures n == 0 <==> HeadEnd(s) == 0
  {
    var h := HeadEnd(s);
    if h == 0 then 0 else h + FieldLen(s[h..])
  }

  /** `_REF_RE.match`; the pattern's `$` also accepts one trailing newline. */
  function MatchRef(s: string): Option<Ref> {
    var h, n := HeadEnd(s), RefEnd(s);
    if n == 0 || (s[n..] != "" && s[n..] != "\n") then None
    else
      var field := if n == h then None else Some(s[h+1..n]);
      if "$step_" <= s then
        assert s[6..h] == s[6..][..h-6];
        Some(Ref(Some(DecimalValue(s[6..h])), field))
      else Some(Ref(None, field))
  }

  predicate ValidField(f: string) {
    f != "" && IsIdentStart(f[0]) && All(f, IsIdentChar)
  }

  predicate ValidRef(r: Ref) { r.field.Some? ==> ValidField(r.field.value) }

  function RefText(r: Ref): string {
    (match r.step case None => "$trigger" case Some(n) => "$step_" + DecimalText(n)) +
    (match r.field case None => "" case Some(f) => "." + f)
  }

  /** A character that cannot extend a reference ending just before it. */
  predicate EndsRef(rest: string) {
    rest == "" || (!IsIdentChar(rest[0]) && rest[0] != '.')
  }

  lemma HeadEndOfText(r: Ref, tail: string)
    requires tail == "" || !IsDigit(tail[0])
    ensures var head := RefText(Ref(r.step, None));
            HeadEnd(head + tail) == |head| && ("$step_" <= head + tail <==> r.step.Some?)
  {
    var head := RefText(Ref(r.step, None));
    match r.step
    case None =>
      assert (head + tail)[1] == 't';
      assert (head + tail)[..8] == "$trigger";
    case Some(n) =>
      assert (head + tail)[..6] == "$step_";
      assert (head + tail)[6..] == DecimalText(n) + tail;
      SpanOfRun(DecimalText(n), tail, IsDigit);
  }

  lemma FieldLenOfText(f: string, rest: string)
    requires ValidField(f) && EndsRef(rest)
    ensures FieldLen("." + f + rest) == 1 + |f|
  {
    var t := "." + f + rest;
    assert t[1..] == f + rest && t[1] == f[0];
    SpanOfRun(f, rest, IsIdentChar);
  }

  /** A printed reference is matched to its own end, whatever follows it. */
  lemma RefEndOfText(r: Ref, rest: string)
    requires ValidRef(r) && EndsRef(rest)
    ensures RefEnd(RefText(r) + rest) == |RefText(r)|
    ensures HeadEnd(RefText(r) + rest) == |RefText(Ref(r.step, None))|
  {
    var head := RefText(Ref(r.step, None));
    var tail := if r.field.Some? then "." + r.field.value + rest else rest;
    assert RefText(r) + rest == head + tail;
    HeadEndOfText(r, tail);
    if r.field.Some? { FieldLenOfText(r.field.value, rest); }
    assert (head + tail)[|head|..] == tail;
  }

  /** Printing a reference and matching it gives the reference back. */
  lemma RefRoundTrip(r: Ref)
    requires ValidRef(r)
    ensures MatchRef(RefText(r)) == Some(r)
  {
    var s := RefText(r);
    var head := RefText(Ref(r.step, None));
    assert s + "" == s;
    RefEndOfText(r, "");
    HeadEndOfText(r, s[|head|..]);
    assert s == head + s[|head|..];
    if r.step.Some? {
      assert s[6..|head|] == DecimalText(r.step.value);
      DecimalRoundTrip(r.step.value);
    }
    if r.field.Some? {
      assert s[|head|+1..] == r.field.value;
    }
  }

  lemma HeadEndOfPrefix(s: string, n: nat)
    requires 0 < HeadEnd(s) <= n <= |s|
    ensures HeadEnd(s[..n]) == HeadEnd(s)
    ensures "$step_" <= s[..n] <==> "$step_" <= s
  {
    var t := s[..n];
    if "$step_" <= s {
      var k := Span(s[6..], IsDigit);
      assert t[..6] == s[..6];
      SpanOfPrefix(s[6..], n - 6, IsDigit);
      DropOfTake(s, 6, n);
    } else {
      assert t[..8] == s[..8];
      assert t[1] == 't';
    }
  }

  lemma DropOfTake(t: string, k: nat, n: nat)
    requires k <= n <= |t|
    ensures t[..n][k..] == t[k..][..n-k]
  {
  }

  lemma FieldLenOfPrefix(t: string)
    ensures FieldLen(t[..FieldLen(t)]) == FieldLen(t)
  {
    var n := FieldLen(t);
    if n > 0 {
      SpanOfPrefix(t[1..], n - 1, IsIdentChar);
      DropOfTake(t, 1, n);
    }
  }

  /** The matched prefix of any text is, taken alone, a complete reference. */
  lemma RefPrefixIsWellFormed(s: string)
    requires RefEnd(s) > 0
    ensures MatchRef(s[..RefEnd(s)]).Some?
  {
    var h, n := HeadEnd(s), RefEnd(s);
    HeadEndOfPrefix(s, n);
    FieldLenOfPrefix(s[h..]);
    DropOfTake(s, h, n);
    assert s[..n][n..] == "";
  }

  // ------------------------------------------------------------ literals

  /** `int(text)` after its sign: digits, with single underscores between them. */
  function ReadDigits(s: string, acc: nat, afterDigit: bool): Option<nat> {
    if s == "" then (if afterDigit then Some(acc) else None)
    else if IsDigit(s[0]) then ReadDigits(s[1..], 10 * acc + DigitValue(s[0]), true)
    else if s[0] == '_' && afterDigit then ReadDigits(s[1..], acc, false)
    else None
  }

  function ReadInt(s: string): Option<int> {
    if s == "" then None
    else
      var digits := ReadDigits(if s[0] == '-' || s[0] == '+' then s[1..] else s, 0, false);
      if digits.None? then None
      else if s[0] == '-' then Some(-(digits.value as int))
      else Some(digits.value)
  }

  function IntText(n: int): string {
    if n < 0 then "-" + DecimalText(-n) else DecimalText(n)
  }

  lemma {:induction false} ReadDigitsStep(s: string, c: char, acc: nat, p: bool)
    requires All(s, IsDigit) && IsDigit(c)
    ensures ReadDigits(s + [c], acc, p) ==
            (match ReadDigits(s, acc, true)
             case Some(n) => Some(10 * n + DigitValue(c)) case None => None)
    ensures ReadDigits(s, acc, true).Some?
  {
    if s == "" {
      assert (s + [c])[1..] == "";
    } else {
      assert (s + [c])[1..] == s[1..] + [c];
      ReadDigitsStep(s[1..], c, 10 * acc + DigitValue(s[0]), true);
    }
  }

  lemma {:induction false} ReadDigitsOfText(n: nat)
    ensures ReadDigits(DecimalText(n), 0, false) == Some(n)
  {
    if n < 10 {
      assert DecimalText(n)[1..] == "";
    } else {
      ReadDigitsOfText(n / 10);
      var s := DecimalText(n / 10);
      ReadDigitsStep(s, DigitChar(n % 10), 0, false);
      assert ReadDigits(s, 0, true) == ReadDigits(s, 0, false);
    }
  }

  lemma ReadIntRoundTrip(n: int)
    ensures ReadInt(IntText(n)) == Some(n)
  {
    ReadDigitsOfText(if n < 0 then -n else n);
    if n < 0 {
      assert IntText(n)[1..] == DecimalText(-n);
    }
  }

  /** Digits are read as the number they denote, leading zeros included. */
  lemma {:induction false} ReadDigitsOf(s: string, acc: nat)
    requires All(s, IsDigit)
    ensures ReadDigits(s, acc, true) == Some(acc * TenTo(|s|) + DecimalValue(s))
  {
    if s != "" {
      var init, c := s[..|s|-1], s[|s|-1];
      assert s == init + [c];
      ReadDigitsOf(init, acc);
      ReadDigitsStep(init, c, acc, true);
      TenTimes(acc, TenTo(|init|), DecimalValue(init), DigitValue(c));
    }
  }

  function TenTo(k: nat): nat { if k == 0 then 1 else 10 * TenTo(k - 1) }

  lemma TenTimes(acc: nat, p: nat, v: nat, d: nat)
    ensures 10 * (acc * p + v) + d == acc * (10 * p) + (10 * v + d)
  {
  }

  /** `int` reads every run of digits, with a sign before it or none. */
  lemma ReadIntOfDigits(s: string)
    requires s != "" && All(s, IsDigit)
    ensures ReadInt(s) == Some(DecimalValue(s)) && ReadInt("+" + s) == Some(DecimalValue(s))
    ensures ReadInt("-" + s) == Some(-(DecimalValue(s) as int))
  {
    ReadDigitsOf(s, 0);
    assert ("+" + s)[1..] == s && ("-" + s)[1..] == s;
    assert ReadDigits(s, 0, false) == ReadDigits(s, 0, true);
  }

  lemma FirstDigitDecides(s: string, acc: nat)
    requires s != "" && IsDigit(s[0])
    ensures ReadDigits(s, acc, false) == ReadDigits(s, acc, true)
  {
  }

  /** A single underscore between digits changes nothing. */
  lemma {:induction false} UnderscoreIgnored(a: string, b: string, acc: nat, p: bool)
    requires a != "" && All(a, IsDigit) && b != "" && IsDigit(b[0])
    ensures ReadDigits(a + ("_" + b), acc, p) == ReadDigits(a + b, acc, p)
  {
    var rest := "_" + b;
    assert (a + rest)[1..] == a[1..] + rest && (a + b)[1..] == a[1..] + b;
    if |a| == 1 {
      assert a[1..] + rest == rest && a[1..] + b == b && rest[1..] == b;
      FirstDigitDecides(b, 10 * acc + DigitValue(a[0]));
    } else {
      UnderscoreIgnored(a[1..], b, 10 * acc + DigitValue(a[0]), true);
    }
  }

  /** `_coerce`: boolean word, then quoted string, then int, then float, then bare text. */
  function Coerce(raw: string, floatOf: FloatReader): Literal {
    if Lower(raw) == "true" then LBool(true)
    else if Lower(raw) == "false" then LBool(false)
    else if |raw| >= 2 && (raw[0] == '"' || raw[0] == '\'') && raw[|raw|-1] == raw[0] then
      LStr(raw[1..|raw|-1])
    else match ReadInt(raw)
      case Some(n) => LInt(n)
      case None =>
        match floatOf(raw)
        case Some(r) => LFloat(r)
        case None => LStr(raw)
  }

  // ------------------------------------------------------------ parsing

  predicate NotSingleQuote(c: char) { c != '\'' }
  predicate NotDoubleQuote(c: char) { c != '"' }

  /** Whether `t` opens with a quoted string (quote `q`) followed only by blanks; gives its length. */
  function QuotedLen(t: string, q: char, other: char -> bool): (n: nat)
    requires forall c :: other(c) <==> c != q
    ensures n <= |t|
  {
    if t == "" || t[0] != q then 0
    else
      var k := Span(t[1..], other);
      if 1 + k < |t| && All(t[k+2..], IsSpace) then k + 2 else 0
  }

  /** The pattern's third group `('[^']*'|"[^"]*"|\S+)` followed by `\s*$`, tried in that order. */
  function ParseLiteral(text: string): Option<string> { ParseTrimmed(SkipSpace(text)) }

  function ParseTrimmed(t: string): Option<string> {
    var single := QuotedLen(t, '\'', NotSingleQuote);
    var double := QuotedLen(t, '"', NotDoubleQuote);
    var word := Span(t, NotSpace);
    if single > 0 then Some(t[..single])
    else if double > 0 then Some(t[..double])
    else if word > 0 && All(t[word..], IsSpace) then Some(t[..word])
    else None
  }

  function OpText(op: Op): string {
    match op
    case Ge => ">=" case Le => "<=" case Eq => "==" case Ne => "!=" case Gt => ">" case Lt => "<"
  }

  /** The operator alternation in pattern order. */
  const OPS: seq<Op> := [Ge, Le, Eq, Ne, Gt, Lt]

  /** The alternation with backtracking: the first operator whose remainder parses as a literal. */
  function ParseOp(ref: string, text: string, ops: seq<Op>, floatOf: FloatReader): Option<Condition> {
    if ops == [] then None
    else if OpText(ops[0]) <= text && ParseLiteral(text[|OpText(ops[0])|..]).Some? then
      Some(Condition(ref, ops[0], Coerce(ParseLiteral(text[|OpText(ops[0])|..]).value, floatOf)))
    else ParseOp(ref, text, ops[1..], floatOf)
  }

  /** `parse_condition`; `None` is its `ValueError`. */
  function ParseCondition(when: string, floatOf: FloatReader): Option<Condition> {
    var s := SkipSpace(when);
    var n := RefEnd(s);
    if n == 0 then None else ParseOp(s[..n], SkipSpace(s[n..]), OPS, floatOf)
  }

  lemma {:induction false} ParseOpKeepsRef(ref: string, text: string, ops: seq<Op>, floatOf: FloatReader)
    ensures var c := ParseOp(ref, text, ops, floatOf); c.Some? ==> c.value.ref == ref
  {
    if ops != [] {
      ParseOpKeepsRef(ref, text, ops[1..], floatOf);
    }
  }

  /** Every reference a parsed guard carries is well formed for the executor and the checker. */
  lemma ParsedRefIsWellFormed(when: string, floatOf: FloatReader)
    ensures var c := ParseCondition(when, floatOf);
            c.Some? ==> MatchRef(c.value.ref).Some?
  {
    var s := SkipSpace(when);
    var n := RefEnd(s);
    if n > 0 {
      ParseOpKeepsRef(s[..n], SkipSpace(s[n..]), OPS, floatOf);
      RefPrefixIsWellFormed(s);
    }
  }

  // ------------------------------------------------------------ printing

  /** The literals with a printed form: a string is printed in quotes it does not contain, and a bare token is any
      other text without white space. */
  datatype Printed = PInt(n: int) | PBool(b: bool) | PSingle(s: string) | PDouble(s: string) | PBare(text: string)

  predicate ValidPrinted(l: Printed) {
    match l
    case PSingle(s) => All(s, NotSingleQuote)
    case PDouble(s) => All(s, NotDoubleQuote)
    case PBare(t) => ValidBare(t)
    case _ => true
  }

  /** No quote or "=" in front, no boolean word, and no integer. */
  predicate ValidBare(t: string) {
    t != "" && All(t, NotSpace) && t[0] != '\'' && t[0] != '"' && t[0] != '=' &&
    Lower(t) != "true" && Lower(t) != "false" && ReadInt(t).None?
  }

  function PrintedText(l: Printed): string {
    match l
    case PInt(n) => IntText(n)
    case PBool(b) => if b then "True" else "False"
    case PSingle(s) => "'" + s + "'"
    case PDouble(s) => "\"" + s + "\""
    case PBare(t) => t
  }

  function PrintedValue(l: Printed, floatOf: FloatReader): Literal {
    match l
    case PInt(n) => LInt(n)
    case PBool(b) => LBool(b)
    case PSingle(s) => LStr(s)
    case PDouble(s) => LStr(s)
    case PBare(t) => if floatOf(t).Some? then LFloat(floatOf(t).value) else LStr(t)
  }

  lemma QuotedLenOf(s: string, ws: string, q: char, other: char -> bool)
    requires forall c :: other(c) <==> c != q
    requires All(s, other) && All(ws, IsSpace)
    ensures QuotedLen([q] + s + [q] + ws, q, other) == |s| + 2
  {
    var t := [q] + s + [q] + ws;
    assert t[1..] == s + ([q] + ws);
    SpanOfRun(s, [q] + ws, other);
    assert t[|s|+2..] == ws;
  }

  lemma IntTextChars(n: int)
    ensures var t := IntText(n);
            t != "" && All(t, NotSpace) && (IsDigit(t[0]) || t[0] == '-')
  {
  }

  lemma ParseQuoted(s: string, end: string, q: char)
    requires q == '\'' || q == '"'
    requires All(s, if q == '"' then NotDoubleQuote else NotSingleQuote) && All(end, IsSpace)
    ensures ParseTrimmed([q] + s + [q] + end) == Some([q] + s + [q])
  {
    var t := [q] + s + [q] + end;
    assert t[0] == q;
    assert t[..|s|+2] == [q] + s + [q];
    if q == '"' {
      QuotedLenOf(s, end, q, NotDoubleQuote);
    } else {
      QuotedLenOf(s, end, q, NotSingleQuote);
    }
  }

  lemma ParseWord(raw: string, end: string)
    requires raw != "" && All(raw, NotSpace) && All(end, IsSpace)
    requires raw[0] != '\'' && raw[0] != '"'
    ensures ParseTrimmed(raw + end) == Some(raw)
  {
    var t := raw + end;
    SpanOfRun(raw, end, NotSpace);
    assert t[0] == raw[0] && t[..|raw|] == raw && t[|raw|..] == end;
  }

  /** A printed literal, with blanks around it, is read back as exactly its own text. */
  lemma ParseLiteralOfText(l: Printed, ws: string, end: string)
    requires ValidPrinted(l) && All(ws, IsSpace) && All(end, IsSpace)
    ensures ParseLiteral(ws + PrintedText(l) + end) == Some(PrintedText(l))
  {
    var raw := PrintedText(l);
    assert ws + raw + end == ws + (raw + end);
    if l.PInt? { IntTextChars(l.n); }
    assert (raw + end)[0] == raw[0] && !IsSpace(raw[0]);
    SkipSpaceOf(ws, raw + end);
    match l
    case PSingle(s) => ParseQuoted(s, end, '\'');
    case PDouble(s) => ParseQuoted(s, end, '"');
    case _ => ParseWord(raw, end);
  }

  /** Lower-casing keeps a first character that is not a letter, so the text is no boolean word. */
  lemma NotBoolWord(raw: string)
    requires raw != "" && !('A' <= raw[0] <= 'Z') && raw[0] != 't' && raw[0] != 'f'
    ensures Lower(raw) != "true" && Lower(raw) != "false"
  {
    assert Lower(raw)[0] == raw[0];
  }

  lemma CoerceBoolWord(b: bool, floatOf: FloatReader)
    ensures Coerce(if b then "True" else "False", floatOf) == LBool(b)
  {
    if b {
      assert Lower("True") == "true";
    } else {
      assert Lower("False") == "false";
    }
  }

  lemma CoerceQuoted(s: string, q: char, floatOf: FloatReader)
    requires q == '\'' || q == '"'
    ensures Coerce([q] + s + [q], floatOf) == LStr(s)
  {
    var raw := [q] + s + [q];
    NotBoolWord(raw);
    assert raw[1..|raw|-1] == s;
  }

  lemma CoerceInt(n: int, floatOf: FloatReader)
    ensures Coerce(IntText(n), floatOf) == LInt(n)
  {
    IntTextChars(n);
    NotBoolWord(IntText(n));
    ReadIntRoundTrip(n);
  }

  lemma CoerceOfText(l: Printed, floatOf: FloatReader)
    requires ValidPrinted(l)
    ensures Coerce(PrintedText(l), floatOf) == PrintedValue(l, floatOf)
  {
    match l
    case PBool(b) => CoerceBoolWord(b, floatOf);
    case PInt(n) => CoerceInt(n, floatOf);
    case PSingle(s) => CoerceQuoted(s, '\'', floatOf);
    case PDouble(s) => CoerceQuoted(s, '"', floatOf);
    case PBare(_) =>
  }

  /** The alternation settles on the first operator that is a prefix, if its remainder is a literal. */
  lemma {:induction false} ParseOpFirst(ref: string, text: string, ops: seq<Op>, k: nat, floatOf: FloatReader)
    requires k < |ops| && OpText(ops[k]) <= text
    requires forall j | 0 <= j < k :: !(OpText(ops[j]) <= text)
    requires ParseLiteral(text[|OpText(ops[k])|..]).Some?
    ensures ParseOp(ref, text, ops, floatOf)
         == Some(Condition(ref, ops[k], Coerce(ParseLiteral(text[|OpText(ops[k])|..]).value, floatOf)))
  {
    if k > 0 {
      assert !(OpText(ops[0]) <= text);
      ParseOpFirst(ref, text, ops[1..], k - 1, floatOf);
    }
  }

  function OpIndex(op: Op): (k: nat)
    ensures k < |OPS| && OPS[k] == op
  {
    match op case Ge => 0 case Le => 1 case Eq => 2 case Ne => 3 case Gt => 4 case Lt => 5
  }

  /** No operator before `op` in the alternation is a prefix of `op rest`, unless `rest` starts with `=`. */
  lemma EarlierOpsFail(op: Op, rest: string, j: nat)
    requires j < OpIndex(op)
    requires rest != "" && rest[0] != '='
    ensures !(OpText(OPS[j]) <= OpText(op) + rest)
  {
    var text := OpText(op) + rest;
    var other := OpText(OPS[j]);
    assert text[0] == OpText(op)[0] && text[1] == (if |OpText(op)| == 2 then '=' else rest[0]);
    assert text[0] != other[0] || (|other| == 2 && text[1] != other[1]);
  }

  lemma ParseOpAt(ref: string, op: Op, rest: string, floatOf: FloatReader)
    requires rest != "" && rest[0] != '=' && ParseLiteral(rest).Some?
    ensures ParseOp(ref, OpText(op) + rest, OPS, floatOf)
         == Some(Condition(ref, op, Coerce(ParseLiteral(rest).value, floatOf)))
  {
    var text := OpText(op) + rest;
    assert text[|OpText(op)|..] == rest;
    forall j | 0 <= j < OpIndex(op) ensures !(OpText(OPS[j]) <= text) {
      EarlierOpsFail(op, rest, j);
    }
    ParseOpFirst(ref, text, OPS, OpIndex(op), floatOf);
  }

  lemma ParseOpOfText(ref: string, op: Op, ws: string, l: Printed, end: string, floatOf: FloatReader)
    requires ValidPrinted(l) && All(ws, IsSpace) && All(end, IsSpace)
    ensures ParseOp(ref, OpText(op) + (ws + PrintedText(l) + end), OPS, floatOf)
         == Some(Condition(ref, op, PrintedValue(l, floatOf)))
  {
    var rest := ws + PrintedText(l) + end;
    ParseLiteralOfText(l, ws, end);
    CoerceOfText(l, floatOf);
    if l.PInt? { IntTextChars(l.n); }
    assert rest[0] == if ws == "" then PrintedText(l)[0] else ws[0];
    ParseOpAt(ref, op, rest, floatOf);
  }

  lemma ParseConditionAt(when: string, ref: string, after: string, tail: string, floatOf: FloatReader)
    requires SkipSpace(when) == ref + after && SkipSpace(after) == tail
    requires RefEnd(ref + after) == |ref| > 0
    ensures ParseCondition(when, floatOf) == ParseOp(ref, tail, OPS, floatOf)
  {
    assert (ref + after)[..|ref|] == ref && (ref + after)[|ref|..] == after;
  }

  /** The reference and the blanks around it are consumed up to the operator. */
  lemma ParseReachesOp(r: Ref, w0: string, w1: string, tail: string, floatOf: FloatReader)
    requires ValidRef(r) && All(w0, IsSpace) && All(w1, IsSpace)
    requires tail != "" && EndsRef(tail) && !IsSpace(tail[0])
    ensures ParseCondition(w0 + (RefText(r) + (w1 + tail)), floatOf) == ParseOp(RefText(r), tail, OPS, floatOf)
  {
    var ref, after := RefText(r), w1 + tail;
    assert (ref + after)[0] == '$';
    SkipSpaceOf(w0, ref + after);
    assert after[0] == if w1 == "" then tail[0] else w1[0];
    RefEndOfText(r, after);
    SkipSpaceOf(w1, tail);
    ParseConditionAt(w0 + (ref + after), ref, after, tail, floatOf);
  }

  /** Parsing undoes printing: any blanks may surround the three parts. */
  lemma ConditionRoundTrip(r: Ref, op: Op, l: Printed, w0: string, w1: string, w2: string, w3: string,
                           floatOf: FloatReader)
    requires ValidRef(r) && ValidPrinted(l)
    requires All(w0, IsSpace) && All(w1, IsSpace) && All(w2, IsSpace) && All(w3, IsSpace)
    ensures ParseCondition(w0 + (RefText(r) + (w1 + (OpText(op) + (w2 + PrintedText(l) + w3)))), floatOf)
         == Some(Condition(RefText(r), op, PrintedValue(l, floatOf)))
  {
    var tail := OpText(op) + (w2 + PrintedText(l) + w3);
    assert tail[0] == OpText(op)[0];
    ParseReachesOp(r, w0, w1, tail, floatOf);
    ParseOpOfText(RefText(r), op, w2, l, w3, floatOf);
  }

  // ------------------------------------------------------------ comparison

  predicate CompareOrder<T(==)>(op: Op, a: T, b: T, less: (T, T) -> bool) {
    match op
    case Eq => a == b
    case Ne => a != b
    case Lt => less(a, b)
    case Gt => less(b, a)
    case Le => !less(b, a)
    case Ge => !less(a, b)
  }

  function BoolNum(b: bool): real { if b then 1.0 else 0.0 }

  /** `compare`: a numeric (or boolean) literal coerces the left side to a number;
      `None` is any exception, which the executor records as a broken guard. */
  function Compare(left: Value, op: Op, literal: Literal, floatOf: FloatReader): Option<bool> {
    var less := (a: real, b: real) => a < b;
    match literal
    case LStr(t) =>
      if left.Str? then Some(CompareOrder(op, left.s, t, StrLess))
      else if op == Eq then Some(false)
      else if op == Ne then Some(true)
      else None
    case _ =>
      var right := match literal case LBool(b) => BoolNum(b) case LInt(n) => n as real case LFloat(r) => r case LStr(_) => 0.0;
      match left
      case Bool(b) => Some(CompareOrder(op, BoolNum(b), right, less))
      case Num(r) => Some(CompareOrder(op, r, right, less))
      case Str(t) =>
        (match floatOf(t) case Some(r) => Some(CompareOrder(op, r, right, less)) case None => None)
      case _ => None
  }

  /** The number a left side is coerced to. */
  function NumberOf(left: Value, floatOf: FloatReader): Option<real> {
    match left
    case Bool(b) => Some(BoolNum(b))
    case Num(r) => Some(r)
    case Str(t) => floatOf(t)
    case _ => None
  }

  /** The literal as a number, unless it is a string. */
  function LiteralNumber(l: Literal): Option<real> {
    match l
    case LBool(b) => Some(BoolNum(b))
    case LInt(n) => Some(n as real)
    case LFloat(r) => Some(r)
    case LStr(_) => None
  }

  /** Both sides can be ordered: as numbers for a numeric or boolean literal, as strings for a string. */
  predicate Orderable(left: Value, l: Literal, floatOf: FloatReader) {
    if l.LStr? then left.Str? else NumberOf(left, floatOf).Some?
  }

  /** The six operators form one order: whenever two sides can be ordered, exactly one of `<`, `==`, `>` holds and
      the other three are their negations; otherwise a string literal still answers `==` and `!=`, and
      everything else is an error. */
  lemma ComparisonLaws(left: Value, l: Literal, floatOf: FloatReader)
    ensures var lt, eq, gt := Compare(left, Lt, l, floatOf), Compare(left, Eq, l, floatOf), Compare(left, Gt, l, floatOf);
            var ge, ne, le := Compare(left, Ge, l, floatOf), Compare(left, Ne, l, floatOf), Compare(left, Le, l, floatOf);
            if Orderable(left, l, floatOf) then
              lt.Some? && eq.Some? && gt.Some? && ge == Some(!lt.value) && ne == Some(!eq.value) && le == Some(!gt.value) &&
              (lt.value || eq.value || gt.value) &&
              !(lt.value && eq.value) && !(eq.value && gt.value) && !(lt.value && gt.value)
            else
              lt == gt == ge == le == None &&
              (if l.LStr? then eq == Some(false) && ne == Some(true) else eq == ne == None)
    ensures LiteralNumber(l).Some? && NumberOf(left, floatOf).Some? ==>
              Compare(left, Lt, l, floatOf) == Some(NumberOf(left, floatOf).value < LiteralNumber(l).value)
    ensures l.LStr? && left.Str? ==> Compare(left, Lt, l, floatOf) == Some(StrLess(left.s, l.s))
  {
    if l.LStr? && left.Str? { StrLessTotal(left.s, l.s); }
  }
}
