/** JSON values and the text `json.dumps` gives for them. When scrubbing that text is scrubbing the strings of the
    value, and which values it cannot hide from whoever loads the text again. */
module JsonText {
  import opened Scrubbing
  import opened Escaping

  datatype Json =
    | JNull
    | JBool(flag: bool)
    | JNum(numeral: string)
    | JStr(text: string)
    | JArr(items: Items)
    | JObj(fields: Fields)

  datatype Items = INil | ICons(head: Json, rest: Items)

  /** A dictionary in insertion order. */
  datatype Fields = FNil | FCons(key: string, value: Json, more: Fields)

  /** A lower bound on the length of any text that denotes the value. */
  function Size(j: Json): nat {
    match j
    case JNull | JBool(_) | JNum(_) => 1
    case JStr(s) => 1 + |s|
    case JArr(items) => 1 + ItemsSize(items)
    case JObj(fields) => 1 + FieldsSize(fields)
  }

  function ItemsSize(items: Items): nat {
    match items
    case INil => 0
    case ICons(head, rest) => Size(head) + ItemsSize(rest)
  }

  function FieldsSize(fields: Fields): nat {
    match fields
    case FNil => 0
    case FCons(_, value, more) => 1 + Size(value) + FieldsSize(more)
  }

  /** Numbers are written by Python, and the keys are distinct at every depth, as in any dictionary. */
  predicate Sound(j: Json, numeral: string -> bool) {
    match j
    case JNull | JBool(_) | JStr(_) => true
    case JNum(n) => numeral(n)
    case JArr(items) => SoundItems(items, numeral)
    case JObj(fields) => SoundFields(fields, numeral)
  }

  predicate SoundItems(items: Items, numeral: string -> bool) {
    items.ICons? ==> Sound(items.head, numeral) && SoundItems(items.rest, numeral)
  }

  predicate SoundFields(fields: Fields, numeral: string -> bool) {
    fields.FCons? ==>
      fields.key !in Keys(fields.more) && Sound(fields.value, numeral) && SoundFields(fields.more, numeral)
  }

  function Keys(fields: Fields): set<string> {
    match fields
    case FNil => {}
    case FCons(key, _, more) => {key} + Keys(more)
  }

  // ------------------------------------------------------------ json.dumps

  function Quoted(s: string): string { "\"" + (Escape(s) + "\"") }

  function Dump(j: Json): string {
    match j
    case JNull => "null"
    case JBool(flag) => if flag then "true" else "false"
    case JNum(n) => n
    case JStr(s) => Quoted(s)
    case JArr(items) => "[" + (DumpItems(items) + "]")
    case JObj(fields) => "{" + (DumpFields(fields) + "}")
  }

  function DumpItems(items: Items): string {
    match items
    case INil => ""
    case ICons(head, rest) => Dump(head) + (if rest.INil? then "" else ", " + DumpItems(rest))
  }

  function DumpFields(fields: Fields): string {
    match fields
    case FNil => ""
    case FCons(key, value, more) =>
      Quoted(key) + (": " + (Dump(value) + (if more.FNil? then "" else ", " + DumpFields(more))))
  }

  /** Every string of the value, keys included, through `f`. */
  function MapStrings(j: Json, f: string -> string): Json {
    match j
    case JNull | JBool(_) | JNum(_) => j
    case JStr(s) => JStr(f(s))
    case JArr(items) => JArr(MapItems(items, f))
    case JObj(fields) => JObj(MapFields(fields, f))
  }

  function MapItems(items: Items, f: string -> string): Items {
    match items
    case INil => INil
    case ICons(head, rest) => ICons(MapStrings(head, f), MapItems(rest, f))
  }

  function MapFields(fields: Fields, f: string -> string): Fields {
    match fields
    case FNil => FNil
    case FCons(key, value, more) => FCons(f(key), MapStrings(value, f), MapFields(more, f))
  }

  // ------------------------------------------------------------ the dump as alternating syntax and strings

  /** Syntax up to the next string, that string, and so on. */
  datatype Layout = End(raw: string) | Then(raw: string, s: string, rest: Layout)

  function TextOf(k: Layout): string {
    match k
    case End(raw) => raw
    case Then(raw, s, rest) => raw + (Quoted(s) + TextOf(rest))
  }

  function Prepend(x: string, k: Layout): Layout {
    match k
    case End(raw) => End(x + raw)
    case Then(raw, s, rest) => Then(x + raw, s, rest)
  }

  /** The layout of the value's dump, followed by `k`. */
  function Lay(j: Json, k: Layout): Layout {
    match j
    case JNull => Prepend("null", k)
    case JBool(flag) => Prepend(if flag then "true" else "false", k)
    case JNum(n) => Prepend(n, k)
    case JStr(s) => Then("", s, k)
    case JArr(items) => Prepend("[", LayItems(items, Prepend("]", k)))
    case JObj(fields) => Prepend("{", LayFields(fields, Prepend("}", k)))
  }

  function LayItems(items: Items, k: Layout): Layout {
    match items
    case INil => k
    case ICons(head, rest) => Lay(head, if rest.INil? then k else Prepend(", ", LayItems(rest, k)))
  }

  function LayFields(fields: Fields, k: Layout): Layout {
    match fields
    case FNil => k
    case FCons(key, value, more) =>
      Then("", key, Prepend(": ", Lay(value, if more.FNil? then k else Prepend(", ", LayFields(more, k)))))
  }

  function LayoutOf(j: Json): Layout { Lay(j, End("")) }

  function MapLayout(k: Layout, f: string -> string): Layout {
    match k
    case End(_) => k
    case Then(raw, s, rest) => Then(raw, f(s), MapLayout(rest, f))
  }

  lemma PrependText(x: string, k: Layout)
    ensures TextOf(Prepend(x, k)) == x + TextOf(k)
  {
    if k.Then? { Reassociate(x, k.raw, Quoted(k.s) + TextOf(k.rest)); }
  }

  lemma {:induction false} LayText(j: Json, k: Layout)
    ensures TextOf(Lay(j, k)) == Dump(j) + TextOf(k)
  {
    match j
    case JNull => PrependText("null", k);
    case JBool(flag) => PrependText(if flag then "true" else "false", k);
    case JNum(n) => PrependText(n, k);
    case JStr(s) =>
    case JArr(items) =>
      LayItemsText(items, Prepend("]", k));
      Bracketed("[", DumpItems(items), "]", k, LayItems(items, Prepend("]", k)));
    case JObj(fields) =>
      LayFieldsText(fields, Prepend("}", k));
      Bracketed("{", DumpFields(fields), "}", k, LayFields(fields, Prepend("}", k)));
  }

  lemma Bracketed(open: string, inner: string, close: string, k: Layout, whole: Layout)
    requires TextOf(whole) == inner + TextOf(Prepend(close, k))
    ensures TextOf(Prepend(open, whole)) == (open + (inner + close)) + TextOf(k)
  {
    PrependText(close, k);
    PrependText(open, whole);
  }

  lemma {:induction false} LayItemsText(items: Items, k: Layout)
    ensures TextOf(LayItems(items, k)) == DumpItems(items) + TextOf(k)
  {
    match items
    case INil =>
    case ICons(head, rest) =>
      if rest.INil? {
        LayText(head, k);
      } else {
        LayItemsText(rest, k);
        LayText(head, Prepend(", ", LayItems(rest, k)));
        Listed(Dump(head), DumpItems(rest), k, LayItems(rest, k));
      }
  }

  lemma Listed(first: string, others: string, k: Layout, whole: Layout)
    requires TextOf(whole) == others + TextOf(k)
    ensures first + TextOf(Prepend(", ", whole)) == (first + (", " + others)) + TextOf(k)
  {
    Continued(others, k, whole);
  }

  lemma Continued(others: string, k: Layout, whole: Layout)
    requires TextOf(whole) == others + TextOf(k)
    ensures TextOf(Prepend(", ", whole)) == (", " + others) + TextOf(k)
  {
    PrependText(", ", whole);
  }

  lemma {:induction false} LayFieldsText(fields: Fields, k: Layout)
    ensures TextOf(LayFields(fields, k)) == DumpFields(fields) + TextOf(k)
  {
    match fields
    case FNil =>
    case FCons(key, value, more) =>
      var tail := if more.FNil? then k else Prepend(", ", LayFields(more, k));
      var others := if more.FNil? then "" else ", " + DumpFields(more);
      if !more.FNil? {
        LayFieldsText(more, k);
        Continued(DumpFields(more), k, LayFields(more, k));
      }
      LayText(value, tail);
      Keyed(Quoted(key), Dump(value), others, k, Lay(value, tail));
  }

  lemma Keyed(key: string, value: string, others: string, k: Layout, whole: Layout)
    requires TextOf(whole) == value + (others + TextOf(k))
    ensures "" + (key + TextOf(Prepend(": ", whole))) == (key + (": " + (value + others))) + TextOf(k)
  {
    PrependText(": ", whole);
  }

  lemma LayoutText(j: Json)
    ensures TextOf(LayoutOf(j)) == Dump(j)
  {
    LayText(j, End(""));
  }

  lemma PrependMap(x: string, k: Layout, f: string -> string)
    ensures MapLayout(Prepend(x, k), f) == Prepend(x, MapLayout(k, f))
  {
  }

  lemma {:induction false} LayMap(j: Json, k: Layout, f: string -> string)
    ensures MapLayout(Lay(j, k), f) == Lay(MapStrings(j, f), MapLayout(k, f))
  {
    match j
    case JNull | JBool(_) | JNum(_) | JStr(_) =>
    case JArr(items) =>
      LayItemsMap(items, Prepend("]", k), f);
      PrependMap("[", LayItems(items, Prepend("]", k)), f);
      PrependMap("]", k, f);
    case JObj(fields) =>
      LayFieldsMap(fields, Prepend("}", k), f);
      PrependMap("{", LayFields(fields, Prepend("}", k)), f);
      PrependMap("}", k, f);
  }

  lemma {:induction false} LayItemsMap(items: Items, k: Layout, f: string -> string)
    ensures MapLayout(LayItems(items, k), f) == LayItems(MapItems(items, f), MapLayout(k, f))
  {
    match items
    case INil =>
    case ICons(head, rest) =>
      if rest.INil? {
        LayMap(head, k, f);
      } else {
        LayItemsMap(rest, k, f);
        LayMap(head, Prepend(", ", LayItems(rest, k)), f);
        PrependMap(", ", LayItems(rest, k), f);
      }
  }

  lemma {:induction false} LayFieldsMap(fields: Fields, k: Layout, f: string -> string)
    ensures MapLayout(LayFields(fields, k), f) == LayFields(MapFields(fields, f), MapLayout(k, f))
  {
    match fields
    case FNil =>
    case FCons(key, value, more) =>
      var tail := if more.FNil? then k else Prepend(", ", LayFields(more, k));
      if !more.FNil? {
        LayFieldsMap(more, k, f);
        PrependMap(", ", LayFields(more, k), f);
      }
      LayMap(value, tail, f);
      PrependMap(": ", Lay(value, tail), f);
  }

  // ------------------------------------------------------------ replacing in a dump

  function Replacer(v: string, t: string): string -> string
    requires v != ""
  {
    s => Replace(s, v, t)
  }

  /** Every occurrence of `v` in the dump lies within a string and begins at one of its characters. */
  ghost predicate Quiet(k: Layout, v: string) {
    !Contains(k.raw, v) && (k.Then? ==> Aligned(v, k.s) && Quiet(k.rest, v))
  }

  /** A single character is apart from every value that does not hold it. */
  lemma OneIsApart(v: string, q: string)
    requires v != "" && |q| == 1 && q[0] !in v
    ensures Apart(v, q)
  {
    if Contains(q, v) { HeadInside(q, v); }
    if Contains(v, q) { HeadInside(v, q); }
    forall k | 0 < k < |v| ensures !(v[k..] <= q) { PrefixAt(v, k, q, 0); }
    forall k | 0 < k < |v| && k <= |q| ensures v[..k] != q[|q|-k..] { SuffixEnd(v, k, q); }
  }

  lemma QuoteIsApart(v: string)
    requires v != "" && AllVerbatim(v)
    ensures Apart(v, "\"")
  {
    OneIsApart(v, "\"");
  }

  /** Quotes divide a replacement: the syntax, the string and the rest are replaced on their own. */
  lemma ReplaceThen(raw: string, s: string, rest: string, v: string, t: string)
    requires v != "" && AllVerbatim(v)
    ensures Replace(raw + (Quoted(s) + rest), v, t) ==
            Replace(raw, v, t) + ("\"" + (Replace(Escape(s), v, t) + ("\"" + Replace(rest, v, t))))
  {
    QuoteIsApart(v);
    Unquoted(Escape(s), rest);
    TokenSplits(raw, "\"", Escape(s) + ("\"" + rest), v, t);
    TokenSplits(Escape(s), "\"", rest, v, t);
  }

  lemma Unquoted(e: string, rest: string)
    ensures ("\"" + (e + "\"")) + rest == "\"" + (e + ("\"" + rest))
  {
  }

  lemma {:induction false} ReplaceText(k: Layout, v: string, t: string)
    requires v != "" && AllVerbatim(v) && AllVerbatim(t) && Quiet(k, v)
    ensures Replace(TextOf(k), v, t) == TextOf(MapLayout(k, Replacer(v, t)))
  {
    ReplaceAbsent(k.raw, v, t);
    if k.Then? {
      ReplaceText(k.rest, v, t);
      ReplaceThen(k.raw, k.s, TextOf(k.rest), v, t);
      ReplaceEscaped(k.s, v, t);
      Unquoted(Escape(Replace(k.s, v, t)), TextOf(MapLayout(k.rest, Replacer(v, t))));
    }
  }

  predicate Syntax(x: string) { AllPrintable(x) && '"' !in x }

  /** Outside the strings everything is printable, and no quote. */
  predicate Unbroken(k: Layout) { Syntax(k.raw) && (k.Then? ==> Unbroken(k.rest)) }

  lemma SameBeforeQuote(a: string, r: string, c: string, u: string)
    requires '"' !in a && '"' !in c && a + ("\"" + r) == c + ("\"" + u)
    ensures a == c && r == u
  {
    BeforeQuote(a, r, c, u);
    BeforeQuote(c, u, a, r);
    SameParts(a, "\"" + r, c, "\"" + u);
    DropFront("\"", r, u);
  }

  lemma BeforeQuote(a: string, r: string, c: string, u: string)
    requires '"' !in a && a + ("\"" + r) == c + ("\"" + u)
    ensures |a| <= |c|
  {
    assert (a + ("\"" + r))[|c|] == '"';
  }

  lemma {:induction false} NoQuoteReplaced(x: string, v: string, t: string)
    requires v != "" && '"' !in x && '"' !in t
    ensures '"' !in Replace(x, v, t)
    decreases |x|
  {
    if x != "" {
      if v <= x { NoQuoteReplaced(x[|v|..], v, t); } else { NoQuoteReplaced(x[1..], v, t); }
    }
  }

  lemma {:induction false} QuietIfReplaced(k: Layout, v: string, t: string)
    requires v != "" && AllVerbatim(v) && IsToken(t) && !Contains(t, v) && Unbroken(k)
    requires Replace(TextOf(k), v, t) == TextOf(MapLayout(k, Replacer(v, t)))
    ensures Quiet(k, v)
  {
    TokenIsVerbatim(t);
    if k.Then? {
      var s, rest, out := k.s, TextOf(k.rest), TextOf(MapLayout(k.rest, Replacer(v, t)));
      ReplaceThen(k.raw, s, rest, v, t);
      Unquoted(Escape(Replace(s, v, t)), out);
      NoQuoteReplaced(k.raw, v, t);
      var l, r := Replace(Escape(s), v, t), Escape(Replace(s, v, t));
      SameBeforeQuote(Replace(k.raw, v, t), l + ("\"" + Replace(rest, v, t)), k.raw, r + ("\"" + out));
      AlignedIfReplaced(s, v, t, "\"" + Replace(rest, v, t), "\"" + out);
      ReplaceEscaped(s, v, t);
      DropFront(l, "\"" + Replace(rest, v, t), "\"" + out);
      DropFront("\"", Replace(rest, v, t), out);
      QuietIfReplaced(k.rest, v, t);
    }
    if Contains(k.raw, v) { ReplaceChanges(k.raw, v, t); }
  }

  ghost predicate WrittenPlainly(numeral: string -> bool) { forall n :: numeral(n) ==> AllVerbatim(n) }

  lemma PrependUnbroken(x: string, k: Layout)
    requires Syntax(x) && Unbroken(k)
    ensures Unbroken(Prepend(x, k))
  {
  }

  lemma {:induction false} LayUnbroken(j: Json, k: Layout, numeral: string -> bool)
    requires Sound(j, numeral) && WrittenPlainly(numeral) && Unbroken(k)
    ensures Unbroken(Lay(j, k))
  {
    match j
    case JNull => PrependUnbroken("null", k);
    case JBool(flag) => PrependUnbroken(if flag then "true" else "false", k);
    case JNum(n) => PrependUnbroken(n, k);
    case JStr(_) =>
    case JArr(items) =>
      PrependUnbroken("]", k);
      LayItemsUnbroken(items, Prepend("]", k), numeral);
      PrependUnbroken("[", LayItems(items, Prepend("]", k)));
    case JObj(fields) =>
      PrependUnbroken("}", k);
      LayFieldsUnbroken(fields, Prepend("}", k), numeral);
      PrependUnbroken("{", LayFields(fields, Prepend("}", k)));
  }

  lemma {:induction false} LayItemsUnbroken(items: Items, k: Layout, numeral: string -> bool)
    requires SoundItems(items, numeral) && WrittenPlainly(numeral) && Unbroken(k)
    ensures Unbroken(LayItems(items, k))
  {
    match items
    case INil =>
    case ICons(head, rest) =>
      LayItemsUnbroken(rest, k, numeral);
      PrependUnbroken(", ", LayItems(rest, k));
      LayUnbroken(head, if rest.INil? then k else Prepend(", ", LayItems(rest, k)), numeral);
  }

  lemma {:induction false} LayFieldsUnbroken(fields: Fields, k: Layout, numeral: string -> bool)
    requires SoundFields(fields, numeral) && WrittenPlainly(numeral) && Unbroken(k)
    ensures Unbroken(LayFields(fields, k))
  {
    match fields
    case FNil =>
    case FCons(key, value, more) =>
      var tail := if more.FNil? then k else Prepend(", ", LayFields(more, k));
      LayFieldsUnbroken(more, k, numeral);
      PrependUnbroken(", ", LayFields(more, k));
      LayUnbroken(value, tail, numeral);
      PrependUnbroken(": ", Lay(value, tail));
  }

  /** Replacing a value in a dump is dumping the value with its strings replaced, exactly when every occurrence in the
      dump lies within a string and does not begin inside an escape sequence. */
  lemma ReplaceInDumpExactly(j: Json, v: string, t: string, numeral: string -> bool)
    requires Sound(j, numeral) && WrittenPlainly(numeral)
    requires v != "" && AllVerbatim(v) && IsToken(t) && !Contains(t, v)
    ensures Replace(Dump(j), v, t) == Dump(MapStrings(j, Replacer(v, t))) <==> Quiet(LayoutOf(j), v)
  {
    var k := LayoutOf(j);
    TokenIsVerbatim(t);
    LayoutText(j);
    LayoutText(MapStrings(j, Replacer(v, t)));
    LayMap(j, End(""), Replacer(v, t));
    LayUnbroken(j, End(""), numeral);
    if Quiet(k, v) { ReplaceText(k, v, t); }
    if Replace(TextOf(k), v, t) == TextOf(MapLayout(k, Replacer(v, t))) { QuietIfReplaced(k, v, t); }
  }

  // ------------------------------------------------------------ scrubbing a dump

  function Scrubber(order: seq<string>, token: string -> string): string -> string {
    s => ScrubAll(s, order, token)
  }

  lemma {:induction false} MapTwice(k: Layout, f: string -> string, g: string -> string, h: string -> string)
    requires forall s :: h(s) == g(f(s))
    ensures MapLayout(MapLayout(k, f), g) == MapLayout(k, h)
  {
    if k.Then? { MapTwice(k.rest, f, g, h); }
  }

  lemma {:induction false} MapNothing(k: Layout, f: string -> string)
    requires forall s :: f(s) == s
    ensures MapLayout(k, f) == k
  {
    if k.Then? { MapNothing(k.rest, f); }
  }

  /** The values are written as themselves and are apart from all tokens. */
  ghost predicate Scrubbable(order: seq<string>, token: string -> string) {
    Tokens(token) && AllApart(order, token) && forall v | v in order :: AllVerbatim(v)
  }

  ghost predicate AllQuiet(k: Layout, order: seq<string>) { forall v | v in order && v != "" :: Quiet(k, v) }

  lemma {:induction false} QuietAfterReplace(k: Layout, w: string, v: string, t: string)
    requires v != "" && AllVerbatim(v) && AllVerbatim(t) && Apart(w, t) && Quiet(k, v) && Quiet(k, w)
    ensures Quiet(MapLayout(k, Replacer(v, t)), w)
  {
    if k.Then? {
      AlignedAfterReplace(w, k.s, v, t);
      QuietAfterReplace(k.rest, w, v, t);
    }
  }

  lemma ScrubberStep(init: seq<string>, v: string, token: string -> string, s: string)
    ensures ScrubAll(s, init + [v], token) ==
            var before := ScrubAll(s, init, token); if v == "" then before else Replace(before, v, token(v))
  {
    assert (init + [v])[..|init|] == init;
    if v != "" { AbsentIsIdentity(ScrubAll(s, init, token), v, token(v)); }
  }

  /** The strings after one more value. */
  function Onward(k: Layout, v: string, t: string): Layout {
    if v == "" then k else MapLayout(k, Replacer(v, t))
  }

  /** Values that do not begin outside the strings or inside escape sequences do not come to, either. */
  lemma {:induction false} QuietAfterScrub(k: Layout, w: string, order: seq<string>, token: string -> string)
    requires Scrubbable(order, token) && AllQuiet(k, order)
    requires Quiet(k, w) && forall v | v in order :: Apart(w, token(v))
    ensures Quiet(MapLayout(k, Scrubber(order, token)), w)
    decreases |order|
  {
    if order == [] {
      MapNothing(k, Scrubber(order, token));
    } else {
      var init, v := order[..|order|-1], order[|order|-1];
      Shorter(order, init, v, k, token);
      QuietAfterScrub(k, w, init, token);
      ScrubOnward(k, init, v, token);
      if v != "" {
        QuietAfterScrub(k, v, init, token);
        TokenIsVerbatim(token(v));
        QuietAfterReplace(MapLayout(k, Scrubber(init, token)), w, v, token(v));
      }
    }
  }

  lemma Shorter(order: seq<string>, init: seq<string>, v: string, k: Layout, token: string -> string)
    requires order != [] && init == order[..|order|-1] && v == order[|order|-1]
    requires Scrubbable(order, token) && AllQuiet(k, order)
    ensures order == init + [v] && Scrubbable(init, token) && AllQuiet(k, init)
    ensures AllVerbatim(v) && IsToken(token(v)) && forall x | x in init :: x in order
    ensures v != "" ==> Quiet(k, v) && forall x | x in init :: Apart(v, token(x))
  {
    assert v in order && order == init + [v];
  }

  lemma ScrubOnward(k: Layout, init: seq<string>, v: string, token: string -> string)
    ensures MapLayout(k, Scrubber(init + [v], token)) == Onward(MapLayout(k, Scrubber(init, token)), v, token(v))
  {
    var f, h := Scrubber(init, token), Scrubber(init + [v], token);
    var g := if v == "" then Same() else Replacer(v, token(v));
    forall s ensures h(s) == g(f(s)) { ScrubberStep(init, v, token, s); }
    MapTwice(k, f, g, h);
    if v == "" { MapNothing(MapLayout(k, f), g); }
  }

  function Same(): string -> string { s => s }

  lemma {:induction false} ScrubText(k: Layout, order: seq<string>, token: string -> string)
    requires Scrubbable(order, token) && AllQuiet(k, order)
    ensures ScrubAll(TextOf(k), order, token) == TextOf(MapLayout(k, Scrubber(order, token)))
    decreases |order|
  {
    if order == [] {
      MapNothing(k, Scrubber(order, token));
    } else {
      var init, v := order[..|order|-1], order[|order|-1];
      Shorter(order, init, v, k, token);
      ScrubText(k, init, token);
      ScrubOnward(k, init, v, token);
      ScrubberStep(init, v, token, TextOf(k));
      if v != "" {
        QuietAfterScrub(k, v, init, token);
        TokenIsVerbatim(token(v));
        ReplaceText(MapLayout(k, Scrubber(init, token)), v, token(v));
      }
    }
  }

  /** Scrubbing the dump is dumping the value with its strings scrubbed. */
  lemma ScrubbedDumpIsDump(j: Json, order: seq<string>, token: string -> string)
    requires Scrubbable(order, token) && AllQuiet(LayoutOf(j), order)
    ensures ScrubAll(Dump(j), order, token) == Dump(MapStrings(j, Scrubber(order, token)))
  {
    LayoutText(j);
    LayoutText(MapStrings(j, Scrubber(order, token)));
    LayMap(j, End(""), Scrubber(order, token));
    ScrubText(LayoutOf(j), order, token);
  }

  /** No string of the value, keys included, holds `v`. */
  predicate FreeOf(j: Json, v: string) {
    match j
    case JNull | JBool(_) | JNum(_) => true
    case JStr(s) => !Contains(s, v)
    case JArr(items) => ItemsFreeOf(items, v)
    case JObj(fields) => FieldsFreeOf(fields, v)
  }

  predicate ItemsFreeOf(items: Items, v: string) {
    items.ICons? ==> FreeOf(items.head, v) && ItemsFreeOf(items.rest, v)
  }

  predicate FieldsFreeOf(fields: Fields, v: string) {
    fields.FCons? ==> !Contains(fields.key, v) && FreeOf(fields.value, v) && FieldsFreeOf(fields.more, v)
  }

  lemma {:induction false} MappedIsFree(j: Json, f: string -> string, v: string)
    requires forall s :: !Contains(f(s), v)
    ensures FreeOf(MapStrings(j, f), v)
  {
    match j
    case JNull | JBool(_) | JNum(_) | JStr(_) =>
    case JArr(items) => MappedItemsAreFree(items, f, v);
    case JObj(fields) => MappedFieldsAreFree(fields, f, v);
  }

  lemma {:induction false} MappedItemsAreFree(items: Items, f: string -> string, v: string)
    requires forall s :: !Contains(f(s), v)
    ensures ItemsFreeOf(MapItems(items, f), v)
  {
    if items.ICons? {
      MappedIsFree(items.head, f, v);
      MappedItemsAreFree(items.rest, f, v);
    }
  }

  lemma {:induction false} MappedFieldsAreFree(fields: Fields, f: string -> string, v: string)
    requires forall s :: !Contains(f(s), v)
    ensures FieldsFreeOf(MapFields(fields, f), v)
  {
    if fields.FCons? {
      MappedIsFree(fields.value, f, v);
      MappedFieldsAreFree(fields.more, f, v);
    }
  }

  /** And no string of it holds a scrubbed value. */
  lemma ScrubbedStringsAreFree(j: Json, order: seq<string>, token: string -> string, v: string)
    requires AllApart(order, token) && v in order && v != ""
    ensures FreeOf(MapStrings(j, Scrubber(order, token)), v)
  {
    forall s ensures !Contains(Scrubber(order, token)(s), v) { ScrubIsClean(s, order, token); }
    MappedIsFree(j, Scrubber(order, token), v);
  }

  // ------------------------------------------------------------ what a scrubbed dump can still spell

  /** A plain letter other than the two. */
  function Pad(a: char, b: char): (c: char)
    ensures Verbatim(c) && c != a && c != b
  {
    if a != 'x' && b != 'x' then 'x' else if a != 'y' && b != 'y' then 'y' else 'z'
  }

  lemma AddBack(e: string, c: char, v: string)
    requires v != "" && !Contains(e, v)
    requires v[|v|-1] != c || (|v| > 1 && e != "" && v[|v|-2] != e[|e|-1])
    ensures !Contains(e + [c], v)
  {
    if Contains(e + [c], v) {
      var x, y := Around(e + [c], v);
      if y != "" { NotTheLast(e, c, x, v, y); } else { TheLast(e, c, x, v); }
    }
  }

  lemma NotTheLast(e: string, c: char, x: string, v: string, y: string)
    requires e + [c] == x + (v + y) && y != ""
    ensures Contains(e, v)
  {
    var z := y[..|y|-1];
    assert y == z + [y[|y|-1]];
    assert x + (v + y) == (x + (v + z)) + [y[|y|-1]];
    assert e == (e + [c])[..|e|];
    assert e == x + (v + z);
    ContainsMiddle(x, v, z);
  }

  lemma TheLast(e: string, c: char, x: string, v: string)
    requires e + [c] == x + (v + "") && v != ""
    ensures v[|v|-1] == c && (|v| > 1 && e != "" ==> v[|v|-2] == e[|e|-1])
  {
    var n := |x| + |v|;
    assert (e + [c])[n-1] == v[|v|-1];
    assert |v| > 1 ==> (e + [c])[n-2] == v[|v|-2];
  }

  /** Some string holds the value and its dump does not show it. */
  lemma SomeDumpHides(v: string) returns (t: string)
    requires v != "" && !Visible(v)
    ensures Contains(t, v) && !Contains(Dump(JStr(t)), v)
  {
    var n := |v|;
    var a, b := Pad(v[0], v[if n > 1 then 1 else 0]), Pad(v[n-1], v[if n > 1 then n-2 else 0]);
    t := [a] + (v + [b]);
    ContainsMiddle([a], v, [b]);
    EscapePadded(a, v, b);
    QuoteIsVisible();
    if Contains(Escape(v), v) { ShownIsVisible(v); }
    PaddedHides(a, Escape(v), b, v);
  }

  lemma QuoteIsVisible()
    ensures Visible("\"")
  {
    assert VisibleAs("\"", "", "\"", "", "");
  }

  lemma PaddedHides(a: char, e: string, b: char, v: string)
    requires v != "" && v != "\"" && !Contains(e, v)
    requires v[0] != a && (|v| > 1 ==> v[1] != a) && v[|v|-1] != b && (|v| > 1 ==> v[|v|-2] != b)
    ensures !Contains("\"" + (([a] + (e + [b])) + "\""), v)
  {
    var inner := e + [b];
    AddBack(e, b, v);
    PrefixStep(a, inner, v);
    AddFront(a, inner, v);
    QuotedHides(a, [a] + inner, b, v);
  }

  lemma QuotedHides(a: char, m: string, b: char, v: string)
    requires v != "" && v != "\"" && m != "" && m[0] == a && m[|m|-1] == b && !Contains(m, v)
    requires v[0] != a && (|v| > 1 ==> v[1] != a) && (|v| > 1 ==> v[|v|-2] != b)
    ensures !Contains("\"" + (m + "\""), v)
  {
    if |v| == 1 { assert v == [v[0]]; }
    AddBack(m, '"', v);
    var rest := m[1..] + "\"";
    assert m + "\"" == [a] + rest;
    BehindQuote(a, rest, v);
    AddFront('"', m + "\"", v);
  }

  lemma EscapePadded(a: char, v: string, b: char)
    requires Verbatim(a) && Verbatim(b)
    ensures Escape([a] + (v + [b])) == [a] + (Escape(v) + [b])
  {
    EscapeConcat([a], v + [b]);
    EscapeConcat(v, [b]);
    EscapeVerbatim([a]);
    EscapeVerbatim([b]);
  }

  lemma BehindQuote(a: char, rest: string, v: string)
    requires v != "" && v[0] != a && v != "\"" && (|v| > 1 ==> v[1] != a)
    ensures !(v <= ['"'] + ([a] + rest))
  {
    PrefixStep('"', [a] + rest, v);
    if |v| > 1 {
      PrefixStep(a, rest, v[1..]);
    } else {
      assert v == [v[0]];
    }
  }

  /** Whatever is dumped and scrubbed, its text spells no string that holds `v`. */
  ghost predicate NeverSpelled(v: string, token: string -> string) {
    forall j, u | Contains(u, v) :: !Contains(ScrubAll(Dump(j), [v], token), Escape(u))
  }

  /** The scrub keeps a value from whoever loads the text again exactly when the dump of a string never conceals it. */
  lemma NeverSpelledExactly(v: string, token: string -> string)
    requires v != "" && Apart(v, token(v))
    ensures NeverSpelled(v, token) <==> Visible(v)
  {
    if Visible(v) {
      ShownExactly(v);
      forall j, u | Contains(u, v) ensures !Contains(ScrubAll(Dump(j), [v], token), Escape(u)) {
        ScrubIsClean(Dump(j), [v], token);
        assert v in [v];
        ContainsThrough(ScrubAll(Dump(j), [v], token), Escape(u), v);
      }
    } else {
      var t := SomeDumpHides(v);
      ScrubAbsent(Dump(JStr(t)), [v], token);
      ContainsMiddle("\"", Escape(t), "\"");
    }
  }

  lemma ContainsThrough(text: string, u: string, v: string)
    requires Contains(u, v)
    ensures Contains(text, u) ==> Contains(text, v)
  {
    if Contains(text, u) {
      var x, y := Around(text, u);
      ContainsFirst(u, y, v);
      assert text[|x|..] == u + y;
      ContainsSuffix(text, |x|, v);
    }
  }

  // ------------------------------------------------------------ characters the dump never shows

  lemma {:induction false} UnbrokenIsPrintable(k: Layout)
    requires Unbroken(k)
    ensures AllPrintable(TextOf(k))
  {
    if k.Then? {
      EscapeIsPrintable(k.s);
      UnbrokenIsPrintable(k.rest);
    }
  }

  lemma UnprintableIsAbsent(text: string, v: string)
    requires AllPrintable(text) && !AllPrintable(v)
    ensures !Contains(text, v)
  {
    if Contains(text, v) {
      var j := ContainsAt(text, v);
      forall i | 0 <= i < |v| ensures Printable(v[i]) { assert v[i] == text[j..j+|v|][i] == text[j+i]; }
    }
  }

  /** Values with a character outside printable ASCII are never found in a dump. */
  lemma UnprintableIsNeverScrubbed(j: Json, order: seq<string>, token: string -> string, numeral: string -> bool)
    requires Sound(j, numeral) && WrittenPlainly(numeral) && forall v | v in order :: !AllPrintable(v)
    ensures ScrubAll(Dump(j), order, token) == Dump(j)
  {
    LayUnbroken(j, End(""), numeral);
    LayoutText(j);
    UnbrokenIsPrintable(LayoutOf(j));
    forall v | v in order ensures !Contains(Dump(j), v) { UnprintableIsAbsent(Dump(j), v); }
    ScrubAbsent(Dump(j), order, token);
  }

  /** Arrays, objects and the constants as Python writes them by default. */
  lemma DumpShapes(a: Json, b: Json, k: string, l: string)
    ensures Dump(JArr(ICons(a, ICons(b, INil)))) == "[" + Dump(a) + ", " + Dump(b) + "]"
    ensures Dump(JObj(FCons(k, a, FCons(l, b, FNil)))) ==
            "{" + Quoted(k) + ": " + Dump(a) + ", " + Quoted(l) + ": " + Dump(b) + "}"
    ensures Dump(JArr(INil)) == "[]" && Dump(JObj(FNil)) == "{}"
    ensures Dump(JNull) == "null" && Dump(JBool(true)) == "true" && Dump(JBool(false)) == "false"
  {
    var x, y, p, q := Dump(a), Dump(b), Quoted(k), Quoted(l);
    assert DumpItems(ICons(b, INil)) == y + "" == y;
    assert DumpItems(ICons(a, ICons(b, INil))) == x + (", " + y);
    assert DumpFields(FCons(l, b, FNil)) == q + (": " + (y + "")) == q + (": " + y);
    assert DumpFields(FCons(k, a, FCons(l, b, FNil))) == p + (": " + (x + (", " + (q + (": " + y)))));
    assert "[" + ((x + (", " + y)) + "]") == "[" + x + ", " + y + "]";
    Nested(p, x, q, y);
  }

  lemma Nested(p: string, x: string, q: string, y: string)
    ensures "{" + ((p + (": " + (x + (", " + (q + (": " + y)))))) + "}") == "{" + p + ": " + x + ", " + q + ": " + y + "}"
  {
  }
}
