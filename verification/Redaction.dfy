/** Trace redaction: the values under personal keys are masked inside the JSON of every text field, also in
    JSON nested in strings, and the masked values are then scrubbed from all text fields. */
module Redaction {
  import opened Wrappers
  import opened Text
  import opened Scrubbing
  import opened WholeScrub
  import opened Escaping
  import opened JsonText

  /** Python's `json.loads` (`None` when it raises), `str`, and the texts it writes numbers as. */
  datatype Codec = Codec(loads: string -> Option<Json>, show: Json -> string, numeral: string -> bool) {
    /** What the redactor needs of them: a text is no shorter than the value it denotes, loading gives dictionaries
        with distinct keys and numbers that Python writes, and dumping and loading gives such a value back. */
    ghost predicate Faithful() {
      (forall s :: loads(s).Some? ==> Size(loads(s).value) <= |s| && Sound(loads(s).value, numeral)) &&
      (forall j :: Sound(j, numeral) ==> loads(Dump(j)) == Some(j)) && WrittenPlainly(numeral)
    }
  }

  predicate Container(j: Json) { j.JArr? || j.JObj? }

  /** The container a string denotes, if it denotes one. */
  function Inner(c: Codec, s: string): Option<Json> {
    var r := c.loads(s);
    if r.Some? && Container(r.value) then r else None
  }

  datatype Policy = Policy(keys: set<string>, token: string -> string, codec: Codec)

  predicate Personal(p: Policy, key: string, value: Json) {
    Lower(key) in p.keys && value != JNull
  }

  // ------------------------------------------------------------ masking one value

  function Mask(p: Policy, j: Json): Json
    requires p.codec.Faithful()
    decreases Size(j), j
  {
    match j
    case JNull | JBool(_) | JNum(_) => j
    case JStr(s) =>
      var inner := Inner(p.codec, s);
      if inner.Some? then JStr(Dump(Mask(p, inner.value))) else j
    case JArr(items) => JArr(MaskItems(p, items))
    case JObj(fields) => JObj(MaskFields(p, fields))
  }

  function MaskItems(p: Policy, items: Items): Items
    requires p.codec.Faithful()
    decreases ItemsSize(items), items
  {
    match items
    case INil => INil
    case ICons(head, rest) => ICons(Mask(p, head), MaskItems(p, rest))
  }

  function MaskFields(p: Policy, fields: Fields): Fields
    requires p.codec.Faithful()
    decreases FieldsSize(fields), fields
  {
    match fields
    case FNil => FNil
    case FCons(key, value, more) =>
      var masked := if Personal(p, key, value) then JStr(p.token(p.codec.show(value))) else Mask(p, value);
      FCons(key, masked, MaskFields(p, more))
  }

  /** The values that masking hides. */
  function Hidden(p: Policy, j: Json): set<string>
    requires p.codec.Faithful()
    decreases Size(j), j
  {
    match j
    case JNull | JBool(_) | JNum(_) => {}
    case JStr(s) =>
      var inner := Inner(p.codec, s);
      if inner.Some? then Hidden(p, inner.value) else {}
    case JArr(items) => HiddenItems(p, items)
    case JObj(fields) => HiddenFields(p, fields)
  }

  function HiddenItems(p: Policy, items: Items): set<string>
    requires p.codec.Faithful()
    decreases ItemsSize(items), items
  {
    match items
    case INil => {}
    case ICons(head, rest) => Hidden(p, head) + HiddenItems(p, rest)
  }

  function HiddenFields(p: Policy, fields: Fields): set<string>
    requires p.codec.Faithful()
    decreases FieldsSize(fields), fields
  {
    match fields
    case FNil => {}
    case FCons(key, value, more) =>
      (if Personal(p, key, value) then {p.codec.show(value)} else Hidden(p, value)) + HiddenFields(p, more)
  }

  // ------------------------------------------------------------ nothing personal is left

  /** Every personal key at every depth, also inside strings that denote JSON, holds null or the token of a
      value in `values`. */
  predicate Masked(p: Policy, j: Json, values: set<string>)
    requires p.codec.Faithful()
    decreases Size(j), j
  {
    match j
    case JNull | JBool(_) | JNum(_) => true
    case JStr(s) => var inner := Inner(p.codec, s); inner.Some? ==> Masked(p, inner.value, values)
    case JArr(items) => MaskedItems(p, items, values)
    case JObj(fields) => MaskedFields(p, fields, values)
  }

  predicate MaskedItems(p: Policy, items: Items, values: set<string>)
    requires p.codec.Faithful()
    decreases ItemsSize(items), items
  {
    items.ICons? ==> Masked(p, items.head, values) && MaskedItems(p, items.rest, values)
  }

  predicate IsTokenOf(p: Policy, j: Json, values: set<string>) {
    exists v | v in values :: j == JStr(p.token(v))
  }

  predicate MaskedFields(p: Policy, fields: Fields, values: set<string>)
    requires p.codec.Faithful()
    decreases FieldsSize(fields), fields
  {
    fields.FCons? ==>
      (if Personal(p, fields.key, fields.value) then IsTokenOf(p, fields.value, values)
       else Masked(p, fields.value, values)) &&
      MaskedFields(p, fields.more, values)
  }

  /** A text field after the structured pass. */
  function MaskText(p: Policy, text: string): string
    requires p.codec.Faithful()
  {
    var r := p.codec.loads(text);
    if r.Some? then Dump(Mask(p, r.value)) else text
  }

  function HiddenText(p: Policy, text: string): set<string>
    requires p.codec.Faithful()
  {
    var r := p.codec.loads(text);
    if r.Some? then Hidden(p, r.value) else {}
  }

  lemma {:induction false} MaskKeepsSound(p: Policy, j: Json)
    requires p.codec.Faithful() && Sound(j, p.codec.numeral)
    ensures Sound(Mask(p, j), p.codec.numeral) && (Container(j) ==> Container(Mask(p, j)))
    decreases Size(j), j
  {
    match j
    case JNull | JBool(_) | JNum(_) =>
    case JStr(s) =>
    case JArr(items) => MaskItemsKeepsSound(p, items);
    case JObj(fields) => MaskFieldsKeepsSound(p, fields);
  }

  lemma {:induction false} MaskItemsKeepsSound(p: Policy, items: Items)
    requires p.codec.Faithful() && SoundItems(items, p.codec.numeral)
    ensures SoundItems(MaskItems(p, items), p.codec.numeral)
    decreases ItemsSize(items), items
  {
    match items
    case INil =>
    case ICons(head, rest) =>
      MaskKeepsSound(p, head);
      MaskItemsKeepsSound(p, rest);
  }

  lemma {:induction false} MaskFieldsKeepsSound(p: Policy, fields: Fields)
    requires p.codec.Faithful() && SoundFields(fields, p.codec.numeral)
    ensures SoundFields(MaskFields(p, fields), p.codec.numeral) && Keys(MaskFields(p, fields)) == Keys(fields)
    decreases FieldsSize(fields), fields
  {
    match fields
    case FNil =>
    case FCons(key, value, more) =>
      MaskKeepsSound(p, value);
      MaskFieldsKeepsSound(p, more);
  }

  lemma DumpedIsInner(c: Codec, j: Json)
    requires c.Faithful() && Sound(j, c.numeral) && Container(j)
    ensures Inner(c, Dump(j)) == Some(j)
  {
    assert c.loads(Dump(j)) == Some(j);
  }

  /** After masking, every personal value at every depth is the token of a hidden value. */
  lemma {:induction false} MaskingIsComplete(p: Policy, j: Json, values: set<string>)
    requires p.codec.Faithful() && Sound(j, p.codec.numeral) && Hidden(p, j) <= values
    ensures Masked(p, Mask(p, j), values)
    decreases Size(j), j
  {
    match j
    case JNull | JBool(_) | JNum(_) =>
    case JStr(s) =>
      var inner := Inner(p.codec, s);
      if inner.Some? {
        MaskingIsComplete(p, inner.value, values);
        MaskKeepsSound(p, inner.value);
        DumpedIsInner(p.codec, Mask(p, inner.value));
      }
    case JArr(items) => MaskingItemsIsComplete(p, items, values);
    case JObj(fields) => MaskingFieldsIsComplete(p, fields, values);
  }

  lemma {:induction false} MaskingItemsIsComplete(p: Policy, items: Items, values: set<string>)
    requires p.codec.Faithful() && SoundItems(items, p.codec.numeral) && HiddenItems(p, items) <= values
    ensures MaskedItems(p, MaskItems(p, items), values)
    decreases ItemsSize(items), items
  {
    match items
    case INil =>
    case ICons(head, rest) =>
      MaskingIsComplete(p, head, values);
      MaskingItemsIsComplete(p, rest, values);
  }

  lemma {:induction false} MaskingFieldsIsComplete(p: Policy, fields: Fields, values: set<string>)
    requires p.codec.Faithful() && SoundFields(fields, p.codec.numeral) && HiddenFields(p, fields) <= values
    ensures MaskedFields(p, MaskFields(p, fields), values)
    decreases FieldsSize(fields), fields
  {
    match fields
    case FNil =>
    case FCons(key, value, more) =>
      if Personal(p, key, value) {
        assert p.codec.show(value) in values;
        assert IsTokenOf(p, JStr(p.token(p.codec.show(value))), values);
      } else {
        MaskingIsComplete(p, value, values);
        MaskedNullness(p, value);
      }
      MaskingFieldsIsComplete(p, more, values);
  }

  lemma MaskedNullness(p: Policy, j: Json)
    requires p.codec.Faithful()
    ensures Mask(p, j) == JNull <==> j == JNull
  {
    match j
    case JNull | JBool(_) | JNum(_) | JArr(_) | JObj(_) =>
    case JStr(s) =>
  }

  // ------------------------------------------------------------ everything else is kept

  /** What is left when personal values are forgotten and nested JSON is decoded. */
  function Skeleton(p: Policy, j: Json): Json
    requires p.codec.Faithful()
    decreases Size(j), j
  {
    match j
    case JNull | JBool(_) | JNum(_) => j
    case JStr(s) =>
      var inner := Inner(p.codec, s);
      if inner.Some? then Skeleton(p, inner.value) else j
    case JArr(items) => JArr(SkeletonItems(p, items))
    case JObj(fields) => JObj(SkeletonFields(p, fields))
  }

  function SkeletonItems(p: Policy, items: Items): Items
    requires p.codec.Faithful()
    decreases ItemsSize(items), items
  {
    match items
    case INil => INil
    case ICons(head, rest) => ICons(Skeleton(p, head), SkeletonItems(p, rest))
  }

  function SkeletonFields(p: Policy, fields: Fields): Fields
    requires p.codec.Faithful()
    decreases FieldsSize(fields), fields
  {
    match fields
    case FNil => FNil
    case FCons(key, value, more) =>
      FCons(key, if Personal(p, key, value) then JStr("") else Skeleton(p, value), SkeletonFields(p, more))
  }

  /** Masking keeps every key, their order, and every value that is not personal. */
  lemma {:induction false} MaskingKeepsTheRest(p: Policy, j: Json)
    requires p.codec.Faithful() && Sound(j, p.codec.numeral)
    ensures Skeleton(p, Mask(p, j)) == Skeleton(p, j)
    decreases Size(j), j
  {
    match j
    case JNull | JBool(_) | JNum(_) =>
    case JStr(s) =>
      var inner := Inner(p.codec, s);
      if inner.Some? {
        MaskingKeepsTheRest(p, inner.value);
        MaskKeepsSound(p, inner.value);
        DumpedIsInner(p.codec, Mask(p, inner.value));
      }
    case JArr(items) => MaskingItemsKeepsTheRest(p, items);
    case JObj(fields) => MaskingFieldsKeepsTheRest(p, fields);
  }

  lemma {:induction false} MaskingItemsKeepsTheRest(p: Policy, items: Items)
    requires p.codec.Faithful() && SoundItems(items, p.codec.numeral)
    ensures SkeletonItems(p, MaskItems(p, items)) == SkeletonItems(p, items)
    decreases ItemsSize(items), items
  {
    match items
    case INil =>
    case ICons(head, rest) =>
      MaskingKeepsTheRest(p, head);
      MaskingItemsKeepsTheRest(p, rest);
  }

  lemma {:induction false} MaskingFieldsKeepsTheRest(p: Policy, fields: Fields)
    requires p.codec.Faithful() && SoundFields(fields, p.codec.numeral)
    ensures SkeletonFields(p, MaskFields(p, fields)) == SkeletonFields(p, fields)
    decreases FieldsSize(fields), fields
  {
    match fields
    case FNil =>
    case FCons(key, value, more) =>
      if !Personal(p, key, value) {
        MaskingKeepsTheRest(p, value);
        MaskedNullness(p, value);
      }
      MaskingFieldsKeepsTheRest(p, more);
  }

  // ------------------------------------------------------------ longest first

  /** `values` in one of the orders `sorted(values, key=len, reverse=True)` can give. */
  ghost predicate LongestFirst(order: seq<string>, values: set<string>) {
    (forall v :: v in order <==> v in values) &&
    (forall i, k | 0 <= i < k < |order| :: order[i] != order[k] && |order[k]| <= |order[i]|)
  }

  lemma {:induction false} LongestExists(values: set<string>)
    requires values != {}
    ensures exists v | v in values :: forall u | u in values :: |u| <= |v|
    decreases |values|
  {
    var w :| w in values;
    var others := values - {w};
    if others == {} {
      assert forall u | u in values :: u == w || u in others;
    } else {
      LongestExists(others);
      var v :| v in others && forall u | u in others :: |u| <= |v|;
      var best := if |w| <= |v| then v else w;
      assert forall u | u in values :: u == w || u in others;
      assert best in values && forall u | u in values :: |u| <= |best|;
    }
  }

  /** The values taken so far, longest first, are no shorter than the ones that remain. */
  ghost predicate TakenFirst(order: seq<string>, remaining: set<string>, values: set<string>) {
    remaining <= values && LongestFirst(order, values - remaining) &&
    forall v, u | v in order && u in remaining :: |u| <= |v|
  }

  lemma TakeLongest(order: seq<string>, remaining: set<string>, values: set<string>, v: string)
    requires TakenFirst(order, remaining, values)
    requires v in remaining && forall u | u in remaining :: |u| <= |v|
    ensures TakenFirst(order + [v], remaining - {v}, values)
  {
    var whole := order + [v];
    forall u ensures u in whole <==> u in values - (remaining - {v}) {
      assert u in whole <==> u in order || u == v;
    }
    forall i, k | 0 <= i < k < |whole| ensures whole[i] != whole[k] && |whole[k]| <= |whole[i]| {
      assert whole[i] == order[i] && order[i] in order;
    }
  }

  lemma ScrubOneMore(text: string, order: seq<string>, v: string, token: string -> string)
    ensures ScrubAll(text, order + [v], token) ==
            var before := ScrubAll(text, order, token);
            if v != "" && Contains(before, v) then Replace(before, v, token(v)) else before
  {
    assert (order + [v])[..|order|] == order;
  }

  method ScrubLiterals(text: string, values: set<string>, token: string -> string)
      returns (out: string)
    ensures exists order :: LongestFirst(order, values) && out == ScrubAll(text, order, token)
  {
    out := text;
    var remaining := values;
    ghost var order: seq<string> := [];
    while remaining != {}
      invariant TakenFirst(order, remaining, values)
      invariant out == ScrubAll(text, order, token)
      decreases remaining
    {
      LongestExists(remaining);
      var v: string :| v in remaining && forall u | u in remaining :: |u| <= |v|;
      TakeLongest(order, remaining, values, v);
      ScrubOneMore(text, order, v, token);
      if v != "" && Contains(out, v) {
        out := Replace(out, v, token(v));
      }
      order := order + [v];
      remaining := remaining - {v};
    }
    assert values - remaining == values;
    assert LongestFirst(order, values);
  }

  // ------------------------------------------------------------ trace rows

  /** A column of a trace row: a string, or anything else (including `None`). */
  datatype Cell = Words(text: string) | Other

  type Row = map<string, Cell>

  const TEXT_FIELDS: seq<string> := ["tool_output", "tool_input", "reasoning_text"]

  function MaskCell(p: Policy, cell: Cell): Cell
    requires p.codec.Faithful()
  {
    if cell.Words? && cell.text != "" then Words(MaskText(p, cell.text)) else cell
  }

  function HiddenCell(p: Policy, cell: Cell): set<string>
    requires p.codec.Faithful()
  {
    if cell.Words? && cell.text != "" then HiddenText(p, cell.text) else {}
  }

  function MaskRow(p: Policy, row: Row, names: seq<string>): Row
    requires p.codec.Faithful()
  {
    if names == [] then row
    else
      var k, masked := names[|names|-1], MaskRow(p, row, names[..|names|-1]);
      if k in masked then masked[k := MaskCell(p, masked[k])] else masked
  }

  function HiddenRow(p: Policy, row: Row, names: seq<string>): set<string>
    requires p.codec.Faithful()
  {
    if names == [] then {}
    else
      var k := names[|names|-1];
      HiddenRow(p, row, names[..|names|-1]) + if k in row then HiddenCell(p, row[k]) else {}
  }

  function HiddenRows(p: Policy, rows: seq<Row>): set<string>
    requires p.codec.Faithful()
  {
    if rows == [] then {}
    else HiddenRows(p, rows[..|rows|-1]) + HiddenRow(p, rows[|rows|-1], TEXT_FIELDS)
  }

  ghost predicate Scrubbed(p: Policy, before: Cell, after: Cell, values: set<string>) {
    match before
    case Other => after == Other
    case Words(text) =>
      exists order :: LongestFirst(order, values) && after == Words(ScrubAll(text, order, p.token))
  }

  ghost predicate RowScrubbed(p: Policy, before: Row, after: Row, values: set<string>, names: seq<string>) {
    after.Keys == before.Keys &&
    forall k | k in before :: if k in names then Scrubbed(p, before[k], after[k], values) else after[k] == before[k]
  }

  /** Masking all text fields, then scrubbing all text fields of every value hidden anywhere in the trace. */
  ghost predicate Redacted(p: Policy, before: seq<Row>, after: seq<Row>)
    requires p.codec.Faithful()
  {
    |after| == |before| &&
    forall i | 0 <= i < |before| ::
      RowScrubbed(p, MaskRow(p, before[i], TEXT_FIELDS), after[i], HiddenRows(p, before), TEXT_FIELDS)
  }

  /** Field by field: the named ones are masked, all others are kept. */
  lemma {:induction false} MaskRowFieldwise(p: Policy, row: Row, names: seq<string>)
    requires p.codec.Faithful() && Distinct(names)
    ensures MaskRow(p, row, names).Keys == row.Keys
    ensures forall k | k in row ::
              MaskRow(p, row, names)[k] == if k in names then MaskCell(p, row[k]) else row[k]
  {
    if names != [] {
      var init, last := names[..|names|-1], names[|names|-1];
      assert names == init + [last] && last !in init;
      MaskRowFieldwise(p, row, init);
    }
  }

  lemma StepIn(p: Policy, row: Row, names: seq<string>, k: string)
    requires p.codec.Faithful() && k !in names && Distinct(names)
    ensures k in MaskRow(p, row, names) <==> k in row
    ensures k in row ==> MaskRow(p, row, names)[k] == row[k]
    ensures MaskRow(p, row, names + [k]) ==
            if k in row then MaskRow(p, row, names)[k := MaskCell(p, row[k])] else MaskRow(p, row, names)
    ensures HiddenRow(p, row, names + [k]) == HiddenRow(p, row, names) + if k in row then HiddenCell(p, row[k]) else {}
  {
    MaskRowFieldwise(p, row, names);
    assert (names + [k])[..|names|] == names;
  }

  /** Is there anything to mask under `k`? */
  predicate Filled(row: Row, k: string) { k in row && row[k].Words? && row[k].text != "" }

  /** The first `n` fields are masked, and what they hid is collected. */
  ghost predicate MaskedFirst(p: Policy, row: Row, names: seq<string>, n: nat, out: Row, grown: set<string>, collected: set<string>)
    requires p.codec.Faithful() && n <= |names|
  {
    out == MaskRow(p, row, names[..n]) && grown == collected + HiddenRow(p, row, names[..n])
  }

  lemma MaskNext(p: Policy, row: Row, names: seq<string>, n: nat, out: Row, grown: set<string>, collected: set<string>)
    requires p.codec.Faithful() && Distinct(names) && n < |names|
    requires MaskedFirst(p, row, names, n, out, grown, collected)
    ensures var k := names[n];
            if Filled(out, k) then
              MaskedFirst(p, row, names, n + 1, out[k := Words(MaskText(p, out[k].text))],
                          grown + HiddenText(p, out[k].text), collected)
            else
              MaskedFirst(p, row, names, n + 1, out, grown, collected)
  {
    var k := names[n];
    assert names[..n+1] == names[..n] + [k];
    StepIn(p, row, names[..n], k);
    if k in out && !Filled(out, k) { assert out[k := out[k]] == out; }
  }

  method MaskRowFields(p: Policy, row: Row, names: seq<string>, collected: set<string>)
      returns (out: Row, grown: set<string>)
    requires p.codec.Faithful() && Distinct(names)
    ensures out == MaskRow(p, row, names)
    ensures grown == collected + HiddenRow(p, row, names)
  {
    out, grown := row, collected;
    for n := 0 to |names|
      invariant MaskedFirst(p, row, names, n, out, grown, collected)
    {
      var k := names[n];
      MaskNext(p, row, names, n, out, grown, collected);
      if Filled(out, k) {
        grown := grown + HiddenText(p, out[k].text);
        out := out[k := Words(MaskText(p, out[k].text))];
      }
    }
    assert names[..|names|] == names;
  }

  method ScrubRowFields(p: Policy, row: Row, names: seq<string>, values: set<string>) returns (out: Row)
    requires Distinct(names)
    ensures RowScrubbed(p, row, out, values, names)
  {
    out := row;
    for n := 0 to |names|
      invariant RowScrubbed(p, row, out, values, names[..n])
    {
      var k := names[n];
      assert names[..n+1] == names[..n] + [k];
      if k in out && out[k].Words? && out[k].text != "" {
        var text := ScrubLiterals(out[k].text, values, p.token);
        out := out[k := Words(text)];
      } else if k in out {
        EmptyIsScrubbed(p, out[k], values);
      }
    }
    assert names[..|names|] == names;
  }

  lemma LongestInFront(v: string, order: seq<string>, values: set<string>)
    requires v in values && (forall u | u in values :: |u| <= |v|) && LongestFirst(order, values - {v})
    ensures LongestFirst([v] + order, values)
  {
    var whole := [v] + order;
    forall i, k | 0 <= i < k < |whole| ensures whole[i] != whole[k] && |whole[k]| <= |whole[i]| {
      assert whole[k] == order[k-1] && order[k-1] in order;
      if i > 0 { assert whole[i] == order[i-1]; }
    }
  }

  lemma {:induction false} OrderExists(values: set<string>)
    ensures exists order :: LongestFirst(order, values)
    decreases |values|
  {
    if values == {} {
      assert LongestFirst([], values);
    } else {
      LongestExists(values);
      var v :| v in values && forall u | u in values :: |u| <= |v|;
      OrderExists(values - {v});
      var order :| LongestFirst(order, values - {v});
      LongestInFront(v, order, values);
    }
  }

  /** A cell that the second pass skips is one that scrubbing would leave alone. */
  lemma EmptyIsScrubbed(p: Policy, cell: Cell, values: set<string>)
    requires cell.Other? || cell.text == ""
    ensures Scrubbed(p, cell, cell, values)
  {
    OrderExists(values);
    var order :| LongestFirst(order, values);
    ScrubEmpty(order, p.token);
  }

  lemma NothingToScrub(p: Policy, row: Row)
    ensures RowScrubbed(p, row, row, {}, TEXT_FIELDS)
  {
    assert LongestFirst([], {});
    forall k | k in row ensures Scrubbed(p, row[k], row[k], {}) {
      if row[k].Words? { assert ScrubAll(row[k].text, [], p.token) == row[k].text; }
    }
  }

  ghost predicate MaskedUpTo(p: Policy, before: seq<Row>, now: seq<Row>, i: nat)
    requires p.codec.Faithful()
  {
    |now| == |before| &&
    forall j | 0 <= j < |now| :: now[j] == if j < i then MaskRow(p, before[j], TEXT_FIELDS) else before[j]
  }

  /** The first `i` rows are masked, and what they hid is collected. */
  ghost predicate PassedUpTo(p: Policy, before: seq<Row>, now: seq<Row>, i: nat, collected: set<string>)
    requires p.codec.Faithful()
  {
    i <= |before| && MaskedUpTo(p, before, now, i) && collected == HiddenRows(p, before[..i])
  }

  lemma MaskOneMore(p: Policy, before: seq<Row>, now: seq<Row>, i: nat, collected: set<string>, masked: Row, grown: set<string>)
    requires p.codec.Faithful() && PassedUpTo(p, before, now, i, collected) && i < |now|
    requires masked == MaskRow(p, now[i], TEXT_FIELDS) && grown == collected + HiddenRow(p, now[i], TEXT_FIELDS)
    ensures PassedUpTo(p, before, now[i := masked], i + 1, grown)
  {
    assert now[i] == before[i];
    assert before[..i+1][..i] == before[..i];
  }

  lemma AllPassed(p: Policy, before: seq<Row>, now: seq<Row>, collected: set<string>)
    requires p.codec.Faithful() && PassedUpTo(p, before, now, |before|, collected)
    ensures collected == HiddenRows(p, before) && |now| == |before|
    ensures forall j | 0 <= j < |now| :: now[j] == MaskRow(p, before[j], TEXT_FIELDS)
  {
    assert before[..|before|] == before;
  }

  /** The first pass over the trace. */
  method MaskRows(p: Policy, rows: array<Row>) returns (collected: set<string>)
    requires p.codec.Faithful()
    modifies rows
    ensures collected == HiddenRows(p, old(rows[..]))
    ensures forall j | 0 <= j < rows.Length :: rows[j] == MaskRow(p, old(rows[j]), TEXT_FIELDS)
  {
    ghost var before := rows[..];
    collected := {};
    for i := 0 to rows.Length
      invariant PassedUpTo(p, before, rows[..], i, collected)
    {
      ghost var now := rows[..];
      var masked, grown := MaskRowFields(p, rows[i], TEXT_FIELDS, collected);
      MaskOneMore(p, before, now, i, collected, masked, grown);
      rows[i], collected := masked, grown;
      assert rows[..] == now[i := masked];
    }
    AllPassed(p, before, rows[..], collected);
  }

  /** The second pass over the trace. */
  method ScrubRows(p: Policy, rows: array<Row>, values: set<string>)
    modifies rows
    ensures forall j | 0 <= j < rows.Length :: RowScrubbed(p, old(rows[j]), rows[j], values, TEXT_FIELDS)
  {
    for i := 0 to rows.Length
      invariant forall j | 0 <= j < i :: RowScrubbed(p, old(rows[j]), rows[j], values, TEXT_FIELDS)
      invariant forall j | i <= j < rows.Length :: rows[j] == old(rows[j])
    {
      var scrubbed := ScrubRowFields(p, rows[i], TEXT_FIELDS, values);
      rows[i] := scrubbed;
    }
  }

  method RedactRows(p: Policy, rows: array<Row>)
    requires p.codec.Faithful()
    modifies rows
    ensures Redacted(p, old(rows[..]), rows[..])
  {
    ghost var before := rows[..];
    var collected := MaskRows(p, rows);
    if collected != {} {
      ScrubRows(p, rows, collected);
    } else {
      forall j | 0 <= j < rows.Length
        ensures RowScrubbed(p, rows[j], rows[j], collected, TEXT_FIELDS)
      {
        NothingToScrub(p, rows[j]);
      }
    }
  }

  // ------------------------------------------------------------ what a redacted trace cannot show

  /** Every nonempty value is apart from the token of every value. */
  ghost predicate Separable(values: set<string>, token: string -> string) {
    forall v, w | v in values && w in values && w != "" :: Apart(w, token(v))
  }

  /** In particular values without brackets, none of which occurs inside a token. */
  lemma PlainValuesAreSeparable(values: set<string>, token: string -> string)
    requires Tokens(token) && forall v | v in values :: Plain(v)
    ensures Separable(values, token) <==> forall v, w | v in values && w in values && w != "" :: !Contains(token(v), w)
  {
    forall v, w | v in values && w in values ensures Apart(w, token(v)) <==> !Contains(token(v), w) {
      PlainIsApart(w, token(v));
    }
  }

  /** The condition is exact: in every longest-first order the scrub cleans all texts and keeps all tokens, or in
      none. */
  lemma SeparableExactly(order: seq<string>, values: set<string>, token: string -> string)
    requires Tokens(token) && LongestFirst(order, values)
    ensures Works(order, token) <==> Separable(values, token)
  {
    WholeScrubIsExact(order, token);
  }

  /** No text field of any row contains a value that was hidden anywhere in the trace. */
  lemma RedactedTraceIsClean(p: Policy, before: seq<Row>, after: seq<Row>, i: nat, k: string, v: string)
    requires p.codec.Faithful()
    requires Redacted(p, before, after) && Separable(HiddenRows(p, before), p.token)
    requires i < |after| && k in TEXT_FIELDS && k in after[i] && after[i][k].Words?
    requires v in HiddenRows(p, before) && v != ""
    ensures !Contains(after[i][k].text, v)
  {
    var values, masked := HiddenRows(p, before), MaskRow(p, before[i], TEXT_FIELDS);
    assert Scrubbed(p, masked[k], after[i][k], values);
    var order :| LongestFirst(order, values) && after[i][k] == Words(ScrubAll(masked[k].text, order, p.token));
    ScrubIsClean(masked[k].text, order, p.token);
  }

  /** A token written by the structured pass is still in place after the scrub, whatever the order among
      values of equal length, and the text on either side of it is scrubbed on its own. */
  lemma TokensSurvive(p: Policy, a: string, x: string, b: string, after: Cell, values: set<string>)
    requires Separable(values, p.token) && x in values
    requires Scrubbed(p, Words(a + (p.token(x) + b)), after, values)
    ensures exists left, right ::
              after == Words(left + (p.token(x) + right)) &&
              Scrubbed(p, Words(a), Words(left), values) && Scrubbed(p, Words(b), Words(right), values)
  {
    var order :| LongestFirst(order, values) && after == Words(ScrubAll(a + (p.token(x) + b), order, p.token));
    ScrubKeepsToken(a, x, b, order, p.token);
    var left, right := ScrubAll(a, order, p.token), ScrubAll(b, order, p.token);
    assert Scrubbed(p, Words(a), Words(left), values);
    assert Scrubbed(p, Words(b), Words(right), values);
    assert after == Words(left + (p.token(x) + right));
  }

  /** The JSON of a masked field: every personal value is a token, and the rest is as it was. */
  lemma MaskedFieldIsJson(p: Policy, text: string, values: set<string>)
    requires p.codec.Faithful() && HiddenText(p, text) <= values
    requires p.codec.loads(text).Some?
    ensures p.codec.loads(MaskText(p, text)).Some?
    ensures Masked(p, p.codec.loads(MaskText(p, text)).value, values)
    ensures Skeleton(p, p.codec.loads(MaskText(p, text)).value) == Skeleton(p, p.codec.loads(text).value)
  {
    var j := p.codec.loads(text).value;
    MaskKeepsSound(p, j);
    MaskingIsComplete(p, j, values);
    MaskingKeepsTheRest(p, j);
    assert p.codec.loads(Dump(Mask(p, j))) == Some(Mask(p, j));
  }

  // ------------------------------------------------------------ what the scrub cannot see

  /** A field is left as the structured pass wrote it exactly when it shows no hidden value in its raw text
      (for values that are not inside their own tokens). */
  lemma UnseenIsUntouched(p: Policy, text: string, after: Cell, values: set<string>)
    requires Separable(values, p.token) && Scrubbed(p, Words(text), after, values)
    ensures after == Words(text) <==> forall v | v in values && v != "" :: !Contains(text, v)
  {
    var order :| LongestFirst(order, values) && after == Words(ScrubAll(text, order, p.token));
    if forall v | v in values && v != "" :: !Contains(text, v) {
      ScrubAbsent(text, order, p.token);
    } else {
      ScrubIsClean(text, order, p.token);
    }
  }

  /** No text field of any row even spells, in the way JSON is written, a string that holds a hidden value, if the
      value is one that the dump of a string never conceals. */
  lemma RedactedTraceSpellsNone(p: Policy, before: seq<Row>, after: seq<Row>, i: nat, k: string, v: string, u: string)
    requires p.codec.Faithful()
    requires Redacted(p, before, after) && Separable(HiddenRows(p, before), p.token)
    requires i < |after| && k in TEXT_FIELDS && k in after[i] && after[i][k].Words?
    requires v in HiddenRows(p, before) && v != "" && Visible(v) && Contains(u, v)
    ensures !Contains(after[i][k].text, Escape(u))
  {
    RedactedTraceIsClean(p, before, after, i, k, v);
    ShownExactly(v);
    ContainsThrough(after[i][k].text, Escape(u), v);
  }

  /** Any other value is held by some string whose field, scrubbed of the value, still loads as that string. */
  lemma ConcealedValueReturns(p: Policy, v: string) returns (t: string)
    requires p.codec.Faithful() && v != "" && !Visible(v)
    ensures Contains(t, v) && p.codec.loads(ScrubAll(Dump(JStr(t)), [v], p.token)) == Some(JStr(t))
  {
    t := SomeDumpHides(v);
    ScrubAbsent(Dump(JStr(t)), [v], p.token);
    assert Sound(JStr(t), p.codec.numeral);
  }

  /** The field is the dump of the scrubbed value, and loads as that, with no string that holds any of the values. */
  ghost predicate LoadsScrubbed(p: Policy, masked: Json, order: seq<string>, after: Cell)
    requires p.codec.Faithful()
  {
    var scrubbed := MapStrings(masked, Scrubber(order, p.token));
    after == Words(Dump(scrubbed)) && (Sound(scrubbed, p.codec.numeral) ==> p.codec.loads(after.text) == Some(scrubbed)) &&
    forall v | v in order && v != "" :: FreeOf(scrubbed, v)
  }

  /** What whoever loads a redacted field gets: the masked value with every string scrubbed on its own, if the hidden
      values are written as themselves, stay apart from the tokens, and occur in the dump only within strings and not
      from inside an escape sequence. */
  lemma LoadedFieldIsClean(p: Policy, text: string, after: Cell, values: set<string>)
    requires p.codec.Faithful() && Tokens(p.token) && p.codec.loads(text).Some?
    requires Separable(values, p.token) && forall v | v in values :: AllVerbatim(v)
    requires forall v | v in values && v != "" :: Quiet(LayoutOf(Mask(p, p.codec.loads(text).value)), v)
    requires Scrubbed(p, Words(MaskText(p, text)), after, values)
    ensures exists order ::
              LongestFirst(order, values) && LoadsScrubbed(p, Mask(p, p.codec.loads(text).value), order, after)
  {
    var masked := Mask(p, p.codec.loads(text).value);
    var order :| LongestFirst(order, values) && after == Words(ScrubAll(Dump(masked), order, p.token));
    ScrubbedDumpIsDump(masked, order, p.token);
    forall v | v in order && v != "" ensures FreeOf(MapStrings(masked, Scrubber(order, p.token)), v) {
      ScrubbedStringsAreFree(masked, order, p.token, v);
    }
    assert LoadsScrubbed(p, masked, order, after);
  }

  /** `{"name": v, "note": v}`: a value under a personal key, and once more where nothing marks it. */
  function TwiceNamed(v: string): Json {
    JObj(FCons("name", JStr(v), FCons("note", JStr(v), FNil)))
  }

  function OnceMasked(p: Policy, v: string): Json {
    JObj(FCons("name", JStr(p.token(v)), FCons("note", JStr(v), FNil)))
  }

  lemma MaskTwiceNamed(p: Policy, v: string)
    requires p.codec.Faithful() && "name" in p.keys && "note" !in p.keys
    requires p.codec.show(JStr(v)) == v && Inner(p.codec, v).None?
    ensures Mask(p, TwiceNamed(v)) == OnceMasked(p, v) && Hidden(p, TwiceNamed(v)) == {v}
    ensures Sound(TwiceNamed(v), p.codec.numeral) && Sound(OnceMasked(p, v), p.codec.numeral)
  {
    assert Lower("name") == "name" && Lower("note") == "note";
    assert "name"[1] != "note"[1];
    var note := FCons("note", JStr(v), FNil);
    assert Mask(p, JStr(v)) == JStr(v) && Hidden(p, JStr(v)) == {};
    assert MaskFields(p, FNil) == FNil && HiddenFields(p, FNil) == {};
    assert MaskFields(p, note) == note && HiddenFields(p, note) == {};
    assert MaskFields(p, FCons("name", JStr(v), note)) == FCons("name", JStr(p.token(v)), note);
    assert SoundFields(FNil, p.codec.numeral) && SoundFields(note, p.codec.numeral);
    assert "name" !in Keys(note);
  }

  lemma TwiceNamedField(p: Policy, v: string)
    requires p.codec.Faithful() && "name" in p.keys && "note" !in p.keys
    requires p.codec.show(JStr(v)) == v && Inner(p.codec, v).None?
    ensures MaskText(p, Dump(TwiceNamed(v))) == Dump(OnceMasked(p, v)) && HiddenText(p, Dump(TwiceNamed(v))) == {v}
  {
    MaskTwiceNamed(p, v);
    assert p.codec.loads(Dump(TwiceNamed(v))) == Some(TwiceNamed(v));
  }

  /** Values with a character outside printable ASCII are masked under their key and left everywhere else. */
  lemma UnprintableSurvives(p: Policy, v: string, after: Cell)
    requires p.codec.Faithful() && "name" in p.keys && "note" !in p.keys
    requires p.codec.show(JStr(v)) == v && Inner(p.codec, v).None? && !AllPrintable(v)
    requires Scrubbed(p, Words(Dump(OnceMasked(p, v))), after, {v})
    ensures after.Words? && p.codec.loads(after.text) == Some(OnceMasked(p, v))
  {
    var masked := OnceMasked(p, v);
    MaskTwiceNamed(p, v);
    var order :| LongestFirst(order, {v}) && after == Words(ScrubAll(Dump(masked), order, p.token));
    UnprintableIsNeverScrubbed(masked, order, p.token, p.codec.numeral);
    assert p.codec.loads(Dump(masked)) == Some(masked);
  }

  /** "José", with an acute accent. */
  const ACCENTED: string := "Jos\U{E9}"

  /** The scrub compares raw text, and `json.dumps` writes "é" as an escape sequence. So the field
      {"name": "José", "note": "José"} is redacted to one that whoever loads it still reads the name from. */
  lemma EscapedValueSurvives(p: Policy, after: Cell)
    requires p.codec.Faithful() && "name" in p.keys && "note" !in p.keys
    requires p.codec.show(JStr(ACCENTED)) == ACCENTED && p.codec.loads(ACCENTED) == None
    requires var text := Dump(TwiceNamed(ACCENTED)); Scrubbed(p, Words(MaskText(p, text)), after, HiddenText(p, text))
    ensures after.Words? && p.codec.loads(after.text) == Some(OnceMasked(p, ACCENTED))
  {
    TwiceNamedField(p, ACCENTED);
    assert !Printable(ACCENTED[3]);
    UnprintableSurvives(p, ACCENTED, after);
  }
}
