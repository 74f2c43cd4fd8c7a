/** Which values of a trace are personal and what becomes of them, stated over places: paths of keys, positions, and
    steps into JSON that a string holds. */
module Exposure {
  import opened Wrappers
  import opened Text
  import opened Scrubbing
  import opened JsonText
  import opened Redaction

  // ------------------------------------------------------------ places

  /** Under a key, at a position, or inside a string that denotes an array or an object. */
  datatype Hop = Key(key: string) | Item(index: nat) | Within

  function FieldAt(fields: Fields, key: string): Option<Json> {
    match fields
    case FNil => None
    case FCons(k, value, more) => if k == key then Some(value) else FieldAt(more, key)
  }

  function ItemAt(items: Items, i: nat): Option<Json> {
    match items
    case INil => None
    case ICons(head, rest) => if i == 0 then Some(head) else ItemAt(rest, i - 1)
  }

  function Go(c: Codec, j: Json, hop: Hop): Option<Json> {
    match hop
    case Key(key) => if j.JObj? then FieldAt(j.fields, key) else None
    case Item(i) => if j.JArr? then ItemAt(j.items, i) else None
    case Within =>
      if j.JStr? && c.loads(j.text).Some? && (c.loads(j.text).value.JArr? || c.loads(j.text).value.JObj?)
      then c.loads(j.text) else None
  }

  /** The value at a place. */
  function At(c: Codec, j: Json, path: seq<Hop>): Option<Json>
    decreases |path|
  {
    if path == [] then Some(j)
    else
      var next := Go(c, j, path[0]);
      if next.None? then None else At(c, next.value, path[1..])
  }

  /** A value other than null under a personal key. */
  predicate PersonalHop(p: Policy, j: Json, hop: Hop) {
    hop.Key? && Lower(hop.key) in p.keys && Go(p.codec, j, hop).Some? && Go(p.codec, j, hop).value != JNull
  }

  /** `v` stands at the place, and the way there leads into no personal value. */
  predicate Leads(p: Policy, j: Json, path: seq<Hop>, v: Json)
    decreases |path|
  {
    if path == [] then v == j
    else
      var next := Go(p.codec, j, path[0]);
      next.Some? && !PersonalHop(p, j, path[0]) && Leads(p, next.value, path[1..], v)
  }

  /** `v` stands under the personal key `key` at the place, is not null, and lies in no other personal value. */
  ghost predicate Exposed(p: Policy, j: Json, path: seq<Hop>, key: string, v: Json) {
    exists at :: Leads(p, j, path, at) && PersonalHop(p, at, Key(key)) && Go(p.codec, at, Key(key)) == Some(v)
  }

  // ------------------------------------------------------------ what is collected

  lemma {:induction false} FieldsHidden(p: Policy, fields: Fields, key: string)
    requires p.codec.Faithful() && FieldAt(fields, key).Some?
    ensures var v := FieldAt(fields, key).value;
            (if Personal(p, key, v) then {p.codec.show(v)} else Hidden(p, v)) <= HiddenFields(p, fields)
    decreases fields
  {
    if fields.key != key { FieldsHidden(p, fields.more, key); }
  }

  lemma {:induction false} ItemsHidden(p: Policy, items: Items, i: nat)
    requires p.codec.Faithful() && ItemAt(items, i).Some?
    ensures Hidden(p, ItemAt(items, i).value) <= HiddenItems(p, items)
    decreases items
  {
    if i > 0 { ItemsHidden(p, items.rest, i - 1); }
  }

  lemma HopHidden(p: Policy, j: Json, hop: Hop)
    requires p.codec.Faithful() && Go(p.codec, j, hop).Some? && !PersonalHop(p, j, hop)
    ensures Hidden(p, Go(p.codec, j, hop).value) <= Hidden(p, j)
  {
    match hop
    case Key(key) => FieldsHidden(p, j.fields, key);
    case Item(i) => ItemsHidden(p, j.items, i);
    case Within => assert Inner(p.codec, j.text) == p.codec.loads(j.text);
  }

  lemma {:induction false} PathHidden(p: Policy, j: Json, path: seq<Hop>, v: Json)
    requires p.codec.Faithful() && Leads(p, j, path, v)
    ensures Hidden(p, v) <= Hidden(p, j)
    decreases |path|
  {
    if path != [] {
      HopHidden(p, j, path[0]);
      PathHidden(p, Go(p.codec, j, path[0]).value, path[1..], v);
    }
  }

  lemma ExposedIsHidden(p: Policy, j: Json, path: seq<Hop>, key: string, v: Json)
    requires p.codec.Faithful() && Exposed(p, j, path, key, v)
    ensures p.codec.show(v) in Hidden(p, j)
  {
    var at :| Leads(p, j, path, at) && PersonalHop(p, at, Key(key)) && Go(p.codec, at, Key(key)) == Some(v);
    FieldsHidden(p, at.fields, key);
    PathHidden(p, j, path, at);
  }

  /** A collected value's place. */
  datatype Place = Place(path: seq<Hop>, key: string, v: Json)

  ghost predicate Shows(p: Policy, j: Json, place: Place, x: string) {
    Exposed(p, j, place.path, place.key, place.v) && x == p.codec.show(place.v)
  }

  lemma Deeper(p: Policy, j: Json, hop: Hop, place: Place, x: string)
    requires Go(p.codec, j, hop).Some? && !PersonalHop(p, j, hop) && Shows(p, Go(p.codec, j, hop).value, place, x)
    ensures Shows(p, j, Place([hop] + place.path, place.key, place.v), x)
  {
    var path, next := [hop] + place.path, Go(p.codec, j, hop).value;
    var at :| Leads(p, next, place.path, at) && PersonalHop(p, at, Key(place.key)) &&
              Go(p.codec, at, Key(place.key)) == Some(place.v);
    assert path[1..] == place.path;
    assert Leads(p, j, path, at);
  }

  lemma {:induction false} HiddenIsExposed(p: Policy, j: Json, x: string) returns (place: Place)
    requires p.codec.Faithful() && Sound(j, p.codec.numeral) && x in Hidden(p, j)
    ensures Shows(p, j, place, x)
    decreases Size(j), j
  {
    match j
    case JStr(s) =>
      var inner := Inner(p.codec, s).value;
      place := HiddenIsExposed(p, inner, x);
      Deeper(p, j, Within, place, x);
      place := Place([Within] + place.path, place.key, place.v);
    case JArr(items) =>
      var i;
      i, place := HiddenInItems(p, items, x);
      Deeper(p, j, Item(i), place, x);
      place := Place([Item(i)] + place.path, place.key, place.v);
    case JObj(fields) =>
      var key, v;
      key, v, place := HiddenInFields(p, fields, x);
      if Personal(p, key, v) {
        assert Leads(p, j, [], j);
        place := Place([], key, v);
      } else {
        Deeper(p, j, Key(key), place, x);
        place := Place([Key(key)] + place.path, place.key, place.v);
      }
  }

  lemma {:induction false} HiddenInItems(p: Policy, items: Items, x: string) returns (i: nat, place: Place)
    requires p.codec.Faithful() && SoundItems(items, p.codec.numeral) && x in HiddenItems(p, items)
    ensures ItemAt(items, i).Some? && Shows(p, ItemAt(items, i).value, place, x)
    decreases ItemsSize(items), items
  {
    if x in Hidden(p, items.head) {
      i := 0;
      place := HiddenIsExposed(p, items.head, x);
    } else {
      i, place := HiddenInItems(p, items.rest, x);
      i := i + 1;
    }
  }

  lemma {:induction false} HiddenInFields(p: Policy, fields: Fields, x: string) returns (key: string, v: Json, place: Place)
    requires p.codec.Faithful() && SoundFields(fields, p.codec.numeral) && x in HiddenFields(p, fields)
    ensures FieldAt(fields, key) == Some(v)
    ensures if Personal(p, key, v) then x == p.codec.show(v) else Shows(p, v, place, x)
    decreases FieldsSize(fields), fields
  {
    key, v := fields.key, fields.value;
    place := Place([], key, v);
    if Personal(p, key, v) && x == p.codec.show(v) {
    } else if !Personal(p, key, v) && x in Hidden(p, v) {
      place := HiddenIsExposed(p, v, x);
    } else {
      key, v, place := HiddenInFields(p, fields.more, x);
      FieldIsKey(fields.more, key);
    }
  }

  lemma {:induction false} FieldIsKey(fields: Fields, key: string)
    ensures FieldAt(fields, key).Some? <==> key in Keys(fields)
  {
    if fields.FCons? { FieldIsKey(fields.more, key); }
  }

  /** Collected is the text of every exposed value, and nothing else. */
  lemma CollectsExactly(p: Policy, j: Json, x: string)
    requires p.codec.Faithful() && Sound(j, p.codec.numeral)
    ensures x in Hidden(p, j) <==> exists place :: Shows(p, j, place, x)
  {
    if x in Hidden(p, j) { var place := HiddenIsExposed(p, j, x); }
    if place :| Shows(p, j, place, x) { ExposedIsHidden(p, j, place.path, place.key, place.v); }
  }

  // ------------------------------------------------------------ what is masked

  function KeyList(fields: Fields): seq<string> {
    match fields
    case FNil => []
    case FCons(key, _, more) => [key] + KeyList(more)
  }

  lemma {:induction false} MaskedFieldAt(p: Policy, fields: Fields, key: string)
    requires p.codec.Faithful()
    ensures KeyList(MaskFields(p, fields)) == KeyList(fields)
    ensures var v := FieldAt(fields, key);
            FieldAt(MaskFields(p, fields), key) ==
            if v.None? then None
            else Some(if Personal(p, key, v.value) then JStr(p.token(p.codec.show(v.value))) else Mask(p, v.value))
    decreases fields
  {
    if fields.FCons? { MaskedFieldAt(p, fields.more, key); }
  }

  lemma {:induction false} MaskedItemAt(p: Policy, items: Items, i: nat)
    requires p.codec.Faithful()
    ensures ItemAt(MaskItems(p, items), i) ==
            if ItemAt(items, i).None? then None else Some(Mask(p, ItemAt(items, i).value))
    decreases items
  {
    if items.ICons? && i > 0 { MaskedItemAt(p, items.rest, i - 1); }
  }

  lemma {:induction false} GoIsSound(p: Policy, j: Json, hop: Hop)
    requires p.codec.Faithful() && Sound(j, p.codec.numeral) && Go(p.codec, j, hop).Some?
    ensures Sound(Go(p.codec, j, hop).value, p.codec.numeral)
  {
    match hop
    case Key(key) => FieldIsSound(j.fields, key, p.codec.numeral);
    case Item(i) => ItemIsSound(j.items, i, p.codec.numeral);
    case Within =>
  }

  lemma {:induction false} FieldIsSound(fields: Fields, key: string, numeral: string -> bool)
    requires SoundFields(fields, numeral) && FieldAt(fields, key).Some?
    ensures Sound(FieldAt(fields, key).value, numeral)
  {
    if fields.key != key { FieldIsSound(fields.more, key, numeral); }
  }

  lemma {:induction false} ItemIsSound(items: Items, i: nat, numeral: string -> bool)
    requires SoundItems(items, numeral) && ItemAt(items, i).Some?
    ensures Sound(ItemAt(items, i).value, numeral)
  {
    if i > 0 { ItemIsSound(items.rest, i - 1, numeral); }
  }

  /** One hop that leads into no personal value: masked, it leads to the masked value. */
  lemma MaskedHop(p: Policy, j: Json, hop: Hop)
    requires p.codec.Faithful() && Sound(j, p.codec.numeral)
    requires Go(p.codec, j, hop).Some? && !PersonalHop(p, j, hop)
    ensures Go(p.codec, Mask(p, j), hop) == Some(Mask(p, Go(p.codec, j, hop).value))
  {
    match hop
    case Key(key) => MaskedFieldAt(p, j.fields, key);
    case Item(i) => MaskedItemAt(p, j.items, i);
    case Within =>
      var inner := p.codec.loads(j.text).value;
      assert Inner(p.codec, j.text) == Some(inner);
      MaskKeepsSound(p, inner);
      assert p.codec.loads(Dump(Mask(p, inner))) == Some(Mask(p, inner));
  }

  lemma {:induction false} MaskedAlong(p: Policy, j: Json, path: seq<Hop>, v: Json)
    requires p.codec.Faithful() && Sound(j, p.codec.numeral) && Leads(p, j, path, v)
    ensures At(p.codec, Mask(p, j), path) == Some(Mask(p, v)) && Sound(v, p.codec.numeral)
    decreases |path|
  {
    if path != [] {
      MaskedHop(p, j, path[0]);
      GoIsSound(p, j, path[0]);
      MaskedAlong(p, Go(p.codec, j, path[0]).value, path[1..], v);
    }
  }

  lemma {:induction false} AtLonger(c: Codec, j: Json, path: seq<Hop>, hop: Hop)
    requires At(c, j, path).Some?
    ensures At(c, j, path + [hop]) == Go(c, At(c, j, path).value, hop)
    decreases |path|
  {
    var longer := path + [hop];
    if path == [] {
      assert longer[0] == hop && longer[1..] == [];
    } else {
      assert longer[0] == path[0] && longer[1..] == path[1..] + [hop];
      AtLonger(c, Go(c, j, path[0]).value, path[1..], hop);
    }
  }

  /** A value that the walk leaves as it is: no container, and no string that denotes one. */
  predicate Leaf(c: Codec, v: Json) { !v.JArr? && !v.JObj? && Go(c, v, Within).None? }

  /** `m` is `j` with every exposed value replaced by its token: everything that is not in an exposed value stands where
      it stood, objects with their keys in the same order and strings that denote JSON included. */
  ghost predicate Masks(p: Policy, j: Json, m: Json) {
    (forall path, key, v :: Exposed(p, j, path, key, v) ==>
       At(p.codec, m, path + [Key(key)]) == Some(JStr(p.token(p.codec.show(v))))) &&
    (forall path, v :: Leads(p, j, path, v) ==> AtSame(p, v, At(p.codec, m, path)))
  }

  ghost predicate AtSame(p: Policy, v: Json, m: Option<Json>) {
    m.Some? &&
    (Leaf(p.codec, v) ==> m.value == v) &&
    (v.JObj? ==> m.value.JObj? && KeyList(m.value.fields) == KeyList(v.fields)) &&
    (v.JArr? ==> m.value.JArr? && forall i: nat :: ItemAt(m.value.items, i).Some? <==> ItemAt(v.items, i).Some?) &&
    (Go(p.codec, v, Within).Some? ==> Go(p.codec, m.value, Within).Some?)
  }

  lemma MaskedItemsSame(p: Policy, items: Items)
    requires p.codec.Faithful()
    ensures forall i: nat :: ItemAt(MaskItems(p, items), i).Some? <==> ItemAt(items, i).Some?
  {
    forall i: nat ensures ItemAt(MaskItems(p, items), i).Some? <==> ItemAt(items, i).Some? { MaskedItemAt(p, items, i); }
  }

  lemma LeafIsSame(p: Policy, v: Json)
    requires p.codec.Faithful() && Leaf(p.codec, v)
    ensures Mask(p, v) == v
  {
    if v.JStr? { assert Inner(p.codec, v.text).None?; }
  }

  lemma MaskedIsSame(p: Policy, v: Json)
    requires p.codec.Faithful() && Sound(v, p.codec.numeral)
    ensures AtSame(p, v, Some(Mask(p, v)))
  {
    match v
    case JObj(fields) => MaskedFieldAt(p, fields, "");
    case JArr(items) => MaskedItemsSame(p, items);
    case JStr(_) => if Leaf(p.codec, v) { LeafIsSame(p, v); } else { MaskedHop(p, v, Within); }
    case JNull | JBool(_) | JNum(_) =>
  }

  lemma ExposedIsMasked(p: Policy, j: Json, path: seq<Hop>, key: string, v: Json)
    requires p.codec.Faithful() && Sound(j, p.codec.numeral) && Exposed(p, j, path, key, v)
    ensures At(p.codec, Mask(p, j), path + [Key(key)]) == Some(JStr(p.token(p.codec.show(v))))
  {
    var at :| Leads(p, j, path, at) && PersonalHop(p, at, Key(key)) && Go(p.codec, at, Key(key)) == Some(v);
    MaskedAlong(p, j, path, at);
    MaskedFieldAt(p, at.fields, key);
    AtLonger(p.codec, Mask(p, j), path, Key(key));
  }

  /** The walk masks the exposed values, all of them, and nothing else. */
  lemma WalkMasks(p: Policy, j: Json)
    requires p.codec.Faithful() && Sound(j, p.codec.numeral)
    ensures Masks(p, j, Mask(p, j))
  {
    forall path, key, v | Exposed(p, j, path, key, v)
      ensures At(p.codec, Mask(p, j), path + [Key(key)]) == Some(JStr(p.token(p.codec.show(v))))
    {
      ExposedIsMasked(p, j, path, key, v);
    }
    forall path, v | Leads(p, j, path, v) ensures AtSame(p, v, At(p.codec, Mask(p, j), path)) {
      MaskedAlong(p, j, path, v);
      MaskedIsSame(p, v);
    }
  }

  // ------------------------------------------------------------ whole traces

  predicate TextField(k: string) { k == "tool_output" || k == "tool_input" || k == "reasoning_text" }

  /** Somewhere in the JSON of a text field of the row, `x` is the text of an exposed value. */
  ghost predicate RowExposes(p: Policy, row: Row, x: string) {
    exists k :: TextField(k) && k in row && CellExposes(p, row[k], x)
  }

  ghost predicate CellExposes(p: Policy, cell: Cell, x: string) {
    cell.Words? && p.codec.loads(cell.text).Some? && exists place :: Shows(p, p.codec.loads(cell.text).value, place, x)
  }

  ghost predicate TraceExposes(p: Policy, rows: seq<Row>, x: string) {
    exists i | 0 <= i < |rows| :: RowExposes(p, rows[i], x)
  }

  lemma CellCollects(p: Policy, cell: Cell, x: string)
    requires p.codec.Faithful()
    ensures x in HiddenCell(p, cell) <==> CellExposes(p, cell, x)
  {
    if cell.Words? && p.codec.loads(cell.text).Some? {
      var j := p.codec.loads(cell.text).value;
      assert Size(j) <= |cell.text|;
      CollectsExactly(p, j, x);
    }
  }

  lemma {:induction false} RowCollects(p: Policy, row: Row, names: seq<string>, x: string)
    requires p.codec.Faithful()
    ensures x in HiddenRow(p, row, names) <==> exists k :: k in names && k in row && CellExposes(p, row[k], x)
    decreases names
  {
    if names != [] {
      var init, last := names[..|names|-1], names[|names|-1];
      assert names == init + [last];
      RowCollects(p, row, init, x);
      if last in row { CellCollects(p, row[last], x); }
    }
  }

  lemma TextFieldsAre(k: string)
    ensures k in TEXT_FIELDS <==> TextField(k)
  {
  }

  lemma {:induction false} TraceCollects(p: Policy, rows: seq<Row>, x: string)
    requires p.codec.Faithful()
    ensures x in HiddenRows(p, rows) <==> TraceExposes(p, rows, x)
    decreases rows
  {
    if rows != [] {
      var init, last := rows[..|rows|-1], rows[|rows|-1];
      TraceCollects(p, init, x);
      RowCollects(p, last, TEXT_FIELDS, x);
      forall k ensures k in TEXT_FIELDS <==> TextField(k) { TextFieldsAre(k); }
      assert x in HiddenRow(p, last, TEXT_FIELDS) <==> RowExposes(p, last, x);
      TraceLast(p, rows, x);
    }
  }

  lemma TraceLast(p: Policy, rows: seq<Row>, x: string)
    requires rows != []
    ensures TraceExposes(p, rows, x) <==> TraceExposes(p, rows[..|rows|-1], x) || RowExposes(p, rows[|rows|-1], x)
  {
    var init := rows[..|rows|-1];
    assert forall i | 0 <= i < |init| :: init[i] == rows[i];
    if TraceExposes(p, init, x) {
      var i :| 0 <= i < |init| && RowExposes(p, init[i], x);
      assert RowExposes(p, rows[i], x);
    }
  }

  /** A text before the scrub: JSON with its exposed values masked, any other text as it was. */
  ghost predicate TextMasked(p: Policy, before: string, masked: string) {
    match p.codec.loads(before)
    case None => masked == before
    case Some(j) => exists m :: Masks(p, j, m) && masked == Dump(m)
  }

  /** A cell after redaction: masked, then scrubbed of all the values, longest first. */
  ghost predicate CellRedacted(p: Policy, before: Cell, after: Cell, values: set<string>) {
    match before
    case Other => after == Other
    case Words(text) =>
      exists masked, order ::
        TextMasked(p, text, masked) && LongestFirst(order, values) && after == Words(ScrubAll(masked, order, p.token))
  }

  lemma TextIsMasked(p: Policy, text: string)
    requires p.codec.Faithful()
    ensures TextMasked(p, text, MaskText(p, text))
  {
    var r := p.codec.loads(text);
    if r.Some? { WalkMasks(p, r.value); }
  }

  lemma EmptyIsNoJson(c: Codec)
    requires c.Faithful()
    ensures c.loads("").None?
  {
    var r := c.loads("");
    assert r.Some? ==> Size(r.value) <= 0;
  }

  lemma CellIsRedacted(p: Policy, before: Cell, after: Cell, values: set<string>)
    requires p.codec.Faithful() && Scrubbed(p, MaskCell(p, before), after, values)
    ensures CellRedacted(p, before, after, values)
  {
    if before.Words? {
      TextIsMasked(p, before.text);
      var masked := if before.text != "" then MaskText(p, before.text) else "";
      EmptyIsNoJson(p.codec);
      assert TextMasked(p, before.text, masked);
      var order :| LongestFirst(order, values) && after == Words(ScrubAll(masked, order, p.token));
    }
  }

  ghost predicate ColumnRedacted(p: Policy, before: Row, after: Row, values: set<string>, k: string)
    requires k in before && k in after
  {
    if TextField(k) then CellRedacted(p, before[k], after[k], values) else after[k] == before[k]
  }

  lemma ColumnIsRedacted(p: Policy, before: Row, masked: Row, after: Row, values: set<string>, names: seq<string>, k: string)
    requires p.codec.Faithful() && Distinct(names) && (k in names <==> TextField(k))
    requires masked == MaskRow(p, before, names) && RowScrubbed(p, masked, after, values, names) && k in before
    ensures k in after && ColumnRedacted(p, before, after, values, k)
  {
    MaskRowFieldwise(p, before, names);
    if TextField(k) { CellIsRedacted(p, before[k], after[k], values); }
  }

  lemma RowIsRedacted(p: Policy, before: Row, after: Row, values: set<string>, names: seq<string>)
    requires p.codec.Faithful() && Distinct(names) && (forall k :: k in names <==> TextField(k))
    requires RowScrubbed(p, MaskRow(p, before, names), after, values, names)
    ensures after.Keys == before.Keys && forall k | k in before :: ColumnRedacted(p, before, after, values, k)
  {
    MaskRowFieldwise(p, before, names);
    forall k | k in before ensures ColumnRedacted(p, before, after, values, k) {
      ColumnIsRedacted(p, before, MaskRow(p, before, names), after, values, names, k);
    }
  }

  /** These are the values exposed in the trace. */
  ghost predicate AllExposed(p: Policy, rows: seq<Row>, values: set<string>) {
    forall x :: x in values <==> TraceExposes(p, rows, x)
  }

  lemma HiddenIsAllExposed(p: Policy, rows: seq<Row>, values: set<string>)
    requires p.codec.Faithful()
    ensures AllExposed(p, rows, values) <==> values == HiddenRows(p, rows)
  {
    var hidden := HiddenRows(p, rows);
    forall x ensures x in hidden <==> TraceExposes(p, rows, x) { TraceCollects(p, rows, x); }
    if AllExposed(p, rows, values) {
      forall x ensures x in values <==> x in hidden {}
      assert values == hidden;
    }
  }

  /** Redaction of a trace, in full: every row keeps its columns; the three text fields are masked and then scrubbed of
      exactly the values exposed anywhere in the trace; every other column is as it was. */
  lemma RedactsExactly(p: Policy, before: seq<Row>, after: seq<Row>, values: set<string>, i: nat)
    requires p.codec.Faithful() && Redacted(p, before, after) && AllExposed(p, before, values) && i < |before|
    ensures |after| == |before| && after[i].Keys == before[i].Keys
    ensures forall k | k in before[i] :: ColumnRedacted(p, before[i], after[i], values, k)
  {
    HiddenIsAllExposed(p, before, values);
    NamedRowIsRedacted(p, before, after, values, i, TEXT_FIELDS);
  }

  lemma NamedRowIsRedacted(p: Policy, before: seq<Row>, after: seq<Row>, values: set<string>, i: nat, names: seq<string>)
    requires p.codec.Faithful() && names == TEXT_FIELDS && i < |before| && |after| == |before|
    requires RowScrubbed(p, MaskRow(p, before[i], names), after[i], values, names)
    ensures after[i].Keys == before[i].Keys
    ensures forall k | k in before[i] :: ColumnRedacted(p, before[i], after[i], values, k)
  {
    forall k ensures k in names <==> TextField(k) { TextFieldsAre(k); }
    RowIsRedacted(p, before[i], after[i], values, names);
  }
}
