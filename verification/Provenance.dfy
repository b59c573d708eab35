/** render-proof/truth-pack.js: which figures of money a payload permits its rendered page to show. */
module Provenance {
  import opened Texts
  import opened JsonText
  import opened JsonFields
  import opened Money

  /** `Number(text)`, when it is finite. */
  type Numbers = Text -> Option<real>

  function WithoutCommas(t: Text): Text {
    if t == [] then [] else (if t[0] == COMMA then [] else [t[0]]) + WithoutCommas(t[1..])
  }

  /** A number, or a text that is one once its commas are gone. */
  function NumOrNull(h: Numbers, v: Option<Json>): Option<real> {
    match v
    case Some(Num(t)) => h(t)
    case Some(Str(s)) => if TrimText(s) == [] then None else h(WithoutCommas(s))
    case _ => None
  }

  // ----- the places a figure may come from -----

  const EXPOSURE: Text := Ascii("exposure")
  const EXPOSURE_FULL: Text := Ascii("exposureFull")
  const WATERFALL: Text := Ascii("exposureWaterfall")
  const CEILING: Text := Ascii("ceiling")
  const STEPS: Text := Ascii("steps")
  const VALUE: Text := Ascii("value")
  const FINDINGS: Text := Ascii("findings")
  const FRAMEWORKS: Text := Ascii("frameworks")
  const PENALTY: Text := Ascii("penalty")
  const ENFORCEMENT: Text := Ascii("enforcement")
  const AMOUNT: Text := Ascii("amount")

  const STEP_FIELDS: seq<Text> := [Ascii("typical_low"), Ascii("typical_high"), Ascii("familyCeiling")]
  const PENALTY_FIELDS: seq<Text> := [Ascii("typical_low"), Ascii("typical_high"), Ascii("statutory_max"), AMOUNT]
  const ENFORCEMENT_FIELDS: seq<Text> := [AMOUNT]

  /** A place in the payload. `list` is the findings or the frameworks. */
  datatype Path =
    | Headline
    | FullExposure
    | Ceiling
    | Step(step: nat, field: Text)
    | Penalty(list: Text, record: nat, field: Text)
    | Enforcement(list: Text, record: nat, entry: nat)

  /** `payload || {}` and the like. */
  function OrEmpty(v: Option<Json>): Json {
    if Truthy(v) then v.value else Obj([])
  }

  function Waterfall(payload: Json): Json {
    OrEmpty(Field(payload, WATERFALL))
  }

  /** An entry is an object with an amount, or the figure itself. */
  function EntryFigure(e: Json): Option<Json> {
    if IsObject(Some(e)) then Field(e, AMOUNT) else Some(e)
  }

  /** The field of a node that is an object. */
  function FieldOf(node: Option<Json>, key: Text): Option<Json> {
    if IsObject(node) then Field(node.value, key) else None
  }

  /** What lies at a place. */
  function ValueAt(payload: Json, p: Path): Option<Json> {
    match p
    case Headline => AndField(Field(payload, EXPOSURE), VALUE)
    case FullExposure => AndField(Field(payload, EXPOSURE_FULL), VALUE)
    case Ceiling => AndField(Field(Waterfall(payload), CEILING), VALUE)
    case Step(i, key) =>
      var steps := ItemsOf(Field(Waterfall(payload), STEPS));
      if i < |steps| && key in STEP_FIELDS then FieldOf(Some(steps[i]), key) else None
    case Penalty(list, i, key) =>
      var records := ItemsOf(Field(payload, list));
      if (list == FINDINGS || list == FRAMEWORKS) && i < |records| && key in PENALTY_FIELDS
      then FieldOf(FieldOf(Some(records[i]), PENALTY), key) else None
    case Enforcement(list, i, j) =>
      var records := ItemsOf(Field(payload, list));
      if !(list == FINDINGS || list == FRAMEWORKS) || i >= |records| then None
      else
        var entries := ItemsOf(FieldOf(Some(records[i]), ENFORCEMENT));
        if j < |entries| then EntryFigure(entries[j]) else None
  }

  /** The figure lies at this place. */
  predicate Holds(h: Numbers, payload: Json, p: Path, n: real) {
    NumOrNull(h, ValueAt(payload, p)) == Some(n)
  }

  /** The payload holds this figure at one of its places. */
  ghost predicate Permitted(h: Numbers, payload: Json, n: real) {
    exists p: Path :: Holds(h, payload, p, n)
  }

  // ----- collecting them -----

  function Figure(h: Numbers, v: Option<Json>): set<real> {
    var n := NumOrNull(h, v);
    if n.Some? then {n.value} else {}
  }

  /** The figures of all elements together. */
  function Union<T(==)>(s: seq<T>, f: T -> set<real>): set<real> {
    set x, n | x in s && n in f(x) :: n
  }

  lemma UnionAppend<T>(s: seq<T>, i: nat, f: T -> set<real>)
    requires i < |s|
    ensures Union(s[..i + 1], f) == Union(s[..i], f) + f(s[i])
  {
    assert s[..i + 1] == s[..i] + [s[i]];
    var before, more := Union(s[..i], f) + f(s[i]), Union(s[..i + 1], f);
    forall n ensures n in more <==> n in before {
      if n in more {
        var x :| x in s[..i + 1] && n in f(x);
        assert x in s[..i] || x == s[i];
      }
      if n in f(s[i]) {
        assert s[i] in s[..i + 1];
      }
    }
  }

  lemma UnionAt<T>(s: seq<T>, f: T -> set<real>, n: real)
    ensures n in Union(s, f) <==> exists i :: 0 <= i < |s| && n in f(s[i])
  {
    if n in Union(s, f) {
      var x :| x in s && n in f(x);
      var i :| 0 <= i < |s| && s[i] == x;
    }
  }

  function FieldFigure(h: Numbers, node: Option<Json>): Text -> set<real> {
    k => Figure(h, FieldOf(node, k))
  }

  function FieldFigures(h: Numbers, node: Option<Json>, keys: seq<Text>): set<real> {
    Union(keys, FieldFigure(h, node))
  }

  function EntryFigureSet(h: Numbers): Json -> set<real> {
    e => Figure(h, EntryFigure(e))
  }

  function EntryFigures(h: Numbers, entries: seq<Json>): set<real> {
    Union(entries, EntryFigureSet(h))
  }

  function RecordFigures(h: Numbers): Json -> set<real> {
    rec => FieldFigures(h, FieldOf(Some(rec), PENALTY), PENALTY_FIELDS) + EntryFigures(h, ItemsOf(FieldOf(Some(rec), ENFORCEMENT)))
  }

  function RecordsFigures(h: Numbers, records: seq<Json>): set<real> {
    Union(records, RecordFigures(h))
  }

  function StepFigure(h: Numbers): Json -> set<real> {
    s => FieldFigures(h, Some(s), STEP_FIELDS)
  }

  function StepFigures(h: Numbers, steps: seq<Json>): set<real> {
    Union(steps, StepFigure(h))
  }

  function HeadlineFigures(h: Numbers, payload: Json): set<real> {
    Figure(h, ValueAt(payload, Headline)) + Figure(h, ValueAt(payload, FullExposure)) + Figure(h, ValueAt(payload, Ceiling))
  }

  function AllowedAmounts(h: Numbers, payload: Json): set<real> {
    HeadlineFigures(h, payload)
    + StepFigures(h, ItemsOf(Field(Waterfall(payload), STEPS)))
    + RecordsFigures(h, ItemsOf(Field(payload, FINDINGS)))
    + RecordsFigures(h, ItemsOf(Field(payload, FRAMEWORKS)))
  }

  method Add(h: Numbers, v: Option<Json>, found: set<real>) returns (more: set<real>)
    ensures more == found + Figure(h, v)
  {
    var n := NumOrNull(h, v);
    more := if n.Some? then found + {n.value} else found;
  }

  method AddNumbersFrom(h: Numbers, node: Option<Json>, keys: seq<Text>, found: set<real>) returns (more: set<real>)
    ensures more == found + FieldFigures(h, node, keys)
  {
    more := found;
    hide Figure, Field, Union;
    if !IsObject(node) {
      NothingThere(h, node, keys);
      return;
    }
    assert Union(keys[..0], FieldFigure(h, node)) == {} by { NothingUnited(FieldFigure(h, node)); }
    for i := 0 to |keys|
      invariant more == found + Union(keys[..i], FieldFigure(h, node))
    {
      UnionAppend(keys, i, FieldFigure(h, node));
      more := Add(h, Field(node.value, keys[i]), more);
    }
    assert keys[..|keys|] == keys;
  }

  lemma NothingUnited<T>(f: T -> set<real>)
    ensures Union([], f) == {}
  {
  }

  lemma NothingThere(h: Numbers, node: Option<Json>, keys: seq<Text>)
    requires !IsObject(node)
    ensures FieldFigures(h, node, keys) == {}
  {
    assert forall k :: FieldFigure(h, node)(k) == {};
  }

  method AddEnforcementNumbers(h: Numbers, entries: seq<Json>, found: set<real>) returns (more: set<real>)
    ensures more == found + EntryFigures(h, entries)
  {
    more := found;
    hide Figure, EntryFigure, Union;
    NothingUnited(EntryFigureSet(h));
    assert entries[..0] == [];
    for i := 0 to |entries|
      invariant more == found + Union(entries[..i], EntryFigureSet(h))
    {
      UnionAppend(entries, i, EntryFigureSet(h));
      more := Add(h, EntryFigure(entries[i]), more);
    }
    assert entries[..|entries|] == entries;
  }

  method AddRecords(h: Numbers, records: seq<Json>, found: set<real>) returns (more: set<real>)
    ensures more == found + RecordsFigures(h, records)
  {
    more := found;
    hide FieldFigures, EntryFigures, Union;
    NothingUnited(RecordFigures(h));
    assert records[..0] == [];
    for i := 0 to |records|
      invariant more == found + Union(records[..i], RecordFigures(h))
    {
      var rec := Some(records[i]);
      UnionAppend(records, i, RecordFigures(h));
      more := AddNumbersFrom(h, FieldOf(rec, PENALTY), PENALTY_FIELDS, more);
      more := AddEnforcementNumbers(h, ItemsOf(FieldOf(rec, ENFORCEMENT)), more);
    }
    assert records[..|records|] == records;
  }

  method AddSteps(h: Numbers, steps: seq<Json>, found: set<real>) returns (more: set<real>)
    ensures more == found + StepFigures(h, steps)
  {
    more := found;
    hide FieldFigures, Union;
    NothingUnited(StepFigure(h));
    assert steps[..0] == [];
    for i := 0 to |steps|
      invariant more == found + Union(steps[..i], StepFigure(h))
    {
      UnionAppend(steps, i, StepFigure(h));
      more := AddNumbersFrom(h, Some(steps[i]), STEP_FIELDS, more);
    }
    assert steps[..|steps|] == steps;
  }

  /** The figures of the payload's places, and no others. */
  method CollectAllowedAmounts(h: Numbers, payload: Json) returns (allowed: set<real>)
    ensures allowed == AllowedAmounts(h, payload)
    ensures forall n :: n in allowed <==> Permitted(h, payload, n)
  {
    hide Figure, StepFigures, RecordsFigures, Field, AndField;
    allowed := Add(h, ValueAt(payload, Headline), {});
    allowed := Add(h, ValueAt(payload, FullExposure), allowed);
    allowed := Add(h, ValueAt(payload, Ceiling), allowed);
    allowed := AddSteps(h, ItemsOf(Field(Waterfall(payload), STEPS)), allowed);
    allowed := AddRecords(h, ItemsOf(Field(payload, FINDINGS)), allowed);
    allowed := AddRecords(h, ItemsOf(Field(payload, FRAMEWORKS)), allowed);
    AllowedExactly(h, payload);
    hide Permitted;
  }

  // ----- the collection against the places -----

  lemma NoFigure(h: Numbers)
    ensures NumOrNull(h, None) == None
  {
  }

  lemma StepPlaces(h: Numbers, payload: Json, n: real)
    ensures n in StepFigures(h, ItemsOf(Field(Waterfall(payload), STEPS)))
       <==> exists i: nat, key: Text :: Holds(h, payload, Step(i, key), n)
  {
    hide NumOrNull, Field, Waterfall, Union;
    NoFigure(h);
    var steps := ItemsOf(Field(Waterfall(payload), STEPS));
    UnionAt(steps, StepFigure(h), n);
    forall i: nat | i < |steps| ensures n in StepFigure(h)(steps[i]) <==> exists key: Text :: Holds(h, payload, Step(i, key), n) {
      KeyAt(h, Some(steps[i]), STEP_FIELDS, n);
      assert forall key :: key in STEP_FIELDS ==> ValueAt(payload, Step(i, key)) == FieldOf(Some(steps[i]), key);
      assert forall key :: key !in STEP_FIELDS ==> ValueAt(payload, Step(i, key)) == None;
    }
    assert forall i: nat, key: Text :: Holds(h, payload, Step(i, key), n) ==> i < |steps|;
    hide Holds, StepFigure;
  }

  lemma KeyAt(h: Numbers, node: Option<Json>, keys: seq<Text>, n: real)
    ensures n in FieldFigures(h, node, keys) <==> exists key: Text :: key in keys && NumOrNull(h, FieldOf(node, key)) == Some(n)
  {
    hide NumOrNull, FieldOf, Union;
    UnionAt(keys, FieldFigure(h, node), n);
    forall key ensures n in FieldFigure(h, node)(key) <==> NumOrNull(h, FieldOf(node, key)) == Some(n) {
    }
    hide FieldFigure;
    forall key | key in keys && NumOrNull(h, FieldOf(node, key)) == Some(n) ensures n in Union(keys, FieldFigure(h, node)) {
      var i :| 0 <= i < |keys| && keys[i] == key;
      assert n in FieldFigure(h, node)(keys[i]);
    }
    if n in Union(keys, FieldFigure(h, node)) {
      var i :| 0 <= i < |keys| && n in FieldFigure(h, node)(keys[i]);
      assert keys[i] in keys && NumOrNull(h, FieldOf(node, keys[i])) == Some(n);
    }
  }

  predicate IsList(list: Text) {
    list == FINDINGS || list == FRAMEWORKS
  }

  lemma PenaltyPlaces(h: Numbers, payload: Json, list: Text, i: nat, n: real)
    requires IsList(list) && i < |ItemsOf(Field(payload, list))|
    ensures n in FieldFigures(h, FieldOf(Some(ItemsOf(Field(payload, list))[i]), PENALTY), PENALTY_FIELDS)
       <==> exists key: Text :: Holds(h, payload, Penalty(list, i, key), n)
  {
    hide NumOrNull, Field, FieldFigures;
    NoFigure(h);
    var node := FieldOf(Some(ItemsOf(Field(payload, list))[i]), PENALTY);
    hide FieldOf;
    KeyAt(h, node, PENALTY_FIELDS, n);
    forall key ensures ValueAt(payload, Penalty(list, i, key)) == if key in PENALTY_FIELDS then FieldOf(node, key) else None {
    }
    hide ValueAt;
  }

  lemma EnforcementPlaces(h: Numbers, payload: Json, list: Text, i: nat, n: real)
    requires IsList(list) && i < |ItemsOf(Field(payload, list))|
    ensures n in EntryFigures(h, ItemsOf(FieldOf(Some(ItemsOf(Field(payload, list))[i]), ENFORCEMENT)))
       <==> exists j: nat :: Holds(h, payload, Enforcement(list, i, j), n)
  {
    hide NumOrNull, Field, Union;
    NoFigure(h);
    var entries := ItemsOf(FieldOf(Some(ItemsOf(Field(payload, list))[i]), ENFORCEMENT));
    hide FieldOf, EntryFigure, ItemsOf;
    UnionAt(entries, EntryFigureSet(h), n);
    forall j: nat ensures ValueAt(payload, Enforcement(list, i, j)) == if j < |entries| then EntryFigure(entries[j]) else None {
    }
    hide ValueAt;
    forall j: nat | j < |entries| ensures n in EntryFigureSet(h)(entries[j]) <==> Holds(h, payload, Enforcement(list, i, j), n) {
    }
    assert forall j: nat :: Holds(h, payload, Enforcement(list, i, j), n) ==> j < |entries|;
    hide Holds, EntryFigureSet;
  }

  /** One of a record's places holds the figure. */
  ghost predicate AtRecord(h: Numbers, payload: Json, list: Text, i: nat, n: real) {
    || (exists key: Text :: Holds(h, payload, Penalty(list, i, key), n))
    || (exists j: nat :: Holds(h, payload, Enforcement(list, i, j), n))
  }

  lemma NoRecordThere(h: Numbers, payload: Json, list: Text, i: nat, n: real)
    requires i >= |ItemsOf(Field(payload, list))|
    ensures !AtRecord(h, payload, list, i, n)
  {
    hide NumOrNull, Field, FieldOf;
    NoFigure(h);
  }

  lemma AtRecordExactly(h: Numbers, payload: Json, list: Text, i: nat, n: real)
    requires IsList(list) && i < |ItemsOf(Field(payload, list))|
    ensures n in RecordFigures(h)(ItemsOf(Field(payload, list))[i]) <==> AtRecord(h, payload, list, i, n)
  {
    hide NumOrNull, Field, FieldFigures, EntryFigures, Holds, FieldOf;
    PenaltyPlaces(h, payload, list, i, n);
    EnforcementPlaces(h, payload, list, i, n);
  }

  lemma RecordPlaces(h: Numbers, payload: Json, list: Text, n: real)
    requires IsList(list)
    ensures n in RecordsFigures(h, ItemsOf(Field(payload, list))) <==> exists i: nat :: AtRecord(h, payload, list, i, n)
  {
    var records := ItemsOf(Field(payload, list));
    hide AtRecord, RecordFigures, Union, ItemsOf, Field;
    UnionAt(records, RecordFigures(h), n);
    forall i: nat ensures AtRecord(h, payload, list, i, n) <==> i < |records| && n in RecordFigures(h)(records[i]) {
      if i < |records| {
        AtRecordExactly(h, payload, list, i, n);
      } else {
        NoRecordThere(h, payload, list, i, n);
      }
    }
  }

  /** A figure is collected exactly when it lies at one of the places: the two exposures, the ceiling, a waterfall
      band, or a penalty or an enforcement entry of a finding or a framework. */
  lemma AllowedExactly(h: Numbers, payload: Json)
    ensures forall n :: n in AllowedAmounts(h, payload) <==> Permitted(h, payload, n)
  {
    hide Holds, Permitted, HeadlineFigures, StepFigures, RecordsFigures, AtRecord;
    forall n ensures n in AllowedAmounts(h, payload) <==> Permitted(h, payload, n) {
      StepPlaces(h, payload, n);
      RecordPlaces(h, payload, FINDINGS, n);
      RecordPlaces(h, payload, FRAMEWORKS, n);
      Elsewhere(h, payload, n);
    }
  }

  /** A place is a headline, a step, or a place of a finding or a framework. */
  lemma Elsewhere(h: Numbers, payload: Json, n: real)
    ensures Permitted(h, payload, n)
       <==> || n in HeadlineFigures(h, payload)
            || (exists i: nat, key: Text :: Holds(h, payload, Step(i, key), n))
            || (exists i: nat :: AtRecord(h, payload, FINDINGS, i, n))
            || (exists i: nat :: AtRecord(h, payload, FRAMEWORKS, i, n))
  {
    assert n in HeadlineFigures(h, payload)
      <==> Holds(h, payload, Headline, n) || Holds(h, payload, FullExposure, n) || Holds(h, payload, Ceiling, n) by {
      hide NumOrNull, ValueAt;
    }
    hide HeadlineFigures;
    if p: Path :| Holds(h, payload, p, n) {
      PlaceIsListed(h, payload, p, n);
    }
    hide Holds;
  }

  lemma PlaceIsListed(h: Numbers, payload: Json, p: Path, n: real)
    requires Holds(h, payload, p, n)
    ensures || p.Headline? || p.FullExposure? || p.Ceiling? || p.Step?
            || (exists i: nat :: AtRecord(h, payload, FINDINGS, i, n))
            || (exists i: nat :: AtRecord(h, payload, FRAMEWORKS, i, n))
  {
    NoFigure(h);
    hide NumOrNull, Field, FieldOf;
    match p
    case Penalty(list, i, key) =>
      assert IsList(list);
      assert AtRecord(h, payload, list, i, n);
    case Enforcement(list, i, j) =>
      assert IsList(list);
      assert AtRecord(h, payload, list, i, n);
    case _ =>
  }

  // ----- the rule over a payload -----

  method CheckPayloadProvenance(h: Numbers, payload: Json, amounts: seq<Amount>) returns (violations: seq<real>)
    ensures violations == Unsourced(Values(amounts), AllowedAmounts(h, payload))
  {
    hide AllowedAmounts, Permitted;
    var allowed := CollectAllowedAmounts(h, payload);
    violations := CheckMoneyProvenance(allowed, amounts);
  }

  /** On a page of plain text and printed amounts, the rule raises nothing exactly when the payload holds every
      printed amount at one of its places. */
  lemma PageSourced(h: Numbers, payload: Json, lead: Text, pieces: seq<Piece>)
    requires Free(lead, POUND)
    requires forall i :: 0 <= i < |pieces| ==> PlainPiece(pieces[i])
    ensures Unsourced(Values(Amounts(lead + Render(pieces), 0)), AllowedAmounts(h, payload)) == []
       <==> forall i :: 0 <= i < |pieces| ==> Permitted(h, payload, pieces[i].amount as real)
  {
    hide Amounts, Render, Unsourced, Values, AllowedAmounts, Permitted, PlainPiece;
    AllowedExactly(h, payload);
    PageProvenance(lead, pieces, AllowedAmounts(h, payload));
  }
}
