/** llm/gate.js: what a parsed model response must satisfy before any consumer sees it. */
module Gate {
  import opened Texts
  import opened QuoteText
  import opened QuoteMatch

  // ----- parsed values -----

  /** A value of JavaScript that the gate can meet: what `JSON.parse` yields, and the functions that
      every object inherits. Object members are the own properties in enumeration order. */
  datatype Value =
    | Null
    | Boolean(b: bool)
    | Number(n: real)
    | String(s: Str)
    | Array(items: seq<Value>)
    | Object(members: seq<Member>)
    | Function

  datatype Member = Member(key: Str, value: Value)

  /** What the runtime supplies: the properties every object inherits, the texts those print as (none for a
      null), pattern matching (false for a pattern that does not compile), and the letter tables of Unicode. */
  datatype Host = Host(
    inherited: map<Str, Value>, printed: map<Str, Str>, matches: (Str, Str) -> bool, casing: Casing)

  /** `value[key]` for an object, own members first, then inherited properties. */
  function Lookup(host: Host, members: seq<Member>, key: Str): Option<Value> {
    if members == [] then (if key in host.inherited then Some(host.inherited[key]) else None)
    else if members[0].key == key then Some(members[0].value)
    else Lookup(host, members[1..], key)
  }

  function Own(members: seq<Member>, key: Str): Option<Value> {
    if members == [] then None
    else if members[0].key == key then Some(members[0].value)
    else Own(members[1..], key)
  }

  /** `s.length`: points beyond the basic plane count twice. */
  function Utf16Length(s: Str): nat {
    if s == [] then 0 else (if s[0] > 0xFFFF then 2 else 1) + Utf16Length(s[1..])
  }

  // ----- the schema subset -----

  datatype TypeName = TInteger | TNumber | TString | TBoolean | TObject | TArray | TNull | TFunction | TUnknown

  /** `Anything` is an absent or non-object schema. */
  datatype Schema =
    | Anything
    | Schema(
        nullable: bool, types: Option<seq<TypeName>>,
        choices: Option<seq<Value>>, constant: Option<Value>,
        minLength: Option<real>, maxLength: Option<real>, pattern: Option<Str>,
        minimum: Option<real>, maximum: Option<real>,
        minItems: Option<real>, maxItems: Option<real>,
        required: seq<Str>, properties: seq<Property>, closed: bool, items: Option<Schema>)

  datatype Property = Property(key: Str, schema: Schema)

  datatype Step = Key(key: Str) | Index(index: nat)
  type Path = seq<Step>

  datatype Code =
    | EmptyResponse | ProviderUnavailable | UnparseableJson | BadSchema | DepthExceeded | OutOfSet | QuoteTooShort | QuoteSourceMissing | QuoteDrift
  datatype Violation = Violation(code: Code, path: Path)

  predicate OneTypeMatches(v: Value, t: TypeName) {
    match t
    case TInteger => v.Number? && v.n == v.n.Floor as real
    case TNumber => v.Number?
    case TString => v.String?
    case TBoolean => v.Boolean?
    case TObject => v.Object?
    case TArray => v.Array?
    case TNull => v.Null?
    case TFunction => v.Function?
    case TUnknown => false
  }

  /** `a === b` between a parsed value and a schema literal: containers are never the same object. */
  predicate StrictEqual(a: Value, b: Value) {
    a == b && !a.Array? && !a.Object? && !a.Function?
  }

  predicate AtLeast(n: int, bound: Option<real>) { bound.Some? ==> n as real >= bound.value }
  predicate AtMost(n: int, bound: Option<real>) { bound.Some? ==> n as real <= bound.value }

  function Flag(bad: bool, path: Path): seq<Violation> {
    if bad then [Violation(BadSchema, path)] else []
  }

  function CheckScalar(host: Host, v: Value, s: Schema, path: Path): seq<Violation>
    requires s.Schema?
  {
    Flag(s.choices.Some? && !exists c :: c in s.choices.value && StrictEqual(c, v), path)
    + Flag(s.constant.Some? && !StrictEqual(s.constant.value, v), path)
    + (if v.String? then
         Flag(!AtLeast(Utf16Length(v.s), s.minLength), path)
         + Flag(!AtMost(Utf16Length(v.s), s.maxLength), path)
         + Flag(s.pattern.Some? && !host.matches(s.pattern.value, v.s), path)
       else [])
    + (if v.Number? then
         Flag(s.minimum.Some? && v.n < s.minimum.value, path) + Flag(s.maximum.Some? && v.n > s.maximum.value, path)
       else [])
  }

  function CheckRequired(host: Host, members: seq<Member>, required: seq<Str>, path: Path): seq<Violation> {
    if required == [] then []
    else
      Flag(Lookup(host, members, required[0]).None?, path + [Key(required[0])])
      + CheckRequired(host, members, required[1..], path)
  }

  function CheckDeclared(host: Host, members: seq<Member>, props: seq<Property>, path: Path): seq<Violation>
    decreases props, 0
  {
    if props == [] then []
    else
      var found := Lookup(host, members, props[0].key);
      (if found.Some? then ValidateSchema(host, found.value, props[0].schema, path + [Key(props[0].key)]) else [])
      + CheckDeclared(host, members, props[1..], path)
  }

  /** `key in props`: declared, or inherited by the schema's own property table. */
  predicate Declared(host: Host, props: seq<Property>, key: Str) {
    key in host.inherited || exists p :: p in props && p.key == key
  }

  function CheckClosed(host: Host, members: seq<Member>, props: seq<Property>, path: Path): seq<Violation> {
    if members == [] then []
    else
      Flag(!Declared(host, props, members[0].key), path + [Key(members[0].key)])
      + CheckClosed(host, members[1..], props, path)
  }

  function CheckItems(host: Host, items: seq<Value>, s: Schema, at: nat, path: Path): seq<Violation>
    decreases s, 2, |items|
  {
    if items == [] then []
    else ValidateSchema(host, items[0], s, path + [Index(at)]) + CheckItems(host, items[1..], s, at + 1, path)
  }

  function CheckContainer(host: Host, v: Value, s: Schema, path: Path): seq<Violation>
    requires s.Schema?
    decreases s, 0, 0
  {
    match v
    case Object(members) =>
      CheckRequired(host, members, s.required, path)
      + CheckDeclared(host, members, s.properties, path)
      + (if s.closed then CheckClosed(host, members, s.properties, path) else [])
    case Array(items) =>
      Flag(!AtLeast(|items|, s.minItems), path)
      + Flag(!AtMost(|items|, s.maxItems), path)
      + (if s.items.Some? then CheckItems(host, items, s.items.value, 0, path) else [])
    case _ => []
  }

  function ValidateSchema(host: Host, v: Value, s: Schema, path: Path): seq<Violation>
    decreases s, 1, 0
  {
    if s.Anything? then []
    else if s.nullable && v.Null? then []
    else if s.types.Some? && !exists t :: t in s.types.value && OneTypeMatches(v, t) then [Violation(BadSchema, path)]
    else CheckScalar(host, v, s, path) + CheckContainer(host, v, s, path)
  }

  // ----- what the keywords mean -----

  /** The keywords about single values. */
  predicate ScalarSatisfies(host: Host, v: Value, s: Schema)
    requires s.Schema?
  {
    && (s.choices.Some? ==> exists c :: c in s.choices.value && StrictEqual(c, v))
    && (s.constant.Some? ==> StrictEqual(s.constant.value, v))
    && (v.String? ==> && AtLeast(Utf16Length(v.s), s.minLength) && AtMost(Utf16Length(v.s), s.maxLength)
                      && (s.pattern.Some? ==> host.matches(s.pattern.value, v.s)))
    && (v.Number? ==> && (s.minimum.Some? ==> s.minimum.value <= v.n)
                      && (s.maximum.Some? ==> v.n <= s.maximum.value))
  }

  /** The keywords about objects and arrays. */
  predicate ContainerSatisfies(host: Host, v: Value, s: Schema)
    requires s.Schema?
    decreases s, 0
  {
    && (v.Object? ==>
          && (forall k :: k in s.required ==> Lookup(host, v.members, k).Some?)
          && (forall p :: p in s.properties && Lookup(host, v.members, p.key).Some?
                ==> Satisfies(host, Lookup(host, v.members, p.key).value, p.schema))
          && (s.closed ==> forall m :: m in v.members ==> Declared(host, s.properties, m.key)))
    && (v.Array? ==>
          && AtLeast(|v.items|, s.minItems) && AtMost(|v.items|, s.maxItems)
          && (s.items.Some? ==> forall e :: e in v.items ==> Satisfies(host, e, s.items.value)))
  }

  /** The value satisfies the schema, keyword by keyword. */
  predicate Satisfies(host: Host, v: Value, s: Schema)
    decreases s, 1
  {
    s.Anything?
    || (s.nullable && v.Null?)
    || (&& (s.types.Some? ==> exists t :: t in s.types.value && OneTypeMatches(v, t))
        && ScalarSatisfies(host, v, s)
        && ContainerSatisfies(host, v, s))
  }

  lemma {:induction false} RequiredExact(host: Host, members: seq<Member>, required: seq<Str>, path: Path)
    ensures CheckRequired(host, members, required, path) == []
       <==> forall k :: k in required ==> Lookup(host, members, k).Some?
  {
    if required != [] {
      RequiredExact(host, members, required[1..], path);
      assert CheckRequired(host, members, required, path) == []
        <==> Lookup(host, members, required[0]).Some? && CheckRequired(host, members, required[1..], path) == [];
      hide Lookup, CheckRequired;
      assert forall k :: k in required <==> k == required[0] || k in required[1..];
    }
  }

  lemma {:induction false} ClosedExact(host: Host, members: seq<Member>, props: seq<Property>, path: Path)
    ensures CheckClosed(host, members, props, path) == []
       <==> forall m :: m in members ==> Declared(host, props, m.key)
  {
    if members != [] {
      ClosedExact(host, members[1..], props, path);
      hide Declared;
      assert forall m :: m in members <==> m == members[0] || m in members[1..];
    }
  }

  lemma {:induction false} DeclaredExact(host: Host, members: seq<Member>, props: seq<Property>, path: Path)
    ensures CheckDeclared(host, members, props, path) == []
       <==> forall p :: p in props && Lookup(host, members, p.key).Some?
                  ==> Satisfies(host, Lookup(host, members, p.key).value, p.schema)
    decreases props, 0
  {
    if props != [] {
      var found := Lookup(host, members, props[0].key);
      if found.Some? {
        SchemaExact(host, found.value, props[0].schema, path + [Key(props[0].key)]);
      }
      DeclaredExact(host, members, props[1..], path);
      hide Lookup, ValidateSchema, Satisfies;
      assert forall p :: p in props <==> p == props[0] || p in props[1..];
    }
  }

  lemma {:induction false} ItemsExact(host: Host, items: seq<Value>, s: Schema, at: nat, path: Path)
    ensures CheckItems(host, items, s, at, path) == [] <==> forall e :: e in items ==> Satisfies(host, e, s)
    decreases s, 2, |items|
  {
    if items != [] {
      SchemaExact(host, items[0], s, path + [Index(at)]);
      ItemsExact(host, items[1..], s, at + 1, path);
      hide ValidateSchema, Satisfies;
      assert forall e :: e in items <==> e == items[0] || e in items[1..];
    }
  }

  lemma {:induction false} ContainerExact(host: Host, v: Value, s: Schema, path: Path)
    requires s.Schema?
    ensures CheckContainer(host, v, s, path) == [] <==> ContainerSatisfies(host, v, s)
    decreases s, 0, 0
  {
    match v
    case Object(members) =>
      RequiredExact(host, members, s.required, path);
      DeclaredExact(host, members, s.properties, path);
      ClosedExact(host, members, s.properties, path);
      hide Lookup, Satisfies, Declared, CheckRequired, CheckDeclared, CheckClosed;
    case Array(items) =>
      if s.items.Some? {
        ItemsExact(host, items, s.items.value, 0, path);
      }
      hide CheckItems, Satisfies;
    case _ =>
  }

  lemma ScalarExact(host: Host, v: Value, s: Schema, path: Path)
    requires s.Schema?
    ensures CheckScalar(host, v, s, path) == [] <==> ScalarSatisfies(host, v, s)
  {
  }

  /** The recursive checker reports nothing exactly when the value satisfies the schema. */
  lemma {:induction false} SchemaExact(host: Host, v: Value, s: Schema, path: Path)
    ensures ValidateSchema(host, v, s, path) == [] <==> Satisfies(host, v, s)
    decreases s, 1, 0
  {
    if s.Schema? {
      ContainerExact(host, v, s, path);
      ScalarExact(host, v, s, path);
      hide CheckContainer, CheckScalar, ContainerSatisfies, ScalarSatisfies;
    }
  }

  // ----- citations -----

  const MAX_WALK_DEPTH: nat := 12
  const SOURCE_ID: Str := Ascii("source_id")
  const SOURCE_IDS: Str := Ascii("source_ids")
  const QUOTE_FIELD: Str := Ascii("quote")
  const VERBATIM_QUOTE: Str := Ascii("verbatim_quote")

  /** The case of the basic letters is ignored. */
  function FoldCase(s: Str): Str {
    seq(|s|, i requires 0 <= i < |s| => if LETTER_A <= s[i] <= LETTER_A + 25 then s[i] + 32 else s[i])
  }

  predicate IsSourceIdKey(key: Str) {
    FoldCase(key) == SOURCE_ID || FoldCase(key) == SOURCE_IDS
  }

  datatype Citation = Citation(id: Str, path: Path)
  datatype Pair = Pair(quote: Str, sourceId: Str, path: Path)

  function StringItems(items: seq<Value>, at: nat, path: Path): seq<Citation> {
    if items == [] then []
    else
      (if items[0].String? then [Citation(items[0].s, path + [Index(at)])] else [])
      + StringItems(items[1..], at + 1, path)
  }

  function CitedIds(v: Value, path: Path): seq<Citation> {
    match v
    case String(s) => [Citation(s, path)]
    case Array(items) => StringItems(items, 0, path)
    case _ => []
  }

  function NodeIds(members: seq<Member>, path: Path): seq<Citation> {
    if members == [] then []
    else
      (if IsSourceIdKey(members[0].key) then CitedIds(members[0].value, path + [Key(members[0].key)]) else [])
      + NodeIds(members[1..], path)
  }

  function StringField(members: seq<Member>, key: Str): Option<Str> {
    match Own(members, key)
    case Some(String(s)) => Some(s)
    case _ => None
  }

  /** The first of the two quote fields that holds a string. */
  function QuoteOf(members: seq<Member>): Option<Str> {
    var quote := StringField(members, QUOTE_FIELD);
    if quote.Some? then quote else StringField(members, VERBATIM_QUOTE)
  }

  function NodePairs(members: seq<Member>, path: Path): seq<Pair> {
    var quote, sid := QuoteOf(members), StringField(members, SOURCE_ID);
    if quote.Some? && sid.Some? then [Pair(quote.value, sid.value, path)] else []
  }

  /** What one walk gathers. */
  datatype Cites = Cites(ids: seq<Citation>, pairs: seq<Pair>, tooDeep: bool)

  function Add(a: Cites, b: Cites): Cites {
    Cites(a.ids + b.ids, a.pairs + b.pairs, a.tooDeep || b.tooDeep)
  }

  const NOTHING: Cites := Cites([], [], false)

  function Walked(v: Value, path: Path, depth: nat): Cites
    decreases v, 1, 0
  {
    if depth > MAX_WALK_DEPTH then Cites([], [], true)
    else match v
      case Array(items) => WalkedItems(items, 0, path, depth)
      case Object(members) => Add(Cites(NodeIds(members, path), NodePairs(members, path), false), WalkedMembers(members, path, depth))
      case _ => NOTHING
  }

  function WalkedItems(items: seq<Value>, at: nat, path: Path, depth: nat): Cites
    decreases items, 0, |items|
  {
    if items == [] then NOTHING
    else Add(Walked(items[0], path + [Index(at)], depth + 1), WalkedItems(items[1..], at + 1, path, depth))
  }

  function WalkedMembers(members: seq<Member>, path: Path, depth: nat): Cites
    decreases members, 0, |members|
  {
    if members == [] then NOTHING
    else Add(Walked(members[0].value, path + [Key(members[0].key)], depth + 1), WalkedMembers(members[1..], path, depth))
  }

  lemma AddAssociative(a: Cites, b: Cites, c: Cites)
    ensures Add(Add(a, b), c) == Add(a, Add(b, c))
    ensures Add(a, NOTHING) == a && Add(NOTHING, a) == a
  {
  }

  /** The running record that one walk fills. */
  class Accumulator {
    var sourceIds: seq<Citation>
    var quotes: seq<Pair>
    var depthExceeded: bool

    constructor ()
      ensures State() == NOTHING
    {
      sourceIds, quotes, depthExceeded := [], [], false;
    }

    function State(): Cites
      reads this
    {
      Cites(sourceIds, quotes, depthExceeded)
    }

    method PushSourceIds(v: Value, path: Path)
      modifies this
      ensures State() == Add(old(State()), Cites(CitedIds(v, path), [], false))
    {
      if v.String? {
        sourceIds := sourceIds + [Citation(v.s, path)];
      } else if v.Array? {
        var i := 0;
        while i < |v.items|
          invariant 0 <= i <= |v.items|
          invariant quotes == old(quotes) && depthExceeded == old(depthExceeded)
          invariant sourceIds + StringItems(v.items[i..], i, path) == old(sourceIds) + StringItems(v.items, 0, path)
        {
          assert v.items[i..][1..] == v.items[i + 1..];
          if v.items[i].String? {
            sourceIds := sourceIds + [Citation(v.items[i].s, path + [Index(i)])];
          }
          i := i + 1;
        }
      }
    }

    method GatherNode(members: seq<Member>, path: Path)
      modifies this
      ensures State() == Add(old(State()), Cites(NodeIds(members, path), NodePairs(members, path), false))
    {
      hide IsSourceIdKey, CitedIds, QuoteOf, StringField;
      var i := 0;
      while i < |members|
        invariant 0 <= i <= |members|
        invariant quotes == old(quotes) && depthExceeded == old(depthExceeded)
        invariant sourceIds + NodeIds(members[i..], path) == old(sourceIds) + NodeIds(members, path)
      {
        assert members[i..][1..] == members[i + 1..];
        if IsSourceIdKey(members[i].key) {
          PushSourceIds(members[i].value, path + [Key(members[i].key)]);
        }
        i := i + 1;
      }
      var quote, sid := QuoteOf(members), StringField(members, SOURCE_ID);
      if quote.Some? && sid.Some? {
        quotes := quotes + [Pair(quote.value, sid.value, path)];
      }
    }

    method Walk(v: Value, path: Path, depth: nat)
      modifies this
      ensures State() == Add(old(State()), Walked(v, path, depth))
      decreases v, 1
    {
      WalkedDirectly(State(), v, path, depth);
      if depth > MAX_WALK_DEPTH {
        depthExceeded := true;
        return;
      }
      match v
      case Array(items) =>
        WalkItems(items, path, depth);
      case Object(members) =>
        GatherNode(members, path);
        WalkMembers(members, path, depth);
      case _ =>
    }

    method WalkItems(items: seq<Value>, path: Path, depth: nat)
      modifies this
      ensures State() == Add(old(State()), WalkedItems(items, 0, path, depth))
      decreases items, 0
    {
      hide Add, Walked, WalkedItems;
      assert items[0..] == items;
      for i := 0 to |items|
        invariant Add(State(), WalkedItems(items[i..], i, path, depth)) == Add(old(State()), WalkedItems(items, 0, path, depth))
      {
        ItemsStep(State(), items, i, path, depth);
        Walk(items[i], path + [Index(i)], depth + 1);
      }
      assert items[|items|..] == [];
      WalkDone(State(), path, depth);
    }

    method WalkMembers(members: seq<Member>, path: Path, depth: nat)
      modifies this
      ensures State() == Add(old(State()), WalkedMembers(members, path, depth))
      decreases members, 0
    {
      hide Add, Walked, WalkedMembers;
      assert members[0..] == members;
      for i := 0 to |members|
        invariant Add(State(), WalkedMembers(members[i..], path, depth)) == Add(old(State()), WalkedMembers(members, path, depth))
      {
        MembersStep(State(), members, i, path, depth);
        Walk(members[i].value, path + [Key(members[i].key)], depth + 1);
      }
      assert members[|members|..] == [];
      WalkDone(State(), path, depth);
    }
  }

  /** What a node adds to `s` before and after its children are walked. */
  lemma WalkedDirectly(s: Cites, v: Value, path: Path, depth: nat)
    ensures depth > MAX_WALK_DEPTH ==> Add(s, Walked(v, path, depth)) == s.(tooDeep := true)
    ensures depth <= MAX_WALK_DEPTH ==>
              match v
              case Array(items) => Add(s, Walked(v, path, depth)) == Add(s, WalkedItems(items, 0, path, depth))
              case Object(members) =>
                Add(s, Walked(v, path, depth))
                == Add(Add(s, Cites(NodeIds(members, path), NodePairs(members, path), false)), WalkedMembers(members, path, depth))
              case _ => Add(s, Walked(v, path, depth)) == s
  {
    if v.Object? {
      AddAssociative(s, Cites(NodeIds(v.members, path), NodePairs(v.members, path), false), WalkedMembers(v.members, path, depth));
    }
  }

  lemma WalkDone(s: Cites, path: Path, depth: nat)
    ensures forall at: nat :: Add(s, WalkedItems([], at, path, depth)) == s
    ensures Add(s, WalkedMembers([], path, depth)) == s
  {
  }

  lemma ItemsStep(s: Cites, items: seq<Value>, i: nat, path: Path, depth: nat)
    requires i < |items|
    ensures Add(Add(s, Walked(items[i], path + [Index(i)], depth + 1)), WalkedItems(items[i + 1..], i + 1, path, depth))
         == Add(s, WalkedItems(items[i..], i, path, depth))
  {
    assert items[i..][1..] == items[i + 1..];
    AddAssociative(s, Walked(items[i], path + [Index(i)], depth + 1), WalkedItems(items[i + 1..], i + 1, path, depth));
    hide Walked;
  }

  lemma MembersStep(s: Cites, members: seq<Member>, i: nat, path: Path, depth: nat)
    requires i < |members|
    ensures Add(Add(s, Walked(members[i].value, path + [Key(members[i].key)], depth + 1)), WalkedMembers(members[i + 1..], path, depth))
         == Add(s, WalkedMembers(members[i..], path, depth))
  {
    assert members[i..][1..] == members[i + 1..];
    AddAssociative(s, Walked(members[i].value, path + [Key(members[i].key)], depth + 1), WalkedMembers(members[i + 1..], path, depth));
    hide Walked;
  }

  // ----- the citation rules -----

  /** The ids that were retrieved, the text of each source, and the floor on the length of a quote. */
  datatype Retrieval = Retrieval(allowed: set<Str>, sources: map<Str, Str>, minQuoteLen: real)

  function CheckId(r: Retrieval, c: Citation): seq<Violation> {
    if Trim(c.id) in r.allowed then [] else [Violation(OutOfSet, c.path)]
  }

  /** `sources[sid]`: a supplied source, or else what an inherited property prints as. */
  function SourceText(host: Host, r: Retrieval, sid: Str): Option<Str> {
    if sid in r.sources then Some(r.sources[sid])
    else if sid in host.printed then Some(host.printed[sid])
    else None
  }

  function CheckOneQuote(host: Host, r: Retrieval, q: Pair): seq<Violation> {
    var sid := Trim(q.sourceId);
    var source := SourceText(host, r, sid);
    if Utf16Length(Trim(q.quote)) as real < r.minQuoteLen then [Violation(QuoteTooShort, q.path)]
    else if sid !in r.allowed then [Violation(OutOfSet, q.path)]
    else if source.None? then [Violation(QuoteSourceMissing, q.path)]
    else if !Contains(Normalise(host.casing, source.value), Normalise(host.casing, q.quote)) then [Violation(QuoteDrift, q.path)]
    else []
  }

  function CheckIds(r: Retrieval, ids: seq<Citation>): seq<Violation> {
    if ids == [] then [] else CheckId(r, ids[0]) + CheckIds(r, ids[1..])
  }

  function CheckPairs(host: Host, r: Retrieval, pairs: seq<Pair>): seq<Violation> {
    if pairs == [] then [] else CheckOneQuote(host, r, pairs[0]) + CheckPairs(host, r, pairs[1..])
  }

  lemma CheckIdsFrom(r: Retrieval, ids: seq<Citation>, i: nat)
    requires i < |ids|
    ensures CheckIds(r, ids[i..]) == CheckId(r, ids[i]) + CheckIds(r, ids[i + 1..])
  {
    assert ids[i..][1..] == ids[i + 1..];
  }

  method CheckSourceIds(r: Retrieval, ids: seq<Citation>) returns (out: seq<Violation>)
    ensures out == CheckIds(r, ids)
  {
    out := [];
    for i := 0 to |ids|
      invariant out + CheckIds(r, ids[i..]) == CheckIds(r, ids)
    {
      CheckIdsFrom(r, ids, i);
      ConcatAssociative(out, CheckId(r, ids[i]), CheckIds(r, ids[i + 1..]));
      hide CheckId, CheckIds;
      out := out + CheckId(r, ids[i]);
    }
  }

  lemma CheckPairsFrom(host: Host, r: Retrieval, pairs: seq<Pair>, i: nat)
    requires i < |pairs|
    ensures CheckPairs(host, r, pairs[i..]) == CheckOneQuote(host, r, pairs[i]) + CheckPairs(host, r, pairs[i + 1..])
  {
    assert pairs[i..][1..] == pairs[i + 1..];
  }

  method CheckQuotes(host: Host, r: Retrieval, pairs: seq<Pair>) returns (out: seq<Violation>)
    ensures out == CheckPairs(host, r, pairs)
  {
    out := [];
    for i := 0 to |pairs|
      invariant out + CheckPairs(host, r, pairs[i..]) == CheckPairs(host, r, pairs)
    {
      CheckPairsFrom(host, r, pairs, i);
      ConcatAssociative(out, CheckOneQuote(host, r, pairs[i]), CheckPairs(host, r, pairs[i + 1..]));
      hide CheckOneQuote, CheckPairs;
      out := out + CheckOneQuote(host, r, pairs[i]);
    }
  }

  /** The quote meets the floor, its source was retrieved, and the source contains it. */
  predicate Supported(host: Host, r: Retrieval, quote: Str, sourceId: Str) {
    && Utf16Length(Trim(quote)) as real >= r.minQuoteLen
    && Trim(sourceId) in r.allowed && SourceText(host, r, Trim(sourceId)).Some?
    && Contains(Normalise(host.casing, SourceText(host, r, Trim(sourceId)).value), Normalise(host.casing, quote))
  }

  lemma OneQuoteExact(host: Host, r: Retrieval, q: Pair)
    ensures CheckOneQuote(host, r, q) == [] <==> Supported(host, r, q.quote, q.sourceId)
  {
  }

  /** A settled quote taken from its source is refused for its length or its source, never as drift. */
  lemma GenuineQuoteNotDrift(host: Host, r: Retrieval, q: Pair, before: Str, after: Str)
    requires Unicode(host.casing) && Settled(host.casing, q.quote)
    requires Trim(q.sourceId) in r.sources && r.sources[Trim(q.sourceId)] == before + q.quote + after
    ensures Violation(QuoteDrift, q.path) !in CheckOneQuote(host, r, q)
    ensures Supported(host, r, q.quote, q.sourceId)
       <==> Trim(q.sourceId) in r.allowed && Utf16Length(Trim(q.quote)) as real >= r.minQuoteLen
  {
    hide Normalise, Settled, Contains, Unicode, Trim, Utf16Length;
    SettledQuoteFound(host.casing, before, q.quote, after);
  }

  predicate InSet(r: Retrieval, v: Value) {
    && (v.String? ==> Trim(v.s) in r.allowed)
    && (v.Array? ==> forall e :: e in v.items && e.String? ==> Trim(e.s) in r.allowed)
  }

  /** One object's own citations are in the retrieval set, and its quote is supported by its source. */
  predicate NodeSound(host: Host, r: Retrieval, members: seq<Member>) {
    && (forall m :: m in members && IsSourceIdKey(m.key) ==> InSet(r, m.value))
    && (QuoteOf(members).Some? && StringField(members, SOURCE_ID).Some?
        ==> Supported(host, r, QuoteOf(members).value, StringField(members, SOURCE_ID).value))
  }

  /** Every object anywhere inside the value is sound, at whatever depth. */
  predicate EverywhereSound(host: Host, r: Retrieval, v: Value) {
    match v
    case Array(items) => forall e :: e in items ==> EverywhereSound(host, r, e)
    case Object(members) =>
      && NodeSound(host, r, members)
      && forall m :: m in members ==> EverywhereSound(host, r, m.value)
    case _ => true
  }

  /** How many containers lie around the most deeply nested value. */
  function Height(v: Value): nat
    decreases v, 1, 0
  {
    match v
    case Array(items) => ItemsHeight(items)
    case Object(members) => MembersHeight(members)
    case _ => 0
  }

  function ItemsHeight(items: seq<Value>): nat
    decreases items, 0, |items|
  {
    if items == [] then 0 else Max(1 + Height(items[0]), ItemsHeight(items[1..]))
  }

  function MembersHeight(members: seq<Member>): nat
    decreases members, 0, |members|
  {
    if members == [] then 0 else Max(1 + Height(members[0].value), MembersHeight(members[1..]))
  }

  predicate CitesSound(host: Host, r: Retrieval, c: Cites) {
    CheckIds(r, c.ids) == [] && CheckPairs(host, r, c.pairs) == []
  }

  lemma {:induction false} CheckIdsConcat(r: Retrieval, a: seq<Citation>, b: seq<Citation>)
    ensures CheckIds(r, a + b) == CheckIds(r, a) + CheckIds(r, b)
  {
    if a == [] {
      EmptyConcat(b);
    } else {
      CheckIdsConcat(r, a[1..], b);
      DropConcat(a, b, 1);
      ConcatAssociative(CheckId(r, a[0]), CheckIds(r, a[1..]), CheckIds(r, b));
    }
  }

  lemma {:induction false} CheckPairsConcat(host: Host, r: Retrieval, a: seq<Pair>, b: seq<Pair>)
    ensures CheckPairs(host, r, a + b) == CheckPairs(host, r, a) + CheckPairs(host, r, b)
  {
    if a == [] {
      EmptyConcat(b);
    } else {
      CheckPairsConcat(host, r, a[1..], b);
      DropConcat(a, b, 1);
      ConcatAssociative(CheckOneQuote(host, r, a[0]), CheckPairs(host, r, a[1..]), CheckPairs(host, r, b));
    }
  }

  lemma AddSound(host: Host, r: Retrieval, a: Cites, b: Cites)
    ensures CitesSound(host, r, Add(a, b)) <==> CitesSound(host, r, a) && CitesSound(host, r, b)
  {
    CheckIdsConcat(r, a.ids, b.ids);
    CheckPairsConcat(host, r, a.pairs, b.pairs);
  }

  predicate StringsInSet(r: Retrieval, items: seq<Value>) {
    forall e :: e in items && e.String? ==> Trim(e.s) in r.allowed
  }

  lemma {:induction false} StringItemsExact(r: Retrieval, items: seq<Value>, at: nat, path: Path)
    ensures CheckIds(r, StringItems(items, at, path)) == [] <==> StringsInSet(r, items)
  {
    if items != [] {
      StringItemsExact(r, items[1..], at + 1, path);
      var head := if items[0].String? then [Citation(items[0].s, path + [Index(at)])] else [];
      CheckIdsConcat(r, head, StringItems(items[1..], at + 1, path));
      assert CheckIds(r, head) == if items[0].String? then CheckId(r, head[0]) else [];
      hide Trim, StringItems;
      assert forall e :: e in items <==> e == items[0] || e in items[1..];
    }
  }

  lemma CitedExact(r: Retrieval, v: Value, path: Path)
    ensures CheckIds(r, CitedIds(v, path)) == [] <==> InSet(r, v)
  {
    match v
    case String(s) =>
      assert CheckIds(r, CitedIds(v, path)) == CheckId(r, Citation(s, path));
    case Array(items) =>
      StringItemsExact(r, items, 0, path);
    case _ =>
  }

  predicate KeysInSet(r: Retrieval, members: seq<Member>) {
    forall m :: m in members && IsSourceIdKey(m.key) ==> InSet(r, m.value)
  }

  lemma {:induction false} NodeIdsExact(r: Retrieval, members: seq<Member>, path: Path)
    ensures CheckIds(r, NodeIds(members, path)) == [] <==> KeysInSet(r, members)
  {
    if members != [] {
      NodeIdsExact(r, members[1..], path);
      var at := path + [Key(members[0].key)];
      CitedExact(r, members[0].value, at);
      CheckIdsConcat(r, if IsSourceIdKey(members[0].key) then CitedIds(members[0].value, at) else [], NodeIds(members[1..], path));
      hide InSet, IsSourceIdKey, CitedIds, CheckIds;
      assert forall m :: m in members <==> m == members[0] || m in members[1..];
    }
  }

  lemma NodeExact(host: Host, r: Retrieval, members: seq<Member>, path: Path)
    ensures CitesSound(host, r, Cites(NodeIds(members, path), NodePairs(members, path), false)) <==> NodeSound(host, r, members)
  {
    NodeIdsExact(r, members, path);
    var quote, sid := QuoteOf(members), StringField(members, SOURCE_ID);
    if quote.Some? && sid.Some? {
      var q := Pair(quote.value, sid.value, path);
      OneQuoteExact(host, r, q);
      assert CheckPairs(host, r, [q]) == CheckOneQuote(host, r, q);
    }
    hide Supported, InSet, CheckIds, QuoteOf, StringField;
  }

  predicate AllSound(host: Host, r: Retrieval, items: seq<Value>) {
    forall e :: e in items ==> EverywhereSound(host, r, e)
  }

  predicate MembersSound(host: Host, r: Retrieval, members: seq<Member>) {
    forall m :: m in members ==> EverywhereSound(host, r, m.value)
  }

  lemma AllSoundStep(host: Host, r: Retrieval, items: seq<Value>)
    requires items != []
    ensures AllSound(host, r, items) <==> EverywhereSound(host, r, items[0]) && AllSound(host, r, items[1..])
  {
    hide EverywhereSound;
    assert forall e :: e in items <==> e == items[0] || e in items[1..];
  }

  lemma MembersSoundStep(host: Host, r: Retrieval, members: seq<Member>)
    requires members != []
    ensures MembersSound(host, r, members) <==> EverywhereSound(host, r, members[0].value) && MembersSound(host, r, members[1..])
  {
    hide EverywhereSound;
    assert forall m :: m in members <==> m == members[0] || m in members[1..];
  }

  /** A walk that stays within the cap has seen every object: it is clean exactly when all are sound. */
  lemma {:induction false} WalkExact(host: Host, r: Retrieval, v: Value, path: Path, depth: nat)
    requires depth <= MAX_WALK_DEPTH + 1
    ensures Walked(v, path, depth).tooDeep <==> depth + Height(v) > MAX_WALK_DEPTH
    ensures !Walked(v, path, depth).tooDeep ==>
              (CitesSound(host, r, Walked(v, path, depth)) <==> EverywhereSound(host, r, v))
    decreases v, 1, 0
  {
    if depth <= MAX_WALK_DEPTH {
      match v
      case Array(items) =>
        ItemsWalkExact(host, r, items, 0, path, depth);
      case Object(members) =>
        MembersWalkExact(host, r, members, path, depth);
        NodeExact(host, r, members, path);
        AddSound(host, r, Cites(NodeIds(members, path), NodePairs(members, path), false), WalkedMembers(members, path, depth));
      case _ =>
    }
  }

  lemma {:induction false} ItemsWalkExact(host: Host, r: Retrieval, items: seq<Value>, at: nat, path: Path, depth: nat)
    requires depth <= MAX_WALK_DEPTH
    ensures WalkedItems(items, at, path, depth).tooDeep <==> depth + ItemsHeight(items) > MAX_WALK_DEPTH
    ensures !WalkedItems(items, at, path, depth).tooDeep ==>
              (CitesSound(host, r, WalkedItems(items, at, path, depth)) <==> AllSound(host, r, items))
    decreases items, 0, |items|
  {
    if items != [] {
      WalkExact(host, r, items[0], path + [Index(at)], depth + 1);
      ItemsWalkExact(host, r, items[1..], at + 1, path, depth);
      AddSound(host, r, Walked(items[0], path + [Index(at)], depth + 1), WalkedItems(items[1..], at + 1, path, depth));
      AllSoundStep(host, r, items);
      hide Walked, CitesSound, EverywhereSound, AllSound, Height;
    }
  }

  lemma {:induction false} MembersWalkExact(host: Host, r: Retrieval, members: seq<Member>, path: Path, depth: nat)
    requires depth <= MAX_WALK_DEPTH
    ensures WalkedMembers(members, path, depth).tooDeep <==> depth + MembersHeight(members) > MAX_WALK_DEPTH
    ensures !WalkedMembers(members, path, depth).tooDeep ==>
              (CitesSound(host, r, WalkedMembers(members, path, depth)) <==> MembersSound(host, r, members))
    decreases members, 0, |members|
  {
    if members != [] {
      WalkExact(host, r, members[0].value, path + [Key(members[0].key)], depth + 1);
      MembersWalkExact(host, r, members[1..], path, depth);
      AddSound(host, r, Walked(members[0].value, path + [Key(members[0].key)], depth + 1), WalkedMembers(members[1..], path, depth));
      MembersSoundStep(host, r, members);
      hide Walked, CitesSound, EverywhereSound, MembersSound, Height;
    }
  }

  // ----- the gate -----

  /** A response that did not parse carries the code of its one violation. */
  datatype Parsed = Rejected(code: Code) | Parsed(value: Value)
  datatype Verdict = Accepted(value: Value) | Abstained(violations: seq<Violation>)

  /** What the gate stands for: the schema is met, the nesting is within the cap, and every citation and
      every sourced quote anywhere in the response holds up. */
  predicate Acceptable(host: Host, schema: Schema, r: Retrieval, v: Value) {
    Satisfies(host, v, schema) && Height(v) <= MAX_WALK_DEPTH && EverywhereSound(host, r, v)
  }

  function AllViolations(host: Host, schema: Schema, r: Retrieval, v: Value): seq<Violation> {
    var c := Walked(v, [], 0);
    ValidateSchema(host, v, schema, [])
    + (if c.tooDeep then [Violation(DepthExceeded, [])] else [])
    + CheckIds(r, c.ids)
    + CheckPairs(host, r, c.pairs)
  }

  lemma GateExact(host: Host, schema: Schema, r: Retrieval, v: Value)
    ensures AllViolations(host, schema, r, v) == [] <==> Acceptable(host, schema, r, v)
  {
    SchemaExact(host, v, schema, []);
    WalkExact(host, r, v, [], 0);
    hide ValidateSchema, Walked, CheckIds, CheckPairs, Satisfies, Height, EverywhereSound;
  }

  method ValidateResponse(host: Host, schema: Schema, r: Retrieval, parsed: Parsed) returns (verdict: Verdict)
    ensures verdict.Accepted? <==> parsed.Parsed? && Acceptable(host, schema, r, parsed.value)
    ensures verdict.Accepted? ==> verdict.value == parsed.value
    ensures verdict.Abstained? && parsed.Parsed? ==> verdict.violations == AllViolations(host, schema, r, parsed.value)
    ensures verdict.Abstained? ==> verdict.violations != []
    ensures parsed.Rejected? ==> verdict == Abstained([Violation(parsed.code, [])])
  {
    if parsed.Rejected? {
      return Abstained([Violation(parsed.code, [])]);
    }
    var value := parsed.value;
    GateExact(host, schema, r, value);
    hide Acceptable, Walked, CheckIds, CheckPairs, ValidateSchema;
    ghost var cites := Walked(value, [], 0);
    var violations := ValidateSchema(host, value, schema, []);
    ghost var shape := violations;
    var acc := new Accumulator();
    acc.Walk(value, [], 0);
    assert acc.State() == cites by { AddAssociative(cites, cites, cites); }
    assert acc.sourceIds == cites.ids && acc.quotes == cites.pairs && acc.depthExceeded == cites.tooDeep;
    if acc.depthExceeded {
      violations := violations + [Violation(DepthExceeded, [])];
    }
    assert violations == shape + if cites.tooDeep then [Violation(DepthExceeded, [])] else [];
    var ids := CheckSourceIds(r, acc.sourceIds);
    violations := violations + ids;
    var quotes := CheckQuotes(host, r, acc.quotes);
    violations := violations + quotes;
    verdict := if violations != [] then Abstained(violations) else Accepted(value);
  }
}
