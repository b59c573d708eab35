/** llm/gate.js: where the gate does not do what its documentation says, and exactly when it does. */
module GateLimits {
  import opened Texts
  import opened QuoteText
  import opened QuoteMatch
  import opened Gate

  // ----- schemas read with own members only -----

  /** The keywords about objects and arrays, with required and declared keys looked up among the own members,
      and only the declared keys permitted in a closed object. */
  predicate OwnContainer(host: Host, v: Value, s: Schema)
    requires s.Schema?
    decreases s, 0
  {
    && (v.Object? ==>
          && (forall k :: k in s.required ==> Own(v.members, k).Some?)
          && (forall p :: p in s.properties && Own(v.members, p.key).Some?
                ==> OwnSatisfies(host, Own(v.members, p.key).value, p.schema))
          && (s.closed ==> forall m :: m in v.members ==> exists p :: p in s.properties && p.key == m.key))
    && (v.Array? ==>
          && AtLeast(|v.items|, s.minItems) && AtMost(|v.items|, s.maxItems)
          && (s.items.Some? ==> forall e :: e in v.items ==> OwnSatisfies(host, e, s.items.value)))
  }

  /** The value satisfies the schema as the documentation has it: inherited members play no part. */
  predicate OwnSatisfies(host: Host, v: Value, s: Schema)
    decreases s, 1
  {
    s.Anything?
    || (s.nullable && v.Null?)
    || (&& (s.types.Some? ==> exists t :: t in s.types.value && OneTypeMatches(v, t))
        && ScalarSatisfies(host, v, s)
        && OwnContainer(host, v, s))
  }

  /** All keys anywhere in the value are among `keys`. */
  predicate ValueWithin(v: Value, keys: set<Str>) {
    match v
    case Array(items) => forall e :: e in items ==> ValueWithin(e, keys)
    case Object(members) => forall m :: m in members ==> m.key in keys && ValueWithin(m.value, keys)
    case _ => true
  }

  /** All required and declared keys anywhere in the schema are among `keys`. */
  predicate SchemaWithin(s: Schema, keys: set<Str>) {
    s.Schema? ==>
      && (forall k :: k in s.required ==> k in keys)
      && (forall p :: p in s.properties ==> p.key in keys && SchemaWithin(p.schema, keys))
      && (s.items.Some? ==> SchemaWithin(s.items.value, keys))
  }

  /** For a key that is not inherited, `in` sees own members only. */
  lemma {:induction false} LookupIsOwn(host: Host, members: seq<Member>, key: Str)
    requires key !in host.inherited
    ensures Lookup(host, members, key) == Own(members, key)
  {
    if members != [] {
      LookupIsOwn(host, members[1..], key);
    }
  }

  lemma {:induction false} OwnIsMember(members: seq<Member>, key: Str)
    ensures Own(members, key).Some? ==> Member(key, Own(members, key).value) in members
  {
    if members != [] {
      OwnIsMember(members[1..], key);
    }
  }

  lemma DeclaredIsOwn(host: Host, props: seq<Property>, key: Str)
    requires key !in host.inherited
    ensures Declared(host, props, key) <==> exists p :: p in props && p.key == key
  {
  }

  predicate Disjoint(host: Host, keys: set<Str>) {
    forall k :: k in keys ==> k !in host.inherited
  }

  lemma {:induction false} ObjectsAgree(host: Host, members: seq<Member>, s: Schema, keys: set<Str>)
    requires s.Schema? && SchemaWithin(s, keys) && ValueWithin(Object(members), keys) && Disjoint(host, keys)
    ensures ContainerSatisfies(host, Object(members), s) <==> OwnContainer(host, Object(members), s)
    decreases s, 0
  {
    forall k | k in keys ensures Lookup(host, members, k) == Own(members, k) {
      LookupIsOwn(host, members, k);
    }
    forall p | p in s.properties && Own(members, p.key).Some?
      ensures Satisfies(host, Own(members, p.key).value, p.schema) <==> OwnSatisfies(host, Own(members, p.key).value, p.schema)
    {
      OwnIsMember(members, p.key);
      KeysDisjointAgree(host, Own(members, p.key).value, p.schema, keys);
    }
    forall m | m in members ensures Declared(host, s.properties, m.key) <==> exists p :: p in s.properties && p.key == m.key {
      DeclaredIsOwn(host, s.properties, m.key);
    }
    hide Lookup, Own, Declared, Satisfies, OwnSatisfies;
  }

  lemma {:induction false} ArraysAgree(host: Host, items: seq<Value>, s: Schema, keys: set<Str>)
    requires s.Schema? && SchemaWithin(s, keys) && ValueWithin(Array(items), keys) && Disjoint(host, keys)
    ensures ContainerSatisfies(host, Array(items), s) <==> OwnContainer(host, Array(items), s)
    decreases s, 0
  {
    if s.items.Some? {
      forall e | e in items ensures Satisfies(host, e, s.items.value) <==> OwnSatisfies(host, e, s.items.value) {
        KeysDisjointAgree(host, e, s.items.value, keys);
      }
    }
    hide Satisfies, OwnSatisfies;
  }

  /** When no key in play is inherited, the checker's semantics is the documented one. */
  lemma {:induction false} KeysDisjointAgree(host: Host, v: Value, s: Schema, keys: set<Str>)
    requires SchemaWithin(s, keys) && ValueWithin(v, keys) && Disjoint(host, keys)
    ensures Satisfies(host, v, s) <==> OwnSatisfies(host, v, s)
    decreases s, 1
  {
    if s.Schema? {
      match v
      case Object(members) => ObjectsAgree(host, members, s, keys);
      case Array(items) => ArraysAgree(host, items, s, keys);
      case _ =>
    }
    hide ContainerSatisfies, OwnContainer, ScalarSatisfies;
  }

  /** A closed object schema that requires one key and declares none. */
  function Requiring(key: Str): Schema {
    Schema(false, None, None, None, None, None, None, None, None, None, None, [key], [], true, None)
  }

  /** An inherited key counts as present in the empty object, and as declared in a closed one. */
  lemma InheritedKeyAccepted(host: Host, key: Str, v: Value)
    requires key in host.inherited
    ensures var empty, extra := Object([]), Object([Member(key, v)]);
            && ValidateSchema(host, empty, Requiring(key), []) == [] && !OwnSatisfies(host, empty, Requiring(key))
            && ValidateSchema(host, extra, Requiring(key), []) == [] && !OwnSatisfies(host, extra, Requiring(key))
  {
    SchemaExact(host, Object([]), Requiring(key), []);
    SchemaExact(host, Object([Member(key, v)]), Requiring(key), []);
    assert Own([], key).None?;
    assert Member(key, v) in Object([Member(key, v)]).members;
    hide ValidateSchema;
  }

  /** Over any set of keys, the checker agrees with the documented semantics on all values and schemas that use
      those keys exactly when none of them is inherited. */
  lemma InheritedKeysExact(host: Host, keys: set<Str>)
    ensures (forall v, s :: ValueWithin(v, keys) && SchemaWithin(s, keys)
                ==> (ValidateSchema(host, v, s, []) == [] <==> OwnSatisfies(host, v, s)))
       <==> Disjoint(host, keys)
  {
    if Disjoint(host, keys) {
      forall v, s | ValueWithin(v, keys) && SchemaWithin(s, keys)
        ensures ValidateSchema(host, v, s, []) == [] <==> OwnSatisfies(host, v, s)
      {
        SchemaExact(host, v, s, []);
        KeysDisjointAgree(host, v, s, keys);
      }
    } else {
      var k :| k in keys && k in host.inherited;
      InheritedKeyAccepted(host, k, Null);
      assert ValueWithin(Object([]), keys) && SchemaWithin(Requiring(k), keys);
    }
  }

  // ----- sources looked up by an inherited name -----

  /** `Supported` with the supplied sources only. */
  predicate OwnSupported(host: Host, r: Retrieval, quote: Str, sourceId: Str) {
    && Utf16Length(Trim(quote)) as real >= r.minQuoteLen
    && Trim(sourceId) in r.allowed && Trim(sourceId) in r.sources
    && Contains(Normalise(host.casing, r.sources[Trim(sourceId)]), Normalise(host.casing, quote))
  }

  lemma {:induction false} ContainsItself(s: Str)
    ensures Contains(s, s)
  {
    assert OccursAt(s, s, 0);
  }

  /** A source id is judged by the supplied sources alone, whatever was retrieved and quoted, exactly when it
      is no name that every object inherits. Otherwise a quote of what the inherited member prints as passes
      although no source was supplied. */
  lemma InheritedSourceExact(host: Host, sourceId: Str)
    ensures (forall r, quote :: Supported(host, r, quote, sourceId) <==> OwnSupported(host, r, quote, sourceId))
       <==> Trim(sourceId) !in host.printed
  {
    hide Normalise, Trim, Utf16Length, Contains;
    var sid := Trim(sourceId);
    if sid in host.printed {
      var r := Retrieval({sid}, map[], 0.0);
      ContainsItself(Normalise(host.casing, host.printed[sid]));
      assert Supported(host, r, host.printed[sid], sourceId) && !OwnSupported(host, r, host.printed[sid], sourceId);
    }
  }

  // ----- genuine quotes refused as drift -----

  /** The retrieval with `text` supplied as the source of this id. */
  function Supplying(r: Retrieval, sid: Str, text: Str): Retrieval {
    r.(sources := r.sources[sid := text])
  }

  /** A retrieved quote over the floor passes in every source it was taken from exactly when it settles the form
      of each of its capital sigmas. */
  lemma DriftExactly(host: Host, r: Retrieval, q: Pair)
    requires Unicode(host.casing)
    requires Utf16Length(Trim(q.quote)) as real >= r.minQuoteLen && Trim(q.sourceId) in r.allowed
    ensures (forall before, after :: CheckOneQuote(host, Supplying(r, Trim(q.sourceId), before + q.quote + after), q) == [])
       <==> Settled(host.casing, q.quote)
  {
    hide Normalise, Settled, Contains, Unicode, Trim, Utf16Length;
    NeverRefusedExactly(host.casing, q.quote);
    if Settled(host.casing, q.quote) {
      assert forall before, after ::
          CheckOneQuote(host, Supplying(r, Trim(q.sourceId), before + q.quote + after), q) == [];
    } else {
      var a, b :| !Contains(Normalise(host.casing, a + q.quote + b), Normalise(host.casing, q.quote));
      assert CheckOneQuote(host, Supplying(r, Trim(q.sourceId), a + q.quote + b), q) != [];
    }
  }

  /** Eight capital letters, the last of them a sigma. */
  const GREEK: Str :=
    [LETTER_A, LETTER_A, LETTER_A, LETTER_A, LETTER_A, LETTER_A, LETTER_A, SIGMA]

  lemma {:induction false} SolidCollapse(s: Str)
    requires forall c :: c in s ==> !IsSpace(c)
    ensures Collapse(s) == s
  {
    if s != [] {
      SolidCollapse(s[1..]);
    }
  }

  lemma GreekIsItsCore()
    ensures Core(GREEK) == GREEK && Trim(GREEK) == GREEK && Utf16Length(GREEK) == 8
  {
    hide Collapse, Utf16Length;
    SolidCollapse(GREEK);
    assert Fold(GREEK) == GREEK;
    hide Fold;
    assert LeadSpaces(GREEK) == 0 && TrailSpaces(GREEK) == 0;
    hide LeadSpaces, TrailSpaces;
    BasicLength(GREEK);
  }

  lemma {:induction false} BasicLength(s: Str)
    requires forall i :: 0 <= i < |s| ==> s[i] <= 0xFFFF
    ensures Utf16Length(s) == |s|
  {
    if s != [] {
      BasicLength(s[1..]);
    }
  }

  /** A genuine quote of eight letters, over the default floor, from a source that was retrieved and supplied,
      is refused as drift: its closing sigma takes the final form, and in the source it does not. */
  lemma GenuineQuoteDrifts(host: Host, r: Retrieval, sourceId: Str, path: Path)
    requires Unicode(host.casing) && r.minQuoteLen == 8.0 && Trim(sourceId) in r.allowed
    ensures CheckOneQuote(host, Supplying(r, Trim(sourceId), GREEK + [LETTER_A]), Pair(GREEK, sourceId, path))
         == [Violation(QuoteDrift, path)]
  {
    GreekIsItsCore();
    assert Preceded(host.casing, GREEK, 7) && !Followed(host.casing, GREEK, 8) && !BlockedAfter(host.casing, GREEK, 8);
    hide Normalise, Contains, Core, Trim, Utf16Length, Preceded, Followed, BlockedAfter;
    RefusedWhenContinued(host.casing, GREEK, 7);
    hide Unicode;
  }
}
