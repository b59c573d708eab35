/** mint/persist.js and mint/post-write-assertions.js: how a payload is stored and a mint is closed. */
module Mint {
  // A payload is written to the object store under a key derived from its content, then a row points at it,
  // and only a row read back closes the mint.

  import opened Texts
  import opened Encoding
  import opened Version
  import opened JsonText
  import opened JsonFields
  import opened Canonical
  import opened StableWriter

  // ----- the route segments -----

  const HYPHEN: Unit := '-' as int

  predicate IsWordUnit(u: Unit) {
    IsDigit(u) || 'a' as int <= u <= 'z' as int
  }

  /** How many units at the front are not letters or digits. */
  function OtherUnits(t: Text): (n: nat)
    ensures n <= |t|
    ensures n < |t| ==> IsWordUnit(t[n])
    ensures t != [] && !IsWordUnit(t[0]) ==> n > 0
  {
    if t == [] || IsWordUnit(t[0]) then 0 else 1 + OtherUnits(t[1..])
  }

  /** Every other run becomes one hyphen. */
  function Squash(t: Text): Text
    decreases |t|
  {
    if t == [] then []
    else if IsWordUnit(t[0]) then [t[0]] + Squash(t[1..])
    else [HYPHEN] + Squash(t[OtherUnits(t)..])
  }

  function TrimLeft(t: Text): Text {
    if t != [] && t[0] == HYPHEN then TrimLeft(t[1..]) else t
  }

  function TrimRight(t: Text): Text {
    if t != [] && t[|t| - 1] == HYPHEN then TrimRight(t[..|t| - 1]) else t
  }

  function Kebab(lower: Text -> Text, t: Text): Text {
    TrimRight(TrimLeft(Squash(lower(t))))
  }

  predicate IsSegmentUnit(u: Unit) {
    IsWordUnit(u) || u == HYPHEN
  }

  /** One URL path segment: letters, digits and single hyphens between them. */
  predicate IsSegment(t: Text) {
    && (forall i :: 0 <= i < |t| ==> IsSegmentUnit(t[i]))
    && (forall i :: 0 <= i < |t| - 1 ==> t[i] != HYPHEN || t[i + 1] != HYPHEN)
  }

  predicate OpenEnded(t: Text) {
    t != [] ==> t[0] != HYPHEN && t[|t| - 1] != HYPHEN
  }

  lemma {:induction false} SquashIsSegment(t: Text)
    ensures IsSegment(Squash(t))
    ensures t == [] <==> Squash(t) == []
    ensures t != [] ==> (Squash(t)[0] == HYPHEN <==> !IsWordUnit(t[0]))
    decreases |t|
  {
    if t != [] {
      SquashIsSegment(if IsWordUnit(t[0]) then t[1..] else t[OtherUnits(t)..]);
    }
  }

  lemma {:induction false} TrimLeftIsSegment(t: Text)
    requires IsSegment(t)
    ensures IsSegment(TrimLeft(t))
    ensures TrimLeft(t) != [] ==> TrimLeft(t)[0] != HYPHEN
  {
    if t != [] && t[0] == HYPHEN {
      TrimLeftIsSegment(t[1..]);
    }
  }

  lemma {:induction false} TrimRightIsSegment(t: Text)
    requires IsSegment(t)
    ensures IsSegment(TrimRight(t))
    ensures TrimRight(t) != [] ==> TrimRight(t)[|TrimRight(t)| - 1] != HYPHEN && t != [] && TrimRight(t)[0] == t[0]
  {
    if t != [] && t[|t| - 1] == HYPHEN {
      TrimRightIsSegment(t[..|t| - 1]);
    }
  }

  lemma {:induction false} SquashFixed(t: Text)
    requires IsSegment(t)
    ensures Squash(t) == t
    decreases |t|
  {
    if t != [] {
      SquashFixed(t[1..]);
      if t[0] == HYPHEN {
        assert |t| > 1 ==> IsWordUnit(t[1]);
        assert OtherUnits(t[1..]) == 0;
        assert OtherUnits(t) == 1;
      }
      assert t == [t[0]] + t[1..];
    }
  }

  /** The slug is one path segment, and slugging a slug changes nothing. */
  lemma KebabIsSegment(lower: Text -> Text, t: Text)
    requires forall s :: IsSegment(s) ==> lower(s) == s
    ensures var k := Kebab(lower, t); IsSegment(k) && OpenEnded(k) && Kebab(lower, k) == k
  {
    SquashIsSegment(lower(t));
    TrimLeftIsSegment(Squash(lower(t)));
    TrimRightIsSegment(TrimLeft(Squash(lower(t))));
    SquashFixed(Kebab(lower, t));
  }

  // ----- the facts of a payload -----

  const META: Text := Ascii("meta")
  const DOMAIN: Text := Ascii("domain")

  /** `payload && payload.meta && payload.meta.domain`. */
  function DomainValue(payload: Json): Option<Json> {
    AndField(AndField(Some(payload), META), DOMAIN)
  }

  /** `String(v)`, and the empty text for null and undefined. */
  function StringOf(v: Json): Text
    decreases v, 1
  {
    match v
    case Null => []
    case Bool(b) => if b then TRUE_TEXT else FALSE_TEXT
    case Num(t) => t
    case Str(s) => s
    case Arr(items) => StringOfItems(items)
    case Obj(_) => Ascii("[object Object]")
  }

  function StringOfItems(items: seq<Json>): Text
    decreases items, 0
  {
    if items == [] then []
    else if |items| == 1 then StringOf(items[0])
    else StringOf(items[0]) + [COMMA] + StringOfItems(items[1..])
  }

  function DomainText(payload: Json): Text {
    var d := DomainValue(payload);
    if d.Some? then StringOf(d.value) else []
  }

  /** What the runtime supplies: lower-casing, the shortened digest that names a payload's content, and the
      digits of a value that converts to a finite number. */
  datatype Host = Host(lower: Text -> Text, digest: Bytes -> Text, finite: Option<Json> -> Option<Text>)

  /** Distinct buffers have distinct digests, no digest holds a slash, and lower-casing leaves segments alone. */
  ghost predicate Sound(h: Host) {
    && (forall a, b :: h.digest(a) == h.digest(b) ==> a == b)
    && (forall a :: h.digest(a) != [] && Free(h.digest(a), SLASH))
    && (forall s :: IsSegment(s) ==> h.lower(s) == s)
  }

  /** A digest over bytes can meet this. */
  lemma SoundHost(finite: Option<Json> -> Option<Text>)
    ensures Sound(Host(s => s, b => [LETTER] + Spelled(b), finite))
  {
    forall b ensures Free([LETTER] + Spelled(b), SLASH) {
      SpelledPlain(b);
    }
    forall a, b | [LETTER] + Spelled(a) == [LETTER] + Spelled(b) ensures a == b {
      SplitConcat([LETTER], Spelled(a));
      SplitConcat([LETTER], Spelled(b));
      SpelledInjective(a, b);
    }
  }

  function SlugOf(h: Host, payload: Json): Text {
    Kebab(h.lower, DomainText(payload))
  }

  function HashOf(h: Host, payload: Json): Text {
    h.digest(Utf8(StableJson(payload)))
  }

  const AUDITS: Text := Ascii("audits/")
  const JSON_EXTENSION: Text := Ascii(".json")

  function ObjectKey(slug: Text, hash: Text): Text {
    AUDITS + (slug + ([SLASH] + (hash + JSON_EXTENSION)))
  }

  lemma DropPrefix(p: Text, a: Text, b: Text)
    requires p + a == p + b
    ensures a == b
  {
    assert (p + a)[|p|..] == a && (p + b)[|p|..] == b;
  }

  lemma DropSuffix(a: Text, b: Text, s: Text)
    requires a + s == b + s
    ensures a == b
  {
    assert |a| == |b|;
    assert (a + s)[..|a|] == a && (b + s)[..|b|] == b;
  }

  /** The key of an object determines the slug and the hash it was made from. */
  lemma ObjectKeyInjective(s: Text, h: Text, t: Text, k: Text)
    requires Free(s, SLASH) && Free(t, SLASH) && ObjectKey(s, h) == ObjectKey(t, k)
    ensures s == t && h == k
  {
    var a, b := [SLASH] + (h + JSON_EXTENSION), [SLASH] + (k + JSON_EXTENSION);
    DropPrefix(AUDITS, s + a, t + b);
    FirstPart(s, t, a, b, SLASH);
    DropPrefix([SLASH], h + JSON_EXTENSION, k + JSON_EXTENSION);
    DropSuffix(h, k, JSON_EXTENSION);
  }

  lemma SlugHasNoSlash(h: Host, payload: Json)
    requires Sound(h)
    ensures Free(SlugOf(h, payload), SLASH)
  {
    KebabIsSegment(h.lower, DomainText(payload));
    assert !IsSegmentUnit(SLASH);
  }

  /** One key, one content: payloads with the same object key have the same stable text. */
  lemma SameKeySameText(h: Host, p: Json, q: Json)
    requires Sound(h)
    requires ObjectKey(SlugOf(h, p), HashOf(h, p)) == ObjectKey(SlugOf(h, q), HashOf(h, q))
    ensures StableJson(p) == StableJson(q) && SlugOf(h, p) == SlugOf(h, q)
  {
    SlugHasNoSlash(h, p);
    SlugHasNoSlash(h, q);
    hide SlugOf, StableJson, ObjectKey;
    ObjectKeyInjective(SlugOf(h, p), HashOf(h, p), SlugOf(h, q), HashOf(h, q));
    StableTextsEncode(p, q);
  }

  // ----- the row -----

  const DEFAULT_STATUS: Text := Ascii("ready")

  /** What the row carries instead of the payload. */
  datatype Marker = Marker(binding: Text, engineVersion: Text, llmVerify: bool)

  datatype Row = Row(
    slug: Text, hash: Text, domain: Option<Text>, sector: Option<Text>, country: Option<Text>,
    frameworkVersion: Option<Text>, marker: Marker, generatedAt: Option<Text>, status: Text, idemKey: Text)

  datatype Options = Options(
    generatedAt: Option<Text>, frameworkVersion: Option<Text>, llmVerify: Option<bool>, status: Option<Text>)

  /** The text of a value, and null for null and undefined. */
  function TextOrNull(v: Option<Json>): Option<Text> {
    if v.None? || v.value.Null? then None else Some(StringOf(v.value))
  }

  function MetaText(payload: Json, key: Text): Option<Text> {
    TextOrNull(AndField(AndField(Some(payload), META), key))
  }

  function BuildMarker(h: Host, payload: Json, llmVerify: Option<bool>): Marker {
    var binding := h.finite(AndField(Some(payload), Ascii("frameworksBinding")));
    Marker(if binding.Some? then binding.value else [ZERO],
           ENGINE_VERSION,
           if llmVerify.Some? then llmVerify.value
           else AndField(AndField(Some(payload), META), Ascii("adjudicated")) == Some(Bool(true)))
  }

  function NonEmpty(t: Option<Text>): Option<Text> {
    if t.Some? && t.value == [] then None else t
  }

  function BuildRow(h: Host, payload: Json, o: Options): Row {
    Row(SlugOf(h, payload), HashOf(h, payload),
        Some(DomainText(payload)), MetaText(payload, Ascii("sector")), MetaText(payload, Ascii("country")),
        NonEmpty(o.frameworkVersion), BuildMarker(h, payload, o.llmVerify), NonEmpty(o.generatedAt),
        if NonEmpty(o.status).Some? then o.status.value else DEFAULT_STATUS,
        DomainText(payload) + [BAR] + ENGINE_VERSION)
  }

  // ----- the two stores -----

  datatype RowKey = RowKey(slug: Text, hash: Text)

  datatype Contents = Contents(objects: map<Text, Text>, rows: map<RowKey, Row>)

  /** What a write door does: it may apply the write and say so, apply it and lose the answer, or fail. */
  datatype Door = Delivered | AnswerLost | Refused

  function Put(objects: map<Text, Text>, key: Text, body: Text, door: Door): map<Text, Text> {
    if door.Refused? then objects else objects[key := body]
  }

  /** Insert, or re-point the mutable columns of the row that holds the key. */
  function Upsert(rows: map<RowKey, Row>, row: Row, door: Door): map<RowKey, Row> {
    var key := RowKey(row.slug, row.hash);
    if door.Refused? then rows
    else if key in rows then
      rows[key := rows[key].(marker := row.marker, generatedAt := row.generatedAt,
                             frameworkVersion := row.frameworkVersion, status := row.status, idemKey := row.idemKey)]
    else rows[key := row]
  }

  predicate Keyless(h: Host, payload: Json) {
    SlugOf(h, payload) == [] || HashOf(h, payload) == []
  }

  function KeyOf(h: Host, payload: Json): Text {
    ObjectKey(SlugOf(h, payload), HashOf(h, payload))
  }

  function RowKeyOf(h: Host, payload: Json): RowKey {
    RowKey(SlugOf(h, payload), HashOf(h, payload))
  }

  datatype Truth = Truth(ok: bool, ran: bool)

  /** One mint: the payload, the table name after defaults, how the doors answer, and what the checks after the
      writes see. */
  datatype Attempt = Attempt(
    payload: Json, options: Options, table: Text, put: Door, sql: Door, readAnswers: bool, live200: bool, truth: Truth)

  datatype MintState = KeylessRefused | TableRefused | RowMissing | Unreachable | RenderMismatch | PendingRender | Done

  predicate IsIdentifierUnit(u: Unit) {
    IsWordUnit(u) || 'A' as int <= u <= 'Z' as int || u == '_' as int
  }

  predicate IsIdentifier(t: Text) {
    t != [] && !IsDigit(t[0]) && forall i :: 0 <= i < |t| ==> IsIdentifierUnit(t[i])
  }

  /** An identifier, or two of them with a dot between. */
  predicate IsSafeTable(t: Text) {
    IsIdentifier(t) || exists d :: 0 <= d < |t| && t[d] == DOT && IsIdentifier(t[..d]) && IsIdentifier(t[d + 1..])
  }

  /** A payload without a key is refused before anything is written; a table name that is no identifier is
      refused only after the object was put. */
  function Persisted(h: Host, c: Contents, a: Attempt): Contents {
    if Keyless(h, a.payload) then c
    else
      Contents(Put(c.objects, KeyOf(h, a.payload), StableJson(a.payload), a.put),
               if IsSafeTable(a.table) then Upsert(c.rows, BuildRow(h, a.payload, a.options), a.sql) else c.rows)
  }

  predicate RowReadsBack(c: Contents, key: RowKey, readAnswers: bool) {
    readAnswers && key in c.rows && c.rows[key].marker.engineVersion == ENGINE_VERSION
  }

  /** The first leg that fails, in write order. */
  function StateFor(row: bool, live: bool, truth: Truth): MintState {
    if !row then RowMissing
    else if !live then Unreachable
    else if !truth.ok then (if truth.ran then RenderMismatch else PendingRender)
    else Done
  }

  function StateAfter(h: Host, c: Contents, a: Attempt): MintState {
    if Keyless(h, a.payload) then KeylessRefused
    else if !IsSafeTable(a.table) then TableRefused
    else StateFor(RowReadsBack(Persisted(h, c, a), RowKeyOf(h, a.payload), a.readAnswers), a.live200, a.truth)
  }

  class Stores {
    var objects: map<Text, Text>
    var rows: map<RowKey, Row>

    function State(): Contents
      reads this
    {
      Contents(objects, rows)
    }

    /** The object first, then the row that points at it; a payload without a key changes nothing. */
    method Persist(h: Host, a: Attempt) returns (row: Option<Row>)
      modifies this
      ensures State() == Persisted(h, old(State()), a)
      ensures row == if Keyless(h, a.payload) || !IsSafeTable(a.table) then None else Some(BuildRow(h, a.payload, a.options))
      ensures Keyless(h, a.payload) ==> State() == old(State())
    {
      hide SlugOf, HashOf, StableJson, ObjectKey, IsSafeTable;
      var slug, hash := SlugOf(h, a.payload), HashOf(h, a.payload);
      if slug == [] || hash == [] {
        return None;
      }
      var built := BuildRow(h, a.payload, a.options);
      if !a.put.Refused? {
        objects := objects[ObjectKey(slug, hash) := StableJson(a.payload)];
      }
      if !IsSafeTable(a.table) {
        return None;
      }
      rows := Upsert(rows, built, a.sql);
      row := Some(built);
    }

    method ReadBackRow(row: Row, answers: bool) returns (ok: bool)
      ensures ok <==> RowReadsBack(State(), RowKey(row.slug, row.hash), answers)
    {
      if !answers {
        return false;
      }
      var key := RowKey(row.slug, row.hash);
      if key !in rows {
        return false;
      }
      ok := rows[key].marker.engineVersion == ENGINE_VERSION;
    }

    method MintOnce(h: Host, a: Attempt) returns (state: MintState)
      modifies this
      ensures State() == Persisted(h, old(State()), a)
      ensures state == StateAfter(h, old(State()), a)
    {
      hide Persisted, SlugOf, HashOf, IsSafeTable;
      var row := Persist(h, a);
      if row.None? {
        return if Keyless(h, a.payload) then KeylessRefused else TableRefused;
      }
      var ok := ReadBackRow(row.value, a.readAnswers);
      state := StateFor(ok, a.live200, a.truth);
    }
  }

  // ----- what every step keeps -----

  /** Under each key lies the stable text of a payload that derives that key. */
  ghost predicate Honest(h: Host, objects: map<Text, Text>) {
    forall k :: k in objects ==> Derives(h, k, objects[k])
  }

  ghost predicate Derives(h: Host, key: Text, body: Text) {
    exists p :: !Keyless(h, p) && KeyOf(h, p) == key && StableJson(p) == body
  }

  /** Everything written before is still there, unchanged. */
  ghost predicate Keeps(before: Contents, after: Contents) {
    && (forall k :: k in before.objects ==> k in after.objects && after.objects[k] == before.objects[k])
    && (forall k :: k in before.rows ==> k in after.rows && SameIdentity(before.rows[k], after.rows[k]))
  }

  /** What an upsert never re-points, and a current engine version, which it never takes back. */
  predicate SameIdentity(a: Row, b: Row) {
    && a.slug == b.slug && a.hash == b.hash && a.domain == b.domain && a.sector == b.sector && a.country == b.country
    && (a.marker.engineVersion == ENGINE_VERSION ==> b.marker.engineVersion == ENGINE_VERSION)
  }

  /** What lies under the key of a payload is that payload's stable text. */
  lemma HonestText(h: Host, objects: map<Text, Text>, p: Json)
    requires Sound(h) && Honest(h, objects)
    ensures KeyOf(h, p) in objects ==> objects[KeyOf(h, p)] == StableJson(p)
  {
    hide SlugOf, HashOf, StableJson, ObjectKey, Sound;
    var key := KeyOf(h, p);
    if key in objects {
      assert Derives(h, key, objects[key]);
      var q :| !Keyless(h, q) && KeyOf(h, q) == key && StableJson(q) == objects[key];
      SameKeySameText(h, p, q);
    }
  }

  lemma PutKeeps(h: Host, objects: map<Text, Text>, p: Json, door: Door)
    requires Sound(h) && Honest(h, objects) && !Keyless(h, p)
    ensures var after := Put(objects, KeyOf(h, p), StableJson(p), door);
            Honest(h, after) && forall k :: k in objects ==> k in after && after[k] == objects[k]
  {
    hide SlugOf, HashOf, StableJson, ObjectKey, Sound;
    assert Derives(h, KeyOf(h, p), StableJson(p));
    HonestText(h, objects, p);
  }

  lemma UpsertKeeps(rows: map<RowKey, Row>, row: Row, door: Door)
    requires row.marker.engineVersion == ENGINE_VERSION
    ensures forall k :: k in rows ==> k in Upsert(rows, row, door) && SameIdentity(rows[k], Upsert(rows, row, door)[k])
  {
  }

  /** One mint, whatever its doors do, keeps the store honest and loses or changes nothing in it. */
  lemma StepSafe(h: Host, c: Contents, a: Attempt)
    requires Sound(h) && Honest(h, c.objects)
    ensures Honest(h, Persisted(h, c, a).objects) && Keeps(c, Persisted(h, c, a))
  {
    if !Keyless(h, a.payload) {
      PutKeeps(h, c.objects, a.payload, a.put);
      UpsertKeeps(c.rows, BuildRow(h, a.payload, a.options), a.sql);
    }
    hide Honest, Keyless, KeyOf, StableJson, SlugOf, HashOf, Put, Upsert, IsSafeTable;
  }

  // ----- whole runs -----

  function Run(h: Host, c: Contents, run: seq<Attempt>): Contents {
    if run == [] then c else Persisted(h, Run(h, c, run[..|run| - 1]), run[|run| - 1])
  }

  lemma KeepsTransitive(a: Contents, b: Contents, c: Contents)
    requires Keeps(a, b) && Keeps(b, c)
    ensures Keeps(a, c)
  {
  }

  /** After any run of mints, from any table and any honest store: the store is honest, and every object and
      every row that was there is still there. */
  lemma {:induction false} RunSafe(h: Host, c: Contents, run: seq<Attempt>)
    requires Sound(h) && Honest(h, c.objects)
    ensures Honest(h, Run(h, c, run).objects) && Keeps(c, Run(h, c, run))
  {
    if run != [] {
      var before := Run(h, c, run[..|run| - 1]);
      hide Honest, Keeps, Persisted, Sound;
      RunSafe(h, c, run[..|run| - 1]);
      StepSafe(h, before, run[|run| - 1]);
      KeepsTransitive(c, before, Run(h, c, run));
    } else {
      hide Honest;
    }
  }

  lemma {:induction false} RunSplits(h: Host, c: Contents, run: seq<Attempt>, i: nat)
    requires i <= |run|
    ensures Run(h, c, run) == Run(h, Run(h, c, run[..i]), run[i..])
  {
    hide Persisted;
    if i < |run| {
      var init := run[..|run| - 1];
      RunSplits(h, c, init, i);
      assert init[..i] == run[..i] && init[i..] == run[i..][..|run| - i - 1];
    } else {
      assert run[..i] == run && run[i..] == [];
    }
  }

  /** The row of the payload is in the table with the current engine version, and so is the object it wrote. */
  predicate Closed(h: Host, c: Contents, a: Attempt) {
    && RowKeyOf(h, a.payload) in c.rows
    && c.rows[RowKeyOf(h, a.payload)].marker.engineVersion == ENGINE_VERSION
    && (!a.put.Refused? ==> KeyOf(h, a.payload) in c.objects && c.objects[KeyOf(h, a.payload)] == StableJson(a.payload))
  }

  lemma ClosedStays(h: Host, before: Contents, after: Contents, a: Attempt)
    requires Closed(h, before, a) && Keeps(before, after)
    ensures Closed(h, after, a)
  {
    hide KeyOf, RowKeyOf, StableJson;
  }

  /** What follows in the run cannot undo it. */
  lemma ClosedForever(h: Host, c: Contents, run: seq<Attempt>, n: nat, a: Attempt)
    requires Sound(h) && Honest(h, c.objects) && n <= |run|
    requires Closed(h, Run(h, c, run[..n]), a)
    ensures Closed(h, Run(h, c, run), a)
  {
    hide Honest, Sound, Closed, Run, Keeps;
    RunSafe(h, c, run[..n]);
    RunSafe(h, Run(h, c, run[..n]), run[n..]);
    RunSplits(h, c, run, n);
    ClosedStays(h, Run(h, c, run[..n]), Run(h, c, run), a);
  }

  /** A mint that was reported done has its row in the table, under its slug and hash and with the current
      engine version, then and after everything that follows; and the object it wrote, if it wrote one. */
  lemma DoneMeansRow(h: Host, c: Contents, run: seq<Attempt>, i: nat)
    requires Sound(h) && Honest(h, c.objects)
    requires i < |run| && StateAfter(h, Run(h, c, run[..i]), run[i]) == Done
    ensures Closed(h, Run(h, c, run), run[i])
  {
    assert run[..i + 1][..i] == run[..i];
    hide Persisted, Honest, Sound, Closed, StateAfter;
    DoneAtOnce(h, Run(h, c, run[..i]), run[i]);
    assert Run(h, c, run[..i + 1]) == Persisted(h, Run(h, c, run[..i]), run[i]);
    hide Run;
    ClosedForever(h, c, run, i + 1, run[i]);
  }

  lemma DoneAtOnce(h: Host, before: Contents, a: Attempt)
    requires StateAfter(h, before, a) == Done
    ensures Closed(h, Persisted(h, before, a), a)
  {
    hide KeyOf, RowKeyOf, StableJson, Keyless, BuildRow, Upsert, IsSafeTable;
  }

  // ----- exactly when a mint is done, and what it need not have written -----

  predicate CurrentRow(rows: map<RowKey, Row>, key: RowKey) {
    key in rows && rows[key].marker.engineVersion == ENGINE_VERSION
  }

  lemma UpsertCurrent(rows: map<RowKey, Row>, row: Row, door: Door)
    requires row.marker.engineVersion == ENGINE_VERSION
    ensures var key := RowKey(row.slug, row.hash);
            CurrentRow(Upsert(rows, row, door), key) <==> !door.Refused? || CurrentRow(rows, key)
  {
  }

  /** The payload has a key, the table name is an identifier, and the checks answer well. */
  predicate ChecksPass(h: Host, a: Attempt) {
    !Keyless(h, a.payload) && IsSafeTable(a.table) && a.readAnswers && a.live200 && a.truth.ok
  }

  /** Done is decided by the table, the doors and the checks alone: the row's own write was applied, or an earlier
      one left a current row. The object store plays no part. */
  lemma DoneExactly(h: Host, c: Contents, a: Attempt)
    ensures StateAfter(h, c, a) == Done
       <==> ChecksPass(h, a) && (!a.sql.Refused? || CurrentRow(c.rows, RowKeyOf(h, a.payload)))
  {
    UpsertCurrent(c.rows, BuildRow(h, a.payload, a.options), a.sql);
    hide Keyless, Upsert, StableJson, SlugOf, HashOf, IsSafeTable, Put;
  }

  /** The attempt writes a row under this key. */
  predicate WritesRow(h: Host, a: Attempt, key: RowKey) {
    !Keyless(h, a.payload) && IsSafeTable(a.table) && !a.sql.Refused? && RowKeyOf(h, a.payload) == key
  }

  ghost predicate RowWritten(h: Host, run: seq<Attempt>, key: RowKey) {
    exists j :: 0 <= j < |run| && WritesRow(h, run[j], key)
  }

  lemma UpsertElsewhere(rows: map<RowKey, Row>, row: Row, door: Door, key: RowKey)
    requires key != RowKey(row.slug, row.hash)
    ensures CurrentRow(Upsert(rows, row, door), key) <==> CurrentRow(rows, key)
  {
  }

  lemma StepRow(h: Host, c: Contents, a: Attempt, key: RowKey)
    ensures CurrentRow(Persisted(h, c, a).rows, key) <==> CurrentRow(c.rows, key) || WritesRow(h, a, key)
  {
    var row := BuildRow(h, a.payload, a.options);
    assert row.marker.engineVersion == ENGINE_VERSION && RowKey(row.slug, row.hash) == RowKeyOf(h, a.payload);
    hide BuildRow, RowKeyOf, Keyless, Upsert, StableJson, SlugOf, HashOf, IsSafeTable, Put, CurrentRow;
    if key == RowKeyOf(h, a.payload) {
      UpsertCurrent(c.rows, row, a.sql);
    } else {
      UpsertElsewhere(c.rows, row, a.sql, key);
    }
  }

  lemma {:induction false} RunRow(h: Host, c: Contents, run: seq<Attempt>, key: RowKey)
    ensures CurrentRow(Run(h, c, run).rows, key) <==> CurrentRow(c.rows, key) || RowWritten(h, run, key)
  {
    hide Persisted, CurrentRow, WritesRow, RowWritten;
    if run == [] {
      NothingWritten(h, key);
    } else {
      var init, last := run[..|run| - 1], run[|run| - 1];
      assert run == init + [last];
      assert Run(h, c, run) == Persisted(h, Run(h, c, init), last);
      hide Run;
      RunRow(h, c, init, key);
      StepRow(h, Run(h, c, init), last, key);
      WrittenAppend(h, init, last, key);
    }
  }

  lemma NothingWritten(h: Host, key: RowKey)
    ensures !RowWritten(h, [], key)
  {
  }

  /** In any run, an attempt is done exactly when its checks pass and some attempt up to it, not necessarily this one,
      wrote the row of its key, or the row was there before the run. */
  lemma DoneInRun(h: Host, c: Contents, run: seq<Attempt>, i: nat)
    requires i < |run|
    ensures StateAfter(h, Run(h, c, run[..i]), run[i]) == Done
       <==> ChecksPass(h, run[i])
            && (CurrentRow(c.rows, RowKeyOf(h, run[i].payload)) || RowWritten(h, run[..i + 1], RowKeyOf(h, run[i].payload)))
  {
    hide StateAfter, CurrentRow, Run, RowKeyOf, RowWritten;
    var key := RowKeyOf(h, run[i].payload);
    DoneExactly(h, Run(h, c, run[..i]), run[i]);
    RunRow(h, c, run[..i], key);
    assert run[..i + 1] == run[..i] + [run[i]];
    WrittenAppend(h, run[..i], run[i], key);
    hide Keyless, IsSafeTable;
  }

  lemma WrittenAppend(h: Host, run: seq<Attempt>, a: Attempt, key: RowKey)
    ensures RowWritten(h, run + [a], key) <==> RowWritten(h, run, key) || WritesRow(h, a, key)
  {
    hide WritesRow;
    var all := run + [a];
    assert all[|run|] == a && forall j :: 0 <= j < |run| ==> all[j] == run[j];
  }

  /** After a mint that is done, the object lies under its key, as the payload's stable text, exactly when this
      attempt's write was applied or the key was there before. */
  lemma DoneObjectExactly(h: Host, c: Contents, a: Attempt)
    requires Sound(h) && Honest(h, c.objects) && StateAfter(h, c, a) == Done
    ensures var after, key := Persisted(h, c, a).objects, KeyOf(h, a.payload);
            (key in after && after[key] == StableJson(a.payload)) <==> (!a.put.Refused? || key in c.objects)
  {
    HonestText(h, c.objects, a.payload);
    hide StableJson, KeyOf, Upsert, IsSafeTable, StateFor, Honest, Sound;
  }

  /** So done does not mean that the object exists: with its write refused, on a store without the key, the mint is
      done all the same. */
  lemma DoneWithoutObject(h: Host, c: Contents, a: Attempt)
    requires !Keyless(h, a.payload) && IsSafeTable(a.table) && KeyOf(h, a.payload) !in c.objects
    requires a.put.Refused? && a.sql.Delivered? && a.readAnswers && a.live200 && a.truth.ok
    ensures StateAfter(h, c, a) == Done && KeyOf(h, a.payload) !in Persisted(h, c, a).objects
  {
    DoneExactly(h, c, a);
    hide StableJson, Upsert, IsSafeTable, StateAfter;
  }

  // ----- exactly when writing throws -----

  predicate Throws(state: MintState) {
    state.KeylessRefused? || state.TableRefused?
  }

  /** A unit that is neither a letter, a digit, an underscore nor a dot makes a table name unsafe. */
  lemma StrayUnit(t: Text, i: nat)
    requires i < |t| && t[i] != DOT && !IsIdentifierUnit(t[i])
    ensures !IsSafeTable(t)
  {
    hide IsIdentifierUnit;
    forall d | 0 <= d < |t| && t[d] == DOT ensures !(IsIdentifier(t[..d]) && IsIdentifier(t[d + 1..])) {
      if i < d {
        assert t[..d][i] == t[i];
      } else {
        assert t[d + 1..][i - (d + 1)] == t[i];
      }
    }
  }

  /** A throw leaves a trace exactly when only the table name was at fault, the object's write was applied, and
      the key was not there before; no row is ever touched by it. */
  lemma ThrowLeavesExactly(h: Host, c: Contents, a: Attempt)
    requires Sound(h) && Honest(h, c.objects)
    ensures Throws(StateAfter(h, c, a)) && Persisted(h, c, a) != c
       <==> !Keyless(h, a.payload) && !IsSafeTable(a.table) && !a.put.Refused? && KeyOf(h, a.payload) !in c.objects
    ensures Throws(StateAfter(h, c, a)) ==> Persisted(h, c, a).rows == c.rows
  {
    hide StableJson, KeyOf, Upsert, IsSafeTable, Keyless, Honest, Sound;
    var key := KeyOf(h, a.payload);
    if !Keyless(h, a.payload) && key in c.objects {
      HonestText(h, c.objects, a.payload);
      assert c.objects[key := StableJson(a.payload)] == c.objects;
    }
  }

  /** A table name with a space in it: the object is written, then the call throws. */
  lemma ThrowsAfterWriting(h: Host, c: Contents, a: Attempt)
    requires !Keyless(h, a.payload) && a.table == Ascii("audit pages") && !a.put.Refused?
    ensures Throws(StateAfter(h, c, a)) && KeyOf(h, a.payload) in Persisted(h, c, a).objects
  {
    assert a.table[5] == ' ' as int;
    StrayUnit(a.table, 5);
    hide StableJson, KeyOf, Upsert, IsSafeTable, Keyless;
  }
}
