/** supervised/finding.js: a finding is built through one door and carries an id derived from its claim. */
module Finding {
  import opened Texts
  import opened Encoding
  import opened Version
  import opened Sorting
  import opened JsonText

  // ----- the closed sets -----

  datatype Class = Confirmed | Likely | NeedsHuman

  datatype Kind = Quote | DomNode | NetworkEvent | RegisterRow | RegisterAbsence | CoverageProof

  function ClassName(c: Class): Text {
    match c
    case Confirmed => Ascii("confirmed")
    case Likely => Ascii("likely")
    case NeedsHuman => Ascii("needs_human")
  }

  function KindName(k: Kind): Text {
    match k
    case Quote => Ascii("quote")
    case DomNode => Ascii("dom_node")
    case NetworkEvent => Ascii("network_event")
    case RegisterRow => Ascii("register_row")
    case RegisterAbsence => Ascii("register_absence")
    case CoverageProof => Ascii("coverage_proof")
  }

  /** The kinds that claim something was not found. */
  predicate IsAbsence(k: Kind) {
    k.RegisterAbsence? || k.CoverageProof?
  }

  // ----- what a caller supplies -----

  /** A value of the expected type, or `None` for anything else. */
  datatype QuoteInput =
    | NotAnObject
    | QuoteInput(rawText: bool, evidenceId: Option<Text>, byteStart: Option<int>, byteEnd: Option<int>, span: Option<Text>)

  datatype SubjectInput = SubjectInput(evidenceId: Option<Text>, sha256: Option<Text>)

  datatype CoverageInput =
    | NoCoverage
    | MalformedCoverage
    | CoverageInput(subjects: Option<seq<SubjectInput>>, pattern: Option<Text>, count: Option<int>)

  datatype KindInput = Omitted | Unknown | Given(kind: Kind)
  datatype LogInput = NoLog | NotAnArray | Log(entries: seq<Json>)

  datatype Fields = Fields(
    ruleId: Option<Text>, catalogueHash: Option<Text>, quote: QuoteInput, jurisdiction: Option<Text>,
    class_: Option<Class>, engineVersion: Option<Text>, log: LogInput, kind: KindInput, coverage: CoverageInput)

  predicate NonBlank(t: Text) {
    exists i :: 0 <= i < |t| && !IsSpace(t[i])
  }

  predicate NonBlankText(t: Option<Text>) {
    t.Some? && NonBlank(t.value)
  }

  predicate IsHexUnit(u: Unit) {
    IsDigit(u) || 'a' as int <= u <= 'f' as int
  }

  predicate IsHex64(t: Text) {
    |t| == 64 && forall i :: 0 <= i < |t| ==> IsHexUnit(t[i])
  }

  predicate HexText(t: Option<Text>) {
    t.Some? && IsHex64(t.value)
  }

  predicate Natural(n: Option<int>) {
    n.Some? && n.value >= 0
  }

  datatype Defect =
    | BadRuleId | BadCatalogueHash | QuoteNotObject | QuoteCarriesText | BadEvidenceId | BadByteStart | BadByteEnd
    | EmptyRange | BadSpan | BadJurisdiction | BadClass | BadLog | BadKind
    | CoverageMissing | NoSubjects | BadSubject | BadPattern | BadCount | CoverageForbidden
    | NotAFinding

  /** The first structural defect of the quote. */
  function QuoteDefect(q: QuoteInput): Option<Defect> {
    if q.NotAnObject? then Some(QuoteNotObject)
    else if q.rawText then Some(QuoteCarriesText)
    else if !NonBlankText(q.evidenceId) then Some(BadEvidenceId)
    else if !Natural(q.byteStart) then Some(BadByteStart)
    else if !Natural(q.byteEnd) then Some(BadByteEnd)
    else if q.byteEnd.value <= q.byteStart.value then Some(EmptyRange)
    else if !HexText(q.span) then Some(BadSpan)
    else None
  }

  predicate SubjectFits(s: SubjectInput) {
    NonBlankText(s.evidenceId) && HexText(s.sha256)
  }

  function CoverageShapeDefect(c: CoverageInput): Option<Defect> {
    if !c.CoverageInput? then Some(CoverageMissing)
    else if c.subjects.None? || c.subjects.value == [] then Some(NoSubjects)
    else if exists s :: s in c.subjects.value && !SubjectFits(s) then Some(BadSubject)
    else if !HexText(c.pattern) then Some(BadPattern)
    else if !Natural(c.count) then Some(BadCount)
    else None
  }

  function ResolvedKind(k: KindInput): Option<Kind> {
    match k
    case Omitted => Some(Quote)
    case Unknown => None
    case Given(kind) => Some(kind)
  }

  /** A proof of coverage is required for an absence, and forbidden otherwise. */
  function CoverageDefect(kind: Kind, c: CoverageInput): Option<Defect> {
    if IsAbsence(kind) then CoverageShapeDefect(c)
    else if !c.NoCoverage? then Some(CoverageForbidden)
    else None
  }

  function Then(a: Option<Defect>, b: Option<Defect>): Option<Defect> {
    if a.Some? then a else b
  }

  function Unless(ok: bool, d: Defect): Option<Defect> {
    if ok then None else Some(d)
  }

  function FirstDefect(f: Fields): Option<Defect> {
    Then(Unless(NonBlankText(f.ruleId), BadRuleId),
    Then(Unless(NonBlankText(f.catalogueHash), BadCatalogueHash),
    Then(QuoteDefect(f.quote),
    Then(Unless(NonBlankText(f.jurisdiction), BadJurisdiction),
    Then(Unless(f.class_.Some?, BadClass),
    Then(Unless(!f.log.NotAnArray?, BadLog),
    Then(Unless(ResolvedKind(f.kind).Some?, BadKind),
         if ResolvedKind(f.kind).Some? then CoverageDefect(ResolvedKind(f.kind).value, f.coverage) else None)))))))
  }

  // ----- findings -----

  datatype Span = Span(evidenceId: Text, byteStart: nat, byteEnd: nat, sha256: Text)
  datatype Subject = Subject(evidenceId: Text, sha256: Text)
  datatype Coverage = Coverage(subjects: seq<Subject>, pattern: Text, count: nat)

  /** Everything a finding says. */
  datatype Content = Content(
    id: Text, ruleId: Text, catalogueHash: Text, quote: Span, jurisdiction: Text, class_: Class,
    engineVersion: Text, log: seq<Json>, kind: Kind, coverage: Option<Coverage>)

  /** One subject as it enters the fingerprint. */
  function SubjectLink(s: Subject): Text {
    Link(s.evidenceId, s.sha256)
  }

  function Links(subjects: seq<Subject>): seq<Text> {
    seq(|subjects|, i requires 0 <= i < |subjects| => SubjectLink(subjects[i]))
  }

  function CoverageBasis(c: Coverage): Text {
    c.pattern + ([BAR] + (Decimal(c.count) + ([BAR] + Join(SortBy(TextLe, Links(c.subjects)), COMMA))))
  }

  /** '-' without a coverage proof, and otherwise a digest that ignores the order of the subjects. */
  function CoverageFingerprint(digest: Bytes -> Text, c: Option<Coverage>): Text {
    if c.None? then [MINUS] else digest(Utf8(CoverageBasis(c.value)))
  }

  function RangeText(q: Span): Text {
    Decimal(q.byteStart) + ([MINUS] + Decimal(q.byteEnd))
  }

  function BasisParts(digest: Bytes -> Text, c: Content): seq<Text> {
    [c.ruleId, ClassName(c.class_), c.jurisdiction, c.catalogueHash, c.engineVersion, c.quote.evidenceId,
     RangeText(c.quote), c.quote.sha256, KindName(c.kind), CoverageFingerprint(digest, c.coverage)]
  }

  function DeriveId(digest: Bytes -> Text, c: Content): Text {
    digest(Utf8(Join(BasisParts(digest, c), BAR)))
  }

  function SubjectsOf(s: seq<SubjectInput>): seq<Subject>
    requires forall x :: x in s ==> SubjectFits(x)
  {
    seq(|s|, i requires 0 <= i < |s| => assert SubjectFits(s[i]); Subject(s[i].evidenceId.value, s[i].sha256.value))
  }

  function CanonicalCoverage(kind: Kind, c: CoverageInput): Option<Coverage>
    requires CoverageDefect(kind, c).None?
  {
    if !IsAbsence(kind) then None
    else Some(Coverage(SubjectsOf(c.subjects.value), c.pattern.value, c.count.value))
  }

  function Built(digest: Bytes -> Text, f: Fields): Content
    requires FirstDefect(f).None?
  {
    var kind := ResolvedKind(f.kind).value;
    var q := f.quote;
    var c := Content([], f.ruleId.value, f.catalogueHash.value,
                     Span(q.evidenceId.value, q.byteStart.value, q.byteEnd.value, q.span.value),
                     f.jurisdiction.value, f.class_.value,
                     if NonBlankText(f.engineVersion) then f.engineVersion.value else ENGINE_VERSION,
                     if f.log.Log? then f.log.entries else [],
                     kind, CanonicalCoverage(kind, f.coverage));
    c.(id := DeriveId(digest, c))
  }

  // ----- the shape every finding has -----

  predicate CoverageShaped(c: Coverage) {
    && c.subjects != [] && IsHex64(c.pattern)
    && forall s :: s in c.subjects ==> NonBlank(s.evidenceId) && IsHex64(s.sha256)
  }

  /** Named fields filled, a range that is not empty, hexadecimal digests, and a coverage proof exactly for an
      absence. */
  predicate Shaped(c: Content) {
    && NonBlank(c.ruleId) && NonBlank(c.catalogueHash) && NonBlank(c.jurisdiction) && NonBlank(c.engineVersion)
    && NonBlank(c.quote.evidenceId) && c.quote.byteStart < c.quote.byteEnd && IsHex64(c.quote.sha256)
    && (c.coverage.Some? <==> IsAbsence(c.kind))
    && (c.coverage.Some? ==> CoverageShaped(c.coverage.value))
  }

  predicate Sound(digest: Bytes -> Text, c: Content) {
    Shaped(c) && c.id == DeriveId(digest, c)
  }

  lemma EngineVersionNonBlank()
    ensures NonBlank(ENGINE_VERSION)
  {
    assert |ENGINE_VERSION| == 20;
    assert !IsSpace(ENGINE_VERSION[0]);
  }

  lemma BuiltIsSound(digest: Bytes -> Text, f: Fields)
    requires FirstDefect(f).None?
    ensures Sound(digest, Built(digest, f))
  {
    EngineVersionNonBlank();
    hide NonBlank, IsHex64;
    var kind := ResolvedKind(f.kind).value;
    if IsAbsence(kind) {
      var s := f.coverage.subjects.value;
      forall x | x in SubjectsOf(s) ensures NonBlank(x.evidenceId) && IsHex64(x.sha256) {
        var i :| 0 <= i < |s| && SubjectsOf(s)[i] == x;
        assert s[i] in s;
        assert SubjectFits(s[i]);
      }
    }
    assert DeriveId(digest, Built(digest, f).(id := [])) == DeriveId(digest, Built(digest, f));
    hide DeriveId;
  }

  /** The log plays no part in the id. */
  lemma LogOutsideId(digest: Bytes -> Text, c: Content, log: seq<Json>)
    ensures DeriveId(digest, c.(log := log)) == DeriveId(digest, c)
  {
  }

  // ----- findings as objects, and the brand -----

  /** A frozen object: all its fields are constants. */
  class FindingObject {
    const content: Content

    constructor (c: Content)
      ensures content == c
    {
      content := c;
    }
  }

  datatype Result<T> = Made(value: T) | Refused(defect: Defect)

  /** The findings that really came through the door. */
  class Registry {
    const digest: Bytes -> Text
    var brand: set<FindingObject>

    ghost predicate Valid()
      reads this
    {
      forall f :: f in brand ==> Sound(digest, f.content)
    }

    constructor (d: Bytes -> Text)
      ensures Valid() && brand == {} && digest == d
    {
      digest := d;
      brand := {};
    }

    predicate IsFinding(f: FindingObject)
      reads this
    {
      f in brand
    }

    method CreateFinding(f: Fields) returns (r: Result<FindingObject>)
      requires Valid()
      modifies this
      ensures Valid()
      ensures FirstDefect(f).Some? ==> r == Refused(FirstDefect(f).value) && brand == old(brand)
      ensures FirstDefect(f).None? ==> r.Made? && fresh(r.value) && r.value.content == Built(digest, f) && brand == old(brand) + {r.value}
    {
      var defect := FirstDefect(f);
      if defect.Some? {
        return Refused(defect.value);
      }
      BuiltIsSound(digest, f);
      hide Built, Sound;
      var finding := new FindingObject(Built(digest, f));
      brand := brand + {finding};
      r := Made(finding);
    }

    /** A new finding with one more entry in its log; a look-alike that never came through the door is refused. */
    method WithMitigation(finding: FindingObject, entry: Json) returns (r: Result<FindingObject>)
      requires Valid()
      modifies this
      ensures Valid()
      ensures finding !in old(brand) ==> r == Refused(NotAFinding) && brand == old(brand)
      ensures finding in old(brand) ==>
                && r.Made? && fresh(r.value) && brand == old(brand) + {r.value}
                && r.value.content == finding.content.(log := finding.content.log + [entry])
                && r.value.content.id == finding.content.id
    {
      if !IsFinding(finding) {
        return Refused(NotAFinding);
      }
      var c := finding.content;
      LogOutsideId(digest, c, c.log + [entry]);
      hide DeriveId, BasisParts;
      var next := new FindingObject(c.(log := c.log + [entry]));
      brand := brand + {next};
      r := Made(next);
    }
  }

  // ----- whole runs, on contents -----

  datatype Op = Create(fields: Fields) | Mitigate(index: nat, entry: Json)

  function Step(digest: Bytes -> Text, made: seq<Content>, op: Op): seq<Content> {
    match op
    case Create(f) => if FirstDefect(f).None? then made + [Built(digest, f)] else made
    case Mitigate(i, entry) => if i < |made| then made + [made[i].(log := made[i].log + [entry])] else made
  }

  function Run(digest: Bytes -> Text, ops: seq<Op>): seq<Content> {
    if ops == [] then [] else Step(digest, Run(digest, ops[..|ops| - 1]), ops[|ops| - 1])
  }

  lemma {:induction false} RunSound(digest: Bytes -> Text, ops: seq<Op>)
    ensures forall i :: 0 <= i < |Run(digest, ops)| ==> Sound(digest, Run(digest, ops)[i])
  {
    if ops != [] {
      var before, op := Run(digest, ops[..|ops| - 1]), ops[|ops| - 1];
      RunSound(digest, ops[..|ops| - 1]);
      match op
      case Create(f) =>
        if FirstDefect(f).None? {
          BuiltIsSound(digest, f);
        }
        hide Sound, Built, FirstDefect;
      case Mitigate(i, entry) =>
        if i < |before| {
          LogOutsideId(digest, before[i], before[i].log + [entry]);
        }
        hide DeriveId, NonBlank, IsHex64, CoverageShaped;
    }
  }

  /** `after` makes the same claim under the same id, and its log starts with the log of `before`. */
  ghost predicate Extends(before: Content, after: Content) {
    && after == before.(log := after.log)
    && |before.log| <= |after.log| && after.log[..|before.log|] == before.log
  }

  /** A run only adds: what was made before stays as it was. */
  lemma {:induction false} RunGrows(digest: Bytes -> Text, ops: seq<Op>, n: nat)
    requires n <= |ops|
    ensures var early, late := Run(digest, ops[..n]), Run(digest, ops);
            |early| <= |late| && late[..|early|] == early
  {
    if n < |ops| {
      var init := ops[..|ops| - 1];
      RunGrows(digest, init, n);
      assert init[..n] == ops[..n];
      hide Built, FirstDefect;
    } else {
      assert ops[..n] == ops;
    }
  }

  lemma ExtendsTransitive(a: Content, b: Content, c: Content)
    requires Extends(a, b) && Extends(b, c)
    ensures Extends(a, c)
  {
    assert c.log[..|a.log|] == c.log[..|b.log|][..|a.log|];
  }

  /** One more log entry extends a finding. */
  lemma MitigationExtends(digest: Bytes -> Text, made: seq<Content>, i: nat, entry: Json)
    requires i < |made|
    ensures var after := Step(digest, made, Mitigate(i, entry));
            after[|made|].log == made[i].log + [entry] && Extends(made[i], after[|made|])
  {
  }

  /** The finding at `o` came out of `createFinding`, for fields that the run was given. */
  predicate Created(digest: Bytes -> Text, ops: seq<Op>, c: Content) {
    exists n :: 0 <= n < |ops| && CreatedBy(digest, ops[n], c)
  }

  predicate CreatedBy(digest: Bytes -> Text, op: Op, c: Content) {
    op.Create? && FirstDefect(op.fields).None? && c == Built(digest, op.fields)
  }

  /** The finding at `i` descends from one that was created in the run, at or before `i`. */
  ghost predicate Descends(digest: Bytes -> Text, ops: seq<Op>, made: seq<Content>, i: nat)
    requires i < |made|
  {
    exists o :: 0 <= o <= i && Created(digest, ops, made[o]) && Extends(made[o], made[i])
  }

  lemma DescendsLater(digest: Bytes -> Text, ops: seq<Op>, op: Op, made: seq<Content>, more: seq<Content>, i: nat)
    requires i < |made| <= |more| && more[..|made|] == made && Descends(digest, ops, made, i)
    ensures Descends(digest, ops + [op], more, i)
  {
    hide CreatedBy, Extends;
    var o :| 0 <= o <= i && Created(digest, ops, made[o]) && Extends(made[o], made[i]);
    var n :| 0 <= n < |ops| && CreatedBy(digest, ops[n], made[o]);
    assert (ops + [op])[n] == ops[n];
    assert more[o] == made[o] && more[i] == made[i];
  }

  /** What the last operation adds descends from a created finding as well. */
  lemma NewestDescends(digest: Bytes -> Text, ops: seq<Op>, op: Op, made: seq<Content>)
    requires forall i :: 0 <= i < |made| ==> Descends(digest, ops, made, i)
    requires |Step(digest, made, op)| > |made|
    ensures Descends(digest, ops + [op], Step(digest, made, op), |made|)
  {
    var more, all := Step(digest, made, op), ops + [op];
    assert all[|ops|] == op;
    match op
    case Create(f) =>
      assert CreatedBy(digest, all[|ops|], more[|made|]);
      assert Extends(more[|made|], more[|made|]);
    case Mitigate(i, entry) =>
      MitigationExtends(digest, made, i, entry);
      hide Step, CreatedBy, Extends;
      DescendsLater(digest, ops, op, made, more, i);
      var o :| 0 <= o <= i && Created(digest, all, more[o]) && Extends(more[o], more[i]);
      ExtendsTransitive(more[o], more[i], more[|made|]);
  }

  lemma StepKeeps(digest: Bytes -> Text, made: seq<Content>, op: Op)
    ensures var more := Step(digest, made, op); |made| <= |more| <= |made| + 1 && more[..|made|] == made
  {
    hide Built, FirstDefect;
  }

  /** Over any run every finding descends from a created one: the same claim, the same id, and a log that only
      grew by appending. */
  lemma {:induction false} RunLineage(digest: Bytes -> Text, ops: seq<Op>, i: nat)
    requires i < |Run(digest, ops)|
    ensures Descends(digest, ops, Run(digest, ops), i)
  {
    var init, op := ops[..|ops| - 1], ops[|ops| - 1];
    var made := Run(digest, init);
    assert ops == init + [op];
    assert Run(digest, ops) == Step(digest, made, op);
    hide Step, Descends, Run;
    StepKeeps(digest, made, op);
    forall k | 0 <= k < |made| ensures Descends(digest, init, made, k) {
      RunLineage(digest, init, k);
    }
    if i < |made| {
      DescendsLater(digest, init, op, made, Run(digest, ops), i);
    } else {
      NewestDescends(digest, init, op, made);
    }
  }
}
