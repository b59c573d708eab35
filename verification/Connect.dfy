/** applicability/connect.js: which catalogue records bind a firm, and why each of the others does not. */
module Connect {
  import opened Texts
  import opened Evidence
  import opened Jurisdiction
  import opened Resolution
  import opened Families
  import Sector
  import QuoteText

  // ----- the facts -----

  datatype Truth = False | Unknown | True

  predicate TruthLe(a: Truth, b: Truth) {
    a == False || a == b || b == True
  }

  datatype SectorFact = SectorFact(sector: Option<Text>, subSector: Option<Text>)

  /** A missing jurisdiction envelope is `None`; capabilities that were not detected are not in the map. */
  datatype Facts = Facts(jurisdiction: Option<Outcome>, sector: SectorFact, predicates: map<Text, Truth>)

  /** The vocabulary: its sector tree, its canonical names, and the leaves its synonyms stand for. */
  datatype Vocabulary = Vocabulary(
    tree: Sector.Table, canonical: Text -> Option<Text>, synonyms: map<Text, Text>, casing: QuoteText.Casing)

  const UNIVERSAL: Text := Ascii("universal")
  const MULTI: Text := Ascii("multi")

  function Present(predicates: map<Text, Truth>, tag: Text): Truth {
    if tag in predicates then predicates[tag] else Unknown
  }

  datatype Context = Context(
    boundSet: set<Code>, boundByCode: map<Code, Bound>, boundSubs: seq<Sub>,
    abstained: bool, missing: bool,
    firmSectors: Option<set<Text>>, firmSubSector: Option<Text>, predicates: map<Text, Truth>)

  /** `canonicalSector(family) || family`. */
  function CanonicalOr(v: Vocabulary, family: Text): Text {
    var c := v.canonical(family);
    if c.Some? && c.value != [] then c.value else family
  }

  /** The firm's own sector and its family, under their canonical names. */
  function SectorIdentity(v: Vocabulary, raw: Option<Text>): Option<set<Text>> {
    if raw.None? || raw.value == [] then None
    else
      var own := v.canonical(raw.value);
      var family := Sector.Family(v.tree, raw.value);
      var s := (if own.Some? && own.value != [] then {own.value} else {})
               + (if family.Some? && family.value != [] then
                    {CanonicalOr(v, family.value)}
                  else {});
      if s == {} then None else Some(s)
  }

  /** The first entry of each code. */
  function FirstEntries(bound: seq<Bound>): map<Code, Bound> {
    if bound == [] then map[]
    else
      var m, last := FirstEntries(bound[..|bound| - 1]), bound[|bound| - 1];
      if last.code in m then m else m[last.code := last]
  }

  function BoundSubs(subs: seq<Sub>): seq<Sub> {
    if subs == [] then []
    else (if subs[0].bound && subs[0].code != [] then [subs[0]] else []) + BoundSubs(subs[1..])
  }

  function CodesOf(bound: seq<Bound>): set<Code> {
    set b | b in bound :: b.code
  }

  function ContextOf(v: Vocabulary, facts: Facts): Context {
    var r := if facts.jurisdiction.Some? then facts.jurisdiction.value else Outcome([], [], [], true);
    var codes := CodesOf(r.bound);
    Context(codes, FirstEntries(r.bound), BoundSubs(r.subs),
            r.abstained || codes == {}, facts.jurisdiction.None?,
            SectorIdentity(v, facts.sector.sector), facts.sector.subSector, facts.predicates)
  }

  method BuildContext(v: Vocabulary, facts: Facts) returns (ctx: Context)
    ensures ctx == ContextOf(v, facts)
  {
    var r := if facts.jurisdiction.Some? then facts.jurisdiction.value else Outcome([], [], [], true);
    var byCode: map<Code, Bound>, codes: set<Code> := map[], {};
    for i := 0 to |r.bound|
      invariant byCode == FirstEntries(r.bound[..i])
      invariant codes == CodesOf(r.bound[..i])
    {
      var b := r.bound[i];
      assert r.bound[..i + 1] == r.bound[..i] + [b];
      codes := codes + {b.code};
      if b.code !in byCode {
        byCode := byCode[b.code := b];
      }
    }
    assert r.bound[..|r.bound|] == r.bound;
    ctx := Context(codes, byCode, BoundSubs(r.subs), r.abstained || codes == {}, facts.jurisdiction.None?,
                   SectorIdentity(v, facts.sector.sector), facts.sector.subSector, facts.predicates);
  }

  // ----- the gates -----

  datatype Gate =
    | NotARecord | JurisdictionAbstained | JurisdictionUnbound | SubUnbound | Displaced
    | SectorUnresolved | SectorMismatch | SubSectorUnresolved | SubSectorMismatch
    | ActivityDisproven | RequiredActivityMissing | NexusUnmet

  function GateBound(r: LawRecord, ctx: Context): Option<Gate> {
    if ctx.abstained then Some(JurisdictionAbstained)
    else if r.jurisdiction.None? || r.jurisdiction.value !in ctx.boundSet then Some(JurisdictionUnbound)
    else None
  }

  predicate HasSub(subs: seq<Sub>, code: Text) {
    exists s :: s in subs && s.code == code
  }

  function GateSubBound(r: LawRecord, ctx: Context): Option<Gate> {
    if r.sub.None? || r.sub.value == MULTI || HasSub(ctx.boundSubs, r.sub.value) then None else Some(SubUnbound)
  }

  predicate Displaces(subs: seq<Sub>, id: Option<QuoteText.Str>) {
    id.Some? && exists s :: s in subs && id.value in s.displaces
  }

  function GateDisplacement(r: LawRecord, ctx: Context): Option<Gate> {
    if Displaces(ctx.boundSubs, r.id) then Some(Displaced) else None
  }

  predicate SectorMatches(v: Vocabulary, sectors: seq<Text>, firm: set<Text>) {
    exists s :: s in sectors && v.canonical(s).Some? && v.canonical(s).value != [] && v.canonical(s).value in firm
  }

  /** The record's tag is the firm's own sector or family, its exact leaf, or a synonym of the leaf. */
  predicate TagBinds(v: Vocabulary, tag: Text, leaf: Text, firm: set<Text>) {
    tag in firm || tag == leaf || (tag in v.synonyms && v.synonyms[tag] == leaf)
  }

  function FirmSet(ctx: Context): set<Text> {
    if ctx.firmSectors.Some? then ctx.firmSectors.value else {}
  }

  function GateSubSector(v: Vocabulary, r: LawRecord, ctx: Context): Option<Gate> {
    if r.subSectors == [] then None
    else if ctx.firmSubSector.None? || ctx.firmSubSector.value == [] then Some(SubSectorUnresolved)
    else if exists tag :: tag in r.subSectors && TagBinds(v, tag, ctx.firmSubSector.value, FirmSet(ctx)) then None
    else Some(SubSectorMismatch)
  }

  function GateSector(v: Vocabulary, r: LawRecord, ctx: Context): Option<Gate> {
    if UNIVERSAL in r.sectors then GateSubSector(v, r, ctx)
    else if ctx.firmSectors.None? then Some(SectorUnresolved)
    else if !SectorMatches(v, r.sectors, ctx.firmSectors.value) then Some(SectorMismatch)
    else GateSubSector(v, r, ctx)
  }

  /** Open: only a record all of whose tags are disproven is excluded. */
  function GateActivity(r: LawRecord, ctx: Context): Option<Gate> {
    if r.tags != [] && forall tag :: tag in r.tags ==> Present(ctx.predicates, tag) == False then Some(ActivityDisproven)
    else None
  }

  /** Closed: every required activity has to be shown. */
  function GateRequiredActivity(r: LawRecord, ctx: Context): Option<Gate> {
    if exists tag :: tag in r.requiredActivity && Present(ctx.predicates, tag) != True then Some(RequiredActivityMissing)
    else None
  }

  const ESTABLISHMENT_KINDS: set<Kind> :=
    {Register, IncorporatedIn, RegisteredOffice, Authorisation, FreezoneEstablishment, EuMembership}

  predicate HasEstablishmentEvidence(b: Bound) {
    exists e :: e in b.evidence && e.kind in ESTABLISHMENT_KINDS && TierOf(e.kind) != TierB && TierOf(e.kind) != TierC
  }

  predicate NexusSatisfied(n: Nexus, b: Option<Bound>) {
    match n
    case ServesCustomers => true
    case ProcessesResidents => true
    case Established => b.Some? && HasEstablishmentEvidence(b.value)
    case UnknownNexus => false
  }

  function EntryFor(r: LawRecord, ctx: Context): Option<Bound> {
    if r.jurisdiction.Some? && r.jurisdiction.value in ctx.boundByCode then Some(ctx.boundByCode[r.jurisdiction.value]) else None
  }

  function GateNexus(r: LawRecord, ctx: Context): Option<Gate> {
    if exists n :: n in r.nexus && NexusSatisfied(n, EntryFor(r, ctx)) then None else Some(NexusUnmet)
  }

  function Or(a: Option<Gate>, b: Option<Gate>): Option<Gate> {
    if a.Some? then a else b
  }

  function RemainingGates(v: Vocabulary, r: LawRecord, ctx: Context): Option<Gate> {
    Or(GateSubBound(r, ctx), Or(GateDisplacement(r, ctx), Or(GateSector(v, r, ctx),
       Or(GateActivity(r, ctx), Or(GateRequiredActivity(r, ctx), GateNexus(r, ctx))))))
  }

  // ----- the door -----

  datatype Entry = Row(row: LawRecord) | Malformed

  datatype Exclusion = Exclusion(id: Option<QuoteText.Str>, gate: Gate)

  datatype Counts = Counts(assessed: nat, binding: nat, rules: nat)

  datatype Answer =
    | Answer(applicable: seq<LawRecord>, excluded: seq<Exclusion>, counts: Counts)
    | ConstructionError

  function Failing(v: Vocabulary, e: Entry, ctx: Context): Option<Gate> {
    if e.Malformed? then Some(NotARecord) else Or(GateBound(e.row, ctx), RemainingGates(v, e.row, ctx))
  }

  function IdOf(e: Entry): Option<QuoteText.Str> {
    if e.Row? then e.row.id else None
  }

  function Applicable(v: Vocabulary, entries: seq<Entry>, ctx: Context): seq<LawRecord> {
    if entries == [] then []
    else
      var last := entries[|entries| - 1];
      Applicable(v, entries[..|entries| - 1], ctx) + if Failing(v, last, ctx).None? && last.Row? then [last.row] else []
  }

  function Excluded(v: Vocabulary, entries: seq<Entry>, ctx: Context): seq<Exclusion> {
    if entries == [] then []
    else
      var last := entries[|entries| - 1];
      var gate := Failing(v, last, ctx);
      Excluded(v, entries[..|entries| - 1], ctx) + if gate.Some? then [Exclusion(IdOf(last), gate.value)] else []
  }

  /** The records past the first gate: the law that was examined. */
  function Examined(entries: seq<Entry>, ctx: Context): seq<LawRecord> {
    if entries == [] then []
    else
      var last := entries[|entries| - 1];
      Examined(entries[..|entries| - 1], ctx) + if last.Row? && GateBound(last.row, ctx).None? then [last.row] else []
  }

  function Obligations(records: seq<LawRecord>): nat {
    if records == [] then 0 else Obligations(records[..|records| - 1]) + records[|records| - 1].obligations
  }

  function Key(v: Vocabulary): LawRecord -> QuoteText.Str {
    r => FamilyKey(v.casing, r)
  }

  function CountsOf(v: Vocabulary, entries: seq<Entry>, ctx: Context): Counts {
    var applicable := Applicable(v, entries, ctx);
    Counts(|Groups(Examined(entries, ctx), Key(v))|, |Groups(applicable, Key(v))|, Obligations(applicable))
  }

  function AnswerOf(v: Vocabulary, entries: seq<Entry>, ctx: Context): Answer {
    Answer(Applicable(v, entries, ctx), Excluded(v, entries, ctx), CountsOf(v, entries, ctx))
  }

  /** Every record that applies was examined. */
  lemma {:induction false} ApplicableWasExamined(v: Vocabulary, entries: seq<Entry>, ctx: Context)
    ensures forall r :: r in Applicable(v, entries, ctx) ==> r in Examined(entries, ctx)
  {
    if entries != [] {
      ApplicableWasExamined(v, entries[..|entries| - 1], ctx);
      hide RemainingGates, GateBound;
    }
  }

  method DoConnect(v: Vocabulary, facts: Facts, entries: seq<Entry>) returns (answer: Answer)
    ensures answer == AnswerOf(v, entries, ContextOf(v, facts))
    ensures answer.Answer? && answer.counts.binding <= answer.counts.assessed
    ensures |answer.applicable| + |answer.excluded| == |entries|
  {
    var ctx := BuildContext(v, facts);
    hide ContextOf, RemainingGates, GateBound, Groups, FamilyKey;
    var applicable, excluded, examined := [], [], [];
    for i := 0 to |entries|
      invariant applicable == Applicable(v, entries[..i], ctx)
      invariant excluded == Excluded(v, entries[..i], ctx)
      invariant examined == Examined(entries[..i], ctx)
      invariant |applicable| + |excluded| == i
    {
      var e := entries[i];
      assert entries[..i + 1][..i] == entries[..i];
      if e.Malformed? {
        excluded := excluded + [Exclusion(None, NotARecord)];
        continue;
      }
      var unbound := GateBound(e.row, ctx);
      if unbound.Some? {
        excluded := excluded + [Exclusion(e.row.id, unbound.value)];
        continue;
      }
      examined := examined + [e.row];
      var gate := RemainingGates(v, e.row, ctx);
      if gate.Some? {
        excluded := excluded + [Exclusion(e.row.id, gate.value)];
        continue;
      }
      applicable := applicable + [e.row];
    }
    assert entries[..|entries|] == entries;
    var assessed := DedupeFamilies(examined, Key(v));
    var binding := DedupeFamilies(applicable, Key(v));
    ApplicableWasExamined(v, entries, ctx);
    FamilyCountMonotone(applicable, examined, Key(v));
    if |binding| > |assessed| {
      return ConstructionError;
    }
    var rules := 0;
    for i := 0 to |applicable|
      invariant rules == Obligations(applicable[..i])
    {
      assert applicable[..i + 1][..i] == applicable[..i];
      rules := rules + applicable[i].obligations;
    }
    assert applicable[..|applicable|] == applicable;
    answer := Answer(applicable, excluded, Counts(|assessed|, |binding|, rules));
  }

  // ----- first failure wins -----

  function Order(g: Gate): nat {
    match g
    case NotARecord => 0
    case JurisdictionAbstained => 1 case JurisdictionUnbound => 2
    case SubUnbound => 3
    case Displaced => 4
    case SectorUnresolved => 5 case SectorMismatch => 6 case SubSectorUnresolved => 7 case SubSectorMismatch => 8
    case ActivityDisproven => 9
    case RequiredActivityMissing => 10
    case NexusUnmet => 11
  }

  /** What each gate demands, taken by itself. */
  predicate Fails(g: Gate, v: Vocabulary, e: Entry, ctx: Context) {
    if g.NotARecord? then e.Malformed?
    else
      e.Row? &&
      var r := e.row;
      match g
      case NotARecord => false
      case JurisdictionAbstained => ctx.abstained
      case JurisdictionUnbound => forall c :: r.jurisdiction == Some(c) ==> c !in ctx.boundSet
      case SubUnbound => r.sub.Some? && r.sub.value != MULTI && !HasSub(ctx.boundSubs, r.sub.value)
      case Displaced => Displaces(ctx.boundSubs, r.id)
      case SectorUnresolved => UNIVERSAL !in r.sectors && ctx.firmSectors.None?
      case SectorMismatch => UNIVERSAL !in r.sectors && ctx.firmSectors.Some? && !SectorMatches(v, r.sectors, ctx.firmSectors.value)
      case SubSectorUnresolved => r.subSectors != [] && (ctx.firmSubSector.None? || ctx.firmSubSector.value == [])
      case SubSectorMismatch =>
        r.subSectors != [] && ctx.firmSubSector.Some? && ctx.firmSubSector.value != []
        && forall tag :: tag in r.subSectors ==> !TagBinds(v, tag, ctx.firmSubSector.value, FirmSet(ctx))
      case ActivityDisproven => r.tags != [] && forall tag :: tag in r.tags ==> Present(ctx.predicates, tag) == False
      case RequiredActivityMissing => exists tag :: tag in r.requiredActivity && Present(ctx.predicates, tag) != True
      case NexusUnmet => forall n :: n in r.nexus ==> !NexusSatisfied(n, EntryFor(r, ctx))
  }

  /** A record applies when no gate fails; otherwise the reason names the first that does. */
  lemma FirstFailureNamed(v: Vocabulary, e: Entry, ctx: Context)
    ensures Failing(v, e, ctx).None? <==> forall g :: !Fails(g, v, e, ctx)
    ensures forall g :: Failing(v, e, ctx) == Some(g) ==> Fails(g, v, e, ctx) && forall h :: Order(h) < Order(g) ==> !Fails(h, v, e, ctx)
  {
    if e.Row? {
      hide GateBound, GateSector, GateSubBound, GateDisplacement, GateActivity, GateRequiredActivity, GateNexus, Fails;
      GateBoundFirst(v, e, ctx);
      SectorFirst(v, e, ctx);
      OthersFirst(v, e, ctx);
      AnyGate(v, e, ctx);
    } else {
      assert Fails(NotARecord, v, e, ctx);
    }
  }

  lemma AnyGate(v: Vocabulary, e: Entry, ctx: Context)
    requires e.Row?
    ensures !Fails(NotARecord, v, e, ctx)
  {
  }

  lemma GateBoundFirst(v: Vocabulary, e: Entry, ctx: Context)
    requires e.Row?
    ensures match GateBound(e.row, ctx)
            case None => !Fails(JurisdictionAbstained, v, e, ctx) && !Fails(JurisdictionUnbound, v, e, ctx)
            case Some(g) =>
              Fails(g, v, e, ctx)
              && (g == JurisdictionAbstained || (g == JurisdictionUnbound && !Fails(JurisdictionAbstained, v, e, ctx)))
  {
  }

  predicate SectorGate(g: Gate) {
    5 <= Order(g) <= 8
  }

  lemma SectorFirst(v: Vocabulary, e: Entry, ctx: Context)
    requires e.Row?
    ensures match GateSector(v, e.row, ctx)
            case None => forall g :: SectorGate(g) ==> !Fails(g, v, e, ctx)
            case Some(g) => SectorGate(g) && Fails(g, v, e, ctx) && forall h :: SectorGate(h) && Order(h) < Order(g) ==> !Fails(h, v, e, ctx)
  {
    hide SectorMatches, TagBinds;
  }

  lemma OthersFirst(v: Vocabulary, e: Entry, ctx: Context)
    requires e.Row?
    ensures GateSubBound(e.row, ctx) == if Fails(SubUnbound, v, e, ctx) then Some(SubUnbound) else None
    ensures GateDisplacement(e.row, ctx) == if Fails(Displaced, v, e, ctx) then Some(Displaced) else None
    ensures GateActivity(e.row, ctx) == if Fails(ActivityDisproven, v, e, ctx) then Some(ActivityDisproven) else None
    ensures GateRequiredActivity(e.row, ctx) == if Fails(RequiredActivityMissing, v, e, ctx) then Some(RequiredActivityMissing) else None
    ensures GateNexus(e.row, ctx) == if Fails(NexusUnmet, v, e, ctx) then Some(NexusUnmet) else None
  {
    hide NexusSatisfied, HasSub, Displaces;
  }

  /** Every input has one place in the answer, in input order: among the applicable records when no gate
      fails, and otherwise among the exclusions, with its first failing gate. */
  lemma {:induction false} EachEntryOnce(v: Vocabulary, entries: seq<Entry>, ctx: Context, i: nat)
    requires i < |entries|
    ensures |Applicable(v, entries, ctx)| + |Excluded(v, entries, ctx)| == |entries|
    ensures var before := |Applicable(v, entries[..i], ctx)|;
            && before <= i
            && (match Failing(v, entries[i], ctx)
                case None => before < |Applicable(v, entries, ctx)| && Row(Applicable(v, entries, ctx)[before]) == entries[i]
                case Some(g) => i - before < |Excluded(v, entries, ctx)|
                                && Excluded(v, entries, ctx)[i - before] == Exclusion(IdOf(entries[i]), g))
  {
    SplitCount(v, entries[..i], ctx);
    SplitCount(v, entries, ctx);
    var init := entries[..|entries| - 1];
    hide Failing;
    if i < |init| {
      EachEntryOnce(v, init, ctx, i);
      assert init[..i] == entries[..i] && init[i] == entries[i];
    } else {
      SplitCount(v, init, ctx);
    }
  }

  lemma {:induction false} SplitCount(v: Vocabulary, entries: seq<Entry>, ctx: Context)
    ensures |Applicable(v, entries, ctx)| + |Excluded(v, entries, ctx)| == |entries|
  {
    if entries != [] {
      SplitCount(v, entries[..|entries| - 1], ctx);
      hide RemainingGates, GateBound;
    }
  }

  // ----- more evidence of activities never removes a record -----

  ghost predicate Raised(a: map<Text, Truth>, b: map<Text, Truth>) {
    forall tag :: TruthLe(Present(a, tag), Present(b, tag))
  }

  lemma RaisedGates(v: Vocabulary, e: Entry, ctx: Context, more: map<Text, Truth>)
    requires Raised(ctx.predicates, more)
    ensures Failing(v, e, ctx.(predicates := more)).Some? ==> Failing(v, e, ctx).Some?
    ensures e.Row? ==> GateBound(e.row, ctx.(predicates := more)) == GateBound(e.row, ctx)
  {
    var raised := ctx.(predicates := more);
    if e.Row? {
      assert GateSector(v, e.row, raised) == GateSector(v, e.row, ctx);
      assert GateNexus(e.row, raised) == GateNexus(e.row, ctx);
      hide GateSector, GateNexus;
      RaisedActivity(e.row, ctx, more);
      hide GateActivity, GateRequiredActivity;
    }
  }

  lemma RaisedActivity(r: LawRecord, ctx: Context, more: map<Text, Truth>)
    requires Raised(ctx.predicates, more)
    ensures GateActivity(r, ctx.(predicates := more)).Some? ==> GateActivity(r, ctx).Some?
    ensures GateRequiredActivity(r, ctx.(predicates := more)).Some? ==> GateRequiredActivity(r, ctx).Some?
  {
    assert forall tag :: TruthLe(Present(ctx.predicates, tag), Present(more, tag));
  }

  function Rows(records: seq<LawRecord>): seq<Entry> {
    seq(|records|, i requires 0 <= i < |records| => Row(records[i]))
  }

  lemma ApplicableAppend(v: Vocabulary, entries: seq<Entry>, e: Entry, ctx: Context)
    ensures Applicable(v, entries + [e], ctx)
         == Applicable(v, entries, ctx) + if Failing(v, e, ctx).None? && e.Row? then [e.row] else []
  {
    assert (entries + [e])[..|entries|] == entries;
  }

  lemma RowsAppend(records: seq<LawRecord>, r: LawRecord)
    ensures Rows(records + [r]) == Rows(records) + [Row(r)]
  {
  }

  /** Raising activities from false to unknown to true can only add records: what applied before is what
      still applies out of what applies now. */
  lemma {:induction false} ConnectMonotone(v: Vocabulary, entries: seq<Entry>, ctx: Context, more: map<Text, Truth>)
    requires Raised(ctx.predicates, more)
    ensures var now := Applicable(v, entries, ctx.(predicates := more)); Applicable(v, entries, ctx) == Applicable(v, Rows(now), ctx)
    ensures Examined(entries, ctx.(predicates := more)) == Examined(entries, ctx)
  {
    if entries != [] {
      var init, last := entries[..|entries| - 1], entries[|entries| - 1];
      var raised := ctx.(predicates := more);
      ConnectMonotone(v, init, ctx, more);
      RaisedGates(v, last, ctx, more);
      assert entries == init + [last];
      ApplicableAppend(v, init, last, ctx);
      ApplicableAppend(v, init, last, raised);
      var now := Applicable(v, init, raised);
      hide Failing, GateBound, Applicable;
      if last.Row? {
        RowsAppend(now, last.row);
        ApplicableAppend(v, Rows(now), last, ctx);
      }
      EmptyConcat(Applicable(v, init, ctx));
      EmptyConcat(now);
    }
  }

  // ----- marketing reach never attaches law -----

  /** The two contexts cannot be told apart by any gate. */
  ghost predicate Alike(a: Context, b: Context) {
    && a.boundSet == b.boundSet && a.abstained == b.abstained && a.missing == b.missing
    && a.firmSectors == b.firmSectors && a.firmSubSector == b.firmSubSector && a.predicates == b.predicates
    && (forall code :: HasSub(a.boundSubs, code) <==> HasSub(b.boundSubs, code))
    && (forall id :: Displaces(a.boundSubs, id) <==> Displaces(b.boundSubs, id))
    && (forall c :: Shown(a, c) <==> Shown(b, c))
  }

  predicate Shown(ctx: Context, c: Code) {
    c in ctx.boundByCode && HasEstablishmentEvidence(ctx.boundByCode[c])
  }

  lemma AlikeFailing(v: Vocabulary, e: Entry, a: Context, b: Context)
    requires Alike(a, b)
    ensures Failing(v, e, a) == Failing(v, e, b)
    ensures e.Row? ==> GateBound(e.row, a) == GateBound(e.row, b)
  {
    if e.Row? {
      assert GateSector(v, e.row, a) == GateSector(v, e.row, b);
      assert GateSubBound(e.row, a) == GateSubBound(e.row, b);
      assert GateDisplacement(e.row, a) == GateDisplacement(e.row, b);
      hide GateSector, GateSubBound, GateDisplacement, HasEstablishmentEvidence;
      assert GateNexus(e.row, a) == GateNexus(e.row, b) by {
        assert forall n :: NexusSatisfied(n, EntryFor(e.row, a)) <==> NexusSatisfied(n, EntryFor(e.row, b)) by {
          assert e.row.jurisdiction.Some? ==> (Shown(a, e.row.jurisdiction.value) <==> Shown(b, e.row.jurisdiction.value));
        }
      }
    }
  }

  lemma {:induction false} AlikeAnswers(v: Vocabulary, entries: seq<Entry>, a: Context, b: Context)
    requires Alike(a, b)
    ensures Applicable(v, entries, a) == Applicable(v, entries, b)
    ensures Excluded(v, entries, a) == Excluded(v, entries, b)
    ensures Examined(entries, a) == Examined(entries, b)
  {
    if entries != [] {
      hide Alike, Failing, GateBound;
      AlikeAnswers(v, entries[..|entries| - 1], a, b);
      AlikeFailing(v, entries[|entries| - 1], a, b);
    }
  }

  lemma {:induction false} FirstEntriesHave(bound: seq<Bound>, c: Code)
    ensures c in FirstEntries(bound) <==> HasBound(bound, c)
    ensures c in FirstEntries(bound) ==> FirstEntries(bound)[c] in bound && FirstEntries(bound)[c].code == c
  {
    if bound != [] {
      var init, last := bound[..|bound| - 1], bound[|bound| - 1];
      FirstEntriesHave(init, c);
      assert bound == init + [last];
    }
  }

  lemma TierAKinds(k: Kind)
    ensures TierOf(k) == TierA <==> k in ESTABLISHMENT_KINDS
  {
  }

  lemma ShownExactly(bound: seq<Bound>, c: Code)
    requires OneEach(bound)
    ensures c in FirstEntries(bound) && HasEstablishmentEvidence(FirstEntries(bound)[c]) <==> ShowsEstablishment(bound, c)
  {
    FirstEntriesHave(bound, c);
    forall k ensures TierOf(k) == TierA <==> k in ESTABLISHMENT_KINDS {
      TierAKinds(k);
    }
    hide FirstEntries, TierOf;
    if ShowsEstablishment(bound, c) {
      var b :| b in bound && b.code == c && exists e :: e in b.evidence && TierOf(e.kind) == TierA;
      SameEntry(bound, b, FirstEntries(bound)[c]);
    }
  }

  lemma SameEntry(bound: seq<Bound>, a: Bound, b: Bound)
    requires OneEach(bound) && a in bound && b in bound && a.code == b.code
    ensures a == b
  {
  }

  lemma {:induction false} BoundSubsHas(subs: seq<Sub>)
    ensures forall s :: s in BoundSubs(subs) <==> s in subs && s.bound && s.code != []
  {
    if subs != [] {
      BoundSubsHas(subs[1..]);
      assert forall s :: s in subs <==> s == subs[0] || s in subs[1..];
    }
  }

  /** Outcomes that attach the same law give contexts that no gate can tell apart. */
  lemma SameLawAlike(v: Vocabulary, facts: Facts, a: Outcome, b: Outcome)
    requires SameLaw(a, b) && OneEach(a.bound) && OneEach(b.bound)
    ensures Alike(ContextOf(v, facts.(jurisdiction := Some(a))), ContextOf(v, facts.(jurisdiction := Some(b))))
  {
    var x, y := ContextOf(v, facts.(jurisdiction := Some(a))), ContextOf(v, facts.(jurisdiction := Some(b)));
    SameSubs(a, b);
    forall c ensures Shown(x, c) <==> Shown(y, c) {
      ShownExactly(a.bound, c);
      ShownExactly(b.bound, c);
    }
    SameCodes(a, b);
    hide SectorIdentity, FirstEntries, BoundSubs, HasSub, Displaces, HasEstablishmentEvidence, OneEach;
  }

  lemma SameCodes(a: Outcome, b: Outcome)
    requires SameLaw(a, b)
    ensures CodesOf(a.bound) == CodesOf(b.bound)
  {
    forall c ensures c in CodesOf(a.bound) <==> c in CodesOf(b.bound) {
      assert HasBound(a.bound, c) <==> HasBound(b.bound, c);
    }
  }

  lemma SameSubs(a: Outcome, b: Outcome)
    requires SameLaw(a, b)
    ensures forall code :: HasSub(BoundSubs(a.subs), code) <==> HasSub(BoundSubs(b.subs), code)
    ensures forall id :: Displaces(BoundSubs(a.subs), id) <==> Displaces(BoundSubs(b.subs), id)
  {
    BoundSubsHas(a.subs);
    BoundSubsHas(b.subs);
    forall s ensures s in BoundSubs(a.subs) <==> s in BoundSubs(b.subs) {
      assert BindsSub(a, s) <==> BindsSub(b, s);
    }
  }

  /** Deleting every Tier C signal, every region and every advisory state mention leaves the applicable
      records, the exclusions with their gates, and all three counts as they were. */
  lemma MarketingNeverAttaches(v: Vocabulary, facts: Facts, entries: seq<Entry>, seen: seq<Event>,
                               before: (Serve, Serve) -> bool, other: (Serve, Serve) -> bool)
    ensures AnswerOf(v, entries, ContextOf(v, facts.(jurisdiction := Some(OutcomeOf(seen, before)))))
         == AnswerOf(v, entries, ContextOf(v, facts.(jurisdiction := Some(OutcomeOf(Stripped(seen), other)))))
  {
    var a, b := OutcomeOf(seen, before), OutcomeOf(Stripped(seen), other);
    MarketingChangesNothing(seen, before, other);
    BoundOnce(Closed(seen));
    BoundOnce(Closed(Stripped(seen)));
    hide SameLaw, Closed, Stripped, BoundOf, SubsOf, ServesOf, OneEach;
    SameLawAlike(v, facts, a, b);
    hide ContextOf, Alike;
    AlikeAnswers(v, entries, ContextOf(v, facts.(jurisdiction := Some(a))), ContextOf(v, facts.(jurisdiction := Some(b))));
  }
}
