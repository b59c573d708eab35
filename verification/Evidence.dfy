/** facts/jurisdiction.js: observations, and the buckets they are collected in.

    The reference is the whole, uncapped stream of observations. The running state keeps at most a few
    entries of each tier, and one of each Tier B kind; it is at all times the capped view of the stream
    it was shown. */
module Evidence {
  import opened Texts
  import opened Sorting
  import opened OrderedMaps

  // ----- observations -----

  datatype Code =
    | AE | AU | BH | CA | DE | ES | EU | FR | IE | IN | IT | KW | NL | NZ | OM | QA | SA | SG | UK | US | ZA

  /** The position in the alphabetical order of the codes. */
  function Rank(c: Code): nat {
    match c
    case AE => 0 case AU => 1 case BH => 2 case CA => 3 case DE => 4 case ES => 5 case EU => 6
    case FR => 7 case IE => 8 case IN => 9 case IT => 10 case KW => 11 case NL => 12 case NZ => 13
    case OM => 14 case QA => 15 case SA => 16 case SG => 17 case UK => 18 case US => 19 case ZA => 20
  }

  const EU_MEMBERS: set<Code> := {IE, DE, FR, NL, ES, IT}

  datatype Tier = TierA | TierB | TierC

  datatype Kind =
    | Register | IncorporatedIn | RegisteredOffice | Authorisation | FreezoneEstablishment | EuMembership
    | Postcode | Phone | CcTld | Currency
    | AuthorityMention | ProseMention | BarAdmission | RdapCountry

  function TierOf(k: Kind): Tier {
    match k
    case Postcode => TierB
    case Phone => TierB
    case CcTld => TierB
    case Currency => TierB
    case AuthorityMention => TierC
    case ProseMention => TierC
    case BarAdmission => TierC
    case RdapCountry => TierC
    case _ => TierA
  }

  function Weight(t: Tier): nat {
    match t
    case TierA => 5
    case TierB => 3
    case TierC => 1
  }

  datatype Evidence = Evidence(kind: Kind, source: Text, quote: Text)

  datatype Zone = DIFC | ADGM

  datatype Basis = OfficeAddress | StateRegistration | BarAuthorisation | BarProse | StateMention

  predicate Observable(b: Basis) {
    b.OfficeAddress? || b.StateRegistration? || b.BarAuthorisation?
  }

  datatype StateHit = StateHit(state: Text, basis: Basis, source: Text, quote: Text)
  datatype NationHit = NationHit(nation: Option<Text>, source: Text, quote: Text)

  /** One step of a collection pass. */
  datatype Event =
    | Signal(code: Code, evidence: Evidence)
    | ZoneSeen(zone: Zone, source: Text, quote: Text)
    | StateSeen(hit: StateHit)
    | NationSeen(nation: NationHit)
    | RegionSeen(region: Text, source: Text, quote: Text)

  // ----- the uncapped stream -----

  /** Everything that `f` picks out of the stream, in order. */
  function Gather<T>(stream: seq<Event>, f: Event -> Option<T>): seq<T> {
    if stream == [] then []
    else
      var last := f(stream[|stream| - 1]);
      Gather(stream[..|stream| - 1], f) + if last.Some? then [last.value] else []
  }

  lemma GatherAppend<T>(stream: seq<Event>, e: Event, f: Event -> Option<T>)
    ensures f(e).None? ==> Gather(stream + [e], f) == Gather(stream, f)
    ensures f(e).Some? ==> Gather(stream + [e], f) == Gather(stream, f) + [f(e).value]
  {
    assert (stream + [e])[..|stream|] == stream;
  }

  function OfTier(code: Code, tier: Tier): Event -> Option<Evidence> {
    (e: Event) => if e.Signal? && e.code == code && TierOf(e.evidence.kind) == tier then Some(e.evidence) else None
  }

  function Of(stream: seq<Event>, code: Code, tier: Tier): seq<Evidence> {
    Gather(stream, OfTier(code, tier))
  }

  /** The entry that an event outside the tiered signals leaves. */
  function Found(e: Event): Evidence
    requires e.ZoneSeen? || e.RegionSeen?
  {
    Evidence(if e.ZoneSeen? then FreezoneEstablishment else ProseMention, e.source, e.quote)
  }

  function ZoneEvidence(stream: seq<Event>, zone: Zone): seq<Evidence> {
    Gather(stream, (e: Event) =>
      if e.ZoneSeen? && e.zone == zone then Some(Found(e)) else None)
  }

  function RegionEvidence(stream: seq<Event>, region: Text): seq<Evidence> {
    Gather(stream, (e: Event) =>
      if e.RegionSeen? && e.region == region then Some(Found(e)) else None)
  }

  function SignalCodes(stream: seq<Event>): seq<Code> {
    Gather(stream, (e: Event) => if e.Signal? then Some(e.code) else None)
  }

  function RegionCodes(stream: seq<Event>): seq<Text> {
    Gather(stream, (e: Event) => if e.RegionSeen? then Some(e.region) else None)
  }

  function StateHits(stream: seq<Event>): seq<StateHit> {
    Gather(stream, (e: Event) => if e.StateSeen? then Some(e.hit) else None)
  }

  function NationHits(stream: seq<Event>): seq<NationHit> {
    Gather(stream, (e: Event) => if e.NationSeen? then Some(e.nation) else None)
  }

  predicate HasKind(s: seq<Evidence>, k: Kind) {
    exists e :: e in s && e.kind == k
  }

  lemma HasKindAppend(s: seq<Evidence>, e: Evidence)
    ensures forall k :: HasKind(s + [e], k) <==> HasKind(s, k) || e.kind == k
  {
    assert forall x :: x in s + [e] <==> x in s || x == e;
  }

  /** The first entry of each kind. */
  function OnePerKind(s: seq<Evidence>): seq<Evidence> {
    if s == [] then []
    else
      var init, last := s[..|s| - 1], s[|s| - 1];
      OnePerKind(init) + if HasKind(OnePerKind(init), last.kind) then [] else [last]
  }

  const CAP_A: nat := 4
  const CAP_B: nat := 4
  const CAP_C: nat := 5
  const CAP_ZONE: nat := 4
  const CAP_REGION: nat := 3

  datatype Buckets = Buckets(a: seq<Evidence>, b: seq<Evidence>, c: seq<Evidence>)

  const EMPTY: Buckets := Buckets([], [], [])

  /** What the buckets of one code hold after the whole stream. */
  function Capped(stream: seq<Event>, code: Code): Buckets {
    Buckets(Take(Of(stream, code, TierA), CAP_A), OnePerKind(Of(stream, code, TierB)), Take(Of(stream, code, TierC), CAP_C))
  }

  lemma {:induction false} OnePerKindKinds(s: seq<Evidence>)
    ensures forall e :: e in OnePerKind(s) ==> e in s
    ensures forall k :: HasKind(OnePerKind(s), k) <==> HasKind(s, k)
    ensures forall i, j :: 0 <= i < j < |OnePerKind(s)| ==> OnePerKind(s)[i].kind != OnePerKind(s)[j].kind
  {
    if s != [] {
      var init, last := s[..|s| - 1], s[|s| - 1];
      OnePerKindKinds(init);
      assert s == init + [last];
      HasKindAppend(init, last);
      HasKindAppend(OnePerKind(init), last);
    }
  }

  function KindsOf(s: seq<Evidence>): set<Kind> {
    set e | e in s :: e.kind
  }

  lemma {:induction false} DistinctKindsCount(s: seq<Evidence>)
    requires forall i, j :: 0 <= i < j < |s| ==> s[i].kind != s[j].kind
    ensures |KindsOf(s)| == |s|
  {
    if s != [] {
      var init, last := s[..|s| - 1], s[|s| - 1];
      DistinctKindsCount(init);
      assert s == init + [last];
      assert KindsOf(s) == KindsOf(init) + {last.kind};
      assert last.kind !in KindsOf(init);
    }
  }

  /** There are only four Tier B kinds, so a kind not yet held always finds room under the cap. */
  lemma RoomForNewKind(s: seq<Evidence>, k: Kind)
    requires forall i, j :: 0 <= i < j < |s| ==> s[i].kind != s[j].kind
    requires forall e :: e in s ==> TierOf(e.kind) == TierB
    requires TierOf(k) == TierB && !HasKind(s, k)
    ensures |s| < CAP_B
  {
    DistinctKindsCount(s);
    var four := {Postcode, Phone, CcTld, Currency};
    var kinds := KindsOf(s);
    assert k in four && k !in kinds;
    assert kinds <= four - {k};
    SubsetCount(kinds, four - {k});
  }

  lemma {:induction false} OfTierHolds(stream: seq<Event>, code: Code, tier: Tier)
    ensures forall e :: e in Of(stream, code, tier) ==> TierOf(e.kind) == tier
  {
    if stream != [] {
      OfTierHolds(stream[..|stream| - 1], code, tier);
    }
  }

  lemma OnePerKindAppend(s: seq<Evidence>, e: Evidence)
    ensures OnePerKind(s + [e]) == if HasKind(OnePerKind(s), e.kind) then OnePerKind(s) else OnePerKind(s) + [e]
  {
    assert (s + [e])[..|s|] == s;
  }

  /** One more signal for `code` is added to its own tier and to no other. */
  lemma OfStep(stream: seq<Event>, code: Code, ev: Evidence, tier: Tier)
    ensures Of(stream + [Signal(code, ev)], code, tier)
         == if TierOf(ev.kind) == tier then Of(stream, code, tier) + [ev] else Of(stream, code, tier)
  {
    GatherAppend(stream, Signal(code, ev), OfTier(code, tier));
  }

  lemma KindStep(stream: seq<Event>, code: Code, ev: Evidence)
    requires TierOf(ev.kind) == TierB
    ensures var held := OnePerKind(Of(stream, code, TierB));
            OnePerKind(Of(stream, code, TierB) + [ev]) == if HasKind(held, ev.kind) || |held| >= CAP_B then held else held + [ev]
  {
    var b := Of(stream, code, TierB);
    OnePerKindAppend(b, ev);
    OnePerKindKinds(b);
    OfTierHolds(stream, code, TierB);
    hide OnePerKind, Of;
    if !HasKind(OnePerKind(b), ev.kind) {
      RoomForNewKind(OnePerKind(b), ev.kind);
    }
  }

  /** One more signal for `code` changes its buckets as the accumulator does. */
  lemma CappedStep(stream: seq<Event>, code: Code, ev: Evidence)
    ensures var before, after := Capped(stream, code), Capped(stream + [Signal(code, ev)], code);
            match TierOf(ev.kind)
            case TierA => after == before.(a := if |before.a| < CAP_A then before.a + [ev] else before.a)
            case TierB => after == before.(b := if HasKind(before.b, ev.kind) || |before.b| >= CAP_B then before.b else before.b + [ev])
            case TierC => after == before.(c := if |before.c| < CAP_C then before.c + [ev] else before.c)
  {
    OfStep(stream, code, ev, TierA);
    OfStep(stream, code, ev, TierB);
    OfStep(stream, code, ev, TierC);
    TakeAppend(Of(stream, code, TierA), ev, CAP_A);
    TakeAppend(Of(stream, code, TierC), ev, CAP_C);
    if TierOf(ev.kind) == TierB {
      KindStep(stream, code, ev);
    }
    hide Of, OnePerKind, Take, HasKind;
  }

  /** A signal for another code, or an event that is no signal, leaves the buckets alone. */
  lemma CappedOther(stream: seq<Event>, code: Code, e: Event)
    requires !(e.Signal? && e.code == code)
    ensures Capped(stream + [e], code) == Capped(stream, code)
  {
    GatherAppend(stream, e, OfTier(code, TierA));
    GatherAppend(stream, e, OfTier(code, TierB));
    GatherAppend(stream, e, OfTier(code, TierC));
  }

  // ----- the accumulator -----

  function CappedView(stream: seq<Event>): Code -> Buckets {
    c => Capped(stream, c)
  }

  function RegionView(stream: seq<Event>): Text -> seq<Evidence> {
    r => Take(RegionEvidence(stream, r), CAP_REGION)
  }

  ghost predicate SigHolds(codes: seq<Code>, sig: map<Code, Buckets>, stream: seq<Event>) {
    codes == Distinct(SignalCodes(stream)) && Lists(codes, sig) && Agrees(sig, CappedView(stream))
  }

  ghost predicate ZonesHold(zones: map<Zone, seq<Evidence>>, stream: seq<Event>) {
    && (forall z :: z in zones <==> ZoneEvidence(stream, z) != [])
    && (forall z :: z in zones ==> zones[z] == Take(ZoneEvidence(stream, z), CAP_ZONE))
  }

  ghost predicate RegionsHold(order: seq<Text>, regions: map<Text, seq<Evidence>>, stream: seq<Event>) {
    order == Distinct(RegionCodes(stream)) && Lists(order, regions) && Agrees(regions, RegionView(stream))
  }

  lemma {:induction false} UnseenIsEmpty(stream: seq<Event>, c: Code)
    requires c !in SignalCodes(stream)
    ensures Capped(stream, c) == EMPTY
  {
    if stream != [] {
      var init, last := stream[..|stream| - 1], stream[|stream| - 1];
      assert stream == init + [last];
      GatherAppend(init, last, (e: Event) => if e.Signal? then Some(e.code) else None);
      UnseenIsEmpty(init, c);
      CappedOther(init, c, last);
    }
  }

  lemma {:induction false} RegionUnseen(stream: seq<Event>, r: Text)
    requires r !in RegionCodes(stream)
    ensures RegionEvidence(stream, r) == []
  {
    if stream != [] {
      RegionUnseen(stream[..|stream| - 1], r);
    }
  }

  lemma InSig(codes: seq<Code>, sig: map<Code, Buckets>, stream: seq<Event>, code: Code)
    requires SigHolds(codes, sig, stream)
    ensures code in sig <==> code in codes
    ensures Capped(stream, code) == if code in sig then sig[code] else EMPTY
  {
    if code !in sig {
      UnseenIsEmpty(stream, code);
    }
  }

  lemma CodeOrderStep(stream: seq<Event>, e: Event)
    requires e.Signal?
    ensures Distinct(SignalCodes(stream + [e])) == Grown(Distinct(SignalCodes(stream)), e.code)
  {
    var picked := SignalCodes(stream);
    GatherAppend(stream, e, (x: Event) => if x.Signal? then Some(x.code) else None);
    assert SignalCodes(stream + [e]) == picked + [e.code];
    DistinctAppend(picked, e.code);
  }

  lemma CappedOthers(stream: seq<Event>, e: Event)
    requires e.Signal?
    ensures SameBut(CappedView(stream), CappedView(stream + [e]), e.code)
  {
    forall c | c != e.code ensures Capped(stream + [e], c) == Capped(stream, c) {
      CappedOther(stream, c, e);
    }
  }

  lemma SignalStep(codes: seq<Code>, sig: map<Code, Buckets>, stream: seq<Event>, code: Code, ev: Evidence)
    requires SigHolds(codes, sig, stream)
    ensures SigHolds(Grown(codes, code), sig[code := Capped(stream + [Signal(code, ev)], code)], stream + [Signal(code, ev)])
  {
    var e := Signal(code, ev);
    CodeOrderStep(stream, e);
    CappedOthers(stream, e);
    var view := CappedView(stream + [e]);
    assert view(code) == Capped(stream + [e], code);
    hide SignalCodes, Distinct, Grown, Lists, Agrees, SameBut, CappedView, Capped;
    MapStep(codes, sig, code, CappedView(stream), view);
  }

  lemma NoSignalStep(codes: seq<Code>, sig: map<Code, Buckets>, stream: seq<Event>, e: Event)
    requires SigHolds(codes, sig, stream) && !e.Signal?
    ensures SigHolds(codes, sig, stream + [e])
  {
    GatherAppend(stream, e, (x: Event) => if x.Signal? then Some(x.code) else None);
    assert SignalCodes(stream + [e]) == SignalCodes(stream);
    forall c ensures Capped(stream + [e], c) == Capped(stream, c) {
      CappedOther(stream, c, e);
    }
    hide Capped, SignalCodes, Distinct;
  }

  lemma ZoneAppend(stream: seq<Event>, e: Event, z: Zone)
    ensures !(e.ZoneSeen? && e.zone == z) ==> ZoneEvidence(stream + [e], z) == ZoneEvidence(stream, z)
    ensures e.ZoneSeen? && e.zone == z ==> ZoneEvidence(stream + [e], z) == ZoneEvidence(stream, z) + [Found(e)]
  {
    GatherAppend(stream, e, (x: Event) => if x.ZoneSeen? && x.zone == z then Some(Found(x)) else None);
  }

  lemma RegionAppend(stream: seq<Event>, e: Event, r: Text)
    ensures !(e.RegionSeen? && e.region == r) ==> RegionEvidence(stream + [e], r) == RegionEvidence(stream, r)
    ensures e.RegionSeen? && e.region == r ==> RegionEvidence(stream + [e], r) == RegionEvidence(stream, r) + [Found(e)]
  {
    GatherAppend(stream, e, (x: Event) => if x.RegionSeen? && x.region == r then Some(Found(x)) else None);
  }

  lemma ZoneKept(zones: map<Zone, seq<Evidence>>, stream: seq<Event>, e: Event)
    requires ZonesHold(zones, stream) && !e.ZoneSeen?
    ensures ZonesHold(zones, stream + [e])
  {
    forall z ensures ZoneEvidence(stream + [e], z) == ZoneEvidence(stream, z) {
      ZoneAppend(stream, e, z);
    }
    hide ZoneEvidence;
  }

  lemma ZoneStep(zones: map<Zone, seq<Evidence>>, stream: seq<Event>, e: Event, held: seq<Evidence>)
    requires ZonesHold(zones, stream) && e.ZoneSeen?
    requires held == if e.zone in zones then zones[e.zone] else []
    ensures ZonesHold(zones[e.zone := if |held| < CAP_ZONE then held + [Found(e)] else held], stream + [e])
  {
    ZoneAppend(stream, e, DIFC);
    ZoneAppend(stream, e, ADGM);
    TakeAppend(ZoneEvidence(stream, e.zone), Found(e), CAP_ZONE);
    hide ZoneEvidence;
  }

  lemma RegionKept(order: seq<Text>, regions: map<Text, seq<Evidence>>, stream: seq<Event>, e: Event)
    requires RegionsHold(order, regions, stream) && !e.RegionSeen?
    ensures RegionsHold(order, regions, stream + [e])
  {
    GatherAppend(stream, e, (x: Event) => if x.RegionSeen? then Some(x.region) else None);
    assert RegionCodes(stream + [e]) == RegionCodes(stream);
    hide RegionCodes, RegionEvidence, Distinct;
    forall r ensures RegionEvidence(stream + [e], r) == RegionEvidence(stream, r) {
      RegionAppend(stream, e, r);
    }
  }

  lemma RegionOrderStep(stream: seq<Event>, e: Event)
    requires e.RegionSeen?
    ensures Distinct(RegionCodes(stream + [e])) == Grown(Distinct(RegionCodes(stream)), e.region)
  {
    var codes := RegionCodes(stream);
    GatherAppend(stream, e, (x: Event) => if x.RegionSeen? then Some(x.region) else None);
    assert RegionCodes(stream + [e]) == codes + [e.region];
    DistinctAppend(codes, e.region);
  }

  lemma RegionOthers(stream: seq<Event>, e: Event)
    requires e.RegionSeen?
    ensures SameBut(RegionView(stream), RegionView(stream + [e]), e.region)
  {
    hide RegionEvidence, Take;
    forall r | r != e.region ensures RegionEvidence(stream + [e], r) == RegionEvidence(stream, r) {
      RegionAppend(stream, e, r);
    }
  }

  lemma RegionGrows(regions: map<Text, seq<Evidence>>, order: seq<Text>, stream: seq<Event>, e: Event, held: seq<Evidence>)
    requires RegionsHold(order, regions, stream) && e.RegionSeen?
    requires held == if e.region in regions then regions[e.region] else []
    ensures Take(RegionEvidence(stream + [e], e.region), CAP_REGION) == if |held| < CAP_REGION then held + [Found(e)] else held
  {
    TakeAppend(RegionEvidence(stream, e.region), Found(e), CAP_REGION);
    RegionAppend(stream, e, e.region);
    if e.region !in regions {
      RegionUnseen(stream, e.region);
    }
  }

  lemma RegionStep(order: seq<Text>, regions: map<Text, seq<Evidence>>, stream: seq<Event>, e: Event, held: seq<Evidence>)
    requires RegionsHold(order, regions, stream) && e.RegionSeen?
    requires held == if e.region in regions then regions[e.region] else []
    ensures RegionsHold(Grown(order, e.region),
                        regions[e.region := if |held| < CAP_REGION then held + [Found(e)] else held], stream + [e])
  {
    var after := stream + [e];
    RegionGrows(regions, order, stream, e, held);
    RegionOrderStep(stream, e);
    RegionOthers(stream, e);
    var view := RegionView(after);
    assert view(e.region) == Take(RegionEvidence(after, e.region), CAP_REGION);
    hide RegionCodes, RegionEvidence, Distinct, Take, Grown, Lists, Agrees, SameBut, RegionView;
    MapStep(order, regions, e.region, RegionView(stream), view);
  }

  lemma OtherViews(stream: seq<Event>, e: Event)
    ensures StateHits(stream + [e]) == if e.StateSeen? then StateHits(stream) + [e.hit] else StateHits(stream)
    ensures NationHits(stream + [e]) == if e.NationSeen? then NationHits(stream) + [e.nation] else NationHits(stream)
  {
    GatherAppend(stream, e, (x: Event) => if x.StateSeen? then Some(x.hit) else None);
    GatherAppend(stream, e, (x: Event) => if x.NationSeen? then Some(x.nation) else None);
  }

  /** An event leaves alone every view it does not belong to. */
  lemma OthersKept(s: State, e: Event)
    requires s.Valid()
    ensures e.Signal? || SigHolds(s.codes, s.sig, s.stream + [e])
    ensures e.ZoneSeen? || ZonesHold(s.zones, s.stream + [e])
    ensures e.RegionSeen? || RegionsHold(s.regionOrder, s.regions, s.stream + [e])
    ensures e.StateSeen? || StateHits(s.stream + [e]) == s.stateHits
    ensures e.NationSeen? || NationHits(s.stream + [e]) == s.nationHits
  {
    hide SigHolds, ZonesHold, RegionsHold, StateHits, NationHits;
    OtherViews(s.stream, e);
    if !e.Signal? {
      NoSignalStep(s.codes, s.sig, s.stream, e);
    }
    if !e.ZoneSeen? {
      ZoneKept(s.zones, s.stream, e);
    }
    if !e.RegionSeen? {
      RegionKept(s.regionOrder, s.regions, s.stream, e);
    }
  }

  /** The running state of one resolution, kept equal to the capped view of the stream it was shown. */
  class State {
    var codes: seq<Code>
    var sig: map<Code, Buckets>
    var zones: map<Zone, seq<Evidence>>
    var stateHits: seq<StateHit>
    var nationHits: seq<NationHit>
    var regionOrder: seq<Text>
    var regions: map<Text, seq<Evidence>>
    ghost var stream: seq<Event>

    ghost predicate Valid()
      reads this
    {
      && SigHolds(codes, sig, stream)
      && ZonesHold(zones, stream)
      && RegionsHold(regionOrder, regions, stream)
      && stateHits == StateHits(stream)
      && nationHits == NationHits(stream)
    }

    constructor ()
      ensures Valid() && stream == []
    {
      codes, sig, zones, stateHits, nationHits, regionOrder, regions := [], map[], map[], [], [], [], map[];
      stream := [];
    }

    method AddEvidence(code: Code, ev: Evidence)
      requires Valid()
      modifies this
      ensures Valid() && stream == old(stream) + [Signal(code, ev)]
    {
      hide SigHolds, ZonesHold, RegionsHold, Capped, StateHits, NationHits;
      SignalStep(codes, sig, stream, code, ev);
      InSig(codes, sig, stream, code);
      CappedStep(stream, code, ev);
      OthersKept(this, Signal(code, ev));
      assert code in sig <==> code in codes by { InSig(codes, sig, stream, code); }
      if code !in codes {
        codes := codes + [code];
      }
      var bucket := if code in sig then sig[code] else EMPTY;
      match TierOf(ev.kind) {
        case TierA =>
          if |bucket.a| < CAP_A {
            bucket := bucket.(a := bucket.a + [ev]);
          }
        case TierB =>
          if !HasKind(bucket.b, ev.kind) && |bucket.b| < CAP_B {
            bucket := bucket.(b := bucket.b + [ev]);
          }
        case TierC =>
          if |bucket.c| < CAP_C {
            bucket := bucket.(c := bucket.c + [ev]);
          }
      }
      sig := sig[code := bucket];
      stream := stream + [Signal(code, ev)];
    }

    method RecordZone(zone: Zone, source: Text, quote: Text)
      requires Valid()
      modifies this
      ensures Valid() && stream == old(stream) + [ZoneSeen(zone, source, quote)]
    {
      var e := ZoneSeen(zone, source, quote);
      hide SigHolds, ZonesHold, RegionsHold, StateHits, NationHits;
      OthersKept(this, e);
      var held := if zone in zones then zones[zone] else [];
      ZoneStep(zones, stream, e, held);
      if |held| < CAP_ZONE {
        held := held + [Found(e)];
      }
      zones := zones[zone := held];
      stream := stream + [e];
    }

    method RecordRegion(region: Text, source: Text, quote: Text)
      requires Valid()
      modifies this
      ensures Valid() && stream == old(stream) + [RegionSeen(region, source, quote)]
    {
      var e := RegionSeen(region, source, quote);
      hide SigHolds, ZonesHold, RegionsHold, StateHits, NationHits;
      OthersKept(this, e);
      RegionStep(regionOrder, regions, stream, e, if region in regions then regions[region] else []);
      if region !in regionOrder {
        regionOrder := regionOrder + [region];
      }
      var held := if region in regions then regions[region] else [];
      if |held| < CAP_REGION {
        held := held + [Found(e)];
      }
      regions := regions[region := held];
      stream := stream + [e];
    }

    method Record(e: Event)
      requires Valid()
      modifies this
      ensures Valid() && stream == old(stream) + [e]
    {
      hide SigHolds, ZonesHold, RegionsHold, StateHits, NationHits;
      match e {
        case Signal(code, ev) => AddEvidence(code, ev);
        case ZoneSeen(zone, source, quote) => RecordZone(zone, source, quote);
        case RegionSeen(region, source, quote) => RecordRegion(region, source, quote);
        case StateSeen(hit) =>
          OthersKept(this, e);
          OtherViews(stream, e);
          stateHits := stateHits + [hit];
          stream := stream + [e];
        case NationSeen(nation) =>
          OthersKept(this, e);
          OtherViews(stream, e);
          nationHits := nationHits + [nation];
          stream := stream + [e];
      }
    }

    /** One collection pass. */
    method Collect(events: seq<Event>)
      requires Valid()
      modifies this
      ensures Valid() && stream == old(stream) + events
    {
      hide SigHolds, ZonesHold, RegionsHold, StateHits, NationHits;
      for i := 0 to |events|
        invariant Valid() && stream == old(stream) + events[..i]
      {
        assert events[..i + 1] == events[..i] + [events[i]];
        Record(events[i]);
      }
      assert events[..|events|] == events;
    }
  }
}
