/** facts/jurisdiction.js, the door: what one bundle resolves to, and what marketing reach cannot change. */
module Resolution {
  import opened Texts
  import opened Sorting
  import opened OrderedMaps
  import opened Evidence
  import opened Jurisdiction

  datatype SubBasis = StateBasis(basis: Basis) | PostcodeArea | FreezoneBasis

  datatype Mention = Mention(source: Text, quote: Text)

  datatype Sub = Sub(country: Code, code: Text, bound: bool, basis: SubBasis, displaces: seq<Text>, evidence: seq<Mention>)

  // ----- states of the United States -----

  predicate Picks(h: StateHit, state: Text, observable: bool) {
    h.state == state && (observable ==> Observable(h.basis))
  }

  /** The first hit for the state, among the observable ones only or among all. */
  function FirstHit(hits: seq<StateHit>, state: Text, observable: bool): Option<StateHit> {
    if hits == [] then None
    else
      var first, last := FirstHit(hits[..|hits| - 1], state, observable), hits[|hits| - 1];
      if first.Some? then first else if Picks(last, state, observable) then Some(last) else None
  }

  function StateSub(h: StateHit): Sub {
    Sub(US, h.state, Observable(h.basis), StateBasis(h.basis), [], [Mention(h.source, h.quote)])
  }

  /** An observable hit wins over an advisory one; among equals the first is kept. */
  function ChosenSub(hits: seq<StateHit>, state: Text): Sub {
    var observable, any := FirstHit(hits, state, true), FirstHit(hits, state, false);
    if observable.Some? then StateSub(observable.value)
    else if any.Some? then StateSub(any.value)
    else StateSub(StateHit(state, StateMention, [], []))
  }

  function ChosenView(hits: seq<StateHit>): Text -> Sub {
    state => ChosenSub(hits, state)
  }

  function StatesOf(hits: seq<StateHit>): seq<Text> {
    seq(|hits|, i requires 0 <= i < |hits| => hits[i].state)
  }

  /** One entry for each state hit, in the order the states were first seen. */
  function StateSubs(hits: seq<StateHit>): seq<Sub> {
    var order := Distinct(StatesOf(hits));
    seq(|order|, i requires 0 <= i < |order| => ChosenSub(hits, order[i]))
  }

  lemma FirstHitAppend(hits: seq<StateHit>, h: StateHit, state: Text, observable: bool)
    ensures FirstHit(hits + [h], state, observable)
         == if FirstHit(hits, state, observable).Some? then FirstHit(hits, state, observable)
            else if Picks(h, state, observable) then Some(h) else None
  {
    assert (hits + [h])[..|hits|] == hits;
  }

  lemma {:induction false} FirstHitSome(hits: seq<StateHit>, state: Text, observable: bool)
    ensures var f := FirstHit(hits, state, observable); f.Some? ==> f.value in hits && Picks(f.value, state, observable)
    ensures FirstHit(hits, state, observable).Some? <==> exists h :: h in hits && Picks(h, state, observable)
  {
    if hits != [] {
      var init, last := hits[..|hits| - 1], hits[|hits| - 1];
      FirstHitSome(init, state, observable);
      assert hits == init + [last];
    }
  }

  lemma StatesAppend(hits: seq<StateHit>, h: StateHit)
    ensures Distinct(StatesOf(hits + [h])) == Grown(Distinct(StatesOf(hits)), h.state)
  {
    assert StatesOf(hits + [h]) == StatesOf(hits) + [h.state];
    DistinctAppend(StatesOf(hits), h.state);
  }

  lemma StateSeenBefore(hits: seq<StateHit>, state: Text)
    ensures state in Distinct(StatesOf(hits)) <==> FirstHit(hits, state, false).Some?
  {
    FirstHitSome(hits, state, false);
    var states := StatesOf(hits);
    if state in states {
      var i :| 0 <= i < |states| && states[i] == state;
      assert Picks(hits[i], state, false);
    }
    if h :| h in hits && Picks(h, state, false) {
      var i :| 0 <= i < |hits| && hits[i] == h;
      assert states[i] == state;
    }
  }

  lemma ChosenOthers(hits: seq<StateHit>, h: StateHit)
    ensures SameBut(ChosenView(hits), ChosenView(hits + [h]), h.state)
  {
    forall s | s != h.state ensures ChosenSub(hits, s) == ChosenSub(hits + [h], s) {
      FirstHitAppend(hits, h, s, true);
      FirstHitAppend(hits, h, s, false);
    }
  }

  function Kept(seen: bool, before: Sub, h: StateHit): Sub {
    if seen && (before.bound || !Observable(h.basis)) then before else StateSub(h)
  }

  /** What one more hit does to the entry of its own state. */
  lemma ChosenStep(hits: seq<StateHit>, h: StateHit)
    ensures ChosenSub(hits + [h], h.state) == Kept(h.state in Distinct(StatesOf(hits)), ChosenSub(hits, h.state), h)
  {
    FirstHitAppend(hits, h, h.state, true);
    FirstHitAppend(hits, h, h.state, false);
    StateSeenBefore(hits, h.state);
    FirstHitSome(hits, h.state, true);
    FirstHitSome(hits, h.state, false);
    hide FirstHit, Distinct, StatesOf;
  }

  method UsStateSubs(hits: seq<StateHit>) returns (subs: seq<Sub>)
    ensures subs == StateSubs(hits)
  {
    var order: seq<Text>, states: map<Text, Sub> := [], map[];
    hide Distinct, StatesOf, Lists, Agrees, SameBut, Grown, ChosenSub;
    assert Lists(order, states) by { EmptyLists<Text, Sub>(); }
    assert Agrees(states, ChosenView([])) by { EmptyAgrees(ChosenView([])); }
    assert order == Distinct(StatesOf([])) by { NoStates(); }
    for i := 0 to |hits|
      invariant order == Distinct(StatesOf(hits[..i])) && Lists(order, states) && Agrees(states, ChosenView(hits[..i]))
    {
      var hit := hits[i];
      ghost var seen := hits[..i];
      assert hits[..i + 1] == seen + [hit];
      StatesAppend(seen, hit);
      ChosenStep(seen, hit);
      ChosenOthers(seen, hit);
      MapStep(order, states, hit.state, ChosenView(seen), ChosenView(seen + [hit]));
      Known(order, states, hit.state, ChosenView(seen));
      var status := Observable(hit.basis);
      if hit.state in states && (states[hit.state].bound || !status) {
        assert states[hit.state := ChosenView(seen + [hit])(hit.state)] == states;
      } else {
        states := states[hit.state := StateSub(hit)];
      }
      order := Grown(order, hit.state);
    }
    assert hits[..|hits|] == hits;
    KnownAll(order, states, ChosenView(hits));
    subs := seq(|order|, i requires 0 <= i < |order| => states[order[i]]);
  }

  lemma NoStates()
    ensures Distinct(StatesOf([])) == []
  {
  }

  // ----- nations of the United Kingdom -----

  function NationSub(h: NationHit): Sub
    requires h.nation.Some?
  {
    Sub(UK, h.nation.value, true, PostcodeArea, [], [Mention(h.source, h.quote)])
  }

  predicate Names(subs: seq<Sub>, code: Text) {
    exists s :: s in subs && s.code == code
  }

  /** The first hit of each nation. */
  function NationSubs(hits: seq<NationHit>): seq<Sub> {
    if hits == [] then []
    else
      var init, last := NationSubs(hits[..|hits| - 1]), hits[|hits| - 1];
      if last.nation.None? || Names(init, last.nation.value) then init else init + [NationSub(last)]
  }

  // ----- free zones -----

  const AE_FEDERAL: Text := Ascii("AE_FEDERAL_DATA_PROTECTION")
  const DIFC_CODE: Text := Ascii("DIFC")
  const ADGM_CODE: Text := Ascii("ADGM")

  function ZoneCode(z: Zone): Text {
    if z == DIFC then DIFC_CODE else ADGM_CODE
  }

  /** At most one free zone attaches, and DIFC comes before ADGM. */
  function ActiveZone(stream: seq<Event>): Option<Zone> {
    if ZoneEvidence(stream, DIFC) != [] then Some(DIFC)
    else if ZoneEvidence(stream, ADGM) != [] then Some(ADGM)
    else None
  }

  function ZoneMentions(evidence: seq<Evidence>): seq<Mention> {
    seq(|evidence|, i requires 0 <= i < |evidence| => Mention(evidence[i].source, evidence[i].quote))
  }

  function ZoneSubs(stream: seq<Event>): seq<Sub> {
    var z := ActiveZone(stream);
    if z.None? then []
    else [Sub(AE, ZoneCode(z.value), true, FreezoneBasis, [AE_FEDERAL], ZoneMentions(Take(ZoneEvidence(stream, z.value), CAP_ZONE)))]
  }

  /** An established free zone is itself Tier A evidence for the Emirates. */
  function Closed(stream: seq<Event>): seq<Event> {
    var z := ActiveZone(stream);
    if z.None? then stream else stream + [Signal(AE, ZoneEvidence(stream, z.value)[0])]
  }

  // ----- the outcome -----

  function SubsOf(stream: seq<Event>, bound: seq<Bound>): seq<Sub> {
    (if HasBound(bound, UK) then NationSubs(NationHits(stream)) else [])
    + (if HasBound(bound, US) then StateSubs(StateHits(stream)) else [])
    + (if HasBound(bound, AE) then ZoneSubs(stream) else [])
  }

  datatype Place = Country(code: Code) | Region(name: Text)
  datatype Serve = Serve(place: Place, evidence: seq<Evidence>)

  predicate IsReach(e: Evidence) {
    e.kind == ProseMention || e.kind == BarAdmission || e.kind == RdapCountry
  }

  function Reach(s: seq<Evidence>): seq<Evidence> {
    if s == [] then [] else (if IsReach(s[0]) then [s[0]] else []) + Reach(s[1..])
  }

  function CountryServes(codes: seq<Code>, view: Code -> Buckets): seq<Serve> {
    if codes == [] then []
    else
      var last := codes[|codes| - 1];
      var reach := Reach(view(last).c);
      CountryServes(codes[..|codes| - 1], view) + if reach != [] then [Serve(Country(last), reach)] else []
  }

  function RegionServes(order: seq<Text>, view: Text -> seq<Evidence>): seq<Serve> {
    seq(|order|, i requires 0 <= i < |order| => Serve(Region(order[i]), view(order[i])))
  }

  /** Marketing reach, in the order of place names that the runtime's locale gives. */
  function ServesOf(stream: seq<Event>, before: (Serve, Serve) -> bool): seq<Serve> {
    SortBy(before, CountryServes(Distinct(SignalCodes(stream)), CappedView(stream))
                   + RegionServes(Distinct(RegionCodes(stream)), RegionView(stream)))
  }

  datatype Outcome = Outcome(bound: seq<Bound>, serves: seq<Serve>, subs: seq<Sub>, abstained: bool)

  function OutcomeOf(seen: seq<Event>, before: (Serve, Serve) -> bool): Outcome {
    var stream := Closed(seen);
    var bound := BoundOf(stream);
    Outcome(bound, ServesOf(stream, before), SubsOf(stream, bound), bound == [])
  }

  function Events(b: Bundle): seq<Event> {
    AllRegisterEvents(b) + LaterEvents(b)
  }

  method NationEntries(hits: seq<NationHit>) returns (subs: seq<Sub>)
    ensures subs == NationSubs(hits)
  {
    subs := [];
    for i := 0 to |hits|
      invariant subs == NationSubs(hits[..i])
    {
      assert hits[..i + 1][..i] == hits[..i];
      if hits[i].nation.Some? && !Names(subs, hits[i].nation.value) {
        subs := subs + [NationSub(hits[i])];
      }
    }
    assert hits[..|hits|] == hits;
  }

  lemma RegionServesAppend(order: seq<Text>, r: Text, view: Text -> seq<Evidence>)
    ensures RegionServes(order + [r], view) == RegionServes(order, view) + [Serve(Region(r), view(r))]
  {
  }

  lemma ZonesKnown(zones: map<Zone, seq<Evidence>>, stream: seq<Event>)
    requires ZonesHold(zones, stream)
    ensures ActiveZone(stream) == if DIFC in zones then Some(DIFC) else if ADGM in zones then Some(ADGM) else None
    ensures forall z :: z in zones ==>
              ZoneEvidence(stream, z) != [] && zones[z] == Take(ZoneEvidence(stream, z), CAP_ZONE) && zones[z] != []
              && zones[z][0] == ZoneEvidence(stream, z)[0]
  {
    hide ZoneEvidence;
  }

  method BuildServes(s: State, before: (Serve, Serve) -> bool) returns (serves: seq<Serve>)
    requires s.Valid()
    ensures serves == ServesOf(s.stream, before)
  {
    serves := [];
    hide Capped, Distinct, SignalCodes, RegionCodes, RegionEvidence, Take, Reach;
    KnownAll(s.codes, s.sig, CappedView(s.stream));
    KnownAll(s.regionOrder, s.regions, RegionView(s.stream));
    for i := 0 to |s.codes|
      invariant serves == CountryServes(s.codes[..i], CappedView(s.stream))
    {
      assert s.codes[..i + 1][..i] == s.codes[..i];
      var reach := Reach(s.sig[s.codes[i]].c);
      if reach != [] {
        serves := serves + [Serve(Country(s.codes[i]), reach)];
      }
    }
    assert s.codes[..|s.codes|] == s.codes;
    var countries := serves;
    for i := 0 to |s.regionOrder|
      invariant serves == countries + RegionServes(s.regionOrder[..i], RegionView(s.stream))
    {
      var region := s.regionOrder[i];
      RegionServesAppend(s.regionOrder[..i], region, RegionView(s.stream));
      assert s.regionOrder[..i + 1] == s.regionOrder[..i] + [region];
      serves := serves + [Serve(Region(region), s.regions[region])];
    }
    assert s.regionOrder[..|s.regionOrder|] == s.regionOrder;
    serves := SortBy(before, serves);
  }

  /** The zone of the running state, as the stream has it. */
  method EstablishedZone(s: State) returns (zone: Option<Zone>)
    requires s.Valid()
    ensures zone == ActiveZone(s.stream)
    ensures zone.Some? ==> zone.value in s.zones
    ensures zone.Some? ==> s.zones[zone.value] == Take(ZoneEvidence(s.stream, zone.value), CAP_ZONE)
    ensures zone.Some? ==> s.zones[zone.value] != [] && s.zones[zone.value][0] == ZoneEvidence(s.stream, zone.value)[0]
  {
    ZonesKnown(s.zones, s.stream);
    hide *;
    zone := if DIFC in s.zones then Some(DIFC) else if ADGM in s.zones then Some(ADGM) else None;
  }

  method BuildSubJurisdictions(s: State, bound: seq<Bound>) returns (subs: seq<Sub>)
    requires s.Valid()
    ensures subs == SubsOf(s.stream, bound)
  {
    var zone := EstablishedZone(s);
    hide SigHolds, ZonesHold, RegionsHold, StateHits, NationHits, ZoneEvidence, ActiveZone, Take, ZoneMentions, HasBound;
    var nations, states, zones: seq<Sub> := [], [], [];
    if HasBound(bound, UK) {
      nations := NationEntries(s.nationHits);
    }
    if HasBound(bound, US) {
      states := UsStateSubs(s.stateHits);
    }
    if zone.Some? && HasBound(bound, AE) {
      zones := [Sub(AE, ZoneCode(zone.value), true, FreezoneBasis, [AE_FEDERAL], ZoneMentions(s.zones[zone.value]))];
    }
    subs := nations + states + zones;
  }

  method CloseZones(s: State)
    requires s.Valid()
    modifies s
    ensures s.Valid() && s.stream == Closed(old(s.stream))
  {
    var zone := EstablishedZone(s);
    hide SigHolds, ZonesHold, RegionsHold, StateHits, NationHits, ZoneEvidence, ActiveZone, Take;
    if zone.Some? {
      s.AddEvidence(AE, s.zones[zone.value][0]);
    }
  }

  method ResolveJurisdiction(b: Bundle, before: (Serve, Serve) -> bool) returns (r: Outcome)
    ensures r == OutcomeOf(Events(b), before)
  {
    hide AllRegisterEvents, LaterEvents, BoundOf, ServesOf, SubsOf, Closed;
    hide SigHolds, ZonesHold, RegionsHold, StateHits, NationHits;
    var s := new State();
    s.Collect(AllRegisterEvents(b));
    s.Collect(LaterEvents(b));
    assert s.stream == Events(b);
    CloseZones(s);
    var bound := BuildBound(s);
    var serves := BuildServes(s, before);
    var subs := BuildSubJurisdictions(s, bound);
    r := Outcome(bound, serves, subs, bound == []);
  }

  // ----- registers come first -----

  lemma FlatAvoids<T>(s: seq<T>, f: T -> seq<Event>, p: Event -> bool)
    requires forall i :: 0 <= i < |s| ==> forall e :: e in f(s[i]) ==> !p(e)
    ensures forall e :: e in Flat(s, f) ==> !p(e)
  {
    FlatHas(s, f);
  }

  lemma EstablishmentHasNoRegister(s: Sentence)
    ensures forall e :: e in EstablishmentEvents(s) ==> !RegisterSignal(e)
  {
    hide Numbered;
    FlatHas(s.incorporations, span => IncorporationEvents(s, span));
    FlatHas(OfficeCodes(s), c => [Seen(s, c, RegisteredOffice)]);
    FlatHas(s.authorities, a => AuthorityEvents(s, a));
    FlatHas(s.bars, b => BarEvents(s, b));
    FlatHas(s.freezones, f => FreezoneEvents(s, f));
    forall i | 0 <= i < |s.incorporations| ensures forall e :: e in IncorporationEvents(s, s.incorporations[i]) ==> !RegisterSignal(e) {
      FlatHas(s.incorporations[i].states, st => [SeenState(s, st, StateRegistration), Seen(s, US, IncorporatedIn)]);
    }
  }

  lemma SentenceHasNoRegister(s: Sentence)
    ensures forall e :: e in SentenceEvents(s) ==> !RegisterSignal(e)
  {
    EstablishmentHasNoRegister(s);
    MarketingIsTierC(s);
    hide EstablishmentEvents, MarketingEvents;
  }

  lemma LaterHasNoRegister(b: Bundle)
    ensures forall e :: e in LaterEvents(b) ==> !RegisterSignal(e)
  {
    hide Flat;
    FlatAvoids(b.addresses, (a: Address) => AddressRowEvents(a), RegisterSignal);
    FlatAvoids(b.phones, (s: Sighting) => SightingEvents(Phone, Some(s)), RegisterSignal);
    FlatAvoids(b.currencies, (s: Sighting) => SightingEvents(Currency, Some(s)), RegisterSignal);
    SentencesHaveNoRegister(b);
    hide SentenceEvents, AddressRowEvents;
  }

  lemma SentencesHaveNoRegister(b: Bundle)
    ensures forall e :: e in Flat(b.sentences, (s: Sentence) => SentenceEvents(s)) ==> !RegisterSignal(e)
  {
    hide Flat, SentenceEvents;
    forall i | 0 <= i < |b.sentences| ensures forall e :: e in SentenceEvents(b.sentences[i]) ==> !RegisterSignal(e) {
      SentenceHasNoRegister(b.sentences[i]);
    }
    FlatAvoids(b.sentences, (s: Sentence) => SentenceEvents(s), RegisterSignal);
  }

  lemma RegisterRowsOnly(b: Bundle)
    ensures forall e :: e in AllRegisterEvents(b) && TierASignal(e) ==> RegisterSignal(e)
  {
    FlatHas(b.registers, (r: RegisterRow) => RegisterEvents(r));
  }

  lemma {:induction false} ZoneEvidenceKind(stream: seq<Event>, z: Zone)
    ensures forall e :: e in ZoneEvidence(stream, z) ==> e.kind == FreezoneEstablishment
  {
    if stream != [] {
      ZoneEvidenceKind(stream[..|stream| - 1], z);
    }
  }

  /** Every bundle shows its register rows before any other Tier A signal. */
  lemma BundleRegistersFirst(b: Bundle)
    ensures RegistersFirst(Closed(Events(b)))
  {
    RegisterRowsOnly(b);
    LaterHasNoRegister(b);
    var rows, stream := AllRegisterEvents(b), Closed(Events(b));
    ZoneEvidenceKind(Events(b), DIFC);
    ZoneEvidenceKind(Events(b), ADGM);
    hide AllRegisterEvents, LaterEvents, ZoneEvidence;
    forall j | |rows| <= j < |stream| ensures !RegisterSignal(stream[j]) {
    }
    forall i | 0 <= i < |rows| ensures stream[i] == rows[i] {
    }
  }

  /** What a bundle resolves to, in terms of everything it showed. */
  lemma ResolvedByEvidence(b: Bundle, before: (Serve, Serve) -> bool, c: Code)
    ensures var stream, r := Closed(Events(b)), OutcomeOf(Events(b), before);
            && (HasBound(r.bound, c) <==> Established(stream, c) || (c == EU && MemberEstablished(stream)))
            && (forall e :: e in r.bound && e.code == c && c != EU
                  ==> (e.confidence == RegisterBacked <==> HasRegister(stream, c)))
  {
    var stream := Closed(Events(b));
    BoundExactly(stream, c);
    BundleRegistersFirst(b);
    hide Closed, Events, BoundOf, Established, HasRegister, RegistersFirst, ServesOf, SubsOf;
    forall e | e in BoundOf(stream) && e.code == c && c != EU
      ensures e.confidence == RegisterBacked <==> HasRegister(stream, c)
    {
      GradedExactly(stream, e);
    }
  }

  // ----- marketing reach cannot attach law -----

  /** The stream without its Tier C signals, its regions and its advisory state mentions. */
  function Stripped(stream: seq<Event>): seq<Event> {
    if stream == [] then []
    else
      var last := stream[|stream| - 1];
      Stripped(stream[..|stream| - 1]) + if Advisory(last) then [] else [last]
  }

  lemma StrippedAppend(stream: seq<Event>, e: Event)
    ensures Advisory(e) ==> Stripped(stream + [e]) == Stripped(stream)
    ensures !Advisory(e) ==> Stripped(stream + [e]) == Stripped(stream) + [e]
  {
    assert (stream + [e])[..|stream|] == stream;
  }

  /** A view that ignores advisory events is the same without them. */
  lemma {:induction false} GatherStripped<T>(stream: seq<Event>, f: Event -> Option<T>)
    requires forall e :: Advisory(e) ==> f(e).None?
    ensures Gather(Stripped(stream), f) == Gather(stream, f)
  {
    if stream != [] {
      var init, last := stream[..|stream| - 1], stream[|stream| - 1];
      assert stream == init + [last];
      GatherStripped(init, f);
      StrippedAppend(init, last);
      GatherAppend(init, last, f);
      GatherAppend(Stripped(init), last, f);
    }
  }

  lemma OfStripped(stream: seq<Event>, c: Code)
    ensures Of(Stripped(stream), c, TierA) == Of(stream, c, TierA)
    ensures Of(Stripped(stream), c, TierB) == Of(stream, c, TierB)
  {
    GatherStripped(stream, OfTier(c, TierA));
    GatherStripped(stream, OfTier(c, TierB));
  }

  lemma ZonesStripped(stream: seq<Event>)
    ensures forall z :: ZoneEvidence(Stripped(stream), z) == ZoneEvidence(stream, z)
    ensures NationHits(Stripped(stream)) == NationHits(stream)
  {
    forall z ensures ZoneEvidence(Stripped(stream), z) == ZoneEvidence(stream, z) {
      GatherStripped(stream, (e: Event) => if e.ZoneSeen? && e.zone == z then Some(Found(e)) else None);
    }
    GatherStripped(stream, (e: Event) => if e.NationSeen? then Some(e.nation) else None);
  }

  lemma EstablishedStripped(stream: seq<Event>, c: Code)
    ensures Established(Stripped(stream), c) <==> Established(stream, c)
  {
    OfStripped(stream, c);
    AttachesExactly(stream, c);
    AttachesExactly(Stripped(stream), c);
    hide Of, Established, Stripped, OnePerKind;
  }

  lemma ClosedStripped(stream: seq<Event>)
    ensures Closed(Stripped(stream)) == Stripped(Closed(stream))
  {
    ZonesStripped(stream);
    ZoneEvidenceKind(stream, DIFC);
    ZoneEvidenceKind(stream, ADGM);
    var z := ActiveZone(stream);
    if z.Some? {
      StrippedAppend(stream, Signal(AE, ZoneEvidence(stream, z.value)[0]));
    }
  }

  /** The bound entry of the code carries Tier A evidence. */
  predicate ShowsEstablishment(bound: seq<Bound>, c: Code) {
    exists b :: b in bound && b.code == c && exists e :: e in b.evidence && TierOf(e.kind) == TierA
  }

  lemma EntryShows(stream: seq<Event>, c: Code)
    ensures (exists e :: e in Entry(c, Capped(stream, c)).evidence && TierOf(e.kind) == TierA) <==> Of(stream, c, TierA) != []
  {
    OfTierHolds(stream, c, TierA);
    OfTierHolds(stream, c, TierB);
    OfTierHolds(stream, c, TierC);
    OnePerKindKinds(Of(stream, c, TierB));
    var buckets := Capped(stream, c);
    var evidence := Entry(c, buckets).evidence;
    assert forall e :: e in evidence <==> e in buckets.a || e in buckets.b || e in buckets.c;
    hide Of, OnePerKind, Entry;
    if Of(stream, c, TierA) != [] {
      assert buckets.a[0] in evidence;
    }
  }

  lemma DerivedShows(stream: seq<Event>)
    requires MemberEstablished(stream)
    ensures exists e :: e in Derived(Members(Unsorted(stream))).evidence && TierOf(e.kind) == TierA
  {
    UnsortedMembers(stream);
    var d := Derived(Members(Unsorted(stream)));
    assert d.evidence[0] in d.evidence;
  }

  lemma ShowsExactly(stream: seq<Event>, c: Code)
    ensures ShowsEstablishment(BoundOf(stream), c)
       <==> Of(stream, c, TierA) != [] || (c == EU && !Established(stream, EU) && MemberEstablished(stream))
  {
    EntryShows(stream, c);
    EntryCode(c, Capped(stream, c));
    var entry, union := Entry(c, Capped(stream, c)), Derived(Members(Unsorted(stream)));
    BoundEntries(stream, entry);
    BoundEntries(stream, union);
    if MemberEstablished(stream) {
      DerivedShows(stream);
    }
    if Of(stream, c, TierA) != [] {
      AttachesExactly(stream, c);
    }
    hide BoundOf, Of, Capped, Entry, Established, MemberEstablished, Unsorted, Members;
    if b :| b in BoundOf(stream) && b.code == c && exists e :: e in b.evidence && TierOf(e.kind) == TierA {
      BoundEntries(stream, b);
    }
  }

  /** The state hits that can bind, in order. */
  lemma {:induction false} FirstObservableStripped(stream: seq<Event>, state: Text)
    ensures FirstHit(StateHits(Stripped(stream)), state, true) == FirstHit(StateHits(stream), state, true)
  {
    if stream != [] {
      var init, last := stream[..|stream| - 1], stream[|stream| - 1];
      assert stream == init + [last];
      FirstObservableStripped(init, state);
      StrippedAppend(init, last);
      OtherViews(init, last);
      OtherViews(Stripped(init), last);
      if last.StateSeen? {
        FirstHitAppend(StateHits(init), last.hit, state, true);
        FirstHitAppend(StateHits(Stripped(init)), last.hit, state, true);
      }
    }
  }

  /** The bound entries among the states are those with an observable hit. */
  lemma BoundStates(hits: seq<StateHit>, sub: Sub)
    ensures sub in StateSubs(hits) && sub.bound
       <==> sub.bound && FirstHit(hits, sub.code, true).Some? && sub == StateSub(FirstHit(hits, sub.code, true).value)
  {
    var order := Distinct(StatesOf(hits));
    FirstHitSome(hits, sub.code, true);
    FirstHitSome(hits, sub.code, false);
    StateSeenBefore(hits, sub.code);
    hide FirstHit, Distinct, StatesOf;
    if sub in StateSubs(hits) {
      var i :| 0 <= i < |order| && sub == ChosenSub(hits, order[i]);
      ChosenCode(hits, order[i]);
    }
    if FirstHit(hits, sub.code, true).Some? {
      var h := FirstHit(hits, sub.code, true).value;
      assert Picks(h, sub.code, false);
      var i :| 0 <= i < |order| && order[i] == sub.code;
      assert StateSubs(hits)[i] == ChosenSub(hits, sub.code) == StateSub(h);
    }
  }

  lemma ChosenCode(hits: seq<StateHit>, state: Text)
    ensures ChosenSub(hits, state).code == state
  {
    FirstHitSome(hits, state, true);
    FirstHitSome(hits, state, false);
  }

  predicate BindsSub(r: Outcome, sub: Sub) {
    sub in r.subs && sub.bound
  }

  /** Two outcomes attach the same law: the same bound codes, the same codes with establishment evidence,
      and the same bound sub-jurisdictions. */
  ghost predicate SameLaw(a: Outcome, b: Outcome) {
    && (a.abstained <==> b.abstained)
    && (forall c :: HasBound(a.bound, c) <==> HasBound(b.bound, c))
    && (forall c :: ShowsEstablishment(a.bound, c) <==> ShowsEstablishment(b.bound, c))
    && (forall sub :: BindsSub(a, sub) <==> BindsSub(b, sub))
  }

  lemma MembersStripped(stream: seq<Event>)
    ensures MemberEstablished(Stripped(stream)) <==> MemberEstablished(stream)
  {
    hide Established, Stripped;
    forall c ensures Established(Stripped(stream), c) <==> Established(stream, c) {
      EstablishedStripped(stream, c);
    }
  }

  lemma BoundStripped(stream: seq<Event>, c: Code)
    ensures HasBound(BoundOf(Stripped(stream)), c) <==> HasBound(BoundOf(stream), c)
    ensures ShowsEstablishment(BoundOf(Stripped(stream)), c) <==> ShowsEstablishment(BoundOf(stream), c)
  {
    MembersStripped(stream);
    EstablishedStripped(stream, c);
    EstablishedStripped(stream, EU);
    OfStripped(stream, c);
    hide BoundOf, Established, Stripped, MemberEstablished, Of, ShowsEstablishment, HasBound;
    BoundExactly(stream, c);
    BoundExactly(Stripped(stream), c);
    ShowsExactly(stream, c);
    ShowsExactly(Stripped(stream), c);
  }

  lemma SubsStripped(stream: seq<Event>, bound: seq<Bound>, other: seq<Bound>, sub: Sub)
    requires forall c :: HasBound(bound, c) <==> HasBound(other, c)
    ensures sub in SubsOf(stream, bound) && sub.bound <==> sub in SubsOf(Stripped(stream), other) && sub.bound
  {
    ZonesStripped(stream);
    FirstObservableStripped(stream, sub.code);
    BoundStates(StateHits(stream), sub);
    BoundStates(StateHits(Stripped(stream)), sub);
    hide HasBound, StateSubs, NationSubs, Stripped, StateHits, NationHits, ZoneEvidence, FirstHit, StateSub, ZoneMentions;
    assert ZoneSubs(stream) == ZoneSubs(Stripped(stream));
    hide ZoneSubs;
  }

  lemma NoneBound(bound: seq<Bound>)
    ensures bound == [] <==> forall c :: !HasBound(bound, c)
  {
    if bound != [] {
      assert HasBound(bound, bound[0].code);
    }
  }

  /** Deleting every Tier C signal, every region and every advisory state mention attaches the same law. */
  lemma MarketingChangesNothing(seen: seq<Event>, before: (Serve, Serve) -> bool, other: (Serve, Serve) -> bool)
    ensures SameLaw(OutcomeOf(seen, before), OutcomeOf(Stripped(seen), other))
  {
    ClosedStripped(seen);
    var stream := Closed(seen);
    var bound, bare := BoundOf(stream), BoundOf(Stripped(stream));
    hide Closed, Stripped, BoundOf, HasBound, ShowsEstablishment, SubsOf, ServesOf;
    forall c ensures HasBound(bare, c) <==> HasBound(bound, c)
             ensures ShowsEstablishment(bare, c) <==> ShowsEstablishment(bound, c)
    {
      BoundStripped(stream, c);
    }
    NoneBound(bound);
    NoneBound(bare);
    forall sub ensures sub in SubsOf(stream, bound) && sub.bound <==> sub in SubsOf(Stripped(stream), bare) && sub.bound {
      SubsStripped(stream, bound, bare, sub);
    }
  }
}
