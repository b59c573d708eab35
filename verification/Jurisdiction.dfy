/** facts/jurisdiction.js: what sentences and registers contribute, and which jurisdictions bind. */
module Jurisdiction {
  import opened Texts
  import opened Sorting
  import opened OrderedMaps
  import opened Evidence

  // ----- what a sentence contributes -----

  /** The countries and states named inside one "incorporated in" span. */
  datatype Incorporation = Incorporation(countries: seq<Code>, states: seq<Text>)
  datatype Authority = Authority(code: Code, zone: Option<Zone>)
  datatype Bar = Bar(state: Text, start: nat, end: nat)
  datatype FreezoneText = FreezoneText(zone: Zone, token: bool, address: bool)

  /** One sentence, with what the detection tables find in it. */
  datatype Sentence = Sentence(
    source: Text, text: Text, footer: bool,
    offersService: bool,
    incorporations: seq<Incorporation>,
    registeredOffice: bool,
    countries: seq<Code>,
    ukPostcode: Option<NationHit>,
    usCode: Option<Text>, usName: Option<Text>,
    irishPostcode: bool,
    authorityContext: bool, authorityNumber: bool, authorities: seq<Authority>,
    bars: seq<Bar>, barNumbers: seq<nat>,
    freezones: seq<FreezoneText>, establishmentVerb: bool,
    addressContext: bool, barAdmission: bool, namedState: Option<Text>,
    regions: seq<Text>)

  function Flat<T, U>(s: seq<T>, f: T -> seq<U>): seq<U> {
    if s == [] then [] else f(s[0]) + Flat(s[1..], f)
  }

  lemma {:induction false} FlatHas<T, U(!new)>(s: seq<T>, f: T -> seq<U>)
    ensures forall y :: y in Flat(s, f) <==> exists i :: 0 <= i < |s| && y in f(s[i])
  {
    if s != [] {
      FlatHas(s[1..], f);
      forall y ensures y in Flat(s, f) <==> exists i :: 0 <= i < |s| && y in f(s[i]) {
        if y in Flat(s[1..], f) {
          var i :| 0 <= i < |s[1..]| && y in f(s[1..][i]);
          assert s[i + 1] == s[1..][i];
        }
        if i :| 0 <= i < |s| && y in f(s[i]) {
          assert i == 0 || s[1..][i - 1] == s[i];
        }
      }
    }
  }

  function Seen(s: Sentence, code: Code, kind: Kind): Event {
    Signal(code, Evidence(kind, s.source, s.text))
  }

  function SeenState(s: Sentence, state: Text, basis: Basis): Event {
    StateSeen(StateHit(state, basis, s.source, s.text))
  }

  function IncorporationEvents(s: Sentence, span: Incorporation): seq<Event> {
    seq(|span.countries|, i requires 0 <= i < |span.countries| => Seen(s, span.countries[i], IncorporatedIn))
    + Flat(span.states, st => [SeenState(s, st, StateRegistration), Seen(s, US, IncorporatedIn)])
  }

  function OfficeCodes(s: Sentence): seq<Code> {
    if !s.registeredOffice then []
    else if s.countries != [] then s.countries
    else if s.ukPostcode.Some? then [UK]
    else if s.usCode.Some? then [US]
    else if s.irishPostcode then [IE]
    else []
  }

  function AuthorityEvents(s: Sentence, a: Authority): seq<Event> {
    if s.authorityContext && s.authorityNumber then
      [Seen(s, a.code, Authorisation)] + if a.zone.Some? then [ZoneSeen(a.zone.value, s.source, s.text)] else []
    else [Seen(s, a.code, AuthorityMention)]
  }

  /** The bar mention that most closely precedes a number at `at`. */
  function Nearest(bars: seq<Bar>, at: nat): (r: Option<Bar>)
    ensures r.Some? ==> r.value in bars && r.value.end <= at
    ensures forall b :: b in bars && b.end <= at ==> r.Some? && b.start <= r.value.start
  {
    if bars == [] then None
    else
      var init, last := bars[..|bars| - 1], bars[|bars| - 1];
      assert bars == init + [last];
      var best := Nearest(init, at);
      if last.end > at then best
      else if best.Some? && last.start <= best.value.start then best
      else Some(last)
  }

  predicate Numbered(s: Sentence, state: Text) {
    exists n :: n in s.barNumbers && Nearest(s.bars, n).Some? && Nearest(s.bars, n).value.state == state
  }

  function BarEvents(s: Sentence, b: Bar): seq<Event> {
    if Numbered(s, b.state) then [Seen(s, US, Authorisation), SeenState(s, b.state, BarAuthorisation)]
    else [Seen(s, US, AuthorityMention)]
  }

  function FreezoneEvents(s: Sentence, f: FreezoneText): seq<Event> {
    if f.address || (f.token && s.establishmentVerb) then [ZoneSeen(f.zone, s.source, s.text)] else []
  }

  function EstablishmentEvents(s: Sentence): seq<Event> {
    if s.offersService then []
    else
      Flat(s.incorporations, span => IncorporationEvents(s, span))
      + Flat(OfficeCodes(s), c => [Seen(s, c, RegisteredOffice)])
      + Flat(s.authorities, a => AuthorityEvents(s, a))
      + Flat(s.bars, b => BarEvents(s, b))
      + Flat(s.freezones, f => FreezoneEvents(s, f))
  }

  function UsAddressEvents(s: Sentence, state: Option<Text>): seq<Event> {
    if state.Some? then [Seen(s, US, Postcode), SeenState(s, state.value, OfficeAddress)] else []
  }

  function AddressEvents(s: Sentence): seq<Event> {
    UsAddressEvents(s, s.usCode) + UsAddressEvents(s, s.usName)
    + if s.addressContext || s.footer then
        (if s.ukPostcode.Some? then [Seen(s, UK, Postcode), NationSeen(s.ukPostcode.value)] else [])
        + (if s.irishPostcode then [Seen(s, IE, Postcode)] else [])
      else []
  }

  predicate TierASignal(e: Event) {
    e.Signal? && TierOf(e.evidence.kind) == TierA
  }

  /** The sentence itself gave Tier A evidence for the code. */
  predicate Contributed(s: Sentence, code: Code) {
    exists e :: e in EstablishmentEvents(s) && TierASignal(e) && e.code == code
  }

  function MarketingEvents(s: Sentence): seq<Event> {
    Flat(s.countries, c => if Contributed(s, c) then [] else [Seen(s, c, if s.barAdmission then BarAdmission else ProseMention)])
    + (if s.namedState.Some? then [SeenState(s, s.namedState.value, if s.barAdmission then BarProse else StateMention)] else [])
    + Flat(s.regions, r => [RegionSeen(r, s.source, s.text)])
  }

  function SentenceEvents(s: Sentence): seq<Event> {
    EstablishmentEvents(s) + AddressEvents(s) + MarketingEvents(s)
  }

  // ----- the whole bundle -----

  /** A register row: whether it names the entity and carries an identifier, and the country it speaks for. */
  datatype RegisterRow = RegisterRow(usable: bool, home: Option<Code>, postcode: Option<NationHit>, source: Text, quote: Text)

  /** A postal address in structured data: its country, and the state or nation read from it. */
  datatype Address = Address(country: Option<Code>, state: Option<Text>, nation: Option<NationHit>, source: Text, quote: Text)

  datatype Sighting = Sighting(code: Code, source: Text, quote: Text)

  datatype Bundle = Bundle(
    registers: seq<RegisterRow>, rdap: Option<Sighting>, domain: Option<Sighting>, addresses: seq<Address>,
    phones: seq<Sighting>, currencies: seq<Sighting>, sentences: seq<Sentence>)

  function RegisterEvents(r: RegisterRow): seq<Event> {
    if !r.usable || r.home.None? then []
    else
      [Signal(r.home.value, Evidence(Register, r.source, r.quote))]
      + if r.home.value == UK && r.postcode.Some? then [NationSeen(r.postcode.value)] else []
  }

  function AddressRowEvents(a: Address): seq<Event> {
    if a.country.None? then []
    else
      [Signal(a.country.value, Evidence(Postcode, a.source, a.quote))]
      + (if a.country.value == US && a.state.Some? then [StateSeen(StateHit(a.state.value, OfficeAddress, a.source, a.quote))] else [])
      + (if a.country.value == UK && a.nation.Some? then [NationSeen(a.nation.value)] else [])
  }

  function SightingEvents(kind: Kind, s: Option<Sighting>): seq<Event> {
    if s.Some? then [Signal(s.value.code, Evidence(kind, s.value.source, s.value.quote))] else []
  }

  function LaterEvents(b: Bundle): seq<Event> {
    SightingEvents(RdapCountry, b.rdap)
    + SightingEvents(CcTld, b.domain)
    + Flat(b.addresses, (a: Address) => AddressRowEvents(a))
    + Flat(b.phones, (s: Sighting) => SightingEvents(Phone, Some(s)))
    + Flat(b.currencies, (s: Sighting) => SightingEvents(Currency, Some(s)))
    + Flat(b.sentences, (s: Sentence) => SentenceEvents(s))
  }

  function AllRegisterEvents(b: Bundle): seq<Event> {
    Flat(b.registers, (r: RegisterRow) => RegisterEvents(r))
  }

  predicate RegisterSignal(e: Event) {
    e.Signal? && e.evidence.kind == Register
  }

  /** The stream shows its register rows before any other tiered signal. */
  ghost predicate RegistersFirst(stream: seq<Event>) {
    forall i, j :: 0 <= i < j < |stream| && RegisterSignal(stream[j]) && TierASignal(stream[i]) ==> RegisterSignal(stream[i])
  }

  /** A sentence that offers a service establishes nothing, whatever it names. */
  lemma ServiceOfferEstablishesNothing(s: Sentence)
    requires s.offersService
    ensures forall e :: e in SentenceEvents(s) ==> !TierASignal(e) && !e.ZoneSeen?
  {
    hide Contributed;
    MarketingIsTierC(s);
  }

  /** Marketing prose gives Tier C signals, advisory state mentions and regions, and nothing else. */
  predicate Advisory(e: Event) {
    match e
    case Signal(code, ev) => TierOf(ev.kind) == TierC
    case StateSeen(hit) => !Observable(hit.basis)
    case RegionSeen(_, _, _) => true
    case _ => false
  }

  lemma MarketingIsTierC(s: Sentence)
    ensures forall e :: e in MarketingEvents(s) ==> Advisory(e)
  {
    hide Contributed;
    FlatHas(s.countries, c => if Contributed(s, c) then [] else [Seen(s, c, if s.barAdmission then BarAdmission else ProseMention)]);
    FlatHas(s.regions, r => [RegionSeen(r, s.source, s.text)]);
  }

  // ----- which codes bind -----

  datatype Confidence = RegisterBacked | Corroborated

  datatype Bound = Bound(code: Code, evidence: seq<Evidence>, confidence: Confidence, score: nat)

  /** One Tier A signal, or two Tier B kinds. */
  predicate Attaches(b: Buckets) {
    |b.a| >= 1 || |KindsOf(b.b)| >= 2
  }

  function Entry(code: Code, b: Buckets): Bound {
    Bound(code, b.a + b.b + b.c,
          if HasKind(b.a, Register) then RegisterBacked else Corroborated,
          |b.a| * Weight(TierA) + |KindsOf(b.b)| * Weight(TierB) + Min(|b.c|, 3) * Weight(TierC))
  }

  function Direct(codes: seq<Code>, view: Code -> Buckets): seq<Bound> {
    if codes == [] then []
    else
      var last := codes[|codes| - 1];
      Direct(codes[..|codes| - 1], view) + if Attaches(view(last)) then [Entry(last, view(last))] else []
  }

  function Members(bound: seq<Bound>): seq<Bound> {
    if bound == [] then []
    else (if bound[0].code in EU_MEMBERS then [bound[0]] else []) + Members(bound[1..])
  }

  function MaxScore(bound: seq<Bound>): nat {
    if bound == [] then 0
    else if bound[0].score > MaxScore(bound[1..]) then bound[0].score else MaxScore(bound[1..])
  }

  /** A bound member state binds the union as well, with the best grade and score of its members. */
  function Derived(members: seq<Bound>): Bound {
    Bound(EU, seq(|members|, i => Evidence(EuMembership, [], [])),
          if exists m :: m in members && m.confidence == RegisterBacked then RegisterBacked else Corroborated,
          MaxScore(members))
  }

  function WithEu(bound: seq<Bound>): seq<Bound> {
    if Members(bound) != [] && !exists b :: b in bound && b.code == EU then bound + [Derived(Members(bound))] else bound
  }

  function ByScore(): (Bound, Bound) -> bool {
    (a: Bound, b: Bound) => a.score > b.score || (a.score == b.score && Rank(a.code) <= Rank(b.code))
  }

  function BoundOf(stream: seq<Event>): seq<Bound> {
    SortBy(ByScore(), WithEu(Direct(Distinct(SignalCodes(stream)), CappedView(stream))))
  }

  method BuildBound(s: State) returns (bound: seq<Bound>)
    requires s.Valid()
    ensures bound == BoundOf(s.stream)
  {
    bound := [];
    hide Capped, Distinct, SignalCodes, Attaches, Entry;
    for i := 0 to |s.codes|
      invariant bound == Direct(s.codes[..i], CappedView(s.stream))
    {
      var code := s.codes[i];
      assert s.codes[..i + 1][..i] == s.codes[..i];
      assert code in s.sig && s.sig[code] == CappedView(s.stream)(code);
      if Attaches(s.sig[code]) {
        bound := bound + [Entry(code, s.sig[code])];
      }
    }
    assert s.codes[..|s.codes|] == s.codes;
    bound := SortBy(ByScore(), WithEu(bound));
  }

  // ----- the capped form refines the uncapped stream -----

  predicate HasSignal(stream: seq<Event>, c: Code, tier: Tier) {
    exists e :: e in stream && e.Signal? && e.code == c && TierOf(e.evidence.kind) == tier
  }

  predicate HasRegister(stream: seq<Event>, c: Code) {
    exists e :: e in stream && RegisterSignal(e) && e.code == c
  }

  predicate TwoKinds(stream: seq<Event>, c: Code) {
    exists e, f :: e in stream && f in stream && Independent(e, f, c)
  }

  /** Two Tier B signals for the code, of different kinds. */
  predicate Independent(e: Event, f: Event, c: Code) {
    && e.Signal? && f.Signal? && e.code == c && f.code == c
    && TierOf(e.evidence.kind) == TierB && TierOf(f.evidence.kind) == TierB && e.evidence.kind != f.evidence.kind
  }

  /** The attach rule on the whole stream: one Tier A signal, or two Tier B signals of different kinds. */
  predicate Established(stream: seq<Event>, c: Code) {
    HasSignal(stream, c, TierA) || TwoKinds(stream, c)
  }

  lemma {:induction false} GatherHas<T(!new)>(stream: seq<Event>, f: Event -> Option<T>)
    ensures forall y :: y in Gather(stream, f) <==> exists e :: e in stream && f(e) == Some(y)
  {
    if stream != [] {
      var init, last := stream[..|stream| - 1], stream[|stream| - 1];
      GatherHas(init, f);
      GatherAppend(init, last, f);
      assert stream == init + [last];
      assert forall e :: e in stream <==> e in init || e == last;
    }
  }

  lemma OfHas(stream: seq<Event>, c: Code, tier: Tier, ev: Evidence)
    ensures ev in Of(stream, c, tier) <==> Signal(c, ev) in stream && TierOf(ev.kind) == tier
  {
    GatherHas(stream, OfTier(c, tier));
    if Signal(c, ev) in stream && TierOf(ev.kind) == tier {
      assert OfTier(c, tier)(Signal(c, ev)) == Some(ev);
    }
  }

  lemma TwoKindsCount(s: seq<Evidence>)
    requires forall i, j :: 0 <= i < j < |s| ==> s[i].kind != s[j].kind
    ensures |KindsOf(s)| >= 2 <==> KindsDiffer(s)
  {
    DistinctKindsCount(s);
    if |s| >= 2 {
      assert s[0] in s && s[1] in s && s[0].kind != s[1].kind;
    } else {
      assert forall e, f :: e in s && f in s ==> e == s[0] && f == s[0];
    }
  }

  /** Caps and the one-per-kind rule never change whether a code attaches. */
  lemma AttachesExactly(stream: seq<Event>, c: Code)
    ensures Attaches(Capped(stream, c)) <==> Established(stream, c)
  {
    var a, b := Of(stream, c, TierA), Of(stream, c, TierB);
    assert a != [] <==> HasSignal(stream, c, TierA) by {
      if a != [] {
        OfHas(stream, c, TierA, a[0]);
      }
      if HasSignal(stream, c, TierA) {
        var e :| e in stream && e.Signal? && e.code == c && TierOf(e.evidence.kind) == TierA;
        OfHas(stream, c, TierA, e.evidence);
      }
    }
    TwoKindsExactly(stream, c);
    hide OnePerKind, Of, HasSignal, TwoKinds, KindsOf;
  }

  lemma HeldKindsSeen(stream: seq<Event>, c: Code, e: Evidence, f: Evidence)
    requires e in OnePerKind(Of(stream, c, TierB)) && f in OnePerKind(Of(stream, c, TierB)) && e.kind != f.kind
    ensures TwoKinds(stream, c)
  {
    OnePerKindKinds(Of(stream, c, TierB));
    hide OnePerKind, Of;
    OfHas(stream, c, TierB, e);
    OfHas(stream, c, TierB, f);
    var x, y := Signal(c, e), Signal(c, f);
    assert x in stream && y in stream && Independent(x, y, c);
  }

  lemma SeenKindsHeld(stream: seq<Event>, c: Code, e: Evidence, f: Evidence)
    requires Signal(c, e) in stream && Signal(c, f) in stream
    requires TierOf(e.kind) == TierB && TierOf(f.kind) == TierB && e.kind != f.kind
    ensures KindsDiffer(OnePerKind(Of(stream, c, TierB)))
  {
    OnePerKindKinds(Of(stream, c, TierB));
    hide OnePerKind, Of;
    OfHas(stream, c, TierB, e);
    OfHas(stream, c, TierB, f);
    var all := Of(stream, c, TierB);
    assert HasKind(all, e.kind) && HasKind(all, f.kind);
    var held := OnePerKind(all);
    assert HasKind(held, e.kind) && HasKind(held, f.kind);
  }

  predicate KindsDiffer(s: seq<Evidence>) {
    exists e, f :: e in s && f in s && e.kind != f.kind
  }

  lemma TwoKindsExactly(stream: seq<Event>, c: Code)
    ensures |KindsOf(Capped(stream, c).b)| >= 2 <==> TwoKinds(stream, c)
  {
    var held := OnePerKind(Of(stream, c, TierB));
    OnePerKindKinds(Of(stream, c, TierB));
    TwoKindsCount(held);
    HeldExactly(stream, c);
  }

  lemma HeldExactly(stream: seq<Event>, c: Code)
    ensures KindsDiffer(OnePerKind(Of(stream, c, TierB))) <==> TwoKinds(stream, c)
  {
    var held := OnePerKind(Of(stream, c, TierB));
    hide OnePerKind, Of;
    if e, f :| e in held && f in held && e.kind != f.kind {
      HeldKindsSeen(stream, c, e, f);
    }
    if e, f :| e in stream && f in stream && Independent(e, f, c) {
      SeenKindsHeld(stream, c, e.evidence, f.evidence);
    }
  }

  predicate HasBound(bound: seq<Bound>, c: Code) {
    exists b :: b in bound && b.code == c
  }

  lemma {:induction false} DirectHas(codes: seq<Code>, view: Code -> Buckets)
    ensures forall b :: b in Direct(codes, view) <==> b.code in codes && Attaches(view(b.code)) && b == Entry(b.code, view(b.code))
  {
    if codes != [] {
      var init, last := codes[..|codes| - 1], codes[|codes| - 1];
      DirectHas(init, view);
      assert codes == init + [last];
      hide Attaches, Entry;
      assert Entry(last, view(last)).code == last by { EntryCode(last, view(last)); }
    }
  }

  lemma EntryCode(c: Code, b: Buckets)
    ensures Entry(c, b).code == c
  {
  }

  lemma {:induction false} DirectOnce(codes: seq<Code>, view: Code -> Buckets)
    requires forall i, j :: 0 <= i < j < |codes| ==> codes[i] != codes[j]
    ensures OneEach(Direct(codes, view))
  {
    if codes != [] {
      var init, last := codes[..|codes| - 1], codes[|codes| - 1];
      DirectOnce(init, view);
      DirectHas(init, view);
      EntryCode(last, view(last));
      hide Attaches, Entry;
    }
  }

  predicate OneEach(bound: seq<Bound>) {
    forall i, j :: 0 <= i < j < |bound| ==> bound[i].code != bound[j].code
  }

  lemma {:induction false} MembersHas(bound: seq<Bound>)
    ensures forall b :: b in Members(bound) <==> b in bound && b.code in EU_MEMBERS
  {
    if bound != [] {
      MembersHas(bound[1..]);
      assert forall b :: b in bound <==> b == bound[0] || b in bound[1..];
    }
  }

  /** The entry that the stream gives to a code before the union is derived. */
  function Unsorted(stream: seq<Event>): seq<Bound> {
    Direct(Distinct(SignalCodes(stream)), CappedView(stream))
  }

  /** Before the union is derived, exactly the established codes have an entry. */
  lemma DirectExactly(stream: seq<Event>, b: Bound)
    ensures b in Unsorted(stream) <==> Established(stream, b.code) && b == Entry(b.code, Capped(stream, b.code))
  {
    DirectHas(Distinct(SignalCodes(stream)), CappedView(stream));
    AttachesExactly(stream, b.code);
    if b.code !in SignalCodes(stream) {
      UnseenIsEmpty(stream, b.code);
      assert KindsOf([]) == {};
      assert !Attaches(EMPTY);
    }
    hide Attaches, Entry, Capped, Established, SignalCodes, Direct;
  }

  predicate MemberEstablished(stream: seq<Event>) {
    exists m :: m in EU_MEMBERS && Established(stream, m)
  }

  lemma SortedHas(bound: seq<Bound>)
    ensures forall b :: b in SortBy(ByScore(), bound) <==> b in bound
  {
    SortPermutes(ByScore(), bound);
    SameElements(SortBy(ByScore(), bound), bound);
  }

  lemma UnsortedMembers(stream: seq<Event>)
    ensures Members(Unsorted(stream)) != [] <==> MemberEstablished(stream)
    ensures forall b :: b in Members(Unsorted(stream)) <==>
              b.code in EU_MEMBERS && Established(stream, b.code) && b == Entry(b.code, Capped(stream, b.code))
  {
    var u := Unsorted(stream);
    MembersHas(u);
    hide Unsorted, Established, Entry, Capped, Members;
    forall b ensures b in u <==> Established(stream, b.code) && b == Entry(b.code, Capped(stream, b.code)) {
      DirectExactly(stream, b);
    }
    if Members(u) != [] {
      var b := Members(u)[0];
      assert b in Members(u);
    }
    if MemberEstablished(stream) {
      var m :| m in EU_MEMBERS && Established(stream, m);
      EntryCode(m, Capped(stream, m));
      assert Entry(m, Capped(stream, m)) in Members(u);
    }
  }

  /** Every entry of the result: an established code with what was kept for it, or the derived union. */
  lemma BoundEntries(stream: seq<Event>, b: Bound)
    ensures b in BoundOf(stream) <==>
      || (Established(stream, b.code) && b == Entry(b.code, Capped(stream, b.code)))
      || (MemberEstablished(stream) && !Established(stream, EU) && b == Derived(Members(Unsorted(stream))))
  {
    var u := Unsorted(stream);
    UnsortedMembers(stream);
    SortedHas(WithEu(u));
    DirectExactly(stream, b);
    var eu := Entry(EU, Capped(stream, EU));
    EntryCode(EU, Capped(stream, EU));
    DirectExactly(stream, eu);
    assert HasBound(u, EU) <==> Established(stream, EU) by {
      if x :| x in u && x.code == EU {
        DirectExactly(stream, x);
      }
    }
    hide Unsorted, Established, Entry, Capped, Members, Derived, SortBy;
  }

  /** A code is bound exactly when it is established, and the union also when a member state is. */
  lemma BoundExactly(stream: seq<Event>, c: Code)
    ensures HasBound(BoundOf(stream), c) <==> Established(stream, c) || (c == EU && MemberEstablished(stream))
  {
    hide BoundOf, Established, Entry, Capped, Members;
    if b :| b in BoundOf(stream) && b.code == c {
      BoundEntries(stream, b);
    }
    EntryCode(c, Capped(stream, c));
    BoundEntries(stream, Entry(c, Capped(stream, c)));
    BoundEntries(stream, Derived(Members(Unsorted(stream))));
  }

  /** Each code is bound at most once, and the list is in order of score, then of code. */
  lemma BoundOnce(stream: seq<Event>)
    ensures OneEach(BoundOf(stream))
    ensures Sorted(ByScore(), BoundOf(stream))
  {
    var w := WithEu(Unsorted(stream));
    DirectOnce(Distinct(SignalCodes(stream)), CappedView(stream));
    assert OneEach(w);
    SortSorts(ByScore(), w);
    SortPermutes(ByScore(), w);
    hide SortBy, Unsorted, WithEu;
    OneEachPermuted(w, SortBy(ByScore(), w));
  }

  lemma {:induction false} OneEachCount(s: seq<Bound>, b: Bound)
    requires OneEach(s)
    ensures b in s ==> multiset(s)[b] == 1
    ensures forall x :: x in s && b in s && x.code == b.code ==> x == b
  {
    if b in s {
      MultisetCount(s, b);
    }
  }

  lemma RepeatedCount<T>(s: seq<T>, i: nat, j: nat)
    requires i < j < |s| && s[i] == s[j]
    ensures multiset(s)[s[i]] >= 2
  {
    assert s == s[..i] + [s[i]] + s[i + 1..j] + [s[j]] + s[j + 1..];
  }

  lemma OneEachPermuted(s: seq<Bound>, t: seq<Bound>)
    requires OneEach(s) && multiset(s) == multiset(t)
    ensures OneEach(t)
  {
    SameElements(s, t);
    forall i, j | 0 <= i < j < |t| ensures t[i].code != t[j].code {
      OneEachCount(s, t[i]);
      OneEachCount(s, t[j]);
      if t[i] == t[j] {
        RepeatedCount(t, i, j);
      }
    }
  }

  /** With the registers first, the first Tier A signal of a code is a register row if any is. */
  lemma {:induction false} FirstIsRegister(stream: seq<Event>, c: Code)
    requires RegistersFirst(stream)
    ensures HasRegister(stream, c) <==> HasKind(Take(Of(stream, c, TierA), CAP_A), Register)
  {
    var all := Of(stream, c, TierA);
    if HasKind(Take(all, CAP_A), Register) {
      var e :| e in Take(all, CAP_A) && e.kind == Register;
      assert e in all;
      OfHas(stream, c, TierA, e);
      assert RegisterSignal(Signal(c, e));
    }
    if HasRegister(stream, c) {
      HeadIsRegister(stream, c);
      assert Take(all, CAP_A)[0] == all[0];
    }
  }

  lemma RegisterBefore(init: seq<Event>, last: Event, c: Code)
    requires RegistersFirst(init + [last]) && RegisterSignal(last) && Of(init, c, TierA) != []
    ensures HasRegister(init, c)
  {
    var first := Of(init, c, TierA)[0];
    OfHas(init, c, TierA, first);
    var i :| 0 <= i < |init| && init[i] == Signal(c, first);
    var stream := init + [last];
    assert stream[i] == init[i] && stream[|init|] == last;
    assert RegisterSignal(init[i]);
  }

  lemma {:induction false} HeadIsRegister(stream: seq<Event>, c: Code)
    requires RegistersFirst(stream) && HasRegister(stream, c)
    ensures Of(stream, c, TierA) != [] && Of(stream, c, TierA)[0].kind == Register
  {
    var init, last := stream[..|stream| - 1], stream[|stream| - 1];
    assert stream == init + [last];
    GatherAppend(init, last, OfTier(c, TierA));
    if HasRegister(init, c) {
      HeadIsRegister(init, c);
    } else {
      assert RegisterSignal(last) && last.code == c;
      if Of(init, c, TierA) != [] {
        RegisterBefore(init, last, c);
      }
    }
  }

  /** A code is graded 'register' exactly when a register row speaks for it, or for a member state. */
  lemma GradedExactly(stream: seq<Event>, b: Bound)
    requires RegistersFirst(stream) && b in BoundOf(stream)
    ensures Established(stream, b.code) ==> (b.confidence == RegisterBacked <==> HasRegister(stream, b.code))
    ensures !Established(stream, b.code) ==>
              b.code == EU && (b.confidence == RegisterBacked <==> exists m :: m in EU_MEMBERS && HasRegister(stream, m))
  {
    BoundEntries(stream, b);
    hide BoundOf;
    if Established(stream, b.code) {
      EntryGrade(stream, b.code);
    } else {
      assert b == Derived(Members(Unsorted(stream)));
      UnionGrade(stream);
    }
  }

  lemma EntryGrade(stream: seq<Event>, c: Code)
    requires RegistersFirst(stream)
    ensures Entry(c, Capped(stream, c)).confidence == RegisterBacked <==> HasRegister(stream, c)
  {
    FirstIsRegister(stream, c);
  }

  lemma RegisterEstablishes(stream: seq<Event>, c: Code)
    requires HasRegister(stream, c)
    ensures Established(stream, c)
  {
  }

  lemma UnionGrade(stream: seq<Event>)
    requires RegistersFirst(stream)
    ensures Derived(Members(Unsorted(stream))).confidence == RegisterBacked
       <==> exists m :: m in EU_MEMBERS && HasRegister(stream, m)
  {
    var members := Members(Unsorted(stream));
    UnsortedMembers(stream);
    hide Unsorted, Members, Established, Entry, Capped, HasRegister;
    if m :| m in members && m.confidence == RegisterBacked {
      EntryGrade(stream, m.code);
    }
    if c :| c in EU_MEMBERS && HasRegister(stream, c) {
      RegisterEstablishes(stream, c);
      EntryGrade(stream, c);
      EntryCode(c, Capped(stream, c));
      assert Entry(c, Capped(stream, c)) in members;
    }
  }
}
