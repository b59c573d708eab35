/** llm/router.js: which providers are asked, which of them sit on a jury, and what a jury decides. */
module Jury {
  import opened Texts
  import opened Sorting

  // ----- providers -----

  datatype Tier = Free | Paid

  /** A provider with the family and tier it declares, if any. */
  datatype Provider = Provider(name: Text, family: Option<Text>, tier: Option<Tier>)

  const FAMILY_ORDER: seq<Text> := [
    Ascii("cloudflare"), Ascii("groq"), Ascii("nim"), Ascii("gemini"), Ascii("deepseek"),
    Ascii("perplexity"), Ascii("openai"), Ascii("qwen"), Ascii("anthropic")]

  const PAID_FAMILIES: seq<Text> := FAMILY_ORDER[4..]

  /** The family as declared, spacing and all: what the ranking and the tier look at. */
  function Declared(p: Provider): Text {
    if p.family.Some? then p.family.value else []
  }

  /** The independence key: the declared family without surrounding space. */
  function FamilyOf(p: Provider): Text {
    TrimText(Declared(p))
  }

  function Position(s: seq<Text>, x: Text): nat {
    if s == [] || s[0] == x then 0 else 1 + Position(s[1..], x)
  }

  /** Unknown families rank last. */
  function FamilyRank(p: Provider): nat {
    Position(FAMILY_ORDER, Declared(p))
  }

  function TierRank(p: Provider): nat {
    var paid := if p.tier.Some? then p.tier.value == Paid else Declared(p) in PAID_FAMILIES;
    if paid then 1 else 0
  }

  datatype Indexed = Indexed(p: Provider, index: nat)

  /** Free before paid, then the family ranking, then the caller's order. */
  function FreeFirst(): (Indexed, Indexed) -> bool {
    (a: Indexed, b: Indexed) =>
      if TierRank(a.p) != TierRank(b.p) then TierRank(a.p) < TierRank(b.p)
      else if FamilyRank(a.p) != FamilyRank(b.p) then FamilyRank(a.p) < FamilyRank(b.p)
      else a.index <= b.index
  }

  function Number(list: seq<Provider>): seq<Indexed> {
    seq(|list|, i requires 0 <= i < |list| => Indexed(list[i], i))
  }

  function Unnumber(s: seq<Indexed>): seq<Provider> {
    seq(|s|, i requires 0 <= i < |s| => s[i].p)
  }

  function OrderProviders(list: seq<Provider>): seq<Provider> {
    Unnumber(SortBy(FreeFirst(), Number(list)))
  }

  lemma FreeFirstOrders(list: seq<Provider>)
    ensures TotalPreorder(FreeFirst())
    ensures Separates(FreeFirst(), Number(list))
  {
    hide TierRank, FamilyRank;
  }

  /** The order is the only arrangement of the providers that is free first, ranked, and stable. */
  lemma OrderUnique(list: seq<Provider>, other: seq<Indexed>)
    requires multiset(other) == multiset(Number(list)) && Sorted(FreeFirst(), other)
    ensures Unnumber(other) == OrderProviders(list)
  {
    var sorted := SortBy(FreeFirst(), Number(list));
    FreeFirstOrders(list);
    SortSorts(FreeFirst(), Number(list));
    SortPermutes(FreeFirst(), Number(list));
    SeparatesMultiset(FreeFirst(), Number(list), sorted);
    SortedUnique(FreeFirst(), sorted, other);
  }

  lemma OrderKeeps(list: seq<Provider>)
    ensures forall p :: p in OrderProviders(list) <==> p in list
  {
    var sorted := SortBy(FreeFirst(), Number(list));
    SortPermutes(FreeFirst(), Number(list));
    SameElements(sorted, Number(list));
    forall p ensures p in OrderProviders(list) <==> p in list {
      if p in list {
        var i :| 0 <= i < |list| && list[i] == p;
        assert Number(list)[i] in sorted;
        var j :| 0 <= j < |sorted| && sorted[j] == Number(list)[i];
        assert OrderProviders(list)[j] == p;
      }
      if p in OrderProviders(list) {
        var j :| 0 <= j < |sorted| && sorted[j].p == p;
        assert sorted[j] in Number(list);
      }
    }
  }

  // ----- one juror a family -----

  /** The first provider of each family that is named and not yet seen. */
  function Firsts(ordered: seq<Provider>, seen: set<Text>): seq<Provider> {
    if ordered == [] then []
    else
      var family := FamilyOf(ordered[0]);
      if family == [] || family in seen then Firsts(ordered[1..], seen)
      else [ordered[0]] + Firsts(ordered[1..], seen + {family})
  }

  lemma FirstsStep(ordered: seq<Provider>, i: nat, seen: set<Text>)
    requires i < |ordered|
    ensures var family := FamilyOf(ordered[i]);
            if family == [] || family in seen then Firsts(ordered[i..], seen) == Firsts(ordered[i + 1..], seen)
            else Firsts(ordered[i..], seen) == [ordered[i]] + Firsts(ordered[i + 1..], seen + {family})
  {
    assert ordered[i..][1..] == ordered[i + 1..];
  }

  method DistinctFamilyProviders(ordered: seq<Provider>, n: nat) returns (jurors: seq<Provider>)
    ensures jurors == Take(Firsts(ordered, {}), Max(n, 1))
  {
    var seen: set<Text> := {};
    jurors := [];
    hide Firsts, FamilyOf;
    assert ordered[0..] == ordered;
    for i := 0 to |ordered|
      invariant jurors + Firsts(ordered[i..], seen) == Firsts(ordered, {})
      invariant jurors == [] || |jurors| < n
    {
      var family := FamilyOf(ordered[i]);
      FirstsStep(ordered, i, seen);
      if family == [] || family in seen {
        continue;
      }
      ConcatAssociative(jurors, [ordered[i]], Firsts(ordered[i + 1..], seen + {family}));
      seen := seen + {family};
      jurors := jurors + [ordered[i]];
      if |jurors| >= n {
        return;
      }
    }
    assert Firsts(ordered[|ordered|..], seen) == [] by { NoFirsts(ordered, seen); }
  }

  lemma NoFirsts(ordered: seq<Provider>, seen: set<Text>)
    ensures Firsts(ordered[|ordered|..], seen) == []
  {
    assert ordered[|ordered|..] == [];
  }

  function FirstWith(ordered: seq<Provider>, family: Text): Option<Provider> {
    if ordered == [] then None
    else if FamilyOf(ordered[0]) == family then Some(ordered[0])
    else FirstWith(ordered[1..], family)
  }

  datatype Selection = Selection(jurors: seq<Provider>, anchorMissing: bool)

  /** The anchor, then the first provider of each other family. */
  function Anchored(ordered: seq<Provider>, n: nat, anchorFamily: Text): Selection {
    var family := TrimText(anchorFamily);
    var anchor := FirstWith(ordered, family);
    if family == [] || anchor.None? then Selection([], true)
    else Selection([anchor.value] + Take(Firsts(ordered, {family}), Max(n, 2) - 1), false)
  }

  lemma AnchoredTaken(ordered: seq<Provider>, n: nat, anchorFamily: Text, others: seq<Provider>, rest: seq<Provider>)
    requires TrimText(anchorFamily) != [] && FirstWith(ordered, TrimText(anchorFamily)).Some?
    requires others + rest == Firsts(ordered, {TrimText(anchorFamily)})
    requires |others| == Max(n, 2) - 1 || (rest == [] && |others| < Max(n, 2))
    ensures Anchored(ordered, n, anchorFamily) == Selection([FirstWith(ordered, TrimText(anchorFamily)).value] + others, false)
  {
    hide TrimText, FirstWith, Firsts;
    SplitConcat(others, rest);
    EmptyConcat(others);
  }

  method AnchoredDistinctFamilies(ordered: seq<Provider>, n: nat, anchorFamily: Text) returns (s: Selection)
    ensures s == Anchored(ordered, n, anchorFamily)
  {
    var family := TrimText(anchorFamily);
    var anchor := FirstWith(ordered, family);
    if family == [] || anchor.None? {
      return Selection([], true);
    }
    var seen, jurors := {family}, [anchor.value];
    ghost var others: seq<Provider> := [];
    hide Firsts, FamilyOf, FirstWith, TrimText, Take, Anchored;
    assert ordered[0..] == ordered;
    for i := 0 to |ordered|
      invariant jurors == [anchor.value] + others
      invariant others + Firsts(ordered[i..], seen) == Firsts(ordered, {family})
      invariant others == [] || |jurors| < n
    {
      var f := FamilyOf(ordered[i]);
      FirstsStep(ordered, i, seen);
      if f == [] || f in seen {
        continue;
      }
      ghost var later := Firsts(ordered[i + 1..], seen + {f});
      ConcatAssociative(others, [ordered[i]], later);
      ConcatAssociative([anchor.value], others, [ordered[i]]);
      seen := seen + {f};
      jurors, others := jurors + [ordered[i]], others + [ordered[i]];
      if |jurors| >= n {
        AnchoredTaken(ordered, n, anchorFamily, others, later);
        return Selection(jurors, false);
      }
    }
    NoFirsts(ordered, seen);
    AnchoredTaken(ordered, n, anchorFamily, others, []);
    s := Selection(jurors, false);
  }

  function Selected(providers: seq<Provider>, n: nat, anchor: Option<Text>): Selection {
    var ordered := OrderProviders(providers);
    if anchor.None? || anchor.value == [] then Selection(Take(Firsts(ordered, {}), Max(n, 1)), false)
    else Anchored(ordered, n, anchor.value)
  }

  method SelectJurors(providers: seq<Provider>, n: nat, anchor: Option<Text>) returns (s: Selection)
    ensures s == Selected(providers, n, anchor)
  {
    hide Firsts, Anchored;
    var ordered := OrderProviders(providers);
    if anchor.None? || anchor.value == [] {
      var jurors := DistinctFamilyProviders(ordered, n);
      s := Selection(jurors, false);
    } else {
      s := AnchoredDistinctFamilies(ordered, n, anchor.value);
    }
  }

  // ----- independence -----

  predicate Independent(jurors: seq<Provider>) {
    && (forall i :: 0 <= i < |jurors| ==> FamilyOf(jurors[i]) != [])
    && (forall i, j :: 0 <= i < j < |jurors| ==> FamilyOf(jurors[i]) != FamilyOf(jurors[j]))
  }

  /** The families that can be represented at all. */
  function FamiliesOf(providers: seq<Provider>): set<Text> {
    set p | p in providers && FamilyOf(p) != [] :: FamilyOf(p)
  }

  predicate Outside(jurors: seq<Provider>, seen: set<Text>) {
    forall p :: p in jurors ==> FamilyOf(p) !in seen
  }

  lemma ConsIndependent(head: Provider, others: seq<Provider>, seen: set<Text>)
    requires Independent(others) && Outside(others, seen + {FamilyOf(head)})
    requires FamilyOf(head) != [] && FamilyOf(head) !in seen
    ensures Independent([head] + others) && Outside([head] + others, seen)
  {
    hide FamilyOf;
    var all := [head] + others;
    assert forall j :: 1 <= j < |all| ==> all[j] == others[j - 1] && all[j] in others;
  }

  lemma {:induction false} FirstsIndependent(ordered: seq<Provider>, seen: set<Text>)
    ensures Independent(Firsts(ordered, seen)) && Outside(Firsts(ordered, seen), seen)
  {
    if ordered != [] {
      var family := FamilyOf(ordered[0]);
      hide FamilyOf, Independent, Outside;
      if family == [] || family in seen {
        FirstsIndependent(ordered[1..], seen);
      } else {
        FirstsIndependent(ordered[1..], seen + {family});
        ConsIndependent(ordered[0], Firsts(ordered[1..], seen + {family}), seen);
      }
    }
  }

  lemma FamiliesStep(ordered: seq<Provider>)
    requires ordered != []
    ensures FamilyOf(ordered[0]) == [] ==> FamiliesOf(ordered) == FamiliesOf(ordered[1..])
    ensures FamilyOf(ordered[0]) != [] ==> FamiliesOf(ordered) == FamiliesOf(ordered[1..]) + {FamilyOf(ordered[0])}
  {
    hide FamilyOf;
    assert forall p :: p in ordered <==> p == ordered[0] || p in ordered[1..];
  }

  lemma CountStep<T>(rest: set<T>, seen: set<T>, x: T)
    ensures x in seen ==> rest + {x} - seen == rest - seen
    ensures x !in seen ==> |rest + {x} - seen| == 1 + |rest - (seen + {x})|
  {
    if x !in seen {
      assert rest + {x} - seen == (rest - (seen + {x})) + {x};
    }
  }

  /** Every family not seen before gets its one place. */
  lemma {:induction false} FirstsCount(ordered: seq<Provider>, seen: set<Text>)
    ensures |Firsts(ordered, seen)| == |FamiliesOf(ordered) - seen|
  {
    if ordered != [] {
      hide FamilyOf, FamiliesOf;
      var family := FamilyOf(ordered[0]);
      FamiliesStep(ordered);
      CountStep(FamiliesOf(ordered[1..]), seen, family);
      if family == [] {
        FirstsCount(ordered[1..], seen);
      } else if family in seen {
        FirstsCount(ordered[1..], seen);
      } else {
        FirstsCount(ordered[1..], seen + {family});
      }
    } else {
      assert FamiliesOf(ordered) == {};
    }
  }

  /** Where a family first appears in the order. */
  function Place(ordered: seq<Provider>, family: Text): nat {
    if ordered == [] || FamilyOf(ordered[0]) == family then 0 else 1 + Place(ordered[1..], family)
  }

  /** Each juror is the first of its family, and the jurors follow the order. */
  predicate FollowsOrder(ordered: seq<Provider>, jurors: seq<Provider>) {
    && (forall i :: 0 <= i < |jurors| ==> FirstWith(ordered, FamilyOf(jurors[i])) == Some(jurors[i]))
    && (forall i, j :: 0 <= i < j < |jurors| ==> Place(ordered, FamilyOf(jurors[i])) < Place(ordered, FamilyOf(jurors[j])))
  }

  /** A provider put in front of the list moves the others one place back. */
  lemma FollowSkip(head: Provider, tail: seq<Provider>, rest: seq<Provider>)
    requires FollowsOrder(tail, rest) && Outside(rest, {FamilyOf(head)})
    ensures FollowsOrder([head] + tail, rest)
  {
    hide FamilyOf;
    var all := [head] + tail;
    assert all[0] == head && all[1..] == tail;
    forall i | 0 <= i < |rest|
      ensures FirstWith(all, FamilyOf(rest[i])) == Some(rest[i])
      ensures Place(all, FamilyOf(rest[i])) == 1 + Place(tail, FamilyOf(rest[i]))
    {
      assert rest[i] in rest;
    }
  }

  lemma FollowTake(head: Provider, tail: seq<Provider>, rest: seq<Provider>)
    requires FollowsOrder([head] + tail, rest) && Outside(rest, {FamilyOf(head)})
    ensures FollowsOrder([head] + tail, [head] + rest)
  {
    hide FamilyOf;
    var all, jurors := [head] + tail, [head] + rest;
    assert all[0] == head;
    assert Place(all, FamilyOf(head)) == 0 && FirstWith(all, FamilyOf(head)) == Some(head);
    forall j | 1 <= j < |jurors| ensures jurors[j] == rest[j - 1] && Place(all, FamilyOf(jurors[j])) > 0 {
      assert rest[j - 1] in rest;
    }
  }

  lemma OutsideLess(jurors: seq<Provider>, seen: set<Text>, family: Text)
    requires Outside(jurors, seen) && (family in seen)
    ensures Outside(jurors, {family})
  {
    hide FamilyOf;
  }

  lemma Unnamed(jurors: seq<Provider>)
    requires Independent(jurors)
    ensures Outside(jurors, {[]})
  {
    hide FamilyOf;
    forall p | p in jurors ensures FamilyOf(p) != [] {
      var i :| 0 <= i < |jurors| && jurors[i] == p;
    }
  }

  lemma {:induction false} FirstsFollow(ordered: seq<Provider>, seen: set<Text>)
    ensures FollowsOrder(ordered, Firsts(ordered, seen))
  {
    if ordered != [] {
      var head, tail, family := ordered[0], ordered[1..], FamilyOf(ordered[0]);
      hide FamilyOf, Independent, Outside, FollowsOrder;
      assert ordered == [head] + tail;
      if family == [] || family in seen {
        var rest := Firsts(tail, seen);
        FirstsFollow(tail, seen);
        FirstsIndependent(tail, seen);
        if family == [] {
          Unnamed(rest);
        } else {
          OutsideLess(rest, seen, family);
        }
        FollowSkip(head, tail, rest);
      } else {
        var rest := Firsts(tail, seen + {family});
        FirstsFollow(tail, seen + {family});
        FirstsIndependent(tail, seen + {family});
        OutsideLess(rest, seen + {family}, family);
        FollowSkip(head, tail, rest);
        FollowTake(head, tail, rest);
      }
    }
  }

  lemma FamiliesOrdered(providers: seq<Provider>)
    ensures FamiliesOf(OrderProviders(providers)) == FamiliesOf(providers)
  {
    OrderKeeps(providers);
    hide OrderProviders, FamilyOf;
  }

  lemma {:induction false} FirstWithHas(ordered: seq<Provider>, family: Text)
    ensures var p := FirstWith(ordered, family); p.Some? ==> p.value in ordered && FamilyOf(p.value) == family
    ensures FirstWith(ordered, family).None? ==> forall p :: p in ordered ==> FamilyOf(p) != family
  {
    if ordered != [] {
      hide FamilyOf;
      FirstWithHas(ordered[1..], family);
      assert forall p :: p in ordered <==> p == ordered[0] || p in ordered[1..];
    }
  }

  lemma TakePrefix(ordered: seq<Provider>, jurors: seq<Provider>, n: nat)
    requires Independent(jurors) && FollowsOrder(ordered, jurors)
    ensures Independent(Take(jurors, n)) && FollowsOrder(ordered, Take(jurors, n))
  {
    hide FamilyOf, FirstWith, Place;
  }

  /** Without an anchor: independent jurors in free-first order, as many as asked for or as there are families. */
  lemma PlainSelection(providers: seq<Provider>, n: nat)
    requires n >= 1
    ensures var s := Selected(providers, n, None);
            && !s.anchorMissing && Independent(s.jurors) && FollowsOrder(OrderProviders(providers), s.jurors)
            && |s.jurors| == Min(n, |FamiliesOf(providers)|)
  {
    hide FamilyOf, Firsts, OrderProviders, FamiliesOf, Independent, FollowsOrder, Outside;
    var ordered := OrderProviders(providers);
    FirstsIndependent(ordered, {});
    FirstsFollow(ordered, {});
    FirstsCount(ordered, {});
    FamiliesOrdered(providers);
    assert FamiliesOf(ordered) - {} == FamiliesOf(ordered);
    TakePrefix(ordered, Firsts(ordered, {}), Max(n, 1));
  }

  /** The anchor first, then independent jurors of other families in the order of the list. */
  ghost predicate AnchoredJury(ordered: seq<Provider>, jurors: seq<Provider>, family: Text, size: nat) {
    && Independent(jurors) && jurors != [] && FamilyOf(jurors[0]) == family
    && FollowsOrder(ordered, jurors[1..])
    && |jurors| == size
  }

  /** With an anchor: the anchor leads the jury, or no jury is convened; a jury of one still seats a second
      juror when there is another family. */
  lemma AnchoredSelection(providers: seq<Provider>, n: nat, anchor: Text)
    requires n >= 1 && anchor != []
    ensures var s := Selected(providers, n, Some(anchor));
            && (s.anchorMissing <==> TrimText(anchor) == [] || TrimText(anchor) !in FamiliesOf(providers))
            && (s.anchorMissing ==> s.jurors == [])
            && (!s.anchorMissing ==>
                  AnchoredJury(OrderProviders(providers), s.jurors, TrimText(anchor), Min(Max(n, 2), |FamiliesOf(providers)|)))
  {
    var ordered, family := OrderProviders(providers), TrimText(anchor);
    hide OrderProviders, FamiliesOf, FirstWith, Firsts, AnchoredJury, TrimText;
    FamiliesOrdered(providers);
    if family != [] {
      AnchorPresent(ordered, family);
      if family in FamiliesOf(ordered) {
        SeatAnchored(ordered, n, family);
      }
    }
  }

  lemma SeatAnchored(ordered: seq<Provider>, n: nat, family: Text)
    requires n >= 1 && family != [] && FirstWith(ordered, family).Some? && family in FamiliesOf(ordered)
    ensures AnchoredJury(ordered, [FirstWith(ordered, family).value] + Take(Firsts(ordered, {family}), Max(n, 2) - 1),
                         family, Min(Max(n, 2), |FamiliesOf(ordered)|))
  {
    hide FamilyOf, Firsts, FamiliesOf, FirstWith, Independent, FollowsOrder, Outside;
    var anchor, others := FirstWith(ordered, family).value, Firsts(ordered, {family});
    FirstWithHas(ordered, family);
    FirstsIndependent(ordered, {family});
    FirstsFollow(ordered, {family});
    FirstsCount(ordered, {family});
    RemoveOne(FamiliesOf(ordered), family);
    var seated := Take(others, Max(n, 2) - 1);
    TakePrefix(ordered, others, Max(n, 2) - 1);
    assert Outside(seated, {} + {family}) by { TakeOutside(others, Max(n, 2) - 1, family); }
    ConsIndependent(anchor, seated, {});
    assert ([anchor] + seated)[1..] == seated;
  }

  lemma TakeOutside(jurors: seq<Provider>, n: nat, family: Text)
    requires Outside(jurors, {family})
    ensures Outside(Take(jurors, n), {} + {family})
  {
    hide FamilyOf;
  }

  lemma AnchorPresent(ordered: seq<Provider>, family: Text)
    requires family != []
    ensures FirstWith(ordered, family).Some? <==> family in FamiliesOf(ordered)
  {
    FirstWithHas(ordered, family);
  }

  lemma RemoveOne<T>(s: set<T>, x: T)
    requires x in s
    ensures |s - {x}| == |s| - 1
  {
    assert s == (s - {x}) + {x};
  }

  // ----- the verdict -----

  /** What a juror's response comes to once the gate has passed it: an explicit veto, and a verdict. */
  datatype Ballot = Ballot(veto: bool, verdict: Option<Text>)

  datatype Vote = Vote(juror: Provider, ballot: Option<Ballot>)

  const VIOLATION: Text := Ascii("violation")

  /** The standing rule: an explicit veto, or a verdict other than 'violation', rejects. */
  predicate DefaultVeto(b: Ballot) {
    b.veto || (b.verdict.Some? && b.verdict.value != VIOLATION)
  }

  datatype Verdict =
    | BadCount
    | Immune
    | AnchorAbsent
    | TooFewFamilies
    | TooFewVotes(votes: seq<Vote>)
    | Vetoed(vetoer: Provider, votes: seq<Vote>)
    | Accepted(votes: seq<Vote>)

  /** What comes back from each attempt in turn: a ballot, or none when the call or the gate failed. A provider that
      is asked twice may answer differently. */
  type Answers = nat -> Option<Ballot>

  function Votes(jurors: seq<Provider>, answer: Answers): seq<Vote> {
    seq(|jurors|, i requires 0 <= i < |jurors| => Vote(jurors[i], answer(i)))
  }

  function Valid(votes: seq<Vote>): seq<Vote> {
    if votes == [] then [] else (if votes[0].ballot.Some? then [votes[0]] else []) + Valid(votes[1..])
  }

  /** The first juror to veto. */
  function FirstVeto(votes: seq<Vote>, vetoes: Ballot -> bool): Option<Provider> {
    if votes == [] then None
    else if votes[0].ballot.Some? && vetoes(votes[0].ballot.value) then Some(votes[0].juror)
    else FirstVeto(votes[1..], vetoes)
  }

  method CollectVotes(jurors: seq<Provider>, answer: Answers) returns (votes: seq<Vote>)
    ensures votes == Votes(jurors, answer)
  {
    votes := [];
    for i := 0 to |jurors|
      invariant |votes| == i && forall k :: 0 <= k < i ==> votes[k] == Vote(jurors[k], answer(k))
    {
      votes := votes + [Vote(jurors[i], answer(i))];
    }
  }

  function QuorumOf(curated: bool, providers: seq<Provider>, n: int, anchor: Option<Text>,
                    answer: Answers, vetoes: Ballot -> bool): Verdict {
    if n < 1 then BadCount
    else if curated then Immune
    else
      var s := Selected(providers, n, anchor);
      var votes := Votes(s.jurors, answer);
      if s.anchorMissing then AnchorAbsent
      else if |s.jurors| < n then TooFewFamilies
      else if |Valid(votes)| < n then TooFewVotes(votes)
      else
        var veto := FirstVeto(Valid(votes), vetoes);
        if veto.Some? then Vetoed(veto.value, votes) else Accepted(votes)
  }

  method Quorum(curated: bool, providers: seq<Provider>, n: int, anchor: Option<Text>,
                answer: Answers, vetoes: Ballot -> bool) returns (v: Verdict)
    ensures v == QuorumOf(curated, providers, n, anchor, answer, vetoes)
  {
    hide Selected, Valid, FirstVeto;
    if n < 1 {
      return BadCount;
    }
    if curated {
      return Immune;
    }
    var s := SelectJurors(providers, n, anchor);
    if s.anchorMissing {
      return AnchorAbsent;
    }
    if |s.jurors| < n {
      return TooFewFamilies;
    }
    var votes := CollectVotes(s.jurors, answer);
    var valid := Valid(votes);
    if |valid| < n {
      return TooFewVotes(votes);
    }
    var veto := FirstVeto(valid, vetoes);
    v := if veto.Some? then Vetoed(veto.value, votes) else Accepted(votes);
  }

  lemma {:induction false} ValidCount(votes: seq<Vote>)
    ensures |Valid(votes)| <= |votes|
    ensures |Valid(votes)| == |votes| <==> Valid(votes) == votes
    ensures |Valid(votes)| == |votes| <==> forall v :: v in votes ==> v.ballot.Some?
    ensures forall v :: v in Valid(votes) <==> v in votes && v.ballot.Some?
  {
    if votes != [] {
      ValidCount(votes[1..]);
      assert votes == [votes[0]] + votes[1..];
    }
  }

  lemma {:induction false} VetoExactly(votes: seq<Vote>, vetoes: Ballot -> bool)
    ensures FirstVeto(votes, vetoes).None? <==> forall v :: v in votes && v.ballot.Some? ==> !vetoes(v.ballot.value)
  {
    if votes != [] {
      VetoExactly(votes[1..], vetoes);
      assert forall v :: v in votes <==> v == votes[0] || v in votes[1..];
    }
  }

  predicate Anchors(anchor: Option<Text>) {
    anchor.Some? && anchor.value != []
  }

  /** Every juror answered past the gate, and none vetoed. */
  predicate Unanimous(jurors: seq<Provider>, answer: Answers, vetoes: Ballot -> bool) {
    forall i :: 0 <= i < |jurors| ==> answer(i).Some? && !vetoes(answer(i).value)
  }

  lemma VotesUnanimous(jurors: seq<Provider>, answer: Answers, vetoes: Ballot -> bool)
    ensures (|Valid(Votes(jurors, answer))| == |jurors| && FirstVeto(Valid(Votes(jurors, answer)), vetoes).None?)
       <==> Unanimous(jurors, answer, vetoes)
  {
    var votes := Votes(jurors, answer);
    ValidCount(votes);
    VetoExactly(Valid(votes), vetoes);
    hide Valid, FirstVeto;
    VotesCast(jurors, answer);
  }

  /** A jury of two or more, or one without an anchor, accepts exactly when n jurors of n families sit (the
      anchor's among them), every one of their responses passed the gate, and no one vetoed. */
  lemma AcceptExactly(curated: bool, providers: seq<Provider>, n: nat, anchor: Option<Text>,
                      answer: Answers, vetoes: Ballot -> bool)
    requires n >= 1 && (Anchors(anchor) ==> n >= 2)
    ensures var s := Selected(providers, n, anchor);
            QuorumOf(curated, providers, n, anchor, answer, vetoes).Accepted?
            <==> !curated && !s.anchorMissing && |s.jurors| == n && Unanimous(s.jurors, answer, vetoes)
  {
    var s := Selected(providers, n, anchor);
    JuryBound(providers, n, anchor);
    hide Selected, Valid, FirstVeto, Unanimous;
    VotesUnanimous(s.jurors, answer, vetoes);
    var votes := Votes(s.jurors, answer);
    ValidCount(votes);
  }

  lemma JuryBound(providers: seq<Provider>, n: nat, anchor: Option<Text>)
    requires n >= 1
    ensures |Selected(providers, n, anchor).jurors| <= if Anchors(anchor) then Max(n, 2) else n
  {
    hide Firsts, OrderProviders, FirstWith;
  }

  lemma SeatedAtLeast(providers: seq<Provider>, anchor: Text)
    requires anchor != []
    ensures var s := Selected(providers, 1, Some(anchor)); !s.anchorMissing ==> |s.jurors| >= 1
  {
    hide Firsts, OrderProviders, FirstWith;
  }

  /** Anchored with n = 1 the jury may have two members, and it accepts as soon as one of them answered past
      the gate and no answer vetoes: the anchor's own vote is not required. */
  lemma AnchoredOneExactly(providers: seq<Provider>, anchor: Text, answer: Answers, vetoes: Ballot -> bool)
    requires anchor != []
    ensures var s := Selected(providers, 1, Some(anchor));
            QuorumOf(false, providers, 1, Some(anchor), answer, vetoes).Accepted?
            <==> !s.anchorMissing && (exists i :: 0 <= i < |s.jurors| && answer(i).Some?)
                 && forall i :: 0 <= i < |s.jurors| && answer(i).Some? ==> !vetoes(answer(i).value)
  {
    var s := Selected(providers, 1, Some(anchor));
    hide Selected, Valid, FirstVeto, Votes;
    SeatedAtLeast(providers, anchor);
    SomeAnswered(s.jurors, answer);
    NoneVetoed(s.jurors, answer, vetoes);
  }

  lemma VotesCast(jurors: seq<Provider>, answer: Answers)
    ensures forall i :: 0 <= i < |jurors| ==> Vote(jurors[i], answer(i)) in Votes(jurors, answer)
    ensures forall v :: v in Votes(jurors, answer) ==> exists i :: 0 <= i < |jurors| && v == Vote(jurors[i], answer(i))
  {
    var votes := Votes(jurors, answer);
    forall i | 0 <= i < |jurors| ensures Vote(jurors[i], answer(i)) in votes {
      assert votes[i] == Vote(jurors[i], answer(i));
    }
  }

  lemma SomeAnswered(jurors: seq<Provider>, answer: Answers)
    ensures Valid(Votes(jurors, answer)) != [] <==> exists i :: 0 <= i < |jurors| && answer(i).Some?
  {
    VotesCast(jurors, answer);
    hide Votes;
    SomeValid(Votes(jurors, answer));
    if exists i :: 0 <= i < |jurors| && answer(i).Some? {
      var i :| 0 <= i < |jurors| && answer(i).Some?;
      assert Vote(jurors[i], answer(i)) in Votes(jurors, answer);
    }
  }

  lemma NoneVetoed(jurors: seq<Provider>, answer: Answers, vetoes: Ballot -> bool)
    ensures FirstVeto(Valid(Votes(jurors, answer)), vetoes).None?
       <==> forall i :: 0 <= i < |jurors| && answer(i).Some? ==> !vetoes(answer(i).value)
  {
    var votes := Votes(jurors, answer);
    VotesCast(jurors, answer);
    ValidCount(votes);
    VetoExactly(Valid(votes), vetoes);
    hide Votes, Valid, FirstVeto;
    if forall v :: v in Valid(votes) && v.ballot.Some? ==> !vetoes(v.ballot.value) {
      forall i | 0 <= i < |jurors| && answer(i).Some? ensures !vetoes(answer(i).value) {
        assert Vote(jurors[i], answer(i)) in votes;
      }
    }
  }

  lemma SomeValid(votes: seq<Vote>)
    ensures Valid(votes) != [] <==> exists v :: v in votes && v.ballot.Some?
  {
    ValidCount(votes);
    if Valid(votes) != [] {
      assert Valid(votes)[0] in Valid(votes);
    }
  }

  lemma {:induction false} FirstsFrom(ordered: seq<Provider>, seen: set<Text>)
    ensures forall p :: p in Firsts(ordered, seen) ==> p in ordered
  {
    if ordered != [] {
      hide FamilyOf;
      FirstsFrom(ordered[1..], seen);
      FirstsFrom(ordered[1..], seen + {FamilyOf(ordered[0])});
    }
  }

  lemma JurorsAreProviders(providers: seq<Provider>, n: nat, anchor: Option<Text>)
    ensures forall j :: j in Selected(providers, n, anchor).jurors ==> j in providers
  {
    hide OrderProviders, Firsts, FirstWith, TrimText, FamilyOf;
    var ordered := OrderProviders(providers);
    OrderKeeps(providers);
    if Anchors(anchor) {
      FirstsFrom(ordered, {TrimText(anchor.value)});
      FirstWithHas(ordered, TrimText(anchor.value));
    } else {
      FirstsFrom(ordered, {});
    }
  }

  /** So the anchored jury of one can accept on the other juror's word alone, the anchor having failed. */
  lemma AcceptedWithoutAnchor(a: Provider, b: Provider, anchor: Text, answer: Answers, vetoes: Ballot -> bool)
    requires anchor != [] && FamilyOf(a) == TrimText(anchor) != [] && FamilyOf(b) != [] && FamilyOf(b) != FamilyOf(a)
    requires answer(0).None? && answer(1).Some? && !vetoes(answer(1).value)
    ensures QuorumOf(false, [a, b], 1, Some(anchor), answer, vetoes).Accepted?
  {
    hide Selected, FamilyOf, TrimText, QuorumOf;
    PairSeated(a, b, anchor);
    AnchoredOneExactly([a, b], anchor, answer, vetoes);
  }

  lemma PairSeated(a: Provider, b: Provider, anchor: Text)
    requires anchor != [] && FamilyOf(a) == TrimText(anchor) != [] && FamilyOf(b) != [] && FamilyOf(b) != FamilyOf(a)
    ensures var s := Selected([a, b], 1, Some(anchor)); !s.anchorMissing && s.jurors == [a, b]
  {
    hide Selected, FamiliesOf, FamilyOf, TrimText;
    TwoFamilies(a, b);
    AnchoredSelection([a, b], 1, anchor);
    JurorsAreProviders([a, b], 1, Some(anchor));
    assert |{FamilyOf(a), FamilyOf(b)}| == 2;
    var jurors := Selected([a, b], 1, Some(anchor)).jurors;
    SecondIsOther(jurors, a, b);
  }

  lemma SecondIsOther(jurors: seq<Provider>, a: Provider, b: Provider)
    requires |jurors| == 2 && Independent(jurors) && FamilyOf(jurors[0]) == FamilyOf(a) != FamilyOf(b)
    requires forall j :: j in jurors ==> j in [a, b]
    ensures jurors == [a, b]
  {
    hide FamilyOf;
    var first, second := jurors[0], jurors[1];
    assert first in jurors && second in jurors;
    assert first in [a, b] && second in [a, b];
    assert first == a && second == b;
  }

  lemma TwoFamilies(a: Provider, b: Provider)
    requires FamilyOf(a) != [] && FamilyOf(b) != []
    ensures FamiliesOf([a, b]) == {FamilyOf(a), FamilyOf(b)}
  {
    hide FamilyOf;
    assert a in [a, b] && b in [a, b];
    assert forall p :: p in [a, b] ==> p == a || p == b;
  }

  lemma AnchorSeatedFirst(providers: seq<Provider>, n: nat, anchor: Text)
    requires n >= 1 && anchor != [] && !Selected(providers, n, Some(anchor)).anchorMissing
    ensures var jurors := Selected(providers, n, Some(anchor)).jurors;
            && jurors != [] && FamilyOf(jurors[0]) == TrimText(anchor) && Independent(jurors)
            && |jurors| == Min(Max(n, 2), |FamiliesOf(providers)|)
  {
    AnchoredSelection(providers, n, anchor);
    hide Selected, FamiliesOf, FamilyOf, TrimText;
  }

  /** Whatever comes back, an accepted finding has the anchor's answer behind it: the anchor sits first. */
  ghost predicate AnchorVouches(providers: seq<Provider>, n: nat, anchor: Text, vetoes: Ballot -> bool) {
    forall answer: Answers ::
      QuorumOf(false, providers, n, Some(anchor), answer, vetoes).Accepted? ==> answer(0).Some?
  }

  /** The anchor's own vote is required, over any providers, exactly when two or more jurors are asked for or the
      anchor's family is the only one. */
  lemma AnchorVouchesExactly(providers: seq<Provider>, n: nat, anchor: Text, vetoes: Ballot -> bool)
    requires n >= 1 && anchor != [] && !Selected(providers, n, Some(anchor)).anchorMissing
    requires exists b :: !vetoes(b)
    ensures Selected(providers, n, Some(anchor)).jurors != []
    ensures AnchorVouches(providers, n, anchor, vetoes)
       <==> n >= 2 || |FamiliesOf(providers)| == 1
  {
    hide FamilyOf, TrimText, FamiliesOf, Selected, QuorumOf, Independent, AnchorVouches;
    var jurors := Selected(providers, n, Some(anchor)).jurors;
    AnchorSeatedFirst(providers, n, anchor);
    if n >= 2 || |jurors| == 1 {
      AnchorMustAnswer(providers, n, anchor, vetoes);
    } else {
      SecondCanDecide(providers, anchor, vetoes);
    }
  }

  lemma AnchorMustAnswer(providers: seq<Provider>, n: nat, anchor: Text, vetoes: Ballot -> bool)
    requires n >= 1 && anchor != [] && Selected(providers, n, Some(anchor)).jurors != []
    requires n >= 2 || |Selected(providers, n, Some(anchor)).jurors| == 1
    ensures AnchorVouches(providers, n, anchor, vetoes)
  {
    hide Selected, QuorumOf;
    forall answer: Answers | QuorumOf(false, providers, n, Some(anchor), answer, vetoes).Accepted?
      ensures answer(0).Some?
    {
      if n >= 2 {
        AcceptExactly(false, providers, n, Some(anchor), answer, vetoes);
      } else {
        AnchoredOneExactly(providers, anchor, answer, vetoes);
      }
    }
  }

  lemma TwoDiffer(jurors: seq<Provider>)
    requires Independent(jurors) && |jurors| == 2
    ensures jurors[0] != jurors[1]
  {
  }

  lemma SecondCanDecide(providers: seq<Provider>, anchor: Text, vetoes: Ballot -> bool)
    requires anchor != [] && !Selected(providers, 1, Some(anchor)).anchorMissing
    requires |Selected(providers, 1, Some(anchor)).jurors| == 2 && Independent(Selected(providers, 1, Some(anchor)).jurors)
    requires exists b :: !vetoes(b)
    ensures !AnchorVouches(providers, 1, anchor, vetoes)
  {
    hide Selected, QuorumOf, FamilyOf, Independent;
    var jurors := Selected(providers, 1, Some(anchor)).jurors;
    TwoDiffer(jurors);
    var b :| !vetoes(b);
    var answer: Answers := i => if i == 1 then Some(b) else None;
    AnchoredOneExactly(providers, anchor, answer, vetoes);
    assert jurors[1] in jurors;
    assert answer(0).None? && answer(1).Some?;
  }

  // ----- the default veto -----

  /** The ballot says 'violation' and does not veto. */
  predicate Affirms(b: Ballot) {
    !b.veto && b.verdict == Some(VIOLATION)
  }

  /** On a jury that accepts under the default rule every juror affirmed the violation exactly when every juror gave
      a verdict: a ballot without one does not veto. */
  lemma AffirmedExactly(curated: bool, providers: seq<Provider>, n: nat, anchor: Option<Text>, answer: Answers)
    requires n >= 1 && (Anchors(anchor) ==> n >= 2)
    requires QuorumOf(curated, providers, n, anchor, answer, b => DefaultVeto(b)).Accepted?
    ensures var jurors := Selected(providers, n, anchor).jurors;
            && (forall i :: 0 <= i < |jurors| ==> answer(i).Some?)
            && ((forall i :: 0 <= i < |jurors| ==> Affirms(answer(i).value))
                <==> (forall i :: 0 <= i < |jurors| ==> answer(i).value.verdict.Some?))
  {
    AcceptExactly(curated, providers, n, anchor, answer, b => DefaultVeto(b));
    hide Selected, QuorumOf;
  }

  /** A full jury that gives no verdict at all accepts. */
  lemma AcceptedWithoutVerdict(providers: seq<Provider>, n: nat, anchor: Option<Text>)
    requires n >= 1 && (Anchors(anchor) ==> n >= 2)
    requires var s := Selected(providers, n, anchor); !s.anchorMissing && |s.jurors| == n
    ensures QuorumOf(false, providers, n, anchor, i => Some(Ballot(false, None)), b => DefaultVeto(b)).Accepted?
  {
    AcceptExactly(false, providers, n, anchor, i => Some(Ballot(false, None)), b => DefaultVeto(b));
    hide Selected, QuorumOf;
  }

  // ----- routing -----

  function With(ordered: seq<Provider>, family: Text, inside: bool): seq<Provider> {
    if ordered == [] then []
    else
      var last := ordered[|ordered| - 1];
      With(ordered[..|ordered| - 1], family, inside) + if (FamilyOf(last) == family) == inside then [last] else []
  }

  /** The providers of the anchor's family first, both parts in their old order. */
  function Hoisted(ordered: seq<Provider>, anchor: Option<Text>): seq<Provider> {
    var family := if anchor.Some? then TrimText(anchor.value) else [];
    if family == [] then ordered else With(ordered, family, true) + With(ordered, family, false)
  }

  method HoistFamilyFirst(ordered: seq<Provider>, anchor: Option<Text>) returns (r: seq<Provider>)
    ensures r == Hoisted(ordered, anchor)
  {
    hide FamilyOf, TrimText;
    var family := if anchor.Some? then TrimText(anchor.value) else [];
    if family == [] {
      return ordered;
    }
    var front: seq<Provider>, rest: seq<Provider> := [], [];
    for i := 0 to |ordered|
      invariant front == With(ordered[..i], family, true) && rest == With(ordered[..i], family, false)
    {
      assert ordered[..i + 1][..i] == ordered[..i];
      if FamilyOf(ordered[i]) == family {
        front := front + [ordered[i]];
      } else {
        rest := rest + [ordered[i]];
      }
    }
    assert ordered[..|ordered|] == ordered;
    r := front + rest;
  }

  lemma {:induction false} WithHas(ordered: seq<Provider>, family: Text, inside: bool)
    ensures forall p :: p in With(ordered, family, inside) <==> p in ordered && ((FamilyOf(p) == family) == inside)
  {
    if ordered != [] {
      var init, last := ordered[..|ordered| - 1], ordered[|ordered| - 1];
      hide FamilyOf;
      WithHas(init, family, inside);
      assert ordered == init + [last];
    }
  }

  /** Hoisting keeps the providers and puts the anchor's family in front of all others. */
  lemma HoistExactly(ordered: seq<Provider>, anchor: Text, i: nat, j: nat)
    requires TrimText(anchor) != []
    ensures var h := Hoisted(ordered, Some(anchor));
            && (forall p :: p in h <==> p in ordered)
            && (i < |h| && j < |h| && FamilyOf(h[i]) == TrimText(anchor) && FamilyOf(h[j]) != TrimText(anchor) ==> i < j)
  {
    var family := TrimText(anchor);
    WithHas(ordered, family, true);
    WithHas(ordered, family, false);
    hide FamilyOf, TrimText, With;
    var front, rest := With(ordered, family, true), With(ordered, family, false);
    var h := front + rest;
    if i < |h| && j < |h| {
      assert i < |front| ==> h[i] in front;
      assert i >= |front| ==> h[i] in rest;
      assert j < |front| ==> h[j] in front;
    }
  }

  datatype Routed = NoProviders | Exhausted | Answered(provider: Provider, ballot: Ballot, attempts: nat)

  /** One attempt each, in order; the first answer that passes the gate wins. */
  method Route(providers: seq<Provider>, anchor: Option<Text>, answer: Answers) returns (r: Routed)
    ensures var order := Hoisted(OrderProviders(providers), anchor);
            match r
            case NoProviders => order == []
            case Exhausted => order != [] && forall k :: 0 <= k < |order| ==> answer(k).None?
            case Answered(p, ballot, n) =>
              1 <= n <= |order| && order[n - 1] == p && answer(n - 1) == Some(ballot) && forall k :: 0 <= k < n - 1 ==> answer(k).None?
  {
    hide OrderProviders, Hoisted;
    var order := HoistFamilyFirst(OrderProviders(providers), anchor);
    if order == [] {
      return NoProviders;
    }
    for i := 0 to |order|
      invariant forall k :: 0 <= k < i ==> answer(k).None?
    {
      var outcome := answer(i);
      if outcome.Some? {
        return Answered(order[i], outcome.value, i + 1);
      }
    }
    r := Exhausted;
  }
}
