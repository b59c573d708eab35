/** facts/sector.js: the family walk over the parent table, and which sector the text evidence selects. */
module Sector {
  import opened Texts
  import opened Sorting

  // ----- the parent table -----

  /** Each sector with the parent it declares, if any. Nothing forbids a cycle. */
  type Table = map<Text, Option<Text>>

  /** The declared parent, when it is itself a sector of the table. */
  function Next(tree: Table, id: Text): Option<Text> {
    if id in tree && tree[id].Some? && tree[id].value != [] && tree[id].value in tree then tree[id] else None
  }

  /** Where `n` steps up lead. */
  function Up(tree: Table, id: Text, n: nat): Option<Text>
    decreases n
  {
    if n == 0 then Some(id)
    else if Next(tree, id).None? then None
    else Up(tree, Next(tree, id).value, n - 1)
  }

  lemma Shrinks(tree: Table, seen: set<Text>, id: Text)
    requires id in tree && id !in seen
    ensures |tree.Keys - (seen + {id})| < |tree.Keys - seen|
  {
    assert tree.Keys - seen == (tree.Keys - (seen + {id})) + {id};
  }

  /** The walk upwards that stops at a root or at the first sector met twice. */
  function Walk(tree: Table, id: Text, seen: set<Text>): Text
    decreases |tree.Keys - seen|
  {
    if Next(tree, id).None? || id in seen then id
    else
      Shrinks(tree, seen, id);
      Walk(tree, Next(tree, id).value, seen + {id})
  }

  function Family(tree: Table, sector: Text): Option<Text> {
    var id := if sector == [] then sector else Walk(tree, sector, {});
    if id in tree then Some(id) else if sector != [] then Some(sector) else None
  }

  method FamilyOf(tree: Table, sector: Text) returns (family: Option<Text>)
    ensures family == Family(tree, sector)
  {
    var id, seen: set<Text> := sector, {};
    while id != [] && Next(tree, id).Some? && id !in seen
      invariant sector == [] ==> id == sector
      invariant sector != [] ==> id != [] && Walk(tree, id, seen) == Walk(tree, sector, {})
      decreases |tree.Keys - seen|
    {
      Shrinks(tree, seen, id);
      seen := seen + {id};
      id := Next(tree, id).value;
    }
    family := if id in tree then Some(id) else if sector != [] then Some(sector) else None;
  }

  /** Nothing lies above a root, so the number of steps to it is unique. */
  lemma {:induction false} NothingAboveRoot(tree: Table, id: Text, n: nat, m: nat, root: Text)
    requires Up(tree, id, n) == Some(root) && Next(tree, root).None? && m > n
    ensures Up(tree, id, m).None?
    decreases n
  {
    if n > 0 {
      NothingAboveRoot(tree, Next(tree, id).value, n - 1, m - 1, root);
    }
  }

  ghost predicate Below(tree: Table, seen: set<Text>, root: Text, n: nat) {
    forall x :: x in seen ==> exists m: nat :: m > n && Up(tree, x, m) == Some(root)
  }

  lemma {:induction false} WalkReachesRoot(tree: Table, id: Text, seen: set<Text>, n: nat, root: Text)
    requires Up(tree, id, n) == Some(root) && Next(tree, root).None?
    requires Below(tree, seen, root, n)
    ensures Walk(tree, id, seen) == root
    decreases n
  {
    if n > 0 {
      if id in seen {
        var m: nat :| m > n && Up(tree, id, m) == Some(root);
        NothingAboveRoot(tree, id, n, m, root);
      } else {
        var next := Next(tree, id).value;
        forall x | x in seen + {id} ensures exists m: nat :: m > n - 1 && Up(tree, x, m) == Some(root) {
          if x == id {
            assert n > n - 1 && Up(tree, x, n) == Some(root);
          }
        }
        WalkReachesRoot(tree, next, seen + {id}, n - 1, root);
      }
    }
  }

  /** Whenever going up reaches a root, that root is the family. */
  lemma FamilyIsRoot(tree: Table, sector: Text, n: nat, root: Text)
    requires sector != [] && Up(tree, sector, n) == Some(root) && Next(tree, root).None?
    ensures Family(tree, sector) == Some(root)
  {
    WalkReachesRoot(tree, sector, {}, n, root);
    InTable(tree, sector, n);
  }

  lemma {:induction false} InTable(tree: Table, id: Text, n: nat)
    ensures n > 0 && Up(tree, id, n).Some? ==> Up(tree, id, n).value in tree
    decreases n
  {
    if n > 0 && Next(tree, id).Some? {
      InTable(tree, Next(tree, id).value, n - 1);
    }
  }

  // ----- cycles -----

  /** Distinct sectors, each the parent of the one before, with a parent for the last as well. */
  ghost predicate Path(tree: Table, p: seq<Text>) {
    && (forall i, j :: 0 <= i < j < |p| ==> p[i] != p[j])
    && (forall i :: 0 <= i < |p| ==> Next(tree, p[i]).Some?)
    && (forall i :: 0 <= i < |p| - 1 ==> Next(tree, p[i]) == Some(p[i + 1]))
  }

  /** A path that closes on its own start. */
  ghost predicate Lap(tree: Table, p: seq<Text>) {
    p != [] && Path(tree, p) && Next(tree, p[|p| - 1]) == Some(p[0])
  }

  function Elements(p: seq<Text>): set<Text> {
    set x | x in p
  }

  /** Walking round a lap comes back to where it began. */
  lemma {:induction false} WalkRoundLap(tree: Table, p: seq<Text>, m: nat)
    requires Lap(tree, p) && m < |p|
    ensures Walk(tree, p[m], Elements(p[..m])) == p[0]
    decreases |p| - m
  {
    assert Elements(p[..m]) + {p[m]} == Elements(p[..m + 1]) by {
      assert p[..m + 1] == p[..m] + [p[m]];
    }
    if m + 1 < |p| {
      WalkRoundLap(tree, p, m + 1);
    } else {
      assert p[..m + 1] == p;
    }
  }

  lemma {:induction false} LapReturns(tree: Table, p: seq<Text>, m: nat)
    requires Lap(tree, p) && m < |p|
    ensures Up(tree, p[m], |p| - m) == Some(p[0])
    decreases |p| - m
  {
    if m + 1 < |p| {
      LapReturns(tree, p, m + 1);
    }
  }

  ghost predicate OnLap(tree: Table, id: Text) {
    exists q :: Lap(tree, q) && q[0] == id
  }

  lemma PathCloses(tree: Table, p: seq<Text>, id: Text)
    requires Path(tree, p) && id in p && Next(tree, p[|p| - 1]) == Some(id)
    ensures OnLap(tree, id)
  {
    var j :| 0 <= j < |p| && p[j] == id;
    var q := p[j..];
    assert Lap(tree, q) && q[0] == id;
  }

  /** The walk so far, and the sector it stands on. */
  ghost predicate Trail(tree: Table, p: seq<Text>, id: Text) {
    Path(tree, p) && (p != [] ==> Next(tree, p[|p| - 1]) == Some(id))
  }

  lemma Longer(tree: Table, p: seq<Text>, id: Text)
    requires Trail(tree, p, id) && id !in p && Next(tree, id).Some?
    ensures Trail(tree, p + [id], Next(tree, id).value)
    ensures Elements(p + [id]) == Elements(p) + {id}
    ensures id !in Elements(p) && id in tree
  {
  }

  /** The walk ends at a root, or at the start of a lap. */
  lemma {:induction false} WalkEnds(tree: Table, p: seq<Text>, id: Text)
    requires Trail(tree, p, id)
    ensures Next(tree, Walk(tree, id, Elements(p))).None? || OnLap(tree, Walk(tree, id, Elements(p)))
    decreases |tree.Keys - Elements(p)|
  {
    if Next(tree, id).Some? {
      if id in p {
        PathCloses(tree, p, id);
      } else {
        Longer(tree, p, id);
        Shrinks(tree, Elements(p), id);
        hide Trail, Elements, OnLap;
        WalkEnds(tree, p + [id], Next(tree, id).value);
      }
    }
  }

  /** The family of a family is itself, in any table. */
  lemma FamilyIdempotent(tree: Table, sector: Text)
    ensures Family(tree, sector).Some? ==> Family(tree, Family(tree, sector).value) == Family(tree, sector)
  {
    WalkEnds(tree, [], sector);
    assert Elements([]) == {};
    var r := Walk(tree, sector, {});
    if OnLap(tree, r) {
      var q :| Lap(tree, q) && q[0] == r;
      WalkRoundLap(tree, q, 0);
      assert q[..0] == [];
    }
  }

  ghost predicate Acyclic(tree: Table) {
    forall id: Text, n: nat :: n > 0 ==> Up(tree, id, n) != Some(id)
  }

  lemma {:induction false} WalkIsReached(tree: Table, id: Text, seen: set<Text>)
    ensures exists n: nat :: Up(tree, id, n) == Some(Walk(tree, id, seen))
    decreases |tree.Keys - seen|
  {
    if Next(tree, id).None? || id in seen {
      assert Up(tree, id, 0) == Some(id);
    } else {
      var next := Next(tree, id).value;
      Shrinks(tree, seen, id);
      WalkIsReached(tree, next, seen + {id});
      var n: nat :| Up(tree, next, n) == Some(Walk(tree, next, seen + {id}));
      assert Up(tree, id, n + 1) == Some(Walk(tree, id, seen));
    }
  }

  /** Without cycles the family is the one root above the sector. */
  lemma AcyclicFamily(tree: Table, sector: Text)
    requires Acyclic(tree) && sector != []
    ensures Family(tree, sector).Some?
    ensures var r := Family(tree, sector).value; Next(tree, r).None? && exists n: nat :: Up(tree, sector, n) == Some(r)
  {
    WalkIsReached(tree, sector, {});
    var n: nat :| Up(tree, sector, n) == Some(Walk(tree, sector, {}));
    InTable(tree, sector, n);
    WalkEnds(tree, [], sector);
    assert Elements([]) == {};
    var r := Walk(tree, sector, {});
    if Next(tree, r).Some? {
      var q :| Lap(tree, q) && q[0] == r;
      LapReturns(tree, q, 0);
    }
  }

  /** How many steps lie above a sector: the second walk of the source, which marks parents as seen. */
  function DepthFrom(tree: Table, id: Text, seen: set<Text>): nat
    decreases |tree.Keys - seen|
  {
    var next := Next(tree, id);
    if next.None? || next.value in seen then 0
    else
      Shrinks(tree, seen, next.value);
      1 + DepthFrom(tree, next.value, seen + {next.value})
  }

  method DepthOf(tree: Table, sector: Text) returns (depth: nat)
    ensures depth == DepthFrom(tree, sector, {sector})
  {
    depth := 0;
    var cur, seen := sector, {sector};
    while Climbs(tree, cur, seen)
      invariant depth + DepthFrom(tree, cur, seen) == DepthFrom(tree, sector, {sector})
      decreases |tree.Keys - seen|
    {
      DepthStep(tree, cur, seen);
      hide DepthFrom, Next;
      cur := Next(tree, cur).value;
      seen := seen + {cur};
      depth := depth + 1;
    }
  }

  predicate Climbs(tree: Table, cur: Text, seen: set<Text>) {
    Next(tree, cur).Some? && Next(tree, cur).value !in seen
  }

  lemma DepthStep(tree: Table, cur: Text, seen: set<Text>)
    requires Climbs(tree, cur, seen)
    ensures var parent := Next(tree, cur).value;
            && DepthFrom(tree, cur, seen) == 1 + DepthFrom(tree, parent, seen + {parent})
            && |tree.Keys - (seen + {parent})| < |tree.Keys - seen|
  {
    Shrinks(tree, seen, Next(tree, cur).value);
  }

  ghost predicate AtLeastBelow(tree: Table, x: Text, root: Text, n: nat) {
    exists m: nat :: m >= n && Up(tree, x, m) == Some(root)
  }

  /** The depth is the number of steps to the root, when there is one. */
  lemma {:induction false} DepthIsDistance(tree: Table, id: Text, seen: set<Text>, n: nat, root: Text)
    requires Up(tree, id, n) == Some(root) && Next(tree, root).None?
    requires forall x :: x in seen ==> AtLeastBelow(tree, x, root, n)
    ensures DepthFrom(tree, id, seen) == n
    decreases n
  {
    if n > 0 {
      var next := Next(tree, id).value;
      if next in seen {
        var m: nat :| m >= n && Up(tree, next, m) == Some(root);
        NothingAboveRoot(tree, next, n - 1, m, root);
      } else {
        forall x | x in seen + {next} ensures AtLeastBelow(tree, x, root, n - 1) {
          assert x in seen ==> AtLeastBelow(tree, x, root, n);
          assert Up(tree, next, n - 1) == Some(root);
        }
        DepthIsDistance(tree, next, seen + {next}, n - 1, root);
      }
    }
  }

  // ----- choosing from the text -----

  /** A sector with at least one cue, its family and depth, and how many distinct cues it shows. */
  datatype Candidate = Candidate(sector: Text, family: Text, depth: nat, distinct: nat)

  const MIN_CUES: nat := 2
  const DOMINANCE_MIN_CUES: nat := 7

  function ByCues(): (Candidate, Candidate) -> bool {
    (a: Candidate, b: Candidate) => a.distinct > b.distinct || (a.distinct == b.distinct && a.depth >= b.depth)
  }

  function Ranked(found: seq<Candidate>): seq<Candidate> {
    SortBy(ByCues(), found)
  }

  function FirstRival(cs: seq<Candidate>, family: Text): (r: Option<Candidate>)
    ensures r.Some? ==> r.value in cs && r.value.family != family
    ensures r.None? ==> forall c :: c in cs ==> c.family == family
  {
    if cs == [] then None
    else if cs[0].family != family then Some(cs[0])
    else FirstRival(cs[1..], family)
  }

  function FirstOwn(cs: seq<Candidate>, selfId: set<Text>): (r: Option<Candidate>)
    ensures r.Some? ==> r.value in cs && r.value.family in selfId && r.value.distinct >= MIN_CUES
    ensures r.None? ==> forall c :: c in cs && c.family in selfId ==> c.distinct < MIN_CUES
  {
    if cs == [] then None
    else if cs[0].family in selfId && cs[0].distinct >= MIN_CUES then Some(cs[0])
    else FirstOwn(cs[1..], selfId)
  }

  /** The other families that reach the floor on their own. */
  function RivalFamilies(cs: seq<Candidate>, family: Text): set<Text> {
    set c | c in cs && c.family != family && c.distinct >= MIN_CUES :: c.family
  }

  /** At least seven cues, and at least one and a half times the rival's. */
  predicate Dominates(top: nat, rival: nat) {
    top >= DOMINANCE_MIN_CUES && 2 * top >= 3 * rival
  }

  datatype TextVerdict =
    | Winner(winner: Candidate, selfIdentity: bool)
    | NoWinner
    | Conflict(families: set<Text>)

  function TextWinner(cs: seq<Candidate>, selfId: set<Text>): TextVerdict {
    if cs == [] then NoWinner
    else
      var own := FirstOwn(cs, selfId);
      if own.Some? then Winner(own.value, true)
      else
        var top := cs[0];
        var rival := FirstRival(cs, top.family);
        var rivalCues := if rival.Some? then rival.value.distinct else 0;
        if top.distinct < MIN_CUES || top.distinct <= rivalCues then NoWinner
        else
          var conflict := RivalFamilies(cs, top.family);
          if |conflict| >= 2 && !Dominates(top.distinct, rivalCues) then Conflict(conflict)
          else Winner(top, false)
  }

  /** The candidate reaches the floor, strictly beats every candidate of every other family, and dominates
      them all when two or more other families reach the floor themselves. */
  predicate Beats(cs: seq<Candidate>, c: Candidate) {
    && c in cs && c.distinct >= MIN_CUES
    && (forall d :: d in cs && d.family != c.family ==> d.distinct < c.distinct)
    && (|RivalFamilies(cs, c.family)| >= 2 ==>
          c.distinct >= DOMINANCE_MIN_CUES && forall d :: d in cs && d.family != c.family ==> Dominates(c.distinct, d.distinct))
  }

  lemma RankedIsSorted(found: seq<Candidate>)
    ensures Sorted(ByCues(), Ranked(found))
    ensures forall c :: c in Ranked(found) <==> c in found
  {
    SortSorts(ByCues(), found);
    SortPermutes(ByCues(), found);
    SameElements(Ranked(found), found);
  }

  /** In ranked order the first rival is the strongest one. */
  lemma {:induction false} FirstRivalIsBest(cs: seq<Candidate>, family: Text)
    requires Sorted(ByCues(), cs)
    ensures var r := FirstRival(cs, family);
            forall d :: d in cs && d.family != family ==> r.Some? && d.distinct <= r.value.distinct
  {
    if cs != [] {
      FirstRivalIsBest(cs[1..], family);
      forall d | d in cs && d.family != family && cs[0].family != family ensures d.distinct <= cs[0].distinct {
        var j :| 0 <= j < |cs| && cs[j] == d;
        assert j == 0 || ByCues()(cs[0], cs[j]);
      }
    }
  }

  /** Away from the self-identity path the winner really wins, and a family with such a candidate does win. */
  lemma WinnerExactly(found: seq<Candidate>, selfId: set<Text>, family: Text)
    requires FirstOwn(Ranked(found), selfId).None?
    ensures var v := TextWinner(Ranked(found), selfId);
            (v.Winner? && v.winner.family == family) <==> exists c: Candidate :: c.family == family && Beats(found, c)
  {
    WinnerBeats(found, selfId);
    if c: Candidate :| c.family == family && Beats(found, c) {
      TopIsMost(found);
      BeaterIsTop(found, c, Ranked(found)[0]);
      BeatingTopWins(found, selfId);
    }
  }

  lemma TopIsMost(found: seq<Candidate>)
    requires found != []
    ensures Ranked(found) != [] && Ranked(found)[0] in found
    ensures forall d :: d in found ==> d.distinct <= Ranked(found)[0].distinct
  {
    var cs := Ranked(found);
    RankedIsSorted(found);
    assert found[0] in cs;
    forall d | d in found ensures d.distinct <= cs[0].distinct {
      var j :| 0 <= j < |cs| && cs[j] == d;
      assert j == 0 || ByCues()(cs[0], cs[j]);
    }
  }

  lemma BeatingTopWins(found: seq<Candidate>, selfId: set<Text>)
    requires FirstOwn(Ranked(found), selfId).None?
    requires Ranked(found) != [] && Beats(found, Ranked(found)[0])
    ensures TextWinner(Ranked(found), selfId) == Winner(Ranked(found)[0], false)
  {
    var cs := Ranked(found);
    RankedIsSorted(found);
    assert RivalFamilies(cs, cs[0].family) == RivalFamilies(found, cs[0].family);
  }

  lemma BeaterIsTop(found: seq<Candidate>, c: Candidate, top: Candidate)
    requires Beats(found, c) && top in found && top.distinct >= c.distinct
    ensures top.family == c.family && Beats(found, top)
  {
  }

  lemma WinnerBeats(found: seq<Candidate>, selfId: set<Text>)
    ensures var v := TextWinner(Ranked(found), selfId);
            v.Winner? ==> v.winner in found && v.winner.distinct >= MIN_CUES
                          && (if v.selfIdentity then v.winner.family in selfId else Beats(found, v.winner))
  {
    var cs := Ranked(found);
    RankedIsSorted(found);
    if cs != [] {
      FirstRivalIsBest(cs, cs[0].family);
      assert RivalFamilies(cs, cs[0].family) == RivalFamilies(found, cs[0].family);
    }
  }

  /** The order in which the candidates were produced cannot change the winning family. */
  lemma WinnerOrderFree(found: seq<Candidate>, other: seq<Candidate>, selfId: set<Text>, family: Text)
    requires multiset(found) == multiset(other)
    requires forall c :: c in found && c.family in selfId ==> c.distinct < MIN_CUES
    ensures var v, w := TextWinner(Ranked(found), selfId), TextWinner(Ranked(other), selfId);
            (v.Winner? && v.winner.family == family) <==> (w.Winner? && w.winner.family == family)
  {
    SameElements(found, other);
    RankedIsSorted(found);
    RankedIsSorted(other);
    WinnerExactly(found, selfId, family);
    WinnerExactly(other, selfId, family);
    assert RivalFamilies(found, family) == RivalFamilies(other, family);
    forall c: Candidate | c.family == family ensures Beats(found, c) <==> Beats(other, c) {
    }
  }

  // ----- the self-identity path -----

  /** The candidate's family names the domain, and it reaches the floor. */
  predicate Qualifies(c: Candidate, selfId: set<Text>) {
    c.family in selfId && c.distinct >= MIN_CUES
  }

  /** A qualifying candidate that no qualifying candidate outranks. */
  predicate IsTopOwn(found: seq<Candidate>, selfId: set<Text>, c: Candidate) {
    c in found && Qualifies(c, selfId) && forall d :: d in found && Qualifies(d, selfId) ==> ByCues()(c, d)
  }

  function WinningFamily(found: seq<Candidate>, selfId: set<Text>): Option<Text> {
    var v := TextWinner(Ranked(found), selfId);
    if v.Winner? then Some(v.winner.family) else None
  }

  lemma {:induction false} FirstOwnIsTop(cs: seq<Candidate>, selfId: set<Text>)
    requires Sorted(ByCues(), cs)
    ensures FirstOwn(cs, selfId).Some? ==> IsTopOwn(cs, selfId, FirstOwn(cs, selfId).value)
  {
    if cs != [] {
      FirstOwnIsTop(cs[1..], selfId);
      assert cs == [cs[0]] + cs[1..];
      forall d | d in cs && Qualifies(cs[0], selfId) ensures ByCues()(cs[0], d) {
        var j :| 0 <= j < |cs| && cs[j] == d;
      }
    }
  }

  /** A top candidate that is sorted in first stands before every other qualifying one. */
  lemma {:induction false} InsertedTopIsFirst(c: Candidate, s: seq<Candidate>, selfId: set<Text>)
    requires Qualifies(c, selfId) && forall d :: d in s && Qualifies(d, selfId) ==> ByCues()(c, d)
    ensures FirstOwn(Insert(ByCues(), c, s), selfId) == Some(c)
  {
    if s != [] && !ByCues()(c, s[0]) {
      InsertedTopIsFirst(c, s[1..], selfId);
      assert Insert(ByCues(), c, s)[1..] == Insert(ByCues(), c, s[1..]);
    }
  }

  /** Some order of the candidates makes any given top one the winner. */
  lemma TopCanWin(found: seq<Candidate>, selfId: set<Text>, c: Candidate) returns (other: seq<Candidate>)
    requires IsTopOwn(found, selfId, c)
    ensures multiset(other) == multiset(found) && WinningFamily(other, selfId) == Some(c.family)
  {
    var i :| 0 <= i < |found| && found[i] == c;
    var rest := found[..i] + found[i + 1..];
    other := [c] + rest;
    assert found == found[..i] + [c] + found[i + 1..];
    assert other[1..] == rest;
    RankedIsSorted(rest);
    InsertedTopIsFirst(c, Ranked(rest), selfId);
    assert Ranked(other) == Insert(ByCues(), c, Ranked(rest));
  }

  lemma TopWins(found: seq<Candidate>, other: seq<Candidate>, selfId: set<Text>)
    requires multiset(found) == multiset(other) && exists c :: c in found && Qualifies(c, selfId)
    ensures exists c :: IsTopOwn(found, selfId, c) && WinningFamily(other, selfId) == Some(c.family)
  {
    SameElements(found, other);
    RankedIsSorted(other);
    var cs := Ranked(other);
    FirstOwnIsTop(cs, selfId);
    assert IsTopOwn(found, selfId, FirstOwn(cs, selfId).value);
  }

  ghost predicate TopsShareFamily(found: seq<Candidate>, selfId: set<Text>) {
    forall c, d :: IsTopOwn(found, selfId, c) && IsTopOwn(found, selfId, d) ==> c.family == d.family
  }

  lemma SameFamily(found: seq<Candidate>, other: seq<Candidate>, selfId: set<Text>)
    requires multiset(found) == multiset(other) && TopsShareFamily(found, selfId)
    ensures WinningFamily(other, selfId) == WinningFamily(found, selfId)
  {
    hide Ranked, TextWinner, IsTopOwn;
    if exists c :: c in found && Qualifies(c, selfId) {
      TopWins(found, found, selfId);
      TopWins(found, other, selfId);
    } else {
      var v, w := TextWinner(Ranked(found), selfId), TextWinner(Ranked(other), selfId);
      if v.Winner? {
        WinnerOrderFree(found, other, selfId, v.winner.family);
      }
      if w.Winner? {
        WinnerOrderFree(found, other, selfId, w.winner.family);
      }
    }
  }

  /** The winning family is the same for every order of the candidates exactly when the qualifying candidates that
      no other outranks are all of one family. */
  lemma OrderFreeExactly(found: seq<Candidate>, selfId: set<Text>)
    ensures (forall other :: multiset(other) == multiset(found) ==> WinningFamily(other, selfId) == WinningFamily(found, selfId))
       <==> TopsShareFamily(found, selfId)
  {
    hide WinningFamily, IsTopOwn;
    if TopsShareFamily(found, selfId) {
      forall other | multiset(other) == multiset(found) ensures WinningFamily(other, selfId) == WinningFamily(found, selfId) {
        SameFamily(found, other, selfId);
      }
    } else {
      var c, d :| IsTopOwn(found, selfId, c) && IsTopOwn(found, selfId, d) && c.family != d.family;
      var first := TopCanWin(found, selfId, c);
      var second := TopCanWin(found, selfId, d);
      assert WinningFamily(first, selfId) != WinningFamily(second, selfId);
    }
  }

  /** Two self-identified families with two cues each, at the same depth: whichever comes first wins. */
  lemma TieGoesToTheFirst(s: Text, t: Text, x: Text, y: Text)
    requires x != y
    ensures var a, b := Candidate(s, x, 0, 2), Candidate(t, y, 0, 2);
            WinningFamily([a, b], {x, y}) == Some(x) && WinningFamily([b, a], {x, y}) == Some(y)
  {
    var a, b := Candidate(s, x, 0, 2), Candidate(t, y, 0, 2);
    assert SortBy(ByCues(), [a]) == [a] && SortBy(ByCues(), [b]) == [b];
    assert [a, b][1..] == [b] && [b, a][1..] == [a];
    assert Ranked([a, b]) == [a, b] && Ranked([b, a]) == [b, a];
  }

  // ----- registers -----

  /** A prefix of the industry code table, with the family it stands for. */
  datatype SicRow = SicRow(prefix: Text, family: Text)

  predicate StartsWith(t: Text, prefix: Text) {
    |prefix| <= |t| && t[..|prefix|] == prefix
  }

  /** The longest prefix of the table that the code starts with; among equals, the first row. */
  function LongestPrefix(table: seq<SicRow>, code: Text): (r: Option<SicRow>)
    ensures r.Some? ==> r.value in table && StartsWith(code, r.value.prefix)
    ensures forall row :: row in table && StartsWith(code, row.prefix) ==> r.Some? && |row.prefix| <= |r.value.prefix|
  {
    if table == [] then None
    else
      var init, last := table[..|table| - 1], table[|table| - 1];
      assert table == init + [last];
      var best := LongestPrefix(init, code);
      if StartsWith(code, last.prefix) && (best.None? || |last.prefix| > |best.value.prefix|) then Some(last) else best
  }

  /** The families of the declared codes, each already reduced to its digits. */
  function FamiliesOf(table: seq<SicRow>, codes: seq<Text>): set<Text> {
    set c | c in codes && c != [] && LongestPrefix(table, c).Some? :: LongestPrefix(table, c).value.family
  }

  method SicFamilies(table: seq<SicRow>, codes: seq<Text>) returns (families: set<Text>)
    ensures families == FamiliesOf(table, codes)
  {
    families := {};
    for i := 0 to |codes|
      invariant families == FamiliesOf(table, codes[..i])
    {
      var code := codes[i];
      assert codes[..i + 1] == codes[..i] + [code];
      if code != [] {
        var best: Option<SicRow> := None;
        for j := 0 to |table|
          invariant best == LongestPrefix(table[..j], code)
        {
          assert table[..j + 1][..j] == table[..j];
          if StartsWith(code, table[j].prefix) && (best.None? || |table[j].prefix| > |best.value.prefix|) {
            best := Some(table[j]);
          }
        }
        assert table[..|table|] == table;
        if best.Some? {
          families := families + {best.value.family};
        }
      }
    }
    assert codes[..|codes|] == codes;
  }

  datatype Confidence = RegisterBacked | Corroborated | Weak
  datatype Selection = Selected(sector: Text, family: Text, confidence: Confidence) | AbstainNow | DenyByDefault

  function FromTextWinner(winner: Candidate, decisive: seq<Text>, sic: set<Text>): Selection {
    if (exists f :: f in decisive && f != winner.family) || (sic != {} && winner.family !in sic) then AbstainNow
    else Selected(winner.sector, winner.family, if decisive != [] || winner.family in sic then RegisterBacked else Corroborated)
  }

  function FromRegisters(decisive: seq<Text>): Selection
    requires decisive != []
  {
    if exists f :: f in decisive && f != decisive[0] then AbstainNow else Selected(decisive[0], decisive[0], RegisterBacked)
  }

  function FromWeakCorroboration(cs: seq<Candidate>, sic: set<Text>): Selection
    requires cs != []
  {
    if cs[0].distinct != 1 || FirstRival(cs, cs[0].family).Some? || cs[0].family !in sic then DenyByDefault
    else Selected(cs[0].sector, cs[0].family, Weak)
  }

  /** The text winner, then a decisive register alone, then one cue that the industry code corroborates. */
  function SelectSector(cs: seq<Candidate>, selfId: set<Text>, decisive: seq<Text>, sic: set<Text>): Selection {
    var v := TextWinner(cs, selfId);
    if v.Winner? then FromTextWinner(v.winner, decisive, sic)
    else if decisive != [] then FromRegisters(decisive)
    else if cs != [] then FromWeakCorroboration(cs, sic)
    else DenyByDefault
  }

  /** A sector is never selected against a decisive register, nor on its text against the industry codes;
      and a selection below the two-cue floor rests on a register or on an unrivalled cue with an industry code. */
  lemma SelectionHonoursRegisters(found: seq<Candidate>, selfId: set<Text>, decisive: seq<Text>, sic: set<Text>)
    ensures var r := SelectSector(Ranked(found), selfId, decisive, sic);
            r.Selected? ==>
              && (forall f :: f in decisive ==> f == r.family)
              && (decisive != [] ==> r.confidence == RegisterBacked)
              && (decisive == [] && sic != {} ==> r.family in sic)
              && (decisive == [] ==> exists c :: c in found && c.family == r.family && c.sector == r.sector)
              && (r.confidence == Corroborated ==> sic == {} && exists c :: c in found && c.family == r.family && c.distinct >= MIN_CUES)
              && (r.confidence == Weak ==> forall c :: c in found ==> c.family == r.family && c.distinct <= 1)
  {
    RankedIsSorted(found);
    WinnerBeats(found, selfId);
    var cs := Ranked(found);
    var r := SelectSector(cs, selfId, decisive, sic);
    if cs != [] && r.Selected? && r.confidence == Weak {
      assert cs[0] in found;
      TopIsMost(found);
    }
    hide Beats, Ranked, RivalFamilies;
  }
}
