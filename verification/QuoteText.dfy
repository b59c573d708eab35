/** llm/gate.js: the normal form of a quote and of its source.

    Text here is a sequence of code points, so that a letter and its lower-case form are units. The
    letter tables of Unicode are a parameter; the one rule of `toLowerCase` that looks at context, the
    final form of the Greek sigma, is modelled. Folding, collapsing and trimming keep a quote that lies
    inside a source inside it. */
module QuoteText {
  import opened Texts

  type Point = c: int | 0 <= c <= 0x10FFFF
  type Str = seq<Point>

  const SPACE: Point := 0x20
  const SIGMA: Point := 0x3A3
  const SMALL_SIGMA: Point := 0x3C3
  const FINAL_SIGMA: Point := 0x3C2
  const LETTER_A: Point := 'A' as int
  const SMALL_A: Point := 'a' as int

  /** Context-free lower-casing, and the two letter classes the sigma rule asks about. */
  datatype Casing = Casing(lower: Point -> Str, cased: Point -> bool, ignorable: Point -> bool)

  // ----- the four steps -----

  function FoldPoint(c: Point): Point {
    if c == 0x2018 || c == 0x2019 then 0x27
    else if c == 0x201C || c == 0x201D then 0x22
    else c
  }

  function Fold(s: Str): (r: Str)
    ensures |r| == |s| && forall i :: 0 <= i < |s| ==> r[i] == FoldPoint(s[i])
  {
    seq(|s|, i requires 0 <= i < |s| => FoldPoint(s[i]))
  }

  function LeadSpaces(s: Str): (n: nat)
    ensures n <= |s| && forall i :: 0 <= i < n ==> IsSpace(s[i])
    ensures n < |s| ==> !IsSpace(s[n])
  {
    if s == [] || !IsSpace(s[0]) then 0 else 1 + LeadSpaces(s[1..])
  }

  function TrailSpaces(s: Str): (n: nat)
    ensures n <= |s| && forall i :: |s| - n <= i < |s| ==> IsSpace(s[i])
    ensures n < |s| ==> !IsSpace(s[|s| - 1 - n])
  {
    if s == [] || !IsSpace(s[|s| - 1]) then 0 else 1 + TrailSpaces(s[..|s| - 1])
  }

  /** Every whitespace run becomes one space. */
  function Collapse(s: Str): Str
    decreases |s|
  {
    if s == [] then []
    else if IsSpace(s[0]) then [SPACE] + Collapse(s[LeadSpaces(s)..])
    else [s[0]] + Collapse(s[1..])
  }

  function TrimStart(s: Str): Str { s[LeadSpaces(s)..] }
  function TrimEnd(s: Str): Str { s[..|s| - TrailSpaces(s)] }
  function Trim(s: Str): Str { TrimEnd(TrimStart(s)) }

  /** A cased letter stands before position `i`, with only case-ignorable points between. */
  predicate Preceded(k: Casing, s: Str, i: nat)
    requires i <= |s|
  {
    i > 0 && (k.cased(s[i - 1]) || (k.ignorable(s[i - 1]) && Preceded(k, s, i - 1)))
  }

  /** A cased letter stands at or after position `i`, with only case-ignorable points between. */
  predicate Followed(k: Casing, s: Str, i: nat)
    requires i <= |s|
    decreases |s| - i
  {
    i < |s| && (k.cased(s[i]) || (k.ignorable(s[i]) && Followed(k, s, i + 1)))
  }

  predicate IsFinal(k: Casing, s: Str, i: nat)
    requires i < |s|
  {
    Preceded(k, s, i) && !Followed(k, s, i + 1)
  }

  function LowerAt(k: Casing, s: Str, i: nat): Str
    requires i < |s|
  {
    if s[i] != SIGMA then k.lower(s[i]) else [if IsFinal(k, s, i) then FINAL_SIGMA else SMALL_SIGMA]
  }

  function LowerFrom(k: Casing, s: Str, i: nat): Str
    requires i <= |s|
    decreases |s| - i
  {
    if i == |s| then [] else LowerAt(k, s, i) + LowerFrom(k, s, i + 1)
  }

  function Lower(k: Casing, s: Str): Str { LowerFrom(k, s, 0) }

  function Core(s: Str): Str { Trim(Collapse(Fold(s))) }

  function Normalise(k: Casing, s: Str): Str { Lower(k, Core(s)) }

  // ----- collapsing and trimming a text around a quote -----

  predicate StartsSolid(s: Str) { s != [] && !IsSpace(s[0]) }
  predicate EndsSolid(s: Str) { s != [] && !IsSpace(s[|s| - 1]) }

  lemma {:induction false} LeadConcat(p: Str, s: Str)
    requires p != []
    requires s == [] || !IsSpace(s[0]) || !IsSpace(p[|p| - 1])
    ensures LeadSpaces(p + s) == LeadSpaces(p)
  {
    var t := p + s;
    assert t[0] == p[0] && t[1..] == p[1..] + s;
    if IsSpace(p[0]) {
      if |p| > 1 {
        LeadConcat(p[1..], s);
      } else {
        assert t[1..] == s && p[1..] == [];
      }
    }
  }

  /** Runs do not join across a border that has a solid point on one side. */
  lemma {:induction false} CollapseConcat(p: Str, s: Str)
    requires p == [] || s == [] || StartsSolid(s) || EndsSolid(p)
    ensures Collapse(p + s) == Collapse(p) + Collapse(s)
    decreases |p|, 1
  {
    if p == [] {
      EmptyConcat(s);
      EmptyConcat(Collapse(s));
    } else if s == [] {
      EmptyConcat(p);
      EmptyConcat(Collapse(p));
    } else {
      CollapseStep(p, s);
    }
  }

  lemma {:induction false} CollapseStep(p: Str, s: Str)
    requires p != [] && s != [] && (StartsSolid(s) || EndsSolid(p))
    ensures Collapse(p + s) == Collapse(p) + Collapse(s)
    decreases |p|, 0
  {
    hide Collapse, LeadSpaces;
    var n := if IsSpace(p[0]) then LeadSpaces(p) else 1;
    LeadConcat(p, s);
    CollapseHead(p, n);
    CollapseHead(p + s, n);
    DropConcat(p, s, n);
    CollapseConcat(p[n..], s);
    ConcatAssociative([if IsSpace(p[0]) then SPACE else p[0]], Collapse(p[n..]), Collapse(s));
  }

  lemma CollapseHead(s: Str, n: nat)
    requires s != [] && n == (if IsSpace(s[0]) then LeadSpaces(s) else 1)
    ensures 0 < n <= |s|
    ensures Collapse(s) == [if IsSpace(s[0]) then SPACE else s[0]] + Collapse(s[n..])
  {
  }

  lemma CollapseSpaces(s: Str)
    requires AllSpaces(s)
    ensures Collapse(s) == if s == [] then [] else [SPACE]
  {
    if s != [] {
      assert LeadSpaces(s) == |s|;
      assert s[|s|..] == [];
    }
  }

  lemma {:induction false} CollapseEdges(s: Str)
    ensures Collapse(s) == [] <==> s == []
    ensures s != [] ==> (IsSpace(Collapse(s)[0]) <==> IsSpace(s[0]))
    ensures s != [] ==> (IsSpace(Collapse(s)[|Collapse(s)| - 1]) <==> IsSpace(s[|s| - 1]))
    decreases |s|
  {
    if s != [] {
      var n := if IsSpace(s[0]) then LeadSpaces(s) else 1;
      CollapseHead(s, n);
      CollapseEdges(s[n..]);
      hide Collapse, LeadSpaces;
      if n == |s| {
        assert s[n..] == [];
      }
    }
  }

  lemma TrimSolid(p: Str, m: Str, s: Str)
    requires StartsSolid(m) && EndsSolid(m)
    ensures Trim(p + m + s) == TrimStart(p) + m + TrimEnd(s)
  {
    TrimStartSolid(p, m + s);
    ConcatAssociative(p, m, s);
    ConcatAssociative(TrimStart(p), m, s);
    TrimEndSolid(TrimStart(p) + m, s);
  }

  lemma {:induction false} TrimStartSolid(p: Str, s: Str)
    requires StartsSolid(s)
    ensures TrimStart(p + s) == TrimStart(p) + s
    decreases |p|
  {
    if p == [] {
      assert p + s == s;
      assert s[0..] == s;
    } else {
      LeadConcat(p, s);
      var n := LeadSpaces(p);
      assert (p + s)[n..] == p[n..] + s;
    }
  }

  lemma {:induction false} TrailConcat(p: Str, s: Str)
    requires EndsSolid(p)
    ensures TrailSpaces(p + s) == TrailSpaces(s)
    decreases |s|
  {
    var t := p + s;
    if s == [] {
      assert t == p;
    } else {
      assert t[|t| - 1] == s[|s| - 1] && t[..|t| - 1] == p + s[..|s| - 1];
      if IsSpace(s[|s| - 1]) {
        TrailConcat(p, s[..|s| - 1]);
      }
    }
  }

  lemma TrimEndSolid(p: Str, s: Str)
    requires EndsSolid(p)
    ensures TrimEnd(p + s) == p + TrimEnd(s)
  {
    TrailConcat(p, s);
    var n := TrailSpaces(s);
    assert (p + s)[..|p| + |s| - n] == p + s[..|s| - n];
  }

  lemma {:induction false} CollapsedSpaces(s: Str)
    ensures forall i :: 0 <= i < |Collapse(s)| && IsSpace(Collapse(s)[i]) ==> Collapse(s)[i] == SPACE
    decreases |s|
  {
    if s != [] {
      var n := if IsSpace(s[0]) then LeadSpaces(s) else 1;
      CollapseHead(s, n);
      CollapsedSpaces(s[n..]);
      hide Collapse, LeadSpaces;
    }
  }

  lemma FoldConcat(a: Str, b: Str)
    ensures Fold(a + b) == Fold(a) + Fold(b)
  {
  }

  lemma FoldKeepsSpaces(c: Point)
    ensures IsSpace(FoldPoint(c)) <==> IsSpace(c)
  {
  }

  predicate OpenLeft(q: Str) { q == [] || !IsSpace(q[0]) }
  predicate OpenRight(q: Str) { q == [] || !IsSpace(q[|q| - 1]) }

  predicate AllSpaces(s: Str) {
    forall i :: 0 <= i < |s| ==> IsSpace(s[i])
  }

  ghost predicate Splits(y: Str, l: Str, m: Str, r: Str) {
    && y == l + m + r && StartsSolid(m) && EndsSolid(m)
    && AllSpaces(l) && AllSpaces(r)
  }

  lemma SplitSolid(y: Str) returns (l: Str, m: Str, r: Str)
    requires !AllSpaces(y)
    ensures Splits(y, l, m, r)
  {
    SpacesMeet(y);
    var n, k := LeadSpaces(y), TrailSpaces(y);
    EdgeSpaces(y, n, k);
    hide LeadSpaces, TrailSpaces, IsSpace, AllSpaces, Splits;
    CutSplits(y, n, k);
    l, m, r := y[..n], y[n..|y| - k], y[|y| - k..];
  }

  lemma CutSplits(y: Str, n: nat, k: nat)
    requires n + k < |y| && !IsSpace(y[n]) && !IsSpace(y[|y| - 1 - k])
    requires AllSpaces(y[..n]) && AllSpaces(y[|y| - k..])
    ensures Splits(y, y[..n], y[n..|y| - k], y[|y| - k..])
  {
    hide IsSpace, AllSpaces;
    var m := y[n..|y| - k];
    assert m[0] == y[n] && m[|m| - 1] == y[|y| - 1 - k];
    SplitThree(y, n, |y| - k);
  }

  lemma EdgeSpaces(y: Str, n: nat, k: nat)
    requires n <= |y| && k <= |y|
    requires forall i :: 0 <= i < n ==> IsSpace(y[i])
    requires forall i :: |y| - k <= i < |y| ==> IsSpace(y[i])
    ensures AllSpaces(y[..n]) && AllSpaces(y[|y| - k..])
  {
  }

  lemma SpacesMeet(y: Str)
    requires !AllSpaces(y)
    ensures LeadSpaces(y) + TrailSpaces(y) < |y|
  {
    var n, k := LeadSpaces(y), TrailSpaces(y);
    var i :| 0 <= i < |y| && !IsSpace(y[i]);
    assert n <= i < |y| - k;
  }

  lemma SplitEdges(y: Str, l: Str, m: Str, r: Str)
    requires Splits(y, l, m, r)
    ensures l == [] ==> OpenLeft(y)
    ensures r == [] ==> OpenRight(y)
  {
    assert l == [] ==> y[0] == m[0];
    assert r == [] ==> y[|y| - 1] == m[|m| - 1];
  }

  lemma SplitThree<T>(s: seq<T>, i: nat, j: nat)
    requires i <= j <= |s|
    ensures s == s[..i] + s[i..j] + s[j..]
  {
  }

  /** The core of a text around a solid middle. */
  lemma CoreAround(x: Str, l: Str, m: Str, r: Str, z: Str)
    requires StartsSolid(m) && EndsSolid(m)
    ensures Trim(Collapse(x + (l + m + r) + z)) == TrimStart(Collapse(x + l)) + Collapse(m) + TrimEnd(Collapse(r + z))
  {
    assert x + (l + m + r) + z == (x + l) + (m + (r + z)) by { FiveConcat(x, l, m, r, z); }
    SolidStartConcat(m, r + z);
    CollapseConcat(x + l, m + (r + z));
    CollapseConcat(m, r + z);
    CollapseEdges(m);
    ConcatAssociative(Collapse(x + l), Collapse(m), Collapse(r + z));
    TrimSolid(Collapse(x + l), Collapse(m), Collapse(r + z));
  }

  lemma SolidStartConcat(m: Str, s: Str)
    requires StartsSolid(m)
    ensures StartsSolid(m + s)
  {
  }

  lemma FiveConcat<T>(x: seq<T>, l: seq<T>, m: seq<T>, r: seq<T>, z: seq<T>)
    ensures x + (l + m + r) + z == (x + l) + (m + (r + z))
  {
  }

  lemma SpacesTrimAway(s: Str)
    requires AllSpaces(s)
    ensures TrimStart(Collapse(s)) == [] && TrimEnd(Collapse(s)) == []
  {
    CollapseSpaces(s);
    assert LeadSpaces([SPACE]) == 1 && TrailSpaces([SPACE]) == 1;
  }

  lemma CoreOf(y: Str, l: Str, m: Str, r: Str)
    requires Splits(y, l, m, r)
    ensures Trim(Collapse(y)) == Collapse(m)
  {
    CoreAround([], l, m, r, []);
    SpacesTrimAway(l);
    SpacesTrimAway(r);
    EmptyConcat(y);
    EmptyConcat(l);
    EmptyConcat(r);
    EmptyConcat(Collapse(m));
    hide Trim, TrimStart, TrimEnd, Collapse;
    assert [] + (l + m + r) + [] == y;
  }

  lemma CoreEmpty(y: Str)
    requires AllSpaces(y)
    ensures Trim(Collapse(y)) == []
  {
    SpacesTrimAway(y);
    assert TrailSpaces([]) == 0;
  }

  /** The solid part of a quote, whose collapse is the core. */
  lemma SolidPart(q: Str) returns (l: Str, m: Str, r: Str)
    requires Core(q) != []
    ensures Splits(Fold(q), l, m, r) && Core(q) == Collapse(m)
  {
    var y := Fold(q);
    hide Collapse, Trim, AllSpaces, IsSpace, Fold;
    if AllSpaces(y) {
      CoreEmpty(y);
      assert false;
    }
    l, m, r := SplitSolid(y);
    CoreOf(y, l, m, r);
  }

  lemma CoreWhole(a: Str, q: Str, b: Str, l: Str, m: Str, r: Str)
    requires Splits(Fold(q), l, m, r)
    ensures Core(a + q + b) == TrimStart(Collapse(Fold(a) + l)) + Collapse(m) + TrimEnd(Collapse(r + Fold(b)))
  {
    hide Collapse, Trim, TrimStart, TrimEnd, AllSpaces, IsSpace, Fold;
    FoldConcat(a + q, b);
    FoldConcat(a, q);
    CoreAround(Fold(a), l, m, r, Fold(b));
  }

  lemma LeftEdge(a: Str, q: Str, l: Str, m: Str, r: Str)
    requires Splits(Fold(q), l, m, r) && !OpenLeft(q)
    ensures var x := TrimStart(Collapse(Fold(a) + l)); x == [] || x[|x| - 1] == SPACE
  {
    FoldKeepsSpaces(q[0]);
    SplitEdges(Fold(q), l, m, r);
    assert l != [];
    assert IsSpace(l[|l| - 1]);
    hide Collapse, TrimStart, Fold, IsSpace;
    EndsInSpace(Fold(a) + l);
  }

  lemma RightEdge(q: Str, b: Str, l: Str, m: Str, r: Str)
    requires Splits(Fold(q), l, m, r) && !OpenRight(q)
    ensures var z := TrimEnd(Collapse(r + Fold(b))); z == [] || z[0] == SPACE
  {
    FoldKeepsSpaces(q[|q| - 1]);
    SplitEdges(Fold(q), l, m, r);
    assert r != [];
    assert IsSpace(r[0]);
    hide Collapse, TrimEnd, Fold, IsSpace;
    StartsInSpace(r + Fold(b));
  }

  /** The core of a source holds the core of any quote taken from it, and a space or the edge of the
      text stands next to it wherever the quote itself had whitespace there. */
  lemma CoreInSource(a: Str, q: Str, b: Str) returns (x: Str, z: Str)
    requires Core(q) != []
    ensures Core(a + q + b) == x + Core(q) + z
    ensures !OpenLeft(q) ==> x == [] || x[|x| - 1] == SPACE
    ensures !OpenRight(q) ==> z == [] || z[0] == SPACE
  {
    hide Core, Collapse, TrimStart, TrimEnd, Fold, Splits, OpenLeft, OpenRight;
    var l, m, r := SolidPart(q);
    CoreWhole(a, q, b, l, m, r);
    x, z := TrimStart(Collapse(Fold(a) + l)), TrimEnd(Collapse(r + Fold(b)));
    if !OpenLeft(q) {
      LeftEdge(a, q, l, m, r);
    }
    if !OpenRight(q) {
      RightEdge(q, b, l, m, r);
    }
  }

  lemma EndsInSpace(s: Str)
    requires s != [] && IsSpace(s[|s| - 1])
    ensures var x := TrimStart(Collapse(s)); x == [] || x[|x| - 1] == SPACE
  {
    CollapseEdges(s);
    CollapsedSpaces(s);
    hide Collapse, LeadSpaces;
  }

  lemma StartsInSpace(s: Str)
    requires s != [] && IsSpace(s[0])
    ensures var z := TrimEnd(Collapse(s)); z == [] || z[0] == SPACE
  {
    CollapseEdges(s);
    CollapsedSpaces(s);
    hide Collapse, TrailSpaces;
  }
}
