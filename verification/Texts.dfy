/** Text as the engine sees it.

    A text is a sequence of UTF-16 code units. Here are the few operations of the JavaScript string
    library that the proofs rest on: the order of the default sort, searching, trimming, decimal
    printing, and joining with a separator. */
module Texts {
  import Sorting

  type Unit = u: int | 0 <= u <= 0xFFFF
  type Text = seq<Unit>

  datatype Option<+T> = None | Some(value: T)

  const QUOTE: Unit := '\"' as int
  const BACKSLASH: Unit := '\\' as int
  const COMMA: Unit := ',' as int
  const DOT: Unit := '.' as int
  const COLON: Unit := ':' as int
  const MINUS: Unit := '-' as int
  const SLASH: Unit := '/' as int
  const BAR: Unit := '|' as int
  const ZERO: Unit := '0' as int

  function Ascii(s: string): Text {
    seq(|s|, i requires 0 <= i < |s| => if (s[i] as int) < 128 then s[i] as int else ZERO)
  }

  predicate IsDigit(u: Unit) {
    '0' as int <= u <= '9' as int
  }

  /** The two halves of a surrogate pair. */
  predicate IsHigh(u: Unit) { 0xD800 <= u <= 0xDBFF }
  predicate IsLow(u: Unit) { 0xDC00 <= u <= 0xDFFF }

  /** The characters that `\s` matches. */
  predicate IsSpace(u: int) {
    || 9 <= u <= 13 || u == 0x20 || u == 0xA0 || u == 0x1680 || 0x2000 <= u <= 0x200A
    || u == 0x2028 || u == 0x2029 || u == 0x202F || u == 0x205F || u == 0x3000 || u == 0xFEFF
  }

  function StripStart(t: Text): Text {
    if t != [] && IsSpace(t[0]) then StripStart(t[1..]) else t
  }

  function StripEnd(t: Text): Text {
    if t != [] && IsSpace(t[|t| - 1]) then StripEnd(t[..|t| - 1]) else t
  }

  /** `t.trim()`. */
  function TrimText(t: Text): Text {
    StripEnd(StripStart(t))
  }

  /** The lexicographic order by code unit that the default `sort()` and `<` use. */
  predicate TextLe(a: Text, b: Text) {
    a == [] || (b != [] && (a[0] < b[0] || (a[0] == b[0] && TextLe(a[1..], b[1..]))))
  }

  lemma {:induction false} TextLeTotal(a: Text, b: Text)
    ensures TextLe(a, b) || TextLe(b, a)
  {
    if a != [] && b != [] {
      TextLeTotal(a[1..], b[1..]);
    }
  }

  lemma {:induction false} TextLeTransitive(a: Text, b: Text, c: Text)
    requires TextLe(a, b) && TextLe(b, c)
    ensures TextLe(a, c)
  {
    if a != [] && a[0] == b[0] == c[0] {
      TextLeTransitive(a[1..], b[1..], c[1..]);
    }
  }

  lemma {:induction false} TextLeAntisymmetric(a: Text, b: Text)
    requires TextLe(a, b) && TextLe(b, a)
    ensures a == b
  {
    if a != [] {
      TextLeAntisymmetric(a[1..], b[1..]);
      assert a == [a[0]] + a[1..] && b == [b[0]] + b[1..];
    }
  }

  lemma TextsSort()
    ensures Sorting.TotalPreorder(TextLe)
  {
    forall a, b ensures TextLe(a, b) || TextLe(b, a) { TextLeTotal(a, b); }
    forall a, b, c | TextLe(a, b) && TextLe(b, c) ensures TextLe(a, c) { TextLeTransitive(a, b, c); }
  }

  lemma TextsSeparate(s: seq<Text>)
    ensures Sorting.Separates(TextLe, s)
  {
    forall i, j | 0 <= i < |s| && 0 <= j < |s| && TextLe(s[i], s[j]) && TextLe(s[j], s[i]) ensures s[i] == s[j] {
      TextLeAntisymmetric(s[i], s[j]);
    }
  }

  // ----- sequences -----

  lemma SplitConcat<T>(a: seq<T>, b: seq<T>)
    ensures (a + b)[..|a|] == a && (a + b)[|a|..] == b
  {
  }

  lemma ConcatSplit<T>(s: seq<T>, i: nat)
    requires i <= |s|
    ensures s[..i] + s[i..] == s
  {
  }

  lemma ConcatAssociative<T>(a: seq<T>, b: seq<T>, c: seq<T>)
    ensures a + b + c == a + (b + c)
  {
  }

  lemma DropConcat<T>(a: seq<T>, b: seq<T>, n: nat)
    requires n <= |a|
    ensures (a + b)[n..] == a[n..] + b
  {
  }

  function Take<T>(s: seq<T>, n: nat): seq<T> {
    if |s| <= n then s else s[..n]
  }

  lemma TakeAppend<T>(s: seq<T>, x: T, n: nat)
    ensures Take(s + [x], n) == if |Take(s, n)| < n then Take(s, n) + [x] else Take(s, n)
  {
  }

  function Min(a: nat, b: nat): nat { if a < b then a else b }
  function Max(a: nat, b: nat): nat { if a < b then b else a }

  lemma EmptyConcat<T>(s: seq<T>)
    ensures [] + s == s && s + [] == s
  {
  }

  predicate OccursAt<T(==)>(hay: seq<T>, needle: seq<T>, i: int) {
    0 <= i <= |hay| - |needle| && hay[i..i + |needle|] == needle
  }

  /** `hay.indexOf(needle, from)` for a start inside the text: the least occurrence, or -1. */
  function IndexOf<T(==)>(hay: seq<T>, needle: seq<T>, from: nat): (i: int)
    ensures i == -1 <==> forall j :: from <= j ==> !OccursAt(hay, needle, j)
    ensures i != -1 ==> from <= i && OccursAt(hay, needle, i)
    ensures i != -1 ==> forall j :: from <= j < i ==> !OccursAt(hay, needle, j)
    decreases |hay| - from
  {
    if from + |needle| > |hay| then -1
    else if OccursAt(hay, needle, from) then from
    else IndexOf(hay, needle, from + 1)
  }

  predicate Contains<T(==)>(hay: seq<T>, needle: seq<T>) {
    exists i :: 0 <= i <= |hay| && OccursAt(hay, needle, i)
  }

  // ----- decimal printing -----

  /** `String(n)` for a non-negative integer. */
  function Decimal(n: nat): (t: Text)
    ensures |t| > 0 && forall i :: 0 <= i < |t| ==> IsDigit(t[i])
  {
    if n < 10 then [ZERO + n] else Decimal(n / 10) + [ZERO + n % 10]
  }

  function DecimalValue(t: Text): nat
    requires forall i :: 0 <= i < |t| ==> IsDigit(t[i])
  {
    assert t != [] ==> IsDigit(t[|t| - 1]);
    if t == [] then 0 else 10 * DecimalValue(t[..|t| - 1]) + (t[|t| - 1] - ZERO)
  }

  lemma {:induction false} DecimalRoundTrip(n: nat)
    ensures DecimalValue(Decimal(n)) == n
  {
    if n >= 10 {
      DecimalRoundTrip(n / 10);
      var t := Decimal(n);
      assert t[..|t| - 1] == Decimal(n / 10);
    } else {
      assert Decimal(n)[..0] == [];
    }
  }

  lemma DecimalInjective(m: nat, n: nat)
    requires Decimal(m) == Decimal(n)
    ensures m == n
  {
    DecimalRoundTrip(m);
    DecimalRoundTrip(n);
  }

  // ----- joining with a separator -----

  function Join(parts: seq<Text>, sep: Unit): Text {
    if parts == [] then []
    else if |parts| == 1 then parts[0]
    else parts[0] + [sep] + Join(parts[1..], sep)
  }

  predicate Free(t: Text, u: Unit) {
    u !in t
  }

  /** Up to the first separator two joined texts agree, so their first parts agree. */
  lemma FirstPart(a: Text, b: Text, ra: Text, rb: Text, sep: Unit)
    requires Free(a, sep) && Free(b, sep)
    requires ra == [] || ra[0] == sep
    requires rb == [] || rb[0] == sep
    requires a + ra == b + rb
    ensures a == b && ra == rb
  {
    var s := a + ra;
    assert forall i :: 0 <= i < |a| ==> s[i] == a[i];
    assert forall i :: 0 <= i < |b| ==> s[i] == b[i];
    assert a == s[..|a|] && b == s[..|b|];
    assert ra == s[|a|..] && rb == s[|b|..];
  }

  function JoinTail(parts: seq<Text>, sep: Unit): Text
    requires parts != []
  {
    if |parts| == 1 then [] else [sep] + Join(parts[1..], sep)
  }

  /** A join of separator-free parts determines the parts. */
  lemma {:induction false} JoinInjective(p: seq<Text>, q: seq<Text>, sep: Unit)
    requires p != [] && q != []
    requires forall i :: 0 <= i < |p| ==> Free(p[i], sep)
    requires forall i :: 0 <= i < |q| ==> Free(q[i], sep)
    requires Join(p, sep) == Join(q, sep)
    ensures p == q
    decreases |p|
  {
    var rp, rq := JoinTail(p, sep), JoinTail(q, sep);
    assert Join(p, sep) == p[0] + rp && Join(q, sep) == q[0] + rq;
    FirstPart(p[0], q[0], rp, rq, sep);
    if |p| > 1 && |q| > 1 {
      assert rp[1..] == Join(p[1..], sep) && rq[1..] == Join(q[1..], sep);
      JoinInjective(p[1..], q[1..], sep);
    }
    assert p == [p[0]] + p[1..] && q == [q[0]] + q[1..];
  }

  /** The separator before a part that is free of it can be found again. */
  lemma LastPart(a: Text, x: Text, sep: Unit)
    requires Free(x, sep)
    ensures var s := a + [sep] + x;
            s[|a|] == sep && (forall i :: |a| < i < |s| ==> s[i] != sep) && a == s[..|a|] && x == s[|a| + 1..]
  {
    var s := a + [sep] + x;
    forall i | |a| < i < |s| ensures s[i] != sep {
      assert s[i] == x[i - |a| - 1];
    }
  }

  // ----- splitting at a separator -----

  /** `t.split(sep)`: the pieces between the separators, at least one. */
  function Pieces(t: Text, sep: Unit): (p: seq<Text>)
    ensures p != []
  {
    if t == [] then [[]]
    else
      var rest := Pieces(t[1..], sep);
      if t[0] == sep then [[]] + rest else [[t[0]] + rest[0]] + rest[1..]
  }

  /** The pieces of each part, one after the other. */
  function AllPieces(parts: seq<Text>, sep: Unit): seq<Text> {
    if parts == [] then [] else Pieces(parts[0], sep) + AllPieces(parts[1..], sep)
  }

  predicate AllFree(p: seq<Text>, sep: Unit) {
    forall i :: 0 <= i < |p| ==> Free(p[i], sep)
  }

  /** A text without the separator is its own only piece. */
  lemma {:induction false} PiecesOfFree(t: Text, sep: Unit)
    ensures Free(t, sep) <==> Pieces(t, sep) == [t]
  {
    if t != [] {
      PiecesOfFree(t[1..], sep);
      assert t == [t[0]] + t[1..];
      if t[0] == sep {
        assert Pieces(t, sep)[0] == [];
      } else if Pieces(t, sep) == [t] {
        assert Pieces(t[1..], sep) == [t[1..]];
      }
    }
  }

  lemma {:induction false} PiecesAreFree(t: Text, sep: Unit)
    ensures AllFree(Pieces(t, sep), sep)
  {
    if t != [] {
      PiecesAreFree(t[1..], sep);
      var rest := Pieces(t[1..], sep);
      var head := if t[0] == sep then [] else [t[0]] + rest[0];
      assert Free(rest[0], sep);
      assert Free(head, sep);
      hide Free, Pieces;
    }
  }

  lemma JoinCons(head: Text, rest: seq<Text>, sep: Unit)
    requires rest != []
    ensures Join([head] + rest, sep) == head + ([sep] + Join(rest, sep))
  {
    assert ([head] + rest)[1..] == rest;
    ConcatAssociative(head, [sep], Join(rest, sep));
  }

  lemma JoinOne(head: Text, sep: Unit)
    ensures Join([head], sep) == head
  {
  }

  /** A first unit joins the first piece. */
  lemma JoinPrefix(u: Unit, p: seq<Text>, sep: Unit)
    requires p != []
    ensures Join([[u] + p[0]] + p[1..], sep) == [u] + Join(p, sep)
  {
    assert p == [p[0]] + p[1..];
    if |p| == 1 {
      assert p[1..] == [];
      assert [[u] + p[0]] + p[1..] == [[u] + p[0]];
    } else {
      JoinCons([u] + p[0], p[1..], sep);
      JoinCons(p[0], p[1..], sep);
      ConcatAssociative([u], p[0], [sep] + Join(p[1..], sep));
    }
  }

  /** Joining the pieces gives the text back. */
  lemma {:induction false} PiecesJoin(t: Text, sep: Unit)
    ensures Join(Pieces(t, sep), sep) == t
  {
    if t != [] {
      var rest := Pieces(t[1..], sep);
      PiecesJoin(t[1..], sep);
      assert t == [t[0]] + t[1..];
      if t[0] == sep {
        JoinCons([], rest, sep);
      } else {
        JoinPrefix(t[0], rest, sep);
      }
    }
  }

  /** At a separator the pieces fall into those before it and those after it. */
  lemma {:induction false} PiecesConcat(a: Text, b: Text, sep: Unit)
    ensures Pieces(a + ([sep] + b), sep) == Pieces(a, sep) + Pieces(b, sep)
  {
    if a == [] {
      EmptyConcat([sep] + b);
      assert ([sep] + b)[1..] == b;
    } else {
      PiecesConcat(a[1..], b, sep);
      DropConcat(a, [sep] + b, 1);
      assert (a + ([sep] + b))[0] == a[0];
      var p := Pieces(a[1..], sep);
      PrependPiece(a[0], p, Pieces(b, sep), sep);
    }
  }

  lemma PrependPiece(u: Unit, p: seq<Text>, q: seq<Text>, sep: Unit)
    requires p != []
    ensures [[]] + (p + q) == [[]] + p + q
    ensures (p + q)[0] == p[0] && [[u] + (p + q)[0]] + (p + q)[1..] == [[u] + p[0]] + p[1..] + q
  {
    DropConcat(p, q, 1);
  }

  /** The pieces of a join are the pieces of its parts. */
  lemma {:induction false} PiecesOfJoin(parts: seq<Text>, sep: Unit)
    requires parts != []
    ensures Pieces(Join(parts, sep), sep) == AllPieces(parts, sep)
  {
    assert parts == [parts[0]] + parts[1..];
    if |parts| == 1 {
      EmptyConcat(Pieces(parts[0], sep));
      assert AllPieces(parts[1..], sep) == [];
    } else {
      PiecesOfJoin(parts[1..], sep);
      JoinCons(parts[0], parts[1..], sep);
      PiecesConcat(parts[0], Join(parts[1..], sep), sep);
    }
  }

  /** Parts that are free of the separator are the pieces of their join. */
  lemma {:induction false} PiecesOfFreeJoin(parts: seq<Text>, sep: Unit)
    requires parts != [] && AllFree(parts, sep)
    ensures Pieces(Join(parts, sep), sep) == parts
  {
    PiecesOfJoin(parts, sep);
    AllPiecesOfFree(parts, sep);
  }

  lemma {:induction false} AllPiecesOfFree(parts: seq<Text>, sep: Unit)
    requires AllFree(parts, sep)
    ensures AllPieces(parts, sep) == parts
  {
    if parts != [] {
      PiecesOfFree(parts[0], sep);
      AllPiecesOfFree(parts[1..], sep);
      assert parts == [parts[0]] + parts[1..];
    }
  }

  // ----- an id with its digest -----

  /** `id:digest`. */
  function Link(id: Text, digest: Text): Text {
    id + [COLON] + digest
  }

  /** A link determines the id and the digest, for digests without a colon. */
  lemma LinkInjective(i: Text, d: Text, j: Text, e: Text)
    requires Free(d, COLON) && Free(e, COLON) && Link(i, d) == Link(j, e)
    ensures i == j && d == e
  {
    LastPart(i, d, COLON);
    LastPart(j, e, COLON);
  }
}
