/** UTF-8, which every digest of a text is taken over, and which texts it confuses. */
module Encoding {
  import opened Texts

  type Byte = b: int | 0 <= b < 256
  type Bytes = seq<Byte>

  /** The text starts with a surrogate pair. */
  predicate StartsPair(t: Text) {
    |t| >= 2 && IsHigh(t[0]) && IsLow(t[1])
  }

  type Scalar = c: int | 0 <= c <= 0x10FFFF

  function PairValue(hi: Unit, lo: Unit): Scalar
    requires IsHigh(hi) && IsLow(lo)
  {
    0x10000 + (hi - 0xD800) * 0x400 + (lo - 0xDC00)
  }

  /** Section 3 of RFC 3629. */
  function EncodeScalar(c: Scalar): (r: seq<Byte>)
    ensures |r| == if c < 0x80 then 1 else if c < 0x800 then 2 else if c < 0x10000 then 3 else 4
  {
    if c < 0x80 then [c]
    else if c < 0x800 then [0xC0 + c / 0x40, 0x80 + c % 0x40]
    else if c < 0x10000 then [0xE0 + c / 0x1000, 0x80 + c / 0x40 % 0x40, 0x80 + c % 0x40]
    else [0xF0 + c / 0x40000, 0x80 + c / 0x1000 % 0x40, 0x80 + c / 0x40 % 0x40, 0x80 + c % 0x40]
  }

  const REPLACEMENT: Scalar := 0xFFFD

  /** `Buffer.from(t, 'utf8')`: a surrogate without its partner is written as the replacement character. */
  function Utf8(t: Text): seq<Byte> {
    if t == [] then []
    else if StartsPair(t) then EncodeScalar(PairValue(t[0], t[1])) + Utf8(t[2..])
    else if IsHigh(t[0]) || IsLow(t[0]) then EncodeScalar(REPLACEMENT) + Utf8(t[1..])
    else EncodeScalar(t[0]) + Utf8(t[1..])
  }

  /** `Buffer.byteLength(t, 'utf8')`, counted without encoding. */
  function ByteLength(t: Text): nat {
    if t == [] then 0
    else if StartsPair(t) then 4 + ByteLength(t[2..])
    else (if t[0] < 0x80 then 1 else if t[0] < 0x800 then 2 else 3) + ByteLength(t[1..])
  }

  lemma {:induction false} ByteLengthExact(t: Text)
    ensures ByteLength(t) == |Utf8(t)|
  {
    if t != [] {
      ByteLengthExact(if StartsPair(t) then t[2..] else t[1..]);
    }
  }

  /** The cut between `a` and `b` falls inside a surrogate pair. */
  predicate CutsPair(a: Text, b: Text) {
    a != [] && b != [] && IsHigh(a[|a| - 1]) && IsLow(b[0])
  }

  lemma HeadOf(a: Text, b: Text)
    requires a != [] && (StartsPair(a) || !CutsPair(a, b) || |a| > 1)
    ensures StartsPair(a + b) == StartsPair(a)
    ensures StartsPair(a) ==> (a + b)[2..] == a[2..] + b
    ensures (a + b)[1..] == a[1..] + b && (a + b)[0] == a[0]
  {
    DropConcat(a, b, 1);
    if |a| >= 2 {
      DropConcat(a, b, 2);
    }
  }

  /** Away from a cut pair, the encoding of a text is the encodings of its two parts, one after the other. */
  lemma {:induction false} Utf8Concat(a: Text, b: Text)
    requires !CutsPair(a, b)
    ensures Utf8(a + b) == Utf8(a) + Utf8(b)
  {
    if a == [] {
      EmptyConcat(b);
      EmptyConcat(Utf8(b));
    } else {
      HeadOf(a, b);
      var n := if StartsPair(a) then 2 else 1;
      Utf8Concat(a[n..], b);
      var head := EncodeScalar(if StartsPair(a) then PairValue(a[0], a[1]) else if IsHigh(a[0]) || IsLow(a[0]) then REPLACEMENT else a[0]);
      assert Utf8(a) == head + Utf8(a[n..]);
      assert Utf8(a + b) == head + Utf8(a[n..] + b);
      ConcatAssociative(head, Utf8(a[n..]), Utf8(b));
    }
  }

  /** More text always means more bytes, wherever the cut falls. */
  lemma {:induction false} LongerText(a: Text, b: Text)
    requires b != []
    ensures ByteLength(a) < ByteLength(a + b)
  {
    if a == [] {
      EmptyConcat(b);
    } else if |a| == 1 && CutsPair(a, b) {
      assert StartsPair(a + b);
      assert a[1..] == [];
    } else {
      HeadOf(a, b);
      LongerText(if StartsPair(a) then a[2..] else a[1..], b);
    }
  }

  // ----- what the encoding keeps of a text -----

  predicate IsSurrogate(u: Unit) {
    IsHigh(u) || IsLow(u)
  }

  /** The text with every surrogate that has no partner replaced. */
  function Repaired(t: Text): (r: Text)
    ensures |r| == |t|
    ensures forall i :: 0 <= i < |t| ==> r[i] == t[i] || (IsSurrogate(t[i]) && r[i] == REPLACEMENT)
  {
    if t == [] then []
    else if StartsPair(t) then [t[0], t[1]] + Repaired(t[2..])
    else [if IsSurrogate(t[0]) then REPLACEMENT else t[0]] + Repaired(t[1..])
  }

  /** The scalar that is encoded first, and the units it stands for. */
  function HeadScalar(t: Text): Scalar
    requires t != []
  {
    if StartsPair(t) then PairValue(t[0], t[1]) else if IsSurrogate(t[0]) then REPLACEMENT else t[0]
  }

  function HeadUnits(t: Text): nat {
    if StartsPair(t) then 2 else 1
  }

  function UnitsOf(c: Scalar): Text {
    if c < 0x10000 then [c] else [0xD800 + (c - 0x10000) / 0x400, 0xDC00 + (c - 0x10000) % 0x400]
  }

  lemma HeadStep(t: Text)
    requires t != []
    ensures |t| >= HeadUnits(t)
    ensures Utf8(t) == EncodeScalar(HeadScalar(t)) + Utf8(t[HeadUnits(t)..])
    ensures Repaired(t) == UnitsOf(HeadScalar(t)) + Repaired(t[HeadUnits(t)..])
  {
    hide EncodeScalar, PairValue, UnitsOf;
    if StartsPair(t) {
      UnitsOfPair(t[0], t[1]);
    } else {
      UnitsOfUnit(HeadScalar(t));
    }
  }

  lemma UnitsOfPair(hi: Unit, lo: Unit)
    requires IsHigh(hi) && IsLow(lo)
    ensures UnitsOf(PairValue(hi, lo)) == [hi, lo]
  {
    var d := (hi - 0xD800) * 0x400 + (lo - 0xDC00);
    assert PairValue(hi, lo) == 0x10000 + d;
    assert d / 0x400 == hi - 0xD800 && d % 0x400 == lo - 0xDC00;
  }

  lemma UnitsOfUnit(c: Scalar)
    requires c < 0x10000
    ensures UnitsOf(c) == [c]
  {
  }

  /** How many bytes a scalar takes can be told from the first of them. */
  function Width(b: Byte): nat {
    if b < 0x80 then 1 else if b < 0xE0 then 2 else if b < 0xF0 then 3 else 4
  }

  lemma WidthOfScalar(c: Scalar)
    ensures Width(EncodeScalar(c)[0]) == |EncodeScalar(c)|
  {
  }

  /** The scalar that one to four bytes stand for. */
  function DecodeScalar(s: Bytes): int {
    if |s| == 1 then s[0]
    else if |s| == 2 then (s[0] as int - 0xC0) * 0x40 + (s[1] as int - 0x80)
    else if |s| == 3 then (s[0] as int - 0xE0) * 0x1000 + (s[1] as int - 0x80) * 0x40 + (s[2] as int - 0x80)
    else if |s| == 4 then (s[0] as int - 0xF0) * 0x40000 + (s[1] as int - 0x80) * 0x1000 + (s[2] as int - 0x80) * 0x40 + (s[3] as int - 0x80)
    else 0
  }

  lemma DecodeTwo(c: Scalar)
    requires 0x80 <= c < 0x800
    ensures DecodeScalar(EncodeScalar(c)) == c
  {
  }

  lemma DecodeThree(c: Scalar)
    requires 0x800 <= c < 0x10000
    ensures DecodeScalar(EncodeScalar(c)) == c
  {
    assert c / 0x40 / 0x40 == c / 0x1000;
  }

  lemma DecodeFour(c: Scalar)
    requires 0x10000 <= c
    ensures DecodeScalar(EncodeScalar(c)) == c
  {
    assert c / 0x40 / 0x40 == c / 0x1000 && c / 0x1000 / 0x40 == c / 0x40000;
  }

  lemma ScalarInjective(c: Scalar, d: Scalar)
    requires EncodeScalar(c) == EncodeScalar(d)
    ensures c == d
  {
    ScalarDecodes(c);
    ScalarDecodes(d);
    hide EncodeScalar, DecodeScalar;
  }

  lemma ScalarDecodes(c: Scalar)
    ensures DecodeScalar(EncodeScalar(c)) == c
  {
    if c < 0x80 {
      assert EncodeScalar(c) == [c];
    } else if c < 0x800 {
      DecodeTwo(c);
    } else if c < 0x10000 {
      DecodeThree(c);
    } else {
      DecodeFour(c);
    }
  }

  /** No encoding of a scalar is the beginning of another's. */
  lemma ScalarPrefix(c: Scalar, x: Bytes, d: Scalar, y: Bytes)
    requires EncodeScalar(c) + x == EncodeScalar(d) + y
    ensures c == d && x == y
  {
    WidthOfScalar(c);
    WidthOfScalar(d);
    var s, t := EncodeScalar(c), EncodeScalar(d);
    assert s[0] == (s + x)[0] == (t + y)[0] == t[0];
    SplitConcat(s, x);
    SplitConcat(t, y);
    ScalarInjective(c, d);
  }

  lemma {:induction false} SameBytesSameRepair(a: Text, b: Text)
    requires Utf8(a) == Utf8(b)
    ensures Repaired(a) == Repaired(b)
    decreases |a|
  {
    hide EncodeScalar, HeadScalar, UnitsOf, Repaired;
    if a != [] && b != [] {
      HeadStep(a);
      HeadStep(b);
      ScalarPrefix(HeadScalar(a), Utf8(a[HeadUnits(a)..]), HeadScalar(b), Utf8(b[HeadUnits(b)..]));
      SameBytesSameRepair(a[HeadUnits(a)..], b[HeadUnits(b)..]);
    } else {
      ByteLengthExact(a);
      ByteLengthExact(b);
      assert a == [] && b == [] by {
        NoBytes(a);
        NoBytes(b);
      }
    }
  }

  lemma NoBytes(t: Text)
    ensures Utf8(t) == [] <==> t == []
  {
  }

  lemma {:induction false} RepairedEncodes(t: Text)
    ensures Utf8(Repaired(t)) == Utf8(t)
  {
    if t != [] {
      var n, r := HeadUnits(t), Repaired(t);
      RepairedEncodes(t[n..]);
      HeadStep(t);
      assert r[n..] == Repaired(t[n..]);
      assert StartsPair(r) == StartsPair(t) && HeadScalar(r) == HeadScalar(t) by {
        RepairedHead(t);
      }
      hide EncodeScalar, HeadScalar, UnitsOf, Repaired;
      HeadStep(r);
    }
  }

  lemma RepairedHead(t: Text)
    requires t != []
    ensures StartsPair(Repaired(t)) == StartsPair(t) && HeadScalar(Repaired(t)) == HeadScalar(t)
  {
  }

  /** Two texts share an encoding exactly when they differ in nothing but surrogates without a partner and
      replacement characters. */
  lemma EncodingExact(a: Text, b: Text)
    ensures Utf8(a) == Utf8(b) <==> Repaired(a) == Repaired(b)
  {
    hide Utf8, Repaired;
    if Utf8(a) == Utf8(b) {
      SameBytesSameRepair(a, b);
    }
    RepairedEncodes(a);
    RepairedEncodes(b);
  }

  // ----- texts that the encoding keeps -----

  /** A surrogate at this place has its partner beside it. */
  predicate PartneredAt(t: Text, i: nat)
    requires i < |t|
  {
    && (IsHigh(t[i]) ==> i + 1 < |t| && IsLow(t[i + 1]))
    && (IsLow(t[i]) ==> 0 < i && IsHigh(t[i - 1]))
  }

  /** Every surrogate has its partner. */
  predicate Paired(t: Text) {
    forall i :: 0 <= i < |t| ==> PartneredAt(t, i)
  }

  lemma PartneredLater(t: Text, n: nat, i: nat)
    requires n + i < |t| && 0 < n && !CutsPair(t[..n], t[n..])
    ensures PartneredAt(t, n + i) <==> PartneredAt(t[n..], i)
  {
    var rest := t[n..];
    assert rest[i] == t[n + i] && (i + 1 < |rest| ==> rest[i + 1] == t[n + i + 1]);
    if i > 0 {
      assert rest[i - 1] == t[n + i - 1];
    } else {
      assert t[..n][n - 1] == t[n - 1];
    }
  }

  lemma PairedStep(t: Text)
    requires t != []
    ensures var n := HeadUnits(t);
            n <= |t| && (Paired(t) <==> (n == 1 ==> !IsSurrogate(t[0])) && Paired(t[n..]))
  {
    var n := HeadUnits(t);
    assert PartneredAt(t, 0) <==> (n == 1 ==> !IsSurrogate(t[0]));
    assert n == 2 ==> PartneredAt(t, 1);
    assert !CutsPair(t[..n], t[n..]);
    forall i: nat | i < |t| - n ensures PartneredAt(t, n + i) <==> PartneredAt(t[n..], i) {
      PartneredLater(t, n, i);
    }
    hide PartneredAt;
    if Paired(t[n..]) {
      forall i | n <= i < |t| ensures PartneredAt(t, i) <==> PartneredAt(t[n..], i - n) {
        assert i == n + (i - n);
      }
    }
  }

  /** The repair changes nothing exactly when every surrogate has its partner. */
  lemma {:induction false} RepairedExactly(t: Text)
    ensures Repaired(t) == t <==> Paired(t)
  {
    if t != [] {
      var n := HeadUnits(t);
      PairedStep(t);
      RepairedExactly(t[n..]);
      assert t == t[..n] + t[n..];
      hide Paired;
    }
  }

  lemma RepairedIsPaired(t: Text)
    ensures Paired(Repaired(t)) && Repaired(Repaired(t)) == Repaired(t)
  {
    hide Utf8, Paired, Repaired;
    RepairedEncodes(t);
    EncodingExact(Repaired(t), t);
    RepairedExactly(Repaired(t));
  }

  lemma PlainText(t: Text)
    requires forall i :: 0 <= i < |t| ==> !IsSurrogate(t[i])
    ensures Repaired(t) == t && Paired(t)
  {
  }

  /** On texts without a lone surrogate the encoding loses nothing. */
  lemma EncodingInjective(a: Text, b: Text)
    requires Paired(a) && Paired(b)
    ensures Utf8(a) == Utf8(b) <==> a == b
  {
    hide Utf8, Paired, Repaired;
    EncodingExact(a, b);
    RepairedExactly(a);
    RepairedExactly(b);
  }

  lemma PairedConcat(a: Text, b: Text)
    requires Paired(a) && Paired(b)
    ensures Paired(a + b)
  {
    var s := a + b;
    forall i | 0 <= i < |s| ensures PartneredAt(s, i) {
      if i < |a| {
        assert PartneredAt(a, i);
      } else {
        assert PartneredAt(b, i - |a|);
        assert s[i] == b[i - |a|];
      }
    }
  }

  /** Neither a lone surrogate nor the character that stands for one. */
  predicate Lossless(t: Text) {
    Paired(t) && REPLACEMENT !in t
  }

  /** Away from a cut pair, the repair of a text is that of its parts. */
  lemma {:induction false} RepairedConcat(a: Text, b: Text)
    requires !CutsPair(a, b)
    ensures Repaired(a + b) == Repaired(a) + Repaired(b)
  {
    if a == [] {
      EmptyConcat(b);
      EmptyConcat(Repaired(b));
    } else {
      HeadOf(a, b);
      var n := HeadUnits(a);
      RepairedConcat(a[n..], b);
      HeadStep(a);
      HeadStep(a + b);
      hide Repaired, UnitsOf;
      ConcatAssociative(UnitsOf(HeadScalar(a)), Repaired(a[n..]), Repaired(b));
    }
  }

  function RepairedAll(p: seq<Text>): (r: seq<Text>)
    ensures |r| == |p| && forall i :: 0 <= i < |p| ==> r[i] == Repaired(p[i])
  {
    seq(|p|, i requires 0 <= i < |p| => Repaired(p[i]))
  }

  lemma RepairedUnit(sep: Unit, t: Text)
    requires !IsSurrogate(sep)
    ensures Repaired([sep] + t) == [sep] + Repaired(t)
  {
    assert ([sep] + t)[1..] == t;
  }

  /** The repair of a join is the join of the repairs. */
  lemma {:induction false} RepairedJoin(p: seq<Text>, sep: Unit)
    requires !IsSurrogate(sep)
    ensures Repaired(Join(p, sep)) == Join(RepairedAll(p), sep)
  {
    hide Repaired, CutsPair;
    if |p| == 1 {
      JoinOne(p[0], sep);
      JoinOne(RepairedAll(p)[0], sep);
      assert p == [p[0]] && RepairedAll(p) == [RepairedAll(p)[0]];
    } else if |p| > 1 {
      var rest := Join(p[1..], sep);
      RepairedJoin(p[1..], sep);
      RepairedUnit(sep, rest);
      assert !CutsPair(p[0], [sep] + rest) by { NoCut(p[0], sep, rest); }
      RepairedConcat(p[0], [sep] + rest);
      JoinCons(p[0], p[1..], sep);
      JoinCons(RepairedAll(p)[0], RepairedAll(p)[1..], sep);
      assert p == [p[0]] + p[1..] && RepairedAll(p) == [RepairedAll(p)[0]] + RepairedAll(p)[1..];
      assert RepairedAll(p)[1..] == RepairedAll(p[1..]);
    } else {
      NothingRepaired();
    }
  }

  lemma RepairedFree(t: Text, u: Unit)
    requires u != REPLACEMENT && Free(t, u)
    ensures Free(Repaired(t), u)
  {
  }

  /** Joins without a separator inside their parts have one encoding exactly when their parts do. */
  lemma SameBytesSameParts(p: seq<Text>, q: seq<Text>, sep: Unit)
    requires !IsSurrogate(sep) && sep != REPLACEMENT && AllFree(p, sep) && AllFree(q, sep)
    requires p != [] && q != []
    ensures Utf8(Join(p, sep)) == Utf8(Join(q, sep)) <==> RepairedAll(p) == RepairedAll(q)
  {
    hide Utf8, Repaired, Free;
    EncodingExact(Join(p, sep), Join(q, sep));
    RepairedJoin(p, sep);
    RepairedJoin(q, sep);
    forall i | 0 <= i < |p| ensures Free(RepairedAll(p)[i], sep) {
      RepairedFree(p[i], sep);
    }
    forall i | 0 <= i < |q| ensures Free(RepairedAll(q)[i], sep) {
      RepairedFree(q[i], sep);
    }
    if Join(RepairedAll(p), sep) == Join(RepairedAll(q), sep) {
      JoinInjective(RepairedAll(p), RepairedAll(q), sep);
    }
  }

  lemma RepairedAllPaired(p: seq<Text>)
    requires forall i :: 0 <= i < |p| ==> Paired(p[i])
    ensures RepairedAll(p) == p
  {
    hide Repaired, Paired;
    forall i | 0 <= i < |p| ensures RepairedAll(p)[i] == p[i] {
      RepairedExactly(p[i]);
    }
  }

  lemma RepairedAllLossless(p: seq<Text>, q: seq<Text>)
    requires (forall i :: 0 <= i < |p| ==> Lossless(p[i])) && RepairedAll(p) == RepairedAll(q)
    ensures p == q
  {
    hide Repaired, Paired;
    forall i | 0 <= i < |p| ensures p[i] == q[i] {
      RepairedExactly(p[i]);
      assert RepairedAll(p)[i] == RepairedAll(q)[i];
      KeptWhole(q[i], p[i]);
    }
  }

  lemma NoCut(a: Text, sep: Unit, b: Text)
    requires !IsSurrogate(sep)
    ensures !CutsPair(a, [sep] + b)
  {
  }

  lemma NothingRepaired()
    ensures Repaired([]) == []
  {
  }

  lemma AddReplacement(z: Text)
    requires z == [] || !IsLow(z[0])
    ensures Repaired([0xD800] + z) == [REPLACEMENT] + Repaired(z) == Repaired([REPLACEMENT] + z)
  {
    var s, t := [0xD800] + z, [REPLACEMENT] + z;
    assert s[1..] == z && t[1..] == z;
  }

  /** A replacement character can stand for a lone surrogate in its place. */
  lemma ReplacementHides(t: Text, i: nat)
    requires Paired(t) && i < |t| && t[i] == REPLACEMENT
    ensures Repaired(t[i := 0xD800]) == Repaired(t)
  {
    var x, z := t[..i], t[i + 1..];
    assert t == x + ([REPLACEMENT] + z) && t[i := 0xD800] == x + ([0xD800] + z);
    assert z != [] ==> PartneredAt(t, i + 1) && z[0] == t[i + 1];
    hide Paired, Repaired;
    AddReplacement(z);
    RepairedConcat(x, [REPLACEMENT] + z);
    RepairedConcat(x, [0xD800] + z);
  }

  /** A text that is not kept has a twin: another text with the same encoding, which keeps its other units. */
  lemma HasTwin(t: Text) returns (u: Text)
    requires !Lossless(t)
    ensures u != t && Utf8(u) == Utf8(t)
    ensures |u| == |t| && forall i :: 0 <= i < |t| && !IsSurrogate(t[i]) && t[i] != REPLACEMENT ==> u[i] == t[i]
    ensures forall i :: 0 <= i < |t| && u[i] != t[i] ==> IsSurrogate(u[i]) || u[i] == REPLACEMENT
  {
    RepairedExactly(t);
    RepairedEncodes(t);
    if Paired(t) {
      var i :| 0 <= i < |t| && t[i] == REPLACEMENT;
      u := t[i := 0xD800];
      ReplacementHides(t, i);
      EncodingExact(t, u);
    } else {
      u := Repaired(t);
    }
  }

  /** A text is the only one with its encoding exactly when it holds neither a lone surrogate nor the character
      that stands for one. */
  lemma LosslessExactly(t: Text)
    ensures (forall u: Text :: Utf8(u) == Utf8(t) ==> u == t) <==> Lossless(t)
  {
    hide Utf8, Paired, Repaired;
    if Lossless(t) {
      forall u: Text | Utf8(u) == Utf8(t) ensures u == t {
        EncodingExact(u, t);
        RepairedExactly(t);
        KeptWhole(u, t);
      }
    } else {
      var u := HasTwin(t);
    }
  }

  lemma LosslessAlone(t: Text, u: Text)
    requires Lossless(t) && Utf8(u) == Utf8(t)
    ensures u == t
  {
    LosslessExactly(t);
  }

  lemma KeptWhole(u: Text, t: Text)
    requires Repaired(u) == t && REPLACEMENT !in t
    ensures u == t
  {
    assert forall i :: 0 <= i < |u| ==> Repaired(u)[i] == t[i] && t[i] in t;
  }

  /** The plainest pair: a lone surrogate and the character that stands for one. */
  lemma LoneSurrogateTwin()
    ensures Utf8([0xD800]) == Utf8([REPLACEMENT])
  {
  }

  // ----- a digest that never collides -----

  const LETTER: Unit := 'a' as int

  /** Two letters for each byte. It stands in for a digest where it is shown that what the proofs ask of one can
      be met. */
  function Spelled(b: Bytes): Text {
    if b == [] then [] else [LETTER + b[0] / 16, LETTER + b[0] % 16] + Spelled(b[1..])
  }

  lemma {:induction false} SpelledInjective(a: Bytes, b: Bytes)
    requires Spelled(a) == Spelled(b)
    ensures a == b
  {
    if a != [] && b != [] {
      var s, t := Spelled(a), Spelled(b);
      assert s[0] == t[0] && s[1] == t[1];
      assert s[2..] == Spelled(a[1..]) && t[2..] == Spelled(b[1..]);
      SpelledInjective(a[1..], b[1..]);
      assert a == [a[0]] + a[1..] && b == [b[0]] + b[1..];
    }
  }

  lemma {:induction false} SpelledPlain(b: Bytes)
    ensures forall i :: 0 <= i < |Spelled(b)| ==> LETTER <= Spelled(b)[i] < LETTER + 16
  {
    if b != [] {
      SpelledPlain(b[1..]);
    }
  }
}
