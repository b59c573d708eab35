/** supervised/finding.js: when two findings share an id. */
module Identity {
  import opened Texts
  import opened Encoding
  import opened Finding
  import opened Fingerprint

  // ----- the pieces of a basis, and how they can be read -----

  /** The same rule over the same bytes, in the same class, jurisdiction, catalogue, engine and kind. */
  predicate SameScope(a: Content, b: Content) {
    && a.ruleId == b.ruleId && a.class_ == b.class_ && a.jurisdiction == b.jurisdiction
    && a.catalogueHash == b.catalogueHash && a.engineVersion == b.engineVersion
    && a.quote == b.quote && a.kind == b.kind
  }

  predicate SameClaim(a: Content, b: Content) {
    SameScope(a, b) && SameCoverage(a.coverage, b.coverage)
  }

  /** The pieces between the bars of a basis, up to the byte range. */
  function Head(c: Content): seq<Text> {
    Pieces(c.ruleId, BAR)
    + ([ClassName(c.class_)]
       + (Pieces(c.jurisdiction, BAR) + (Pieces(c.catalogueHash, BAR) + (Pieces(c.engineVersion, BAR) + Pieces(c.quote.evidenceId, BAR)))))
  }

  /** The last four pieces: none of them ever holds a bar. */
  function Tail(digest: Bytes -> Text, c: Content): seq<Text> {
    [RangeText(c.quote), c.quote.sha256, KindName(c.kind), CoverageFingerprint(digest, c.coverage)]
  }

  function HeadParts(c: Content): seq<Text> {
    [c.ruleId, ClassName(c.class_), c.jurisdiction, c.catalogueHash, c.engineVersion, c.quote.evidenceId]
  }

  lemma AllPiecesCons(t: Text, rest: seq<Text>)
    ensures AllPieces([t] + rest, BAR) == Pieces(t, BAR) + AllPieces(rest, BAR)
  {
    assert ([t] + rest)[1..] == rest;
  }

  lemma {:induction false} AllPiecesConcat(a: seq<Text>, b: seq<Text>)
    ensures AllPieces(a + b, BAR) == AllPieces(a, BAR) + AllPieces(b, BAR)
  {
    if a == [] {
      EmptyConcat(b);
      EmptyConcat(AllPieces(b, BAR));
    } else {
      AllPiecesConcat(a[1..], b);
      DropConcat(a, b, 1);
      ConcatAssociative(Pieces(a[0], BAR), AllPieces(a[1..], BAR), AllPieces(b, BAR));
    }
  }

  lemma HeadPieces(c: Content)
    ensures AllPieces(HeadParts(c), BAR) == Head(c)
  {
    var p := HeadParts(c);
    ClassNames(c.class_, c.class_);
    PiecesOfFree(ClassName(c.class_), BAR);
    hide Pieces, ClassName, AllPieces;
    AllPiecesCons(p[0], p[1..]);
    AllPiecesCons(p[1], p[2..]);
    AllPiecesCons(p[2], p[3..]);
    AllPiecesCons(p[3], p[4..]);
    AllPiecesCons(p[4], p[5..]);
    LastPieces(p[5]);
    assert p == [p[0]] + p[1..] && p[1..] == [p[1]] + p[2..] && p[2..] == [p[2]] + p[3..];
    assert p[3..] == [p[3]] + p[4..] && p[4..] == [p[4]] + p[5..] && p[5..] == [p[5]];
  }

  lemma LastPieces(t: Text)
    ensures AllPieces([t], BAR) == Pieces(t, BAR)
  {
    assert [t][1..] == [];
    EmptyConcat(Pieces(t, BAR));
  }

  lemma TailFree(digest: Bytes -> Text, c: Content)
    requires GoodDigest(digest) && Shaped(c)
    ensures AllFree(Tail(digest, c), BAR)
  {
    RangeInjective(c.quote, c.quote);
    KindFree(c.kind);
    HexFree(c.quote.sha256, BAR);
    hide RangeText, KindName, CoverageBasis, NonBlank, IsHex64, CoverageShaped;
  }

  lemma PiecesOfBasis(digest: Bytes -> Text, c: Content)
    requires GoodDigest(digest) && Shaped(c)
    ensures Pieces(Join(BasisParts(digest, c), BAR), BAR) == Head(c) + Tail(digest, c)
  {
    TailFree(digest, c);
    HeadPieces(c);
    assert BasisParts(digest, c) == HeadParts(c) + Tail(digest, c);
    hide Head, Tail, Pieces, AllPieces, Join, Shaped, GoodDigest;
    PiecesOfJoin(BasisParts(digest, c), BAR);
    AllPiecesConcat(HeadParts(c), Tail(digest, c));
    AllPiecesOfFree(Tail(digest, c), BAR);
  }

  function Basis(digest: Bytes -> Text, c: Content): Text {
    Join(BasisParts(digest, c), BAR)
  }

  /** Two shaped findings have one basis exactly when the bases fall into the same pieces. */
  lemma SameBasisSamePieces(digest: Bytes -> Text, a: Content, b: Content)
    requires GoodDigest(digest) && Shaped(a) && Shaped(b)
    ensures Basis(digest, a) == Basis(digest, b) <==> Head(a) == Head(b) && Tail(digest, a) == Tail(digest, b)
  {
    var x, y := Join(BasisParts(digest, a), BAR), Join(BasisParts(digest, b), BAR);
    PiecesOfBasis(digest, a);
    PiecesOfBasis(digest, b);
    PiecesJoin(x, BAR);
    PiecesJoin(y, BAR);
    assert |Tail(digest, a)| == 4 && |Tail(digest, b)| == 4;
    hide Head, Tail, Pieces, Join, Shaped, BasisParts;
    if Head(a) + Tail(digest, a) == Head(b) + Tail(digest, b) {
      EqualEnds(Head(a), Tail(digest, a), Head(b), Tail(digest, b));
    }
  }

  lemma EqualEnds<T>(a: seq<T>, x: seq<T>, b: seq<T>, y: seq<T>)
    requires a + x == b + y && |x| == |y|
    ensures a == b && x == y
  {
    assert |a| == |b|;
    SplitConcat(a, x);
    SplitConcat(b, y);
  }

  // ----- what is hashed of a finding -----

  /** The finding as the digest sees it: every surrogate without a partner replaced in the texts of its scope. */
  function AsHashed(c: Content): Content {
    c.(ruleId := Repaired(c.ruleId), jurisdiction := Repaired(c.jurisdiction), catalogueHash := Repaired(c.catalogueHash),
       engineVersion := Repaired(c.engineVersion), quote := c.quote.(evidenceId := Repaired(c.quote.evidenceId)))
  }

  /** No text of the scope holds a lone surrogate or the character that stands for one. */
  predicate Kept(c: Content) {
    && Lossless(c.ruleId) && Lossless(c.jurisdiction) && Lossless(c.catalogueHash)
    && Lossless(c.engineVersion) && Lossless(c.quote.evidenceId)
  }

  lemma RepairedNonBlank(t: Text)
    ensures NonBlank(Repaired(t)) <==> NonBlank(t)
  {
    hide Repaired;
    var r := Repaired(t);
    forall i | 0 <= i < |t| ensures IsSpace(r[i]) <==> IsSpace(t[i]) {
    }
  }

  lemma ShapedAsHashed(c: Content)
    ensures Shaped(AsHashed(c)) <==> Shaped(c)
  {
    RepairedNonBlank(c.ruleId);
    RepairedNonBlank(c.jurisdiction);
    RepairedNonBlank(c.catalogueHash);
    RepairedNonBlank(c.engineVersion);
    RepairedNonBlank(c.quote.evidenceId);
    hide NonBlank, Repaired, IsHex64, CoverageShaped;
  }

  lemma AsciiKept(t: Text)
    requires forall i :: 0 <= i < |t| ==> t[i] < 0x80
    ensures Repaired(t) == t
  {
    PlainText(t);
  }

  lemma KindKept(k: Kind)
    ensures Repaired(KindName(k)) == KindName(k)
  {
    AsciiKept(KindName(k));
  }

  lemma ClassKept(c: Class)
    ensures Repaired(ClassName(c)) == ClassName(c) && REPLACEMENT !in ClassName(c)
  {
    AsciiKept(ClassName(c));
  }

  lemma RangeKept(q: Span)
    ensures Repaired(RangeText(q)) == RangeText(q)
  {
    DecimalKept(q.byteStart);
    DecimalKept(q.byteEnd);
    PlainText(RangeText(q));
  }

  lemma FingerprintKept(digest: Bytes -> Text, c: Option<Coverage>)
    requires GoodDigest(digest)
    ensures Repaired(CoverageFingerprint(digest, c)) == CoverageFingerprint(digest, c)
  {
    hide CoverageBasis, Utf8, Free;
    RepairedExactly(CoverageFingerprint(digest, c));
  }

  lemma HeadAsHashed(c: Content)
    ensures RepairedAll(HeadParts(c)) == HeadParts(AsHashed(c))
  {
    ClassKept(c.class_);
    hide Repaired, ClassName;
  }

  lemma TailKept(digest: Bytes -> Text, c: Content)
    requires GoodDigest(digest) && IsHex64(c.quote.sha256)
    ensures RepairedAll(Tail(digest, c)) == Tail(digest, c)
  {
    RangeKept(c.quote);
    HexKept(c.quote.sha256);
    PlainText(c.quote.sha256);
    KindKept(c.kind);
    FingerprintKept(digest, c.coverage);
    hide Repaired, RangeText, KindName, CoverageFingerprint, GoodDigest, IsHex64;
  }

  lemma PartsAre(digest: Bytes -> Text, c: Content)
    ensures BasisParts(digest, c) == HeadParts(c) + Tail(digest, c)
  {
    hide ClassName, RangeText, KindName, CoverageFingerprint;
  }

  lemma PartsAsHashed(digest: Bytes -> Text, c: Content)
    requires GoodDigest(digest) && IsHex64(c.quote.sha256)
    ensures RepairedAll(BasisParts(digest, c)) == BasisParts(digest, AsHashed(c))
  {
    HeadAsHashed(c);
    TailKept(digest, c);
    SameTail(digest, c);
    PartsAre(digest, c);
    PartsAre(digest, AsHashed(c));
    hide HeadParts, Tail, BasisParts, AsHashed, Repaired, GoodDigest;
  }

  lemma SameRange(c: Content)
    ensures RangeText(AsHashed(c).quote) == RangeText(c.quote)
  {
  }

  /** Two findings share an id exactly when they have one basis as the digest sees them. */
  lemma SameIdSameBasis(digest: Bytes -> Text, a: Content, b: Content)
    requires GoodDigest(digest) && Shaped(a) && Shaped(b)
    ensures DeriveId(digest, a) == DeriveId(digest, b) <==> Basis(digest, AsHashed(a)) == Basis(digest, AsHashed(b))
  {
    PartsAsHashed(digest, a);
    PartsAsHashed(digest, b);
    hide BasisParts, AsHashed, Shaped, Repaired, Utf8, Join;
    RepairedJoin(BasisParts(digest, a), BAR);
    RepairedJoin(BasisParts(digest, b), BAR);
    EncodingExact(Basis(digest, a), Basis(digest, b));
  }

  /** And that is when their bases fall into the same pieces. */
  lemma SameIdSamePieces(digest: Bytes -> Text, a: Content, b: Content)
    requires GoodDigest(digest) && Shaped(a) && Shaped(b)
    ensures DeriveId(digest, a) == DeriveId(digest, b)
       <==> Head(AsHashed(a)) == Head(AsHashed(b)) && Tail(digest, a) == Tail(digest, b)
  {
    SameIdSameBasis(digest, a, b);
    ShapedAsHashed(a);
    ShapedAsHashed(b);
    SameTail(digest, a);
    SameTail(digest, b);
    hide Head, Tail, AsHashed, DeriveId, Basis, GoodDigest, Shaped;
    SameBasisSamePieces(digest, AsHashed(a), AsHashed(b));
  }

  lemma SameTail(digest: Bytes -> Text, c: Content)
    ensures Tail(digest, AsHashed(c)) == Tail(digest, c)
  {
    SameRange(c);
    hide RangeText, CoverageFingerprint, Repaired;
  }

  lemma KeptAsHashed(c: Content)
    requires Kept(c)
    ensures AsHashed(c) == c
  {
    RepairedExactly(c.ruleId);
    RepairedExactly(c.jurisdiction);
    RepairedExactly(c.catalogueHash);
    RepairedExactly(c.engineVersion);
    RepairedExactly(c.quote.evidenceId);
    hide Repaired, Paired;
  }

  // ----- readings -----

  /** Where the class name stands among the pieces, and where jurisdiction, catalogue and engine end. */
  datatype Cut = Cut(class_: nat, jurisdiction: nat, catalogue: nat, engine: nat)

  predicate InBounds(h: seq<Text>, cut: Cut) {
    0 < cut.class_ && cut.class_ + 1 < cut.jurisdiction < cut.catalogue < cut.engine < |h|
  }

  predicate IsClassName(t: Text) {
    t == ClassName(Confirmed) || t == ClassName(Likely) || t == ClassName(NeedsHuman)
  }

  function ClassOf(t: Text): Class {
    if t == ClassName(Confirmed) then Confirmed else if t == ClassName(Likely) then Likely else NeedsHuman
  }

  function PartOf(h: seq<Text>, from: nat, to: nat): Text
    requires from <= to <= |h|
  {
    Join(h[from..to], BAR)
  }

  /** The pieces can be read with these cuts: a class name where the class belongs, and no blank field. */
  predicate Fits(h: seq<Text>, cut: Cut) {
    && InBounds(h, cut) && IsClassName(h[cut.class_])
    && NonBlank(PartOf(h, 0, cut.class_))
    && NonBlank(PartOf(h, cut.class_ + 1, cut.jurisdiction))
    && NonBlank(PartOf(h, cut.jurisdiction, cut.catalogue))
    && NonBlank(PartOf(h, cut.catalogue, cut.engine))
    && NonBlank(PartOf(h, cut.engine, |h|))
  }

  /** How the finding itself reads its pieces. */
  function OwnCut(c: Content): Cut {
    var i := |Pieces(c.ruleId, BAR)|;
    var j := i + 1 + |Pieces(c.jurisdiction, BAR)|;
    var k := j + |Pieces(c.catalogueHash, BAR)|;
    Cut(i, j, k, k + |Pieces(c.engineVersion, BAR)|)
  }

  /** The finding with its pieces read another way. */
  function Reading(c: Content, cut: Cut): Content
    requires InBounds(Head(c), cut)
  {
    var h := Head(c);
    c.(ruleId := PartOf(h, 0, cut.class_), class_ := ClassOf(h[cut.class_]),
       jurisdiction := PartOf(h, cut.class_ + 1, cut.jurisdiction),
       catalogueHash := PartOf(h, cut.jurisdiction, cut.catalogue),
       engineVersion := PartOf(h, cut.catalogue, cut.engine),
       quote := c.quote.(evidenceId := PartOf(h, cut.engine, |h|)))
  }

  lemma Slices<T>(x: seq<T>, y: T, a: seq<T>, b: seq<T>, c: seq<T>, d: seq<T>)
    ensures var h := x + ([y] + (a + (b + (c + d))));
            var j := |x| + 1 + |a|;
            && |h| == j + |b| + |c| + |d|
            && h[..|x|] == x && h[|x|] == y && h[|x| + 1..j] == a && h[j..j + |b|] == b
            && h[j + |b|..j + |b| + |c|] == c && h[j + |b| + |c|..] == d
  {
  }

  lemma Reassembled<T>(h: seq<T>, i: nat, j: nat, k: nat, l: nat)
    requires i < j <= k <= l <= |h|
    ensures h == h[..i] + ([h[i]] + (h[i + 1..j] + (h[j..k] + (h[k..l] + h[l..]))))
  {
  }

  /** The fields of a finding are the parts that its own cut reads from its pieces. */
  lemma OwnReading(c: Content)
    ensures InBounds(Head(c), OwnCut(c))
    ensures Head(c)[OwnCut(c).class_] == ClassName(c.class_)
    ensures PartOf(Head(c), 0, OwnCut(c).class_) == c.ruleId
    ensures PartOf(Head(c), OwnCut(c).class_ + 1, OwnCut(c).jurisdiction) == c.jurisdiction
    ensures PartOf(Head(c), OwnCut(c).jurisdiction, OwnCut(c).catalogue) == c.catalogueHash
    ensures PartOf(Head(c), OwnCut(c).catalogue, OwnCut(c).engine) == c.engineVersion
    ensures PartOf(Head(c), OwnCut(c).engine, |Head(c)|) == c.quote.evidenceId
  {
    var h := Head(c);
    Slices(Pieces(c.ruleId, BAR), ClassName(c.class_), Pieces(c.jurisdiction, BAR), Pieces(c.catalogueHash, BAR),
           Pieces(c.engineVersion, BAR), Pieces(c.quote.evidenceId, BAR));
    PiecesJoin(c.ruleId, BAR);
    PiecesJoin(c.jurisdiction, BAR);
    PiecesJoin(c.catalogueHash, BAR);
    PiecesJoin(c.engineVersion, BAR);
    PiecesJoin(c.quote.evidenceId, BAR);
    hide Pieces, Join, ClassName;
    assert h[0..OwnCut(c).class_] == h[..OwnCut(c).class_];
    assert h[OwnCut(c).engine..|h|] == h[OwnCut(c).engine..];
  }

  lemma ClassOfName(c: Class)
    ensures IsClassName(ClassName(c)) && ClassOf(ClassName(c)) == c
  {
    ClassNames(c, Confirmed);
    ClassNames(c, Likely);
    hide ClassName;
  }

  lemma NameOfClass(t: Text)
    requires IsClassName(t)
    ensures ClassName(ClassOf(t)) == t
  {
  }

  lemma OwnCutFits(c: Content)
    requires Shaped(c)
    ensures Fits(Head(c), OwnCut(c))
  {
    OwnReading(c);
    ClassOfName(c.class_);
    hide Head, OwnCut, PartOf, NonBlank, IsClassName, CoverageShaped, IsHex64;
  }

  /** Pieces read with one cut give the same fields. */
  lemma SameHeadSameCut(a: Content, b: Content)
    requires Head(a) == Head(b) && OwnCut(a) == OwnCut(b)
    ensures a.ruleId == b.ruleId && a.class_ == b.class_ && a.jurisdiction == b.jurisdiction
    ensures a.catalogueHash == b.catalogueHash && a.engineVersion == b.engineVersion && a.quote.evidenceId == b.quote.evidenceId
  {
    OwnReading(a);
    OwnReading(b);
    ClassNames(a.class_, b.class_);
    hide Head, OwnCut, PartOf, ClassName;
  }

  lemma HeadFree(c: Content)
    ensures AllFree(Head(c), BAR)
  {
    PiecesAreFree(c.ruleId, BAR);
    PiecesAreFree(c.jurisdiction, BAR);
    PiecesAreFree(c.catalogueHash, BAR);
    PiecesAreFree(c.engineVersion, BAR);
    PiecesAreFree(c.quote.evidenceId, BAR);
    ClassNames(c.class_, c.class_);
    hide Pieces, ClassName, Free;
  }

  lemma SliceFree(h: seq<Text>, from: nat, to: nat)
    requires AllFree(h, BAR) && from < to <= |h|
    ensures Pieces(PartOf(h, from, to), BAR) == h[from..to]
  {
    PiecesOfFreeJoin(h[from..to], BAR);
  }

  /** Another cut that fits gives another finding with the same pieces. */
  lemma ReadingReads(c: Content, cut: Cut)
    requires Fits(Head(c), cut)
    ensures Head(Reading(c, cut)) == Head(c) && OwnCut(Reading(c, cut)) == cut
  {
    hide Fits, Head, Reading, OwnCut;
    ReadingPieces(c, cut);
    ReadingHead(c, cut);
    ReadingCut(c, cut);
  }

  /** The fields of a reading fall into the pieces it was cut from. */
  ghost predicate CutFrom(b: Content, h: seq<Text>, cut: Cut) {
    && InBounds(h, cut)
    && Pieces(b.ruleId, BAR) == h[..cut.class_] && ClassName(b.class_) == h[cut.class_]
    && Pieces(b.jurisdiction, BAR) == h[cut.class_ + 1..cut.jurisdiction]
    && Pieces(b.catalogueHash, BAR) == h[cut.jurisdiction..cut.catalogue]
    && Pieces(b.engineVersion, BAR) == h[cut.catalogue..cut.engine]
    && Pieces(b.quote.evidenceId, BAR) == h[cut.engine..]
  }

  lemma ReadingFields(c: Content, cut: Cut)
    requires InBounds(Head(c), cut)
    ensures var h, b := Head(c), Reading(c, cut);
            && b.ruleId == PartOf(h, 0, cut.class_) && b.class_ == ClassOf(h[cut.class_])
            && b.jurisdiction == PartOf(h, cut.class_ + 1, cut.jurisdiction)
            && b.catalogueHash == PartOf(h, cut.jurisdiction, cut.catalogue)
            && b.engineVersion == PartOf(h, cut.catalogue, cut.engine)
            && b.quote.evidenceId == PartOf(h, cut.engine, |h|)
  {
    hide Head, PartOf, ClassOf;
  }

  lemma ReadingPieces(c: Content, cut: Cut)
    requires Fits(Head(c), cut)
    ensures CutFrom(Reading(c, cut), Head(c), cut)
  {
    var h := Head(c);
    HeadFree(c);
    NameOfClass(h[cut.class_]);
    ReadingFields(c, cut);
    hide Head, Pieces, PartOf, ClassName, ClassOf, NonBlank, AllFree, IsClassName, Reading;
    SliceFree(h, 0, cut.class_);
    SliceFree(h, cut.class_ + 1, cut.jurisdiction);
    SliceFree(h, cut.jurisdiction, cut.catalogue);
    SliceFree(h, cut.catalogue, cut.engine);
    SliceFree(h, cut.engine, |h|);
    assert h[0..cut.class_] == h[..cut.class_] && h[cut.engine..|h|] == h[cut.engine..];
  }

  lemma ReadingHead(c: Content, cut: Cut)
    requires Fits(Head(c), cut) && CutFrom(Reading(c, cut), Head(c), cut)
    ensures Head(Reading(c, cut)) == Head(c)
  {
    var h, b := Head(c), Reading(c, cut);
    Reassembled(h, cut.class_, cut.jurisdiction, cut.catalogue, cut.engine);
    HeadIs(b);
    hide Head, Reading, Pieces, ClassName, NonBlank, PartOf;
  }

  lemma HeadIs(b: Content)
    ensures Head(b) == Pieces(b.ruleId, BAR)
                       + ([ClassName(b.class_)]
                          + (Pieces(b.jurisdiction, BAR)
                             + (Pieces(b.catalogueHash, BAR) + (Pieces(b.engineVersion, BAR) + Pieces(b.quote.evidenceId, BAR)))))
  {
  }

  lemma ReadingCut(c: Content, cut: Cut)
    requires Fits(Head(c), cut) && CutFrom(Reading(c, cut), Head(c), cut)
    ensures OwnCut(Reading(c, cut)) == cut
  {
    OwnCutShape(Reading(c, cut));
    hide Head, Reading, Pieces, ClassName, NonBlank, PartOf, OwnCut;
  }

  lemma ReadingShaped(digest: Bytes -> Text, c: Content, cut: Cut)
    requires Shaped(c) && Fits(Head(c), cut)
    ensures Shaped(Reading(c, cut)) && Tail(digest, Reading(c, cut)) == Tail(digest, c)
  {
    hide Head, PartOf, NonBlank, IsHex64, CoverageShaped, ClassOf;
  }

  // ----- which findings have a look-alike -----

  /** No shaped finding with another scope shares the id. */
  ghost predicate NoLookAlike(digest: Bytes -> Text, c: Content) {
    forall b :: Shaped(b) && DeriveId(digest, b) == DeriveId(digest, c) ==> SameScope(b, c)
  }

  /** The pieces of the basis can be read in one way only. */
  ghost predicate OnlyReading(c: Content) {
    forall cut :: Fits(Head(c), cut) ==> cut == OwnCut(c)
  }

  lemma OneReadingOneScope(digest: Bytes -> Text, c: Content, b: Content)
    requires GoodDigest(digest) && Shaped(c) && Shaped(b) && OnlyReading(AsHashed(c))
    requires DeriveId(digest, b) == DeriveId(digest, c)
    ensures SameScope(AsHashed(b), AsHashed(c))
    ensures CoverageFingerprint(digest, b.coverage) == CoverageFingerprint(digest, c.coverage)
  {
    SameIdSamePieces(digest, b, c);
    ShapedAsHashed(b);
    OwnCutFits(AsHashed(b));
    var x, y := Tail(digest, b), Tail(digest, c);
    assert x[0] == y[0] && x[1] == y[1] && x[2] == y[2] && x[3] == y[3];
    hide Head, OwnCut, Fits, KindName, RangeText, Shaped, DeriveId, GoodDigest, CoverageFingerprint, Repaired;
    SameHeadSameCut(AsHashed(b), AsHashed(c));
    RangeInjective(b.quote, c.quote);
    KindNames(b.kind, c.kind);
  }

  lemma AnotherReadingLooksAlike(digest: Bytes -> Text, c: Content, cut: Cut)
    requires GoodDigest(digest) && Shaped(c) && Fits(Head(c), cut) && cut != OwnCut(c)
    ensures var b := Reading(c, cut); Shaped(b) && DeriveId(digest, b) == DeriveId(digest, c) && !SameScope(b, c)
  {
    ReadingReads(c, cut);
    ReadingShaped(digest, c, cut);
    SameBasisSamePieces(digest, Reading(c, cut), c);
    assert Basis(digest, Reading(c, cut)) == Basis(digest, c);
    hide Head, Fits, Shaped, GoodDigest, Tail, BasisParts, Utf8;
  }

  /** The scope with one text in another writing of the same encoding. */
  lemma TwinOf(c: Content) returns (b: Content)
    requires !Kept(c)
    ensures !SameScope(b, c) && AsHashed(b) == AsHashed(c)
  {
    hide Repaired, Paired, Utf8, Lossless;
    b := c;
    if !Lossless(c.ruleId) {
      var t := HasTwin(c.ruleId);
      EncodingExact(t, c.ruleId);
      b := c.(ruleId := t);
    } else if !Lossless(c.jurisdiction) {
      var t := HasTwin(c.jurisdiction);
      EncodingExact(t, c.jurisdiction);
      b := c.(jurisdiction := t);
    } else if !Lossless(c.catalogueHash) {
      var t := HasTwin(c.catalogueHash);
      EncodingExact(t, c.catalogueHash);
      b := c.(catalogueHash := t);
    } else if !Lossless(c.engineVersion) {
      var t := HasTwin(c.engineVersion);
      EncodingExact(t, c.engineVersion);
      b := c.(engineVersion := t);
    } else {
      var t := HasTwin(c.quote.evidenceId);
      EncodingExact(t, c.quote.evidenceId);
      b := c.(quote := c.quote.(evidenceId := t));
    }
  }

  lemma TwinLooksAlike(digest: Bytes -> Text, c: Content) returns (b: Content)
    requires GoodDigest(digest) && Shaped(c) && !Kept(c)
    ensures Shaped(b) && DeriveId(digest, b) == DeriveId(digest, c) && !SameScope(b, c)
  {
    b := TwinOf(c);
    ShapedAsHashed(b);
    ShapedAsHashed(c);
    hide Shaped, DeriveId, AsHashed, GoodDigest, Basis;
    SameIdSameBasis(digest, b, c);
  }

  /** What is encoded like a scope that the encoding keeps is that scope. */
  lemma KeptScope(b: Content, c: Content)
    requires Kept(c) && SameScope(AsHashed(b), AsHashed(c))
    ensures SameScope(b, c)
  {
    KeptAsHashed(c);
    hide Repaired, Paired;
    KeptWhole(b.ruleId, c.ruleId);
    KeptWhole(b.jurisdiction, c.jurisdiction);
    KeptWhole(b.catalogueHash, c.catalogueHash);
    KeptWhole(b.engineVersion, c.engineVersion);
    KeptWhole(b.quote.evidenceId, c.quote.evidenceId);
    SameQuote(b.quote, c.quote);
  }

  lemma SameQuote(p: Span, q: Span)
    requires p.(evidenceId := Repaired(p.evidenceId)) == q.(evidenceId := Repaired(q.evidenceId))
    requires p.evidenceId == q.evidenceId
    ensures p == q
  {
    hide Repaired;
  }

  /** A finding has no look-alike exactly when no other split of its bars puts a class name where the class
      belongs and leaves every field filled, and no text of its scope holds a lone surrogate or a replacement
      character. */
  lemma LookAlikeExactly(digest: Bytes -> Text, c: Content)
    requires GoodDigest(digest) && Shaped(c)
    ensures NoLookAlike(digest, c) <==> OnlyReading(c) && Kept(c)
  {
    hide GoodDigest, Shaped, Fits, Head, DeriveId, SameScope, OwnCut, Kept, AsHashed;
    if OnlyReading(c) && Kept(c) {
      KeptAsHashed(c);
      forall b | Shaped(b) && DeriveId(digest, b) == DeriveId(digest, c) ensures SameScope(b, c) {
        OneReadingOneScope(digest, c, b);
        KeptScope(b, c);
      }
    }
    if NoLookAlike(digest, c) {
      if !Kept(c) {
        var b := TwinLooksAlike(digest, c);
        assert false;
      }
      forall cut | Fits(Head(c), cut) ensures cut == OwnCut(c) {
        if cut != OwnCut(c) {
          AnotherReadingLooksAlike(digest, c, cut);
        }
      }
    }
  }

  // ----- a guard on the fields -----

  /** No bar after the class, and no later piece of the rule that reads like a class name. */
  predicate Guarded(c: Content) {
    && Free(c.jurisdiction, BAR) && Free(c.catalogueHash, BAR) && Free(c.engineVersion, BAR) && Free(c.quote.evidenceId, BAR)
    && forall n :: 1 <= n < |Pieces(c.ruleId, BAR)| ==> !IsClassName(Pieces(c.ruleId, BAR)[n])
  }

  predicate NoBlankPiece(c: Content) {
    forall n :: 0 <= n < |Head(c)| ==> NonBlank(Head(c)[n])
  }

  lemma HeadLength(c: Content)
    ensures |Head(c)| == OwnCut(c).engine + |Pieces(c.quote.evidenceId, BAR)|
    ensures forall n :: 0 <= n < OwnCut(c).class_ ==> Head(c)[n] == Pieces(c.ruleId, BAR)[n]
  {
    hide Pieces, ClassName;
  }

  lemma OnePiece(t: Text)
    ensures Free(t, BAR) <==> |Pieces(t, BAR)| == 1
  {
    PiecesOfFree(t, BAR);
    PiecesJoin(t, BAR);
    hide Pieces;
    if |Pieces(t, BAR)| == 1 {
      JoinOne(Pieces(t, BAR)[0], BAR);
    }
  }

  lemma FieldPieces(c: Content)
    ensures Free(c.jurisdiction, BAR) <==> |Pieces(c.jurisdiction, BAR)| == 1
    ensures Free(c.catalogueHash, BAR) <==> |Pieces(c.catalogueHash, BAR)| == 1
    ensures Free(c.engineVersion, BAR) <==> |Pieces(c.engineVersion, BAR)| == 1
    ensures Free(c.quote.evidenceId, BAR) <==> |Pieces(c.quote.evidenceId, BAR)| == 1
  {
    hide Pieces, Free;
    OnePiece(c.jurisdiction);
    OnePiece(c.catalogueHash);
    OnePiece(c.engineVersion);
    OnePiece(c.quote.evidenceId);
  }

  /** A guarded finding can be read in one way only. */
  lemma GuardSuffices(c: Content)
    requires Guarded(c)
    ensures OnlyReading(c)
  {
    HeadLength(c);
    FieldPieces(c);
    hide Pieces, NonBlank, PartOf, Head, IsClassName, Free;
    forall cut | Fits(Head(c), cut) ensures cut == OwnCut(c) {
      assert cut.class_ <= OwnCut(c).class_;
      assert IsClassName(Head(c)[cut.class_]);
    }
  }

  lemma {:induction false} JoinNonBlank(p: seq<Text>)
    requires p != [] && forall n :: 0 <= n < |p| ==> NonBlank(p[n])
    ensures NonBlank(Join(p, BAR))
  {
    hide NonBlank;
    assert NonBlank(p[0]);
    if |p| > 1 {
      assert p == [p[0]] + p[1..];
      JoinCons(p[0], p[1..], BAR);
      NonBlankConcat([], p[0], [BAR] + Join(p[1..], BAR));
      EmptyConcat(p[0]);
    }
  }

  lemma PartNonBlank(h: seq<Text>, from: nat, to: nat)
    requires from < to <= |h| && forall n :: 0 <= n < |h| ==> NonBlank(h[n])
    ensures NonBlank(PartOf(h, from, to))
  {
    hide NonBlank;
    JoinNonBlank(h[from..to]);
  }

  /** Without blank pieces every split with a class name in the right place fits. */
  lemma AnySplitFits(h: seq<Text>, cut: Cut)
    requires (forall n :: 0 <= n < |h| ==> NonBlank(h[n])) && InBounds(h, cut) && IsClassName(h[cut.class_])
    ensures Fits(h, cut)
  {
    hide NonBlank, IsClassName, PartOf;
    PartNonBlank(h, 0, cut.class_);
    PartNonBlank(h, cut.class_ + 1, cut.jurisdiction);
    PartNonBlank(h, cut.jurisdiction, cut.catalogue);
    PartNonBlank(h, cut.catalogue, cut.engine);
    PartNonBlank(h, cut.engine, |h|);
  }

  /** The split that gives each field after the class one piece, as early as it can. */
  function Earliest(i: nat): Cut {
    Cut(i, i + 2, i + 3, i + 4)
  }

  lemma GuardNeeded(c: Content)
    requires Shaped(c) && NoBlankPiece(c) && OnlyReading(c)
    ensures Guarded(c)
  {
    OwnCutFits(c);
    HeadLength(c);
    FieldPieces(c);
    var h, own := Head(c), OwnCut(c);
    hide Pieces, NonBlank, PartOf, Head, IsClassName, Free, OwnCut;
    assert IsClassName(h[own.class_]);
    AnySplitFits(h, Earliest(own.class_));
    AnySplitFits(h, Cut(own.class_, |h| - 3, |h| - 2, |h| - 1));
    forall n | 1 <= n < own.class_ ensures !IsClassName(h[n]) {
      if IsClassName(h[n]) {
        AnySplitFits(h, Earliest(n));
      }
    }
    OwnCutShape(c);
  }

  lemma OwnCutShape(c: Content)
    ensures OwnCut(c).class_ == |Pieces(c.ruleId, BAR)|
    ensures OwnCut(c).jurisdiction == OwnCut(c).class_ + 1 + |Pieces(c.jurisdiction, BAR)|
    ensures OwnCut(c).catalogue == OwnCut(c).jurisdiction + |Pieces(c.catalogueHash, BAR)|
    ensures OwnCut(c).engine == OwnCut(c).catalogue + |Pieces(c.engineVersion, BAR)|
  {
  }

  /** When no piece between bars is blank, a finding has no look-alike exactly when it is guarded and kept: a bar
      in the jurisdiction, the catalogue hash, the engine version or the evidence id always lets another claim share
      the id, a bar in the rule does when a class name follows it, and so does a lone surrogate or a replacement
      character anywhere. */
  lemma GuardExact(digest: Bytes -> Text, c: Content)
    requires GoodDigest(digest) && Shaped(c) && NoBlankPiece(c)
    ensures NoLookAlike(digest, c) <==> Guarded(c) && Kept(c)
  {
    hide GoodDigest, Shaped, NoBlankPiece, OnlyReading, NoLookAlike, Guarded, Kept;
    LookAlikeExactly(digest, c);
    if Guarded(c) {
      GuardSuffices(c);
    }
    if OnlyReading(c) {
      GuardNeeded(c);
    }
  }

  lemma PiecesRepaired(t: Text)
    ensures Pieces(Repaired(t), BAR) == RepairedAll(Pieces(t, BAR))
  {
    var p := Pieces(t, BAR);
    PiecesJoin(t, BAR);
    PiecesAreFree(t, BAR);
    hide Pieces, Repaired, Join, Free;
    RepairedJoin(p, BAR);
    forall i | 0 <= i < |p| ensures Free(RepairedAll(p)[i], BAR) {
      RepairedFree(p[i], BAR);
    }
    PiecesOfFreeJoin(RepairedAll(p), BAR);
  }

  lemma NamesAreKept(t: Text)
    requires IsClassName(Repaired(t))
    ensures IsClassName(t)
  {
    ClassKept(Confirmed);
    ClassKept(Likely);
    ClassKept(NeedsHuman);
    hide ClassName, Repaired;
    KeptWhole(t, Repaired(t));
  }

  /** A guarded finding is guarded as the digest sees it. */
  lemma GuardHashed(c: Content)
    requires Guarded(c)
    ensures Guarded(AsHashed(c))
  {
    PiecesRepaired(c.ruleId);
    var p := Pieces(c.ruleId, BAR);
    hide Pieces, Repaired, IsClassName, Free;
    forall n | 1 <= n < |p| ensures !IsClassName(Repaired(p[n])) {
      if IsClassName(Repaired(p[n])) {
        NamesAreKept(p[n]);
      }
    }
    RepairedFree(c.jurisdiction, BAR);
    RepairedFree(c.catalogueHash, BAR);
    RepairedFree(c.engineVersion, BAR);
    RepairedFree(c.quote.evidenceId, BAR);
  }

  predicate CommaFree(c: Option<Coverage>) {
    c.Some? ==> forall s :: s in c.value.subjects ==> Free(s.evidenceId, COMMA)
  }

  /** The same claim, as the digest sees it. */
  predicate SameEncodedClaim(a: Content, b: Content) {
    SameScope(AsHashed(a), AsHashed(b)) && SameEncoded(a.coverage, b.coverage)
  }

  lemma SameEncodedClaimSameId(digest: Bytes -> Text, a: Content, b: Content)
    requires GoodDigest(digest) && Shaped(a) && Shaped(b)
    requires SameScope(AsHashed(a), AsHashed(b))
    requires CoverageFingerprint(digest, a.coverage) == CoverageFingerprint(digest, b.coverage)
    ensures DeriveId(digest, a) == DeriveId(digest, b)
  {
    hide Shaped, GoodDigest, CoverageFingerprint, Repaired, Utf8, Join, ClassName, KindName, DeriveId;
    SameIdSameBasis(digest, a, b);
    assert BasisParts(digest, AsHashed(a)) == BasisParts(digest, AsHashed(b));
  }

  /** A guarded finding shares its id with another finding, whatever that one holds, exactly when the digest sees
      one claim; and when the encoding keeps what the finding says, exactly when both make the same claim. Only the
      subjects of the two coverage proofs have to be free of commas. */
  lemma IdentityFaithful(digest: Bytes -> Text, a: Content, b: Content)
    requires GoodDigest(digest) && Sound(digest, a) && Sound(digest, b)
    requires Guarded(a) && CommaFree(a.coverage) && CommaFree(b.coverage)
    ensures a.id == b.id <==> SameEncodedClaim(a, b)
    ensures Kept(a) && LosslessProof(a.coverage) ==> (a.id == b.id <==> SameClaim(a, b))
  {
    hide GoodDigest, NonBlank, IsHex64, CoverageFingerprint, SameCoverage, Guarded, OnlyReading, DeriveId, SameEncoded;
    hide AsHashed, SameScope, Kept, LosslessProof, PairedProof;
    FingerprintExact(digest, a.coverage, b.coverage);
    if a.id == b.id {
      GuardHashed(a);
      GuardSuffices(AsHashed(a));
      OneReadingOneScope(digest, a, b);
      SameScopeSymmetric(AsHashed(b), AsHashed(a));
      if Kept(a) {
        KeptScope(b, a);
        SameScopeSymmetric(b, a);
      }
    }
    if SameEncodedClaim(a, b) {
      SameEncodedClaimSameId(digest, a, b);
    }
    if SameScope(a, b) {
      ScopeAsHashed(a, b);
    }
  }

  lemma SameScopeSymmetric(a: Content, b: Content)
    ensures SameScope(a, b) <==> SameScope(b, a)
  {
  }

  lemma ScopeAsHashed(a: Content, b: Content)
    requires SameScope(a, b)
    ensures SameScope(AsHashed(a), AsHashed(b))
  {
    hide Repaired;
  }

  /** Without a bar in any field: two rules, of which one is a lone surrogate and the other the character that
      stands for it, give well-formed findings with one id. */
  lemma SurrogatesCollide(digest: Bytes -> Text, c: Content)
    requires GoodDigest(digest) && Shaped(c)
    ensures var first, second := c.(ruleId := [0xD800]), c.(ruleId := [REPLACEMENT]);
            && Shaped(first) && Shaped(second) && !SameScope(first, second)
            && DeriveId(digest, first) == DeriveId(digest, second)
  {
    var first, second := c.(ruleId := [0xD800]), c.(ruleId := [REPLACEMENT]);
    assert !IsSpace(first.ruleId[0]) && !IsSpace(second.ruleId[0]);
    LoneSurrogateTwin();
    EncodingExact(first.ruleId, second.ruleId);
    hide Repaired, Utf8, NonBlank, IsHex64, CoverageShaped, DeriveId, GoodDigest, Basis;
    SameIdSameBasis(digest, first, second);
    assert AsHashed(first).(ruleId := []) == AsHashed(second).(ruleId := []);
    assert AsHashed(first) == AsHashed(second);
  }

  /** With a bar in a field different claims can share an id: a piece that reads like a class name may belong
      to the rule or to the jurisdiction. */
  lemma BarsCollide(digest: Bytes -> Text, c: Content, x: Text, y: Text)
    ensures var first := c.(jurisdiction := x + ([BAR] + (ClassName(c.class_) + ([BAR] + y))));
            var second := c.(ruleId := c.ruleId + ([BAR] + (ClassName(c.class_) + ([BAR] + x))), jurisdiction := y);
            && first.ruleId != second.ruleId
            && DeriveId(digest, first) == DeriveId(digest, second)
            && (Shaped(c) && NonBlank(y) ==> Shaped(first) && Shaped(second))
  {
    var k := ClassName(c.class_);
    var first := c.(jurisdiction := x + ([BAR] + (k + ([BAR] + y))));
    var second := c.(ruleId := c.ruleId + ([BAR] + (k + ([BAR] + x))), jurisdiction := y);
    hide ClassName, Utf8;
    SameBasisText(digest, first, second, x, y);
    assert |first.ruleId| < |second.ruleId|;
    NonBlankConcat(x + ([BAR] + (k + [BAR])), y, []);
    NonBlankConcat([], c.ruleId, [BAR] + (k + ([BAR] + x)));
    assert first.jurisdiction == x + ([BAR] + (k + [BAR])) + y + [];
    assert second.ruleId == [] + c.ruleId + ([BAR] + (k + ([BAR] + x)));
    hide NonBlank, IsHex64, CoverageShaped, BasisParts, Join;
  }

  lemma SameBasisText(digest: Bytes -> Text, first: Content, second: Content, x: Text, y: Text)
    requires second.jurisdiction == y && first.jurisdiction == x + ([BAR] + (ClassName(first.class_) + ([BAR] + y)))
    requires second == first.(ruleId := first.ruleId + ([BAR] + (ClassName(first.class_) + ([BAR] + x))), jurisdiction := y)
    ensures Join(BasisParts(digest, first), BAR) == Join(BasisParts(digest, second), BAR)
  {
    hide ClassName, KindName, RangeText, CoverageFingerprint;
    var p, q := BasisParts(digest, first), BasisParts(digest, second);
    var rest := p[3..];
    assert q[3..] == rest;
    hide Join;
    JoinThree(p, rest);
    JoinThree(q, rest);
  }

  lemma NonBlankConcat(a: Text, t: Text, b: Text)
    ensures NonBlank(t) ==> NonBlank(a + t + b)
  {
    if NonBlank(t) {
      var i :| 0 <= i < |t| && !IsSpace(t[i]);
      assert (a + t + b)[|a| + i] == t[i];
    }
  }

  lemma JoinThree(p: seq<Text>, rest: seq<Text>)
    requires |p| > 3 && p[3..] == rest
    ensures Join(p, BAR) == p[0] + [BAR] + (p[1] + [BAR] + (p[2] + [BAR] + Join(rest, BAR)))
  {
    var one, two := p[1..], p[2..];
    assert one[1..] == two && two[1..] == rest;
    assert Join(two, BAR) == two[0] + [BAR] + Join(rest, BAR);
    assert Join(one, BAR) == one[0] + [BAR] + Join(two, BAR);
    assert Join(p, BAR) == p[0] + [BAR] + Join(one, BAR);
  }
}
