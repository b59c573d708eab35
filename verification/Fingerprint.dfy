/** supervised/finding.js: when two coverage proofs share a fingerprint. */
module Fingerprint {
  import opened Texts
  import opened Encoding
  import opened Sorting
  import opened Finding

  /** What the proofs use of the digest: distinct buffers have distinct digests, none of which holds a bar or a
      lone surrogate or is the mark for a missing proof. */
  ghost predicate GoodDigest(digest: Bytes -> Text) {
    && (forall a, b :: digest(a) == digest(b) ==> a == b)
    && (forall a :: Free(digest(a), BAR) && Paired(digest(a)) && digest(a) != [MINUS])
  }

  /** A digest over bytes can meet this. */
  lemma GoodDigestExists()
    ensures GoodDigest(b => Spelled(b))
  {
    forall b ensures Free(Spelled(b), BAR) && Paired(Spelled(b)) && Spelled(b) != [MINUS] {
      SpelledPlain(b);
    }
    forall a, b | Spelled(a) == Spelled(b) ensures a == b {
      SpelledInjective(a, b);
    }
  }

  /** The same proof, whatever the order of its subjects. */
  predicate SameCoverage(a: Option<Coverage>, b: Option<Coverage>) {
    if a.None? || b.None? then a == b
    else
      a.value.pattern == b.value.pattern && a.value.count == b.value.count
      && multiset(a.value.subjects) == multiset(b.value.subjects)
  }

  // ----- names and ranges -----

  lemma AsciiFree(s: string, u: Unit)
    requires forall i :: 0 <= i < |s| ==> (s[i] as int) < 128 && s[i] as int != u
    ensures Free(Ascii(s), u)
  {
  }

  lemma ClassNames(a: Class, b: Class)
    ensures Free(ClassName(a), BAR)
    ensures ClassName(a) == ClassName(b) ==> a == b
  {
    assert |ClassName(a)| == match a case Confirmed => 9 case Likely => 6 case NeedsHuman => 11;
    assert |ClassName(b)| == match b case Confirmed => 9 case Likely => 6 case NeedsHuman => 11;
    AsciiFree("confirmed", BAR);
    AsciiFree("likely", BAR);
    AsciiFree("needs_human", BAR);
  }

  function KindLength(k: Kind): nat {
    match k
    case Quote => 5
    case DomNode => 8
    case NetworkEvent => 13
    case RegisterRow => 12
    case RegisterAbsence => 16
    case CoverageProof => 14
  }

  lemma KindFree(k: Kind)
    ensures Free(KindName(k), BAR) && |KindName(k)| == KindLength(k)
  {
    match k
    case Quote => AsciiFree("quote", BAR);
    case DomNode => AsciiFree("dom_node", BAR);
    case NetworkEvent => AsciiFree("network_event", BAR);
    case RegisterRow => AsciiFree("register_row", BAR);
    case RegisterAbsence => AsciiFree("register_absence", BAR);
    case CoverageProof => AsciiFree("coverage_proof", BAR);
  }

  lemma KindNames(a: Kind, b: Kind)
    ensures Free(KindName(a), BAR)
    ensures KindName(a) == KindName(b) ==> a == b
  {
    hide KindName;
    KindFree(a);
    KindFree(b);
  }

  lemma DigitsFree(n: nat, u: Unit)
    requires !IsDigit(u)
    ensures Free(Decimal(n), u)
  {
    hide Decimal;
  }

  lemma HexFree(t: Text, u: Unit)
    requires IsHex64(t) && !IsHexUnit(u)
    ensures Free(t, u)
  {
  }

  lemma RangeInjective(a: Span, b: Span)
    ensures Free(RangeText(a), BAR)
    ensures RangeText(a) == RangeText(b) ==> a.byteStart == b.byteStart && a.byteEnd == b.byteEnd
  {
    DigitsFree(a.byteStart, BAR);
    DigitsFree(a.byteEnd, BAR);
    DigitsFree(a.byteStart, MINUS);
    DigitsFree(b.byteStart, MINUS);
    hide Decimal;
    if RangeText(a) == RangeText(b) {
      var x, y := [MINUS] + Decimal(a.byteEnd), [MINUS] + Decimal(b.byteEnd);
      FirstPart(Decimal(a.byteStart), Decimal(b.byteStart), x, y, MINUS);
      assert x[1..] == Decimal(a.byteEnd) && y[1..] == Decimal(b.byteEnd);
      DecimalInjective(a.byteStart, b.byteStart);
      DecimalInjective(a.byteEnd, b.byteEnd);
    }
  }

  // ----- coverage proofs -----

  lemma LinkFree(s: Subject)
    requires Free(s.evidenceId, COMMA) && IsHex64(s.sha256)
    ensures Free(SubjectLink(s), COMMA)
  {
    HexFree(s.sha256, COMMA);
  }

  /** A link determines its subject: a digest holds no colon. */
  lemma SubjectLinkInjective(s: Subject, t: Subject)
    requires IsHex64(s.sha256) && IsHex64(t.sha256) && SubjectLink(s) == SubjectLink(t)
    ensures s == t
  {
    HexFree(s.sha256, COLON);
    HexFree(t.sha256, COLON);
    LinkInjective(s.evidenceId, s.sha256, t.evidenceId, t.sha256);
  }

  predicate HexSubjects(s: seq<Subject>) {
    forall x :: x in s ==> IsHex64(x.sha256)
  }

  function Without(s: seq<Subject>, i: nat): seq<Subject>
    requires i < |s|
  {
    s[..i] + s[i + 1..]
  }

  /** The links determine the subjects, in number and in kind. */
  lemma {:induction false} LinksMultiset(s: seq<Subject>, t: seq<Subject>)
    requires HexSubjects(s) && HexSubjects(t)
    ensures multiset(Links(s)) == multiset(Links(t)) <==> multiset(s) == multiset(t)
    decreases |s|
  {
    SameLength(s, t);
    if s != [] && (multiset(Links(s)) == multiset(Links(t)) || multiset(s) == multiset(t)) {
      var j := MatchFirst(s, t);
      RemoveAt(s, 0);
      RemoveAt(t, j);
      LinksMultiset(Without(s, 0), Without(t, j));
      hide Links, SubjectLink, Without;
      CancelOne(multiset(Without(s, 0)), multiset(Without(t, j)), s[0]);
      CancelOne(multiset(Links(Without(s, 0))), multiset(Links(Without(t, j))), SubjectLink(s[0]));
    }
  }

  lemma SameLength(s: seq<Subject>, t: seq<Subject>)
    ensures multiset(Links(s)) == multiset(Links(t)) || multiset(s) == multiset(t) ==> |s| == |t|
  {
    assert |multiset(Links(s))| == |s| && |multiset(Links(t))| == |t|;
    assert |multiset(s)| == |s| && |multiset(t)| == |t|;
  }

  lemma MatchFirst(s: seq<Subject>, t: seq<Subject>) returns (j: nat)
    requires HexSubjects(s) && HexSubjects(t) && s != []
    requires multiset(Links(s)) == multiset(Links(t)) || multiset(s) == multiset(t)
    ensures j < |t| && t[j] == s[0]
  {
    hide IsHex64, SubjectLink;
    assert s[0] in s;
    if multiset(s) == multiset(t) {
      assert s[0] in multiset(t);
      j :| 0 <= j < |t| && t[j] == s[0];
    } else {
      assert Links(s)[0] in multiset(Links(t));
      j :| 0 <= j < |Links(t)| && Links(t)[j] == Links(s)[0];
      assert t[j] in t;
      SubjectLinkInjective(t[j], s[0]);
    }
  }

  lemma RemoveAt(s: seq<Subject>, i: nat)
    requires i < |s|
    ensures var rest := Without(s, i);
            && multiset(s) == multiset(rest) + multiset{s[i]} && multiset(Links(s)) == multiset(Links(rest)) + multiset{SubjectLink(s[i])}
            && |rest| == |s| - 1 && (HexSubjects(s) ==> HexSubjects(rest))
  {
    hide SubjectLink, IsHex64;
    var rest := Without(s, i);
    assert s == s[..i] + [s[i]] + s[i + 1..];
    assert Links(s) == Links(s[..i]) + [SubjectLink(s[i])] + Links(s[i + 1..]);
    assert Links(rest) == Links(s[..i]) + Links(s[i + 1..]);
    assert forall x :: x in rest ==> x in s;
  }

  predicate PlainCoverage(c: Coverage) {
    CoverageShaped(c) && forall s :: s in c.subjects ==> Free(s.evidenceId, COMMA)
  }

  /** The joined, sorted links determine the subjects up to order. */
  lemma SubjectsKeyExact(a: Coverage, b: Coverage)
    requires PlainCoverage(a) && PlainCoverage(b)
    ensures Join(SortBy(TextLe, Links(a.subjects)), COMMA) == Join(SortBy(TextLe, Links(b.subjects)), COMMA)
       <==> multiset(a.subjects) == multiset(b.subjects)
  {
    var x, y := SortBy(TextLe, Links(a.subjects)), SortBy(TextLe, Links(b.subjects));
    TextsSort();
    TextsSeparate(Links(a.subjects));
    assert HexSubjects(a.subjects) && HexSubjects(b.subjects);
    LinksMultiset(a.subjects, b.subjects);
    SortPermutes(TextLe, Links(a.subjects));
    SortPermutes(TextLe, Links(b.subjects));
    if multiset(a.subjects) == multiset(b.subjects) {
      SortInvariant(TextLe, Links(a.subjects), Links(b.subjects));
    }
    if Join(x, COMMA) == Join(y, COMMA) {
      SortedLinksFree(a);
      SortedLinksFree(b);
      hide SortBy, Links, PlainCoverage;
      JoinInjective(x, y, COMMA);
    }
  }

  lemma SortedLinksFree(c: Coverage)
    requires PlainCoverage(c)
    ensures var x := SortBy(TextLe, Links(c.subjects)); x != [] && forall i :: 0 <= i < |x| ==> Free(x[i], COMMA)
  {
    var links := Links(c.subjects);
    SortPermutes(TextLe, links);
    SameElements(SortBy(TextLe, links), links);
    forall t | t in links ensures Free(t, COMMA) {
      var i :| 0 <= i < |links| && links[i] == t;
      assert c.subjects[i] in c.subjects;
      LinkFree(c.subjects[i]);
    }
    hide SortBy;
    var x := SortBy(TextLe, links);
    assert forall i :: 0 <= i < |x| ==> x[i] in x;
  }

  lemma BasisSplits(p: Text, n: nat, k: Text, q: Text, m: nat, l: Text)
    requires Free(p, BAR) && Free(q, BAR)
    ensures p + ([BAR] + (Decimal(n) + ([BAR] + k))) == q + ([BAR] + (Decimal(m) + ([BAR] + l)))
       <==> p == q && n == m && k == l
  {
    DigitsFree(n, BAR);
    DigitsFree(m, BAR);
    hide Decimal, Free;
    var ka, kb := [BAR] + k, [BAR] + l;
    var ra, rb := [BAR] + (Decimal(n) + ka), [BAR] + (Decimal(m) + kb);
    if p + ra == q + rb {
      FirstPart(p, q, ra, rb, BAR);
      assert ra[1..] == Decimal(n) + ka && rb[1..] == Decimal(m) + kb;
      FirstPart(Decimal(n), Decimal(m), ka, kb, BAR);
      DecimalInjective(n, m);
      assert ka[1..] == k && kb[1..] == l;
    }
  }

  lemma CoverageBasisExact(a: Coverage, b: Coverage)
    requires PlainCoverage(a) && PlainCoverage(b)
    ensures CoverageBasis(a) == CoverageBasis(b) <==> SameCoverage(Some(a), Some(b))
  {
    SubjectsKeyExact(a, b);
    HexFree(a.pattern, BAR);
    HexFree(b.pattern, BAR);
    hide Decimal, Join, SortBy, PlainCoverage, Free;
    BasisSplits(a.pattern, a.count, Join(Ordered(a), COMMA), b.pattern, b.count, Join(Ordered(b), COMMA));
  }

  // ----- fingerprints -----

  /** The links in the order in which they are hashed. */
  function Ordered(c: Coverage): seq<Text> {
    SortBy(TextLe, Links(c.subjects))
  }

  /** The same pattern and count, and ordered links that are encoded alike, one by one. */
  predicate SameEncoded(a: Option<Coverage>, b: Option<Coverage>) {
    if a.None? || b.None? then a == b
    else
      a.value.pattern == b.value.pattern && a.value.count == b.value.count
      && RepairedAll(Ordered(a.value)) == RepairedAll(Ordered(b.value))
  }

  lemma RepairedPrefix(p: Text, sep: Unit, rest: Text)
    requires !IsSurrogate(sep) && forall i :: 0 <= i < |p| ==> !IsSurrogate(p[i])
    ensures Repaired(p + ([sep] + rest)) == p + ([sep] + Repaired(rest))
  {
    NoCut(p, sep, rest);
    PlainText(p);
    hide Repaired, CutsPair, IsSurrogate;
    RepairedUnit(sep, rest);
    RepairedConcat(p, [sep] + rest);
  }

  lemma HexKept(t: Text)
    requires IsHex64(t)
    ensures forall i :: 0 <= i < |t| ==> !IsSurrogate(t[i])
  {
  }

  lemma DecimalKept(n: nat)
    ensures forall i :: 0 <= i < |Decimal(n)| ==> !IsSurrogate(Decimal(n)[i])
  {
    hide Decimal;
  }

  lemma RepairedBasis(c: Coverage)
    requires IsHex64(c.pattern)
    ensures Repaired(CoverageBasis(c)) == c.pattern + ([BAR] + (Decimal(c.count) + ([BAR] + Join(RepairedAll(Ordered(c)), COMMA))))
  {
    HexKept(c.pattern);
    DecimalKept(c.count);
    hide Repaired, Decimal, SortBy, Links, IsHex64;
    var key := Join(Ordered(c), COMMA);
    RepairedPrefix(c.pattern, BAR, Decimal(c.count) + ([BAR] + key));
    RepairedPrefix(Decimal(c.count), BAR, key);
    RepairedJoin(Ordered(c), COMMA);
  }

  lemma BasisEncoded(a: Coverage, b: Coverage)
    requires PlainCoverage(a) && PlainCoverage(b)
    ensures Utf8(CoverageBasis(a)) == Utf8(CoverageBasis(b)) <==> SameEncoded(Some(a), Some(b))
  {
    HexFree(a.pattern, BAR);
    HexFree(b.pattern, BAR);
    RepairedBasis(a);
    RepairedBasis(b);
    SortedLinksFree(a);
    SortedLinksFree(b);
    hide Decimal, CoverageBasis, Repaired, SortBy, Links, Utf8, PlainCoverage, Join, Free;
    EncodingExact(CoverageBasis(a), CoverageBasis(b));
    var x, y := RepairedAll(Ordered(a)), RepairedAll(Ordered(b));
    BasisSplits(a.pattern, a.count, Join(x, COMMA), b.pattern, b.count, Join(y, COMMA));
    JoinedAlike(Ordered(a), Ordered(b));
  }

  lemma JoinedAlike(x: seq<Text>, y: seq<Text>)
    requires x != [] && y != [] && AllFree(x, COMMA) && AllFree(y, COMMA)
    ensures Join(RepairedAll(x), COMMA) == Join(RepairedAll(y), COMMA) <==> RepairedAll(x) == RepairedAll(y)
  {
    hide Utf8, Repaired;
    SameBytesSameParts(x, y, COMMA);
    EncodingExact(Join(x, COMMA), Join(y, COMMA));
    RepairedJoin(x, COMMA);
    RepairedJoin(y, COMMA);
  }

  predicate PairedProof(c: Option<Coverage>) {
    c.Some? ==> forall s :: s in c.value.subjects ==> Paired(s.evidenceId)
  }

  /** No subject's id holds a lone surrogate or the character that stands for one. */
  predicate LosslessProof(c: Option<Coverage>) {
    c.Some? ==> forall s :: s in c.value.subjects ==> Lossless(s.evidenceId)
  }

  lemma LinkKept(s: Subject)
    requires IsHex64(s.sha256)
    ensures Paired(s.evidenceId) ==> Paired(SubjectLink(s))
    ensures Lossless(s.evidenceId) ==> Lossless(SubjectLink(s))
  {
    var tail := [COLON] + s.sha256;
    HexKept(s.sha256);
    PlainText(tail);
    assert REPLACEMENT !in tail;
    assert SubjectLink(s) == s.evidenceId + tail;
    hide IsHex64, Paired, Repaired;
    if Paired(s.evidenceId) {
      PairedConcat(s.evidenceId, tail);
    }
  }

  lemma OrderedKept(c: Coverage)
    requires PlainCoverage(c)
    ensures PairedProof(Some(c)) ==> forall i :: 0 <= i < |Ordered(c)| ==> Paired(Ordered(c)[i])
    ensures LosslessProof(Some(c)) ==> forall i :: 0 <= i < |Ordered(c)| ==> Lossless(Ordered(c)[i])
  {
    var links := Links(c.subjects);
    SortPermutes(TextLe, links);
    SameElements(Ordered(c), links);
    hide SortBy, SubjectLink, IsHex64, Paired;
    forall t | t in links ensures (PairedProof(Some(c)) ==> Paired(t)) && (LosslessProof(Some(c)) ==> Lossless(t)) {
      var i :| 0 <= i < |links| && links[i] == t;
      assert c.subjects[i] in c.subjects;
      LinkKept(c.subjects[i]);
    }
    hide Links;
    assert forall i :: 0 <= i < |Ordered(c)| ==> Ordered(c)[i] in Ordered(c);
  }

  /** Proofs without lone surrogates, and a proof that the encoding keeps against any other, are encoded alike only
      when they agree. */
  lemma EncodedIsSame(a: Coverage, b: Coverage)
    requires PlainCoverage(a) && PlainCoverage(b)
    requires LosslessProof(Some(a)) || (PairedProof(Some(a)) && PairedProof(Some(b)))
    ensures SameEncoded(Some(a), Some(b)) <==> SameCoverage(Some(a), Some(b))
  {
    SubjectsKeyExact(a, b);
    OrderedKept(a);
    OrderedKept(b);
    hide PlainCoverage, Paired, Repaired, Links, SortBy, LosslessProof, PairedProof, Join;
    if RepairedAll(Ordered(a)) == RepairedAll(Ordered(b)) {
      if LosslessProof(Some(a)) {
        RepairedAllLossless(Ordered(a), Ordered(b));
      } else {
        RepairedAllPaired(Ordered(a));
        RepairedAllPaired(Ordered(b));
      }
    }
    if multiset(a.subjects) == multiset(b.subjects) {
      SameOrdered(a, b);
    }
  }

  lemma SameOrdered(a: Coverage, b: Coverage)
    requires PlainCoverage(a) && PlainCoverage(b) && multiset(a.subjects) == multiset(b.subjects)
    ensures Ordered(a) == Ordered(b)
  {
    assert HexSubjects(a.subjects) && HexSubjects(b.subjects);
    LinksMultiset(a.subjects, b.subjects);
    TextsSort();
    TextsSeparate(Links(a.subjects));
    SortInvariant(TextLe, Links(a.subjects), Links(b.subjects));
  }

  /** Fingerprints agree exactly when the proofs are encoded alike, and that means the same proof for one that the
      encoding keeps, or for two without lone surrogates. */
  lemma FingerprintExact(digest: Bytes -> Text, a: Option<Coverage>, b: Option<Coverage>)
    requires GoodDigest(digest)
    requires (a.Some? ==> PlainCoverage(a.value)) && (b.Some? ==> PlainCoverage(b.value))
    ensures CoverageFingerprint(digest, a) == CoverageFingerprint(digest, b) <==> SameEncoded(a, b)
    ensures (LosslessProof(a) || (PairedProof(a) && PairedProof(b)))
        ==> (CoverageFingerprint(digest, a) == CoverageFingerprint(digest, b) <==> SameCoverage(a, b))
  {
    hide CoverageBasis, PlainCoverage, Utf8, LosslessProof, PairedProof, Ordered, Paired, Free;
    if a.Some? && b.Some? {
      BasisEncoded(a.value, b.value);
      if LosslessProof(a) || (PairedProof(a) && PairedProof(b)) {
        EncodedIsSame(a.value, b.value);
      }
    }
  }

  /** With a lone surrogate or the character that stands for one in its subject's id, a proof of one subject shares
      its fingerprint with another proof. */
  lemma SubjectTwin(digest: Bytes -> Text, s: Subject, pattern: Text, count: nat) returns (t: Subject)
    requires !Lossless(s.evidenceId) && IsHex64(pattern)
    ensures t != s && t.sha256 == s.sha256
    ensures CoverageFingerprint(digest, Some(Coverage([t], pattern, count))) == CoverageFingerprint(digest, Some(Coverage([s], pattern, count)))
  {
    var id := HasTwin(s.evidenceId);
    t := s.(evidenceId := id);
    var a, b := Coverage([s], pattern, count), Coverage([t], pattern, count);
    RepairedBasis(a);
    RepairedBasis(b);
    assert Links([s]) == [SubjectLink(s)] && Links([t]) == [SubjectLink(t)];
    SortIdentity(TextLe, Links([s]));
    SortIdentity(TextLe, Links([t]));
    EncodingExact(t.evidenceId, s.evidenceId);
    TwinLinks(s, t);
    hide Utf8, Repaired, SortBy, SubjectLink, CoverageBasis;
    assert RepairedAll(Ordered(a)) == RepairedAll(Ordered(b));
    EncodingExact(CoverageBasis(a), CoverageBasis(b));
  }

  lemma TwinLinks(s: Subject, t: Subject)
    requires Repaired(s.evidenceId) == Repaired(t.evidenceId) && s.sha256 == t.sha256
    ensures Repaired(SubjectLink(s)) == Repaired(SubjectLink(t))
  {
    var tail := [COLON] + s.sha256;
    NoCut(s.evidenceId, COLON, s.sha256);
    NoCut(t.evidenceId, COLON, s.sha256);
    hide Repaired, CutsPair;
    RepairedConcat(s.evidenceId, tail);
    RepairedConcat(t.evidenceId, tail);
    assert SubjectLink(s) == s.evidenceId + tail && SubjectLink(t) == t.evidenceId + tail;
  }

  /** With a comma in a subject's id different proofs can share a fingerprint: one subject reads like two. */
  lemma CommasCollide(digest: Bytes -> Text, s: Subject, t: Subject, pattern: Text, count: nat)
    requires TextLe(SubjectLink(s), SubjectLink(t))
    ensures var two := Coverage([s, t], pattern, count);
            var one := Coverage([Subject(SubjectLink(s) + [COMMA] + t.evidenceId, t.sha256)], pattern, count);
            !SameCoverage(Some(two), Some(one)) && CoverageFingerprint(digest, Some(two)) == CoverageFingerprint(digest, Some(one))
  {
    var two := [s, t];
    var one := [Subject(SubjectLink(s) + [COMMA] + t.evidenceId, t.sha256)];
    assert |multiset(two)| == 2 && |multiset(one)| == 1;
    assert SubjectLink(one[0]) == SubjectLink(s) + ([COMMA] + SubjectLink(t));
    hide SubjectLink, Utf8, Decimal;
    assert Links(two) == [SubjectLink(s)] + [SubjectLink(t)] && Links(one) == [SubjectLink(one[0])];
    SortIdentity(TextLe, Links(two));
    SortIdentity(TextLe, Links(one));
    hide SortBy, Links, TextLe;
    JoinCons(SubjectLink(s), [SubjectLink(t)], COMMA);
    JoinOne(SubjectLink(t), COMMA);
    JoinOne(SubjectLink(one[0]), COMMA);
  }
}
