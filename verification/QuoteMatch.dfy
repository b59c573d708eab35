/** llm/gate.js: which quotes are found in every source that contains them. */
module QuoteMatch {
  import opened Texts
  import opened QuoteText

  // ----- the sigma rule in context -----

  /** A point that is neither cased nor case-ignorable stands before `i`, before any cased letter. */
  predicate BlockedBefore(k: Casing, s: Str, i: nat)
    requires i <= |s|
  {
    i > 0 && !k.cased(s[i - 1]) && (!k.ignorable(s[i - 1]) || BlockedBefore(k, s, i - 1))
  }

  predicate BlockedAfter(k: Casing, s: Str, i: nat)
    requires i <= |s|
    decreases |s| - i
  {
    i < |s| && !k.cased(s[i]) && (!k.ignorable(s[i]) || BlockedAfter(k, s, i + 1))
  }

  lemma {:induction false} BeforeIn(k: Casing, x: Str, t: Str, z: Str, i: nat)
    requires i <= |t|
    ensures Preceded(k, t, i) ==> Preceded(k, x + t + z, |x| + i)
    ensures BlockedBefore(k, t, i) ==> !Preceded(k, x + t + z, |x| + i)
    ensures Preceded(k, t, i) || BlockedBefore(k, t, i) || (Preceded(k, x + t + z, |x| + i) <==> Preceded(k, x + t + z, |x|))
    decreases i
  {
    if i > 0 {
      BeforeIn(k, x, t, z, i - 1);
      assert (x + t + z)[|x| + i - 1] == t[i - 1];
    }
  }

  lemma {:induction false} AfterIn(k: Casing, x: Str, t: Str, z: Str, i: nat)
    requires i <= |t|
    ensures Followed(k, t, i) ==> Followed(k, x + t + z, |x| + i)
    ensures BlockedAfter(k, t, i) ==> !Followed(k, x + t + z, |x| + i)
    ensures Followed(k, t, i) || BlockedAfter(k, t, i) || (Followed(k, x + t + z, |x| + i) <==> Followed(k, x + t + z, |x| + |t|))
    decreases |t| - i
  {
    if i < |t| {
      AfterIn(k, x, t, z, i + 1);
      assert (x + t + z)[|x| + i] == t[i];
    }
  }

  /** The text around `t` cannot change whether the sigma at `i` takes its final form. */
  predicate SettledAt(k: Casing, t: Str, openLeft: bool, openRight: bool, i: nat)
    requires i < |t|
  {
    || Followed(k, t, i + 1)
    || (!Preceded(k, t, i) && (BlockedBefore(k, t, i) || !openLeft))
    || (Preceded(k, t, i) && (BlockedAfter(k, t, i + 1) || !openRight))
  }

  /** Every capital sigma of the quote is settled by the quote itself. */
  predicate Settled(k: Casing, q: Str) {
    var t := Core(q);
    forall i :: 0 <= i < |t| && t[i] == SIGMA ==> SettledAt(k, t, OpenLeft(q), OpenRight(q), i)
  }

  /** What the proofs use of Unicode's letter tables. */
  ghost predicate Unicode(k: Casing) {
    && !k.cased(SPACE) && !k.ignorable(SPACE) && k.lower(SPACE) == [SPACE]
    && k.cased(LETTER_A) && k.lower(LETTER_A) == [SMALL_A]
    && k.lower(SMALL_SIGMA) == [SMALL_SIGMA] && k.lower(FINAL_SIGMA) == [FINAL_SIGMA]
    && (forall p: Point :: p != SIGMA && !IsSpace(p) ==> k.lower(p) != [])
    && (forall p: Point, x: Point :: p != SIGMA && !IsSpace(p) && FoldPoint(p) == p && x in k.lower(p)
          ==> !IsSpace(x) && FoldPoint(x) == x && x != SIGMA && k.lower(x) == [x])
  }

  lemma SameFinal(k: Casing, x: Str, t: Str, z: Str, openLeft: bool, openRight: bool, i: nat)
    requires Unicode(k) && i < |t| && SettledAt(k, t, openLeft, openRight, i)
    requires !openLeft ==> x == [] || x[|x| - 1] == SPACE
    requires !openRight ==> z == [] || z[0] == SPACE
    ensures IsFinal(k, x + t + z, |x| + i) == IsFinal(k, t, i)
  {
    BeforeIn(k, x, t, z, i);
    AfterIn(k, x, t, z, i + 1);
    var w := x + t + z;
    assert x != [] ==> w[|x| - 1] == x[|x| - 1];
    assert z != [] ==> w[|x| + |t|] == z[0];
    assert !openLeft ==> !Preceded(k, w, |x|);
    assert !openRight ==> !Followed(k, w, |x| + |t|);
  }

  lemma {:induction false} LowerBlock(k: Casing, x: Str, t: Str, z: Str, i: nat)
    requires i <= |t|
    requires forall j :: 0 <= j < |t| ==> LowerAt(k, x + t + z, |x| + j) == LowerAt(k, t, j)
    ensures LowerFrom(k, x + t + z, |x| + i) == LowerFrom(k, t, i) + LowerFrom(k, x + t + z, |x| + |t|)
    decreases |t| - i
  {
    hide LowerAt;
    var w := x + t + z;
    if i < |t| {
      LowerBlock(k, x, t, z, i + 1);
      assert LowerFrom(k, w, |x| + i) == LowerAt(k, t, i) + LowerFrom(k, w, |x| + i + 1);
      assert LowerFrom(k, t, i) == LowerAt(k, t, i) + LowerFrom(k, t, i + 1);
      hide LowerFrom;
      ConcatAssociative(LowerAt(k, t, i), LowerFrom(k, t, i + 1), LowerFrom(k, w, |x| + |t|));
    } else {
      EmptyConcat(LowerFrom(k, w, |x| + |t|));
    }
  }

  lemma {:induction false} LowerPrefix(k: Casing, w: Str, i: nat) returns (p: Str)
    requires i <= |w|
    ensures Lower(k, w) == p + LowerFrom(k, w, i)
    decreases i
  {
    hide LowerAt;
    if i == 0 {
      p := [];
      EmptyConcat(LowerFrom(k, w, 0));
    } else {
      var p' := LowerPrefix(k, w, i - 1);
      p := p' + LowerAt(k, w, i - 1);
      ConcatAssociative(p', LowerAt(k, w, i - 1), LowerFrom(k, w, i));
    }
  }

  lemma MiddleContained<T>(p: seq<T>, m: seq<T>, s: seq<T>)
    ensures Contains(p + (m + s), m)
  {
    assert OccursAt(p + (m + s), m, |p|);
  }

  /** A quote whose capital sigmas are all settled is found in every source it was taken from. */
  lemma SettledQuoteFound(k: Casing, a: Str, q: Str, b: Str)
    requires Unicode(k) && Settled(k, q)
    ensures Contains(Normalise(k, a + q + b), Normalise(k, q))
  {
    var t := Core(q);
    if t == [] {
      assert OccursAt(Normalise(k, a + q + b), [], 0);
    } else {
      var x, z := CoreInSource(a, q, b);
      var w := x + t + z;
      forall j | 0 <= j < |t| ensures LowerAt(k, w, |x| + j) == LowerAt(k, t, j) {
        assert w[|x| + j] == t[j];
        if t[j] == SIGMA {
          SameFinal(k, x, t, z, OpenLeft(q), OpenRight(q), j);
        }
      }
      hide LowerAt, Core, Unicode, Settled;
      LowerBlock(k, x, t, z, 0);
      var p := LowerPrefix(k, w, |x|);
      MiddleContained(p, Lower(k, t), LowerFrom(k, w, |x| + |t|));
    }
  }

  // ----- an unsettled sigma can be refused -----

  function CountOf(s: Str, c: Point): nat { multiset(s)[c] }

  lemma ContainedCount(h: Str, n: Str, c: Point)
    requires Contains(h, n)
    ensures CountOf(n, c) <= CountOf(h, c)
  {
    var i :| 0 <= i <= |h| && OccursAt(h, n, i);
    SplitThree(h, i, i + |n|);
    assert multiset(h) == multiset(h[..i]) + multiset(h[i..i + |n|]) + multiset(h[i + |n|..]);
  }

  lemma FewerMeansAbsent(h: Str, n: Str, c: Point)
    requires CountOf(h, c) < CountOf(n, c)
    ensures !Contains(h, n)
  {
    hide CountOf;
    if Contains(h, n) {
      ContainedCount(h, n, c);
    }
  }

  lemma LowerSum(k: Casing, s: Str, i: nat, c: Point)
    requires i < |s|
    ensures CountOf(LowerFrom(k, s, i), c) == CountOf(LowerAt(k, s, i), c) + CountOf(LowerFrom(k, s, i + 1), c)
  {
    assert multiset(LowerAt(k, s, i) + LowerFrom(k, s, i + 1))
        == multiset(LowerAt(k, s, i)) + multiset(LowerFrom(k, s, i + 1));
  }

  lemma NothingLeft(k: Casing, t: Str, c: Point)
    ensures CountOf(LowerFrom(k, t, |t|), c) == 0
  {
  }

  predicate NoMoreForms(k: Casing, w: Str, d: nat, t: Str, c: Point)
    requires d + |t| <= |w|
  {
    forall j :: 0 <= j < |t| ==> CountOf(LowerAt(k, w, d + j), c) <= CountOf(LowerAt(k, t, j), c)
  }

  /** Between two texts that differ only in their sigma forms, the one with fewer of a form at every
      place, and fewer at some place, has fewer of it in all. */
  lemma {:induction false} FewerForms(k: Casing, w: Str, d: nat, t: Str, i: nat, at: nat, c: Point)
    requires i <= |t| && d + |t| <= |w|
    requires CountOf(LowerFrom(k, w, d + |t|), c) == 0
    requires NoMoreForms(k, w, d, t, c)
    requires at < |t| && CountOf(LowerAt(k, w, d + at), c) < CountOf(LowerAt(k, t, at), c)
    ensures CountOf(LowerFrom(k, w, d + i), c) <= CountOf(LowerFrom(k, t, i), c)
    ensures i <= at ==> CountOf(LowerFrom(k, w, d + i), c) < CountOf(LowerFrom(k, t, i), c)
    decreases |t| - i
  {
    hide LowerAt, LowerFrom, CountOf;
    assert i < |t| ==> CountOf(LowerAt(k, w, d + i), c) <= CountOf(LowerAt(k, t, i), c);
    hide NoMoreForms;
    if i < |t| {
      FewerForms(k, w, d, t, i + 1, at, c);
      LowerSum(k, t, i, c);
      LowerSum(k, w, d + i, c);
    } else {
      NothingLeft(k, t, c);
    }
  }

  lemma LowerOneLetter(k: Casing, w: Str, i: nat)
    requires Unicode(k) && i + 1 == |w| && w[i] == LETTER_A
    ensures LowerFrom(k, w, i) == [SMALL_A]
  {
    assert LowerFrom(k, w, i + 1) == [];
    EmptyConcat([SMALL_A]);
  }

  lemma LetterEdges(k: Casing, t: Str)
    requires Unicode(k)
    ensures Followed(k, t + [LETTER_A], |t|) && !Preceded(k, t + [LETTER_A], 0)
    ensures Preceded(k, [LETTER_A] + t, 1) && !Followed(k, [LETTER_A] + t, 1 + |t|)
    ensures [] + t + [LETTER_A] == t + [LETTER_A] && [LETTER_A] + t + [] == [LETTER_A] + t
  {
    assert (t + [LETTER_A])[|t|] == LETTER_A && ([LETTER_A] + t)[0] == LETTER_A;
  }

  /** A letter added at the end can only take a final form away. */
  lemma LetterAfter(k: Casing, t: Str, i: nat)
    requires Unicode(k) && i < |t|
    ensures IsFinal(k, t + [LETTER_A], i) ==> IsFinal(k, t, i)
    ensures IsFinal(k, t, i) && !BlockedAfter(k, t, i + 1) ==> !IsFinal(k, t + [LETTER_A], i)
  {
    hide Preceded, Followed, BlockedBefore, BlockedAfter;
    LetterEdges(k, t);
    BeforeIn(k, [], t, [LETTER_A], i);
    AfterIn(k, [], t, [LETTER_A], i + 1);
  }

  /** A letter added in front can only give a final form. */
  lemma LetterBefore(k: Casing, t: Str, i: nat)
    requires Unicode(k) && i < |t|
    ensures IsFinal(k, t, i) ==> IsFinal(k, [LETTER_A] + t, 1 + i)
    ensures Preceded(k, t, i) || BlockedBefore(k, t, i) || Followed(k, t, i + 1) || IsFinal(k, [LETTER_A] + t, 1 + i)
  {
    hide Preceded, Followed, BlockedBefore, BlockedAfter;
    LetterEdges(k, t);
    BeforeIn(k, [LETTER_A], t, [], i);
    AfterIn(k, [LETTER_A], t, [], i + 1);
  }

  lemma FormsAfter(k: Casing, t: Str, i: nat)
    requires Unicode(k) && i < |t|
    ensures CountOf(LowerAt(k, t + [LETTER_A], i), FINAL_SIGMA) <= CountOf(LowerAt(k, t, i), FINAL_SIGMA)
    ensures t[i] == SIGMA && IsFinal(k, t, i) && !BlockedAfter(k, t, i + 1) ==>
              CountOf(LowerAt(k, t + [LETTER_A], i), FINAL_SIGMA) < CountOf(LowerAt(k, t, i), FINAL_SIGMA)
  {
    LetterAfter(k, t, i);
    assert (t + [LETTER_A])[i] == t[i];
    hide IsFinal, BlockedAfter, Unicode;
  }

  lemma FormsBefore(k: Casing, t: Str, i: nat)
    requires Unicode(k) && i < |t|
    ensures CountOf(LowerAt(k, [LETTER_A] + t, 1 + i), SMALL_SIGMA) <= CountOf(LowerAt(k, t, i), SMALL_SIGMA)
    ensures t[i] == SIGMA && !Preceded(k, t, i) && !BlockedBefore(k, t, i) && !Followed(k, t, i + 1) ==>
              CountOf(LowerAt(k, [LETTER_A] + t, 1 + i), SMALL_SIGMA) < CountOf(LowerAt(k, t, i), SMALL_SIGMA)
  {
    LetterBefore(k, t, i);
    assert ([LETTER_A] + t)[1 + i] == t[i];
    assert !Preceded(k, t, i) ==> !IsFinal(k, t, i);
    hide IsFinal, Preceded, Followed, BlockedBefore, Unicode;
  }

  /** The core of a quote with a letter written directly against one of its open edges. */
  lemma CoreWithLetter(q: Str)
    requires Core(q) != []
    ensures OpenRight(q) ==> Core(q + [LETTER_A]) == Core(q) + [LETTER_A]
    ensures OpenLeft(q) ==> Core([LETTER_A] + q) == [LETTER_A] + Core(q)
  {
    var y := Fold(q);
    var c := Collapse(y);
    CollapseEdges(y);
    CollapseConcat(y, [LETTER_A]);
    CollapseConcat([LETTER_A], y);
    FoldConcat(q, [LETTER_A]);
    FoldConcat([LETTER_A], q);
    assert Fold([LETTER_A]) == [LETTER_A] && Collapse([LETTER_A]) == [LETTER_A] by { OneLetter(); }
    if q != [] {
      FoldKeepsSpaces(q[0]);
      FoldKeepsSpaces(q[|q| - 1]);
    }
    hide Collapse, Fold;
    if OpenRight(q) {
      TrimLetterAfter(c);
    }
    if OpenLeft(q) {
      TrimLetterBefore(c);
    }
  }

  lemma OneLetter()
    ensures Fold([LETTER_A]) == [LETTER_A] && Collapse([LETTER_A]) == [LETTER_A]
  {
    assert Collapse([LETTER_A][1..]) == [];
  }

  lemma TrimLetterAfter(c: Str)
    requires Trim(c) != [] && OpenRight(c)
    ensures Trim(c + [LETTER_A]) == Trim(c) + [LETTER_A]
  {
    TrimStartSolid(c, [LETTER_A]);
    var s := TrimStart(c);
    assert s != [] && s[|s| - 1] == c[|c| - 1];
    assert TrailSpaces(s) == 0 && TrailSpaces(s + [LETTER_A]) == 0;
  }

  lemma TrimLetterBefore(c: Str)
    requires Trim(c) != [] && OpenLeft(c)
    ensures Trim([LETTER_A] + c) == [LETTER_A] + Trim(c)
  {
    assert LeadSpaces(c) == 0 && LeadSpaces([LETTER_A] + c) == 0;
    TrimEndSolid([LETTER_A], c);
  }

  lemma NoMoreAfter(k: Casing, t: Str)
    requires Unicode(k)
    ensures NoMoreForms(k, t + [LETTER_A], 0, t, FINAL_SIGMA)
  {
    hide LowerAt, CountOf, Unicode, IsFinal, BlockedAfter;
    forall j | 0 <= j < |t|
      ensures CountOf(LowerAt(k, t + [LETTER_A], 0 + j), FINAL_SIGMA) <= CountOf(LowerAt(k, t, j), FINAL_SIGMA)
    {
      FormsAfter(k, t, j);
    }
  }

  lemma NoMoreBefore(k: Casing, t: Str)
    requires Unicode(k)
    ensures NoMoreForms(k, [LETTER_A] + t, 1, t, SMALL_SIGMA)
  {
    hide LowerAt, CountOf, Unicode, Preceded, Followed, BlockedBefore;
    forall j | 0 <= j < |t|
      ensures CountOf(LowerAt(k, [LETTER_A] + t, 1 + j), SMALL_SIGMA) <= CountOf(LowerAt(k, t, j), SMALL_SIGMA)
    {
      FormsBefore(k, t, j);
    }
  }

  lemma LowerLastLetter(k: Casing, t: Str)
    requires Unicode(k)
    ensures CountOf(LowerFrom(k, t + [LETTER_A], 0 + |t|), FINAL_SIGMA) == 0
  {
    LowerOneLetter(k, t + [LETTER_A], |t|);
    hide LowerFrom;
  }

  lemma LosesFinalForm(k: Casing, t: Str, at: nat)
    requires Unicode(k) && at < |t| && t[at] == SIGMA
    requires IsFinal(k, t, at) && !BlockedAfter(k, t, at + 1)
    ensures !Contains(Lower(k, t + [LETTER_A]), Lower(k, t))
  {
    var w := t + [LETTER_A];
    LowerLastLetter(k, t);
    hide LowerAt, LowerFrom, IsFinal, BlockedAfter, Unicode, CountOf, Contains, NoMoreForms;
    NoMoreAfter(k, t);
    FormsAfter(k, t, at);
    FewerForms(k, w, 0, t, 0, at, FINAL_SIGMA);
    FewerMeansAbsent(Lower(k, w), Lower(k, t), FINAL_SIGMA);
  }

  lemma GainsFinalForm(k: Casing, t: Str, at: nat)
    requires Unicode(k) && at < |t| && t[at] == SIGMA
    requires !Preceded(k, t, at) && !BlockedBefore(k, t, at) && !Followed(k, t, at + 1)
    ensures !Contains(Lower(k, [LETTER_A] + t), Lower(k, t))
  {
    var w := [LETTER_A] + t;
    LowerFirstLetter(k, t);
    hide LowerAt, LowerFrom, IsFinal, Preceded, Followed, BlockedBefore, Unicode, CountOf, Contains, NoMoreForms;
    NoMoreBefore(k, t);
    FormsBefore(k, t, at);
    FewerForms(k, w, 1, t, 0, at, SMALL_SIGMA);
    LowerSum(k, w, 0, SMALL_SIGMA);
    FewerMeansAbsent(Lower(k, w), Lower(k, t), SMALL_SIGMA);
  }

  lemma LowerFirstLetter(k: Casing, t: Str)
    requires Unicode(k)
    ensures var w := [LETTER_A] + t;
            CountOf(LowerAt(k, w, 0), SMALL_SIGMA) == 0 && CountOf(LowerFrom(k, w, 1 + |t|), SMALL_SIGMA) == 0
  {
    var w := [LETTER_A] + t;
    assert LowerAt(k, w, 0) == [SMALL_A] && LowerFrom(k, w, |w|) == [];
  }

  /** A sigma that took its final form only because the quote ends there is refused when a letter
      follows it in the source. */
  lemma RefusedWhenContinued(k: Casing, q: Str, at: nat)
    requires Unicode(k) && OpenRight(q)
    requires at < |Core(q)| && Core(q)[at] == SIGMA
    requires IsFinal(k, Core(q), at) && !BlockedAfter(k, Core(q), at + 1)
    ensures !Contains(Normalise(k, q + [LETTER_A]), Normalise(k, q))
  {
    CoreWithLetter(q);
    hide Core, Lower, Contains;
    LosesFinalForm(k, Core(q), at);
  }

  /** A sigma that kept its plain form only because the quote starts there is refused when a letter
      precedes it in the source. */
  lemma RefusedWhenPreceded(k: Casing, q: Str, at: nat)
    requires Unicode(k) && OpenLeft(q)
    requires at < |Core(q)| && Core(q)[at] == SIGMA
    requires !Preceded(k, Core(q), at) && !BlockedBefore(k, Core(q), at) && !Followed(k, Core(q), at + 1)
    ensures !Contains(Normalise(k, [LETTER_A] + q), Normalise(k, q))
  {
    CoreWithLetter(q);
    hide Core, Lower, Contains;
    GainsFinalForm(k, Core(q), at);
  }

  /** The gate finds a quote in every source it was taken from exactly when the quote itself settles
      the form of each of its capital sigmas. */
  lemma NeverRefusedExactly(k: Casing, q: Str)
    requires Unicode(k)
    ensures (forall a, b :: Contains(Normalise(k, a + q + b), Normalise(k, q))) <==> Settled(k, q)
  {
    hide Normalise, Unicode, Core;
    if Settled(k, q) {
      forall a, b ensures Contains(Normalise(k, a + q + b), Normalise(k, q)) {
        SettledQuoteFound(k, a, q, b);
      }
    } else {
      var t := Core(q);
      var at :| 0 <= at < |t| && t[at] == SIGMA && !SettledAt(k, t, OpenLeft(q), OpenRight(q), at);
      if Preceded(k, t, at) {
        RefusedWhenContinued(k, q, at);
        assert [] + q + [LETTER_A] == q + [LETTER_A];
      } else {
        RefusedWhenPreceded(k, q, at);
        assert [LETTER_A] + q + [] == [LETTER_A] + q;
      }
    }
  }

  lemma {:induction false} CollapseKeepsNonSpaces(s: Str)
    ensures forall p :: p in Collapse(s) ==> p == SPACE || p in s
    decreases |s|
  {
    if s != [] {
      var n := if IsSpace(s[0]) then LeadSpaces(s) else 1;
      CollapseHead(s, n);
      CollapseKeepsNonSpaces(s[n..]);
      hide Collapse, LeadSpaces;
    }
  }

  lemma SigmaFreeSettled(k: Casing, q: Str)
    requires SIGMA !in q
    ensures Settled(k, q)
  {
    CollapseKeepsNonSpaces(Fold(q));
    var c, t := Collapse(Fold(q)), Core(q);
    hide Collapse, SettledAt;
    forall i | 0 <= i < |t| ensures t[i] != SIGMA {
      assert t[i] in c;
    }
  }

  /** In particular a quote without a capital sigma is never refused as drift. */
  lemma GenuineQuoteFound(k: Casing, a: Str, q: Str, b: Str)
    requires Unicode(k) && SIGMA !in q
    ensures Contains(Normalise(k, a + q + b), Normalise(k, q))
  {
    SigmaFreeSettled(k, q);
    SettledQuoteFound(k, a, q, b);
  }

  // ----- normalising twice changes nothing more -----

  /** Whitespace is single spaces, never two together. */
  predicate Spaced(c: Str) {
    forall i :: 0 <= i < |c| && IsSpace(c[i]) ==> c[i] == SPACE && (i + 1 < |c| ==> !IsSpace(c[i + 1]))
  }

  predicate Folded(c: Str) {
    forall i :: 0 <= i < |c| ==> FoldPoint(c[i]) == c[i]
  }

  predicate Tidy(c: Str) {
    Spaced(c) && Folded(c) && OpenLeft(c) && OpenRight(c)
  }

  lemma JoinSpaced(b: Str, r: Str, space: bool)
    requires Spaced(r) && b != []
    requires space ==> b == [SPACE] && OpenLeft(r)
    requires !space ==> forall x :: x in b ==> !IsSpace(x)
    ensures Spaced(b + r)
  {
    var s := b + r;
    forall i | 0 <= i < |s| && IsSpace(s[i]) ensures s[i] == SPACE && (i + 1 < |s| ==> !IsSpace(s[i + 1])) {
      assert i < |b| ==> b[i] in b;
      if i >= |b| {
        assert s[i] == r[i - |b|];
      }
    }
  }

  lemma {:induction false} CollapseSpaced(s: Str)
    ensures Spaced(Collapse(s))
    decreases |s|
  {
    if s != [] {
      var n := if IsSpace(s[0]) then LeadSpaces(s) else 1;
      CollapseHead(s, n);
      CollapseSpaced(s[n..]);
      CollapseEdges(s[n..]);
      assert IsSpace(s[0]) ==> OpenLeft(Collapse(s[n..]));
      hide Collapse, LeadSpaces, Spaced;
      JoinSpaced([if IsSpace(s[0]) then SPACE else s[0]], Collapse(s[n..]), IsSpace(s[0]));
    }
  }

  lemma SliceTidy(c: Str, i: nat, j: nat)
    requires i <= j <= |c| && Spaced(c) && Folded(c)
    requires i < j ==> !IsSpace(c[i]) && !IsSpace(c[j - 1])
    ensures Tidy(c[i..j])
  {
    var t := c[i..j];
    assert forall m :: 0 <= m < |t| ==> t[m] == c[i + m];
  }

  lemma TrimTidy(c: Str)
    requires Spaced(c) && Folded(c)
    ensures Tidy(Trim(c))
  {
    var i := LeadSpaces(c);
    var s := TrimStart(c);
    var j := i + |s| - TrailSpaces(s);
    assert Trim(c) == c[i..j];
    assert i < j ==> !IsSpace(s[j - i - 1]);
    hide LeadSpaces, TrailSpaces, Trim, Spaced, Folded, Tidy;
    SliceTidy(c, i, j);
  }

  lemma CollapseFolded(s: Str)
    requires Folded(s)
    ensures Folded(Collapse(s))
  {
    CollapseKeepsNonSpaces(s);
    var c := Collapse(s);
    hide Collapse;
    forall i | 0 <= i < |c| ensures FoldPoint(c[i]) == c[i] { assert c[i] in c; }
  }

  lemma CoreTidy(s: Str)
    ensures Tidy(Core(s))
  {
    hide Collapse, Trim, Spaced, Tidy;
    CollapseSpaced(Fold(s));
    CollapseFolded(Fold(s));
    TrimTidy(Collapse(Fold(s)));
  }

  lemma {:induction false} CollapseFixed(c: Str)
    requires Spaced(c)
    ensures Collapse(c) == c
    decreases |c|
  {
    if c != [] {
      var n := if IsSpace(c[0]) then LeadSpaces(c) else 1;
      assert n == 1 by {
        if IsSpace(c[0]) && |c| > 1 {
          assert !IsSpace(c[1]) && LeadSpaces(c[1..]) == 0;
        }
      }
      CollapseHead(c, n);
      CollapseFixed(c[1..]);
      assert c == [c[0]] + c[1..];
    }
  }

  lemma TidyIsFixed(c: Str)
    requires Tidy(c)
    ensures Core(c) == c
  {
    assert Fold(c) == c;
    CollapseFixed(c);
    assert LeadSpaces(c) == 0 && TrailSpaces(c) == 0;
  }

  /** A lowered point of a tidy text: one space for a space, and otherwise solid settled points. */
  lemma LoweredPoint(k: Casing, t: Str, i: nat)
    requires Unicode(k) && Tidy(t) && i < |t|
    ensures IsSpace(t[i]) ==> LowerAt(k, t, i) == [SPACE]
    ensures !IsSpace(t[i]) ==> LowerAt(k, t, i) != [] && forall x :: x in LowerAt(k, t, i) ==> !IsSpace(x)
    ensures Lowered(k, LowerAt(k, t, i))
  {
    hide IsFinal;
  }

  /** Every point is in its final lower-case form. */
  ghost predicate Lowered(k: Casing, n: Str) {
    forall x :: x in n ==> FoldPoint(x) == x && x != SIGMA && k.lower(x) == [x]
  }

  lemma {:induction false} LowerTidy(k: Casing, t: Str, i: nat)
    requires Unicode(k) && Tidy(t) && i <= |t|
    ensures var n := LowerFrom(k, t, i);
            && Spaced(n) && Lowered(k, n)
            && (i < |t| ==> n != [] && (IsSpace(n[0]) <==> IsSpace(t[i]))
                            && (IsSpace(n[|n| - 1]) <==> IsSpace(t[|t| - 1])))
            && (i == |t| ==> n == [])
    decreases |t| - i
  {
    if i < |t| {
      LoweredPoint(k, t, i);
      LowerTidy(k, t, i + 1);
      LowerUnfold(k, t, i);
      assert IsSpace(t[i]) && i + 1 < |t| ==> !IsSpace(t[i + 1]);
      hide *;
      TidyJoin(k, LowerAt(k, t, i), LowerFrom(k, t, i + 1), IsSpace(t[i]));
    }
  }

  /** A lowered point in front of a lowered text. */
  lemma TidyJoin(k: Casing, b: Str, r: Str, space: bool)
    requires Spaced(r) && Lowered(k, r) && Lowered(k, b) && b != []
    requires space ==> b == [SPACE] && (r == [] || !IsSpace(r[0]))
    requires !space ==> forall x :: x in b ==> !IsSpace(x)
    ensures Spaced(b + r) && Lowered(k, b + r)
    ensures IsSpace((b + r)[0]) <==> space
    ensures IsSpace((b + r)[|b + r| - 1]) <==> if r == [] then space else IsSpace(r[|r| - 1])
  {
    JoinSpaced(b, r, space);
    JoinLowered(k, b, r);
    EdgeConcat(b, r);
    assert b[0] in b && b[|b| - 1] in b;
  }

  lemma EdgeConcat<T>(b: seq<T>, r: seq<T>)
    requires b != []
    ensures (b + r)[0] == b[0]
    ensures (b + r)[|b + r| - 1] == if r == [] then b[|b| - 1] else r[|r| - 1]
  {
  }

  lemma LowerUnfold(k: Casing, t: Str, i: nat)
    requires i < |t|
    ensures LowerFrom(k, t, i) == LowerAt(k, t, i) + LowerFrom(k, t, i + 1)
  {
  }

  lemma JoinLowered(k: Casing, b: Str, r: Str)
    requires Lowered(k, b) && Lowered(k, r)
    ensures Lowered(k, b + r)
  {
  }

  lemma {:induction false} LowerFixed(k: Casing, n: Str, i: nat)
    requires Lowered(k, n) && i <= |n|
    ensures LowerFrom(k, n, i) == n[i..]
    decreases |n| - i
  {
    if i < |n| {
      LowerFixed(k, n, i + 1);
      assert n[i] in n;
    }
  }

  lemma NormaliseIdempotent(k: Casing, s: Str)
    requires Unicode(k)
    ensures Normalise(k, Normalise(k, s)) == Normalise(k, s)
  {
    var t := Core(s);
    CoreTidy(s);
    LowerTidy(k, t, 0);
    var n := Lower(k, t);
    LowerFixed(k, n, 0);
    hide LowerFrom, Core, Unicode, Lowered;
    assert Folded(n) by { LoweredIsFolded(k, n); }
    assert OpenLeft(n) && OpenRight(n);
    TidyIsFixed(n);
  }

  lemma LoweredIsFolded(k: Casing, n: Str)
    requires Lowered(k, n)
    ensures Folded(n)
  {
    assert forall i :: 0 <= i < |n| ==> n[i] in n;
  }
}
