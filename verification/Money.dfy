/** render-proof/truth-pack.js: the money printer and reader, and the rule that every figure has a source. */
module Money {
  import opened Texts

  const POUND: Unit := 0xA3

  // ----- printing -----

  /** Digits grouped in threes from the right. */
  function Grouped(d: Text): Text {
    if |d| <= 3 then d else Grouped(d[..|d| - 3]) + [COMMA] + d[|d| - 3..]
  }

  /** The comma, if any, that the loop writes before digit `i` of `n` digits. */
  function CommaBefore(n: nat, i: nat): Text {
    if i > 0 && (n - i) % 3 == 0 then [COMMA] else []
  }

  /** What the loop has written after `i` digits of `d`. */
  ghost function Written(d: Text, i: nat): Text
    requires i <= |d|
  {
    if i == 0 then [] else Written(d, i - 1) + CommaBefore(|d|, i - 1) + [d[i - 1]]
  }

  lemma {:induction false} WrittenOfShorter(d: Text, i: nat)
    requires i <= |d| - 3
    ensures Written(d, i) == Written(d[..|d| - 3], i)
  {
    if i > 0 {
      WrittenOfShorter(d, i - 1);
      assert (|d| - (i - 1)) % 3 == (|d| - 3 - (i - 1)) % 3;
    }
  }

  lemma WrittenStep(d: Text, i: nat)
    requires 0 < i <= |d|
    ensures Written(d, i) == Written(d, i - 1) + CommaBefore(|d|, i - 1) + [d[i - 1]]
  {
  }

  lemma WrittenPlain(d: Text, i: nat)
    requires 0 < i <= |d| && CommaBefore(|d|, i - 1) == []
    ensures Written(d, i) == Written(d, i - 1) + [d[i - 1]]
  {
  }

  lemma LastCommas(n: nat)
    requires n > 3
    ensures CommaBefore(n, n - 3) == [COMMA] && CommaBefore(n, n - 2) == [] && CommaBefore(n, n - 1) == []
  {
  }

  lemma AppendThree<T>(w: seq<T>, d: seq<T>)
    requires |d| >= 3
    ensures w + [d[|d| - 3]] + [d[|d| - 2]] + [d[|d| - 1]] == w + d[|d| - 3..]
  {
  }

  lemma LastThree(d: Text)
    requires |d| > 3
    ensures Written(d, |d|) == Written(d, |d| - 3) + [COMMA] + d[|d| - 3..]
  {
    var n := |d|;
    LastCommas(n);
    WrittenStep(d, n - 2);
    WrittenPlain(d, n - 1);
    WrittenPlain(d, n);
    hide Written, CommaBefore;
    AppendThree(Written(d, n - 3) + [COMMA], d);
  }

  lemma {:induction false} FirstThree(d: Text, i: nat)
    requires i <= |d| <= 3
    ensures Written(d, i) == d[..i]
  {
    if i > 0 {
      FirstThree(d, i - 1);
    }
  }

  lemma GroupedStep(d: Text)
    requires |d| > 3
    ensures Grouped(d) == Grouped(d[..|d| - 3]) + [COMMA] + d[|d| - 3..]
  {
  }

  lemma ShortGrouped(d: Text)
    requires |d| <= 3
    ensures Written(d, |d|) == Grouped(d)
  {
    FirstThree(d, |d|);
    hide Written;
    assert d[..|d|] == d;
  }

  lemma {:induction false} WrittenIsGrouped(d: Text)
    ensures Written(d, |d|) == Grouped(d)
    decreases |d|
  {
    hide Written, Grouped;
    if |d| <= 3 {
      ShortGrouped(d);
    } else {
      GroupedStep(d);
      LastThree(d);
      WrittenOfShorter(d, |d| - 3);
      WrittenIsGrouped(d[..|d| - 3]);
    }
  }

  function GroupedAmount(n: int): Text {
    (if n < 0 then [MINUS] else []) + Grouped(Decimal(if n < 0 then -n else n))
  }

  method GroupThousands(n: int) returns (out: Text)
    ensures out == GroupedAmount(n)
  {
    var digits := Decimal(if n < 0 then -n else n);
    out := [];
    for i := 0 to |digits|
      invariant out == Written(digits, i)
    {
      assert Written(digits, i + 1) == Written(digits, i) + CommaBefore(|digits|, i) + [digits[i]];
      if i > 0 && (|digits| - i) % 3 == 0 {
        out := out + [COMMA];
      }
      out := out + [digits[i]];
    }
    WrittenIsGrouped(digits);
    if n < 0 {
      out := [MINUS] + out;
    }
  }

  function FormatGbp(n: int): Text {
    [POUND] + GroupedAmount(n)
  }

  // ----- reading -----

  datatype Amount = Amount(value: real, index: nat)
  datatype Figure = Figure(value: real, length: nat)

  /** The number of leading digits. */
  function DigitRun(t: Text): (n: nat)
    ensures n <= |t|
    ensures forall i :: 0 <= i < n ==> IsDigit(t[i])
    ensures n < |t| ==> !IsDigit(t[n])
  {
    if t == [] || !IsDigit(t[0]) then 0 else 1 + DigitRun(t[1..])
  }

  predicate GroupAt(t: Text) {
    |t| >= 4 && t[0] == COMMA && IsDigit(t[1]) && IsDigit(t[2]) && IsDigit(t[3])
  }

  /** The number of leading groups `,ddd`. */
  function GroupRun(t: Text): (n: nat)
    ensures 4 * n <= |t|
  {
    if GroupAt(t) then 1 + GroupRun(t[4..]) else 0
  }

  function StripCommas(t: Text): Text {
    if t == [] then []
    else if t[0] == COMMA then StripCommas(t[1..])
    else [t[0]] + StripCommas(t[1..])
  }

  /** How much of `t` the whole-pounds alternatives match: up to three digits and one or more groups
      if they are there, and otherwise all leading digits. */
  function WholeLength(t: Text): (n: nat)
    ensures n <= |t|
  {
    var r := DigitRun(t);
    if 1 <= r <= 3 then r + 4 * GroupRun(t[r..]) else r
  }

  /** The length of an optional `.d` or `.dd`. */
  function FractionLength(t: Text): (n: nat)
    ensures n <= |t| && (n == 0 || (2 <= n <= 3 && forall i :: 1 <= i < n ==> IsDigit(t[i])))
  {
    if |t| < 2 || t[0] != DOT || !IsDigit(t[1]) then 0
    else if |t| >= 3 && IsDigit(t[2]) then 3 else 2
  }

  function FractionValue(t: Text): real
    requires FractionLength(t) == |t|
  {
    if |t| == 0 then 0.0
    else if |t| == 2 then (t[1] - ZERO) as real / 10.0
    else (10 * (t[1] - ZERO) + (t[2] - ZERO)) as real / 100.0
  }

  lemma {:induction false} GroupRunDigits(t: Text)
    ensures forall i :: 0 <= i < |StripCommas(t[..4 * GroupRun(t)])|
              ==> IsDigit(StripCommas(t[..4 * GroupRun(t)])[i])
  {
    if GroupAt(t) {
      GroupRunDigits(t[4..]);
      var k := 4 * GroupRun(t[4..]);
      assert t[..4 + k] == t[..4] + t[4..][..k];
      StripCommasConcat(t[..4], t[4..][..k]);
      StripCommasOfDigits(t[1..4]);
      assert t[..4][1..] == t[1..4];
    }
  }

  lemma HeadConcat<T>(a: seq<T>, b: seq<T>)
    requires a != []
    ensures (a + b)[0] == a[0] && (a + b)[1..] == a[1..] + b
  {
  }

  lemma {:induction false} StripCommasConcat(a: Text, b: Text)
    ensures StripCommas(a + b) == StripCommas(a) + StripCommas(b)
  {
    if a == [] {
      assert a + b == b;
    } else {
      StripCommasConcat(a[1..], b);
      HeadConcat(a, b);
    }
  }

  lemma {:induction false} StripCommasOfDigits(t: Text)
    requires forall i :: 0 <= i < |t| ==> IsDigit(t[i])
    ensures StripCommas(t) == t
  {
    if t != [] {
      StripCommasOfDigits(t[1..]);
      assert t == [t[0]] + t[1..];
    }
  }

  lemma WholeDigits(t: Text)
    ensures forall i :: 0 <= i < |StripCommas(t[..WholeLength(t)])| ==> IsDigit(StripCommas(t[..WholeLength(t)])[i])
  {
    var r, n := DigitRun(t), WholeLength(t);
    GroupRunDigits(t[r..]);
    StripCommasOfDigits(t[..r]);
    assert t[..n] == t[..r] + t[r..][..n - r];
    StripCommasConcat(t[..r], t[r..][..n - r]);
  }

  /** One match of the amount pattern at the start of `t`. */
  function MatchAmount(t: Text): (r: Option<Figure>)
    ensures r.Some? ==> 0 < r.value.length <= |t|
  {
    if t == [] || t[0] != POUND then None
    else
      var skip := if |t| > 1 && IsSpace(t[1]) then 2 else 1;
      var n := WholeLength(t[skip..]);
      if n == 0 then None
      else
        WholeDigits(t[skip..]);
        var whole := DecimalValue(StripCommas(t[skip..][..n]));
        var f := FractionLength(t[skip + n..]);
        Some(Figure(whole as real + FractionValue(t[skip + n..][..f]), skip + n + f))
  }

  /** Every match, left to right, the next search starting where the last match ended. */
  function Amounts(t: Text, base: nat): seq<Amount>
    decreases |t|
  {
    if t == [] then []
    else
      match MatchAmount(t)
      case Some(fig) => [Amount(fig.value, base)] + Amounts(t[fig.length..], base + fig.length)
      case None => Amounts(t[1..], base + 1)
  }

  method ParseGbpAmounts(text: Text) returns (out: seq<Amount>)
    ensures out == Amounts(text, 0)
  {
    hide MatchAmount, Amounts;
    out := [];
    var at := 0;
    StartOfAmounts(text);
    while at < |text|
      invariant 0 <= at <= |text|
      invariant out + AmountsFrom(text, at) == Amounts(text, 0)
    {
      var m := MatchAmount(text[at..]);
      AmountsStep(text, at);
      hide AmountsFrom;
      if m.Some? {
        ConcatAssociative(out, [Amount(m.value.value, at)], AmountsFrom(text, at + m.value.length));
        out := out + [Amount(m.value.value, at)];
        at := at + m.value.length;
      } else {
        at := at + 1;
      }
    }
    NoTextNoAmount(text, at);
  }

  /** The amounts from this offset on. */
  function AmountsFrom(text: Text, at: nat): seq<Amount>
    requires at <= |text|
  {
    Amounts(text[at..], at)
  }

  lemma StartOfAmounts(text: Text)
    ensures [] + AmountsFrom(text, 0) == Amounts(text, 0)
  {
    assert text[0..] == text;
    EmptyConcat(Amounts(text, 0));
  }

  lemma AmountsStep(text: Text, at: nat)
    requires at < |text|
    ensures var m := MatchAmount(text[at..]);
            (m.Some? ==> 0 < m.value.length <= |text| - at)
            && (m.Some? ==> AmountsFrom(text, at) == [Amount(m.value.value, at)] + AmountsFrom(text, at + m.value.length))
            && (m.None? ==> AmountsFrom(text, at) == AmountsFrom(text, at + 1))
  {
    var m, t := MatchAmount(text[at..]), text[at..];
    hide MatchAmount;
    if m.Some? {
      assert t[m.value.length..] == text[at + m.value.length..];
    }
    assert t[1..] == text[at + 1..];
  }

  lemma NoTextNoAmount(text: Text, at: nat)
    requires at == |text|
    ensures AmountsFrom(text, at) == []
  {
  }

  // ----- printing and reading undo each other -----

  /** Text that would carry an amount before it further: a digit, a full group, or a fraction. */
  predicate Continues(t: Text) {
    t != [] && (IsDigit(t[0]) || GroupAt(t) || FractionLength(t) > 0)
  }

  lemma {:induction false} DigitRunConcat(a: Text, b: Text)
    requires forall i :: 0 <= i < |a| ==> IsDigit(a[i])
    requires b == [] || !IsDigit(b[0])
    ensures DigitRun(a + b) == |a|
  {
    if a == [] {
      assert a + b == b;
    } else {
      DigitRunConcat(a[1..], b);
      assert (a + b)[1..] == a[1..] + b;
    }
  }

  /** The digits that come before the first comma. */
  function HeadLength(d: Text): (n: nat)
    requires d != []
    ensures 1 <= n <= 3 && n <= |d| && (|d| - n) % 3 == 0
  {
    (|d| - 1) % 3 + 1
  }

  /** The groups of a number read forwards. */
  function Groups(d: Text): Text
    requires |d| % 3 == 0
  {
    if d == [] then [] else [COMMA] + d[..3] + Groups(d[3..])
  }

  lemma {:induction false} GroupsAppend(d: Text, last: Text)
    requires |d| % 3 == 0 && |last| == 3
    ensures Groups(d + last) == Groups(d) + [COMMA] + last
    decreases |d|
  {
    var s := d + last;
    if d == [] {
      assert s == last && last[..3] == last && last[3..] == [];
    } else {
      GroupsAppend(d[3..], last);
      assert s[..3] == d[..3] && s[3..] == d[3..] + last;
    }
  }

  lemma SplitAgain<T>(d: seq<T>, h: nat)
    requires |d| > 3 && h <= |d| - 3
    ensures d[h..] == d[..|d| - 3][h..] + d[|d| - 3..] && d[..|d| - 3][..h] == d[..h]
  {
  }

  lemma SameHeadLength(d: Text)
    requires |d| > 3
    ensures HeadLength(d) == HeadLength(d[..|d| - 3])
  {
    assert (|d| - 3 - 1) % 3 == (|d| - 1) % 3;
  }

  lemma FewDigits(d: Text)
    requires 0 < |d| <= 3
    ensures Grouped(d) == d[..HeadLength(d)] + Groups(d[HeadLength(d)..])
  {
    assert HeadLength(d) == |d|;
    assert d[|d|..] == [] && d[..|d|] == d;
    EmptyConcat(d);
  }

  lemma {:induction false} GroupedForward(d: Text)
    requires d != []
    ensures Grouped(d) == d[..HeadLength(d)] + Groups(d[HeadLength(d)..])
    decreases |d|
  {
    hide Groups, Grouped, HeadLength;
    if |d| > 3 {
      var front, last := d[..|d| - 3], d[|d| - 3..];
      var h := HeadLength(d);
      SameHeadLength(d);
      GroupedForward(front);
      GroupsAppend(front[h..], last);
      SplitAgain(d, h);
      GroupedStep(d);
      ConcatAssociative(d[..h], Groups(front[h..]), [COMMA]);
      ConcatAssociative(d[..h], Groups(front[h..]) + [COMMA], last);
    } else {
      FewDigits(d);
    }
  }

  lemma {:induction false} GroupsScan(d: Text, rest: Text)
    requires |d| % 3 == 0 && forall i :: 0 <= i < |d| ==> IsDigit(d[i])
    ensures |Groups(d)| == 4 * (|d| / 3)
    ensures GroupRun(Groups(d) + rest) == |d| / 3 + GroupRun(rest)
    decreases |d|
  {
    var t := Groups(d) + rest;
    if d == [] {
      assert t == rest;
    } else {
      GroupsScan(d[3..], rest);
      assert t[4..] == Groups(d[3..]) + rest && GroupAt(t);
    }
  }

  lemma {:induction false} GroupsDigits(d: Text)
    requires |d| % 3 == 0 && forall i :: 0 <= i < |d| ==> IsDigit(d[i])
    ensures StripCommas(Groups(d)) == d
    decreases |d|
  {
    if d != [] {
      GroupsDigits(d[3..]);
      StripCommasConcat([COMMA] + d[..3], Groups(d[3..]));
      assert ([COMMA] + d[..3])[1..] == d[..3];
      StripCommasOfDigits(d[..3]);
      assert d == d[..3] + d[3..];
    }
  }

  /** Scanning a grouped number takes all of it, and its digits are the number's. */
  lemma GroupedScan(d: Text, rest: Text)
    requires d != [] && forall i :: 0 <= i < |d| ==> IsDigit(d[i])
    requires !Continues(rest)
    ensures WholeLength(Grouped(d) + rest) == |Grouped(d)|
    ensures StripCommas(Grouped(d)) == d
    ensures Grouped(d) != [] && Grouped(d)[0] == d[0]
  {
    hide Grouped, Groups, DigitRun, GroupRun, StripCommas, HeadLength;
    var h := HeadLength(d);
    var e, more := d[h..], Groups(d[h..]) + rest;
    GroupedForward(d);
    GroupsScan(e, rest);
    GroupsDigits(e);
    GroupsStart(e, rest);
    StripCommasOfDigits(d[..h]);
    StripCommasConcat(d[..h], Groups(e));
    DigitRunConcat(d[..h], more);
    ConcatAssociative(d[..h], Groups(e), rest);
    SplitConcat(d[..h], more);
    ConcatSplit(d, h);
  }

  lemma GroupsStart(d: Text, rest: Text)
    requires |d| % 3 == 0 && !Continues(rest)
    ensures GroupRun(rest) == 0
    ensures Groups(d) + rest == [] || !IsDigit((Groups(d) + rest)[0])
  {
    if d == [] {
      assert Groups(d) + rest == rest;
    }
  }

  lemma MatchShape(g: Text, rest: Text)
    requires g != [] && !IsSpace(g[0])
    requires WholeLength(g + rest) == |g| && FractionLength(rest) == 0
    requires forall i :: 0 <= i < |StripCommas(g)| ==> IsDigit(StripCommas(g)[i])
    ensures MatchAmount([POUND] + g + rest) == Some(Figure(DecimalValue(StripCommas(g)) as real, 1 + |g|))
  {
    var t := [POUND] + g + rest;
    hide StripCommas, DecimalValue, WholeLength, FractionLength;
    ConcatAssociative([POUND], g, rest);
    SplitConcat([POUND], g + rest);
    SplitConcat(g, rest);
    SplitConcat([POUND] + g, rest);
  }

  /** A printed amount is read back as itself when what follows does not carry it further. */
  lemma AmountRoundTrip(n: nat, rest: Text)
    requires !Continues(rest)
    ensures MatchAmount(FormatGbp(n) + rest) == Some(Figure(n as real, |FormatGbp(n)|))
  {
    hide Decimal, Grouped, StripCommas, DecimalValue, Continues, WholeLength, FractionLength, MatchAmount, GroupedAmount;
    var d := Decimal(n);
    AmountDigits(n);
    NoFraction(rest);
    GroupedScan(d, rest);
    DecimalRoundTrip(n);
    MatchShape(Grouped(d), rest);
  }

  lemma AmountDigits(n: nat)
    ensures GroupedAmount(n) == Grouped(Decimal(n)) && !IsSpace(Decimal(n)[0])
  {
    hide Grouped;
    assert IsDigit(Decimal(n)[0]);
    EmptyConcat(Grouped(Decimal(n)));
  }

  lemma NoFraction(rest: Text)
    requires !Continues(rest)
    ensures FractionLength(rest) == 0
  {
  }

  lemma NoPoundFirst(t: Text, base: nat)
    requires t != [] && t[0] != POUND
    ensures Amounts(t, base) == Amounts(t[1..], base + 1)
  {
  }

  /** Text without a pound sign holds no amount. */
  lemma {:induction false} NoPoundNoAmount(a: Text, t: Text, base: nat)
    requires Free(a, POUND)
    ensures Amounts(a + t, base) == Amounts(t, base + |a|)
    decreases |a|
  {
    hide Amounts;
    if a == [] {
      EmptyConcat(t);
    } else {
      HeadConcat(a, t);
      assert a[0] in a;
      NoPoundFirst(a + t, base);
      NoPoundNoAmount(a[1..], t, base + 1);
    }
  }

  /** A figure shown on the page, with the text up to the next figure. */
  datatype Piece = Piece(amount: nat, tail: Text)

  predicate PlainPiece(p: Piece) {
    Free(p.tail, POUND) && !Continues(p.tail)
  }

  function Render(pieces: seq<Piece>): Text {
    if pieces == [] then []
    else FormatGbp(pieces[0].amount) + pieces[0].tail + Render(pieces[1..])
  }

  function Shown(pieces: seq<Piece>, base: nat): (r: seq<Amount>)
    ensures |r| == |pieces|
    ensures forall i :: 0 <= i < |pieces| ==> r[i].value == pieces[i].amount as real
  {
    if pieces == [] then []
    else
      var len := |FormatGbp(pieces[0].amount)| + |pieces[0].tail|;
      [Amount(pieces[0].amount as real, base)] + Shown(pieces[1..], base + len)
  }

  lemma TailThenFigure(tail: Text, pieces: seq<Piece>)
    requires !Continues(tail)
    ensures !Continues(tail + Render(pieces))
  {
    var r := Render(pieces);
    var t := tail + r;
    assert r != [] ==> r[0] == POUND;
    assert forall i :: 0 <= i < |tail| ==> t[i] == tail[i];
    assert |t| > |tail| ==> t[|tail|] == POUND;
  }

  lemma FigureStep(f: Text, v: real, rest: Text, base: nat)
    requires MatchAmount(f + rest) == Some(Figure(v, |f|))
    ensures Amounts(f + rest, base) == [Amount(v, base)] + Amounts(rest, base + |f|)
  {
    hide MatchAmount;
    SplitConcat(f, rest);
  }

  lemma {:induction false} PiecesRoundTrip(pieces: seq<Piece>, base: nat)
    requires forall i :: 0 <= i < |pieces| ==> PlainPiece(pieces[i])
    ensures Amounts(Render(pieces), base) == Shown(pieces, base)
    decreases |pieces|
  {
    hide Amounts, FormatGbp, Continues, MatchAmount;
    if pieces == [] {
      assert Amounts([], base) == [] by { EmptyPage(base); }
    } else {
      var p, more := pieces[0], pieces[1..];
      var f := FormatGbp(p.amount);
      TailThenFigure(p.tail, more);
      AmountRoundTrip(p.amount, p.tail + Render(more));
      FigureStep(f, p.amount as real, p.tail + Render(more), base);
      NoPoundNoAmount(p.tail, Render(more), base + |f|);
      PiecesRoundTrip(more, base + |f| + |p.tail|);
      assert Render(pieces) == f + (p.tail + Render(more));
    }
  }

  lemma EmptyPage(base: nat)
    ensures Amounts([], base) == []
  {
  }

  /** Reading a page made of plain text and printed amounts gives exactly those amounts, in order,
      each at the offset of its pound sign. */
  lemma PageRoundTrip(lead: Text, pieces: seq<Piece>)
    requires Free(lead, POUND)
    requires forall i :: 0 <= i < |pieces| ==> PlainPiece(pieces[i])
    ensures Amounts(lead + Render(pieces), 0) == Shown(pieces, |lead|)
  {
    hide Amounts, Render, Shown;
    NoPoundNoAmount(lead, Render(pieces), 0);
    PiecesRoundTrip(pieces, |lead|);
  }

  // ----- money provenance -----

  /** The figures outside `allowed`, each at its first occurrence. */
  function Unsourced(values: seq<real>, allowed: set<real>): (r: seq<real>)
    ensures forall v :: v in r <==> v in values && v !in allowed
    ensures forall i, j :: 0 <= i < j < |r| ==> r[i] != r[j]
  {
    if values == [] then []
    else
      var front, v := values[..|values| - 1], values[|values| - 1];
      var r := Unsourced(front, allowed);
      assert values == front + [v];
      if v in allowed || v in r then r else r + [v]
  }

  function Values(amounts: seq<Amount>): (r: seq<real>)
    ensures |r| == |amounts| && forall i :: 0 <= i < |r| ==> r[i] == amounts[i].value
  {
    seq(|amounts|, i requires 0 <= i < |amounts| => amounts[i].value)
  }

  method CheckMoneyProvenance(allowed: set<real>, amounts: seq<Amount>) returns (violations: seq<real>)
    ensures violations == Unsourced(Values(amounts), allowed)
  {
    violations := [];
    var flagged: set<real> := {};
    for i := 0 to |amounts|
      invariant flagged == set v | v in violations
      invariant violations == Unsourced(Values(amounts)[..i], allowed)
    {
      var v := amounts[i].value;
      assert Values(amounts)[..i + 1] == Values(amounts)[..i] + [v];
      assert Values(amounts)[..i + 1][..i] == Values(amounts)[..i];
      if !(v in allowed || v in flagged) {
        flagged := flagged + {v};
        violations := violations + [v];
      }
    }
    assert Values(amounts)[..|amounts|] == Values(amounts);
  }

  /** On a page of plain text and printed amounts the rule raises one violation for each distinct
      amount without a source, and none exactly when every amount has one. */
  lemma PageProvenance(lead: Text, pieces: seq<Piece>, allowed: set<real>)
    requires Free(lead, POUND)
    requires forall i :: 0 <= i < |pieces| ==> PlainPiece(pieces[i])
    ensures var found := Unsourced(Values(Amounts(lead + Render(pieces), 0)), allowed);
            && (forall i, j :: 0 <= i < j < |found| ==> found[i] != found[j])
            && (forall v :: v in found <==>
                  v !in allowed && exists i :: 0 <= i < |pieces| && pieces[i].amount as real == v)
            && (found == [] <==> forall i :: 0 <= i < |pieces| ==> pieces[i].amount as real in allowed)
  {
    PageRoundTrip(lead, pieces);
    var shown := Shown(pieces, |lead|);
    var values := Values(shown);
    var found := Unsourced(values, allowed);
    forall v ensures v in values <==> exists i :: 0 <= i < |pieces| && pieces[i].amount as real == v {
      if v in values {
        var i :| 0 <= i < |values| && values[i] == v;
        assert pieces[i].amount as real == v;
      }
      if exists i :: 0 <= i < |pieces| && pieces[i].amount as real == v {
        var i :| 0 <= i < |pieces| && pieces[i].amount as real == v;
        assert values[i] == v;
      }
    }
    if found != [] {
      assert found[0] in found;
    }
    forall i | found == [] && 0 <= i < |pieces| ensures pieces[i].amount as real in allowed {
      assert values[i] in values && values[i] !in found;
    }
  }

  // ----- token search -----

  /** `text.replace(/,/g, '')` leaves the digits of a count together; a count is shown when its text
      stands there with no digit on either side. */
  predicate StandsAlone(bare: Text, token: Text, i: int) {
    && OccursAt(bare, token, i)
    && !(i > 0 && IsDigit(bare[i - 1]))
    && !(i + |token| < |bare| && IsDigit(bare[i + |token|]))
  }

  ghost predicate ShowsToken(bare: Text, token: Text) {
    exists i :: StandsAlone(bare, token, i)
  }

  method ContainsNumberToken(text: Text, token: Text) returns (found: bool)
    ensures found <==> token != [] && ShowsToken(StripCommas(text), token)
  {
    var bare := StripCommas(text);
    if token == [] {
      return false;
    }
    var from := 0;
    while true
      invariant 0 <= from <= |bare|
      invariant forall j :: 0 <= j < from ==> !StandsAlone(bare, token, j)
      decreases |bare| - from
    {
      var i := IndexOf(bare, token, from);
      if i == -1 {
        return false;
      }
      if !(i > 0 && IsDigit(bare[i - 1])) && !(i + |token| < |bare| && IsDigit(bare[i + |token|])) {
        assert StandsAlone(bare, token, i);
        return true;
      }
      from := i + 1;
    }
  }

  /** `allIndexOf`: every offset at which the needle occurs, overlaps included, in ascending order. */
  method AllIndexOf(hay: Text, needle: Text) returns (out: seq<int>)
    ensures needle == [] ==> out == []
    ensures needle != [] ==> forall i :: i in out <==> OccursAt(hay, needle, i)
    ensures forall a, b :: 0 <= a < b < |out| ==> out[a] < out[b]
  {
    out := [];
    if needle == [] {
      return;
    }
    var i := IndexOf(hay, needle, 0);
    while i != -1
      invariant i == -1 || OccursAt(hay, needle, i)
      invariant forall k :: k in out <==> OccursAt(hay, needle, k) && (i == -1 || k < i)
      invariant forall a :: 0 <= a < |out| ==> i == -1 || out[a] < i
      invariant forall a, b :: 0 <= a < b < |out| ==> out[a] < out[b]
      decreases if i == -1 then 0 else 1 + |hay| - i
    {
      out := out + [i];
      i := IndexOf(hay, needle, i + 1);
    }
  }
}
