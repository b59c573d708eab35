/** supervised/capture-index.js: boundary maps record where runs of text were joined. */
module Boundaries {
  import opened Texts
  import opened Encoding

  // ----- the boundary map -----

  datatype Boundary = Boundary(charOffset: nat, byteOffset: nat, punctuated: bool)

  const CLOSERS: seq<int> := [
    '.' as int, '!' as int, '?' as int, ':' as int, ';' as int, ',' as int, ')' as int, ']' as int, '}' as int,
    '\"' as int, '\'' as int, 0x2019, 0x201D, '-' as int]
  const OPENERS: seq<int> := ['(' as int, '\"' as int, '\'' as int, 0x2018, 0x201C, '[' as int, '-' as int]

  predicate EndsClosed(t: Text) {
    t != [] && (t[|t| - 1] in CLOSERS || (IsSpace(t[|t| - 1]) && EndsClosed(t[..|t| - 1])))
  }

  predicate StartsOpen(t: Text) {
    t != [] && (t[0] in OPENERS || (IsSpace(t[0]) && StartsOpen(t[1..])))
  }

  predicate Punctuated(before: Text, after: Text) {
    EndsClosed(before) || StartsOpen(after)
  }

  /** A run of text and where it was found. */
  datatype Span = Span(start: nat, run: Text)

  function End(s: Span): nat {
    s.start + |s.run|
  }

  /** `text.indexOf(run, from)`. */
  function Find(text: Text, run: Text, from: nat): int {
    IndexOf(text, run, from)
  }

  lemma FindSound(text: Text, run: Text, from: nat)
    ensures var at := Find(text, run, from); at == -1 || (from <= at && OccursAt(text, run, at))
  {
  }

  /** The runs that are found, each searched for after the one before it; the others are passed over. */
  function Locate(text: Text, runs: seq<Text>, from: nat): seq<Span> {
    if runs == [] then []
    else
      var at := Find(text, runs[0], from);
      FindSound(text, runs[0], from);
      if at == -1 then Locate(text, runs[1..], from)
      else [Span(at, runs[0])] + Locate(text, runs[1..], at + |runs[0]|)
  }

  predicate Within(text: Text, spans: seq<Span>) {
    forall i :: 0 <= i < |spans| ==> End(spans[i]) <= |text|
  }

  /** A boundary wherever something lies between a found run and the next one. */
  function Gaps(text: Text, spans: seq<Span>): seq<Boundary>
    requires Within(text, spans)
  {
    if |spans| < 2 then []
    else
      (if spans[1].start > End(spans[0])
       then [Boundary(End(spans[0]), ByteLength(text[..End(spans[0])]), Punctuated(spans[0].run, spans[1].run))]
       else [])
      + Gaps(text, spans[1..])
  }

  predicate NonEmptyRuns(runs: seq<Text>) {
    forall i :: 0 <= i < |runs| ==> runs[i] != []
  }

  predicate Found(text: Text, s: Span) {
    s.run != [] && OccursAt(text, s.run, s.start)
  }

  /** The spans lie one after another in the text, each where its run occurs. */
  predicate InOrder(text: Text, spans: seq<Span>, from: nat) {
    && (forall i :: 0 <= i < |spans| ==> Found(text, spans[i]) && from <= spans[i].start)
    && (forall i, j :: 0 <= i < j < |spans| ==> End(spans[i]) <= spans[j].start)
  }

  lemma InOrderCons(text: Text, s: Span, rest: seq<Span>, from: nat)
    requires Found(text, s) && from <= s.start && InOrder(text, rest, End(s))
    ensures InOrder(text, [s] + rest, from)
  {
    hide Found;
    var all := [s] + rest;
    assert all[0] == s && forall j :: 1 <= j < |all| ==> all[j] == rest[j - 1];
  }

  lemma {:induction false} LocateInOrder(text: Text, runs: seq<Text>, from: nat)
    requires NonEmptyRuns(runs)
    ensures InOrder(text, Locate(text, runs, from), from)
  {
    if runs != [] {
      var at := Find(text, runs[0], from);
      FindSound(text, runs[0], from);
      hide InOrder, Find;
      if at == -1 {
        LocateInOrder(text, runs[1..], from);
      } else {
        LocateInOrder(text, runs[1..], at + |runs[0]|);
        InOrderCons(text, Span(at, runs[0]), Locate(text, runs[1..], at + |runs[0]|), from);
      }
    }
  }

  function BoundaryMap(text: Text, runs: seq<Text>): seq<Boundary>
    requires NonEmptyRuns(runs)
  {
    LocateWithin(text, runs);
    Gaps(text, Locate(text, runs, 0))
  }

  /** Where the search for the next run begins. */
  function SearchFrom(spans: seq<Span>, from: nat): nat {
    if spans == [] then from else End(spans[|spans| - 1])
  }

  lemma SearchFromCons(s: Span, rest: seq<Span>, from: nat)
    ensures SearchFrom([s] + rest, from) == SearchFrom(rest, End(s))
  {
  }

  lemma {:induction false} LocateAppend(text: Text, runs: seq<Text>, run: Text, from: nat)
    ensures var at := Find(text, run, SearchFrom(Locate(text, runs, from), from));
            at < 0 ==> at == -1 && Locate(text, runs + [run], from) == Locate(text, runs, from)
    ensures var at := Find(text, run, SearchFrom(Locate(text, runs, from), from));
            at >= 0 ==> Locate(text, runs + [run], from) == Locate(text, runs, from) + [Span(at, run)]
    decreases |runs|
  {
    FindSound(text, run, SearchFrom(Locate(text, runs, from), from));
    hide Find, OccursAt;
    if runs == [] {
      assert runs + [run] == [run] && [run][1..] == [];
    } else {
      var at := Find(text, runs[0], from);
      FindSound(text, runs[0], from);
      assert (runs + [run])[1..] == runs[1..] + [run];
      hide SearchFrom;
      if at == -1 {
        LocateAppend(text, runs[1..], run, from);
      } else {
        LocateAppend(text, runs[1..], run, at + |runs[0]|);
        SearchFromCons(Span(at, runs[0]), Locate(text, runs[1..], at + |runs[0]|), from);
      }
    }
  }

  function GapBetween(text: Text, s: Span, t: Span): seq<Boundary>
    requires End(s) <= |text|
  {
    if t.start > End(s) then [Boundary(End(s), ByteLength(text[..End(s)]), Punctuated(s.run, t.run))] else []
  }

  lemma {:induction false} GapsAppend(text: Text, spans: seq<Span>, s: Span)
    requires spans != [] && End(s) <= |text| && Within(text, spans)
    ensures Gaps(text, spans + [s]) == Gaps(text, spans) + GapBetween(text, spans[|spans| - 1], s)
  {
    hide GapBetween;
    if |spans| == 1 {
      GapsHead(text, spans + [s]);
      assert (spans + [s])[1..] == [s];
    } else {
      GapsHead(text, spans);
      GapsHead(text, spans + [s]);
      hide Gaps;
      GapsAppend(text, spans[1..], s);
      assert (spans + [s])[1..] == spans[1..] + [s];
      ConcatAssociative(GapBetween(text, spans[0], spans[1]), Gaps(text, spans[1..]), GapBetween(text, spans[|spans| - 1], s));
    }
  }

  lemma GapsHead(text: Text, spans: seq<Span>)
    requires |spans| >= 2 && Within(text, spans)
    ensures Gaps(text, spans) == GapBetween(text, spans[0], spans[1]) + Gaps(text, spans[1..])
  {
    hide Punctuated, ByteLength;
  }

  lemma LocateWithin(text: Text, runs: seq<Text>)
    requires NonEmptyRuns(runs)
    ensures Within(text, Locate(text, runs, 0))
  {
    LocateInOrder(text, runs, 0);
    var spans := Locate(text, runs, 0);
    hide Locate;
    assert forall i :: 0 <= i < |spans| ==> Found(text, spans[i]);
  }

  lemma LastWithin(text: Text, spans: seq<Span>, s: Span)
    requires Within(text, spans + [s])
    ensures End(s) <= |text|
  {
    assert (spans + [s])[|spans|] == s;
  }

  lemma NothingFound(text: Text)
    ensures Locate(text, [], 0) == [] && Within(text, []) && Gaps(text, []) == []
  {
  }

  lemma OneSpan(text: Text, s: Span)
    requires End(s) <= |text|
    ensures Gaps(text, [s]) == []
  {
  }

  /** What the cursor loop knows after the runs read so far. */
  ghost predicate Scanned(text: Text, runs: seq<Text>, spans: seq<Span>, boundaries: seq<Boundary>, prevEnd: int, prevRun: Text) {
    && spans == Locate(text, runs, 0) && Within(text, spans) && boundaries == Gaps(text, spans)
    && (spans == [] ==> prevEnd == -1)
    && (spans != [] ==> prevEnd == End(spans[|spans| - 1]) && prevRun == spans[|spans| - 1].run)
  }

  lemma ScanMissed(text: Text, runs: seq<Text>, run: Text, spans: seq<Span>, boundaries: seq<Boundary>, prevEnd: int, prevRun: Text)
    requires Scanned(text, runs, spans, boundaries, prevEnd, prevRun)
    requires Find(text, run, if prevEnd == -1 then 0 else prevEnd) == -1
    ensures Scanned(text, runs + [run], spans, boundaries, prevEnd, prevRun)
  {
    LocateAppend(text, runs, run, 0);
    hide Locate, Gaps, Within, Find;
  }

  lemma ScanFound(text: Text, runs: seq<Text>, run: Text, spans: seq<Span>, boundaries: seq<Boundary>, prevEnd: int, prevRun: Text, s: Span)
    requires Scanned(text, runs, spans, boundaries, prevEnd, prevRun) && NonEmptyRuns(runs + [run])
    requires s.run == run && Find(text, run, if prevEnd == -1 then 0 else prevEnd) == s.start
    ensures prevEnd <= |text|
    ensures Scanned(text, runs + [run], spans + [s],
                    boundaries + if prevEnd == -1 then [] else GapBetween(text, spans[|spans| - 1], s), End(s), run)
  {
    LocateAppend(text, runs, run, 0);
    LocateWithin(text, runs + [run]);
    hide Locate, Find, GapBetween, Gaps;
    LastWithin(text, spans, s);
    GapsGrow(text, spans, s);
    hide Within;
  }

  lemma GapsGrow(text: Text, spans: seq<Span>, s: Span)
    requires Within(text, spans) && End(s) <= |text| && Within(text, spans + [s])
    ensures Gaps(text, spans + [s]) == Gaps(text, spans) + if spans == [] then [] else GapBetween(text, spans[|spans| - 1], s)
  {
    hide Gaps, GapBetween, ByteLength, Punctuated;
    if spans == [] {
      NothingFound(text);
      OneSpan(text, s);
      assert spans + [s] == [s];
    } else {
      GapsAppend(text, spans, s);
    }
  }

  method BuildBoundaryMap(text: Text, runs: seq<Text>) returns (boundaries: seq<Boundary>)
    requires NonEmptyRuns(runs)
    ensures boundaries == BoundaryMap(text, runs)
  {
    boundaries := [];
    var searchFrom: nat, prevEnd: int, prevRun: Text := 0, -1, [];
    ghost var spans: seq<Span> := [];
    NothingFound(text);
    assert runs[..0] == [];
    for i := 0 to |runs|
      invariant Scanned(text, runs[..i], spans, boundaries, prevEnd, prevRun)
      invariant searchFrom == if prevEnd == -1 then 0 else prevEnd
    {
      var run := runs[i];
      var at := Find(text, run, searchFrom);
      FindSound(text, run, searchFrom);
      assert runs[..i + 1] == runs[..i] + [run];
      hide Scanned, Find, ByteLength, Punctuated;
      if at == -1 {
        ScanMissed(text, runs[..i], run, spans, boundaries, prevEnd, prevRun);
        continue;
      }
      ScanFound(text, runs[..i], run, spans, boundaries, prevEnd, prevRun, Span(at, run));
      LastSpan(text, runs[..i], spans, boundaries, prevEnd, prevRun);
      if prevEnd != -1 && at > prevEnd {
        boundaries := boundaries + [Boundary(prevEnd, ByteLength(text[..prevEnd]), Punctuated(prevRun, run))];
      }
      spans := spans + [Span(at, run)];
      prevEnd := at + |run|;
      searchFrom := prevEnd;
      prevRun := run;
    }
    assert runs[..|runs|] == runs;
  }

  lemma LastSpan(text: Text, runs: seq<Text>, spans: seq<Span>, boundaries: seq<Boundary>, prevEnd: int, prevRun: Text)
    requires Scanned(text, runs, spans, boundaries, prevEnd, prevRun)
    ensures prevEnd == -1 <==> spans == []
    ensures spans != [] ==> prevEnd == End(spans[|spans| - 1]) && prevRun == spans[|spans| - 1].run
  {
    hide Locate, Gaps, Within;
  }

  /** The boundary lies at the end of one found run and before the start of the next. */
  predicate Between(text: Text, spans: seq<Span>, b: Boundary, k: nat) {
    && k + 1 < |spans|
    && b.charOffset == End(spans[k]) < spans[k + 1].start
    && b.punctuated == Punctuated(spans[k].run, spans[k + 1].run)
    && b.charOffset <= |text| && b.byteOffset == ByteLength(text[..b.charOffset])
  }

  ghost predicate Explained(text: Text, spans: seq<Span>, b: Boundary) {
    exists k :: 0 <= k && Between(text, spans, b, k)
  }

  lemma ExplainedLater(text: Text, spans: seq<Span>, b: Boundary)
    requires spans != [] && Explained(text, spans[1..], b)
    ensures Explained(text, spans, b)
  {
    var k :| 0 <= k && Between(text, spans[1..], b, k);
    assert Between(text, spans, b, k + 1);
  }

  ghost predicate AllExplained(text: Text, spans: seq<Span>, g: seq<Boundary>, from: nat) {
    forall i :: 0 <= i < |g| ==> Explained(text, spans, g[i]) && from <= g[i].charOffset < |text|
  }

  predicate Rising(g: seq<Boundary>) {
    forall i, j :: 0 <= i < j < |g| ==> g[i].charOffset < g[j].charOffset
  }

  lemma SkipGap(text: Text, spans: seq<Span>, g: seq<Boundary>, from: nat, earlier: nat)
    requires spans != [] && AllExplained(text, spans[1..], g, from) && earlier <= from
    ensures AllExplained(text, spans, g, earlier)
  {
    hide Explained;
    forall i | 0 <= i < |g| ensures Explained(text, spans, g[i]) && earlier <= g[i].charOffset < |text| {
      ExplainedLater(text, spans, g[i]);
    }
  }

  lemma PrependGap(text: Text, spans: seq<Span>, b: Boundary, g: seq<Boundary>, from: nat)
    requires AllExplained(text, spans, g, from) && Rising(g) && Explained(text, spans, b)
    requires b.charOffset < from && b.charOffset < |text|
    ensures AllExplained(text, spans, [b] + g, b.charOffset) && Rising([b] + g)
  {
    hide Explained;
    var all := [b] + g;
    assert all[0] == b && forall j :: 1 <= j < |all| ==> all[j] == g[j - 1];
  }

  lemma NextSpan(text: Text, spans: seq<Span>, from: nat)
    requires InOrder(text, spans, from) && |spans| >= 2
    ensures InOrder(text, spans[1..], from)
    ensures End(spans[0]) <= spans[1].start < End(spans[1]) <= |text|
  {
    assert Found(text, spans[0]) && Found(text, spans[1]);
  }

  function FirstGap(text: Text, spans: seq<Span>): Boundary
    requires |spans| >= 2 && End(spans[0]) <= |text|
  {
    Boundary(End(spans[0]), ByteLength(text[..End(spans[0])]), Punctuated(spans[0].run, spans[1].run))
  }

  lemma GapsStep(text: Text, spans: seq<Span>)
    requires |spans| >= 2 && Within(text, spans)
    ensures Within(text, spans[1..])
    ensures spans[1].start > End(spans[0]) ==> Gaps(text, spans) == [FirstGap(text, spans)] + Gaps(text, spans[1..])
    ensures spans[1].start <= End(spans[0]) ==> Gaps(text, spans) == Gaps(text, spans[1..])
  {
    hide Punctuated, ByteLength;
  }

  lemma {:induction false} GapsSound(text: Text, spans: seq<Span>, from: nat)
    requires InOrder(text, spans, from) && spans != [] && Within(text, spans)
    ensures AllExplained(text, spans, Gaps(text, spans), End(spans[0])) && Rising(Gaps(text, spans))
  {
    if |spans| >= 2 {
      hide Punctuated, ByteLength, InOrder, AllExplained, Rising, Explained, Within, Gaps;
      NextSpan(text, spans, from);
      GapsStep(text, spans);
      var rest := Gaps(text, spans[1..]);
      GapsSound(text, spans[1..], from);
      if spans[1].start > End(spans[0]) {
        ExplainedFirst(text, spans, FirstGap(text, spans));
        SkipGap(text, spans, rest, End(spans[1]), End(spans[1]));
        PrependGap(text, spans, FirstGap(text, spans), rest, End(spans[1]));
      } else {
        SkipGap(text, spans, rest, End(spans[1]), End(spans[0]));
      }
    }
  }

  lemma ExplainedFirst(text: Text, spans: seq<Span>, b: Boundary)
    requires Between(text, spans, b, 0)
    ensures Explained(text, spans, b)
  {
  }

  /** No gap is missed. */
  lemma {:induction false} GapsComplete(text: Text, spans: seq<Span>, k: nat)
    requires Within(text, spans)
    requires k + 1 < |spans| && spans[k + 1].start > End(spans[k])
    ensures Boundary(End(spans[k]), ByteLength(text[..End(spans[k])]), Punctuated(spans[k].run, spans[k + 1].run)) in Gaps(text, spans)
  {
    hide Punctuated, ByteLength;
    if k > 0 {
      GapsComplete(text, spans[1..], k - 1);
    }
  }

  lemma ExplainedOffset(text: Text, runs: seq<Text>, b: Boundary)
    requires NonEmptyRuns(runs) && Explained(text, Locate(text, runs, 0), b)
    ensures 0 < b.charOffset <= |text| && b.byteOffset == ByteLength(text[..b.charOffset])
  {
    var spans := Locate(text, runs, 0);
    LocateInOrder(text, runs, 0);
    hide Locate, ByteLength, Punctuated;
    var k :| 0 <= k && Between(text, spans, b, k);
    assert Found(text, spans[k]);
  }

  /** Each boundary lies between two found runs, and character offsets rise. */
  lemma BoundaryMapExplained(text: Text, runs: seq<Text>)
    requires NonEmptyRuns(runs)
    ensures AllExplained(text, Locate(text, runs, 0), BoundaryMap(text, runs), 0) && Rising(BoundaryMap(text, runs))
  {
    var spans := Locate(text, runs, 0);
    LocateInOrder(text, runs, 0);
    if spans != [] {
      assert forall i :: 0 <= i < |spans| ==> Found(text, spans[i]);
      GapsSound(text, spans, 0);
      hide Explained, Gaps, Locate;
    }
  }

  /** A boundary of the map lies strictly inside the buffer, and its byte offset is the length of the encoding
      of what comes before it. */
  predicate WellPlaced(text: Text, b: Boundary) {
    0 < b.charOffset < |text| && 0 < b.byteOffset < |Utf8(text)| && b.byteOffset == |Utf8(text[..b.charOffset])|
  }

  lemma ExplainedIsPlaced(text: Text, runs: seq<Text>, b: Boundary)
    requires NonEmptyRuns(runs) && Explained(text, Locate(text, runs, 0), b) && b.charOffset < |text|
    ensures WellPlaced(text, b)
  {
    hide Explained, Utf8, ByteLength, Locate;
    ExplainedOffset(text, runs, b);
    InsideBuffer(text, b.charOffset);
  }

  /** Offsets in characters and in bytes rise together, strictly inside the buffer. */
  lemma BoundaryMapSound(text: Text, runs: seq<Text>)
    requires NonEmptyRuns(runs)
    ensures var g := BoundaryMap(text, runs);
            && (forall i :: 0 <= i < |g| ==> Explained(text, Locate(text, runs, 0), g[i]) && WellPlaced(text, g[i]))
            && (forall i, j :: 0 <= i < j < |g| ==> g[i].charOffset < g[j].charOffset && g[i].byteOffset < g[j].byteOffset)
  {
    var g := BoundaryMap(text, runs);
    BoundaryMapExplained(text, runs);
    hide Explained, WellPlaced, Locate, BoundaryMap, ByteLength, Utf8;
    forall i | 0 <= i < |g| ensures WellPlaced(text, g[i]) && g[i].byteOffset == ByteLength(text[..g[i].charOffset]) {
      ExplainedIsPlaced(text, runs, g[i]);
      ExplainedOffset(text, runs, g[i]);
    }
    forall i, j | 0 <= i < j < |g| ensures g[i].byteOffset < g[j].byteOffset {
      PrefixGrows(text, g[i].charOffset, g[j].charOffset);
    }
  }

  lemma PrefixGrows(text: Text, a: nat, b: nat)
    requires a < b <= |text|
    ensures ByteLength(text[..a]) < ByteLength(text[..b])
  {
    assert text[..b] == text[..a] + text[a..b];
    LongerText(text[..a], text[a..b]);
  }

  lemma InsideBuffer(text: Text, at: nat)
    requires 0 < at < |text|
    ensures 0 < ByteLength(text[..at]) < |Utf8(text)|
    ensures ByteLength(text[..at]) == |Utf8(text[..at])|
  {
    ByteLengthExact(text[..at]);
    ByteLengthExact(text);
    PrefixGrows(text, 0, at);
    PrefixGrows(text, at, |text|);
    assert text[..0] == [] && text[..|text|] == text;
  }

  /** A boundary that cuts no surrogate pair cuts the buffer there too: the bytes before it and after it are
      the encodings of the text before it and after it. */
  lemma BoundaryCutsBuffer(text: Text, at: nat)
    requires at <= |text| && !CutsPair(text[..at], text[at..])
    ensures ByteLength(text[..at]) <= |Utf8(text)|
    ensures Utf8(text)[..ByteLength(text[..at])] == Utf8(text[..at])
    ensures Utf8(text)[ByteLength(text[..at])..] == Utf8(text[at..])
  {
    ConcatSplit(text, at);
    Utf8Concat(text[..at], text[at..]);
    ByteLengthExact(text[..at]);
  }
}
