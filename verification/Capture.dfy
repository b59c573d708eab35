/** supervised/capture-index.js: pages and evidence logs become artifacts, within budgets. */
module Capture {
  import opened Texts
  import opened OrderedMaps
  import opened Encoding
  import opened Boundaries
  import QuoteText

  // ----- artifacts -----

  datatype Source = Source(id: Text, sha256: Text)

  /** `rawLength`: a count, a null, or no such field. */
  datatype RawLength = Count(n: nat) | Null | NoField

  /** The three fields only evidence logs carry: `origin`, `derived` and `derivedFrom`. */
  datatype Provenance = Provenance(origin: Text, derived: bool, derivedFrom: seq<Source>)

  /** A captured artifact; `None` stands for a null buffer or digest, or for absent provenance. */
  datatype Artifact = Artifact(
    id: Text, url: Text, lane: Text, sha256: Text, length: nat, fetchedAt: Text, bytes: Option<Bytes>,
    rawAvailable: bool, rawSha256: Option<Text>, rawBytes: Option<Bytes>, rawLength: RawLength,
    boundaries: seq<Boundary>, provenance: Option<Provenance>)

  predicate IsDerived(a: Artifact) {
    a.provenance.Some? && a.provenance.value.derived
  }

  /** What the runtime supplies: the shortened digest of a buffer, its whole digest, the segments of a
      page between its tags, and the time of the capture. */
  datatype Host = Host(idDigest: Bytes -> Text, sha256: Bytes -> Text, segments: Text -> seq<Text>, fetchedAt: Text)

  /** The digest of `lane|url`, shortened. */
  function EvidenceId(digest: Bytes -> Text, url: Text, lane: Text): Text {
    digest(Utf8(lane + [BAR] + url))
  }

  // ----- one page -----

  /** Every run of whitespace becomes one space. */
  function NormaliseWhitespace(t: Text): Text {
    if t == [] then []
    else if !IsSpace(t[0]) then [t[0]] + NormaliseWhitespace(t[1..])
    else if |t| > 1 && IsSpace(t[1]) then NormaliseWhitespace(t[1..])
    else [0x20] + NormaliseWhitespace(t[1..])
  }

  lemma {:induction false} CollapseSpaces(t: Text)
    requires t != [] && IsSpace(t[0])
    ensures QuoteText.Collapse(t)
         == if |t| > 1 && IsSpace(t[1]) then QuoteText.Collapse(t[1..]) else [0x20] + QuoteText.Collapse(t[1..])
  {
    assert QuoteText.LeadSpaces(t) == 1 + QuoteText.LeadSpaces(t[1..]);
    assert t[1..][QuoteText.LeadSpaces(t[1..])..] == t[QuoteText.LeadSpaces(t)..];
    if |t| > 1 && IsSpace(t[1]) {
      assert t[1..][0] == t[1];
    }
  }

  /** The rule is the one the quote matcher collapses with. */
  lemma {:induction false} SameCollapse(t: Text)
    ensures NormaliseWhitespace(t) == QuoteText.Collapse(t)
  {
    if t != [] {
      SameCollapse(t[1..]);
      if IsSpace(t[0]) {
        CollapseSpaces(t);
      }
    }
  }

  predicate Readable(t: Text) {
    exists i :: 0 <= i < |t| && !IsSpace(t[i])
  }

  lemma {:induction false} StripStartAgrees(t: Text)
    ensures StripStart(t) == QuoteText.TrimStart(t)
  {
    if t != [] && IsSpace(t[0]) {
      StripStartAgrees(t[1..]);
      assert t[1..][QuoteText.LeadSpaces(t[1..])..] == t[QuoteText.LeadSpaces(t)..];
    }
  }

  lemma {:induction false} StripEndAgrees(t: Text)
    ensures StripEnd(t) == QuoteText.TrimEnd(t)
  {
    if t != [] && IsSpace(t[|t| - 1]) {
      var init := t[..|t| - 1];
      StripEndAgrees(init);
      assert init[..|init| - QuoteText.TrailSpaces(init)] == t[..|t| - QuoteText.TrailSpaces(t)];
    }
  }

  /** So is the trimming. */
  lemma SameTrim(t: Text)
    ensures TrimText(t) == QuoteText.Trim(t)
  {
    StripStartAgrees(t);
    StripEndAgrees(StripStart(t));
  }

  lemma {:induction false} ReadableNormalised(t: Text)
    ensures Readable(NormaliseWhitespace(t)) <==> Readable(t)
  {
    if t != [] {
      ReadableNormalised(t[1..]);
      ReadableHead(t[0], t[1..]);
      assert t == [t[0]] + t[1..];
      var n := NormaliseWhitespace(t[1..]);
      ReadableHead(if IsSpace(t[0]) then 0x20 else t[0], n);
    }
  }

  lemma ReadableHead(u: Unit, t: Text)
    ensures Readable([u] + t) <==> !IsSpace(u) || Readable(t)
  {
    var s := [u] + t;
    assert s[0] == u && s[1..] == t;
    if Readable(t) {
      var i :| 0 <= i < |t| && !IsSpace(t[i]);
      assert s[i + 1] == t[i];
    }
  }

  /** A page of the bundle; one without an address or without a raw body has the empty text there. */
  datatype Page = Page(url: Text, text: Text, rawHtml: Text)

  const STATIC: Text := Ascii("static")
  const MAX_RAW_PAGE_BYTES: nat := 4 * 1024 * 1024

  datatype Raw = Raw(bytes: Bytes, sha256: Text, boundaries: seq<Boundary>)

  /** The segments that are not empty. */
  function Runs(segments: seq<Text>): (r: seq<Text>)
    ensures NonEmptyRuns(r)
  {
    if segments == [] then []
    else (if segments[0] == [] then [] else [segments[0]]) + Runs(segments[1..])
  }

  function CaptureRawFor(h: Host, p: Page, normalised: Text): Option<Raw> {
    var bytes := Utf8(p.rawHtml);
    if p.rawHtml == [] || |bytes| > MAX_RAW_PAGE_BYTES then None
    else Some(Raw(bytes, h.sha256(bytes), BoundaryMap(normalised, Runs(h.segments(p.rawHtml)))))
  }

  datatype Reason = MalformedPage | EmptyPage | DuplicateEvidenceId | PageBudgetExceeded | ByteBudgetExceeded

  datatype Captured = Failed(reason: Reason) | Ok(artifact: Artifact)

  function PageArtifact(h: Host, p: Page): Artifact {
    var normalised := NormaliseWhitespace(p.text);
    var bytes := Utf8(normalised);
    var raw := CaptureRawFor(h, p, normalised);
    Artifact(EvidenceId(h.idDigest, p.url, STATIC), p.url, STATIC, h.sha256(bytes), |bytes|, h.fetchedAt, Some(bytes),
             raw.Some?,
             if raw.Some? then Some(raw.value.sha256) else None,
             if raw.Some? then Some(raw.value.bytes) else None,
             if raw.Some? then Count(|raw.value.bytes|) else Null,
             if raw.Some? then raw.value.boundaries else [],
             None)
  }

  function CaptureOnePage(h: Host, p: Page): Captured {
    if p.url == [] then Failed(MalformedPage)
    else if !Readable(NormaliseWhitespace(p.text)) then Failed(EmptyPage)
    else Ok(PageArtifact(h, p))
  }

  /** The page has an address and readable text. */
  predicate Capturable(p: Page) {
    p.url != [] && Readable(p.text)
  }

  lemma CapturedExactly(h: Host, p: Page)
    ensures CaptureOnePage(h, p)
         == if Capturable(p) then Ok(PageArtifact(h, p)) else Failed(if p.url == [] then MalformedPage else EmptyPage)
  {
    ReadableNormalised(p.text);
  }

  // ----- evidence logs -----

  const MAX_EVIDENCE_LANE_BYTES: nat := 32 * 1024 * 1024
  const COVERAGE: Text := Ascii("coverage")
  const DERIVED: Text := Ascii("derived")
  const NEWLINE: Unit := '\n' as int

  datatype LaneCapture = Nothing | OverBudget | Logged(artifact: Artifact)

  function LogArtifact(h: Host, lane: Text, key: Text, bytes: Bytes, p: Provenance): Artifact {
    Artifact(EvidenceId(h.idDigest, key, lane), key, lane, h.sha256(bytes), |bytes|, h.fetchedAt, Some(bytes),
             false, None, None, Null, [], Some(p))
  }

  /** The rows of a lane, each as its canonical text, become one log of a line each. */
  function CaptureEvidenceArtifact(h: Host, lane: Text, key: Text, rows: seq<Text>, p: Provenance): LaneCapture {
    var bytes := Utf8(Join(rows, NEWLINE));
    if rows == [] then Nothing
    else if |bytes| > MAX_EVIDENCE_LANE_BYTES then OverBudget
    else Logged(LogArtifact(h, lane, key, bytes, p))
  }

  /** The bytes of the rows, with a line break between one row and the next. */
  function LogBytes(rows: seq<Text>): nat {
    if rows == [] then 0
    else if |rows| == 1 then ByteLength(rows[0])
    else ByteLength(rows[0]) + 1 + LogBytes(rows[1..])
  }

  lemma LengthOfParts(a: Text, u: Unit, b: Text)
    requires u < 0x80
    ensures ByteLength(a + ([u] + b)) == ByteLength(a) + 1 + ByteLength(b)
  {
    assert ([u] + b)[1..] == b;
    Utf8Concat(a, [u] + b);
    ByteLengthExact(a);
    ByteLengthExact([u] + b);
    ByteLengthExact(a + ([u] + b));
    assert ByteLength([u] + b) == 1 + ByteLength(b);
    hide Utf8;
  }

  lemma {:induction false} LogLength(rows: seq<Text>)
    ensures |Utf8(Join(rows, NEWLINE))| == LogBytes(rows) == ByteLength(Join(rows, NEWLINE))
  {
    ByteLengthExact(Join(rows, NEWLINE));
    hide Utf8;
    if |rows| == 1 {
      JoinOne(rows[0], NEWLINE);
      assert rows == [rows[0]];
    } else if |rows| > 1 {
      LogLength(rows[1..]);
      JoinCons(rows[0], rows[1..], NEWLINE);
      assert rows == [rows[0]] + rows[1..];
      LengthOfParts(rows[0], NEWLINE, Join(rows[1..], NEWLINE));
      hide ByteLength;
    }
  }

  /** A lane is logged exactly when it has rows and their bytes, line breaks included, are within the cap; an
      empty lane leaves nothing and a longer one is an error. */
  lemma LoggedExactly(h: Host, lane: Text, key: Text, rows: seq<Text>, p: Provenance)
    ensures var r := CaptureEvidenceArtifact(h, lane, key, rows, p);
            && (r.Logged? <==> rows != [] && LogBytes(rows) <= MAX_EVIDENCE_LANE_BYTES)
            && (r.Nothing? <==> rows == [])
            && (r.Logged? ==> r.artifact.length == LogBytes(rows))
  {
    LogLength(rows);
    hide Utf8, LogBytes, EvidenceId;
  }

  /** What canonical row texts are: without a line break and without a lone surrogate. */
  predicate CanonicalRows(rows: seq<Text>) {
    AllFree(rows, NEWLINE) && forall i :: 0 <= i < |rows| ==> Paired(rows[i])
  }

  lemma RowsPaired(rows: seq<Text>)
    requires CanonicalRows(rows)
    ensures Paired(Join(rows, NEWLINE))
  {
    hide Paired, Repaired;
    RepairedAllPaired(rows);
    RepairedJoin(rows, NEWLINE);
    RepairedExactly(Join(rows, NEWLINE));
  }

  /** The digest of a log determines its rows, one by one and in order. */
  lemma LogFixesRows(h: Host, lane: Text, key: Text, rows: seq<Text>, other: seq<Text>, p: Provenance, q: Provenance)
    requires (forall a, b :: h.sha256(a) == h.sha256(b) ==> a == b) && CanonicalRows(rows) && CanonicalRows(other)
    requires CaptureEvidenceArtifact(h, lane, key, rows, p).Logged? && CaptureEvidenceArtifact(h, lane, key, other, q).Logged?
    ensures CaptureEvidenceArtifact(h, lane, key, rows, p).artifact.sha256 == CaptureEvidenceArtifact(h, lane, key, other, q).artifact.sha256
       <==> rows == other
  {
    RowsPaired(rows);
    RowsPaired(other);
    EncodingInjective(Join(rows, NEWLINE), Join(other, NEWLINE));
    hide Utf8, Paired, EvidenceId;
    if Join(rows, NEWLINE) == Join(other, NEWLINE) {
      JoinInjective(rows, other, NEWLINE);
    }
  }

  /** The log of an absence claim: one line of canonical text, derived from the subjects it was checked on. */
  function BuildCoverageArtifact(h: Host, key: Text, line: Text, subjects: seq<Source>): Option<Artifact> {
    if subjects == [] then None
    else Some(LogArtifact(h, COVERAGE, key, Utf8(line), Provenance(DERIVED, true, subjects)))
  }

  // ----- pages within budgets -----

  const MAX_PAGES: nat := 200
  const MAX_TOTAL_BYTES: nat := 20 * 1024 * 1024

  datatype Fate = Stop(stopped: Reason) | Skip(skipped: Reason) | Accept(artifact: Artifact)

  /** One page against the running budgets and the ids already seen. */
  function ProcessOnePage(h: Host, p: Page, count: nat, total: nat, seen: set<Text>): Fate {
    if count >= MAX_PAGES then Stop(PageBudgetExceeded)
    else
      var c := CaptureOnePage(h, p);
      if c.Failed? then Skip(c.reason)
      else if c.artifact.id in seen then Skip(DuplicateEvidenceId)
      else if total + c.artifact.length > MAX_TOTAL_BYTES then Stop(ByteBudgetExceeded)
      else Accept(c.artifact)
  }

  function TotalBytes(artifacts: seq<Artifact>): nat {
    if artifacts == [] then 0 else TotalBytes(artifacts[..|artifacts| - 1]) + artifacts[|artifacts| - 1].length
  }

  function IdsOf(artifacts: seq<Artifact>): set<Text> {
    set a | a in artifacts :: a.id
  }

  predicate UniqueIds(artifacts: seq<Artifact>) {
    forall i, j :: 0 <= i < j < |artifacts| ==> artifacts[i].id != artifacts[j].id
  }

  /** What happened to the page, given what was kept before it. */
  predicate FateFits(h: Host, p: Page, kept: seq<Artifact>, fate: Fate) {
    var a := PageArtifact(h, p);
    match fate
    case Accept(b) =>
      b == a && Capturable(p) && |kept| < MAX_PAGES && a.id !in IdsOf(kept) && TotalBytes(kept) + a.length <= MAX_TOTAL_BYTES
    case Skip(MalformedPage) => p.url == [] && |kept| < MAX_PAGES
    case Skip(EmptyPage) => p.url != [] && !Readable(p.text) && |kept| < MAX_PAGES
    case Skip(DuplicateEvidenceId) => Capturable(p) && a.id in IdsOf(kept) && |kept| < MAX_PAGES
    case Stop(PageBudgetExceeded) => |kept| >= MAX_PAGES
    case Stop(ByteBudgetExceeded) =>
      Capturable(p) && |kept| < MAX_PAGES && a.id !in IdsOf(kept) && TotalBytes(kept) + a.length > MAX_TOTAL_BYTES
    case _ => false
  }

  /** What was kept, in order. */
  function Accepted(log: seq<Fate>): seq<Artifact> {
    if log == [] then []
    else
      var last := log[|log| - 1];
      Accepted(log[..|log| - 1]) + if last.Accept? then [last.artifact] else []
  }

  /** The errors, in order. */
  function ErrorsOf(log: seq<Fate>): seq<Reason> {
    if log == [] then []
    else
      var last := log[|log| - 1];
      ErrorsOf(log[..|log| - 1]) + if last.Accept? then [] else [if last.Skip? then last.skipped else last.stopped]
  }

  predicate FateFitsAt(h: Host, pages: seq<Page>, log: seq<Fate>, i: nat)
    requires i < |log| <= |pages|
  {
    FateFits(h, pages[i], Accepted(log[..i]), log[i])
  }

  predicate Stopped(log: seq<Fate>) {
    log != [] && log[|log| - 1].Stop?
  }

  /** The log gives each page its fate, up to the first stop or the last page. */
  predicate LogOf(h: Host, pages: seq<Page>, log: seq<Fate>) {
    |log| <= |pages| && (|log| == |pages| || Stopped(log)) && AllFit(h, pages, log) && StopsLast(log)
  }

  predicate AllFit(h: Host, pages: seq<Page>, log: seq<Fate>)
    requires |log| <= |pages|
  {
    forall i :: 0 <= i < |log| ==> FateFitsAt(h, pages, log, i)
  }

  predicate StopsLast(log: seq<Fate>) {
    forall i :: 0 <= i < |log| - 1 ==> !log[i].Stop?
  }

  lemma AcceptedAppend(log: seq<Fate>, fate: Fate)
    ensures Accepted(log + [fate]) == Accepted(log) + if fate.Accept? then [fate.artifact] else []
    ensures ErrorsOf(log + [fate])
         == ErrorsOf(log) + if fate.Accept? then [] else [if fate.Skip? then fate.skipped else fate.stopped]
  {
    assert (log + [fate])[..|log|] == log;
  }

  lemma TotalAppend(artifacts: seq<Artifact>, a: Artifact)
    ensures TotalBytes(artifacts + [a]) == TotalBytes(artifacts) + a.length
    ensures IdsOf(artifacts + [a]) == IdsOf(artifacts) + {a.id}
  {
    assert (artifacts + [a])[..|artifacts|] == artifacts;
  }

  /** The running state says what the log has kept. */
  predicate Tallied(log: seq<Fate>, count: nat, total: nat, seen: set<Text>) {
    count == |Accepted(log)| && total == TotalBytes(Accepted(log)) && seen == IdsOf(Accepted(log))
  }

  /** The processing of a page is the fate its description calls for. */
  lemma ProcessFits(h: Host, p: Page, kept: seq<Artifact>, fate: Fate)
    ensures FateFits(h, p, kept, fate) <==> fate == ProcessOnePage(h, p, |kept|, TotalBytes(kept), IdsOf(kept))
  {
    CapturedExactly(h, p);
    hide PageArtifact, CaptureOnePage, Readable, IdsOf, TotalBytes;
  }

  lemma TallyAppend(log: seq<Fate>, fate: Fate, count: nat, total: nat, seen: set<Text>)
    requires Tallied(log, count, total, seen)
    ensures fate.Accept? ==> Tallied(log + [fate], count + 1, total + fate.artifact.length, seen + {fate.artifact.id})
    ensures !fate.Accept? ==> Tallied(log + [fate], count, total, seen)
  {
    AcceptedAppend(log, fate);
    hide Accepted, TotalBytes, IdsOf;
    if fate.Accept? {
      TotalAppend(Accepted(log), fate.artifact);
    } else {
      assert Accepted(log) + [] == Accepted(log);
    }
  }

  lemma FitsLonger(h: Host, pages: seq<Page>, log: seq<Fate>, fate: Fate, more: seq<Page>, i: nat)
    requires i < |log| < |more| && |log| <= |pages| && more[i] == pages[i] && FateFitsAt(h, pages, log, i)
    ensures FateFitsAt(h, more, log + [fate], i)
  {
    assert (log + [fate])[..i] == log[..i];
    hide FateFits, Accepted;
  }

  lemma FitAppend(h: Host, pages: seq<Page>, log: seq<Fate>, fate: Fate, more: seq<Page>)
    requires |log| <= |pages| && |log| < |more| && (forall i :: 0 <= i < |log| ==> more[i] == pages[i])
    requires AllFit(h, pages, log) && FateFits(h, more[|log|], Accepted(log), fate)
    ensures AllFit(h, more, log + [fate])
  {
    assert (log + [fate])[..|log|] == log;
    assert FateFitsAt(h, more, log + [fate], |log|);
    hide FateFitsAt, FateFits, Accepted;
    forall i | 0 <= i < |log| + 1 ensures FateFitsAt(h, more, log + [fate], i) {
      if i < |log| {
        FitsLonger(h, pages, log, fate, more, i);
      }
    }
  }

  lemma LogAppend(h: Host, pages: seq<Page>, log: seq<Fate>, fate: Fate)
    requires |log| < |pages| && LogOf(h, pages[..|log|], log) && !Stopped(log)
    requires FateFits(h, pages[|log|], Accepted(log), fate)
    ensures LogOf(h, pages[..|log| + 1], log + [fate])
    ensures fate.Stop? ==> LogOf(h, pages, log + [fate])
  {
    hide FateFits, Accepted, AllFit;
    FitAppend(h, pages[..|log|], log, fate, pages);
    FitAppend(h, pages[..|log|], log, fate, pages[..|log| + 1]);
  }

  /** The pages are taken in order until a budget is hit. The log gives each page read its fate. */
  method CaptureAllPages(h: Host, pages: seq<Page>)
    returns (artifacts: seq<Artifact>, errors: seq<Reason>, ghost log: seq<Fate>)
    ensures LogOf(h, pages, log) && artifacts == Accepted(log) && errors == ErrorsOf(log)
    ensures WithinBudgets(artifacts) && |artifacts| + |errors| == |log|
  {
    artifacts, errors, log := [], [], [];
    var seen: set<Text>, total: nat := {}, 0;
    assert pages[..0] == [];
    for i := 0 to |pages|
      invariant |log| == i && LogOf(h, pages[..i], log) && !Stopped(log)
      invariant artifacts == Accepted(log) && errors == ErrorsOf(log)
      invariant Tallied(log, |artifacts|, total, seen)
    {
      var fate := ProcessOnePage(h, pages[i], |artifacts|, total, seen);
      ProcessFits(h, pages[i], artifacts, fate);
      hide FateFits, ProcessOnePage, LogOf, Accepted, ErrorsOf;
      AcceptedAppend(log, fate);
      TallyAppend(log, fate, |artifacts|, total, seen);
      LogAppend(h, pages, log, fate);
      hide Tallied;
      log := log + [fate];
      match fate {
        case Stop(reason) =>
          errors := errors + [reason];
          StoppedWithinBudgets(h, pages, log);
          return;
        case Skip(reason) =>
          errors := errors + [reason];
        case Accept(a) =>
          artifacts := artifacts + [a];
          seen, total := seen + {a.id}, total + a.length;
      }
    }
    assert pages[..|pages|] == pages;
    StoppedWithinBudgets(h, pages, log);
  }

  // ----- what every log keeps -----

  lemma AllFitPrefix(h: Host, pages: seq<Page>, log: seq<Fate>)
    requires log != [] && |log| <= |pages| && AllFit(h, pages, log)
    ensures AllFit(h, pages, log[..|log| - 1])
    ensures FateFits(h, pages[|log| - 1], Accepted(log[..|log| - 1]), log[|log| - 1])
  {
    var init := log[..|log| - 1];
    assert FateFitsAt(h, pages, log, |log| - 1);
    forall i | 0 <= i < |init| ensures FateFitsAt(h, pages, init, i) {
      assert FateFitsAt(h, pages, log, i);
      assert init[..i] == log[..i];
    }
    hide FateFits, Accepted;
  }

  predicate WithinBudgets(kept: seq<Artifact>) {
    |kept| <= MAX_PAGES && TotalBytes(kept) <= MAX_TOTAL_BYTES && UniqueIds(kept)
  }

  lemma KeepOneMore(h: Host, p: Page, kept: seq<Artifact>, fate: Fate)
    requires WithinBudgets(kept) && FateFits(h, p, kept, fate)
    ensures fate.Accept? ==> WithinBudgets(kept + [fate.artifact])
  {
    hide PageArtifact, Readable, TotalBytes;
    if fate.Accept? {
      TotalAppend(kept, fate.artifact);
      assert forall k :: 0 <= k < |kept| ==> kept[k].id in IdsOf(kept);
    }
  }

  /** What is kept never exceeds either budget, no id is kept twice, and each page read is either kept or
      answered with one error. */
  lemma {:induction false} LogWithinBudgets(h: Host, pages: seq<Page>, log: seq<Fate>)
    requires |log| <= |pages| && AllFit(h, pages, log)
    ensures WithinBudgets(Accepted(log))
    ensures |Accepted(log)| + |ErrorsOf(log)| == |log|
  {
    if log != [] {
      var init, last := log[..|log| - 1], log[|log| - 1];
      AllFitPrefix(h, pages, log);
      hide WithinBudgets, FateFits, AllFit;
      LogWithinBudgets(h, pages, init);
      KeepOneMore(h, pages[|log| - 1], Accepted(init), last);
      assert Accepted(init) + [] == Accepted(init);
    }
  }

  lemma StoppedWithinBudgets(h: Host, pages: seq<Page>, log: seq<Fate>)
    requires LogOf(h, pages, log)
    ensures WithinBudgets(Accepted(log)) && |Accepted(log)| + |ErrorsOf(log)| == |log|
  {
    LogWithinBudgets(h, pages, log);
  }

  function PageId(h: Host, p: Page): Text {
    EvidenceId(h.idDigest, p.url, STATIC)
  }

  /** A page read so far could be captured and has this id. */
  predicate Met(h: Host, pages: seq<Page>, n: nat, id: Text)
    requires n <= |pages|
  {
    exists j :: 0 <= j < n && Capturable(pages[j]) && PageId(h, pages[j]) == id
  }

  predicate NeverStops(log: seq<Fate>) {
    forall i :: 0 <= i < |log| ==> !log[i].Stop?
  }

  lemma MetOneMore(h: Host, pages: seq<Page>, n: nat, id: Text)
    requires n < |pages|
    ensures Met(h, pages, n + 1, id) <==> Met(h, pages, n, id) || (Capturable(pages[n]) && PageId(h, pages[n]) == id)
  {
    hide Capturable, PageId;
  }

  lemma KeptAfter(h: Host, p: Page, kept: seq<Artifact>, fate: Fate, id: Text)
    requires FateFits(h, p, kept, fate) && !fate.Stop?
    ensures id in IdsOf(if fate.Accept? then kept + [fate.artifact] else kept)
       <==> id in IdsOf(kept) || (Capturable(p) && PageId(h, p) == id)
  {
    hide TotalBytes, Readable;
    if fate.Accept? {
      TotalAppend(kept, fate.artifact);
    }
  }

  /** As long as no budget is hit, the ids kept are those of the pages that could be captured. */
  lemma {:induction false} KeptIds(h: Host, pages: seq<Page>, log: seq<Fate>, id: Text)
    requires |log| <= |pages| && AllFit(h, pages, log) && NeverStops(log)
    ensures id in IdsOf(Accepted(log)) <==> Met(h, pages, |log|, id)
  {
    if log != [] {
      var n := |log| - 1;
      var init, last := log[..n], log[n];
      AllFitPrefix(h, pages, log);
      assert Accepted(init) + [] == Accepted(init);
      hide FateFits, AllFit, IdsOf, Met, Capturable, PageId;
      KeptIds(h, pages, init, id);
      MetOneMore(h, pages, n, id);
      KeptAfter(h, pages[n], Accepted(init), last, id);
    }
  }

  /** Distinct buffers have distinct digests. */
  ghost predicate Collisionless(digest: Bytes -> Text) {
    forall a, b :: digest(a) == digest(b) ==> a == b
  }

  /** A page read within the budgets is kept exactly when it could be captured and no earlier page that could has
      an address of the same encoding. */
  lemma KeptExactly(h: Host, pages: seq<Page>, log: seq<Fate>, i: nat)
    requires Collisionless(h.idDigest) && LogOf(h, pages, log) && i < |log| && !log[i].Stop?
    ensures log[i].Accept? <==>
              Capturable(pages[i])
              && forall j :: 0 <= j < i && Capturable(pages[j]) ==> Utf8(pages[j].url) != Utf8(pages[i].url)
  {
    var before, id := log[..i], PageId(h, pages[i]);
    assert FateFitsAt(h, pages, log, i);
    assert AllFit(h, pages, before) by {
      forall k | 0 <= k < i ensures FateFitsAt(h, pages, before, k) {
        assert FateFitsAt(h, pages, log, k);
        assert before[..k] == log[..k];
      }
    }
    hide AllFit, Accepted, Readable, Utf8;
    KeptIds(h, pages, before, id);
    FreshId(h, pages, i);
    hide Met, IdsOf, TotalBytes;
  }

  lemma FreshId(h: Host, pages: seq<Page>, i: nat)
    requires Collisionless(h.idDigest) && i < |pages|
    ensures Met(h, pages, i, PageId(h, pages[i]))
       <==> exists j :: 0 <= j < i && Capturable(pages[j]) && Utf8(pages[j].url) == Utf8(pages[i].url)
  {
    hide Utf8, Collisionless;
    forall j | 0 <= j < i ensures PageId(h, pages[j]) == PageId(h, pages[i]) <==> Utf8(pages[j].url) == Utf8(pages[i].url) {
      SameIdSameUrl(h.idDigest, pages[j], pages[i]);
    }
    hide PageId, Capturable;
  }

  /** Where no address holds a lone surrogate, the page is kept exactly when no earlier page that could be captured
      has its address. */
  lemma KeptByAddress(h: Host, pages: seq<Page>, log: seq<Fate>, i: nat)
    requires Collisionless(h.idDigest) && LogOf(h, pages, log) && i < |log| && !log[i].Stop?
    requires forall j :: 0 <= j <= i && Capturable(pages[j]) ==> Paired(pages[j].url)
    ensures log[i].Accept? <==>
              Capturable(pages[i]) && forall j :: 0 <= j < i && Capturable(pages[j]) ==> pages[j].url != pages[i].url
  {
    KeptExactly(h, pages, log, i);
    assert i < |pages|;
    hide LogOf, Utf8, Paired, Capturable, Collisionless;
    forall j | 0 <= j < i && Capturable(pages[j]) && Capturable(pages[i])
      ensures Utf8(pages[j].url) == Utf8(pages[i].url) <==> pages[j].url == pages[i].url
    {
      EncodingInjective(pages[j].url, pages[i].url);
    }
  }

  lemma PrefixedUrl(lane: Text, url: Text)
    ensures Utf8(lane + [BAR] + url) == Utf8(lane + [BAR]) + Utf8(url)
  {
    var prefix := lane + [BAR];
    assert prefix[|prefix| - 1] == BAR;
    hide Utf8;
    Utf8Concat(prefix, url);
  }

  /** Two pages share an id exactly when their addresses have one encoding. */
  lemma SameIdSameUrl(digest: Bytes -> Text, p: Page, q: Page)
    requires Collisionless(digest)
    ensures EvidenceId(digest, p.url, STATIC) == EvidenceId(digest, q.url, STATIC) <==> Utf8(p.url) == Utf8(q.url)
  {
    hide Utf8;
    PrefixedUrl(STATIC, p.url);
    PrefixedUrl(STATIC, q.url);
    if EvidenceId(digest, p.url, STATIC) == EvidenceId(digest, q.url, STATIC) {
      SplitConcat(Utf8(STATIC + [BAR]), Utf8(p.url));
      SplitConcat(Utf8(STATIC + [BAR]), Utf8(q.url));
    }
  }

  predicate SharesId(digest: Bytes -> Text, p: Page, q: Page) {
    EvidenceId(digest, p.url, STATIC) == EvidenceId(digest, q.url, STATIC)
  }

  /** A page shares its id with no page of another address exactly when its address holds neither a lone surrogate
      nor a replacement character. */
  lemma OwnIdExactly(digest: Bytes -> Text, p: Page)
    requires Collisionless(digest)
    ensures (forall q: Page :: SharesId(digest, q, p) ==> q.url == p.url) <==> Lossless(p.url)
  {
    hide Utf8, EvidenceId, Collisionless, Lossless;
    forall q: Page ensures SharesId(digest, q, p) <==> Utf8(q.url) == Utf8(p.url) {
      SameIdSameUrl(digest, q, p);
    }
    hide SharesId;
    if Lossless(p.url) {
      forall q: Page | SharesId(digest, q, p) ensures q.url == p.url {
        LosslessAlone(p.url, q.url);
      }
    } else {
      var u := HasTwin(p.url);
      var q := p.(url := u);
      assert SharesId(digest, q, p) && q.url != p.url;
    }
  }

  /** Two readable pages, no address the other's: the second is skipped as a duplicate. */
  lemma SurrogateSkipped(h: Host, text: Text)
    requires Readable(text)
    ensures var p, q := Page([0xD800], text, []), Page([REPLACEMENT], text, []);
            && p.url != q.url && Capturable(p) && Capturable(q)
            && FateFits(h, q, [PageArtifact(h, p)], Skip(DuplicateEvidenceId))
  {
    var p, q := Page([0xD800], text, []), Page([REPLACEMENT], text, []);
    LoneSurrogateTwin();
    hide Utf8, Readable, NormaliseWhitespace;
    PrefixedUrl(STATIC, p.url);
    PrefixedUrl(STATIC, q.url);
    assert PageArtifact(h, p) in [PageArtifact(h, p)];
    assert PageArtifact(h, p).id == PageArtifact(h, q).id;
  }

  // ----- the store -----

  datatype Added = Stored | AlreadyThere | NotDerived

  class ArtifactStore {
    var order: seq<Text>
    var byId: map<Text, Artifact>

    ghost predicate Valid()
      reads this
    {
      Lists(order, byId) && (forall id :: id in byId ==> byId[id].id == id)
    }

    constructor ()
      ensures Valid() && byId == map[]
    {
      order, byId := [], map[];
    }

    method Get(id: Text) returns (a: Option<Artifact>)
      requires Valid()
      ensures a == if id in byId then Some(byId[id]) else None
      ensures a.Some? ==> a.value.id == id
    {
      a := if id in byId then Some(byId[id]) else None;
    }

    /** Only a derived artifact may be added later, and what is stored under an id is never replaced. */
    method AddDerived(a: Artifact) returns (r: Added)
      requires Valid()
      modifies this
      ensures Valid()
      ensures r == if !IsDerived(a) then NotDerived else if a.id in old(byId) then AlreadyThere else Stored
      ensures byId == if r.Stored? then old(byId)[a.id := a] else old(byId)
      ensures order == if r.Stored? then old(order) + [a.id] else old(order)
      ensures forall id :: id in old(byId) ==> id in byId && byId[id] == old(byId)[id]
    {
      if !IsDerived(a) {
        return NotDerived;
      }
      if a.id in byId {
        return AlreadyThere;
      }
      order := order + [a.id];
      byId := byId[a.id := a];
      r := Stored;
    }
  }
}
