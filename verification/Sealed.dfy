/** mint/persist.js: sealed artifacts, each written under a key of its own, and the store rebuilt from them. */
module Sealed {
  import opened Texts
  import opened Sorting
  import opened OrderedMaps
  import opened Encoding
  import opened Boundaries
  import opened Capture

  /** An artifact as it is written out: its buffers as text, `None` where the original holds no buffer. */
  datatype Record = Record(
    id: Text, url: Text, lane: Text, sha256: Text, length: nat, fetchedAt: Text, bytesBase64: Option<Text>,
    rawAvailable: bool, rawSha256: Option<Text>, rawBytesBase64: Option<Text>, boundaries: seq<Boundary>)

  /** The runtime's base64 coding. */
  datatype Codec = Codec(encode: Bytes -> Text, decode: Text -> Bytes)

  ghost predicate Inverts(c: Codec) {
    (forall b :: c.decode(c.encode(b)) == b) && (forall b :: c.encode(b) == [] <==> b == [])
  }

  // ----- the chain head -----

  function Links(list: seq<Artifact>): seq<Text> {
    seq(|list|, i requires 0 <= i < |list| => Link(list[i].id, list[i].sha256))
  }

  function ChainText(list: seq<Artifact>): Text {
    Join(SortBy(TextLe, Links(list)), NEWLINE)
  }

  function ChainHead(digest: Bytes -> Text, list: seq<Artifact>): Text {
    digest(Utf8(ChainText(list)))
  }

  /** What the chain needs of its parts: no line break anywhere, and no colon in a digest. */
  predicate Plain(list: seq<Artifact>) {
    forall i :: 0 <= i < |list| ==> Free(list[i].id, NEWLINE) && Free(list[i].sha256, NEWLINE) && Free(list[i].sha256, COLON)
  }

  lemma SortedLinksPlain(list: seq<Artifact>)
    requires Plain(list)
    ensures forall t :: t in SortBy(TextLe, Links(list)) ==> t != [] && Free(t, NEWLINE)
    ensures |SortBy(TextLe, Links(list))| == |list|
  {
    SortPermutes(TextLe, Links(list));
    SameElements(SortBy(TextLe, Links(list)), Links(list));
  }

  lemma JoinEmpty(parts: seq<Text>, sep: Unit)
    requires forall t :: t in parts ==> t != []
    ensures Join(parts, sep) == [] <==> parts == []
  {
    if parts != [] {
      assert parts[0] in parts;
    }
  }

  /** The links in the order in which they are hashed. */
  function Chain(list: seq<Artifact>): seq<Text> {
    SortBy(TextLe, Links(list))
  }

  lemma ChainParts(list: seq<Artifact>)
    requires Plain(list)
    ensures AllFree(Chain(list), NEWLINE) && |Chain(list)| == |list|
    ensures multiset(Chain(list)) == multiset(Links(list))
    ensures forall t :: t in Chain(list) ==> t != [] && t in Links(list)
  {
    SortedLinksPlain(list);
    SortPermutes(TextLe, Links(list));
    SameElements(Chain(list), Links(list));
    hide SortBy, Links;
    assert forall i :: 0 <= i < |Chain(list)| ==> Chain(list)[i] in Chain(list);
  }

  lemma EmptyChain(digest: Bytes -> Text, a: seq<Artifact>, b: seq<Artifact>)
    requires Collisionless(digest) && Plain(a) && Plain(b) && (a == [] || b == [])
    ensures ChainHead(digest, a) == ChainHead(digest, b) <==> RepairedAll(Chain(a)) == RepairedAll(Chain(b))
  {
    ChainParts(a);
    ChainParts(b);
    JoinEmpty(Chain(a), NEWLINE);
    JoinEmpty(Chain(b), NEWLINE);
    hide SortBy, Links, Repaired, Utf8;
    NoBytes(ChainText(a));
    NoBytes(ChainText(b));
  }

  /** Two stores have one head exactly when their sorted links are encoded alike, one by one. */
  lemma ChainHeadEncoded(digest: Bytes -> Text, a: seq<Artifact>, b: seq<Artifact>)
    requires Collisionless(digest) && Plain(a) && Plain(b)
    ensures ChainHead(digest, a) == ChainHead(digest, b) <==> RepairedAll(Chain(a)) == RepairedAll(Chain(b))
  {
    if a == [] || b == [] {
      EmptyChain(digest, a, b);
    } else {
      ChainParts(a);
      ChainParts(b);
      hide SortBy, Links, Repaired, Utf8, Plain;
      SameBytesSameParts(Chain(a), Chain(b), NEWLINE);
    }
  }

  predicate PairedLinks(list: seq<Artifact>) {
    forall t :: t in Links(list) ==> Paired(t)
  }

  predicate LosslessLinks(list: seq<Artifact>) {
    forall t :: t in Links(list) ==> Lossless(t)
  }

  lemma SameChain(a: seq<Artifact>, b: seq<Artifact>)
    ensures Chain(a) == Chain(b) <==> multiset(Links(a)) == multiset(Links(b))
  {
    TextsSort();
    SortPermutes(TextLe, Links(a));
    SortPermutes(TextLe, Links(b));
    if multiset(Links(a)) == multiset(Links(b)) {
      TextsSeparate(Links(a));
      SortInvariant(TextLe, Links(a), Links(b));
    }
    hide SortBy, Links;
  }

  /** Equal heads mean the same links as often, and the order of capture does not matter: for two stores without
      lone surrogates, and for one whose links the encoding keeps against any other. */
  lemma ChainHeadExact(digest: Bytes -> Text, a: seq<Artifact>, b: seq<Artifact>)
    requires Collisionless(digest) && Plain(a) && Plain(b)
    requires LosslessLinks(a) || (PairedLinks(a) && PairedLinks(b))
    ensures ChainHead(digest, a) == ChainHead(digest, b) <==> multiset(Links(a)) == multiset(Links(b))
  {
    hide Chain, ChainHead, Plain, Repaired, Paired, PairedLinks, LosslessLinks, Collisionless;
    ChainHeadEncoded(digest, a, b);
    SameChain(a, b);
    ChainKept(a);
    ChainKept(b);
    if RepairedAll(Chain(a)) == RepairedAll(Chain(b)) {
      if LosslessLinks(a) {
        RepairedAllLossless(Chain(a), Chain(b));
      } else {
        RepairedAllPaired(Chain(a));
        RepairedAllPaired(Chain(b));
      }
    }
  }

  lemma ChainKept(list: seq<Artifact>)
    requires Plain(list)
    ensures PairedLinks(list) ==> forall i :: 0 <= i < |Chain(list)| ==> Paired(Chain(list)[i])
    ensures LosslessLinks(list) ==> forall i :: 0 <= i < |Chain(list)| ==> Lossless(Chain(list)[i])
  {
    ChainParts(list);
    hide Chain, Plain, Paired;
    assert forall i :: 0 <= i < |Chain(list)| ==> Chain(list)[i] in Chain(list);
  }

  // ----- writing the store out -----

  function SealedKey(id: Text, sha256: Text): Text {
    Ascii("evidence/") + (id + ([SLASH] + (sha256 + Ascii(".json"))))
  }

  function Encoded(c: Codec, b: Option<Bytes>): Option<Text> {
    if b.Some? then Some(c.encode(b.value)) else None
  }

  function NonEmpty<T>(t: Option<seq<T>>): Option<seq<T>> {
    if t.Some? && t.value == [] then None else t
  }

  function SealedRecord(c: Codec, a: Artifact): Record {
    Record(a.id, a.url, a.lane, a.sha256, a.length, a.fetchedAt, Encoded(c, a.bytes),
           a.rawAvailable, NonEmpty(a.rawSha256), Encoded(c, a.rawBytes), a.boundaries)
  }

  datatype Written = Written(id: Text, sha256: Text, key: Text, ok: bool)

  /** How the door answers for each artifact: whether the write was applied, and what it reported. */
  datatype Door = Delivered | AnswerLost | Refused

  function KeyOf(a: Artifact): Text {
    SealedKey(a.id, a.sha256)
  }

  /** The store after the writes that were applied, one artifact after another. */
  function PutAll(c: Codec, list: seq<Artifact>, doors: seq<Door>, stored: map<Text, Record>): map<Text, Record>
    requires |doors| == |list|
  {
    if list == [] then stored
    else
      var n := |list| - 1;
      var before := PutAll(c, list[..n], doors[..n], stored);
      if doors[n].Refused? then before else before[KeyOf(list[n]) := SealedRecord(c, list[n])]
  }

  lemma PutNext(c: Codec, list: seq<Artifact>, doors: seq<Door>, stored: map<Text, Record>, n: nat)
    requires n < |list| == |doors|
    ensures PutAll(c, list[..n + 1], doors[..n + 1], stored)
         == (var before := PutAll(c, list[..n], doors[..n], stored);
             if doors[n].Refused? then before else before[KeyOf(list[n]) := SealedRecord(c, list[n])])
  {
    assert list[..n + 1][..n] == list[..n] && doors[..n + 1][..n] == doors[..n];
    hide SealedRecord, KeyOf;
  }

  /** The stored record was there before, or is that of one of the artifacts, under its own key. */
  ghost predicate Accounted(c: Codec, list: seq<Artifact>, stored: map<Text, Record>, k: Text, r: Record) {
    (k in stored && r == stored[k]) || exists a :: a in list && k == KeyOf(a) && r == SealedRecord(c, a)
  }

  predicate Reported(a: Artifact, door: Door, w: Written) {
    w == Written(a.id, a.sha256, KeyOf(a), door.Delivered?)
  }

  predicate AllDelivered(doors: seq<Door>) {
    forall i :: 0 <= i < |doors| ==> doors[i].Delivered?
  }

  /** What the loop knows after the first `n` artifacts. */
  ghost predicate Persisting(c: Codec, list: seq<Artifact>, doors: seq<Door>, stored: map<Text, Record>, n: nat, after: map<Text, Record>)
    requires n <= |list| == |doors|
  {
    && (forall i :: 0 <= i < n && doors[i].Delivered? ==> KeyOf(list[i]) in after)
    && (forall k :: k in stored ==> k in after)
    && (forall k :: k in after ==> Accounted(c, list, stored, k, after[k]))
  }

  lemma PersistOneMore(c: Codec, list: seq<Artifact>, doors: seq<Door>, stored: map<Text, Record>, n: nat, after: map<Text, Record>)
    requires n < |list| == |doors| && Persisting(c, list, doors, stored, n, after)
    ensures doors[n].Refused? ==> Persisting(c, list, doors, stored, n + 1, after)
    ensures Persisting(c, list, doors, stored, n + 1, after[KeyOf(list[n]) := SealedRecord(c, list[n])])
  {
    assert list[n] in list;
    assert Accounted(c, list, stored, KeyOf(list[n]), SealedRecord(c, list[n]));
    hide Accounted, KeyOf, SealedRecord;
  }

  predicate AllReported(list: seq<Artifact>, doors: seq<Door>, results: seq<Written>) {
    && |results| <= |list| && |results| <= |doors|
    && forall i :: 0 <= i < |results| ==> Reported(list[i], doors[i], results[i])
  }

  lemma AllOkExactly(list: seq<Artifact>, doors: seq<Door>, results: seq<Written>)
    requires AllReported(list, doors, results) && |results| == |doors|
    ensures (forall r :: r in results ==> r.ok) <==> AllDelivered(doors)
  {
    hide KeyOf;
    forall i | 0 <= i < |doors| ensures results[i].ok <==> doors[i].Delivered? {
      assert Reported(list[i], doors[i], results[i]);
    }
    hide Reported;
    if AllDelivered(doors) {
      forall r | r in results ensures r.ok {
        var i :| 0 <= i < |results| && results[i] == r;
      }
    } else {
      var i :| 0 <= i < |doors| && !doors[i].Delivered?;
      assert results[i] in results;
    }
  }

  method PersistArtifactStore(c: Codec, digest: Bytes -> Text, list: seq<Artifact>, doors: seq<Door>, stored: map<Text, Record>)
    returns (chainHead: Option<Text>, results: seq<Written>, after: map<Text, Record>)
    requires |doors| == |list|
    ensures |results| == |list| && forall i :: 0 <= i < |list| ==> Reported(list[i], doors[i], results[i])
    ensures chainHead == if AllDelivered(doors) then Some(ChainHead(digest, list)) else None
    ensures after == PutAll(c, list, doors, stored)
    ensures chainHead.Some? ==> forall i :: 0 <= i < |list| ==> KeyOf(list[i]) in after
    ensures forall k :: k in stored ==> k in after
    ensures forall k :: k in after ==> Accounted(c, list, stored, k, after[k])
  {
    results, after := [], stored;
    NothingPersisted(c, list, doors, stored);
    hide SealedRecord, KeyOf, PutAll, Persisting, AllReported, AllDelivered, ChainHead, Reported, Accounted;
    for n := 0 to |list|
      invariant after == PutAll(c, list[..n], doors[..n], stored)
      invariant |results| == n && AllReported(list, doors, results)
      invariant Persisting(c, list, doors, stored, n, after)
    {
      var a := list[n];
      PutNext(c, list, doors, stored, n);
      PersistOneMore(c, list, doors, stored, n, after);
      ReportOneMore(list, doors, results);
      if !doors[n].Refused? {
        after := after[KeyOf(a) := SealedRecord(c, a)];
      }
      results := results + [Written(a.id, a.sha256, KeyOf(a), doors[n].Delivered?)];
    }
    assert list[..|list|] == list && doors[..|list|] == doors;
    var allOk := forall r :: r in results ==> r.ok;
    AllOkExactly(list, doors, results);
    chainHead := if allOk then Some(ChainHead(digest, list)) else None;
    AllReportedMeans(list, doors, results);
    PersistingMeans(c, list, doors, stored, after);
  }

  lemma NothingPersisted(c: Codec, list: seq<Artifact>, doors: seq<Door>, stored: map<Text, Record>)
    requires |list| == |doors|
    ensures PutAll(c, list[..0], doors[..0], stored) == stored
    ensures Persisting(c, list, doors, stored, 0, stored) && AllReported(list, doors, [])
  {
  }

  lemma ReportOneMore(list: seq<Artifact>, doors: seq<Door>, results: seq<Written>)
    requires AllReported(list, doors, results) && |results| < |list| == |doors|
    ensures var n := |results|;
            AllReported(list, doors, results + [Written(list[n].id, list[n].sha256, KeyOf(list[n]), doors[n].Delivered?)])
  {
    hide KeyOf;
    var n := |results|;
    var more := results + [Written(list[n].id, list[n].sha256, KeyOf(list[n]), doors[n].Delivered?)];
    assert Reported(list[n], doors[n], more[n]);
    assert forall i :: 0 <= i < n ==> more[i] == results[i];
    hide Reported;
  }

  lemma AllReportedMeans(list: seq<Artifact>, doors: seq<Door>, results: seq<Written>)
    requires AllReported(list, doors, results) && |results| == |list| == |doors|
    ensures forall i :: 0 <= i < |list| ==> Reported(list[i], doors[i], results[i])
  {
    hide Reported;
  }

  lemma PersistingMeans(c: Codec, list: seq<Artifact>, doors: seq<Door>, stored: map<Text, Record>, after: map<Text, Record>)
    requires |doors| == |list| && Persisting(c, list, doors, stored, |list|, after)
    ensures AllDelivered(doors) ==> forall i :: 0 <= i < |list| ==> KeyOf(list[i]) in after
    ensures forall k :: k in stored ==> k in after
    ensures forall k :: k in after ==> Accounted(c, list, stored, k, after[k])
  {
    hide Accounted, KeyOf;
  }

  // ----- reading it back -----

  function Decoded(c: Codec, t: Option<Text>): Option<Bytes> {
    if t.Some? && t.value != [] then Some(c.decode(t.value)) else None
  }

  function Replayed(c: Codec, r: Record): Artifact {
    Artifact(r.id, r.url, r.lane, r.sha256, r.length, r.fetchedAt, Decoded(c, r.bytesBase64),
             r.rawAvailable, NonEmpty(r.rawSha256), Decoded(c, r.rawBytesBase64), NoField, r.boundaries, None)
  }

  /** No buffer and no raw digest is empty. */
  predicate Filled(a: Artifact) {
    a.bytes != Some([]) && a.rawBytes != Some([]) && a.rawSha256 != Some([])
  }

  /** The artifact without the four fields that are not written out. */
  function Persisted(a: Artifact): Artifact {
    a.(rawLength := NoField, provenance := None)
  }

  /** Nothing of the artifact is lost when it is written out and read back. */
  predicate Durable(a: Artifact) {
    Filled(a) && a.rawLength.NoField? && a.provenance.None?
  }

  /** The fields that are written out replay to themselves exactly when no buffer and no raw digest is empty. The
      whole artifact does exactly when moreover it has neither a raw length nor provenance. */
  lemma ReplayExact(c: Codec, a: Artifact)
    requires Inverts(c)
    ensures Replayed(c, SealedRecord(c, a)) == Persisted(a) <==> Filled(a)
    ensures Replayed(c, SealedRecord(c, a)) == a <==> Durable(a)
  {
  }

  /** The last record of each id, where there is one. */
  function LastOf(c: Codec, records: seq<Record>, id: Text): Option<Artifact> {
    if records == [] then None
    else if records[|records| - 1].id == id then Some(Replayed(c, records[|records| - 1]))
    else LastOf(c, records[..|records| - 1], id)
  }

  function LastView(c: Codec, records: seq<Record>): Text -> Option<Artifact> {
    id => LastOf(c, records, id)
  }

  function IdsOf(records: seq<Record>): seq<Text> {
    seq(|records|, i requires 0 <= i < |records| => records[i].id)
  }

  /** The store rebuilt from records alone: its ids in order, and the artifact of each. */
  method ReplaySealedStore(c: Codec, records: seq<Record>) returns (order: seq<Text>, byId: map<Text, Option<Artifact>>)
    ensures order == Distinct(IdsOf(records)) && Lists(order, byId) && Agrees(byId, LastView(c, records))
  {
    order, byId := [], map[];
    EmptyLists<Text, Option<Artifact>>();
    EmptyAgrees(LastView(c, []));
    hide Distinct, Lists, Agrees, SameBut, Grown, Replayed;
    assert order == Distinct(IdsOf(records[..0])) by { NoIds(records); }
    for i := 0 to |records|
      invariant order == Distinct(IdsOf(records[..i])) && Lists(order, byId) && Agrees(byId, LastView(c, records[..i]))
    {
      var r := records[i];
      ghost var seen := records[..i];
      assert records[..i + 1] == seen + [r];
      ReplayStep(c, seen, r);
      MapStep(order, byId, r.id, LastView(c, seen), LastView(c, seen + [r]));
      byId := byId[r.id := Some(Replayed(c, r))];
      order := Grown(order, r.id);
    }
    assert records[..|records|] == records;
  }

  lemma NoIds(records: seq<Record>)
    ensures Distinct(IdsOf(records[..0])) == []
  {
  }

  lemma ReplayStep(c: Codec, seen: seq<Record>, r: Record)
    ensures Distinct(IdsOf(seen + [r])) == Grown(Distinct(IdsOf(seen)), r.id)
    ensures SameBut(LastView(c, seen), LastView(c, seen + [r]), r.id)
    ensures LastView(c, seen + [r])(r.id) == Some(Replayed(c, r))
  {
    assert IdsOf(seen + [r]) == IdsOf(seen) + [r.id];
    DistinctAppend(IdsOf(seen), r.id);
    assert (seen + [r])[..|seen|] == seen;
  }

  function SealedRecords(c: Codec, list: seq<Artifact>): seq<Record> {
    seq(|list|, i requires 0 <= i < |list| => SealedRecord(c, list[i]))
  }

  predicate Unique(list: seq<Artifact>) {
    forall i, j :: 0 <= i < j < |list| ==> list[i].id != list[j].id
  }

  function ArtifactIds(list: seq<Artifact>): seq<Text> {
    seq(|list|, i requires 0 <= i < |list| => list[i].id)
  }

  /** Ids that are unique are kept in order. */
  lemma {:induction false} UniqueIds(c: Codec, list: seq<Artifact>)
    requires Unique(list)
    ensures Distinct(IdsOf(SealedRecords(c, list))) == ArtifactIds(list)
  {
    if list != [] {
      var init, last := list[..|list| - 1], list[|list| - 1];
      hide Distinct, SealedRecord, Replayed, IdsOf, LastView;
      UniqueIds(c, init);
      RecordsAppend(c, init, last);
      RecordId(c, last);
      ReplayStep(c, SealedRecords(c, init), SealedRecord(c, last));
      hide SealedRecords;
      assert list == init + [last];
      LastIdIsNew(list);
      hide ArtifactIds, Unique;
    }
  }

  lemma LastIdIsNew(list: seq<Artifact>)
    requires Unique(list) && list != []
    ensures var init, last := list[..|list| - 1], list[|list| - 1];
            last.id !in ArtifactIds(init) && ArtifactIds(list) == ArtifactIds(init) + [last.id]
  {
    var init := list[..|list| - 1];
    assert forall i :: 0 <= i < |init| ==> ArtifactIds(init)[i] == list[i].id;
  }

  lemma {:induction false} EachReplays(c: Codec, list: seq<Artifact>)
    requires Unique(list)
    ensures forall i :: 0 <= i < |list|
              ==> LastOf(c, SealedRecords(c, list), list[i].id) == Some(Replayed(c, SealedRecord(c, list[i])))
  {
    if list != [] {
      var init, last := list[..|list| - 1], list[|list| - 1];
      hide Replayed, SealedRecord;
      EachReplays(c, init);
      RecordsAppend(c, init, last);
      RecordId(c, last);
      LastStep(c, SealedRecords(c, init), SealedRecord(c, last));
      hide SealedRecords, LastOf;
      assert list == init + [last];
    }
  }

  /** A store comes back with the same ids in order. Under each id lie the persisted fields of its artifact, if
      these hold no empty buffer, and the whole artifact exactly when it is durable. */
  lemma StoreReplays(c: Codec, list: seq<Artifact>)
    requires Inverts(c) && Unique(list)
    ensures Distinct(IdsOf(SealedRecords(c, list))) == ArtifactIds(list)
    ensures forall i :: 0 <= i < |list| ==>
              && (Filled(list[i]) <==> LastOf(c, SealedRecords(c, list), list[i].id) == Some(Persisted(list[i])))
              && (Durable(list[i]) <==> LastOf(c, SealedRecords(c, list), list[i].id) == Some(list[i]))
  {
    UniqueIds(c, list);
    EachReplays(c, list);
    hide Distinct, Filled, Durable, Persisted, Replayed, SealedRecord, SealedRecords, LastOf, Inverts;
    forall i | 0 <= i < |list|
      ensures Filled(list[i]) <==> Replayed(c, SealedRecord(c, list[i])) == Persisted(list[i])
      ensures Durable(list[i]) <==> Replayed(c, SealedRecord(c, list[i])) == list[i]
    {
      ReplayExact(c, list[i]);
    }
  }

  lemma RecordsAppend(c: Codec, list: seq<Artifact>, a: Artifact)
    ensures SealedRecords(c, list + [a]) == SealedRecords(c, list) + [SealedRecord(c, a)]
  {
    hide SealedRecord;
  }

  lemma RecordId(c: Codec, a: Artifact)
    ensures SealedRecord(c, a).id == a.id
  {
  }

  lemma LastStep(c: Codec, seen: seq<Record>, r: Record)
    ensures forall id :: LastOf(c, seen + [r], id) == if id == r.id then Some(Replayed(c, r)) else LastOf(c, seen, id)
  {
    assert (seen + [r])[..|seen|] == seen;
  }

  // ----- what captured artifacts lose -----

  lemma EncodingNonEmpty(t: Text)
    requires t != []
    ensures Utf8(t) != []
  {
  }

  /** A captured page comes back in all fields but its raw length, and never whole. */
  lemma PageReplays(c: Codec, h: Host, p: Page)
    requires Inverts(c) && (forall b :: h.sha256(b) != []) && Capturable(p)
    ensures var a := PageArtifact(h, p);
            Replayed(c, SealedRecord(c, a)) == Persisted(a) != a && a == Persisted(a).(rawLength := a.rawLength)
  {
    var a := PageArtifact(h, p);
    hide BoundaryMap, Readable;
    ReadableNormalised(p.text);
    assert Readable([]) ==> false by {
      NothingReadable();
    }
    EncodingNonEmpty(NormaliseWhitespace(p.text));
    if p.rawHtml != [] {
      EncodingNonEmpty(p.rawHtml);
    }
    hide Utf8, NormaliseWhitespace, Runs;
    assert Filled(a) && !a.rawLength.NoField? && a.provenance.None?;
    hide PageArtifact;
    ReplayExact(c, a);
  }

  lemma NothingReadable()
    ensures !Readable([])
  {
  }

  /** The log of a lane is written out in full but for its raw length and provenance, and never comes back whole. */
  lemma LogReplays(c: Codec, h: Host, lane: Text, key: Text, rows: seq<Text>, p: Provenance)
    requires Inverts(c) && (forall b :: h.sha256(b) != []) && Join(rows, NEWLINE) != []
    requires CaptureEvidenceArtifact(h, lane, key, rows, p).Logged?
    ensures var a := CaptureEvidenceArtifact(h, lane, key, rows, p).artifact;
            Replayed(c, SealedRecord(c, a)) == Persisted(a) != a
  {
    var a := CaptureEvidenceArtifact(h, lane, key, rows, p).artifact;
    EncodingNonEmpty(Join(rows, NEWLINE));
    hide Utf8, Join;
    ReplayExact(c, a);
  }

  /** Each recorded source is in the index under its id, with its digest. */
  predicate DerivationHolds(index: Text -> Option<Artifact>, a: Artifact) {
    IsDerived(a) ==>
      forall s :: s in a.provenance.value.derivedFrom ==> index(s.id).Some? && index(s.id).value.sha256 == s.sha256
  }

  /** The derivation check answers alike on an artifact and on its replay, for every index, exactly when it had
      nothing to check. On the replay it always passes. */
  lemma DerivationLost(c: Codec, a: Artifact)
    ensures forall index :: DerivationHolds(index, Replayed(c, SealedRecord(c, a)))
    ensures (forall index :: DerivationHolds(index, a) <==> DerivationHolds(index, Replayed(c, SealedRecord(c, a))))
       <==> !(IsDerived(a) && a.provenance.value.derivedFrom != [])
  {
    var empty: Text -> Option<Artifact> := id => None;
    if IsDerived(a) && a.provenance.value.derivedFrom != [] {
      assert a.provenance.value.derivedFrom[0] in a.provenance.value.derivedFrom;
      assert !DerivationHolds(empty, a);
    }
  }

  /** The log of an absence claim, whatever it was checked on, comes back without its sources: its derivation no
      longer holds only when they are there, but always. */
  lemma CoverageLosesSources(c: Codec, h: Host, key: Text, line: Text, subjects: seq<Source>)
    requires Inverts(c) && (forall b :: h.sha256(b) != []) && line != [] && subjects != []
    ensures var a := BuildCoverageArtifact(h, key, line, subjects).value;
            && Replayed(c, SealedRecord(c, a)) == Persisted(a) != a
            && !DerivationHolds(id => None, a) && DerivationHolds(id => None, Replayed(c, SealedRecord(c, a)))
  {
    var a := BuildCoverageArtifact(h, key, line, subjects).value;
    EncodingNonEmpty(line);
    hide Utf8;
    ReplayExact(c, a);
    assert subjects[0] in a.provenance.value.derivedFrom;
  }

  // ----- when a sealed record is replaced -----

  predicate KeysApart(list: seq<Artifact>) {
    forall i, j :: 0 <= i < j < |list| ==> KeyOf(list[i]) != KeyOf(list[j])
  }

  /** The key determines the id and the digest, for digests without a slash. */
  lemma SealedKeyInjective(i: Text, d: Text, j: Text, e: Text)
    requires Free(d, SLASH) && Free(e, SLASH) && SealedKey(i, d) == SealedKey(j, e)
    ensures i == j && d == e
  {
    var ext := Ascii(".json");
    SplitConcat(Ascii("evidence/"), i + ([SLASH] + (d + ext)));
    SplitConcat(Ascii("evidence/"), j + ([SLASH] + (e + ext)));
    ConcatAssociative(i, [SLASH], d + ext);
    ConcatAssociative(j, [SLASH], e + ext);
    assert Free(d + ext, SLASH) && Free(e + ext, SLASH);
    LastPart(i, d + ext, SLASH);
    LastPart(j, e + ext, SLASH);
    assert (d + ext)[..|d|] == d && (e + ext)[..|e|] == e;
  }

  lemma UniqueKeysApart(list: seq<Artifact>)
    requires Unique(list) && forall i :: 0 <= i < |list| ==> Free(list[i].sha256, SLASH)
    ensures KeysApart(list)
  {
    forall i, j | 0 <= i < j < |list| ensures KeyOf(list[i]) != KeyOf(list[j]) {
      if KeyOf(list[i]) == KeyOf(list[j]) {
        SealedKeyInjective(list[i].id, list[i].sha256, list[j].id, list[j].sha256);
      }
    }
  }

  /** The write of this artifact was applied, under this key. */
  predicate Applied(list: seq<Artifact>, doors: seq<Door>, k: Text, i: nat)
    requires i < |list| == |doors|
  {
    !doors[i].Refused? && KeyOf(list[i]) == k
  }

  /** No write under this key was applied. */
  predicate Untouched(list: seq<Artifact>, doors: seq<Door>, k: Text)
    requires |list| == |doors|
  {
    forall i :: 0 <= i < |list| ==> !Applied(list, doors, k, i)
  }

  /** What lies under one key after some of the writes: a written record, or what was there before. */
  predicate Settled(c: Codec, list: seq<Artifact>, doors: seq<Door>, stored: map<Text, Record>, k: Text, after: map<Text, Record>)
    requires |list| == |doors|
  {
    && (forall i :: 0 <= i < |list| && Applied(list, doors, k, i) ==> k in after && after[k] == SealedRecord(c, list[i]))
    && (Untouched(list, doors, k) ==> (k in after <==> k in stored))
    && (Untouched(list, doors, k) && k in stored ==> k in after && after[k] == stored[k])
  }

  lemma AppliedEarlier(list: seq<Artifact>, doors: seq<Door>, k: Text, i: nat)
    requires i + 1 < |list| == |doors|
    ensures Applied(list[..|list| - 1], doors[..|list| - 1], k, i) == Applied(list, doors, k, i)
  {
    hide KeyOf;
  }

  lemma SettledNext(c: Codec, list: seq<Artifact>, doors: seq<Door>, stored: map<Text, Record>, k: Text, before: map<Text, Record>)
    requires 0 < |list| == |doors| && KeysApart(list)
    requires Settled(c, list[..|list| - 1], doors[..|list| - 1], stored, k, before)
    ensures var n := |list| - 1;
            Settled(c, list, doors, stored, k, if doors[n].Refused? then before else before[KeyOf(list[n]) := SealedRecord(c, list[n])])
  {
    var n := |list| - 1;
    assert Applied(list, doors, k, n) <==> !doors[n].Refused? && KeyOf(list[n]) == k;
    assert forall i :: 0 <= i < n && Applied(list, doors, k, i) ==> KeyOf(list[i]) == k != KeyOf(list[n]);
    hide SealedRecord, KeyOf, Applied, KeysApart;
    forall i: nat | i < n ensures Applied(list[..n], doors[..n], k, i) == Applied(list, doors, k, i) {
      AppliedEarlier(list, doors, k, i);
    }
    assert Untouched(list, doors, k) ==> Untouched(list[..n], doors[..n], k);
    assert Untouched(list, doors, k) ==> !Applied(list, doors, k, n);
    hide Untouched;
    assert forall i :: 0 <= i < n ==> list[..n][i] == list[i];
  }

  lemma {:induction false} PutAllAt(c: Codec, list: seq<Artifact>, doors: seq<Door>, stored: map<Text, Record>, k: Text)
    requires |list| == |doors| && KeysApart(list)
    ensures Settled(c, list, doors, stored, k, PutAll(c, list, doors, stored))
  {
    if list != [] {
      var n := |list| - 1;
      hide SealedRecord, KeyOf, Settled;
      PutAllAt(c, list[..n], doors[..n], stored, k);
      SettledNext(c, list, doors, stored, k, PutAll(c, list[..n], doors[..n], stored));
    }
  }

  /** A stored record is replaced by a different one exactly when a write of an artifact with its id and digest is
      applied and that artifact's record differs. */
  lemma ReplacedExactly(c: Codec, list: seq<Artifact>, doors: seq<Door>, stored: map<Text, Record>, k: Text)
    requires |list| == |doors| && Unique(list) && (forall i :: 0 <= i < |list| ==> Free(list[i].sha256, SLASH))
    requires k in stored
    ensures k in PutAll(c, list, doors, stored)
    ensures PutAll(c, list, doors, stored)[k] != stored[k]
       <==> exists i :: 0 <= i < |list| && Applied(list, doors, k, i) && SealedRecord(c, list[i]) != stored[k]
  {
    UniqueKeysApart(list);
    PutAllAt(c, list, doors, stored, k);
    hide PutAll, SealedRecord, KeyOf, Unique, Applied;
  }

  /** Two captures of the same bytes of one page have the same key. Their records are the same exactly when the
      time of the capture and the raw body kept are the same: a later capture replaces the earlier record. */
  lemma RecaptureReplaces(c: Codec, g: Host, h: Host, p: Page, q: Page)
    requires Inverts(c) && g.idDigest == h.idDigest && g.sha256 == h.sha256
    requires p.url == q.url && NormaliseWhitespace(p.text) == NormaliseWhitespace(q.text)
    ensures var a, b, n := PageArtifact(g, p), PageArtifact(h, q), NormaliseWhitespace(p.text);
            && KeyOf(a) == KeyOf(b)
            && ((SealedRecord(c, a) == SealedRecord(c, b))
                <==> (g.fetchedAt == h.fetchedAt && CaptureRawFor(g, p, n) == CaptureRawFor(h, q, n)))
  {
    var a, b, n := PageArtifact(g, p), PageArtifact(h, q), NormaliseWhitespace(p.text);
    hide NormaliseWhitespace, SealedKey;
    var r, s := CaptureRawFor(g, p, n), CaptureRawFor(h, q, n);
    hide CaptureRawFor;
    if SealedRecord(c, a) == SealedRecord(c, b) && r.Some? && s.Some? {
      assert c.decode(c.encode(r.value.bytes)) == r.value.bytes && c.decode(c.encode(s.value.bytes)) == s.value.bytes;
    }
  }
}
