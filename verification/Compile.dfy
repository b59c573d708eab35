/** catalogue/compile.js: packs are merged into one artifact, whatever the order they were found in. */
module Compile {
  import opened Texts
  import opened Encoding
  import opened Sorting
  import opened OrderedMaps
  import opened JsonText
  import opened JsonFields
  import opened Canonical

  const ID: Text := Ascii("id")
  const STATUS: Text := Ascii("status")
  const CELL: Text := Ascii("cell")
  const REJECTED_QA: Text := Ascii("rejected_qa")
  const NEEDS_VERIFICATION: Text := Ascii("needs_verification")

  /** A pack that passed its sign-off, with the cell named by its file. */
  datatype Pack = Pack(cell: Text, source: Text, jurisdiction: Json, generated: Json, records: seq<Json>)

  /** A record with the cell of the pack it came from. */
  datatype Row = Row(cell: Text, record: Json)

  function TextField(record: Json, key: Text): Option<Text> {
    match Field(record, key)
    case Some(Str(s)) => Some(s)
    case _ => None
  }

  predicate HasId(record: Json) {
    TextField(record, ID).Some?
  }

  function IdOf(record: Json): Text {
    if HasId(record) then TextField(record, ID).value else []
  }

  /** The status that keeps a record out of the artifact, if it has one. */
  function ExcludedStatus(record: Json): Option<Text> {
    var s := TextField(record, STATUS);
    if s == Some(REJECTED_QA) || s == Some(NEEDS_VERIFICATION) then s else None
  }

  function DropKey(props: seq<Prop>, key: Text): seq<Prop> {
    if props == [] then []
    else (if props[0].key == key then [] else [props[0]]) + DropKey(props[1..], key)
  }

  /** `Object.assign({ cell }, record)`: a cell that the record carries itself wins, and a key named `__proto__` is
      assigned to the prototype and not copied. */
  function Stamp(row: Row): Json {
    var props := if row.record.Obj? then DropKey(row.record.props, PROTO) else [];
    var own := LastOf(props, CELL);
    Obj([Prop(CELL, if own.Some? then own.value else Str(row.cell))] + DropKey(props, CELL))
  }

  lemma {:induction false} FieldDropped(props: seq<Prop>, drop: Text, key: Text)
    requires key != drop
    ensures LastOf(DropKey(props, drop), key) == LastOf(props, key)
  {
    if props != [] {
      FieldDropped(props[1..], drop, key);
      var head := if props[0].key == drop then [] else [props[0]];
      assert DropKey(props, drop) == head + DropKey(props[1..], drop);
      assert head != [] ==> (head + DropKey(props[1..], drop))[1..] == DropKey(props[1..], drop);
      assert head == [] ==> head + DropKey(props[1..], drop) == DropKey(props[1..], drop);
    }
  }

  lemma KeysDiffer()
    ensures ID != CELL && ID != PROTO && CELL != PROTO && REJECTED_QA != NEEDS_VERIFICATION
  {
    assert |ID| == 2 && |CELL| == 4 && |PROTO| == 9;
    assert |REJECTED_QA| == 11 && |NEEDS_VERIFICATION| == 18;
  }

  lemma {:induction false} DroppedIsGone(props: seq<Prop>, drop: Text)
    ensures forall p :: p in DropKey(props, drop) ==> p in props && p.key != drop
  {
    if props != [] {
      DroppedIsGone(props[1..], drop);
    }
  }

  /** Stamping keeps the id of a record, and never lets a key named `__proto__` through. */
  lemma StampKeepsId(row: Row)
    ensures IdOf(Stamp(row)) == IdOf(row.record)
    ensures HasId(Stamp(row)) == HasId(row.record)
    ensures forall p :: p in Stamp(row).props ==> p.key != PROTO
  {
    KeysDiffer();
    var props := if row.record.Obj? then row.record.props else [];
    FieldDropped(props, PROTO, ID);
    FieldDropped(DropKey(props, PROTO), CELL, ID);
    DroppedIsGone(props, PROTO);
    DroppedIsGone(DropKey(props, PROTO), CELL);
    var stamped := Stamp(row).props;
    assert stamped[1..] == DropKey(DropKey(props, PROTO), CELL);
    hide DropKey;
  }

  // ----- one pass over every record -----

  function RowsOf(p: Pack): seq<Row> {
    seq(|p.records|, i requires 0 <= i < |p.records| => Row(p.cell, p.records[i]))
  }

  function Rows(packs: seq<Pack>): seq<Row> {
    if packs == [] then [] else Rows(packs[..|packs| - 1]) + RowsOf(packs[|packs| - 1])
  }

  /** What the artifact takes from the rows. */
  function Shipped(rows: seq<Row>): seq<Json> {
    if rows == [] then []
    else
      var last := rows[|rows| - 1];
      Shipped(rows[..|rows| - 1]) + if ExcludedStatus(last.record).None? then [Stamp(last)] else []
  }

  /** The statuses of the rows left out, in order. */
  function Statuses(rows: seq<Row>): seq<Text> {
    if rows == [] then []
    else
      var s := ExcludedStatus(rows[|rows| - 1].record);
      Statuses(rows[..|rows| - 1]) + if s.Some? then [s.value] else []
  }

  function Occurrences(s: seq<Text>): Text -> nat {
    t => multiset(s)[t]
  }

  /** How often each status was met, in the order the statuses were first met. */
  function StatusTable(rows: seq<Row>): seq<Prop> {
    var s := Statuses(rows);
    var order := Distinct(s);
    seq(|order|, i requires 0 <= i < |order| => Prop(order[i], Num(Decimal(multiset(s)[order[i]]))))
  }

  datatype Cell = Cell(cell: Text, jurisdiction: Json, generated: Json, source: Text, total: nat, included: nat, excluded: nat)

  function CellOf(p: Pack): Cell {
    Cell(p.cell, p.jurisdiction, p.generated, p.source, |p.records|, |Shipped(RowsOf(p))|, |Statuses(RowsOf(p))|)
  }

  function CellsOf(packs: seq<Pack>): seq<Cell> {
    seq(|packs|, i requires 0 <= i < |packs| => CellOf(packs[i]))
  }

  datatype Collected = Collected(records: seq<Json>, cells: seq<Cell>, total: nat, excluded: nat, byStatus: seq<Prop>)

  lemma RowsAppend(rows: seq<Row>, row: Row)
    ensures ExcludedStatus(row.record).None? ==>
              Shipped(rows + [row]) == Shipped(rows) + [Stamp(row)] && Statuses(rows + [row]) == Statuses(rows)
    ensures ExcludedStatus(row.record).Some? ==>
              Shipped(rows + [row]) == Shipped(rows) && Statuses(rows + [row]) == Statuses(rows) + [ExcludedStatus(row.record).value]
  {
    assert (rows + [row])[..|rows|] == rows;
  }

  lemma CountStep(s: seq<Text>, t: Text)
    ensures Distinct(s + [t]) == Grown(Distinct(s), t)
    ensures SameBut(Occurrences(s), Occurrences(s + [t]), t)
    ensures Occurrences(s + [t])(t) == Occurrences(s)(t) + 1
    ensures t !in Distinct(s) ==> Occurrences(s)(t) == 0
  {
    DistinctAppend(s, t);
    assert multiset(s + [t]) == multiset(s) + multiset{t};
  }

  /** The running totals of one pass. */
  datatype Running = Running(records: seq<Json>, total: nat, excluded: nat, order: seq<Text>, counts: map<Text, nat>)

  ghost predicate Tabled(order: seq<Text>, counts: map<Text, nat>, s: seq<Text>) {
    order == Distinct(s) && Lists(order, counts) && Agrees(counts, Occurrences(s))
  }

  /** The totals account for the rows read so far. */
  ghost predicate Tally(r: Running, rows: seq<Row>) {
    && r.records == Shipped(rows) && r.total == |rows| && r.excluded == |Statuses(rows)|
    && Tabled(r.order, r.counts, Statuses(rows))
  }

  const NOTHING_YET: Running := Running([], 0, 0, [], map[])

  lemma EmptyTally()
    ensures Tally(NOTHING_YET, [])
  {
  }

  function Count(counts: map<Text, nat>, t: Text): nat {
    if t in counts then counts[t] else 0
  }

  lemma TabledStep(order: seq<Text>, counts: map<Text, nat>, s: seq<Text>, t: Text)
    requires Tabled(order, counts, s)
    ensures Tabled(Grown(order, t), counts[t := Count(counts, t) + 1], s + [t])
  {
    CountStep(s, t);
    Known(order, counts, t, Occurrences(s));
    hide Distinct, Grown, Lists, Agrees, Occurrences, SameBut;
    MapStep(order, counts, t, Occurrences(s), Occurrences(s + [t]));
  }

  /** What one record does to the totals. */
  function TakeRow(r: Running, row: Row): Running {
    var status := ExcludedStatus(row.record);
    if status.Some? then
      Running(r.records, r.total + 1, r.excluded + 1, Grown(r.order, status.value),
              r.counts[status.value := Count(r.counts, status.value) + 1])
    else Running(r.records + [Stamp(row)], r.total + 1, r.excluded, r.order, r.counts)
  }

  lemma TallyStep(r: Running, rows: seq<Row>, row: Row)
    requires Tally(r, rows)
    ensures Tally(TakeRow(r, row), rows + [row])
  {
    if ExcludedStatus(row.record).Some? {
      TallyDrop(r, rows, row);
    } else {
      TallyKeep(r, rows, row);
    }
  }

  lemma TallyKeep(r: Running, rows: seq<Row>, row: Row)
    requires Tally(r, rows) && ExcludedStatus(row.record).None?
    ensures Tally(TakeRow(r, row), rows + [row])
  {
    RowsAppend(rows, row);
    hide Shipped, Statuses, Tabled, Stamp, ExcludedStatus;
  }

  lemma TallyDrop(r: Running, rows: seq<Row>, row: Row)
    requires Tally(r, rows) && ExcludedStatus(row.record).Some?
    ensures Tally(TakeRow(r, row), rows + [row])
  {
    hide Tally, TakeRow, Shipped, Statuses, Tabled, Stamp, ExcludedStatus, Grown, Count;
    var t := ExcludedStatus(row.record).value;
    TallyParts(r, rows);
    TakeDropped(r, row);
    RowDropped(rows, row);
    TabledStep(r.order, r.counts, Statuses(rows), t);
    TallyIs(TakeRow(r, row), rows + [row], Statuses(rows) + [t]);
  }

  lemma TallyParts(r: Running, rows: seq<Row>)
    requires Tally(r, rows)
    ensures r.records == Shipped(rows) && r.total == |rows| && r.excluded == |Statuses(rows)|
    ensures Tabled(r.order, r.counts, Statuses(rows))
  {
    hide Shipped, Statuses, Tabled;
  }

  lemma TakeDropped(r: Running, row: Row)
    requires ExcludedStatus(row.record).Some?
    ensures var t := ExcludedStatus(row.record).value;
            TakeRow(r, row) == Running(r.records, r.total + 1, r.excluded + 1, Grown(r.order, t), r.counts[t := Count(r.counts, t) + 1])
  {
    hide ExcludedStatus, Grown, Count, Stamp;
  }

  lemma RowDropped(rows: seq<Row>, row: Row)
    requires ExcludedStatus(row.record).Some?
    ensures Shipped(rows + [row]) == Shipped(rows)
    ensures Statuses(rows + [row]) == Statuses(rows) + [ExcludedStatus(row.record).value]
  {
    RowsAppend(rows, row);
  }

  lemma TallyIs(r: Running, rows: seq<Row>, statuses: seq<Text>)
    requires r.records == Shipped(rows) && statuses == Statuses(rows)
    requires r.total == |rows| && r.excluded == |statuses| && Tabled(r.order, r.counts, statuses)
    ensures Tally(r, rows)
  {
  }

  method CollectPack(p: Pack, run: Running, ghost before: seq<Row>) returns (after: Running, cell: Cell)
    requires Tally(run, before)
    ensures Tally(after, before + RowsOf(p))
    ensures cell == CellOf(p)
  {
    ghost var own := RowsOf(p);
    var included: nat, left: nat := 0, 0;
    after := run;
    NoRows(own, before);
    hide Tally, ExcludedStatus, Shipped, Statuses, Stamp;
    for j := 0 to |p.records|
      invariant Tally(after, before + own[..j])
      invariant included == |Shipped(own[..j])| && left == |Statuses(own[..j])|
    {
      OneMore(before, own, j);
      TallyStep(after, before + own[..j], own[j]);
      after := TakeRow(after, Row(p.cell, p.records[j]));
      if ExcludedStatus(p.records[j]).Some? {
        left := left + 1;
      } else {
        included := included + 1;
      }
    }
    assert own[..|p.records|] == own;
    cell := Cell(p.cell, p.jurisdiction, p.generated, p.source, |p.records|, included, left);
  }

  method CollectRecords(packs: seq<Pack>) returns (c: Collected)
    ensures c == CollectedFrom(packs)
  {
    var run, cells: seq<Cell> := NOTHING_YET, [];
    EmptyTally();
    hide Tally, Rows, CellOf;
    assert Rows(packs[..0]) == [] by { NoPacks(); }
    for i := 0 to |packs|
      invariant Tally(run, Rows(packs[..i])) && cells == CellsOf(packs[..i])
    {
      CellsAppend(packs, i);
      var cell;
      run, cell := CollectPack(packs[i], run, Rows(packs[..i]));
      cells := cells + [cell];
    }
    assert packs[..|packs|] == packs;
    TallyTable(run, Rows(packs));
    var byStatus := seq(|run.order|, i requires 0 <= i < |run.order| => Prop(run.order[i], Num(Decimal(run.counts[run.order[i]]))));
    TableIs(Rows(packs), run.order, byStatus, run.counts);
    c := Collected(run.records, cells, run.total, run.excluded, byStatus);
  }

  lemma NoPacks()
    ensures Rows([]) == []
  {
  }

  /** What one pass over the packs amounts to. */
  function CollectedFrom(packs: seq<Pack>): Collected {
    var rows := Rows(packs);
    Collected(Shipped(rows), CellsOf(packs), |rows|, |Statuses(rows)|, StatusTable(rows))
  }

  lemma TallyTable(r: Running, rows: seq<Row>)
    requires Tally(r, rows)
    ensures r.records == Shipped(rows) && r.total == |rows| && r.excluded == |Statuses(rows)|
    ensures r.order == Distinct(Statuses(rows))
    ensures forall i :: 0 <= i < |r.order| ==> r.order[i] in r.counts && r.counts[r.order[i]] == Occurrences(Statuses(rows))(r.order[i])
  {
    KnownAll(r.order, r.counts, Occurrences(Statuses(rows)));
    hide Distinct, Statuses, Shipped, Occurrences;
  }

  lemma CellsAppend(packs: seq<Pack>, i: nat)
    requires i < |packs|
    ensures CellsOf(packs[..i + 1]) == CellsOf(packs[..i]) + [CellOf(packs[i])]
    ensures Rows(packs[..i + 1]) == Rows(packs[..i]) + RowsOf(packs[i])
  {
    assert packs[..i + 1][..i] == packs[..i];
    hide CellOf, Rows;
    assert packs[..i + 1] == packs[..i] + [packs[i]];
  }

  lemma NoRows(own: seq<Row>, before: seq<Row>)
    ensures Shipped(own[..0]) == [] && Statuses(own[..0]) == [] && before + own[..0] == before
  {
  }

  lemma OneMore(before: seq<Row>, own: seq<Row>, j: nat)
    requires j < |own|
    ensures before + own[..j + 1] == before + own[..j] + [own[j]]
    ensures ExcludedStatus(own[j].record).None? ==>
              |Shipped(own[..j + 1])| == |Shipped(own[..j])| + 1 && |Statuses(own[..j + 1])| == |Statuses(own[..j])|
    ensures ExcludedStatus(own[j].record).Some? ==>
              |Shipped(own[..j + 1])| == |Shipped(own[..j])| && |Statuses(own[..j + 1])| == |Statuses(own[..j])| + 1
  {
    hide ExcludedStatus, Stamp, Shipped, Statuses;
    RowsAppend(own[..j], own[j]);
    assert own[..j + 1] == own[..j] + [own[j]];
  }

  lemma TableIs(rows: seq<Row>, order: seq<Text>, table: seq<Prop>, counts: map<Text, nat>)
    requires order == Distinct(Statuses(rows)) && |table| == |order|
    requires forall i :: 0 <= i < |order| ==> order[i] in counts && counts[order[i]] == Occurrences(Statuses(rows))(order[i])
    requires forall i :: 0 <= i < |order| ==> table[i] == Prop(order[i], Num(Decimal(counts[order[i]])))
    ensures table == StatusTable(rows)
  {
    hide Distinct, Statuses;
  }

  // ----- no id twice -----

  datatype Finding = Finding(id: Text, cell: Text, source: Text, priorCell: Text, priorSource: Text)

  datatype Place = Place(cell: Text, source: Text)

  /** The ids of the records that carry one, in the order they are met. */
  function IdsOf(records: seq<Json>): seq<Text> {
    if records == [] then []
    else
      var last := records[|records| - 1];
      IdsOf(records[..|records| - 1]) + if HasId(last) then [IdOf(last)] else []
  }

  function Ids(packs: seq<Pack>): seq<Text> {
    if packs == [] then [] else Ids(packs[..|packs| - 1]) + IdsOf(packs[|packs| - 1].records)
  }

  /** Every id that was met before, at each later meeting. */
  function Repeats(ids: seq<Text>): seq<Text> {
    if ids == [] then []
    else
      var init, last := ids[..|ids| - 1], ids[|ids| - 1];
      Repeats(init) + if last in init then [last] else []
  }

  function FindingIds(findings: seq<Finding>): seq<Text> {
    seq(|findings|, i requires 0 <= i < |findings| => findings[i].id)
  }

  lemma RepeatsAppend(ids: seq<Text>, id: Text)
    ensures Repeats(ids + [id]) == if id in ids then Repeats(ids) + [id] else Repeats(ids)
  {
    assert (ids + [id])[..|ids|] == ids;
  }

  lemma FindingsAppend(findings: seq<Finding>, f: Finding)
    ensures FindingIds(findings + [f]) == FindingIds(findings) + [f.id]
  {
  }

  /** Nothing is repeated exactly when all ids differ. */
  lemma {:induction false} NoRepeats(ids: seq<Text>)
    ensures Repeats(ids) == [] <==> forall i, j :: 0 <= i < j < |ids| ==> ids[i] != ids[j]
  {
    if ids != [] {
      var init, last := ids[..|ids| - 1], ids[|ids| - 1];
      NoRepeats(init);
      assert ids == init + [last];
      if last in init {
        var i :| 0 <= i < |init| && init[i] == last;
        assert ids[i] == ids[|ids| - 1];
      }
    }
  }

  predicate AllDiffer(ids: seq<Text>) {
    forall i, j :: 0 <= i < j < |ids| ==> ids[i] != ids[j]
  }

  ghost predicate SeenExactly(seen: map<Text, Place>, ids: seq<Text>) {
    forall id :: id in seen <==> id in ids
  }

  lemma IdsAppend(records: seq<Json>, j: nat, before: seq<Text>)
    requires j < |records|
    ensures before + IdsOf(records[..j + 1])
         == if HasId(records[j]) then before + IdsOf(records[..j]) + [IdOf(records[j])] else before + IdsOf(records[..j])
  {
    assert records[..j + 1][..j] == records[..j];
    hide HasId, IdOf;
  }

  method CrossPackDuplicateIds(packs: seq<Pack>) returns (findings: seq<Finding>)
    ensures FindingIds(findings) == Repeats(Ids(packs))
    ensures findings == [] <==> AllDiffer(Ids(packs))
  {
    findings := [];
    var seen: map<Text, Place> := map[];
    hide HasId, IdOf;
    for i := 0 to |packs|
      invariant FindingIds(findings) == Repeats(Ids(packs[..i])) && SeenExactly(seen, Ids(packs[..i]))
    {
      var p := packs[i];
      ghost var before := Ids(packs[..i]);
      assert before + IdsOf(p.records[..0]) == before;
      for j := 0 to |p.records|
        invariant FindingIds(findings) == Repeats(before + IdsOf(p.records[..j])) && SeenExactly(seen, before + IdsOf(p.records[..j]))
      {
        IdsAppend(p.records, j, before);
        if !HasId(p.records[j]) {
          continue;
        }
        var id := IdOf(p.records[j]);
        ghost var ids := before + IdsOf(p.records[..j]);
        SeenStep(seen, ids, id, Place(p.cell, p.source));
        RepeatsAppend(ids, id);
        if id in seen {
          var found := Finding(id, p.cell, p.source, seen[id].cell, seen[id].source);
          FindingsAppend(findings, found);
          findings := findings + [found];
        } else {
          seen := seen[id := Place(p.cell, p.source)];
        }
      }
      assert p.records[..|p.records|] == p.records;
      assert packs[..i + 1][..i] == packs[..i];
    }
    assert packs[..|packs|] == packs;
    NoRepeats(Ids(packs));
    assert |findings| == |FindingIds(findings)|;
  }

  lemma SeenStep(seen: map<Text, Place>, ids: seq<Text>, id: Text, at: Place)
    requires SeenExactly(seen, ids)
    ensures id in seen <==> id in ids
    ensures SeenExactly(if id in seen then seen else seen[id := at], ids + [id])
  {
  }

  // ----- nothing is lost -----

  function Sum(cells: seq<Cell>, f: Cell -> nat): nat {
    if cells == [] then 0 else Sum(cells[..|cells| - 1], f) + f(cells[|cells| - 1])
  }

  lemma {:induction false} ShippedAndLeft(rows: seq<Row>)
    ensures |Shipped(rows)| + |Statuses(rows)| == |rows|
  {
    if rows != [] {
      ShippedAndLeft(rows[..|rows| - 1]);
    }
  }

  lemma {:induction false} ShippedConcat(a: seq<Row>, b: seq<Row>)
    ensures |Shipped(a + b)| == |Shipped(a)| + |Shipped(b)|
    ensures |Statuses(a + b)| == |Statuses(a)| + |Statuses(b)|
  {
    if b == [] {
      assert a + b == a;
    } else {
      var init, last := b[..|b| - 1], b[|b| - 1];
      ShippedConcat(a, init);
      assert a + b == a + init + [last] && b == init + [last];
      RowsAppend(a + init, last);
      RowsAppend(init, last);
    }
  }

  function StatusSum(s: seq<Text>, order: seq<Text>): nat {
    if order == [] then 0 else multiset(s)[order[0]] + StatusSum(s, order[1..])
  }

  lemma {:induction false} StatusSumAppend(s: seq<Text>, t: Text, order: seq<Text>)
    requires forall i, j :: 0 <= i < j < |order| ==> order[i] != order[j]
    ensures StatusSum(s + [t], order) == StatusSum(s, order) + if t in order then 1 else 0
  {
    if order != [] {
      StatusSumAppend(s, t, order[1..]);
      assert multiset(s + [t]) == multiset(s) + multiset{t};
      assert t in order <==> t == order[0] || t in order[1..];
    }
  }

  lemma {:induction false} StatusSumMore(s: seq<Text>, order: seq<Text>, t: Text)
    ensures StatusSum(s, order + [t]) == StatusSum(s, order) + multiset(s)[t]
  {
    if order == [] {
      assert order + [t] == [t] && [t][1..] == [];
    } else {
      StatusSumMore(s, order[1..], t);
      assert (order + [t])[1..] == order[1..] + [t];
    }
  }

  /** The status table adds up to the records left out. */
  lemma {:induction false} StatusesAddUp(s: seq<Text>)
    ensures StatusSum(s, Distinct(s)) == |s|
  {
    if s != [] {
      var init, last := s[..|s| - 1], s[|s| - 1];
      assert s == init + [last];
      StatusesAddUp(init);
      DistinctAppend(init, last);
      StatusSumAppend(init, last, Distinct(init));
      StatusSumMore(s, Distinct(init), last);
      hide Distinct, StatusSum;
      if last !in init {
        assert multiset(init)[last] == 0;
        assert multiset(s) == multiset(init) + multiset{last};
      }
    }
  }

  function TotalOf(): Cell -> nat { (c: Cell) => c.total }
  function IncludedOf(): Cell -> nat { (c: Cell) => c.included }
  function LeftOf(): Cell -> nat { (c: Cell) => c.excluded }

  lemma SumAppend(cells: seq<Cell>, c: Cell, f: Cell -> nat)
    ensures Sum(cells + [c], f) == Sum(cells, f) + f(c)
  {
    assert (cells + [c])[..|cells|] == cells;
  }

  lemma {:induction false} CellSums(packs: seq<Pack>)
    ensures Sum(CellsOf(packs), TotalOf()) == |Rows(packs)|
    ensures Sum(CellsOf(packs), IncludedOf()) == |Shipped(Rows(packs))|
    ensures Sum(CellsOf(packs), LeftOf()) == |Statuses(Rows(packs))|
  {
    if packs != [] {
      var n := |packs| - 1;
      var init, last := packs[..n], packs[n];
      CellSums(init);
      CellsAppend(packs, n);
      assert packs[..n + 1] == packs;
      ShippedConcat(Rows(init), RowsOf(last));
      SumAppend(CellsOf(init), CellOf(last), TotalOf());
      SumAppend(CellsOf(init), CellOf(last), IncludedOf());
      SumAppend(CellsOf(init), CellOf(last), LeftOf());
      hide Shipped, Statuses, Rows, CellsOf, Sum;
    }
  }

  /** What the counts of a status table add up to. */
  function TableSum(table: seq<Prop>): nat {
    if table == [] then 0 else CountIn(table[0].value) + TableSum(table[1..])
  }

  function CountIn(v: Json): nat {
    if v.Num? && forall i :: 0 <= i < |v.digits| ==> IsDigit(v.digits[i]) then DecimalValue(v.digits) else 0
  }

  function CountTable(s: seq<Text>, order: seq<Text>): seq<Prop> {
    seq(|order|, i requires 0 <= i < |order| => Prop(order[i], Num(Decimal(multiset(s)[order[i]]))))
  }

  lemma {:induction false} TableAddsUp(s: seq<Text>, order: seq<Text>)
    ensures TableSum(CountTable(s, order)) == StatusSum(s, order)
  {
    if order != [] {
      TableAddsUp(s, order[1..]);
      assert CountTable(s, order)[1..] == CountTable(s, order[1..]);
      DecimalRoundTrip(multiset(s)[order[0]]);
      hide Decimal, DecimalValue;
    }
  }

  lemma StatusTableAddsUp(rows: seq<Row>)
    ensures TableSum(StatusTable(rows)) == |Statuses(rows)|
    ensures StatusSum(Statuses(rows), Distinct(Statuses(rows))) == |Statuses(rows)|
  {
    var s := Statuses(rows);
    StatusesAddUp(s);
    hide Statuses, Distinct, TableSum, StatusSum;
    TableAddsUp(s, Distinct(s));
    assert StatusTable(rows) == CountTable(s, Distinct(s));
  }

  lemma CellConserves(p: Pack)
    ensures CellOf(p).total == CellOf(p).included + CellOf(p).excluded
  {
    ShippedAndLeft(RowsOf(p));
    hide Shipped, Statuses;
  }

  /** Records scanned are records shipped and records left out: in all, cell by cell, and by status. */
  lemma Conservation(packs: seq<Pack>)
    ensures var c := CollectedFrom(packs);
            && c.total == |c.records| + c.excluded
            && (forall i :: 0 <= i < |packs| ==> c.cells[i].total == c.cells[i].included + c.cells[i].excluded)
            && Sum(c.cells, TotalOf()) == c.total
            && Sum(c.cells, IncludedOf()) == |c.records|
            && Sum(c.cells, LeftOf()) == c.excluded
            && TableSum(c.byStatus) == c.excluded
            && StatusSum(Statuses(Rows(packs)), Distinct(Statuses(Rows(packs)))) == c.excluded
  {
    hide Shipped, Statuses, Distinct, StatusSum, Rows, Sum, StatusTable, TableSum, CellOf;
    ShippedAndLeft(Rows(packs));
    StatusTableAddsUp(Rows(packs));
    CellSums(packs);
    forall i | 0 <= i < |packs| ensures CellOf(packs[i]).total == CellOf(packs[i]).included + CellOf(packs[i]).excluded {
      CellConserves(packs[i]);
    }
  }

  // ----- the order of packs and records does not matter -----

  function ShippedFrom(): Row -> multiset<Json> {
    (row: Row) => if ExcludedStatus(row.record).None? then multiset{Stamp(row)} else multiset{}
  }

  function StatusFrom(): Row -> multiset<Text> {
    (row: Row) => if ExcludedStatus(row.record).Some? then multiset{ExcludedStatus(row.record).value} else multiset{}
  }

  lemma {:induction false} ShippedPool(rows: seq<Row>)
    ensures multiset(Shipped(rows)) == Pool(rows, ShippedFrom())
    ensures multiset(Statuses(rows)) == Pool(rows, StatusFrom())
  {
    if rows != [] {
      ShippedPool(rows[..|rows| - 1]);
      hide ExcludedStatus, Stamp;
    }
  }

  function RowFrom(cell: Text): Json -> multiset<Row> {
    (r: Json) => multiset{Row(cell, r)}
  }

  lemma {:induction false} RowsOfPool(p: Pack)
    ensures multiset(RowsOf(p)) == Pool(p.records, RowFrom(p.cell))
    decreases |p.records|
  {
    if p.records != [] {
      var init := p.(records := p.records[..|p.records| - 1]);
      RowsOfPool(init);
      assert RowsOf(p) == RowsOf(init) + [Row(p.cell, p.records[|p.records| - 1])];
    }
  }

  function RowsFrom(): Pack -> multiset<Row> {
    (p: Pack) => multiset(RowsOf(p))
  }

  lemma {:induction false} RowsPool(packs: seq<Pack>)
    ensures multiset(Rows(packs)) == Pool(packs, RowsFrom())
  {
    if packs != [] {
      RowsPool(packs[..|packs| - 1]);
      hide RowsOf;
    }
  }

  function CellFrom(): Pack -> multiset<Cell> {
    (p: Pack) => multiset{CellOf(p)}
  }

  lemma {:induction false} CellsPool(packs: seq<Pack>)
    ensures multiset(CellsOf(packs)) == Pool(packs, CellFrom())
  {
    if packs != [] {
      var n := |packs| - 1;
      CellsPool(packs[..n]);
      CellsAppend(packs, n);
      assert packs[..n + 1] == packs;
      hide CellOf;
    }
  }

  /** The same pack with its records in another order. */
  ghost predicate SamePack(p: Pack, q: Pack) {
    && p.cell == q.cell && p.source == q.source && p.jurisdiction == q.jurisdiction && p.generated == q.generated
    && multiset(p.records) == multiset(q.records)
  }

  ghost predicate Pairwise(a: seq<Pack>, c: seq<Pack>) {
    |a| == |c| && forall i :: 0 <= i < |a| ==> SamePack(a[i], c[i])
  }

  /** The same packs in another order, each with its records in another order. */
  ghost predicate Reordered(a: seq<Pack>, b: seq<Pack>) {
    exists c :: Pairwise(a, c) && multiset(c) == multiset(b)
  }

  lemma SamePackRows(p: Pack, q: Pack)
    requires SamePack(p, q)
    ensures multiset(RowsOf(p)) == multiset(RowsOf(q))
    ensures CellOf(p) == CellOf(q)
  {
    RowsOfPool(p);
    RowsOfPool(q);
    PoolPermuted(p.records, q.records, RowFrom(p.cell));
    SameElements(p.records, q.records);
    ShippedPool(RowsOf(p));
    ShippedPool(RowsOf(q));
    PoolPermuted(RowsOf(p), RowsOf(q), ShippedFrom());
    PoolPermuted(RowsOf(p), RowsOf(q), StatusFrom());
    SameElements(Shipped(RowsOf(p)), Shipped(RowsOf(q)));
    SameElements(Statuses(RowsOf(p)), Statuses(RowsOf(q)));
    hide Pool, RowsOf, Shipped, Statuses;
  }

  lemma {:induction false} PairwisePool<U>(a: seq<Pack>, c: seq<Pack>, f: Pack -> multiset<U>)
    requires Pairwise(a, c)
    requires forall p, q :: SamePack(p, q) ==> f(p) == f(q)
    ensures Pool(a, f) == Pool(c, f)
  {
    if a != [] {
      var n := |a| - 1;
      PairwisePool(a[..n], c[..n], f);
      assert SamePack(a[n], c[n]);
    }
  }

  lemma ReorderedRows(a: seq<Pack>, b: seq<Pack>)
    requires Reordered(a, b)
    ensures multiset(Rows(a)) == multiset(Rows(b))
    ensures multiset(CellsOf(a)) == multiset(CellsOf(b))
  {
    var c :| Pairwise(a, c) && multiset(c) == multiset(b);
    RowsPool(a);
    RowsPool(b);
    CellsPool(a);
    CellsPool(b);
    forall p, q | SamePack(p, q) ensures RowsFrom()(p) == RowsFrom()(q) && CellFrom()(p) == CellFrom()(q) {
      SamePackRows(p, q);
    }
    hide Pool, Rows, CellsOf, Pairwise;
    PairwisePool(a, c, RowsFrom());
    PairwisePool(a, c, CellFrom());
    PoolPermuted(c, b, RowsFrom());
    PoolPermuted(c, b, CellFrom());
  }

  function RowIds(rows: seq<Row>): seq<Text> {
    seq(|rows|, i requires 0 <= i < |rows| => IdOf(rows[i].record))
  }

  predicate AllHaveIds(packs: seq<Pack>) {
    forall i, j :: 0 <= i < |packs| && 0 <= j < |packs[i].records| ==> HasId(packs[i].records[j])
  }

  lemma {:induction false} PackIds(p: Pack)
    requires forall j :: 0 <= j < |p.records| ==> HasId(p.records[j])
    ensures IdsOf(p.records) == RowIds(RowsOf(p))
    decreases |p.records|
  {
    if p.records != [] {
      var n := |p.records| - 1;
      var init := p.(records := p.records[..n]);
      PackIds(init);
      assert RowsOf(p) == RowsOf(init) + [Row(p.cell, p.records[n])];
      hide HasId, IdOf;
    }
  }

  lemma {:induction false} IdsAreRowIds(packs: seq<Pack>)
    requires AllHaveIds(packs)
    ensures Ids(packs) == RowIds(Rows(packs))
  {
    if packs != [] {
      var n := |packs| - 1;
      hide HasId, IdOf;
      IdsAreRowIds(packs[..n]);
      PackIds(packs[n]);
      assert RowIds(Rows(packs[..n]) + RowsOf(packs[n])) == RowIds(Rows(packs[..n])) + RowIds(RowsOf(packs[n]));
    }
  }

  ghost function JsonIds(records: seq<Json>): seq<Text> {
    seq(|records|, i requires 0 <= i < |records| => IdOf(records[i]))
  }

  lemma DifferAppend(ids: seq<Text>, t: Text)
    ensures AllDiffer(ids + [t]) <==> AllDiffer(ids) && t !in ids
  {
    var more := ids + [t];
    assert forall i :: 0 <= i < |ids| ==> more[i] == ids[i];
    assert more[|ids|] == t;
  }

  lemma JsonIdsAppend(records: seq<Json>, r: Json)
    ensures JsonIds(records + [r]) == JsonIds(records) + [IdOf(r)]
  {
  }

  /** Records shipped from rows with different ids have different ids themselves. */
  lemma {:induction false} ShippedIdsDiffer(rows: seq<Row>)
    requires AllDiffer(RowIds(rows))
    ensures AllDiffer(JsonIds(Shipped(rows)))
    ensures forall t :: t in JsonIds(Shipped(rows)) ==> t in RowIds(rows)
  {
    if rows != [] {
      var init, last := rows[..|rows| - 1], rows[|rows| - 1];
      assert RowIds(rows) == RowIds(init) + [IdOf(last.record)];
      assert rows == init + [last];
      DifferAppend(RowIds(init), IdOf(last.record));
      ShippedIdsDiffer(init);
      StampKeepsId(last);
      RowsAppend(init, last);
      JsonIdsAppend(Shipped(init), Stamp(last));
      DifferAppend(JsonIds(Shipped(init)), IdOf(last.record));
      hide IdOf, Stamp, ExcludedStatus, Shipped, JsonIds, RowIds, AllDiffer;
    }
  }

  // ----- sorting and the artifact -----

  function ById(): (Json, Json) -> bool {
    (a: Json, b: Json) => TextLe(IdOf(a), IdOf(b))
  }

  function ByCell(): (Cell, Cell) -> bool {
    (a: Cell, b: Cell) => TextLe(a.cell, b.cell)
  }

  function SortRecords(records: seq<Json>): seq<Json> {
    SortBy(ById(), records)
  }

  function BuildCells(cells: seq<Cell>): seq<Cell> {
    SortBy(ByCell(), cells)
  }

  lemma TextOrder<T(!new)>(key: T -> Text, le: (T, T) -> bool)
    requires forall a, b :: le(a, b) <==> TextLe(key(a), key(b))
    ensures TotalPreorder(le)
  {
    forall a, b ensures le(a, b) || le(b, a) {
      TextLeTotal(key(a), key(b));
    }
    forall a, b, c | le(a, b) && le(b, c) ensures le(a, c) {
      TextLeTransitive(key(a), key(b), key(c));
    }
  }

  lemma SortedRecordsAgree(a: seq<Json>, b: seq<Json>)
    requires AllDiffer(JsonIds(a)) && multiset(a) == multiset(b)
    ensures SortRecords(a) == SortRecords(b)
  {
    hide IdOf;
    TextOrder((r: Json) => IdOf(r), ById());
    forall i, j | 0 <= i < |a| && 0 <= j < |a| && ById()(a[i], a[j]) && ById()(a[j], a[i]) ensures a[i] == a[j] {
      TextLeAntisymmetric(IdOf(a[i]), IdOf(a[j]));
      assert JsonIds(a)[i] == JsonIds(a)[j];
    }
    SortInvariant(ById(), a, b);
  }

  predicate CellsDiffer(packs: seq<Pack>) {
    forall i, j :: 0 <= i < j < |packs| ==> packs[i].cell != packs[j].cell
  }

  lemma SortedCellsAgree(packs: seq<Pack>, b: seq<Cell>)
    requires CellsDiffer(packs) && multiset(CellsOf(packs)) == multiset(b)
    ensures BuildCells(CellsOf(packs)) == BuildCells(b)
  {
    var a := CellsOf(packs);
    TextOrder((c: Cell) => c.cell, ByCell());
    forall i, j | 0 <= i < |a| && 0 <= j < |a| && ByCell()(a[i], a[j]) && ByCell()(a[j], a[i]) ensures a[i] == a[j] {
      TextLeAntisymmetric(a[i].cell, a[j].cell);
      assert a[i].cell == packs[i].cell && a[j].cell == packs[j].cell;
    }
    SortInvariant(ByCell(), a, b);
  }

  /** What the gates establish before anything is assembled: ids everywhere, none twice, no cell twice. */
  ghost predicate Clean(packs: seq<Pack>) {
    AllHaveIds(packs) && AllDiffer(Ids(packs)) && CellsDiffer(packs)
  }

  const CATALOGUE_VERSION: Text := Ascii("v1.0.0-p2")

  function Number(n: nat): Json {
    Num(Decimal(n))
  }

  function CellJson(c: Cell): Json {
    Obj([Prop(CELL, Str(c.cell)), Prop(Ascii("jurisdiction"), c.jurisdiction), Prop(Ascii("pack_generated"), c.generated),
         Prop(Ascii("source"), Str(c.source)), Prop(Ascii("records_total"), Number(c.total)),
         Prop(Ascii("records_included"), Number(c.included)), Prop(Ascii("records_excluded"), Number(c.excluded))])
  }

  function CellsJson(cells: seq<Cell>): seq<Json> {
    seq(|cells|, i requires 0 <= i < |cells| => CellJson(cells[i]))
  }

  function CountsJson(packs: nat, leftOut: seq<Json>, c: Collected): Json {
    Obj([Prop(Ascii("packs_scanned"), Number(packs + |leftOut|)), Prop(Ascii("packs_compilable"), Number(packs)),
         Prop(Ascii("packs_excluded"), Number(|leftOut|)), Prop(Ascii("packs_excluded_detail"), Arr(leftOut)),
         Prop(Ascii("records_scanned"), Number(c.total)), Prop(Ascii("records_included"), Number(|c.records|)),
         Prop(Ascii("records_excluded"), Number(c.excluded)), Prop(Ascii("records_excluded_by_status"), Obj(c.byStatus))])
  }

  /** The part of the artifact that is hashed. */
  function Core(packs: nat, leftOut: seq<Json>, stamp: Json, c: Collected): Json {
    Obj([Prop(Ascii("catalogue_version"), Str(CATALOGUE_VERSION)), Prop(Ascii("generated"), stamp),
         Prop(Ascii("cells"), Arr(CellsJson(BuildCells(c.cells)))), Prop(Ascii("counts"), CountsJson(packs, leftOut, c)),
         Prop(Ascii("records"), Arr(SortRecords(c.records)))])
  }

  datatype Artifact = Artifact(core: Json, contentHash: Text)

  function ArtifactOf(packs: seq<Pack>, leftOut: seq<Json>, stamp: Json, sha256: Bytes -> Text): Artifact {
    var core := Core(|packs|, leftOut, stamp, CollectedFrom(packs));
    Artifact(core, sha256(Utf8(Stringify(core))))
  }

  method AssembleArtifact(packs: seq<Pack>, leftOut: seq<Json>, stamp: Json, sha256: Bytes -> Text) returns (a: Artifact)
    ensures a == ArtifactOf(packs, leftOut, stamp, sha256)
  {
    var c := CollectRecords(packs);
    var core := Core(|packs|, leftOut, stamp, c);
    a := Artifact(core, sha256(Utf8(Stringify(core))));
  }

  /** The canonical text of an object depends on its fields, not on their order. */
  lemma {:induction false} EntriesPool(props: seq<Prop>)
    ensures multiset(StringifyProps(props)) == Pool(props, EntryFrom())
    decreases |props|
  {
    if props != [] {
      var init, last := props[..|props| - 1], props[|props| - 1];
      EntriesPool(init);
      EntriesAppend(init, last);
      assert props == init + [last];
    }
  }

  ghost function EntryFrom(): Prop -> multiset<Entry> {
    (p: Prop) => multiset{Entry(p.key, Stringify(p.value))}
  }

  lemma {:induction false} EntriesAppend(props: seq<Prop>, p: Prop)
    ensures StringifyProps(props + [p]) == StringifyProps(props) + [Entry(p.key, Stringify(p.value))]
  {
    if props == [] {
      assert props + [p] == [p];
      assert [p][1..] == [];
    } else {
      EntriesAppend(props[1..], p);
      assert (props + [p])[1..] == props[1..] + [p];
    }
  }

  lemma {:induction false} EntryKeys(props: seq<Prop>)
    ensures |StringifyProps(props)| == |props|
    ensures forall i :: 0 <= i < |props| ==> StringifyProps(props)[i].key == props[i].key
  {
    if props != [] {
      EntryKeys(props[1..]);
    }
  }

  lemma ObjectPermuted(p: seq<Prop>, q: seq<Prop>)
    requires DistinctKeys(p) && multiset(p) == multiset(q)
    ensures Stringify(Obj(p)) == Stringify(Obj(q))
  {
    EntriesPool(p);
    EntriesPool(q);
    PoolPermuted(p, q, EntryFrom());
    var a, b := StringifyProps(p), StringifyProps(q);
    PropOrder();
    hide StringifyProps, Pool;
    EntriesSeparate(p);
    SortInvariant(EntryLe, a, b);
  }

  lemma EntriesSeparate(p: seq<Prop>)
    requires DistinctKeys(p)
    ensures Separates(EntryLe, StringifyProps(p))
  {
    EntryKeys(p);
    var a := StringifyProps(p);
    hide StringifyProps;
    forall i, j | 0 <= i < |a| && 0 <= j < |a| && EntryLe(a[i], a[j]) && EntryLe(a[j], a[i]) ensures a[i] == a[j] {
      TextLeAntisymmetric(a[i].key, a[j].key);
    }
  }

  /** Two artifacts agree up to the order in which their status tables list the statuses. */
  ghost predicate SameUpToTable(a: Collected, b: Collected) {
    && SortRecords(a.records) == SortRecords(b.records) && |a.records| == |b.records|
    && BuildCells(a.cells) == BuildCells(b.cells)
    && a.total == b.total && a.excluded == b.excluded
    && multiset(a.byStatus) == multiset(b.byStatus) && DistinctKeys(a.byStatus)
  }

  lemma {:induction false} SameTexts(p: seq<Prop>, q: seq<Prop>)
    requires |p| == |q|
    requires forall i :: 0 <= i < |p| ==> p[i].key == q[i].key && Stringify(p[i].value) == Stringify(q[i].value)
    ensures StringifyProps(p) == StringifyProps(q)
  {
    if p != [] {
      SameTexts(p[1..], q[1..]);
    }
  }

  lemma CountsText(packs: nat, leftOut: seq<Json>, a: Collected, b: Collected)
    requires SameUpToTable(a, b)
    ensures Stringify(CountsJson(packs, leftOut, a)) == Stringify(CountsJson(packs, leftOut, b))
  {
    ObjectPermuted(a.byStatus, b.byStatus);
    hide Stringify, SortRecords, BuildCells, Decimal, Ascii;
    var p, q := CountsJson(packs, leftOut, a).props, CountsJson(packs, leftOut, b).props;
    assert p[7].value == Obj(a.byStatus) && q[7].value == Obj(b.byStatus);
    assert p[..7] == q[..7];
    ObjectTexts(p, q);
  }

  lemma ObjectTexts(p: seq<Prop>, q: seq<Prop>)
    requires |p| == |q|
    requires forall i :: 0 <= i < |p| ==> p[i].key == q[i].key && Stringify(p[i].value) == Stringify(q[i].value)
    ensures Stringify(Obj(p)) == Stringify(Obj(q))
  {
    SameTexts(p, q);
  }

  lemma CoreText(packs: nat, leftOut: seq<Json>, stamp: Json, a: Collected, b: Collected)
    requires SameUpToTable(a, b)
    ensures Stringify(Core(packs, leftOut, stamp, a)) == Stringify(Core(packs, leftOut, stamp, b))
  {
    CountsText(packs, leftOut, a, b);
    hide Stringify, SortRecords, BuildCells, CountsJson, Ascii, CellsJson;
    ObjectTexts(Core(packs, leftOut, stamp, a).props, Core(packs, leftOut, stamp, b).props);
  }

  lemma StatusTablePermuted(a: seq<Row>, b: seq<Row>)
    requires multiset(Statuses(a)) == multiset(Statuses(b))
    ensures multiset(StatusTable(a)) == multiset(StatusTable(b)) && DistinctKeys(StatusTable(a))
  {
    var s, t := Statuses(a), Statuses(b);
    var x, y := StatusTable(a), StatusTable(b);
    SameElements(s, t);
    hide Statuses, Decimal;
    TableKeysDiffer(a);
    TableKeysDiffer(b);
    hide StatusTable;
    forall p ensures p in x <==> p in y {
      TableHas(a, p);
      TableHas(b, p);
    }
    SameMultiset(x, y);
  }

  lemma TableKeysDiffer(rows: seq<Row>)
    ensures DistinctKeys(StatusTable(rows))
  {
    hide Statuses, Decimal;
    assert forall i :: 0 <= i < |StatusTable(rows)| ==> StatusTable(rows)[i].key == Distinct(Statuses(rows))[i];
  }

  lemma TableHas(rows: seq<Row>, p: Prop)
    ensures p in StatusTable(rows) <==> p.key in Statuses(rows) && p.value == Num(Decimal(multiset(Statuses(rows))[p.key]))
  {
    var order := Distinct(Statuses(rows));
    hide Statuses, Decimal;
    if p.key in Statuses(rows) && p.value == Num(Decimal(multiset(Statuses(rows))[p.key])) {
      var i :| 0 <= i < |order| && order[i] == p.key;
      assert StatusTable(rows)[i] == p;
    }
  }

  lemma CollectedAgree(a: seq<Pack>, b: seq<Pack>)
    requires Clean(a) && Reordered(a, b)
    ensures SameUpToTable(CollectedFrom(a), CollectedFrom(b))
  {
    var x, y := Rows(a), Rows(b);
    ReorderedRows(a, b);
    SameElements(x, y);
    ShippedPool(x);
    ShippedPool(y);
    PoolPermuted(x, y, ShippedFrom());
    PoolPermuted(x, y, StatusFrom());
    IdsAreRowIds(a);
    hide Rows, Ids, Shipped, Statuses, Pool, CellsOf, AllDiffer, StatusTable, SortRecords, BuildCells;
    SameElements(Shipped(x), Shipped(y));
    SameElements(Statuses(x), Statuses(y));
    ShippedIdsDiffer(x);
    SortedRecordsAgree(Shipped(x), Shipped(y));
    SortedCellsAgree(a, CellsOf(b));
    StatusTablePermuted(x, y);
  }

  lemma ReorderedCount(a: seq<Pack>, b: seq<Pack>)
    requires Reordered(a, b)
    ensures |a| == |b|
  {
    var c :| Pairwise(a, c) && multiset(c) == multiset(b);
    SameElements(c, b);
  }

  /** When the gates report nothing, permuting the packs and the records inside them gives the same cells,
      the same records, the same counts and the same content hash. */
  lemma OrderIndependent(a: seq<Pack>, b: seq<Pack>, leftOut: seq<Json>, stamp: Json, sha256: Bytes -> Text)
    requires Clean(a) && Reordered(a, b)
    ensures var x, y := CollectedFrom(a), CollectedFrom(b);
            && SortRecords(x.records) == SortRecords(y.records) && BuildCells(x.cells) == BuildCells(y.cells)
            && x.total == y.total && x.excluded == y.excluded && multiset(x.byStatus) == multiset(y.byStatus)
    ensures ArtifactOf(a, leftOut, stamp, sha256).contentHash == ArtifactOf(b, leftOut, stamp, sha256).contentHash
  {
    CollectedAgree(a, b);
    ReorderedCount(a, b);
    hide CollectedFrom, SortRecords, BuildCells, Clean, Reordered, Core;
    CoreText(|a|, leftOut, stamp, CollectedFrom(a), CollectedFrom(b));
  }

  ghost predicate Injective(sha256: Bytes -> Text) {
    forall a, b :: sha256(a) == sha256(b) ==> a == b
  }

  /** Equal content hashes mean equal content, key order ignored. */
  lemma HashFixesContent(a: Artifact, b: Artifact, sha256: Bytes -> Text)
    requires Injective(sha256) && WellFormed(a.core) && WellFormed(b.core)
    requires a.contentHash == sha256(Utf8(Stringify(a.core))) && b.contentHash == sha256(Utf8(Stringify(b.core)))
    ensures a.contentHash == b.contentHash <==> Denote(a.core) == Denote(b.core)
  {
    CanonicalUnambiguous(a.core, b.core);
    hide Stringify, Denote, Utf8;
    CanonicalTextsEncode(a.core, b.core);
  }
}
