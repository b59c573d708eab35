/** The canonical JSON writers that every hash in the engine is fed from. */
module Canonical {
  // catalogue/compile.js and supervised/capture-index.js print with sorted keys in one pass;
  // mint/persist.js first rebuilds the value with sorted keys and then calls `JSON.stringify`.

  import opened Texts
  import opened Encoding
  import opened JsonText
  import Sorting

  // ----- what a value means once key order is forgotten -----

  datatype Meaning =
    | MNull
    | MBool(b: bool)
    | MNum(digits: Text)
    | MStr(s: Text)
    | MArr(items: seq<Meaning>)
    | MObj(fields: map<Text, Meaning>)

  function Denote(v: Json): Meaning
    decreases v, 1
  {
    match v
    case Null => MNull
    case Bool(b) => MBool(b)
    case Num(t) => MNum(t)
    case Str(s) => MStr(s)
    case Arr(items) => MArr(DenoteItems(items))
    case Obj(props) => MObj(DenoteProps(props))
  }

  function DenoteItems(items: seq<Json>): (r: seq<Meaning>)
    ensures |r| == |items|
    ensures forall i :: 0 <= i < |items| ==> r[i] == Denote(items[i])
    decreases items, 0
  {
    if items == [] then [] else [Denote(items[0])] + DenoteItems(items[1..])
  }

  function DenoteProps(props: seq<Prop>): map<Text, Meaning>
    decreases props, 0
  {
    if props == [] then map[] else DenoteProps(props[1..])[props[0].key := Denote(props[0].value)]
  }

  ghost predicate HasField(props: seq<Prop>, k: Text, m: Meaning) {
    exists i :: 0 <= i < |props| && props[i].key == k && Denote(props[i].value) == m
  }

  lemma FieldStep(props: seq<Prop>, k: Text, m: Meaning)
    requires props != []
    ensures HasField(props, k, m) <==> (props[0].key == k && Denote(props[0].value) == m) || HasField(props[1..], k, m)
  {
    hide Denote;
    var rest := props[1..];
    if HasField(props, k, m) {
      var i :| 0 <= i < |props| && props[i].key == k && Denote(props[i].value) == m;
      assert i > 0 ==> rest[i - 1] == props[i];
    }
    if HasField(rest, k, m) {
      var i :| 0 <= i < |rest| && rest[i].key == k && Denote(rest[i].value) == m;
      assert props[i + 1] == rest[i];
    }
  }

  /** The map an object denotes holds exactly its fields. */
  lemma {:induction false} FieldIff(props: seq<Prop>, k: Text, m: Meaning)
    requires DistinctKeys(props)
    ensures HasField(props, k, m) <==> k in DenoteProps(props) && DenoteProps(props)[k] == m
  {
    if props != [] {
      FieldStep(props, k, m);
      FieldIff(props[1..], k, m);
      if k == props[0].key && k in DenoteProps(props[1..]) {
        KeyOfField(props[1..], k);
      }
    }
  }

  lemma {:induction false} KeyOfField(props: seq<Prop>, k: Text)
    requires k in DenoteProps(props)
    ensures exists i :: 0 <= i < |props| && props[i].key == k
  {
    if props[0].key != k {
      KeyOfField(props[1..], k);
      var i :| 0 <= i < |props[1..]| && props[1..][i].key == k;
      assert props[i + 1].key == k;
    }
  }

  lemma DenoteAt(props: seq<Prop>, i: int)
    requires DistinctKeys(props) && 0 <= i < |props|
    ensures props[i].key in DenoteProps(props)
    ensures DenoteProps(props)[props[i].key] == Denote(props[i].value)
  {
    assert HasField(props, props[i].key, Denote(props[i].value));
    FieldIff(props, props[i].key, Denote(props[i].value));
  }

  /** Property lists with the same fields denote the same map. */
  lemma SameFields(p: seq<Prop>, q: seq<Prop>)
    requires DistinctKeys(p) && DistinctKeys(q)
    requires forall k, m :: HasField(p, k, m) <==> HasField(q, k, m)
    ensures DenoteProps(p) == DenoteProps(q)
  {
    var a, b := DenoteProps(p), DenoteProps(q);
    forall k | k in a ensures k in b && a[k] == b[k] {
      FieldIff(p, k, a[k]);
      FieldIff(q, k, a[k]);
    }
    forall k | k in b ensures k in a {
      FieldIff(p, k, b[k]);
      FieldIff(q, k, b[k]);
    }
  }

  // ----- the one-pass writer -----

  datatype Entry = Entry(key: Text, text: Text)

  predicate EntryLe(a: Entry, b: Entry) { TextLe(a.key, b.key) }
  predicate PropLe(a: Prop, b: Prop) { TextLe(a.key, b.key) }

  function Stringify(v: Json): Text
    decreases v, 1
  {
    match v
    case Arr(items) => [LBRACKET] + StringifyItems(items) + [RBRACKET]
    case Obj(props) => [LBRACE] + JoinEntries(Sorting.SortBy(EntryLe, StringifyProps(props))) + [RBRACE]
    case _ => Print(v)
  }

  function StringifyItems(items: seq<Json>): Text
    decreases items, 0
  {
    if items == [] then []
    else if |items| == 1 then Stringify(items[0])
    else Stringify(items[0]) + [COMMA] + StringifyItems(items[1..])
  }

  function StringifyProps(props: seq<Prop>): seq<Entry>
    decreases props, 0
  {
    if props == [] then []
    else [Entry(props[0].key, Stringify(props[0].value))] + StringifyProps(props[1..])
  }

  function PrintEntry(e: Entry): Text {
    PrintString(e.key) + [COLON] + e.text
  }

  function JoinEntries(es: seq<Entry>): Text {
    if es == [] then []
    else if |es| == 1 then PrintEntry(es[0])
    else PrintEntry(es[0]) + [COMMA] + JoinEntries(es[1..])
  }

  // ----- the two-pass writer -----

  /** `__proto__`: assigning to it on a fresh object sets the prototype and creates no key. */
  const PROTO: Text :=
    ['_' as int, '_' as int, 'p' as int, 'r' as int, 'o' as int, 't' as int, 'o' as int, '_' as int, '_' as int]

  /** A property key that JavaScript treats as an array index. */
  predicate IsIndex(key: Text) {
    && key != []
    && (forall i :: 0 <= i < |key| ==> IsDigit(key[i]))
    && Decimal(DecimalValue(key)) == key
    && DecimalValue(key) < 0xFFFF_FFFF
  }

  /** Own keys enumerate with array indices first, in numeric order, then the rest as inserted. */
  predicate IndexLe(a: Prop, b: Prop) {
    IsIndex(a.key) && (IsIndex(b.key) ==> DecimalValue(a.key) <= DecimalValue(b.key))
  }

  predicate EnumerationLe(a: Prop, b: Prop) {
    !IsIndex(b.key) || IndexLe(a, b)
  }

  function OwnKeyOrder(props: seq<Prop>): seq<Prop> {
    Sorting.SortBy(EnumerationLe, props)
  }

  function DropProto(props: seq<Prop>): seq<Prop> {
    if props == [] then []
    else if props[0].key == PROTO then DropProto(props[1..])
    else [props[0]] + DropProto(props[1..])
  }

  function SortKeysDeep(v: Json): Json
    decreases v, 1
  {
    match v
    case Arr(items) => Arr(SortKeysItems(items))
    case Obj(props) => Obj(OwnKeyOrder(DropProto(Sorting.SortBy(PropLe, SortKeysProps(props)))))
    case _ => v
  }

  function SortKeysItems(items: seq<Json>): seq<Json>
    decreases items, 0
  {
    if items == [] then [] else [SortKeysDeep(items[0])] + SortKeysItems(items[1..])
  }

  function SortKeysProps(props: seq<Prop>): seq<Prop>
    decreases props, 0
  {
    if props == [] then []
    else [Prop(props[0].key, SortKeysDeep(props[0].value))] + SortKeysProps(props[1..])
  }

  function StableJson(v: Json): Text {
    Print(SortKeysDeep(v))
  }

  // ----- the canonical tree: keys sorted at every level -----

  ghost function Canon(v: Json): Json
    decreases v, 1
  {
    match v
    case Arr(items) => Arr(CanonItems(items))
    case Obj(props) => Obj(Sorting.SortBy(PropLe, CanonProps(props)))
    case _ => v
  }

  ghost function CanonItems(items: seq<Json>): (r: seq<Json>)
    ensures |r| == |items| && forall i :: 0 <= i < |items| ==> r[i] == Canon(items[i])
    decreases items, 0
  {
    if items == [] then [] else [Canon(items[0])] + CanonItems(items[1..])
  }

  ghost function CanonProps(props: seq<Prop>): (r: seq<Prop>)
    ensures |r| == |props|
    ensures forall i :: 0 <= i < |props| ==> r[i] == Prop(props[i].key, Canon(props[i].value))
    decreases props, 0
  {
    if props == [] then []
    else [Prop(props[0].key, Canon(props[0].value))] + CanonProps(props[1..])
  }

  lemma PropOrder()
    ensures Sorting.TotalPreorder(PropLe)
    ensures Sorting.TotalPreorder(EntryLe)
  {
    forall a: Prop, b: Prop ensures PropLe(a, b) || PropLe(b, a) { TextLeTotal(a.key, b.key); }
    forall a: Entry, b: Entry ensures EntryLe(a, b) || EntryLe(b, a) { TextLeTotal(a.key, b.key); }
    forall a: Prop, b: Prop, c: Prop | PropLe(a, b) && PropLe(b, c) ensures PropLe(a, c) {
      TextLeTransitive(a.key, b.key, c.key);
    }
    forall a: Entry, b: Entry, c: Entry | EntryLe(a, b) && EntryLe(b, c) ensures EntryLe(a, c) {
      TextLeTransitive(a.key, b.key, c.key);
    }
  }

  /** Sorting by key keeps the properties and puts their keys in text order. */
  lemma SortedByKey(props: seq<Prop>)
    ensures var r := Sorting.SortBy(PropLe, props);
            && multiset(r) == multiset(props) && |r| == |props|
            && Sorting.Sorted(PropLe, r)
            && (forall p :: p in r <==> p in props)
            && (DistinctKeys(props) ==> DistinctKeys(r))
  {
    PropOrder();
    Sorting.SortSorts(PropLe, props);
    Sorting.SortPermutes(PropLe, props);
    Sorting.SameElements(props, Sorting.SortBy(PropLe, props));
    if DistinctKeys(props) {
      DistinctPermuted(props, Sorting.SortBy(PropLe, props));
    }
  }

  // ----- one pass prints the canonical tree -----

  /** The printed form of a property list, one entry a property. */
  ghost function Entries(props: seq<Prop>): seq<Entry> {
    if props == [] then [] else [Entry(props[0].key, Print(props[0].value))] + Entries(props[1..])
  }

  lemma {:induction false} JoinPrints(props: seq<Prop>)
    ensures JoinEntries(Entries(props)) == PrintProps(props)
  {
    if |props| > 1 {
      JoinPrints(props[1..]);
    }
  }

  lemma {:induction false} InsertCommutes(p: Prop, props: seq<Prop>)
    ensures Entries(Sorting.Insert(PropLe, p, props))
         == Sorting.Insert(EntryLe, Entry(p.key, Print(p.value)), Entries(props))
  {
    if props != [] && !PropLe(p, props[0]) {
      InsertCommutes(p, props[1..]);
    } else if props != [] {
      assert ([p] + props)[1..] == props;
    }
  }

  lemma {:induction false} SortCommutes(props: seq<Prop>)
    ensures Entries(Sorting.SortBy(PropLe, props)) == Sorting.SortBy(EntryLe, Entries(props))
  {
    if props != [] {
      SortCommutes(props[1..]);
      InsertCommutes(props[0], Sorting.SortBy(PropLe, props[1..]));
    }
  }

  lemma {:induction false} StringifyIsPrintedCanon(v: Json)
    ensures Stringify(v) == Print(Canon(v))
    decreases v, 1
  {
    match v
    case Arr(items) => StringifyItemsCanon(items);
    case Obj(props) =>
      StringifyPropsCanon(props);
      SortCommutes(CanonProps(props));
      JoinPrints(Sorting.SortBy(PropLe, CanonProps(props)));
    case _ =>
  }

  lemma {:induction false} StringifyItemsCanon(items: seq<Json>)
    ensures StringifyItems(items) == PrintItems(CanonItems(items))
    decreases items, 0
  {
    if items != [] {
      StringifyIsPrintedCanon(items[0]);
      StringifyItemsCanon(items[1..]);
      assert CanonItems(items)[1..] == CanonItems(items[1..]);
    }
  }

  lemma {:induction false} StringifyPropsCanon(props: seq<Prop>)
    ensures StringifyProps(props) == Entries(CanonProps(props))
    decreases props, 0
  {
    if props != [] {
      StringifyIsPrintedCanon(props[0].value);
      StringifyPropsCanon(props[1..]);
      assert CanonProps(props)[1..] == CanonProps(props[1..]);
    }
  }

  // ----- sorting keys keeps the meaning -----

  /** Two property lists holding the same properties under distinct keys denote the same map. */
  lemma SamePropsDenote(p: seq<Prop>, q: seq<Prop>)
    requires DistinctKeys(p) && multiset(p) == multiset(q)
    ensures DistinctKeys(q) && DenoteProps(p) == DenoteProps(q)
  {
    DistinctPermuted(p, q);
    Sorting.SameElements(p, q);
    forall k, m ensures HasField(p, k, m) <==> HasField(q, k, m) {
      FieldMember(p, k, m);
      FieldMember(q, k, m);
    }
    SameFields(p, q);
  }

  lemma FieldMember(props: seq<Prop>, k: Text, m: Meaning)
    ensures HasField(props, k, m) <==> exists p :: p in props && p.key == k && Denote(p.value) == m
  {
    hide Denote;
    if HasField(props, k, m) {
      var i :| 0 <= i < |props| && props[i].key == k && Denote(props[i].value) == m;
      assert props[i] in props;
    }
  }

  lemma DistinctPermuted(p: seq<Prop>, q: seq<Prop>)
    requires DistinctKeys(p) && multiset(p) == multiset(q)
    ensures DistinctKeys(q)
  {
    Sorting.SameElements(p, q);
    forall i, j | 0 <= i < j < |q| ensures q[i].key != q[j].key {
      if q[i].key == q[j].key {
        assert q[i] in p && q[j] in p;
        var a :| 0 <= a < |p| && p[a] == q[i];
        var b :| 0 <= b < |p| && p[b] == q[j];
        assert a == b;
        TwiceInMultiset(q, i, j);
        Sorting.MultisetCount(p, q[i]);
        assert false;
      }
    }
  }

  lemma TwiceInMultiset<T>(s: seq<T>, i: int, j: int)
    requires 0 <= i < j < |s| && s[i] == s[j]
    ensures multiset(s)[s[i]] >= 2
  {
    assert s == s[..i] + [s[i]] + s[i + 1..j] + [s[j]] + s[j + 1..];
  }

  lemma {:induction false} CanonMeaning(v: Json)
    requires WellFormed(v)
    ensures WellFormed(Canon(v)) && Denote(Canon(v)) == Denote(v)
    decreases v
  {
    match v
    case Arr(items) =>
      forall i | 0 <= i < |items|
        ensures WellFormed(CanonItems(items)[i]) && Denote(CanonItems(items)[i]) == Denote(items[i])
      {
        CanonMeaning(items[i]);
      }
      assert DenoteItems(CanonItems(items)) == DenoteItems(items);
    case Obj(props) =>
      var cs := CanonProps(props);
      forall i | 0 <= i < |props| ensures WellFormed(cs[i].value) && Denote(cs[i].value) == Denote(props[i].value) {
        CanonMeaning(props[i].value);
      }
      PointwiseDenote(cs, props);
      SortedWellFormed(PropLe, cs);
      Sorting.SortPermutes(PropLe, cs);
      SamePropsDenote(cs, Sorting.SortBy(PropLe, cs));
    case _ =>
  }

  lemma PointwiseDenote(p: seq<Prop>, q: seq<Prop>)
    requires |p| == |q| && DistinctKeys(q)
    requires forall i :: 0 <= i < |q| ==> p[i].key == q[i].key && Denote(p[i].value) == Denote(q[i].value)
    ensures DistinctKeys(p) && DenoteProps(p) == DenoteProps(q)
  {
    hide Denote;
    forall k, m ensures HasField(p, k, m) <==> HasField(q, k, m) {
      if HasField(p, k, m) {
        var i :| 0 <= i < |p| && p[i].key == k && Denote(p[i].value) == m;
        assert q[i].key == k;
      }
      if HasField(q, k, m) {
        var i :| 0 <= i < |q| && q[i].key == k && Denote(q[i].value) == m;
        assert p[i].key == k;
      }
    }
    SameFields(p, q);
  }

  lemma SortedWellFormed(le: (Prop, Prop) -> bool, props: seq<Prop>)
    requires WellFormedProps(props)
    ensures WellFormedProps(Sorting.SortBy(le, props))
  {
    var sorted := Sorting.SortBy(le, props);
    Sorting.SortPermutes(le, props);
    DistinctPermuted(props, sorted);
    Sorting.SameElements(props, sorted);
    forall i | 0 <= i < |sorted| ensures WellFormed(sorted[i].value) {
      assert sorted[i] in props;
    }
  }

  // ----- equal meaning gives equal canonical trees -----

  lemma DistinctKeysSeparate(props: seq<Prop>)
    requires DistinctKeys(props)
    ensures Sorting.Separates(PropLe, props)
  {
    forall i, j | 0 <= i < |props| && 0 <= j < |props| && PropLe(props[i], props[j]) && PropLe(props[j], props[i])
      ensures props[i] == props[j]
    {
      TextLeAntisymmetric(props[i].key, props[j].key);
    }
  }

  lemma {:induction false} MeaningFixesCanon(v: Json, w: Json)
    requires WellFormed(v) && WellFormed(w)
    requires Denote(v) == Denote(w)
    ensures Canon(v) == Canon(w)
    decreases v
  {
    match v
    case Arr(items) =>
      assert |items| == |w.items|;
      forall i | 0 <= i < |items| ensures Canon(items[i]) == Canon(w.items[i]) {
        assert DenoteItems(items)[i] == DenoteItems(w.items)[i];
        MeaningFixesCanon(items[i], w.items[i]);
      }
      assert CanonItems(items) == CanonItems(w.items);
    case Obj(props) =>
      forall i, j | 0 <= i < |props| && 0 <= j < |w.props| && props[i].key == w.props[j].key
        ensures Canon(props[i].value) == Canon(w.props[j].value)
      {
        DenoteAt(props, i);
        DenoteAt(w.props, j);
        MeaningFixesCanon(props[i].value, w.props[j].value);
      }
      SameCanonProps(props, w.props);
      PropOrder();
      DistinctKeysSeparate(CanonProps(props));
      Sorting.SortInvariant(PropLe, CanonProps(props), CanonProps(w.props));
    case _ =>
  }

  /** Every key of `p` is a key of `q` when the two denote the same map. */
  lemma SameKeys(p: seq<Prop>, q: seq<Prop>, i: int) returns (j: int)
    requires DistinctKeys(p) && DistinctKeys(q) && DenoteProps(p) == DenoteProps(q)
    requires 0 <= i < |p|
    ensures 0 <= j < |q| && q[j].key == p[i].key
  {
    DenoteAt(p, i);
    KeyOfField(q, p[i].key);
    j :| 0 <= j < |q| && q[j].key == p[i].key;
  }

  lemma SameCanonProps(p: seq<Prop>, q: seq<Prop>)
    requires DistinctKeys(p) && DistinctKeys(q)
    requires DenoteProps(p) == DenoteProps(q)
    requires forall i, j :: 0 <= i < |p| && 0 <= j < |q| && p[i].key == q[j].key
               ==> Canon(p[i].value) == Canon(q[j].value)
    ensures multiset(CanonProps(p)) == multiset(CanonProps(q))
  {
    hide CanonProps, Canon, DenoteProps, Denote;
    var a, b := CanonProps(p), CanonProps(q);
    forall x | x in a ensures x in b {
      var i :| 0 <= i < |a| && a[i] == x;
      var j := SameKeys(p, q, i);
      assert b[j] == x;
    }
    forall x | x in b ensures x in a {
      var j :| 0 <= j < |b| && b[j] == x;
      var i := SameKeys(q, p, j);
      assert a[i] == x;
    }
    Sorting.SameMultiset(a, b);
  }

  // ----- unambiguity -----

  /** Canonical text determines the value up to key order, and nothing else does. */
  lemma CanonicalUnambiguous(v: Json, w: Json)
    requires WellFormed(v) && WellFormed(w)
    ensures Stringify(v) == Stringify(w) <==> Denote(v) == Denote(w)
  {
    StringifyIsPrintedCanon(v);
    StringifyIsPrintedCanon(w);
    CanonMeaning(v);
    CanonMeaning(w);
    if Stringify(v) == Stringify(w) {
      PrintInjective(Canon(v), Canon(w));
    }
    if Denote(v) == Denote(w) {
      MeaningFixesCanon(v, w);
    }
  }

  /** Reading canonical text back gives a value with the meaning that was written. */
  lemma CanonicalReadsBack(v: Json)
    requires WellFormed(v)
    ensures ParseValue(Stringify(v)).Read?
    ensures ParseValue(Stringify(v)).rest == []
    ensures Denote(ParseValue(Stringify(v)).value) == Denote(v)
  {
    StringifyIsPrintedCanon(v);
    CanonMeaning(v);
    PrintRoundTrip(Canon(v), []);
    assert Stringify(v) + [] == Stringify(v);
  }

  // ----- what is hashed -----

  /** The stable text of a value holds no lone surrogate, so its bytes determine it. */
  lemma StableTextsEncode(v: Json, w: Json)
    ensures Paired(StableJson(v))
    ensures Utf8(StableJson(v)) == Utf8(StableJson(w)) <==> StableJson(v) == StableJson(w)
  {
    hide Utf8, Paired, SortKeysDeep, Print;
    PrintPaired(SortKeysDeep(v));
    PrintPaired(SortKeysDeep(w));
    EncodingInjective(StableJson(v), StableJson(w));
  }

  /** Nor does the canonical text. */
  lemma CanonicalTextsEncode(v: Json, w: Json)
    ensures Paired(Stringify(v))
    ensures Utf8(Stringify(v)) == Utf8(Stringify(w)) <==> Stringify(v) == Stringify(w)
  {
    hide Stringify, Canon, Print, Utf8, Paired;
    StringifyIsPrintedCanon(v);
    StringifyIsPrintedCanon(w);
    PrintPaired(Canon(v));
    PrintPaired(Canon(w));
    EncodingInjective(Stringify(v), Stringify(w));
  }
}
