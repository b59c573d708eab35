/** The two-pass writer of mint/persist.js against the one-pass writer of catalogue/compile.js. */
module StableWriter {
  import opened Texts
  import opened JsonText
  import opened Canonical
  import opened KeyOrder
  import Sorting

  lemma {:induction false} SameTree(v: Json)
    requires WellFormed(v)
    ensures SortKeysDeep(v) == Canon(v) <==> NoKeyMoves(v)
    decreases v
  {
    match v
    case Arr(items) =>
      SortKeysItemsShape(items);
      forall i | 0 <= i < |items| ensures SortKeysDeep(items[i]) == Canon(items[i]) <==> NoKeyMoves(items[i]) {
        SameTree(items[i]);
      }
      assert SortKeysItems(items) == CanonItems(items) <==>
             forall i :: 0 <= i < |items| ==> SortKeysItems(items)[i] == CanonItems(items)[i];
    case Obj(props) =>
      forall i | 0 <= i < |props|
        ensures SortKeysDeep(props[i].value) == Canon(props[i].value) <==> NoKeyMoves(props[i].value)
      {
        SameTree(props[i].value);
      }
      SortKeysPropsShape(props);
      var ss, cs := SortKeysProps(props), CanonProps(props);
      if NoKeyMoves(v) {
        StayedPut(props, ss, cs);
      }
      if Rebuilt(ss) == Sorting.SortBy(PropLe, cs) {
        MovedBack(props, ss, cs);
      }
    case _ =>
  }

  lemma StayedPut(props: seq<Prop>, ss: seq<Prop>, cs: seq<Prop>)
    requires DistinctKeys(props) && |ss| == |cs| == |props|
    requires forall i :: 0 <= i < |props| ==> ss[i] == cs[i] && cs[i].key == props[i].key
    requires KeysStay(props)
    ensures Rebuilt(ss) == Sorting.SortBy(PropLe, cs)
  {
    KeysStayPointwise(props, cs);
    StayingKeys(cs);
    assert ss == cs;
  }

  lemma MovedBack(props: seq<Prop>, ss: seq<Prop>, cs: seq<Prop>)
    requires DistinctKeys(props) && |ss| == |cs| == |props|
    requires forall i :: 0 <= i < |props| ==> ss[i] == Prop(props[i].key, SortKeysDeep(props[i].value))
    requires forall i :: 0 <= i < |props| ==> cs[i] == Prop(props[i].key, Canon(props[i].value))
    requires forall i :: 0 <= i < |props|
               ==> (SortKeysDeep(props[i].value) == Canon(props[i].value) <==> NoKeyMoves(props[i].value))
    requires Rebuilt(ss) == Sorting.SortBy(PropLe, cs)
    ensures KeysStay(props) && forall i :: 0 <= i < |props| ==> NoKeyMoves(props[i].value)
  {
    hide SortKeysDeep, Canon, NoKeyMoves, Rebuilt, Sorting.SortBy, KeysStay;
    RebuiltMeansStaying(ss, cs);
    KeysStayPointwise(cs, props);
    forall i | 0 <= i < |props| ensures NoKeyMoves(props[i].value) { assert ss[i] == cs[i]; }
  }

  /** The two writers print the same text exactly when no key moves. */
  lemma WritersAgree(v: Json)
    requires WellFormed(v)
    ensures StableJson(v) == Stringify(v) <==> NoKeyMoves(v)
  {
    StringifyIsPrintedCanon(v);
    CanonMeaning(v);
    SortKeysWellFormed(v);
    SameTree(v);
    if StableJson(v) == Stringify(v) {
      PrintInjective(SortKeysDeep(v), Canon(v));
    }
  }

  // ----- what the two-pass text commits to -----

  /** `v` without its `__proto__` keys, at every level. */
  function Strip(v: Json): Json
    decreases v, 1
  {
    match v
    case Arr(items) => Arr(StripItems(items))
    case Obj(props) => Obj(DropProto(StripEach(props)))
    case _ => v
  }

  function StripItems(items: seq<Json>): (r: seq<Json>)
    ensures |r| == |items| && forall i :: 0 <= i < |items| ==> r[i] == Strip(items[i])
    decreases items, 0
  {
    if items == [] then [] else [Strip(items[0])] + StripItems(items[1..])
  }

  function StripEach(props: seq<Prop>): (r: seq<Prop>)
    ensures |r| == |props|
    ensures forall i :: 0 <= i < |props| ==> r[i] == Prop(props[i].key, Strip(props[i].value))
    decreases props, 0
  {
    if props == [] then [] else [Prop(props[0].key, Strip(props[0].value))] + StripEach(props[1..])
  }

  lemma DistinctCons(p: Prop, rest: seq<Prop>)
    ensures DistinctKeys([p] + rest) <==> DistinctKeys(rest) && forall q :: q in rest ==> q.key != p.key
  {
    var all := [p] + rest;
    assert all[0] == p && forall j :: 1 <= j < |all| ==> all[j] == rest[j - 1];
    if DistinctKeys(all) {
      forall q | q in rest ensures q.key != p.key {
        var i :| 0 <= i < |rest| && rest[i] == q;
        assert all[i + 1] == q;
      }
      assert forall i, j :: 0 <= i < j < |rest| ==> all[i + 1] == rest[i] && all[j + 1] == rest[j];
    }
  }

  lemma {:induction false} DropProtoDistinct(s: seq<Prop>)
    requires DistinctKeys(s)
    ensures DistinctKeys(DropProto(s))
  {
    if s != [] {
      assert s == [s[0]] + s[1..];
      hide DistinctKeys;
      DistinctCons(s[0], s[1..]);
      DropProtoDistinct(s[1..]);
      DropProtoElements(s[1..]);
      DistinctCons(s[0], DropProto(s[1..]));
    }
  }

  lemma {:induction false} DropProtoPointwise(p: seq<Prop>, q: seq<Prop>)
    requires |p| == |q|
    requires forall i :: 0 <= i < |p| ==> p[i].key == q[i].key && Denote(p[i].value) == Denote(q[i].value)
    ensures var a, b := DropProto(p), DropProto(q);
            |a| == |b| && forall i :: 0 <= i < |a| ==> a[i].key == b[i].key && Denote(a[i].value) == Denote(b[i].value)
  {
    if p != [] {
      DropProtoPointwise(p[1..], q[1..]);
    }
  }

  /** Rebuilding a list keeps the meaning of the list without `__proto__`. */
  lemma RebuiltMeaning(props: seq<Prop>)
    requires DistinctKeys(props)
    ensures DenoteProps(Rebuilt(props)) == DenoteProps(DropProto(props))
  {
    RebuiltElements(props);
    DropProtoElements(props);
    DropProtoDistinct(props);
    Sorting.SameMultiset(Rebuilt(props), DropProto(props));
    SamePropsDenote(Rebuilt(props), DropProto(props));
  }

  lemma {:induction false} StableMeaning(v: Json)
    requires WellFormed(v)
    ensures Denote(SortKeysDeep(v)) == Denote(Strip(v))
    decreases v
  {
    match v
    case Arr(items) =>
      SortKeysItemsShape(items);
      forall i | 0 <= i < |items| ensures Denote(SortKeysDeep(items[i])) == Denote(Strip(items[i])) {
        StableMeaning(items[i]);
      }
      assert DenoteItems(SortKeysItems(items)) == DenoteItems(StripItems(items));
    case Obj(props) =>
      forall i | 0 <= i < |props| ensures Denote(SortKeysDeep(props[i].value)) == Denote(Strip(props[i].value)) {
        StableMeaning(props[i].value);
      }
      StablePropsMeaning(props);
    case _ =>
  }

  lemma StablePropsMeaning(props: seq<Prop>)
    requires DistinctKeys(props)
    requires forall i :: 0 <= i < |props|
               ==> Denote(SortKeysDeep(props[i].value)) == Denote(Strip(props[i].value))
    ensures DenoteProps(Rebuilt(SortKeysProps(props))) == DenoteProps(DropProto(StripEach(props)))
  {
    SortKeysPropsShape(props);
    var ss, se := SortKeysProps(props), StripEach(props);
    RebuiltMeaning(ss);
    DropProtoPointwise(ss, se);
    DropProtoDistinct(se);
    PointwiseDenote(DropProto(ss), DropProto(se));
  }

  lemma {:induction false} StrippedMeaningFixesTree(v: Json, w: Json)
    requires WellFormed(v) && WellFormed(w)
    requires Denote(Strip(v)) == Denote(Strip(w))
    ensures SortKeysDeep(v) == SortKeysDeep(w)
    decreases v
  {
    match v
    case Arr(items) =>
      SortKeysItemsShape(items);
      SortKeysItemsShape(w.items);
      assert |StripItems(items)| == |StripItems(w.items)|;
      forall i | 0 <= i < |items| ensures SortKeysDeep(items[i]) == SortKeysDeep(w.items[i]) {
        assert DenoteItems(StripItems(items))[i] == DenoteItems(StripItems(w.items))[i];
        StrippedMeaningFixesTree(items[i], w.items[i]);
      }
      assert SortKeysItems(items) == SortKeysItems(w.items);
    case Obj(props) =>
      forall i, j | 0 <= i < |props| && 0 <= j < |w.props| && props[i].key == w.props[j].key != PROTO
        ensures SortKeysDeep(props[i].value) == SortKeysDeep(w.props[j].value)
      {
        StrippedField(props, i);
        StrippedField(w.props, j);
        StrippedMeaningFixesTree(props[i].value, w.props[j].value);
      }
      StrippedKeys(props, w.props);
      StrippedKeys(w.props, props);
      SameRebuilt(props, w.props);
    case _ =>
  }

  lemma StrippedField(props: seq<Prop>, i: int)
    requires DistinctKeys(props) && 0 <= i < |props| && props[i].key != PROTO
    ensures props[i].key in DenoteProps(DropProto(StripEach(props)))
    ensures DenoteProps(DropProto(StripEach(props)))[props[i].key] == Denote(Strip(props[i].value))
  {
    hide Strip, StripEach, DropProto, DenoteProps;
    var se := StripEach(props);
    DropProtoElements(se);
    DropProtoDistinct(se);
    assert se[i] in DropProto(se);
    var j :| 0 <= j < |DropProto(se)| && DropProto(se)[j] == se[i];
    DenoteAt(DropProto(se), j);
  }

  lemma KeptKey(props: seq<Prop>, k: Text)
    requires k in DenoteProps(DropProto(props))
    ensures exists j :: 0 <= j < |props| && props[j].key == k
  {
    DropProtoElements(props);
    var kept := DropProto(props);
    KeyOfField(kept, k);
    hide DropProto, DenoteProps;
    var n :| 0 <= n < |kept| && kept[n].key == k;
    assert kept[n] in props;
  }

  lemma StrippedKey(props: seq<Prop>, k: Text)
    requires k in DenoteProps(DropProto(StripEach(props)))
    ensures exists j :: 0 <= j < |props| && props[j].key == k
  {
    hide *;
    var se := StripEach(props);
    KeptKey(se, k);
    var j :| 0 <= j < |se| && se[j].key == k;
    assert se[j] == Prop(props[j].key, Strip(props[j].value));
  }

  lemma StrippedKeys(p: seq<Prop>, q: seq<Prop>)
    requires DistinctKeys(p) && DistinctKeys(q)
    requires DenoteProps(DropProto(StripEach(p))) == DenoteProps(DropProto(StripEach(q)))
    ensures forall i :: 0 <= i < |p| && p[i].key != PROTO ==> exists j :: 0 <= j < |q| && q[j].key == p[i].key
  {
    hide Strip, StripEach, DropProto, DenoteProps, DistinctKeys;
    forall i | 0 <= i < |p| && p[i].key != PROTO ensures exists j :: 0 <= j < |q| && q[j].key == p[i].key {
      StrippedField(p, i);
      StrippedKey(q, p[i].key);
    }
  }

  lemma SameRebuilt(p: seq<Prop>, q: seq<Prop>)
    requires DistinctKeys(p) && DistinctKeys(q)
    requires forall i :: 0 <= i < |p| && p[i].key != PROTO ==> exists j :: 0 <= j < |q| && q[j].key == p[i].key
    requires forall j :: 0 <= j < |q| && q[j].key != PROTO ==> exists i :: 0 <= i < |p| && p[i].key == q[j].key
    requires forall i, j :: 0 <= i < |p| && 0 <= j < |q| && p[i].key == q[j].key != PROTO
               ==> SortKeysDeep(p[i].value) == SortKeysDeep(q[j].value)
    ensures Rebuilt(SortKeysProps(p)) == Rebuilt(SortKeysProps(q))
  {
    SortKeysPropsShape(p);
    SortKeysPropsShape(q);
    hide SortKeysDeep, SortKeysProps;
    var a, b := SortedKept(SortKeysProps(p)), SortedKept(SortKeysProps(q));
    forall x | x in a ensures x in b {
      var i :| 0 <= i < |p| && SortKeysProps(p)[i] == x;
      var j :| 0 <= j < |q| && q[j].key == p[i].key;
      assert SortKeysProps(q)[j] == x;
    }
    forall x | x in b ensures x in a {
      var j :| 0 <= j < |q| && SortKeysProps(q)[j] == x;
      var i :| 0 <= i < |p| && p[i].key == q[j].key;
      assert SortKeysProps(p)[i] == x;
    }
    Sorting.SameMultiset(a, b);
    PropOrder();
    DistinctKeysSeparate(a);
    Sorting.SortedUnique(PropLe, a, b);
  }

  /** The sorted list without `__proto__`, before the keys are enumerated. */
  ghost function SortedKept(props: seq<Prop>): (r: seq<Prop>)
    requires DistinctKeys(props)
    ensures r == DropProto(Sorting.SortBy(PropLe, props))
    ensures Sorting.Sorted(PropLe, r) && DistinctKeys(r)
    ensures forall p :: p in r <==> p in props && p.key != PROTO
  {
    var sorted := Sorting.SortBy(PropLe, props);
    SortedByKey(props);
    DropProtoSorted(sorted);
    DropProtoElements(sorted);
    DropProto(sorted)
  }

  /** The two-pass text determines the value up to key order and `__proto__` keys, and no further. */
  lemma StableUnambiguous(v: Json, w: Json)
    requires WellFormed(v) && WellFormed(w)
    ensures StableJson(v) == StableJson(w) <==> Denote(Strip(v)) == Denote(Strip(w))
  {
    SortKeysWellFormed(v);
    SortKeysWellFormed(w);
    StableMeaning(v);
    StableMeaning(w);
    if StableJson(v) == StableJson(w) {
      PrintInjective(SortKeysDeep(v), SortKeysDeep(w));
    }
    if Denote(Strip(v)) == Denote(Strip(w)) {
      StrippedMeaningFixesTree(v, w);
    }
  }

  /** An object that differs from the empty object, and the writers' texts for it: the two-pass
      writer prints it as the empty object. */
  lemma ProtoKeyIsLost(n: Text)
    requires IsNumberText(n)
    ensures var v := Obj([Prop(PROTO, Num(n))]);
            && WellFormed(v) && !NoKeyMoves(v)
            && StableJson(v) == StableJson(Obj([]))
            && Stringify(v) != Stringify(Obj([]))
  {
    var v := Obj([Prop(PROTO, Num(n))]);
    StableUnambiguous(v, Obj([]));
    CanonicalUnambiguous(v, Obj([]));
    assert DropProto(StripEach([Prop(PROTO, Num(n))])) == [];
    DenoteAt(v.props, 0);
  }

  const KEY_9: Text := ['9' as int]
  const KEY_10: Text := ['1' as int, '0' as int]

  /** Index keys are printed in numeric order by one writer and in text order by the other. */
  lemma IndexKeysMove()
    ensures var v := Obj([Prop(KEY_9, Null), Prop(KEY_10, Null)]);
            WellFormed(v) && StableJson(v) != Stringify(v)
  {
    var props := [Prop(KEY_9, Null), Prop(KEY_10, Null)];
    assert Decimal(9) == KEY_9 && Decimal(1) == ['1' as int] && Decimal(10) == KEY_10;
    DecimalRoundTrip(9);
    DecimalRoundTrip(10);
    assert PropLe(props[1], props[0]) && !EnumerationLe(props[1], props[0]);
    WritersAgree(Obj(props));
  }
}
