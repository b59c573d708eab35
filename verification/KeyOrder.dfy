/** What rebuilding an object with sorted keys does to its properties.

    A rebuilt object lists array-index keys first, in numeric order, and loses a key named `__proto__`.
    Here is when that is the sorted list itself, and what remains of the meaning when it is not. */
module KeyOrder {
  import opened Texts
  import opened JsonText
  import opened Canonical
  import Sorting

  /** No object in `v` has a key that the two-pass writer would lose or put elsewhere: no `__proto__`,
      and among keys in text order each array index comes after only smaller array indices. */
  predicate NoKeyMoves(v: Json) {
    match v
    case Arr(items) => forall i :: 0 <= i < |items| ==> NoKeyMoves(items[i])
    case Obj(props) =>
      && KeysStay(props)
      && forall i :: 0 <= i < |props| ==> NoKeyMoves(props[i].value)
    case _ => true
  }

  predicate KeysStay(props: seq<Prop>) {
    && (forall i :: 0 <= i < |props| ==> props[i].key != PROTO)
    && (forall i, j :: 0 <= i < |props| && 0 <= j < |props| && PropLe(props[i], props[j])
          ==> EnumerationLe(props[i], props[j]))
  }

  lemma EnumerationOrder()
    ensures Sorting.TotalPreorder(EnumerationLe)
  {
  }

  // ----- dropping `__proto__` -----

  lemma {:induction false} DropProtoElements(s: seq<Prop>)
    ensures forall p :: p in DropProto(s) <==> p in s && p.key != PROTO
    ensures |DropProto(s)| <= |s|
    ensures |DropProto(s)| == |s| ==> DropProto(s) == s
    ensures (forall i :: 0 <= i < |s| ==> s[i].key != PROTO) ==> DropProto(s) == s
  {
    if s != [] {
      DropProtoElements(s[1..]);
      assert s == [s[0]] + s[1..];
      assert forall p :: p in s <==> p == s[0] || p in s[1..];
      assert (forall i :: 0 <= i < |s| ==> s[i].key != PROTO) ==> forall i :: 0 <= i < |s[1..]| ==> s[1..][i].key != PROTO;
    }
  }

  lemma {:induction false} DropProtoSorted(s: seq<Prop>)
    requires Sorting.Sorted(PropLe, s) && DistinctKeys(s)
    ensures Sorting.Sorted(PropLe, DropProto(s)) && DistinctKeys(DropProto(s))
  {
    if s != [] {
      DropProtoSorted(s[1..]);
      DropProtoElements(s[1..]);
      var r := DropProto(s[1..]);
      hide PropLe;
      forall j | 0 <= j < |r| ensures PropLe(s[0], r[j]) && s[0].key != r[j].key {
        assert r[j] in s[1..];
      }
    }
  }

  // ----- agreement of the two writers -----

  lemma SortKeysPropsShape(props: seq<Prop>)
    ensures |SortKeysProps(props)| == |props|
    ensures forall i :: 0 <= i < |props| ==> SortKeysProps(props)[i] == Prop(props[i].key, SortKeysDeep(props[i].value))
  {
  }

  lemma SortKeysItemsShape(items: seq<Json>)
    ensures |SortKeysItems(items)| == |items|
    ensures forall i :: 0 <= i < |items| ==> SortKeysItems(items)[i] == SortKeysDeep(items[i])
  {
  }

  /** The property list the two-pass writer prints: sorted, without `__proto__`, enumerated. */
  function Rebuilt(props: seq<Prop>): seq<Prop> {
    OwnKeyOrder(DropProto(Sorting.SortBy(PropLe, props)))
  }

  /** `Rebuilt` only rearranges the properties other than `__proto__`. */
  lemma RebuiltElements(props: seq<Prop>)
    requires DistinctKeys(props)
    ensures DistinctKeys(Rebuilt(props))
    ensures forall p :: p in Rebuilt(props) <==> p in props && p.key != PROTO
    ensures |Rebuilt(props)| <= |props|
    ensures |Rebuilt(props)| == |props| ==> forall i :: 0 <= i < |props| ==> props[i].key != PROTO
  {
    var sorted := Sorting.SortBy(PropLe, props);
    SortedByKey(props);
    DropProtoSorted(sorted);
    DropProtoElements(sorted);
    var kept := DropProto(sorted);
    Sorting.SortPermutes(EnumerationLe, kept);
    Sorting.SameElements(kept, OwnKeyOrder(kept));
    DistinctPermuted(kept, OwnKeyOrder(kept));
    if |Rebuilt(props)| == |props| {
      forall i | 0 <= i < |props| ensures props[i].key != PROTO { assert props[i] in kept; }
    }
  }

  lemma {:induction false} SortKeysWellFormed(v: Json)
    requires WellFormed(v)
    ensures WellFormed(SortKeysDeep(v))
    decreases v
  {
    match v
    case Arr(items) =>
      SortKeysItemsShape(items);
      forall i | 0 <= i < |items| ensures WellFormed(SortKeysDeep(items[i])) { SortKeysWellFormed(items[i]); }
    case Obj(props) =>
      SortKeysPropsShape(props);
      var ss := SortKeysProps(props);
      forall i | 0 <= i < |props| ensures WellFormed(ss[i].value) { SortKeysWellFormed(props[i].value); }
      RebuiltElements(ss);
      forall i | 0 <= i < |Rebuilt(ss)| ensures WellFormed(Rebuilt(ss)[i].value) {
        assert Rebuilt(ss)[i] in ss;
      }
    case _ =>
  }

  /** When every key stays, rebuilding the list is sorting it. */
  lemma StayingKeys(props: seq<Prop>)
    requires DistinctKeys(props) && KeysStay(props)
    ensures Rebuilt(props) == Sorting.SortBy(PropLe, props)
  {
    var sorted := Sorting.SortBy(PropLe, props);
    SortedByKey(props);
    DropProtoElements(sorted);
    hide Sorting.SortBy, DropProto, TextLe, IsIndex;
    forall i | 0 <= i < |sorted| ensures sorted[i].key != PROTO { assert sorted[i] in props; }
    forall i, j | 0 <= i < j < |sorted| ensures EnumerationLe(sorted[i], sorted[j]) {
      assert sorted[i] in props && sorted[j] in props && PropLe(sorted[i], sorted[j]);
    }
    Sorting.SortIdentity(EnumerationLe, sorted);
  }

  lemma BothWays(p: Prop, q: Prop)
    requires PropLe(p, q) && PropLe(q, p)
    ensures p.key == q.key
  {
    TextLeAntisymmetric(p.key, q.key);
  }

  lemma Itself(p: Prop)
    ensures EnumerationLe(p, p)
  {
  }

  /** A list sorted both ways: text order among its properties implies enumeration order. */
  lemma BothSorted(cs: seq<Prop>, r: seq<Prop>)
    requires DistinctKeys(r) && forall p :: p in cs ==> p in r
    requires Sorting.Sorted(PropLe, r) && Sorting.Sorted(EnumerationLe, r)
    ensures forall p, q :: p in cs && q in cs && PropLe(p, q) ==> EnumerationLe(p, q)
  {
    hide PropLe, EnumerationLe;
    forall p, q | p in cs && q in cs && PropLe(p, q) ensures EnumerationLe(p, q) {
      assert p in r && q in r;
      var a :| 0 <= a < |r| && r[a] == p;
      var b :| 0 <= b < |r| && r[b] == q;
      if b < a {
        assert PropLe(q, p);
        BothWays(p, q);
      } else if a == b {
        Itself(p);
      }
    }
  }

  lemma RebuiltEnumerated(props: seq<Prop>)
    ensures Sorting.Sorted(EnumerationLe, Rebuilt(props))
  {
    EnumerationOrder();
    Sorting.SortSorts(EnumerationLe, DropProto(Sorting.SortBy(PropLe, props)));
  }

  lemma SameByKey(ss: seq<Prop>, cs: seq<Prop>)
    requires DistinctKeys(cs) && |ss| == |cs|
    requires forall i :: 0 <= i < |cs| ==> ss[i].key == cs[i].key
    requires forall p :: p in ss ==> p in cs
    ensures ss == cs
  {
    forall i | 0 <= i < |cs| ensures ss[i] == cs[i] {
      assert ss[i] in cs;
      var j :| 0 <= j < |cs| && cs[j] == ss[i];
    }
  }

  /** When the rebuilt list equals the sorted one, every key stayed. */
  lemma RebuiltMeansStaying(ss: seq<Prop>, cs: seq<Prop>)
    requires DistinctKeys(cs) && DistinctKeys(ss)
    requires |ss| == |cs| && forall i :: 0 <= i < |cs| ==> ss[i].key == cs[i].key
    requires Rebuilt(ss) == Sorting.SortBy(PropLe, cs)
    ensures KeysStay(cs) && ss == cs
  {
    SortedByKey(cs);
    RebuiltElements(ss);
    RebuiltEnumerated(ss);
    SameByKey(ss, cs);
    BothSorted(cs, Rebuilt(ss));
  }

  lemma KeysStayPointwise(p: seq<Prop>, q: seq<Prop>)
    requires |p| == |q| && forall i :: 0 <= i < |p| ==> p[i].key == q[i].key
    requires KeysStay(p)
    ensures KeysStay(q)
  {
    forall i, j | 0 <= i < |q| && 0 <= j < |q| && PropLe(q[i], q[j]) ensures EnumerationLe(q[i], q[j]) {
      assert PropLe(p[i], p[j]);
    }
  }
}
