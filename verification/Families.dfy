/** applicability/conflicts.js: records of one statute are counted once. */
module Families {
  import opened Texts
  import opened OrderedMaps
  import opened Sorting
  import QuoteText
  import opened Evidence

  datatype Nexus = Established | ServesCustomers | ProcessesResidents | UnknownNexus

  /** A catalogue record, as far as applicability reads it. A jurisdiction outside the vocabulary is `None`. */
  datatype LawRecord = LawRecord(
    id: Option<QuoteText.Str>, jurisdiction: Option<Code>, sub: Option<Text>,
    sectors: seq<Text>, subSectors: seq<Text>, tags: seq<Text>, requiredActivity: seq<Text>,
    nexus: seq<Nexus>, obligations: nat, act: Option<QuoteText.Str>)

  /** The citation with its case and spacing normalised; else the id; else the one empty key. */
  function FamilyKey(casing: QuoteText.Casing, r: LawRecord): QuoteText.Str {
    if r.act.Some? && QuoteText.Trim(r.act.value) != [] then
      QuoteText.Collapse(QuoteText.Lower(casing, QuoteText.Trim(r.act.value)))
    else if r.id.Some? then r.id.value
    else []
  }

  function KeysOf<R, K>(records: seq<R>, key: R -> K): seq<K> {
    seq(|records|, i requires 0 <= i < |records| => key(records[i]))
  }

  /** The records of one family, in input order. */
  function WithKey<R, K(==)>(records: seq<R>, key: R -> K, k: K): seq<R> {
    if records == [] then []
    else
      var last := records[|records| - 1];
      WithKey(records[..|records| - 1], key, k) + if key(last) == k then [last] else []
  }

  datatype Group<R, K> = Group(key: K, records: seq<R>)

  function GroupView<R, K(==)>(records: seq<R>, key: R -> K): K -> seq<R> {
    k => WithKey(records, key, k)
  }

  /** The families in the order their keys are first seen. */
  function Groups<R, K(==,!new)>(records: seq<R>, key: R -> K): seq<Group<R, K>> {
    var order := Distinct(KeysOf(records, key));
    seq(|order|, i requires 0 <= i < |order| => Group(order[i], WithKey(records, key, order[i])))
  }

  lemma WithKeyAppend<R, K>(records: seq<R>, r: R, key: R -> K, k: K)
    ensures key(r) == k ==> WithKey(records + [r], key, k) == WithKey(records, key, k) + [r]
    ensures key(r) != k ==> WithKey(records + [r], key, k) == WithKey(records, key, k)
  {
    assert (records + [r])[..|records|] == records;
  }

  lemma KeysAppend<R, K(!new)>(records: seq<R>, r: R, key: R -> K)
    ensures Distinct(KeysOf(records + [r], key)) == Grown(Distinct(KeysOf(records, key)), key(r))
  {
    assert KeysOf(records + [r], key) == KeysOf(records, key) + [key(r)];
    DistinctAppend(KeysOf(records, key), key(r));
  }

  lemma GroupOthers<R, K(!new)>(records: seq<R>, r: R, key: R -> K)
    ensures SameBut(GroupView(records, key), GroupView(records + [r], key), key(r))
  {
    forall k | k != key(r) ensures WithKey(records + [r], key, k) == WithKey(records, key, k) {
      WithKeyAppend(records, r, key, k);
    }
  }

  lemma {:induction false} UnseenKey<R, K(!new)>(records: seq<R>, key: R -> K, k: K)
    requires k !in KeysOf(records, key)
    ensures WithKey(records, key, k) == []
  {
    if records != [] {
      var init, last := records[..|records| - 1], records[|records| - 1];
      assert KeysOf(records, key)[|records| - 1] == key(last);
      assert KeysOf(init, key) == KeysOf(records, key)[..|records| - 1];
      UnseenKey(init, key, k);
    }
  }

  method DedupeFamilies<R, K(==,!new)>(records: seq<R>, key: R -> K) returns (groups: seq<Group<R, K>>)
    ensures groups == Groups(records, key)
  {
    var order: seq<K>, held: map<K, seq<R>> := [], map[];
    hide Distinct, KeysOf, WithKey, Lists, Agrees, SameBut, Grown;
    EmptyLists<K, seq<R>>();
    EmptyAgrees(GroupView<R, K>([], key));
    NoKeys(key);
    for i := 0 to |records|
      invariant order == Distinct(KeysOf(records[..i], key)) && Lists(order, held) && Agrees(held, GroupView(records[..i], key))
    {
      var r := records[i];
      ghost var seen := records[..i];
      assert records[..i + 1] == seen + [r];
      KeysAppend(seen, r, key);
      GroupOthers(seen, r, key);
      WithKeyAppend(seen, r, key, key(r));
      MapStep(order, held, key(r), GroupView(seen, key), GroupView(seen + [r], key));
      Known(order, held, key(r), GroupView(seen, key));
      NewKey(seen, key, key(r));
      var group := if key(r) in held then held[key(r)] else [];
      held := held[key(r) := group + [r]];
      order := Grown(order, key(r));
    }
    assert records[..|records|] == records;
    KnownAll(order, held, GroupView(records, key));
    groups := seq(|order|, i requires 0 <= i < |order| => Group(order[i], held[order[i]]));
  }

  lemma NoKeys<R, K(!new)>(key: R -> K)
    ensures Distinct(KeysOf<R, K>([], key)) == []
  {
  }

  lemma NewKey<R, K(!new)>(records: seq<R>, key: R -> K, k: K)
    ensures k !in Distinct(KeysOf(records, key)) ==> WithKey(records, key, k) == []
  {
    if k !in KeysOf(records, key) {
      UnseenKey(records, key, k);
    }
  }

  // ----- the groups partition the records -----

  lemma {:induction false} WithKeyHas<R(!new), K>(records: seq<R>, key: R -> K, k: K)
    ensures forall r :: r in WithKey(records, key, k) <==> r in records && key(r) == k
  {
    if records != [] {
      var init, last := records[..|records| - 1], records[|records| - 1];
      WithKeyHas(init, key, k);
      assert records == init + [last];
    }
  }

  function Members<R, K>(groups: seq<Group<R, K>>): seq<R> {
    if groups == [] then [] else groups[0].records + Members(groups[1..])
  }

  function GroupsIn<R, K(==)>(order: seq<K>, records: seq<R>, key: R -> K): seq<Group<R, K>> {
    seq(|order|, i requires 0 <= i < |order| => Group(order[i], WithKey(records, key, order[i])))
  }

  lemma GroupsStep<R, K>(order: seq<K>, records: seq<R>, key: R -> K)
    requires order != []
    ensures Members(GroupsIn(order, records, key)) == WithKey(records, key, order[0]) + Members(GroupsIn(order[1..], records, key))
  {
    hide WithKey;
    assert GroupsIn(order, records, key)[1..] == GroupsIn(order[1..], records, key);
  }

  /** The members of all groups, with their number of occurrences. */
  function Held<R, K(==)>(order: seq<K>, records: seq<R>, key: R -> K): multiset<R> {
    multiset(Members(GroupsIn(order, records, key)))
  }

  lemma HeldStep<R, K>(order: seq<K>, records: seq<R>, key: R -> K)
    requires order != []
    ensures Held(order, records, key) == multiset(WithKey(records, key, order[0])) + Held(order[1..], records, key)
  {
    GroupsStep(order, records, key);
    hide WithKey, Members, GroupsIn;
  }

  lemma HeldNone<R, K>(records: seq<R>, key: R -> K)
    ensures Held([], records, key) == multiset{}
  {
  }

  lemma WithKeyMore<R, K(!new)>(records: seq<R>, r: R, key: R -> K, k: K)
    ensures multiset(WithKey(records + [r], key, k))
         == multiset(WithKey(records, key, k)) + if key(r) == k then multiset{r} else multiset{}
  {
    WithKeyAppend(records, r, key, k);
    hide WithKey;
  }

  /** One more record adds itself to the members exactly once, when its key is listed once. */
  lemma {:induction false} MembersAppend<R, K(!new)>(order: seq<K>, records: seq<R>, r: R, key: R -> K)
    requires forall i, j :: 0 <= i < j < |order| ==> order[i] != order[j]
    ensures Held(order, records + [r], key)
         == Held(order, records, key) + if key(r) in order then multiset{r} else multiset{}
  {
    hide Held, WithKey;
    if order == [] {
      HeldNone(records, key);
      HeldNone(records + [r], key);
    } else {
      MembersAppend(order[1..], records, r, key);
      WithKeyMore(records, r, key, order[0]);
      HeldStep(order, records, key);
      HeldStep(order, records + [r], key);
      assert key(r) in order <==> key(r) == order[0] || key(r) in order[1..];
    }
  }

  lemma {:induction false} MembersOfMore<R, K(!new)>(order: seq<K>, k: K, records: seq<R>, key: R -> K)
    ensures Held(order + [k], records, key) == Held(order, records, key) + multiset(WithKey(records, key, k))
  {
    hide Held, WithKey;
    HeldStep(order + [k], records, key);
    if order == [] {
      HeldNone(records, key);
      assert (order + [k])[1..] == [];
    } else {
      MembersOfMore(order[1..], k, records, key);
      HeldStep(order, records, key);
      assert (order + [k])[1..] == order[1..] + [k];
    }
  }

  /** Grouping by the keys met so far holds each record once. */
  lemma {:induction false} HeldAll<R, K(!new)>(records: seq<R>, key: R -> K)
    ensures Held(Distinct(KeysOf(records, key)), records, key) == multiset(records)
  {
    hide Held, WithKey, Distinct, KeysOf;
    if records == [] {
      NoKeys(key);
      HeldNone(records, key);
    } else {
      var init, last := records[..|records| - 1], records[|records| - 1];
      assert records == init + [last];
      HeldAll(init, key);
      HeldOneMore(init, last, key);
    }
  }

  lemma HeldOneMore<R, K(!new)>(records: seq<R>, r: R, key: R -> K)
    ensures Held(Distinct(KeysOf(records + [r], key)), records + [r], key)
         == Held(Distinct(KeysOf(records, key)), records, key) + multiset{r}
  {
    hide Held, WithKey, KeysOf;
    var order := Distinct(KeysOf(records, key));
    KeysAppend(records, r, key);
    MembersAppend(order, records, r, key);
    if key(r) !in order {
      MembersOfMore(order, key(r), records + [r], key);
      NewKey(records, key, key(r));
      WithKeyMore(records, r, key, key(r));
      assert Grown(order, key(r)) == order + [key(r)];
    }
    hide Distinct;
  }

  /** No record is dropped or repeated: together the groups hold exactly the input. */
  lemma GroupsPartition<R, K(!new)>(records: seq<R>, key: R -> K)
    ensures multiset(Members(Groups(records, key))) == multiset(records)
  {
    HeldAll(records, key);
    var order := Distinct(KeysOf(records, key));
    hide WithKey, Members, Distinct, KeysOf;
    assert Groups(records, key) == GroupsIn(order, records, key);
  }

  /** Each group is the records of its own key, and no two groups share a key. */
  lemma GroupsByKey<R(!new), K(!new)>(records: seq<R>, key: R -> K)
    ensures var g := Groups(records, key);
            && (forall i, j :: 0 <= i < j < |g| ==> g[i].key != g[j].key)
            && (forall i, r :: 0 <= i < |g| ==> (r in g[i].records <==> r in records && key(r) == g[i].key))
            && (forall i :: 0 <= i < |g| ==> g[i].records != [])
  {
    var order := Distinct(KeysOf(records, key));
    forall i | 0 <= i < |order|
      ensures WithKey(records, key, order[i]) != []
      ensures forall r :: r in WithKey(records, key, order[i]) <==> r in records && key(r) == order[i]
    {
      WithKeyHas(records, key, order[i]);
      var keys := KeysOf(records, key);
      assert order[i] in keys;
      var n :| 0 <= n < |keys| && keys[n] == order[i];
      assert records[n] in WithKey(records, key, order[i]);
    }
  }

  /** Fewer records never make more families. */
  lemma FamilyCountMonotone<R(!new), K(!new)>(part: seq<R>, whole: seq<R>, key: R -> K)
    requires forall r :: r in part ==> r in whole
    ensures |Groups(part, key)| <= |Groups(whole, key)|
  {
    var a, b := Distinct(KeysOf(part, key)), Distinct(KeysOf(whole, key));
    forall k | k in a ensures k in b {
      var keys := KeysOf(part, key);
      var i :| 0 <= i < |keys| && keys[i] == k;
      assert part[i] in whole;
      var j :| 0 <= j < |whole| && whole[j] == part[i];
      assert KeysOf(whole, key)[j] == k;
    }
    DistinctCount(a);
    DistinctCount(b);
    SubsetCount(set k | k in a, set k | k in b);
  }

}
