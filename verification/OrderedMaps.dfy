/** Maps that remember insertion order.

    The runtime's objects and Maps do: a key keeps the place where it was first set. Such a map is held
    as the keys in order of first appearance and a value for each key. */
module OrderedMaps {
  /** Each element at its first appearance. */
  function Distinct<T(==,!new)>(s: seq<T>): (r: seq<T>)
    ensures forall x :: x in r <==> x in s
    ensures forall i, j :: 0 <= i < j < |r| ==> r[i] != r[j]
  {
    if s == [] then []
    else
      var init, last := s[..|s| - 1], s[|s| - 1];
      assert s == init + [last];
      Distinct(init) + if last in init then [] else [last]
  }

  lemma DistinctAppend<T(!new)>(s: seq<T>, x: T)
    ensures Distinct(s + [x]) == if x in s then Distinct(s) else Distinct(s) + [x]
  {
    assert (s + [x])[..|s|] == s;
  }

  function Grown<T(==)>(order: seq<T>, k: T): seq<T> {
    if k in order then order else order + [k]
  }

  ghost predicate Lists<K(!new), V>(order: seq<K>, m: map<K, V>) {
    forall k :: k in m <==> k in order
  }

  ghost predicate Agrees<K, V>(m: map<K, V>, want: K -> V) {
    forall k :: k in m ==> m[k] == want(k)
  }

  ghost predicate SameBut<K(!new), V>(f: K -> V, g: K -> V, k: K) {
    forall c :: c != k ==> f(c) == g(c)
  }

  /** Setting one key of a map whose keys are listed in `order` and whose values are `want`. */
  lemma MapStep<K(!new), V>(order: seq<K>, m: map<K, V>, k: K, want: K -> V, after: K -> V)
    requires Lists(order, m) && Agrees(m, want) && SameBut(want, after, k)
    ensures Lists(Grown(order, k), m[k := after(k)])
    ensures Agrees(m[k := after(k)], after)
  {
    assert forall c :: c in Grown(order, k) <==> c in order || c == k;
  }

  lemma EmptyLists<K(!new), V>()
    ensures Lists<K, V>([], map[])
  {
  }

  lemma EmptyAgrees<K, V>(want: K -> V)
    ensures Agrees(map[], want)
  {
  }

  lemma Known<K(!new), V>(order: seq<K>, m: map<K, V>, k: K, want: K -> V)
    requires Lists(order, m) && Agrees(m, want)
    ensures k in m <==> k in order
    ensures k in m ==> m[k] == want(k)
  {
  }

  lemma KnownAll<K(!new), V>(order: seq<K>, m: map<K, V>, want: K -> V)
    requires Lists(order, m) && Agrees(m, want)
    ensures forall i :: 0 <= i < |order| ==> order[i] in m && m[order[i]] == want(order[i])
  {
  }
}
