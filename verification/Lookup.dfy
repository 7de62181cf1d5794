/** Dictionaries built from lists, as the comprehension `{key(item): item for item in items}`. */
module Lookup {
  import opened Sequencing

  /** A later item replaces an earlier one with its key. */
  function ById<T, K(==)>(items: seq<T>, key: T -> K): (m: map<K, T>)
    ensures forall k :: k in m ==> m[k] in items && key(m[k]) == k
    ensures forall i :: 0 <= i < |items| ==> key(items[i]) in m
  {
    if items == [] then map[]
    else
      var last := |items| - 1;
      ById(items[..last], key)[key(items[last]) := items[last]]
  }

  predicate DistinctKeys<T, K(==)>(items: seq<T>, key: T -> K) {
    forall i, j :: 0 <= i < j < |items| ==> key(items[i]) != key(items[j])
  }

  /** With distinct keys nothing is replaced. */
  lemma DistinctKeysAreKept<T, K>(items: seq<T>, key: T -> K, i: nat)
    requires DistinctKeys(items, key) && i < |items|
    ensures ById(items, key)[key(items[i])] == items[i]
  {
    var j :| 0 <= j < |items| && items[j] == ById(items, key)[key(items[i])];
    assert i != j ==> key(items[i]) != key(items[j]);
  }

  /** With distinct keys the order of the items does not matter. */
  lemma ReorderedById<T(!new), K(!new)>(items: seq<T>, reordered: seq<T>, key: T -> K)
    requires DistinctKeys(items, key) && forall x :: x in items <==> x in reordered
    ensures ById(items, key) == ById(reordered, key)
  {
    var m, n := ById(items, key), ById(reordered, key);
    forall k: K ensures (k in m <==> k in n) && (k in m && k in n ==> m[k] == n[k]) {
      if k in m {
        var i :| 0 <= i < |reordered| && reordered[i] == m[k];
        assert key(reordered[i]) in n;
      }
      if k in n {
        var i :| 0 <= i < |items| && items[i] == n[k];
        DistinctKeysAreKept(items, key, i);
      }
    }
  }

  function Keys<T>(items: seq<T>, key: T -> string): set<string> {
    set i | 0 <= i < |items| :: key(items[i])
  }

  /** `len({key(item) for item in items}) == len(items)` says the keys are distinct. */
  lemma DistinctKeysByCount<T>(items: seq<T>, key: T -> string)
    ensures |Keys(items, key)| == |items| <==> DistinctKeys(items, key)
  {
    var ids := seq(|items|, i requires 0 <= i < |items| => key(items[i]));
    DistinctByCount(ids);
    forall x ensures x in Keys(items, key) <==> x in ids {
      if x in Keys(items, key) {
        var i :| 0 <= i < |items| && key(items[i]) == x;
        assert ids[i] == x;
      }
    }
    assert Keys(items, key) == set x | x in ids;
    assert Distinct(ids) <==> DistinctKeys(items, key) by {
      assert forall i :: 0 <= i < |ids| ==> ids[i] == key(items[i]);
    }
  }
}
