/** Sorting by an integer key, and the monotone-offset check both episode validators make. */
module Sequencing {

  predicate SortedBy<T>(s: seq<T>, key: T -> int) {
    forall i, j :: 0 <= i < j < |s| ==> key(s[i]) <= key(s[j])
  }

  /** `sorted(items, key=key)`: insertion from the left, so equal keys keep their order. */
  function SortBy<T(==,!new)>(items: seq<T>, key: T -> int): (s: seq<T>)
    ensures SortedBy(s, key) && multiset(s) == multiset(items) && |s| == |items|
    ensures forall x :: x in s <==> x in items
  {
    if items == [] then []
    else
      var last := items[|items| - 1];
      var init := items[..|items| - 1];
      assert items == init + [last];
      InsertBy(SortBy(init, key), last, key)
  }

  function InsertBy<T(==,!new)>(s: seq<T>, x: T, key: T -> int): (r: seq<T>)
    requires SortedBy(s, key)
    ensures SortedBy(r, key) && multiset(r) == multiset(s) + multiset{x} && |r| == |s| + 1
    ensures forall y :: y in r <==> y in s || y == x
  {
    if s == [] || key(s[|s| - 1]) <= key(x) then s + [x]
    else
      var last := s[|s| - 1];
      var init := s[..|s| - 1];
      assert s == init + [last];
      var r := InsertBy(init, x, key);
      SmallerGoesBeforeLast(init, r, x, last, key);
      r + [last]
  }

  lemma SmallerGoesBeforeLast<T(!new)>(init: seq<T>, r: seq<T>, x: T, last: T, key: T -> int)
    requires SortedBy(init + [last], key) && SortedBy(r, key) && key(x) < key(last)
    requires forall y :: y in r <==> y in init || y == x
    ensures SortedBy(r + [last], key)
  {
    forall i | 0 <= i < |r| ensures key(r[i]) <= key(last) {
      assert r[i] in r;
      if r[i] in init {
        var j :| 0 <= j < |init| && init[j] == r[i];
        assert key((init + [last])[j]) <= key((init + [last])[|init|]);
      }
    }
  }

  predicate Distinct<T(==)>(s: seq<T>) {
    forall i, j :: 0 <= i < j < |s| ==> s[i] != s[j]
  }

  lemma {:induction false} DistinctMeansOnce<T>(s: seq<T>)
    ensures Distinct(s) <==> forall x :: x in s ==> multiset(s)[x] == 1
  {
    if s != [] {
      var last := |s| - 1;
      var init, x := s[..last], s[last];
      assert s == init + [x];
      DistinctMeansOnce(init);
      if x in init {
        var i :| 0 <= i < last && init[i] == x;
        assert s[i] == s[last];
        assert multiset(s)[x] == multiset(init)[x] + 1 > 1 && x in s;
      } else {
        assert multiset(init)[x] == 0;
        if Distinct(init) {
          forall i, j | 0 <= i < j < |s| ensures s[i] != s[j] {
            assert j == last ==> init[i] in init;
          }
        } else {
          var y :| y in init && multiset(init)[y] != 1;
          assert y in s && multiset(s)[y] == multiset(init)[y];
          var i, j :| 0 <= i < j < |init| && init[i] == init[j];
          assert s[i] == s[j];
        }
      }
    }
  }

  lemma SortKeepsDistinct<T(!new)>(items: seq<T>, key: T -> int)
    ensures Distinct(SortBy(items, key)) <==> Distinct(items)
  {
    DistinctMeansOnce(items);
    DistinctMeansOnce(SortBy(items, key));
  }

  /** Sequences are unique, and a later sequence never has an earlier offset. */
  predicate InOrder<T>(x: T, y: T, sequence: T -> int, offset: T -> int) {
    && sequence(x) != sequence(y)
    && (sequence(x) < sequence(y) ==> offset(x) <= offset(y))
    && (sequence(y) < sequence(x) ==> offset(y) <= offset(x))
  }

  predicate AllInOrder<T>(items: seq<T>, sequence: T -> int, offset: T -> int) {
    forall i, j :: 0 <= i < j < |items| ==> InOrder(items[i], items[j], sequence, offset)
  }

  lemma InOrderByMembers<T>(items: seq<T>, sequence: T -> int, offset: T -> int)
    ensures AllInOrder(items, sequence, offset) <==>
              && Distinct(items)
              && forall x, y :: x in items && y in items && x != y ==> InOrder(x, y, sequence, offset)
  {
    if AllInOrder(items, sequence, offset) {
      forall i, j | 0 <= i < j < |items| ensures items[i] != items[j] {
        assert InOrder(items[i], items[j], sequence, offset);
      }
      forall x, y | x in items && y in items && x != y ensures InOrder(x, y, sequence, offset) {
        var i :| 0 <= i < |items| && items[i] == x;
        var j :| 0 <= j < |items| && items[j] == y;
        assert if i < j then InOrder(items[i], items[j], sequence, offset)
               else InOrder(items[j], items[i], sequence, offset);
      }
    }
  }

  /** Checking the sorted list is checking the list. */
  lemma SortKeepsOrderRule<T(!new)>(items: seq<T>, sequence: T -> int, offset: T -> int)
    ensures AllInOrder(SortBy(items, sequence), sequence, offset) <==> AllInOrder(items, sequence, offset)
  {
    SortKeepsDistinct(items, sequence);
    InOrderByMembers(items, sequence, offset);
    InOrderByMembers(SortBy(items, sequence), sequence, offset);
  }

  /** What the loop knows after `i` items in sequence order. */
  ghost predicate PrefixChecked<T>(s: seq<T>, i: nat, sequences: set<int>, lastOffset: int,
                                   sequence: T -> int, offset: T -> int)
    requires i <= |s|
  {
    && (forall k :: 0 <= k < i ==> sequence(s[k]) in sequences)
    && (forall q :: q in sequences ==> exists k :: 0 <= k < i && sequence(s[k]) == q)
    && lastOffset == (if i == 0 then -1 else offset(s[i - 1]))
    && forall j, k :: 0 <= j < k < i ==> InOrder(s[j], s[k], sequence, offset)
  }

  lemma NextInOrder<T>(s: seq<T>, i: nat, sequences: set<int>, lastOffset: int, sequence: T -> int, offset: T -> int)
    requires i < |s| && SortedBy(s, sequence) && PrefixChecked(s, i, sequences, lastOffset, sequence, offset)
    requires sequence(s[i]) !in sequences && lastOffset <= offset(s[i])
    ensures PrefixChecked(s, i + 1, sequences + {sequence(s[i])}, offset(s[i]), sequence, offset)
  {
    forall j | 0 <= j < i ensures InOrder(s[j], s[i], sequence, offset) {
      assert sequence(s[j]) in sequences;
      assert j < i - 1 ==> InOrder(s[j], s[i - 1], sequence, offset);
    }
  }

  /** The loop of both validators: one pass in sequence order with a set and the last offset. */
  method CheckOrder<T(==,!new)>(items: seq<T>, sequence: T -> int, offset: T -> int) returns (ok: bool)
    requires forall x :: x in items ==> offset(x) >= 0
    ensures ok <==> AllInOrder(items, sequence, offset)
  {
    SortKeepsOrderRule(items, sequence, offset);
    var s := SortBy(items, sequence);
    assert forall i :: 0 <= i < |s| ==> s[i] in items;
    hide SortBy;
    var sequences: set<int> := {};
    var lastOffset := -1;
    for i := 0 to |s|
      invariant PrefixChecked(s, i, sequences, lastOffset, sequence, offset)
    {
      if sequence(s[i]) in sequences {
        var k :| 0 <= k < i && sequence(s[k]) == sequence(s[i]);
        assert !InOrder(s[k], s[i], sequence, offset);
        return false;
      }
      if offset(s[i]) < lastOffset {
        assert !InOrder(s[i - 1], s[i], sequence, offset);
        return false;
      }
      NextInOrder(s, i, sequences, lastOffset, sequence, offset);
      sequences := sequences + {sequence(s[i])};
      lastOffset := offset(s[i]);
    }
    return true;
  }

  /** `len({key(x) for x in items}) == len(items)`. */
  lemma {:induction false} DistinctByCount<T>(ids: seq<T>)
    ensures |set x | x in ids| == |ids| <==> Distinct(ids)
    ensures |set x | x in ids| <= |ids|
  {
    if ids != [] {
      var last := |ids| - 1;
      var init, x := ids[..last], ids[last];
      DistinctByCount(init);
      assert ids == init + [x];
      assert (set y | y in ids) == (set y | y in init) + {x};
      if x in init {
        var i :| 0 <= i < last && init[i] == x;
        assert ids[i] == ids[last];
        assert (set y | y in ids) == (set y | y in init);
      } else {
        assert Distinct(ids) <==> Distinct(init) by {
          if Distinct(init) {
            forall i, j | 0 <= i < j < |ids| ensures ids[i] != ids[j] {
              assert j == last ==> init[i] in init;
            }
          } else {
            var i, j :| 0 <= i < j < |init| && init[i] == init[j];
            assert ids[i] == ids[j];
          }
        }
      }
    }
  }
}
