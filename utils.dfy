/**
 * The list helpers of utils.py: `unpack`, which splices the items of a
 * chosen collection type into the surrounding list, one level deep, and
 * `sorted`, an insertion sort by a key.
 */
module Utils {

  // ---------------------------------------------------------------------
  // unpack (utils.py:1-19)
  // ---------------------------------------------------------------------

  /**
   * An item of a Python list: a plain value, or a collection of a given
   * type (`list`, `tuple`, ...) holding items of its own.
   */
  datatype Item<T, K> = Value(value: T) | Collection(kind: K, items: seq<Item<T, K>>)

  /** What one item contributes to `unpack(iterable, kind)`: its elements if it is of that type, otherwise itself. */
  function Expand<T, K(==)>(item: Item<T, K>, kind: K): seq<Item<T, K>> {
    if item.Collection? && item.kind == kind then item.items else [item]
  }

  /** `unpack(iterable, kind)` of the items: each one's contribution, in order. */
  function Unpacked<T, K(==)>(items: seq<Item<T, K>>, kind: K): seq<Item<T, K>> {
    if |items| == 0 then [] else Unpacked(items[..|items| - 1], kind) + Expand(items[|items| - 1], kind)
  }

  /** `unpack`: the loop that concatenates the elements of matching items and appends every other item. */
  method Unpack<T, K(==)>(iterable: seq<Item<T, K>>, kind: K) returns (ret: seq<Item<T, K>>)
    ensures ret == Unpacked(iterable, kind)
  {
    ret := [];
    for i := 0 to |iterable|
      invariant ret == Unpacked(iterable[..i], kind)
    {
      var item := iterable[i];
      assert iterable[..i + 1][..i] == iterable[..i];
      if item.Collection? && item.kind == kind {
        ret := ret + item.items;
      } else {
        ret := ret + [item];
      }
    }
    assert iterable[..|iterable|] == iterable;
  }

  /** Unpacking a concatenation unpacks each part: the order of the items is kept. */
  lemma {:induction false} UnpackedConcat<T, K>(a: seq<Item<T, K>>, b: seq<Item<T, K>>, kind: K)
    ensures Unpacked(a + b, kind) == Unpacked(a, kind) + Unpacked(b, kind)
    decreases |b|
  {
    if |b| == 0 {
      assert a + b == a;
    } else {
      assert (a + b)[..|a + b| - 1] == a + b[..|b| - 1];
      UnpackedConcat(a, b[..|b| - 1], kind);
    }
  }

  /** The number of items that `unpack` keeps as they are, plus the sizes of those it splices. */
  function UnpackedLength<T, K(==)>(items: seq<Item<T, K>>, kind: K): nat {
    if |items| == 0 then 0
    else
      var item := items[0];
      (if item.Collection? && item.kind == kind then |item.items| else 1) + UnpackedLength(items[1..], kind)
  }

  /** The length of the result: one per item kept, and the size of each item spliced. */
  lemma {:induction false} UnpackedLengthIs<T, K>(items: seq<Item<T, K>>, kind: K)
    ensures |Unpacked(items, kind)| == UnpackedLength(items, kind)
    decreases |items|
  {
    if |items| > 0 {
      assert items == [items[0]] + items[1..];
      UnpackedConcat([items[0]], items[1..], kind);
      assert [items[0]][..0] == [];
      UnpackedLengthIs(items[1..], kind);
    }
  }

  /** Items of any other type, and plain values, are kept as they are. */
  lemma {:induction false} UnpackedKeepsOthers<T, K>(items: seq<Item<T, K>>, kind: K)
    requires forall i :: 0 <= i < |items| ==> !(items[i].Collection? && items[i].kind == kind)
    ensures Unpacked(items, kind) == items
    decreases |items|
  {
    if |items| > 0 {
      UnpackedKeepsOthers(items[..|items| - 1], kind);
      assert items[..|items| - 1] + [items[|items| - 1]] == items;
    }
  }

  /**
   * Only one level is unpacked: every element of the result is an item
   * that was kept, or an element of an item that was spliced, whatever
   * type that element has itself.
   */
  lemma {:induction false} UnpackedOneLevel<T, K>(items: seq<Item<T, K>>, kind: K, x: Item<T, K>)
    ensures x in Unpacked(items, kind) <==>
      exists i :: 0 <= i < |items| && x in Expand(items[i], kind)
    decreases |items|
  {
    if |items| > 0 {
      var n := |items| - 1;
      UnpackedOneLevel(items[..n], kind, x);
      if x in Unpacked(items, kind) && x !in Unpacked(items[..n], kind) {
        assert x in Expand(items[n], kind);
      }
      if x in Expand(items[n], kind) {
        assert x in Unpacked(items, kind);
      }
      forall i | 0 <= i < n && x in Expand(items[i], kind)
        ensures x in Unpacked(items[..n], kind)
      {
        assert items[..n][i] == items[i];
      }
    }
  }

  /** The examples of the documentation, with lists and tuples as two kinds and numbers as values. */
  datatype Kind = List | Tuple

  /** Around one item, the items of other types are kept: only that item is expanded. */
  lemma UnpackedAround<T, K>(before: seq<Item<T, K>>, item: Item<T, K>, after: seq<Item<T, K>>, kind: K)
    requires forall i :: 0 <= i < |before| ==> !(before[i].Collection? && before[i].kind == kind)
    requires forall i :: 0 <= i < |after| ==> !(after[i].Collection? && after[i].kind == kind)
    ensures Unpacked(before + [item] + after, kind) == before + Expand(item, kind) + after
  {
    UnpackedConcat(before + [item], after, kind);
    UnpackedConcat(before, [item], kind);
    UnpackedKeepsOthers(before, kind);
    UnpackedKeepsOthers(after, kind);
    assert [item][..0] == [];
  }

  /** A list inside a list is spliced into it. */
  lemma UnpackListExample()
    ensures Unpacked([Value(1), Value(2), Value(3), Collection(List, [Value(4), Value(5), Value(6)]), Value(7), Value(8)], List)
         == [Value(1), Value(2), Value(3), Value(4), Value(5), Value(6), Value(7), Value(8)]
  {
    var before, after := [Value(1), Value(2), Value(3)], [Value(7), Value(8)];
    UnpackedAround(before, Collection(List, [Value(4), Value(5), Value(6)]), after, List);
    assert before + [Collection(List, [Value(4), Value(5), Value(6)])] + after
        == [Value(1), Value(2), Value(3), Collection(List, [Value(4), Value(5), Value(6)]), Value(7), Value(8)];
  }

  /** A tuple at the end of a list is spliced into it. */
  lemma UnpackTupleAtEndExample()
    ensures Unpacked([Value(1), Value(2), Collection(Tuple, [Value(3), Value(4)])], Tuple)
         == [Value(1), Value(2), Value(3), Value(4)]
  {
    var before: seq<Item<int, Kind>> := [Value(1), Value(2)];
    UnpackedAround(before, Collection(Tuple, [Value(3), Value(4)]), [], Tuple);
    assert before + [Collection(Tuple, [Value(3), Value(4)])] + [] == [Value(1), Value(2), Collection(Tuple, [Value(3), Value(4)])];
  }

  /** A tuple at the start of a tuple is spliced into it. */
  lemma UnpackTupleAtStartExample()
    ensures Unpacked([Collection(Tuple, [Value(0), Value(1)]), Value(2), Value(3)], Tuple)
         == [Value(0), Value(1), Value(2), Value(3)]
  {
    var after: seq<Item<int, Kind>> := [Value(2), Value(3)];
    UnpackedAround([], Collection(Tuple, [Value(0), Value(1)]), after, Tuple);
    assert [] + [Collection(Tuple, [Value(0), Value(1)])] + after == [Collection(Tuple, [Value(0), Value(1)]), Value(2), Value(3)];
  }

  /** One level only: a list inside the list that is spliced stays a list. */
  lemma UnpackOneLevelExample()
    ensures Unpacked([Collection(List, [Collection(List, [Value(1)])])], List) == [Collection(List, [Value(1)])]
  {
  }

  // ---------------------------------------------------------------------
  // sorted (utils.py:20-30)
  // ---------------------------------------------------------------------

  /** Where the inner loop stops: the first index whose key is not smaller than `k`, or the end. */
  function InsertionIndex<T>(out: seq<T>, key: T -> int, k: int): (i: nat)
    ensures i <= |out|
    ensures forall j :: 0 <= j < i ==> key(out[j]) < k
    ensures i < |out| ==> key(out[i]) >= k
  {
    if |out| == 0 || key(out[0]) >= k then 0 else 1 + InsertionIndex(out[1..], key, k)
  }

  /** `out.insert(i, item)` at that index. */
  function InsertByKey<T>(out: seq<T>, item: T, key: T -> int): seq<T> {
    var i := InsertionIndex(out, key, key(item));
    out[..i] + [item] + out[i..]
  }

  /** `sorted(iterable, key)`: each item inserted in turn into the list built so far. */
  function SortedBy<T>(items: seq<T>, key: T -> int): seq<T> {
    if |items| == 0 then [] else InsertByKey(SortedBy(items[..|items| - 1], key), items[|items| - 1], key)
  }

  /** `sorted`: the outer loop over the items, and the inner search for where each one goes. */
  method Sorted<T>(iterable: seq<T>, sortBy: T -> int) returns (out: seq<T>)
    ensures out == SortedBy(iterable, sortBy)
  {
    out := [];
    for n := 0 to |iterable|
      invariant out == SortedBy(iterable[..n], sortBy)
    {
      var item := iterable[n];
      assert iterable[..n + 1][..n] == iterable[..n];
      var i := 0;
      while i < |out| && sortBy(out[i]) < sortBy(item)
        invariant 0 <= i <= |out|
        invariant forall j :: 0 <= j < i ==> sortBy(out[j]) < sortBy(item)
      {
        i := i + 1;
      }
      assert i == InsertionIndex(out, sortBy, sortBy(item)) by {
        IndexIsFirstNotSmaller(out, sortBy, sortBy(item), i);
      }
      out := out[..i] + [item] + out[i..];
    }
    assert iterable[..|iterable|] == iterable;
  }

  /** The first index whose key is not smaller than `k` is the insertion index. */
  lemma {:induction false} IndexIsFirstNotSmaller<T>(out: seq<T>, key: T -> int, k: int, i: nat)
    requires i <= |out| && (forall j :: 0 <= j < i ==> key(out[j]) < k) && (i < |out| ==> key(out[i]) >= k)
    ensures i == InsertionIndex(out, key, k)
    decreases i
  {
    if i > 0 {
      IndexIsFirstNotSmaller(out[1..], key, k, i - 1);
    }
  }

  /** The keys never decrease along `s`. */
  predicate SortedByKey<T>(s: seq<T>, key: T -> int) {
    forall i, j :: 0 <= i < j < |s| ==> key(s[i]) <= key(s[j])
  }

  /**
   * A sorted list with `item` placed after the items of smaller key and
   * before the rest is still sorted.
   */
  lemma SortedAround<T>(out: seq<T>, item: T, key: T -> int, i: nat, r: seq<T>)
    requires SortedByKey(out, key) && i <= |out| && |r| == |out| + 1
    requires forall j :: 0 <= j < i ==> r[j] == out[j] && key(out[j]) < key(item)
    requires r[i] == item && (i < |out| ==> key(item) <= key(out[i]))
    requires forall j :: i < j < |r| ==> r[j] == out[j - 1]
    ensures SortedByKey(r, key)
  {
    forall a, b | 0 <= a < b < |r|
      ensures key(r[a]) <= key(r[b])
    {
      if b <= i {
      } else if a < i {
        assert key(out[a]) <= key(out[b - 1]);
      } else if a == i {
        assert i == b - 1 || key(out[i]) <= key(out[b - 1]);
      } else {
        assert key(out[a - 1]) <= key(out[b - 1]);
      }
    }
  }

  /** Inserting at the insertion index keeps a list sorted by key. */
  lemma InsertKeepsSorted<T>(out: seq<T>, item: T, key: T -> int)
    requires SortedByKey(out, key)
    ensures SortedByKey(InsertByKey(out, item, key), key)
  {
    var i := InsertionIndex(out, key, key(item));
    var r := out[..i] + [item] + out[i..];
    assert r == InsertByKey(out, item, key);
    SortedAround(out, item, key, i, r);
  }

  /** The result of `sorted` is in nondecreasing order of the key. */
  lemma {:induction false} SortedIsSorted<T>(items: seq<T>, key: T -> int)
    ensures SortedByKey(SortedBy(items, key), key)
    decreases |items|
  {
    if |items| > 0 {
      SortedIsSorted(items[..|items| - 1], key);
      InsertKeepsSorted(SortedBy(items[..|items| - 1], key), items[|items| - 1], key);
    }
  }

  /** Inserting adds the item once and keeps every other item. */
  lemma InsertAddsItem<T>(out: seq<T>, item: T, key: T -> int)
    ensures multiset(InsertByKey(out, item, key)) == multiset(out) + multiset{item}
    ensures |InsertByKey(out, item, key)| == |out| + 1
  {
    var i := InsertionIndex(out, key, key(item));
    assert out == out[..i] + out[i..];
    assert multiset(out) == multiset(out[..i]) + multiset(out[i..]);
    assert multiset(out[..i] + [item] + out[i..]) == multiset(out[..i]) + multiset{item} + multiset(out[i..]);
  }

  /** Adding the last item to a permutation of the others gives a permutation of all of them. */
  lemma AppendLastItem<T>(items: seq<T>, prev: seq<T>, r: seq<T>)
    requires |items| > 0 && multiset(prev) == multiset(items[..|items| - 1])
    requires multiset(r) == multiset(prev) + multiset{items[|items| - 1]}
    ensures multiset(r) == multiset(items)
  {
    assert items == items[..|items| - 1] + [items[|items| - 1]];
  }

  /** The result of `sorted` holds the same items as many times each as the input. */
  lemma {:induction false} SortedIsPermutation<T>(items: seq<T>, key: T -> int)
    ensures multiset(SortedBy(items, key)) == multiset(items)
    ensures |SortedBy(items, key)| == |items|
    decreases |items|
  {
    if |items| > 0 {
      var n := |items| - 1;
      var prev := SortedBy(items[..n], key);
      SortedIsPermutation(items[..n], key);
      assert SortedBy(items, key) == InsertByKey(prev, items[n], key);
      InsertAddsItem(prev, items[n], key);
      AppendLastItem(items, prev, SortedBy(items, key));
    }
  }

  /** The items of `s` whose key is `k`, in order. */
  function WithKey<T>(s: seq<T>, key: T -> int, k: int): seq<T> {
    if |s| == 0 then [] else (if key(s[0]) == k then [s[0]] else []) + WithKey(s[1..], key, k)
  }

  lemma {:induction false} WithKeyConcat<T>(a: seq<T>, b: seq<T>, key: T -> int, k: int)
    ensures WithKey(a + b, key, k) == WithKey(a, key, k) + WithKey(b, key, k)
    decreases |a|
  {
    if |a| == 0 {
      assert a + b == b;
    } else {
      var ab := a + b;
      var head := if key(a[0]) == k then [a[0]] else [];
      assert ab[0] == a[0];
      assert ab[1..] == a[1..] + b;
      assert WithKey(ab, key, k) == head + WithKey(a[1..] + b, key, k);
      WithKeyConcat(a[1..], b, key, k);
      assert WithKey(a, key, k) == head + WithKey(a[1..], key, k);
    }
  }

  /** None of the items before the insertion index has the key of the inserted item. */
  lemma {:induction false} NoneWithKeyBefore<T>(s: seq<T>, key: T -> int, k: int)
    requires forall j :: 0 <= j < |s| ==> key(s[j]) < k
    ensures WithKey(s, key, k) == []
    decreases |s|
  {
    if |s| > 0 {
      NoneWithKeyBefore(s[1..], key, k);
    }
  }

  /** An inserted item goes before every item already there with the same key. */
  lemma InsertGoesFirst<T>(out: seq<T>, item: T, key: T -> int, k: int)
    ensures WithKey(InsertByKey(out, item, key), key, k)
         == (if key(item) == k then [item] else []) + WithKey(out, key, k)
  {
    var i := InsertionIndex(out, key, key(item));
    WithKeyConcat(out[..i] + [item], out[i..], key, k);
    WithKeyConcat(out[..i], [item], key, k);
    WithKeyConcat(out[..i], out[i..], key, k);
    assert out[..i] + out[i..] == out;
    assert WithKey([item], key, k) == (if key(item) == k then [item] else []) by {
      assert [item][1..] == [];
    }
    if key(item) == k {
      NoneWithKeyBefore(out[..i], key, k);
    } else {
      assert WithKey(out[..i] + [item], key, k) == WithKey(out[..i], key, k);
    }
  }

  /** `s` backwards. */
  function Reversed<T>(s: seq<T>): (r: seq<T>)
    ensures |r| == |s|
  {
    if |s| == 0 then [] else [s[|s| - 1]] + Reversed(s[..|s| - 1])
  }

  /**
   * Items with equal keys come out in the reverse of their input order:
   * each new item is inserted before the first item whose key is not
   * smaller, so before every item with the same key.
   */
  lemma {:induction false} EqualKeysReversed<T>(items: seq<T>, key: T -> int, k: int)
    ensures WithKey(SortedBy(items, key), key, k) == Reversed(WithKey(items, key, k))
    decreases |items|
  {
    if |items| > 0 {
      var n := |items| - 1;
      var x := items[n];
      EqualKeysReversed(items[..n], key, k);
      InsertGoesFirst(SortedBy(items[..n], key), x, key, k);
      assert items == items[..n] + [x];
      WithKeyConcat(items[..n], [x], key, k);
      assert WithKey([x], key, k) == (if key(x) == k then [x] else []) by {
        assert [x][1..] == [];
      }
      var w := WithKey(items[..n], key, k);
      if key(x) == k {
        assert (w + [x])[..|w|] == w;
      } else {
        assert w + [] == w;
      }
    }
  }

  /** The tens digit of a two-digit number, as a sort key. */
  function Tens(x: int): int {
    x / 10
  }

  lemma InsertFiveExample()
    ensures InsertByKey([11], 5, Tens) == [5, 11]
  {
    assert Tens(11) == 1 && Tens(5) == 0;
    assert InsertionIndex([11], Tens, 0) == 0;
  }

  lemma InsertTwelveExample()
    ensures InsertByKey([5, 11], 12, Tens) == [5, 12, 11]
  {
    assert Tens(11) == 1 && Tens(5) == 0 && Tens(12) == 1;
    assert InsertionIndex([5, 11], Tens, 1) == 1 by {
      assert [5, 11][1..] == [11];
      assert InsertionIndex([11], Tens, 1) == 0;
    }
    assert [5, 11][..1] + [12] + [5, 11][1..] == [5, 12, 11];
  }

  /**
   * With the tens digit as key, 11 and 12 compare equal and come out in
   * the reverse of their input order: `sorted` is not stable.
   */
  lemma SortedExample()
    ensures SortedBy([11, 5, 12], Tens) == [5, 12, 11]
  {
    assert [11, 5, 12][..2] == [11, 5] && [11, 5][..1] == [11] && [11][..0] == [];
    assert SortedBy([11], Tens) == [11];
    InsertFiveExample();
    assert SortedBy([11, 5], Tens) == [5, 11];
    InsertTwelveExample();
  }
}
