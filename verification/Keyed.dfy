/** Lists whose elements carry a key, as the task store keeps its tasks, effects and inbox rows. */
module Keyed {
  import opened Wrappers

  predicate DistinctBy<T(!new), K(==)>(items: seq<T>, key: T -> K) {
    forall i, j :: 0 <= i < j < |items| ==> key(items[i]) != key(items[j])
  }

  /** Array.prototype.find by key. */
  function Find<T(!new), K(==)>(items: seq<T>, key: T -> K, wanted: K): (found: Option<T>)
    ensures found.Some? ==> found.value in items && key(found.value) == wanted
    ensures found.None? ==> forall x :: x in items ==> key(x) != wanted
  {
    if items == [] then None
    else if key(items[0]) == wanted then Some(items[0])
    else Find(items[1..], key, wanted)
  }

  /** Overwrites the element with the same key in place, or appends. */
  function Put<T(!new), K(==)>(items: seq<T>, key: T -> K, item: T): (r: seq<T>)
    ensures item in r
  {
    if items == [] then [item]
    else if key(items[0]) == key(item) then [item] + items[1..]
    else [items[0]] + Put(items[1..], key, item)
  }

  /** Array.prototype.filter. */
  function Filter<T(!new)>(items: seq<T>, keep: T -> bool): (r: seq<T>)
    ensures |r| <= |items|
    ensures forall x :: x in r <==> x in items && keep(x)
  {
    if items == [] then []
    else
      var rest := Filter(items[1..], keep);
      assert forall x :: x in items <==> x == items[0] || x in items[1..];
      if keep(items[0]) then [items[0]] + rest else rest
  }

  /** The first position satisfying `wanted`, or the length. */
  function FirstIndex<T>(items: seq<T>, wanted: T -> bool): (i: nat)
    ensures i <= |items|
    ensures i < |items| ==> wanted(items[i])
    ensures forall j :: 0 <= j < i ==> !wanted(items[j])
  {
    if items == [] then 0
    else if wanted(items[0]) then 0
    else
      var later := FirstIndex(items[1..], wanted);
      assert forall j :: 1 <= j < later + 1 ==> items[j] == items[1..][j - 1];
      later + 1
  }

  /** The list without the element at `i`. */
  function RemoveAt<T>(items: seq<T>, i: nat): seq<T>
    requires i < |items|
  {
    items[..i] + items[i + 1..]
  }

  // ---------------------------------------------------------------- lemmas

  lemma {:induction false} DistinctTail<T(!new), K>(items: seq<T>, key: T -> K)
    requires DistinctBy(items, key) && items != []
    ensures DistinctBy(items[1..], key)
    ensures forall x :: x in items[1..] ==> key(x) != key(items[0])
  {
    var tail := items[1..];
    forall i, j | 0 <= i < j < |tail| ensures key(tail[i]) != key(tail[j]) {
      assert tail[i] == items[i + 1] && tail[j] == items[j + 1];
    }
    forall x | x in tail ensures key(x) != key(items[0]) {
      var i :| 0 <= i < |tail| && tail[i] == x;
      assert tail[i] == items[i + 1];
    }
  }

  lemma {:induction false} DistinctCons<T(!new), K>(head: T, tail: seq<T>, key: T -> K)
    requires DistinctBy(tail, key) && forall x :: x in tail ==> key(x) != key(head)
    ensures DistinctBy([head] + tail, key)
  {
    var all := [head] + tail;
    forall i, j | 0 <= i < j < |all| ensures key(all[i]) != key(all[j]) {
      assert all[j] == tail[j - 1];
      if i > 0 { assert all[i] == tail[i - 1]; }
    }
  }

  /** Among distinct keys the element found is the one that is there. */
  lemma {:induction false} FindUnique<T(!new), K>(items: seq<T>, key: T -> K, item: T)
    requires DistinctBy(items, key) && item in items
    ensures Find(items, key, key(item)) == Some(item)
    decreases |items|
  {
    DistinctTail(items, key);
    if items[0] != item {
      assert item in items[1..];
      FindUnique(items[1..], key, item);
    }
  }

  lemma {:induction false} SameKeySameItem<T(!new), K>(items: seq<T>, key: T -> K, a: T, b: T)
    requires DistinctBy(items, key) && a in items && b in items && key(a) == key(b)
    ensures a == b
  {
    FindUnique(items, key, a);
    FindUnique(items, key, b);
  }

  lemma {:induction false} FilterDistinct<T(!new), K>(items: seq<T>, key: T -> K, keep: T -> bool)
    requires DistinctBy(items, key)
    ensures DistinctBy(Filter(items, keep), key)
    decreases |items|
  {
    if items != [] {
      DistinctTail(items, key);
      FilterDistinct(items[1..], key, keep);
      if keep(items[0]) {
        DistinctCons(items[0], Filter(items[1..], keep), key);
      }
    }
  }

  /** Putting an element replaces the one with its key, adds one element otherwise, and changes nothing else. */
  lemma {:induction false} PutExact<T(!new), K>(items: seq<T>, key: T -> K, item: T)
    requires DistinctBy(items, key)
    ensures DistinctBy(Put(items, key, item), key)
    ensures forall x :: x in Put(items, key, item) <==> x == item || (x in items && key(x) != key(item))
    ensures |Put(items, key, item)| == |items| + (if Find(items, key, key(item)).Some? then 0 else 1)
    decreases |items|
  {
    if items == [] {
    } else {
      DistinctTail(items, key);
      assert forall x :: x in items <==> x == items[0] || x in items[1..];
      if key(items[0]) == key(item) {
        DistinctCons(item, items[1..], key);
      } else {
        PutExact(items[1..], key, item);
        DistinctCons(items[0], Put(items[1..], key, item), key);
      }
    }
  }

  /** Appending an element with a new key is putting it. */
  lemma {:induction false} PutAppends<T(!new), K>(items: seq<T>, key: T -> K, item: T)
    requires Find(items, key, key(item)).None?
    ensures Put(items, key, item) == items + [item]
    decreases |items|
  {
    if items != [] {
      PutAppends(items[1..], key, item);
      assert [items[0]] + (items[1..] + [item]) == items + [item];
    }
  }

  /** Overwriting the first element with the key is putting it. */
  lemma {:induction false} PutAt<T(!new), K>(items: seq<T>, key: T -> K, item: T, i: nat)
    requires i < |items| && key(items[i]) == key(item)
    requires forall j :: 0 <= j < i ==> key(items[j]) != key(item)
    ensures Put(items, key, item) == items[i := item]
    decreases |items|
  {
    if i > 0 {
      forall j | 0 <= j < i - 1 ensures key(items[1..][j]) != key(item) {
        assert items[1..][j] == items[j + 1];
      }
      PutAt(items[1..], key, item, i - 1);
      assert [items[0]] + items[1..][i - 1 := item] == items[i := item];
    }
  }

  /** Removing a position removes exactly its element. */
  lemma {:induction false} RemoveAtExact<T(!new), K>(items: seq<T>, key: T -> K, i: nat)
    requires DistinctBy(items, key) && i < |items|
    ensures DistinctBy(RemoveAt(items, i), key)
    ensures forall x :: x in RemoveAt(items, i) <==> x in items && x != items[i]
    ensures |RemoveAt(items, i)| == |items| - 1
  {
    var r := RemoveAt(items, i);
    forall a, b | 0 <= a < b < |r| ensures key(r[a]) != key(r[b]) {
      assert r[a] == items[if a < i then a else a + 1] && r[b] == items[if b < i then b else b + 1];
    }
    forall x ensures x in r <==> x in items && x != items[i] {
      if x in r {
        var a :| 0 <= a < |r| && r[a] == x;
        var at := if a < i then a else a + 1;
        assert x == items[at] && key(items[at]) != key(items[i]);
      }
      if x in items && x != items[i] {
        var at :| 0 <= at < |items| && items[at] == x;
        assert r[if at < i then at else at - 1] == x;
      }
    }
  }
}
