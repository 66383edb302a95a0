/** Stable sorting by a key under a caller's comparison, as Array.prototype.sort does. */
module Sorting {

  /** le(x, y): the comparison puts x no later than y. */
  ghost predicate Preorder<K(!new)>(le: (K, K) -> bool) {
    && (forall x, y :: le(x, y) || le(y, x))
    && (forall x, y, z :: le(x, y) && le(y, z) ==> le(x, z))
  }

  ghost predicate TotalOrder<K(!new)>(le: (K, K) -> bool) {
    Preorder(le) && forall x, y :: le(x, y) && le(y, x) ==> x == y
  }

  /** x goes behind everything that may stand before it. */
  function Insert<T, K>(x: T, ys: seq<T>, key: T -> K, le: (K, K) -> bool): seq<T> {
    if ys == [] then [x]
    else if le(key(ys[|ys| - 1]), key(x)) then ys + [x]
    else Insert(x, ys[..|ys| - 1], key, le) + [ys[|ys| - 1]]
  }

  function Sort<T, K>(xs: seq<T>, key: T -> K, le: (K, K) -> bool): seq<T> {
    if xs == [] then [] else Insert(xs[|xs| - 1], Sort(xs[..|xs| - 1], key, le), key, le)
  }

  ghost predicate Sorted<T, K>(xs: seq<T>, key: T -> K, le: (K, K) -> bool) {
    forall i, j :: 0 <= i < j < |xs| ==> le(key(xs[i]), key(xs[j]))
  }

  /** The key tells the elements apart. */
  ghost predicate KeyDecides<T(!new), K>(xs: multiset<T>, key: T -> K) {
    forall x, y :: x in xs && y in xs && key(x) == key(y) ==> x == y
  }

  lemma {:induction false} Snoc<T>(xs: seq<T>)
    requires xs != []
    ensures xs == xs[..|xs| - 1] + [xs[|xs| - 1]]
    ensures multiset(xs) == multiset(xs[..|xs| - 1]) + multiset{xs[|xs| - 1]}
  {
    assert xs == xs[..|xs| - 1] + [xs[|xs| - 1]];
  }

  lemma {:induction false} InsertKeeps<T, K>(x: T, ys: seq<T>, key: T -> K, le: (K, K) -> bool)
    ensures multiset(Insert(x, ys, key, le)) == multiset(ys) + multiset{x}
  {
    if ys != [] {
      Snoc(ys);
      InsertKeeps(x, ys[..|ys| - 1], key, le);
    }
  }

  lemma {:induction false} SortKeeps<T, K>(xs: seq<T>, key: T -> K, le: (K, K) -> bool)
    ensures multiset(Sort(xs, key, le)) == multiset(xs)
  {
    if xs != [] {
      Snoc(xs);
      SortKeeps(xs[..|xs| - 1], key, le);
      InsertKeeps(xs[|xs| - 1], Sort(xs[..|xs| - 1], key, le), key, le);
    }
  }

  lemma {:induction false} InsertSorts<T, K(!new)>(x: T, ys: seq<T>, key: T -> K, le: (K, K) -> bool)
    requires Preorder(le) && Sorted(ys, key, le)
    ensures Sorted(Insert(x, ys, key, le), key, le)
  {
    if ys != [] {
      var front, last := ys[..|ys| - 1], ys[|ys| - 1];
      if le(key(last), key(x)) {
        forall i | 0 <= i < |ys|
          ensures le(key(ys[i]), key(x))
        {
          assert le(key(ys[i]), key(last)) || i == |ys| - 1;
        }
      } else {
        InsertSorts(x, front, key, le);
        var more := Insert(x, front, key, le);
        forall i | 0 <= i < |more|
          ensures le(key(more[i]), key(last))
        {
          InsertKeeps(x, front, key, le);
          assert more[i] in multiset(more);
          assert more[i] in front || more[i] == x;
        }
      }
    }
  }

  lemma {:induction false} SortSorts<T, K(!new)>(xs: seq<T>, key: T -> K, le: (K, K) -> bool)
    requires Preorder(le)
    ensures Sorted(Sort(xs, key, le), key, le)
  {
    if xs != [] {
      SortSorts(xs[..|xs| - 1], key, le);
      InsertSorts(xs[|xs| - 1], Sort(xs[..|xs| - 1], key, le), key, le);
    }
  }

  /** The last of a sorted list is largest. */
  lemma {:induction false} LastIsLargest<T, K(!new)>(xs: seq<T>, x: T, key: T -> K, le: (K, K) -> bool)
    requires TotalOrder(le) && Sorted(xs, key, le) && x in xs
    ensures le(key(x), key(xs[|xs| - 1]))
  {
    var i :| 0 <= i < |xs| && xs[i] == x;
    assert i == |xs| - 1 || le(key(xs[i]), key(xs[|xs| - 1]));
  }

  lemma {:induction false} SameLast<T(!new), K(!new)>(xs: seq<T>, ys: seq<T>, key: T -> K, le: (K, K) -> bool)
    requires TotalOrder(le) && xs != [] && ys != []
    requires multiset(xs) == multiset(ys) && KeyDecides(multiset(xs), key)
    requires Sorted(xs, key, le) && Sorted(ys, key, le)
    ensures xs[|xs| - 1] == ys[|ys| - 1]
  {
    var x, y := xs[|xs| - 1], ys[|ys| - 1];
    assert x in multiset(ys) && y in multiset(xs);
    hide Sorted;
    LastIsLargest(ys, x, key, le);
    LastIsLargest(xs, y, key, le);
  }

  /** A multiset has one sorted arrangement when the key decides. */
  lemma {:induction false} SortedUnique<T(!new), K(!new)>(xs: seq<T>, ys: seq<T>, key: T -> K, le: (K, K) -> bool)
    requires TotalOrder(le)
    requires multiset(xs) == multiset(ys) && KeyDecides(multiset(xs), key)
    requires Sorted(xs, key, le) && Sorted(ys, key, le)
    ensures xs == ys
  {
    assert |multiset(xs)| == |xs| && |multiset(ys)| == |ys|;
    if xs != [] {
      SameLast(xs, ys, key, le);
      Snoc(xs);
      Snoc(ys);
      var x, front, back := xs[|xs| - 1], xs[..|xs| - 1], ys[..|ys| - 1];
      assert multiset(front) == multiset(xs) - multiset{x};
      assert multiset(back) == multiset(ys) - multiset{x};
      assert Sorted(front, key, le) && Sorted(back, key, le);
      hide TotalOrder, Sorted;
      FewerDecide(xs, front, key);
      SortedUnique(front, back, key, le);
    }
  }

  lemma {:induction false} FewerDecide<T(!new), K>(xs: seq<T>, front: seq<T>, key: T -> K)
    requires KeyDecides(multiset(xs), key) && multiset(front) <= multiset(xs)
    ensures KeyDecides(multiset(front), key)
  {}

  /** Sorting gives the same list exactly for rearrangements of the same elements. */
  lemma {:induction false} SortCanonical<T(!new), K(!new)>(xs: seq<T>, ys: seq<T>, key: T -> K, le: (K, K) -> bool)
    requires TotalOrder(le) && KeyDecides(multiset(xs), key)
    ensures Sort(xs, key, le) == Sort(ys, key, le) <==> multiset(xs) == multiset(ys)
  {
    SortKeeps(xs, key, le);
    SortKeeps(ys, key, le);
    if multiset(xs) == multiset(ys) {
      SortSorts(xs, key, le);
      SortSorts(ys, key, le);
      SortedUnique(Sort(xs, key, le), Sort(ys, key, le), key, le);
    }
  }

  /** Sorting leaves a sorted list as it is, ties included. */
  lemma {:induction false} SortOfSorted<T, K(!new)>(xs: seq<T>, key: T -> K, le: (K, K) -> bool)
    requires Sorted(xs, key, le)
    ensures Sort(xs, key, le) == xs
  {
    if xs != [] {
      SortOfSorted(xs[..|xs| - 1], key, le);
    }
  }

  lemma {:induction false} SortIdempotent<T, K(!new)>(xs: seq<T>, key: T -> K, le: (K, K) -> bool)
    requires Preorder(le)
    ensures Sort(Sort(xs, key, le), key, le) == Sort(xs, key, le)
  {
    SortSorts(xs, key, le);
    SortOfSorted(Sort(xs, key, le), key, le);
  }
}
