/** Small vocabulary shared by the models: an option type, sums and
    index-addressed postings. */
module Prelude {

  datatype Option<+T> = None | Some(value: T)
  {
    function GetOr(default: T): T {
      match this
      case Some(v) => v
      case None => default
    }
  }

  /** Whether a deal asks for a fixed set of items or for any number from its scope. */
  datatype SelectionMode = FixedItems | FlexibleItems

  function Min(a: int, b: int): int { if a <= b then a else b }

  function Max(a: int, b: int): int { if a <= b then b else a }

  function Abs(x: real): real { if x < 0.0 then -x else x }

  /** Left-to-right sum, so that a loop appending one value extends it by one step. */
  function Sum(xs: seq<int>): int {
    if xs == [] then 0 else Sum(xs[..|xs| - 1]) + xs[|xs| - 1]
  }

  lemma {:induction false} SumSnoc(xs: seq<int>, x: int)
    ensures Sum(xs + [x]) == Sum(xs) + x
  {
    assert (xs + [x])[..|xs|] == xs;
  }

  lemma {:induction false} SumConcat(xs: seq<int>, ys: seq<int>)
    ensures Sum(xs + ys) == Sum(xs) + Sum(ys)
  {
    if ys == [] {
      assert xs + ys == xs;
    } else {
      var front, last := ys[..|ys| - 1], ys[|ys| - 1];
      assert xs + ys == (xs + front) + [last];
      SumSnoc(xs + front, last);
      SumConcat(xs, front);
    }
  }

  /** f(0) + ... + f(n - 1). */
  ghost function Total(n: nat, f: nat -> int): int {
    if n == 0 then 0 else Total(n - 1, f) + f(n - 1)
  }

  lemma {:induction false} TotalEqual(n: nat, f: nat -> int, g: nat -> int)
    requires forall i: nat :: i < n ==> f(i) == g(i)
    ensures Total(n, f) == Total(n, g)
  {
    if n > 0 {
      TotalEqual(n - 1, f, g);
    }
  }

  lemma {:induction false} TotalSplit(n: nat, f: nat -> int, g: nat -> int, h: nat -> int)
    requires forall i: nat :: i < n ==> h(i) == f(i) + g(i)
    ensures Total(n, h) == Total(n, f) + Total(n, g)
  {
    if n > 0 {
      TotalSplit(n - 1, f, g, h);
    }
  }

  /** An amount charged to the line at an index. */
  datatype Posting = Posting(index: nat, amount: int)

  /** What the postings charge to line i. */
  ghost function Posted(ps: seq<Posting>, i: nat): int {
    if ps == [] then 0
    else Posted(ps[..|ps| - 1], i) + (if ps[|ps| - 1].index == i then ps[|ps| - 1].amount else 0)
  }

  ghost function PostedTotal(ps: seq<Posting>): int {
    if ps == [] then 0 else PostedTotal(ps[..|ps| - 1]) + ps[|ps| - 1].amount
  }

  ghost predicate Touches(ps: seq<Posting>, i: nat) {
    exists k :: 0 <= k < |ps| && ps[k].index == i
  }

  lemma {:induction false} PostedSnoc(ps: seq<Posting>, p: Posting)
    ensures forall i: nat :: Posted(ps + [p], i) == Posted(ps, i) + (if p.index == i then p.amount else 0)
    ensures PostedTotal(ps + [p]) == PostedTotal(ps) + p.amount
    ensures forall i: nat :: Touches(ps + [p], i) <==> Touches(ps, i) || p.index == i
  {
    assert (ps + [p])[..|ps|] == ps;
    forall i: nat
      ensures Touches(ps + [p], i) <==> Touches(ps, i) || p.index == i
    {
      if Touches(ps, i) {
        var k :| 0 <= k < |ps| && ps[k].index == i;
        assert (ps + [p])[k].index == i;
      }
      if p.index == i {
        assert (ps + [p])[|ps|].index == i;
      }
      if Touches(ps + [p], i) {
        var k :| 0 <= k < |ps + [p]| && (ps + [p])[k].index == i;
        assert k < |ps| ==> ps[k].index == i;
      }
    }
  }

  lemma {:induction false} PostedConcat(ps: seq<Posting>, qs: seq<Posting>, i: nat)
    ensures Posted(ps + qs, i) == Posted(ps, i) + Posted(qs, i)
    ensures PostedTotal(ps + qs) == PostedTotal(ps) + PostedTotal(qs)
  {
    if qs == [] {
      assert ps + qs == ps;
    } else {
      var front, last := qs[..|qs| - 1], qs[|qs| - 1];
      assert ps + qs == (ps + front) + [last];
      PostedSnoc(ps + front, last);
      PostedConcat(ps, front, i);
    }
  }

  lemma {:induction false} PostedUntouched(ps: seq<Posting>, i: nat)
    requires !Touches(ps, i)
    ensures Posted(ps, i) == 0
  {
    if ps != [] {
      var front, last := ps[..|ps| - 1], ps[|ps| - 1];
      assert ps == front + [last];
      PostedSnoc(front, last);
      PostedUntouched(front, i);
    }
  }

  /** Summing line by line or posting by posting gives the same total. */
  lemma {:induction false} PostedExchange(ps: seq<Posting>, n: nat)
    requires forall k :: 0 <= k < |ps| ==> ps[k].index < n
    ensures Total(n, (i: nat) => Posted(ps, i)) == PostedTotal(ps)
  {
    if ps == [] {
      TotalConstant(n, (i: nat) => Posted([], i), 0);
    } else {
      var front, last := ps[..|ps| - 1], ps[|ps| - 1];
      PostedExchange(front, n);
      var one: nat -> int := i => if last.index == i then last.amount else 0;
      TotalSplit(n, (i: nat) => Posted(front, i), one, (i: nat) => Posted(ps, i));
      TotalSingle(n, one, last.index);
    }
  }

  lemma {:induction false} TotalConstant(n: nat, f: nat -> int, c: int)
    requires forall i: nat :: i < n ==> f(i) == c
    ensures Total(n, f) == n * c
  {
    if n > 0 {
      TotalConstant(n - 1, f, c);
    }
  }

  lemma {:induction false} TotalSingle(n: nat, f: nat -> int, at: nat)
    requires forall i: nat :: i < n && i != at ==> f(i) == 0
    ensures Total(n, f) == if at < n then f(at) else 0
  {
    if n > 0 {
      TotalSingle(n - 1, f, at);
    }
  }
}
