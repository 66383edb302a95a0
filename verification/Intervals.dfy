/** Deciding that intervals are apart by looking only at neighbours after sorting. */
module Intervals {
  import opened Sorting

  function AtMost(x: real, y: real): bool { x <= y }

  /** From `from` up to, and not including, `to`. */
  datatype Span = Span(from: real, to: real)

  predicate IsSpan(s: Span) { s.from < s.to }

  /** No point in common. */
  predicate Apart(s: Span, t: Span) { s.to <= t.from || t.to <= s.from }

  predicate Contains(s: Span, x: real) { s.from <= x < s.to }

  lemma {:induction false} ApartMeansDisjoint(s: Span, t: Span)
    requires IsSpan(s) && IsSpan(t)
    ensures Apart(s, t) <==> forall x :: !(Contains(s, x) && Contains(t, x))
  {
    if !Apart(s, t) {
      var x := if s.from <= t.from then t.from else s.from;
      assert Contains(s, x) && Contains(t, x);
    }
  }

  ghost predicate AllSpans<T>(xs: seq<T>, span: T -> Span) {
    forall i :: 0 <= i < |xs| ==> IsSpan(span(xs[i]))
  }

  ghost predicate PairwiseApart<T>(xs: seq<T>, span: T -> Span) {
    forall i, j :: 0 <= i < j < |xs| ==> Apart(span(xs[i]), span(xs[j]))
  }

  /** Each ends before the next begins. */
  ghost predicate NeighboursApart<T>(xs: seq<T>, span: T -> Span) {
    forall i :: 0 < i < |xs| ==> span(xs[i - 1]).to <= span(xs[i]).from
  }

  function FromOf<T>(span: T -> Span): T -> real { (x: T) => span(x).from }

  function SortSpans<T>(xs: seq<T>, span: T -> Span): (sorted: seq<T>) { Sort(xs, FromOf(span), AtMost) }

  /** x is apart from every element. */
  ghost predicate ApartFromAll<T>(x: T, xs: seq<T>, span: T -> Span) {
    forall y :: y in xs ==> Apart(span(x), span(y))
  }

  lemma {:induction false} PairwiseSnoc<T>(xs: seq<T>, x: T, span: T -> Span)
    ensures PairwiseApart(xs + [x], span) <==> PairwiseApart(xs, span) && ApartFromAll(x, xs, span)
  {
    var all := xs + [x];
    if PairwiseApart(all, span) {
      forall i, j | 0 <= i < j < |xs|
        ensures Apart(span(xs[i]), span(xs[j]))
      {
        assert all[i] == xs[i] && all[j] == xs[j];
      }
      forall i | 0 <= i < |xs|
        ensures Apart(span(x), span(xs[i]))
      {
        assert all[i] == xs[i] && all[|xs|] == x;
      }
    }
  }

  lemma {:induction false} SameElements<T>(xs: seq<T>, ys: seq<T>, x: T)
    requires multiset(ys) == multiset(xs) + multiset{x}
    ensures forall y :: y in ys <==> y in xs || y == x
  {
    forall y
      ensures y in ys <==> y in xs || y == x
    {
      assert y in ys <==> y in multiset(ys);
      assert y in xs <==> y in multiset(xs);
    }
  }

  lemma {:induction false} ApartFromMore<T>(y: T, xs: seq<T>, ys: seq<T>, x: T, span: T -> Span)
    requires multiset(ys) == multiset(xs) + multiset{x}
    ensures ApartFromAll(y, ys, span) <==> ApartFromAll(y, xs, span) && Apart(span(y), span(x))
  {
    SameElements(xs, ys, x);
  }

  lemma {:induction false} InsertPairwise<T>(x: T, ys: seq<T>, span: T -> Span)
    ensures PairwiseApart(Insert(x, ys, FromOf(span), AtMost), span) <==> PairwiseApart(ys, span) && ApartFromAll(x, ys, span)
  {
    if ys == [] {
      assert Insert(x, ys, FromOf(span), AtMost) == [x];
    } else {
      var front, last := ys[..|ys| - 1], ys[|ys| - 1];
      assert ys == front + [last];
      if AtMost(FromOf(span)(last), FromOf(span)(x)) {
        PairwiseSnoc(ys, x, span);
      } else {
        var more := Insert(x, front, FromOf(span), AtMost);
        InsertPairwise(x, front, span);
        InsertKeeps(x, front, FromOf(span), AtMost);
        assert Insert(x, ys, FromOf(span), AtMost) == more + [last];
        hide Insert, PairwiseApart, Apart, ApartFromAll;
        PairwiseSnoc(more, last, span);
        PairwiseSnoc(front, last, span);
        ApartFromMore(last, front, more, x, span);
        ApartFromMore(x, front, ys, last, span);
        ApartSymmetric(span(x), span(last));
      }
    }
  }

  lemma {:induction false} ApartSymmetric(s: Span, t: Span)
    ensures Apart(s, t) <==> Apart(t, s)
  {}

  lemma {:induction false} SortPairwise<T>(xs: seq<T>, span: T -> Span)
    ensures PairwiseApart(SortSpans(xs, span), span) <==> PairwiseApart(xs, span)
  {
    if xs != [] {
      var front, last := xs[..|xs| - 1], xs[|xs| - 1];
      SortPairwise(front, span);
      SortKeeps(front, FromOf(span), AtMost);
      SameMembers(front, SortSpans(front, span));
      assert xs == front + [last];
      assert SortSpans(xs, span) == Insert(last, SortSpans(front, span), FromOf(span), AtMost);
      hide PairwiseApart, SortSpans, Insert;
      PairwiseSnoc(front, last, span);
      InsertPairwise(last, SortSpans(front, span), span);
    }
  }

  lemma {:induction false} SortAllSpans<T>(xs: seq<T>, span: T -> Span)
    ensures AllSpans(SortSpans(xs, span), span) <==> AllSpans(xs, span)
  {
    SortKeeps(xs, FromOf(span), AtMost);
    SameMembers(xs, SortSpans(xs, span));
    AllSpansMembers(xs, SortSpans(xs, span), span);
  }

  lemma {:induction false} SameMembers<T>(xs: seq<T>, ys: seq<T>)
    requires multiset(xs) == multiset(ys)
    ensures forall x :: x in xs <==> x in ys
  {
    forall x
      ensures x in xs <==> x in ys
    {
      assert x in xs <==> x in multiset(xs);
      assert x in ys <==> x in multiset(ys);
    }
  }

  lemma {:induction false} AllSpansMembers<T>(xs: seq<T>, ys: seq<T>, span: T -> Span)
    requires forall x :: x in xs <==> x in ys
    ensures AllSpans(ys, span) <==> AllSpans(xs, span)
  {
    assert AllSpans(xs, span) <==> forall x :: x in xs ==> IsSpan(span(x));
    assert AllSpans(ys, span) <==> forall x :: x in ys ==> IsSpan(span(x));
  }

  /** In a list sorted by beginning, neighbours apart means all apart. */
  lemma {:induction false} SortedNeighbours<T>(xs: seq<T>, span: T -> Span)
    requires AllSpans(xs, span) && Sorted(xs, FromOf(span), AtMost)
    ensures NeighboursApart(xs, span) <==> PairwiseApart(xs, span)
  {
    if NeighboursApart(xs, span) {
      forall i, j | 0 <= i < j < |xs|
        ensures Apart(span(xs[i]), span(xs[j]))
      {
        EndsBefore(xs, span, i, j);
      }
    }
    if PairwiseApart(xs, span) {
      forall i | 0 < i < |xs|
        ensures span(xs[i - 1]).to <= span(xs[i]).from
      {
        assert Apart(span(xs[i - 1]), span(xs[i]));
        assert AtMost(FromOf(span)(xs[i - 1]), FromOf(span)(xs[i]));
        assert IsSpan(span(xs[i])) && IsSpan(span(xs[i - 1]));
      }
    }
  }

  lemma {:induction false} EndsBefore<T>(xs: seq<T>, span: T -> Span, i: nat, j: nat)
    requires AllSpans(xs, span) && NeighboursApart(xs, span) && i < j < |xs|
    ensures span(xs[i]).to <= span(xs[j]).from
  {
    if i < j - 1 {
      EndsBefore(xs, span, i, j - 1);
      assert IsSpan(span(xs[j - 1]));
    }
  }

  /** Checking neighbours after sorting decides whether all are apart. */
  lemma {:induction false} NeighboursDecide<T>(xs: seq<T>, span: T -> Span)
    requires AllSpans(xs, span)
    ensures NeighboursApart(SortSpans(xs, span), span) <==> PairwiseApart(xs, span)
  {
    SortPairwise(xs, span);
    SortAllSpans(xs, span);
    SortSorts(xs, FromOf(span), AtMost);
    SortedNeighbours(SortSpans(xs, span), span);
  }
}
