/** Splitting a fixed deal price over the lines of one deal group.
    Models allocateFixedDealTotal; money is a whole number of cents, a quotient is an exact real. */
module Allocation {
  import opened Prelude

  /** toDecimalPlaces(2) on an amount in cents: to the nearest cent, a tie away from zero. */
  function RoundCents(x: real): int {
    if x >= 0.0 then (x + 0.5).Floor else -((0.5 - x).Floor)
  }

  lemma {:induction false} RoundCentsNearest(x: real)
    ensures Abs(RoundCents(x) as real - x) <= 0.5
  {}

  lemma {:induction false} RoundCentsWhole(n: int)
    ensures RoundCents(n as real) == n
  {}

  /** A number of cents that is at most the margin away from an exact amount. */
  predicate Near(amount: int, exact: real, margin: real) { Abs(amount as real - exact) <= margin }

  /** To the nearest cent, and of two that are equally near to the one further from zero. */
  lemma {:induction false} RoundCentsExactly(x: real, n: int)
    ensures RoundCents(x) == n <==> Near(n, x, 0.5) && (Abs(n as real - x) == 0.5 ==> Abs(n as real) > Abs(x))
  {}

  function SumReal(xs: seq<real>): real {
    if xs == [] then 0.0 else SumReal(xs[..|xs| - 1]) + xs[|xs| - 1]
  }

  /** The unrounded share of each line: in proportion to its total, or equal when the subtotal is not positive. */
  function ExactShares(totals: seq<real>, fixedTotal: int): (shares: seq<real>)
    ensures |shares| == |totals|
  {
    if totals == [] then []
    else if SumReal(totals) > 0.0 then Proportional(totals, fixedTotal as real, SumReal(totals))
    else seq(|totals|, _ => fixedTotal as real / |totals| as real)
  }

  function Proportional(totals: seq<real>, fixedTotal: real, subtotal: real): (shares: seq<real>)
    requires subtotal > 0.0
    ensures |shares| == |totals|
    ensures forall i :: 0 <= i < |totals| ==> shares[i] == fixedTotal * totals[i] / subtotal
  {
    seq(|totals|, i requires 0 <= i < |totals| => fixedTotal * totals[i] / subtotal)
  }

  function RoundAll(xs: seq<real>): (rounded: seq<int>)
    ensures |rounded| == |xs|
  {
    if xs == [] then [] else RoundAll(xs[..|xs| - 1]) + [RoundCents(xs[|xs| - 1])]
  }

  /** The allocation: rounded shares, and whatever is left for the last line. */
  function Shares(totals: seq<real>, fixedTotal: int): (shares: seq<int>)
    ensures |shares| == |totals|
  {
    if totals == [] then []
    else
      var head := RoundAll(ExactShares(totals, fixedTotal)[..|totals| - 1]);
      head + [fixedTotal - Sum(head)]
  }

  method AllocateFixedDealTotal(currentTotals: seq<real>, fixedTotal: int) returns (allocations: seq<int>)
    ensures allocations == Shares(currentTotals, fixedTotal)
  {
    if |currentTotals| == 0 {
      return [];
    }
    var currentSubtotal := SumReal(currentTotals);
    ghost var exact := ExactShares(currentTotals, fixedTotal);
    allocations := [];
    var allotted := 0;
    for index := 0 to |currentTotals|
      invariant index < |currentTotals| ==> allocations == RoundAll(exact[..index]) && allotted == Sum(allocations)
      invariant index == |currentTotals| ==> allocations == Shares(currentTotals, fixedTotal)
    {
      if index == |currentTotals| - 1 {
        RoundCentsWhole(fixedTotal - allotted);
        allocations := allocations + [RoundCents((fixedTotal - allotted) as real)];
      } else {
        var allocation := if currentSubtotal > 0.0
          then RoundCents(fixedTotal as real * currentTotals[index] / currentSubtotal)
          else RoundCents(fixedTotal as real / |currentTotals| as real);
        SumSnoc(allocations, allocation);
        allocations := allocations + [allocation];
        allotted := allotted + allocation;
        assert exact[..index + 1][..index] == exact[..index];
      }
    }
  }

  /** No cent of the fixed price is lost or invented, whichever branch computes the shares. */
  lemma {:induction false} SharesSum(totals: seq<real>, fixedTotal: int)
    requires totals != []
    ensures Sum(Shares(totals, fixedTotal)) == fixedTotal
  {
    var head := RoundAll(ExactShares(totals, fixedTotal)[..|totals| - 1]);
    SumSnoc(head, fixedTotal - Sum(head));
  }

  lemma {:induction false} ProportionalSum(totals: seq<real>, fixedTotal: real, subtotal: real)
    requires subtotal > 0.0
    ensures SumReal(Proportional(totals, fixedTotal, subtotal)) == fixedTotal * SumReal(totals) / subtotal
  {
    if totals != [] {
      var front, last := totals[..|totals| - 1], totals[|totals| - 1];
      ProportionalSum(front, fixedTotal, subtotal);
      ProportionalFront(totals, fixedTotal, subtotal);
      Distribute(fixedTotal, SumReal(front), last, subtotal);
    }
  }

  lemma {:induction false} ProportionalFront(totals: seq<real>, fixedTotal: real, subtotal: real)
    requires subtotal > 0.0 && totals != []
    ensures Proportional(totals, fixedTotal, subtotal)[..|totals| - 1]
            == Proportional(totals[..|totals| - 1], fixedTotal, subtotal)
  {
    var front, shares := totals[..|totals| - 1], Proportional(totals, fixedTotal, subtotal);
    assert forall i :: 0 <= i < |front| ==> shares[i] == Proportional(front, fixedTotal, subtotal)[i];
  }

  lemma {:induction false} Distribute(f: real, a: real, b: real, s: real)
    requires s > 0.0
    ensures f * a / s + f * b / s == f * (a + b) / s
  {}

  lemma {:induction false} EqualSum(n: nat, x: real)
    ensures SumReal(seq(n, _ => x)) == n as real * x
  {
    if n > 0 {
      EqualSum(n - 1, x);
      assert seq(n, _ => x)[..n - 1] == seq(n - 1, _ => x);
    }
  }

  /** The exact shares add up to the whole fixed price. */
  lemma {:induction false} ExactSharesSum(totals: seq<real>, fixedTotal: int)
    requires totals != []
    ensures SumReal(ExactShares(totals, fixedTotal)) == fixedTotal as real
  {
    if SumReal(totals) > 0.0 {
      ProportionalSum(totals, fixedTotal as real, SumReal(totals));
    } else {
      EqualSum(|totals|, fixedTotal as real / |totals| as real);
    }
  }

  lemma {:induction false} RoundAllEach(xs: seq<real>, i: nat)
    requires i < |xs|
    ensures RoundAll(xs)[i] == RoundCents(xs[i])
  {
    if i < |xs| - 1 {
      RoundAllEach(xs[..|xs| - 1], i);
    }
  }

  lemma {:induction false} AddErrors(a: real, b: real, c: real, d: real, e: real)
    requires Abs(a - b) <= e && Abs(c - d) <= 0.5
    ensures Abs((a + c) - (b + d)) <= e + 0.5
  {}

  /** Rounding n amounts moves their sum by at most n half cents. */
  lemma {:induction false} RoundAllNear(xs: seq<real>)
    ensures Abs(Sum(RoundAll(xs)) as real - SumReal(xs)) <= 0.5 * |xs| as real
  {
    if xs != [] {
      var front, last := xs[..|xs| - 1], xs[|xs| - 1];
      RoundAllNear(front);
      RoundCentsNearest(last);
      SumSnoc(RoundAll(front), RoundCents(last));
      AddErrors(Sum(RoundAll(front)) as real, SumReal(front), RoundCents(last) as real, last, 0.5 * |front| as real);
    }
  }

  /** Every share but the last is within half a cent of the exact share; the last of n within (n - 1) / 2 cents. */
  lemma {:induction false} SharesNear(totals: seq<real>, fixedTotal: int, i: nat)
    requires i < |totals|
    ensures Abs(Shares(totals, fixedTotal)[i] as real - ExactShares(totals, fixedTotal)[i])
            <= if i < |totals| - 1 then 0.5 else 0.5 * (|totals| - 1) as real
  {
    var head := ExactShares(totals, fixedTotal)[..|totals| - 1];
    if i < |head| {
      RoundAllEach(head, i);
      RoundCentsNearest(head[i]);
    } else {
      ExactSharesSum(totals, fixedTotal);
      RoundAllNear(head);
    }
  }

  /** The bound on the last share leaves room for a negative one: two cents over four equal lines. */
  lemma {:induction false} LastShareCanBeNegative()
    ensures Shares([1.0, 1.0, 1.0, 1.0], 2) == [1, 1, 1, -1]
  {
    var totals := [1.0, 1.0, 1.0, 1.0];
    EqualSum(4, 1.0);
    assert totals == seq(4, _ => 1.0);
    var exact := ExactShares(totals, 2);
    assert exact[..3] == [0.5, 0.5, 0.5];
    var halves := [0.5, 0.5, 0.5];
    assert halves[..2] == [0.5, 0.5] && halves[..2][..1] == [0.5];
    assert RoundAll([0.5]) == [1];
    assert RoundAll([0.5, 0.5]) == [1, 1];
    assert RoundAll(halves) == [1, 1, 1];
    SumSnoc([], 1);
    SumSnoc([1], 1);
    SumSnoc([1, 1], 1);
    assert [] + [1] == [1] && [1] + [1] == [1, 1] && [1, 1] + [1] == [1, 1, 1];
  }
}
