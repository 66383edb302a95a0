/** When the groups that are shown are those that are priced, for a deal of any required number of units. */
module ShownGroups {
  import opened Prelude
  import opened DealGroups
  import opened DealGroupLaws
  import opened UnsharedDeals

  /** Any `size` units of the deal's scope, without limits for single categories. */
  ghost predicate AnyNumber(pricing: Pricing, size: nat) {
    && pricing.selectionMode.FlexibleItems? && LimitedScopes(pricing) == []
    && size >= 1 && pricing.requiredQuantity == Some(size)
  }

  ghost predicate HaveUnits(lines: seq<DealLine>, indexes: seq<nat>)
    requires InRange(indexes, |lines|)
  {
    forall p :: 0 <= p < |indexes| ==> lines[indexes[p]].quantity > 0
  }

  /** The lines of the g-th run of `size` have the same quantity. */
  ghost predicate EvenRun(lines: seq<DealLine>, indexes: seq<nat>, size: nat, g: nat)
    requires InRange(indexes, |lines|) && size > 0 && g < GroupCount(|indexes|, size)
  {
    TimesMonotone(g + 1, GroupCount(|indexes|, size), size);
    forall p :: Times(g, size) <= p < Times(g + 1, size) ==>
      lines[indexes[p]].quantity == lines[indexes[Times(g, size)]].quantity
  }

  ghost predicate NoEvenRun(lines: seq<DealLine>, indexes: seq<nat>, size: nat)
    requires InRange(indexes, |lines|) && size > 0
  {
    forall g: nat :: g < GroupCount(|indexes|, size) ==> !EvenRun(lines, indexes, size, g)
  }

  function QuantitySum(lines: seq<DealLine>, indexes: seq<nat>): nat
    requires InRange(indexes, |lines|)
  {
    if indexes == [] then 0
    else QuantitySum(lines, indexes[..|indexes| - 1]) + lines[indexes[|indexes| - 1]].quantity
  }

  /** Every line of a complete run has one unit, and the other lines together make no further group. */
  ghost predicate SingleUnits(lines: seq<DealLine>, indexes: seq<nat>, size: nat)
    requires InRange(indexes, |lines|) && size > 0
  {
    var n := Times(GroupCount(|indexes|, size), size);
    && (forall p :: 0 <= p < n ==> lines[indexes[p]].quantity == 1)
    && QuantitySum(lines, indexes[n..]) < size
  }

  // ----- Units -----

  lemma {:induction false} UnitsCount(lines: seq<DealLine>, indexes: seq<nat>)
    requires InRange(indexes, |lines|)
    ensures |UnitsFor(lines, indexes)| == QuantitySum(lines, indexes)
  {
    if indexes != [] {
      UnitsCount(lines, indexes[..|indexes| - 1]);
    }
  }

  lemma {:induction false} UnitsConcat(lines: seq<DealLine>, xs: seq<nat>, ys: seq<nat>)
    requires InRange(xs, |lines|) && InRange(ys, |lines|)
    ensures InRange(xs + ys, |lines|) && UnitsFor(lines, xs + ys) == UnitsFor(lines, xs) + UnitsFor(lines, ys)
  {
    if ys == [] {
      assert xs + ys == xs;
    } else {
      UnitsConcat(lines, xs, ys[..|ys| - 1]);
      assert (xs + ys)[..|xs + ys| - 1] == xs + ys[..|ys| - 1];
    }
  }

  lemma {:induction false} SingleUnitsAre(lines: seq<DealLine>, indexes: seq<nat>)
    requires InRange(indexes, |lines|) && forall p :: 0 <= p < |indexes| ==> lines[indexes[p]].quantity == 1
    ensures UnitsFor(lines, indexes) == indexes
  {
    if indexes != [] {
      var front, last := indexes[..|indexes| - 1], indexes[|indexes| - 1];
      SingleUnitsAre(lines, front);
      assert indexes == front + [last];
    }
  }

  lemma {:induction false} AtLeastOneEach(lines: seq<DealLine>, indexes: seq<nat>)
    requires InRange(indexes, |lines|) && HaveUnits(lines, indexes)
    ensures QuantitySum(lines, indexes) >= |indexes|
  {
    if indexes != [] {
      AtLeastOneEach(lines, indexes[..|indexes| - 1]);
    }
  }

  function OneOfEach(indexes: seq<nat>): (entries: seq<Entry>)
    ensures |entries| == |indexes|
    ensures forall k :: 0 <= k < |indexes| ==> entries[k] == Entry(indexes[k], 1)
  {
    seq(|indexes|, k requires 0 <= k < |indexes| => Entry(indexes[k], 1))
  }

  lemma {:induction false} AscendingBelow(units: seq<nat>, n: nat)
    requires n > 0 && InRange(units, n) && Ascending(units)
    ensures var front := if units != [] && units[|units| - 1] == n - 1 then units[..|units| - 1] else units;
      InRange(front, n - 1) && Ascending(front) && n - 1 !in front
  {}

  /** Different units, in line order, make an entry each. */
  lemma {:induction false} CompactAscending(units: seq<nat>, n: nat)
    requires InRange(units, n) && Ascending(units)
    ensures Compact(units, n) == OneOfEach(units)
  {
    hide Compact, OneOfEach, Ascending, InRange;
    if n == 0 {
      NothingBelow(units);
    } else if units != [] && units[|units| - 1] == n - 1 {
      AscendingBelow(units, n);
      CompactAscending(units[..|units| - 1], n - 1);
      LastEach(units, n);
    } else {
      AscendingBelow(units, n);
      CompactSkips(units, n - 1);
      CompactAscending(units, n - 1);
    }
  }

  lemma {:induction false} NothingBelow(units: seq<nat>)
    requires InRange(units, 0)
    ensures Compact(units, 0) == OneOfEach(units)
  {
    hide InRange;
    if units != [] {
      BelowAt(units, 0, 0);
      assert false;
    }
  }

  lemma {:induction false} BelowAt(units: seq<nat>, n: nat, k: nat)
    requires InRange(units, n) && k < |units|
    ensures units[k] < n
  {}

  lemma {:induction false} LastEach(units: seq<nat>, n: nat)
    requires n > 0 && units != [] && units[|units| - 1] == n - 1 && n - 1 !in units[..|units| - 1]
    requires Compact(units[..|units| - 1], n - 1) == OneOfEach(units[..|units| - 1])
    ensures Compact(units, n) == OneOfEach(units)
  {
    hide Compact;
    var front := units[..|units| - 1];
    assert units == front + [n - 1];
    CompactLast(front, n - 1);
    OneMoreEach(front, n - 1);
  }

  lemma {:induction false} OneMoreEach(indexes: seq<nat>, i: nat)
    ensures OneOfEach(indexes + [i]) == OneOfEach(indexes) + [Entry(i, 1)]
  {}

  lemma {:induction false} CompactSkips(units: seq<nat>, n: nat)
    requires n !in units
    ensures Compact(units, n + 1) == Compact(units, n)
  {
    NoneCounted(units, n);
  }

  lemma {:induction false} CompactLast(units: seq<nat>, n: nat)
    requires n !in units
    ensures Compact(units + [n], n + 1) == Compact(units, n) + [Entry(n, 1)]
  {
    CountSnoc(units, n, n);
    NoneCounted(units, n);
    IgnoresBelow(units, n, n);
    hide Count;
  }

  /** A unit of line n does not change the entries of the lines before it. */
  lemma {:induction false} IgnoresBelow(units: seq<nat>, n: nat, m: nat)
    requires m <= n
    ensures Compact(units + [n], m) == Compact(units, m)
  {
    if m > 0 {
      IgnoresBelow(units, n, m - 1);
      CountSnoc(units, n, m - 1);
    }
  }

  // ----- Groups of whole lines -----

  lemma {:induction false} LineGroupCount(lines: seq<DealLine>, lists: seq<seq<nat>>)
    requires AllIn(lists, LessThan(|lines|))
    ensures |LineGroupsOf(lines, lists)| <= |lists|
    ensures |LineGroupsOf(lines, lists)| == |lists| ==>
      forall g :: 0 <= g < |lists| ==> InRange(lists[g], |lines|) && LineGroup(lines, lists[g]) == [LineGroupsOf(lines, lists)[g]]
  {
    if lists != [] {
      var n := |lists| - 1;
      LineGroupCount(lines, lists[..n]);
      AllLess(lists[n], |lines|);
      var groups, before, last := LineGroupsOf(lines, lists), LineGroupsOf(lines, lists[..n]), LineGroup(lines, lists[n]);
      assert groups == before + last && |last| <= 1;
      hide LineGroup;
      if |groups| == |lists| {
        forall g | 0 <= g < |lists|
          ensures InRange(lists[g], |lines|) && LineGroup(lines, lists[g]) == [groups[g]]
        {
          if g < n {
            assert lists[..n][g] == lists[g] && groups[g] == before[g];
          }
        }
      }
    }
  }

  lemma {:induction false} NoLineGroups(lines: seq<DealLine>, lists: seq<seq<nat>>)
    requires AllIn(lists, LessThan(|lines|))
    ensures LineGroupsOf(lines, lists) == []
            <==> forall g :: 0 <= g < |lists| ==> InRange(lists[g], |lines|) && LineGroup(lines, lists[g]) == []
  {
    if lists != [] {
      var n := |lists| - 1;
      NoLineGroups(lines, lists[..n]);
      AllLess(lists[n], |lines|);
      forall g | 0 <= g < |lists|
        ensures InRange(lists[g], |lines|)
      {
        AllLess(lists[g], |lines|);
      }
      hide LineGroup;
      assert forall g :: 0 <= g < n ==> lists[..n][g] == lists[g];
    }
  }

  lemma {:induction false} AllLineGroups(lines: seq<DealLine>, lists: seq<seq<nat>>, groups: seq<Group>)
    requires AllIn(lists, LessThan(|lines|)) && |groups| == |lists|
    requires forall g :: 0 <= g < |lists| ==> InRange(lists[g], |lines|) && LineGroup(lines, lists[g]) == [groups[g]]
    ensures LineGroupsOf(lines, lists) == groups
  {
    if lists != [] {
      var n := |lists| - 1;
      AllLineGroups(lines, lists[..n], groups[..n]);
      hide LineGroup;
      assert groups == groups[..n] + [groups[n]];
    }
  }

  // ----- The runs -----

  lemma {:induction false} RunGroup(lines: seq<DealLine>, indexes: seq<nat>, size: nat, g: nat)
    requires InRange(indexes, |lines|) && HaveUnits(lines, indexes) && size > 0 && g < GroupCount(|indexes|, size)
    ensures Times(g + 1, size) <= |indexes| && InRange(SizedList(indexes, size, g), |lines|)
    ensures LineGroup(lines, SizedList(indexes, size, g)) != [] <==> EvenRun(lines, indexes, size, g)
    ensures EvenRun(lines, indexes, size, g) ==>
      LineGroup(lines, SizedList(indexes, size, g))[0].quantity == lines[indexes[Times(g, size)]].quantity
  {
    TimesMonotone(g + 1, GroupCount(|indexes|, size), size);
    var list := SizedList(indexes, size, g);
    assert Times(g + 1, size) == Times(g, size) + size;
    RunQuantity(lines, indexes, list, size, g);
  }

  /** A run has a common quantity exactly when it is even. */
  lemma {:induction false} RunQuantity(lines: seq<DealLine>, indexes: seq<nat>, list: seq<nat>, size: nat, g: nat)
    requires InRange(indexes, |lines|) && size > 0 && g < GroupCount(|indexes|, size) && InRange(list, |lines|)
    requires Times(g + 1, size) <= |indexes| && list == SizedList(indexes, size, g)
    ensures SingleQuantity(lines, list) == if EvenRun(lines, indexes, size, g) then lines[indexes[Times(g, size)]].quantity else 0
  {
    assert Times(g + 1, size) == Times(g, size) + size && |list| == size;
    assert list[0] == indexes[Times(g, size)];
    if EvenRun(lines, indexes, size, g) {
      forall k | 0 <= k < size
        ensures lines[list[k]].quantity == lines[list[0]].quantity
      {
        assert list[k] == indexes[Times(g, size) + k];
      }
    } else {
      var p :| Times(g, size) <= p < Times(g + 1, size)
               && lines[indexes[p]].quantity != lines[indexes[Times(g, size)]].quantity;
      assert list[p - Times(g, size)] == indexes[p];
    }
  }

  lemma {:induction false} NoRuns(lines: seq<DealLine>, indexes: seq<nat>, size: nat)
    requires InRange(indexes, |lines|) && HaveUnits(lines, indexes) && size > 0
    ensures AllIn(SizedLists(indexes, size), LessThan(|lines|))
    ensures LineGroupsOf(lines, SizedLists(indexes, size)) == [] <==> NoEvenRun(lines, indexes, size)
  {
    hide LineGroup, EvenRun, SizedList, HaveUnits;
    var lists := SizedLists(indexes, size);
    AllLess(indexes, |lines|);
    SizedListsKeep(indexes, size, LessThan(|lines|));
    NoLineGroups(lines, lists);
    forall g: nat | g < |lists|
      ensures Times(g + 1, size) <= |indexes| && InRange(lists[g], |lines|)
      ensures LineGroup(lines, lists[g]) == [] <==> !EvenRun(lines, indexes, size, g)
    {
      RunGroup(lines, indexes, size, g);
    }
  }

  // ----- Agreement -----

  lemma {:induction false} QuantitySplit(lines: seq<DealLine>, indexes: seq<nat>, n: nat)
    requires InRange(indexes, |lines|) && n <= |indexes|
    ensures UnitsFor(lines, indexes) == UnitsFor(lines, indexes[..n]) + UnitsFor(lines, indexes[n..])
    ensures QuantitySum(lines, indexes) == QuantitySum(lines, indexes[..n]) + QuantitySum(lines, indexes[n..])
  {
    assert indexes == indexes[..n] + indexes[n..];
    UnitsConcat(lines, indexes[..n], indexes[n..]);
    UnitsCount(lines, indexes);
    UnitsCount(lines, indexes[..n]);
    UnitsCount(lines, indexes[n..]);
  }

  /** Runs of single units: the unit groups are the runs. */
  lemma {:induction false} SingleRuns(lines: seq<DealLine>, indexes: seq<nat>, size: nat)
    requires InRange(indexes, |lines|) && Ascending(indexes) && size > 0 && SingleUnits(lines, indexes, size)
    ensures var groups := QuantityGroups(lines, UnitsFor(lines, indexes), size);
      && |groups| == GroupCount(|indexes|, size)
      && forall g :: 0 <= g < |groups| ==> groups[g] == Group(OneOfEach(SizedList(indexes, size, g)), 1)
  {
    var k, n, units := GroupCount(|indexes|, size), Times(GroupCount(|indexes|, size), size), UnitsFor(lines, indexes);
    RunsFirst(lines, indexes, size);
    SameCount(|units|, size, k);
    hide UnitsFor, SingleUnits, Ascending, InRange, SizedList;
    forall g | 0 <= g < k
      ensures QuantityGroup(lines, units, size, g) == Group(OneOfEach(SizedList(indexes, size, g)), 1)
    {
      RunOfUnits(lines, indexes, units, size, g);
    }
  }

  /** The runs' lines come first among the units, once each, and what follows is less than a group. */
  lemma {:induction false} RunsFirst(lines: seq<DealLine>, indexes: seq<nat>, size: nat)
    requires InRange(indexes, |lines|) && size > 0 && SingleUnits(lines, indexes, size)
    ensures var n, units := Times(GroupCount(|indexes|, size), size), UnitsFor(lines, indexes);
      n <= |units| < n + size && units[..n] == indexes[..n]
  {
    var n := Times(GroupCount(|indexes|, size), size);
    QuantitySplit(lines, indexes, n);
    SingleUnitsAre(lines, indexes[..n]);
    UnitsCount(lines, indexes[n..]);
  }

  lemma {:induction false} RunOfUnits(lines: seq<DealLine>, indexes: seq<nat>, units: seq<nat>, size: nat, g: nat)
    requires InRange(indexes, |lines|) && Ascending(indexes) && size > 0 && g < GroupCount(|indexes|, size)
    requires var n := Times(GroupCount(|indexes|, size), size); n <= |units| && units[..n] == indexes[..n]
    requires g < GroupCount(|units|, size)
    ensures QuantityGroup(lines, units, size, g) == Group(OneOfEach(SizedList(indexes, size, g)), 1)
  {
    var n, to := Times(GroupCount(|indexes|, size), size), Times(g + 1, size);
    TimesMonotone(g + 1, GroupCount(|indexes|, size), size);
    TimesMonotone(g, g + 1, size);
    assert units[..n][..to] == units[..to] && indexes[..n][..to] == indexes[..to];
    assert units[Times(g, size)..to] == units[..to][Times(g, size)..];
    assert indexes[Times(g, size)..to] == indexes[..to][Times(g, size)..];
    SliceOrdered(indexes, |lines|, g, size);
    hide Slice, Compact, Ascending, InRange;
    CompactAscending(Slice(indexes, g, size), |lines|);
  }

  lemma {:induction false} SliceOrdered(indexes: seq<nat>, n: nat, g: nat, size: nat)
    requires InRange(indexes, n) && Ascending(indexes) && Times(g + 1, size) <= |indexes|
    ensures InRange(Slice(indexes, g, size), n) && Ascending(Slice(indexes, g, size))
  {
    TimesMonotone(g, g + 1, size);
  }

  lemma {:induction false} SameCount(n: nat, size: nat, k: nat)
    requires size > 0 && Times(k, size) <= n < Times(k + 1, size)
    ensures GroupCount(n, size) == k
  {
    var m := GroupCount(n, size);
    if m < k {
      TimesMonotone(m + 1, k, size);
    } else if k < m {
      TimesMonotone(k + 1, m, size);
    }
  }

  lemma {:induction false} SingleLineGroups(lines: seq<DealLine>, indexes: seq<nat>, size: nat)
    requires InRange(indexes, |lines|) && Ascending(indexes) && size > 0 && SingleUnits(lines, indexes, size)
    ensures AllIn(SizedLists(indexes, size), LessThan(|lines|))
    ensures LineGroupsOf(lines, SizedLists(indexes, size)) == QuantityGroups(lines, UnitsFor(lines, indexes), size)
  {
    var lists, groups := SizedLists(indexes, size), QuantityGroups(lines, UnitsFor(lines, indexes), size);
    AllLess(indexes, |lines|);
    SizedListsKeep(indexes, size, LessThan(|lines|));
    SingleRuns(lines, indexes, size);
    forall g | 0 <= g < |lists|
      ensures InRange(lists[g], |lines|) && LineGroup(lines, lists[g]) == [groups[g]]
    {
      AllLess(lists[g], |lines|);
      SingleLineGroup(lines, indexes, size, g);
    }
    hide LineGroup;
    AllLineGroups(lines, lists, groups);
  }

  lemma {:induction false} SingleLineGroup(lines: seq<DealLine>, indexes: seq<nat>, size: nat, g: nat)
    requires InRange(indexes, |lines|) && size > 0 && SingleUnits(lines, indexes, size) && g < GroupCount(|indexes|, size)
    requires InRange(SizedList(indexes, size, g), |lines|)
    ensures LineGroup(lines, SizedList(indexes, size, g)) == [Group(OneOfEach(SizedList(indexes, size, g)), 1)]
  {
    var list := SizedList(indexes, size, g);
    TimesMonotone(g + 1, GroupCount(|indexes|, size), size);
    forall k | 0 <= k < size
      ensures lines[list[k]].quantity == 1
    {
      assert Times(g + 1, size) == Times(g, size) + size;
      assert list[k] == indexes[Times(g, size) + k];
    }
    assert SingleQuantity(lines, list) == 1;
    assert seq(|list|, k requires 0 <= k < |list| => Entry(list[k], 1)) == OneOfEach(list);
  }

  /** Line groups that equal the unit groups: as many as there are runs, each of one unit a line. */
  lemma {:induction false} EqualMeansSingle(lines: seq<DealLine>, indexes: seq<nat>, size: nat)
    requires InRange(indexes, |lines|) && HaveUnits(lines, indexes) && size > 0
    requires AllIn(SizedLists(indexes, size), LessThan(|lines|))
    requires LineGroupsOf(lines, SizedLists(indexes, size)) == QuantityGroups(lines, UnitsFor(lines, indexes), size)
    ensures SingleUnits(lines, indexes, size)
  {
    var n := Times(GroupCount(|indexes|, size), size);
    EveryRunGrouped(lines, indexes, size);
    hide LineGroup, LineGroupsOf, UnitsFor, HaveUnits, SizedLists;
    forall p | 0 <= p < n
      ensures lines[indexes[p]].quantity == 1
    {
      var g := RunAt(p, size, GroupCount(|indexes|, size));
      OneUnitEach(lines, indexes, size, g, p);
    }
    RestIsLess(lines, indexes, size);
  }

  lemma {:induction false} EveryRunGrouped(lines: seq<DealLine>, indexes: seq<nat>, size: nat)
    requires InRange(indexes, |lines|) && HaveUnits(lines, indexes) && size > 0
    requires AllIn(SizedLists(indexes, size), LessThan(|lines|))
    requires LineGroupsOf(lines, SizedLists(indexes, size)) == QuantityGroups(lines, UnitsFor(lines, indexes), size)
    ensures |QuantityGroups(lines, UnitsFor(lines, indexes), size)| == GroupCount(|indexes|, size)
    ensures GroupCount(QuantitySum(lines, indexes), size) == GroupCount(|indexes|, size)
    ensures forall g :: 0 <= g < GroupCount(|indexes|, size) ==>
      && InRange(SizedList(indexes, size, g), |lines|)
      && LineGroup(lines, SizedList(indexes, size, g)) != [] && LineGroup(lines, SizedList(indexes, size, g))[0].quantity == 1
  {
    hide LineGroup, LineGroupsOf, UnitsFor, SizedList;
    LineGroupCount(lines, SizedLists(indexes, size));
    UnitsCount(lines, indexes);
    AtLeastOneEach(lines, indexes);
    EnoughGroups(|indexes|, QuantitySum(lines, indexes), size);
  }

  lemma {:induction false} OneUnitEach(lines: seq<DealLine>, indexes: seq<nat>, size: nat, g: nat, p: nat)
    requires InRange(indexes, |lines|) && HaveUnits(lines, indexes) && size > 0 && g < GroupCount(|indexes|, size)
    requires Times(g, size) <= p < Times(g + 1, size)
    requires InRange(SizedList(indexes, size, g), |lines|)
    requires LineGroup(lines, SizedList(indexes, size, g)) != [] && LineGroup(lines, SizedList(indexes, size, g))[0].quantity == 1
    ensures p < |indexes| && lines[indexes[p]].quantity == 1
  {
    hide LineGroup, SizedList, HaveUnits;
    RunGroup(lines, indexes, size, g);
  }

  lemma {:induction false} RestIsLess(lines: seq<DealLine>, indexes: seq<nat>, size: nat)
    requires InRange(indexes, |lines|) && size > 0
    requires GroupCount(QuantitySum(lines, indexes), size) == GroupCount(|indexes|, size)
    requires forall p :: 0 <= p < Times(GroupCount(|indexes|, size), size) ==> lines[indexes[p]].quantity == 1
    ensures QuantitySum(lines, indexes[Times(GroupCount(|indexes|, size), size)..]) < size
  {
    var n := Times(GroupCount(|indexes|, size), size);
    QuantitySplit(lines, indexes, n);
    SingleUnitsAre(lines, indexes[..n]);
    UnitsCount(lines, indexes[..n]);
  }

  lemma {:induction false} EnoughGroups(m: nat, n: nat, size: nat)
    requires size > 0 && m <= n
    ensures GroupCount(m, size) <= GroupCount(n, size)
  {
    if GroupCount(m, size) > GroupCount(n, size) {
      TimesMonotone(GroupCount(n, size) + 1, GroupCount(m, size), size);
    }
  }

  /** The run that holds a position. */
  lemma {:induction false} RunAt(p: nat, size: nat, k: nat) returns (g: nat)
    requires size > 0 && p < Times(k, size)
    ensures g < k && Times(g, size) <= p < Times(g + 1, size)
  {
    g := GroupCount(p, size);
    if g >= k {
      TimesMonotone(k, g, size);
    }
  }

  /** For a deal of any number of units, on lines that have units, the groups shown are those priced exactly when no run
      of lines has one common quantity, or every line of a run is a single unit and the lines left over make no further
      group. */
  lemma {:induction false} ShownArePriced(lines: seq<DealLine>, dealId: string, pricing: Pricing, size: nat)
    requires AnyNumber(pricing, size) && HaveUnits(lines, EligibleIndexes(lines, dealId, pricing))
    ensures DisplayGroups(lines, dealId, pricing) == PricingGroups(lines, dealId, pricing)
            <==> NoEvenRun(lines, EligibleIndexes(lines, dealId, pricing), size)
                 || SingleUnits(lines, EligibleIndexes(lines, dealId, pricing), size)
  {
    var indexes := EligibleIndexes(lines, dealId, pricing);
    NoRuns(lines, indexes, size);
    BothGroups(lines, dealId, pricing, size);
    hide DisplayGroups, PricingGroups, LineGroupsOf, QuantityGroups, UnitsFor, NoEvenRun, SingleUnits, EligibleIndexes;
    if SingleUnits(lines, indexes, size) {
      SingleLineGroups(lines, indexes, size);
    }
    if LineGroupsOf(lines, SizedLists(indexes, size)) == QuantityGroups(lines, UnitsFor(lines, indexes), size) {
      EqualMeansSingle(lines, indexes, size);
    }
  }

  lemma {:induction false} BothGroups(lines: seq<DealLine>, dealId: string, pricing: Pricing, size: nat)
    requires AnyNumber(pricing, size)
    ensures var indexes := EligibleIndexes(lines, dealId, pricing);
      && AllIn(SizedLists(indexes, size), LessThan(|lines|))
      && var units, whole := QuantityGroups(lines, UnitsFor(lines, indexes), size), LineGroupsOf(lines, SizedLists(indexes, size));
      && PricingGroups(lines, dealId, pricing) == units
      && DisplayGroups(lines, dealId, pricing) == if whole != [] then whole else units
  {
    var indexes := EligibleIndexes(lines, dealId, pricing);
    AllLess(indexes, |lines|);
    SizedListsKeep(indexes, size, LessThan(|lines|));
    if indexes == [] {
      NothingEligible(lines, indexes, size);
    }
    hide EligibleIndexes, LineGroupsOf, SizedLists, QuantityGroups;
  }

  lemma {:induction false} NothingEligible(lines: seq<DealLine>, indexes: seq<nat>, size: nat)
    requires indexes == [] && size > 0
    ensures AllIn(SizedLists(indexes, size), LessThan(|lines|)) && LineGroupsOf(lines, SizedLists(indexes, size)) == []
    ensures QuantityGroups(lines, UnitsFor(lines, indexes), size) == []
  {
    SameCount(0, size, 0);
    assert SizedLists(indexes, size) == [];
  }

  // ----- An input where they differ -----

  function UnitsOfItem(quantity: nat): DealLine { DealLine(Some("d"), "m", [], quantity) }

  function PairOf(fixedPrice: int): Pricing { Pricing(FlexibleItems, ["m"], [], Some(2), fixedPrice) }

  /** Lines of two, two and five units, any two for a price: four groups are priced, and one card of two is shown. */
  lemma {:induction false} PricedNotShown(fixedPrice: int)
    ensures var lines := [UnitsOfItem(2), UnitsOfItem(2), UnitsOfItem(5)];
      && |PricingGroups(lines, "d", PairOf(fixedPrice))| == 4
      && DisplayGroups(lines, "d", PairOf(fixedPrice)) == [Group([Entry(0, 2), Entry(1, 2)], 2)]
  {
    var lines := [UnitsOfItem(2), UnitsOfItem(2), UnitsOfItem(5)];
    AllThree(lines, fixedPrice);
    BothGroups(lines, "d", PairOf(fixedPrice), 2);
    NineUnits(lines);
    FirstTwo(lines);
    hide PricingGroups, DisplayGroups, EligibleIndexes, LineGroupsOf, SizedLists, UnitsFor;
    TimesProduct(4, 2);
    TimesProduct(5, 2);
    SameCount(9, 2, 4);
  }

  lemma {:induction false} AllThree(lines: seq<DealLine>, fixedPrice: int)
    requires lines == [UnitsOfItem(2), UnitsOfItem(2), UnitsOfItem(5)]
    ensures EligibleIndexes(lines, "d", PairOf(fixedPrice)) == [0, 1, 2] && AnyNumber(PairOf(fixedPrice), 2)
  {
    var all: seq<nat> := [0, 1, 2];
    assert Indexes(3) == all;
    assert "m" in PairOf(fixedPrice).menuItemIds;
    FilterAll(all, EligibleAt(lines, "d", PairOf(fixedPrice)));
  }

  lemma {:induction false} NineUnits(lines: seq<DealLine>)
    requires lines == [UnitsOfItem(2), UnitsOfItem(2), UnitsOfItem(5)]
    ensures |UnitsFor(lines, [0, 1, 2])| == 9
  {
    var all: seq<nat> := [0, 1, 2];
    UnitsCount(lines, all);
    assert all[..2] == [0, 1] && all[..2][..1] == [0] && all[..2][..1][..0] == [];
    assert QuantitySum(lines, all[..2][..1][..0]) == 0;
    assert QuantitySum(lines, all[..2][..1]) == 2;
    assert QuantitySum(lines, all[..2]) == 4;
  }

  lemma {:induction false} FirstTwo(lines: seq<DealLine>)
    requires lines == [UnitsOfItem(2), UnitsOfItem(2), UnitsOfItem(5)]
    ensures AllIn(SizedLists([0, 1, 2], 2), LessThan(|lines|))
    ensures LineGroupsOf(lines, SizedLists([0, 1, 2], 2)) == [Group([Entry(0, 2), Entry(1, 2)], 2)]
  {
    var all: seq<nat>, pair: seq<nat> := [0, 1, 2], [0, 1];
    assert Times(0, 2) == 0 && Times(1, 2) == 2 && Times(2, 2) == 4;
    SameCount(3, 2, 1);
    assert Slice(all, 0, 2) == pair;
    assert SizedLists(all, 2) == [pair];
    AllLess(pair, 3);
    assert SingleQuantity(lines, pair) == 2;
    assert seq(2, k requires 0 <= k < 2 => Entry(pair[k], 2)) == [Entry(0, 2), Entry(1, 2)];
    assert LineGroup(lines, pair) == [Group([Entry(0, 2), Entry(1, 2)], 2)];
    assert [pair][..0] == [];
  }
}
