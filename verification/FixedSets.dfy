/** How many complete sets of a fixed item set are formed, and of which lines, counted on the cart. */
module FixedSets {
  import opened Prelude
  import opened DealGroups
  import opened DealGroupLaws
  import FixedDeals

  /** The deal's line of an item. */
  predicate HasItem(line: DealLine, dealId: string, menuItemId: string) {
    line.dealId == Some(dealId) && line.menuItemId == menuItemId
  }

  /** How many lines of the deal have an item. */
  function LinesWith(lines: seq<DealLine>, dealId: string, menuItemId: string): nat {
    if lines == [] then 0
    else
      var n := |lines| - 1;
      LinesWith(lines[..n], dealId, menuItemId) + (if HasItem(lines[n], dealId, menuItemId) then 1 else 0)
  }

  /** Line i is the deal's line of an item that has g such lines before it. */
  predicate IsNthLine(lines: seq<DealLine>, dealId: string, menuItemId: string, g: nat, i: nat) {
    i < |lines| && HasItem(lines[i], dealId, menuItemId) && LinesWith(lines[..i], dealId, menuItemId) == g
  }

  /** The g-th lines of all items exist and have the same positive quantity. */
  ghost predicate EvenSet(lines: seq<DealLine>, dealId: string, menuItemIds: seq<string>, g: nat, quantity: nat) {
    quantity > 0 && forall k :: 0 <= k < |menuItemIds| ==>
      exists i: nat :: IsNthLine(lines, dealId, menuItemIds[k], g, i) && lines[i].quantity == quantity
  }

  /** The g-th lines of all items make a set. */
  ghost predicate IsEven(lines: seq<DealLine>, dealId: string, menuItemIds: seq<string>, g: nat) {
    exists quantity: nat :: EvenSet(lines, dealId, menuItemIds, g, quantity)
  }

  /** A group of the g-th line of every item, in the items' order, each taken whole. */
  ghost predicate IsSetOf(lines: seq<DealLine>, dealId: string, menuItemIds: seq<string>, g: nat, group: Group) {
    && group.quantity > 0 && |group.entries| == |menuItemIds|
    && forall k :: 0 <= k < |menuItemIds| ==>
      && IsNthLine(lines, dealId, menuItemIds[k], g, group.entries[k].index)
      && lines[group.entries[k].index].quantity == group.entries[k].quantity == group.quantity
  }

  // ----- Counting -----

  lemma {:induction false} CountUpTo(lines: seq<DealLine>, dealId: string, menuItemId: string, n: nat)
    requires n <= |lines|
    ensures |Filter(Indexes(n), ItemAt(lines, dealId, menuItemId))| == LinesWith(lines[..n], dealId, menuItemId)
  {
    if n > 0 {
      CountUpTo(lines, dealId, menuItemId, n - 1);
      assert Indexes(n)[..n - 1] == Indexes(n - 1);
      assert lines[..n][..n - 1] == lines[..n - 1] && lines[..n][n - 1] == lines[n - 1];
    }
  }

  lemma {:induction false} FilterAt(n: nat, keep: nat -> bool, p: nat, i: nat)
    ensures p < |Filter(Indexes(n), keep)| && Filter(Indexes(n), keep)[p] == i
            <==> i < n && keep(i) && |Filter(Indexes(i), keep)| == p
  {
    if n > 0 {
      assert Indexes(n)[..n - 1] == Indexes(n - 1);
      FilterAt(n - 1, keep, p, i);
      if i < n - 1 && keep(i) {
        FilterGrows(i, n - 1, keep);
      }
    }
  }

  /** An accepted index makes the filtered list longer from then on. */
  lemma {:induction false} FilterGrows(i: nat, n: nat, keep: nat -> bool)
    requires i < n && keep(i)
    ensures |Filter(Indexes(i), keep)| < |Filter(Indexes(n), keep)|
    decreases n
  {
    assert Indexes(n)[..n - 1] == Indexes(n - 1);
    if i < n - 1 {
      FilterGrows(i, n - 1, keep);
    }
  }

  /** The deal's lines of an item, by rank. */
  lemma {:induction false} NthLines(lines: seq<DealLine>, dealId: string, menuItemId: string)
    ensures |ItemIndexes(lines, dealId, menuItemId)| == LinesWith(lines, dealId, menuItemId)
    ensures forall g: nat, i: nat ::
      (IsNthLine(lines, dealId, menuItemId, g, i)
      <==> g < |ItemIndexes(lines, dealId, menuItemId)| && ItemIndexes(lines, dealId, menuItemId)[g] == i)
  {
    var keep := ItemAt(lines, dealId, menuItemId);
    CountUpTo(lines, dealId, menuItemId, |lines|);
    assert lines[..|lines|] == lines;
    forall g: nat, i: nat
      ensures IsNthLine(lines, dealId, menuItemId, g, i)
        <==> g < |ItemIndexes(lines, dealId, menuItemId)| && ItemIndexes(lines, dealId, menuItemId)[g] == i
    {
      FilterAt(|lines|, keep, g, i);
      if i < |lines| {
        CountUpTo(lines, dealId, menuItemId, i);
      }
    }
  }

  /** The lists are as many as the scarcest item has lines. */
  lemma {:induction false} CountIsScarcest(lines: seq<DealLine>, dealId: string, menuItemIds: seq<string>)
    requires menuItemIds != []
    ensures forall k :: 0 <= k < |menuItemIds| ==>
      ItemGroupCount(lines, dealId, menuItemIds) <= LinesWith(lines, dealId, menuItemIds[k])
    ensures exists k :: 0 <= k < |menuItemIds| && ItemGroupCount(lines, dealId, menuItemIds) == LinesWith(lines, dealId, menuItemIds[k])
  {
    var n := |menuItemIds| - 1;
    hide ItemIndexes, LinesWith;
    NthLines(lines, dealId, menuItemIds[n]);
    if n > 0 {
      CountIsScarcest(lines, dealId, menuItemIds[..n]);
      var k :| 0 <= k < n && ItemGroupCount(lines, dealId, menuItemIds[..n]) == LinesWith(lines, dealId, menuItemIds[..n][k]);
      assert menuItemIds[..n][k] == menuItemIds[k];
      forall l | 0 <= l < |menuItemIds|
        ensures ItemGroupCount(lines, dealId, menuItemIds) <= LinesWith(lines, dealId, menuItemIds[l])
      {
        assert l < n ==> menuItemIds[..n][l] == menuItemIds[l];
      }
    }
  }

  // ----- The groups -----

  /** The group of one list, if its lines agree. */
  lemma {:induction false} ListGroupIsSet(lines: seq<DealLine>, dealId: string, menuItemIds: seq<string>, g: nat)
    requires menuItemIds != [] && g < ItemGroupCount(lines, dealId, menuItemIds)
    ensures InRange(ItemList(lines, dealId, menuItemIds, g), |lines|)
    ensures var groups := LineGroup(lines, ItemList(lines, dealId, menuItemIds, g));
      && |groups| <= 1
      && (groups != [] <==> IsEven(lines, dealId, menuItemIds, g))
      && (groups != [] ==> IsSetOf(lines, dealId, menuItemIds, g, groups[0]))
  {
    var list := ItemList(lines, dealId, menuItemIds, g);
    forall k | 0 <= k < |list|
      ensures IsNthLine(lines, dealId, menuItemIds[k], g, list[k])
      ensures forall i: nat :: IsNthLine(lines, dealId, menuItemIds[k], g, i) ==> i == list[k]
    {
      NthLines(lines, dealId, menuItemIds[k]);
    }
    hide ItemIndexes, ItemGroupCount, ItemList, IsNthLine, LinesWith;
    ListInRange(lines, dealId, menuItemIds, g, list);
    AgreeingLines(lines, list);
    if LineGroup(lines, list) != [] {
      assert EvenSet(lines, dealId, menuItemIds, g, lines[list[0]].quantity);
    }
    if IsEven(lines, dealId, menuItemIds, g) {
      var quantity: nat :| EvenSet(lines, dealId, menuItemIds, g, quantity);
      forall k | 0 <= k < |list|
        ensures lines[list[k]].quantity == quantity
      {
        var i: nat :| IsNthLine(lines, dealId, menuItemIds[k], g, i) && lines[i].quantity == quantity;
      }
    }
  }

  lemma {:induction false} ListInRange(
    lines: seq<DealLine>, dealId: string, menuItemIds: seq<string>, g: nat, list: seq<nat>)
    requires |list| == |menuItemIds|
    requires forall k :: 0 <= k < |list| ==> IsNthLine(lines, dealId, menuItemIds[k], g, list[k])
    ensures InRange(list, |lines|)
  {}

  lemma {:induction false} AgreeingLines(lines: seq<DealLine>, list: seq<nat>)
    requires InRange(list, |lines|) && list != []
    ensures |LineGroup(lines, list)| <= 1
    ensures LineGroup(lines, list) != []
            <==> lines[list[0]].quantity > 0 && forall k :: 0 <= k < |list| ==> lines[list[k]].quantity == lines[list[0]].quantity
    ensures LineGroup(lines, list) != [] ==>
      var group := LineGroup(lines, list)[0];
      && group.quantity == lines[list[0]].quantity && |group.entries| == |list|
      && forall k :: 0 <= k < |list| ==> group.entries[k] == Entry(list[k], lines[list[k]].quantity)
  {}

  lemma {:induction false} LineGroupsSnoc(lines: seq<DealLine>, lists: seq<seq<nat>>)
    requires AllIn(lists, LessThan(|lines|)) && lists != []
    ensures AllIn(lists[..|lists| - 1], LessThan(|lines|)) && InRange(lists[|lists| - 1], |lines|)
    ensures LineGroupsOf(lines, lists)
         == LineGroupsOf(lines, lists[..|lists| - 1]) + LineGroup(lines, lists[|lists| - 1])
  {
    AllLess(lists[|lists| - 1], |lines|);
  }

  /** List g forms a group. */
  ghost predicate Forms(lines: seq<DealLine>, lists: seq<seq<nat>>, g: nat) {
    g < |lists| && InRange(lists[g], |lines|) && LineGroup(lines, lists[g]) != []
  }

  /** The groups are those of the lists that form one, in order. */
  ghost predicate FormedBy(lines: seq<DealLine>, lists: seq<seq<nat>>, ranks: seq<nat>, groups: seq<Group>) {
    && Ascending(ranks) && (forall g: nat :: g in ranks <==> Forms(lines, lists, g))
    && |groups| == |ranks|
    && forall j :: 0 <= j < |ranks| && Forms(lines, lists, ranks[j]) ==> groups[j] == LineGroup(lines, lists[ranks[j]])[0]
  }

  lemma {:induction false} GroupsFormed(lines: seq<DealLine>, lists: seq<seq<nat>>) returns (ranks: seq<nat>)
    requires AllIn(lists, LessThan(|lines|))
    ensures FormedBy(lines, lists, ranks, LineGroupsOf(lines, lists))
  {
    ranks := [];
    if lists != [] {
      var n := |lists| - 1;
      LineGroupsSnoc(lines, lists);
      AtMostOne(lines, lists[n]);
      hide LineGroup, LineGroupsOf, FormedBy, AllIn, InRange;
      var before := GroupsFormed(lines, lists[..n]);
      OneMoreFormed(lines, lists, before, LineGroupsOf(lines, lists[..n]));
      ranks := before + if LineGroup(lines, lists[n]) == [] then [] else [n];
    }
  }

  lemma {:induction false} AtMostOne(lines: seq<DealLine>, list: seq<nat>)
    requires InRange(list, |lines|)
    ensures |LineGroup(lines, list)| <= 1
  {}

  lemma {:induction false} OneMoreFormed(lines: seq<DealLine>, lists: seq<seq<nat>>, ranks: seq<nat>, groups: seq<Group>)
    requires lists != [] && InRange(lists[|lists| - 1], |lines|) && |LineGroup(lines, lists[|lists| - 1])| <= 1
    requires FormedBy(lines, lists[..|lists| - 1], ranks, groups)
    ensures var last := LineGroup(lines, lists[|lists| - 1]);
      FormedBy(lines, lists, ranks + if last == [] then [] else [|lists| - 1], groups + last)
  {
    hide LineGroup, InRange;
    var n, last := |lists| - 1, LineGroup(lines, lists[|lists| - 1]);
    var more, all := ranks + if last == [] then [] else [n], groups + last;
    forall g: nat
      ensures g != n ==> (Forms(lines, lists, g) <==> Forms(lines, lists[..n], g))
      ensures g in ranks ==> g < n && Forms(lines, lists, g)
      ensures Forms(lines, lists, n) <==> last != []
    {}
    forall j, k | 0 <= j < k < |more|
      ensures more[j] < more[k]
    {
      assert ranks[j] in ranks;
    }
    forall j | 0 <= j < |more| && Forms(lines, lists, more[j])
      ensures all[j] == LineGroup(lines, lists[more[j]])[0]
    {
      assert j < |ranks| ==> ranks[j] in ranks;
    }
  }

  /** The groups of a fixed deal, priced and shown, are its even sets, in order: no rank is left out or taken twice. */
  ghost predicate AreTheSets(
    lines: seq<DealLine>, dealId: string, menuItemIds: seq<string>, ranks: seq<nat>, groups: seq<Group>)
  {
    && Ascending(ranks) && (forall g: nat :: g in ranks <==> IsEven(lines, dealId, menuItemIds, g))
    && |groups| == |ranks|
    && forall j :: 0 <= j < |ranks| ==> IsSetOf(lines, dealId, menuItemIds, ranks[j], groups[j])
  }

  lemma {:induction false} FormsWhenEven(lines: seq<DealLine>, dealId: string, menuItemIds: seq<string>, g: nat)
    requires menuItemIds != []
    ensures var lists := ItemLists(lines, dealId, menuItemIds);
      && (Forms(lines, lists, g) <==> IsEven(lines, dealId, menuItemIds, g))
      && (Forms(lines, lists, g) ==> IsSetOf(lines, dealId, menuItemIds, g, LineGroup(lines, lists[g])[0]))
  {
    var lists := ItemLists(lines, dealId, menuItemIds);
    hide IsEven, IsSetOf, LineGroup, ItemGroupCount, ItemList;
    if g < |lists| {
      ListGroupIsSet(lines, dealId, menuItemIds, g);
    } else if IsEven(lines, dealId, menuItemIds, g) {
      EvenRank(lines, dealId, menuItemIds, g);
    }
  }

  lemma {:induction false} FixedGroupsExactly(lines: seq<DealLine>, dealId: string, pricing: Pricing)
    requires pricing.selectionMode.FixedItems? && pricing.menuItemIds != []
    ensures PricingGroups(lines, dealId, pricing) == DisplayGroups(lines, dealId, pricing)
    ensures exists ranks :: AreTheSets(lines, dealId, pricing.menuItemIds, ranks, PricingGroups(lines, dealId, pricing))
  {
    var menuItemIds := pricing.menuItemIds;
    var lists, groups := ItemLists(lines, dealId, menuItemIds), PricingGroups(lines, dealId, pricing);
    var ranks := GroupsFormed(lines, lists);
    forall g: nat
      ensures Forms(lines, lists, g) <==> IsEven(lines, dealId, menuItemIds, g)
      ensures Forms(lines, lists, g) ==> IsSetOf(lines, dealId, menuItemIds, g, LineGroup(lines, lists[g])[0])
    {
      FormsWhenEven(lines, dealId, menuItemIds, g);
    }
    hide IsEven, IsSetOf, LineGroupsOf, LineGroup, ItemLists, Forms;
    forall j | 0 <= j < |ranks|
      ensures IsSetOf(lines, dealId, menuItemIds, ranks[j], groups[j])
    {
      assert ranks[j] in ranks;
    }
    assert AreTheSets(lines, dealId, menuItemIds, ranks, groups);
  }

  /** A set exists only below the count of the scarcest item. */
  lemma {:induction false} EvenRank(lines: seq<DealLine>, dealId: string, menuItemIds: seq<string>, g: nat)
    requires menuItemIds != [] && IsEven(lines, dealId, menuItemIds, g)
    ensures g < ItemGroupCount(lines, dealId, menuItemIds)
  {
    CountIsScarcest(lines, dealId, menuItemIds);
    var k :| 0 <= k < |menuItemIds| && ItemGroupCount(lines, dealId, menuItemIds) == LinesWith(lines, dealId, menuItemIds[k]);
    NthLines(lines, dealId, menuItemIds[k]);
    hide ItemGroupCount, ItemIndexes, IsNthLine, LinesWith;
    var quantity: nat :| EvenSet(lines, dealId, menuItemIds, g, quantity);
    var i: nat :| IsNthLine(lines, dealId, menuItemIds[k], g, i) && lines[i].quantity == quantity;
  }

  /** For different items the sets share no line. */
  lemma {:induction false} SetsApart(
    lines: seq<DealLine>, dealId: string, menuItemIds: seq<string>, ranks: seq<nat>, groups: seq<Group>,
    j: nat, k: nat, l: nat, m: nat)
    requires FixedDeals.DistinctItems(menuItemIds) && AreTheSets(lines, dealId, menuItemIds, ranks, groups)
    requires j < |groups| && l < |groups| && k < |menuItemIds| && m < |menuItemIds|
    ensures k < |groups[j].entries| && m < |groups[l].entries|
    ensures groups[j].entries[k].index == groups[l].entries[m].index <==> j == l && k == m
  {
    assert IsSetOf(lines, dealId, menuItemIds, ranks[j], groups[j]);
    assert IsSetOf(lines, dealId, menuItemIds, ranks[l], groups[l]);
    hide LinesWith;
    if groups[j].entries[k].index == groups[l].entries[m].index && k == m {
      assert ranks[j] == ranks[l];
    }
  }

  // ----- How many -----

  /** Every line of the deal with one of the items has the same positive quantity. */
  predicate EqualLines(lines: seq<DealLine>, dealId: string, menuItemIds: seq<string>, quantity: nat) {
    quantity > 0 && forall i :: 0 <= i < |lines| ==> lines[i].dealId == Some(dealId) && lines[i].menuItemId in menuItemIds ==>
      lines[i].quantity == quantity
  }

  /** Then there are as many groups as the scarcest item has lines. */
  lemma {:induction false} SetCount(lines: seq<DealLine>, dealId: string, pricing: Pricing, quantity: nat)
    requires pricing.selectionMode.FixedItems? && pricing.menuItemIds != []
    requires EqualLines(lines, dealId, pricing.menuItemIds, quantity)
    ensures forall k :: 0 <= k < |pricing.menuItemIds| ==>
      |PricingGroups(lines, dealId, pricing)| <= LinesWith(lines, dealId, pricing.menuItemIds[k])
    ensures exists k ::
      0 <= k < |pricing.menuItemIds| && |PricingGroups(lines, dealId, pricing)| == LinesWith(lines, dealId, pricing.menuItemIds[k])
  {
    var menuItemIds, groups := pricing.menuItemIds, PricingGroups(lines, dealId, pricing);
    CountIsScarcest(lines, dealId, menuItemIds);
    FixedGroupsExactly(lines, dealId, pricing);
    var count := ItemGroupCount(lines, dealId, menuItemIds);
    var ranks :| AreTheSets(lines, dealId, menuItemIds, ranks, groups);
    forall g: nat
      ensures g in ranks <==> g < count
    {
      if g < count {
        EqualLinesEven(lines, dealId, menuItemIds, quantity, g);
      }
      if g in ranks {
        EvenRank(lines, dealId, menuItemIds, g);
      }
    }
    AllRanks(ranks, count);
  }

  lemma {:induction false} EqualLinesEven(lines: seq<DealLine>, dealId: string, menuItemIds: seq<string>, quantity: nat, g: nat)
    requires menuItemIds != [] && EqualLines(lines, dealId, menuItemIds, quantity)
    requires g < ItemGroupCount(lines, dealId, menuItemIds)
    ensures IsEven(lines, dealId, menuItemIds, g)
  {
    forall k | 0 <= k < |menuItemIds|
      ensures exists i: nat :: IsNthLine(lines, dealId, menuItemIds[k], g, i) && lines[i].quantity == quantity
    {
      NthLines(lines, dealId, menuItemIds[k]);
      var i := ItemIndexes(lines, dealId, menuItemIds[k])[g];
      assert IsNthLine(lines, dealId, menuItemIds[k], g, i);
      assert lines[i].menuItemId in menuItemIds;
    }
    assert EvenSet(lines, dealId, menuItemIds, g, quantity);
  }

  lemma {:induction false} AllRanks(ranks: seq<nat>, n: nat)
    requires Ascending(ranks)
    requires forall g: nat :: g in ranks <==> g < n
    ensures |ranks| == n
  {
    assert n > 0 ==> n - 1 in ranks;
    if ranks != [] {
      assert ranks[0] in ranks;
      var last := |ranks| - 1;
      assert ranks[last] in ranks;
      var j :| 0 <= j < |ranks| && ranks[j] == n - 1;
      assert ranks[last] == n - 1;
      forall g: nat
        ensures g in ranks[..last] <==> g < n - 1
      {
        if g in ranks[..last] {
          var i :| 0 <= i < last && ranks[..last][i] == g;
          assert ranks[i] < ranks[last];
        }
        if g < n - 1 {
          assert g in ranks;
          var i :| 0 <= i < |ranks| && ranks[i] == g;
          assert ranks[..last][i] == g;
        }
      }
      AllRanks(ranks[..last], n - 1);
    }
  }

  // ----- No other choice of sets is larger -----

  /** Lists of one line for each item, no line in two of them. */
  ghost predicate DisjointSets(lines: seq<DealLine>, dealId: string, menuItemIds: seq<string>, sets: seq<seq<nat>>) {
    && (forall j, k :: 0 <= j < |sets| && 0 <= k < |menuItemIds| ==>
      k < |sets[j]| && sets[j][k] < |lines| && HasItem(lines[sets[j][k]], dealId, menuItemIds[k]))
    && forall j, l, k :: 0 <= j < l < |sets| && 0 <= k < |menuItemIds| && k < |sets[j]| && k < |sets[l]| ==>
      sets[j][k] != sets[l][k]
  }

  lemma {:induction false} SetsMaximal(
    lines: seq<DealLine>, dealId: string, pricing: Pricing, quantity: nat, others: seq<seq<nat>>)
    requires pricing.selectionMode.FixedItems? && pricing.menuItemIds != []
    requires EqualLines(lines, dealId, pricing.menuItemIds, quantity)
    requires DisjointSets(lines, dealId, pricing.menuItemIds, others)
    ensures |others| <= |PricingGroups(lines, dealId, pricing)|
  {
    hide PricingGroups, LinesWith, EqualLines;
    SetCount(lines, dealId, pricing, quantity);
    var k :| 0 <= k < |pricing.menuItemIds|
      && |PricingGroups(lines, dealId, pricing)| == LinesWith(lines, dealId, pricing.menuItemIds[k]);
    PickedLines(lines, dealId, pricing.menuItemIds[k], seq(|others|, j requires 0 <= j < |others| => others[j][k]));
  }

  /** Different lines of an item are no more than it has. */
  lemma {:induction false} PickedLines(lines: seq<DealLine>, dealId: string, menuItemId: string, picks: seq<nat>)
    requires forall j :: 0 <= j < |picks| ==> picks[j] < |lines| && HasItem(lines[picks[j]], dealId, menuItemId)
    requires forall j, l :: 0 <= j < l < |picks| ==> picks[j] != picks[l]
    ensures |picks| <= LinesWith(lines, dealId, menuItemId)
  {
    if picks != [] {
      assert picks[0] < |lines|;
      var n := |lines| - 1;
      if j :| 0 <= j < |picks| && picks[j] == n {
        PickedLines(lines[..n], dealId, menuItemId, picks[..j] + picks[j + 1..]);
      } else {
        PickedLines(lines[..n], dealId, menuItemId, picks);
      }
    }
  }
}
