/** Which group a card's id means among the groups that begin at its line, and what becomes of an id that means none. */
module CardOrdinals {
  import opened Prelude
  import opened Strings
  import opened DealGroups
  import opened DealGroupLaws
  import opened DealTargets
  import opened Carts

  /** How many groups begin at a line. */
  ghost function Beginning(groups: seq<Group>, i: int): nat {
    if groups == [] then 0
    else
      var last := groups[|groups| - 1];
      Beginning(groups[..|groups| - 1], i) + (if last.entries != [] && last.entries[0].index == i then 1 else 0)
  }

  /** The group that begins at the line with exactly `ordinal` such groups before it. */
  ghost predicate IsNthFrom(groups: seq<Group>, i: int, ordinal: int, g: nat) {
    && g < |groups| && groups[g].entries != [] && groups[g].entries[0].index == i
    && Beginning(groups[..g], i) == ordinal
  }

  lemma {:induction false} BeginningCounts(groups: seq<Group>, i: int)
    ensures |Filter(groups, StartsAt(i))| == Beginning(groups, i)
  {
    if groups != [] {
      BeginningCounts(groups[..|groups| - 1], i);
    }
  }

  lemma {:induction false} NthFound(groups: seq<Group>, i: int, n: nat) returns (g: nat)
    requires n < |Filter(groups, StartsAt(i))|
    ensures IsNthFrom(groups, i, n, g) && Filter(groups, StartsAt(i))[n] == groups[g]
  {
    var last := |groups| - 1;
    if n < |Filter(groups[..last], StartsAt(i))| {
      g := NthFound(groups[..last], i, n);
      assert groups[..last][..g] == groups[..g];
    } else {
      g := last;
      BeginningCounts(groups[..last], i);
    }
  }

  /** A target that names a group finds the group of its ordinal among those that begin at its line, and nothing exactly
      when its ordinal is below zero or not below their number. */
  lemma {:induction false} TargetFinds(lines: seq<DealLine>, target: Target, pricing: Pricing)
    requires pricing.selectionMode.FixedItems? ==> pricing.menuItemIds != []
    requires target.firstIndex.Some?
    ensures var groups := DisplayGroups(PrimaryLines(lines), target.dealId, pricing);
      var first, ordinal := target.firstIndex.value, target.ordinal.GetOr(0);
      if 0 <= ordinal < Beginning(groups, first)
      then exists g: nat :: IsNthFrom(groups, first, ordinal, g) && FindDealItems(lines, target, Some(pricing)) == groups[g].entries
      else FindDealItems(lines, target, Some(pricing)) == []
  {
    hide DisplayGroups, Filter, Beginning, IsNthFrom;
    var groups := DisplayGroups(PrimaryLines(lines), target.dealId, pricing);
    var first, ordinal := target.firstIndex.value, target.ordinal.GetOr(0);
    BeginningCounts(groups, first);
    if 0 <= ordinal < Beginning(groups, first) {
      var g := NthFound(groups, first, ordinal);
    }
  }

  /** A card that is no longer there, because fewer groups begin at its line, is neither removed nor updated. */
  lemma {:induction false} GoneCardRefused(store: Store, call: DealCall, quantity: int)
    requires store.cart.Some? && call.pricing.Some? && ParseTarget(call.targetId).firstIndex.Some?
    requires call.pricing.value.selectionMode.FixedItems? ==> call.pricing.value.menuItemIds != []
    requires var target := ParseTarget(call.targetId);
      var groups := DisplayGroups(
        PrimaryLines(DealLinesOf(store.cart.value.items, call.categoryOf)), target.dealId, call.pricing.value);
      target.ordinal.GetOr(0) >= Beginning(groups, target.firstIndex.value)
    ensures RemoveDeal(store, call) == Outcome(store, false) && UpdateDeal(store, call, quantity) == Outcome(store, false)
  {
    hide DisplayGroups, Beginning, ParseTarget, FindDealItems;
    TargetFinds(DealLinesOf(store.cart.value.items, call.categoryOf), ParseTarget(call.targetId), call.pricing.value);
  }

  /** An id without a colon is that of a deal, and stands for all of it. */
  lemma {:induction false} BareIdFinds(lines: seq<DealLine>, id: string, pricing: Option<Pricing>)
    requires pricing.Some? && pricing.value.selectionMode.FixedItems? ==> pricing.value.menuItemIds != []
    requires ':' !in id
    ensures ParseTarget(id) == Target(id, None, None)
    ensures FindDealItems(lines, ParseTarget(id), pricing) == WholeDeal(lines, id)
  {
    SplitNothing(id, ':');
  }
}
