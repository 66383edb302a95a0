/** A line of which a flexible deal uses only some units is shown for more than it costs. */
module PartlyGrouped {
  import opened Prelude
  import opened Allocation
  import opened DealGroups
  import opened DealGroupLaws
  import opened DealPricing
  import opened DealDisplay
  import opened DealDisplayLaws

  /** A deal of any `size` units of one menu item. */
  function AnyOf(dealId: string, menuItemId: string, size: nat, fixedPrice: int): CartDeal {
    CartDeal(dealId, Pricing(FlexibleItems, [menuItemId], [], Some(size), fixedPrice))
  }

  lemma {:induction false} TooFewLines(lines: seq<DealLine>, deal: CartDeal)
    requires |lines| == 1 && deal.pricing == AnyOf(deal.dealId, lines[0].menuItemId, 2, deal.pricing.fixedPrice).pricing
    ensures DisplayGroups(lines, deal.dealId, deal.pricing) == FlexibleGroups(lines, deal.dealId, deal.pricing)
  {
    hide FlexibleGroups, ScopedLists, IndexesByScope;
    var eligible := EligibleIndexes(lines, deal.dealId, deal.pricing);
    assert LimitedScopes(deal.pricing) == [];
    AtMostOne(lines, deal);
    if eligible != [] {
      assert Times(1, 2) == 2;
      assert GroupCount(|eligible|, 2) == 0;
    }
  }

  lemma {:induction false} AtMostOne(lines: seq<DealLine>, deal: CartDeal)
    requires |lines| == 1
    ensures |EligibleIndexes(lines, deal.dealId, deal.pricing)| <= 1
  {
    assert Indexes(1) == [0];
    assert [0][..0] == [];
  }

  /** Three units in an any-2 deal make one group of two. */
  lemma {:induction false} TwoOfThree(lines: seq<DealLine>, deal: CartDeal)
    requires |lines| == 1 && lines[0].quantity == 3 && lines[0].dealId == Some(deal.dealId)
    requires deal.pricing == AnyOf(deal.dealId, lines[0].menuItemId, 2, deal.pricing.fixedPrice).pricing
    ensures |FlexibleGroups(lines, deal.dealId, deal.pricing)| == 1
    ensures Taken(FlexibleGroups(lines, deal.dealId, deal.pricing), 0) == 2
  {
    hide FlexibleGroups, Taken, UnitsIn, AllEntries;
    var keep, groups := EligibleAt(lines, deal.dealId, deal.pricing), FlexibleGroups(lines, deal.dealId, deal.pricing);
    assert LimitedScopes(deal.pricing) == [];
    QuantityGroupsSound(lines, deal.dealId, deal.pricing, 2);
    assert lines[0].menuItemId in deal.pricing.menuItemIds;
    assert keep(0);
    assert Supply(lines, keep, 1) == Supply(lines, keep, 0) + 3 == 3;
    TimesProduct(|groups|, 2);
    TimesProduct(|groups| + 1, 2);
    assert |groups| == 1;
    assert IsFullGroup(groups[0], keep, 2);
    assert EntriesBelow(groups[0].entries, 1);
    OneLineTaken(groups);
  }

  lemma {:induction false} OneLineTaken(groups: seq<Group>)
    requires |groups| == 1 && EntriesBelow(groups[0].entries, 1)
    ensures Taken(groups, 0) == UnitsIn(groups[0].entries, AnyLine())
  {
    hide UnitsIn, AllEntries;
    OneGroup(groups);
    UnitsInEqual(groups[0].entries, Line(0), AnyLine());
  }

  lemma {:induction false} OneGroup(groups: seq<Group>)
    requires |groups| == 1
    ensures AllEntries(groups) == groups[0].entries
  {
    assert groups[..0] == [];
    assert AllEntries([]) == [];
  }

  /** Three units for 30.00, two of them in an any-2 deal: the card takes the whole 30.00, and the unit left over is
      shown for another 10.00. */
  lemma {:induction false} ShownTwice(item: PricedLine, dealId: string, fixedPrice: int)
    requires IsCartLine(item) && item.line.quantity == 3 && item.lineTotal == 3000 && item.line.dealId == Some(dealId)
    ensures var deal := AnyOf(dealId, item.line.menuItemId, 2, fixedPrice);
      && ArePriceable([deal])
      && ShownMerchandise(CartDisplay([item], [deal])) > PricedMerchandise([item])
  {
    var deal := AnyOf(dealId, item.line.menuItemId, 2, fixedPrice);
    var items, deals := [item], [deal];
    TwoGrouped(item, deal);
    hide CartDisplay, GroupedUnits, PartTotal;
    ThirdOfThirty(item);
    DisplayMatchesPriced(items, deals);
    assert !RestIsNothing(items, deals, 0);
  }

  lemma {:induction false} ThirdOfThirty(item: PricedLine)
    requires item.line.quantity == 3 && item.lineTotal == 3000
    ensures ExactPart(item, 1) == 1000.0
  {
  }

  lemma {:induction false} TwoGrouped(item: PricedLine, deal: CartDeal)
    requires item.line.quantity == 3 && item.line.dealId == Some(deal.dealId)
    requires deal == AnyOf(deal.dealId, item.line.menuItemId, 2, deal.pricing.fixedPrice)
    ensures ArePriceable([deal]) && GroupedUnits([item], [deal], 0) == 2
  {
    var items, deals := [item], [deal];
    assert LinesOf(items) == [item.line];
    TooFewLines(LinesOf(items), deal);
    TwoOfThree(LinesOf(items), deal);
    hide FlexibleGroups, DisplayGroups;
    OneDealEntries(items, deal);
  }

  lemma {:induction false} OneDealEntries(items: seq<PricedLine>, deal: CartDeal)
    requires ArePriceable([deal]) && IsPriceable(deal)
    ensures CartEntries(items, [deal]) == AllEntries(GroupsOf(items, deal))
  {
    hide GroupsOf, AllEntries;
    assert [deal][..0] == [];
    assert CartEntries(items, []) == [];
    assert CartEntries(items, [deal]) == [] + AllEntries(GroupsOf(items, deal)) == AllEntries(GroupsOf(items, deal));
  }
}
