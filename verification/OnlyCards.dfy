/** The only card of a deal stands for more than it shows. */
module OnlyCards {
  import opened Prelude
  import opened Selections
  import opened DealGroups
  import opened DealGroupLaws
  import opened DealPricing
  import opened DealDisplay
  import opened DealDisplayLaws
  import opened DealTargets
  import opened PartlyGrouped
  import opened Carts
  import opened CartRuns
  import opened RemovedCards

  /** The only card of three units in an any-2 deal holds two of them. */
  lemma {:induction false} TwoOnCard(item: PricedLine, deal: CartDeal)
    requires item.line.quantity == 3 && item.line.dealId == Some(deal.dealId)
    requires deal == AnyOf(deal.dealId, item.line.menuItemId, 2, deal.pricing.fixedPrice)
    ensures IsPriceable(deal) && |GroupsOf([item], deal)| == 1
    ensures UnitsIn(GroupsOf([item], deal)[0].entries, DealGroups.Line(0)) == 2
  {
    assert LinesOf([item]) == [item.line];
    TooFewLines([item.line], deal);
    TwoOfThree([item.line], deal);
    hide FlexibleGroups, DisplayGroups, UnitsIn;
    OneGroup(GroupsOf([item], deal));
  }

  /** Removing that card empties the cart, and setting it to a quantity leaves that many units in all; the third unit,
      which the card does not hold, is lost both times. */
  lemma {:induction false} OnlyCardTakesAll(
    item: PricedLine, deal: CartDeal, store: Store, categoryOf: map<string, string>, quantity: int)
    requires item.line.quantity == 3 && item.line.dealId == Some(deal.dealId) && ':' !in deal.dealId
    requires deal == AnyOf(deal.dealId, item.line.menuItemId, 2, deal.pricing.fixedPrice)
    requires Valid(store) && store.cart.Some?
    requires DealLinesOf(store.cart.value.items, categoryOf) == PrimaryLines(LinesOf([item]))
    ensures ArePriceable([deal]) && |GroupsOf([item], deal)| == 1
    ensures var items, entries := store.cart.value.items, GroupsOf([item], deal)[0].entries;
      var call := DealCall(CardOf([item], [deal], 0, 0).card.id, Some(deal.pricing), categoryOf);
      var removed, updated := RemoveDeal(store, call), UpdateDeal(store, call, quantity);
      && UnitsIn(entries, DealGroups.Line(0)) == 2
      && removed.ok && removed.store.cart.Some? && removed.store.cart.value.items == []
      && !Lowered(items, [], entries)
      && updated.ok && updated.store.cart.Some?
      && updated.store.cart.value.items == [items[0].(quantity := quantity)]
      && !Requantified(items, [items[0].(quantity := quantity)], entries, quantity)
  {
    TwoOnCard(item, deal);
    var items, entries := store.cart.value.items, GroupsOf([item], deal)[0].entries;
    assert |items| == 1;
    assert DealLinesOf(items, categoryOf)[0] == PrimaryLine(item.line);
    assert IsDealLine(items[0], deal.dealId) && items[0].quantity == 3;
    hide GroupsOf, UnitsIn, EntriesOf, CardOf, RemoveUnits, SetUnits, WholeDeal, NoNewIds;
    OnlyCardEntries([item], [deal], 0, 0, items, categoryOf);
    WholeDealOfOne(items, categoryOf, deal.dealId, quantity);
    assert !LineLowered(items[0], None, 2);
  }

  lemma {:induction false} WholeDealOfOne(items: seq<Carts.Line>, categoryOf: map<string, string>, dealId: string, quantity: int)
    requires |items| == 1 && IsDealLine(items[0], dealId) && items[0].quantity == 3
    ensures var whole := WholeDeal(DealLinesOf(items, categoryOf), dealId);
      RemoveUnits(items, whole) == [] && SetUnits(items, whole, quantity) == [items[0].(quantity := quantity)]
  {
    var whole := WholeDeal(DealLinesOf(items, categoryOf), dealId);
    WholeDealNames(DealLinesOf(items, categoryOf), dealId, 0);
    WholeSettingLine(items, categoryOf, dealId, quantity, 0);
    hide WholeDeal, EntryFor, SetUnits;
    assert RemoveUnits(items[..0], whole) == [];
    assert RemoveUnits(items, whole) == RemoveUnits(items[..0], whole) + AfterRemoval(items[0], EntryFor(whole, 0));
  }
}
