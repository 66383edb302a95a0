/** The cards of fixed item sets in a whole cart, priced deal by deal and displayed. */
module FixedCarts {
  import opened Prelude
  import opened DealGroups
  import opened DealGroupLaws
  import opened DealPricing
  import opened CartPricing
  import opened DealDisplay
  import opened DealDisplayLaws
  import opened FixedDeals
  import opened DealTargets

  // ----- A card depends on its deal's lines only -----

  /** The carts have the same lines wherever the entries point. */
  ghost predicate AlikeAt(xs: seq<PricedLine>, ys: seq<PricedLine>, entries: seq<Entry>) {
    |xs| == |ys| && forall k :: 0 <= k < |entries| && entries[k].index < |xs| ==> xs[entries[k].index] == ys[entries[k].index]
  }

  lemma {:induction false} SplitsAlike(xs: seq<PricedLine>, ys: seq<PricedLine>, all: seq<Entry>, k: nat)
    requires AreEntriesOf(xs, all) && AreEntriesOf(ys, all) && AlikeAt(xs, ys, all) && k <= |all|
    ensures Splits(xs, all, k) == Splits(ys, all, k)
  {
    hide SplitTotal;
    if k > 0 {
      SplitsAlike(xs, ys, all, k - 1);
      assert xs[all[k - 1].index] == ys[all[k - 1].index];
    }
  }

  lemma {:induction false} RangeAlike(xs: seq<PricedLine>, ys: seq<PricedLine>, all: seq<Entry>, start: nat, end: nat)
    requires AreEntriesOf(xs, all) && AreEntriesOf(ys, all) && AlikeAt(xs, ys, all) && start <= end <= |all|
    ensures IncludedRange(xs, all, start, end) == IncludedRange(ys, all, start, end)
  {
    hide IncludedAt, AreEntriesOf, AlikeAt;
    if start < end {
      RangeAlike(xs, ys, all, start, end - 1);
      EntryAlike(xs, ys, all, end - 1);
    }
  }

  lemma {:induction false} EntryAlike(xs: seq<PricedLine>, ys: seq<PricedLine>, all: seq<Entry>, at: nat)
    requires AreEntriesOf(xs, all) && AreEntriesOf(ys, all) && AlikeAt(xs, ys, all) && at < |all|
    ensures IncludedAt(xs, all, at) == IncludedAt(ys, all, at)
  {
    hide SplitTotal, Splits;
    SplitsAlike(xs, ys, all, at);
    assert xs[all[at].index] == ys[all[at].index];
  }

  lemma {:induction false} IncludedAlike(xs: seq<PricedLine>, ys: seq<PricedLine>, groups: seq<Group>, g: nat)
    requires AreGroupsOf(xs, groups) && AreGroupsOf(ys, groups) && AlikeAt(xs, ys, AllEntries(groups)) && g < |groups|
    ensures Included(xs, groups, g) == Included(ys, groups, g)
  {
    hide AllEntries, IncludedRange, AlikeAt, AreGroupsOf, AreEntriesOf;
    EntriesOfGroups(xs, groups);
    EntriesOfGroups(ys, groups);
    EntriesUpTo(groups, g);
    var start := |AllEntries(groups[..g])|;
    RangeAlike(xs, ys, AllEntries(groups), start, start + |groups[g].entries|);
  }

  lemma {:induction false} CardAlike(xs: seq<PricedLine>, ys: seq<PricedLine>, deal: CartDeal, groups: seq<Group>, g: nat,
    ordinal: nat)
    requires AreGroupsOf(xs, groups) && AreGroupsOf(ys, groups) && AlikeAt(xs, ys, AllEntries(groups)) && g < |groups|
    ensures IsGroupOf(xs, groups[g]) && IsGroupOf(ys, groups[g])
    ensures MakeCard(xs, deal, |groups|, groups[g], ordinal, Included(xs, groups, g))
         == MakeCard(ys, deal, |groups|, groups[g], ordinal, Included(ys, groups, g))
  {
    IncludedAlike(xs, ys, groups, g);
    assert IsGroupOf(xs, groups[g]) && IsGroupOf(ys, groups[g]);
    var entries := groups[g].entries;
    forall k | 0 <= k < |entries|
      ensures xs[entries[k].index].id == ys[entries[k].index].id
    {
      EntryAt(groups, g, k);
      assert xs[AllEntries(groups)[|AllEntries(groups[..g])| + k].index] == ys[entries[k].index];
    }
    hide Included, AllEntries, TotalOf;
  }

  /** The card shown for a group is made of the group's own lines. */
  lemma {:induction false} CardIs(items: seq<PricedLine>, deals: seq<CartDeal>, d: nat, g: nat) returns (ordinal: nat)
    requires ArePriceable(deals) && d < |deals| && g < |GroupsOf(items, deals[d])|
    ensures var groups := GroupsOf(items, deals[d]);
      && IsGroupOf(items, groups[g])
      && CardOf(items, deals, d, g).card == MakeCard(items, deals[d], |groups|, groups[g], ordinal, Included(items, groups, g))
  {
    hide GroupsOf, Included, MakeCard;
    var groups, earlier := GroupsOf(items, deals[d]), CartSlots(items, deals[..d]);
    assert IsGroupOf(items, groups[g]);
    DealSlotsCount(items, deals[d], groups, g, earlier);
    ordinal := |CardsAt(DealSlots(items, deals[d], groups, g, earlier), groups[g].entries[0].index)|;
  }

  // ----- Fixed sets -----

  /** The priced cart has the lines of a deal as that deal alone would price them. */
  lemma {:induction false} PricedAlone(items: seq<PricedLine>, deals: seq<CartDeal>, d: nat)
    requires ArePriceable(deals) && DistinctDeals(deals) && d < |deals|
    ensures LinesOf(CartPriced(items, deals)) == LinesOf(items)
    ensures AlikeAt(CartPriced(items, deals), DealPriced(items, deals[d]), AllEntries(GroupsOf(items, deals[d])))
  {
    hide CartPriced, DealPriced, GroupsOf, AllEntries;
    var all := AllEntries(GroupsOf(items, deals[d]));
    forall i | 0 <= i < |items|
      ensures CartPriced(items, deals)[i].line == items[i].line
    {
      CartKeepsLines(items, deals, i);
    }
    forall k | 0 <= k < |all| && all[k].index < |items|
      ensures CartPriced(items, deals)[all[k].index] == DealPriced(items, deals[d])[all[k].index]
    {
      EntryInDeal(items, deals[d], k);
      DealsIndependent(items, deals, d, all[k].index);
    }
  }

  lemma {:induction false} EntryInDeal(items: seq<PricedLine>, deal: CartDeal, k: nat)
    requires IsPriceable(deal) && k < |AllEntries(GroupsOf(items, deal))|
    ensures var i := AllEntries(GroupsOf(items, deal))[k].index;
      i < |items| && items[i].line.dealId == Some(deal.dealId)
  {
    var groups := GroupsOf(items, deal);
    PricingGroupsShape(LinesOf(items), deal.dealId, deal.pricing);
    EntriesInDeal(LinesOf(items), deal.dealId, groups, k);
  }

  lemma {:induction false} EntriesInDeal(lines: seq<DealLine>, dealId: string, groups: seq<Group>, k: nat)
    requires AreDealGroups(lines, dealId, groups) && k < |AllEntries(groups)|
    ensures OfDeal(lines, dealId)(AllEntries(groups)[k].index)
  {
    var front, last := groups[..|groups| - 1], groups[|groups| - 1];
    if k < |AllEntries(front)| {
      EntriesInDeal(lines, dealId, front, k);
    } else {
      assert IsDealGroup(lines, dealId, last);
      assert AllEntries(groups)[k] == last.entries[k - |AllEntries(front)|];
    }
  }

  /** The card of a deal in the priced cart is the one that pricing the deal alone would show. */
  lemma {:induction false} CardAsAlone(items: seq<PricedLine>, deals: seq<CartDeal>, d: nat, g: nat) returns (ordinal: nat)
    requires ArePriceable(deals) && DistinctDeals(deals) && d < |deals| && g < |GroupsOf(items, deals[d])|
    ensures GroupsOf(CartPriced(items, deals), deals[d]) == GroupsOf(items, deals[d])
    ensures var groups, alone := GroupsOf(items, deals[d]), DealPriced(items, deals[d]);
      && AreGroupsOf(alone, groups) && IsGroupOf(alone, groups[g])
      && CardOf(CartPriced(items, deals), deals, d, g).card
         == MakeCard(alone, deals[d], |groups|, groups[g], ordinal, Included(alone, groups, g))
  {
    var priced, alone, groups := CartPriced(items, deals), DealPriced(items, deals[d]), GroupsOf(items, deals[d]);
    PricedAlone(items, deals, d);
    SameGroupsAlone(items, deals[d]);
    assert GroupsOf(priced, deals[d]) == groups && AreGroupsOf(priced, groups);
    hide CartPriced, DealPriced, GroupsOf, CardOf, Included, AlikeAt, AllEntries, AreGroupsOf, MakeCard;
    ordinal := CardIs(priced, deals, d, g);
    CardAlike(priced, alone, deals[d], groups, g, ordinal);
  }

  lemma {:induction false} SameGroupsAlone(items: seq<PricedLine>, deal: CartDeal)
    requires IsPriceable(deal)
    ensures AreGroupsOf(DealPriced(items, deal), GroupsOf(items, deal))
  {
    hide DisplayGroups, PricingGroups;
    forall i | 0 <= i < |items|
      ensures DealPriced(items, deal)[i].line == items[i].line
    {
      PricedElsewhere(items, deal, i);
    }
    assert LinesOf(DealPriced(items, deal)) == LinesOf(items);
    GroupsOfDeal(DealPriced(items, deal), deal.dealId, deal.pricing);
  }

  /** In a cart of several deals, priced and then displayed, every complete set of a fixed deal has its card; the card
      shows the fixed price as unit price, the fixed price of its sets as merchandise, modifiers and deposits on top, and
      nothing else. */
  lemma {:induction false} FixedCardInCart(items: seq<PricedLine>, deals: seq<CartDeal>, d: nat, g: nat)
    requires ArePriceable(deals) && DistinctDeals(deals) && d < |deals|
    requires deals[d].pricing.selectionMode.FixedItems? && DistinctItems(deals[d].pricing.menuItemIds)
    requires forall i :: 0 <= i < |items| ==> items[i].depositTotal == items[i].depositAmount * items[i].line.quantity
    requires g < |GroupsOf(items, deals[d])|
    ensures GroupsOf(CartPriced(items, deals), deals[d]) == GroupsOf(items, deals[d])
    ensures var priced := CartPriced(items, deals);
      var card := CardOf(priced, deals, d, g).card;
      && card in CardsOf(CartDisplay(priced, deals))
      && card.quantity == GroupsOf(items, deals[d])[g].quantity
      && card.unitPrice == deals[d].pricing.fixedPrice
      && TotalOf(card.includedItems, MerchandiseOf()) == card.unitPrice * card.quantity
      && card.unitPriceWithModifiers == (card.unitPrice + card.modifiersTotal) as real
      && (card.unitPriceWithModifiers + card.depositAmount) * card.quantity as real == card.lineTotal as real
  {
    hide CartPriced, DealPriced, CartDisplay, CardsOf, CardOf, Included, TotalOf, GroupsOf, DistinctItems, AreGroupsOf, IsGroupOf;
    assert IsPriceable(deals[d]);
    var ordinal := CardAsAlone(items, deals, d, g);
    FixedCardAlone(items, deals[d], g, ordinal);
    hide MakeCard;
    EveryCardShown(CartPriced(items, deals), deals);
    assert CardOf(CartPriced(items, deals), deals, d, g).card in CardsOf(CartDisplay(CartPriced(items, deals), deals));
  }

  lemma {:induction false} FixedCardAlone(items: seq<PricedLine>, deal: CartDeal, g: nat, ordinal: nat)
    requires deal.pricing.selectionMode.FixedItems? && deal.pricing.menuItemIds != []
    requires DistinctItems(deal.pricing.menuItemIds)
    requires forall i :: 0 <= i < |items| ==> items[i].depositTotal == items[i].depositAmount * items[i].line.quantity
    requires g < |GroupsOf(items, deal)|
    ensures var groups, alone := GroupsOf(items, deal), DealPriced(items, deal);
      AreGroupsOf(alone, groups) && IsGroupOf(alone, groups[g])
    ensures var groups, alone := GroupsOf(items, deal), DealPriced(items, deal);
      var card := MakeCard(alone, deal, |groups|, groups[g], ordinal, Included(alone, groups, g));
      && card.quantity == groups[g].quantity && card.unitPrice == deal.pricing.fixedPrice
      && TotalOf(card.includedItems, MerchandiseOf()) == card.unitPrice * card.quantity
      && card.unitPriceWithModifiers == (card.unitPrice + card.modifiersTotal) as real
      && (card.unitPriceWithModifiers + card.depositAmount) * card.quantity as real == card.lineTotal as real
  {
    hide GroupsOf, Repriced, DealPriced, Included, TotalOf, AreGroupsOf, IsGroupOf, DistinctItems, MakeCard;
    FixedDealShowsFixedPrice(items, deal, g);
    FixedCardUnitPrice(items, deal, g, ordinal);
    AloneIsRepriced(items, deal);
    var groups, alone := GroupsOf(items, deal), DealPriced(items, deal);
    CardFields(alone, deal, |groups|, groups[g], ordinal, Included(alone, groups, g));
  }

  lemma {:induction false} CardFields(items: seq<PricedLine>, deal: CartDeal, count: nat, group: Group, ordinal: nat,
    included: seq<PricedLine>)
    requires IsGroupOf(items, group)
    ensures var card := MakeCard(items, deal, count, group, ordinal, included);
      card.quantity == group.quantity && card.unitPrice == deal.pricing.fixedPrice && card.includedItems == included
  {}

  lemma {:induction false} AloneIsRepriced(items: seq<PricedLine>, deal: CartDeal)
    requires deal.pricing.selectionMode.FixedItems? && deal.pricing.menuItemIds != []
    requires DistinctItems(deal.pricing.menuItemIds)
    ensures AreGroupsOf(items, GroupsOf(items, deal))
    ensures DealPriced(items, deal) == Repriced(items, GroupsOf(items, deal), deal.pricing.fixedPrice)
  {
    hide PricingGroups, GroupsOf, Repriced, NoLineTwice, TakeWholeLines, DistinctItems;
    FixedDealGroups(items, deal);
    DealPricedIs(items, deal);
  }
}
