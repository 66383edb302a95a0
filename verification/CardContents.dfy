/** What a displayed deal card holds: the lines whose units it takes, and amounts that are sums over them. */
module CardContents {
  import opened Prelude
  import opened DealGroups
  import opened DealPricing
  import opened DealDisplay
  import opened DealDisplayLaws
  import opened DealTargets
  import opened SplitParts

  /** Entry by entry, the card names the line, holds the units taken from it, and lists its dish. */
  ghost predicate NamesItsLines(items: seq<PricedLine>, group: Group, card: Card) {
    && |card.cartItemIds| == |card.menuItemIds| == |card.includedItems| == |group.entries|
    && forall k :: 0 <= k < |group.entries| && group.entries[k].index < |items| ==>
      && card.cartItemIds[k] == items[group.entries[k].index].id == card.includedItems[k].id
      && card.menuItemIds[k] == items[group.entries[k].index].line.menuItemId == card.includedItems[k].line.menuItemId
      && card.includedItems[k].line.quantity == group.entries[k].quantity
      && card.includedItems[k].modifiersTotal == items[group.entries[k].index].modifiersTotal
  }

  /** The card's totals are sums over what it holds, and its amounts per set make up the totals. */
  ghost predicate AddsUp(deal: CartDeal, group: Group, card: Card) {
    && card.dealId == deal.dealId && card.quantity == group.quantity && card.unitPrice == deal.pricing.fixedPrice
    && card.lineTotal == TotalOf(card.includedItems, LineTotal())
    && card.depositTotal == TotalOf(card.includedItems, DepositTotal())
    && card.modifiersTotal == TotalOf(card.includedItems, ModifiersTotal())
    && card.unitPriceWithModifiers * card.quantity as real == (card.lineTotal - card.depositTotal) as real
    && card.depositAmount * card.quantity as real == card.depositTotal as real
  }

  lemma {:induction false} Quotient(n: int, quantity: nat)
    requires quantity > 0
    ensures n as real / quantity as real * quantity as real == n as real
  {}

  lemma {:induction false} MadeAddsUp(items: seq<PricedLine>, deal: CartDeal, groupCount: nat, group: Group, ordinal: nat,
    included: seq<PricedLine>)
    requires IsGroupOf(items, group)
    ensures AddsUp(deal, group, MakeCard(items, deal, groupCount, group, ordinal, included))
  {
    hide TotalOf, CardId;
    Quotient(TotalOf(included, LineTotal()) - TotalOf(included, DepositTotal()), group.quantity);
    Quotient(TotalOf(included, DepositTotal()), group.quantity);
  }

  lemma {:induction false} MadeNames(items: seq<PricedLine>, deal: CartDeal, groups: seq<Group>, g: nat, ordinal: nat)
    requires AreGroupsOf(items, groups) && g < |groups| && IsGroupOf(items, groups[g])
    ensures NamesItsLines(items, groups[g], MakeCard(items, deal, |groups|, groups[g], ordinal, Included(items, groups, g)))
  {
    var included := Included(items, groups, g);
    IncludedFair(items, groups, g, 0);
    forall k | 0 <= k < |groups[g].entries|
      ensures groups[g].entries[k].index < |items|
      ensures included[k].id == items[groups[g].entries[k].index].id
      ensures included[k].line.menuItemId == items[groups[g].entries[k].index].line.menuItemId
      ensures included[k].line.quantity == groups[g].entries[k].quantity
      ensures included[k].modifiersTotal == items[groups[g].entries[k].index].modifiersTotal
    {
      IncludedFair(items, groups, g, k);
      hide Included, TakesOf, ExactPart;
    }
    hide Included, CardId, TotalOf;
  }

  /** Every card the cart shows names exactly the lines whose units it holds, and its amounts are theirs. */
  lemma {:induction false} CardHolds(items: seq<PricedLine>, deals: seq<CartDeal>, d: nat, g: nat)
    requires ArePriceable(deals) && d < |deals| && g < |GroupsOf(items, deals[d])|
    ensures var card, group := CardOf(items, deals, d, g).card, GroupsOf(items, deals[d])[g];
      NamesItsLines(items, group, card) && AddsUp(deals[d], group, card)
  {
    var groups, earlier := GroupsOf(items, deals[d]), CartSlots(items, deals[..d]);
    DealSlotsCount(items, deals[d], groups, g, earlier);
    assert IsGroupOf(items, groups[g]);
    var before, first := DealSlots(items, deals[d], groups, g, earlier), groups[g].entries[0].index;
    MadeAddsUp(items, deals[d], |groups|, groups[g], |CardsAt(before, first)|, Included(items, groups, g));
    MadeNames(items, deals[d], groups, g, |CardsAt(before, first)|);
    hide AddsUp, NamesItsLines, MakeCard, Included, CardsAt, CartSlots, GroupsOf;
  }
}
