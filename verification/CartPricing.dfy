/** Pricing every deal of a cart, one after the other.
    Models applyFixedDealPricingToCartItems for the deals that have an active fixed price. */
module CartPricing {
  import opened Prelude
  import opened Allocation
  import opened DealGroups
  import opened DealGroupLaws
  import opened DealPricing
  import opened DealDisplay
  import opened DealDisplayLaws

  ghost function DealPriced(items: seq<PricedLine>, deal: CartDeal): (priced: seq<PricedLine>)
    requires IsPriceable(deal)
    ensures |priced| == |items|
  {
    GroupsOfDeal(items, deal.dealId, deal.pricing);
    Repriced(items, PricingGroups(LinesOf(items), deal.dealId, deal.pricing), deal.pricing.fixedPrice)
  }

  ghost function CartPriced(items: seq<PricedLine>, deals: seq<CartDeal>): (priced: seq<PricedLine>)
    requires ArePriceable(deals)
    ensures |priced| == |items|
  {
    if deals == [] then items else DealPriced(CartPriced(items, deals[..|deals| - 1]), deals[|deals| - 1])
  }

  method ApplyFixedDealPricingToCartItems(items: seq<PricedLine>, deals: seq<CartDeal>) returns (pricedItems: seq<PricedLine>)
    requires ArePriceable(deals)
    ensures pricedItems == CartPriced(items, deals)
  {
    hide DealPriced;
    pricedItems := items;
    for d := 0 to |deals|
      invariant pricedItems == CartPriced(items, deals[..d])
    {
      assert deals[..d + 1][..d] == deals[..d];
      DealPricedIs(pricedItems, deals[d]);
      pricedItems := ApplyFixedDealPricingForDeal(pricedItems, deals[d].dealId, deals[d].pricing);
    }
    assert deals[..|deals|] == deals;
  }

  lemma {:induction false} DealPricedIs(items: seq<PricedLine>, deal: CartDeal)
    requires IsPriceable(deal)
    ensures AreGroupsOf(items, PricingGroups(LinesOf(items), deal.dealId, deal.pricing))
    ensures DealPriced(items, deal)
         == Repriced(items, PricingGroups(LinesOf(items), deal.dealId, deal.pricing), deal.pricing.fixedPrice)
  {
    GroupsOfDeal(items, deal.dealId, deal.pricing);
  }

  // ----- Deals do not touch each other's lines -----

  /** The two carts are alike up to prices, and equal on the lines of a deal. */
  ghost predicate AgreeOn(xs: seq<PricedLine>, ys: seq<PricedLine>, dealId: string) {
    && |xs| == |ys|
    && (forall i :: 0 <= i < |xs| ==> xs[i].line == ys[i].line)
    && (forall i :: 0 <= i < |xs| && xs[i].line.dealId == Some(dealId) ==> xs[i] == ys[i])
  }

  lemma {:induction false} SameCharges(xs: seq<PricedLine>, ys: seq<PricedLine>, dealId: string, groups: seq<Group>, price: int)
    requires AgreeOn(xs, ys, dealId) && AreDealGroups(LinesOf(xs), dealId, groups)
    requires AreGroupsOf(xs, groups) && AreGroupsOf(ys, groups)
    ensures Charges(xs, groups, price) == Charges(ys, groups, price)
  {
    hide IsDealGroup, IsGroupOf, GroupCharges, AgreeOn;
    if groups != [] {
      SameCharges(xs, ys, dealId, groups[..|groups| - 1], price);
      SameGroupCharges(xs, ys, dealId, groups[|groups| - 1], price);
    }
  }

  lemma {:induction false} SameGroupCharges(xs: seq<PricedLine>, ys: seq<PricedLine>, dealId: string, group: Group, price: int)
    requires AgreeOn(xs, ys, dealId) && IsDealGroup(LinesOf(xs), dealId, group)
    requires IsGroupOf(xs, group) && IsGroupOf(ys, group)
    ensures GroupCharges(xs, group, price) == GroupCharges(ys, group, price)
  {
    hide MerchandiseUnit, Shares;
    forall k | 0 <= k < |group.entries|
      ensures GroupTotals(xs, group)[k] == GroupTotals(ys, group)[k]
    {
      assert OfDeal(LinesOf(xs), dealId)(group.entries[k].index);
      assert xs[group.entries[k].index] == ys[group.entries[k].index];
    }
    assert GroupTotals(xs, group) == GroupTotals(ys, group);
  }

  /** Pricing a deal gives its lines the same prices in either cart. */
  lemma {:induction false} PricedAlike(xs: seq<PricedLine>, ys: seq<PricedLine>, deal: CartDeal, i: nat)
    requires IsPriceable(deal) && AgreeOn(xs, ys, deal.dealId) && i < |xs| && xs[i].line.dealId == Some(deal.dealId)
    ensures DealPriced(xs, deal)[i] == DealPriced(ys, deal)[i]
  {
    hide Charges, RepricedLine, PricingGroups, Taken;
    assert LinesOf(xs) == LinesOf(ys);
    DealPricedIs(xs, deal);
    DealPricedIs(ys, deal);
    var groups := PricingGroups(LinesOf(xs), deal.dealId, deal.pricing);
    PricingGroupsShape(LinesOf(xs), deal.dealId, deal.pricing);
    SameCharges(xs, ys, deal.dealId, groups, deal.pricing.fixedPrice);
    assert DealPriced(xs, deal)[i] == RepricedAt(xs, groups, deal.pricing.fixedPrice, i);
    assert DealPriced(ys, deal)[i] == RepricedAt(ys, groups, deal.pricing.fixedPrice, i);
  }

  /** Pricing a deal changes only prices, and only on its own lines. */
  lemma {:induction false} PricedElsewhere(items: seq<PricedLine>, deal: CartDeal, i: nat)
    requires IsPriceable(deal) && i < |items|
    ensures DealPriced(items, deal)[i].line == items[i].line
    ensures items[i].line.dealId != Some(deal.dealId) ==> DealPriced(items, deal)[i] == items[i]
  {
    hide Charges, RepricedLine, PricingGroups, Taken;
    DealPricedIs(items, deal);
    var groups := PricingGroups(LinesOf(items), deal.dealId, deal.pricing);
    RepricedKeeps(items, groups, deal.pricing.fixedPrice);
    PricingGroupsShape(LinesOf(items), deal.dealId, deal.pricing);
    GroupedInDeal(LinesOf(items), deal.dealId, groups, i);
    assert DealPriced(items, deal)[i] == RepricedAt(items, groups, deal.pricing.fixedPrice, i);
  }

  lemma {:induction false} CartKeepsLines(items: seq<PricedLine>, deals: seq<CartDeal>, i: nat)
    requires ArePriceable(deals) && i < |items|
    ensures CartPriced(items, deals)[i].line == items[i].line
    ensures (forall d :: 0 <= d < |deals| ==> items[i].line.dealId != Some(deals[d].dealId)) ==> CartPriced(items, deals)[i] == items[i]
  {
    hide DealPriced;
    if deals != [] {
      var front, last := deals[..|deals| - 1], deals[|deals| - 1];
      CartKeepsLines(items, front, i);
      PricedElsewhere(CartPriced(items, front), last, i);
    }
  }

  /** Each line of a deal ends up with the price its own deal gives it on the cart as it was, whatever other deals there
      are and in whatever order; a line of no deal keeps its price. */
  lemma {:induction false} DealsIndependent(items: seq<PricedLine>, deals: seq<CartDeal>, d: nat, i: nat)
    requires ArePriceable(deals) && DistinctDeals(deals) && d < |deals| && i < |items|
    requires items[i].line.dealId == Some(deals[d].dealId)
    ensures CartPriced(items, deals)[i] == DealPriced(items, deals[d])[i]
  {
    hide DealPriced;
    var n := |deals| - 1;
    var before := CartPriced(items, deals[..n]);
    CartKeepsLines(items, deals[..n], i);
    if d < n {
      DealsIndependent(items, deals[..n], d, i);
      PricedElsewhere(before, deals[n], i);
    } else {
      forall k: nat | k < |items|
        ensures before[k].line == items[k].line
        ensures items[k].line.dealId == Some(deals[n].dealId) ==> before[k] == items[k]
      {
        CartKeepsLines(items, deals[..n], k);
      }
      PricedAlike(before, items, deals[n], i);
    }
  }

  /** The order of the deals does not matter. */
  lemma {:induction false} OrderIrrelevant(items: seq<PricedLine>, deals: seq<CartDeal>, others: seq<CartDeal>)
    requires ArePriceable(deals) && DistinctDeals(deals) && ArePriceable(others) && DistinctDeals(others)
    requires forall deal :: deal in deals <==> deal in others
    ensures CartPriced(items, deals) == CartPriced(items, others)
  {
    forall i: nat | i < |items|
      ensures CartPriced(items, deals)[i] == CartPriced(items, others)[i]
    {
      if d :| 0 <= d < |deals| && items[i].line.dealId == Some(deals[d].dealId) {
        assert deals[d] in others;
        var e :| 0 <= e < |others| && others[e] == deals[d];
        hide CartPriced, DealPriced;
        DealsIndependent(items, deals, d, i);
        DealsIndependent(items, others, e, i);
      } else {
        forall e | 0 <= e < |others|
          ensures items[i].line.dealId != Some(others[e].dealId)
        {
          assert others[e] in deals;
        }
        hide CartPriced;
        CartKeepsLines(items, deals, i);
        CartKeepsLines(items, others, i);
      }
    }
  }

  // ----- The whole cart's money -----

  ghost function GroupsPriced(items: seq<PricedLine>, deal: CartDeal): seq<Group>
    requires IsPriceable(deal)
  {
    PricingGroups(LinesOf(items), deal.dealId, deal.pricing)
  }

  /** Fixed prices of all groups of all deals. */
  ghost function AllGroupPrices(items: seq<PricedLine>, deals: seq<CartDeal>): int
    requires ArePriceable(deals)
  {
    if deals == [] then 0
    else
      var last := deals[|deals| - 1];
      AllGroupPrices(items, deals[..|deals| - 1]) + GroupPrices(GroupsPriced(items, last), last.pricing.fixedPrice)
  }

  /** Units of line i in groups of any deal. */
  ghost function CartTaken(items: seq<PricedLine>, deals: seq<CartDeal>, i: nat): nat
    requires ArePriceable(deals)
  {
    if deals == [] then 0
    else CartTaken(items, deals[..|deals| - 1], i) + Taken(GroupsPriced(items, deals[|deals| - 1]), i)
  }

  ghost function MerchandiseAt(items: seq<PricedLine>): nat -> int {
    (i: nat) => if i < |items| then Merchandise(items[i]) else 0
  }

  /** Raw merchandise of a line's units that are in no group. */
  ghost function RawLeft(item: PricedLine, grouped: nat): int {
    if grouped == 0 || item.line.quantity == 0 then Merchandise(item)
    else UnitCents(item) * Max(item.line.quantity - grouped, 0)
  }

  ghost function RawLeftAt(items: seq<PricedLine>, deals: seq<CartDeal>): nat -> int
    requires ArePriceable(deals)
  {
    (i: nat) => if i < |items| then RawLeft(items[i], CartTaken(items, deals, i)) else 0
  }

  /** Only its own deal groups a line. */
  lemma {:induction false} TakenByOwn(items: seq<PricedLine>, deal: CartDeal, i: nat)
    requires IsPriceable(deal)
    ensures Taken(GroupsPriced(items, deal), i) > 0 ==> i < |items| && items[i].line.dealId == Some(deal.dealId)
    ensures Taken(GroupsPriced(items, deal), i) > 0 ==> items[i].line.quantity > 0
  {
    hide PricingGroups, Taken, AllEntries;
    var groups := GroupsPriced(items, deal);
    PricingGroupsShape(LinesOf(items), deal.dealId, deal.pricing);
    GroupedInDeal(LinesOf(items), deal.dealId, groups, i);
    GroupsOfDeal(items, deal.dealId, deal.pricing);
    if Taken(groups, i) > 0 {
      TakenHasUnits(items, groups, i);
    }
  }

  lemma {:induction false} TakenHasUnits(items: seq<PricedLine>, groups: seq<Group>, i: nat)
    requires AreGroupsOf(items, groups) && Taken(groups, i) > 0 && i < |items|
    ensures items[i].line.quantity > 0
  {
    UntouchedWhenUngrouped(items, groups, i);
    EntriesOfGroups(items, groups);
    hide AllEntries, Taken, AreGroupsOf;
    var k :| 0 <= k < |Units(AllEntries(groups))| && Units(AllEntries(groups))[k].index == i;
    assert items[AllEntries(groups)[k].index].line.quantity > 0;
  }

  lemma {:induction false} TakenByNone(items: seq<PricedLine>, deals: seq<CartDeal>, i: nat)
    requires ArePriceable(deals) && i < |items|
    requires forall d :: 0 <= d < |deals| ==> items[i].line.dealId != Some(deals[d].dealId)
    ensures CartTaken(items, deals, i) == 0
  {
    hide GroupsPriced, Taken;
    if deals != [] {
      TakenByNone(items, deals[..|deals| - 1], i);
      TakenByOwn(items, deals[|deals| - 1], i);
    }
  }

  /** One more deal moves a line's money only from its raw price to its groups. */
  lemma {:induction false} LineMoves(items: seq<PricedLine>, deals: seq<CartDeal>, i: nat)
    requires ArePriceable(deals) && DistinctDeals(deals) && deals != [] && i < |items|
    ensures var n := |deals| - 1;
      var before, groups := CartPriced(items, deals[..n]), GroupsPriced(items, deals[n]);
      && (Grouped(groups, i) ==> before[i] == items[i] && items[i].line.quantity > 0)
      && RawLeftAt(items, deals)(i)
         == (if Grouped(groups, i) then UngroupedMerchandise(items, groups)(i) else RawLeftAt(items, deals[..n])(i))
      && (Grouped(groups, i) ==> RawLeftAt(items, deals[..n])(i) == Merchandise(before[i]))
  {
    hide GroupsPriced, Taken, UnitCents, Merchandise, CartPriced;
    var n := |deals| - 1;
    var front, last := deals[..n], deals[n];
    TakenByOwn(items, last, i);
    if Grouped(GroupsPriced(items, last), i) {
      assert forall d :: 0 <= d < n ==> front[d].dealId != last.dealId;
      TakenByNone(items, front, i);
      CartKeepsLines(items, front, i);
    }
  }

  /** Pricing the whole cart moves no money but what the deals say: the cart's merchandise is the fixed price of every
      group of every deal, plus the raw price of the units in no group. */
  lemma {:induction false} CartConserves(items: seq<PricedLine>, deals: seq<CartDeal>)
    requires ArePriceable(deals) && DistinctDeals(deals)
    requires forall i :: 0 <= i < |items| && CartTaken(items, deals, i) > 0 ==> HasUnitPrice(items[i])
    ensures Total(|items|, MerchandiseAt(CartPriced(items, deals)))
         == AllGroupPrices(items, deals) + Total(|items|, RawLeftAt(items, deals))
  {
    hide GroupsPriced, Taken, Total, CartPriced, RawLeft;
    if deals == [] {
      NothingMoves(items);
    } else {
      var n := |deals| - 1;
      CartConserves(items, deals[..n]);
      LastDealConserves(items, deals);
      DealMoves(items, deals);
    }
  }

  lemma {:induction false} NothingMoves(items: seq<PricedLine>)
    ensures CartPriced(items, []) == items
    ensures Total(|items|, MerchandiseAt(items)) == Total(|items|, RawLeftAt(items, []))
  {
    TotalEqual(|items|, MerchandiseAt(items), RawLeftAt(items, []));
  }

  lemma {:induction false} LastDealConserves(items: seq<PricedLine>, deals: seq<CartDeal>)
    requires ArePriceable(deals) && DistinctDeals(deals) && deals != []
    requires forall i :: 0 <= i < |items| && CartTaken(items, deals, i) > 0 ==> HasUnitPrice(items[i])
    ensures var n := |deals| - 1;
      var before, after, groups := CartPriced(items, deals[..n]), CartPriced(items, deals), GroupsPriced(items, deals[n]);
      && Total(|items|, GroupedMerchandise(items, after, groups))
         == GroupPrices(groups, deals[n].pricing.fixedPrice) + Total(|items|, UngroupedMerchandise(items, groups))
      && forall i: nat :: i < |items| && !Grouped(groups, i) ==> after[i] == before[i]
  {
    hide GroupsPriced, Taken, HasUnitPrice, CartPriced;
    var n := |deals| - 1;
    var before, last := CartPriced(items, deals[..n]), deals[n];
    forall i: nat | i < |items|
      ensures before[i].line == items[i].line
      ensures Grouped(GroupsPriced(items, last), i) ==> before[i] == items[i] && HasUnitPrice(items[i])
    {
      CartKeepsLines(items, deals[..n], i);
      LineMoves(items, deals, i);
    }
    LastPriced(items, deals);
    DealConserves(items, before, last);
  }

  lemma {:induction false} LastPriced(items: seq<PricedLine>, deals: seq<CartDeal>)
    requires ArePriceable(deals) && deals != []
    ensures CartPriced(items, deals) == DealPriced(CartPriced(items, deals[..|deals| - 1]), deals[|deals| - 1])
  {}

  /** Pricing a deal on a cart that differs from another one only outside the deal's groups. */
  lemma {:induction false} DealConserves(items: seq<PricedLine>, before: seq<PricedLine>, deal: CartDeal)
    requires IsPriceable(deal) && |before| == |items|
    requires forall i: nat :: i < |items| ==> before[i].line == items[i].line
    requires forall i: nat :: i < |items| && Grouped(GroupsPriced(items, deal), i) ==>
      before[i] == items[i] && HasUnitPrice(items[i])
    ensures var after, groups := DealPriced(before, deal), GroupsPriced(items, deal);
      && Total(|items|, GroupedMerchandise(items, after, groups))
         == GroupPrices(groups, deal.pricing.fixedPrice) + Total(|items|, UngroupedMerchandise(items, groups))
      && forall i: nat :: i < |items| && !Grouped(groups, i) ==> after[i] == before[i]
  {
    assert LinesOf(before) == LinesOf(items);
    var groups, after := GroupsPriced(items, deal), DealPriced(before, deal);
    DealPricedIs(before, deal);
    hide PricingGroups, Taken, Total, GroupPrices, Repriced, DealPriced, UnitCents, HasUnitPrice, AreGroupsOf;
    PricingConserves(before, groups, deal.pricing.fixedPrice);
    SameLeft(items, before, groups);
    SameGrouped(items, before, after, groups);
  }

  lemma {:induction false} SameLeft(items: seq<PricedLine>, before: seq<PricedLine>, groups: seq<Group>)
    requires |before| == |items| && forall i: nat :: i < |items| && Grouped(groups, i) ==> before[i] == items[i]
    ensures Total(|items|, UngroupedMerchandise(before, groups)) == Total(|items|, UngroupedMerchandise(items, groups))
  {
    hide Taken, UnitCents;
    TotalEqual(|items|, UngroupedMerchandise(before, groups), UngroupedMerchandise(items, groups));
  }

  lemma {:induction false} SameGrouped(
    items: seq<PricedLine>, before: seq<PricedLine>, after: seq<PricedLine>, groups: seq<Group>)
    requires |after| == |before| == |items|
    ensures Total(|items|, GroupedMerchandise(before, after, groups)) == Total(|items|, GroupedMerchandise(items, after, groups))
  {
    hide Taken, Merchandise;
    TotalEqual(|items|, GroupedMerchandise(before, after, groups), GroupedMerchandise(items, after, groups));
  }

  lemma {:induction false} DealMoves(items: seq<PricedLine>, deals: seq<CartDeal>)
    requires ArePriceable(deals) && DistinctDeals(deals) && deals != []
    requires var n := |deals| - 1;
      forall i: nat :: i < |items| && !Grouped(GroupsPriced(items, deals[n]), i) ==>
        CartPriced(items, deals)[i] == CartPriced(items, deals[..n])[i]
    ensures var n := |deals| - 1;
      var before, after, groups := CartPriced(items, deals[..n]), CartPriced(items, deals), GroupsPriced(items, deals[n]);
      Total(|items|, MerchandiseAt(after)) + Total(|items|, UngroupedMerchandise(items, groups))
      + Total(|items|, RawLeftAt(items, deals[..n]))
      == Total(|items|, GroupedMerchandise(items, after, groups)) + Total(|items|, RawLeftAt(items, deals))
      + Total(|items|, MerchandiseAt(before))
  {
    var n := |deals| - 1;
    var before, after, groups := CartPriced(items, deals[..n]), CartPriced(items, deals), GroupsPriced(items, deals[n]);
    var left, kept, rest := MerchandiseAt(after), UngroupedMerchandise(items, groups), RawLeftAt(items, deals[..n]);
    var right, now, was := GroupedMerchandise(items, after, groups), RawLeftAt(items, deals), MerchandiseAt(before);
    forall i: nat | i < |items|
      ensures left(i) + kept(i) + rest(i) == right(i) + now(i) + was(i)
    {
      LineMoves(items, deals, i);
    }
    SameSums(|items|, left, kept, rest, right, now, was);
  }

  lemma {:induction false} SameSums(
    n: nat, a: nat -> int, b: nat -> int, c: nat -> int, x: nat -> int, y: nat -> int, z: nat -> int)
    requires forall i: nat :: i < n ==> a(i) + b(i) + c(i) == x(i) + y(i) + z(i)
    ensures Total(n, a) + Total(n, b) + Total(n, c) == Total(n, x) + Total(n, y) + Total(n, z)
  {
    if n > 0 {
      SameSums(n - 1, a, b, c, x, y, z);
    }
  }
}
