/** Deals with a fixed set of items: the cart shows each complete set at exactly its fixed price. */
module FixedDeals {
  import opened Prelude
  import opened DealGroups
  import opened DealGroupLaws
  import opened DealPricing
  import opened DealDisplay
  import opened DealDisplayLaws

  ghost predicate DistinctItems(menuItemIds: seq<string>) {
    forall k, l :: 0 <= k < l < |menuItemIds| ==> menuItemIds[k] != menuItemIds[l]
  }

  /** Line i is the g-th line of the k-th required item, for some g below n. */
  ghost predicate Listed(lines: seq<DealLine>, dealId: string, menuItemIds: seq<string>, n: nat, i: nat) {
    exists k, g :: 0 <= k < |menuItemIds| && IsNth(lines, dealId, menuItemIds[k], g, i) && 0 <= g < n
  }

  ghost predicate IsNth(lines: seq<DealLine>, dealId: string, menuItemId: string, g: int, i: nat) {
    0 <= g < |ItemIndexes(lines, dealId, menuItemId)| && ItemIndexes(lines, dealId, menuItemId)[g] == i
  }

  lemma {:induction false} NthUnique(
    lines: seq<DealLine>, dealId: string, menuItemIds: seq<string>, k: nat, g: nat, l: nat, h: nat, i: nat)
    requires DistinctItems(menuItemIds) && k < |menuItemIds| && l < |menuItemIds|
    requires IsNth(lines, dealId, menuItemIds[k], g, i) && IsNth(lines, dealId, menuItemIds[l], h, i)
    ensures k == l && g == h
  {
    FilterMembers(Indexes(|lines|), ItemAt(lines, dealId, menuItemIds[k]));
    FilterMembers(Indexes(|lines|), ItemAt(lines, dealId, menuItemIds[l]));
    assert lines[i].menuItemId == menuItemIds[k] && lines[i].menuItemId == menuItemIds[l];
    assert Ascending(ItemIndexes(lines, dealId, menuItemIds[k]));
  }

  ghost predicate Indexed(entries: seq<Entry>, keep: nat -> bool) {
    forall k :: 0 <= k < |entries| ==> keep(entries[k].index)
  }

  lemma {:induction false} NoLineTwiceConcat(xs: seq<Entry>, ys: seq<Entry>, left: nat -> bool)
    requires NoLineTwice(xs) && NoLineTwice(ys)
    requires Indexed(xs, left) && forall k :: 0 <= k < |ys| ==> !left(ys[k].index)
    ensures NoLineTwice(xs + ys)
  {
    forall a, b | 0 <= a < b < |xs + ys|
      ensures (xs + ys)[a].index != (xs + ys)[b].index
    {
      if a < |xs| {
        assert left(xs[a].index);
      }
      if b < |xs| {
        assert left(xs[b].index);
      } else {
        assert !left(ys[b - |xs|].index);
      }
    }
  }

  ghost function ListedAt(lines: seq<DealLine>, dealId: string, menuItemIds: seq<string>, n: nat): nat -> bool {
    (i: nat) => Listed(lines, dealId, menuItemIds, n, i)
  }

  ghost predicate TakeWhole(lines: seq<DealLine>, entries: seq<Entry>) {
    forall k :: 0 <= k < |entries| ==>
      entries[k].index < |lines| && entries[k].quantity == lines[entries[k].index].quantity
  }

  /** Entries for lines among the first n of each required item, none twice, all whole. */
  ghost predicate Apart(lines: seq<DealLine>, dealId: string, menuItemIds: seq<string>, n: nat, entries: seq<Entry>) {
    NoLineTwice(entries) && Indexed(entries, ListedAt(lines, dealId, menuItemIds, n)) && TakeWhole(lines, entries)
  }

  /** A list takes the g-th line of every item: different lines, and none of the earlier ones. */
  lemma {:induction false} ListApart(lines: seq<DealLine>, dealId: string, menuItemIds: seq<string>, g: nat, k: nat)
    requires menuItemIds != [] && DistinctItems(menuItemIds) && g < ItemGroupCount(lines, dealId, menuItemIds)
    requires k < |menuItemIds|
    ensures var list := ItemList(lines, dealId, menuItemIds, g);
      && list[k] < |lines|
      && Listed(lines, dealId, menuItemIds, g + 1, list[k])
      && !Listed(lines, dealId, menuItemIds, g, list[k])
      && forall l :: 0 <= l < k ==> list[l] != list[k]
  {
    var list := ItemList(lines, dealId, menuItemIds, g);
    assert InRange(ItemIndexes(lines, dealId, menuItemIds[k]), |lines|);
    assert IsNth(lines, dealId, menuItemIds[k], g, list[k]);
    if Listed(lines, dealId, menuItemIds, g, list[k]) {
      var l, h :| 0 <= l < |menuItemIds| && IsNth(lines, dealId, menuItemIds[l], h, list[k]) && 0 <= h < g;
      NthUnique(lines, dealId, menuItemIds, k, g, l, h, list[k]);
    }
    forall l | 0 <= l < k
      ensures list[l] != list[k]
    {
      assert IsNth(lines, dealId, menuItemIds[l], g, list[l]);
      if list[l] == list[k] {
        NthUnique(lines, dealId, menuItemIds, k, g, l, g, list[k]);
      }
    }
  }

  lemma {:induction false} LineGroupEntries(lines: seq<DealLine>, list: seq<nat>)
    requires InRange(list, |lines|)
    ensures var entries := AllEntries(LineGroup(lines, list));
      && |entries| <= |list|
      && TakeWhole(lines, entries)
      && forall k :: 0 <= k < |entries| ==> entries[k].index == list[k]
  {
    var groups := LineGroup(lines, list);
    if groups != [] {
      assert groups == [groups[0]];
      OneGroupEntries(groups[0]);
    }
  }

  /** The entries of one list of lines, one for each required item. */
  lemma {:induction false} ListGroup(lines: seq<DealLine>, dealId: string, menuItemIds: seq<string>, g: nat)
    requires menuItemIds != [] && DistinctItems(menuItemIds) && g < ItemGroupCount(lines, dealId, menuItemIds)
    ensures InRange(ItemList(lines, dealId, menuItemIds, g), |lines|)
    ensures var entries := AllEntries(LineGroup(lines, ItemList(lines, dealId, menuItemIds, g)));
      && Apart(lines, dealId, menuItemIds, g + 1, entries)
      && forall k :: 0 <= k < |entries| ==> !Listed(lines, dealId, menuItemIds, g, entries[k].index)
  {
    hide Listed, ItemIndexes, LineGroup, AllEntries, TakeWhole;
    var list := ItemList(lines, dealId, menuItemIds, g);
    forall k | 0 <= k < |list|
      ensures list[k] < |lines|
      ensures Listed(lines, dealId, menuItemIds, g + 1, list[k]) && !Listed(lines, dealId, menuItemIds, g, list[k])
      ensures forall l :: 0 <= l < k ==> list[l] != list[k]
    {
      ListApart(lines, dealId, menuItemIds, g, k);
    }
    LineGroupEntries(lines, list);
  }

  lemma {:induction false} OneGroupEntries(group: Group)
    ensures AllEntries([group]) == group.entries
  {
    assert [group][..0] == [] && AllEntries([]) == [] && [] + group.entries == group.entries;
  }

  lemma {:induction false} AllEntriesConcat(xs: seq<Group>, ys: seq<Group>)
    ensures AllEntries(xs + ys) == AllEntries(xs) + AllEntries(ys)
  {
    if ys == [] {
      assert xs + ys == xs;
    } else {
      var front, last := ys[..|ys| - 1], ys[|ys| - 1];
      AllEntriesConcat(xs, front);
      assert (xs + ys)[..|xs + ys| - 1] == xs + front;
      assert AllEntries(xs + ys) == AllEntries(xs + front) + last.entries;
      assert AllEntries(ys) == AllEntries(front) + last.entries;
    }
  }

  lemma {:induction false} ListedMore(lines: seq<DealLine>, dealId: string, menuItemIds: seq<string>, n: nat, i: nat)
    requires Listed(lines, dealId, menuItemIds, n, i)
    ensures Listed(lines, dealId, menuItemIds, n + 1, i)
  {
    var k, g :| 0 <= k < |menuItemIds| && IsNth(lines, dealId, menuItemIds[k], g, i) && 0 <= g < n;
    assert IsNth(lines, dealId, menuItemIds[k], g, i);
  }

  lemma {:induction false} ApartNext(lines: seq<DealLine>, dealId: string, menuItemIds: seq<string>, n: nat,
    before: seq<Entry>, last: seq<Entry>)
    requires Apart(lines, dealId, menuItemIds, n, before) && Apart(lines, dealId, menuItemIds, n + 1, last)
    requires forall k :: 0 <= k < |last| ==> !Listed(lines, dealId, menuItemIds, n, last[k].index)
    ensures Apart(lines, dealId, menuItemIds, n + 1, before + last)
  {
    hide Listed;
    NoLineTwiceConcat(before, last, ListedAt(lines, dealId, menuItemIds, n));
    forall k | 0 <= k < |before|
      ensures Listed(lines, dealId, menuItemIds, n + 1, before[k].index)
    {
      assert ListedAt(lines, dealId, menuItemIds, n)(before[k].index);
      ListedMore(lines, dealId, menuItemIds, n, before[k].index);
    }
    assert Indexed(before + last, ListedAt(lines, dealId, menuItemIds, n + 1)) && TakeWhole(lines, before + last);
  }

  /** The groups of a fixed deal share no line and take every line whole. */
  lemma {:induction false} FixedGroupsApart(lines: seq<DealLine>, dealId: string, menuItemIds: seq<string>, n: nat)
    requires menuItemIds != [] && DistinctItems(menuItemIds) && n <= ItemGroupCount(lines, dealId, menuItemIds)
    ensures AllIn(ItemLists(lines, dealId, menuItemIds)[..n], LessThan(|lines|))
    ensures Apart(lines, dealId, menuItemIds, n, AllEntries(LineGroupsOf(lines, ItemLists(lines, dealId, menuItemIds)[..n])))
  {
    hide Apart, Listed, ItemIndexes, LineGroup;
    var lists := ItemLists(lines, dealId, menuItemIds);
    if n == 0 {
      NothingApart(lines, dealId, menuItemIds);
    } else {
      FixedGroupsApart(lines, dealId, menuItemIds, n - 1);
      ListGroup(lines, dealId, menuItemIds, n - 1);
      AllLess(lists[n - 1], |lines|);
      assert lists[..n] == lists[..n - 1] + [lists[n - 1]] && lists[..n][..n - 1] == lists[..n - 1];
      var before, last := LineGroupsOf(lines, lists[..n - 1]), LineGroup(lines, lists[n - 1]);
      assert LineGroupsOf(lines, lists[..n]) == before + last;
      hide LineGroupsOf, AllEntries;
      AllEntriesConcat(before, last);
      ApartNext(lines, dealId, menuItemIds, n - 1, AllEntries(before), AllEntries(last));
    }
  }

  lemma {:induction false} NothingApart(lines: seq<DealLine>, dealId: string, menuItemIds: seq<string>)
    ensures Apart(lines, dealId, menuItemIds, 0, [])
  {}

  /** The card of every complete set shows the fixed price times the number of sets, as merchandise;
      deposits and modifiers come on top. */
  lemma {:induction false} FixedDealShowsFixedPrice(items: seq<PricedLine>, deal: CartDeal, g: nat)
    requires deal.pricing.selectionMode.FixedItems? && deal.pricing.menuItemIds != []
    requires DistinctItems(deal.pricing.menuItemIds)
    requires forall i :: 0 <= i < |items| ==> items[i].depositTotal == items[i].depositAmount * items[i].line.quantity
    requires g < |GroupsOf(items, deal)|
    ensures GroupsOf(items, deal) == PricingGroups(LinesOf(items), deal.dealId, deal.pricing)
    ensures var groups := GroupsOf(items, deal);
      var priced := Repriced(items, groups, deal.pricing.fixedPrice);
      && GroupsOf(priced, deal) == groups
      && AreGroupsOf(priced, groups)
      && TotalOf(Included(priced, groups, g), MerchandiseOf()) == deal.pricing.fixedPrice * groups[g].quantity
  {
    hide NoLineTwice, TakeWholeLines, Repriced, AreGroupsOf, PricingGroups, DisplayGroups, Included;
    FixedDealGroups(items, deal);
    RepricedKeeps(items, GroupsOf(items, deal), deal.pricing.fixedPrice);
    CardShowsFixedPrice(items, GroupsOf(items, deal), deal.pricing.fixedPrice, g);
  }

  lemma {:induction false} FixedDealGroups(items: seq<PricedLine>, deal: CartDeal)
    requires deal.pricing.selectionMode.FixedItems? && deal.pricing.menuItemIds != []
    requires DistinctItems(deal.pricing.menuItemIds)
    ensures GroupsOf(items, deal) == PricingGroups(LinesOf(items), deal.dealId, deal.pricing)
    ensures NoLineTwice(AllEntries(GroupsOf(items, deal))) && TakeWholeLines(items, AllEntries(GroupsOf(items, deal)))
  {
    hide NoLineTwice, ItemIndexes, Listed;
    var lines, ids := LinesOf(items), deal.pricing.menuItemIds;
    var n := ItemGroupCount(lines, deal.dealId, ids);
    FixedGroupsApart(lines, deal.dealId, ids, n);
    assert ItemLists(lines, deal.dealId, ids)[..n] == ItemLists(lines, deal.dealId, ids);
  }

  // ----- The unit prices on a card -----

  ghost predicate Even(groups: seq<Group>) {
    forall g, k :: 0 <= g < |groups| && 0 <= k < |groups[g].entries| ==> groups[g].entries[k].quantity == groups[g].quantity
  }

  lemma {:induction false} LineGroupsEven(lines: seq<DealLine>, lists: seq<seq<nat>>)
    requires AllIn(lists, LessThan(|lines|))
    ensures Even(LineGroupsOf(lines, lists))
  {
    if lists != [] {
      LineGroupsEven(lines, lists[..|lists| - 1]);
    }
  }

  lemma {:induction false} IncludedQuantities(items: seq<PricedLine>, all: seq<Entry>, start: nat, n: nat, k: nat)
    requires AreEntriesOf(items, all) && start <= n <= |all| && k < n - start
    ensures |IncludedRange(items, all, start, n)| == n - start
    ensures IncludedRange(items, all, start, n)[k].line.quantity == all[start + k].quantity
    decreases n
  {
    hide Splits, SplitTotal;
    if n > start + 1 {
      IncludedQuantities(items, all, start, n - 1, if k < n - 1 - start then k else 0);
    }
  }

  lemma {:induction false} EvenMerchandise(included: seq<PricedLine>, quantity: nat)
    requires forall k :: 0 <= k < |included| ==> included[k].line.quantity == quantity
    ensures TotalOf(included, MerchandiseOf())
         == TotalOf(included, LineTotal()) - TotalOf(included, DepositTotal()) - TotalOf(included, ModifiersTotal()) * quantity
  {
    if included != [] {
      var front, last := included[..|included| - 1], included[|included| - 1];
      EvenMerchandise(front, quantity);
      assert TotalOf(included, ModifiersTotal()) * quantity
          == TotalOf(front, ModifiersTotal()) * quantity + last.modifiersTotal * last.line.quantity;
    }
  }

  lemma {:induction false} QuotientExact(n: int, quantity: nat, x: int, y: int)
    requires quantity > 0 && n == x * quantity + y * quantity
    ensures n as real / quantity as real == (x + y) as real
  {
    assert n == (x + y) * quantity;
    assert n as real == (x + y) as real * quantity as real;
  }

  lemma {:induction false} IncludedEven(priced: seq<PricedLine>, groups: seq<Group>, g: nat)
    requires AreGroupsOf(priced, groups) && g < |groups| && Even(groups)
    ensures forall k :: 0 <= k < |Included(priced, groups, g)| ==>
      Included(priced, groups, g)[k].line.quantity == groups[g].quantity
  {
    hide IncludedRange, AllEntries;
    EntriesOfGroups(priced, groups);
    EntriesUpTo(groups, g);
    var all, start, n := AllEntries(groups), |AllEntries(groups[..g])|, |groups[g].entries|;
    assert IsGroupOf(priced, groups[g]);
    IncludedQuantities(priced, all, start, start + n, 0);
    var included := Included(priced, groups, g);
    forall k | 0 <= k < |included|
      ensures included[k].line.quantity == groups[g].quantity
    {
      IncludedQuantities(priced, all, start, start + n, k);
      EntryAt(groups, g, k);
    }
  }

  /** The prices on a card follow from the merchandise it shows, when each of its lines has one unit a set. */
  lemma {:induction false} CardPrices(items: seq<PricedLine>, deal: CartDeal, count: nat, group: Group, ordinal: nat,
    included: seq<PricedLine>)
    requires IsGroupOf(items, group)
    requires forall k :: 0 <= k < |included| ==> included[k].line.quantity == group.quantity
    requires TotalOf(included, MerchandiseOf()) == deal.pricing.fixedPrice * group.quantity
    ensures var card := MakeCard(items, deal, count, group, ordinal, included);
      && card.unitPriceWithModifiers == (card.unitPrice + card.modifiersTotal) as real
      && (card.unitPriceWithModifiers + card.depositAmount) * card.quantity as real == card.lineTotal as real
  {
    assert group.quantity > 0;
    hide IsGroupOf, TotalOf;
    EvenMerchandise(included, group.quantity);
    QuotientExact(TotalOf(included, LineTotal()) - TotalOf(included, DepositTotal()), group.quantity,
      deal.pricing.fixedPrice, TotalOf(included, ModifiersTotal()));
  }

  /** The unit price with modifiers on such a card is exactly the fixed price plus the modifiers of one set, though each
      line's own unit price was rounded; with the deposit per set it makes up the card's total. */
  lemma {:induction false} FixedCardUnitPrice(items: seq<PricedLine>, deal: CartDeal, g: nat, ordinal: nat)
    requires deal.pricing.selectionMode.FixedItems? && deal.pricing.menuItemIds != []
    requires DistinctItems(deal.pricing.menuItemIds)
    requires forall i :: 0 <= i < |items| ==> items[i].depositTotal == items[i].depositAmount * items[i].line.quantity
    requires g < |GroupsOf(items, deal)|
    ensures var groups := GroupsOf(items, deal);
      var priced := Repriced(items, groups, deal.pricing.fixedPrice);
      AreGroupsOf(priced, groups) && IsGroupOf(priced, groups[g])
    ensures var groups := GroupsOf(items, deal);
      var priced := Repriced(items, groups, deal.pricing.fixedPrice);
      var card := MakeCard(priced, deal, |groups|, groups[g], ordinal, Included(priced, groups, g));
      && card.unitPriceWithModifiers == (card.unitPrice + card.modifiersTotal) as real
      && (card.unitPriceWithModifiers + card.depositAmount) * card.quantity as real == card.lineTotal as real
  {
    hide Repriced, AreGroupsOf, IsGroupOf, Even, Included, PricingGroups, DisplayGroups, MakeCard;
    var groups := GroupsOf(items, deal);
    var priced := Repriced(items, groups, deal.pricing.fixedPrice);
    FixedDealShowsFixedPrice(items, deal, g);
    FixedDealEven(items, deal);
    IncludedEven(priced, groups, g);
    AGroup(priced, groups, g);
    CardPrices(priced, deal, |groups|, groups[g], ordinal, Included(priced, groups, g));
  }

  lemma {:induction false} AGroup(items: seq<PricedLine>, groups: seq<Group>, g: nat)
    requires AreGroupsOf(items, groups) && g < |groups|
    ensures IsGroupOf(items, groups[g])
  {}

  lemma {:induction false} FixedDealEven(items: seq<PricedLine>, deal: CartDeal)
    requires deal.pricing.selectionMode.FixedItems? && deal.pricing.menuItemIds != []
    ensures Even(GroupsOf(items, deal))
  {
    var lines, lists := LinesOf(items), ItemLists(LinesOf(items), deal.dealId, deal.pricing.menuItemIds);
    forall k | 0 <= k < |lists|
      ensures All(lists[k], LessThan(|lines|))
    {
      AllLess(lists[k], |lines|);
    }
    LineGroupsEven(lines, lists);
  }
}
