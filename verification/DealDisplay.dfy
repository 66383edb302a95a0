/** Showing deal groups as cards: splitting the lines of a cart over the cards without losing a cent.
    Models groupDealItemsForCartResponse and the line splits it makes. */
module DealDisplay {
  import opened Prelude
  import opened Allocation
  import opened Decimals
  import opened DealGroups
  import opened DealGroupLaws
  import opened DealPricing

  datatype Card = Card(
    id: string,
    dealId: string,
    cartItemIds: seq<string>,
    menuItemIds: seq<string>,
    quantity: nat,
    unitPrice: int,
    modifiersTotal: int,
    unitPriceWithModifiers: real,
    depositAmount: real,
    depositTotal: int,
    lineTotal: int,
    includedItems: seq<PricedLine>)

  datatype DisplayItem = DealCard(card: Card) | PlainItem(item: PricedLine)

  /** A card and the line it is shown at: the first line of its group. */
  datatype Slot = Slot(firstIndex: nat, card: Card)

  datatype CartDeal = CartDeal(dealId: string, pricing: Pricing)

  // ----- Splitting one line over its groups -----

  /** The part of a line's total shown for some of its units. The split that completes the grouped units takes
      whatever is left of the line's whole total. */
  function SplitTotal(item: PricedLine, quantity: nat, consumedQuantity: int, consumedTotal: int, groupedQuantity: int): int
    requires item.line.quantity > 0
  {
    if consumedQuantity + quantity >= groupedQuantity then item.lineTotal - consumedTotal
    else PartTotal(item, quantity)
  }

  /** The line's total in proportion to some of its units. */
  function PartTotal(item: PricedLine, quantity: nat): int
    requires item.line.quantity > 0
  {
    RoundCents(item.lineTotal as real * (quantity as real / item.line.quantity as real))
  }

  function Clone(item: PricedLine, quantity: nat, lineTotal: int): PricedLine {
    item.(line := item.line.(quantity := quantity), depositTotal := item.depositAmount * quantity, lineTotal := lineTotal)
  }

  /** What is shown for the units of a line that no card holds. */
  function Leftover(item: PricedLine, grouped: nat): PricedLine
    requires 0 < grouped < item.line.quantity
  {
    var rest := item.line.quantity - grouped;
    Clone(item, rest, PartTotal(item, rest))
  }

  ghost predicate AreEntriesOf(items: seq<PricedLine>, entries: seq<Entry>) {
    forall k :: 0 <= k < |entries| ==>
      entries[k].quantity > 0 && entries[k].index < |items| && items[entries[k].index].line.quantity > 0
  }

  /** The splits of the first k entries of a deal, in the order the cards are built. */
  ghost function Splits(items: seq<PricedLine>, all: seq<Entry>, k: nat): (splits: seq<Posting>)
    requires AreEntriesOf(items, all) && k <= |all|
    ensures |splits| == k
  {
    if k == 0 then []
    else
      var before := Splits(items, all, k - 1);
      before + [NextSplit(items, all, k - 1, before)]
  }

  ghost function NextSplit(items: seq<PricedLine>, all: seq<Entry>, k: nat, before: seq<Posting>): Posting
    requires AreEntriesOf(items, all) && k < |all|
  {
    var entry := all[k];
    Posting(entry.index,
      SplitTotal(items[entry.index], entry.quantity, UnitsIn(all[..k], Line(entry.index)),
        Posted(before, entry.index), UnitsIn(all, Line(entry.index))))
  }

  /** Once all grouped units of a line are split off, the splits add up to the line's total. */
  lemma {:induction false} SplitsTelescope(items: seq<PricedLine>, all: seq<Entry>, k: nat, i: nat)
    requires AreEntriesOf(items, all) && k <= |all|
    ensures Touches(Splits(items, all, k), i) && UnitsIn(all[..k], Line(i)) >= UnitsIn(all, Line(i)) ==>
      i < |items| && Posted(Splits(items, all, k), i) == items[i].lineTotal
  {
    hide PartTotal;
    if k > 0 {
      SplitsTelescope(items, all, k - 1, i);
      var before := Splits(items, all, k - 1);
      if !Touches(before, i) {
        PostedUntouched(before, i);
      }
      assert all[..k] == all[..k - 1] + [all[k - 1]];
      UnitsInSnoc(all[..k - 1], all[k - 1], Line(i));
      PostedSnoc(before, NextSplit(items, all, k - 1, before));
    }
  }

  lemma {:induction false} SplitsTouch(items: seq<PricedLine>, all: seq<Entry>, k: nat, i: nat)
    requires AreEntriesOf(items, all) && k <= |all|
    ensures Touches(Splits(items, all, k), i) <==> Touches(Units(all[..k]), i)
  {
    hide NextSplit;
    forall j | 0 <= j < k
      ensures Splits(items, all, k)[j].index == all[j].index
    {
      SplitsIndex(items, all, k, j);
    }
    assert forall j :: 0 <= j < k ==> Splits(items, all, k)[j].index == Units(all[..k])[j].index;
  }

  lemma {:induction false} SplitsIndex(items: seq<PricedLine>, all: seq<Entry>, k: nat, j: nat)
    requires AreEntriesOf(items, all) && j < k <= |all|
    ensures Splits(items, all, k)[j].index == all[j].index
  {
    hide SplitTotal;
    if j < k - 1 {
      SplitsIndex(items, all, k - 1, j);
    }
  }

  /** The splits of one line over its deal groups add up to exactly that line's total. */
  lemma {:induction false} SplitsComplete(items: seq<PricedLine>, all: seq<Entry>, i: nat)
    requires AreEntriesOf(items, all)
    ensures Posted(Splits(items, all, |all|), i) == if Touches(Units(all), i) then items[i].lineTotal else 0
  {
    assert all[..|all|] == all;
    SplitsTelescope(items, all, |all|, i);
    SplitsTouch(items, all, |all|, i);
    if !Touches(Units(all), i) {
      PostedUntouched(Splits(items, all, |all|), i);
    }
  }

  // ----- Cards -----

  /** The line shown for one entry: its units, with its own split. */
  ghost function IncludedAt(items: seq<PricedLine>, all: seq<Entry>, at: nat): PricedLine
    requires AreEntriesOf(items, all) && at < |all|
  {
    Clone(items[all[at].index], all[at].quantity, NextSplit(items, all, at, Splits(items, all, at)).amount)
  }

  ghost function IncludedRange(items: seq<PricedLine>, all: seq<Entry>, start: nat, end: nat): seq<PricedLine>
    requires AreEntriesOf(items, all) && start <= end <= |all|
  {
    if start == end then [] else IncludedRange(items, all, start, end - 1) + [IncludedAt(items, all, end - 1)]
  }

  /** The lines shown inside the card of group g. */
  ghost function Included(items: seq<PricedLine>, groups: seq<Group>, g: nat): seq<PricedLine>
    requires AreGroupsOf(items, groups) && g < |groups|
  {
    EntriesOfGroups(items, groups);
    EntriesUpTo(groups, g);
    IncludedRange(items, AllEntries(groups), |AllEntries(groups[..g])|, |AllEntries(groups[..g])| + |groups[g].entries|)
  }

  lemma {:induction false} EntriesOfGroups(items: seq<PricedLine>, groups: seq<Group>)
    requires AreGroupsOf(items, groups)
    ensures AreEntriesOf(items, AllEntries(groups))
    ensures forall g :: 0 <= g < |groups| ==> AreEntriesOf(items, groups[g].entries)
  {
    if groups != [] {
      EntriesOfGroups(items, groups[..|groups| - 1]);
      assert IsGroupOf(items, groups[|groups| - 1]);
    }
  }

  lemma {:induction false} EntriesUpTo(groups: seq<Group>, g: nat)
    requires g < |groups|
    ensures |AllEntries(groups[..g])| + |groups[g].entries| <= |AllEntries(groups)|
    ensures AllEntries(groups)[|AllEntries(groups[..g])|..|AllEntries(groups[..g])| + |groups[g].entries|] == groups[g].entries
    ensures AllEntries(groups)[..|AllEntries(groups[..g])|] == AllEntries(groups[..g])
  {
    var front, last := groups[..|groups| - 1], groups[|groups| - 1];
    if g < |front| {
      EntriesUpTo(front, g);
      assert front[..g] == groups[..g];
      var start, end := |AllEntries(front[..g])|, |AllEntries(front[..g])| + |front[g].entries|;
      assert AllEntries(groups)[start..end] == AllEntries(front)[start..end];
    } else {
      assert front == groups[..g];
    }
  }

  function TotalOf(items: seq<PricedLine>, amount: PricedLine -> int): int {
    if items == [] then 0 else TotalOf(items[..|items| - 1], amount) + amount(items[|items| - 1])
  }

  function LineTotal(): PricedLine -> int { (item: PricedLine) => item.lineTotal }

  function DepositTotal(): PricedLine -> int { (item: PricedLine) => item.depositTotal }

  function ModifiersTotal(): PricedLine -> int { (item: PricedLine) => item.modifiersTotal }

  function CardId(dealId: string, groupCount: nat, firstIndex: nat, ordinal: nat): string {
    if groupCount == 1 then "deal:" + dealId
    else "deal:" + dealId + ":" + ToDecimal(firstIndex) + ":" + ToDecimal(ordinal)
  }

  /** The cards already shown at a line. */
  function CardsAt(slots: seq<Slot>, i: nat): seq<Card> {
    if slots == [] then []
    else
      var last := slots[|slots| - 1];
      CardsAt(slots[..|slots| - 1], i) + (if last.firstIndex == i then [last.card] else [])
  }

  function MakeCard(items: seq<PricedLine>, deal: CartDeal, groupCount: nat, group: Group, ordinal: nat,
    included: seq<PricedLine>): Card
    requires IsGroupOf(items, group)
  {
    Card(
      CardId(deal.dealId, groupCount, group.entries[0].index, ordinal),
      deal.dealId,
      seq(|group.entries|, k requires 0 <= k < |group.entries| => items[group.entries[k].index].id),
      seq(|included|, k requires 0 <= k < |included| => included[k].line.menuItemId),
      group.quantity,
      deal.pricing.fixedPrice,
      TotalOf(included, ModifiersTotal()),
      (TotalOf(included, LineTotal()) - TotalOf(included, DepositTotal())) as real / group.quantity as real,
      TotalOf(included, DepositTotal()) as real / group.quantity as real,
      TotalOf(included, DepositTotal()),
      TotalOf(included, LineTotal()),
      included)
  }

  /** The cards of the first n groups of a deal, after the cards of earlier deals. */
  ghost function DealSlots(items: seq<PricedLine>, deal: CartDeal, groups: seq<Group>, n: nat, earlier: seq<Slot>): seq<Slot>
    requires AreGroupsOf(items, groups) && n <= |groups|
  {
    if n == 0 then earlier
    else
      var before, first := DealSlots(items, deal, groups, n - 1, earlier), groups[n - 1].entries[0].index;
      before + [Slot(first,
        MakeCard(items, deal, |groups|, groups[n - 1], |CardsAt(before, first)|, Included(items, groups, n - 1)))]
  }

  // ----- The whole cart -----

  predicate IsPriceable(deal: CartDeal) {
    deal.pricing.selectionMode.FixedItems? ==> deal.pricing.menuItemIds != []
  }

  ghost predicate ArePriceable(deals: seq<CartDeal>) {
    forall d :: 0 <= d < |deals| ==> IsPriceable(deals[d])
  }

  function GroupsOf(items: seq<PricedLine>, deal: CartDeal): (groups: seq<Group>)
    requires IsPriceable(deal)
    ensures AreGroupsOf(items, groups)
  {
    GroupsOfDeal(items, deal.dealId, deal.pricing);
    DisplayGroups(LinesOf(items), deal.dealId, deal.pricing)
  }

  ghost function CartSlots(items: seq<PricedLine>, deals: seq<CartDeal>): seq<Slot>
    requires ArePriceable(deals)
  {
    if deals == [] then []
    else
      var last := deals[|deals| - 1];
      DealSlots(items, last, GroupsOf(items, last), |GroupsOf(items, last)|, CartSlots(items, deals[..|deals| - 1]))
  }

  /** All entries of all deals of the cart. */
  ghost function CartEntries(items: seq<PricedLine>, deals: seq<CartDeal>): seq<Entry>
    requires ArePriceable(deals)
  {
    if deals == [] then []
    else CartEntries(items, deals[..|deals| - 1]) + AllEntries(GroupsOf(items, deals[|deals| - 1]))
  }

  ghost function CartSplits(items: seq<PricedLine>, deals: seq<CartDeal>): seq<Posting>
    requires ArePriceable(deals)
  {
    if deals == [] then []
    else
      var all := AllEntries(GroupsOf(items, deals[|deals| - 1]));
      EntriesOfGroups(items, GroupsOf(items, deals[|deals| - 1]));
      CartSplits(items, deals[..|deals| - 1]) + Splits(items, all, |all|)
  }

  function LineDisplay(item: PricedLine, cards: seq<Card>, grouped: nat): seq<DisplayItem> {
    var shown := seq(|cards|, k requires 0 <= k < |cards| => DealCard(cards[k]));
    if grouped >= item.line.quantity then shown
    else if grouped > 0 then shown + [PlainItem(Leftover(item, grouped))]
    else shown + [PlainItem(item)]
  }

  ghost function Display(items: seq<PricedLine>, slots: seq<Slot>, entries: seq<Entry>, n: nat): seq<DisplayItem>
    requires n <= |items|
  {
    if n == 0 then []
    else
      Display(items, slots, entries, n - 1)
      + LineDisplay(items[n - 1], CardsAt(slots, n - 1), UnitsIn(entries, Line(n - 1)))
  }

  /** What the cart shows. */
  ghost function CartDisplay(items: seq<PricedLine>, deals: seq<CartDeal>): seq<DisplayItem>
    requires ArePriceable(deals)
  {
    Display(items, CartSlots(items, deals), CartEntries(items, deals), |items|)
  }

  // ----- The loops of the source -----

  /** The units each line gives to the groups. */
  method CountUnits(groups: seq<Group>, start: map<nat, int>, ghost before: seq<Entry>) returns (counts: map<nat, int>)
    requires Tallies(start, Units(before))
    ensures Tallies(counts, Units(before + AllEntries(groups)))
  {
    counts := start;
    assert before + AllEntries(groups[..0]) == before;
    for g := 0 to |groups|
      invariant Tallies(counts, Units(before + AllEntries(groups[..g])))
    {
      assert groups[..g + 1][..g] == groups[..g];
      counts := CountGroup(groups[g].entries, counts, before + AllEntries(groups[..g]));
      assert before + AllEntries(groups[..g + 1]) == before + AllEntries(groups[..g]) + groups[g].entries;
    }
    assert groups[..|groups|] == groups;
  }

  method CountGroup(entries: seq<Entry>, start: map<nat, int>, ghost before: seq<Entry>) returns (counts: map<nat, int>)
    requires Tallies(start, Units(before))
    ensures Tallies(counts, Units(before + entries))
  {
    counts := start;
    assert before + entries[..0] == before;
    for k := 0 to |entries|
      invariant Tallies(counts, Units(before + entries[..k]))
    {
      assert before + entries[..k + 1] == (before + entries[..k]) + [entries[k]];
      UnitsConcat(before + entries[..k], [entries[k]]);
      assert Units([entries[k]]) == [Posting(entries[k].index, entries[k].quantity)];
      counts := Tally(counts, Posting(entries[k].index, entries[k].quantity), Units(before + entries[..k]));
    }
    assert entries[..|entries|] == entries;
  }

  /** Splits one entry off its line and records the split. */
  method IncludeEntry(items: seq<PricedLine>, entry: Entry, ghost all: seq<Entry>, ghost at: nat,
    grouped: map<nat, int>, quantities: map<nat, int>, totals: map<nat, int>)
    returns (included: PricedLine, quantitiesNow: map<nat, int>, totalsNow: map<nat, int>)
    requires AreEntriesOf(items, all) && at < |all| && all[at] == entry
    requires Tallies(grouped, Units(all))
    requires Tallies(quantities, Units(all[..at])) && Tallies(totals, Splits(items, all, at))
    ensures included == IncludedAt(items, all, at)
    ensures Tallies(quantitiesNow, Units(all[..at + 1])) && Tallies(totalsNow, Splits(items, all, at + 1))
  {
    ghost var before := Splits(items, all, at);
    LookupUnits(grouped, all, entry.index);
    LookupUnits(quantities, all[..at], entry.index);
    LookupPosted(totals, before, entry.index);
    assert Units(all)[at].index == entry.index;
    var groupedQuantity := if entry.index in grouped then grouped[entry.index] else entry.quantity;
    var split := SplitTotal(items[entry.index], entry.quantity,
      Lookup(quantities, entry.index), Lookup(totals, entry.index), groupedQuantity);
    included := Clone(items[entry.index], entry.quantity, split);
    quantitiesNow := Tally(quantities, Posting(entry.index, entry.quantity), Units(all[..at]));
    totalsNow := Tally(totals, Posting(entry.index, split), before);
    assert Units(all[..at + 1]) == Units(all[..at]) + [Posting(entry.index, entry.quantity)];
  }

  method IncludeEntries(items: seq<PricedLine>, entries: seq<Entry>, ghost all: seq<Entry>, ghost start: nat,
    grouped: map<nat, int>, quantities: map<nat, int>, totals: map<nat, int>)
    returns (included: seq<PricedLine>, quantitiesNow: map<nat, int>, totalsNow: map<nat, int>)
    requires AreEntriesOf(items, all)
    requires start + |entries| <= |all| && all[start..start + |entries|] == entries
    requires Tallies(grouped, Units(all))
    requires Tallies(quantities, Units(all[..start])) && Tallies(totals, Splits(items, all, start))
    ensures included == IncludedRange(items, all, start, start + |entries|)
    ensures Tallies(quantitiesNow, Units(all[..start + |entries|]))
    ensures Tallies(totalsNow, Splits(items, all, start + |entries|))
  {
    hide Splits, NextSplit, SplitTotal, IncludedAt, Units, Tallies;
    included, quantitiesNow, totalsNow := [], quantities, totals;
    ghost var at := start;
    for k := 0 to |entries|
      invariant at == start + k
      invariant included == IncludedRange(items, all, start, at)
      invariant Tallies(quantitiesNow, Units(all[..at])) && Tallies(totalsNow, Splits(items, all, at))
    {
      assert all[at] == all[start..start + |entries|][k];
      var line;
      line, quantitiesNow, totalsNow := IncludeEntry(items, entries[k], all, at, grouped, quantitiesNow, totalsNow);
      included := included + [line];
      at := at + 1;
    }
  }

  ghost predicate Shelves(shelf: map<nat, seq<Card>>, slots: seq<Slot>) {
    forall i: nat :: (if i in shelf then shelf[i] else []) == CardsAt(slots, i)
  }

  method ShowGroup(items: seq<PricedLine>, deal: CartDeal, groups: seq<Group>, g: nat, grouped: map<nat, int>,
    quantities: map<nat, int>, totals: map<nat, int>, shelf: map<nat, seq<Card>>, ghost earlier: seq<Slot>)
    returns (quantitiesNow: map<nat, int>, totalsNow: map<nat, int>, shelfNow: map<nat, seq<Card>>)
    requires AreGroupsOf(items, groups) && g < |groups|
    requires AreEntriesOf(items, AllEntries(groups)) && |AllEntries(groups[..g])| <= |AllEntries(groups)|
    requires Tallies(grouped, Units(AllEntries(groups)))
    requires Tallies(quantities, Units(AllEntries(groups[..g])))
    requires Tallies(totals, Splits(items, AllEntries(groups), |AllEntries(groups[..g])|))
    requires Shelves(shelf, DealSlots(items, deal, groups, g, earlier))
    ensures |AllEntries(groups[..g + 1])| <= |AllEntries(groups)|
    ensures Tallies(quantitiesNow, Units(AllEntries(groups[..g + 1])))
    ensures Tallies(totalsNow, Splits(items, AllEntries(groups), |AllEntries(groups[..g + 1])|))
    ensures Shelves(shelfNow, DealSlots(items, deal, groups, g + 1, earlier))
  {
    hide Splits, NextSplit, SplitTotal, Tallies, Shelves, CardsAt, MakeCard, IncludedRange, UnitsIn, Units;
    ghost var all, start := AllEntries(groups), |AllEntries(groups[..g])|;
    EntriesUpTo(groups, g);
    assert groups[..g + 1][..g] == groups[..g];
    var entries := groups[g].entries;
    assert all[..start + |entries|] == AllEntries(groups[..g + 1]);
    var included;
    included, quantitiesNow, totalsNow := IncludeEntries(items, entries, all, start, grouped, quantities, totals);
    assert IsGroupOf(items, groups[g]);
    var firstIndex := entries[0].index;
    var cards := if firstIndex in shelf then shelf[firstIndex] else [];
    shelfNow := shelf[firstIndex := cards + [MakeCard(items, deal, |groups|, groups[g], |cards|, included)]];
    ShelvesNext(shelf, DealSlots(items, deal, groups, g, earlier), firstIndex,
      MakeCard(items, deal, |groups|, groups[g], |cards|, included));
  }

  lemma {:induction false} ShelvesNext(shelf: map<nat, seq<Card>>, slots: seq<Slot>, i: nat, card: Card)
    requires Shelves(shelf, slots)
    ensures Shelves(shelf[i := (if i in shelf then shelf[i] else []) + [card]], slots + [Slot(i, card)])
    ensures (if i in shelf then shelf[i] else []) == CardsAt(slots, i)
  {
    assert (slots + [Slot(i, card)])[..|slots|] == slots;
  }

  method ShowDeal(items: seq<PricedLine>, deal: CartDeal, groups: seq<Group>, shelf: map<nat, seq<Card>>,
    ghost earlier: seq<Slot>) returns (shelfNow: map<nat, seq<Card>>)
    requires AreGroupsOf(items, groups)
    requires Shelves(shelf, earlier)
    ensures Shelves(shelfNow, DealSlots(items, deal, groups, |groups|, earlier))
  {
    var grouped := CountUnits(groups, map[], []);
    assert [] + AllEntries(groups) == AllEntries(groups);
    EntriesOfGroups(items, groups);
    var quantities: map<nat, int>, totals: map<nat, int> := map[], map[];
    shelfNow := shelf;
    for g := 0 to |groups|
      invariant |AllEntries(groups[..g])| <= |AllEntries(groups)|
      invariant Tallies(quantities, Units(AllEntries(groups[..g])))
      invariant Tallies(totals, Splits(items, AllEntries(groups), |AllEntries(groups[..g])|))
      invariant Shelves(shelfNow, DealSlots(items, deal, groups, g, earlier))
    {
      quantities, totals, shelfNow := ShowGroup(items, deal, groups, g, grouped, quantities, totals, shelfNow, earlier);
    }
  }

  method GroupDealItemsForCartResponse(items: seq<PricedLine>, deals: seq<CartDeal>) returns (display: seq<DisplayItem>)
    requires ArePriceable(deals)
    ensures display == CartDisplay(items, deals)
  {
    var groupedQuantities: map<nat, int>, groupedByFirst: map<nat, seq<Card>> := map[], map[];
    for d := 0 to |deals|
      invariant Tallies(groupedQuantities, Units(CartEntries(items, deals[..d])))
      invariant Shelves(groupedByFirst, CartSlots(items, deals[..d]))
    {
      assert deals[..d + 1][..d] == deals[..d];
      var groups := GroupsOf(items, deals[d]);
      groupedByFirst := ShowDeal(items, deals[d], groups, groupedByFirst, CartSlots(items, deals[..d]));
      groupedQuantities := CountUnits(groups, groupedQuantities, CartEntries(items, deals[..d]));
    }
    assert deals[..|deals|] == deals;
    display := EmitLines(items, groupedByFirst, groupedQuantities, CartSlots(items, deals), CartEntries(items, deals));
  }

  method EmitLines(items: seq<PricedLine>, groupedByFirst: map<nat, seq<Card>>, groupedQuantities: map<nat, int>,
    ghost slots: seq<Slot>, ghost entries: seq<Entry>) returns (display: seq<DisplayItem>)
    requires Shelves(groupedByFirst, slots) && Tallies(groupedQuantities, Units(entries))
    ensures display == Display(items, slots, entries, |items|)
  {
    display := [];
    for index := 0 to |items|
      invariant display == Display(items, slots, entries, index)
    {
      LookupUnits(groupedQuantities, entries, index);
      var cards := if index in groupedByFirst then groupedByFirst[index] else [];
      display := display + LineDisplay(items[index], cards, Lookup(groupedQuantities, index));
    }
  }
}
