/** What the displayed cart promises: every card once, and no cent lost or shown twice, or else exactly how much. */
module DealDisplayLaws {
  import opened Prelude
  import opened Allocation
  import opened DealGroups
  import opened DealGroupLaws
  import opened DealPricing
  import opened DealDisplay

  // ----- Every card is shown once -----

  ghost function SlotCards(slots: seq<Slot>): seq<Card> {
    if slots == [] then [] else SlotCards(slots[..|slots| - 1]) + [slots[|slots| - 1].card]
  }

  /** The cards shown at one of the first n lines. */
  ghost function CardsBelow(slots: seq<Slot>, n: nat): seq<Card> {
    if n == 0 then [] else CardsBelow(slots, n - 1) + CardsAt(slots, n - 1)
  }

  ghost function CardsOf(display: seq<DisplayItem>): seq<Card> {
    if display == [] then []
    else
      var last := display[|display| - 1];
      CardsOf(display[..|display| - 1]) + (if last.DealCard? then [last.card] else [])
  }

  lemma {:induction false} CardsOfConcat(xs: seq<DisplayItem>, ys: seq<DisplayItem>)
    ensures CardsOf(xs + ys) == CardsOf(xs) + CardsOf(ys)
  {
    if ys == [] {
      assert xs + ys == xs;
    } else {
      CardsOfConcat(xs, ys[..|ys| - 1]);
      assert (xs + ys)[..|xs + ys| - 1] == xs + ys[..|ys| - 1];
    }
  }

  lemma {:induction false} CardsOfShown(cards: seq<Card>)
    ensures CardsOf(seq(|cards|, k requires 0 <= k < |cards| => DealCard(cards[k]))) == cards
  {
    if cards != [] {
      var shown, front := seq(|cards|, k requires 0 <= k < |cards| => DealCard(cards[k])), cards[..|cards| - 1];
      CardsOfShown(front);
      assert shown[..|front|] == seq(|front|, k requires 0 <= k < |front| => DealCard(front[k]));
    }
  }

  lemma {:induction false} LineDisplayCards(item: PricedLine, cards: seq<Card>, grouped: nat)
    ensures CardsOf(LineDisplay(item, cards, grouped)) == cards
  {
    var shown := seq(|cards|, k requires 0 <= k < |cards| => DealCard(cards[k]));
    CardsOfShown(cards);
    if grouped < item.line.quantity {
      var rest := if grouped > 0 then PlainItem(Leftover(item, grouped)) else PlainItem(item);
      CardsOfConcat(shown, [rest]);
      assert [rest][..0] == [];
    }
  }

  lemma {:induction false} DisplayCards(items: seq<PricedLine>, slots: seq<Slot>, entries: seq<Entry>, n: nat)
    requires n <= |items|
    ensures CardsOf(Display(items, slots, entries, n)) == CardsBelow(slots, n)
  {
    hide LineDisplay;
    if n > 0 {
      DisplayCards(items, slots, entries, n - 1);
      var line := LineDisplay(items[n - 1], CardsAt(slots, n - 1), UnitsIn(entries, Line(n - 1)));
      CardsOfConcat(Display(items, slots, entries, n - 1), line);
      LineDisplayCards(items[n - 1], CardsAt(slots, n - 1), UnitsIn(entries, Line(n - 1)));
    }
  }

  lemma {:induction false} CardsAtSnoc(slots: seq<Slot>, slot: Slot, i: nat)
    ensures CardsAt(slots + [slot], i) == CardsAt(slots, i) + (if slot.firstIndex == i then [slot.card] else [])
  {
    assert (slots + [slot])[..|slots|] == slots;
  }

  lemma {:induction false} CardsBelowSnoc(slots: seq<Slot>, slot: Slot, n: nat)
    ensures multiset(CardsBelow(slots + [slot], n))
            == multiset(CardsBelow(slots, n)) + (if slot.firstIndex < n then multiset{slot.card} else multiset{})
  {
    hide CardsAt;
    if n > 0 {
      CardsBelowSnoc(slots, slot, n - 1);
      CardsAtSnoc(slots, slot, n - 1);
    }
  }

  lemma {:induction false} CardsBelowAll(slots: seq<Slot>, n: nat)
    requires forall k :: 0 <= k < |slots| ==> slots[k].firstIndex < n
    ensures multiset(CardsBelow(slots, n)) == multiset(SlotCards(slots))
  {
    if slots == [] {
      CardsBelowNone(n);
    } else {
      var front, last := slots[..|slots| - 1], slots[|slots| - 1];
      CardsBelowAll(front, n);
      CardsBelowSnoc(front, last, n);
      assert slots == front + [last];
    }
  }

  lemma {:induction false} CardsBelowNone(n: nat)
    ensures CardsBelow([], n) == []
  {
    if n > 0 {
      CardsBelowNone(n - 1);
    }
  }

  // ----- Where cards come from -----

  ghost predicate SlotsWithin(slots: seq<Slot>, n: nat) {
    forall k :: 0 <= k < |slots| ==> slots[k].firstIndex < n
  }

  lemma {:induction false} DealSlotsWithin(items: seq<PricedLine>, deal: CartDeal, groups: seq<Group>, n: nat, earlier: seq<Slot>)
    requires AreGroupsOf(items, groups) && n <= |groups|
    requires SlotsWithin(earlier, |items|)
    ensures SlotsWithin(DealSlots(items, deal, groups, n, earlier), |items|)
    ensures |DealSlots(items, deal, groups, n, earlier)| == |earlier| + n
  {
    hide MakeCard, Included;
    if n > 0 {
      DealSlotsWithin(items, deal, groups, n - 1, earlier);
      assert IsGroupOf(items, groups[n - 1]);
    }
  }

  lemma {:induction false} CartSlotsWithin(items: seq<PricedLine>, deals: seq<CartDeal>)
    requires ArePriceable(deals)
    ensures SlotsWithin(CartSlots(items, deals), |items|)
  {
    if deals != [] {
      var last := deals[|deals| - 1];
      CartSlotsWithin(items, deals[..|deals| - 1]);
      DealSlotsWithin(items, last, GroupsOf(items, last), |GroupsOf(items, last)|, CartSlots(items, deals[..|deals| - 1]));
    }
  }

  /** Every deal group of the cart is shown as exactly one card. */
  lemma {:induction false} EachCardOnce(items: seq<PricedLine>, deals: seq<CartDeal>)
    requires ArePriceable(deals)
    ensures multiset(CardsOf(CartDisplay(items, deals))) == multiset(SlotCards(CartSlots(items, deals)))
  {
    DisplayCards(items, CartSlots(items, deals), CartEntries(items, deals), |items|);
    CartSlotsWithin(items, deals);
    CardsBelowAll(CartSlots(items, deals), |items|);
  }

  // ----- Amounts -----

  /** An amount of a card or of a plain line. */
  datatype Amount = LineTotals | Deposits
  {
    function OfLine(item: PricedLine): int { if LineTotals? then item.lineTotal else item.depositTotal }

    function OfCard(card: Card): int { if LineTotals? then card.lineTotal else card.depositTotal }

    function Of(shown: DisplayItem): int {
      match shown
      case DealCard(card) => OfCard(card)
      case PlainItem(item) => OfLine(item)
    }
  }

  /** What a display adds up to. */
  ghost function ShownTotal(display: seq<DisplayItem>, amount: Amount): int {
    if display == [] then 0 else ShownTotal(display[..|display| - 1], amount) + amount.Of(display[|display| - 1])
  }

  ghost function CardTotal(cards: seq<Card>, amount: Amount): int {
    if cards == [] then 0 else CardTotal(cards[..|cards| - 1], amount) + amount.OfCard(cards[|cards| - 1])
  }

  lemma {:induction false} ShownConcat(xs: seq<DisplayItem>, ys: seq<DisplayItem>, amount: Amount)
    ensures ShownTotal(xs + ys, amount) == ShownTotal(xs, amount) + ShownTotal(ys, amount)
  {
    if ys == [] {
      assert xs + ys == xs;
    } else {
      ShownConcat(xs, ys[..|ys| - 1], amount);
      assert (xs + ys)[..|xs + ys| - 1] == xs + ys[..|ys| - 1];
    }
  }

  lemma {:induction false} ShownCards(cards: seq<Card>, amount: Amount)
    ensures ShownTotal(seq(|cards|, k requires 0 <= k < |cards| => DealCard(cards[k])), amount) == CardTotal(cards, amount)
  {
    if cards != [] {
      var shown, front := seq(|cards|, k requires 0 <= k < |cards| => DealCard(cards[k])), cards[..|cards| - 1];
      ShownCards(front, amount);
      assert shown[..|front|] == seq(|front|, k requires 0 <= k < |front| => DealCard(front[k]));
    }
  }

  /** What is shown of a line besides its cards. */
  ghost function Rest(item: PricedLine, grouped: nat, amount: Amount): int {
    if grouped >= item.line.quantity then 0
    else if grouped > 0 then amount.OfLine(Leftover(item, grouped))
    else amount.OfLine(item)
  }

  lemma {:induction false} LineDisplayTotal(item: PricedLine, cards: seq<Card>, grouped: nat, amount: Amount)
    ensures ShownTotal(LineDisplay(item, cards, grouped), amount) == CardTotal(cards, amount) + Rest(item, grouped, amount)
  {
    var shown := seq(|cards|, k requires 0 <= k < |cards| => DealCard(cards[k]));
    ShownCards(cards, amount);
    if grouped < item.line.quantity {
      var rest := if grouped > 0 then PlainItem(Leftover(item, grouped)) else PlainItem(item);
      ShownConcat(shown, [rest], amount);
      assert [rest][..0] == [];
    }
  }

  ghost function SlotPostings(slots: seq<Slot>, amount: Amount): (ps: seq<Posting>)
    ensures |ps| == |slots|
    ensures forall k :: 0 <= k < |slots| ==> ps[k] == Posting(slots[k].firstIndex, amount.OfCard(slots[k].card))
  {
    seq(|slots|, k requires 0 <= k < |slots| => Posting(slots[k].firstIndex, amount.OfCard(slots[k].card)))
  }

  lemma {:induction false} CardsAtTotal(slots: seq<Slot>, i: nat, amount: Amount)
    ensures CardTotal(CardsAt(slots, i), amount) == Posted(SlotPostings(slots, amount), i)
  {
    if slots != [] {
      var front, last := slots[..|slots| - 1], slots[|slots| - 1];
      CardsAtTotal(front, i, amount);
      assert SlotPostings(slots, amount)[..|front|] == SlotPostings(front, amount);
      if last.firstIndex == i {
        assert (CardsAt(front, i) + [last.card])[..|CardsAt(front, i)|] == CardsAt(front, i);
      } else {
        assert CardsAt(slots, i) == CardsAt(front, i);
      }
    }
  }

  ghost function LineShown(items: seq<PricedLine>, slots: seq<Slot>, entries: seq<Entry>, amount: Amount): nat -> int {
    (i: nat) => if i < |items|
      then Posted(SlotPostings(slots, amount), i) + Rest(items[i], UnitsIn(entries, Line(i)), amount) else 0
  }

  lemma {:induction false} NothingShown(amount: Amount)
    ensures ShownTotal([], amount) == 0
  {}

  lemma {:induction false} DisplayTotal(items: seq<PricedLine>, slots: seq<Slot>, entries: seq<Entry>, n: nat, amount: Amount)
    requires n <= |items|
    ensures ShownTotal(Display(items, slots, entries, n), amount) == Total(n, LineShown(items, slots, entries, amount))
  {
    hide LineDisplay, Rest, UnitsIn, Posted, CardsAt, SlotPostings, ShownTotal;
    if n == 0 {
      NothingShown(amount);
    } else {
      DisplayTotal(items, slots, entries, n - 1, amount);
      var grouped := UnitsIn(entries, Line(n - 1));
      ShownConcat(Display(items, slots, entries, n - 1), LineDisplay(items[n - 1], CardsAt(slots, n - 1), grouped), amount);
      LineDisplayTotal(items[n - 1], CardsAt(slots, n - 1), grouped, amount);
      CardsAtTotal(slots, n - 1, amount);
    }
  }

  // ----- What the cards add up to -----

  /** The deposits of the entries, as cards show them. */
  ghost function EntryDeposits(items: seq<PricedLine>, entries: seq<Entry>): seq<Posting>
    requires AreEntriesOf(items, entries)
  {
    if entries == [] then []
    else
      var last := entries[|entries| - 1];
      EntryDeposits(items, entries[..|entries| - 1])
      + [Posting(last.index, items[last.index].depositAmount * last.quantity)]
  }

  ghost function EntryAmounts(items: seq<PricedLine>, all: seq<Entry>, k: nat, amount: Amount): seq<Posting>
    requires AreEntriesOf(items, all) && k <= |all|
  {
    if amount.LineTotals? then Splits(items, all, k) else EntryDeposits(items, all[..k])
  }

  lemma {:induction false} EntryAmountsNext(items: seq<PricedLine>, all: seq<Entry>, k: nat, amount: Amount)
    requires AreEntriesOf(items, all) && k < |all|
    ensures PostedTotal(EntryAmounts(items, all, k + 1, amount))
            == PostedTotal(EntryAmounts(items, all, k, amount)) + amount.OfLine(IncludedAt(items, all, k))
  {
    hide SplitTotal;
    if amount.LineTotals? {
      PostedSnoc(Splits(items, all, k), NextSplit(items, all, k, Splits(items, all, k)));
    } else {
      assert all[..k + 1][..k] == all[..k];
      PostedSnoc(EntryDeposits(items, all[..k]), Posting(all[k].index, items[all[k].index].depositAmount * all[k].quantity));
    }
  }

  ghost function AmountOf(amount: Amount): PricedLine -> int {
    if amount.LineTotals? then LineTotal() else DepositTotal()
  }

  lemma {:induction false} IncludedTotal(items: seq<PricedLine>, all: seq<Entry>, start: nat, end: nat, amount: Amount)
    requires AreEntriesOf(items, all) && start <= end <= |all|
    ensures TotalOf(IncludedRange(items, all, start, end), AmountOf(amount))
            == PostedTotal(EntryAmounts(items, all, end, amount)) - PostedTotal(EntryAmounts(items, all, start, amount))
  {
    hide IncludedAt, EntryAmounts;
    if start < end {
      IncludedTotal(items, all, start, end - 1, amount);
      EntryAmountsNext(items, all, end - 1, amount);
    }
  }

  ghost function SlotTotal(slots: seq<Slot>, amount: Amount): int { PostedTotal(SlotPostings(slots, amount)) }

  lemma {:induction false} SlotTotalSnoc(slots: seq<Slot>, slot: Slot, amount: Amount)
    ensures SlotTotal(slots + [slot], amount) == SlotTotal(slots, amount) + amount.OfCard(slot.card)
  {
    var posting := Posting(slot.firstIndex, amount.OfCard(slot.card));
    assert SlotPostings(slots + [slot], amount) == SlotPostings(slots, amount) + [posting];
    PostedSnoc(SlotPostings(slots, amount), posting);
  }

  /** A card shows the sum of the lines inside it. */
  lemma {:induction false} CardAmount(items: seq<PricedLine>, deal: CartDeal, count: nat, group: Group, ordinal: nat,
    included: seq<PricedLine>, amount: Amount)
    requires IsGroupOf(items, group)
    ensures amount.OfCard(MakeCard(items, deal, count, group, ordinal, included)) == TotalOf(included, AmountOf(amount))
  {}

  lemma {:induction false} DealSlotsTotal(
    items: seq<PricedLine>, deal: CartDeal, groups: seq<Group>, n: nat, earlier: seq<Slot>, amount: Amount)
    requires AreGroupsOf(items, groups) && n <= |groups|
    ensures AreEntriesOf(items, AllEntries(groups)) && |AllEntries(groups[..n])| <= |AllEntries(groups)|
    ensures SlotTotal(DealSlots(items, deal, groups, n, earlier), amount)
            == SlotTotal(earlier, amount)
               + PostedTotal(EntryAmounts(items, AllEntries(groups), |AllEntries(groups[..n])|, amount))
  {
    hide IncludedRange, Splits, MakeCard, SlotTotal, CardsAt, EntryAmounts, IsGroupOf;
    EntriesOfGroups(items, groups);
    if n > 0 {
      DealSlotsTotal(items, deal, groups, n - 1, earlier, amount);
      EntriesUpTo(groups, n - 1);
      assert groups[..n][..n - 1] == groups[..n - 1];
      assert groups[n - 1] == groups[..n][n - 1] && IsGroupOf(items, groups[n - 1]);
      GroupHasEntries(items, groups[n - 1]);
      var before, group, included := DealSlots(items, deal, groups, n - 1, earlier), groups[n - 1], Included(items, groups, n - 1);
      var first := group.entries[0].index;
      var card := MakeCard(items, deal, |groups|, group, |CardsAt(before, first)|, included);
      SlotTotalSnoc(before, Slot(first, card), amount);
      CardAmount(items, deal, |groups|, group, |CardsAt(before, first)|, included, amount);
      IncludedTotal(items, AllEntries(groups), |AllEntries(groups[..n - 1])|, |AllEntries(groups[..n])|, amount);
    } else {
      NothingSplit(items, AllEntries(groups), amount);
    }
  }

  lemma {:induction false} GroupHasEntries(items: seq<PricedLine>, group: Group)
    requires IsGroupOf(items, group)
    ensures group.entries != []
  {}

  lemma {:induction false} NothingSplit(items: seq<PricedLine>, all: seq<Entry>, amount: Amount)
    requires AreEntriesOf(items, all)
    ensures PostedTotal(EntryAmounts(items, all, 0, amount)) == 0
  {}

  /** The amounts of all entries of the cart's deals. */
  ghost function CartAmounts(items: seq<PricedLine>, deals: seq<CartDeal>, amount: Amount): seq<Posting>
    requires ArePriceable(deals)
  {
    if deals == [] then []
    else
      var all := AllEntries(GroupsOf(items, deals[|deals| - 1]));
      EntriesOfGroups(items, GroupsOf(items, deals[|deals| - 1]));
      CartAmounts(items, deals[..|deals| - 1], amount) + EntryAmounts(items, all, |all|, amount)
  }

  lemma {:induction false} CartSlotsTotal(items: seq<PricedLine>, deals: seq<CartDeal>, amount: Amount)
    requires ArePriceable(deals)
    ensures SlotTotal(CartSlots(items, deals), amount) == PostedTotal(CartAmounts(items, deals, amount))
  {
    hide SlotTotal, EntryAmounts;
    if deals == [] {
      NoSlots(amount);
    } else {
      var front, last := deals[..|deals| - 1], deals[|deals| - 1];
      var groups := GroupsOf(items, last);
      var all := AllEntries(groups);
      CartSlotsTotal(items, front, amount);
      DealSlotsTotal(items, last, groups, |groups|, CartSlots(items, front), amount);
      assert groups[..|groups|] == groups;
      PostedConcat(CartAmounts(items, front, amount), EntryAmounts(items, all, |all|, amount), 0);
    }
  }

  lemma {:induction false} NoSlots(amount: Amount)
    ensures SlotTotal([], amount) == 0
  {}

  // ----- Line by line -----

  ghost predicate DistinctDeals(deals: seq<CartDeal>) {
    forall a, b :: 0 <= a < b < |deals| ==> deals[a].dealId != deals[b].dealId
  }

  /** Units of line i that cards show. */
  ghost function GroupedUnits(items: seq<PricedLine>, deals: seq<CartDeal>, i: nat): nat
    requires ArePriceable(deals)
  {
    UnitsIn(CartEntries(items, deals), Line(i))
  }

  /** A line whose deal is not among these gives them nothing. */
  lemma {:induction false} OtherDeals(items: seq<PricedLine>, deals: seq<CartDeal>, i: nat, amount: Amount)
    requires ArePriceable(deals)
    requires i < |items| ==> forall d :: 0 <= d < |deals| ==> items[i].line.dealId != Some(deals[d].dealId)
    ensures GroupedUnits(items, deals, i) == 0
    ensures Posted(CartAmounts(items, deals, amount), i) == 0
  {
    hide EntryAmounts, GroupsOf;
    if deals != [] {
      var front, last := deals[..|deals| - 1], deals[|deals| - 1];
      OtherDeals(items, front, i, amount);
      DealLineAmounts(items, last, i, amount);
      LastDealAmounts(items, deals, i, amount);
    }
  }

  /** What one deal shows of a line: nothing, or the line's whole total and its deposit per unit shown. */
  lemma {:induction false} DealLineAmounts(items: seq<PricedLine>, deal: CartDeal, i: nat, amount: Amount)
    requires IsPriceable(deal)
    ensures var all := AllEntries(GroupsOf(items, deal));
      && AreEntriesOf(items, all)
      && (UnitsIn(all, Line(i)) > 0 ==> i < |items| && items[i].line.dealId == Some(deal.dealId))
      && Posted(EntryAmounts(items, all, |all|, amount), i)
         == if UnitsIn(all, Line(i)) == 0 then 0 else LineAmount(items[i], UnitsIn(all, Line(i)), amount)
  {
    var groups := GroupsOf(items, deal);
    var all := AllEntries(groups);
    EntriesOfGroups(items, groups);
    PricingGroupsShape(LinesOf(items), deal.dealId, deal.pricing);
    hide AllEntries, GroupsOf, EntryAmounts, UnitsIn, AreGroupsOf, AreEntriesOf;
    GroupedInDeal(LinesOf(items), deal.dealId, groups, i);
    UntouchedWhenUngrouped(items, groups, i);
    if amount.LineTotals? {
      EntryTotalsPosted(items, all, i, amount);
    } else {
      EntryDepositsShown(items, all, i, amount);
    }
  }

  lemma {:induction false} EntryTotalsPosted(items: seq<PricedLine>, all: seq<Entry>, i: nat, amount: Amount)
    requires AreEntriesOf(items, all) && amount.LineTotals?
    requires UnitsIn(all, Line(i)) > 0 <==> Touches(Units(all), i)
    ensures i >= |items| ==> UnitsIn(all, Line(i)) == 0
    ensures Posted(EntryAmounts(items, all, |all|, amount), i)
         == if UnitsIn(all, Line(i)) == 0 then 0 else items[i].lineTotal
  {
    hide Splits, UnitsIn;
    assert all[..|all|] == all;
    SplitsComplete(items, all, i);
  }

  lemma {:induction false} EntryDepositsShown(items: seq<PricedLine>, all: seq<Entry>, i: nat, amount: Amount)
    requires AreEntriesOf(items, all) && amount.Deposits?
    ensures i >= |items| ==> UnitsIn(all, Line(i)) == 0
    ensures Posted(EntryAmounts(items, all, |all|, amount), i)
         == if UnitsIn(all, Line(i)) == 0 then 0 else items[i].depositAmount * UnitsIn(all, Line(i))
  {
    hide EntryDeposits, UnitsIn;
    assert all[..|all|] == all;
    EntryDepositsPosted(items, all, i);
  }

  ghost function LineAmount(item: PricedLine, grouped: nat, amount: Amount): int {
    if amount.LineTotals? then item.lineTotal else item.depositAmount * grouped
  }

  lemma {:induction false} EntryDepositsPosted(items: seq<PricedLine>, entries: seq<Entry>, i: nat)
    requires AreEntriesOf(items, entries)
    ensures Posted(EntryDeposits(items, entries), i)
            == if i < |items| then items[i].depositAmount * UnitsIn(entries, Line(i)) else 0
    ensures i >= |items| ==> UnitsIn(entries, Line(i)) == 0
  {
    if entries != [] {
      var front, last := entries[..|entries| - 1], entries[|entries| - 1];
      EntryDepositsPosted(items, front, i);
      assert entries == front + [last];
      UnitsInSnoc(front, last, Line(i));
      PostedSnoc(EntryDeposits(items, front), Posting(last.index, items[last.index].depositAmount * last.quantity));
      if last.index == i {
        Distributes(items[i].depositAmount, UnitsIn(front, Line(i)), last.quantity);
      }
    }
  }

  lemma {:induction false} Distributes(a: int, m: int, n: int)
    ensures a * (m + n) == a * m + a * n
  {}

  /** With each deal listed once, cards show of a line exactly what its own deal does. */
  lemma {:induction false} CartLineAmounts(items: seq<PricedLine>, deals: seq<CartDeal>, i: nat, amount: Amount)
    requires ArePriceable(deals) && DistinctDeals(deals) && i < |items|
    ensures Posted(CartAmounts(items, deals, amount), i)
            == if GroupedUnits(items, deals, i) == 0 then 0 else LineAmount(items[i], GroupedUnits(items, deals, i), amount)
  {
    hide EntryAmounts, GroupsOf, LineAmount, UnitsIn, Posted, GroupedUnits, CartAmounts, CartEntries;
    if deals == [] {
      OtherDeals(items, deals, i, amount);
    } else {
      var front, last := deals[..|deals| - 1], deals[|deals| - 1];
      var all := AllEntries(GroupsOf(items, last));
      DealLineAmounts(items, last, i, amount);
      LastDealAmounts(items, deals, i, amount);
      if UnitsIn(all, Line(i)) > 0 {
        assert items[i].line.dealId == Some(last.dealId);
        assert forall d :: 0 <= d < |front| ==> front[d] == deals[d] && front[d].dealId != last.dealId;
        OtherDeals(items, front, i, amount);
      } else {
        CartLineAmounts(items, front, i, amount);
      }
    }
  }

  /** The last deal's units and amounts come on top of those of the deals before it. */
  lemma {:induction false} LastDealAmounts(items: seq<PricedLine>, deals: seq<CartDeal>, i: nat, amount: Amount)
    requires ArePriceable(deals) && deals != []
    ensures var front, all := deals[..|deals| - 1], AllEntries(GroupsOf(items, deals[|deals| - 1]));
      && AreEntriesOf(items, all)
      && GroupedUnits(items, deals, i) == GroupedUnits(items, front, i) + UnitsIn(all, Line(i))
      && Posted(CartAmounts(items, deals, amount), i)
         == Posted(CartAmounts(items, front, amount), i) + Posted(EntryAmounts(items, all, |all|, amount), i)
  {
    hide EntryAmounts, GroupsOf, UnitsIn, Posted;
    var front, last := deals[..|deals| - 1], deals[|deals| - 1];
    var all := AllEntries(GroupsOf(items, last));
    EntriesOfGroups(items, GroupsOf(items, last));
    UnitsInConcat(CartEntries(items, front), all, Line(i));
    PostedConcat(CartAmounts(items, front, amount), EntryAmounts(items, all, |all|, amount), i);
  }

  // ----- The displayed cart and the priced cart -----

  /** A stored line: at least one unit, and its deposit charged per unit. */
  predicate IsCartLine(item: PricedLine) {
    item.line.quantity > 0 && item.depositTotal == item.depositAmount * item.line.quantity
  }

  /** What the display shows of line i beyond (or short of) the line itself. */
  ghost function Surplus(items: seq<PricedLine>, deals: seq<CartDeal>, amount: Amount): nat -> int
    requires ArePriceable(deals)
  {
    (i: nat) => if i < |items| then LineSurplus(items[i], GroupedUnits(items, deals, i), amount) else 0
  }

  /** A partly grouped line has its rest shown on top of its whole total; an over-grouped one has its deposit
      shown for units it does not have. */
  ghost function LineSurplus(item: PricedLine, grouped: nat, amount: Amount): int {
    if amount.LineTotals?
    then if 0 < grouped < item.line.quantity then PartTotal(item, item.line.quantity - grouped) else 0
    else item.depositAmount * Max(grouped - item.line.quantity, 0)
  }

  ghost function PricedAmount(items: seq<PricedLine>, amount: Amount): nat -> int {
    (i: nat) => if i < |items| then amount.OfLine(items[i]) else 0
  }

  /** Exactly what a display adds up to: the priced cart, plus the surplus of each line. */
  lemma {:induction false} DisplayAccounts(items: seq<PricedLine>, deals: seq<CartDeal>, amount: Amount)
    requires ArePriceable(deals) && DistinctDeals(deals)
    requires forall i :: 0 <= i < |items| ==> IsCartLine(items[i])
    ensures ShownTotal(CartDisplay(items, deals), amount)
            == Total(|items|, PricedAmount(items, amount)) + Total(|items|, Surplus(items, deals, amount))
  {
    hide Rest, LineAmount, LineSurplus;
    var slots, entries := CartSlots(items, deals), CartEntries(items, deals);
    var rest: nat -> int := (i: nat) => if i < |items| then Rest(items[i], UnitsIn(entries, Line(i)), amount) else 0;
    var onCards, paid := SlotPostings(slots, amount), CartAmounts(items, deals, amount);
    DisplayTotal(items, slots, entries, |items|, amount);
    TotalSplit(|items|, (i: nat) => Posted(onCards, i), rest, LineShown(items, slots, entries, amount));
    CartSlotsWithin(items, deals);
    PostedExchange(onCards, |items|);
    CartSlotsTotal(items, deals, amount);
    CartAmountsWithin(items, deals, amount);
    PostedExchange(paid, |items|);
    var sum: nat -> int := (i: nat) => Posted(paid, i) + rest(i);
    TotalSplit(|items|, (i: nat) => Posted(paid, i), rest, sum);
    forall i: nat | i < |items|
      ensures sum(i) == PricedAmount(items, amount)(i) + Surplus(items, deals, amount)(i)
    {
      CartLineAmounts(items, deals, i, amount);
      LineAccounts(items[i], GroupedUnits(items, deals, i), amount);
    }
    TotalSplit(|items|, PricedAmount(items, amount), Surplus(items, deals, amount), sum);
  }

  lemma {:induction false} LineAccounts(item: PricedLine, grouped: nat, amount: Amount)
    requires IsCartLine(item)
    ensures (if grouped == 0 then 0 else LineAmount(item, grouped, amount)) + Rest(item, grouped, amount)
            == amount.OfLine(item) + LineSurplus(item, grouped, amount)
  {
    if amount.Deposits? && 0 < grouped {
      assert item.depositAmount * grouped + item.depositAmount * (item.line.quantity - grouped)
        == item.depositAmount * item.line.quantity;
    }
  }

  lemma {:induction false} CartAmountsWithin(items: seq<PricedLine>, deals: seq<CartDeal>, amount: Amount)
    requires ArePriceable(deals)
    ensures forall k :: 0 <= k < |CartAmounts(items, deals, amount)| ==> CartAmounts(items, deals, amount)[k].index < |items|
  {
    hide GroupsOf, EntryAmounts;
    if deals != [] {
      CartAmountsWithin(items, deals[..|deals| - 1], amount);
      var all := AllEntries(GroupsOf(items, deals[|deals| - 1]));
      EntriesOfGroups(items, GroupsOf(items, deals[|deals| - 1]));
      EntryAmountsWithin(items, all, |all|, amount);
    }
  }

  lemma {:induction false} EntryAmountsWithin(items: seq<PricedLine>, all: seq<Entry>, k: nat, amount: Amount)
    requires AreEntriesOf(items, all) && k <= |all|
    ensures |EntryAmounts(items, all, k, amount)| == k
    ensures forall j :: 0 <= j < k ==> EntryAmounts(items, all, k, amount)[j].index < |items|
  {
    hide SplitTotal;
    if k > 0 {
      EntryAmountsWithin(items, all, k - 1, amount);
      assert all[..k][..k - 1] == all[..k - 1] && all[..k][k - 1] == all[k - 1];
      assert EntryAmounts(items, all, k, amount)[..k - 1] == EntryAmounts(items, all, k - 1, amount);
    }
  }

  lemma {:induction false} TotalOfNonNegatives(n: nat, f: nat -> int)
    requires forall i: nat :: i < n ==> f(i) >= 0
    ensures Total(n, f) >= 0
    ensures Total(n, f) == 0 <==> forall i: nat :: i < n ==> f(i) == 0
  {
    if n > 0 {
      TotalOfNonNegatives(n - 1, f);
    }
  }

  /** Merchandise as the cart total reads it: line totals without deposits. */
  ghost function ShownMerchandise(display: seq<DisplayItem>): int {
    ShownTotal(display, LineTotals) - ShownTotal(display, Deposits)
  }

  ghost function PricedMerchandise(items: seq<PricedLine>): int {
    Total(|items|, PricedAmount(items, LineTotals)) - Total(|items|, PricedAmount(items, Deposits))
  }

  /** The exact part of a line's total that some of its units come to, in cents. */
  function ExactPart(item: PricedLine, units: int): real
    requires item.line.quantity > 0
  {
    item.lineTotal as real * units as real / item.line.quantity as real
  }

  /** A partly grouped line whose rest is worth less than half a cent. */
  ghost predicate RestIsNothing(items: seq<PricedLine>, deals: seq<CartDeal>, i: nat)
    requires ArePriceable(deals) && i < |items|
  {
    var grouped, quantity := GroupedUnits(items, deals, i), items[i].line.quantity;
    0 < grouped < quantity ==> ExactPart(items[i], quantity - grouped) < 0.5
  }

  /** The display shows the priced merchandise exactly when no partly grouped line has a rest worth a cent:
      in particular whenever every line that a deal touches is fully grouped. */
  lemma {:induction false} DisplayMatchesPriced(items: seq<PricedLine>, deals: seq<CartDeal>)
    requires ArePriceable(deals) && DistinctDeals(deals)
    requires forall i :: 0 <= i < |items| ==> IsCartLine(items[i]) && items[i].lineTotal >= 0
    requires forall i :: 0 <= i < |items| ==> GroupedUnits(items, deals, i) <= items[i].line.quantity
    ensures ShownMerchandise(CartDisplay(items, deals)) == PricedMerchandise(items)
            <==> forall i :: 0 <= i < |items| ==> RestIsNothing(items, deals, i)
    ensures ShownMerchandise(CartDisplay(items, deals)) >= PricedMerchandise(items)
  {
    hide CartDisplay, ShownTotal, PricedAmount, Surplus, Total, GroupedUnits, PartTotal, RestIsNothing;
    DisplayAccounts(items, deals, LineTotals);
    DisplayAccounts(items, deals, Deposits);
    var extra, deposits := Surplus(items, deals, LineTotals), Surplus(items, deals, Deposits);
    forall i: nat | i < |items|
      ensures extra(i) >= 0 && deposits(i) == 0
      ensures extra(i) == 0 <==> RestIsNothing(items, deals, i)
    {
      SurplusOfLine(items, deals, i);
    }
    TotalConstant(|items|, deposits, 0);
    TotalOfNonNegatives(|items|, extra);
  }

  lemma {:induction false} SurplusOfLine(items: seq<PricedLine>, deals: seq<CartDeal>, i: nat)
    requires ArePriceable(deals) && i < |items| && IsCartLine(items[i]) && items[i].lineTotal >= 0
    requires GroupedUnits(items, deals, i) <= items[i].line.quantity
    ensures Surplus(items, deals, LineTotals)(i) >= 0 && Surplus(items, deals, Deposits)(i) == 0
    ensures Surplus(items, deals, LineTotals)(i) == 0 <==> RestIsNothing(items, deals, i)
  {
    hide GroupedUnits, PartTotal, ExactPart;
    PartNonNegative(items[i], Max(items[i].line.quantity - GroupedUnits(items, deals, i), 0));
  }

  lemma {:induction false} PartNonNegative(item: PricedLine, quantity: nat)
    requires item.line.quantity > 0 && item.lineTotal >= 0
    ensures PartTotal(item, quantity) >= 0
    ensures PartTotal(item, quantity) == 0 <==> ExactPart(item, quantity) < 0.5
  {
    PartIsExact(item, quantity);
    assert quantity as real / item.line.quantity as real >= 0.0;
    assert item.lineTotal as real * (quantity as real / item.line.quantity as real) >= 0.0;
  }

  lemma {:induction false} PartIsExact(item: PricedLine, quantity: nat)
    requires item.line.quantity > 0
    ensures PartTotal(item, quantity) == RoundCents(ExactPart(item, quantity))
  {
    var total, units, all := item.lineTotal as real, quantity as real, item.line.quantity as real;
    assert PartTotal(item, quantity) == RoundCents(total * (units / all));
    assert ExactPart(item, quantity) == total * units / all;
    QuotientLast(total, units, all);
  }

  lemma {:induction false} QuotientLast(a: real, b: real, c: real)
    requires c > 0.0
    ensures a * (b / c) == a * b / c
  {}

  // ----- A fixed deal's card shows the fixed price -----

  ghost predicate NoLineTwice(entries: seq<Entry>) {
    forall a, b :: 0 <= a < b < |entries| ==> entries[a].index != entries[b].index
  }

  ghost predicate TakeWholeLines(items: seq<PricedLine>, entries: seq<Entry>) {
    forall k :: 0 <= k < |entries| ==>
      entries[k].index < |items| && entries[k].quantity == items[entries[k].index].line.quantity
  }

  lemma {:induction false} UnitsOfOnce(entries: seq<Entry>, at: nat, n: nat)
    requires NoLineTwice(entries) && at < |entries| && n <= |entries|
    ensures UnitsIn(entries[..n], Line(entries[at].index)) == if at < n then entries[at].quantity else 0
    decreases n
  {
    var i := entries[at].index;
    if at < n - 1 {
      UnitsOfOnce(entries, at, n - 1);
      assert entries[..n] == entries[..n - 1] + [entries[n - 1]];
      UnitsInSnoc(entries[..n - 1], entries[n - 1], Line(i));
    } else if n > 0 && at == n - 1 {
      assert entries[..n] == entries[..n - 1] + [entries[n - 1]];
      UnitsInNone(entries[..n - 1], Line(i));
      UnitsInSnoc(entries[..n - 1], entries[n - 1], Line(i));
    } else {
      UnitsInNone(entries[..n], Line(i));
    }
  }

  lemma {:induction false} PostedOnce(ps: seq<Posting>, k: nat)
    requires k < |ps|
    requires forall a, b :: 0 <= a < b < |ps| ==> ps[a].index != ps[b].index
    ensures Posted(ps, ps[k].index) == ps[k].amount
  {
    var front := ps[..|ps| - 1];
    if k < |front| {
      PostedOnce(front, k);
    } else if Touches(front, ps[k].index) {
      assert false;
    } else {
      PostedUntouched(front, ps[k].index);
    }
  }

  /** A line that one entry takes whole is shown with its whole total. */
  lemma {:induction false} WholeLineShown(items: seq<PricedLine>, all: seq<Entry>, at: nat)
    requires AreEntriesOf(items, all) && NoLineTwice(all) && at < |all|
    ensures IncludedAt(items, all, at) == Clone(items[all[at].index], all[at].quantity, items[all[at].index].lineTotal)
  {
    hide PartTotal;
    var i := all[at].index;
    UnitsOfOnce(all, at, at);
    UnitsOfOnce(all, at, |all|);
    assert all[..|all|] == all;
    SplitsTouch(items, all, at, i);
    assert !Touches(Units(all[..at]), i);
    PostedUntouched(Splits(items, all, at), i);
  }

  lemma {:induction false} ChargesAt(items: seq<PricedLine>, groups: seq<Group>, fixedPrice: int, g: nat, k: nat)
    requires AreGroupsOf(items, groups) && g < |groups| && k < |groups[g].entries|
    ensures IsGroupOf(items, groups[g])
    ensures |AllEntries(groups[..g])| + k < |AllEntries(groups)| == |Charges(items, groups, fixedPrice)|
    ensures Charges(items, groups, fixedPrice)[|AllEntries(groups[..g])| + k] == GroupCharges(items, groups[g], fixedPrice)[k]
  {
    hide GroupCharges, IsGroupOf;
    var front, last := groups[..|groups| - 1], groups[|groups| - 1];
    assert IsGroupOf(items, groups[g]);
    ChargesLength(items, front, fixedPrice);
    ChargesLength(items, groups, fixedPrice);
    EntriesUpTo(groups, g);
    if g < |front| {
      ChargesAt(items, front, fixedPrice, g, k);
      assert front[..g] == groups[..g];
    } else {
      assert front == groups[..g];
    }
  }

  lemma {:induction false} ChargesLength(items: seq<PricedLine>, groups: seq<Group>, fixedPrice: int)
    requires AreGroupsOf(items, groups)
    ensures |Charges(items, groups, fixedPrice)| == |AllEntries(groups)|
    ensures forall k :: 0 <= k < |AllEntries(groups)| ==> Charges(items, groups, fixedPrice)[k].index == AllEntries(groups)[k].index
  {
    hide Shares, GroupTotals;
    if groups != [] {
      ChargesLength(items, groups[..|groups| - 1], fixedPrice);
      assert IsGroupOf(items, groups[|groups| - 1]);
    }
  }

  function MerchandiseOf(): PricedLine -> int { (item: PricedLine) => Merchandise(item) }

  /** When no line is charged twice, what a line is charged is its one share. */
  lemma {:induction false} ChargedOnce(items: seq<PricedLine>, groups: seq<Group>, fixedPrice: int, g: nat, k: nat)
    requires AreGroupsOf(items, groups) && g < |groups| && k < |groups[g].entries|
    requires NoLineTwice(AllEntries(groups))
    ensures IsGroupOf(items, groups[g])
    ensures Posted(Charges(items, groups, fixedPrice), groups[g].entries[k].index)
            == GroupCharges(items, groups[g], fixedPrice)[k].amount
  {
    hide Charges, GroupCharges, IsGroupOf, AllEntries;
    var all, charges, at := AllEntries(groups), Charges(items, groups, fixedPrice), |AllEntries(groups[..g])| + k;
    ChargesAt(items, groups, fixedPrice, g, k);
    ChargesLength(items, groups, fixedPrice);
    EntryAt(groups, g, k);
    assert charges[at].index == all[at].index;
    PostedOnce(charges, at);
  }

  lemma {:induction false} EntryAt(groups: seq<Group>, g: nat, k: nat)
    requires g < |groups| && k < |groups[g].entries|
    ensures |AllEntries(groups[..g])| + k < |AllEntries(groups)|
    ensures AllEntries(groups)[|AllEntries(groups[..g])| + k] == groups[g].entries[k]
  {
    hide AllEntries;
    EntriesUpTo(groups, g);
    var all, start := AllEntries(groups), |AllEntries(groups[..g])|;
    assert all[start..start + |groups[g].entries|][k] == all[start + k];
  }

  /** A line taken whole by one entry costs, in merchandise, what that entry is charged. */
  lemma {:induction false} WholeLineCharge(items: seq<PricedLine>, groups: seq<Group>, fixedPrice: int, g: nat, k: nat)
    requires AreGroupsOf(items, groups) && g < |groups| && k < |groups[g].entries|
    requires NoLineTwice(AllEntries(groups)) && TakeWholeLines(items, AllEntries(groups))
    ensures IsGroupOf(items, groups[g])
    ensures Merchandise(RepricedAt(items, groups, fixedPrice, groups[g].entries[k].index))
            == GroupCharges(items, groups[g], fixedPrice)[k].amount
  {
    hide Charges, GroupCharges, AllEntries, NoLineTwice, RepricedLine, UnitsIn, Posted;
    var all, i, at := AllEntries(groups), groups[g].entries[k].index, |AllEntries(groups[..g])| + k;
    ChargedOnce(items, groups, fixedPrice, g, k);
    EntryAt(groups, g, k);
    UnitsOfOnce(all, at, |all|);
    assert all[..|all|] == all;
    FullyGroupedLine(items[i], all[at].quantity, Posted(Charges(items, groups, fixedPrice), i));
  }

  lemma {:induction false} FullyGroupedLine(item: PricedLine, grouped: nat, charged: int)
    requires item.line.quantity > 0 && grouped >= item.line.quantity
    ensures Merchandise(RepricedLine(item, grouped, charged)) == charged
  {
    RoundCentsWhole(charged + item.modifiersTotal * item.line.quantity + item.depositTotal);
  }

  lemma {:induction false} IncludedMerchandise(
    priced: seq<PricedLine>, all: seq<Entry>, start: nat, charges: seq<Posting>, k: nat)
    requires AreEntriesOf(priced, all) && start + k <= |all| && k <= |charges|
    requires forall j :: 0 <= j < k ==> Merchandise(IncludedAt(priced, all, start + j)) == charges[j].amount
    ensures TotalOf(IncludedRange(priced, all, start, start + k), MerchandiseOf()) == PostedTotal(charges[..k])
  {
    hide IncludedAt, Merchandise;
    if k > 0 {
      IncludedMerchandise(priced, all, start, charges, k - 1);
      assert charges[..k] == charges[..k - 1] + [charges[k - 1]];
      PostedSnoc(charges[..k - 1], charges[k - 1]);
      var included, last := IncludedRange(priced, all, start, start + k), IncludedAt(priced, all, start + (k - 1));
      assert included == IncludedRange(priced, all, start, start + (k - 1)) + [last];
      assert included[..|included| - 1] == IncludedRange(priced, all, start, start + (k - 1));
    }
  }

  /** A line shown whole shows its whole merchandise. */
  lemma {:induction false} WholeLineMerchandise(priced: seq<PricedLine>, all: seq<Entry>, at: nat)
    requires AreEntriesOf(priced, all) && NoLineTwice(all) && TakeWholeLines(priced, all) && at < |all|
    requires forall i :: 0 <= i < |priced| ==> priced[i].depositTotal == priced[i].depositAmount * priced[i].line.quantity
    ensures Merchandise(IncludedAt(priced, all, at)) == Merchandise(priced[all[at].index])
  {
    hide NoLineTwice, IncludedAt;
    WholeLineShown(priced, all, at);
  }

  /** When groups take whole lines and no line twice, the card of a group shows exactly the fixed price of the
      group as merchandise, whatever the rounding of the shares. */
  lemma {:induction false} CardShowsFixedPrice(items: seq<PricedLine>, groups: seq<Group>, fixedPrice: int, g: nat)
    requires AreGroupsOf(items, groups) && g < |groups|
    requires NoLineTwice(AllEntries(groups)) && TakeWholeLines(items, AllEntries(groups))
    requires forall i :: 0 <= i < |items| ==> items[i].depositTotal == items[i].depositAmount * items[i].line.quantity
    ensures AreGroupsOf(Repriced(items, groups, fixedPrice), groups)
    ensures TotalOf(Included(Repriced(items, groups, fixedPrice), groups, g), MerchandiseOf()) == fixedPrice * groups[g].quantity
  {
    hide Charges, GroupCharges, RepricedAt, NoLineTwice, TakeWholeLines, AllEntries, IsGroupOf, Merchandise, IncludedAt;
    var priced, all := Repriced(items, groups, fixedPrice), AllEntries(groups);
    RepricedKeeps(items, groups, fixedPrice);
    EntriesOfGroups(priced, groups);
    EntriesUpTo(groups, g);
    TakeSameLines(items, priced, all);
    assert IsGroupOf(items, groups[g]);
    var charges, start := GroupCharges(items, groups[g], fixedPrice), |AllEntries(groups[..g])|;
    forall j | 0 <= j < |charges|
      ensures Merchandise(IncludedAt(priced, all, start + j)) == charges[j].amount
    {
      WholeLineCharge(items, groups, fixedPrice, g, j);
      EntryAt(groups, g, j);
      WholeLineMerchandise(priced, all, start + j);
    }
    IncludedMerchandise(priced, all, start, charges, |charges|);
    assert charges[..|charges|] == charges;
    OneGroupCharges(items, groups[g], fixedPrice);
  }

  lemma {:induction false} TakeSameLines(items: seq<PricedLine>, priced: seq<PricedLine>, entries: seq<Entry>)
    requires |priced| == |items| && forall i :: 0 <= i < |items| ==> priced[i].line == items[i].line
    requires TakeWholeLines(items, entries)
    ensures TakeWholeLines(priced, entries)
  {}

  /** Repricing changes prices only. */
  lemma {:induction false} RepricedKeeps(items: seq<PricedLine>, groups: seq<Group>, fixedPrice: int)
    requires AreGroupsOf(items, groups)
    ensures var priced := Repriced(items, groups, fixedPrice);
      && LinesOf(priced) == LinesOf(items)
      && AreGroupsOf(priced, groups)
      && forall i :: 0 <= i < |items| ==>
        && priced[i].line == items[i].line && priced[i].id == items[i].id
        && priced[i].depositAmount == items[i].depositAmount && priced[i].depositTotal == items[i].depositTotal
        && priced[i].modifiersTotal == items[i].modifiersTotal
  {
    hide Charges;
    var priced := Repriced(items, groups, fixedPrice);
    forall i | 0 <= i < |items|
      ensures priced[i].line == items[i].line && priced[i].id == items[i].id
      ensures priced[i].depositAmount == items[i].depositAmount && priced[i].depositTotal == items[i].depositTotal
      ensures priced[i].modifiersTotal == items[i].modifiersTotal
    {
      assert priced[i] == RepricedAt(items, groups, fixedPrice, i);
    }
    forall g | 0 <= g < |groups|
      ensures IsGroupOf(priced, groups[g])
    {
      assert IsGroupOf(items, groups[g]);
    }
  }
}
