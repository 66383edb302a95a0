/** Removing a displayed deal card from the cart, and setting its quantity. */
module RemovedCards {
  import opened Prelude
  import opened DealGroups
  import opened DealPricing
  import opened DealDisplay
  import opened DealDisplayLaws
  import opened DealTargets
  import opened Selections
  import opened Carts
  import opened CartRuns
  import opened CartLaws
  import opened DealGroupLaws
  import opened FixedDeals
  import opened UnsharedDeals

  lemma {:induction false} PrimaryTwice(lines: seq<DealLine>)
    ensures PrimaryLines(PrimaryLines(lines)) == PrimaryLines(lines)
  {}

  lemma {:induction false} FindPrimary(lines: seq<DealLine>, target: Target, pricing: Pricing)
    requires pricing.selectionMode.FixedItems? ==> pricing.menuItemIds != []
    requires target.firstIndex.Some?
    ensures FindDealItems(PrimaryLines(lines), target, Some(pricing)) == FindDealItems(lines, target, Some(pricing))
  {
    hide DisplayGroups, Filter;
    PrimaryTwice(lines);
  }

  /** What a card's id stands for in the stored cart: the whole deal for an only card, the card's own units for one of
      several. */
  ghost function Resolved(
    shown: seq<PricedLine>, deal: CartDeal, g: nat, items: seq<Line>, categoryOf: map<string, string>): seq<Entry>
    requires IsPriceable(deal) && g < |GroupsOf(shown, deal)|
  {
    if |GroupsOf(shown, deal)| == 1 then WholeDeal(DealLinesOf(items, categoryOf), deal.dealId)
    else GroupsOf(shown, deal)[g].entries
  }

  lemma {:induction false} CardEntries(
    shown: seq<PricedLine>, deals: seq<CartDeal>, d: nat, g: nat, items: seq<Line>, categoryOf: map<string, string>)
    requires ArePriceable(deals) && DistinctDeals(deals) && d < |deals| && g < |GroupsOf(shown, deals[d])|
    requires ':' !in deals[d].dealId
    requires |GroupsOf(shown, deals[d])| >= 2 ==> Regroups(LinesOf(shown), deals[d].dealId, deals[d].pricing)
    requires DealLinesOf(items, categoryOf) == PrimaryLines(LinesOf(shown))
    ensures EntriesOf(items, DealCall(CardOf(shown, deals, d, g).card.id, Some(deals[d].pricing), categoryOf))
         == Resolved(shown, deals[d], g, items, categoryOf)
    ensures Resolved(shown, deals[d], g, items, categoryOf) != []
  {
    hide FindDealItems, CardOf, ParseTarget, Regroups;
    assert IsPriceable(deals[d]);
    FirstLineInDeal(shown, deals[d], g);
    if |GroupsOf(shown, deals[d])| == 1 {
      OnlyCardEntries(shown, deals, d, g, items, categoryOf);
    } else {
      CardResolves(shown, deals, d, g);
      CardTargets(shown, deals, d, g);
      FindPrimary(LinesOf(shown), ParseTarget(CardOf(shown, deals, d, g).card.id), deals[d].pricing);
    }
  }

  lemma {:induction false} OnlyCardEntries(
    shown: seq<PricedLine>, deals: seq<CartDeal>, d: nat, g: nat, items: seq<Line>, categoryOf: map<string, string>)
    requires ArePriceable(deals) && DistinctDeals(deals) && d < |deals| && g < |GroupsOf(shown, deals[d])|
    requires ':' !in deals[d].dealId && |GroupsOf(shown, deals[d])| == 1
    requires DealLinesOf(items, categoryOf) == PrimaryLines(LinesOf(shown))
    ensures EntriesOf(items, DealCall(CardOf(shown, deals, d, g).card.id, Some(deals[d].pricing), categoryOf))
         == WholeDeal(DealLinesOf(items, categoryOf), deals[d].dealId)
    ensures WholeDeal(DealLinesOf(items, categoryOf), deals[d].dealId) != []
  {
    hide ParseTarget, CardOf, WholeDeal;
    var groups, lines := GroupsOf(shown, deals[d]), DealLinesOf(items, categoryOf);
    assert IsPriceable(deals[d]);
    CardOfId(shown, deals, d, g);
    FirstLineInDeal(shown, deals[d], g);
    var first := groups[g].entries[0].index;
    OnlyCardResolves(lines, deals[d].dealId, first, Ordinal(groups, g), Some(deals[d].pricing));
    WholeDealNames(lines, deals[d].dealId, first);
    assert lines[first].dealId == Some(deals[d].dealId);
  }

  /** The whole deal names each of its lines with all units, and no other line. */
  lemma {:induction false} WholeDealNames(lines: seq<DealLine>, dealId: string, i: nat)
    ensures EntryFor(WholeDeal(lines, dealId), i)
         == if i < |lines| && lines[i].dealId == Some(dealId) then Some(Entry(i, lines[i].quantity)) else None
  {
    if lines != [] {
      var n := |lines| - 1;
      WholeDealNames(lines[..n], dealId, i);
      EntryForAppend(WholeDeal(lines[..n], dealId),
        if lines[n].dealId == Some(dealId) then [Entry(n, lines[n].quantity)] else [], i);
    }
  }

  lemma {:induction false} EntryForAppend(entries: seq<Entry>, more: seq<Entry>, i: nat)
    requires |more| <= 1
    ensures EntryFor(entries + more, i) == if more != [] && more[0].index == i then Some(more[0]) else EntryFor(entries, i)
  {
    if more == [] {
      assert entries + more == entries;
    } else {
      assert (entries + more)[..|entries|] == entries;
    }
  }

  /** Such an id names a group, not the whole deal. */
  lemma {:induction false} CardTargets(shown: seq<PricedLine>, deals: seq<CartDeal>, d: nat, g: nat)
    requires ArePriceable(deals) && DistinctDeals(deals) && d < |deals|
    requires |GroupsOf(shown, deals[d])| >= 2 && g < |GroupsOf(shown, deals[d])|
    requires ':' !in deals[d].dealId
    ensures ParseTarget(CardOf(shown, deals, d, g).card.id).firstIndex.Some?
  {
    hide ParseTarget, CardOf;
    var groups := GroupsOf(shown, deals[d]);
    CardOfId(shown, deals, d, g);
    CardIdParses(deals[d].dealId, |groups|, groups[g].entries[0].index, Ordinal(groups, g));
  }

  // ----- What a line loses -----

  lemma {:induction false} UnnamedUnits(entries: seq<Entry>, i: nat)
    requires EntryFor(entries, i).None?
    ensures UnitsIn(entries, DealGroups.Line(i)) == 0
  {
    if entries != [] {
      UnnamedUnits(entries[..|entries| - 1], i);
    }
  }

  /** When no line is named twice, its entry names all the units taken from it. */
  lemma {:induction false} NamedUnits(entries: seq<Entry>, i: nat)
    requires NoLineTwice(entries)
    ensures UnitsIn(entries, DealGroups.Line(i))
         == if EntryFor(entries, i).Some? then EntryFor(entries, i).value.quantity else 0
  {
    if entries != [] {
      var front := entries[..|entries| - 1];
      if entries[|entries| - 1].index == i {
        assert EntryFor(front, i).None?;
        UnnamedUnits(front, i);
      } else {
        NamedUnits(front, i);
      }
    }
  }

  lemma {:induction false} UnitsLineByLine(entries: seq<Entry>, n: nat)
    requires forall k :: 0 <= k < |entries| ==> entries[k].index < n
    ensures Total(n, (i: nat) => UnitsIn(entries, DealGroups.Line(i))) == UnitsIn(entries, AnyLine())
  {
    if entries == [] {
      TotalConstant(n, (i: nat) => UnitsIn(entries, DealGroups.Line(i)), 0);
    } else {
      var front, last := entries[..|entries| - 1], entries[|entries| - 1];
      UnitsLineByLine(front, n);
      var one: nat -> int := i => if last.index == i then last.quantity else 0;
      TotalSplit(n, (i: nat) => UnitsIn(front, DealGroups.Line(i)), one, (i: nat) => UnitsIn(entries, DealGroups.Line(i)));
      TotalSingle(n, one, last.index);
    }
  }

  /** Every line lost exactly the units the entries take from it; an emptied line is gone, and there is no new one. */
  ghost predicate Lowered(before: seq<Line>, after: seq<Line>, entries: seq<Entry>) {
    && NoNewIds(before, after)
    && TotalUnits(after) == TotalUnits(before) - UnitsIn(entries, AnyLine())
    && forall i :: 0 <= i < |before| ==> LineLowered(before[i], LineWith(after, before[i].id), UnitsIn(entries, DealGroups.Line(i)))
  }

  ghost predicate LineLowered(line: Line, left: Option<Line>, taken: nat) {
    if taken == 0 then left == Some(line)
    else if taken < line.quantity then left == Some(line.(quantity := line.quantity - taken))
    else taken == line.quantity && left.None?
  }

  /** The entries name lines that have units, and take some of each. */
  ghost predicate NamesUnits(items: seq<Line>, entries: seq<Entry>) {
    forall k :: 0 <= k < |entries| ==>
      entries[k].index < |items| && entries[k].quantity > 0 && items[entries[k].index].quantity > 0
  }

  /** The entries take no more of a line than it has. */
  ghost predicate WithinLines(items: seq<Line>, entries: seq<Entry>) {
    forall i :: 0 <= i < |items| && UnitsIn(entries, DealGroups.Line(i)) > 0 ==>
      UnitsIn(entries, DealGroups.Line(i)) <= items[i].quantity
  }

  /** The entries take every line they name whole. */
  ghost predicate NamesWhole(items: seq<Line>, entries: seq<Entry>) {
    forall k :: 0 <= k < |entries| ==>
      entries[k].index < |items| && entries[k].quantity == items[entries[k].index].quantity
  }

  lemma {:induction false} TwoEntries(entries: seq<Entry>, a: nat, b: nat)
    requires a < b < |entries| && entries[a].index == entries[b].index
    ensures UnitsIn(entries, DealGroups.Line(entries[a].index)) >= entries[a].quantity + entries[b].quantity
  {
    var front := entries[..|entries| - 1];
    if b < |front| {
      TwoEntries(front, a, b);
    } else {
      EntryWithin(front, a);
    }
  }

  lemma {:induction false} WithinTakes(items: seq<Line>, entries: seq<Entry>)
    requires NamesUnits(items, entries) && WithinLines(items, entries)
    requires NamesWhole(items, entries) || NoLineTwice(entries)
    ensures TakesUnits(items, entries)
  {
    hide UnitsIn;
    forall k | 0 <= k < |entries|
      ensures entries[k].quantity <= items[entries[k].index].quantity
    {
      EntryWithin(entries, k);
    }
    forall a, b | 0 <= a < b < |entries|
      ensures entries[a].index != entries[b].index
    {
      if entries[a].index == entries[b].index {
        TwoEntries(entries, a, b);
      }
    }
  }

  /** Entries that name each line once and take something, but no more than the line has. */
  ghost predicate TakesUnits(items: seq<Line>, entries: seq<Entry>) {
    && NoLineTwice(entries)
    && forall k :: 0 <= k < |entries| ==>
      entries[k].index < |items| && 0 < entries[k].quantity <= items[entries[k].index].quantity
  }

  lemma {:induction false} EntryTakes(items: seq<Line>, entries: seq<Entry>, i: nat)
    requires TakesUnits(items, entries) && i < |items|
    ensures EntryFor(entries, i).Some? ==> 0 < EntryFor(entries, i).value.quantity <= items[i].quantity
  {
    var entry := EntryFor(entries, i);
    hide EntryFor;
    if entry.Some? {
      var k :| 0 <= k < |entries| && entries[k] == entry.value;
      assert 0 < entries[k].quantity <= items[entries[k].index].quantity;
    }
  }

  lemma {:induction false} LostAt(items: seq<Line>, entries: seq<Entry>, i: nat)
    requires i < |items|
    ensures Lost(items, entries)(i) == LostBy(items[i], EntryFor(entries, i))
  {}

  lemma {:induction false} RemovalLowersLine(items: seq<Line>, entries: seq<Entry>, i: nat)
    requires DistinctIds(items) && TakesUnits(items, entries) && i < |items|
    ensures Lost(items, entries)(i) == UnitsIn(entries, DealGroups.Line(i))
    ensures LineLowered(items[i], LineWith(RemoveUnits(items, entries), items[i].id), UnitsIn(entries, DealGroups.Line(i)))
  {
    assert NoLineTwice(entries);
    LostAt(items, entries, i);
    hide RemoveUnits, UnitsIn, EntryFor, LineWith, TakesUnits, NoLineTwice, DistinctIds, Lost;
    RemoveUnitsExact(items, entries, i);
    NamedUnits(entries, i);
    EntryTakes(items, entries, i);
  }

  lemma {:induction false} RemovalLowers(items: seq<Line>, entries: seq<Entry>)
    requires DistinctIds(items) && TakesUnits(items, entries)
    ensures Lowered(items, RemoveUnits(items, entries), entries)
  {
    RemoveUnitsIds(items, entries);
    assert forall k :: 0 <= k < |entries| ==> entries[k].index < |items|;
    hide RemoveUnits, TotalUnits, UnitsIn, NoNewIds, EntryFor, LineWith, LineLowered, TakesUnits, DistinctIds, Lost;
    RemoveUnitsTotal(items, entries);
    UnitsLineByLine(entries, |items|);
    forall i: nat | i < |items|
      ensures Lost(items, entries)(i) == UnitsIn(entries, DealGroups.Line(i))
      ensures LineLowered(items[i], LineWith(RemoveUnits(items, entries), items[i].id), UnitsIn(entries, DealGroups.Line(i)))
    {
      RemovalLowersLine(items, entries, i);
    }
    TotalEqual(|items|, Lost(items, entries), (i: nat) => UnitsIn(entries, DealGroups.Line(i)));
  }

  /** What a card's entries are like, whatever the deal. */
  lemma {:induction false} CardNamesLines(
    shown: seq<PricedLine>, deal: CartDeal, g: nat, items: seq<Line>, categoryOf: map<string, string>)
    requires IsPriceable(deal) && g < |GroupsOf(shown, deal)|
    requires DealLinesOf(items, categoryOf) == PrimaryLines(LinesOf(shown))
    ensures var entries := GroupsOf(shown, deal)[g].entries;
      NamesUnits(items, entries) && (NamesWhole(items, entries) || NoLineTwice(entries))
  {
    var lines, entries := LinesOf(shown), GroupsOf(shown, deal)[g].entries;
    GroupsTakeUnits(lines, deal.dealId, deal.pricing);
    PricingGroupsShape(lines, deal.dealId, deal.pricing);
    WholeOrOnce(lines, deal.dealId, deal.pricing, g);
    hide DisplayGroups, NoLineTwice;
    assert IsDealGroup(lines, deal.dealId, GroupsOf(shown, deal)[g]);
    forall k | 0 <= k < |entries|
      ensures entries[k].index < |items| && entries[k].quantity > 0
      ensures items[entries[k].index].quantity == lines[entries[k].index].quantity > 0
    {
      var i := entries[k].index;
      assert DealLinesOf(items, categoryOf)[i].quantity == lines[i].quantity;
    }
  }

  // ----- Removing the whole deal -----

  ghost predicate IsDealLine(line: Line, dealId: string) { ReadDealId(line.modifiers) == Some(dealId) }

  /** The entries take every line of the deal, and all its units. */
  ghost predicate HoldsDeal(items: seq<Line>, dealId: string, entries: seq<Entry>) {
    forall i :: 0 <= i < |items| && IsDealLine(items[i], dealId) ==>
      0 < UnitsIn(entries, DealGroups.Line(i)) == items[i].quantity
  }

  /** The entries name lines of the deal only. */
  ghost predicate NamesDeal(items: seq<Line>, dealId: string, entries: seq<Entry>) {
    forall k :: 0 <= k < |entries| ==> entries[k].index < |items| && IsDealLine(items[entries[k].index], dealId)
  }

  lemma {:induction false} NothingElsewhere(items: seq<Line>, dealId: string, entries: seq<Entry>, i: nat)
    requires NamesDeal(items, dealId, entries) && i < |items| && !IsDealLine(items[i], dealId)
    ensures UnitsIn(entries, DealGroups.Line(i)) == 0
  {
    if entries != [] {
      NothingElsewhere(items, dealId, entries[..|entries| - 1], i);
    }
  }

  /** Removing the whole deal empties its lines and leaves the others. */
  lemma {:induction false} WholeDealLine(items: seq<Line>, categoryOf: map<string, string>, dealId: string, i: nat)
    requires DistinctIds(items) && i < |items|
    ensures var whole := WholeDeal(DealLinesOf(items, categoryOf), dealId);
      && LineWith(RemoveUnits(items, whole), items[i].id) == (if IsDealLine(items[i], dealId) then None else Some(items[i]))
      && Lost(items, whole)(i) == (if IsDealLine(items[i], dealId) then items[i].quantity else 0)
  {
    hide RemoveUnits, LineWith, WholeDeal, EntryFor, DistinctIds;
    RemoveUnitsExact(items, WholeDeal(DealLinesOf(items, categoryOf), dealId), i);
    WholeDealNames(DealLinesOf(items, categoryOf), dealId, i);
  }

  /** Removing the whole deal takes exactly these entries when they hold the whole deal, and only then. */
  lemma {:induction false} WholeRemovalLowers(
    items: seq<Line>, categoryOf: map<string, string>, dealId: string, entries: seq<Entry>)
    requires DistinctIds(items) && NamesDeal(items, dealId, entries)
    ensures Lowered(items, RemoveUnits(items, WholeDeal(DealLinesOf(items, categoryOf), dealId)), entries)
            <==> HoldsDeal(items, dealId, entries)
  {
    hide RemoveUnits, TotalUnits, UnitsIn, NoNewIds, LineWith, NamesDeal, DistinctIds, Lost, WholeDeal, IsDealLine, LineLowered;
    var whole := WholeDeal(DealLinesOf(items, categoryOf), dealId);
    forall i: nat | i < |items|
      ensures LineLowered(items[i], LineWith(RemoveUnits(items, whole), items[i].id), UnitsIn(entries, DealGroups.Line(i)))
              <==> (IsDealLine(items[i], dealId) ==> 0 < UnitsIn(entries, DealGroups.Line(i)) == items[i].quantity)
    {
      WholeLineLowered(items, categoryOf, dealId, entries, i);
    }
    RemoveUnitsIds(items, whole);
    if HoldsDeal(items, dealId, entries) {
      WholeTotalLowered(items, categoryOf, dealId, entries);
    }
  }

  lemma {:induction false} WholeLineLowered(
    items: seq<Line>, categoryOf: map<string, string>, dealId: string, entries: seq<Entry>, i: nat)
    requires DistinctIds(items) && NamesDeal(items, dealId, entries) && i < |items|
    ensures var whole, taken := WholeDeal(DealLinesOf(items, categoryOf), dealId), UnitsIn(entries, DealGroups.Line(i));
      && (LineLowered(items[i], LineWith(RemoveUnits(items, whole), items[i].id), taken)
          <==> (IsDealLine(items[i], dealId) ==> 0 < taken == items[i].quantity))
      && ((IsDealLine(items[i], dealId) ==> 0 < taken == items[i].quantity) ==> Lost(items, whole)(i) == taken)
  {
    hide RemoveUnits, UnitsIn, LineWith, NamesDeal, DistinctIds, Lost, WholeDeal, IsDealLine;
    WholeDealLine(items, categoryOf, dealId, i);
    if !IsDealLine(items[i], dealId) {
      NothingElsewhere(items, dealId, entries, i);
    }
  }

  lemma {:induction false} WholeTotalLowered(
    items: seq<Line>, categoryOf: map<string, string>, dealId: string, entries: seq<Entry>)
    requires DistinctIds(items) && NamesDeal(items, dealId, entries) && HoldsDeal(items, dealId, entries)
    ensures TotalUnits(RemoveUnits(items, WholeDeal(DealLinesOf(items, categoryOf), dealId)))
         == TotalUnits(items) - UnitsIn(entries, AnyLine())
  {
    assert forall k :: 0 <= k < |entries| ==> entries[k].index < |items|;
    hide RemoveUnits, TotalUnits, UnitsIn, LineWith, NamesDeal, DistinctIds, Lost, WholeDeal, IsDealLine, LineLowered;
    var whole := WholeDeal(DealLinesOf(items, categoryOf), dealId);
    RemoveUnitsTotal(items, whole);
    UnitsLineByLine(entries, |items|);
    forall i: nat | i < |items|
      ensures Lost(items, whole)(i) == UnitsIn(entries, DealGroups.Line(i))
    {
      WholeLineLowered(items, categoryOf, dealId, entries, i);
    }
    TotalEqual(|items|, Lost(items, whole), (i: nat) => UnitsIn(entries, DealGroups.Line(i)));
  }

  lemma {:induction false} CardNamesDeal(
    shown: seq<PricedLine>, deal: CartDeal, g: nat, items: seq<Line>, categoryOf: map<string, string>)
    requires IsPriceable(deal) && g < |GroupsOf(shown, deal)|
    requires DealLinesOf(items, categoryOf) == PrimaryLines(LinesOf(shown))
    ensures NamesDeal(items, deal.dealId, GroupsOf(shown, deal)[g].entries)
  {
    var lines, entries := LinesOf(shown), GroupsOf(shown, deal)[g].entries;
    PricingGroupsShape(lines, deal.dealId, deal.pricing);
    hide DisplayGroups;
    assert IsDealGroup(lines, deal.dealId, GroupsOf(shown, deal)[g]);
    forall k | 0 <= k < |entries|
      ensures entries[k].index < |items| && IsDealLine(items[entries[k].index], deal.dealId)
    {
      assert OfDeal(lines, deal.dealId)(entries[k].index);
      assert DealLinesOf(items, categoryOf)[entries[k].index].dealId == lines[entries[k].index].dealId;
    }
  }

  /** Removing a displayed card by its id succeeds. It takes from every line exactly the units the card holds of it,
      leaves other lines as they are and costs the cart the card's units in total, exactly when the card holds no more
      units of a line than the line has, or, for a deal's only card, when it holds the whole deal. */
  lemma {:induction false} RemoveCard(
    shown: seq<PricedLine>, deals: seq<CartDeal>, d: nat, g: nat, store: Store, categoryOf: map<string, string>)
    requires ArePriceable(deals) && DistinctDeals(deals) && d < |deals| && g < |GroupsOf(shown, deals[d])|
    requires ':' !in deals[d].dealId
    requires |GroupsOf(shown, deals[d])| >= 2 ==> Regroups(LinesOf(shown), deals[d].dealId, deals[d].pricing)
    requires Valid(store) && store.cart.Some?
    requires DealLinesOf(store.cart.value.items, categoryOf) == PrimaryLines(LinesOf(shown))
    ensures var outcome := RemoveDeal(store, DealCall(CardOf(shown, deals, d, g).card.id, Some(deals[d].pricing), categoryOf));
      var items, groups := store.cart.value.items, GroupsOf(shown, deals[d]);
      && outcome.ok && outcome.store.cart.Some?
      && (Lowered(items, outcome.store.cart.value.items, groups[g].entries)
          <==> if |groups| == 1 then HoldsDeal(items, deals[d].dealId, groups[g].entries)
               else WithinLines(items, groups[g].entries))
  {
    hide EntriesOf, CardOf, RemoveUnits, TakesUnits, GroupsOf, UnitsIn, NoNewIds, TotalUnits, LineWith, Regroups, WholeDeal;
    hide HoldsDeal, NamesDeal;
    var items, entries := store.cart.value.items, GroupsOf(shown, deals[d])[g].entries;
    CardEntries(shown, deals, d, g, items, categoryOf);
    assert IsPriceable(deals[d]);
    if |GroupsOf(shown, deals[d])| == 1 {
      CardNamesDeal(shown, deals[d], g, items, categoryOf);
      WholeRemovalLowers(items, categoryOf, deals[d].dealId, entries);
    } else {
      CardNamesLines(shown, deals[d], g, items, categoryOf);
      WithinIffLowered(items, entries);
    }
  }

  lemma {:induction false} WithinIffLowered(items: seq<Line>, entries: seq<Entry>)
    requires DistinctIds(items) && NamesUnits(items, entries) && (NamesWhole(items, entries) || NoLineTwice(entries))
    ensures Lowered(items, RemoveUnits(items, entries), entries) <==> WithinLines(items, entries)
  {
    hide RemoveUnits, TakesUnits, UnitsIn, NoNewIds, TotalUnits, LineWith, NamesUnits, NamesWhole, NoLineTwice;
    if WithinLines(items, entries) {
      WithinTakes(items, entries);
      hide Lowered;
      RemovalLowers(items, entries);
    }
  }

  /** No card of an unshared deal holds more of a line than it has, or names it twice. */
  lemma {:induction false} UnsharedCards(
    shown: seq<PricedLine>, deal: CartDeal, g: nat, items: seq<Line>, categoryOf: map<string, string>)
    requires IsPriceable(deal) && g < |GroupsOf(shown, deal)|
    requires Unshared(LinesOf(shown), deal.dealId, deal.pricing)
    requires DealLinesOf(items, categoryOf) == PrimaryLines(LinesOf(shown))
    ensures var entries := GroupsOf(shown, deal)[g].entries; WithinLines(items, entries) && NoLineTwice(entries)
  {
    var lines, entries := LinesOf(shown), GroupsOf(shown, deal)[g].entries;
    DisplayedOnce(lines, deal.dealId, deal.pricing);
    hide DisplayGroups, Unshared, UnitsIn, EntryFor;
    assert TakesOnce(lines, GroupsOf(shown, deal)[g]);
    forall i | 0 <= i < |items| && UnitsIn(entries, DealGroups.Line(i)) > 0
      ensures UnitsIn(entries, DealGroups.Line(i)) <= items[i].quantity
    {
      NamedUnits(entries, i);
      var entry := EntryFor(entries, i).value;
      var k :| 0 <= k < |entries| && entries[k] == entry;
      assert entries[k].quantity <= lines[i].quantity;
      assert DealLinesOf(items, categoryOf)[i].quantity == lines[i].quantity;
    }
  }

  /** A deal that asks for nothing twice, as stored deals do, and whose lines it reaches by their primary category, shows
      no such card; several cards are then always removed and updated by their own units. */
  lemma {:induction false} AskedOnceCards(
    shown: seq<PricedLine>, deal: CartDeal, g: nat, items: seq<Line>, categoryOf: map<string, string>)
    requires IsPriceable(deal) && g < |GroupsOf(shown, deal)|
    requires AsksOnce(deal.pricing) && Regroups(LinesOf(shown), deal.dealId, deal.pricing)
    requires DealLinesOf(items, categoryOf) == PrimaryLines(LinesOf(shown))
    ensures var entries := GroupsOf(shown, deal)[g].entries; WithinLines(items, entries) && NoLineTwice(entries)
  {
    AskedOnceUnshared(LinesOf(shown), deal.dealId, deal.pricing);
    UnsharedCards(shown, deal, g, items, categoryOf);
  }

  // ----- Setting a card's quantity -----

  /** A group names only lines that have units; a line at or below zero is named by the whole deal only. */
  lemma {:induction false} NamedLinesHaveUnits(items: seq<Line>, call: DealCall, k: nat)
    requires k < |EntriesOf(items, call)| && ParseTarget(call.targetId).firstIndex.Some? && call.pricing.Some?
    ensures var entry := EntriesOf(items, call)[k];
      entry.index < |items| && items[entry.index].quantity > 0
  {
    var lines, target := DealLinesOf(items, call.categoryOf), ParseTarget(call.targetId);
    hide ParseTarget, DisplayGroups;
    var groups := DisplayGroups(PrimaryLines(lines), target.dealId, call.pricing.value);
    var matched, n := Filter(groups, StartsAt(target.firstIndex.value)), target.ordinal.GetOr(0);
    GroupsTakeUnits(PrimaryLines(lines), target.dealId, call.pricing.value);
    FilterMembers(groups, StartsAt(target.firstIndex.value));
    assert matched[n] in groups;
    var g: nat :| g < |groups| && groups[g] == matched[n];
    assert PrimaryLines(lines)[groups[g].entries[k].index].quantity > 0;
  }

  lemma {:induction false} GroupsTakeUnits(lines: seq<DealLine>, dealId: string, pricing: Pricing)
    requires pricing.selectionMode.FixedItems? ==> pricing.menuItemIds != []
    ensures var groups := DisplayGroups(lines, dealId, pricing);
      forall g, k :: 0 <= g < |groups| && 0 <= k < |groups[g].entries| ==>
        groups[g].entries[k].index < |lines| && lines[groups[g].entries[k].index].quantity > 0
  {
    PricingGroupsShape(lines, dealId, pricing);
    var groups := DisplayGroups(lines, dealId, pricing);
    hide DisplayGroups, PricingGroups;
    forall g, k | 0 <= g < |groups| && 0 <= k < |groups[g].entries|
      ensures groups[g].entries[k].index < |lines| && lines[groups[g].entries[k].index].quantity > 0
    {
      assert IsDealGroup(lines, dealId, groups[g]);
      assert OfDeal(lines, dealId)(groups[g].entries[k].index);
    }
  }

  lemma {:induction false} SetUnitsAt(items: seq<Line>, entries: seq<Entry>, quantity: int, i: nat)
    requires i < |items|
    ensures SetUnits(items, entries, quantity)[i]
         == match EntryFor(entries, i)
            case None => items[i]
            case Some(e) => items[i].(quantity := Remaining(items[i], e) + quantity)
  {
    hide EntryFor, Remaining;
    if i < |items| - 1 {
      SetUnitsAt(items[..|items| - 1], entries, quantity, i);
    }
  }

  /** Every line the entries take from has the new quantity in place of the units taken; other lines are untouched. */
  ghost predicate Requantified(before: seq<Line>, after: seq<Line>, entries: seq<Entry>, quantity: int) {
    && |after| == |before|
    && forall i :: 0 <= i < |before| ==>
      var taken := UnitsIn(entries, DealGroups.Line(i));
      after[i] == if taken == 0 then before[i] else before[i].(quantity := before[i].quantity - taken + quantity)
  }

  lemma {:induction false} SettingRequantifies(items: seq<Line>, entries: seq<Entry>, quantity: int)
    requires NamesUnits(items, entries) && NoLineTwice(entries)
    ensures Requantified(items, SetUnits(items, entries, quantity), entries, quantity)
  {
    hide SetUnits, UnitsIn, EntryFor, NoLineTwice;
    forall i | 0 <= i < |items|
      ensures var taken := UnitsIn(entries, DealGroups.Line(i));
        SetUnits(items, entries, quantity)[i]
        == if taken == 0 then items[i] else items[i].(quantity := items[i].quantity - taken + quantity)
    {
      SetUnitsAt(items, entries, quantity, i);
      NamedUnits(entries, i);
      EntryNames(items, entries, i);
    }
  }

  lemma {:induction false} EntryNames(items: seq<Line>, entries: seq<Entry>, i: nat)
    requires NamesUnits(items, entries) && i < |items|
    ensures EntryFor(entries, i).Some? ==> EntryFor(entries, i).value.quantity > 0 && items[i].quantity > 0
  {
    var entry := EntryFor(entries, i);
    hide EntryFor;
    if entry.Some? {
      var k :| 0 <= k < |entries| && entries[k] == entry.value;
    }
  }

  /** The last entry of a line named twice is not all that is taken from it. */
  lemma {:induction false} LastEntryLess(entries: seq<Entry>, a: nat, b: nat)
    requires a < b < |entries| && entries[a].index == entries[b].index
    requires forall k :: 0 <= k < |entries| ==> entries[k].quantity > 0
    ensures var entry := EntryFor(entries, entries[a].index);
      entry.Some? && entry.value.quantity < UnitsIn(entries, DealGroups.Line(entries[a].index))
  {
    var front, i := entries[..|entries| - 1], entries[a].index;
    if entries[|entries| - 1].index == i {
      EntryWithin(front, a);
    } else {
      LastEntryLess(front, a, b);
    }
  }

  lemma {:induction false} NamedTwice(items: seq<Line>, entries: seq<Entry>, quantity: int, a: nat, b: nat)
    requires NamesUnits(items, entries) && a < b < |entries| && entries[a].index == entries[b].index
    ensures !Requantified(items, SetUnits(items, entries, quantity), entries, quantity)
  {
    var i := entries[a].index;
    LastEntryLess(entries, a, b);
    SetUnitsAt(items, entries, quantity, i);
    EntryNames(items, entries, i);
    hide SetUnits, UnitsIn, EntryFor;
    assert SetUnits(items, entries, quantity)[i].quantity
        != items[i].quantity - UnitsIn(entries, DealGroups.Line(i)) + quantity;
  }

  /** Setting the whole deal gives each of its lines the new quantity in place of the units these entries take when they
      take all of it; a line they leave out must have that quantity already. */
  ghost predicate SetsDeal(items: seq<Line>, dealId: string, entries: seq<Entry>, quantity: int) {
    forall i :: 0 <= i < |items| && IsDealLine(items[i], dealId) ==>
      var taken := UnitsIn(entries, DealGroups.Line(i));
      items[i].quantity == if taken == 0 then quantity else taken
  }

  lemma {:induction false} WholeSettingLine(
    items: seq<Line>, categoryOf: map<string, string>, dealId: string, quantity: int, i: nat)
    requires i < |items|
    ensures SetUnits(items, WholeDeal(DealLinesOf(items, categoryOf), dealId), quantity)[i]
         == if IsDealLine(items[i], dealId) then items[i].(quantity := quantity) else items[i]
  {
    hide SetUnits, WholeDeal, EntryFor;
    SetUnitsAt(items, WholeDeal(DealLinesOf(items, categoryOf), dealId), quantity, i);
    WholeDealNames(DealLinesOf(items, categoryOf), dealId, i);
  }

  lemma {:induction false} WholeSettingRequantifies(
    items: seq<Line>, categoryOf: map<string, string>, dealId: string, entries: seq<Entry>, quantity: int)
    requires NamesDeal(items, dealId, entries)
    ensures Requantified(items, SetUnits(items, WholeDeal(DealLinesOf(items, categoryOf), dealId), quantity), entries, quantity)
            <==> SetsDeal(items, dealId, entries, quantity)
  {
    hide SetUnits, UnitsIn, NamesDeal, WholeDeal, IsDealLine;
    var after := SetUnits(items, WholeDeal(DealLinesOf(items, categoryOf), dealId), quantity);
    forall i | 0 <= i < |items|
      ensures var taken := UnitsIn(entries, DealGroups.Line(i));
        after[i] == (if taken == 0 then items[i] else items[i].(quantity := items[i].quantity - taken + quantity))
        <==> (IsDealLine(items[i], dealId) ==> items[i].quantity == if taken == 0 then quantity else taken)
    {
      WholeSettingLine(items, categoryOf, dealId, quantity, i);
      if !IsDealLine(items[i], dealId) {
        NothingElsewhere(items, dealId, entries, i);
      }
    }
  }

  lemma {:induction false} OnceIffRequantified(items: seq<Line>, entries: seq<Entry>, quantity: int)
    requires NamesUnits(items, entries)
    ensures Requantified(items, SetUnits(items, entries, quantity), entries, quantity) <==> NoLineTwice(entries)
  {
    hide SetUnits, Requantified, NamesUnits;
    if NoLineTwice(entries) {
      SettingRequantifies(items, entries, quantity);
    } else {
      var a: nat, b: nat :| a < b < |entries| && entries[a].index == entries[b].index;
      NamedTwice(items, entries, quantity, a, b);
    }
  }

  /** Updating a displayed card by its id succeeds. It gives every line the new quantity in place of the units the card
      holds of it and leaves all else as it is, exactly when the card names no line twice, or, for a deal's only card,
      when each line of the deal is whole on the card or has the new quantity already. */
  lemma {:induction false} UpdateCard(
    shown: seq<PricedLine>, deals: seq<CartDeal>, d: nat, g: nat, store: Store, categoryOf: map<string, string>, quantity: int)
    requires ArePriceable(deals) && DistinctDeals(deals) && d < |deals| && g < |GroupsOf(shown, deals[d])|
    requires ':' !in deals[d].dealId
    requires |GroupsOf(shown, deals[d])| >= 2 ==> Regroups(LinesOf(shown), deals[d].dealId, deals[d].pricing)
    requires Valid(store) && store.cart.Some?
    requires DealLinesOf(store.cart.value.items, categoryOf) == PrimaryLines(LinesOf(shown))
    ensures var call := DealCall(CardOf(shown, deals, d, g).card.id, Some(deals[d].pricing), categoryOf);
      var outcome, groups := UpdateDeal(store, call, quantity), GroupsOf(shown, deals[d]);
      var items, entries := store.cart.value.items, groups[g].entries;
      && outcome.ok && outcome.store.cart.Some?
      && (Requantified(items, outcome.store.cart.value.items, entries, quantity)
          <==> if |groups| == 1 then SetsDeal(items, deals[d].dealId, entries, quantity) else NoLineTwice(entries))
  {
    hide EntriesOf, CardOf, SetUnits, Requantified, GroupsOf, NamesUnits, NamesWhole, NoLineTwice, Regroups, WholeDeal;
    hide SetsDeal, NamesDeal;
    var items, entries := store.cart.value.items, GroupsOf(shown, deals[d])[g].entries;
    CardEntries(shown, deals, d, g, items, categoryOf);
    assert IsPriceable(deals[d]);
    if |GroupsOf(shown, deals[d])| == 1 {
      CardNamesDeal(shown, deals[d], g, items, categoryOf);
      WholeSettingRequantifies(items, categoryOf, deals[d].dealId, entries, quantity);
    } else {
      CardNamesLines(shown, deals[d], g, items, categoryOf);
      OnceIffRequantified(items, entries, quantity);
    }
  }
}
