/** What the card of a deal's group shows beyond the fixed price. */
module ShownPrices {
  import opened Prelude
  import opened Allocation
  import opened DealGroups
  import opened DealGroupLaws
  import opened DealPricing
  import opened DealDisplay
  import opened DealDisplayLaws

  /** The price of a line's units that a card leaves out, which it shows all the same: the raw price of the units in no
      group, and their modifiers and deposits. */
  function Extra(item: PricedLine, taken: nat): int
    requires item.line.quantity > 0
  {
    UnitCents(item) * Max(item.line.quantity - taken, 0)
    + (item.modifiersTotal + item.depositAmount) * (item.line.quantity - taken)
  }

  function Extras(items: seq<PricedLine>, entries: seq<Entry>): int
    requires AreEntriesOf(items, entries)
  {
    if entries == [] then 0
    else
      var last := entries[|entries| - 1];
      Extras(items, entries[..|entries| - 1]) + Extra(items[last.index], last.quantity)
  }

  /** Deposits are per unit, and a line that is not taken whole has a unit price in cents. */
  ghost predicate Billable(items: seq<PricedLine>, entries: seq<Entry>) {
    forall k :: 0 <= k < |entries| && entries[k].index < |items| ==>
      var item := items[entries[k].index];
      && item.depositTotal == item.depositAmount * item.line.quantity
      && (entries[k].quantity < item.line.quantity ==> HasUnitPrice(item))
  }

  /** What an entry shows of a line that no other entry takes from. */
  lemma {:induction false} LineShows(item: PricedLine, taken: nat, charged: int)
    requires item.line.quantity > 0 && item.depositTotal == item.depositAmount * item.line.quantity
    requires taken < item.line.quantity ==> HasUnitPrice(item)
    ensures var priced := RepricedLine(item, taken, charged);
      Merchandise(Clone(priced, taken, priced.lineTotal)) == charged + Extra(item, taken)
  {
    var priced := RepricedLine(item, taken, charged);
    if taken < item.line.quantity {
      LineConserved(item, taken, charged);
    } else {
      FullyGroupedLine(item, taken, charged);
    }
    hide RepricedLine, UnitCents;
    CloneShows(priced, taken);
    Zero(UnitCents(item), item.line.quantity, taken);
  }

  lemma {:induction false} Zero(cents: int, quantity: nat, taken: nat)
    ensures taken >= quantity ==> cents * Max(quantity - taken, 0) == 0
  {}

  lemma {:induction false} CloneShows(item: PricedLine, taken: nat)
    requires item.depositTotal == item.depositAmount * item.line.quantity
    ensures Merchandise(Clone(item, taken, item.lineTotal))
         == Merchandise(item) + (item.modifiersTotal + item.depositAmount) * (item.line.quantity - taken)
  {
    Spread(item.modifiersTotal, item.depositAmount, item.line.quantity, taken);
  }

  lemma {:induction false} Spread(a: int, b: int, m: int, n: int)
    ensures (a + b) * (m - n) == a * m - a * n + b * m - b * n
  {}

  /** The repriced cart has the same groups, and the entries of a group stand together among all entries. */
  lemma {:induction false} GroupInPlace(items: seq<PricedLine>, groups: seq<Group>, fixedPrice: int, g: nat, n: nat)
    requires AreGroupsOf(items, groups) && g < |groups| && n <= |groups[g].entries|
    ensures IsGroupOf(items, groups[g]) && AreEntriesOf(Repriced(items, groups, fixedPrice), AllEntries(groups))
    ensures AreEntriesOf(items, groups[g].entries[..n])
    ensures |AllEntries(groups[..g])| + n <= |AllEntries(groups)|
  {
    hide AllEntries, Repriced;
    assert IsGroupOf(items, groups[g]);
    RepricedKeeps(items, groups, fixedPrice);
    EntriesOfGroups(Repriced(items, groups, fixedPrice), groups);
    EntriesUpTo(groups, g);
  }

  lemma {:induction false} EntryBillable(items: seq<PricedLine>, groups: seq<Group>, g: nat, k: nat)
    requires AreGroupsOf(items, groups) && g < |groups| && k < |groups[g].entries| && Billable(items, AllEntries(groups))
    ensures var entry, at := groups[g].entries[k], |AllEntries(groups[..g])| + k;
      && at < |AllEntries(groups)| && AllEntries(groups)[at] == entry
      && entry.index < |items| && entry.quantity > 0
      && var item := items[entry.index];
      && item.line.quantity > 0 && item.depositTotal == item.depositAmount * item.line.quantity
      && (entry.quantity < item.line.quantity ==> HasUnitPrice(item))
  {
    hide AllEntries, HasUnitPrice;
    EntryAt(groups, g, k);
    assert IsGroupOf(items, groups[g]);
  }

  lemma {:induction false} EntryShows(items: seq<PricedLine>, groups: seq<Group>, fixedPrice: int, g: nat, k: nat)
    requires AreGroupsOf(items, groups) && g < |groups| && k < |groups[g].entries|
    requires NoLineTwice(AllEntries(groups)) && Billable(items, AllEntries(groups))
    requires IsGroupOf(items, groups[g]) && AreEntriesOf(Repriced(items, groups, fixedPrice), AllEntries(groups))
    requires |AllEntries(groups[..g])| + k < |AllEntries(groups)|
    requires groups[g].entries[k].index < |items| && items[groups[g].entries[k].index].line.quantity > 0
    ensures var entry := groups[g].entries[k];
      Merchandise(IncludedAt(Repriced(items, groups, fixedPrice), AllEntries(groups), |AllEntries(groups[..g])| + k))
      == GroupCharges(items, groups[g], fixedPrice)[k].amount + Extra(items[entry.index], entry.quantity)
  {
    hide AllEntries, Charges, GroupCharges, Extra, RepricedLine, IncludedAt, UnitsIn, Posted, Merchandise, Repriced;
    hide AreGroupsOf, AreEntriesOf, IsGroupOf, NoLineTwice, Billable, Clone, HasUnitPrice;
    var priced, all, at := Repriced(items, groups, fixedPrice), AllEntries(groups), |AllEntries(groups[..g])| + k;
    EntryBillable(items, groups, g, k);
    ChargedOnce(items, groups, fixedPrice, g, k);
    UnitsOfOnce(all, at, |all|);
    assert all[..|all|] == all;
    WholeLineShown(priced, all, at);
    RepricedOnce(items, groups, fixedPrice, all[at].index);
    LineShows(items[all[at].index], all[at].quantity, GroupCharges(items, groups[g], fixedPrice)[k].amount);
  }

  lemma {:induction false} RepricedOnce(items: seq<PricedLine>, groups: seq<Group>, fixedPrice: int, i: nat)
    requires AreGroupsOf(items, groups) && i < |items|
    requires UnitsIn(AllEntries(groups), Line(i)) > 0 && items[i].line.quantity > 0
    ensures Repriced(items, groups, fixedPrice)[i]
         == RepricedLine(items[i], UnitsIn(AllEntries(groups), Line(i)), Posted(Charges(items, groups, fixedPrice), i))
  {}

  lemma {:induction false} RangeShows(items: seq<PricedLine>, groups: seq<Group>, fixedPrice: int, g: nat, n: nat)
    requires AreGroupsOf(items, groups) && g < |groups| && n <= |groups[g].entries|
    requires NoLineTwice(AllEntries(groups)) && Billable(items, AllEntries(groups))
    ensures IsGroupOf(items, groups[g]) && AreEntriesOf(Repriced(items, groups, fixedPrice), AllEntries(groups))
    ensures AreEntriesOf(items, groups[g].entries[..n])
    ensures |AllEntries(groups[..g])| + n <= |AllEntries(groups)|
    ensures var start := |AllEntries(groups[..g])|;
      TotalOf(IncludedRange(Repriced(items, groups, fixedPrice), AllEntries(groups), start, start + n), MerchandiseOf())
      == PostedTotal(GroupCharges(items, groups[g], fixedPrice)[..n]) + Extras(items, groups[g].entries[..n])
  {
    hide AllEntries, GroupCharges, Extra, IncludedAt, Repriced, NoLineTwice, Billable, AreGroupsOf, IsGroupOf, Merchandise;
    GroupInPlace(items, groups, fixedPrice, g, n);
    if n > 0 {
      hide AreEntriesOf;
      GroupInPlace(items, groups, fixedPrice, g, n - 1);
      RangeShows(items, groups, fixedPrice, g, n - 1);
      EntryBillable(items, groups, g, n - 1);
      EntryShows(items, groups, fixedPrice, g, n - 1);
      OneMoreShown(Repriced(items, groups, fixedPrice), AllEntries(groups), |AllEntries(groups[..g])|, n,
        GroupCharges(items, groups[g], fixedPrice), items, groups[g].entries);
    }
  }

  lemma {:induction false} OneMoreShown(priced: seq<PricedLine>, all: seq<Entry>, start: nat, n: nat,
    charges: seq<Posting>, items: seq<PricedLine>, entries: seq<Entry>)
    requires AreEntriesOf(priced, all) && 0 < n <= |charges| && n <= |entries| && start + n <= |all|
    requires AreEntriesOf(items, entries[..n - 1]) && AreEntriesOf(items, entries[..n])
    requires entries[n - 1].index < |items| && items[entries[n - 1].index].line.quantity > 0
    requires TotalOf(IncludedRange(priced, all, start, start + (n - 1)), MerchandiseOf())
          == PostedTotal(charges[..n - 1]) + Extras(items, entries[..n - 1])
    requires Merchandise(IncludedAt(priced, all, start + (n - 1)))
          == charges[n - 1].amount + Extra(items[entries[n - 1].index], entries[n - 1].quantity)
    ensures TotalOf(IncludedRange(priced, all, start, start + n), MerchandiseOf())
         == PostedTotal(charges[..n]) + Extras(items, entries[..n])
  {
    hide Extra, IncludedAt, Merchandise, Extras, TotalOf, PostedTotal, AreEntriesOf;
    MerchandiseSnoc(IncludedRange(priced, all, start, start + (n - 1)), IncludedAt(priced, all, start + (n - 1)));
    ExtrasNext(items, entries, n);
    assert charges[..n] == charges[..n - 1] + [charges[n - 1]];
    PostedSnoc(charges[..n - 1], charges[n - 1]);
  }

  lemma {:induction false} MerchandiseSnoc(included: seq<PricedLine>, item: PricedLine)
    ensures TotalOf(included + [item], MerchandiseOf()) == TotalOf(included, MerchandiseOf()) + Merchandise(item)
  {
    assert (included + [item])[..|included|] == included;
  }

  lemma {:induction false} ExtrasNext(items: seq<PricedLine>, entries: seq<Entry>, n: nat)
    requires 0 < n <= |entries| && AreEntriesOf(items, entries[..n - 1]) && AreEntriesOf(items, entries[..n])
    requires entries[n - 1].index < |items| && items[entries[n - 1].index].line.quantity > 0
    ensures Extras(items, entries[..n])
         == Extras(items, entries[..n - 1]) + Extra(items[entries[n - 1].index], entries[n - 1].quantity)
  {
    assert entries[..n][..n - 1] == entries[..n - 1] && entries[..n][n - 1] == entries[n - 1];
  }

  /** When no line is in two groups, a card shows the fixed price of its group and, exactly, the price of the units of its
      lines that it leaves out. */
  lemma {:induction false} CardShowsExactly(items: seq<PricedLine>, groups: seq<Group>, fixedPrice: int, g: nat)
    requires AreGroupsOf(items, groups) && g < |groups|
    requires NoLineTwice(AllEntries(groups)) && Billable(items, AllEntries(groups))
    ensures AreGroupsOf(Repriced(items, groups, fixedPrice), groups) && AreEntriesOf(items, groups[g].entries)
    ensures TotalOf(Included(Repriced(items, groups, fixedPrice), groups, g), MerchandiseOf())
         == fixedPrice * groups[g].quantity + Extras(items, groups[g].entries)
  {
    hide GroupCharges, Extras, IncludedRange, Repriced, NoLineTwice, Billable, AllEntries, TotalOf;
    var n := |groups[g].entries|;
    RepricedKeeps(items, groups, fixedPrice);
    RangeShows(items, groups, fixedPrice, g, n);
    OneGroupCharges(items, groups[g], fixedPrice);
    assert groups[g].entries[..n] == groups[g].entries;
    assert GroupCharges(items, groups[g], fixedPrice)[..n] == GroupCharges(items, groups[g], fixedPrice);
  }

  /** Prices, modifiers and deposits below zero do not occur. */
  predicate NonNegative(item: PricedLine) {
    item.line.quantity > 0 && UnitCents(item) >= 0 && item.modifiersTotal >= 0 && item.depositAmount >= 0
  }

  /** Taken whole, or without a price. */
  predicate WholeOrFree(item: PricedLine, taken: nat)
    requires item.line.quantity > 0
  {
    taken == item.line.quantity || UnitCents(item) + item.modifiersTotal + item.depositAmount == 0
  }

  lemma {:induction false} ExtraSign(item: PricedLine, taken: nat)
    requires NonNegative(item) && taken <= item.line.quantity
    ensures Extra(item, taken) >= 0
    ensures Extra(item, taken) == 0 <==> WholeOrFree(item, taken)
  {
    hide UnitCents;
    var unit, left := UnitCents(item), item.line.quantity - taken;
    Grouped(unit, item.modifiersTotal + item.depositAmount, left);
  }

  lemma {:induction false} Grouped(a: int, b: int, n: nat)
    requires a >= 0 && b >= 0
    ensures a * n + b * n >= 0
    ensures a * n + b * n == 0 <==> n == 0 || a + b == 0
  {
    assert a * n + b * n == (a + b) * n;
  }

  lemma {:induction false} ExtrasSign(items: seq<PricedLine>, entries: seq<Entry>)
    requires AreEntriesOf(items, entries)
    requires forall k :: 0 <= k < |entries| ==>
      NonNegative(items[entries[k].index]) && entries[k].quantity <= items[entries[k].index].line.quantity
    ensures Extras(items, entries) >= 0
    ensures Extras(items, entries) == 0
            <==> forall k :: 0 <= k < |entries| ==> WholeOrFree(items[entries[k].index], entries[k].quantity)
  {
    hide Extra, NonNegative, WholeOrFree;
    if entries != [] {
      var n := |entries| - 1;
      ExtrasSign(items, entries[..n]);
      assert NonNegative(items[entries[n].index]);
      ExtraSign(items[entries[n].index], entries[n].quantity);
    }
  }

  /** So it shows exactly the fixed price when it takes every line whole, free units aside, and only then. */
  lemma {:induction false} ShowsFixedPriceExactly(items: seq<PricedLine>, groups: seq<Group>, fixedPrice: int, g: nat)
    requires AreGroupsOf(items, groups) && g < |groups|
    requires NoLineTwice(AllEntries(groups)) && Billable(items, AllEntries(groups))
    requires forall k :: 0 <= k < |groups[g].entries| && groups[g].entries[k].index < |items| ==>
      var entry := groups[g].entries[k];
      NonNegative(items[entry.index]) && entry.quantity <= items[entry.index].line.quantity
    ensures AreGroupsOf(Repriced(items, groups, fixedPrice), groups) && AreEntriesOf(items, groups[g].entries)
    ensures TotalOf(Included(Repriced(items, groups, fixedPrice), groups, g), MerchandiseOf()) == fixedPrice * groups[g].quantity
            <==> forall k :: 0 <= k < |groups[g].entries| ==>
              WholeOrFree(items[groups[g].entries[k].index], groups[g].entries[k].quantity)
  {
    hide Extras, Repriced, NoLineTwice, Billable, AllEntries, Included, TotalOf, NonNegative, WholeOrFree;
    CardShowsExactly(items, groups, fixedPrice, g);
    ExtrasSign(items, groups[g].entries);
  }
}
