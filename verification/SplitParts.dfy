/** What is shown for some of a line's units: their part of the line's total, to the cent. */
module SplitParts {
  import opened Prelude
  import opened Allocation
  import opened DealGroups
  import opened DealGroupLaws
  import opened DealPricing
  import opened DealDisplay
  import opened DealDisplayLaws

  /** How many entries take from a line. */
  function TakesOf(entries: seq<Entry>, i: nat): nat {
    if entries == [] then 0
    else TakesOf(entries[..|entries| - 1], i) + (if entries[|entries| - 1].index == i then 1 else 0)
  }

  lemma {:induction false} PartNear(item: PricedLine, units: nat)
    requires item.line.quantity > 0
    ensures Near(PartTotal(item, units), ExactPart(item, units), 0.5)
  {
    PartIsExact(item, units);
    RoundCentsNearest(ExactPart(item, units));
  }

  lemma {:induction false} PartsAdd(item: PricedLine, a: int, b: int)
    requires item.line.quantity > 0
    ensures ExactPart(item, a) + ExactPart(item, b) == ExactPart(item, a + b)
    ensures ExactPart(item, 0) == 0.0 && ExactPart(item, item.line.quantity) == item.lineTotal as real
  {}

  lemma {:induction false} NearAdds(m: int, x: real, margin: real, n: int, y: real)
    requires Near(m, x, margin) && Near(n, y, 0.5)
    ensures Near(m + n, x + y, margin + 0.5)
  {}

  lemma {:induction false} NearRest(total: int, m: int, x: real, margin: real)
    requires Near(m, x, margin)
    ensures Near(total - m, total as real - x, margin)
  {}

  /** Until the units a line gives are all split off, its splits are their part of its total, half a cent each aside. */
  lemma {:induction false} SplitSoFar(items: seq<PricedLine>, all: seq<Entry>, k: nat, i: nat)
    requires AreEntriesOf(items, all) && k <= |all|
    requires i < |items| && items[i].line.quantity > 0
    requires UnitsIn(all[..k], Line(i)) < UnitsIn(all, Line(i))
    ensures Near(Posted(Splits(items, all, k), i), ExactPart(items[i], UnitsIn(all[..k], Line(i))), 0.5 * TakesOf(all[..k], i) as real)
  {
    hide PartTotal, ExactPart, Near, UnitsIn, Splits, TakesOf, AreEntriesOf, Posted;
    if k == 0 {
      NothingYet(items, all, i);
    } else {
      assert all[..k] == all[..k - 1] + [all[k - 1]];
      UnitsInSnoc(all[..k - 1], all[k - 1], Line(i));
      SplitSoFar(items, all, k - 1, i);
      SplitNext(items, all, k, i);
    }
  }

  lemma {:induction false} NothingYet(items: seq<PricedLine>, all: seq<Entry>, i: nat)
    requires AreEntriesOf(items, all) && i < |items| && items[i].line.quantity > 0
    ensures Near(Posted(Splits(items, all, 0), i), ExactPart(items[i], UnitsIn(all[..0], Line(i))), 0.5 * TakesOf(all[..0], i) as real)
  {
    assert all[..0] == [];
  }

  lemma {:induction false} SplitNext(items: seq<PricedLine>, all: seq<Entry>, k: nat, i: nat)
    requires AreEntriesOf(items, all) && 0 < k <= |all| && i < |items| && items[i].line.quantity > 0
    requires UnitsIn(all[..k], Line(i)) < UnitsIn(all, Line(i))
    requires Near(Posted(Splits(items, all, k - 1), i), ExactPart(items[i], UnitsIn(all[..k - 1], Line(i))),
      0.5 * TakesOf(all[..k - 1], i) as real)
    ensures Near(Posted(Splits(items, all, k), i), ExactPart(items[i], UnitsIn(all[..k], Line(i))), 0.5 * TakesOf(all[..k], i) as real)
  {
    var entry, before := all[k - 1], Splits(items, all, k - 1);
    var posted, units, takes := Posted(before, i), UnitsIn(all[..k - 1], Line(i)), TakesOf(all[..k - 1], i);
    assert all[..k] == all[..k - 1] + [entry] && all[..k][..k - 1] == all[..k - 1];
    UnitsInSnoc(all[..k - 1], entry, Line(i));
    hide PartTotal, ExactPart, Near, UnitsIn, Splits, NextSplit, Posted;
    SplitsNext(items, all, k);
    PartialSplit(items, all, k);
    PostedSnoc(before, NextSplit(items, all, k - 1, before));
    if entry.index == i {
      NextPart(items[i], posted, units, entry.quantity, takes);
    }
  }

  lemma {:induction false} NextPart(item: PricedLine, posted: int, before: nat, taken: nat, takes: nat)
    requires item.line.quantity > 0 && Near(posted, ExactPart(item, before), 0.5 * takes as real)
    ensures Near(posted + PartTotal(item, taken), ExactPart(item, before + taken), 0.5 * (takes + 1) as real)
  {
    hide PartTotal, ExactPart, Near;
    PartNear(item, taken);
    PartsAdd(item, before, taken);
    NearAdds(posted, ExactPart(item, before), 0.5 * takes as real, PartTotal(item, taken), ExactPart(item, taken));
  }

  /** A split that leaves units of its line to later ones. */
  lemma {:induction false} PartialSplit(items: seq<PricedLine>, all: seq<Entry>, k: nat)
    requires AreEntriesOf(items, all) && 0 < k <= |all|
    ensures NextSplit(items, all, k - 1, Splits(items, all, k - 1)).index == all[k - 1].index
    ensures UnitsIn(all[..k], Line(all[k - 1].index)) < UnitsIn(all, Line(all[k - 1].index)) ==>
      NextSplit(items, all, k - 1, Splits(items, all, k - 1)).amount == PartTotal(items[all[k - 1].index], all[k - 1].quantity)
  {
    hide UnitsIn, PartTotal, Splits;
    assert all[..k] == all[..k - 1] + [all[k - 1]];
    UnitsInSnoc(all[..k - 1], all[k - 1], Line(all[k - 1].index));
  }

  lemma {:induction false} SplitsNext(items: seq<PricedLine>, all: seq<Entry>, k: nat)
    requires AreEntriesOf(items, all) && 0 < k <= |all|
    ensures Splits(items, all, k) == Splits(items, all, k - 1) + [NextSplit(items, all, k - 1, Splits(items, all, k - 1))]
  {
    hide NextSplit;
  }

  lemma {:induction false} UnitsGrow(entries: seq<Entry>, k: nat, n: nat, keep: nat -> bool)
    requires k <= n <= |entries|
    ensures UnitsIn(entries[..k], keep) <= UnitsIn(entries[..n], keep)
    decreases n
  {
    if k < n {
      UnitsGrow(entries, k, n - 1, keep);
      assert entries[..n][..n - 1] == entries[..n - 1];
    }
  }

  /** A split that leaves some of the line's grouped units to later ones is the part of its own units, to the cent. The
      one that completes them is the part of all units not split off before, half a cent for each earlier split aside. */
  lemma {:induction false} SplitFair(items: seq<PricedLine>, all: seq<Entry>, at: nat)
    requires AreEntriesOf(items, all) && at < |all|
    ensures var i, taken := all[at].index, all[at].quantity;
      var item, shown, before := items[i], IncludedAt(items, all, at), UnitsIn(all[..at], Line(i));
      && shown == item.(line := item.line.(quantity := taken), depositTotal := item.depositAmount * taken, lineTotal := shown.lineTotal)
      && before + taken <= UnitsIn(all, Line(i))
      && if before + taken < UnitsIn(all, Line(i)) then Near(shown.lineTotal, ExactPart(item, taken), 0.5)
         else Near(shown.lineTotal, ExactPart(item, item.line.quantity - before), 0.5 * TakesOf(all[..at], i) as real)
  {
    hide PartTotal, ExactPart, Near;
    var i, taken := all[at].index, all[at].quantity;
    var item, before, splits := items[i], UnitsIn(all[..at], Line(i)), Splits(items, all, at);
    assert all[..at + 1][..at] == all[..at] && all[..|all|] == all;
    UnitsGrow(all, at + 1, |all|, Line(i));
    SplitSoFar(items, all, at, i);
    PartNear(item, taken);
    PartsAdd(item, before, item.line.quantity - before);
    NearRest(item.lineTotal, Posted(splits, i), ExactPart(item, before), 0.5 * TakesOf(all[..at], i) as real);
  }

  // ----- In the display -----

  lemma {:induction false} RangeAt(items: seq<PricedLine>, all: seq<Entry>, start: nat, end: nat, k: nat)
    requires AreEntriesOf(items, all) && start <= end <= |all| && k < end - start
    ensures |IncludedRange(items, all, start, end)| == end - start
    ensures IncludedRange(items, all, start, end)[k] == IncludedAt(items, all, start + k)
    decreases end
  {
    hide IncludedAt;
    if end > start + 1 {
      RangeAt(items, all, start, end - 1, if k < end - 1 - start then k else 0);
    }
  }

  /** So for the lines inside a card. */
  lemma {:induction false} IncludedFair(items: seq<PricedLine>, groups: seq<Group>, g: nat, k: nat)
    requires AreGroupsOf(items, groups) && g < |groups| && k < |groups[g].entries|
    ensures |Included(items, groups, g)| == |groups[g].entries|
    ensures groups[g].entries[k].index < |items| && items[groups[g].entries[k].index].line.quantity > 0
    ensures var i, taken := groups[g].entries[k].index, groups[g].entries[k].quantity;
      var item, shown, before := items[i], Included(items, groups, g)[k],
        Taken(groups[..g], i) + UnitsIn(groups[g].entries[..k], Line(i));
      && shown == item.(line := item.line.(quantity := taken), depositTotal := item.depositAmount * taken, lineTotal := shown.lineTotal)
      && before + taken <= Taken(groups, i)
      && if before + taken < Taken(groups, i) then Near(shown.lineTotal, ExactPart(item, taken), 0.5)
         else Near(shown.lineTotal, ExactPart(item, item.line.quantity - before),
           0.5 * (TakesOf(AllEntries(groups[..g]) + groups[g].entries[..k], i)) as real)
  {
    hide AllEntries, IncludedAt, IncludedRange, TakesOf, UnitsIn, ExactPart, Near;
    var all, start, n := AllEntries(groups), |AllEntries(groups[..g])|, |groups[g].entries|;
    EntriesOfGroups(items, groups);
    EntriesUpTo(groups, g);
    EntryAt(groups, g, k);
    RangeAt(items, all, start, start + n, k);
    SplitFair(items, all, start + k);
    assert all[..start + k] == AllEntries(groups[..g]) + groups[g].entries[..k] by {
      assert all[..start + k] == all[..start] + all[start..start + n][..k];
    }
    UnitsInConcat(AllEntries(groups[..g]), groups[g].entries[..k], Line(groups[g].entries[k].index));
  }

  /** What is shown, outside all cards, of a line that is not wholly grouped. */
  ghost predicate IsRest(items: seq<PricedLine>, deals: seq<CartDeal>, i: nat, shown: PricedLine)
    requires ArePriceable(deals)
  {
    var grouped := GroupedUnits(items, deals, i);
    && i < |items| && grouped < items[i].line.quantity
    && if grouped == 0 then shown == items[i]
       else
         var item, rest := items[i], items[i].line.quantity - grouped;
         && shown == item.(line := item.line.(quantity := rest), depositTotal := item.depositAmount * rest, lineTotal := shown.lineTotal)
         && Near(shown.lineTotal, ExactPart(item, rest), 0.5)
  }

  lemma {:induction false} LineRest(item: PricedLine, cards: seq<Card>, grouped: nat, shown: PricedLine)
    requires PlainItem(shown) in LineDisplay(item, cards, grouped)
    ensures grouped < item.line.quantity
    ensures grouped == 0 ==> shown == item
    ensures grouped > 0 ==> shown == Leftover(item, grouped)
  {}

  lemma {:induction false} InDisplay(items: seq<PricedLine>, slots: seq<Slot>, entries: seq<Entry>, n: nat, x: DisplayItem)
    requires n <= |items|
    ensures x in Display(items, slots, entries, n)
            <==> exists i :: 0 <= i < n && x in LineDisplay(items[i], CardsAt(slots, i), UnitsIn(entries, Line(i)))
  {
    hide LineDisplay, CardsAt, UnitsIn;
    if n > 0 {
      InDisplay(items, slots, entries, n - 1, x);
    }
  }

  lemma {:induction false} LeftoverFair(item: PricedLine, grouped: nat)
    requires 0 < grouped < item.line.quantity
    ensures var rest, shown := item.line.quantity - grouped, Leftover(item, grouped);
      && shown == item.(line := item.line.(quantity := rest), depositTotal := item.depositAmount * rest, lineTotal := shown.lineTotal)
      && Near(shown.lineTotal, ExactPart(item, rest), 0.5)
  {
    hide PartTotal, ExactPart;
    PartNear(item, item.line.quantity - grouped);
  }

  /** Beside the cards exactly the lines that are not wholly grouped are shown: as they are when no unit of theirs is
      grouped, otherwise with the units left and these units' part of the line's total, to the cent. */
  lemma {:induction false} RestsShown(items: seq<PricedLine>, deals: seq<CartDeal>)
    requires ArePriceable(deals)
    ensures forall shown :: PlainItem(shown) in CartDisplay(items, deals) ==> exists i: nat :: IsRest(items, deals, i, shown)
    ensures forall i: nat :: i < |items| && GroupedUnits(items, deals, i) < items[i].line.quantity ==>
      exists shown :: PlainItem(shown) in CartDisplay(items, deals) && IsRest(items, deals, i, shown)
  {
    hide Display, LineDisplay, UnitsIn, CartEntries, CartSlots, CardsAt, Leftover, ExactPart, Near;
    var slots, entries := CartSlots(items, deals), CartEntries(items, deals);
    forall shown | PlainItem(shown) in CartDisplay(items, deals)
      ensures exists i: nat :: IsRest(items, deals, i, shown)
    {
      InDisplay(items, slots, entries, |items|, PlainItem(shown));
      var i: nat :| i < |items| && PlainItem(shown) in LineDisplay(items[i], CardsAt(slots, i), UnitsIn(entries, Line(i)));
      RestIs(items, deals, i, shown);
    }
    forall i: nat | i < |items| && GroupedUnits(items, deals, i) < items[i].line.quantity
      ensures exists shown :: PlainItem(shown) in CartDisplay(items, deals) && IsRest(items, deals, i, shown)
    {
      var shown := RestOf(items[i], CardsAt(slots, i), UnitsIn(entries, Line(i)));
      InDisplay(items, slots, entries, |items|, PlainItem(shown));
      RestIs(items, deals, i, shown);
    }
  }

  lemma {:induction false} RestOf(item: PricedLine, cards: seq<Card>, grouped: nat) returns (shown: PricedLine)
    requires grouped < item.line.quantity
    ensures PlainItem(shown) in LineDisplay(item, cards, grouped)
  {
    shown := if grouped > 0 then Leftover(item, grouped) else item;
  }

  lemma {:induction false} RestIs(items: seq<PricedLine>, deals: seq<CartDeal>, i: nat, shown: PricedLine)
    requires ArePriceable(deals) && i < |items|
    requires PlainItem(shown) in LineDisplay(items[i], CardsAt(CartSlots(items, deals), i), UnitsIn(CartEntries(items, deals), Line(i)))
    ensures IsRest(items, deals, i, shown)
  {
    hide LineDisplay, UnitsIn, CartEntries, CartSlots, CardsAt, Leftover, ExactPart, Near;
    var grouped := GroupedUnits(items, deals, i);
    LineRest(items[i], CardsAt(CartSlots(items, deals), i), grouped, shown);
    if grouped > 0 {
      LeftoverFair(items[i], grouped);
    }
  }

  /** What the display shows of a line on top of its total is the exact part of its rest, half a cent aside. */
  lemma {:induction false} SurplusFair(items: seq<PricedLine>, deals: seq<CartDeal>, i: nat)
    requires ArePriceable(deals) && i < |items|
    ensures var grouped, quantity := GroupedUnits(items, deals, i), items[i].line.quantity;
      if 0 < grouped < quantity
      then Near(Surplus(items, deals, LineTotals)(i), ExactPart(items[i], quantity - grouped), 0.5)
      else Surplus(items, deals, LineTotals)(i) == 0
  {
    hide PartTotal, ExactPart, GroupedUnits, Near;
    var grouped, quantity := GroupedUnits(items, deals, i), items[i].line.quantity;
    if 0 < grouped < quantity {
      PartNear(items[i], quantity - grouped);
    }
  }
}
