/** What an entry of a deal's group is charged, and what its line costs then, by the worth of the units it takes. */
module ChargedShares {
  import opened Prelude
  import opened Allocation
  import opened DealGroups
  import opened DealGroupLaws
  import opened DealPricing
  import opened DealDisplayLaws
  import ShownPrices

  /** What the units an entry takes of its line were worth, in exact cents, before the deal. */
  function Worth(items: seq<PricedLine>, entry: Entry): real {
    if entry.index < |items| && items[entry.index].line.quantity > 0
    then Merchandise(items[entry.index]) as real * entry.quantity as real / items[entry.index].line.quantity as real
    else 0.0
  }

  function WorthOf(items: seq<PricedLine>, entries: seq<Entry>): real {
    if entries == [] then 0.0 else WorthOf(items, entries[..|entries| - 1]) + Worth(items, entries[|entries| - 1])
  }

  /** What an entry owes: its part of the group's price by worth, or an equal part when the group is worth nothing. */
  function Due(items: seq<PricedLine>, group: Group, fixedPrice: int, k: nat): real
    requires k < |group.entries|
  {
    PartOf(fixedPrice * group.quantity, Worth(items, group.entries[k]), WorthOf(items, group.entries), |group.entries|)
  }

  function PartOf(price: int, worth: real, whole: real, n: nat): real
    requires n > 0
  {
    if whole > 0.0 then price as real * worth / whole else price as real / n as real
  }

  /** How far rounding can move it: half a cent, and for the last entry half a cent for each entry before it. */
  function Margin(group: Group, k: nat): real
    requires k < |group.entries|
  {
    if k < |group.entries| - 1 then 0.5 else 0.5 * k as real
  }

  lemma {:induction false} UnitTimes(m: real, n: real, q: real)
    requires q > 0.0
    ensures m / q * n == m * n / q
  {}

  lemma {:induction false} TotalIsWorth(items: seq<PricedLine>, group: Group, k: nat)
    requires IsGroupOf(items, group) && k < |group.entries|
    ensures GroupTotals(items, group)[k] == Worth(items, group.entries[k])
  {
    hide Merchandise;
    var item := items[group.entries[k].index];
    UnitTimes(Merchandise(item) as real, group.entries[k].quantity as real, item.line.quantity as real);
  }

  lemma {:induction false} SumIsWorth(items: seq<PricedLine>, entries: seq<Entry>, totals: seq<real>)
    requires |totals| == |entries|
    requires forall k :: 0 <= k < |entries| ==> totals[k] == Worth(items, entries[k])
    ensures SumReal(totals) == WorthOf(items, entries)
  {
    hide Worth;
    if entries != [] {
      SumIsWorth(items, entries[..|entries| - 1], totals[..|entries| - 1]);
    }
  }

  lemma {:induction false} ExactIsDue(items: seq<PricedLine>, group: Group, fixedPrice: int, k: nat)
    requires IsGroupOf(items, group) && k < |group.entries|
    ensures ExactShares(GroupTotals(items, group), fixedPrice * group.quantity)[k] == Due(items, group, fixedPrice, k)
  {
    hide Worth, MerchandiseUnit, IsGroupOf;
    var totals := GroupTotals(items, group);
    forall j | 0 <= j < |totals|
      ensures totals[j] == Worth(items, group.entries[j])
    {
      TotalIsWorth(items, group, j);
    }
    SumIsWorth(items, group.entries, totals);
    hide SumReal, WorthOf, GroupTotals, ExactShares, PartOf;
    ExactShare(totals, fixedPrice * group.quantity, k, Worth(items, group.entries[k]), WorthOf(items, group.entries));
  }

  lemma {:induction false} ExactShare(totals: seq<real>, fixedTotal: int, k: nat, worth: real, whole: real)
    requires k < |totals| && totals[k] == worth && SumReal(totals) == whole
    ensures ExactShares(totals, fixedTotal)[k] == PartOf(fixedTotal, worth, whole, |totals|)
  {
    hide SumReal;
  }

  /** Every entry of a group is charged what it owes, up to rounding. */
  lemma {:induction false} EntryCharged(items: seq<PricedLine>, group: Group, fixedPrice: int, k: nat)
    requires IsGroupOf(items, group) && k < |group.entries|
    ensures GroupCharges(items, group, fixedPrice)[k].index == group.entries[k].index
    ensures Near(GroupCharges(items, group, fixedPrice)[k].amount, Due(items, group, fixedPrice, k), Margin(group, k))
  {
    hide Shares, ExactShares, SumReal, WorthOf, Worth, GroupTotals, Due, IsGroupOf, Abs;
    ExactIsDue(items, group, fixedPrice, k);
    SharesNear(GroupTotals(items, group), fixedPrice * group.quantity, k);
  }

  /** What a line owes that gives units to one entry only: the entry's part, the raw price of its other units,
      its modifiers and its deposit. */
  function LineDue(items: seq<PricedLine>, group: Group, fixedPrice: int, k: nat, item: PricedLine): real
    requires k < |group.entries| && item.line.quantity > 0
  {
    WithExtras(item, Due(items, group, fixedPrice, k) + RestWorth(item, group.entries[k].quantity))
  }

  function RestWorth(item: PricedLine, taken: nat): real
    requires item.line.quantity > 0
  {
    Merchandise(item) as real * Max(item.line.quantity - taken, 0) as real / item.line.quantity as real
  }

  function WithExtras(item: PricedLine, merchandise: real): real {
    merchandise + (item.modifiersTotal * item.line.quantity) as real + item.depositTotal as real
  }

  /** The line keeps everything but its prices; its unit price is its total without deposit, per unit. */
  ghost predicate IsPricedAt(item: PricedLine, priced: PricedLine, due: real, margin: real) {
    && item.line.quantity > 0
    && Near(priced.lineTotal, due, margin)
    && Near(priced.unitPrice, (priced.lineTotal - item.depositTotal) as real / item.line.quantity as real, 0.5)
    && priced == item.(lineTotal := priced.lineTotal, unitPrice := priced.unitPrice, unitPriceWithModifiers := priced.unitPrice)
  }

  /** Nothing is rounded again when no units are left over, or their price is whole cents. */
  predicate RestIsWhole(item: PricedLine, taken: nat) {
    taken >= item.line.quantity || HasUnitPrice(item)
  }

  /** After pricing, such a line costs what it owes up to rounding. */
  lemma {:induction false} LineCharged(items: seq<PricedLine>, groups: seq<Group>, fixedPrice: int, g: nat, k: nat)
    requires AreGroupsOf(items, groups) && g < |groups| && k < |groups[g].entries|
    requires NoLineTwice(AllEntries(groups))
    ensures groups[g].entries[k].index < |items| && items[groups[g].entries[k].index].line.quantity > 0
    ensures var entry := groups[g].entries[k];
      var item := items[entry.index];
      IsPricedAt(item, Repriced(items, groups, fixedPrice)[entry.index], LineDue(items, groups[g], fixedPrice, k, item),
        Margin(groups[g], k) + if RestIsWhole(item, entry.quantity) then 0.0 else 0.5)
  {
    hide AllEntries, Charges, GroupCharges, Due, Margin, NoLineTwice, UnitsIn, RepricedLine, IsGroupOf, AreGroupsOf;
    hide RestIsWhole, IsPricedAt, Near, LineDue, Repriced, Posted;
    var all, at, entry := AllEntries(groups), |AllEntries(groups[..g])| + k, groups[g].entries[k];
    GroupEntry(items, groups, g, k);
    ChargedOnce(items, groups, fixedPrice, g, k);
    EntryCharged(items, groups[g], fixedPrice, k);
    EntryAt(groups, g, k);
    UnitsOfOnce(all, at, |all|);
    assert all[..|all|] == all;
    ShownPrices.RepricedOnce(items, groups, fixedPrice, entry.index);
    RepricedNear(items, groups[g], fixedPrice, k, items[entry.index], GroupCharges(items, groups[g], fixedPrice)[k].amount);
  }

  lemma {:induction false} GroupEntry(items: seq<PricedLine>, groups: seq<Group>, g: nat, k: nat)
    requires AreGroupsOf(items, groups) && g < |groups| && k < |groups[g].entries|
    ensures IsGroupOf(items, groups[g])
    ensures groups[g].entries[k].index < |items| && items[groups[g].entries[k].index].line.quantity > 0
    ensures groups[g].entries[k].quantity > 0
  {
    assert IsGroupOf(items, groups[g]);
  }

  lemma {:induction false} RepricedNear(items: seq<PricedLine>, group: Group, fixedPrice: int, k: nat, item: PricedLine, charged: int)
    requires k < |group.entries| && item.line.quantity > 0
    requires Near(charged, Due(items, group, fixedPrice, k), Margin(group, k))
    ensures IsPricedAt(item, RepricedLine(item, group.entries[k].quantity, charged), LineDue(items, group, fixedPrice, k, item),
      Margin(group, k) + if RestIsWhole(item, group.entries[k].quantity) then 0.0 else 0.5)
  {
    hide Due, Margin, RepricedLine, Near, RestIsWhole, RestWorth, RoundCents, WithExtras;
    var taken, due, margin := group.entries[k].quantity, Due(items, group, fixedPrice, k), Margin(group, k);
    RepricedParts(item, taken, charged);
    RoundedLine(item, taken, charged, due, margin);
  }

  lemma {:induction false} RoundedLine(item: PricedLine, taken: nat, charged: int, due: real, margin: real)
    requires item.line.quantity > 0 && Near(charged, due, margin)
    ensures Near(RoundCents(WithExtras(item, charged as real + RestWorth(item, taken))), WithExtras(item, due + RestWorth(item, taken)),
      margin + if RestIsWhole(item, taken) then 0.0 else 0.5)
  {
    hide UnitCents, Near, HasUnitPrice, RoundCents, WithExtras, RestWorth, MerchandiseUnit;
    var rest, left := Max(item.line.quantity - taken, 0), RestWorth(item, taken);
    RestByUnit(item, taken);
    if taken >= item.line.quantity {
      WholeSum(item, charged, 0, left, due, margin);
    } else if HasUnitPrice(item) {
      UnitExact(item, rest);
      WholeSum(item, charged, UnitCents(item) * rest, left, due, margin);
    } else {
      RoundedSum(item, charged, left, due, margin);
    }
  }

  lemma {:induction false} RestByUnit(item: PricedLine, taken: nat)
    requires item.line.quantity > 0
    ensures MerchandiseUnit(item) * Max(item.line.quantity - taken, 0) as real == RestWorth(item, taken)
    ensures taken >= item.line.quantity ==> RestWorth(item, taken) == 0.0
  {
    hide Merchandise;
    var m, n, q := Merchandise(item) as real, Max(item.line.quantity - taken, 0) as real, item.line.quantity as real;
    UnitTimes(m, n, q);
    assert MerchandiseUnit(item) == m / q && RestWorth(item, taken) == m * n / q;
  }

  lemma {:induction false} RepricedParts(item: PricedLine, taken: nat, charged: int)
    requires item.line.quantity > 0
    ensures var priced := RepricedLine(item, taken, charged);
      && priced.lineTotal == RoundCents(WithExtras(item, charged as real + RestWorth(item, taken)))
      && Near(priced.unitPrice, (priced.lineTotal - item.depositTotal) as real / item.line.quantity as real, 0.5)
      && priced == item.(lineTotal := priced.lineTotal, unitPrice := priced.unitPrice, unitPriceWithModifiers := priced.unitPrice)
  {
    RestByUnit(item, taken);
    RepricedTotal(item, taken, charged, RestWorth(item, taken));
    hide MerchandiseUnit, Near, RestWorth, RoundCents, WithExtras;
    var priced := RepricedLine(item, taken, charged);
    NearRounded((priced.lineTotal - item.depositTotal) as real / item.line.quantity as real);
  }

  lemma {:induction false} RepricedTotal(item: PricedLine, taken: nat, charged: int, left: real)
    requires item.line.quantity > 0 && MerchandiseUnit(item) * Max(item.line.quantity - taken, 0) as real == left
    ensures RepricedLine(item, taken, charged).lineTotal == RoundCents(WithExtras(item, charged as real + left))
  {
    assert RepricedMerchandise(item, taken, charged) == charged as real + left;
    hide MerchandiseUnit, RepricedMerchandise, Max;
    var total := RepricedMerchandise(item, taken, charged) + (item.modifiersTotal * item.line.quantity) as real + item.depositTotal as real;
    assert RepricedLine(item, taken, charged).lineTotal == RoundCents(total);
    assert total == WithExtras(item, charged as real + left);
  }

  lemma {:induction false} NearRounded(x: real)
    ensures Near(RoundCents(x), x, 0.5)
  {
    RoundCentsNearest(x);
  }

  lemma {:induction false} RoundedSum(item: PricedLine, charged: int, rest: real, due: real, margin: real)
    requires Near(charged, due, margin)
    ensures Near(RoundCents(WithExtras(item, charged as real + rest)), WithExtras(item, due + rest), margin + 0.5)
  {
    RoundCentsNearest(WithExtras(item, charged as real + rest));
    hide RoundCents;
  }

  lemma {:induction false} WholeSum(item: PricedLine, charged: int, whole: int, rest: real, due: real, margin: real)
    requires Near(charged, due, margin) && rest == whole as real
    ensures Near(RoundCents(WithExtras(item, charged as real + rest)), WithExtras(item, due + rest), margin)
  {
    var total := charged + whole + item.modifiersTotal * item.line.quantity + item.depositTotal;
    RoundCentsWhole(total);
    hide RoundCents;
    assert WithExtras(item, charged as real + rest) == total as real;
  }
}
