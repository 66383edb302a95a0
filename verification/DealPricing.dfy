/** Repricing cart lines so that every deal group costs its fixed price.
    Models applyFixedDealPricingForDeal. */
module DealPricing {
  import opened Prelude
  import opened Allocation
  import opened DealGroups
  import opened DealGroupLaws

  /** A cart line with its amounts in cents. An absent line total is read as 0 throughout the source. */
  datatype PricedLine = PricedLine(
    id: string,
    line: DealLine,
    unitPrice: int,
    unitPriceWithModifiers: int,
    modifiersTotal: int,
    depositAmount: int,
    depositTotal: int,
    lineTotal: int)

  function LinesOf(items: seq<PricedLine>): (lines: seq<DealLine>)
    ensures |lines| == |items|
    ensures forall i :: 0 <= i < |items| ==> lines[i] == items[i].line
  {
    seq(|items|, i requires 0 <= i < |items| => items[i].line)
  }

  /** What a line costs without deposit and modifiers. */
  function Merchandise(item: PricedLine): int {
    item.lineTotal - item.depositTotal - item.modifiersTotal * item.line.quantity
  }

  function MerchandiseUnit(item: PricedLine): real
    requires item.line.quantity > 0
  {
    Merchandise(item) as real / item.line.quantity as real
  }

  /** Groups that take units, and take them from lines that have units. */
  ghost predicate AreGroupsOf(items: seq<PricedLine>, groups: seq<Group>) {
    forall g :: 0 <= g < |groups| ==> IsGroupOf(items, groups[g])
  }

  ghost predicate IsGroupOf(items: seq<PricedLine>, group: Group) {
    && group.entries != [] && group.quantity > 0
    && forall k :: 0 <= k < |group.entries| ==>
      group.entries[k].quantity > 0 && group.entries[k].index < |items| && items[group.entries[k].index].line.quantity > 0
  }

  function GroupTotals(items: seq<PricedLine>, group: Group): (totals: seq<real>)
    requires IsGroupOf(items, group)
    ensures |totals| == |group.entries|
  {
    seq(|group.entries|, k requires 0 <= k < |group.entries| =>
      MerchandiseUnit(items[group.entries[k].index]) * group.entries[k].quantity as real)
  }

  /** The share of the fixed price each entry of a group is charged. */
  function GroupCharges(items: seq<PricedLine>, group: Group, fixedPrice: int): (charges: seq<Posting>)
    requires IsGroupOf(items, group)
    ensures |charges| == |group.entries|
    ensures forall k :: 0 <= k < |charges| ==> charges[k].index == group.entries[k].index
  {
    var shares := Shares(GroupTotals(items, group), fixedPrice * group.quantity);
    seq(|group.entries|, k requires 0 <= k < |group.entries| => Posting(group.entries[k].index, shares[k]))
  }

  function Charges(items: seq<PricedLine>, groups: seq<Group>, fixedPrice: int): seq<Posting>
    requires AreGroupsOf(items, groups)
  {
    if groups == [] then []
    else
      Charges(items, groups[..|groups| - 1], fixedPrice) + GroupCharges(items, groups[|groups| - 1], fixedPrice)
  }

  /** What is charged, and the raw price of the units in no group. */
  function RepricedMerchandise(item: PricedLine, grouped: nat, charged: int): real
    requires item.line.quantity > 0
  {
    charged as real + MerchandiseUnit(item) * Max(item.line.quantity - grouped, 0) as real
  }

  function RepricedLine(item: PricedLine, grouped: nat, charged: int): PricedLine
    requires item.line.quantity > 0
  {
    var lineTotal := RoundCents(
      RepricedMerchandise(item, grouped, charged) + (item.modifiersTotal * item.line.quantity) as real + item.depositTotal as real);
    var unitPrice := RoundCents((lineTotal - item.depositTotal) as real / item.line.quantity as real);
    item.(unitPrice := unitPrice, unitPriceWithModifiers := unitPrice, lineTotal := lineTotal)
  }

  ghost function RepricedAt(items: seq<PricedLine>, groups: seq<Group>, fixedPrice: int, i: nat): PricedLine
    requires AreGroupsOf(items, groups) && i < |items|
  {
    var grouped := Taken(groups, i);
    if grouped > 0 && items[i].line.quantity > 0
    then RepricedLine(items[i], grouped, Posted(Charges(items, groups, fixedPrice), i))
    else items[i]
  }

  ghost function Repriced(items: seq<PricedLine>, groups: seq<Group>, fixedPrice: int): (repriced: seq<PricedLine>)
    requires AreGroupsOf(items, groups)
    ensures |repriced| == |items|
    ensures forall i :: 0 <= i < |items| ==> repriced[i] == RepricedAt(items, groups, fixedPrice, i)
  {
    seq(|items|, i requires 0 <= i < |items| => RepricedAt(items, groups, fixedPrice, i))
  }

  lemma {:induction false} GroupsOfDeal(items: seq<PricedLine>, dealId: string, pricing: Pricing)
    requires pricing.selectionMode.FixedItems? ==> pricing.menuItemIds != []
    ensures AreGroupsOf(items, PricingGroups(LinesOf(items), dealId, pricing))
    ensures AreGroupsOf(items, DisplayGroups(LinesOf(items), dealId, pricing))
  {
    PricingGroupsShape(LinesOf(items), dealId, pricing);
    forall groups: seq<Group> | AreDealGroups(LinesOf(items), dealId, groups)
      ensures AreGroupsOf(items, groups)
    {
      forall g | 0 <= g < |groups|
        ensures IsGroupOf(items, groups[g])
      {
        assert IsDealGroup(LinesOf(items), dealId, groups[g]);
      }
    }
  }

  /** The map holds exactly the lines with postings, and their sums. */
  ghost predicate Tallies(tally: map<nat, int>, ps: seq<Posting>) {
    && (forall i: nat :: i in tally <==> Touches(ps, i))
    && (forall i: nat :: i in tally ==> tally[i] == Posted(ps, i))
  }

  function Units(entries: seq<Entry>): (ps: seq<Posting>)
    ensures |ps| == |entries|
    ensures forall k :: 0 <= k < |entries| ==> ps[k] == Posting(entries[k].index, entries[k].quantity)
  {
    seq(|entries|, k requires 0 <= k < |entries| => Posting(entries[k].index, entries[k].quantity))
  }

  lemma {:induction false} UnitsPosted(entries: seq<Entry>, i: nat)
    ensures Posted(Units(entries), i) == UnitsIn(entries, Line(i))
  {
    if entries != [] {
      UnitsPosted(entries[..|entries| - 1], i);
      assert Units(entries)[..|entries| - 1] == Units(entries[..|entries| - 1]);
    }
  }

  function Lookup(tally: map<nat, int>, i: nat): int { if i in tally then tally[i] else 0 }

  lemma {:induction false} LookupPosted(tally: map<nat, int>, ps: seq<Posting>, i: nat)
    requires Tallies(tally, ps)
    ensures Lookup(tally, i) == Posted(ps, i)
  {
    if i !in tally {
      PostedUntouched(ps, i);
    }
  }

  lemma {:induction false} LookupUnits(tally: map<nat, int>, entries: seq<Entry>, i: nat)
    requires Tallies(tally, Units(entries))
    ensures Lookup(tally, i) == UnitsIn(entries, Line(i))
  {
    LookupPosted(tally, Units(entries), i);
    UnitsPosted(entries, i);
  }

  method Tally(tally: map<nat, int>, p: Posting, ghost before: seq<Posting>) returns (tallied: map<nat, int>)
    requires Tallies(tally, before)
    ensures Tallies(tallied, before + [p])
  {
    PostedSnoc(before, p);
    LookupPosted(tally, before, p.index);
    tallied := tally[p.index := Lookup(tally, p.index) + p.amount];
  }

  lemma {:induction false} TouchesConcat(ps: seq<Posting>, qs: seq<Posting>, i: nat)
    ensures Touches(ps + qs, i) <==> Touches(ps, i) || Touches(qs, i)
  {
    if Touches(ps, i) {
      var k :| 0 <= k < |ps| && ps[k].index == i;
      assert (ps + qs)[k].index == i;
    }
    if Touches(qs, i) {
      var k :| 0 <= k < |qs| && qs[k].index == i;
      assert (ps + qs)[|ps| + k].index == i;
    }
    if Touches(ps + qs, i) {
      var k :| 0 <= k < |ps + qs| && (ps + qs)[k].index == i;
      assert if k < |ps| then ps[k].index == i else qs[k - |ps|].index == i;
    }
  }

  lemma {:induction false} UnitsConcat(xs: seq<Entry>, ys: seq<Entry>)
    ensures Units(xs + ys) == Units(xs) + Units(ys)
  {}

  /** A line is charged exactly when it gives units; then it has units to give. */
  lemma {:induction false} ChargedTogether(items: seq<PricedLine>, groups: seq<Group>, fixedPrice: int, i: nat)
    requires AreGroupsOf(items, groups)
    ensures Touches(Units(AllEntries(groups)), i) <==> Touches(Charges(items, groups, fixedPrice), i)
    ensures Touches(Units(AllEntries(groups)), i) ==> i < |items| && items[i].line.quantity > 0
  {
    hide Shares, GroupTotals, MerchandiseUnit;
    if groups != [] {
      var front, last := groups[..|groups| - 1], groups[|groups| - 1];
      ChargedTogether(items, front, fixedPrice, i);
      var charges := GroupCharges(items, last, fixedPrice);
      assert forall k :: 0 <= k < |last.entries| ==> charges[k].index == Units(last.entries)[k].index;
      assert IsGroupOf(items, last);
      TouchesConcat(Charges(items, front, fixedPrice), charges, i);
      UnitsConcat(AllEntries(front), last.entries);
      TouchesConcat(Units(AllEntries(front)), Units(last.entries), i);
    }
  }

  /** Adds the entries of one group, and their shares, to the running maps. */
  method TallyGroup(entries: seq<Entry>, allocations: seq<int>, grouped: map<nat, int>, charged: map<nat, int>,
    ghost units: seq<Posting>, ghost charges: seq<Posting>) returns (groupedNow: map<nat, int>, chargedNow: map<nat, int>)
    requires |allocations| == |entries|
    requires Tallies(grouped, units) && Tallies(charged, charges)
    ensures Tallies(groupedNow, units + Units(entries))
    ensures Tallies(chargedNow, charges + seq(|entries|, k requires 0 <= k < |entries| => Posting(entries[k].index, allocations[k])))
  {
    ghost var newCharges := seq(|entries|, k requires 0 <= k < |entries| => Posting(entries[k].index, allocations[k]));
    groupedNow, chargedNow := grouped, charged;
    assert units + Units(entries)[..0] == units && charges + newCharges[..0] == charges;
    for k := 0 to |entries|
      invariant Tallies(groupedNow, units + Units(entries)[..k])
      invariant Tallies(chargedNow, charges + newCharges[..k])
    {
      groupedNow := Tally(groupedNow, Posting(entries[k].index, entries[k].quantity), units + Units(entries)[..k]);
      chargedNow := Tally(chargedNow, Posting(entries[k].index, allocations[k]), charges + newCharges[..k]);
      assert units + Units(entries)[..k + 1] == (units + Units(entries)[..k]) + [Units(entries)[k]];
      assert charges + newCharges[..k + 1] == (charges + newCharges[..k]) + [newCharges[k]];
    }
    assert Units(entries)[..|entries|] == Units(entries) && newCharges[..|entries|] == newCharges;
  }

  lemma {:induction false} ChargesNext(items: seq<PricedLine>, groups: seq<Group>, fixedPrice: int, g: nat, allocations: seq<int>)
    requires AreGroupsOf(items, groups) && g < |groups|
    requires IsGroupOf(items, groups[g])
    requires allocations == Shares(GroupTotals(items, groups[g]), fixedPrice * groups[g].quantity)
    ensures var entries := groups[g].entries;
      && AllEntries(groups[..g + 1]) == AllEntries(groups[..g]) + entries
      && Charges(items, groups[..g + 1], fixedPrice)
         == Charges(items, groups[..g], fixedPrice)
            + seq(|entries|, k requires 0 <= k < |entries| => Posting(entries[k].index, allocations[k]))
  {
    var entries := groups[g].entries;
    assert groups[..g + 1][..g] == groups[..g];
    assert GroupCharges(items, groups[g], fixedPrice)
      == seq(|entries|, k requires 0 <= k < |entries| => Posting(entries[k].index, allocations[k]));
  }

  method TallyGroups(items: seq<PricedLine>, dealGroups: seq<Group>, fixedPrice: int)
    returns (groupedQuantity: map<nat, int>, allocatedMerchandise: map<nat, int>)
    requires AreGroupsOf(items, dealGroups)
    ensures Tallies(groupedQuantity, Units(AllEntries(dealGroups)))
    ensures Tallies(allocatedMerchandise, Charges(items, dealGroups, fixedPrice))
  {
    groupedQuantity, allocatedMerchandise := map[], map[];
    for g := 0 to |dealGroups|
      invariant Tallies(groupedQuantity, Units(AllEntries(dealGroups[..g])))
      invariant Tallies(allocatedMerchandise, Charges(items, dealGroups[..g], fixedPrice))
    {
      var dealGroup := dealGroups[g];
      assert IsGroupOf(items, dealGroup);
      assert dealGroups[..g + 1][..g] == dealGroups[..g];
      UnitsConcat(AllEntries(dealGroups[..g]), dealGroup.entries);
      var allocations := AllocateFixedDealTotal(GroupTotals(items, dealGroup), fixedPrice * dealGroup.quantity);
      ghost var units, charges := Units(AllEntries(dealGroups[..g])), Charges(items, dealGroups[..g], fixedPrice);
      groupedQuantity, allocatedMerchandise :=
        TallyGroup(dealGroup.entries, allocations, groupedQuantity, allocatedMerchandise, units, charges);
      ChargesNext(items, dealGroups, fixedPrice, g, allocations);
    }
    assert dealGroups[..|dealGroups|] == dealGroups;
  }

  method ApplyFixedDealPricingForDeal(items: seq<PricedLine>, dealId: string, pricing: Pricing)
    returns (repriced: seq<PricedLine>)
    requires pricing.selectionMode.FixedItems? ==> pricing.menuItemIds != []
    ensures AreGroupsOf(items, PricingGroups(LinesOf(items), dealId, pricing))
    ensures repriced == Repriced(items, PricingGroups(LinesOf(items), dealId, pricing), pricing.fixedPrice)
  {
    hide RepricedAt, Charges, Tallies, PricingGroups, AllEntries;
    var dealGroups := PricingGroups(LinesOf(items), dealId, pricing);
    GroupsOfDeal(items, dealId, pricing);
    if dealGroups == [] {
      UnpricedWithoutGroups(items, pricing.fixedPrice);
      return items;
    }
    var groupedQuantity, allocatedMerchandise := TallyGroups(items, dealGroups, pricing.fixedPrice);
    repriced := [];
    for index := 0 to |items|
      invariant |repriced| == index
      invariant forall i :: 0 <= i < index ==> repriced[i] == RepricedAt(items, dealGroups, pricing.fixedPrice, i)
    {
      var line := RepriceLine(items, dealGroups, pricing.fixedPrice, index, groupedQuantity, allocatedMerchandise);
      repriced := repriced + [line];
    }
  }

  method RepriceLine(items: seq<PricedLine>, ghost dealGroups: seq<Group>, ghost fixedPrice: int, index: nat,
    groupedQuantity: map<nat, int>, allocatedMerchandise: map<nat, int>) returns (line: PricedLine)
    requires AreGroupsOf(items, dealGroups) && index < |items|
    requires Tallies(groupedQuantity, Units(AllEntries(dealGroups)))
    requires Tallies(allocatedMerchandise, Charges(items, dealGroups, fixedPrice))
    ensures line == RepricedAt(items, dealGroups, fixedPrice, index)
  {
    LookupUnits(groupedQuantity, AllEntries(dealGroups), index);
    ChargedTogether(items, dealGroups, fixedPrice, index);
    var grouped := Lookup(groupedQuantity, index);
    if grouped == 0 || index !in allocatedMerchandise {
      line := items[index];
    } else {
      line := RepricedLine(items[index], grouped, allocatedMerchandise[index]);
    }
  }

  lemma {:induction false} UnpricedWithoutGroups(items: seq<PricedLine>, fixedPrice: int)
    ensures Repriced(items, [], fixedPrice) == items
  {}

  // ----- Conservation -----

  ghost function GroupPrices(groups: seq<Group>, fixedPrice: int): int {
    if groups == [] then 0
    else GroupPrices(groups[..|groups| - 1], fixedPrice) + fixedPrice * groups[|groups| - 1].quantity
  }

  /** The lines are charged, together, the fixed price of every group. */
  lemma {:induction false} ChargesTotal(items: seq<PricedLine>, groups: seq<Group>, fixedPrice: int)
    requires AreGroupsOf(items, groups)
    ensures PostedTotal(Charges(items, groups, fixedPrice)) == GroupPrices(groups, fixedPrice)
    ensures forall k :: 0 <= k < |Charges(items, groups, fixedPrice)| ==> Charges(items, groups, fixedPrice)[k].index < |items|
  {
    if groups != [] {
      var front, last := groups[..|groups| - 1], groups[|groups| - 1];
      ChargesTotal(items, front, fixedPrice);
      assert IsGroupOf(items, last);
      OneGroupCharges(items, last, fixedPrice);
      hide GroupCharges, IsGroupOf, PostedTotal;
      PostedConcat(Charges(items, front, fixedPrice), GroupCharges(items, last, fixedPrice), 0);
    }
  }

  lemma {:induction false} OneGroupCharges(items: seq<PricedLine>, group: Group, fixedPrice: int)
    requires IsGroupOf(items, group)
    ensures PostedTotal(GroupCharges(items, group, fixedPrice)) == fixedPrice * group.quantity
    ensures forall k :: 0 <= k < |GroupCharges(items, group, fixedPrice)| ==> GroupCharges(items, group, fixedPrice)[k].index < |items|
  {
    hide PostedTotal, Shares;
    var totals := GroupTotals(items, group);
    SharesSum(totals, fixedPrice * group.quantity);
    AmountsTotal(GroupCharges(items, group, fixedPrice), Shares(totals, fixedPrice * group.quantity));
  }

  lemma {:induction false} AmountsTotal(ps: seq<Posting>, amounts: seq<int>)
    requires |ps| == |amounts|
    requires forall k :: 0 <= k < |ps| ==> ps[k].amount == amounts[k]
    ensures PostedTotal(ps) == Sum(amounts)
  {
    if ps != [] {
      AmountsTotal(ps[..|ps| - 1], amounts[..|ps| - 1]);
    }
  }

  /** The line's total was built as a whole number of cents per unit. */
  predicate HasUnitPrice(item: PricedLine) {
    item.line.quantity > 0 && Merchandise(item) % item.line.quantity == 0
  }

  function UnitCents(item: PricedLine): int
    requires item.line.quantity > 0
  {
    Merchandise(item) / item.line.quantity
  }

  ghost function Grouped(groups: seq<Group>, i: nat): bool { Taken(groups, i) > 0 }

  /** Merchandise of the lines that gave units to a group. */
  ghost function GroupedMerchandise(items: seq<PricedLine>, repriced: seq<PricedLine>, groups: seq<Group>): nat -> int
    requires |repriced| == |items|
  {
    (i: nat) => if i < |items| && Grouped(groups, i) then Merchandise(repriced[i]) else 0
  }

  /** Raw price of the units that a line with grouped units keeps for itself. */
  ghost function UngroupedMerchandise(items: seq<PricedLine>, groups: seq<Group>): nat -> int {
    (i: nat) =>
      if i < |items| && Grouped(groups, i) && items[i].line.quantity > 0
      then UnitCents(items[i]) * Max(items[i].line.quantity - Taken(groups, i), 0) else 0
  }

  lemma {:induction false} UnitExact(item: PricedLine, units: nat)
    requires HasUnitPrice(item)
    ensures MerchandiseUnit(item) * units as real == (UnitCents(item) * units) as real
  {
    var q, m := item.line.quantity, Merchandise(item);
    assert m == UnitCents(item) * q;
    Quotient(UnitCents(item), q);
  }

  lemma {:induction false} Quotient(u: int, q: int)
    requires q > 0
    ensures (u * q) as real / q as real == u as real
  {}

  lemma {:induction false} LineConserved(item: PricedLine, grouped: nat, charged: int)
    requires HasUnitPrice(item)
    ensures Merchandise(RepricedLine(item, grouped, charged))
            == charged + UnitCents(item) * Max(item.line.quantity - grouped, 0)
  {
    var ungrouped := Max(item.line.quantity - grouped, 0);
    UnitExact(item, ungrouped);
    RoundCentsWhole(charged + UnitCents(item) * ungrouped + item.modifiersTotal * item.line.quantity + item.depositTotal);
  }

  /** Repricing conserves money. Over the lines with grouped units, merchandise comes to the fixed price of every
      group plus the raw price of the units left out; a line without grouped units is not changed. */
  lemma {:induction false} PricingConserves(items: seq<PricedLine>, groups: seq<Group>, fixedPrice: int)
    requires AreGroupsOf(items, groups)
    requires forall i: nat :: i < |items| && Grouped(groups, i) ==> HasUnitPrice(items[i])
    ensures var repriced := Repriced(items, groups, fixedPrice);
      && Total(|items|, GroupedMerchandise(items, repriced, groups))
         == GroupPrices(groups, fixedPrice) + Total(|items|, UngroupedMerchandise(items, groups))
      && forall i: nat :: i < |items| && !Grouped(groups, i) ==> repriced[i] == items[i]
  {
    var repriced, charges := Repriced(items, groups, fixedPrice), Charges(items, groups, fixedPrice);
    ChargesTotal(items, groups, fixedPrice);
    PostedExchange(charges, |items|);
    forall i: nat | i < |items|
      ensures GroupedMerchandise(items, repriced, groups)(i) == Posted(charges, i) + UngroupedMerchandise(items, groups)(i)
      ensures !Grouped(groups, i) ==> repriced[i] == items[i]
    {
      LineShare(items, groups, fixedPrice, i);
    }
    TotalSplit(|items|, (i: nat) => Posted(charges, i), UngroupedMerchandise(items, groups),
      GroupedMerchandise(items, repriced, groups));
  }

  lemma {:induction false} LineShare(items: seq<PricedLine>, groups: seq<Group>, fixedPrice: int, i: nat)
    requires AreGroupsOf(items, groups) && i < |items|
    requires Grouped(groups, i) ==> HasUnitPrice(items[i])
    ensures var repriced := RepricedAt(items, groups, fixedPrice, i);
      if Grouped(groups, i)
      then Merchandise(repriced) == Posted(Charges(items, groups, fixedPrice), i) + UngroupedMerchandise(items, groups)(i)
      else repriced == items[i] && Posted(Charges(items, groups, fixedPrice), i) == 0
  {
    hide RepricedLine, Charges, UnitCents;
    if Grouped(groups, i) {
      LineConserved(items[i], Taken(groups, i), Posted(Charges(items, groups, fixedPrice), i));
    } else {
      UntouchedWhenUngrouped(items, groups, i);
      ChargedTogether(items, groups, fixedPrice, i);
      PostedUntouched(Charges(items, groups, fixedPrice), i);
    }
  }

  lemma {:induction false} UntouchedWhenUngrouped(items: seq<PricedLine>, groups: seq<Group>, i: nat)
    requires AreGroupsOf(items, groups)
    ensures Grouped(groups, i) <==> Touches(Units(AllEntries(groups)), i)
  {
    if groups != [] {
      var front, last := groups[..|groups| - 1], groups[|groups| - 1];
      UntouchedWhenUngrouped(items, front, i);
      assert IsGroupOf(items, last);
      UnitsConcat(AllEntries(front), last.entries);
      TouchesConcat(Units(AllEntries(front)), Units(last.entries), i);
      UnitsInConcat(AllEntries(front), last.entries, Line(i));
      PositiveUnits(last.entries, i);
    }
  }

  lemma {:induction false} PositiveUnits(entries: seq<Entry>, i: nat)
    requires forall k :: 0 <= k < |entries| ==> entries[k].quantity > 0
    ensures UnitsIn(entries, Line(i)) > 0 <==> Touches(Units(entries), i)
  {
    if entries != [] {
      var front := entries[..|entries| - 1];
      PositiveUnits(front, i);
      PostedSnoc(Units(front), Units(entries)[|entries| - 1]);
      assert Units(entries) == Units(front) + [Units(entries)[|entries| - 1]];
    }
  }

  /** The whole operation on a deal: the cart's change is what the groups and the leftover units account for. */
  lemma {:induction false} DealPricingConserves(items: seq<PricedLine>, dealId: string, pricing: Pricing)
    requires pricing.selectionMode.FixedItems? ==> pricing.menuItemIds != []
    requires forall i :: 0 <= i < |items| && items[i].line.dealId == Some(dealId) && items[i].line.quantity > 0 ==>
      HasUnitPrice(items[i])
    ensures var groups := PricingGroups(LinesOf(items), dealId, pricing);
      && AreGroupsOf(items, groups)
      && var repriced := Repriced(items, groups, pricing.fixedPrice);
      && Total(|items|, GroupedMerchandise(items, repriced, groups))
         == GroupPrices(groups, pricing.fixedPrice) + Total(|items|, UngroupedMerchandise(items, groups))
      && (forall i :: 0 <= i < |items| && items[i].line.dealId != Some(dealId) ==> repriced[i] == items[i])
  {
    var groups := PricingGroups(LinesOf(items), dealId, pricing);
    GroupsOfDeal(items, dealId, pricing);
    PricingGroupsShape(LinesOf(items), dealId, pricing);
    GroupedAllInDeal(LinesOf(items), dealId, groups);
    PricingConserves(items, groups, pricing.fixedPrice);
  }

  lemma {:induction false} GroupedAllInDeal(lines: seq<DealLine>, dealId: string, groups: seq<Group>)
    requires AreDealGroups(lines, dealId, groups)
    ensures forall i: nat :: Grouped(groups, i) ==> OfDeal(lines, dealId)(i)
  {
    forall i: nat
      ensures Grouped(groups, i) ==> OfDeal(lines, dealId)(i)
    {
      GroupedInDeal(lines, dealId, groups, i);
    }
  }

  lemma {:induction false} GroupedInDeal(lines: seq<DealLine>, dealId: string, groups: seq<Group>, i: nat)
    requires AreDealGroups(lines, dealId, groups)
    ensures Grouped(groups, i) ==> OfDeal(lines, dealId)(i)
  {
    if groups != [] && !OfDeal(lines, dealId)(i) {
      var front, last := groups[..|groups| - 1], groups[|groups| - 1];
      GroupedInDeal(lines, dealId, front, i);
      assert IsDealGroup(lines, dealId, last);
      UnitsInConcat(AllEntries(front), last.entries, Line(i));
      UnitsInNone(last.entries, Line(i));
    }
  }
}
