/** A line whose units go to two groups of a flexible deal: its cards do not show the fixed price. */
module SplitLines {
  import opened Prelude
  import opened Allocation
  import opened DealGroups
  import opened DealGroupLaws
  import opened DealPricing
  import opened DealDisplay
  import opened DealDisplayLaws
  import opened ShownPrices

  /** Three units at 10.00. */
  function Three(): PricedLine { PricedLine("x", DealLine(Some("d"), "a", [], 3), 1000, 1000, 0, 0, 0, 3000) }

  /** One unit at 30.00. */
  function One(): PricedLine { PricedLine("y", DealLine(Some("d"), "b", [], 1), 3000, 3000, 0, 0, 0, 3000) }

  /** Any two of the two items for 12.00. */
  function AnyTwo(): CartDeal { CartDeal("d", Pricing(FlexibleItems, ["a", "b"], [], Some(2), 1200)) }

  function Pairs(): seq<Group> { [Group([Entry(0, 2)], 1), Group([Entry(0, 1), Entry(1, 1)], 1)] }

  // ----- The groups -----

  lemma {:induction false} BothEligible()
    ensures EligibleIndexes(LinesOf([Three(), One()]), "d", AnyTwo().pricing) == [0, 1]
  {
    var lines, both: seq<nat> := LinesOf([Three(), One()]), [0, 1];
    assert Indexes(2) == both;
    assert lines[0].menuItemId in AnyTwo().pricing.menuItemIds && lines[1].menuItemId in AnyTwo().pricing.menuItemIds;
    FilterAll(both, EligibleAt(lines, "d", AnyTwo().pricing));
  }

  lemma {:induction false} FourUnits(lines: seq<DealLine>)
    requires |lines| == 2 && lines[0].quantity == 3 && lines[1].quantity == 1
    ensures UnitsFor(lines, [0, 1]) == [0, 0, 0, 1]
  {
    var both: seq<nat> := [0, 1];
    assert both[..1] == [0] && both[..1][..0] == [];
    assert UnitsFor(lines, both[..1]) == [] + seq(3, _ => 0);
  }

  lemma {:induction false} CompactPairs()
    ensures Compact([0, 0], 2) == [Entry(0, 2)] && Compact([0, 1], 2) == [Entry(0, 1), Entry(1, 1)]
  {
    CountPair(0, 0, 0);
    CountPair(0, 0, 1);
    CountPair(0, 1, 0);
    CountPair(0, 1, 1);
    hide Count;
    assert Compact([0, 0], 1) == [] + [Entry(0, 2)];
    assert Compact([0, 1], 1) == [] + [Entry(0, 1)];
  }

  lemma {:induction false} CountPair(x: nat, y: nat, i: nat)
    ensures Count([x, y], i) == (if x == i then 1 else 0) + (if y == i then 1 else 0)
  {
    assert [x, y] == [x] + [y] && [x] == [] + [x];
    CountSnoc([], x, i);
    CountSnoc([x], y, i);
    assert Count([], i) == 0;
  }

  lemma {:induction false} UnitsPaired(lines: seq<DealLine>)
    requires |lines| == 2
    ensures QuantityGroups(lines, [0, 0, 0, 1], 2) == Pairs()
  {
    var units: seq<nat> := [0, 0, 0, 1];
    assert Times(0, 2) == 0 && Times(1, 2) == 2 && Times(2, 2) == 4;
    TimesProduct(GroupCount(4, 2), 2);
    assert Slice(units, 0, 2) == [0, 0] && Slice(units, 1, 2) == [0, 1];
    CompactPairs();
    hide Compact, Slice;
  }

  lemma {:induction false} NoWholePair(lines: seq<DealLine>)
    requires |lines| == 2 && lines[0].quantity == 3 && lines[1].quantity == 1
    ensures AllIn(SizedLists([0, 1], 2), LessThan(2)) && LineGroupsOf(lines, SizedLists([0, 1], 2)) == []
  {
    var both: seq<nat> := [0, 1];
    assert Times(0, 2) == 0 && Times(1, 2) == 2;
    TimesProduct(GroupCount(2, 2), 2);
    assert Slice(both, 0, 2) == both;
    assert SizedLists(both, 2) == [both];
    AllLess(both, 2);
    assert [both][..0] == [];
    assert lines[both[1]].quantity != lines[both[0]].quantity;
    assert LineGroup(lines, both) == [];
  }

  /** Three units of one item and one of another make two pairs, priced and shown; no pair of whole lines is even. */
  lemma {:induction false} PairsFormed()
    ensures var items, deal := [Three(), One()], AnyTwo();
      && PricingGroups(LinesOf(items), deal.dealId, deal.pricing) == Pairs()
      && GroupsOf(items, deal) == Pairs()
  {
    var lines, pricing := LinesOf([Three(), One()]), AnyTwo().pricing;
    BothEligible();
    FourUnits(lines);
    UnitsPaired(lines);
    NoWholePair(lines);
    assert LimitedScopes(pricing) == [];
    hide EligibleIndexes, LimitedScopes, UnitsFor, QuantityGroups, SizedLists, LineGroupsOf;
    assert FlexibleLineGroups(lines, [0, 1], pricing) == [];
    assert FlexibleGroups(lines, "d", pricing) == Pairs();
  }

  // ----- The prices -----

  lemma {:induction false} PairsOf()
    ensures AreGroupsOf([Three(), One()], Pairs())
  {
    var items, groups := [Three(), One()], Pairs();
    forall g | 0 <= g < |groups|
      ensures IsGroupOf(items, groups[g])
    {}
  }

  lemma {:induction false} FirstShares()
    ensures Shares([2000.0], 1200) == [1200]
  {
    assert [2000.0][..0] == [];
    assert ExactShares([2000.0], 1200)[..0] == [];
    assert RoundAll([]) == [];
    assert Sum([]) == 0;
  }

  lemma {:induction false} SecondShares()
    ensures Shares([1000.0, 3000.0], 1200) == [300, 900]
  {
    var totals := [1000.0, 3000.0];
    assert totals[..1] == [1000.0] && totals[..1][..0] == [];
    assert SumReal(totals[..1]) == 1000.0 && SumReal(totals) == 4000.0;
    assert ExactShares(totals, 1200)[0] == 300.0;
    OneRounded(ExactShares(totals, 1200)[..1]);
    SumOne(300);
  }

  lemma {:induction false} OneRounded(xs: seq<real>)
    requires xs == [300.0]
    ensures RoundAll(xs) == [300]
  {
    RoundCentsWhole(300);
    assert xs[..0] == [] && RoundAll([]) == [];
  }

  lemma {:induction false} SumOne(x: int)
    ensures Sum([x]) == x
  {
    assert [x][..0] == [] && Sum([]) == 0;
  }

  lemma {:induction false} UnitPrice(item: PricedLine, cents: int)
    requires item.line.quantity > 0 && Merchandise(item) == cents * item.line.quantity
    ensures MerchandiseUnit(item) == cents as real
  {
    hide Merchandise;
    assert Merchandise(item) as real == cents as real * item.line.quantity as real;
  }

  lemma {:induction false} UnitPrices()
    ensures MerchandiseUnit(Three()) == 1000.0 && MerchandiseUnit(One()) == 3000.0
  {
    hide MerchandiseUnit;
    UnitPrice(Three(), 1000);
    UnitPrice(One(), 3000);
  }

  lemma {:induction false} PairCharges()
    ensures IsGroupOf([Three(), One()], Pairs()[0]) && IsGroupOf([Three(), One()], Pairs()[1])
    ensures GroupCharges([Three(), One()], Pairs()[0], 1200) == [Posting(0, 1200)]
    ensures GroupCharges([Three(), One()], Pairs()[1], 1200) == [Posting(0, 300), Posting(1, 900)]
  {
    var items := [Three(), One()];
    UnitPrices();
    FirstShares();
    SecondShares();
    hide Shares, MerchandiseUnit;
    assert GroupTotals(items, Pairs()[0]) == [2000.0];
    assert GroupTotals(items, Pairs()[1]) == [1000.0, 3000.0];
  }

  lemma {:induction false} AllCharges()
    requires AreGroupsOf([Three(), One()], Pairs())
    ensures Charges([Three(), One()], Pairs(), 1200) == [Posting(0, 1200), Posting(0, 300), Posting(1, 900)]
  {
    var items, groups := [Three(), One()], Pairs();
    PairCharges();
    hide GroupCharges, IsGroupOf;
    assert groups[..1] == [groups[0]] && groups[..1][..0] == [];
    assert Charges(items, groups[..1], 1200) == [] + [Posting(0, 1200)];
  }

  lemma {:induction false} PostedThree()
    ensures var ps := [Posting(0, 1200), Posting(0, 300), Posting(1, 900)]; Posted(ps, 0) == 1500 && Posted(ps, 1) == 900
  {
    var ps := [Posting(0, 1200), Posting(0, 300), Posting(1, 900)];
    assert ps[..2] == [Posting(0, 1200), Posting(0, 300)] && ps[..2][..1] == [Posting(0, 1200)];
    assert ps[..2][..1][..0] == [];
    assert Posted(ps[..2][..1], 0) == 1200 && Posted(ps[..2][..1], 1) == 0;
    assert Posted(ps[..2], 0) == 1500 && Posted(ps[..2], 1) == 0;
  }

  lemma {:induction false} AllPairEntries()
    ensures AllEntries(Pairs()) == [Entry(0, 2), Entry(0, 1), Entry(1, 1)]
    ensures AllEntries(Pairs()[..0]) == [] && AllEntries(Pairs()[..1]) == [Entry(0, 2)]
  {
    var groups := Pairs();
    assert groups[..1] == [groups[0]] && groups[..1][..0] == [] && groups[..0] == [];
    assert AllEntries(groups[..1]) == [] + [Entry(0, 2)];
  }

  lemma {:induction false} PairUnits()
    ensures var all := [Entry(0, 2), Entry(0, 1), Entry(1, 1)];
      UnitsIn(all, Line(0)) == 3 && UnitsIn(all, Line(1)) == 1
  {
    var all := [Entry(0, 2), Entry(0, 1), Entry(1, 1)];
    assert all[..2] == [Entry(0, 2), Entry(0, 1)] && all[..2][..1] == [Entry(0, 2)] && all[..2][..1][..0] == [];
    assert UnitsIn(all[..2][..1], Line(0)) == 2 && UnitsIn(all[..2][..1], Line(1)) == 0;
    assert UnitsIn(all[..2], Line(0)) == 3 && UnitsIn(all[..2], Line(1)) == 0;
  }

  /** The first line comes to 15.00 and the second to 9.00. */
  lemma {:induction false} PairsPriced()
    requires AreGroupsOf([Three(), One()], Pairs())
    ensures var priced := Repriced([Three(), One()], Pairs(), 1200);
      && priced[0] == Three().(unitPrice := 500, unitPriceWithModifiers := 500, lineTotal := 1500)
      && priced[1] == One().(unitPrice := 900, unitPriceWithModifiers := 900, lineTotal := 900)
  {
    AllCharges();
    PostedThree();
    AllPairEntries();
    PairUnits();
    BothRepriced();
    hide Charges, Posted, AllEntries, UnitsIn, Repriced, RepricedLine, AreGroupsOf, Pairs;
    RepricedOnce([Three(), One()], Pairs(), 1200, 0);
    RepricedOnce([Three(), One()], Pairs(), 1200, 1);
  }

  /** A line grouped whole, without modifiers and deposits, costs what it is charged. */
  lemma {:induction false} WholeRepriced(item: PricedLine, cents: int)
    requires item.line.quantity > 0 && item.modifiersTotal == 0 && item.depositTotal == 0
    ensures RepricedLine(item, item.line.quantity, cents * item.line.quantity)
         == item.(unitPrice := cents, unitPriceWithModifiers := cents, lineTotal := cents * item.line.quantity)
  {
    var charged := cents * item.line.quantity;
    hide RoundCents, MerchandiseUnit;
    RoundCentsWhole(charged);
    RoundCentsWhole(cents);
    assert MerchandiseUnit(item) * 0.0 == 0.0;
    assert charged as real == cents as real * item.line.quantity as real;
    assert charged as real / item.line.quantity as real == cents as real;
    assert item.modifiersTotal * item.line.quantity == 0;
  }

  lemma {:induction false} BothRepriced()
    ensures RepricedLine(Three(), 3, 1500) == Three().(unitPrice := 500, unitPriceWithModifiers := 500, lineTotal := 1500)
    ensures RepricedLine(One(), 1, 900) == One().(unitPrice := 900, unitPriceWithModifiers := 900, lineTotal := 900)
  {
    hide RepricedLine;
    WholeRepriced(Three(), 500);
    WholeRepriced(One(), 900);
  }

  // ----- The cards -----

  /** The first two entries of the first line: two thirds of 15.00, and the rest. */
  lemma {:induction false} PairSplits(priced: seq<PricedLine>, all: seq<Entry>)
    requires |priced| == 2 && priced[0].lineTotal == 1500 && priced[0].line.quantity == 3
    requires priced[1].lineTotal == 900 && priced[1].line.quantity == 1
    requires all == [Entry(0, 2), Entry(0, 1), Entry(1, 1)]
    ensures AreEntriesOf(priced, all)
    ensures Splits(priced, all, 3) == [Posting(0, 1000), Posting(0, 500), Posting(1, 900)]
    ensures Splits(priced, all, 1) == [Posting(0, 1000)] && Splits(priced, all, 2) == [Posting(0, 1000), Posting(0, 500)]
  {
    PairUnits();
    TwoThirds(priced[0]);
    assert all[..0] == [] && all[..1] == [Entry(0, 2)] && all[..2] == [Entry(0, 2), Entry(0, 1)];
    assert all[..2][..1] == all[..1] && all[..1][..0] == [];
    assert UnitsIn(all[..0], Line(0)) == 0 && UnitsIn(all[..1], Line(0)) == 2;
    assert UnitsIn(all[..1], Line(1)) == 0 && UnitsIn(all[..2], Line(1)) == 0;
    hide UnitsIn, PartTotal;
    assert Splits(priced, all, 0) == [] && Posted([], 0) == 0;
    assert Splits(priced, all, 1) == [Posting(0, 1000)];
    OnePosted();
    assert Splits(priced, all, 2) == [Posting(0, 1000), Posting(0, 500)];
  }

  lemma {:induction false} OnePosted()
    ensures Posted([Posting(0, 1000)], 0) == 1000
    ensures Posted([Posting(0, 1000), Posting(0, 500)], 1) == 0
  {
    assert [Posting(0, 1000)][..0] == [];
    assert [Posting(0, 1000), Posting(0, 500)][..1] == [Posting(0, 1000)];
  }

  lemma {:induction false} TwoThirds(item: PricedLine)
    requires item.lineTotal == 1500 && item.line.quantity == 3
    ensures PartTotal(item, 2) == 1000
  {
    assert 1500.0 * (2.0 / 3.0) == 1000.0;
    RoundCentsWhole(1000);
  }

  /** Priced at 12.00 each, the two pairs are shown at 10.00 and at 14.00. */
  lemma {:induction false} PairsShown()
    ensures var items, deal := [Three(), One()], AnyTwo();
      && GroupsOf(items, deal) == Pairs() && AreGroupsOf(items, Pairs())
      && var priced := Repriced(items, Pairs(), deal.pricing.fixedPrice);
      && AreGroupsOf(priced, Pairs())
      && TotalOf(Included(priced, Pairs(), 0), MerchandiseOf()) == 1000
      && TotalOf(Included(priced, Pairs(), 1), MerchandiseOf()) == 1400
  {
    var items := [Three(), One()];
    PairsFormed();
    PairsOf();
    PairsPriced();
    RepricedKeeps(items, Pairs(), 1200);
    hide GroupsOf, Repriced, AreGroupsOf, PricingGroups;
    CardsShown(Repriced(items, Pairs(), 1200));
  }

  lemma {:induction false} CardsShown(priced: seq<PricedLine>)
    requires |priced| == 2 && AreGroupsOf(priced, Pairs())
    requires priced[0] == Three().(unitPrice := 500, unitPriceWithModifiers := 500, lineTotal := 1500)
    requires priced[1] == One().(unitPrice := 900, unitPriceWithModifiers := 900, lineTotal := 900)
    ensures TotalOf(Included(priced, Pairs(), 0), MerchandiseOf()) == 1000
    ensures TotalOf(Included(priced, Pairs(), 1), MerchandiseOf()) == 1400
  {
    hide AllEntries, Splits, AreGroupsOf, IncludedRange, TotalOf, Included, AreEntriesOf;
    var all := AllEntries(Pairs());
    AllPairEntries();
    PairSplits(priced, all);
    IncludedIs(priced, Pairs(), 0);
    IncludedIs(priced, Pairs(), 1);
    FirstCard(priced, all);
    SecondCard(priced, all);
  }

  lemma {:induction false} IncludedIs(items: seq<PricedLine>, groups: seq<Group>, g: nat)
    requires AreGroupsOf(items, groups) && g < |groups| && AreEntriesOf(items, AllEntries(groups))
    ensures var start := |AllEntries(groups[..g])|;
      && start + |groups[g].entries| <= |AllEntries(groups)|
      && Included(items, groups, g) == IncludedRange(items, AllEntries(groups), start, start + |groups[g].entries|)
  {
    EntriesUpTo(groups, g);
  }

  lemma {:induction false} SplitAt(priced: seq<PricedLine>, all: seq<Entry>, k: nat)
    requires AreEntriesOf(priced, all) && k < |all|
    ensures NextSplit(priced, all, k, Splits(priced, all, k)) == Splits(priced, all, k + 1)[k]
  {}

  lemma {:induction false} FirstCard(priced: seq<PricedLine>, all: seq<Entry>)
    requires AreEntriesOf(priced, all) && all == [Entry(0, 2), Entry(0, 1), Entry(1, 1)]
    requires Splits(priced, all, 1) == [Posting(0, 1000)]
    requires priced[0].depositAmount == 0 && priced[0].modifiersTotal == 0
    ensures TotalOf(IncludedRange(priced, all, 0, 1), MerchandiseOf()) == 1000
  {
    SplitAt(priced, all, 0);
    hide Splits, NextSplit;
    var line := IncludedAt(priced, all, 0);
    assert IncludedRange(priced, all, 0, 1) == [] + [line];
    MerchandiseOfOne(line);
  }

  lemma {:induction false} MerchandiseOfOne(line: PricedLine)
    ensures TotalOf([line], MerchandiseOf()) == Merchandise(line)
  {
    assert [line][..0] == [];
  }

  lemma {:induction false} SecondCard(priced: seq<PricedLine>, all: seq<Entry>)
    requires AreEntriesOf(priced, all) && all == [Entry(0, 2), Entry(0, 1), Entry(1, 1)]
    requires Splits(priced, all, 2)[1] == Posting(0, 500) && Splits(priced, all, 3)[2] == Posting(1, 900)
    requires priced[0].depositAmount == 0 && priced[0].modifiersTotal == 0
    requires priced[1].depositAmount == 0 && priced[1].modifiersTotal == 0
    ensures TotalOf(IncludedRange(priced, all, 1, 3), MerchandiseOf()) == 1400
  {
    SplitAt(priced, all, 1);
    SplitAt(priced, all, 2);
    hide Splits, NextSplit;
    var first, second := IncludedAt(priced, all, 1), IncludedAt(priced, all, 2);
    assert IncludedRange(priced, all, 1, 2) == [] + [first];
    assert IncludedRange(priced, all, 1, 3) == [first] + [second];
    MerchandiseOfOne(first);
    assert [first, second][..1] == [first];
  }
}
