/** Finding the cart units behind a displayed deal card.
    Models parseCartDealTarget and findCartItemsForDealTarget. */
module DealTargets {
  import opened Prelude
  import opened Strings
  import opened Decimals
  import opened DealGroups
  import opened DealGroupLaws
  import opened DealPricing
  import opened DealDisplay
  import opened DealDisplayLaws

  datatype Target = Target(dealId: string, firstIndex: Option<int>, ordinal: Option<int>)

  predicate AllDigits(s: string) { forall k :: 0 <= k < |s| ==> IsDigit(s[k]) }

  /** Number(s) where it is an integer: a run of digits with or without a sign; the empty string reads as 0. */
  function ReadInteger(s: string): Option<int> {
    if AllDigits(s) then Some(FromDecimal(s))
    else if s[0] == '-' && |s| > 1 && AllDigits(s[1..]) then Some(0 - FromDecimal(s[1..]))
    else if s[0] == '+' && |s| > 1 && AllDigits(s[1..]) then Some(FromDecimal(s[1..]))
    else None
  }

  function ParseTarget(id: string): Target {
    var parts := Split(id, ':');
    if parts[0] != "deal" || |parts| < 2 then Target(id, None, None)
    else Target(parts[1],
      if |parts| > 2 then ReadInteger(parts[2]) else None,
      if |parts| > 3 then ReadInteger(parts[3]) else None)
  }

  /** Resolution knows only the primary category of a line. */
  function PrimaryLine(line: DealLine): DealLine {
    line.(categoryIds := if line.categoryIds == [] then [] else [line.categoryIds[0]])
  }

  function PrimaryLines(lines: seq<DealLine>): (primary: seq<DealLine>)
    ensures |primary| == |lines|
    ensures forall i :: 0 <= i < |lines| ==> primary[i] == PrimaryLine(lines[i])
  {
    seq(|lines|, i requires 0 <= i < |lines| => PrimaryLine(lines[i]))
  }

  /** All lines of the deal, whole. */
  function WholeDeal(lines: seq<DealLine>, dealId: string): seq<Entry> {
    if lines == [] then []
    else
      var n := |lines| - 1;
      WholeDeal(lines[..n], dealId) + (if lines[n].dealId == Some(dealId) then [Entry(n, lines[n].quantity)] else [])
  }

  function StartsAt(i: int): Group -> bool {
    (group: Group) => group.entries != [] && group.entries[0].index == i
  }

  /** The lines and units a target stands for; `pricing` is None for a deal with no active price. */
  function FindDealItems(lines: seq<DealLine>, target: Target, pricing: Option<Pricing>): seq<Entry>
    requires pricing.Some? && pricing.value.selectionMode.FixedItems? ==> pricing.value.menuItemIds != []
  {
    if target.firstIndex.None? || pricing.None? then WholeDeal(lines, target.dealId)
    else
      var groups := DisplayGroups(PrimaryLines(lines), target.dealId, pricing.value);
      var matched := Filter(groups, StartsAt(target.firstIndex.value));
      var ordinal := target.ordinal.GetOr(0);
      if 0 <= ordinal < |matched| then matched[ordinal].entries else []
  }

  // ----- Ids -----

  lemma {:induction false} DigitsOnly(n: nat)
    ensures ':' !in ToDecimal(n)
  {}

  lemma {:induction false} FourParts(a: string, b: string, c: string, d: string, sep: char)
    requires sep !in a && sep !in b && sep !in c && sep !in d
    ensures Split(a + [sep] + b + [sep] + c + [sep] + d, sep) == [a, b, c, d]
  {
    SplitNothing(a, sep);
    SplitAppend(a, b, sep);
    SplitAppend(a + [sep] + b, c, sep);
    SplitAppend(a + [sep] + b + [sep] + c, d, sep);
  }

  lemma {:induction false} ReadDecimal(n: nat)
    ensures ReadInteger(ToDecimal(n)) == Some(n)
  {
    DecimalRoundTrip(n);
  }

  /** The id of a card among several reads back as the deal, the first line and the ordinal, exactly when the deal's
      own id has no colon. */
  lemma {:induction false} CardIdParses(dealId: string, groupCount: nat, firstIndex: nat, ordinal: nat)
    requires groupCount != 1
    ensures ParseTarget(CardId(dealId, groupCount, firstIndex, ordinal)) == Target(dealId, Some(firstIndex), Some(ordinal))
            <==> ':' !in dealId
  {
    hide ToDecimal, ReadInteger, Split;
    var first, second := ToDecimal(firstIndex), ToDecimal(ordinal);
    var id := CardId(dealId, groupCount, firstIndex, ordinal);
    if ':' !in dealId {
      DigitsOnly(firstIndex);
      DigitsOnly(ordinal);
      FourParts("deal", dealId, first, second, ':');
      assert id == "deal" + [':'] + dealId + [':'] + first + [':'] + second;
      ReadDecimal(firstIndex);
      ReadDecimal(ordinal);
    } else {
      SplitParts(id, ':');
      assert |id| > |dealId|;
    }
  }

  /** The id of a deal's only card names the deal and no group. */
  lemma {:induction false} OnlyCardIdParses(dealId: string, firstIndex: nat, ordinal: nat)
    requires ':' !in dealId
    ensures ParseTarget(CardId(dealId, 1, firstIndex, ordinal)) == Target(dealId, None, None)
  {
    assert CardId(dealId, 1, firstIndex, ordinal) == "deal" + [':'] + dealId;
    SplitNothing("deal", ':');
    SplitAppend("deal", dealId, ':');
  }

  // ----- Regrouping -----

  /** What grouping reads of a line, categories aside. */
  ghost predicate SameItem(a: DealLine, b: DealLine) {
    a.dealId == b.dealId && a.menuItemId == b.menuItemId && a.quantity == b.quantity
  }

  ghost predicate SameItems(xs: seq<DealLine>, ys: seq<DealLine>) {
    |xs| == |ys| && forall i :: 0 <= i < |xs| ==> SameItem(xs[i], ys[i])
  }

  lemma {:induction false} FilterSame<T>(xs: seq<T>, f: T -> bool, g: T -> bool)
    requires forall k :: 0 <= k < |xs| ==> f(xs[k]) == g(xs[k])
    ensures Filter(xs, f) == Filter(xs, g)
  {
    if xs != [] {
      FilterSame(xs[..|xs| - 1], f, g);
    }
  }

  lemma {:induction false} SameItemIndexes(xs: seq<DealLine>, ys: seq<DealLine>, dealId: string, menuItemId: string)
    requires SameItems(xs, ys)
    ensures ItemIndexes(xs, dealId, menuItemId) == ItemIndexes(ys, dealId, menuItemId)
  {
    FilterSame(Indexes(|xs|), ItemAt(xs, dealId, menuItemId), ItemAt(ys, dealId, menuItemId));
  }

  lemma {:induction false} SameItemCount(xs: seq<DealLine>, ys: seq<DealLine>, dealId: string, menuItemIds: seq<string>)
    requires SameItems(xs, ys) && menuItemIds != []
    ensures ItemGroupCount(xs, dealId, menuItemIds) == ItemGroupCount(ys, dealId, menuItemIds)
  {
    hide ItemIndexes;
    SameItemIndexes(xs, ys, dealId, menuItemIds[|menuItemIds| - 1]);
    if |menuItemIds| > 1 {
      SameItemCount(xs, ys, dealId, menuItemIds[..|menuItemIds| - 1]);
    }
  }

  lemma {:induction false} SameLineGroup(xs: seq<DealLine>, ys: seq<DealLine>, list: seq<nat>)
    requires SameItems(xs, ys) && InRange(list, |xs|)
    ensures LineGroup(xs, list) == LineGroup(ys, list)
  {
    assert SingleQuantity(xs, list) == SingleQuantity(ys, list);
  }

  lemma {:induction false} SameLineGroups(xs: seq<DealLine>, ys: seq<DealLine>, lists: seq<seq<nat>>)
    requires SameItems(xs, ys) && AllIn(lists, LessThan(|xs|))
    ensures LineGroupsOf(xs, lists) == LineGroupsOf(ys, lists)
  {
    hide LineGroup;
    if lists != [] {
      SameLineGroups(xs, ys, lists[..|lists| - 1]);
      AllLess(lists[|lists| - 1], |xs|);
      SameLineGroup(xs, ys, lists[|lists| - 1]);
    }
  }

  /** A fixed deal groups by item alone. */
  lemma {:induction false} FixedIgnoresCategories(xs: seq<DealLine>, ys: seq<DealLine>, dealId: string, pricing: Pricing)
    requires SameItems(xs, ys) && pricing.selectionMode.FixedItems? && pricing.menuItemIds != []
    ensures DisplayGroups(xs, dealId, pricing) == DisplayGroups(ys, dealId, pricing)
  {
    hide ItemIndexes, LineGroupsOf;
    var ids := pricing.menuItemIds;
    SameItemCount(xs, ys, dealId, ids);
    forall g | 0 <= g < ItemGroupCount(xs, dealId, ids)
      ensures ItemList(xs, dealId, ids, g) == ItemList(ys, dealId, ids, g)
    {
      forall k | 0 <= k < |ids|
        ensures ItemIndexes(xs, dealId, ids[k]) == ItemIndexes(ys, dealId, ids[k])
      {
        SameItemIndexes(xs, ys, dealId, ids[k]);
      }
    }
    assert ItemLists(xs, dealId, ids) == ItemLists(ys, dealId, ids);
    SameLineGroups(xs, ys, ItemLists(xs, dealId, ids));
  }

  /** For grouping a flexible deal, the lines of the deal are in the same categories of its scopes. */
  ghost predicate SameScopes(xs: seq<DealLine>, ys: seq<DealLine>, dealId: string, pricing: Pricing) {
    && SameItems(xs, ys)
    && forall i, s :: 0 <= i < |xs| && 0 <= s < |pricing.categoryScopes| && xs[i].dealId == Some(dealId) ==>
      (pricing.categoryScopes[s].menuCategoryId in xs[i].categoryIds
       <==> pricing.categoryScopes[s].menuCategoryId in ys[i].categoryIds)
  }

  lemma {:induction false} SameScopeAt(
    xs: seq<DealLine>, ys: seq<DealLine>, dealId: string, pricing: Pricing, scope: Scope, i: nat)
    requires SameScopes(xs, ys, dealId, pricing) && i < |xs| && xs[i].dealId == Some(dealId)
    requires scope in pricing.categoryScopes
    ensures scope.menuCategoryId in xs[i].categoryIds <==> scope.menuCategoryId in ys[i].categoryIds
    ensures MatchesScope(xs[i], scope) <==> MatchesScope(ys[i], scope)
  {
    var s :| 0 <= s < |pricing.categoryScopes| && pricing.categoryScopes[s] == scope;
  }

  lemma {:induction false} SameEligible(xs: seq<DealLine>, ys: seq<DealLine>, dealId: string, pricing: Pricing)
    requires SameScopes(xs, ys, dealId, pricing)
    ensures EligibleIndexes(xs, dealId, pricing) == EligibleIndexes(ys, dealId, pricing)
    ensures forall i :: i in EligibleIndexes(xs, dealId, pricing) ==> i < |xs| && xs[i].dealId == Some(dealId)
  {
    forall i: nat | i < |xs|
      ensures EligibleAt(xs, dealId, pricing)(i) == EligibleAt(ys, dealId, pricing)(i)
    {
      if xs[i].dealId == Some(dealId) {
        forall k | 0 <= k < |pricing.categoryScopes|
          ensures MatchesScope(xs[i], pricing.categoryScopes[k]) <==> MatchesScope(ys[i], pricing.categoryScopes[k])
        {
          SameScopeAt(xs, ys, dealId, pricing, pricing.categoryScopes[k], i);
        }
      }
    }
    FilterSame(Indexes(|xs|), EligibleAt(xs, dealId, pricing), EligibleAt(ys, dealId, pricing));
    FilterMembers(Indexes(|xs|), EligibleAt(xs, dealId, pricing));
  }

  lemma {:induction false} SameScopeIndexes(
    xs: seq<DealLine>, ys: seq<DealLine>, dealId: string, pricing: Pricing, scope: Scope)
    requires SameScopes(xs, ys, dealId, pricing) && scope in pricing.categoryScopes
    ensures ScopeIndexes(xs, dealId, pricing, scope) == ScopeIndexes(ys, dealId, pricing, scope)
    ensures CategoryIndexes(xs, EligibleIndexes(xs, dealId, pricing), scope)
         == CategoryIndexes(ys, EligibleIndexes(ys, dealId, pricing), scope)
  {
    SameEligible(xs, ys, dealId, pricing);
    hide EligibleIndexes, MatchesScope;
    var eligible := EligibleIndexes(xs, dealId, pricing);
    forall k | 0 <= k < |eligible|
      ensures MatchesAt(xs, scope)(eligible[k]) == MatchesAt(ys, scope)(eligible[k])
      ensures InCategory(xs, scope)(eligible[k]) == InCategory(ys, scope)(eligible[k])
    {
      assert eligible[k] in eligible;
      SameScopeAt(xs, ys, dealId, pricing, scope, eligible[k]);
    }
    FilterSame(eligible, MatchesAt(xs, scope), MatchesAt(ys, scope));
    FilterSame(eligible, InCategory(xs, scope), InCategory(ys, scope));
  }

  lemma {:induction false} SameUnits(xs: seq<DealLine>, ys: seq<DealLine>, indexes: seq<nat>)
    requires SameItems(xs, ys) && InRange(indexes, |xs|)
    ensures UnitsFor(xs, indexes) == UnitsFor(ys, indexes)
  {
    if indexes != [] {
      SameUnits(xs, ys, indexes[..|indexes| - 1]);
    }
  }

  lemma {:induction false} SameUnitGroups(xs: seq<DealLine>, ys: seq<DealLine>, dealId: string, pricing: Pricing)
    requires SameScopes(xs, ys, dealId, pricing)
    ensures FlexibleGroups(xs, dealId, pricing) == FlexibleGroups(ys, dealId, pricing)
  {
    hide EligibleIndexes, ScopeIndexes, LimitedScopes, UnitsFor, CategoryGroup, QuantityGroup;
    var scopes := LimitedScopes(pricing);
    SameEligible(xs, ys, dealId, pricing);
    SameUnits(xs, ys, EligibleIndexes(xs, dealId, pricing));
    forall s | 0 <= s < |scopes|
      ensures ScopeUnits(xs, dealId, pricing, scopes[s]) == ScopeUnits(ys, dealId, pricing, scopes[s])
    {
      SameScopeIndexes(xs, ys, dealId, pricing, scopes[s]);
      SameUnits(xs, ys, ScopeIndexes(xs, dealId, pricing, scopes[s]));
    }
    assert UnitsByScope(xs, dealId, pricing, scopes) == UnitsByScope(ys, dealId, pricing, scopes);
    SameCategoryGroups(xs, ys, UnitsByScope(xs, dealId, pricing, scopes), scopes);
    SameQuantityGroups(xs, ys, UnitsFor(xs, EligibleIndexes(xs, dealId, pricing)), pricing.requiredQuantity.GetOr(0));
  }

  /** Units are grouped alike in carts with as many lines. */
  lemma {:induction false} SameCategoryGroups(
    xs: seq<DealLine>, ys: seq<DealLine>, units: seq<seq<nat>>, scopes: seq<Scope>)
    requires |xs| == |ys| && |units| == |scopes| && Limited(scopes)
    ensures scopes != [] ==> CategoryGroups(xs, units, scopes) == CategoryGroups(ys, units, scopes)
  {
    hide GroupUnits, Compact;
  }

  lemma {:induction false} SameQuantityGroups(xs: seq<DealLine>, ys: seq<DealLine>, units: seq<nat>, size: int)
    requires |xs| == |ys|
    ensures size > 0 ==> QuantityGroups(xs, units, size) == QuantityGroups(ys, units, size)
  {
    hide Compact;
  }

  lemma {:induction false} SameFlexibleLines(xs: seq<DealLine>, ys: seq<DealLine>, dealId: string, pricing: Pricing)
    requires SameScopes(xs, ys, dealId, pricing)
    ensures FlexibleLineGroups(xs, EligibleIndexes(xs, dealId, pricing), pricing)
         == FlexibleLineGroups(ys, EligibleIndexes(ys, dealId, pricing), pricing)
  {
    hide EligibleIndexes, CategoryIndexes, LimitedScopes, ScopedLists, SizedLists, LineGroupsOf;
    var eligible, scopes := EligibleIndexes(xs, dealId, pricing), LimitedScopes(pricing);
    SameEligible(xs, ys, dealId, pricing);
    if eligible != [] && scopes != [] {
      var indexes := IndexesByScope(xs, eligible, scopes);
      forall s | 0 <= s < |scopes|
        ensures CategoryIndexes(xs, eligible, scopes[s]) == CategoryIndexes(ys, eligible, scopes[s])
      {
        SameScopeIndexes(xs, ys, dealId, pricing, scopes[s]);
      }
      assert indexes == IndexesByScope(ys, eligible, scopes);
      ScopedListsKeep(indexes, scopes, LessThan(|xs|));
      SameLineGroups(xs, ys, ScopedLists(indexes, scopes));
    } else if eligible != [] && pricing.requiredQuantity.GetOr(0) >= 1 {
      var size := pricing.requiredQuantity.value;
      AllLess(eligible, |xs|);
      SizedListsKeep(eligible, size, LessThan(|xs|));
      SameLineGroups(xs, ys, SizedLists(eligible, size));
    }
  }

  /** Resolution regroups as the display did: for a fixed deal always, for a flexible one when its scopes ask for no line
      of the deal by a category other than the line's primary one. */
  ghost predicate Regroups(lines: seq<DealLine>, dealId: string, pricing: Pricing) {
    pricing.selectionMode.FlexibleItems? ==> SameScopes(lines, PrimaryLines(lines), dealId, pricing)
  }

  lemma {:induction false} SameGroups(lines: seq<DealLine>, dealId: string, pricing: Pricing)
    requires pricing.selectionMode.FixedItems? ==> pricing.menuItemIds != []
    requires Regroups(lines, dealId, pricing)
    ensures DisplayGroups(PrimaryLines(lines), dealId, pricing) == DisplayGroups(lines, dealId, pricing)
  {
    var primary := PrimaryLines(lines);
    if pricing.selectionMode.FixedItems? {
      hide DisplayGroups;
      FixedIgnoresCategories(primary, lines, dealId, pricing);
    } else {
      hide FlexibleLineGroups, FlexibleGroups, SameScopes;
      SameFlexibleLines(lines, primary, dealId, pricing);
      SameUnitGroups(lines, primary, dealId, pricing);
    }
  }

  // ----- Ordinals -----

  lemma {:induction false} NthMatch<T>(xs: seq<T>, keep: T -> bool, n: nat)
    requires n < |xs| && keep(xs[n])
    ensures |Filter(xs[..n], keep)| < |Filter(xs, keep)|
    ensures Filter(xs, keep)[|Filter(xs[..n], keep)|] == xs[n]
  {
    var front := xs[..|xs| - 1];
    if n < |front| {
      NthMatch(front, keep, n);
      assert front[..n] == xs[..n];
    } else {
      assert front == xs[..n];
    }
  }

  /** How many cards a deal has shown at a line before its n-th group. */
  lemma {:induction false} CardsBefore(
    items: seq<PricedLine>, deal: CartDeal, groups: seq<Group>, n: nat, earlier: seq<Slot>, i: nat)
    requires AreGroupsOf(items, groups) && n <= |groups|
    ensures |CardsAt(DealSlots(items, deal, groups, n, earlier), i)| == |CardsAt(earlier, i)| + |Filter(groups[..n], StartsAt(i))|
  {
    hide MakeCard, Included;
    if n > 0 {
      CardsBefore(items, deal, groups, n - 1, earlier, i);
      assert groups[..n][..n - 1] == groups[..n - 1];
      assert IsGroupOf(items, groups[n - 1]);
      var before := DealSlots(items, deal, groups, n - 1, earlier);
      var slots := DealSlots(items, deal, groups, n, earlier);
      assert slots == before + [slots[|slots| - 1]];
      CardsAtSnoc(before, slots[|slots| - 1], i);
    }
  }

  /** Other deals show no card at a line of this one. */
  lemma {:induction false} NoEarlierCard(items: seq<PricedLine>, deals: seq<CartDeal>, i: nat)
    requires ArePriceable(deals) && i < |items|
    requires forall d :: 0 <= d < |deals| ==> items[i].line.dealId != Some(deals[d].dealId)
    ensures CardsAt(CartSlots(items, deals), i) == []
  {
    hide GroupsOf;
    if deals != [] {
      var front, last := deals[..|deals| - 1], deals[|deals| - 1];
      NoEarlierCard(items, front, i);
      var groups := GroupsOf(items, last);
      CardsBefore(items, last, groups, |groups|, CartSlots(items, front), i);
      NotStartedHere(items, last, i);
      assert groups[..|groups|] == groups;
    }
  }

  lemma {:induction false} NotStartedHere(items: seq<PricedLine>, deal: CartDeal, i: nat)
    requires IsPriceable(deal) && i < |items| && items[i].line.dealId != Some(deal.dealId)
    ensures Filter(GroupsOf(items, deal), StartsAt(i)) == []
  {
    var groups := GroupsOf(items, deal);
    PricingGroupsShape(LinesOf(items), deal.dealId, deal.pricing);
    forall g | 0 <= g < |groups|
      ensures !StartsAt(i)(groups[g])
    {
      assert IsDealGroup(LinesOf(items), deal.dealId, groups[g]);
    }
    FilterNone(groups, StartsAt(i));
  }

  /** The card shown for group g of a cart's deal. */
  ghost function CardOf(items: seq<PricedLine>, deals: seq<CartDeal>, d: nat, g: nat): Slot
    requires ArePriceable(deals) && d < |deals| && g < |GroupsOf(items, deals[d])|
  {
    var groups, earlier := GroupsOf(items, deals[d]), CartSlots(items, deals[..d]);
    DealSlotsCount(items, deals[d], groups, g + 1, earlier);
    DealSlots(items, deals[d], groups, g + 1, earlier)[|earlier| + g]
  }

  lemma {:induction false} DealSlotsCount(items: seq<PricedLine>, deal: CartDeal, groups: seq<Group>, n: nat, earlier: seq<Slot>)
    requires AreGroupsOf(items, groups) && n <= |groups|
    ensures |DealSlots(items, deal, groups, n, earlier)| == |earlier| + n
  {
    if n > 0 {
      DealSlotsCount(items, deal, groups, n - 1, earlier);
    }
  }

  /** A card's id numbers it among the deal's groups that begin at the same line. */
  lemma {:induction false} CardOfId(items: seq<PricedLine>, deals: seq<CartDeal>, d: nat, g: nat)
    requires ArePriceable(deals) && DistinctDeals(deals) && d < |deals| && g < |GroupsOf(items, deals[d])|
    ensures var groups := GroupsOf(items, deals[d]);
      && groups[g].entries != []
      && CardOf(items, deals, d, g).card.id
         == CardId(deals[d].dealId, |groups|, groups[g].entries[0].index, Ordinal(groups, g))
  {
    hide Included;
    var deal, groups, earlier := deals[d], GroupsOf(items, deals[d]), CartSlots(items, deals[..d]);
    assert IsGroupOf(items, groups[g]);
    FirstLineInDeal(items, deal, g);
    var first := groups[g].entries[0].index;
    assert forall e :: 0 <= e < d ==> deals[..d][e].dealId != deal.dealId;
    NoEarlierCard(items, deals[..d], first);
    CardsBefore(items, deal, groups, g, earlier, first);
    DealSlotsCount(items, deal, groups, g, earlier);
  }

  /** How many groups before group g begin at its line. */
  ghost function Ordinal(groups: seq<Group>, g: nat): nat
    requires g < |groups| && groups[g].entries != []
  {
    |Filter(groups[..g], StartsAt(groups[g].entries[0].index))|
  }

  /** A displayed card's id resolves to the card's own lines and units, when its deal shows several cards. */
  lemma {:induction false} CardResolves(items: seq<PricedLine>, deals: seq<CartDeal>, d: nat, g: nat)
    requires ArePriceable(deals) && DistinctDeals(deals) && d < |deals|
    requires |GroupsOf(items, deals[d])| >= 2 && g < |GroupsOf(items, deals[d])|
    requires ':' !in deals[d].dealId
    requires Regroups(LinesOf(items), deals[d].dealId, deals[d].pricing)
    ensures FindDealItems(LinesOf(items), ParseTarget(CardOf(items, deals, d, g).card.id), Some(deals[d].pricing))
            == GroupsOf(items, deals[d])[g].entries
  {
    hide ParseTarget, DisplayGroups, CardOf;
    var deal, groups := deals[d], GroupsOf(items, deals[d]);
    CardOfId(items, deals, d, g);
    var first := groups[g].entries[0].index;
    CardIdParses(deal.dealId, |groups|, first, Ordinal(groups, g));
    SameGroups(LinesOf(items), deal.dealId, deal.pricing);
    NthMatch(groups, StartsAt(first), g);
  }

  lemma {:induction false} FirstLineInDeal(items: seq<PricedLine>, deal: CartDeal, g: nat)
    requires IsPriceable(deal) && g < |GroupsOf(items, deal)|
    ensures var group := GroupsOf(items, deal)[g];
      group.entries != [] && group.entries[0].index < |items| && items[group.entries[0].index].line.dealId == Some(deal.dealId)
  {
    PricingGroupsShape(LinesOf(items), deal.dealId, deal.pricing);
    assert IsDealGroup(LinesOf(items), deal.dealId, GroupsOf(items, deal)[g]);
  }

  /** The id of a deal's only card resolves to every line of the deal, grouped or not. */
  lemma {:induction false} OnlyCardResolves(lines: seq<DealLine>, dealId: string, firstIndex: nat, ordinal: nat, pricing: Option<Pricing>)
    requires pricing.Some? && pricing.value.selectionMode.FixedItems? ==> pricing.value.menuItemIds != []
    requires ':' !in dealId
    ensures FindDealItems(lines, ParseTarget(CardId(dealId, 1, firstIndex, ordinal)), pricing) == WholeDeal(lines, dealId)
  {
    OnlyCardIdParses(dealId, firstIndex, ordinal);
  }

  // ----- The cards shown -----

  lemma {:induction false} SlotsPrefix(
    items: seq<PricedLine>, deal: CartDeal, groups: seq<Group>, n: nat, m: nat, earlier: seq<Slot>)
    requires AreGroupsOf(items, groups) && n <= m <= |groups|
    ensures DealSlots(items, deal, groups, n, earlier) <= DealSlots(items, deal, groups, m, earlier)
  {
    hide MakeCard, Included, CardsAt;
    if n < m {
      SlotsPrefix(items, deal, groups, n, m - 1, earlier);
    }
  }

  /** The card of group g of deal d comes after those of the deals and groups before it. */
  lemma {:induction false} CardPlace(items: seq<PricedLine>, deals: seq<CartDeal>, d: nat, g: nat)
    requires ArePriceable(deals) && d < |deals| && g < |GroupsOf(items, deals[d])|
    ensures var k := |CartSlots(items, deals[..d])| + g;
      k < |CartSlots(items, deals)| && CartSlots(items, deals)[k] == CardOf(items, deals, d, g)
  {
    hide DealSlots, GroupsOf;
    var n := |deals| - 1;
    var front, groups, earlier := deals[..n], GroupsOf(items, deals[n]), CartSlots(items, deals[..n]);
    DealSlotsCount(items, deals[n], groups, |groups|, earlier);
    if d < n {
      assert front[..d] == deals[..d];
      CardPlace(items, front, d, g);
      NoSlots(items, deals[n], groups, earlier);
      SlotsPrefix(items, deals[n], groups, 0, |groups|, earlier);
    } else {
      DealSlotsCount(items, deals[n], groups, g + 1, earlier);
      SlotsPrefix(items, deals[n], groups, g + 1, |groups|, earlier);
    }
  }

  lemma {:induction false} NoSlots(items: seq<PricedLine>, deal: CartDeal, groups: seq<Group>, earlier: seq<Slot>)
    requires AreGroupsOf(items, groups)
    ensures DealSlots(items, deal, groups, 0, earlier) == earlier
  {}

  /** Every card is the card of some group. */
  lemma {:induction false} PlaceOf(items: seq<PricedLine>, deals: seq<CartDeal>, k: nat) returns (d: nat, g: nat)
    requires ArePriceable(deals) && k < |CartSlots(items, deals)|
    ensures d < |deals| && g < |GroupsOf(items, deals[d])| && k == |CartSlots(items, deals[..d])| + g
  {
    hide DealSlots, GroupsOf;
    var n := |deals| - 1;
    var groups, earlier := GroupsOf(items, deals[n]), CartSlots(items, deals[..n]);
    DealSlotsCount(items, deals[n], groups, |groups|, earlier);
    if k < |earlier| {
      d, g := PlaceOf(items, deals[..n], k);
      assert deals[..n][..d] == deals[..d];
    } else {
      d, g := n, k - |earlier|;
    }
  }

  ghost predicate NoColons(deals: seq<CartDeal>) {
    forall d :: 0 <= d < |deals| ==> ':' !in deals[d].dealId
  }

  /** Two groups that begin at one line have different ordinals. */
  lemma {:induction false} OrdinalGrows(groups: seq<Group>, g: nat, h: nat)
    requires g < h < |groups| && groups[g].entries != [] && groups[h].entries != []
    requires groups[g].entries[0].index == groups[h].entries[0].index
    ensures Ordinal(groups, g) < Ordinal(groups, h)
  {
    assert groups[..h][..g] == groups[..g];
    NthMatch(groups[..h], StartsAt(groups[g].entries[0].index), g);
  }

  /** The deal a card's id names is its own. */
  lemma {:induction false} CardNamesDeal(items: seq<PricedLine>, deals: seq<CartDeal>, d: nat, g: nat)
    requires ArePriceable(deals) && DistinctDeals(deals) && NoColons(deals) && d < |deals|
    requires g < |GroupsOf(items, deals[d])|
    ensures ParseTarget(CardOf(items, deals, d, g).card.id).dealId == deals[d].dealId
  {
    hide ParseTarget, CardOf, CardId;
    var groups := GroupsOf(items, deals[d]);
    CardOfId(items, deals, d, g);
    if |groups| == 1 {
      OnlyCardIdParses(deals[d].dealId, groups[g].entries[0].index, Ordinal(groups, g));
    } else {
      CardIdParses(deals[d].dealId, |groups|, groups[g].entries[0].index, Ordinal(groups, g));
    }
  }

  lemma {:induction false} DealCardsDiffer(items: seq<PricedLine>, deals: seq<CartDeal>, d: nat, g: nat, h: nat)
    requires ArePriceable(deals) && DistinctDeals(deals) && NoColons(deals) && d < |deals|
    requires g < h < |GroupsOf(items, deals[d])|
    ensures CardOf(items, deals, d, g).card.id != CardOf(items, deals, d, h).card.id
  {
    hide ParseTarget, CardOf, CardId, Ordinal;
    var dealId, groups := deals[d].dealId, GroupsOf(items, deals[d]);
    CardOfId(items, deals, d, g);
    CardOfId(items, deals, d, h);
    CardIdParses(dealId, |groups|, groups[g].entries[0].index, Ordinal(groups, g));
    CardIdParses(dealId, |groups|, groups[h].entries[0].index, Ordinal(groups, h));
    if groups[g].entries[0].index == groups[h].entries[0].index {
      OrdinalGrows(groups, g, h);
    }
  }

  lemma {:induction false} CardsDiffer(items: seq<PricedLine>, deals: seq<CartDeal>, d: nat, g: nat, e: nat, h: nat)
    requires ArePriceable(deals) && DistinctDeals(deals) && NoColons(deals)
    requires d < |deals| && g < |GroupsOf(items, deals[d])| && e < |deals| && h < |GroupsOf(items, deals[e])|
    requires d != e || g != h
    ensures CardOf(items, deals, d, g).card.id != CardOf(items, deals, e, h).card.id
  {
    hide ParseTarget, CardOf, GroupsOf;
    if d != e {
      CardNamesDeal(items, deals, d, g);
      CardNamesDeal(items, deals, e, h);
    } else if g < h {
      DealCardsDiffer(items, deals, d, g, h);
    } else {
      DealCardsDiffer(items, deals, d, h, g);
    }
  }

  ghost predicate DifferentIds(cards: seq<Card>) {
    forall a, b :: 0 <= a < b < |cards| ==> cards[a].id != cards[b].id
  }

  lemma {:induction false} SlotIdsDiffer(items: seq<PricedLine>, deals: seq<CartDeal>)
    requires ArePriceable(deals) && DistinctDeals(deals) && NoColons(deals)
    ensures DifferentIds(SlotCards(CartSlots(items, deals)))
  {
    hide CartSlots, SlotCards, ArePriceable, DistinctDeals, NoColons;
    var slots := CartSlots(items, deals);
    var cards := SlotCards(slots);
    SlotCardsAt(slots);
    forall a, b | 0 <= a < b < |cards|
      ensures cards[a].id != cards[b].id
    {
      SlotsDiffer(items, deals, a, b);
    }
  }

  lemma {:induction false} SlotCardsAt(slots: seq<Slot>)
    ensures |SlotCards(slots)| == |slots|
    ensures forall k :: 0 <= k < |slots| ==> SlotCards(slots)[k] == slots[k].card
  {
    if slots != [] {
      SlotCardsAt(slots[..|slots| - 1]);
    }
  }

  lemma {:induction false} SlotsDiffer(items: seq<PricedLine>, deals: seq<CartDeal>, a: nat, b: nat)
    requires ArePriceable(deals) && DistinctDeals(deals) && NoColons(deals)
    requires a < b < |CartSlots(items, deals)|
    ensures CartSlots(items, deals)[a].card.id != CartSlots(items, deals)[b].card.id
  {
    hide CartSlots, CardOf, GroupsOf;
    var d, g := PlaceOf(items, deals, a);
    var e, h := PlaceOf(items, deals, b);
    CardPlace(items, deals, d, g);
    CardPlace(items, deals, e, h);
    CardsDiffer(items, deals, d, g, e, h);
  }

  lemma {:induction false} TwiceInList<T>(xs: seq<T>, a: nat, b: nat)
    requires a < b < |xs| && xs[a] == xs[b]
    ensures multiset(xs)[xs[a]] >= 2
  {
    assert xs == xs[..b] + [xs[b]] + xs[b + 1..];
    assert xs[a] in xs[..b] by { assert xs[..b][a] == xs[a]; }
  }

  lemma {:induction false} OnceInList(cards: seq<Card>, card: Card)
    requires DifferentIds(cards)
    ensures multiset(cards)[card] <= 1
  {
    if cards != [] {
      var front, last := cards[..|cards| - 1], cards[|cards| - 1];
      assert cards == front + [last];
      OnceInList(front, card);
      if card == last {
        assert card !in front;
      }
    }
  }

  lemma {:induction false} RearrangedIds(xs: seq<Card>, ys: seq<Card>)
    requires DifferentIds(xs) && multiset(xs) == multiset(ys)
    ensures DifferentIds(ys)
  {
    forall a, b | 0 <= a < b < |ys|
      ensures ys[a].id != ys[b].id
    {
      if ys[a] == ys[b] {
        TwiceInList(ys, a, b);
        OnceInList(xs, ys[a]);
      } else {
        assert ys[a] in multiset(ys) && ys[b] in multiset(ys);
        assert ys[a] in xs && ys[b] in xs;
      }
    }
  }

  /** The card of every group is among the cards the cart shows, and no two cards shown have the same id. */
  lemma {:induction false} EveryCardShown(items: seq<PricedLine>, deals: seq<CartDeal>)
    requires ArePriceable(deals) && DistinctDeals(deals)
    ensures forall d, g :: 0 <= d < |deals| && 0 <= g < |GroupsOf(items, deals[d])| ==>
      CardOf(items, deals, d, g).card in CardsOf(CartDisplay(items, deals))
    ensures NoColons(deals) ==> DifferentIds(CardsOf(CartDisplay(items, deals)))
  {
    hide CartSlots, CartDisplay, CardsOf, CardOf, GroupsOf;
    var slots, shown := SlotCards(CartSlots(items, deals)), CardsOf(CartDisplay(items, deals));
    EachCardOnce(items, deals);
    forall d, g | 0 <= d < |deals| && 0 <= g < |GroupsOf(items, deals[d])|
      ensures CardOf(items, deals, d, g).card in shown
    {
      CardPlace(items, deals, d, g);
      SlotCardsAt(CartSlots(items, deals));
      assert CardOf(items, deals, d, g).card == slots[|CartSlots(items, deals[..d])| + g];
      assert CardOf(items, deals, d, g).card in multiset(slots);
    }
    if NoColons(deals) {
      SlotIdsDiffer(items, deals);
      RearrangedIds(slots, shown);
    }
  }
}
