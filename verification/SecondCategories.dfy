/** A card of a flexible deal whose dishes the deal reaches through a category other than their first. */
module SecondCategories {
  import opened Prelude
  import opened DealGroups
  import opened DealGroupLaws
  import opened DealPricing
  import opened DealDisplay
  import opened DealTargets
  import opened Carts

  /** An id that names a group of a flexible deal finds nothing when some limited scope of the deal has the primary
      category of none of its lines. */
  lemma {:induction false} NothingFound(lines: seq<DealLine>, target: Target, pricing: Pricing, scope: Scope)
    requires pricing.selectionMode.FlexibleItems? && target.firstIndex.Some? && scope in LimitedScopes(pricing)
    requires forall i :: 0 <= i < |lines| && lines[i].dealId == Some(target.dealId) ==>
      scope.menuCategoryId !in PrimaryLine(lines[i]).categoryIds
    ensures FindDealItems(lines, target, Some(pricing)) == []
  {
    NothingInCategory(PrimaryLines(lines), target.dealId, pricing, scope);
    NoGroups(PrimaryLines(lines), target.dealId, pricing, scope);
  }

  lemma {:induction false} NothingInCategory(lines: seq<DealLine>, dealId: string, pricing: Pricing, scope: Scope)
    requires forall i :: 0 <= i < |lines| && lines[i].dealId == Some(dealId) ==> scope.menuCategoryId !in lines[i].categoryIds
    ensures CategoryIndexes(lines, EligibleIndexes(lines, dealId, pricing), scope) == []
    ensures ScopeUnits(lines, dealId, pricing, scope) == []
  {
    var eligible := EligibleIndexes(lines, dealId, pricing);
    FilterMembers(Indexes(|lines|), EligibleAt(lines, dealId, pricing));
    forall k | 0 <= k < |eligible|
      ensures !InCategory(lines, scope)(eligible[k]) && !MatchesAt(lines, scope)(eligible[k])
    {
      assert EligibleAt(lines, dealId, pricing)(eligible[k]);
    }
    FilterNone(eligible, InCategory(lines, scope));
    FilterNone(eligible, MatchesAt(lines, scope));
  }

  /** A limited scope without lines leaves the deal without groups. */
  lemma {:induction false} NoGroups(lines: seq<DealLine>, dealId: string, pricing: Pricing, scope: Scope)
    requires pricing.selectionMode.FlexibleItems? && scope in LimitedScopes(pricing)
    requires CategoryIndexes(lines, EligibleIndexes(lines, dealId, pricing), scope) == []
    requires ScopeUnits(lines, dealId, pricing, scope) == []
    ensures DisplayGroups(lines, dealId, pricing) == []
  {
    hide EligibleIndexes, LimitedScopes, CategoryIndexes, ScopeUnits, ScopedLists, LineGroupsOf;
    var scopes := LimitedScopes(pricing);
    var s :| 0 <= s < |scopes| && scopes[s] == scope;
    assert IndexesByScope(lines, EligibleIndexes(lines, dealId, pricing), scopes)[s] == [];
    assert UnitsByScope(lines, dealId, pricing, scopes)[s] == [];
  }

  /** A dish of category a that is linked to category b. */
  function Linked(): DealLine { DealLine(Some("d"), "m", ["a", "b"], 1) }

  /** One dish of category b, where dish m may stand in for the category's own dish n. */
  function OneOfB(fixedPrice: int): Pricing { Pricing(FlexibleItems, ["m"], [ScopeB()], Some(1), fixedPrice) }

  /** Two such lines are shown as two cards, and neither can be removed or updated: its id is refused. */
  lemma {:induction false} LinkedCardRefused(
    fixedPrice: int, store: Store, categoryOf: map<string, string>, firstIndex: nat, ordinal: nat, quantity: int)
    requires store.cart.Some? && DealLinesOf(store.cart.value.items, categoryOf) == PrimaryLines([Linked(), Linked()])
    ensures |DisplayGroups([Linked(), Linked()], "d", OneOfB(fixedPrice))| == 2
    ensures var call := DealCall(CardId("d", 2, firstIndex, ordinal), Some(OneOfB(fixedPrice)), categoryOf);
      RemoveDeal(store, call) == Outcome(store, false) && UpdateDeal(store, call, quantity) == Outcome(store, false)
  {
    TwoShown(fixedPrice);
    NoneFound(fixedPrice, store, categoryOf, firstIndex, ordinal);
  }

  lemma {:induction false} NoneFound(
    fixedPrice: int, store: Store, categoryOf: map<string, string>, firstIndex: nat, ordinal: nat)
    requires store.cart.Some? && DealLinesOf(store.cart.value.items, categoryOf) == PrimaryLines([Linked(), Linked()])
    ensures EntriesOf(store.cart.value.items, DealCall(CardId("d", 2, firstIndex, ordinal), Some(OneOfB(fixedPrice)), categoryOf)) == []
  {
    var pricing, lines := OneOfB(fixedPrice), PrimaryLines([Linked(), Linked()]);
    CardIdParses("d", 2, firstIndex, ordinal);
    OnlyScope(fixedPrice);
    hide ParseTarget, LimitedScopes;
    NothingFound(lines, ParseTarget(CardId("d", 2, firstIndex, ordinal)), pricing, ScopeB());
  }

  function ScopeB(): Scope { Scope("b", Some(1), ["n"]) }

  lemma {:induction false} TwoShown(fixedPrice: int)
    ensures |DisplayGroups([Linked(), Linked()], "d", OneOfB(fixedPrice))| == 2
  {
    BothEligible(fixedPrice);
    TwoLineGroups(fixedPrice);
    hide EligibleIndexes, LimitedScopes, FlexibleLineGroups, FlexibleGroups;
  }

  lemma {:induction false} TwoLineGroups(fixedPrice: int)
    ensures |FlexibleLineGroups([Linked(), Linked()], [0, 1], OneOfB(fixedPrice))| == 2
  {
    var lines, scope := [Linked(), Linked()], ScopeB();
    var both: seq<nat> := [0, 1];
    OnlyScope(fixedPrice);
    BothInCategory(lines, both, scope);
    EachListed(both, scope);
    EachGrouped(lines);
    ScopedLineGroups(lines, both, OneOfB(fixedPrice), [scope], [both]);
    hide IndexesByScope, LimitedScopes, ScopedLists, LineGroupsOf, OneOfB, FlexibleLineGroups;
  }

  lemma {:induction false} OnlyScope(fixedPrice: int)
    ensures LimitedScopes(OneOfB(fixedPrice)) == [ScopeB()]
  {
    FilterAll([ScopeB()], HasLimit());
  }

  lemma {:induction false} BothInCategory(lines: seq<DealLine>, both: seq<nat>, scope: Scope)
    requires lines == [Linked(), Linked()] && both == [0, 1] && scope == ScopeB()
    ensures IndexesByScope(lines, both, [scope]) == [both]
  {
    FilterAll(both, InCategory(lines, scope));
  }

  lemma {:induction false} BothEligible(fixedPrice: int)
    ensures EligibleIndexes([Linked(), Linked()], "d", OneOfB(fixedPrice)) == [0, 1]
  {
    var both: seq<nat> := [0, 1];
    assert "m" in OneOfB(fixedPrice).menuItemIds;
    assert Indexes(2) == both;
    FilterAll(both, EligibleAt([Linked(), Linked()], "d", OneOfB(fixedPrice)));
  }

  lemma {:induction false} EachListed(both: seq<nat>, scope: Scope)
    requires both == [0, 1] && scope.itemLimit == Some(1)
    ensures Limited([scope]) && ScopedLists([both], [scope]) == [[0], [1]]
  {
    assert Times(0, 1) == 0 && Times(1, 1) == 1 && Times(2, 1) == 2;
    TimesProduct(GroupCount(2, 1), 1);
    assert ScopeGroupCount([both], [scope]) == 2;
    CountsFit([both], [scope], 0);
    CountsFit([both], [scope], 1);
    assert [both][..0] == [] && [scope][..0] == [];
    assert Slice(both, 0, 1) == [0] && Slice(both, 1, 1) == [1];
    assert GroupUnits([both], [scope], 0) == [0] && GroupUnits([both], [scope], 1) == [1];
    SortOne(0);
    SortOne(1);
  }

  lemma {:induction false} SortOne(i: nat)
    ensures SortIndexes([i]) == [i]
  {
    assert [i][..0] == [];
  }

  lemma {:induction false} EachGrouped(lines: seq<DealLine>)
    requires lines == [Linked(), Linked()]
    ensures AllIn([[0], [1]], LessThan(2)) && |LineGroupsOf(lines, [[0], [1]])| == 2
  {
    var lists: seq<seq<nat>> := [[0], [1]];
    AllLess(lists[0], 2);
    AllLess(lists[1], 2);
    assert lists[..1] == [lists[0]] && lists[..1][..0] == [];
    assert SingleQuantity(lines, lists[0]) == 1 && SingleQuantity(lines, lists[1]) == 1;
    assert LineGroupsOf(lines, lists[..1]) == [] + LineGroup(lines, lists[0]);
  }

  // ----- A linked dish for two scopes -----

  function ScopeA(): Scope { Scope("a", Some(1), ["m"]) }

  /** One dish of category a and one of category b. */
  function OneOfEach(fixedPrice: int): Pricing { Pricing(FlexibleItems, [], [ScopeA(), ScopeB()], Some(2), fixedPrice) }

  /** The dish matches the scope of its own category only, but whole lines are listed by category alone: both scopes list
      it, and one unit is shown as a complete deal that holds it twice. */
  lemma {:induction false} LinkedDishTwice(fixedPrice: int)
    ensures NoSharedLine([Linked()], "d", OneOfEach(fixedPrice))
    ensures DisplayGroups([Linked()], "d", OneOfEach(fixedPrice)) == [Group([Entry(0, 1), Entry(0, 1)], 1)]
  {
    BothLimited(fixedPrice);
    OneEligible(fixedPrice);
    LineListedTwice(fixedPrice);
    hide EligibleIndexes, LimitedScopes, FlexibleLineGroups, FlexibleGroups;
    assert "m" != "n" && !MatchesScope(Linked(), ScopeB());
  }

  lemma {:induction false} LineListedTwice(fixedPrice: int)
    ensures FlexibleLineGroups([Linked()], [0], OneOfEach(fixedPrice)) == [Group([Entry(0, 1), Entry(0, 1)], 1)]
  {
    var lines, scopes := [Linked()], [ScopeA(), ScopeB()];
    var only: seq<nat> := [0];
    var indexes: seq<seq<nat>> := [only, only];
    hide IndexesByScope, LimitedScopes, ScopedLists, LineGroupsOf, FlexibleLineGroups;
    BothLimited(fixedPrice);
    BothListed(lines, scopes);
    ScopedLineGroups(lines, only, OneOfEach(fixedPrice), scopes, indexes);
    ListsOfTwice(lines, scopes, indexes);
  }

  lemma {:induction false} ListsOfTwice(lines: seq<DealLine>, scopes: seq<Scope>, indexes: seq<seq<nat>>)
    requires lines == [Linked()] && scopes == [ScopeA(), ScopeB()] && indexes == [[0], [0]]
    requires AllIn(ScopedLists(indexes, scopes), LessThan(|lines|))
    ensures LineGroupsOf(lines, ScopedLists(indexes, scopes)) == [Group([Entry(0, 1), Entry(0, 1)], 1)]
  {
    BothListLine(indexes, scopes);
    hide ScopedLists, LineGroupsOf;
    TwiceInGroup(lines);
  }

  /** With limited scopes that all list lines, the groups are those of the scoped lists. */
  lemma {:induction false} ScopedLineGroups(
    lines: seq<DealLine>, eligible: seq<nat>, pricing: Pricing, scopes: seq<Scope>, indexes: seq<seq<nat>>)
    requires InRange(eligible, |lines|) && eligible != [] && scopes != [] && LimitedScopes(pricing) == scopes
    requires IndexesByScope(lines, eligible, scopes) == indexes
    requires forall s :: 0 <= s < |indexes| ==> indexes[s] != []
    ensures AllIn(ScopedLists(indexes, scopes), LessThan(|lines|))
    ensures FlexibleLineGroups(lines, eligible, pricing) == LineGroupsOf(lines, ScopedLists(indexes, scopes))
  {
    hide IndexesByScope, LimitedScopes, ScopedLists, LineGroupsOf;
    ScopedListsKeep(indexes, scopes, LessThan(|lines|));
  }

  lemma {:induction false} BothLimited(fixedPrice: int)
    ensures LimitedScopes(OneOfEach(fixedPrice)) == [ScopeA(), ScopeB()]
  {
    FilterAll([ScopeA(), ScopeB()], HasLimit());
  }

  lemma {:induction false} OneEligible(fixedPrice: int)
    ensures EligibleIndexes([Linked()], "d", OneOfEach(fixedPrice)) == [0]
  {
    var lines := [Linked()];
    assert MatchesScope(Linked(), OneOfEach(fixedPrice).categoryScopes[0]);
    var only: seq<nat> := [0];
    assert Indexes(1) == only;
    FilterAll(only, EligibleAt(lines, "d", OneOfEach(fixedPrice)));
  }

  lemma {:induction false} BothListed(lines: seq<DealLine>, scopes: seq<Scope>)
    requires lines == [Linked()] && scopes == [ScopeA(), ScopeB()]
    ensures IndexesByScope(lines, [0], scopes) == [[0], [0]]
  {
    DishListed(lines, scopes[0]);
    DishListed(lines, scopes[1]);
    hide CategoryIndexes;
  }

  lemma {:induction false} DishListed(lines: seq<DealLine>, scope: Scope)
    requires lines == [Linked()] && scope.menuCategoryId in ["a", "b"]
    ensures CategoryIndexes(lines, [0], scope) == [0]
  {
    var only: seq<nat> := [0];
    FilterAll(only, InCategory(lines, scope));
  }

  lemma {:induction false} BothListLine(indexes: seq<seq<nat>>, scopes: seq<Scope>)
    requires indexes == [[0], [0]] && scopes == [ScopeA(), ScopeB()]
    ensures ScopedLists(indexes, scopes) == [[0, 0]]
  {
    assert Times(0, 1) == 0 && Times(1, 1) == 1;
    assert ScopeGroupCount(indexes, scopes) == 1 by {
      TimesProduct(GroupCount(1, 1), 1);
    }
    CountsFit(indexes, scopes, 0);
    assert GroupUnits(indexes, scopes, 0) == [0, 0] by {
      assert GroupUnits(indexes[..1][..0], scopes[..1][..0], 0) == [];
      assert Slice(indexes[..1][0], 0, 1) == [0] && Slice(indexes[1], 0, 1) == [0];
      assert GroupUnits(indexes[..1], scopes[..1], 0) == [0];
    }
    assert SortIndexes([0, 0]) == [0, 0] by {
      assert [0, 0][..1] == [0] && [0][..0] == [];
      assert SortIndexes([]) == [] && SortIndexes([0]) == [0];
    }
  }

  lemma {:induction false} TwiceInGroup(lines: seq<DealLine>)
    requires lines == [Linked()]
    ensures AllIn([[0, 0]], LessThan(|lines|))
    ensures LineGroupsOf(lines, [[0, 0]]) == [Group([Entry(0, 1), Entry(0, 1)], 1)]
  {
    AllLess([0, 0], 1);
    assert [[0, 0]][..0] == [];
    var list: seq<nat> := [0, 0];
    assert SingleQuantity(lines, list) == 1;
    assert seq(|list|, k requires 0 <= k < |list| => Entry(list[k], 1)) == [Entry(0, 1), Entry(0, 1)];
  }
}
