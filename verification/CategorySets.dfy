/** Which cards of whole lines a deal with category limits shows, counted on the cart. */
module CategorySets {
  import opened Prelude
  import opened DealGroups
  import opened DealGroupLaws
  import opened FixedSets
  import opened UnsharedDeals

  /** Line i of the deal is eligible and in the scope's category. */
  predicate Lists(lines: seq<DealLine>, dealId: string, pricing: Pricing, scope: Scope, i: nat) {
    && i < |lines| && lines[i].dealId == Some(dealId) && IsEligible(lines[i], pricing)
    && scope.menuCategoryId in lines[i].categoryIds
  }

  /** How many of the first n lines are listed for the scope. */
  function Listed(lines: seq<DealLine>, dealId: string, pricing: Pricing, scope: Scope, n: nat): nat {
    if n == 0 then 0
    else Listed(lines, dealId, pricing, scope, n - 1) + (if Lists(lines, dealId, pricing, scope, n - 1) then 1 else 0)
  }

  /** Line i is among the lines that set g takes of the scope: the g-th run of as many listed lines as its limit. */
  ghost predicate TakesFor(lines: seq<DealLine>, dealId: string, pricing: Pricing, scope: Scope, g: nat, i: nat) {
    && scope.itemLimit.Some? && scope.itemLimit.value > 0
    && Lists(lines, dealId, pricing, scope, i)
    && Times(g, scope.itemLimit.value) <= Listed(lines, dealId, pricing, scope, i) < Times(g + 1, scope.itemLimit.value)
  }

  /** For how many scopes set g takes line i. */
  ghost function TakesTimes(lines: seq<DealLine>, dealId: string, pricing: Pricing, scopes: seq<Scope>, g: nat, i: nat): nat {
    if scopes == [] then 0
    else
      var n := |scopes| - 1;
      TakesTimes(lines, dealId, pricing, scopes[..n], g, i)
      + (if TakesFor(lines, dealId, pricing, scopes[n], g, i) then 1 else 0)
  }

  /** Every scope has lines for g sets. */
  ghost predicate HasLinesFor(lines: seq<DealLine>, dealId: string, pricing: Pricing, scopes: seq<Scope>, g: nat) {
    forall s :: 0 <= s < |scopes| && scopes[s].itemLimit.Some? && scopes[s].itemLimit.value > 0 ==>
      Times(g, scopes[s].itemLimit.value) <= Listed(lines, dealId, pricing, scopes[s], |lines|)
  }

  /** The lines of set g, in line order, a line as often as scopes take it. */
  ghost predicate IsListOf(lines: seq<DealLine>, dealId: string, pricing: Pricing, scopes: seq<Scope>, g: nat, list: seq<nat>) {
    && (forall j, k :: 0 <= j < k < |list| ==> list[j] <= list[k])
    && forall i: nat :: multiset(list)[i] == TakesTimes(lines, dealId, pricing, scopes, g, i)
  }

  /** Set g exists, and its lines all have one positive quantity. */
  ghost predicate IsEvenCategory(lines: seq<DealLine>, dealId: string, pricing: Pricing, scopes: seq<Scope>, g: nat) {
    && HasLinesFor(lines, dealId, pricing, scopes, g + 1)
    && exists quantity: nat :: quantity > 0 && TakesOnly(lines, dealId, pricing, scopes, g, quantity)
  }

  ghost predicate TakesOnly(lines: seq<DealLine>, dealId: string, pricing: Pricing, scopes: seq<Scope>, g: nat, quantity: nat) {
    forall i: nat :: i < |lines| && TakesTimes(lines, dealId, pricing, scopes, g, i) > 0 ==> lines[i].quantity == quantity
  }

  /** The group takes the lines of set g whole. */
  ghost predicate IsCategorySet(lines: seq<DealLine>, dealId: string, pricing: Pricing, scopes: seq<Scope>, g: nat, group: Group) {
    && group.quantity > 0
    && IsListOf(lines, dealId, pricing, scopes, g, seq(|group.entries|, k requires 0 <= k < |group.entries| => group.entries[k].index))
    && forall k :: 0 <= k < |group.entries| ==>
      && group.entries[k].index < |lines|
      && group.entries[k].quantity == lines[group.entries[k].index].quantity == group.quantity
  }

  // ----- The lists of one scope -----

  function ListsAt(lines: seq<DealLine>, dealId: string, pricing: Pricing, scope: Scope): nat -> bool {
    (i: nat) => Lists(lines, dealId, pricing, scope, i)
  }

  lemma {:induction false} ListedCount(lines: seq<DealLine>, dealId: string, pricing: Pricing, scope: Scope, n: nat)
    ensures |Filter(Indexes(n), ListsAt(lines, dealId, pricing, scope))| == Listed(lines, dealId, pricing, scope, n)
  {
    hide Lists;
    if n > 0 {
      ListedCount(lines, dealId, pricing, scope, n - 1);
      assert Indexes(n)[..n - 1] == Indexes(n - 1);
    }
  }

  lemma {:induction false} CategoryIndexesAre(lines: seq<DealLine>, dealId: string, pricing: Pricing, scope: Scope)
    ensures CategoryIndexes(lines, EligibleIndexes(lines, dealId, pricing), scope)
         == Filter(Indexes(|lines|), ListsAt(lines, dealId, pricing, scope))
  {
    FilterTwice(Indexes(|lines|), EligibleAt(lines, dealId, pricing), InCategory(lines, scope), ListsAt(lines, dealId, pricing, scope));
  }

  /** The list of a scope holds its listed lines by rank. */
  lemma {:induction false} CategoryIndexAt(lines: seq<DealLine>, dealId: string, pricing: Pricing, scope: Scope, p: nat, i: nat)
    ensures var list := CategoryIndexes(lines, EligibleIndexes(lines, dealId, pricing), scope);
      p < |list| && list[p] == i <==> Lists(lines, dealId, pricing, scope, i) && Listed(lines, dealId, pricing, scope, i) == p
  {
    CategoryIndexesAre(lines, dealId, pricing, scope);
    hide CategoryIndexes, EligibleIndexes, IsEligible;
    FilterAt(|lines|, ListsAt(lines, dealId, pricing, scope), p, i);
    ListedCount(lines, dealId, pricing, scope, i);
  }

  lemma {:induction false} CategoryIndexesBy(lines: seq<DealLine>, dealId: string, pricing: Pricing, scope: Scope)
    ensures var list := CategoryIndexes(lines, EligibleIndexes(lines, dealId, pricing), scope);
      |list| == Listed(lines, dealId, pricing, scope, |lines|) && Different(list)
  {
    CategoryIndexesAre(lines, dealId, pricing, scope);
    FilterIndexes(|lines|, ListsAt(lines, dealId, pricing, scope));
    ListedCount(lines, dealId, pricing, scope, |lines|);
    hide CategoryIndexes, EligibleIndexes, IsEligible, Listed;
  }

  lemma {:induction false} SliceTakes(lines: seq<DealLine>, dealId: string, pricing: Pricing, scope: Scope, g: nat, i: nat)
    requires scope.itemLimit.Some? && scope.itemLimit.value > 0
    requires Times(g + 1, scope.itemLimit.value) <= |CategoryIndexes(lines, EligibleIndexes(lines, dealId, pricing), scope)|
    ensures var list := CategoryIndexes(lines, EligibleIndexes(lines, dealId, pricing), scope);
      multiset(Slice(list, g, scope.itemLimit.value))[i] == if TakesFor(lines, dealId, pricing, scope, g, i) then 1 else 0
  {
    var list := CategoryIndexes(lines, EligibleIndexes(lines, dealId, pricing), scope);
    CategoryIndexesBy(lines, dealId, pricing, scope);
    hide CategoryIndexes, EligibleIndexes, Lists, Listed, Times;
    var slice := Slice(list, g, scope.itemLimit.value);
    InSlice(list, scope, g, i);
    SliceDifferent(list, g, scope.itemLimit.value);
    OnceInDifferent(slice, i);
    InBag(slice, i);
    if TakesFor(lines, dealId, pricing, scope, g, i) {
      CategoryIndexAt(lines, dealId, pricing, scope, Listed(lines, dealId, pricing, scope, i), i);
    }
    if ComesUp(list, scope, g, i) {
      var p: nat :| p < |list| && list[p] == i && Times(g, scope.itemLimit.value) <= p < Times(g + 1, scope.itemLimit.value);
      CategoryIndexAt(lines, dealId, pricing, scope, p, i);
    }
  }

  // ----- The lists of a set -----

  lemma {:induction false} UnitsTake(lines: seq<DealLine>, dealId: string, pricing: Pricing, scopes: seq<Scope>, g: nat, i: nat)
    requires var indexes := IndexesByScope(lines, EligibleIndexes(lines, dealId, pricing), scopes);
      Fits(indexes, scopes, g + 1)
    ensures var indexes := IndexesByScope(lines, EligibleIndexes(lines, dealId, pricing), scopes);
      multiset(GroupUnits(indexes, scopes, g))[i] == TakesTimes(lines, dealId, pricing, scopes, g, i)
  {
    hide CategoryIndexes, EligibleIndexes, TakesFor, Slice;
    if scopes != [] {
      var n, eligible := |scopes| - 1, EligibleIndexes(lines, dealId, pricing);
      var indexes := IndexesByScope(lines, eligible, scopes);
      assert IndexesByScope(lines, eligible, scopes[..n]) == indexes[..n];
      UnitsTake(lines, dealId, pricing, scopes[..n], g, i);
      SliceTakes(lines, dealId, pricing, scopes[n], g, i);
      assert indexes[n] == CategoryIndexes(lines, eligible, scopes[n]);
    }
  }

  ghost predicate InOrder(list: seq<nat>) { forall j, k :: 0 <= j < k < |list| ==> list[j] <= list[k] }

  lemma {:induction false} InsertInOrder(sorted: seq<nat>, i: nat)
    requires InOrder(sorted)
    ensures InOrder(InsertIndex(sorted, i))
    ensures sorted != [] && i < sorted[|sorted| - 1] ==>
      InsertIndex(sorted, i) != [] && InsertIndex(sorted, i)[|InsertIndex(sorted, i)| - 1] == sorted[|sorted| - 1]
    ensures forall k :: 0 <= k < |InsertIndex(sorted, i)| ==> InsertIndex(sorted, i)[k] == i || InsertIndex(sorted, i)[k] in sorted
  {
    if !(sorted == [] || sorted[|sorted| - 1] <= i) {
      var front, last := sorted[..|sorted| - 1], sorted[|sorted| - 1];
      InsertInOrder(front, i);
      forall k | 0 <= k < |InsertIndex(front, i)|
        ensures InsertIndex(front, i)[k] <= last
      {
        if InsertIndex(front, i)[k] != i {
          var j :| 0 <= j < |front| && front[j] == InsertIndex(front, i)[k];
          assert sorted[j] <= sorted[|sorted| - 1];
        }
      }
    }
  }

  lemma {:induction false} SortInOrder(indexes: seq<nat>)
    ensures InOrder(SortIndexes(indexes))
  {
    if indexes != [] {
      SortInOrder(indexes[..|indexes| - 1]);
      InsertInOrder(SortIndexes(indexes[..|indexes| - 1]), indexes[|indexes| - 1]);
    }
  }

  lemma {:induction false} ListIsOf(lines: seq<DealLine>, dealId: string, pricing: Pricing, scopes: seq<Scope>, g: nat)
    requires scopes != [] && Limited(scopes)
    requires g < ScopeGroupCount(IndexesByScope(lines, EligibleIndexes(lines, dealId, pricing), scopes), scopes)
    ensures IsListOf(lines, dealId, pricing, scopes, g,
      ScopedList(IndexesByScope(lines, EligibleIndexes(lines, dealId, pricing), scopes), scopes, g))
  {
    var indexes := IndexesByScope(lines, EligibleIndexes(lines, dealId, pricing), scopes);
    CountsFit(indexes, scopes, g);
    hide IndexesByScope, TakesTimes, GroupUnits, SortIndexes, Fits;
    SortBag(GroupUnits(indexes, scopes, g));
    SortInOrder(GroupUnits(indexes, scopes, g));
    forall i: nat
      ensures multiset(ScopedList(indexes, scopes, g))[i] == TakesTimes(lines, dealId, pricing, scopes, g, i)
    {
      UnitsTake(lines, dealId, pricing, scopes, g, i);
    }
  }

  lemma {:induction false} NoMoreSets(indexes: seq<seq<nat>>, scopes: seq<Scope>, g: nat) returns (s: nat)
    requires |indexes| == |scopes| > 0 && Limited(scopes) && g >= ScopeGroupCount(indexes, scopes)
    ensures s < |scopes| && Times(g + 1, scopes[s].itemLimit.value) > |indexes[s]|
  {
    hide Times, ScopeGroupCount, GroupCount;
    var count := ScopeGroupCount(indexes, scopes);
    s :| s < |scopes| && count == GroupCount(|indexes[s]|, scopes[s].itemLimit.value);
    TimesMonotone(count + 1, g + 1, scopes[s].itemLimit.value);
  }

  lemma {:induction false} CountsExactly(indexes: seq<seq<nat>>, scopes: seq<Scope>, g: nat)
    requires |indexes| == |scopes| > 0 && Limited(scopes)
    ensures g < ScopeGroupCount(indexes, scopes)
            <==> forall s :: 0 <= s < |scopes| ==> Times(g + 1, scopes[s].itemLimit.value) <= |indexes[s]|
  {
    if g < ScopeGroupCount(indexes, scopes) {
      CountsFit(indexes, scopes, g);
      hide Times, ScopeGroupCount, GroupCount;
    } else {
      hide Times, ScopeGroupCount, GroupCount;
      var s := NoMoreSets(indexes, scopes, g);
    }
  }

  /** The sets are those that every scope has lines for. */
  lemma {:induction false} SetsCounted(lines: seq<DealLine>, dealId: string, pricing: Pricing, scopes: seq<Scope>, g: nat)
    requires scopes != [] && Limited(scopes)
    ensures g < ScopeGroupCount(IndexesByScope(lines, EligibleIndexes(lines, dealId, pricing), scopes), scopes)
            <==> HasLinesFor(lines, dealId, pricing, scopes, g + 1)
  {
    var indexes := IndexesByScope(lines, EligibleIndexes(lines, dealId, pricing), scopes);
    hide Listed, EligibleIndexes, CategoryIndexes, ScopeGroupCount, Times;
    CountsExactly(indexes, scopes, g);
    forall s | 0 <= s < |scopes|
      ensures |indexes[s]| == Listed(lines, dealId, pricing, scopes[s], |lines|)
    {
      CategoryIndexesBy(lines, dealId, pricing, scopes[s]);
    }
  }

  // ----- The cards -----

  lemma {:induction false} InBag(list: seq<nat>, i: nat)
    ensures multiset(list)[i] > 0 <==> i in list
  {
    assert i in list <==> i in multiset(list);
  }

  lemma {:induction false} ListForms(lines: seq<DealLine>, dealId: string, pricing: Pricing, scopes: seq<Scope>, g: nat, list: seq<nat>)
    requires InRange(list, |lines|) && list != [] && IsListOf(lines, dealId, pricing, scopes, g, list)
    ensures LineGroup(lines, list) != []
            <==> exists quantity: nat :: quantity > 0 && TakesOnly(lines, dealId, pricing, scopes, g, quantity)
    ensures LineGroup(lines, list) != [] ==> IsCategorySet(lines, dealId, pricing, scopes, g, LineGroup(lines, list)[0])
  {
    AgreeingLines(lines, list);
    forall i: nat
      ensures TakesTimes(lines, dealId, pricing, scopes, g, i) > 0 <==> i in list
    {
      InBag(list, i);
    }
    hide LineGroup, TakesTimes;
    if LineGroup(lines, list) != [] {
      var group := LineGroup(lines, list)[0];
      assert seq(|group.entries|, k requires 0 <= k < |group.entries| => group.entries[k].index) == list;
      assert TakesOnly(lines, dealId, pricing, scopes, g, lines[list[0]].quantity);
    }
    if quantity: nat :| quantity > 0 && TakesOnly(lines, dealId, pricing, scopes, g, quantity) {
      forall k | 0 <= k < |list|
        ensures lines[list[k]].quantity == quantity
      {
        assert list[k] in list;
      }
    }
  }

  /** The groups of whole lines are the even sets, in order: no set is left out or shown twice. */
  ghost predicate AreTheCategorySets(
    lines: seq<DealLine>, dealId: string, pricing: Pricing, scopes: seq<Scope>, ranks: seq<nat>, groups: seq<Group>)
  {
    && Ascending(ranks) && (forall g: nat :: g in ranks <==> IsEvenCategory(lines, dealId, pricing, scopes, g))
    && |groups| == |ranks|
    && forall j :: 0 <= j < |ranks| ==> IsCategorySet(lines, dealId, pricing, scopes, ranks[j], groups[j])
  }

  lemma {:induction false} FormsCategory(
    lines: seq<DealLine>, dealId: string, pricing: Pricing, scopes: seq<Scope>, lists: seq<seq<nat>>, g: nat)
    requires scopes != [] && Limited(scopes) && AllIn(lists, LessThan(|lines|))
    requires lists == ScopedLists(IndexesByScope(lines, EligibleIndexes(lines, dealId, pricing), scopes), scopes)
    ensures Forms(lines, lists, g) <==> IsEvenCategory(lines, dealId, pricing, scopes, g)
    ensures Forms(lines, lists, g) ==> IsCategorySet(lines, dealId, pricing, scopes, g, LineGroup(lines, lists[g])[0])
  {
    var indexes := IndexesByScope(lines, EligibleIndexes(lines, dealId, pricing), scopes);
    SetsCounted(lines, dealId, pricing, scopes, g);
    if g < |lists| {
      ListIsOf(lines, dealId, pricing, scopes, g);
      NonEmptyList(indexes, scopes, g, lines);
      AllLess(lists[g], |lines|);
      hide IndexesByScope, ScopedList, ScopedLists, LineGroup, IsListOf, TakesOnly, IsCategorySet, HasLinesFor;
      ListForms(lines, dealId, pricing, scopes, g, lists[g]);
    }
  }

  lemma {:induction false} NonEmptyList(indexes: seq<seq<nat>>, scopes: seq<Scope>, g: nat, lines: seq<DealLine>)
    requires |indexes| == |scopes| > 0 && Limited(scopes) && g < ScopeGroupCount(indexes, scopes)
    requires AllIn(indexes, LessThan(|lines|))
    ensures ScopedList(indexes, scopes, g) != []
  {
    CountsFit(indexes, scopes, g);
    GroupUnitsKeep(indexes, scopes, g, LessThan(|lines|));
    SortIndexesKeep(GroupUnits(indexes, scopes, g), LessThan(|lines|));
  }

  /** What a deal with category limits shows: its even sets of whole lines, or, when there is none, the groups of units
      it is priced by. */
  lemma {:induction false} CategoryCardsExactly(lines: seq<DealLine>, dealId: string, pricing: Pricing)
    requires pricing.selectionMode.FlexibleItems? && LimitedScopes(pricing) != []
    ensures exists ranks :: AreTheCategorySets(lines, dealId, pricing, LimitedScopes(pricing), ranks, LineGroups(lines, dealId, pricing))
    ensures DisplayGroups(lines, dealId, pricing)
         == if exists g: nat :: IsEvenCategory(lines, dealId, pricing, LimitedScopes(pricing), g) then LineGroups(lines, dealId, pricing)
            else PricingGroups(lines, dealId, pricing)
  {
    var scopes, eligible := LimitedScopes(pricing), EligibleIndexes(lines, dealId, pricing);
    var groups := LineGroups(lines, dealId, pricing);
    var ranks := CategoryRanks(lines, dealId, pricing);
    hide LineGroups, PricingGroups, IsEvenCategory, IsCategorySet, LimitedScopes;
    if groups != [] {
      assert ranks[0] in ranks;
    }
    if g: nat :| IsEvenCategory(lines, dealId, pricing, scopes, g) {
      assert g in ranks;
    }
  }

  lemma {:induction false} CategoryRanks(lines: seq<DealLine>, dealId: string, pricing: Pricing) returns (ranks: seq<nat>)
    requires pricing.selectionMode.FlexibleItems? && LimitedScopes(pricing) != []
    ensures AreTheCategorySets(lines, dealId, pricing, LimitedScopes(pricing), ranks, LineGroups(lines, dealId, pricing))
  {
    var scopes, eligible := LimitedScopes(pricing), EligibleIndexes(lines, dealId, pricing);
    var indexes := IndexesByScope(lines, eligible, scopes);
    if eligible == [] || exists s :: 0 <= s < |indexes| && indexes[s] == [] {
      ranks := [];
      NoSets(lines, dealId, pricing, scopes);
    } else {
      ScopedListsKeep(indexes, scopes, LessThan(|lines|));
      ranks := SetRanks(lines, dealId, pricing, scopes, ScopedLists(indexes, scopes));
    }
  }

  lemma {:induction false} SetRanks(lines: seq<DealLine>, dealId: string, pricing: Pricing, scopes: seq<Scope>, lists: seq<seq<nat>>)
    returns (ranks: seq<nat>)
    requires scopes != [] && Limited(scopes) && AllIn(lists, LessThan(|lines|))
    requires lists == ScopedLists(IndexesByScope(lines, EligibleIndexes(lines, dealId, pricing), scopes), scopes)
    ensures AreTheCategorySets(lines, dealId, pricing, scopes, ranks, LineGroupsOf(lines, lists))
  {
    hide IsEvenCategory, IsCategorySet, LineGroup, LineGroupsOf, Forms, ScopedLists, IndexesByScope, AllIn;
    ranks := GroupsFormed(lines, lists);
    forall g: nat
      ensures Forms(lines, lists, g) <==> IsEvenCategory(lines, dealId, pricing, scopes, g)
    {
      FormsCategory(lines, dealId, pricing, scopes, lists, g);
    }
    forall j | 0 <= j < |ranks|
      ensures IsCategorySet(lines, dealId, pricing, scopes, ranks[j], LineGroupsOf(lines, lists)[j])
    {
      assert ranks[j] in ranks;
      FormsCategory(lines, dealId, pricing, scopes, lists, ranks[j]);
    }
  }

  /** A scope without lines leaves nothing to show. */
  lemma {:induction false} NoSets(lines: seq<DealLine>, dealId: string, pricing: Pricing, scopes: seq<Scope>)
    requires scopes != [] && Limited(scopes)
    requires var eligible := EligibleIndexes(lines, dealId, pricing);
      eligible == [] || exists s :: 0 <= s < |scopes| && IndexesByScope(lines, eligible, scopes)[s] == []
    ensures forall g: nat :: !IsEvenCategory(lines, dealId, pricing, scopes, g)
  {
    var eligible := EligibleIndexes(lines, dealId, pricing);
    var indexes := IndexesByScope(lines, eligible, scopes);
    var s := if eligible == [] then 0 else var s: nat :| s < |scopes| && indexes[s] == []; s;
    assert indexes[s] == [] && indexes[s] == CategoryIndexes(lines, eligible, scopes[s]);
    CategoryIndexesBy(lines, dealId, pricing, scopes[s]);
    hide IndexesByScope, EligibleIndexes, TakesOnly, Listed;
    forall g: nat
      ensures !IsEvenCategory(lines, dealId, pricing, scopes, g)
    {
      assert Times(g + 1, scopes[s].itemLimit.value) > Listed(lines, dealId, pricing, scopes[s], |lines|);
    }
  }
}
