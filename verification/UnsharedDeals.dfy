/** When every group of a deal names each line once and takes no more than the line has. */
module UnsharedDeals {
  import opened Prelude
  import opened DealGroups
  import opened DealGroupLaws
  import opened DealDisplayLaws
  import opened FixedDeals
  import opened DealTargets

  /** No index is listed twice. */
  ghost predicate Different(list: seq<nat>) {
    forall a, b :: 0 <= a < b < |list| ==> list[a] != list[b]
  }

  ghost predicate AllDifferent(lists: seq<seq<nat>>) {
    forall l :: 0 <= l < |lists| ==> Different(lists[l])
  }

  /** Names each line once and takes no more of it than there is. */
  ghost predicate TakesOnce(lines: seq<DealLine>, group: Group) {
    && NoLineTwice(group.entries)
    && forall k :: 0 <= k < |group.entries| ==>
      group.entries[k].index < |lines| && group.entries[k].quantity <= lines[group.entries[k].index].quantity
  }

  ghost predicate AllTakeOnce(lines: seq<DealLine>, groups: seq<Group>) {
    forall g :: 0 <= g < |groups| ==> TakesOnce(lines, groups[g])
  }

  /** No eligible line lies in the categories of two limited scopes. */
  ghost predicate NoSharedCategory(lines: seq<DealLine>, dealId: string, pricing: Pricing) {
    var scopes := LimitedScopes(pricing);
    forall i: nat, s, t :: 0 <= s < t < |scopes| && EligibleAt(lines, dealId, pricing)(i) ==>
      !(InCategory(lines, scopes[s])(i) && InCategory(lines, scopes[t])(i))
  }

  /** A fixed deal asks for different items; a flexible one does not ask for a line twice. */
  ghost predicate Unshared(lines: seq<DealLine>, dealId: string, pricing: Pricing) {
    if pricing.selectionMode.FixedItems? then pricing.menuItemIds != [] && DistinctItems(pricing.menuItemIds)
    else NoSharedCategory(lines, dealId, pricing)
  }

  /** Different scopes ask for different categories. */
  ghost predicate DistinctCategories(scopes: seq<Scope>) {
    forall s, t :: 0 <= s < t < |scopes| ==> scopes[s].menuCategoryId != scopes[t].menuCategoryId
  }

  /** The deal asks for different items, or for different categories. */
  ghost predicate AsksOnce(pricing: Pricing) {
    if pricing.selectionMode.FixedItems? then DistinctItems(pricing.menuItemIds)
    else DistinctCategories(pricing.categoryScopes)
  }

  lemma {:induction false} LimitedDistinct(scopes: seq<Scope>)
    requires DistinctCategories(scopes)
    ensures DistinctCategories(Filter(scopes, HasLimit()))
  {
    if scopes != [] {
      var front, last := scopes[..|scopes| - 1], scopes[|scopes| - 1];
      LimitedDistinct(front);
      FilterMembers(front, HasLimit());
      var limited := Filter(front, HasLimit());
      forall s | 0 <= s < |limited|
        ensures limited[s].menuCategoryId != last.menuCategoryId
      {
        assert limited[s] in front;
      }
    }
  }

  /** A deal whose scopes ask for lines by their primary category asks for no line twice. */
  lemma {:induction false} AskedOnceUnshared(lines: seq<DealLine>, dealId: string, pricing: Pricing)
    requires AsksOnce(pricing) && Regroups(lines, dealId, pricing)
    requires pricing.selectionMode.FixedItems? ==> pricing.menuItemIds != []
    ensures Unshared(lines, dealId, pricing)
  {
    if pricing.selectionMode.FlexibleItems? {
      var scopes := LimitedScopes(pricing);
      LimitedDistinct(pricing.categoryScopes);
      hide LimitedScopes, IsEligible, SameScopes;
      forall i: nat, s, t | 0 <= s < t < |scopes| && EligibleAt(lines, dealId, pricing)(i)
        ensures !(InCategory(lines, scopes[s])(i) && InCategory(lines, scopes[t])(i))
      {
        SameScopeAt(lines, PrimaryLines(lines), dealId, pricing, scopes[s], i);
        SameScopeAt(lines, PrimaryLines(lines), dealId, pricing, scopes[t], i);
        assert |PrimaryLines(lines)[i].categoryIds| <= 1;
      }
    }
  }

  lemma {:induction false} UnsharedLines(lines: seq<DealLine>, dealId: string, pricing: Pricing)
    requires NoSharedCategory(lines, dealId, pricing)
    ensures NoSharedLine(lines, dealId, pricing)
  {
    var scopes := LimitedScopes(pricing);
    forall i: nat, s, t | 0 <= s < t < |scopes|
      ensures !(InScope(lines, dealId, scopes[s])(i) && InScope(lines, dealId, scopes[t])(i))
    {
      if InScope(lines, dealId, scopes[s])(i) {
        EligibleInScope(lines, dealId, pricing, scopes[s], i);
      }
    }
  }

  lemma {:induction false} EligibleInScope(lines: seq<DealLine>, dealId: string, pricing: Pricing, scope: Scope, i: nat)
    requires scope in pricing.categoryScopes && InScope(lines, dealId, scope)(i)
    ensures EligibleAt(lines, dealId, pricing)(i)
  {
    var k :| 0 <= k < |pricing.categoryScopes| && pricing.categoryScopes[k] == scope;
    assert MatchesScope(lines[i], pricing.categoryScopes[k]);
  }

  // ----- Groups of whole lines -----

  lemma {:induction false} LineGroupOnce(lines: seq<DealLine>, list: seq<nat>)
    requires InRange(list, |lines|) && Different(list)
    ensures AllTakeOnce(lines, LineGroup(lines, list))
  {}

  lemma {:induction false} LineGroupsOnce(lines: seq<DealLine>, lists: seq<seq<nat>>)
    requires AllIn(lists, LessThan(|lines|)) && AllDifferent(lists)
    ensures AllTakeOnce(lines, LineGroupsOf(lines, lists))
  {
    hide LineGroup, TakesOnce, Different;
    if lists != [] {
      LineGroupsOnce(lines, lists[..|lists| - 1]);
      AllLess(lists[|lists| - 1], |lines|);
      LineGroupOnce(lines, lists[|lists| - 1]);
    }
  }

  lemma {:induction false} ItemListsDifferent(lines: seq<DealLine>, dealId: string, menuItemIds: seq<string>)
    requires menuItemIds != [] && DistinctItems(menuItemIds)
    ensures AllDifferent(ItemLists(lines, dealId, menuItemIds))
  {
    hide ItemIndexes, Listed;
    var lists := ItemLists(lines, dealId, menuItemIds);
    forall g, a, b | 0 <= g < |lists| && 0 <= a < b < |lists[g]|
      ensures lists[g][a] != lists[g][b]
    {
      ListApart(lines, dealId, menuItemIds, g, b);
    }
  }

  lemma {:induction false} SizedListsDifferent(indexes: seq<nat>, size: nat)
    requires size > 0 && Ascending(indexes)
    ensures AllDifferent(SizedLists(indexes, size))
  {
    var lists := SizedLists(indexes, size);
    forall g, a, b | 0 <= g < |lists| && 0 <= a < b < |lists[g]|
      ensures lists[g][a] != lists[g][b]
    {
      TimesMonotone(g + 1, GroupCount(|indexes|, size), size);
      assert indexes[Times(g, size) + a] < indexes[Times(g, size) + b];
    }
  }

  lemma {:induction false} InsertDifferent(sorted: seq<nat>, i: nat)
    requires Different(sorted) && i !in sorted
    ensures Different(InsertIndex(sorted, i))
    ensures forall x :: x in InsertIndex(sorted, i) <==> x in sorted || x == i
  {
    if !(sorted == [] || sorted[|sorted| - 1] <= i) {
      var front, last := sorted[..|sorted| - 1], sorted[|sorted| - 1];
      assert sorted == front + [last];
      InsertDifferent(front, i);
      var more := InsertIndex(front, i);
      assert last !in more;
      assert InsertIndex(sorted, i) == more + [last];
    }
  }

  lemma {:induction false} SortDifferent(indexes: seq<nat>)
    requires Different(indexes)
    ensures Different(SortIndexes(indexes))
    ensures forall x :: x in SortIndexes(indexes) <==> x in indexes
  {
    if indexes != [] {
      var front, last := indexes[..|indexes| - 1], indexes[|indexes| - 1];
      assert indexes == front + [last];
      SortDifferent(front);
      hide InsertIndex;
      InsertDifferent(SortIndexes(front), last);
    }
  }

  /** The listed indexes satisfy the condition of their own list and of no other. */
  ghost predicate OwnLists(indexes: seq<seq<nat>>) {
    && AllDifferent(indexes)
    && forall s, t, i: nat :: 0 <= s < t < |indexes| && i in indexes[s] ==> i !in indexes[t]
  }

  lemma {:induction false} SlicesDifferent(indexes: seq<seq<nat>>, scopes: seq<Scope>, g: nat)
    requires Fits(indexes, scopes, g + 1) && OwnLists(indexes)
    ensures Different(GroupUnits(indexes, scopes, g))
    ensures forall x :: x in GroupUnits(indexes, scopes, g) ==> exists s :: 0 <= s < |indexes| && x in indexes[s]
  {
    if scopes != [] {
      var n := |scopes| - 1;
      SlicesDifferent(indexes[..n], scopes[..n], g);
      var before, slice := GroupUnits(indexes[..n], scopes[..n], g), Slice(indexes[n], g, scopes[n].itemLimit.value);
      assert Different(indexes[n]);
      forall x | x in before
        ensures x !in indexes[n] && exists s :: 0 <= s < |indexes| && x in indexes[s]
      {
        var s :| 0 <= s < n && x in indexes[..n][s];
        assert x in indexes[s];
      }
      forall x | x in slice
        ensures x in indexes[n]
      {}
      DifferentConcat(before, slice, indexes[n]);
    }
  }

  lemma {:induction false} DifferentConcat(xs: seq<nat>, ys: seq<nat>, right: seq<nat>)
    requires Different(xs) && Different(ys)
    requires (forall x :: x in xs ==> x !in right) && (forall y :: y in ys ==> y in right)
    ensures Different(xs + ys)
  {
    forall a, b | 0 <= a < b < |xs + ys|
      ensures (xs + ys)[a] != (xs + ys)[b]
    {
      if a < |xs| <= b {
        assert xs[a] in xs && ys[b - |xs|] in ys;
      }
    }
  }

  lemma {:induction false} CategoryListsOwn(lines: seq<DealLine>, dealId: string, pricing: Pricing)
    requires NoSharedCategory(lines, dealId, pricing)
    ensures OwnLists(IndexesByScope(lines, EligibleIndexes(lines, dealId, pricing), LimitedScopes(pricing)))
  {
    var scopes, eligible := LimitedScopes(pricing), EligibleIndexes(lines, dealId, pricing);
    var indexes := IndexesByScope(lines, eligible, scopes);
    forall s | 0 <= s < |indexes|
      ensures Different(indexes[s])
      ensures forall i :: i in indexes[s] ==> EligibleAt(lines, dealId, pricing)(i) && InCategory(lines, scopes[s])(i)
    {
      FilterDifferent(eligible, InCategory(lines, scopes[s]));
      FilterMembers(eligible, InCategory(lines, scopes[s]));
      FilterMembers(Indexes(|lines|), EligibleAt(lines, dealId, pricing));
    }
    forall s, t, i: nat | 0 <= s < t < |indexes| && i in indexes[s]
      ensures i !in indexes[t]
    {
      assert EligibleAt(lines, dealId, pricing)(i) && InCategory(lines, scopes[s])(i);
      assert !InCategory(lines, scopes[t])(i);
    }
  }

  lemma {:induction false} FilterDifferent(list: seq<nat>, keep: nat -> bool)
    requires Different(list)
    ensures Different(Filter(list, keep))
  {
    if list != [] {
      var front := list[..|list| - 1];
      FilterDifferent(front, keep);
      FilterMembers(front, keep);
    }
  }

  lemma {:induction false} ScopedListsDifferent(indexes: seq<seq<nat>>, scopes: seq<Scope>)
    requires |indexes| == |scopes| > 0 && Limited(scopes) && OwnLists(indexes)
    ensures AllDifferent(ScopedLists(indexes, scopes))
  {
    hide Different, SortIndexes, GroupUnits;
    forall g | 0 <= g < ScopeGroupCount(indexes, scopes)
      ensures Different(ScopedLists(indexes, scopes)[g])
    {
      CountsFit(indexes, scopes, g);
      SlicesDifferent(indexes, scopes, g);
      SortDifferent(GroupUnits(indexes, scopes, g));
    }
  }

  lemma {:induction false} FlexibleLinesOnce(lines: seq<DealLine>, dealId: string, pricing: Pricing)
    requires NoSharedCategory(lines, dealId, pricing)
    ensures AllTakeOnce(lines, FlexibleLineGroups(lines, EligibleIndexes(lines, dealId, pricing), pricing))
  {
    hide TakesOnce, ScopedLists, SizedLists, LineGroupsOf, IndexesByScope, EligibleIndexes, LimitedScopes;
    var eligible, scopes := EligibleIndexes(lines, dealId, pricing), LimitedScopes(pricing);
    if eligible != [] && scopes != [] {
      var indexes := IndexesByScope(lines, eligible, scopes);
      CategoryListsOwn(lines, dealId, pricing);
      ScopedListsDifferent(indexes, scopes);
      ScopedListsKeep(indexes, scopes, LessThan(|lines|));
      LineGroupsOnce(lines, ScopedLists(indexes, scopes));
    } else if eligible != [] && pricing.requiredQuantity.GetOr(0) >= 1 {
      var size := pricing.requiredQuantity.value;
      AllLess(eligible, |lines|);
      SizedListsKeep(eligible, size, LessThan(|lines|));
      SizedListsDifferent(eligible, size);
      LineGroupsOnce(lines, SizedLists(eligible, size));
    }
  }

  // ----- Groups of units -----

  lemma {:induction false} GroupWithinTaken(groups: seq<Group>, g: nat, i: nat)
    requires g < |groups|
    ensures UnitsIn(groups[g].entries, Line(i)) <= Taken(groups, i)
  {
    var n := |groups| - 1;
    UnitsInConcat(AllEntries(groups[..n]), groups[n].entries, Line(i));
    if g < n {
      GroupWithinTaken(groups[..n], g, i);
    }
  }

  lemma {:induction false} EntryWithin(entries: seq<Entry>, k: nat)
    requires k < |entries|
    ensures entries[k].quantity <= UnitsIn(entries, Line(entries[k].index))
  {
    if k < |entries| - 1 {
      EntryWithin(entries[..|entries| - 1], k);
    }
  }

  lemma {:induction false} GroupingOnce(lines: seq<DealLine>, groups: seq<Group>)
    requires IsGrouping(lines, groups)
    requires forall g :: 0 <= g < |groups| ==> EntriesAscending(groups[g].entries)
    ensures AllTakeOnce(lines, groups)
  {
    hide Taken, UnitsIn;
    forall g, k | 0 <= g < |groups| && 0 <= k < |groups[g].entries|
      ensures groups[g].entries[k].index < |lines|
      ensures groups[g].entries[k].quantity <= lines[groups[g].entries[k].index].quantity
    {
      var i := groups[g].entries[k].index;
      assert EntriesBelow(groups[g].entries, |lines|);
      GroupWithinTaken(groups, g, i);
      EntryWithin(groups[g].entries, k);
      assert Taken(groups, i) <= lines[i].quantity;
    }
    forall g | 0 <= g < |groups|
      ensures NoLineTwice(groups[g].entries)
    {
      assert EntriesAscending(groups[g].entries);
    }
  }

  lemma {:induction false} FlexibleAscending(lines: seq<DealLine>, dealId: string, pricing: Pricing, g: nat)
    requires g < |FlexibleGroups(lines, dealId, pricing)|
    ensures EntriesAscending(FlexibleGroups(lines, dealId, pricing)[g].entries)
  {
    var groups, scopes := FlexibleGroups(lines, dealId, pricing), LimitedScopes(pricing);
    if scopes != [] {
      var units := UnitsByScope(lines, dealId, pricing, scopes);
      hide FlexibleGroups;
      CategoryBranch(lines, dealId, pricing);
      CountsFit(units, scopes, g);
      CompactShape(GroupUnits(units, scopes, g), |lines|);
    } else {
      var size := pricing.requiredQuantity.GetOr(0);
      var units := UnitsFor(lines, EligibleIndexes(lines, dealId, pricing));
      assert groups == QuantityGroups(lines, units, size);
      hide FlexibleGroups;
      TimesMonotone(g + 1, GroupCount(|units|, size), size);
      CompactShape(Slice(units, g, size), |lines|);
    }
  }

  lemma {:induction false} FlexibleOnce(lines: seq<DealLine>, dealId: string, pricing: Pricing)
    requires NoSharedCategory(lines, dealId, pricing)
    ensures AllTakeOnce(lines, FlexibleGroups(lines, dealId, pricing))
  {
    var groups := FlexibleGroups(lines, dealId, pricing);
    UnsharedLines(lines, dealId, pricing);
    if groups != [] {
      forall g | 0 <= g < |groups|
        ensures EntriesAscending(groups[g].entries)
      {
        FlexibleAscending(lines, dealId, pricing, g);
      }
      if LimitedScopes(pricing) != [] {
        hide FlexibleGroups;
        CategoryGroupsSound(lines, dealId, pricing);
      } else {
        assert pricing.requiredQuantity.GetOr(0) >= 1;
        hide FlexibleGroups;
        QuantityGroupsSound(lines, dealId, pricing, pricing.requiredQuantity.value);
      }
      GroupingOnce(lines, groups);
    }
  }

  /** Every group that is shown names each line once and takes no more than it has. */
  lemma {:induction false} DisplayedOnce(lines: seq<DealLine>, dealId: string, pricing: Pricing)
    requires Unshared(lines, dealId, pricing)
    ensures AllTakeOnce(lines, DisplayGroups(lines, dealId, pricing))
  {
    hide TakesOnce, FlexibleGroups, FlexibleLineGroups, LineGroupsOf, NoSharedCategory;
    if pricing.selectionMode.FixedItems? {
      ItemListsDifferent(lines, dealId, pricing.menuItemIds);
      LineGroupsOnce(lines, ItemLists(lines, dealId, pricing.menuItemIds));
    } else {
      FlexibleLinesOnce(lines, dealId, pricing);
      FlexibleOnce(lines, dealId, pricing);
    }
  }

  // ----- How a group can name a line twice -----

  ghost predicate WholeGroups(lines: seq<DealLine>, groups: seq<Group>) {
    forall g :: 0 <= g < |groups| ==> TakeWhole(lines, groups[g].entries)
  }

  lemma {:induction false} LineGroupsWhole(lines: seq<DealLine>, lists: seq<seq<nat>>)
    requires AllIn(lists, LessThan(|lines|))
    ensures WholeGroups(lines, LineGroupsOf(lines, lists))
  {
    if lists != [] {
      LineGroupsWhole(lines, lists[..|lists| - 1]);
    }
  }

  lemma {:induction false} AllListed(lines: seq<DealLine>, lists: seq<seq<nat>>)
    requires forall k :: 0 <= k < |lists| ==> InRange(lists[k], |lines|)
    ensures AllIn(lists, LessThan(|lines|))
  {
    forall k | 0 <= k < |lists|
      ensures All(lists[k], LessThan(|lines|))
    {
      AllLess(lists[k], |lines|);
    }
  }

  lemma {:induction false} LineGroupsTakeWhole(lines: seq<DealLine>, dealId: string, pricing: Pricing)
    requires pricing.selectionMode.FixedItems? ==> pricing.menuItemIds != []
    ensures WholeGroups(lines, LineGroups(lines, dealId, pricing))
  {
    hide TakeWhole, ScopedLists, SizedLists, LineGroupsOf, IndexesByScope, EligibleIndexes, LimitedScopes;
    if pricing.selectionMode.FixedItems? {
      AllListed(lines, ItemLists(lines, dealId, pricing.menuItemIds));
      LineGroupsWhole(lines, ItemLists(lines, dealId, pricing.menuItemIds));
    } else {
      FlexibleLinesWhole(lines, dealId, pricing);
    }
  }

  lemma {:induction false} FlexibleLinesWhole(lines: seq<DealLine>, dealId: string, pricing: Pricing)
    ensures WholeGroups(lines, FlexibleLineGroups(lines, EligibleIndexes(lines, dealId, pricing), pricing))
  {
    hide TakeWhole, ScopedLists, SizedLists, LineGroupsOf, IndexesByScope, EligibleIndexes, LimitedScopes;
    var eligible, scopes := EligibleIndexes(lines, dealId, pricing), LimitedScopes(pricing);
    if eligible != [] && scopes != [] {
      var indexes := IndexesByScope(lines, eligible, scopes);
      ScopedListsKeep(indexes, scopes, LessThan(|lines|));
      LineGroupsWhole(lines, ScopedLists(indexes, scopes));
    } else if eligible != [] && pricing.requiredQuantity.GetOr(0) >= 1 {
      var size := pricing.requiredQuantity.value;
      AllLess(eligible, |lines|);
      SizedListsKeep(eligible, size, LessThan(|lines|));
      LineGroupsWhole(lines, SizedLists(eligible, size));
    }
  }

  /** A group that is shown takes lines whole, or is made of units and names no line twice. */
  lemma {:induction false} WholeOrOnce(lines: seq<DealLine>, dealId: string, pricing: Pricing, g: nat)
    requires pricing.selectionMode.FixedItems? ==> pricing.menuItemIds != []
    requires g < |DisplayGroups(lines, dealId, pricing)|
    ensures var entries := DisplayGroups(lines, dealId, pricing)[g].entries; TakeWhole(lines, entries) || NoLineTwice(entries)
  {
    hide TakeWhole, FlexibleGroups, LineGroups;
    LineGroupsTakeWhole(lines, dealId, pricing);
    if LineGroups(lines, dealId, pricing) == [] {
      FlexibleAscending(lines, dealId, pricing, g);
    }
  }

  // ----- When a list of lines names a line twice -----

  /** A list gives its lines out in runs, one run a group: line x is in the run for group g. */
  ghost predicate ComesUp(list: seq<nat>, scope: Scope, g: nat, x: nat)
    requires scope.itemLimit.Some? && scope.itemLimit.value > 0
  {
    exists p :: 0 <= p < |list| && list[p] == x && Times(g, scope.itemLimit.value) <= p < Times(g + 1, scope.itemLimit.value)
  }

  /** Line x comes up for group g in the list of scope s. */
  ghost predicate ComesUpFor(indexes: seq<seq<nat>>, scopes: seq<Scope>, s: nat, g: nat, x: nat)
    requires |indexes| == |scopes| && Limited(scopes)
  {
    s < |scopes| && ComesUp(indexes[s], scopes[s], g, x)
  }

  /** Some line comes up for group g in the lists of two scopes. */
  ghost predicate Meets(indexes: seq<seq<nat>>, scopes: seq<Scope>, g: nat)
    requires |indexes| == |scopes| && Limited(scopes)
  {
    exists s: nat, t: nat, x: nat ::
      s < t && ComesUpFor(indexes, scopes, s, g, x) && ComesUpFor(indexes, scopes, t, g, x)
  }

  lemma {:induction false} InSlice(units: seq<nat>, scope: Scope, g: nat, x: nat)
    requires scope.itemLimit.Some? && scope.itemLimit.value > 0 && Times(g + 1, scope.itemLimit.value) <= |units|
    ensures x in Slice(units, g, scope.itemLimit.value) <==> ComesUp(units, scope, g, x)
  {
    var size := scope.itemLimit.value;
    if ComesUp(units, scope, g, x) {
      var p :| 0 <= p < |units| && units[p] == x && Times(g, size) <= p < Times(g + 1, size);
      assert Slice(units, g, size)[p - Times(g, size)] == x;
    }
  }

  lemma {:induction false} SliceDifferent(units: seq<nat>, g: nat, size: nat)
    requires Different(units) && Times(g + 1, size) <= |units|
    ensures Different(Slice(units, g, size))
  {
    TimesMonotone(g, g + 1, size);
  }

  lemma {:induction false} DifferentParts(xs: seq<nat>, ys: seq<nat>)
    ensures Different(xs + ys) <==> Different(xs) && Different(ys) && forall x :: x in xs ==> x !in ys
  {
    var all := xs + ys;
    if Different(all) {
      forall a, b | 0 <= a < b < |ys|
        ensures ys[a] != ys[b]
      {
        assert all[|xs| + a] != all[|xs| + b];
      }
      forall a, b | 0 <= a < b < |xs|
        ensures xs[a] != xs[b]
      {
        assert all[a] != all[b];
      }
      forall a, b | 0 <= a < |xs| && 0 <= b < |ys|
        ensures xs[a] != ys[b]
      {
        assert all[a] != all[|xs| + b];
      }
    }
    if Different(xs) && Different(ys) && forall x :: x in xs ==> x !in ys {
      forall a, b | 0 <= a < b < |all|
        ensures all[a] != all[b]
      {
        if a < |xs| <= b {
          assert xs[a] in xs && ys[b - |xs|] in ys;
        }
      }
    }
  }

  lemma {:induction false} ComesUpBefore(indexes: seq<seq<nat>>, scopes: seq<Scope>, s: nat, g: nat, x: nat)
    requires |indexes| == |scopes| && Limited(scopes) && s < |scopes| - 1
    ensures var n := |scopes| - 1;
      ComesUpFor(indexes, scopes, s, g, x) <==> ComesUpFor(indexes[..n], scopes[..n], s, g, x)
  {}

  /** What the slices of some scopes hold. */
  lemma {:induction false} InGroupUnits(indexes: seq<seq<nat>>, scopes: seq<Scope>, g: nat, x: nat)
    requires Fits(indexes, scopes, g + 1)
    ensures x in GroupUnits(indexes, scopes, g) <==> exists s: nat :: ComesUpFor(indexes, scopes, s, g, x)
  {
    if scopes != [] {
      var n := |scopes| - 1;
      InGroupUnits(indexes[..n], scopes[..n], g, x);
      InSlice(indexes[n], scopes[n], g, x);
      hide Slice, ComesUp;
      if s: nat :| ComesUpFor(indexes, scopes, s, g, x) {
        if s < n {
          ComesUpBefore(indexes, scopes, s, g, x);
        }
      }
      if s: nat :| ComesUpFor(indexes[..n], scopes[..n], s, g, x) {
        ComesUpBefore(indexes, scopes, s, g, x);
      }
      if ComesUp(indexes[n], scopes[n], g, x) {
        assert ComesUpFor(indexes, scopes, n, g, x);
      }
    }
  }

  /** A group's slices name a line twice exactly when it comes up twice for the group. */
  lemma {:induction false} UnitsDifferentExactly(indexes: seq<seq<nat>>, scopes: seq<Scope>, g: nat)
    requires Fits(indexes, scopes, g + 1) && AllDifferent(indexes)
    ensures Different(GroupUnits(indexes, scopes, g)) <==> !Meets(indexes, scopes, g)
  {
    if scopes != [] {
      var n := |scopes| - 1;
      var before, slice := GroupUnits(indexes[..n], scopes[..n], g), Slice(indexes[n], g, scopes[n].itemLimit.value);
      UnitsDifferentExactly(indexes[..n], scopes[..n], g);
      SliceDifferent(indexes[n], g, scopes[n].itemLimit.value);
      DifferentParts(before, slice);
      LastMeets(indexes, scopes, g);
      hide Different, Slice, GroupUnits, Meets;
      assert GroupUnits(indexes, scopes, g) == before + slice by { LastSlice(indexes, scopes, g); }
    }
  }

  lemma {:induction false} LastSlice(indexes: seq<seq<nat>>, scopes: seq<Scope>, g: nat)
    requires Fits(indexes, scopes, g + 1) && scopes != []
    ensures var n := |scopes| - 1;
      GroupUnits(indexes, scopes, g)
      == GroupUnits(indexes[..n], scopes[..n], g) + Slice(indexes[n], g, scopes[n].itemLimit.value)
  {}

  lemma {:induction false} LastMeets(indexes: seq<seq<nat>>, scopes: seq<Scope>, g: nat)
    requires Fits(indexes, scopes, g + 1) && scopes != []
    ensures var n := |scopes| - 1;
      Meets(indexes, scopes, g)
      <==> Meets(indexes[..n], scopes[..n], g)
           || exists x :: x in GroupUnits(indexes[..n], scopes[..n], g) && x in Slice(indexes[n], g, scopes[n].itemLimit.value)
  {
    hide GroupUnits, Slice, ComesUp;
    var n := |scopes| - 1;
    var before, slice := GroupUnits(indexes[..n], scopes[..n], g), Slice(indexes[n], g, scopes[n].itemLimit.value);
    if Meets(indexes, scopes, g) {
      var s: nat, t: nat, x: nat :| s < t && ComesUpFor(indexes, scopes, s, g, x) && ComesUpFor(indexes, scopes, t, g, x);
      ComesUpBefore(indexes, scopes, s, g, x);
      if t < n {
        ComesUpBefore(indexes, scopes, t, g, x);
      } else {
        InGroupUnits(indexes[..n], scopes[..n], g, x);
        InSlice(indexes[n], scopes[n], g, x);
        assert x in before && x in slice;
      }
    }
    if Meets(indexes[..n], scopes[..n], g) {
      var s: nat, t: nat, x: nat :| s < t && ComesUpFor(indexes[..n], scopes[..n], s, g, x)
                                    && ComesUpFor(indexes[..n], scopes[..n], t, g, x);
      ComesUpBefore(indexes, scopes, s, g, x);
      ComesUpBefore(indexes, scopes, t, g, x);
    }
    if x :| x in before && x in slice {
      InGroupUnits(indexes[..n], scopes[..n], g, x);
      InSlice(indexes[n], scopes[n], g, x);
      var s: nat :| ComesUpFor(indexes[..n], scopes[..n], s, g, x);
      ComesUpBefore(indexes, scopes, s, g, x);
      assert ComesUpFor(indexes, scopes, n, g, x);
    }
  }

  lemma {:induction false} InsertBag(sorted: seq<nat>, i: nat)
    ensures multiset(InsertIndex(sorted, i)) == multiset(sorted) + multiset{i}
  {
    if !(sorted == [] || sorted[|sorted| - 1] <= i) {
      var front, last := sorted[..|sorted| - 1], sorted[|sorted| - 1];
      assert sorted == front + [last];
      InsertBag(front, i);
    }
  }

  lemma {:induction false} SortBag(indexes: seq<nat>)
    ensures multiset(SortIndexes(indexes)) == multiset(indexes)
  {
    if indexes != [] {
      var front, last := indexes[..|indexes| - 1], indexes[|indexes| - 1];
      assert indexes == front + [last];
      SortBag(front);
      InsertBag(SortIndexes(front), last);
    }
  }

  lemma {:induction false} DifferentBag(xs: seq<nat>, ys: seq<nat>)
    requires multiset(xs) == multiset(ys) && Different(xs)
    ensures Different(ys)
  {
    forall a, b | 0 <= a < b < |ys|
      ensures ys[a] != ys[b]
    {
      if ys[a] == ys[b] {
        TwiceInList(ys, a, b);
        OnceInDifferent(xs, ys[a]);
      }
    }
  }

  lemma {:induction false} OnceInDifferent(xs: seq<nat>, x: nat)
    requires Different(xs)
    ensures multiset(xs)[x] <= 1
  {
    if xs != [] {
      var front, last := xs[..|xs| - 1], xs[|xs| - 1];
      assert xs == front + [last];
      OnceInDifferent(front, x);
      if x == last {
        assert x !in front;
      }
    }
  }

  /** The lists of whole lines that a flexible deal asks for name no line twice exactly when no line comes up for one
      group in the lists of two scopes. */
  lemma {:induction false} ListedOnceExactly(indexes: seq<seq<nat>>, scopes: seq<Scope>)
    requires |indexes| == |scopes| > 0 && Limited(scopes) && AllDifferent(indexes)
    ensures AllDifferent(ScopedLists(indexes, scopes))
            <==> forall g :: 0 <= g < ScopeGroupCount(indexes, scopes) ==> !Meets(indexes, scopes, g)
  {
    hide Different, SortIndexes, GroupUnits, Meets;
    forall g | 0 <= g < ScopeGroupCount(indexes, scopes)
      ensures Different(ScopedLists(indexes, scopes)[g]) <==> !Meets(indexes, scopes, g)
    {
      CountsFit(indexes, scopes, g);
      UnitsDifferentExactly(indexes, scopes, g);
      SortBag(GroupUnits(indexes, scopes, g));
      if Different(GroupUnits(indexes, scopes, g)) {
        DifferentBag(GroupUnits(indexes, scopes, g), ScopedLists(indexes, scopes)[g]);
      } else if Different(ScopedLists(indexes, scopes)[g]) {
        DifferentBag(ScopedLists(indexes, scopes)[g], GroupUnits(indexes, scopes, g));
      }
    }
  }
}
