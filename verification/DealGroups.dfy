/** Forming deal groups out of cart lines, by fixed item sets or flexibly by quantity or category.
    Models findFlexibleDealDisplayGroups, findDealItemIndexGroups and findFlexibleDealItemIndexGroups. */
module DealGroups {
  import opened Prelude

  /** The part of a cart line that grouping reads. */
  datatype DealLine = DealLine(dealId: Option<string>, menuItemId: string, categoryIds: seq<string>, quantity: nat)

  /** An absent list of menu items is an empty one: both mean every item of the category. */
  datatype Scope = Scope(menuCategoryId: string, itemLimit: Option<int>, menuItemIds: seq<string>)

  datatype Pricing = Pricing(
    selectionMode: SelectionMode,
    menuItemIds: seq<string>,
    categoryScopes: seq<Scope>,
    requiredQuantity: Option<int>,
    fixedPrice: int)

  datatype Entry = Entry(index: nat, quantity: nat)

  datatype Group = Group(entries: seq<Entry>, quantity: nat)

  // ----- Lists of line indexes -----

  function Filter<T>(xs: seq<T>, keep: T -> bool): seq<T> {
    if xs == [] then []
    else Filter(xs[..|xs| - 1], keep) + (if keep(xs[|xs| - 1]) then [xs[|xs| - 1]] else [])
  }

  lemma {:induction false} FilterMembers<T>(xs: seq<T>, keep: T -> bool)
    ensures forall k :: 0 <= k < |Filter(xs, keep)| ==> Filter(xs, keep)[k] in xs && keep(Filter(xs, keep)[k])
    ensures forall x :: x in xs && keep(x) ==> x in Filter(xs, keep)
  {
    if xs != [] {
      FilterMembers(xs[..|xs| - 1], keep);
      assert xs == xs[..|xs| - 1] + [xs[|xs| - 1]];
    }
  }

  lemma {:induction false} FilterConcat<T>(xs: seq<T>, ys: seq<T>, keep: T -> bool)
    ensures Filter(xs + ys, keep) == Filter(xs, keep) + Filter(ys, keep)
  {
    if ys == [] {
      assert xs + ys == xs;
    } else {
      FilterConcat(xs, ys[..|ys| - 1], keep);
      assert (xs + ys)[..|xs + ys| - 1] == xs + ys[..|ys| - 1];
    }
  }

  lemma {:induction false} FilterAll<T>(xs: seq<T>, keep: T -> bool)
    requires forall k :: 0 <= k < |xs| ==> keep(xs[k])
    ensures Filter(xs, keep) == xs
  {
    if xs != [] {
      FilterAll(xs[..|xs| - 1], keep);
      assert xs == xs[..|xs| - 1] + [xs[|xs| - 1]];
    }
  }

  lemma {:induction false} FilterNone<T>(xs: seq<T>, keep: T -> bool)
    requires forall k :: 0 <= k < |xs| ==> !keep(xs[k])
    ensures Filter(xs, keep) == []
  {
    if xs != [] {
      FilterNone(xs[..|xs| - 1], keep);
    }
  }

  lemma {:induction false} FilterTwice<T>(xs: seq<T>, first: T -> bool, second: T -> bool, both: T -> bool)
    requires forall k :: 0 <= k < |xs| ==> (both(xs[k]) <==> first(xs[k]) && second(xs[k]))
    ensures Filter(Filter(xs, first), second) == Filter(xs, both)
  {
    if xs != [] {
      var front, last := xs[..|xs| - 1], xs[|xs| - 1];
      FilterTwice(front, first, second, both);
      FilterConcat(Filter(front, first), if first(last) then [last] else [], second);
    }
  }

  function Indexes(n: nat): (r: seq<nat>)
    ensures |r| == n
    ensures forall i :: 0 <= i < n ==> r[i] == i
  {
    seq(n, i => i)
  }

  // ----- Eligibility -----

  predicate MatchesScope(line: DealLine, scope: Scope) {
    && scope.menuCategoryId in line.categoryIds
    && (scope.menuItemIds == [] || line.menuItemId in scope.menuItemIds)
  }

  predicate IsEligible(line: DealLine, pricing: Pricing) {
    || line.menuItemId in pricing.menuItemIds
    || exists k :: 0 <= k < |pricing.categoryScopes| && MatchesScope(line, pricing.categoryScopes[k])
  }

  function EligibleAt(lines: seq<DealLine>, dealId: string, pricing: Pricing): nat -> bool {
    (i: nat) => i < |lines| && lines[i].dealId == Some(dealId) && IsEligible(lines[i], pricing)
  }

  function MatchesAt(lines: seq<DealLine>, scope: Scope): nat -> bool {
    (i: nat) => i < |lines| && MatchesScope(lines[i], scope)
  }

  /** Lines of the deal that match the scope: what a scope may draw from. */
  function InScope(lines: seq<DealLine>, dealId: string, scope: Scope): nat -> bool {
    (i: nat) => i < |lines| && lines[i].dealId == Some(dealId) && MatchesScope(lines[i], scope)
  }

  function EligibleIndexes(lines: seq<DealLine>, dealId: string, pricing: Pricing): (indexes: seq<nat>)
    ensures InRange(indexes, |lines|) && Ascending(indexes)
  {
    FilterIndexes(|lines|, EligibleAt(lines, dealId, pricing));
    Filter(Indexes(|lines|), EligibleAt(lines, dealId, pricing))
  }

  function ScopeIndexes(lines: seq<DealLine>, dealId: string, pricing: Pricing, scope: Scope): (indexes: seq<nat>)
    ensures InRange(indexes, |lines|)
  {
    FilterMembers(EligibleIndexes(lines, dealId, pricing), MatchesAt(lines, scope));
    Filter(EligibleIndexes(lines, dealId, pricing), MatchesAt(lines, scope))
  }

  function HasLimit(): Scope -> bool {
    (scope: Scope) => scope.itemLimit.Some? && scope.itemLimit.value > 0
  }

  function LimitedScopes(pricing: Pricing): (scopes: seq<Scope>)
    ensures forall s :: 0 <= s < |scopes| ==> scopes[s] in pricing.categoryScopes
    ensures forall s :: 0 <= s < |scopes| ==> scopes[s].itemLimit.Some? && scopes[s].itemLimit.value > 0
  {
    FilterMembers(pricing.categoryScopes, HasLimit());
    var scopes := Filter(pricing.categoryScopes, HasLimit());
    assert forall s :: 0 <= s < |scopes| ==> scopes[s] in scopes;
    scopes
  }

  // ----- Units -----

  ghost predicate InRange(indexes: seq<nat>, n: nat) {
    forall k :: 0 <= k < |indexes| ==> indexes[k] < n
  }

  ghost predicate All(indexes: seq<nat>, keep: nat -> bool) {
    forall k :: 0 <= k < |indexes| ==> keep(indexes[k])
  }

  ghost predicate AllIn(units: seq<seq<nat>>, keep: nat -> bool) {
    forall s :: 0 <= s < |units| ==> All(units[s], keep)
  }

  function LessThan(n: nat): nat -> bool { (i: nat) => i < n }

  lemma {:induction false} AllLess(indexes: seq<nat>, n: nat)
    ensures InRange(indexes, n) <==> All(indexes, LessThan(n))
  {}

  /** One occurrence of the line's index for each unit of the line. */
  function UnitsFor(lines: seq<DealLine>, indexes: seq<nat>): (units: seq<nat>)
    requires InRange(indexes, |lines|)
    ensures InRange(units, |lines|)
  {
    if indexes == [] then []
    else
      var last := indexes[|indexes| - 1];
      UnitsFor(lines, indexes[..|indexes| - 1]) + seq(lines[last].quantity, _ => last)
  }

  function Line(i: nat): nat -> bool { (j: nat) => j == i }

  function Count(units: seq<nat>, i: nat): nat { |Filter(units, Line(i))| }

  lemma {:induction false} CountSnoc(units: seq<nat>, u: nat, i: nat)
    ensures Count(units + [u], i) == Count(units, i) + (if u == i then 1 else 0)
  {
    assert (units + [u])[..|units|] == units;
  }

  /** The entries of a group: for each line drawn from, in line order, the number of units drawn. */
  function Compact(units: seq<nat>, n: nat): seq<Entry> {
    if n == 0 then []
    else
      var count := Count(units, n - 1);
      if count > 0 then Compact(units, n - 1) + [Entry(n - 1, count)] else Compact(units, n - 1)
  }

  ghost predicate EntriesBelow(entries: seq<Entry>, n: nat) {
    forall k :: 0 <= k < |entries| ==> entries[k].index < n && entries[k].quantity > 0
  }

  ghost predicate EntriesAscending(entries: seq<Entry>) {
    forall k, l :: 0 <= k < l < |entries| ==> entries[k].index < entries[l].index
  }

  lemma {:induction false} CompactShape(units: seq<nat>, n: nat)
    ensures EntriesBelow(Compact(units, n), n) && EntriesAscending(Compact(units, n))
  {
    hide Count;
    if n > 0 {
      CompactShape(units, n - 1);
    }
  }

  lemma {:induction false} CompactNonEmpty(units: seq<nat>, n: nat, u: nat)
    requires u in units && u < n
    ensures Compact(units, n) != []
  {
    if u == n - 1 {
      FilterMembers(units, Line(u));
      assert u in Filter(units, Line(u));
    } else {
      CompactNonEmpty(units, n - 1, u);
    }
  }

  /** compactEntries: count units in a map, then list the counts by line index. */
  method CompactEntries(units: seq<nat>, lineCount: nat) returns (entries: seq<Entry>)
    ensures entries == Compact(units, lineCount)
  {
    var counts: map<nat, nat> := map[];
    for k := 0 to |units|
      invariant forall i: nat :: i in counts <==> Count(units[..k], i) > 0
      invariant forall i: nat :: i in counts ==> counts[i] == Count(units[..k], i)
    {
      assert units[..k + 1] == units[..k] + [units[k]];
      forall i: nat {
        CountSnoc(units[..k], units[k], i);
      }
      counts := counts[units[k] := (if units[k] in counts then counts[units[k]] else 0) + 1];
    }
    assert units[..|units|] == units;
    entries := [];
    for i := 0 to lineCount
      invariant entries == Compact(units, i)
    {
      if i in counts {
        entries := entries + [Entry(i, counts[i])];
      }
    }
  }

  /** Units of the entries whose line satisfies a condition. */
  ghost function UnitsIn(entries: seq<Entry>, keep: nat -> bool): nat {
    if entries == [] then 0
    else
      var last := entries[|entries| - 1];
      UnitsIn(entries[..|entries| - 1], keep) + (if keep(last.index) then last.quantity else 0)
  }

  ghost function AnyLine(): nat -> bool { (i: nat) => true }

  lemma {:induction false} UnitsInSnoc(entries: seq<Entry>, entry: Entry, keep: nat -> bool)
    ensures UnitsIn(entries + [entry], keep) == UnitsIn(entries, keep) + (if keep(entry.index) then entry.quantity else 0)
  {
    assert (entries + [entry])[..|entries|] == entries;
  }

  lemma {:induction false} UnitsInConcat(xs: seq<Entry>, ys: seq<Entry>, keep: nat -> bool)
    ensures UnitsIn(xs + ys, keep) == UnitsIn(xs, keep) + UnitsIn(ys, keep)
  {
    if ys == [] {
      assert xs + ys == xs;
    } else {
      UnitsInConcat(xs, ys[..|ys| - 1], keep);
      assert (xs + ys)[..|xs + ys| - 1] == xs + ys[..|ys| - 1];
    }
  }

  ghost function CountBelow(units: seq<nat>, n: nat, keep: nat -> bool): nat {
    if n == 0 then 0
    else CountBelow(units, n - 1, keep) + (if keep(n - 1) then Count(units, n - 1) else 0)
  }

  lemma {:induction false} UnitsInCompactCount(units: seq<nat>, n: nat, keep: nat -> bool)
    ensures UnitsIn(Compact(units, n), keep) == CountBelow(units, n, keep)
  {
    if n > 0 {
      UnitsInCompactCount(units, n - 1, keep);
      if Count(units, n - 1) > 0 {
        UnitsInSnoc(Compact(units, n - 1), Entry(n - 1, Count(units, n - 1)), keep);
      }
    }
  }

  lemma {:induction false} CountBelowSnoc(units: seq<nat>, u: nat, n: nat, keep: nat -> bool)
    ensures CountBelow(units + [u], n, keep) == CountBelow(units, n, keep) + (if u < n && keep(u) then 1 else 0)
  {
    if n > 0 {
      CountBelowSnoc(units, u, n - 1, keep);
      CountSnoc(units, u, n - 1);
    }
  }

  lemma {:induction false} CountBelowFilter(units: seq<nat>, n: nat, keep: nat -> bool)
    requires InRange(units, n)
    ensures CountBelow(units, n, keep) == |Filter(units, keep)|
  {
    if units == [] {
      CountBelowEmpty(n, keep);
    } else {
      var front, last := units[..|units| - 1], units[|units| - 1];
      assert units == front + [last];
      CountBelowFilter(front, n, keep);
      CountBelowSnoc(front, last, n, keep);
    }
  }

  lemma {:induction false} CountBelowEmpty(n: nat, keep: nat -> bool)
    ensures CountBelow([], n, keep) == 0
  {
    if n > 0 {
      CountBelowEmpty(n - 1, keep);
    }
  }

  /** Compacting keeps every unit. */
  lemma {:induction false} UnitsInCompact(units: seq<nat>, n: nat, keep: nat -> bool)
    requires InRange(units, n)
    ensures UnitsIn(Compact(units, n), keep) == |Filter(units, keep)|
  {
    UnitsInCompactCount(units, n, keep);
    CountBelowFilter(units, n, keep);
  }

  lemma {:induction false} UnitsForMembers(lines: seq<DealLine>, indexes: seq<nat>, keep: nat -> bool)
    requires InRange(indexes, |lines|)
    requires forall k :: 0 <= k < |indexes| ==> keep(indexes[k])
    ensures forall k :: 0 <= k < |UnitsFor(lines, indexes)| ==> keep(UnitsFor(lines, indexes)[k])
  {
    if indexes != [] {
      UnitsForMembers(lines, indexes[..|indexes| - 1], keep);
    }
  }

  ghost predicate Ascending(indexes: seq<nat>) {
    forall j, k :: 0 <= j < k < |indexes| ==> indexes[j] < indexes[k]
  }

  /** The units of a duplicate-free list of lines contain each line once per unit. */
  lemma {:induction false} UnitsForLine(lines: seq<DealLine>, indexes: seq<nat>, i: nat)
    requires InRange(indexes, |lines|)
    requires Ascending(indexes)
    ensures Count(UnitsFor(lines, indexes), i) == if i in indexes then lines[i].quantity else 0
  {
    if indexes != [] {
      var front, last := indexes[..|indexes| - 1], indexes[|indexes| - 1];
      assert indexes == front + [last];
      UnitsForLine(lines, front, i);
      assert i in indexes <==> i in front || i == last;
      assert last !in front;
      hide Ascending, InRange, Filter;
      FilterConcat(UnitsFor(lines, front), seq(lines[last].quantity, _ => last), Line(i));
      UnitsOfOneLine(last, lines[last].quantity, i);
    }
  }

  lemma {:induction false} UnitsOfOneLine(u: nat, quantity: nat, i: nat)
    ensures Count(seq(quantity, _ => u), i) == if i == u then quantity else 0
  {
    var units: seq<nat> := seq(quantity, _ => u);
    if i == u {
      FilterAll(units, Line(i));
    } else {
      FilterNone(units, Line(i));
    }
  }

  lemma {:induction false} FilterIndexes(n: nat, keep: nat -> bool)
    ensures Ascending(Filter(Indexes(n), keep)) && InRange(Filter(Indexes(n), keep), n)
  {
    if n > 0 {
      assert Indexes(n)[..n - 1] == Indexes(n - 1);
      FilterIndexes(n - 1, keep);
    }
  }

  // ----- Flexible groups of units -----

  /** count * size, one group at a time. */
  function Times(count: nat, size: nat): nat {
    if count == 0 then 0 else Times(count - 1, size) + size
  }

  lemma {:induction false} TimesProduct(count: nat, size: nat)
    ensures Times(count, size) == count * size
  {
    if count > 0 {
      TimesProduct(count - 1, size);
    }
  }

  lemma {:induction false} TimesMonotone(m: nat, n: nat, size: nat)
    requires m <= n
    ensures Times(m, size) <= Times(n, size)
  {
    if m < n {
      TimesMonotone(m, n - 1, size);
    }
  }

  /** Whole groups of `size` units that a supply gives. */
  function GroupCount(supply: nat, size: nat): (count: nat)
    requires size > 0
    ensures Times(count, size) <= supply < Times(count + 1, size)
  {
    TimesProduct(supply / size, size);
    TimesProduct(supply / size + 1, size);
    supply / size
  }

  /** The g-th run of `size` units. */
  function Slice(units: seq<nat>, g: nat, size: nat): (slice: seq<nat>)
    requires Times(g + 1, size) <= |units|
    ensures |slice| == size
    ensures forall k :: 0 <= k < size ==> slice[k] == units[Times(g, size) + k]
  {
    units[Times(g, size)..Times(g + 1, size)]
  }

  /** The supply of each scope: units of eligible lines that match it. */
  function UnitsByScope(lines: seq<DealLine>, dealId: string, pricing: Pricing, scopes: seq<Scope>): (units: seq<seq<nat>>)
    ensures |units| == |scopes|
    ensures forall s :: 0 <= s < |scopes| ==> units[s] == ScopeUnits(lines, dealId, pricing, scopes[s])
  {
    seq(|scopes|, s requires 0 <= s < |scopes| => ScopeUnits(lines, dealId, pricing, scopes[s]))
  }

  function ScopeUnits(lines: seq<DealLine>, dealId: string, pricing: Pricing, scope: Scope): seq<nat> {
    UnitsFor(lines, ScopeIndexes(lines, dealId, pricing, scope))
  }

  ghost predicate Limited(scopes: seq<Scope>) {
    forall s :: 0 <= s < |scopes| ==> scopes[s].itemLimit.Some? && scopes[s].itemLimit.value > 0
  }

  /** The number of groups every scope can supply. */
  function ScopeGroupCount(units: seq<seq<nat>>, scopes: seq<Scope>): (count: nat)
    requires |units| == |scopes| > 0
    requires forall s :: 0 <= s < |scopes| ==> scopes[s].itemLimit.Some? && scopes[s].itemLimit.value > 0
    ensures forall s :: 0 <= s < |scopes| ==> count <= GroupCount(|units[s]|, scopes[s].itemLimit.value)
    ensures exists s :: 0 <= s < |scopes| && count == GroupCount(|units[s]|, scopes[s].itemLimit.value)
  {
    var n := |scopes| - 1;
    var last := GroupCount(|units[n]|, scopes[n].itemLimit.value);
    if n == 0 then last else Min(ScopeGroupCount(units[..n], scopes[..n]), last)
  }

  /** Every scope has units for k groups. */
  ghost predicate Fits(units: seq<seq<nat>>, scopes: seq<Scope>, k: nat) {
    && |units| == |scopes|
    && Limited(scopes)
    && forall s :: 0 <= s < |scopes| ==> Times(k, scopes[s].itemLimit.value) <= |units[s]|
  }

  /** The units of group g: the next `itemLimit` units of every scope. */
  function GroupUnits(units: seq<seq<nat>>, scopes: seq<Scope>, g: nat): seq<nat>
    requires Fits(units, scopes, g + 1)
  {
    if scopes == [] then []
    else
      var n := |scopes| - 1;
      GroupUnits(units[..n], scopes[..n], g) + Slice(units[n], g, scopes[n].itemLimit.value)
  }

  lemma {:induction false} CountsFit(units: seq<seq<nat>>, scopes: seq<Scope>, g: nat)
    requires |units| == |scopes| > 0
    requires Limited(scopes)
    requires g < ScopeGroupCount(units, scopes)
    ensures Fits(units, scopes, g + 1)
  {
    forall s | 0 <= s < |scopes|
      ensures Times(g + 1, scopes[s].itemLimit.value) <= |units[s]|
    {
      TimesMonotone(g + 1, GroupCount(|units[s]|, scopes[s].itemLimit.value), scopes[s].itemLimit.value);
    }
  }

  function CategoryGroup(lines: seq<DealLine>, units: seq<seq<nat>>, scopes: seq<Scope>, g: nat): Group
    requires |units| == |scopes| > 0
    requires Limited(scopes)
    requires g < ScopeGroupCount(units, scopes)
  {
    CountsFit(units, scopes, g);
    Group(Compact(GroupUnits(units, scopes, g), |lines|), 1)
  }

  function QuantityGroup(lines: seq<DealLine>, units: seq<nat>, size: nat, g: nat): Group
    requires size > 0 && g < GroupCount(|units|, size)
  {
    TimesMonotone(g + 1, GroupCount(|units|, size), size);
    Group(Compact(Slice(units, g, size), |lines|), 1)
  }

  function CategoryGroups(lines: seq<DealLine>, units: seq<seq<nat>>, scopes: seq<Scope>): (groups: seq<Group>)
    requires |units| == |scopes| > 0
    requires Limited(scopes)
    ensures |groups| == ScopeGroupCount(units, scopes)
    ensures forall g :: 0 <= g < |groups| ==> groups[g] == CategoryGroup(lines, units, scopes, g)
  {
    seq(ScopeGroupCount(units, scopes),
      g requires 0 <= g < ScopeGroupCount(units, scopes) => CategoryGroup(lines, units, scopes, g))
  }

  function QuantityGroups(lines: seq<DealLine>, units: seq<nat>, size: nat): (groups: seq<Group>)
    requires size > 0
    ensures |groups| == GroupCount(|units|, size)
    ensures forall g :: 0 <= g < |groups| ==> groups[g] == QuantityGroup(lines, units, size, g)
  {
    seq(GroupCount(|units|, size), g requires 0 <= g < GroupCount(|units|, size) => QuantityGroup(lines, units, size, g))
  }

  /** Deal groups by units. No group is empty, so the source's closing filter keeps them all. */
  function FlexibleGroups(lines: seq<DealLine>, dealId: string, pricing: Pricing): seq<Group> {
    var eligible := EligibleIndexes(lines, dealId, pricing);
    var scopes := LimitedScopes(pricing);
    if eligible == [] then []
    else if scopes != [] then
      var units := UnitsByScope(lines, dealId, pricing, scopes);
      if exists s :: 0 <= s < |units| && units[s] == [] then [] else CategoryGroups(lines, units, scopes)
    else
      var size := pricing.requiredQuantity.GetOr(0);
      if size < 1 then [] else QuantityGroups(lines, UnitsFor(lines, eligible), size)
  }

  // ----- Groups of whole lines -----

  /** The common quantity of the listed lines, or 0 when they differ. */
  function SingleQuantity(lines: seq<DealLine>, indexes: seq<nat>): nat
    requires InRange(indexes, |lines|)
  {
    if indexes == [] then 0
    else if forall k :: 0 <= k < |indexes| ==> lines[indexes[k]].quantity == lines[indexes[0]].quantity
    then lines[indexes[0]].quantity
    else 0
  }

  /** A group that takes every unit of the listed lines, when they all have the same quantity. */
  function LineGroup(lines: seq<DealLine>, indexes: seq<nat>): seq<Group>
    requires InRange(indexes, |lines|)
  {
    var quantity := SingleQuantity(lines, indexes);
    if quantity > 0
    then [Group(seq(|indexes|, k requires 0 <= k < |indexes| => Entry(indexes[k], quantity)), quantity)]
    else []
  }

  /** One group for each list of lines whose quantities agree. */
  function LineGroupsOf(lines: seq<DealLine>, lists: seq<seq<nat>>): seq<Group>
    requires AllIn(lists, LessThan(|lines|))
  {
    if lists == [] then []
    else
      AllLess(lists[|lists| - 1], |lines|);
      LineGroupsOf(lines, lists[..|lists| - 1]) + LineGroup(lines, lists[|lists| - 1])
  }

  function ItemAt(lines: seq<DealLine>, dealId: string, menuItemId: string): nat -> bool {
    (i: nat) => i < |lines| && lines[i].dealId == Some(dealId) && lines[i].menuItemId == menuItemId
  }

  function ItemIndexes(lines: seq<DealLine>, dealId: string, menuItemId: string): (indexes: seq<nat>)
    ensures InRange(indexes, |lines|) && Ascending(indexes)
  {
    FilterIndexes(|lines|, ItemAt(lines, dealId, menuItemId));
    Filter(Indexes(|lines|), ItemAt(lines, dealId, menuItemId))
  }

  /** How many lines the scarcest required item has. */
  function ItemGroupCount(lines: seq<DealLine>, dealId: string, menuItemIds: seq<string>): (count: nat)
    requires menuItemIds != []
    ensures forall k :: 0 <= k < |menuItemIds| ==> count <= |ItemIndexes(lines, dealId, menuItemIds[k])|
  {
    var n := |menuItemIds| - 1;
    var last := |ItemIndexes(lines, dealId, menuItemIds[n])|;
    if n == 0 then last else Min(ItemGroupCount(lines, dealId, menuItemIds[..n]), last)
  }

  /** The g-th line of every required item, for every g the scarcest item allows. */
  function ItemLists(lines: seq<DealLine>, dealId: string, menuItemIds: seq<string>): (lists: seq<seq<nat>>)
    requires menuItemIds != []
    ensures |lists| == ItemGroupCount(lines, dealId, menuItemIds)
    ensures forall g :: 0 <= g < |lists| ==> lists[g] == ItemList(lines, dealId, menuItemIds, g)
  {
    seq(ItemGroupCount(lines, dealId, menuItemIds),
      g requires 0 <= g < ItemGroupCount(lines, dealId, menuItemIds) => ItemList(lines, dealId, menuItemIds, g))
  }

  function ItemList(lines: seq<DealLine>, dealId: string, menuItemIds: seq<string>, g: nat): (list: seq<nat>)
    requires forall k :: 0 <= k < |menuItemIds| ==> g < |ItemIndexes(lines, dealId, menuItemIds[k])|
    ensures |list| == |menuItemIds|
    ensures forall k :: 0 <= k < |list| ==> list[k] == ItemIndexes(lines, dealId, menuItemIds[k])[g]
  {
    seq(|menuItemIds|, k requires 0 <= k < |menuItemIds| => ItemIndexes(lines, dealId, menuItemIds[k])[g])
  }

  function InCategory(lines: seq<DealLine>, scope: Scope): nat -> bool {
    (i: nat) => i < |lines| && scope.menuCategoryId in lines[i].categoryIds
  }

  function CategoryIndexes(lines: seq<DealLine>, eligible: seq<nat>, scope: Scope): (indexes: seq<nat>)
    ensures InRange(indexes, |lines|)
  {
    FilterMembers(eligible, InCategory(lines, scope));
    Filter(eligible, InCategory(lines, scope))
  }

  function IndexesByScope(lines: seq<DealLine>, eligible: seq<nat>, scopes: seq<Scope>): (indexes: seq<seq<nat>>)
    ensures |indexes| == |scopes|
    ensures AllIn(indexes, LessThan(|lines|))
  {
    var indexes := seq(|scopes|, s requires 0 <= s < |scopes| => CategoryIndexes(lines, eligible, scopes[s]));
    assert forall s :: 0 <= s < |indexes| ==> InRange(indexes[s], |lines|);
    indexes
  }

  /** The listed indexes in ascending order. */
  function SortIndexes(indexes: seq<nat>): seq<nat> {
    if indexes == [] then [] else InsertIndex(SortIndexes(indexes[..|indexes| - 1]), indexes[|indexes| - 1])
  }

  function InsertIndex(sorted: seq<nat>, i: nat): seq<nat> {
    if sorted == [] || sorted[|sorted| - 1] <= i then sorted + [i]
    else InsertIndex(sorted[..|sorted| - 1], i) + [sorted[|sorted| - 1]]
  }

  lemma {:induction false} SortIndexesKeep(indexes: seq<nat>, keep: nat -> bool)
    requires All(indexes, keep)
    ensures All(SortIndexes(indexes), keep)
    ensures indexes != [] ==> SortIndexes(indexes) != []
  {
    if indexes != [] {
      SortIndexesKeep(indexes[..|indexes| - 1], keep);
      InsertIndexKeep(SortIndexes(indexes[..|indexes| - 1]), indexes[|indexes| - 1], keep);
    }
  }

  lemma {:induction false} InsertIndexKeep(sorted: seq<nat>, i: nat, keep: nat -> bool)
    requires All(sorted, keep) && keep(i)
    ensures All(InsertIndex(sorted, i), keep)
  {
    if !(sorted == [] || sorted[|sorted| - 1] <= i) {
      InsertIndexKeep(sorted[..|sorted| - 1], i, keep);
    }
  }

  lemma {:induction false} GroupUnitsKeep(units: seq<seq<nat>>, scopes: seq<Scope>, g: nat, keep: nat -> bool)
    requires Fits(units, scopes, g + 1)
    requires AllIn(units, keep)
    ensures All(GroupUnits(units, scopes, g), keep)
    ensures scopes != [] ==> GroupUnits(units, scopes, g) != []
  {
    if scopes != [] {
      GroupUnitsKeep(units[..|scopes| - 1], scopes[..|scopes| - 1], g, keep);
      assert All(units[|scopes| - 1], keep);
    }
  }

  /** The next `itemLimit` lines of every scope, in line order, as often as every scope allows. */
  function ScopedLists(indexes: seq<seq<nat>>, scopes: seq<Scope>): (lists: seq<seq<nat>>)
    requires |indexes| == |scopes| > 0 && Limited(scopes)
    ensures |lists| == ScopeGroupCount(indexes, scopes)
    ensures forall g :: 0 <= g < |lists| ==> lists[g] == ScopedList(indexes, scopes, g)
  {
    seq(ScopeGroupCount(indexes, scopes),
      g requires 0 <= g < ScopeGroupCount(indexes, scopes) => ScopedList(indexes, scopes, g))
  }

  function ScopedList(indexes: seq<seq<nat>>, scopes: seq<Scope>, g: nat): seq<nat>
    requires |indexes| == |scopes| > 0 && Limited(scopes)
    requires g < ScopeGroupCount(indexes, scopes)
  {
    CountsFit(indexes, scopes, g);
    SortIndexes(GroupUnits(indexes, scopes, g))
  }

  lemma {:induction false} ScopedListsKeep(indexes: seq<seq<nat>>, scopes: seq<Scope>, keep: nat -> bool)
    requires |indexes| == |scopes| > 0 && Limited(scopes)
    requires AllIn(indexes, keep)
    ensures AllIn(ScopedLists(indexes, scopes), keep)
  {
    forall g | 0 <= g < ScopeGroupCount(indexes, scopes)
      ensures All(ScopedLists(indexes, scopes)[g], keep)
    {
      CountsFit(indexes, scopes, g);
      GroupUnitsKeep(indexes, scopes, g, keep);
      SortIndexesKeep(GroupUnits(indexes, scopes, g), keep);
    }
  }

  /** Consecutive runs of `size` lines. */
  function SizedLists(indexes: seq<nat>, size: nat): (lists: seq<seq<nat>>)
    requires size > 0
    ensures |lists| == GroupCount(|indexes|, size)
    ensures forall g :: 0 <= g < |lists| ==> lists[g] == SizedList(indexes, size, g)
  {
    seq(GroupCount(|indexes|, size), g requires 0 <= g < GroupCount(|indexes|, size) => SizedList(indexes, size, g))
  }

  function SizedList(indexes: seq<nat>, size: nat, g: nat): seq<nat>
    requires size > 0 && g < GroupCount(|indexes|, size)
  {
    TimesMonotone(g + 1, GroupCount(|indexes|, size), size);
    Slice(indexes, g, size)
  }

  lemma {:induction false} SizedListsKeep(indexes: seq<nat>, size: nat, keep: nat -> bool)
    requires size > 0 && All(indexes, keep)
    ensures AllIn(SizedLists(indexes, size), keep)
  {
    forall g | 0 <= g < GroupCount(|indexes|, size)
      ensures All(SizedLists(indexes, size)[g], keep)
    {
      TimesMonotone(g + 1, GroupCount(|indexes|, size), size);
    }
  }

  function FlexibleLineGroups(lines: seq<DealLine>, eligible: seq<nat>, pricing: Pricing): seq<Group>
    requires InRange(eligible, |lines|)
  {
    var scopes := LimitedScopes(pricing);
    if eligible == [] then []
    else if scopes != [] then
      var indexes := IndexesByScope(lines, eligible, scopes);
      if exists s :: 0 <= s < |indexes| && indexes[s] == [] then []
      else
        ScopedListsKeep(indexes, scopes, LessThan(|lines|));
        LineGroupsOf(lines, ScopedLists(indexes, scopes))
    else
      var size := pricing.requiredQuantity.GetOr(0);
      if size < 1 then []
      else
        AllLess(eligible, |lines|);
        SizedListsKeep(eligible, size, LessThan(|lines|));
        LineGroupsOf(lines, SizedLists(eligible, size))
  }

  /** findDealItemIndexGroups. A fixed deal with no required item makes the source ask for an array of
      infinite length, which throws; deals are stored with at least two items. */
  function LineGroups(lines: seq<DealLine>, dealId: string, pricing: Pricing): seq<Group>
    requires pricing.selectionMode.FixedItems? ==> pricing.menuItemIds != []
  {
    if pricing.selectionMode.FlexibleItems?
    then FlexibleLineGroups(lines, EligibleIndexes(lines, dealId, pricing), pricing)
    else LineGroupsOf(lines, ItemLists(lines, dealId, pricing.menuItemIds))
  }

  /** The groups that are priced. */
  function PricingGroups(lines: seq<DealLine>, dealId: string, pricing: Pricing): seq<Group>
    requires pricing.selectionMode.FixedItems? ==> pricing.menuItemIds != []
  {
    if pricing.selectionMode.FlexibleItems? then FlexibleGroups(lines, dealId, pricing)
    else LineGroups(lines, dealId, pricing)
  }

  /** The groups that are shown, and that a card's id is resolved against. */
  function DisplayGroups(lines: seq<DealLine>, dealId: string, pricing: Pricing): seq<Group>
    requires pricing.selectionMode.FixedItems? ==> pricing.menuItemIds != []
  {
    var direct := LineGroups(lines, dealId, pricing);
    if direct != [] then direct
    else if pricing.selectionMode.FlexibleItems? then FlexibleGroups(lines, dealId, pricing)
    else []
  }
}
