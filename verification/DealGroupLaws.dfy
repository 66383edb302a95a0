/** What flexible deal groups promise: full groups, no unit used twice, and no better grouping. */
module DealGroupLaws {
  import opened Prelude
  import opened DealGroups

  ghost function AllEntries(groups: seq<Group>): seq<Entry> {
    if groups == [] then [] else AllEntries(groups[..|groups| - 1]) + groups[|groups| - 1].entries
  }

  /** Units of line i used by all the groups together. */
  ghost function Taken(groups: seq<Group>, i: nat): nat {
    UnitsIn(AllEntries(groups), Line(i))
  }

  /** Units of the first n lines that satisfy a condition. */
  ghost function Supply(lines: seq<DealLine>, keep: nat -> bool, n: nat): nat
    requires n <= |lines|
  {
    if n == 0 then 0 else Supply(lines, keep, n - 1) + (if keep(n - 1) then lines[n - 1].quantity else 0)
  }

  // ----- Supply and demand -----

  lemma {:induction false} UnitsInSplit(entries: seq<Entry>, below: nat -> bool, n: nat, upTo: nat -> bool)
    requires forall i: nat :: upTo(i) <==> below(i) || i == n
    requires !below(n)
    ensures UnitsIn(entries, upTo) == UnitsIn(entries, below) + UnitsIn(entries, Line(n))
  {
    if entries != [] {
      UnitsInSplit(entries[..|entries| - 1], below, n, upTo);
    }
  }

  lemma {:induction false} UnitsInEqual(entries: seq<Entry>, f: nat -> bool, g: nat -> bool)
    requires forall k :: 0 <= k < |entries| ==> f(entries[k].index) == g(entries[k].index)
    ensures UnitsIn(entries, f) == UnitsIn(entries, g)
  {
    if entries != [] {
      UnitsInEqual(entries[..|entries| - 1], f, g);
    }
  }

  lemma {:induction false} UnitsInNone(entries: seq<Entry>, keep: nat -> bool)
    requires forall k :: 0 <= k < |entries| ==> !keep(entries[k].index)
    ensures UnitsIn(entries, keep) == 0
  {
    if entries != [] {
      UnitsInNone(entries[..|entries| - 1], keep);
    }
  }

  ghost function Below(keep: nat -> bool, n: nat): nat -> bool { (i: nat) => i < n && keep(i) }

  /** Entries that use no line beyond its quantity use no more units of a kind than there are. */
  lemma {:induction false} DemandWithinSupply(lines: seq<DealLine>, entries: seq<Entry>, keep: nat -> bool, n: nat)
    requires n <= |lines|
    requires forall i: nat :: i < n ==> UnitsIn(entries, Line(i)) <= lines[i].quantity
    ensures UnitsIn(entries, Below(keep, n)) <= Supply(lines, keep, n)
  {
    if n == 0 {
      UnitsInNone(entries, Below(keep, 0));
    } else {
      DemandWithinSupply(lines, entries, keep, n - 1);
      if keep(n - 1) {
        UnitsInSplit(entries, Below(keep, n - 1), n - 1, Below(keep, n));
      } else {
        UnitsInEqual(entries, Below(keep, n), Below(keep, n - 1));
      }
    }
  }

  /** The units of those of the first n lines that satisfy a condition, line by line. */
  ghost function KindUnits(lines: seq<DealLine>, keep: nat -> bool, n: nat): seq<nat>
    requires n <= |lines|
  {
    if n == 0 then []
    else KindUnits(lines, keep, n - 1) + seq(if keep(n - 1) then lines[n - 1].quantity else 0, _ => n - 1)
  }

  lemma {:induction false} KindUnitsFor(lines: seq<DealLine>, keep: nat -> bool, n: nat)
    requires n <= |lines|
    ensures InRange(Filter(Indexes(n), keep), |lines|)
    ensures UnitsFor(lines, Filter(Indexes(n), keep)) == KindUnits(lines, keep, n)
  {
    FilterIndexes(n, keep);
    if n > 0 {
      KindUnitsFor(lines, keep, n - 1);
      assert Indexes(n)[..n - 1] == Indexes(n - 1);
      var front := Filter(Indexes(n - 1), keep);
      if keep(n - 1) {
        assert Filter(Indexes(n), keep) == front + [n - 1];
        assert (front + [n - 1])[..|front|] == front;
      } else {
        assert Filter(Indexes(n), keep) == front;
        assert KindUnits(lines, keep, n) == KindUnits(lines, keep, n - 1);
      }
    }
  }

  lemma {:induction false} KindUnitsSupply(lines: seq<DealLine>, keep: nat -> bool, n: nat)
    requires n <= |lines|
    ensures |KindUnits(lines, keep, n)| == Supply(lines, keep, n)
    ensures forall k :: 0 <= k < |KindUnits(lines, keep, n)| ==>
      KindUnits(lines, keep, n)[k] < n && keep(KindUnits(lines, keep, n)[k]) && lines[KindUnits(lines, keep, n)[k]].quantity > 0
  {
    if n > 0 {
      KindUnitsSupply(lines, keep, n - 1);
    }
  }

  /** How many of the first m units come from line i: those left after the lines before it. */
  ghost function Drawn(lines: seq<DealLine>, keep: nat -> bool, m: nat, i: nat): nat
    requires i < |lines|
  {
    if keep(i) then Max(0, Min(lines[i].quantity, m - Supply(lines, keep, i))) else 0
  }

  lemma {:induction false} NoneCounted(units: seq<nat>, i: nat)
    requires i !in units
    ensures Count(units, i) == 0
  {
    FilterNone(units, Line(i));
  }

  lemma {:induction false} PrefixCount(lines: seq<DealLine>, keep: nat -> bool, n: nat, m: nat, i: nat)
    requires i < n <= |lines|
    requires m <= |KindUnits(lines, keep, n)|
    ensures Count(KindUnits(lines, keep, n)[..m], i) == Drawn(lines, keep, m, i)
  {
    var before, own := KindUnits(lines, keep, n - 1), if keep(n - 1) then lines[n - 1].quantity else 0;
    hide Count;
    KindUnitsSupply(lines, keep, n - 1);
    PrefixSplit(before, own, n - 1, m, i);
    if i == n - 1 {
      NoneCounted(before[..Min(m, |before|)], i);
    } else {
      PrefixCount(lines, keep, n - 1, Min(m, |before|), i);
      SupplyMonotone(lines, keep, i + 1, n - 1);
    }
  }

  /** A prefix of some units followed by `quantity` units of line u. */
  lemma {:induction false} PrefixSplit(before: seq<nat>, quantity: nat, u: nat, m: nat, i: nat)
    requires m <= |before| + quantity
    ensures Count((before + seq(quantity, _ => u))[..m], i)
            == Count(before[..Min(m, |before|)], i) + (if i == u then Max(0, m - |before|) else 0)
  {
    var own: seq<nat> := seq(quantity, _ => u);
    if m <= |before| {
      assert (before + own)[..m] == before[..m];
    } else {
      var tail := own[..m - |before|];
      assert (before + own)[..m] == before + tail && before[..|before|] == before;
      FilterConcat(before, tail, Line(i));
      if i == u {
        FilterAll(tail, Line(i));
      } else {
        FilterNone(tail, Line(i));
      }
    }
  }

  lemma {:induction false} SupplyMonotone(lines: seq<DealLine>, keep: nat -> bool, m: nat, n: nat)
    requires m <= n <= |lines|
    ensures Supply(lines, keep, m) <= Supply(lines, keep, n)
  {
    if m < n {
      SupplyMonotone(lines, keep, m, n - 1);
    }
  }

  // ----- Totals over groups -----

  lemma {:induction false} EachAtLeast(groups: seq<Group>, keep: nat -> bool, size: nat)
    requires forall g :: 0 <= g < |groups| ==> UnitsIn(groups[g].entries, keep) >= size
    ensures UnitsIn(AllEntries(groups), keep) >= Times(|groups|, size)
  {
    if groups != [] {
      EachAtLeast(groups[..|groups| - 1], keep, size);
      UnitsInConcat(AllEntries(groups[..|groups| - 1]), groups[|groups| - 1].entries, keep);
    }
  }

  lemma {:induction false} CountSlices(units: seq<nat>, g: nat, size: nat, keep: nat -> bool)
    requires Times(g + 1, size) <= |units|
    ensures Times(g, size) <= |units|
    ensures |Filter(units[..Times(g + 1, size)], keep)| == |Filter(units[..Times(g, size)], keep)| + |Filter(Slice(units, g, size), keep)|
  {
    assert units[..Times(g + 1, size)] == units[..Times(g, size)] + Slice(units, g, size);
    FilterConcat(units[..Times(g, size)], Slice(units, g, size), keep);
  }

  // ----- Any N units -----

  lemma {:induction false} QuantityTaken(
    lines: seq<DealLine>, units: seq<nat>, size: nat, groups: seq<Group>, keep: nat -> bool)
    requires InRange(units, |lines|) && size > 0
    requires |groups| <= GroupCount(|units|, size)
    requires forall g :: 0 <= g < |groups| ==> groups[g] == QuantityGroup(lines, units, size, g)
    ensures Times(|groups|, size) <= |units|
    ensures UnitsIn(AllEntries(groups), keep) == |Filter(units[..Times(|groups|, size)], keep)|
  {
    if groups != [] {
      var g := |groups| - 1;
      QuantityTaken(lines, units, size, groups[..g], keep);
      TimesMonotone(g + 1, GroupCount(|units|, size), size);
      CountSlices(units, g, size, keep);
      UnitsInConcat(AllEntries(groups[..g]), groups[g].entries, keep);
      UnitsInCompact(Slice(units, g, size), |lines|, keep);
    }
  }

  /** Groups that could be formed from the cart: real lines, none beyond its quantity, and every group holds
      at least `size` units of every kind asked for. */
  ghost predicate IsGrouping(lines: seq<DealLine>, groups: seq<Group>) {
    && (forall g :: 0 <= g < |groups| ==> EntriesBelow(groups[g].entries, |lines|))
    && (forall i: nat :: i < |lines| ==> Taken(groups, i) <= lines[i].quantity)
  }

  ghost predicate Fills(group: Group, keep: nat -> bool, size: nat) {
    UnitsIn(group.entries, keep) >= size
  }

  lemma {:induction false} QuantityGroupFull(lines: seq<DealLine>, units: seq<nat>, size: nat, g: nat, keep: nat -> bool)
    requires InRange(units, |lines|) && size > 0 && g < GroupCount(|units|, size)
    requires forall k :: 0 <= k < |units| ==> keep(units[k])
    ensures var entries := QuantityGroup(lines, units, size, g).entries;
      EntriesBelow(entries, |lines|) && EntriesAscending(entries) && UnitsIn(entries, keep) == size
  {
    TimesMonotone(g + 1, GroupCount(|units|, size), size);
    var slice := Slice(units, g, size);
    CompactShape(slice, |lines|);
    UnitsInCompact(slice, |lines|, keep);
    FilterAll(slice, keep);
  }

  /** With no category limits, every group has exactly the required quantity of units, all eligible; no line gives
      more units than it has; and fewer than one group's worth of eligible units is left. */
  lemma {:induction false} QuantityGroupsSound(lines: seq<DealLine>, dealId: string, pricing: Pricing, size: nat)
    requires LimitedScopes(pricing) == [] && size >= 1 && pricing.requiredQuantity == Some(size)
    ensures var groups := FlexibleGroups(lines, dealId, pricing);
      && IsGrouping(lines, groups)
      && (forall g :: 0 <= g < |groups| ==> IsFullGroup(groups[g], EligibleAt(lines, dealId, pricing), size))
      && Times(|groups|, size) <= Supply(lines, EligibleAt(lines, dealId, pricing), |lines|) < Times(|groups| + 1, size)
  {
    var keep := EligibleAt(lines, dealId, pricing);
    var units := KindUnits(lines, keep, |lines|);
    QuantityBranch(lines, dealId, pricing, size);
    KindUnitsSupply(lines, keep, |lines|);
    var groups := QuantityGroups(lines, units, size);
    forall g | 0 <= g < |groups|
      ensures IsFullGroup(groups[g], keep, size) && EntriesBelow(groups[g].entries, |lines|)
    {
      QuantityGroupFull(lines, units, size, g, keep);
      QuantityGroupFull(lines, units, size, g, AnyLine());
    }
    forall i: nat | i < |lines|
      ensures Taken(groups, i) <= lines[i].quantity
    {
      QuantityTakenWithin(lines, keep, size, i);
    }
  }

  lemma {:induction false} QuantityTakenWithin(lines: seq<DealLine>, keep: nat -> bool, size: nat, i: nat)
    requires size > 0 && i < |lines|
    requires InRange(KindUnits(lines, keep, |lines|), |lines|)
    ensures Taken(QuantityGroups(lines, KindUnits(lines, keep, |lines|), size), i) <= lines[i].quantity
  {
    hide UnitsIn, AllEntries, Filter, KindUnits, Supply, Times, QuantityGroup;
    var units := KindUnits(lines, keep, |lines|);
    var groups := QuantityGroups(lines, units, size);
    QuantityTaken(lines, units, size, groups, Line(i));
    PrefixCount(lines, keep, |lines|, Times(|groups|, size), i);
  }

  /** The early return for an empty supply gives what the general case would. */
  lemma {:induction false} QuantityBranch(lines: seq<DealLine>, dealId: string, pricing: Pricing, size: nat)
    requires LimitedScopes(pricing) == [] && size >= 1 && pricing.requiredQuantity == Some(size)
    ensures FlexibleGroups(lines, dealId, pricing)
            == QuantityGroups(lines, KindUnits(lines, EligibleAt(lines, dealId, pricing), |lines|), size)
  {
    KindUnitsFor(lines, EligibleAt(lines, dealId, pricing), |lines|);
    if EligibleIndexes(lines, dealId, pricing) == [] {
      assert Times(1, size) > 0;
      assert QuantityGroups(lines, [], size) == [];
    }
  }

  /** One deal of exactly `size` units, all of the given kind, listed once per line. */
  ghost predicate IsFullGroup(group: Group, keep: nat -> bool, size: nat) {
    && group.quantity == 1
    && EntriesAscending(group.entries)
    && UnitsIn(group.entries, AnyLine()) == size
    && UnitsIn(group.entries, keep) == size
  }

  /** No other grouping of the same cart has more groups of the required quantity. */
  lemma {:induction false} QuantityGroupsMaximal(
    lines: seq<DealLine>, dealId: string, pricing: Pricing, size: nat, others: seq<Group>)
    requires LimitedScopes(pricing) == [] && size >= 1 && pricing.requiredQuantity == Some(size)
    requires IsGrouping(lines, others)
    requires forall g :: 0 <= g < |others| ==> Fills(others[g], EligibleAt(lines, dealId, pricing), size)
    ensures |others| <= |FlexibleGroups(lines, dealId, pricing)|
  {
    QuantityGroupsSound(lines, dealId, pricing, size);
    CannotExceed(lines, EligibleAt(lines, dealId, pricing), size, others);
    LessGroups(|others|, |FlexibleGroups(lines, dealId, pricing)|, size, Supply(lines, EligibleAt(lines, dealId, pricing), |lines|));
  }

  lemma {:induction false} LessGroups(m: nat, n: nat, size: nat, supply: nat)
    requires Times(m, size) <= supply < Times(n + 1, size)
    ensures m <= n
  {
    if m > n {
      TimesMonotone(n + 1, m, size);
    }
  }

  /** A grouping cannot hold more groups of `size` units of a kind than the cart has units of that kind. */
  lemma {:induction false} CannotExceed(lines: seq<DealLine>, keep: nat -> bool, size: nat, others: seq<Group>)
    requires IsGrouping(lines, others)
    requires forall i: nat :: keep(i) ==> i < |lines|
    requires forall g :: 0 <= g < |others| ==> Fills(others[g], keep, size)
    ensures Times(|others|, size) <= Supply(lines, keep, |lines|)
  {
    var entries := AllEntries(others);
    EachAtLeast(others, keep, size);
    UnitsInEqual(entries, keep, Below(keep, |lines|));
    assert forall i: nat :: i < |lines| ==> UnitsIn(entries, Line(i)) == Taken(others, i);
    DemandWithinSupply(lines, entries, keep, |lines|);
  }

  // ----- Units per category -----

  /** No line of the deal is eligible under two of the limited scopes. */
  ghost predicate NoSharedLine(lines: seq<DealLine>, dealId: string, pricing: Pricing) {
    var scopes := LimitedScopes(pricing);
    forall i: nat, s, t :: 0 <= s < t < |scopes| ==>
      !(InScope(lines, dealId, scopes[s])(i) && InScope(lines, dealId, scopes[t])(i))
  }

  /** Units of line i that k groups draw, scope by scope. */
  ghost function DrawnByScopes(lines: seq<DealLine>, dealId: string, scopes: seq<Scope>, k: nat, i: nat): nat
    requires i < |lines| && Limited(scopes)
  {
    if scopes == [] then 0
    else
      var n := |scopes| - 1;
      DrawnByScopes(lines, dealId, scopes[..n], k, i)
      + Drawn(lines, InScope(lines, dealId, scopes[n]), Times(k, scopes[n].itemLimit.value), i)
  }

  /** The supply of a scope, said without the eligibility test it implies. */
  lemma {:induction false} ScopeUnitsSupply(lines: seq<DealLine>, dealId: string, pricing: Pricing, scope: Scope)
    requires scope in pricing.categoryScopes
    ensures ScopeUnits(lines, dealId, pricing, scope) == KindUnits(lines, InScope(lines, dealId, scope), |lines|)
  {
    FilterTwice(Indexes(|lines|), EligibleAt(lines, dealId, pricing), MatchesAt(lines, scope), InScope(lines, dealId, scope));
    KindUnitsFor(lines, InScope(lines, dealId, scope), |lines|);
  }

  ghost predicate ScopesOf(lines: seq<DealLine>, dealId: string, pricing: Pricing, scopes: seq<Scope>, units: seq<seq<nat>>) {
    && Limited(scopes)
    && |units| == |scopes|
    && (forall s :: 0 <= s < |scopes| ==>
      scopes[s] in pricing.categoryScopes && units[s] == ScopeUnits(lines, dealId, pricing, scopes[s]))
  }

  /** Units of a kind that the first k groups use, scope by scope. */
  ghost function UsedByScopes(units: seq<seq<nat>>, scopes: seq<Scope>, k: nat, keep: nat -> bool): nat
    requires Fits(units, scopes, k)
  {
    if scopes == [] then 0
    else
      var n := |scopes| - 1;
      UsedByScopes(units[..n], scopes[..n], k, keep) + |Filter(units[n][..Times(k, scopes[n].itemLimit.value)], keep)|
  }

  lemma {:induction false} UsedByOneMore(units: seq<seq<nat>>, scopes: seq<Scope>, g: nat, keep: nat -> bool)
    requires Fits(units, scopes, g + 1)
    ensures Fits(units, scopes, g)
    ensures UsedByScopes(units, scopes, g + 1, keep)
            == UsedByScopes(units, scopes, g, keep) + |Filter(GroupUnits(units, scopes, g), keep)|
  {
    forall s | 0 <= s < |scopes|
      ensures Times(g, scopes[s].itemLimit.value) <= |units[s]|
    {
    }
    if scopes != [] {
      var n := |scopes| - 1;
      UsedByOneMore(units[..n], scopes[..n], g, keep);
      CountSlices(units[n], g, scopes[n].itemLimit.value, keep);
      FilterConcat(GroupUnits(units[..n], scopes[..n], g), Slice(units[n], g, scopes[n].itemLimit.value), keep);
    }
  }

  lemma {:induction false} UsedByNone(units: seq<seq<nat>>, scopes: seq<Scope>, keep: nat -> bool)
    requires |units| == |scopes| && Limited(scopes)
    ensures UsedByScopes(units, scopes, 0, keep) == 0
  {
    if scopes != [] {
      UsedByNone(units[..|scopes| - 1], scopes[..|scopes| - 1], keep);
    }
  }

  /** The groups are those drawn, in turn, from the scopes' units. */
  ghost predicate DrawInTurn(units: seq<seq<nat>>, scopes: seq<Scope>, groups: seq<Group>, lineCount: nat) {
    forall g :: 0 <= g < |groups| ==> IsDrawn(units, scopes, g, groups[g], lineCount)
  }

  ghost predicate IsDrawn(units: seq<seq<nat>>, scopes: seq<Scope>, g: nat, group: Group, lineCount: nat) {
    Fits(units, scopes, g + 1) && group.entries == Compact(GroupUnits(units, scopes, g), lineCount)
  }

  lemma {:induction false} CategoryUsed(
    units: seq<seq<nat>>, scopes: seq<Scope>, groups: seq<Group>, lineCount: nat, keep: nat -> bool)
    requires |units| == |scopes| && Limited(scopes)
    requires AllIn(units, LessThan(lineCount))
    requires DrawInTurn(units, scopes, groups, lineCount)
    ensures Fits(units, scopes, |groups|)
    ensures UnitsIn(AllEntries(groups), keep) == UsedByScopes(units, scopes, |groups|, keep)
  {
    if groups == [] {
      UsedByNone(units, scopes, keep);
    } else {
      var g := |groups| - 1;
      assert IsDrawn(units, scopes, g, groups[g], lineCount);
      CategoryUsed(units, scopes, groups[..g], lineCount, keep);
      UsedByOneMore(units, scopes, g, keep);
      UnitsInConcat(AllEntries(groups[..g]), groups[g].entries, keep);
      GroupUnitsKeep(units, scopes, g, LessThan(lineCount));
      UnitsInCompact(GroupUnits(units, scopes, g), lineCount, keep);
    }
  }

  /** The early returns for an empty supply give what the general case would. */
  lemma {:induction false} CategoryBranch(lines: seq<DealLine>, dealId: string, pricing: Pricing)
    requires LimitedScopes(pricing) != []
    ensures var scopes := LimitedScopes(pricing);
      FlexibleGroups(lines, dealId, pricing) == CategoryGroups(lines, UnitsByScope(lines, dealId, pricing, scopes), scopes)
  {
    var scopes := LimitedScopes(pricing);
    var units := UnitsByScope(lines, dealId, pricing, scopes);
    if EligibleIndexes(lines, dealId, pricing) == [] {
      assert units[0] == [];
    }
    if s :| 0 <= s < |units| && units[s] == [] {
      NoGroupsWithout(units, scopes, s);
      assert CategoryGroups(lines, units, scopes) == [];
    }
  }

  lemma {:induction false} NoGroupsWithout(units: seq<seq<nat>>, scopes: seq<Scope>, s: nat)
    requires |units| == |scopes| > 0 && Limited(scopes)
    requires s < |units| && units[s] == []
    ensures ScopeGroupCount(units, scopes) == 0
  {
    assert GroupCount(0, scopes[s].itemLimit.value) == 0;
  }

  lemma {:induction false} CategoryGroupsInTurn(lines: seq<DealLine>, units: seq<seq<nat>>, scopes: seq<Scope>)
    requires |units| == |scopes| > 0 && Limited(scopes)
    ensures DrawInTurn(units, scopes, CategoryGroups(lines, units, scopes), |lines|)
  {
    var groups := CategoryGroups(lines, units, scopes);
    forall g | 0 <= g < |groups|
      ensures IsDrawn(units, scopes, g, groups[g], |lines|)
    {
      CountsFit(units, scopes, g);
    }
  }

  lemma {:induction false} UsedIsDrawn(
    lines: seq<DealLine>, dealId: string, pricing: Pricing, units: seq<seq<nat>>, scopes: seq<Scope>, k: nat, i: nat)
    requires i < |lines|
    requires ScopesOf(lines, dealId, pricing, scopes, units)
    requires Fits(units, scopes, k)
    ensures UsedByScopes(units, scopes, k, Line(i)) == DrawnByScopes(lines, dealId, scopes, k, i)
  {
    if scopes != [] {
      var n := |scopes| - 1;
      UsedIsDrawn(lines, dealId, pricing, units[..n], scopes[..n], k, i);
      ScopeUnitsSupply(lines, dealId, pricing, scopes[n]);
      PrefixCount(lines, InScope(lines, dealId, scopes[n]), |lines|, Times(k, scopes[n].itemLimit.value), i);
    }
  }

  /** Exactly how many units of a line the category groups use, shared lines or not. */
  lemma {:induction false} CategoryTaken(lines: seq<DealLine>, dealId: string, pricing: Pricing, i: nat)
    requires LimitedScopes(pricing) != [] && i < |lines|
    ensures var groups := FlexibleGroups(lines, dealId, pricing);
      Taken(groups, i) == DrawnByScopes(lines, dealId, LimitedScopes(pricing), |groups|, i)
  {
    var groups, scopes := FlexibleGroups(lines, dealId, pricing), LimitedScopes(pricing);
    var units := UnitsByScope(lines, dealId, pricing, scopes);
    CategoryBranch(lines, dealId, pricing);
    CategoryGroupsInTurn(lines, units, scopes);
    CategoryUsed(units, scopes, groups, |lines|, Line(i));
    UsedIsDrawn(lines, dealId, pricing, units, scopes, |groups|, i);
  }

  /** A line eligible under at most one scope never gives more units than it has. */
  lemma {:induction false} DrawnOnce(lines: seq<DealLine>, dealId: string, scopes: seq<Scope>, k: nat, i: nat)
    requires i < |lines| && Limited(scopes)
    requires forall s, t :: 0 <= s < t < |scopes| ==>
      !(InScope(lines, dealId, scopes[s])(i) && InScope(lines, dealId, scopes[t])(i))
    ensures DrawnByScopes(lines, dealId, scopes, k, i) <= lines[i].quantity
    ensures (forall s :: 0 <= s < |scopes| ==> !InScope(lines, dealId, scopes[s])(i)) ==>
      DrawnByScopes(lines, dealId, scopes, k, i) == 0
  {
    if scopes != [] {
      DrawnOnce(lines, dealId, scopes[..|scopes| - 1], k, i);
    }
  }

  /** Of the units of one group, exactly the scope's own slice is in the scope. */
  lemma {:induction false} GroupScopeUnits(units: seq<seq<nat>>, scopes: seq<Scope>, g: nat, keep: nat -> bool, s: nat)
    requires Fits(units, scopes, g + 1)
    requires forall t, k :: 0 <= t < |scopes| && 0 <= k < |units[t]| ==> (keep(units[t][k]) <==> t == s)
    ensures |Filter(GroupUnits(units, scopes, g), keep)| == if s < |scopes| then scopes[s].itemLimit.value else 0
  {
    if scopes != [] {
      var n := |scopes| - 1;
      GroupScopeUnits(units[..n], scopes[..n], g, keep, s);
      var slice := Slice(units[n], g, scopes[n].itemLimit.value);
      FilterConcat(GroupUnits(units[..n], scopes[..n], g), slice, keep);
      if s == n {
        FilterAll(slice, keep);
      } else {
        FilterNone(slice, keep);
      }
    }
  }

  lemma {:induction false} CategoryGroupFull(
    lines: seq<DealLine>, dealId: string, pricing: Pricing, scopes: seq<Scope>, units: seq<seq<nat>>, g: nat, s: nat)
    requires ScopesOf(lines, dealId, pricing, scopes, units) && Fits(units, scopes, g + 1) && s < |scopes|
    requires forall i: nat, t, u :: 0 <= t < u < |scopes| ==>
      !(InScope(lines, dealId, scopes[t])(i) && InScope(lines, dealId, scopes[u])(i))
    ensures var entries := Compact(GroupUnits(units, scopes, g), |lines|);
      && EntriesBelow(entries, |lines|) && EntriesAscending(entries)
      && UnitsIn(entries, InScope(lines, dealId, scopes[s])) == scopes[s].itemLimit.value
  {
    var keep := InScope(lines, dealId, scopes[s]);
    forall t | 0 <= t < |scopes|
      ensures InRange(units[t], |lines|)
      ensures forall k :: 0 <= k < |units[t]| ==> (keep(units[t][k]) <==> t == s)
    {
      ScopeUnitsSupply(lines, dealId, pricing, scopes[t]);
      KindUnitsSupply(lines, InScope(lines, dealId, scopes[t]), |lines|);
    }
    GroupUnitsKeep(units, scopes, g, LessThan(|lines|));
    CompactShape(GroupUnits(units, scopes, g), |lines|);
    UnitsInCompact(GroupUnits(units, scopes, g), |lines|, keep);
    GroupScopeUnits(units, scopes, g, keep, s);
  }

  /** When no line is shared, every group has exactly the limit of every scope and no line is overdrawn. */
  lemma {:induction false} CategoryGroupsSound(lines: seq<DealLine>, dealId: string, pricing: Pricing)
    requires LimitedScopes(pricing) != []
    requires NoSharedLine(lines, dealId, pricing)
    ensures var groups := FlexibleGroups(lines, dealId, pricing);
      && IsGrouping(lines, groups)
      && (forall g, s :: 0 <= g < |groups| && 0 <= s < |LimitedScopes(pricing)| ==>
        UnitsIn(groups[g].entries, InScope(lines, dealId, LimitedScopes(pricing)[s])) == LimitedScopes(pricing)[s].itemLimit.value)
  {
    var groups, scopes := FlexibleGroups(lines, dealId, pricing), LimitedScopes(pricing);
    var units := UnitsByScope(lines, dealId, pricing, scopes);
    CategoryBranch(lines, dealId, pricing);
    CategoryGroupsInTurn(lines, units, scopes);
    forall i: nat | i < |lines|
      ensures Taken(groups, i) <= lines[i].quantity
    {
      CategoryTaken(lines, dealId, pricing, i);
      DrawnOnce(lines, dealId, scopes, |groups|, i);
    }
    forall g, s | 0 <= g < |groups| && 0 <= s < |scopes|
      ensures EntriesBelow(groups[g].entries, |lines|)
      ensures UnitsIn(groups[g].entries, InScope(lines, dealId, scopes[s])) == scopes[s].itemLimit.value
    {
      assert IsDrawn(units, scopes, g, groups[g], |lines|);
      CategoryGroupFull(lines, dealId, pricing, scopes, units, g, s);
    }
    assert 0 < |scopes|;
  }

  /** No other grouping that fills every scope has more groups, whether or not lines are shared. */
  lemma {:induction false} CategoryGroupsMaximal(lines: seq<DealLine>, dealId: string, pricing: Pricing, others: seq<Group>)
    requires LimitedScopes(pricing) != []
    requires IsGrouping(lines, others)
    requires forall g, s :: 0 <= g < |others| && 0 <= s < |LimitedScopes(pricing)| ==>
      Fills(others[g], InScope(lines, dealId, LimitedScopes(pricing)[s]), LimitedScopes(pricing)[s].itemLimit.value)
    ensures |others| <= |FlexibleGroups(lines, dealId, pricing)|
  {
    var s := ScarcestScope(lines, dealId, pricing);
    var scope, keep := LimitedScopes(pricing)[s], InScope(lines, dealId, LimitedScopes(pricing)[s]);
    CannotExceed(lines, keep, scope.itemLimit.value, others);
    LessGroups(|others|, |FlexibleGroups(lines, dealId, pricing)|, scope.itemLimit.value, Supply(lines, keep, |lines|));
  }

  /** Some scope has no units for one more group. */
  lemma {:induction false} ScarcestScope(lines: seq<DealLine>, dealId: string, pricing: Pricing) returns (s: nat)
    requires LimitedScopes(pricing) != []
    ensures s < |LimitedScopes(pricing)|
    ensures Supply(lines, InScope(lines, dealId, LimitedScopes(pricing)[s]), |lines|)
            < Times(|FlexibleGroups(lines, dealId, pricing)| + 1, LimitedScopes(pricing)[s].itemLimit.value)
  {
    var scopes := LimitedScopes(pricing);
    var units := UnitsByScope(lines, dealId, pricing, scopes);
    CategoryBranch(lines, dealId, pricing);
    s :| 0 <= s < |scopes| && ScopeGroupCount(units, scopes) == GroupCount(|units[s]|, scopes[s].itemLimit.value);
    ScopeUnitsSupply(lines, dealId, pricing, scopes[s]);
    KindUnitsSupply(lines, InScope(lines, dealId, scopes[s]), |lines|);
  }

  /** As many groups as the scarcest scope has units for, counted on the cart alone. */
  ghost function SupplyGroupCount(lines: seq<DealLine>, dealId: string, scopes: seq<Scope>): nat
    requires scopes != [] && Limited(scopes)
  {
    var n := |scopes| - 1;
    var last := GroupCount(Supply(lines, InScope(lines, dealId, scopes[n]), |lines|), scopes[n].itemLimit.value);
    if n == 0 then last else Min(SupplyGroupCount(lines, dealId, scopes[..n]), last)
  }

  lemma {:induction false} SupplyCount(lines: seq<DealLine>, dealId: string, pricing: Pricing, scopes: seq<Scope>, units: seq<seq<nat>>)
    requires scopes != [] && ScopesOf(lines, dealId, pricing, scopes, units)
    ensures ScopeGroupCount(units, scopes) == SupplyGroupCount(lines, dealId, scopes)
  {
    var n := |scopes| - 1;
    ScopeUnitsSupply(lines, dealId, pricing, scopes[n]);
    KindUnitsSupply(lines, InScope(lines, dealId, scopes[n]), |lines|);
    if n > 0 {
      SupplyCount(lines, dealId, pricing, scopes[..n], units[..n]);
    }
  }

  /** The code forms exactly that many groups. */
  lemma {:induction false} CategoryGroupCount(lines: seq<DealLine>, dealId: string, pricing: Pricing)
    requires LimitedScopes(pricing) != []
    ensures |FlexibleGroups(lines, dealId, pricing)| == SupplyGroupCount(lines, dealId, LimitedScopes(pricing))
  {
    var scopes := LimitedScopes(pricing);
    CategoryBranch(lines, dealId, pricing);
    SupplyCount(lines, dealId, pricing, scopes, UnitsByScope(lines, dealId, pricing, scopes));
  }

  /** No line gives more units than it has exactly when no line has fewer units than all scopes together draw from it,
      for as many groups as the scarcest scope supplies. */
  lemma {:induction false} CategoryGroupingExactly(lines: seq<DealLine>, dealId: string, pricing: Pricing)
    requires LimitedScopes(pricing) != []
    ensures IsGrouping(lines, FlexibleGroups(lines, dealId, pricing))
            <==> forall i: nat :: i < |lines| ==>
              DrawnByScopes(lines, dealId, LimitedScopes(pricing),
                            SupplyGroupCount(lines, dealId, LimitedScopes(pricing)), i) <= lines[i].quantity
  {
    hide FlexibleGroups, DrawnByScopes, SupplyGroupCount, LimitedScopes, Taken;
    var groups := FlexibleGroups(lines, dealId, pricing);
    CategoryGroupCount(lines, dealId, pricing);
    FlexibleGroupsShape(lines, dealId, pricing);
    forall g | 0 <= g < |groups|
      ensures EntriesBelow(groups[g].entries, |lines|)
    {
      assert IsDealGroup(lines, dealId, groups[g]);
      assert forall k :: 0 <= k < |groups[g].entries| ==> OfDeal(lines, dealId)(groups[g].entries[k].index);
    }
    forall i: nat | i < |lines|
      ensures Taken(groups, i)
           == DrawnByScopes(lines, dealId, LimitedScopes(pricing), SupplyGroupCount(lines, dealId, LimitedScopes(pricing)), i)
    {
      CategoryTaken(lines, dealId, pricing, i);
    }
  }

  /** A line shared by two scopes is drawn once for each: one unit in the cart, two units in deal groups. */
  lemma {:induction false} SharedLineOverdrawn()
    ensures
      var lines := [DealLine(Some("d"), "m", ["a", "b"], 1)];
      var pricing := Pricing(FlexibleItems, [], [Scope("a", Some(1), []), Scope("b", Some(1), [])], None, 500);
      Taken(FlexibleGroups(lines, "d", pricing), 0) == 2
  {
    var line := DealLine(Some("d"), "m", ["a", "b"], 1);
    var a, b := Scope("a", Some(1), []), Scope("b", Some(1), []);
    var pricing := Pricing(FlexibleItems, [], [a, b], None, 500);
    FilterAll([a, b], HasLimit());
    assert MatchesScope(line, a) && MatchesScope(line, b);
    OneUnitGroup(line, "d", pricing);
    CategoryTaken([line], "d", pricing, 0);
    UnitDrawnTwice(line, "d", a, b, |FlexibleGroups([line], "d", pricing)|);
  }

  lemma {:induction false} UnitDrawnTwice(line: DealLine, dealId: string, a: Scope, b: Scope, k: nat)
    requires line.dealId == Some(dealId) && line.quantity == 1 && k >= 1
    requires a.itemLimit == Some(1) && b.itemLimit == Some(1) && MatchesScope(line, a) && MatchesScope(line, b)
    ensures DrawnByScopes([line], dealId, [a, b], k, 0) == 2
  {
    TimesMonotone(1, k, 1);
    assert [a, b][..1] == [a] && [a][..0] == [];
    assert DrawnByScopes([line], dealId, [a], k, 0) == 1;
  }

  /** One unit that every limited scope accepts, with a limit of one each, makes a group. */
  lemma {:induction false} OneUnitGroup(line: DealLine, dealId: string, pricing: Pricing)
    requires line.dealId == Some(dealId) && line.quantity == 1
    requires LimitedScopes(pricing) != []
    requires forall s :: 0 <= s < |LimitedScopes(pricing)| ==>
      LimitedScopes(pricing)[s].itemLimit == Some(1) && MatchesScope(line, LimitedScopes(pricing)[s])
    ensures |FlexibleGroups([line], dealId, pricing)| >= 1
  {
    var one := Group([Entry(0, 1)], 1);
    OneUnitGrouping(line);
    hide IsGrouping, FlexibleGroups, LimitedScopes, UnitsIn;
    forall s | 0 <= s < |LimitedScopes(pricing)|
      ensures Fills(one, InScope([line], dealId, LimitedScopes(pricing)[s]), 1)
    {
      OneUnitFills(line, dealId, LimitedScopes(pricing)[s]);
    }
    CategoryGroupsMaximal([line], dealId, pricing, [one]);
  }

  lemma {:induction false} OneUnitGrouping(line: DealLine)
    requires line.quantity == 1
    ensures IsGrouping([line], [Group([Entry(0, 1)], 1)])
  {
    var one := Group([Entry(0, 1)], 1);
    assert AllEntries([one]) == [Entry(0, 1)];
    assert Taken([one], 0) == 1;
  }

  lemma {:induction false} OneUnitFills(line: DealLine, dealId: string, scope: Scope)
    requires line.dealId == Some(dealId) && MatchesScope(line, scope)
    ensures Fills(Group([Entry(0, 1)], 1), InScope([line], dealId, scope), 1)
  {}

  // ----- What every group looks like -----

  /** Lines of the deal that have units. */
  ghost function OfDeal(lines: seq<DealLine>, dealId: string): nat -> bool {
    (i: nat) => i < |lines| && lines[i].dealId == Some(dealId) && lines[i].quantity > 0
  }

  /** A group that takes units, and takes them from lines of the deal. */
  ghost predicate IsDealGroup(lines: seq<DealLine>, dealId: string, group: Group) {
    && group.entries != [] && group.quantity > 0
    && forall k :: 0 <= k < |group.entries| ==>
      group.entries[k].quantity > 0 && OfDeal(lines, dealId)(group.entries[k].index)
  }

  ghost predicate AreDealGroups(lines: seq<DealLine>, dealId: string, groups: seq<Group>) {
    forall g :: 0 <= g < |groups| ==> IsDealGroup(lines, dealId, groups[g])
  }

  lemma {:induction false} CompactKeep(units: seq<nat>, n: nat, keep: nat -> bool)
    requires All(units, keep)
    ensures forall k :: 0 <= k < |Compact(units, n)| ==> keep(Compact(units, n)[k].index)
  {
    if n > 0 {
      CompactKeep(units, n - 1, keep);
      if Count(units, n - 1) > 0 {
        FilterMembers(units, Line(n - 1));
        assert Filter(units, Line(n - 1))[0] == n - 1;
        var k :| 0 <= k < |units| && units[k] == n - 1;
      }
    }
  }

  lemma {:induction false} UnitGroupShape(lines: seq<DealLine>, dealId: string, units: seq<nat>)
    requires units != [] && All(units, OfDeal(lines, dealId))
    ensures IsDealGroup(lines, dealId, Group(Compact(units, |lines|), 1))
  {
    CompactShape(units, |lines|);
    CompactKeep(units, |lines|, OfDeal(lines, dealId));
    CompactNonEmpty(units, |lines|, units[0]);
  }

  lemma {:induction false} LineGroupShape(lines: seq<DealLine>, dealId: string, indexes: seq<nat>)
    requires InRange(indexes, |lines|)
    requires forall k :: 0 <= k < |indexes| ==> lines[indexes[k]].dealId == Some(dealId)
    ensures AreDealGroups(lines, dealId, LineGroup(lines, indexes))
  {}

  lemma {:induction false} FlexibleGroupsShape(lines: seq<DealLine>, dealId: string, pricing: Pricing)
    ensures AreDealGroups(lines, dealId, FlexibleGroups(lines, dealId, pricing))
  {
    var scopes := LimitedScopes(pricing);
    if scopes != [] {
      var units := UnitsByScope(lines, dealId, pricing, scopes);
      CategoryBranch(lines, dealId, pricing);
      CategoryGroupsInTurn(lines, units, scopes);
      forall s | 0 <= s < |scopes|
        ensures All(units[s], OfDeal(lines, dealId))
      {
        ScopeUnitsSupply(lines, dealId, pricing, scopes[s]);
        KindUnitsSupply(lines, InScope(lines, dealId, scopes[s]), |lines|);
      }
      var groups := CategoryGroups(lines, units, scopes);
      forall g | 0 <= g < |groups|
        ensures IsDealGroup(lines, dealId, groups[g])
      {
        assert IsDrawn(units, scopes, g, groups[g], |lines|);
        GroupUnitsKeep(units, scopes, g, OfDeal(lines, dealId));
        UnitGroupShape(lines, dealId, GroupUnits(units, scopes, g));
      }
    } else {
      var size := pricing.requiredQuantity.GetOr(0);
      if size >= 1 {
        QuantityBranch(lines, dealId, pricing, size);
        var keep := EligibleAt(lines, dealId, pricing);
        var units := KindUnits(lines, keep, |lines|);
        KindUnitsSupply(lines, keep, |lines|);
        forall g | 0 <= g < |QuantityGroups(lines, units, size)|
          ensures IsDealGroup(lines, dealId, QuantityGroups(lines, units, size)[g])
        {
          TimesMonotone(g + 1, GroupCount(|units|, size), size);
          UnitGroupShape(lines, dealId, Slice(units, g, size));
        }
      }
    }
  }

  ghost function InDeal(lines: seq<DealLine>, dealId: string): nat -> bool {
    (i: nat) => i < |lines| && lines[i].dealId == Some(dealId)
  }

  lemma {:induction false} LineGroupsOfShape(lines: seq<DealLine>, dealId: string, lists: seq<seq<nat>>)
    requires AllIn(lists, LessThan(|lines|)) && AllIn(lists, InDeal(lines, dealId))
    ensures AreDealGroups(lines, dealId, LineGroupsOf(lines, lists))
  {
    if lists != [] {
      LineGroupsOfShape(lines, dealId, lists[..|lists| - 1]);
      AllLess(lists[|lists| - 1], |lines|);
      assert All(lists[|lists| - 1], InDeal(lines, dealId));
      LineGroupShape(lines, dealId, lists[|lists| - 1]);
    }
  }

  lemma {:induction false} LineGroupsShape(lines: seq<DealLine>, dealId: string, pricing: Pricing)
    requires pricing.selectionMode.FixedItems? ==> pricing.menuItemIds != []
    ensures AreDealGroups(lines, dealId, LineGroups(lines, dealId, pricing))
  {
    if pricing.selectionMode.FixedItems? {
      ItemListsInDeal(lines, dealId, pricing.menuItemIds);
      LineGroupsOfShape(lines, dealId, ItemLists(lines, dealId, pricing.menuItemIds));
    } else {
      var eligible, scopes := EligibleIndexes(lines, dealId, pricing), LimitedScopes(pricing);
      FilterMembers(Indexes(|lines|), EligibleAt(lines, dealId, pricing));
      AllLess(eligible, |lines|);
      assert All(eligible, InDeal(lines, dealId));
      if scopes != [] {
        var indexes := IndexesByScope(lines, eligible, scopes);
        forall s | 0 <= s < |scopes|
          ensures All(indexes[s], InDeal(lines, dealId))
        {
          FilterMembers(eligible, InCategory(lines, scopes[s]));
        }
        ScopedListsKeep(indexes, scopes, LessThan(|lines|));
        ScopedListsKeep(indexes, scopes, InDeal(lines, dealId));
        LineGroupsOfShape(lines, dealId, ScopedLists(indexes, scopes));
      } else if pricing.requiredQuantity.GetOr(0) >= 1 {
        var size := pricing.requiredQuantity.GetOr(0);
        SizedListsKeep(eligible, size, LessThan(|lines|));
        SizedListsKeep(eligible, size, InDeal(lines, dealId));
        LineGroupsOfShape(lines, dealId, SizedLists(eligible, size));
      }
    }
  }

  lemma {:induction false} ItemListsInDeal(lines: seq<DealLine>, dealId: string, menuItemIds: seq<string>)
    requires menuItemIds != []
    ensures AllIn(ItemLists(lines, dealId, menuItemIds), InDeal(lines, dealId))
  {
    var lists := ItemLists(lines, dealId, menuItemIds);
    forall g, k | 0 <= g < |lists| && 0 <= k < |menuItemIds|
      ensures InDeal(lines, dealId)(lists[g][k])
    {
      FilterMembers(Indexes(|lines|), ItemAt(lines, dealId, menuItemIds[k]));
    }
  }

  lemma {:induction false} PricingGroupsShape(lines: seq<DealLine>, dealId: string, pricing: Pricing)
    requires pricing.selectionMode.FixedItems? ==> pricing.menuItemIds != []
    ensures AreDealGroups(lines, dealId, PricingGroups(lines, dealId, pricing))
    ensures AreDealGroups(lines, dealId, DisplayGroups(lines, dealId, pricing))
  {
    LineGroupsShape(lines, dealId, pricing);
    FlexibleGroupsShape(lines, dealId, pricing);
  }

  // ----- Which lines -----

  /** A line a deal may take: one of its own with a listed item, or with an item that some scope accepts in its category. */
  lemma {:induction false} EligibleExactly(lines: seq<DealLine>, dealId: string, pricing: Pricing, i: nat)
    ensures i in EligibleIndexes(lines, dealId, pricing)
            <==> i < |lines| && lines[i].dealId == Some(dealId)
                 && (lines[i].menuItemId in pricing.menuItemIds
                     || exists scope :: scope in pricing.categoryScopes && scope.menuCategoryId in lines[i].categoryIds
                                        && (scope.menuItemIds == [] || lines[i].menuItemId in scope.menuItemIds))
  {
    FilterMembers(Indexes(|lines|), EligibleAt(lines, dealId, pricing));
    assert i < |lines| ==> Indexes(|lines|)[i] == i;
  }

  /** What a scope of the deal may draw from: lines of the deal in its category with an item it accepts. */
  lemma {:induction false} ScopeExactly(lines: seq<DealLine>, dealId: string, pricing: Pricing, scope: Scope, i: nat)
    requires scope in pricing.categoryScopes
    ensures i in ScopeIndexes(lines, dealId, pricing, scope)
            <==> i < |lines| && lines[i].dealId == Some(dealId) && scope.menuCategoryId in lines[i].categoryIds
                 && (scope.menuItemIds == [] || lines[i].menuItemId in scope.menuItemIds)
  {
    FilterMembers(EligibleIndexes(lines, dealId, pricing), MatchesAt(lines, scope));
    EligibleExactly(lines, dealId, pricing, i);
  }
}
