/** What becomes of a request's scope: the items, categories, limits and variations that are stored, told from the request,
    and those the deal engine then asks for. */
module StoredRules {
  import opened Prelude
  import opened Promotions
  import opened PromotionLaws
  import opened DealGroups
  import opened StoredDeals

  /** Rule k is the last one for a category. */
  predicate IsLastFor(rules: seq<CategoryRule>, categoryId: string, k: nat) {
    && k < |rules| && rules[k].categoryId == categoryId
    && forall j :: k < j < |rules| ==> rules[j].categoryId != categoryId
  }

  function NonBlankText(text: Option<string>): Option<string> { if text == Some("") then None else text }

  /** A limit and a variation are those of the last rule for the category, or none without such a rule. */
  ghost predicate Follows(rules: seq<CategoryRule>, categoryId: string, itemLimit: Option<int>, variationId: Option<string>) {
    if categoryId != "" && exists k: nat :: IsLastFor(rules, categoryId, k)
    then exists k: nat ::
      IsLastFor(rules, categoryId, k) && itemLimit == rules[k].itemLimit && variationId == NonBlankText(rules[k].variationId)
    else itemLimit == None && variationId == None
  }

  lemma {:induction false} RuleMapAt(rules: seq<CategoryRule>, id: string)
    ensures id in RuleMap(rules) <==> id != "" && exists k: nat :: IsLastFor(rules, id, k)
    ensures id in RuleMap(rules) ==> Follows(rules, id, RuleMap(rules)[id].itemLimit, RuleMap(rules)[id].variationId)
    ensures id in RuleMap(rules) ==> RuleMap(rules)[id].categoryId == id
  {
    if rules != [] {
      var n := |rules| - 1;
      RuleMapAt(rules[..n], id);
      if rules[n].categoryId == id {
        assert IsLastFor(rules, id, n);
      } else {
        forall k: nat
          ensures IsLastFor(rules, id, k) <==> IsLastFor(rules[..n], id, k)
        {}
        if id in RuleMap(rules) {
          var k: nat :| IsLastFor(rules[..n], id, k) && RuleMap(rules[..n])[id].itemLimit == rules[..n][k].itemLimit
                        && RuleMap(rules[..n])[id].variationId == NonBlankText(rules[..n][k].variationId);
          assert IsLastFor(rules, id, k) && rules[..n][k] == rules[k];
        }
      }
    }
  }

  /** Every stored category has the limit and the variation of the last rule for it. */
  ghost predicate AllFollow(rules: seq<CategoryRule>, stored: seq<CategoryRule>) {
    forall k :: 0 <= k < |stored| ==> Follows(rules, stored[k].categoryId, stored[k].itemLimit, stored[k].variationId)
  }

  ghost predicate EachOnce(stored: seq<CategoryRule>) {
    forall j, k :: 0 <= j < k < |stored| ==> stored[j].categoryId != stored[k].categoryId
  }

  ghost predicate StoresId(stored: seq<CategoryRule>, id: string) {
    exists k :: 0 <= k < |stored| && stored[k].categoryId == id
  }

  lemma {:induction false} RulesForFollow(ids: seq<string>, rules: seq<CategoryRule>)
    requires forall j, k :: 0 <= j < k < |ids| ==> ids[j] != ids[k]
    ensures AllFollow(rules, RulesFor(ids, RuleMap(rules))) && EachOnce(RulesFor(ids, RuleMap(rules)))
    ensures forall id :: StoresId(RulesFor(ids, RuleMap(rules)), id) <==> id in ids
  {
    var stored := RulesFor(ids, RuleMap(rules));
    hide Follows, RuleMap;
    forall k | 0 <= k < |stored|
      ensures stored[k].categoryId == ids[k]
      ensures Follows(rules, stored[k].categoryId, stored[k].itemLimit, stored[k].variationId)
    {
      RuleMapAt(rules, ids[k]);
      if ids[k] !in RuleMap(rules) {
        NoRule(rules, ids[k]);
      }
    }
  }

  lemma {:induction false} NoRule(rules: seq<CategoryRule>, id: string)
    requires id == "" || !exists k: nat :: IsLastFor(rules, id, k)
    ensures Follows(rules, id, None, None)
  {}

  // ----- Which ids -----

  lemma {:induction false} NonBlankMembers(xs: seq<string>, x: string)
    ensures x in NonBlank(xs) <==> x != "" && x in xs
  {
    if xs != [] {
      NonBlankMembers(xs[..|xs| - 1], x);
      assert xs == xs[..|xs| - 1] + [xs[|xs| - 1]];
    }
  }

  /** The request names the category: as the single one, in the list of ids, or by a rule. */
  ghost predicate NamesCategory(r: Request, id: string) {
    id != "" && (r.categoryId == Some(id) || id in r.categoryIds.GetOr([]) || StoresId(r.scopeCategories.GetOr([]), id))
  }

  ghost predicate NamesItem(r: Request, id: string) {
    id != "" && (r.itemId == Some(id) || id in r.itemIds.GetOr([]))
  }

  /** After the request, the promotion is for the category: named by the request, or there before and not overridden. */
  ghost predicate LeavesCategory(c: Coupon, r: Request, id: string) {
    if r.categoryIds.Some? || r.scopeCategories.Some? || r.categoryId.Some? then NamesCategory(r, id)
    else id in CategoriesOf(c)
  }

  ghost predicate LeavesItem(c: Coupon, r: Request, id: string) {
    if r.itemIds.Some? || r.itemId.Some? then NamesItem(r, id) else id in ItemsOf(c)
  }

  lemma {:induction false} RuleIdsMember(rules: seq<CategoryRule>, id: string)
    ensures id in RuleIds(rules) <==> StoresId(rules, id)
  {
    if StoresId(rules, id) {
      var k :| 0 <= k < |rules| && rules[k].categoryId == id;
      assert RuleIds(rules)[k] == id;
    }
  }

  lemma {:induction false} RequestedMembers(r: Request, existing: seq<string>, id: string)
    ensures id in RequestedCategories(r, existing)
            <==> if r.categoryIds.Some? || r.scopeCategories.Some? || r.categoryId.Some? then NamesCategory(r, id) else id in existing
    ensures id in RequestedItems(r, existing)
            <==> if r.itemIds.Some? || r.itemId.Some? then NamesItem(r, id) else id in existing
  {
    NonBlankMembers(r.categoryIds.GetOr([]), id);
    NonBlankMembers(RuleIds(r.scopeCategories.GetOr([])), id);
    NonBlankMembers(r.itemIds.GetOr([]), id);
    RuleIdsMember(r.scopeCategories.GetOr([]), id);
    hide NonBlank, StoresId, RuleIds, Distinct;
  }

  // ----- Creation and update -----

  /** A created promotion stores exactly the items and categories the request names, each once, and every category with
      the limit and the variation of the last rule for it in the request. */
  lemma {:induction false} CreatedRules(r: Request, discountType: DiscountType, referencesKnown: bool)
    requires Created(r, discountType, referencesKnown).Some?
    ensures var c := Created(r, discountType, referencesKnown).value;
      && AllFollow(r.scopeCategories.GetOr([]), c.categories) && EachOnce(c.categories)
      && (forall id :: StoresId(c.categories, id) <==> NamesCategory(r, id))
      && (forall id :: id in c.items <==> NamesItem(r, id))
      && (forall j, k :: 0 <= j < k < |c.items| ==> c.items[j] != c.items[k])
  {
    var items, categories := RequestedItems(r, []), RequestedCategories(r, []);
    RulesForFollow(categories, r.scopeCategories.GetOr([]));
    forall id
      ensures id in categories <==> NamesCategory(r, id)
      ensures id in items <==> NamesItem(r, id)
    {
      RequestedMembers(r, [], id);
    }
    hide AllFollow, EachOnce, StoresId, NonBlank, RuleMap, RulesFor, Distinct, ResolveMode, ResolveQuantity, ValidPricing;
  }

  /** An accepted update with a scope does the same. Without rules of its own the stored ones stand in for them, and a
      list the request leaves out keeps its ids. An update without a scope leaves the scope alone. */
  lemma {:induction false} UpdatedRules(c: Coupon, r: Request, referencesKnown: bool)
    requires Updated(c, r, referencesKnown).Some?
    ensures var after := Updated(c, r, referencesKnown).value;
      if HasScope(r) then
        && AllFollow(r.scopeCategories.GetOr(c.categories), after.categories) && EachOnce(after.categories)
        && (forall id :: StoresId(after.categories, id) <==> LeavesCategory(c, r, id))
        && (forall id :: id in after.items <==> LeavesItem(c, r, id))
      else after.categories == c.categories && after.items == c.items && after.categoryId == c.categoryId && after.itemId == c.itemId
  {
    hide ItemsOf, CategoriesOf;
    var items, categories := RequestedItems(r, ItemsOf(c)), RequestedCategories(r, CategoriesOf(c));
    if HasScope(r) {
      RequestedOnce(c, r);
      RulesForFollow(categories, r.scopeCategories.GetOr(c.categories));
      forall id
        ensures id in categories <==> LeavesCategory(c, r, id)
        ensures id in items <==> LeavesItem(c, r, id)
      {
        RequestedMembers(r, CategoriesOf(c), id);
        RequestedMembers(r, ItemsOf(c), id);
      }
    }
    hide AllFollow, EachOnce, StoresId, LeavesCategory, LeavesItem, RequestedItems, RequestedCategories;
    hide RuleMap, RulesFor, ResolveMode, ResolveQuantity, ValidPricing;
  }

  lemma {:induction false} RequestedOnce(c: Coupon, r: Request)
    ensures var ids := RequestedCategories(r, CategoriesOf(c));
      forall j, k :: 0 <= j < k < |ids| ==> ids[j] != ids[k]
  {
    hide NonBlank;
  }

  function LimitOf(rules: seq<CategoryRule>): seq<int> {
    seq(|rules|, k requires 0 <= k < |rules| => rules[k].itemLimit.GetOr(0))
  }

  /** A deal has the mode asked for; without one, asking for a quantity makes it flexible, and otherwise it stays what it
      was, at first a fixed set. */
  ghost predicate IsMode(r: Request, existing: Option<SelectionMode>, mode: SelectionMode) {
    && (r.mode.Some? ==> mode == r.mode.value)
    && (r.mode.None? && r.quantity.Some? ==> mode == FlexibleItems)
    && (r.mode.None? && r.quantity.None? ==> mode == existing.GetOr(FixedItems))
  }

  /** A flexible deal asks for the quantity given, or for the sum of its limits, or for as many as before. */
  ghost predicate IsQuantity(r: Request, existing: Option<int>, existingRules: seq<CategoryRule>, quantity: Option<int>) {
    && (r.quantity.Some? ==> quantity == r.quantity)
    && (r.quantity.None? && (r.scopeCategories.Some? || existing.None?) ==>
      var sum := Sum(LimitOf(r.scopeCategories.GetOr(existingRules)));
      quantity == if sum > 0 then Some(sum) else None)
    && (r.quantity.None? && r.scopeCategories.None? && existing.Some? ==> quantity == existing)
  }

  lemma {:induction false} LimitsAdd(rules: seq<CategoryRule>)
    ensures LimitSum(rules) == Sum(LimitOf(rules))
  {
    if rules != [] {
      LimitsAdd(rules[..|rules| - 1]);
      assert LimitOf(rules)[..|rules| - 1] == LimitOf(rules[..|rules| - 1]);
    }
  }

  /** What a created promotion stores beside its scope. */
  lemma {:induction false} CreatedFields(r: Request, discountType: DiscountType, referencesKnown: bool)
    requires Created(r, discountType, referencesKnown).Some?
    ensures var c := Created(r, discountType, referencesKnown).value;
      && c.discountType == discountType && c.applyMode == r.applyMode.GetOr(ScopedItems)
      && c.startsAt == r.startsAt.GetOr(None) && c.expiresAt == r.expiresAt.GetOr(None)
      && c.isActive == r.isActive.GetOr(true) && !c.deleted
      && (if discountType == FixedPrice then c.mode.Some? && IsMode(r, None, c.mode.value) else c.mode.None?)
      && (if c.mode == Some(FlexibleItems) then IsQuantity(r, None, [], c.quantity) else c.quantity.None?)
  {
    LimitsAdd(r.scopeCategories.GetOr([]));
    hide RequestedItems, RequestedCategories, RuleMap, RulesFor, LimitSum, ValidPricing, Sum;
  }

  /** And an accepted update: fields the request leaves out stay, and mode and quantity change together. */
  lemma {:induction false} UpdatedDealFields(c: Coupon, r: Request, referencesKnown: bool)
    requires Updated(c, r, referencesKnown).Some?
    ensures var after := Updated(c, r, referencesKnown).value;
      && after.startsAt == r.startsAt.GetOr(c.startsAt) && after.expiresAt == r.expiresAt.GetOr(c.expiresAt)
      && after.isActive == r.isActive.GetOr(c.isActive) && !after.deleted
      && (!WritesDeal(r) ==> after.mode == c.mode && after.quantity == c.quantity)
      && (WritesDeal(r) && after.discountType == FixedPrice ==>
        && after.mode.Some? && IsMode(r, c.mode, after.mode.value)
        && (if after.mode == Some(FlexibleItems) then IsQuantity(r, c.quantity, c.categories, after.quantity) else after.quantity.None?))
      && (WritesDeal(r) && after.discountType != FixedPrice ==> after.mode == c.mode && after.quantity.None?)
  {
    LimitsAdd(r.scopeCategories.GetOr(c.categories));
    hide RequestedItems, RequestedCategories, ItemsOf, CategoriesOf, RuleMap, RulesFor, LimitSum, ValidPricing, Sum;
  }

  // ----- Which requests are accepted -----

  /** The beginning is before the end, where both are given. */
  predicate InTime(startsAt: Option<int>, expiresAt: Option<int>) {
    startsAt.None? || expiresAt.None? || startsAt.value < expiresAt.value
  }

  /** A flexible deal asks for at least one of something, and for no more than its items if it lists any. A fixed one has
      two items or more and no category. */
  predicate CanBePriced(flexible: bool, quantity: int, items: seq<string>, categories: seq<string>) {
    if flexible then quantity >= 1 && (|items| > 0 || |categories| > 0) && (|items| > 0 ==> quantity <= |items|)
    else |categories| == 0 && |items| >= 2
  }

  /** A creation is accepted exactly when what it refers to exists, its dates are in order and, for a fixed price, it
      applies to the scoped items and can be priced. */
  lemma {:induction false} CreatedExactly(r: Request, discountType: DiscountType, referencesKnown: bool)
    ensures var flexible := r.mode == Some(FlexibleItems) || (r.mode.None? && r.quantity.Some?);
      var quantity := r.quantity.GetOr(Sum(LimitOf(r.scopeCategories.GetOr([]))));
      Created(r, discountType, referencesKnown).Some?
      <==> && referencesKnown && InTime(r.startsAt.GetOr(None), r.expiresAt.GetOr(None))
           && (discountType == FixedPrice ==>
               r.applyMode != Some(OrderTotal) && CanBePriced(flexible, quantity, RequestedItems(r, []), RequestedCategories(r, [])))
  {
    LimitsAdd(r.scopeCategories.GetOr([]));
    hide RequestedItems, RequestedCategories, RuleMap, RulesFor, LimitSum, Sum, LimitOf;
  }

  /** The quantity an update is checked for. */
  function CheckedQuantity(c: Coupon, r: Request): int {
    if r.quantity.Some? then r.quantity.value
    else if r.scopeCategories.None? && c.quantity.Some? then c.quantity.value
    else Sum(LimitOf(r.scopeCategories.GetOr(c.categories)))
  }

  /** An update is accepted exactly when the same holds of the record as it would become. */
  lemma {:induction false} UpdatedExactly(c: Coupon, r: Request, referencesKnown: bool)
    ensures var mode := if r.mode.Some? then r.mode else if r.quantity.Some? then Some(FlexibleItems) else c.mode;
      var flexible := mode == Some(FlexibleItems);
      Updated(c, r, referencesKnown).Some?
      <==> && !c.deleted && referencesKnown && InTime(r.startsAt.GetOr(c.startsAt), r.expiresAt.GetOr(c.expiresAt))
           && (r.discountType.GetOr(c.discountType) == FixedPrice ==>
               && r.applyMode.GetOr(c.applyMode) == ScopedItems
               && CanBePriced(flexible, CheckedQuantity(c, r), RequestedItems(r, ItemsOf(c)), RequestedCategories(r, CategoriesOf(c))))
  {
    LimitsAdd(r.scopeCategories.GetOr(c.categories));
    hide RequestedItems, RequestedCategories, ItemsOf, CategoriesOf, RuleMap, RulesFor, LimitSum, Sum, LimitOf;
  }

  // ----- What the deal engine asks for -----

  /** An older record with a single category asks for it without a limit, and for all its items. */
  lemma {:induction false} OlderRecord(c: Coupon, accepts: Accepts)
    requires c.categories == [] && c.categoryId.GetOr("") != ""
    ensures ScopesOf(c, accepts) == [Scope(c.categoryId.value, None, [])]
    ensures forall id :: id in ItemsOf(c) <==> id in c.items || (id != "" && c.itemId == Some(id))
  {
    var single := Scope(c.categoryId.value, None, []);
    assert RuleScopes(c.categories, accepts) + [single] == [single];
    DifferentScopes([single]);
  }

  /** A scope asks for its category with the limit, and for the items the variation leaves, of the last rule for it. */
  ghost predicate ScopeFollows(rules: seq<CategoryRule>, scope: Scope, accepts: Accepts) {
    exists variationId ::
      Follows(rules, scope.menuCategoryId, scope.itemLimit, variationId) && scope.menuItemIds == accepts(scope.menuCategoryId, variationId)
  }

  lemma {:induction false} DifferentScopes(scopes: seq<Scope>)
    requires forall j, k :: 0 <= j < k < |scopes| ==> scopes[j].menuCategoryId != scopes[k].menuCategoryId
    ensures FirstOfEach(scopes) == scopes
  {
    if scopes != [] {
      DifferentScopes(scopes[..|scopes| - 1]);
    }
  }

  /** The single category of a record is one of its categories: it adds no scope. */
  lemma {:induction false} ScopesAreRules(c: Coupon, accepts: Accepts)
    requires EachOnce(c.categories)
    requires Single(c.categoryId) != [] ==> StoresId(c.categories, c.categoryId.value)
    ensures ScopesOf(c, accepts) == RuleScopes(c.categories, accepts)
  {
    var scopes := RuleScopes(c.categories, accepts);
    DifferentScopes(scopes);
    if Single(c.categoryId) == [] {
      assert scopes + [] == scopes;
    } else {
      var k :| 0 <= k < |c.categories| && c.categories[k].categoryId == c.categoryId.value;
      assert scopes[k].menuCategoryId == c.categoryId.value;
      var single := Scope(c.categoryId.value, None, []);
      assert (scopes + [single])[..|scopes|] == scopes;
      assert Asks(scopes, single.menuCategoryId);
    }
  }

  /** The pricing of a record whose categories follow some rules has one scope for each stored category, in order, and
      every scope follows the rules. */
  lemma {:induction false} PricingFollows(c: Coupon, rules: seq<CategoryRule>, fixedPrice: int, accepts: Accepts)
    requires AllFollow(rules, c.categories) && EachOnce(c.categories)
    requires Single(c.categoryId) != [] ==> StoresId(c.categories, c.categoryId.value)
    requires PricingOf(c, fixedPrice, accepts).Some?
    ensures var scopes := PricingOf(c, fixedPrice, accepts).value.categoryScopes;
      && |scopes| == |c.categories|
      && forall k :: 0 <= k < |scopes| ==>
        scopes[k].menuCategoryId == c.categories[k].categoryId && ScopeFollows(rules, scopes[k], accepts)
  {
    hide Follows;
    ScopesAreRules(c, accepts);
    hide ScopesOf, ItemsOf;
    forall k | 0 <= k < |c.categories|
      ensures ScopeFollows(rules, RuleScopes(c.categories, accepts)[k], accepts)
    {
      var rule := c.categories[k];
      assert Follows(rules, rule.categoryId, rule.itemLimit, rule.variationId);
    }
  }

  lemma {:induction false} OnlyCategory(ids: seq<string>, rules: seq<CategoryRule>)
    requires forall j, k :: 0 <= j < k < |ids| ==> ids[j] != ids[k]
    ensures Single(OnlyOne(ids)) != [] ==> StoresId(RulesFor(ids, RuleMap(rules)), OnlyOne(ids).value)
  {
    RulesForFollow(ids, rules);
    hide RulesFor, RuleMap, StoresId, AllFollow;
  }

  /** So the deal engine asks for the limits of the request that created the deal. */
  lemma {:induction false} CreatedPricing(r: Request, discountType: DiscountType, referencesKnown: bool, fixedPrice: int, accepts: Accepts)
    requires Created(r, discountType, referencesKnown).Some?
    requires PricingOf(Created(r, discountType, referencesKnown).value, fixedPrice, accepts).Some?
    ensures var c := Created(r, discountType, referencesKnown).value;
      var scopes := PricingOf(c, fixedPrice, accepts).value.categoryScopes;
      && |scopes| == |c.categories|
      && forall k :: 0 <= k < |scopes| ==>
        scopes[k].menuCategoryId == c.categories[k].categoryId
        && ScopeFollows(r.scopeCategories.GetOr([]), scopes[k], accepts)
  {
    var c := Created(r, discountType, referencesKnown).value;
    CreatedRules(r, discountType, referencesKnown);
    OnlyCategory(RequestedCategories(r, []), r.scopeCategories.GetOr([]));
    PricingFollows(c, r.scopeCategories.GetOr([]), fixedPrice, accepts);
    hide PricingOf, ScopeFollows, AllFollow, StoresId;
  }

  /** And those of an update that gives a scope. */
  lemma {:induction false} UpdatedPricing(c: Coupon, r: Request, referencesKnown: bool, fixedPrice: int, accepts: Accepts)
    requires HasScope(r) && Updated(c, r, referencesKnown).Some?
    requires PricingOf(Updated(c, r, referencesKnown).value, fixedPrice, accepts).Some?
    ensures var after := Updated(c, r, referencesKnown).value;
      var scopes := PricingOf(after, fixedPrice, accepts).value.categoryScopes;
      && |scopes| == |after.categories|
      && forall k :: 0 <= k < |scopes| ==>
        scopes[k].menuCategoryId == after.categories[k].categoryId
        && ScopeFollows(r.scopeCategories.GetOr(c.categories), scopes[k], accepts)
  {
    var after := Updated(c, r, referencesKnown).value;
    UpdatedRules(c, r, referencesKnown);
    RequestedOnce(c, r);
    OnlyCategory(RequestedCategories(r, CategoriesOf(c)), r.scopeCategories.GetOr(c.categories));
    assert Single(after.categoryId) != [] ==> StoresId(after.categories, after.categoryId.value);
    PricingFollows(after, r.scopeCategories.GetOr(c.categories), fixedPrice, accepts);
  }
}
