/** Promotions and fixed-price deals: what a request is checked for, and what is stored.
    Models createPromotion, createDeal, updatePromotion, updateDeal and removePromotion. Dates are instants; whether the
    referenced items, categories and variations exist comes in with the call. */
module Promotions {
  import opened Prelude

  datatype DiscountType = Flat | Percentage | FixedPrice

  datatype ApplyMode = OrderTotal | ScopedItems

  datatype Status = Active | Suspended

  datatype CategoryRule = CategoryRule(categoryId: string, itemLimit: Option<int>, variationId: Option<string>)

  /** A stored promotion. The single ids are older fields that still count towards the scope. */
  datatype Coupon = Coupon(
    discountType: DiscountType,
    applyMode: ApplyMode,
    mode: Option<SelectionMode>,
    quantity: Option<int>,
    itemId: Option<string>,
    categoryId: Option<string>,
    items: seq<string>,
    categories: seq<CategoryRule>,
    startsAt: Option<int>,
    expiresAt: Option<int>,
    isActive: bool,
    status: Status,
    deleted: bool
  )

  /** A request; in an Option<Option<_>> field, None is a field left out and Some(None) a null. */
  datatype Request = Request(
    discountType: Option<DiscountType>,
    applyMode: Option<ApplyMode>,
    mode: Option<SelectionMode>,
    quantity: Option<int>,
    itemId: Option<string>,
    categoryId: Option<string>,
    itemIds: Option<seq<string>>,
    categoryIds: Option<seq<string>>,
    scopeCategories: Option<seq<CategoryRule>>,
    startsAt: Option<Option<int>>,
    expiresAt: Option<Option<int>>,
    isActive: Option<bool>
  )

  // ----- Scopes -----

  /** Each id once, where it first occurs. */
  function Distinct(xs: seq<string>): (ys: seq<string>)
    ensures forall i, j :: 0 <= i < j < |ys| ==> ys[i] != ys[j]
    ensures forall x :: x in ys <==> x in xs
  {
    if xs == [] then []
    else
      var front := Distinct(xs[..|xs| - 1]);
      assert xs == xs[..|xs| - 1] + [xs[|xs| - 1]];
      if xs[|xs| - 1] in front then front else front + [xs[|xs| - 1]]
  }

  function NonBlank(xs: seq<string>): seq<string> {
    if xs == [] then []
    else NonBlank(xs[..|xs| - 1]) + (if xs[|xs| - 1] == "" then [] else [xs[|xs| - 1]])
  }

  function Single(id: Option<string>): seq<string> {
    if id.Some? && id.value != "" then [id.value] else []
  }

  function RuleIds(rules: seq<CategoryRule>): (ids: seq<string>)
    ensures |ids| == |rules|
  {
    seq(|rules|, k requires 0 <= k < |rules| => rules[k].categoryId)
  }

  /** The items and categories a stored promotion applies to. */
  function ItemsOf(c: Coupon): seq<string> { Distinct(Single(c.itemId) + c.items) }

  function CategoriesOf(c: Coupon): seq<string> { Distinct(Single(c.categoryId) + RuleIds(c.categories)) }

  function RequestedItems(r: Request, existing: seq<string>): seq<string> {
    if r.itemIds.Some? || r.itemId.Some? then Distinct(Single(r.itemId) + NonBlank(r.itemIds.GetOr([]))) else existing
  }

  function RequestedCategories(r: Request, existing: seq<string>): seq<string> {
    if r.categoryIds.Some? || r.scopeCategories.Some? || r.categoryId.Some? then
      Distinct(Single(r.categoryId) + NonBlank(r.categoryIds.GetOr([])) + NonBlank(RuleIds(r.scopeCategories.GetOr([]))))
    else existing
  }

  predicate HasScope(r: Request) {
    r.itemId.Some? || r.categoryId.Some? || r.itemIds.Some? || r.categoryIds.Some? || r.scopeCategories.Some?
  }

  /** A rule as it is kept: a blank variation is none. */
  function Kept(rule: CategoryRule): CategoryRule {
    if rule.variationId == Some("") then rule.(variationId := None) else rule
  }

  /** The last rule for each category. */
  function RuleMap(rules: seq<CategoryRule>): map<string, CategoryRule> {
    if rules == [] then map[]
    else
      var last := rules[|rules| - 1];
      var front := RuleMap(rules[..|rules| - 1]);
      if last.categoryId == "" then front else front[last.categoryId := Kept(last)]
  }

  function RulesFor(ids: seq<string>, rules: map<string, CategoryRule>): (stored: seq<CategoryRule>)
    ensures |stored| == |ids| && forall k :: 0 <= k < |ids| ==> stored[k].categoryId == (if ids[k] in rules then rules[ids[k]].categoryId else ids[k])
  {
    seq(|ids|, k requires 0 <= k < |ids| => if ids[k] in rules then rules[ids[k]] else CategoryRule(ids[k], None, None))
  }

  // ----- Deal fields -----

  function ResolveMode(r: Request, existing: Option<SelectionMode>, discountType: DiscountType): Option<SelectionMode> {
    if discountType != FixedPrice then None
    else if r.mode.Some? then r.mode
    else if r.quantity.Some? then Some(FlexibleItems)
    else Some(existing.GetOr(FixedItems))
  }

  function LimitSum(rules: seq<CategoryRule>): int {
    if rules == [] then 0 else LimitSum(rules[..|rules| - 1]) + rules[|rules| - 1].itemLimit.GetOr(0)
  }

  function Positive(n: int): Option<int> { if n > 0 then Some(n) else None }

  function ResolveQuantity(
    mode: Option<SelectionMode>, r: Request, existing: Option<int>, existingRules: seq<CategoryRule>): Option<int>
  {
    if mode != Some(FlexibleItems) then None
    else if r.quantity.Some? then r.quantity
    else if r.scopeCategories.Some? then Positive(LimitSum(r.scopeCategories.value))
    else if existing.Some? then existing
    else Positive(LimitSum(existingRules))
  }

  // ----- Rules -----

  /** The pricing rules of a fixed-price promotion. */
  predicate ValidPricing(
    discountType: DiscountType, applyMode: ApplyMode, items: seq<string>, categories: seq<string>,
    mode: Option<SelectionMode>, quantity: Option<int>)
  {
    discountType == FixedPrice ==>
      && applyMode == ScopedItems
      && if mode == Some(FlexibleItems)
         then quantity.Some? && quantity.value >= 1
              && (items != [] || categories != [])
              && (items != [] ==> quantity.value <= |items|)
         else categories == [] && |items| >= 2
  }

  predicate ValidDates(startsAt: Option<int>, expiresAt: Option<int>) {
    startsAt.Some? && expiresAt.Some? ==> startsAt.value < expiresAt.value
  }

  /** The rules on what is stored. */
  predicate ValidCoupon(c: Coupon) {
    && ValidPricing(c.discountType, c.applyMode, ItemsOf(c), CategoriesOf(c), c.mode, c.quantity)
    && ValidDates(c.startsAt, c.expiresAt)
    && (c.isActive <==> c.status == Active)
  }

  // ----- Operations -----

  function OnlyOne(ids: seq<string>): Option<string> { if |ids| == 1 then Some(ids[0]) else None }

  function StatusOf(isActive: bool): Status { if isActive then Active else Suspended }

  /** The new promotion, or nothing when the request is refused. */
  function Created(r: Request, discountType: DiscountType, referencesKnown: bool): Option<Coupon> {
    var items, categories := RequestedItems(r, []), RequestedCategories(r, []);
    var mode := ResolveMode(r, None, discountType);
    var quantity := ResolveQuantity(mode, r, None, []);
    var applyMode := r.applyMode.GetOr(ScopedItems);
    var startsAt, expiresAt := r.startsAt.GetOr(None), r.expiresAt.GetOr(None);
    if !ValidDates(startsAt, expiresAt) || !referencesKnown
       || !ValidPricing(discountType, applyMode, items, categories, mode, quantity) then None
    else Some(Coupon(
      discountType, applyMode, mode, quantity, OnlyOne(items), OnlyOne(categories), items,
      RulesFor(categories, RuleMap(r.scopeCategories.GetOr([]))),
      startsAt, expiresAt, r.isActive.GetOr(true), StatusOf(r.isActive.GetOr(true)), false))
  }

  predicate WritesDeal(r: Request) { r.mode.Some? || r.quantity.Some? || r.discountType.Some? }

  /** The changed promotion, or nothing when the request is refused. An undefined mode is not written. */
  function Updated(c: Coupon, r: Request, referencesKnown: bool): Option<Coupon> {
    var items, categories := RequestedItems(r, ItemsOf(c)), RequestedCategories(r, CategoriesOf(c));
    var discountType, applyMode := r.discountType.GetOr(c.discountType), r.applyMode.GetOr(c.applyMode);
    var mode := ResolveMode(r, c.mode, discountType);
    var quantity := ResolveQuantity(mode, r, c.quantity, c.categories);
    var startsAt, expiresAt := r.startsAt.GetOr(c.startsAt), r.expiresAt.GetOr(c.expiresAt);
    if c.deleted || !ValidDates(startsAt, expiresAt) || !referencesKnown
       || !ValidPricing(discountType, applyMode, items, categories, mode, quantity) then None
    else
      var isActive := r.isActive.GetOr(c.isActive);
      var rules := RuleMap(r.scopeCategories.GetOr(c.categories));
      var scoped := if !HasScope(r) then c else c.(
        itemId := OnlyOne(items), categoryId := OnlyOne(categories), items := items, categories := RulesFor(categories, rules));
      var dealt := if !WritesDeal(r) then scoped else scoped.(
        mode := if mode.Some? then mode else c.mode, quantity := quantity);
      Some(dealt.(
        discountType := discountType, applyMode := applyMode, startsAt := startsAt, expiresAt := expiresAt,
        isActive := isActive, status := if r.isActive.Some? then StatusOf(isActive) else c.status))
  }

  /** A deal request fixes the discount type and the apply mode. */
  function DealRequest(r: Request): Request { r.(discountType := Some(FixedPrice), applyMode := Some(ScopedItems)) }

  function Removed(c: Coupon): Coupon { c.(deleted := true, isActive := false, status := Suspended) }

  class PromotionService {
    var coupons: seq<Coupon>

    constructor ()
      ensures coupons == []
    {
      coupons := [];
    }

    /** Fills a map with the rules, later ones replacing earlier ones of the same category. */
    method NormalizeRules(source: seq<CategoryRule>) returns (rules: map<string, CategoryRule>)
      ensures rules == RuleMap(source)
    {
      rules := map[];
      for i := 0 to |source|
        invariant rules == RuleMap(source[..i])
      {
        assert source[..i + 1][..i] == source[..i];
        if source[i].categoryId == "" {
          continue;
        }
        rules := rules[source[i].categoryId := Kept(source[i])];
      }
      assert source[..|source|] == source;
    }

    method CreatePromotion(r: Request, discountType: DiscountType, referencesKnown: bool) returns (ok: bool)
      modifies this
      ensures ok <==> Created(r, discountType, referencesKnown).Some?
      ensures coupons == if ok then old(coupons) + [Created(r, discountType, referencesKnown).value] else old(coupons)
    {
      hide RuleMap, RulesFor, Distinct, NonBlank, ResolveMode, ResolveQuantity, ValidPricing;
      var startsAt, expiresAt := r.startsAt.GetOr(None), r.expiresAt.GetOr(None);
      if !ValidDates(startsAt, expiresAt) {
        return false;
      }
      var items, categories := RequestedItems(r, []), RequestedCategories(r, []);
      var rules := NormalizeRules(r.scopeCategories.GetOr([]));
      var mode := ResolveMode(r, None, discountType);
      var quantity := ResolveQuantity(mode, r, None, []);
      var applyMode := r.applyMode.GetOr(ScopedItems);
      if !referencesKnown || !ValidPricing(discountType, applyMode, items, categories, mode, quantity) {
        return false;
      }
      var status := if r.isActive == Some(false) then Suspended else Active;
      coupons := coupons + [Coupon(discountType, applyMode, mode, quantity, OnlyOne(items), OnlyOne(categories), items,
                                   RulesFor(categories, rules), startsAt, expiresAt, r.isActive.GetOr(true), status, false)];
      return true;
    }

    method UpdatePromotion(id: nat, r: Request, referencesKnown: bool) returns (ok: bool)
      modifies this
      ensures ok <==> id < |old(coupons)| && Updated(old(coupons)[id], r, referencesKnown).Some?
      ensures coupons == if ok then old(coupons)[id := Updated(old(coupons)[id], r, referencesKnown).value] else old(coupons)
    {
      hide RuleMap, RulesFor, Distinct, NonBlank, ResolveMode, ResolveQuantity, ValidPricing;
      if id >= |coupons| || coupons[id].deleted {
        return false;
      }
      var c := coupons[id];
      var discountType, applyMode := r.discountType.GetOr(c.discountType), r.applyMode.GetOr(c.applyMode);
      var mode := ResolveMode(r, c.mode, discountType);
      var quantity := ResolveQuantity(mode, r, c.quantity, c.categories);
      var startsAt, expiresAt := r.startsAt.GetOr(c.startsAt), r.expiresAt.GetOr(c.expiresAt);
      if !ValidDates(startsAt, expiresAt) {
        return false;
      }
      var items, categories := RequestedItems(r, ItemsOf(c)), RequestedCategories(r, CategoriesOf(c));
      var rules := NormalizeRules(r.scopeCategories.GetOr(c.categories));
      if !referencesKnown || !ValidPricing(discountType, applyMode, items, categories, mode, quantity) {
        return false;
      }
      var next := c.(startsAt := startsAt, expiresAt := expiresAt);
      if r.discountType.Some? {
        next := next.(discountType := r.discountType.value);
      }
      if r.applyMode.Some? {
        next := next.(applyMode := r.applyMode.value);
      }
      if WritesDeal(r) {
        if mode.Some? {
          next := next.(mode := mode);
        }
        next := next.(quantity := quantity);
      }
      if HasScope(r) {
        next := next.(itemId := OnlyOne(items), categoryId := OnlyOne(categories),
                      items := items, categories := RulesFor(categories, rules));
      }
      if r.isActive.Some? {
        next := next.(isActive := r.isActive.value, status := StatusOf(r.isActive.value));
      }
      coupons := coupons[id := next];
      return true;
    }

    /** Only a fixed-price promotion is a deal. */
    method UpdateDeal(id: nat, r: Request, referencesKnown: bool) returns (ok: bool)
      modifies this
      ensures ok <==> id < |old(coupons)| && old(coupons)[id].discountType == FixedPrice
                      && Updated(old(coupons)[id], DealRequest(r), referencesKnown).Some?
      ensures coupons == if ok then old(coupons)[id := Updated(old(coupons)[id], DealRequest(r), referencesKnown).value]
                         else old(coupons)
    {
      hide Updated;
      if id >= |coupons| || coupons[id].discountType != FixedPrice {
        return false;
      }
      ok := UpdatePromotion(id, DealRequest(r), referencesKnown);
    }

    method RemovePromotion(id: nat) returns (ok: bool)
      modifies this
      ensures ok <==> id < |old(coupons)| && !old(coupons)[id].deleted
      ensures coupons == if ok then old(coupons)[id := Removed(old(coupons)[id])] else old(coupons)
    {
      if id >= |coupons| || coupons[id].deleted {
        return false;
      }
      coupons := coupons[id := coupons[id].(deleted := true, isActive := false, status := Suspended)];
      return true;
    }
  }
}
