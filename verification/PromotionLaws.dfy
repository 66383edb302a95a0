/** When what was checked is what is stored. */
module PromotionLaws {
  import opened Prelude
  import opened Promotions

  // ----- Reading a stored scope gives the ids that were written -----

  lemma {:induction false} DistinctFixed(xs: seq<string>)
    requires forall i, j :: 0 <= i < j < |xs| ==> xs[i] != xs[j]
    ensures Distinct(xs) == xs
  {
    if xs != [] {
      var front, last := xs[..|xs| - 1], xs[|xs| - 1];
      DistinctFixed(front);
      assert xs == front + [last];
    }
  }

  lemma {:induction false} NoBlank(xs: seq<string>)
    ensures "" !in NonBlank(xs)
  {
    if xs != [] {
      NoBlank(xs[..|xs| - 1]);
    }
  }

  /** A list of different ids and its only element, if it has one, count each id once. */
  lemma {:induction false} ReadBack(ids: seq<string>)
    requires forall i, j :: 0 <= i < j < |ids| ==> ids[i] != ids[j]
    ensures Distinct(Single(OnlyOne(ids)) + ids) == ids
  {
    DistinctFixed(ids);
    if |ids| == 1 && ids[0] != "" {
      assert Single(OnlyOne(ids)) + ids == [ids[0], ids[0]];
      assert [ids[0], ids[0]][..1] == [ids[0]] == ids;
    } else {
      assert [] + ids == ids;
    }
  }

  lemma {:induction false} RuleMapKeys(rules: seq<CategoryRule>)
    ensures forall id :: id in RuleMap(rules) ==> RuleMap(rules)[id].categoryId == id
  {
    if rules != [] {
      RuleMapKeys(rules[..|rules| - 1]);
    }
  }

  lemma {:induction false} RuleIdsFor(ids: seq<string>, rules: seq<CategoryRule>)
    ensures RuleIds(RulesFor(ids, RuleMap(rules))) == ids
  {
    RuleMapKeys(rules);
  }

  // ----- Creation -----

  /** Whatever creation stores satisfies the rules on what is stored. */
  lemma {:induction false} CreatedValid(r: Request, discountType: DiscountType, referencesKnown: bool)
    requires Created(r, discountType, referencesKnown).Some?
    ensures ValidCoupon(Created(r, discountType, referencesKnown).value)
  {
    var c := Created(r, discountType, referencesKnown).value;
    var items, categories := RequestedItems(r, []), RequestedCategories(r, []);
    ReadBack(items);
    ReadBack(categories);
    RuleIdsFor(categories, r.scopeCategories.GetOr([]));
    hide Distinct, NonBlank, RuleMap, RulesFor, ResolveMode, ResolveQuantity;
    assert ItemsOf(c) == items && CategoriesOf(c) == categories;
  }

  // ----- Update -----

  /** The scope after an update is the one that was checked. */
  lemma {:induction false} UpdatedScope(c: Coupon, r: Request, referencesKnown: bool)
    requires Updated(c, r, referencesKnown).Some?
    ensures ItemsOf(Updated(c, r, referencesKnown).value) == RequestedItems(r, ItemsOf(c))
    ensures CategoriesOf(Updated(c, r, referencesKnown).value) == RequestedCategories(r, CategoriesOf(c))
  {
    var items, categories := RequestedItems(r, ItemsOf(c)), RequestedCategories(r, CategoriesOf(c));
    if HasScope(r) {
      ReadBack(items);
      ReadBack(categories);
      RuleIdsFor(categories, r.scopeCategories.GetOr(c.categories));
    }
    hide Distinct, NonBlank, RuleMap, RulesFor, ResolveMode, ResolveQuantity, ValidPricing;
  }

  /** The request brings category rules but no deal field, so the quantity they add up to is checked but not stored,
      and the stored one exceeds the items it then has to choose from. */
  predicate LeavesStaleQuantity(c: Coupon, r: Request) {
    && !WritesDeal(r) && r.scopeCategories.Some?
    && c.discountType == FixedPrice && c.mode == Some(FlexibleItems)
    && RequestedItems(r, ItemsOf(c)) != []
    && c.quantity.GetOr(0) > |RequestedItems(r, ItemsOf(c))|
  }

  /** The fields of an accepted update other than its scope. */
  lemma {:induction false} UpdatedFields(c: Coupon, r: Request, referencesKnown: bool)
    requires Updated(c, r, referencesKnown).Some?
    ensures var after := Updated(c, r, referencesKnown).value;
      var mode := ResolveMode(r, c.mode, after.discountType);
      var quantity := ResolveQuantity(mode, r, c.quantity, c.categories);
      && after.discountType == r.discountType.GetOr(c.discountType)
      && after.applyMode == r.applyMode.GetOr(c.applyMode)
      && after.mode == (if WritesDeal(r) && mode.Some? then mode else c.mode)
      && after.quantity == (if WritesDeal(r) then quantity else c.quantity)
      && ValidPricing(after.discountType, after.applyMode, RequestedItems(r, ItemsOf(c)), RequestedCategories(r, CategoriesOf(c)),
                      mode, quantity)
      && ValidDates(after.startsAt, after.expiresAt)
      && ((c.isActive <==> c.status == Active) ==> (after.isActive <==> after.status == Active))
  {
    hide ItemsOf, CategoriesOf, RequestedItems, RequestedCategories, RuleMap, RulesFor, ResolveMode, ResolveQuantity, ValidPricing;
  }

  /** An accepted update of a valid promotion leaves a valid promotion exactly when it does not leave such a quantity. */
  lemma {:induction false} UpdatedValid(c: Coupon, r: Request, referencesKnown: bool)
    requires ValidCoupon(c) && Updated(c, r, referencesKnown).Some?
    ensures ValidCoupon(Updated(c, r, referencesKnown).value) <==> !LeavesStaleQuantity(c, r)
  {
    UpdatedScope(c, r, referencesKnown);
    UpdatedFields(c, r, referencesKnown);
    hide Updated, ItemsOf, CategoriesOf, RequestedItems, RequestedCategories, LimitSum, ValidDates;
  }

  /** Campaign updates cannot bring category rules, and deal updates always write the deal fields: both keep every valid
      promotion valid. */
  lemma {:induction false} RequestsKeepValid(c: Coupon, r: Request, referencesKnown: bool)
    requires ValidCoupon(c)
    ensures r.scopeCategories.None? && Updated(c, r, referencesKnown).Some?
            ==> ValidCoupon(Updated(c, r, referencesKnown).value)
    ensures Updated(c, DealRequest(r), referencesKnown).Some?
            ==> ValidCoupon(Updated(c, DealRequest(r), referencesKnown).value)
  {
    hide ValidCoupon, Updated;
    if Updated(c, r, referencesKnown).Some? {
      UpdatedValid(c, r, referencesKnown);
    }
    if Updated(c, DealRequest(r), referencesKnown).Some? {
      UpdatedValid(c, DealRequest(r), referencesKnown);
    }
  }

  lemma {:induction false} RemovedValid(c: Coupon)
    requires ValidCoupon(c)
    ensures ValidCoupon(Removed(c)) && Removed(c).deleted
  {}

  // ----- Runs -----

  datatype Step =
    | Create(discountType: DiscountType, r: Request, known: bool)
    | Update(id: nat, r: Request, known: bool)
    | UpdateDeal(id: nat, r: Request, known: bool)
    | Remove(id: nat)

  function Apply(coupons: seq<Coupon>, step: Step): seq<Coupon> {
    match step
    case Create(discountType, r, known) =>
      (match Created(r, discountType, known) case Some(c) => coupons + [c] case None => coupons)
    case Update(id, r, known) =>
      if id < |coupons| && Updated(coupons[id], r, known).Some? then coupons[id := Updated(coupons[id], r, known).value]
      else coupons
    case UpdateDeal(id, r, known) =>
      if id < |coupons| && coupons[id].discountType == FixedPrice && Updated(coupons[id], DealRequest(r), known).Some?
      then coupons[id := Updated(coupons[id], DealRequest(r), known).value]
      else coupons
    case Remove(id) =>
      if id < |coupons| && !coupons[id].deleted then coupons[id := Removed(coupons[id])] else coupons
  }

  function Run(steps: seq<Step>): seq<Coupon> {
    if steps == [] then [] else Apply(Run(steps[..|steps| - 1]), steps[|steps| - 1])
  }

  ghost predicate AllValid(coupons: seq<Coupon>) {
    forall k :: 0 <= k < |coupons| ==> ValidCoupon(coupons[k])
  }

  /** The update request type of campaigns has no category rules. */
  ghost predicate Declared(step: Step) { step.Update? ==> step.r.scopeCategories.None? }

  lemma {:induction false} StepValid(coupons: seq<Coupon>, step: Step)
    requires AllValid(coupons) && Declared(step)
    ensures AllValid(Apply(coupons, step))
  {
    hide ValidCoupon, Created, Updated;
    match step {
      case Create(discountType, r, known) =>
        if Created(r, discountType, known).Some? {
          CreatedValid(r, discountType, known);
        }
      case Update(id, r, known) =>
        if id < |coupons| {
          RequestsKeepValid(coupons[id], r, known);
        }
      case UpdateDeal(id, r, known) =>
        if id < |coupons| {
          RequestsKeepValid(coupons[id], r, known);
        }
      case Remove(id) =>
        if id < |coupons| {
          RemovedValid(coupons[id]);
        }
    }
  }

  /** Every promotion reachable through declared requests satisfies the pricing rules on its stored fields, is active
      exactly when its status says so, and starts before it expires. */
  lemma {:induction false} RunValid(steps: seq<Step>)
    requires forall k :: 0 <= k < |steps| ==> Declared(steps[k])
    ensures AllValid(Run(steps))
  {
    if steps != [] {
      hide Apply, AllValid;
      RunValid(steps[..|steps| - 1]);
      StepValid(Run(steps[..|steps| - 1]), steps[|steps| - 1]);
    } else {
      assert Run(steps) == [];
    }
  }

  /** Such an update is accepted when the rules ask for no more than the items there are. */
  lemma {:induction false} StaleQuantityAccepted(c: Coupon, r: Request)
    requires ValidCoupon(c) && !c.deleted && LeavesStaleQuantity(c, r)
    requires r.startsAt.None? && r.expiresAt.None? && r.applyMode.None?
    requires 1 <= LimitSum(r.scopeCategories.value) <= |RequestedItems(r, ItemsOf(c))|
    ensures Updated(c, r, true).Some? && !ValidCoupon(Updated(c, r, true).value)
  {
    hide ItemsOf, CategoriesOf, RequestedItems, RequestedCategories, LimitSum, RuleMap, RulesFor;
    assert Updated(c, r, true).Some?;
    UpdatedValid(c, r, true);
  }

  lemma {:induction false} TwoNonBlank(a: string, b: string)
    requires a != "" && b != ""
    ensures NonBlank([a, b]) == [a, b]
  {
    assert [a, b][..1] == [a] && [a][..0] == [];
    assert NonBlank([a]) == [] + [a] == [a];
    assert NonBlank([a, b]) == [a] + [b];
  }

  lemma {:induction false} TwoItems(a: string, b: string)
    requires a != b && a != "" && b != ""
    ensures Distinct([] + NonBlank([a, b])) == [a, b]
  {
    TwoNonBlank(a, b);
    hide Distinct, NonBlank;
    assert [] + [a, b] == [a, b];
    DistinctFixed([a, b]);
  }

  /** A flexible deal of any five items of a category, narrowed to two of its items with a limit of one, is accepted and
      still asks for five. */
  lemma {:induction false} StaleQuantityExample(c: Coupon, r: Request, a: string, b: string, category: string)
    requires a != b && a != "" && b != ""
    requires c == Coupon(FixedPrice, ScopedItems, Some(FlexibleItems), Some(5), None, None, [], [CategoryRule(category, None, None)],
                         None, None, true, Active, false)
    requires r == Request(None, None, None, None, None, None, Some([a, b]), None,
                          Some([CategoryRule(category, Some(1), None)]), None, None, None)
    ensures ValidCoupon(c) && Updated(c, r, true).Some? && !ValidCoupon(Updated(c, r, true).value)
  {
    var rules := [CategoryRule(category, Some(1), None)];
    assert ItemsOf(c) == [] by {
      assert Single(c.itemId) + c.items == [];
    }
    assert category in CategoriesOf(c) by {
      assert RuleIds(c.categories)[0] == category;
      assert category in Single(c.categoryId) + RuleIds(c.categories);
    }
    TwoItems(a, b);
    assert RequestedItems(r, ItemsOf(c)) == [a, b];
    assert LimitSum(rules) == 1 by {
      assert rules[..0] == [];
      assert LimitSum([]) == 0;
    }
    hide ItemsOf, CategoriesOf, RequestedItems, LimitSum;
    StaleQuantityAccepted(c, r);
  }
}
