/** From a stored promotion to the pricing that groups the cart.
    Models getActiveFixedPriceDealPricing for a promotion the query finds; which items a category scope accepts comes in as
    a parameter. */
module StoredDeals {
  import opened Prelude
  import opened Promotions
  import opened PromotionLaws
  import opened DealGroups
  import opened DealPricing
  import opened DealDisplay
  import opened DealDisplayLaws
  import opened DealTargets
  import opened FixedDeals
  import opened UnsharedDeals
  import opened Carts
  import opened RemovedCards
  import opened SecondCategories

  /** The items of a category that have the forced variation, if any. */
  type Accepts = (string, Option<string>) -> seq<string>

  function RuleScopes(rules: seq<CategoryRule>, accepts: Accepts): (scopes: seq<Scope>)
    ensures |scopes| == |rules|
    ensures forall k :: 0 <= k < |rules| ==> scopes[k].menuCategoryId == rules[k].categoryId
  {
    seq(|rules|, k requires 0 <= k < |rules| =>
      Scope(rules[k].categoryId, rules[k].itemLimit, accepts(rules[k].categoryId, rules[k].variationId)))
  }

  function Asks(scopes: seq<Scope>, categoryId: string): bool {
    exists s :: 0 <= s < |scopes| && scopes[s].menuCategoryId == categoryId
  }

  /** Of scopes with the same category, only the first. */
  function FirstOfEach(scopes: seq<Scope>): (firsts: seq<Scope>)
    ensures forall s :: 0 <= s < |firsts| ==> firsts[s] in scopes
  {
    if scopes == [] then []
    else
      var firsts, last := FirstOfEach(scopes[..|scopes| - 1]), scopes[|scopes| - 1];
      if Asks(scopes[..|scopes| - 1], last.menuCategoryId) then firsts else firsts + [last]
  }

  /** The scopes of a promotion: its category rules, then the single category of older records, without a limit. */
  function ScopesOf(c: Coupon, accepts: Accepts): seq<Scope> {
    FirstOfEach(RuleScopes(c.categories, accepts)
                + (if Single(c.categoryId) == [] then [] else [Scope(c.categoryId.value, None, [])]))
  }

  /** The pricing of a fixed-price deal; nothing for other promotions and for those without a scope. */
  function PricingOf(c: Coupon, fixedPrice: int, accepts: Accepts): Option<Pricing> {
    if c.discountType != FixedPrice || c.applyMode != ScopedItems || (ItemsOf(c) == [] && ScopesOf(c, accepts) == []) then None
    else
      var mode := c.mode.GetOr(FixedItems);
      Some(Pricing(mode, ItemsOf(c), ScopesOf(c, accepts), if mode.FlexibleItems? then c.quantity else None, fixedPrice))
  }

  lemma {:induction false} FirstsAsk(scopes: seq<Scope>, categoryId: string)
    ensures Asks(FirstOfEach(scopes), categoryId) <==> Asks(scopes, categoryId)
  {
    if scopes != [] {
      var front, last := scopes[..|scopes| - 1], scopes[|scopes| - 1];
      FirstsAsk(front, categoryId);
      AsksSnoc(front, last, categoryId);
      AsksSnoc(FirstOfEach(front), last, categoryId);
      assert scopes == front + [last];
    }
  }

  lemma {:induction false} AsksSnoc(scopes: seq<Scope>, scope: Scope, categoryId: string)
    ensures Asks(scopes + [scope], categoryId) <==> Asks(scopes, categoryId) || scope.menuCategoryId == categoryId
  {
    if Asks(scopes, categoryId) {
      var s :| 0 <= s < |scopes| && scopes[s].menuCategoryId == categoryId;
      assert (scopes + [scope])[s].menuCategoryId == categoryId;
    }
    if scope.menuCategoryId == categoryId {
      assert (scopes + [scope])[|scopes|].menuCategoryId == categoryId;
    }
  }

  lemma {:induction false} FirstsDistinct(scopes: seq<Scope>)
    ensures DistinctCategories(FirstOfEach(scopes))
  {
    if scopes != [] {
      var front, last := scopes[..|scopes| - 1], scopes[|scopes| - 1];
      FirstsDistinct(front);
      FirstsAsk(front, last.menuCategoryId);
    }
  }

  /** Whatever is stored, the pricing asks for no item and no category twice. */
  lemma {:induction false} PricedOnce(c: Coupon, fixedPrice: int, accepts: Accepts)
    requires PricingOf(c, fixedPrice, accepts).Some?
    ensures AsksOnce(PricingOf(c, fixedPrice, accepts).value)
  {
    hide FirstOfEach;
    FirstsDistinct(RuleScopes(c.categories, accepts)
                   + (if Single(c.categoryId) == [] then [] else [Scope(c.categoryId.value, None, [])]));
  }

  /** The pricing of a promotion that satisfies the rules can be grouped: a fixed deal has at least two items. */
  lemma {:induction false} StoredPriceable(c: Coupon, fixedPrice: int, accepts: Accepts)
    requires ValidCoupon(c) && PricingOf(c, fixedPrice, accepts).Some?
    ensures var pricing := PricingOf(c, fixedPrice, accepts).value;
      pricing.selectionMode.FixedItems? ==> |pricing.menuItemIds| >= 2
  {
    hide ScopesOf, ItemsOf, CategoriesOf;
  }

  /** No card of a stored deal whose lines it reaches by their primary category holds more units of a line than the line
      has, or names a line twice. */
  lemma {:induction false} StoredCards(
    c: Coupon, dealId: string, fixedPrice: int, accepts: Accepts, shown: seq<PricedLine>, g: nat,
    items: seq<Line>, categoryOf: map<string, string>)
    requires ValidCoupon(c) && PricingOf(c, fixedPrice, accepts).Some?
    requires Regroups(LinesOf(shown), dealId, PricingOf(c, fixedPrice, accepts).value)
    requires DealLinesOf(items, categoryOf) == PrimaryLines(LinesOf(shown))
    ensures IsPriceable(CartDeal(dealId, PricingOf(c, fixedPrice, accepts).value))
    ensures var groups := GroupsOf(shown, CartDeal(dealId, PricingOf(c, fixedPrice, accepts).value));
      g < |groups| ==> WithinLines(items, groups[g].entries) && NoLineTwice(groups[g].entries)
  {
    StoredPriceable(c, fixedPrice, accepts);
    PricedOnce(c, fixedPrice, accepts);
    hide PricingOf, AsksOnce, Regroups, WithinLines, NoLineTwice, ValidCoupon;
    var deal := CartDeal(dealId, PricingOf(c, fixedPrice, accepts).value);
    if g < |GroupsOf(shown, deal)| {
      AskedOnceCards(shown, deal, g, items, categoryOf);
    }
  }

  // ----- The deals of the examples are stored deals -----

  /** A flexible deal with this scope, as creation stores it. */
  function FlexibleDeal(quantity: int, items: seq<string>, categories: seq<CategoryRule>): Coupon {
    Coupon(FixedPrice, ScopedItems, Some(FlexibleItems), Some(quantity), OnlyOne(items), OnlyOne(RuleIds(categories)),
           items, categories, None, None, true, Active, false)
  }

  /** Category a has dish m and category b has dish n; linked dishes do not count. */
  ghost predicate TwoCategories(accepts: Accepts) {
    accepts("a", None) == ["m"] && accepts("b", None) == ["n"]
  }

  lemma {:induction false} OneOfBStored(fixedPrice: int, accepts: Accepts)
    requires TwoCategories(accepts)
    ensures var c := FlexibleDeal(1, ["m"], [CategoryRule("b", Some(1), None)]);
      ValidCoupon(c) && PricingOf(c, fixedPrice, accepts) == Some(OneOfB(fixedPrice))
  {
    var c := FlexibleDeal(1, ["m"], [CategoryRule("b", Some(1), None)]);
    OneOfBIds(c);
    OneOfBScopes(c, accepts);
    hide ItemsOf, CategoriesOf, ScopesOf;
  }

  lemma {:induction false} OneOfBIds(c: Coupon)
    requires c == FlexibleDeal(1, ["m"], [CategoryRule("b", Some(1), None)])
    ensures ItemsOf(c) == ["m"] && CategoriesOf(c) == ["b"]
  {
    assert c.categoryId == Some("b") && RuleIds(c.categories) == ["b"];
    SingleDistinct("m");
    SingleDistinct("b");
    hide Distinct, Single;
  }

  lemma {:induction false} SingleDistinct(x: string)
    requires x != ""
    ensures Distinct(Single(Some(x)) + [x]) == [x]
  {
    assert Single(Some(x)) + [x] == [x, x];
    DistinctOnce(x);
  }

  lemma {:induction false} WithSingle(c: Coupon, accepts: Accepts, rule: Scope, id: string)
    requires RuleScopes(c.categories, accepts) == [rule] && c.categoryId == Some(id) && id == rule.menuCategoryId != ""
    ensures ScopesOf(c, accepts) == [rule]
  {
    hide FirstOfEach, RuleScopes;
    assert [rule] + [Scope(id, None, [])] == [rule, Scope(id, None, [])];
    FirstOfTwo(rule, Scope(id, None, []));
  }

  lemma {:induction false} OneOfBScopes(c: Coupon, accepts: Accepts)
    requires TwoCategories(accepts) && c == FlexibleDeal(1, ["m"], [CategoryRule("b", Some(1), None)])
    ensures ScopesOf(c, accepts) == [ScopeB()]
  {
    assert c.categories == [CategoryRule("b", Some(1), None)];
    assert RuleIds(c.categories) == ["b"] && c.categoryId == Some("b");
    OneRuleScope(c.categories, accepts);
    hide FirstOfEach, RuleScopes, RuleIds, ScopesOf, FlexibleDeal;
    WithSingle(c, accepts, ScopeB(), "b");
  }

  lemma {:induction false} OneRuleScope(rules: seq<CategoryRule>, accepts: Accepts)
    requires TwoCategories(accepts) && rules == [CategoryRule("b", Some(1), None)]
    ensures RuleScopes(rules, accepts) == [ScopeB()]
  {}

  lemma {:induction false} DistinctOnce(x: string)
    ensures Distinct([x, x]) == [x]
  {
    assert [x, x][..1] == [x] && [x][..0] == [];
    assert Distinct([]) == [] && Distinct([x]) == [x];
  }

  lemma {:induction false} FirstOfTwo(a: Scope, b: Scope)
    ensures FirstOfEach([a, b]) == if a.menuCategoryId == b.menuCategoryId then [a] else [a, b]
  {
    assert [a, b][..1] == [a] && [a][..0] == [];
    assert FirstOfEach([]) == [] && FirstOfEach([a]) == [a];
    assert [a][0].menuCategoryId == a.menuCategoryId;
  }

  lemma {:induction false} OneOfEachStored(fixedPrice: int, accepts: Accepts)
    requires TwoCategories(accepts)
    ensures var c := FlexibleDeal(2, [], [CategoryRule("a", Some(1), None), CategoryRule("b", Some(1), None)]);
      ValidCoupon(c) && PricingOf(c, fixedPrice, accepts) == Some(OneOfEach(fixedPrice))
  {
    var c := FlexibleDeal(2, [], [CategoryRule("a", Some(1), None), CategoryRule("b", Some(1), None)]);
    OneOfEachIds(c);
    OneOfEachScopes(c, accepts);
    hide ItemsOf, CategoriesOf, ScopesOf, FlexibleDeal;
  }

  lemma {:induction false} OneOfEachIds(c: Coupon)
    requires c == FlexibleDeal(2, [], [CategoryRule("a", Some(1), None), CategoryRule("b", Some(1), None)])
    ensures ItemsOf(c) == [] && CategoriesOf(c) != []
  {
    assert RuleIds(c.categories)[0] in Single(c.categoryId) + RuleIds(c.categories);
    assert RuleIds(c.categories)[0] in CategoriesOf(c);
  }

  lemma {:induction false} OneOfEachScopes(c: Coupon, accepts: Accepts)
    requires TwoCategories(accepts)
    requires c == FlexibleDeal(2, [], [CategoryRule("a", Some(1), None), CategoryRule("b", Some(1), None)])
    ensures ScopesOf(c, accepts) == [ScopeA(), ScopeB()]
  {
    assert |RuleIds(c.categories)| == 2 && c.categoryId == None;
    TwoRuleScopes(c.categories, accepts);
    FirstOfTwo(ScopeA(), ScopeB());
    hide FirstOfEach, RuleScopes, RuleIds;
    assert [ScopeA(), ScopeB()] + [] == [ScopeA(), ScopeB()];
  }

  lemma {:induction false} TwoRuleScopes(rules: seq<CategoryRule>, accepts: Accepts)
    requires TwoCategories(accepts) && rules == [CategoryRule("a", Some(1), None), CategoryRule("b", Some(1), None)]
    ensures RuleScopes(rules, accepts) == [ScopeA(), ScopeB()]
  {}
}
