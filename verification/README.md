# Verified models of the ordering backend

This project models the parts of the ordering backend that hold real algorithms or state machines, and proves what they
promise. Each `.dfy` file holds one module.

- **The cart's deal engine** (`Allocation`, `DealGroups`, `DealGroupLaws`, `FixedSets`, `CategorySets`, `DealPricing`,
  `ChargedShares`, `CartPricing`, `DealDisplay`, `DealDisplayLaws`, `SplitParts`, `CardContents`, `FixedDeals`,
  `FixedCarts`, `PartlyGrouped`, `SplitLines`, `ShownPrices`, `ShownGroups`, `UnsharedDeals`, `DealTargets`,
  `CardOrdinals`, `SecondCategories`, `StoredDeals`, `RemovedCards`, `OnlyCards`). Fixed-price deals take units out of
  cart lines, share the fixed price over them, split the lines again into the cards that are shown, and map a shown card
  back to the units it stands for. Money is a whole number of cents; quotients are exact reals, rounded half away from
  zero.
- **The cart itself** (`Texts`, `Carts`, `CartServices`, `CartChanges`, `CartRuns`, `CartLaws`). A class whose methods
  change the stored row step by step, a specification of each operation, what one request changes and leaves, and what
  every run of operations keeps.
- **Selections and their canonical form** (`Json`, `Sorting`, `CanonicalJson`, `Selections`, `SelectionBags`). How a
  line's choices are stored as JSON and read back, and when two lines count as the same.
- **CSV** (`Csv`): two printers and one parser.
- **The PDF invoice builder** (`Bytes`, `PdfText`, `PdfPages`, `PdfFile`, `PdfBuild`, `PdfReader`), byte by byte, with the
  readers that sections 7.3.4.2, 7.5 and 7.7 of ISO 32000-1 describe.
- **Support conversations** (`Chats`, `ChatRuns`, `ChatTimes`): status, times and unread counters over every run.
- **Promotions** (`Promotions`, `PromotionLaws`, `StoredRules`): whether what is checked is what ends up stored, and what
  the deal engine is then asked for.
- **Schedules and calendars** (`Intervals`, `Schedules`, `MenuWindows`, `Trends`).

Code that changes variables or rows is a method, or a class with methods, proved against a specification function; the
properties are then lemmas about that function. Answers of the database and of other services (is the branch open, is the
address the customer's own, does the quote succeed, what is the deal's price) come in as parameters, and so does the
clock. In an `Option<Option<T>>` field of a request, `None` is a field left out and `Some(None)` a null.

Where the code does not do what its surroundings suggest, the model follows the code, a lemma gives an input that shows
it, and another says exactly when the code does meet the property:

- a line of which a deal groups only some units is displayed for more than it costs (`PartlyGrouped.ShownTwice`,
  `DealDisplayLaws.DisplayMatchesPriced`);
- a unit that matches two category limits is grouped twice (`DealGroupLaws.SharedLineOverdrawn`,
  `DealGroupLaws.CategoryGroupingExactly`);
- the id of a deal's only card stands for the whole deal, so removing or updating the card takes units that it does not
  hold (`OnlyCards.OnlyCardTakesAll`, `RemovedCards.RemoveCard`, `RemovedCards.UpdateCard`);
- a dish linked to a second category of a deal is listed for both, and one unit can be shown as a complete deal
  (`SecondCategories.LinkedDishTwice`, `UnsharedDeals.ListedOnceExactly`);
- a deal of any number of units can be priced in one set of groups and shown in another (`ShownGroups.PricedNotShown`,
  `ShownGroups.ShownArePriced`);
- a flexible deal's card can show more or less than the fixed price (`SplitLines.PairsShown`); where no line is in two
  groups, it shows exactly the fixed price when it leaves out no units with a price, and only then
  (`ShownPrices.ShowsFixedPriceExactly`);
- changing a line can leave two lines with the same selection (`CartLaws.NoteUpdateClashes`, `CartLaws.StepOneEach`);
- an update that takes every choice away from a line leaves the stored choice as it was (`CartLaws.EmptyModifiersKept`,
  `CartLaws.UpdateStoresChoice`);
- a modifier without a quantity reads like one with quantity 1, but the two lines are not merged
  (`SelectionBags.MissingQuantityKeptApart`, `SelectionBags.SameTextSameChoice`);
- a comparison that ties two different strings breaks the canonical form (`CanonicalJson.TiesAreNotCanonical`,
  `CanonicalJson.CanonicalExactly`);
- an unquoted carriage return, and a last line that is one empty cell, do not survive CSV (`Csv.ReturnSplitsLine`,
  `Csv.EmptyCellLost`, `Csv.CsvRoundTrip`);
- a word too long for a line leaves an empty line before it when the open line is empty (`PdfText.LongFirstWord`,
  `PdfText.LongWordAfterFullLine`, `PdfText.EmptyLineExactly`);
- answering a resolved conversation can leave two open ones about an order (`ChatRuns.ReplyReopens`,
  `ChatRuns.StepOneOpen`);
- a promotion update with category rules but no deal field is checked for one quantity and keeps another
  (`PromotionLaws.StaleQuantityExample`, `PromotionLaws.UpdatedValid`); the request type of the campaign route cannot
  carry such rules, so no declared request reaches it (`PromotionLaws.RunValid`);
- a clock that calls midnight 24:00 misses menu windows of the new day (`MenuWindows.MidnightMissed`,
  `MenuWindows.MidnightExactly`, `MenuWindows.MidnightMenuExactly`).

A card of several whose dishes the deal reaches through a linked category only cannot be removed or updated
(`SecondCategories.LinkedCardRefused`). Here the conditions go one way each: such cards resolve when the deal's scopes ask
for its lines by primary category (`DealTargets.CardResolves`), and none does when a limited scope has the primary category
of none of the deal's lines (`SecondCategories.NothingFound`).

## Model

| member | source | states |
|---|---|---|
| Allocation.AllocateFixedDealTotal | src/modules/cart/cart.service.ts:2744-2773 | the loop that pushes rounded shares and gives the last line the rest computes `Shares` |
| Allocation.SharesSum | src/modules/cart/cart.service.ts:2744-2773 | the shares add up to the fixed total exactly, for a positive subtotal and for none |
| Allocation.SharesNear | src/modules/cart/cart.service.ts:2755-2773 | every share but the last is within half a cent of its exact share, and the last of n within (n-1)/2 cents |
| Allocation.RoundCentsExactly | src/modules/cart/cart.service.ts:2755-2773 | an amount is rounded to the nearest cent, a tie away from zero |
| Allocation.LastShareCanBeNegative | src/modules/cart/cart.service.ts:2759-2765 | the last share can be below zero, so the bound is the real guarantee |
| DealGroups.CompactEntries | src/modules/cart/cart.service.ts:2423-2511 | counting units per line with a map gives one entry per line, in line order, with its number of units |
| DealGroupLaws.EligibleExactly | src/modules/cart/cart.service.ts:2714-2742 | a flexible deal may take exactly its own lines with a listed item, or with an item that one of its scopes accepts in its category |
| DealGroupLaws.ScopeExactly | src/modules/cart/cart.service.ts:2459-2471 | a scope draws on exactly the deal's lines in its category with an item it accepts |
| DealGroupLaws.QuantityGroupsSound | src/modules/cart/cart.service.ts:2423-2511 | any-N grouping: every group holds exactly N eligible units, no line gives more units than it has, fewer than N eligible units stay unused |
| DealGroupLaws.QuantityGroupsMaximal | src/modules/cart/cart.service.ts:2423-2511 | no other grouping of the cart has more groups of N eligible units |
| DealGroupLaws.CategoryTaken | src/modules/cart/cart.service.ts:2423-2511 | category grouping: exactly how many units each line gives, in closed form, for any scopes |
| DealGroupLaws.CategoryGroupCount | src/modules/cart/cart.service.ts:2423-2511 | as many category groups are formed as the scarcest scope supplies, counted from the cart alone |
| DealGroupLaws.CategoryGroupingExactly | src/modules/cart/cart.service.ts:2423-2511 | no line gives more units than it has exactly when no line has fewer than all scopes together draw from it for that many groups |
| DealGroupLaws.CategoryGroupsSound | src/modules/cart/cart.service.ts:2423-2511 | when no line matches two scopes, every group holds exactly the limit of each scope and no line gives more than it has |
| DealGroupLaws.CategoryGroupsMaximal | src/modules/cart/cart.service.ts:2423-2511 | then no other grouping of the cart fills every scope more often |
| DealGroupLaws.SharedLineOverdrawn | src/modules/cart/cart.service.ts:2423-2511 | a line matching two scopes is used beyond its quantity |
| DealGroupLaws.PricingGroupsShape | src/modules/cart/cart.service.ts:2566-2742 | every group, priced or shown, takes at least one unit and only from lines of its deal |
| FixedSets.FixedGroupsExactly | src/modules/cart/cart.service.ts:2585-2640 | the groups of a fixed item set, priced and shown alike, are exactly its even sets, in order: set g takes whole the line of every item that has g lines of the item before it, and is even when these lines exist and have one positive quantity |
| FixedSets.SetsApart | src/modules/cart/cart.service.ts:2585-2640 | for different items no line is in two sets, or twice in one |
| FixedSets.SetCount | src/modules/cart/cart.service.ts:2615-2640 | when the lines of the items have one quantity, as many sets are formed as the scarcest item has lines of the deal |
| FixedSets.SetsMaximal | src/modules/cart/cart.service.ts:2615-2640 | then no other choice of disjoint complete sets is larger |
| CategorySets.CategoryCardsExactly | src/modules/cart/cart.service.ts:2395-2421 | a deal with category limits shows exactly its even sets of whole lines, in order: set g takes, for each scope, the g-th run of as many listed lines as its limit; when no set is even it shows the groups it is priced by |
| ShownGroups.ShownArePriced | src/modules/cart/cart.service.ts:2395-2511 | for a deal of any number of units, the groups shown are those priced exactly when no run of lines has one quantity, or runs are of single units and the other lines make no further group |
| ShownGroups.PricedNotShown | src/modules/cart/cart.service.ts:2395-2421 | lines of two, two and five units in an any-2 deal are priced as four groups and shown as one card of two |
| DealPricing.TallyGroups | src/modules/cart/cart.service.ts:2166-2205 | the two maps filled group by group hold each line's grouped units and allocated cents |
| DealPricing.ApplyFixedDealPricingForDeal | src/modules/cart/cart.service.ts:2151-2240 | the priced lines are those of `Repriced` for the deal's groups |
| ChargedShares.EntryCharged | src/modules/cart/cart.service.ts:2176-2203 | in every group each entry is charged its part of the group's price by the worth of the units it takes, or an equal part when the group is worth nothing: within half a cent, the last of n within (n-1)/2 cents |
| ChargedShares.LineCharged | src/modules/cart/cart.service.ts:2207-2239 | a line in one group costs what its entry owes, the raw price of its other units, its modifiers and its deposit, within that margin and half a cent more when the rest is not whole cents; its unit price is this total without deposit, per unit, to the cent |
| DealPricing.LineConserved | src/modules/cart/cart.service.ts:2207-2239 | a repriced line's merchandise is what it was charged plus its raw unit price for each ungrouped unit |
| DealPricing.PricingConserves | src/modules/cart/cart.service.ts:2151-2240 | merchandise over the grouped lines is the fixed price of every group plus the raw price of ungrouped units; other lines are unchanged |
| DealPricing.DealPricingConserves | src/modules/cart/cart.service.ts:2151-2240 | the same for the groups the code forms, with every line outside the deal unchanged |
| CartPricing.ApplyFixedDealPricingToCartItems | src/modules/cart/cart.service.ts:2113-2149 | pricing the cart's deals one after the other computes `CartPriced` |
| CartPricing.DealsIndependent | src/modules/cart/cart.service.ts:2113-2149 | each line ends up as its own deal alone would price it on the cart as it was |
| CartPricing.OrderIrrelevant | src/modules/cart/cart.service.ts:2113-2149 | the order in which deals are priced does not matter |
| CartPricing.CartConserves | src/modules/cart/cart.service.ts:2113-2149 | the priced cart's merchandise is the fixed price of every group of every deal plus the raw price of the units in no group |
| DealDisplay.SplitsComplete | src/modules/cart/cart.service.ts:2513-2564 | the splits of a line over a deal's groups add up to exactly the line's total |
| SplitParts.SplitFair | src/modules/cart/cart.service.ts:2513-2564 | a split that leaves units of its line to later ones is, within half a cent, the line's total by units; the one that completes them is that of all units not split off before, within half a cent for each earlier split |
| SplitParts.IncludedFair | src/modules/cart/cart.service.ts:2286-2326 | so is every line inside a card, and nothing of it but quantity, deposit and total is changed |
| SplitParts.RestsShown | src/modules/cart/cart.service.ts:2373-2393 | beside the cards exactly the lines not wholly grouped are shown: unchanged when no unit is grouped, otherwise with the units left at their part of the line's total, within half a cent |
| SplitParts.SurplusFair | src/modules/cart/cart.service.ts:2373-2393 | what the display shows of a line beyond its total is the exact part of the units left over, within half a cent, and nothing for other lines |
| DealDisplay.IncludeEntries | src/modules/cart/cart.service.ts:2291-2319 | the consumed-quantity and consumed-total maps produce exactly those splits |
| DealDisplay.ShowDeal | src/modules/cart/cart.service.ts:2262-2371 | one deal adds one card per group, with all its amounts, at the group's first line, numbered among the cards already there |
| DealDisplay.GroupDealItemsForCartResponse | src/modules/cart/cart.service.ts:2242-2393 | the displayed items are those of `CartDisplay` |
| DealDisplayLaws.EachCardOnce | src/modules/cart/cart.service.ts:2373-2393 | every group of every deal is shown as exactly one card |
| CardContents.CardHolds | src/modules/cart/cart.service.ts:2335-2371 | every card names exactly the lines and dishes whose units it holds, entry by entry, and its totals and amounts per set are sums over what it holds |
| DealDisplayLaws.DisplayAccounts | src/modules/cart/cart.service.ts:2242-2393 | the display adds up to the priced cart plus a stated surplus for each line, for line totals and for deposits |
| DealDisplayLaws.DisplayMatchesPriced | src/modules/cart/cart.service.ts:2242-2393 | with no line over-grouped, the displayed merchandise equals the priced one exactly when no partly grouped line has units left whose part of its total is half a cent or more |
| DealDisplayLaws.CardShowsFixedPrice | src/modules/cart/cart.service.ts:2242-2393 | when groups take whole lines once, a card shows exactly the group's fixed price, whatever the rounding |
| ShownPrices.CardShowsExactly | src/modules/cart/cart.service.ts:2242-2393 | when no line is in two groups, a card shows the fixed price plus exactly the price of the units of its lines that it leaves out |
| ShownPrices.ShowsFixedPriceExactly | src/modules/cart/cart.service.ts:2242-2393 | so it shows exactly the fixed price when it takes every line whole, free units aside, and only then |
| SplitLines.PairsShown | src/modules/cart/cart.service.ts:2151-2393 | three units at 10.00 and one at 30.00, any two for 12.00, are shown as a card at 10.00 and one at 14.00 |
| PartlyGrouped.ShownTwice | src/modules/cart/cart.service.ts:2513-2564 | three units for 30.00 in an any-2 deal are displayed for more than 30.00 |
| UnsharedDeals.DisplayedOnce | src/modules/cart/cart.service.ts:2423-2742 | every group that is shown names each line once and takes no more than it has, when fixed items differ or no line lies in the categories of two scopes |
| UnsharedDeals.AskedOnceUnshared | src/modules/cart/cart.service.ts:2566-2742 | a deal with different items, or with different categories that are its lines' primary ones, meets that condition |
| UnsharedDeals.ListedOnceExactly | src/modules/cart/cart.service.ts:2647-2675 | the lists of whole lines name no line twice exactly when no line comes up for one group in the lists of two scopes |
| StoredDeals.PricedOnce | src/modules/coupons/coupons.service.ts:507-570 | whatever is stored, the pricing of a deal asks for no item and no category twice |
| StoredRules.CreatedPricing | src/modules/coupons/coupons.service.ts:355-388 | the deal engine asks a created deal for one scope per stored category, with the limit, and the items the variation leaves, of the last rule in the request |
| StoredRules.UpdatedPricing | src/modules/coupons/coupons.service.ts:519-570 | and an updated one for those of the update |
| StoredRules.OlderRecord | src/modules/coupons/coupons.service.ts:519-570 | a record with only a single category asks for it without a limit, and for its list of items and its single one |
| StoredDeals.StoredPriceable | src/modules/coupons/coupons.service.ts:355-388 | the pricing of a promotion that satisfies the rules can be grouped: a fixed deal has at least two items |
| StoredDeals.StoredCards | src/modules/coupons/coupons.service.ts:355-388 | no card of a stored deal that asks for its lines by primary category holds more units of a line than it has, or names a line twice |
| SecondCategories.LinkedDishTwice | src/modules/cart/cart.service.ts:2647-2675 | one unit of a dish linked to a second category of the deal is shown as a card that holds it twice |
| FixedDeals.FixedDealShowsFixedPrice | src/modules/cart/cart.service.ts:2242-2393 | after pricing, each card of a fixed item set shows the fixed price times the group's quantity |
| FixedDeals.FixedCardUnitPrice | src/modules/cart/cart.service.ts:2335-2371 | such a card's unit price with modifiers is exactly its unit price plus its modifiers, and with the deposit per set makes up the card's total |
| FixedCarts.CardAsAlone | src/modules/cart/cart.service.ts:2113-2393 | a deal's card in a cart priced deal by deal is the one that pricing the deal alone would show |
| FixedCarts.FixedCardInCart | src/modules/cart/cart.service.ts:2113-2393 | in a cart of several deals, priced and displayed, each complete set has a card that shows the fixed price, modifiers and deposits on top, and nothing else |
| DealTargets.CardIdParses | src/modules/cart/cart.service.ts:1013-1031 | a card's id reads back as deal, first line and ordinal exactly when the deal's id has no colon |
| DealTargets.OnlyCardIdParses | src/modules/cart/cart.service.ts:1013-1031 | the id of a deal's only card names the deal and no group |
| DealTargets.SameGroups | src/modules/cart/cart.service.ts:1062-1087 | regrouping with primary categories gives the displayed groups when the deal's scopes ask for no line of the deal by another category |
| DealTargets.CardResolves | src/modules/cart/cart.service.ts:1033-1104 | the id of a card among several resolves to the card's own lines and units |
| CardOrdinals.TargetFinds | src/modules/cart/cart.service.ts:1084-1104 | a target finds the group of its ordinal among those that begin at its line, and nothing exactly when the ordinal is below zero or not below their number |
| CardOrdinals.GoneCardRefused | src/modules/cart/cart.service.ts:777-858 | removing or updating a card whose ordinal is not below that number is refused and changes nothing |
| CardOrdinals.BareIdFinds | src/modules/cart/cart.service.ts:1013-1045 | an id without a colon stands for all lines of the deal with that id |
| SecondCategories.NothingFound | src/modules/cart/cart.service.ts:1062-1104 | an id that names a group finds nothing when a limited scope of the deal has the primary category of none of its lines |
| SecondCategories.LinkedCardRefused | src/modules/cart/cart.service.ts:1062-1104 | two linked dishes are shown as two cards, and removing or updating either is refused |
| DealTargets.EveryCardShown | src/modules/cart/cart.service.ts:2328-2371 | the card of every group is among the cards the cart shows, and, when no deal id has a colon, no two cards shown have the same id |
| DealTargets.OnlyCardResolves | src/modules/cart/cart.service.ts:1033-1045 | the id of a deal's only card resolves to every line of the deal |
| RemovedCards.CardEntries | src/modules/cart/cart.service.ts:1033-1104 | a card's id stands, in the stored cart, for the whole deal when it is the deal's only card and for its own lines and units otherwise |
| RemovedCards.RemoveCard | src/modules/cart/cart.service.ts:816-858 | removing a card succeeds, and takes from each line exactly the card's units, leaves all others and costs the cart the card's units in total exactly when the card holds no more of a line than it has or, for an only card, when it holds the whole deal |
| RemovedCards.UnsharedCards | src/modules/cart/cart.service.ts:2423-2742 | no card of an unshared deal holds more of a line than it has or names it twice, so several cards are removed and updated by their own units |
| RemovedCards.UpdateCard | src/modules/cart/cart.service.ts:777-814 | updating a card succeeds, and puts the new quantity in place of the card's units on each line and leaves all else exactly when the card names no line twice or, for an only card, when each line of the deal is whole on it or has the new quantity already |
| OnlyCards.OnlyCardTakesAll | src/modules/cart/cart.service.ts:777-858 | the only card of three units in an any-2 deal holds two; removing it empties the cart, and setting it leaves the new quantity in all |
| RemovedCards.NamedLinesHaveUnits | src/modules/cart/cart.service.ts:1062-1104 | a group never names a line at or below zero, so reading such a line as no units changes nothing |
| Json.Unambiguous | src/modules/cart/cart.service.ts:3923-3925 | a JSON text read from the front determines its value and the rest |
| Json.StringifyInjective | src/modules/cart/cart.service.ts:3923-3925 | two values print alike only when they are the same |
| Sorting.SortCanonical | src/modules/cart/cart.service.ts:3933-3944 | stable sorting by a deciding key gives the same list exactly for rearrangements |
| CanonicalJson.ObjectOrder | src/modules/cart/cart.service.ts:3940-3944 | sorting entries by key and then their values, as the code does, gives the modelled object |
| CanonicalJson.SortDecides | src/modules/cart/cart.service.ts:3927-3945 | two values sort alike exactly when they are equal up to array and key order at every depth |
| CanonicalJson.StableJsonDecides | src/modules/cart/cart.service.ts:3923-3945 | so do their canonical texts, for any total order of strings |
| CanonicalJson.SortJsonIdempotent | src/modules/cart/cart.service.ts:3927-3945 | sorting a sorted value changes nothing |
| CanonicalJson.TiesAreNotCanonical | src/modules/cart/cart.service.ts:3935-3937 | a comparison that ties two different strings keeps equivalent objects with these keys apart |
| CanonicalJson.CanonicalExactly | src/modules/cart/cart.service.ts:3923-3945 | the canonical text decides equivalence of all values exactly when the comparison ties no two different strings |
| Selections.ReadModifiers | src/modules/cart/cart.service.ts:3734-3766 | the reading loop returns the readable modifiers in order, or nothing |
| Selections.ReadModifierSelections | src/modules/cart/cart.service.ts:3768-3806 | the same for grouped modifiers |
| Selections.ReadSections | src/modules/cart/cart.service.ts:3808-3847 | the same for sections |
| Selections.PackRoundTrip | src/modules/cart/cart.service.ts:3734-3881 | deal, modifiers, grouped modifiers and sections read back as packed, as a bare array or as an object |
| SelectionBags.StoredDecides | src/modules/cart/cart.service.ts:3858-3881 | packed selections are equivalent exactly when they choose the same deal and the same bags |
| SelectionBags.SameTextSameChoice | src/modules/cart/cart.service.ts:3905-3925 | their canonical texts are equal exactly then |
| SelectionBags.MissingQuantityKeptApart | src/modules/cart/cart.service.ts:3755-3762 | selections that read back alike can compare different |
| CartServices.CartService.GetCartForAddItem | src/modules/cart/cart.service.ts:1106-1233 | the stored cart becomes the one `CartForAddItem` chooses, or stays when the request is refused |
| CartChanges.FirstCart | src/modules/cart/cart.service.ts:1214-1233 | without a cart one is made exactly when branch and menu are accepted, for the branch, menu and order type asked for |
| CartChanges.MovedCart | src/modules/cart/cart.service.ts:1124-1162 | a cart moves to another branch exactly unless it holds known lines or branch or menu are refused; it loses its lines, and its menu only to a named one |
| CartChanges.KeptCart | src/modules/cart/cart.service.ts:1164-1212 | a cart that stays takes another menu exactly when it is empty and the menu is offered |
| CartServices.CartService.FindMatching | src/modules/cart/cart.service.ts:600-607 | the search stops at the first line with the incoming selection |
| CartServices.CartService.AddItem | src/modules/cart/cart.service.ts:579-640 | store and outcome are those of the specification, also when validation fails after the cart was changed |
| CartChanges.AddItemExactly | src/modules/cart/cart.service.ts:579-640 | a successful add puts a line with the requested item, validated variation and deal, quantity, trimmed note and choice into the chosen cart: appended when no line has its selection, added to the first such line otherwise |
| CartChanges.AddedDealLine | src/modules/cart/cart.service.ts:1068-1083 | the deal engine sees an added line under its deal, with its dish, all its units and the dish's category |
| CartServices.CartService.UpdateItem | src/modules/cart/cart.service.ts:643-744 | store and outcome of changing a line |
| CartChanges.UpdateItemExactly | src/modules/cart/cart.service.ts:643-744 | an accepted update of a line without a deal leaves on that line the requested quantity, variation and trimmed note, or the old ones where nothing was requested, moves the cart's units by the difference and changes nothing else; any other is refused and changes nothing |
| CartChanges.UpdateStoresParts | src/modules/cart/cart.service.ts:706-728 | sections, groups and modifiers are stored as requested, the groups' modifiers before separate ones and parts not requested as before, unless nothing at all is asked for |
| CartServices.CartService.RemoveItem | src/modules/cart/cart.service.ts:746-775 | store and outcome of deleting a line |
| CartChanges.RemoveItemExactly | src/modules/cart/cart.service.ts:746-775 | the named line is gone and every other line is as it was |
| CartServices.CartService.RemoveDeal | src/modules/cart/cart.service.ts:816-858 | store and outcome of removing a deal card |
| CartServices.CartService.UpdateDeal | src/modules/cart/cart.service.ts:777-814 | store and outcome of setting a deal card's quantity |
| CartServices.CartService.UpdateCart | src/modules/cart/cart.service.ts:270-348 | store and outcome of changing order type and menu |
| CartChanges.UpdateCartExactly | src/modules/cart/cart.service.ts:270-348 | menu and order type become those asked for, with the address kept for a delivery only, exactly when the menu is the same or the cart is empty and the menu is offered |
| CartServices.CartService.UpdateAddress | src/modules/cart/cart.service.ts:364-418 | store and outcome, also when an empty cart is refused after the address was stored |
| CartChanges.UpdateAddressExactly | src/modules/cart/cart.service.ts:364-418 | an owned address of a delivery is stored trimmed, a blank one or one of another order type clears it, one of somebody else is refused |
| CartServices.CartService.Quote | src/modules/cart/cart.service.ts:882-934 | store and outcome of quoting with an address |
| CartServices.CartService.Clear | src/modules/cart/cart.service.ts:860-880 | the row is gone |
| CartRuns.StepFollows | src/modules/cart/cart.service.ts:270-348 | every operation keeps the store valid, and keeps old lines only under the same branch and menu |
| CartRuns.AddressMeansDelivery | src/modules/cart/cart.service.ts:3016-3049 | in every reachable store a set address means the order type is delivery |
| CartRuns.LineKeepsContext | src/modules/cart/cart.service.ts:1106-1233 | a line present at two moments of a run was under one branch and one menu at both |
| CartRuns.LinesAreAdded | src/modules/cart/cart.service.ts:586-627 | a line appears only in an add that was validated, under the branch and menu of the cart then chosen |
| CartLaws.PutLineUnits | src/modules/cart/cart.service.ts:609-627 | adding raises the added selection's units by the quantity and no other selection's |
| CartLaws.AddItemUnits | src/modules/cart/cart.service.ts:579-640 | a successful add raises the cart's total by exactly the quantity added, and a refused one leaves the lines |
| CartLaws.CartForAddItemLines | src/modules/cart/cart.service.ts:1124-1212 | the cart an item goes into has the old lines, or none when the branch changes |
| CartLaws.StepOneEach | src/modules/cart/cart.service.ts:643-744 | a step keeps one line per selection exactly when it does not change a line into another one's selection |
| CartLaws.RunOneEach | src/modules/cart/cart.service.ts:601-629 | a run without such a change never holds two lines with the same selection |
| CartLaws.SameKeySameChoice | src/modules/cart/cart.service.ts:3905-3921 | two lines are one selection exactly when item, variation, trimmed note and choice agree |
| Texts.TrimExactly | src/modules/cart/cart.service.ts:3975-3988 | trimming takes off white space at both ends, all of it and nothing else |
| CartLaws.NoteUpdateClashes | src/modules/cart/cart.service.ts:697-728 | updating a note can make two lines the same selection |
| CartLaws.UpdateStoresChoice | src/modules/cart/cart.service.ts:697-728 | an update of a line without a deal stores the choice it asks for exactly when it asks for something or the line had none before |
| CartLaws.EmptyModifiersKept | src/modules/cart/cart.service.ts:706-728 | an empty list of modifiers does not empty a line that holds only modifiers |
| CartLaws.RemoveUnitsExact | src/modules/cart/cart.service.ts:834-849 | every line is left with its units less those named on it, all else unchanged, and is gone when none are left |
| CartLaws.RemoveUnitsTotal | src/modules/cart/cart.service.ts:834-849 | the cart loses, in total, the units named, and no more of a line than it has |
| Csv.ParseCsv | src/modules/admin/admin-imports.service.ts:361-407 | the quote state machine's loop computes `Parsed` |
| Csv.CsvRoundTrip | src/modules/admin/admin-import-samples.service.ts:200-237 | parsing a printed table gives back header and cells exactly when a carriage return occurs only in quoted cells and, for the printer without a last line end, the last line is not one empty cell |
| Csv.LinesRoundTrip | src/modules/admin/admin-reports.service.ts:1398-1435 | the same for the lines after the header, both printers |
| Csv.EmptyRoundTrip | src/modules/admin/admin-reports.service.ts:1398-1401 | printing nothing parses to nothing |
| Csv.ReturnSplitsLine | src/modules/admin/admin-reports.service.ts:1398-1435 | a cell with a carriage return and nothing to quote comes back as two lines |
| Csv.EmptyCellLost | src/modules/admin/admin-import-samples.service.ts:200-237 | a last line that is one empty cell is lost when nothing ends it |
| PdfText.Wrap | src/common/pdf/invoice-pdf.builder.ts:347-365 | the wrapping loop computes `Wrapped` |
| PdfText.WrapKeepsWords | src/common/pdf/invoice-pdf.builder.ts:347-365 | wrapping keeps every non-empty word in order, and each line has at most 92 characters or is a single word |
| PdfText.LinesBreakWhenFull | src/common/pdf/invoice-pdf.builder.ts:347-365 | a text of at most 92 characters stays one line; a longer one breaks only where the line, a space and the first word of the next line pass 92 |
| PdfText.LongFirstWord | src/common/pdf/invoice-pdf.builder.ts:353-358 | a text that is one word too long for any line is preceded by an empty line |
| PdfText.LongWordAfterFullLine | src/common/pdf/invoice-pdf.builder.ts:353-358 | so is such a word after an exactly full line and two spaces |
| PdfText.EmptyLineExactly | src/common/pdf/invoice-pdf.builder.ts:347-365 | for every text, some line is empty exactly when the text is, or a word too long for any line meets an empty open line, told from the words alone |
| PdfText.ThriceOnePass | src/common/pdf/invoice-pdf.builder.ts:367-373 | the successive replacements are one pass over the characters |
| PdfText.EscapeRoundTrip | src/common/pdf/invoice-pdf.builder.ts:367-373 | a literal-string reader gets back the text with non-printable characters replaced, whatever follows |
| PdfPages.Paginate | src/common/pdf/invoice-pdf.builder.ts:156-177 | the pagination loop computes `LayOut` |
| PdfPages.LayOutCorrect | src/common/pdf/invoice-pdf.builder.ts:156-177 | pages concatenate to the lines without breaks, only the last can be empty, and pagination's positions are those of drawing, never below the margin |
| PdfPages.PagesAreFull | src/common/pdf/invoice-pdf.builder.ts:169-172 | without page breaks a page is left only when it is full |
| PdfPages.DrawPage | src/common/pdf/invoice-pdf.builder.ts:207-225 | each line is drawn at its baseline |
| PdfPages.PagesDrawnAbove | src/common/pdf/invoice-pdf.builder.ts:156-232 | no line of any paginated page is drawn below the bottom margin |
| PdfPages.DrawnInPoints | src/common/pdf/invoice-pdf.builder.ts:156-232 | a page begins 718 points up, each line stands the height of its kind below the one before, and none below 54 |
| PdfFile.Serialize | src/common/pdf/invoice-pdf.builder.ts:375-393 | the bytes written are header, objects, table and trailer with byte offsets |
| PdfFile.EntryShape | src/common/pdf/invoice-pdf.builder.ts:385-389 | a table entry is twenty bytes exactly while its offset has at most ten digits, and then holds the offset |
| PdfFile.ObjectAtOffset | src/common/pdf/invoice-pdf.builder.ts:379-382 | each object's bytes stand at its recorded offset |
| PdfFile.StartXrefCorrect | src/common/pdf/invoice-pdf.builder.ts:384-390 | the number at the end of the file is the byte where `xref` starts |
| PdfFile.TableFindsObjects | src/common/pdf/invoice-pdf.builder.ts:375-393 | a reader that follows the end of the file and the table finds every object, while offsets have at most ten digits |
| PdfBuild.BuildObjects | src/common/pdf/invoice-pdf.builder.ts:61-97 | the loop over pages builds the object list and the kids |
| PdfBuild.Build | src/common/pdf/invoice-pdf.builder.ts:61-100 | the file is the serialization of that list |
| PdfBuild.ObjectsNumbered | src/common/pdf/invoice-pdf.builder.ts:68-97 | the object at list position k carries number k + 1 |
| PdfBuild.ReferencesMeet | src/common/pdf/invoice-pdf.builder.ts:77-97 | the kids are the pages in order, and each page's contents are its own stream with its length |
| PdfBuild.KidsLeadToStreams | src/common/pdf/invoice-pdf.builder.ts:61-100 | from a kid, through the table, a reader reaches that page and its stream |
| PdfReader.RootReads | src/common/pdf/invoice-pdf.builder.ts:384-391 | the trailer, found through the end of the file, names object 1 as the root |
| PdfReader.KidsRead | src/common/pdf/invoice-pdf.builder.ts:95-97 | reading the kids text of the page tree gives back the numbers of the pages in order |
| PdfReader.StreamReads | src/common/pdf/invoice-pdf.builder.ts:90-92 | reading a content object by its length gives back the stream's bytes |
| PdfReader.PagesReadBack | src/common/pdf/invoice-pdf.builder.ts:61-100 | a reader that starts at the end of the file and follows trailer, table, catalogue, page tree and contents gets back the stream of every page, in order |
| Chats.ChatService.Find | src/modules/chat/chat.service.ts:57-68 | the search finds the first thread that fits |
| Chats.ChatService.CreateThread | src/modules/chat/chat.service.ts:42-114 | the table after starting a conversation, and when it is refused |
| Chats.ChatService.ReplyTo | src/modules/chat/chat.service.ts:158-211 | the table after a message of either side |
| Chats.ChatService.MarkThreadRead | src/modules/chat/chat.service.ts:217-246 | the table after a read of either side |
| Chats.ChatService.AssignTo | src/modules/chat/chat.service.ts:248-286 | the table after an assignment, which reopens a resolved thread |
| Chats.ChatService.UpdateStatus | src/modules/chat/chat.service.ts:288-318 | the table after a status change |
| Chats.ChatService.EnsureDeliveryThread | src/modules/chat/chat.service.ts:416-478 | the order has an unresolved delivery thread with this deliveryman |
| Chats.ChatService.SyncOrder | src/modules/chat/chat.service.ts:480-509 | an ended order's delivery thread is resolved |
| ChatRuns.RunConsistent | src/modules/chat/chat.service.ts:42-509 | in every run a thread is resolved exactly when its resolution time is set, unread customer messages mean staff have not read since, and an order has at most one delivery thread |
| ChatRuns.RunCounted | src/modules/chat/chat.service.ts:73-318 | in every run each unread counter is the number of the other side's messages since the last clearing event |
| ChatTimes.LastMessageDecides | src/modules/chat/chat.service.ts:169-185 | in every run a thread that a message was the last to set is open exactly after a customer's and in progress after one of the staff |
| ChatTimes.RunTimed | src/modules/chat/chat.service.ts:73-318 | in every run the last message and the two last reads of a thread are the times of the events that set them, and the staff's last read is none once the customer has written since |
| ChatTimes.RunAssigned | src/modules/chat/chat.service.ts:248-286 | in every run a thread is assigned to whom it was assigned last |
| ChatTimes.AboutStays | src/modules/chat/chat.service.ts:73-478 | a step changes no thread's customer, order or source, and a new thread has those it was started for |
| ChatRuns.StepOneOpen | src/modules/chat/chat.service.ts:57-68 | a step keeps one open thread per order and customer exactly when it is not a message, assignment, open status or delivery thread next to an open thread |
| ChatRuns.CreateOpensNoSecond | src/modules/chat/chat.service.ts:57-68 | starting a conversation never opens a second one, nor does reading |
| ChatRuns.RunOneOpen | src/modules/chat/chat.service.ts:42-509 | a run without such a step never holds two open threads of one order and customer |
| ChatRuns.ReplyReopens | src/modules/chat/chat.service.ts:169-185 | answering a resolved conversation after a new one was started does |
| Promotions.PromotionService.NormalizeRules | src/modules/admin/admin-promotions.service.ts:1441-1482 | the map holds the last rule of each category |
| StoredRules.RuleMapAt | src/modules/admin/admin-promotions.service.ts:1441-1482 | a category has a rule exactly when a rule names it, and then limit and non-blank variation of the last one that does |
| Promotions.PromotionService.CreatePromotion | src/modules/admin/admin-promotions.service.ts:142-243 | what is stored, and when the request is refused |
| StoredRules.CreatedRules | src/modules/admin/admin-promotions.service.ts:1385-1482 | the stored items and categories are exactly those the request names, each once, and every category has limit and non-blank variation of the last rule for it, or none |
| StoredRules.CreatedFields | src/modules/admin/admin-promotions.service.ts:142-243 | mode, quantity, dates, apply mode and activity are those requested or their defaults; a flexible deal without a quantity asks for the sum of its limits |
| StoredRules.CreatedExactly | src/modules/admin/admin-promotions.service.ts:142-243 | a creation is accepted exactly when its references exist, its dates are in order and, for a fixed price, it applies to scoped items and its quantity, items and categories can be priced |
| Promotions.PromotionService.UpdatePromotion | src/modules/admin/admin-promotions.service.ts:384-534 | what is stored, and when the request is refused |
| StoredRules.UpdatedRules | src/modules/admin/admin-promotions.service.ts:1385-1482 | the same for an update that gives a scope, with the stored rules in place of missing ones; an update without a scope leaves it alone |
| StoredRules.UpdatedDealFields | src/modules/admin/admin-promotions.service.ts:384-534 | fields left out stay; mode and quantity change together, and only with a deal field |
| StoredRules.UpdatedExactly | src/modules/admin/admin-promotions.service.ts:384-534 | an update is accepted exactly when the same holds of the record as it would become, which is not deleted |
| Promotions.PromotionService.UpdateDeal | src/modules/admin/admin-promotions.service.ts:335-351 | the same for a deal, which fixes discount type and apply mode |
| Promotions.PromotionService.RemovePromotion | src/modules/admin/admin-promotions.service.ts:609-636 | the record is deleted and inactive |
| PromotionLaws.CreatedValid | src/modules/admin/admin-promotions.service.ts:142-243 | whatever creation stores satisfies the pricing rules on its stored fields |
| PromotionLaws.UpdatedScope | src/modules/admin/admin-promotions.service.ts:1385-1439 | the stored scope after an update is the one that was checked |
| PromotionLaws.UpdatedValid | src/modules/admin/admin-promotions.service.ts:384-534 | an accepted update of a valid record leaves a valid one exactly when it does not keep a quantity above the new item count |
| PromotionLaws.RequestsKeepValid | src/modules/admin/admin-promotions.service.ts:335-534 | updates without category rules, and all deal updates, keep every valid record valid |
| PromotionLaws.RunValid | src/modules/admin/dto.ts:828-974 | every record reachable through declared requests is valid, active exactly when its status is, and starts before it expires |
| PromotionLaws.StaleQuantityAccepted | src/modules/admin/admin-promotions.service.ts:472-481 | the failing updates are accepted when the rules ask for no more than the items |
| PromotionLaws.StaleQuantityExample | src/modules/admin/admin-promotions.service.ts:1147-1154 | any five of a category, narrowed to two items with a limit of one, still asks for five |
| Intervals.ApartMeansDisjoint | src/modules/branches/branches.service.ts:1464-1466 | two spans are apart exactly when they share no point |
| Intervals.NeighboursDecide | src/modules/branches/branches.service.ts:1443-1467 | after sorting by beginning, neighbours apart means all pairwise apart, and conversely |
| Schedules.CheckZoneBands | src/modules/branches/branches.service.ts:1436-1468 | bands are accepted exactly when there are some, all are bounded and all are pairwise apart |
| Schedules.NormalizeBreaks | src/modules/branches/branches.service.ts:2103-2147 | breaks are accepted exactly when all are proper, inside the day and pairwise apart; the result is sorted |
| Schedules.NormalizeDay | src/modules/branches/branches.service.ts:2053-2094 | one day is accepted exactly when closed, or open before it closes with accepted breaks |
| Schedules.NormalizeOpeningHours | src/modules/branches/branches.service.ts:2039-2101 | hours are accepted exactly when days are unique and each is accepted; the result is in week order |
| Schedules.HoursHeld | src/modules/branches/branches.service.ts:2053-2094 | stored hours hold every requested day and no other, with its times and, as a multiset up to trimmed notes, all its breaks in order |
| Schedules.NormalHoursAgain | src/modules/branches/branches.service.ts:1944-1953 | normalizing stored hours again accepts and changes nothing, and their days are in strict week order |
| Schedules.ClockTextOrder | src/modules/branches/branches.service.ts:2072-2076 | comparing HH:mm texts is comparing minutes |
| MenuWindows.ParseMinutesExact | src/common/utils/restaurant-menu-context.util.ts:28-52 | a text reads as m minutes exactly when, trimmed, it is the clock text of m |
| MenuWindows.WindowsRead | src/common/utils/restaurant-menu-context.util.ts:67-92 | exactly the windows whose day and two clock texts are readable are read |
| MenuWindows.InsideIsArc | src/common/utils/restaurant-menu-context.util.ts:147-160 | the window test is membership in an arc of the weekly circle, over midnight and from Saturday to Sunday |
| MenuWindows.AvailableIsArc | src/common/utils/restaurant-menu-context.util.ts:128-161 | a menu is available exactly when the moment lies in the arc of some readable window |
| MenuWindows.MidnightAsTwentyFour | src/common/utils/restaurant-menu-context.util.ts:113-125 | with midnight as 24:00 only overnight windows of that day match |
| MenuWindows.MidnightExactly | src/common/utils/restaurant-menu-context.util.ts:113-160 | the test then agrees with the arc at the moment meant exactly when a window over midnight from that day has begun and no other window covers the moment |
| MenuWindows.MidnightMenuExactly | src/common/utils/restaurant-menu-context.util.ts:128-161 | a menu's availability then agrees with the arcs of its windows exactly when it has a window past midnight from that day just if it has one that covers the moment |
| MenuWindows.MidnightMissed | src/common/utils/restaurant-menu-context.util.ts:113-160 | a window from midnight to one, and the end of one that runs over from the day before, are missed at 24:30 |
| Trends.DailyContiguous | src/modules/admin/admin-dashboard.repository.ts:978-998 | seven contiguous day buckets, the last holding the present |
| Trends.WeeklyContiguous | src/modules/admin/admin-dashboard.repository.ts:1000-1032 | eight contiguous week buckets, the last holding the present |
| Trends.BucketLengths | src/modules/admin/admin-dashboard.repository.ts:978-1032 | a daily bucket is the 86,400,000 milliseconds of one day from midnight on, a weekly one those of seven |
| Trends.WeeklyMondays | src/modules/admin/admin-dashboard.repository.ts:1000-1009 | each week bucket starts on a Monday |
| Trends.MonthlyBucket | src/modules/admin/admin-dashboard.repository.ts:1037-1043 | each month bucket is a calendar month, across the turn of the year and leap years |
| Trends.MonthlyContiguous | src/modules/admin/admin-dashboard.repository.ts:1034-1057 | twelve contiguous month buckets, the last holding the present |
| Trends.BuildTrendPoints | src/modules/admin/admin-dashboard.repository.ts:955-976 | each point has its bucket's count and the running total |
| Trends.ValuesAddUp | src/modules/admin/admin-dashboard.repository.ts:955-976 | over contiguous buckets the values add up to the count of the whole range |
| Trends.OneBucket | src/modules/admin/admin-dashboard.repository.ts:955-976 | every instant of the range lies in exactly one bucket |
| Trends.RunningTotals | src/modules/admin/admin-dashboard.repository.ts:204-232 | the running total at a point is the number of all instants before the end of its bucket |

## Left out

- DealPricing.PricingConserves: needs line totals that are a whole number of cents per unit, as the cart builds them; for other totals each line can differ by the rounding of its ungrouped units.
- CartPricing.CartConserves: needs the same of every grouped line.
- DealTargets.CardResolves: it needs a deal shown as at least two cards and a deal id without a colon (the id of an only card, and ids with a colon, have lemmas of their own); the condition on categories is sufficient, not necessary.
- ShownGroups.ShownArePriced: for deals without category limits, on lines that have units; with category limits `CategorySets.CategoryCardsExactly` says what is shown, but when that is what is priced there are examples only.
- ChargedShares.LineCharged: for a line that one entry takes from; a line in several groups is charged the sum of its entries' charges, each within its own margin.
- ShownPrices.ShowsFixedPriceExactly: for groups that share no line; with a shared line there is an example only.
- The items a category scope accepts, which the pricing lookup reads from the catalogue: a parameter of `StoredDeals.PricingOf`.
- Csv.CsvRoundTrip: header names must be free of comma, quote and line ends, because both printers write them unquoted; they are property names in the code.
- Trends.MonthlyContiguous: the clock is not before 1970; the twelve months may be.
- The title, code, description and image a deal card repeats from the deal's price record.
- Decimal's cutoff at twenty significant digits and the conversion to JavaScript numbers; amounts are exact.
- Reading an integer from a card id models decimal digits with an optional sign; the other spellings JavaScript's Number accepts are not modelled.
- A fixed deal with an empty item list makes the code ask for an array of infinite length and fail; grouping functions require a non-empty list, and the cart operations treat it as a refusal.
- Object keys that look like array indexes, which JavaScript moves to the front, and the collation tables behind localeCompare: any total order of strings is allowed instead.
- Lone surrogates in strings: characters are Unicode scalar values.
- Concurrent requests on one cart, thread or promotion: every operation is one step.
- Catalogue, deal and address lookups, item validation, quotes, coupons, tips, notes and order times of the cart, and the reorder operation, which calls addItem.
- Trimming headers and cells and dropping blank records after parsing (`parseCsvFile`), and the import handlers.
- The drawing commands of a PDF page other than the lines' baselines, column widths, text truncation and the list of invoice lines; content streams are arbitrary texts.
- Message texts, previews, access checks and notifications of conversations; deciding who is staff.
- Happy hours and gift cards, codes, titles, amounts and usage limits of promotions.
- Holiday hours, temporary closures and postal-code rules of branches.
- Weekday names and time zones: the local weekday and minute come in as numbers.
