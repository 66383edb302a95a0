/** The customer's stored cart and the operations that change it.
    Models addItem, updateItem, removeItem, updateDeal, removeDeal, updateCart, updateAddress, quote and clearing.
    The answers of the catalogue, the branch and address tables and the order quote come in with each call. */
module Carts {
  import opened Prelude
  import opened Texts
  import opened Json
  import opened CanonicalJson
  import opened Selections
  import opened DealGroups
  import opened DealTargets

  datatype OrderType = Delivery | Takeaway | DineIn

  datatype Line = Line(
    id: nat,
    menuItemId: string,
    variationId: Option<string>,
    quantity: int,
    note: Option<string>,
    modifiers: Value
  )

  datatype Cart = Cart(
    branchId: string,
    restaurantMenuId: Option<string>,
    orderType: OrderType,
    deliveryAddressId: Option<string>,
    items: seq<Line>
  )

  /** The customer's row, if any, and the next unused line id. */
  datatype Store = Store(cart: Option<Cart>, nextId: nat)

  // ----- Requests -----

  /** In an Option<Option<_>> field, None is a field left out and Some(None) a null. */
  datatype AddRequest = AddRequest(
    branchId: Option<string>,
    restaurantMenuId: Option<Option<string>>,
    orderType: Option<OrderType>,
    menuItemId: string,
    variationId: Option<string>,
    quantity: int,
    note: Option<string>,
    choice: Selection
  )

  /** What validation makes of the requested variation and deal. */
  datatype Validated = Validated(variationId: Option<string>, dealId: Option<string>)

  datatype AddAnswers = AddAnswers(
    branchAccepted: bool,
    menuOffered: bool,
    linesKnown: bool,
    validated: Option<Validated>,
    totalAccepted: bool
  )

  datatype UpdateRequest = UpdateRequest(
    variationId: Option<Option<string>>,
    quantity: Option<int>,
    note: Option<Option<string>>,
    modifiers: Option<Option<seq<Modifier>>>,
    groups: Option<Option<seq<GroupSelection>>>,
    sections: Option<Option<seq<Section>>>
  )

  /** A displayed deal card and what resolving it looks up. */
  datatype DealCall = DealCall(targetId: string, pricing: Option<Pricing>, categoryOf: map<string, string>)

  // ----- The cart an item goes into -----

  /** A new order type drops the address unless it is a delivery. */
  function WithOrderType(cart: Cart, orderType: Option<OrderType>): Cart {
    match orderType
    case None => cart
    case Some(t) => cart.(orderType := t, deliveryAddressId := if t == Delivery then cart.deliveryAddressId else None)
  }

  function NewCart(request: AddRequest, answers: AddAnswers): Option<Cart> {
    var branch, menu := Cleaned(request.branchId), Resolve(request.restaurantMenuId).GetOr(None);
    if branch.None? || !answers.branchAccepted || (menu.Some? && !answers.menuOffered) then None
    else Some(Cart(branch.value, menu, request.orderType.GetOr(Delivery), None, []))
  }

  /** Moving to another branch empties the cart; lines the catalogue still knows forbid it. */
  function SwitchBranch(cart: Cart, branchId: string, request: AddRequest, answers: AddAnswers): Option<Cart> {
    var menu := Resolve(request.restaurantMenuId).GetOr(None);
    if (cart.items != [] && answers.linesKnown) || !answers.branchAccepted || (menu.Some? && !answers.menuOffered) then None
    else Some(WithOrderType(cart, request.orderType).(
      branchId := branchId,
      restaurantMenuId := if menu.Some? then menu else cart.restaurantMenuId,
      items := []))
  }

  function SwitchMenu(cart: Cart, menu: Option<string>, request: AddRequest, answers: AddAnswers): Option<Cart> {
    if cart.items != [] || (menu.Some? && !answers.menuOffered) then None
    else Some(WithOrderType(cart, request.orderType).(restaurantMenuId := menu))
  }

  /** The cart to add to, or nothing when the request is refused. */
  function CartForAddItem(cart: Option<Cart>, request: AddRequest, answers: AddAnswers): Option<Cart> {
    var branch, menu := Cleaned(request.branchId), Resolve(request.restaurantMenuId);
    match cart
    case None => NewCart(request, answers)
    case Some(c) =>
      if branch.Some? && branch.value != c.branchId then SwitchBranch(c, branch.value, request, answers)
      else if menu.Some? && menu.value != c.restaurantMenuId then SwitchMenu(c, menu.value, request, answers)
      else Some(WithOrderType(c, if request.orderType == Some(c.orderType) then None else request.orderType))
  }

  // ----- Lines -----

  /** What makes two lines the same. */
  datatype Key = Key(menuItemId: string, variationId: Option<string>, note: Option<string>, text: string)

  function LineKey(line: Line, le: (string, string) -> bool): Key {
    Key(line.menuItemId, line.variationId, Cleaned(line.note), StableJson(line.modifiers, le))
  }

  /** The first line with a key. */
  function FindLine(items: seq<Line>, key: Key, le: (string, string) -> bool): (at: Option<nat>)
    ensures at.Some? ==> at.value < |items| && LineKey(items[at.value], le) == key
    ensures at.None? ==> forall i :: 0 <= i < |items| ==> LineKey(items[i], le) != key
  {
    if items == [] then None
    else
      var n := |items| - 1;
      var earlier := FindLine(items[..n], key, le);
      if earlier.Some? then earlier else if LineKey(items[n], le) == key then Some(n) else None
  }

  function FindId(items: seq<Line>, id: nat): (at: Option<nat>)
    ensures at.Some? ==> at.value < |items| && items[at.value].id == id
    ensures at.None? ==> forall i :: 0 <= i < |items| ==> items[i].id != id
  {
    if items == [] then None
    else
      var n := |items| - 1;
      var earlier := FindId(items[..n], id);
      if earlier.Some? then earlier else if items[n].id == id then Some(n) else None
  }

  function FlatModifiers(groups: seq<GroupSelection>): seq<Modifier> {
    if groups == [] then [] else FlatModifiers(groups[..|groups| - 1]) + groups[|groups| - 1].modifiers
  }

  function Flattened(groups: seq<GroupSelection>): Option<seq<Modifier>> { NonEmpty(FlatModifiers(groups)) }

  /** Grouped modifiers take the place of plain ones. */
  function ResolvedChoice(choice: Selection, dealId: Option<string>): Selection {
    Selection(
      if Chosen(choice.groups) != [] then Flattened(choice.groups.value) else choice.modifiers,
      choice.sections, dealId, choice.groups)
  }

  function AddedLine(request: AddRequest, validated: Validated, id: nat): Line {
    Line(id, request.menuItemId, validated.variationId, request.quantity, Cleaned(request.note),
         Stored(ResolvedChoice(request.choice, validated.dealId)))
  }

  /** A line with the same selection grows; otherwise a new line is appended. */
  function PutLine(items: seq<Line>, line: Line, le: (string, string) -> bool): seq<Line> {
    match FindLine(items, LineKey(line, le), le)
    case Some(i) => items[i := items[i].(quantity := items[i].quantity + line.quantity)]
    case None => items + [line]
  }

  /** The store afterwards, and whether the call succeeded. */
  datatype Outcome = Outcome(store: Store, ok: bool)

  function AddItem(store: Store, request: AddRequest, answers: AddAnswers, le: (string, string) -> bool): Outcome {
    match CartForAddItem(store.cart, request, answers)
    case None => Outcome(store, false)
    case Some(c) =>
      var ready := store.(cart := Some(c));
      if answers.validated.None? then Outcome(ready, false)
      else
        var line := AddedLine(request, answers.validated.value, store.nextId);
        var found := FindLine(c.items, LineKey(line, le), le);
        if found.Some? && !answers.totalAccepted then Outcome(ready, false)
        else Outcome(Store(Some(c.(items := PutLine(c.items, line, le))),
                           if found.Some? then store.nextId else store.nextId + 1), true)
  }

  function UpdatedChoice(line: Line, request: UpdateRequest): Selection {
    Selection(
      if request.groups.Some? then Flattened(Chosen(request.groups.value))
      else if request.modifiers.Some? then request.modifiers.value
      else StoredModifiers(line.modifiers),
      if request.sections.Some? then request.sections.value else StoredSections(line.modifiers),
      ReadDealId(line.modifiers),
      if request.groups.Some? then request.groups.value else StoredGroups(line.modifiers))
  }

  /** Packing to nothing leaves the stored choice as it was. */
  function UpdatedLine(line: Line, request: UpdateRequest): Line {
    line.(
      variationId := if request.variationId.Some? then Cleaned(request.variationId.value) else line.variationId,
      quantity := request.quantity.GetOr(line.quantity),
      note := if request.note.Some? then Cleaned(request.note.value) else line.note,
      modifiers :=
        if request.modifiers.Some? || request.sections.Some? || request.groups.Some?
        then Pack(UpdatedChoice(line, request)).GetOr(line.modifiers)
        else line.modifiers)
  }

  function UpdateItem(store: Store, id: nat, request: UpdateRequest, accepted: bool): Outcome {
    if store.cart.None? then Outcome(store, false)
    else
      var items := store.cart.value.items;
      match FindId(items, id)
      case None => Outcome(store, false)
      case Some(i) =>
        if ReadDealId(items[i].modifiers).GetOr("") != "" || !accepted then Outcome(store, false)
        else Outcome(WithItems(store, items[i := UpdatedLine(items[i], request)]), true)
  }

  function WithItems(store: Store, items: seq<Line>): Store
    requires store.cart.Some?
  {
    store.(cart := Some(store.cart.value.(items := items)))
  }

  function RemoveItem(store: Store, id: nat): Outcome {
    if store.cart.None? then Outcome(store, false)
    else
      var items := store.cart.value.items;
      match FindId(items, id)
      case None => Outcome(store, false)
      case Some(i) => Outcome(WithItems(store, Without(items, i)), true)
  }

  // ----- Deals -----

  function DealLineOf(line: Line, categoryOf: map<string, string>): DealLine {
    DealLine(ReadDealId(line.modifiers), line.menuItemId,
             if line.menuItemId in categoryOf then [categoryOf[line.menuItemId]] else [],
             if line.quantity < 0 then 0 else line.quantity)
  }

  function DealLinesOf(items: seq<Line>, categoryOf: map<string, string>): (lines: seq<DealLine>)
    ensures |lines| == |items|
    ensures forall i :: 0 <= i < |items| ==> lines[i] == DealLineOf(items[i], categoryOf)
  {
    seq(|items|, i requires 0 <= i < |items| => DealLineOf(items[i], categoryOf))
  }

  /** The cart units behind a card; nothing when there are none, or when the deal's fixed item set is empty and
      grouping throws. */
  function EntriesOf(items: seq<Line>, call: DealCall): seq<Entry> {
    if call.pricing.Some? && call.pricing.value.selectionMode.FixedItems? && call.pricing.value.menuItemIds == [] then []
    else FindDealItems(DealLinesOf(items, call.categoryOf), ParseTarget(call.targetId), call.pricing)
  }

  /** The last entry for a line. */
  function EntryFor(entries: seq<Entry>, i: nat): (entry: Option<Entry>)
    ensures entry.Some? ==> entry.value in entries && entry.value.index == i
    ensures entry.None? ==> forall k :: 0 <= k < |entries| ==> entries[k].index != i
  {
    if entries == [] then None
    else if entries[|entries| - 1].index == i then Some(entries[|entries| - 1])
    else EntryFor(entries[..|entries| - 1], i)
  }

  function AfterRemoval(line: Line, entry: Option<Entry>): seq<Line> {
    match entry
    case None => [line]
    case Some(e) => if line.quantity <= e.quantity then [] else [line.(quantity := line.quantity - e.quantity)]
  }

  function RemoveUnits(items: seq<Line>, entries: seq<Entry>): seq<Line> {
    if items == [] then []
    else
      var n := |items| - 1;
      RemoveUnits(items[..n], entries) + AfterRemoval(items[n], EntryFor(entries, n))
  }

  /** Units of a line that an entry does not hold. A line below zero is in no group, so only the whole deal's entries
      name it, and they hold all of it; read as a number of units, that is none. */
  function Remaining(line: Line, entry: Entry): int {
    if line.quantity < 0 then 0 else line.quantity - entry.quantity
  }

  function SetUnits(items: seq<Line>, entries: seq<Entry>, quantity: int): (updated: seq<Line>)
    ensures |updated| == |items|
  {
    if items == [] then []
    else
      var n := |items| - 1;
      var entry := EntryFor(entries, n);
      SetUnits(items[..n], entries, quantity)
      + [if entry.Some? then items[n].(quantity := Remaining(items[n], entry.value) + quantity) else items[n]]
  }

  function RemoveDeal(store: Store, call: DealCall): Outcome {
    if store.cart.None? || EntriesOf(store.cart.value.items, call) == [] then Outcome(store, false)
    else
      var items := store.cart.value.items;
      Outcome(WithItems(store, RemoveUnits(items, EntriesOf(items, call))), true)
  }

  function UpdateDeal(store: Store, call: DealCall, quantity: int): Outcome {
    if store.cart.None? || EntriesOf(store.cart.value.items, call) == [] then Outcome(store, false)
    else
      var items := store.cart.value.items;
      Outcome(WithItems(store, SetUnits(items, EntriesOf(items, call), quantity)), true)
  }

  // ----- Order type, menu and address -----

  /** The menu after a request for one; None when it is refused. */
  function NextMenu(cart: Cart, requested: Option<Option<string>>, menuOffered: bool): Option<Option<string>> {
    if requested.None? then Some(cart.restaurantMenuId)
    else
      var menu := Cleaned(requested.value);
      if menu == cart.restaurantMenuId then Some(menu)
      else if cart.items != [] || (menu.Some? && !menuOffered) then None
      else Some(menu)
  }

  /** Updating a customer without a cart succeeds and changes nothing. */
  function UpdateCart(
    store: Store, orderType: Option<OrderType>, menu: Option<Option<string>>, menuOffered: bool): Outcome
  {
    match store.cart
    case None => Outcome(store, true)
    case Some(c) =>
      match NextMenu(c, menu, menuOffered)
      case None => Outcome(store, false)
      case Some(next) => Outcome(store.(cart := Some(WithOrderType(c, orderType).(restaurantMenuId := next))), true)
  }

  /** The address after a request for one; None when it is refused. */
  function NextAddress(cart: Cart, requested: Option<Option<string>>, owned: bool): Option<Option<string>> {
    if requested.None? then Some(if cart.orderType == Delivery then cart.deliveryAddressId else None)
    else
      var address := Cleaned(requested.value);
      if address.None? || cart.orderType != Delivery then Some(None)
      else if owned then Some(address)
      else None
  }

  /** The address is stored before the cart is found to be empty or its quote to fail. */
  function UpdateAddress(store: Store, requested: Option<Option<string>>, owned: bool, quoted: bool): Outcome {
    match store.cart
    case None => Outcome(store, false)
    case Some(c) =>
      match NextAddress(c, requested, owned)
      case None => Outcome(store, false)
      case Some(next) =>
        Outcome(store.(cart := Some(if requested.Some? then c.(deliveryAddressId := next) else c)), c.items != [] && quoted)
  }

  /** Quoting refuses an empty cart before it stores the address. */
  function Quote(store: Store, requested: Option<Option<string>>, owned: bool, quoted: bool): Outcome {
    if store.cart.None? || store.cart.value.items == [] then Outcome(store, false)
    else UpdateAddress(store, requested, owned, quoted)
  }

  /** Clearing, a completed checkout and expiry delete the row. */
  function Drop(store: Store): Store { store.(cart := None) }
}
