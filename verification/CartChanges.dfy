/** What one request changes in the stored cart, and what it leaves, told from the request. */
module CartChanges {
  import opened Prelude
  import opened Texts
  import opened Json
  import opened CanonicalJson
  import opened Selections
  import opened Carts
  import DealGroups
  import opened CartRuns
  import opened CartLaws

  /** The text a request leaves: trimmed, and none when it is null or blank. */
  predicate IsTrimmed(requested: Option<string>, stored: Option<string>) {
    stored == if requested.Some? && Trim(requested.value) != [] then Some(Trim(requested.value)) else None
  }

  // ----- Changing a line -----

  /** The line after a request: what was asked for where something was asked for, and as before elsewhere. */
  predicate IsAsRequested(before: Line, request: UpdateRequest, after: Line) {
    && after.id == before.id && after.menuItemId == before.menuItemId
    && (request.quantity.Some? ==> after.quantity == request.quantity.value)
    && (request.quantity.None? ==> after.quantity == before.quantity)
    && (request.variationId.Some? ==> IsTrimmed(request.variationId.value, after.variationId))
    && (request.variationId.None? ==> after.variationId == before.variationId)
    && (request.note.Some? ==> IsTrimmed(request.note.value, after.note))
    && (request.note.None? ==> after.note == before.note)
    && (!TouchesChoice(request) ==> after.modifiers == before.modifiers)
  }

  ghost predicate CanUpdate(store: Store, id: nat) {
    && store.cart.Some? && LineWith(store.cart.value.items, id).Some?
    && ReadDealId(LineWith(store.cart.value.items, id).value.modifiers).GetOr("") == ""
  }

  /** An accepted update of a line without a deal changes this line as requested, moves the cart's units by the
      difference and changes nothing else; any other one changes nothing. */
  lemma {:induction false} UpdateItemExactly(store: Store, id: nat, request: UpdateRequest, accepted: bool)
    requires store.cart.Some? ==> DistinctIds(store.cart.value.items)
    ensures UpdateItem(store, id, request, accepted).ok <==> CanUpdate(store, id) && accepted
    ensures !UpdateItem(store, id, request, accepted).ok ==> UpdateItem(store, id, request, accepted).store == store
    ensures UpdateItem(store, id, request, accepted).ok ==>
      var before, updated := store.cart.value.items, UpdateItem(store, id, request, accepted).store;
      && updated.cart.Some?
      && updated == store.(cart := Some(store.cart.value.(items := updated.cart.value.items)))
      && var after := updated.cart.value.items;
      && |after| == |before| && LineWith(after, id).Some?
      && IsAsRequested(LineWith(before, id).value, request, LineWith(after, id).value)
      && (forall i :: 0 <= i < |before| && before[i].id != id ==> after[i] == before[i])
      && TotalUnits(after) == TotalUnits(before)
         + (if request.quantity.Some? then request.quantity.value - LineWith(before, id).value.quantity else 0)
  {
    if UpdateItem(store, id, request, accepted).ok {
      var items := store.cart.value.items;
      var at := FindId(items, id).value;
      var line := UpdatedLine(items[at], request);
      UpdatedAsRequested(items[at], request);
      hide UpdatedLine, IsAsRequested, TotalUnits, FindId;
      ReplacedUnits(items, at, line);
      ReplacedLine(items, at, line);
    }
  }

  lemma {:induction false} UpdatedAsRequested(line: Line, request: UpdateRequest)
    ensures IsAsRequested(line, request, UpdatedLine(line, request))
  {
    hide Pack, UpdatedChoice, Trim;
  }

  lemma {:induction false} ReplacedUnits(items: seq<Line>, at: nat, line: Line)
    requires at < |items|
    ensures TotalUnits(items[at := line]) == TotalUnits(items) + line.quantity - items[at].quantity
  {
    var n := |items| - 1;
    if at == n {
      assert items[at := line][..n] == items[..n];
    } else {
      ReplacedUnits(items[..n], at, line);
      assert items[at := line][..n] == items[..n][at := line];
    }
  }

  lemma {:induction false} ReplacedLine(items: seq<Line>, at: nat, line: Line)
    requires DistinctIds(items) && at < |items| && line.id == items[at].id
    ensures LineWith(items[at := line], line.id) == Some(line) && LineWith(items, line.id) == Some(items[at])
    ensures forall i :: 0 <= i < |items| && items[i].id != line.id ==> items[at := line][i] == items[i]
  {
    var after := items[at := line];
    var i := FindId(after, line.id);
    assert after[at].id == line.id;
  }

  /** Removing a line takes it from the cart and leaves every other one. */
  lemma {:induction false} RemoveItemExactly(store: Store, id: nat, other: nat)
    requires store.cart.Some? && DistinctIds(store.cart.value.items)
    ensures RemoveItem(store, id).ok <==> LineWith(store.cart.value.items, id).Some?
    ensures RemoveItem(store, id).store.cart.Some?
    ensures var before, left := store.cart.value.items, RemoveItem(store, id).store;
      && left == store.(cart := Some(store.cart.value.(items := left.cart.value.items)))
      && LineWith(left.cart.value.items, other) == if other == id then None else LineWith(before, other)
  {
    var items := store.cart.value.items;
    if FindId(items, id).Some? {
      var at := FindId(items, id).value;
      hide FindId;
      WithoutLine(items, at, other);
    }
  }

  lemma {:induction false} WithoutLine(items: seq<Line>, at: nat, other: nat)
    requires DistinctIds(items) && at < |items|
    ensures LineWith(Without(items, at), other) == if other == items[at].id then None else LineWith(items, other)
  {
    var rest := Without(items, at);
    WithoutIds(items, at);
    hide FindId;
    if other == items[at].id {
      assert forall i :: 0 <= i < |rest| ==> rest[i] == items[if i < at then i else i + 1];
    } else if i :| 0 <= i < |items| && items[i].id == other {
      assert rest[if i < at then i else i - 1] == items[i];
    } else {
      assert forall i :: 0 <= i < |rest| ==> rest[i] == items[if i < at then i else i + 1];
    }
  }

  // ----- The choice -----

  lemma {:induction false} ModifiersReadAgain(items: seq<Value>)
    ensures Mapped(WithQuantity, Collect(items, ReadModifier)) == Collect(items, ReadModifier)
  {
    if items != [] {
      ModifiersReadAgain(items[..|items| - 1]);
    }
  }

  lemma {:induction false} GroupsReadAgain(items: seq<Value>)
    ensures Mapped(GroupWithQuantities, Collect(items, ReadGroup)) == Collect(items, ReadGroup)
  {
    if items != [] {
      GroupsReadAgain(items[..|items| - 1]);
      var read := ReadGroup(items[|items| - 1]);
      if read.Some? {
        ModifiersReadAgain(Field(items[|items| - 1], "modifiers").value.items);
        assert GroupWithQuantities(read.value) == read.value;
      }
    }
  }

  /** What is stored carries its quantities and is never an empty list. */
  lemma {:induction false} StoredAgain(v: Value)
    ensures NonEmpty(Mapped(WithQuantity, Chosen(StoredModifiers(v)))) == StoredModifiers(v)
    ensures NonEmpty(Mapped(GroupWithQuantities, Chosen(StoredGroups(v)))) == StoredGroups(v)
    ensures NonEmpty(Chosen(StoredSections(v))) == StoredSections(v)
  {
    hide Collect, Mapped, ReadModifier, ReadGroup, ReadSection, SourceArray;
    if SourceArray(v, "modifiers").Some? {
      ModifiersReadAgain(SourceArray(v, "modifiers").value);
    }
    if SourceArray(v, "modifierSelections").Some? {
      GroupsReadAgain(SourceArray(v, "modifierSelections").value);
    }
  }

  /** The modifiers of all groups, group after group. */
  lemma {:induction false} FlatAt(groups: seq<GroupSelection>, g: nat, k: nat)
    requires g < |groups| && k < |groups[g].modifiers|
    ensures |FlatModifiers(groups[..g])| + k < |FlatModifiers(groups)|
    ensures FlatModifiers(groups)[|FlatModifiers(groups[..g])| + k] == groups[g].modifiers[k]
    ensures |FlatModifiers(groups[..g + 1])| == |FlatModifiers(groups[..g])| + |groups[g].modifiers|
    decreases |groups|
  {
    var n := |groups| - 1;
    assert groups[..g + 1][..g] == groups[..g];
    if g < n {
      FlatAt(groups[..n], g, k);
      assert groups[..n][..g] == groups[..g];
    }
  }

  /** The parts of a choice as a line's column shows them. */
  datatype Parts = Parts(
    modifiers: Option<seq<Modifier>>, groups: Option<seq<GroupSelection>>, sections: Option<seq<Section>>)

  function PartsOf(stored: Value): Parts { Parts(StoredModifiers(stored), StoredGroups(stored), StoredSections(stored)) }

  /** What an update asks for: sections and groups as given, the groups' modifiers before separately given ones, and
      everything not given as it was. */
  function Asked(line: Line, request: UpdateRequest): Parts {
    Parts(
      if request.groups.Some? then NonEmpty(Mapped(WithQuantity, FlatModifiers(Chosen(request.groups.value))))
      else if request.modifiers.Some? then NonEmpty(Mapped(WithQuantity, Chosen(request.modifiers.value)))
      else PartsOf(line.modifiers).modifiers,
      if request.groups.Some? then NonEmpty(Mapped(GroupWithQuantities, Chosen(request.groups.value)))
      else PartsOf(line.modifiers).groups,
      if request.sections.Some? then NonEmpty(Chosen(request.sections.value)) else PartsOf(line.modifiers).sections)
  }

  /** An update of a line without a deal stores what it asks for, unless that is nothing at all: then the line keeps
      what it had. */
  lemma {:induction false} UpdateStoresParts(line: Line, request: UpdateRequest)
    requires ReadDealId(line.modifiers).GetOr("") == "" && TouchesChoice(request)
    ensures var after := UpdatedLine(line, request).modifiers;
      && ReadDealId(after).GetOr("") == ""
      && PartsOf(after) == if Asked(line, request) == Parts(None, None, None) then PartsOf(line.modifiers) else Asked(line, request)
  {
    var c := UpdatedChoice(line, request);
    hide Mapped, StoredModifiers, StoredGroups, StoredSections, ReadDealId, PackedMembers;
    StoredAgain(line.modifiers);
    MappedNothing(WithQuantity, Chosen(c.modifiers));
    MappedNothing(GroupWithQuantities, Chosen(c.groups));
    PackRoundTrip(c);
    UpdateStoresChoice(line, request);
  }

  // ----- Adding a line -----

  /** What an addition asks for: the modifiers of the groups where there are groups, those given otherwise. */
  function Chooses(choice: Selection): Parts {
    Parts(
      if Chosen(choice.groups) != [] then NonEmpty(Mapped(WithQuantity, FlatModifiers(choice.groups.value)))
      else NonEmpty(Mapped(WithQuantity, Chosen(choice.modifiers))),
      NonEmpty(Mapped(GroupWithQuantities, Chosen(choice.groups))),
      NonEmpty(Chosen(choice.sections)))
  }

  ghost predicate IsRequested(request: AddRequest, validated: Validated, id: nat, line: Line) {
    && line.id == id && line.menuItemId == request.menuItemId && line.quantity == request.quantity
    && line.variationId == validated.variationId && IsTrimmed(request.note, line.note)
    && PartsOf(line.modifiers) == Chooses(request.choice)
    && ReadDealId(line.modifiers).GetOr("") == validated.dealId.GetOr("")
  }

  /** The line is appended when no line has its selection; otherwise the first such line grows by its quantity. */
  ghost predicate IsPut(before: seq<Line>, line: Line, after: seq<Line>, le: (string, string) -> bool) {
    if HasKey(before, LineKey(line, le), le) then
      exists i :: 0 <= i < |before| && LineKey(before[i], le) == LineKey(line, le) && !HasKey(before[..i], LineKey(line, le), le)
                  && after == before[i := before[i].(quantity := before[i].quantity + line.quantity)]
    else after == before + [line]
  }

  lemma {:induction false} AddedAsRequested(request: AddRequest, validated: Validated, id: nat)
    ensures IsRequested(request, validated, id, AddedLine(request, validated, id))
  {
    var c := ResolvedChoice(request.choice, validated.dealId);
    PackRoundTrip(c);
    hide Stored, Mapped, StoredModifiers, StoredGroups, StoredSections, ReadDealId, Trim;
  }

  lemma {:induction false} FoundIsFirst(items: seq<Line>, key: Key, le: (string, string) -> bool)
    ensures FindLine(items, key, le).Some? ==> !HasKey(items[..FindLine(items, key, le).value], key, le)
  {
    hide LineKey;
    if items != [] {
      var front := items[..|items| - 1];
      FoundIsFirst(front, key, le);
      var earlier := FindLine(front, key, le);
      if earlier.Some? {
        assert items[..earlier.value] == front[..earlier.value];
      }
    }
  }

  lemma {:induction false} PutIsPut(items: seq<Line>, line: Line, le: (string, string) -> bool)
    ensures IsPut(items, line, PutLine(items, line, le), le)
  {
    hide LineKey;
    FoundIsFirst(items, LineKey(line, le), le);
  }

  /** A successful addition puts the requested line into the cart chosen for it. */
  lemma {:induction false} AddItemExactly(store: Store, request: AddRequest, answers: AddAnswers, le: (string, string) -> bool)
    requires AddItem(store, request, answers, le).ok
    ensures CartForAddItem(store.cart, request, answers).Some? && answers.validated.Some?
    ensures var chosen, after := CartForAddItem(store.cart, request, answers).value, AddItem(store, request, answers, le).store;
      && after.cart.Some? && after.cart.value == chosen.(items := after.cart.value.items)
      && exists line :: IsRequested(request, answers.validated.value, store.nextId, line)
                        && IsPut(chosen.items, line, after.cart.value.items, le)
  {
    hide CartForAddItem, AddedLine, IsRequested, IsPut, PutLine, LineKey;
    var line := AddedLine(request, answers.validated.value, store.nextId);
    AddedAsRequested(request, answers.validated.value, store.nextId);
    PutIsPut(CartForAddItem(store.cart, request, answers).value.items, line, le);
  }

  /** The deal engine sees an added line under its deal, with its dish, all its units and the dish's category. */
  lemma {:induction false} AddedDealLine(
    request: AddRequest, validated: Validated, id: nat, categoryOf: map<string, string>, categoryId: string)
    requires validated.dealId.GetOr("") != "" && request.quantity >= 0
    requires request.menuItemId in categoryOf && categoryOf[request.menuItemId] == categoryId
    ensures DealLineOf(AddedLine(request, validated, id), categoryOf)
         == DealGroups.DealLine(validated.dealId, request.menuItemId, [categoryId], request.quantity)
  {
    PackRoundTrip(ResolvedChoice(request.choice, validated.dealId));
    hide Stored, ReadDealId, StoredModifiers, StoredGroups, StoredSections, Mapped;
  }

  // ----- The cart an item goes into -----

  /** Only a delivery has an address. */
  predicate AddressFits(cart: Cart) { cart.deliveryAddressId.Some? ==> cart.orderType == Delivery }

  /** The address goes when the order type does. */
  predicate IsTyped(cart: Cart, requested: Option<OrderType>, after: Cart) {
    && after.orderType == requested.GetOr(cart.orderType)
    && after.deliveryAddressId == if after.orderType == Delivery then cart.deliveryAddressId else None
  }

  /** Without a cart, one is made for the branch asked for, by default a delivery. */
  lemma {:induction false} FirstCart(request: AddRequest, answers: AddAnswers)
    ensures var branch, menu := Cleaned(request.branchId), Cleaned(request.restaurantMenuId.GetOr(None));
      && (CartForAddItem(None, request, answers).Some?
         <==> branch.Some? && answers.branchAccepted && (menu.Some? ==> answers.menuOffered))
      && (CartForAddItem(None, request, answers).Some? ==>
         CartForAddItem(None, request, answers) == Some(Cart(branch.value, menu, request.orderType.GetOr(Delivery), None, [])))
  {
    hide NonBlank;
  }

  /** A cart moves to another branch unless it holds lines the catalogue knows. It then loses its lines, and keeps its
      menu when no other is named. */
  lemma {:induction false} MovedCart(cart: Cart, request: AddRequest, answers: AddAnswers)
    requires AddressFits(cart) && Cleaned(request.branchId).Some? && Cleaned(request.branchId).value != cart.branchId
    ensures var menu, next := Cleaned(request.restaurantMenuId.GetOr(None)), CartForAddItem(Some(cart), request, answers);
      && (next.Some? <==>
         (cart.items == [] || !answers.linesKnown) && answers.branchAccepted && (menu.Some? ==> answers.menuOffered))
      && (next.Some? ==>
         && next.value.branchId == Cleaned(request.branchId).value && next.value.items == []
         && next.value.restaurantMenuId == (if menu.Some? then menu else cart.restaurantMenuId)
         && IsTyped(cart, request.orderType, next.value))
  {
    hide NonBlank;
  }

  /** A cart that stays takes another menu only while it is empty. */
  lemma {:induction false} KeptCart(cart: Cart, request: AddRequest, answers: AddAnswers)
    requires AddressFits(cart) && (Cleaned(request.branchId).Some? ==> Cleaned(request.branchId).value == cart.branchId)
    ensures var menu := if request.restaurantMenuId.Some? then Cleaned(request.restaurantMenuId.value) else cart.restaurantMenuId;
      var next := CartForAddItem(Some(cart), request, answers);
      && (next.Some? <==> menu == cart.restaurantMenuId || (cart.items == [] && (menu.Some? ==> answers.menuOffered)))
      && (next.Some? ==>
         && next.value.branchId == cart.branchId && next.value.items == cart.items
         && next.value.restaurantMenuId == menu && IsTyped(cart, request.orderType, next.value))
  {
    hide NonBlank;
  }

  // ----- Order type, menu and address -----

  lemma {:induction false} UpdateCartExactly(
    store: Store, cart: Cart, orderType: Option<OrderType>, requested: Option<Option<string>>, offered: bool)
    requires store.cart == Some(cart) && AddressFits(cart)
    ensures var menu := if requested.Some? then Cleaned(requested.value) else cart.restaurantMenuId;
      var outcome := UpdateCart(store, orderType, requested, offered);
      && (outcome.ok <==> menu == cart.restaurantMenuId || (cart.items == [] && (menu.Some? ==> offered)))
      && (!outcome.ok ==> outcome.store == store)
      && (outcome.ok ==>
         && outcome.store.cart.Some? && outcome.store.nextId == store.nextId
         && var after := outcome.store.cart.value;
         && after.branchId == cart.branchId && after.items == cart.items
         && after.restaurantMenuId == menu && IsTyped(cart, orderType, after))
  {
    hide NonBlank;
  }

  /** The address that a request for one leaves: its own text for a delivery, none when it is blank or nothing is
      delivered. */
  predicate IsAddressed(cart: Cart, requested: Option<string>, address: Option<string>) {
    if cart.orderType == Delivery then IsTrimmed(requested, address) else address == None
  }

  /** An address is stored exactly as asked for unless it belongs to somebody else; the call succeeds when the cart
      has lines and can be quoted. */
  lemma {:induction false} UpdateAddressExactly(
    store: Store, cart: Cart, requested: Option<Option<string>>, owned: bool, quoted: bool)
    requires store.cart == Some(cart)
    ensures var refused := requested.Some? && cart.orderType == Delivery && Cleaned(requested.value).Some? && !owned;
      var outcome := UpdateAddress(store, requested, owned, quoted);
      && (outcome.ok <==> !refused && cart.items != [] && quoted)
      && (requested.None? || refused ==> outcome.store == store)
      && (requested.Some? && !refused ==>
         && outcome.store.cart.Some? && var after := outcome.store.cart.value;
         && IsAddressed(cart, requested.value, after.deliveryAddressId)
         && outcome.store == store.(cart := Some(cart.(deliveryAddressId := after.deliveryAddressId))))
  {
    hide Trim;
  }

  /** Quoting a cart with lines does the same; one without a line is left as it was. */
  lemma {:induction false} QuoteExactly(store: Store, requested: Option<Option<string>>, owned: bool, quoted: bool)
    ensures Quote(store, requested, owned, quoted)
         == if store.cart.Some? && store.cart.value.items != [] then UpdateAddress(store, requested, owned, quoted)
            else Outcome(store, false)
  {}
}
