/** The cart service itself: each operation changes the stored row step by step, exactly as its specification in
    Carts says. */
module CartServices {
  import opened Prelude
  import opened Texts
  import opened CanonicalJson
  import opened Selections
  import opened DealGroups
  import opened Carts

  class CartService {
    var cart: Option<Cart>
    var nextId: nat

    /** How localeCompare orders texts. */
    const le: (string, string) -> bool

    constructor (le: (string, string) -> bool)
      ensures State() == Store(None, 0) && this.le == le
    {
      this.le := le;
      cart, nextId := None, 0;
    }

    function State(): Store
      reads this
    {
      Store(cart, nextId)
    }

    method GetCartForAddItem(request: AddRequest, answers: AddAnswers) returns (ok: bool)
      modifies this`cart
      ensures cart == if ok then CartForAddItem(old(cart), request, answers) else old(cart)
      ensures ok <==> CartForAddItem(old(cart), request, answers).Some?
    {
      var branchId, menuId := Cleaned(request.branchId), Resolve(request.restaurantMenuId);
      if cart.None? {
        if branchId.None? || !answers.branchAccepted || (menuId.GetOr(None).Some? && !answers.menuOffered) {
          return false;
        }
        cart := Some(Cart(branchId.value, menuId.GetOr(None), request.orderType.GetOr(Delivery), None, []));
        return true;
      }
      var current := cart.value;
      if branchId.Some? && branchId.value != current.branchId {
        if current.items != [] && answers.linesKnown {
          return false;
        }
        if !answers.branchAccepted || (menuId.GetOr(None).Some? && !answers.menuOffered) {
          return false;
        }
        var moved := current.(branchId := branchId.value, items := []);
        if request.orderType.Some? {
          moved := moved.(orderType := request.orderType.value);
        }
        if request.orderType.Some? && request.orderType.value != Delivery {
          moved := moved.(deliveryAddressId := None);
        }
        if menuId.GetOr(None).Some? {
          moved := moved.(restaurantMenuId := menuId.value);
        }
        cart := Some(moved);
        return true;
      }
      if menuId.Some? && menuId.value != current.restaurantMenuId {
        if current.items != [] {
          return false;
        }
        if menuId.value.Some? && !answers.menuOffered {
          return false;
        }
        var moved := current.(restaurantMenuId := menuId.value);
        if request.orderType.Some? {
          moved := moved.(orderType := request.orderType.value);
        }
        if request.orderType.Some? && request.orderType.value != Delivery {
          moved := moved.(deliveryAddressId := None);
        }
        cart := Some(moved);
        return true;
      }
      if request.orderType.Some? && request.orderType.value != current.orderType {
        cart := Some(current.(
          orderType := request.orderType.value,
          deliveryAddressId := if request.orderType.value != Delivery then None else current.deliveryAddressId));
      }
      return true;
    }

    /** The first line with the incoming selection, or the number of lines. */
    method FindMatching(items: seq<Line>, incoming: Key) returns (i: nat)
      ensures i <= |items|
      ensures FindLine(items, incoming, le) == if i < |items| then Some(i) else None
    {
      hide LineKey;
      i := 0;
      while i < |items| && LineKey(items[i], le) != incoming
        invariant i <= |items|
        invariant FindLine(items[..i], incoming, le).None?
      {
        assert items[..i + 1][..i] == items[..i];
        i := i + 1;
      }
      FirstMatch(items, i, incoming, le);
    }

    method AddItem(request: AddRequest, answers: AddAnswers) returns (ok: bool)
      modifies this
      ensures Outcome(State(), ok) == Carts.AddItem(old(State()), request, answers, le)
    {
      hide CartForAddItem, StableJson, Stored, ResolvedChoice, Cleaned, FindLine;
      ok := GetCartForAddItem(request, answers);
      if !ok || answers.validated.None? {
        return false;
      }
      var validated, items := answers.validated.value, cart.value.items;
      var packed := Stored(ResolvedChoice(request.choice, validated.dealId));
      var incoming := Key(request.menuItemId, validated.variationId, Cleaned(request.note), StableJson(packed, le));
      CleanedIdempotent(request.note);
      var i := FindMatching(items, incoming);
      if i < |items| {
        if !answers.totalAccepted {
          return false;
        }
        cart := Some(cart.value.(items := items[i := items[i].(quantity := items[i].quantity + request.quantity)]));
      } else {
        var line := Line(nextId, request.menuItemId, validated.variationId, request.quantity, Cleaned(request.note), packed);
        cart := Some(cart.value.(items := items + [line]));
        nextId := nextId + 1;
      }
    }

    method UpdateItem(id: nat, request: UpdateRequest, accepted: bool) returns (ok: bool)
      modifies this`cart
      ensures Outcome(State(), ok) == Carts.UpdateItem(old(State()), id, request, accepted)
    {
      if cart.None? {
        return false;
      }
      var items := cart.value.items;
      var at := FindId(items, id);
      if at.None? || ReadDealId(items[at.value].modifiers).GetOr("") != "" || !accepted {
        return false;
      }
      var line := items[at.value];
      if request.modifiers.Some? || request.sections.Some? || request.groups.Some? {
        var packed := Pack(UpdatedChoice(line, request));
        if packed.Some? {
          line := line.(modifiers := packed.value);
        }
      }
      if request.variationId.Some? {
        line := line.(variationId := Cleaned(request.variationId.value));
      }
      if request.quantity.Some? {
        line := line.(quantity := request.quantity.value);
      }
      if request.note.Some? {
        line := line.(note := Cleaned(request.note.value));
      }
      cart := Some(cart.value.(items := items[at.value := line]));
      return true;
    }

    method RemoveItem(id: nat) returns (ok: bool)
      modifies this`cart
      ensures Outcome(State(), ok) == Carts.RemoveItem(old(State()), id)
    {
      if cart.None? {
        return false;
      }
      var at := FindId(cart.value.items, id);
      if at.None? {
        return false;
      }
      cart := Some(cart.value.(items := cart.value.items[..at.value] + cart.value.items[at.value + 1..]));
      return true;
    }

    /** The lines left when each entry's units are taken from its line. */
    method LowerLines(items: seq<Line>, dealItems: seq<Entry>) returns (kept: seq<Line>)
      ensures kept == RemoveUnits(items, dealItems)
    {
      kept := [];
      for i := 0 to |items|
        invariant kept == RemoveUnits(items[..i], dealItems)
      {
        assert items[..i + 1][..i] == items[..i];
        var entry := EntryFor(dealItems, i);
        if entry.None? {
          kept := kept + [items[i]];
        } else if items[i].quantity > entry.value.quantity {
          kept := kept + [items[i].(quantity := items[i].quantity - entry.value.quantity)];
        }
      }
      assert items[..|items|] == items;
    }

    method RemoveDeal(call: DealCall) returns (ok: bool)
      modifies this`cart
      ensures Outcome(State(), ok) == Carts.RemoveDeal(old(State()), call)
    {
      hide EntriesOf, RemoveUnits;
      if cart.None? {
        return false;
      }
      var dealItems := EntriesOf(cart.value.items, call);
      if dealItems == [] {
        return false;
      }
      var kept := LowerLines(cart.value.items, dealItems);
      cart := Some(cart.value.(items := kept));
      return true;
    }

    /** The lines with each entry's units replaced by `quantity`. */
    method ResetLines(items: seq<Line>, dealItems: seq<Entry>, quantity: int) returns (updated: seq<Line>)
      ensures updated == SetUnits(items, dealItems, quantity)
    {
      updated := [];
      for i := 0 to |items|
        invariant updated == SetUnits(items[..i], dealItems, quantity)
      {
        assert items[..i + 1][..i] == items[..i];
        var entry := EntryFor(dealItems, i);
        updated := updated
        + [if entry.Some? then items[i].(quantity := Remaining(items[i], entry.value) + quantity) else items[i]];
      }
      assert items[..|items|] == items;
    }

    method UpdateDeal(call: DealCall, quantity: int) returns (ok: bool)
      modifies this`cart
      ensures Outcome(State(), ok) == Carts.UpdateDeal(old(State()), call, quantity)
    {
      hide EntriesOf, SetUnits;
      if cart.None? {
        return false;
      }
      var dealItems := EntriesOf(cart.value.items, call);
      if dealItems == [] {
        return false;
      }
      var updated := ResetLines(cart.value.items, dealItems, quantity);
      cart := Some(cart.value.(items := updated));
      return true;
    }

    method UpdateCart(orderType: Option<OrderType>, menu: Option<Option<string>>, menuOffered: bool) returns (ok: bool)
      modifies this`cart
      ensures Outcome(State(), ok) == Carts.UpdateCart(old(State()), orderType, menu, menuOffered)
    {
      if cart.None? {
        return true;
      }
      var next := cart.value;
      if orderType.Some? {
        next := next.(
          orderType := orderType.value,
          deliveryAddressId := if orderType.value == Delivery then next.deliveryAddressId else None);
      }
      if menu.Some? && Cleaned(menu.value) != next.restaurantMenuId {
        if next.items != [] || (Cleaned(menu.value).Some? && !menuOffered) {
          return false;
        }
        next := next.(restaurantMenuId := Cleaned(menu.value));
      }
      cart := Some(next);
      return true;
    }

    method UpdateAddress(requested: Option<Option<string>>, owned: bool, quoted: bool) returns (ok: bool)
      modifies this`cart
      ensures Outcome(State(), ok) == Carts.UpdateAddress(old(State()), requested, owned, quoted)
    {
      if cart.None? {
        return false;
      }
      if requested.Some? {
        var address := Cleaned(requested.value);
        if cart.value.orderType != Delivery {
          address := None;
        }
        if address.Some? && !owned {
          return false;
        }
        cart := Some(cart.value.(deliveryAddressId := address));
      }
      return cart.value.items != [] && quoted;
    }

    method Quote(requested: Option<Option<string>>, owned: bool, quoted: bool) returns (ok: bool)
      modifies this`cart
      ensures Outcome(State(), ok) == Carts.Quote(old(State()), requested, owned, quoted)
    {
      if cart.None? || cart.value.items == [] {
        return false;
      }
      ok := UpdateAddress(requested, owned, quoted);
    }

    method Clear()
      modifies this`cart
      ensures State() == Drop(old(State()))
    {
      cart := None;
    }
  }

  /** The loop's stopping place is the first match. */
  lemma {:induction false} FirstMatch(items: seq<Line>, i: nat, key: Key, le: (string, string) -> bool)
    requires i <= |items| && FindLine(items[..i], key, le).None?
    requires i < |items| ==> LineKey(items[i], le) == key
    ensures FindLine(items, key, le) == if i < |items| then Some(i) else None
    decreases |items|
  {
    if i == |items| {
      assert items[..i] == items;
    } else {
      var n := |items| - 1;
      if i < n {
        assert items[..n][..i] == items[..i];
        FirstMatch(items[..n], i, key, le);
      } else {
        assert items[..n] == items[..i];
      }
    }
  }
}
