/** What every run of cart operations keeps: addresses belong to deliveries, and a line never outlives the branch
    and menu it was added under. */
module CartRuns {
  import opened Prelude
  import opened Texts
  import opened CanonicalJson
  import opened Selections
  import opened DealGroups
  import opened Carts

  datatype Step =
    | Add(request: AddRequest, answers: AddAnswers)
    | ChangeLine(id: nat, update: UpdateRequest, accepted: bool)
    | DropLine(id: nat)
    | ChangeDeal(call: DealCall, quantity: int)
    | DropDeal(call: DealCall)
    | ChangeCart(orderType: Option<OrderType>, menu: Option<Option<string>>, menuOffered: bool)
    | ChangeAddress(address: Option<Option<string>>, owned: bool, quoted: bool)
    | AskQuote(address: Option<Option<string>>, owned: bool, quoted: bool)
    | Discard

  function Apply(store: Store, step: Step, le: (string, string) -> bool): Store {
    match step
    case Add(request, answers) => AddItem(store, request, answers, le).store
    case ChangeLine(id, update, accepted) => UpdateItem(store, id, update, accepted).store
    case DropLine(id) => RemoveItem(store, id).store
    case ChangeDeal(call, quantity) => UpdateDeal(store, call, quantity).store
    case DropDeal(call) => RemoveDeal(store, call).store
    case ChangeCart(orderType, menu, menuOffered) => UpdateCart(store, orderType, menu, menuOffered).store
    case ChangeAddress(address, owned, quoted) => UpdateAddress(store, address, owned, quoted).store
    case AskQuote(address, owned, quoted) => Quote(store, address, owned, quoted).store
    case Discard => Drop(store)
  }

  function Run(store: Store, steps: seq<Step>, le: (string, string) -> bool): Store {
    if steps == [] then store
    else Apply(Run(store, steps[..|steps| - 1], le), steps[|steps| - 1], le)
  }

  // ----- Line ids -----

  ghost predicate HasId(items: seq<Line>, id: nat) {
    exists i :: 0 <= i < |items| && items[i].id == id
  }

  ghost predicate DistinctIds(items: seq<Line>) {
    forall i, j :: 0 <= i < j < |items| ==> items[i].id != items[j].id
  }

  ghost predicate IdsBelow(items: seq<Line>, n: nat) {
    forall i :: 0 <= i < |items| ==> items[i].id < n
  }

  /** Every id of `after` is an id of `before`. */
  ghost predicate NoNewIds(before: seq<Line>, after: seq<Line>) {
    forall id :: HasId(after, id) ==> HasId(before, id)
  }

  lemma {:induction false} SameIds(before: seq<Line>, after: seq<Line>)
    requires |before| == |after| && forall i :: 0 <= i < |before| ==> after[i].id == before[i].id
    ensures NoNewIds(before, after)
    ensures DistinctIds(before) ==> DistinctIds(after)
  {
    forall id | HasId(after, id)
      ensures HasId(before, id)
    {
      var i :| 0 <= i < |after| && after[i].id == id;
      assert before[i].id == id;
    }
  }

  lemma {:induction false} WithoutIds(items: seq<Line>, k: nat)
    requires k < |items|
    ensures NoNewIds(items, Without(items, k))
    ensures DistinctIds(items) ==> DistinctIds(Without(items, k))
  {
    var rest := Without(items, k);
    forall id | HasId(rest, id)
      ensures HasId(items, id)
    {
      var i :| 0 <= i < |rest| && rest[i].id == id;
      assert items[if i < k then i else i + 1].id == id;
    }
  }

  lemma {:induction false} HasIdSnoc(items: seq<Line>, line: Line, id: nat)
    ensures HasId(items + [line], id) <==> HasId(items, id) || line.id == id
  {
    if HasId(items, id) {
      var i :| 0 <= i < |items| && items[i].id == id;
      assert (items + [line])[i].id == id;
    }
    if line.id == id {
      assert (items + [line])[|items|].id == id;
    }
  }

  lemma {:induction false} DistinctSnoc(items: seq<Line>, line: Line)
    ensures DistinctIds(items + [line]) <==> DistinctIds(items) && !HasId(items, line.id)
  {
    var all := items + [line];
    if DistinctIds(all) {
      forall i | 0 <= i < |items|
        ensures items[i].id != line.id
      {
        assert all[i] == items[i] && all[|items|] == line;
      }
      forall i, j | 0 <= i < j < |items|
        ensures items[i].id != items[j].id
      {
        assert all[i] == items[i] && all[j] == items[j];
      }
    }
  }

  lemma {:induction false} RemoveUnitsIds(items: seq<Line>, entries: seq<Entry>)
    ensures NoNewIds(items, RemoveUnits(items, entries))
    ensures DistinctIds(items) ==> DistinctIds(RemoveUnits(items, entries))
  {
    if items != [] {
      var n := |items| - 1;
      var front, last := items[..n], items[n];
      RemoveUnitsIds(front, entries);
      var kept, after := RemoveUnits(front, entries), AfterRemoval(last, EntryFor(entries, n));
      assert after != [] ==> after == [after[0]] && after[0].id == last.id;
      assert RemoveUnits(items, entries) == kept + after && items == front + [last];
      hide RemoveUnits, AfterRemoval, HasId, DistinctIds;
      DistinctSnoc(front, last);
      if after == [] {
        assert kept + after == kept;
      } else {
        DistinctSnoc(kept, after[0]);
      }
      forall id
        ensures HasId(kept + after, id) ==> HasId(items, id)
      {
        HasIdSnoc(front, last, id);
        if after == [] {
          assert kept + after == kept;
        } else {
          HasIdSnoc(kept, after[0], id);
        }
      }
    }
  }

  lemma {:induction false} SetUnitsIds(items: seq<Line>, entries: seq<Entry>, quantity: int)
    ensures forall i :: 0 <= i < |items| ==> SetUnits(items, entries, quantity)[i].id == items[i].id
  {
    if items != [] {
      SetUnitsIds(items[..|items| - 1], entries, quantity);
    }
  }

  // ----- Valid stores and what follows what -----

  /** Lines are numbered apart, below the next id, and an address is set only for a delivery. */
  ghost predicate Valid(store: Store) {
    store.cart.Some? ==>
      && IdsBelow(store.cart.value.items, store.nextId)
      && DistinctIds(store.cart.value.items)
      && (store.cart.value.deliveryAddressId.Some? ==> store.cart.value.orderType == Delivery)
  }

  ghost predicate Holds(store: Store, id: nat) {
    store.cart.Some? && HasId(store.cart.value.items, id)
  }

  ghost predicate SameContext(a: Store, b: Store) {
    && a.cart.Some? && b.cart.Some?
    && a.cart.value.branchId == b.cart.value.branchId
    && a.cart.value.restaurantMenuId == b.cart.value.restaurantMenuId
  }

  /** Ids only grow, and a line that `before` could have held was there, under the same branch and menu. */
  ghost predicate Follows(before: Store, after: Store) {
    && before.nextId <= after.nextId
    && forall id: nat :: id < before.nextId && Holds(after, id) ==> Holds(before, id) && SameContext(before, after)
  }

  lemma {:induction false} FollowsTransitive(a: Store, b: Store, c: Store)
    requires Follows(a, b) && Follows(b, c)
    ensures Follows(a, c)
  {
    hide Holds;
  }

  /** Changing only lines, without new ids. */
  lemma {:induction false} ItemsFollow(store: Store, items: seq<Line>)
    requires Valid(store) && store.cart.Some?
    requires NoNewIds(store.cart.value.items, items) && DistinctIds(items)
    ensures Valid(WithItems(store, items)) && Follows(store, WithItems(store, items))
  {
    forall i | 0 <= i < |items|
      ensures items[i].id < store.nextId
    {
      assert HasId(items, items[i].id);
      assert HasId(store.cart.value.items, items[i].id);
    }
  }

  lemma {:induction false} CartForAddItemFollows(store: Store, request: AddRequest, answers: AddAnswers)
    requires Valid(store) && CartForAddItem(store.cart, request, answers).Some?
    ensures var ready := store.(cart := CartForAddItem(store.cart, request, answers));
      Valid(ready) && Follows(store, ready)
  {
    hide Cleaned, Resolve;
  }

  lemma {:induction false} PutLineFollows(store: Store, line: Line, le: (string, string) -> bool)
    requires Valid(store) && store.cart.Some? && line.id == store.nextId
    ensures var items := store.cart.value.items;
      var found := FindLine(items, LineKey(line, le), le);
      var after := Store(Some(store.cart.value.(items := PutLine(items, line, le))),
                         if found.Some? then store.nextId else store.nextId + 1);
      Valid(after) && Follows(store, after)
  {
    hide LineKey;
    var items := store.cart.value.items;
    var found := FindLine(items, LineKey(line, le), le);
    hide FindLine;
    if found.Some? {
      SameIds(items, PutLine(items, line, le));
      ItemsFollow(store, PutLine(items, line, le));
    } else {
      forall id
        ensures HasId(items + [line], id) <==> HasId(items, id) || line.id == id
      {
        HasIdSnoc(items, line, id);
      }
    }
  }

  lemma {:induction false} AddItemFollows(store: Store, request: AddRequest, answers: AddAnswers, le: (string, string) -> bool)
    requires Valid(store)
    ensures Valid(AddItem(store, request, answers, le).store) && Follows(store, AddItem(store, request, answers, le).store)
  {
    hide CartForAddItem, FindLine, PutLine, LineKey, Stored, ResolvedChoice;
    if CartForAddItem(store.cart, request, answers).Some? {
      CartForAddItemFollows(store, request, answers);
      var ready := store.(cart := CartForAddItem(store.cart, request, answers));
      if answers.validated.Some? {
        PutLineFollows(ready, AddedLine(request, answers.validated.value, store.nextId), le);
        FollowsTransitive(store, ready, AddItem(store, request, answers, le).store);
      }
    }
  }

  lemma {:induction false} LineStepFollows(store: Store, step: Step, le: (string, string) -> bool)
    requires Valid(store) && (step.ChangeLine? || step.DropLine? || step.ChangeDeal? || step.DropDeal?)
    ensures Valid(Apply(store, step, le)) && Follows(store, Apply(store, step, le))
  {
    hide EntriesOf, Pack, UpdatedChoice, FindId, SetUnits, RemoveUnits;
    if store.cart.Some? {
      var items := store.cart.value.items;
      match step {
        case ChangeLine(id, update, _) =>
          var at := FindId(items, id);
          if at.Some? {
            SameIds(items, items[at.value := UpdatedLine(items[at.value], update)]);
            ItemsFollow(store, items[at.value := UpdatedLine(items[at.value], update)]);
          }
        case DropLine(id) =>
          var at := FindId(items, id);
          if at.Some? {
            WithoutIds(items, at.value);
            ItemsFollow(store, Without(items, at.value));
          }
        case ChangeDeal(call, quantity) =>
          SetUnitsIds(items, EntriesOf(items, call), quantity);
          SameIds(items, SetUnits(items, EntriesOf(items, call), quantity));
          ItemsFollow(store, SetUnits(items, EntriesOf(items, call), quantity));
        case DropDeal(call) =>
          RemoveUnitsIds(items, EntriesOf(items, call));
          ItemsFollow(store, RemoveUnits(items, EntriesOf(items, call)));
      }
    }
  }

  lemma {:induction false} StepFollows(store: Store, step: Step, le: (string, string) -> bool)
    requires Valid(store)
    ensures Valid(Apply(store, step, le)) && Follows(store, Apply(store, step, le))
  {
    if step.Add? {
      AddItemFollows(store, step.request, step.answers, le);
    } else if step.ChangeLine? || step.DropLine? || step.ChangeDeal? || step.DropDeal? {
      LineStepFollows(store, step, le);
    } else {
      OtherStepFollows(store, step, le);
    }
  }

  lemma {:induction false} OtherStepFollows(store: Store, step: Step, le: (string, string) -> bool)
    requires Valid(store) && (step.ChangeCart? || step.ChangeAddress? || step.AskQuote? || step.Discard?)
    ensures Valid(Apply(store, step, le)) && Follows(store, Apply(store, step, le))
  {
    hide Cleaned;
  }

  // ----- Runs -----

  /** Every reachable store is valid: in particular a set address means the order is a delivery. */
  lemma {:induction false} RunValid(store: Store, steps: seq<Step>, le: (string, string) -> bool)
    requires Valid(store)
    ensures Valid(Run(store, steps, le))
  {
    if steps != [] {
      RunValid(store, steps[..|steps| - 1], le);
      StepFollows(Run(store, steps[..|steps| - 1], le), steps[|steps| - 1], le);
    }
  }

  lemma {:induction false} RunFollows(store: Store, steps: seq<Step>, le: (string, string) -> bool)
    requires Valid(store)
    ensures Follows(store, Run(store, steps, le))
  {
    if steps != [] {
      var front := steps[..|steps| - 1];
      hide Apply, Follows, Valid;
      assert Follows(store, Run(store, front, le)) by {
        RunFollows(store, front, le);
      }
      RunValid(store, front, le);
      StepFollows(Run(store, front, le), steps[|steps| - 1], le);
      FollowsTransitive(store, Run(store, front, le), Run(store, steps, le));
    } else {
      hide Valid;
    }
  }

  /** A reachable delivery address belongs to a delivery. */
  lemma {:induction false} AddressMeansDelivery(steps: seq<Step>, le: (string, string) -> bool)
    ensures var cart := Run(Store(None, 0), steps, le).cart;
      cart.Some? && cart.value.deliveryAddressId.Some? ==> cart.value.orderType == Delivery
  {
    hide Run;
    RunValid(Store(None, 0), steps, le);
  }

  /** A line present at two moments of a run was under one branch and one menu at both. */
  lemma {:induction false} LineKeepsContext(steps: seq<Step>, later: seq<Step>, id: nat, le: (string, string) -> bool)
    requires Holds(Run(Store(None, 0), steps, le), id)
    requires Holds(Run(Run(Store(None, 0), steps, le), later, le), id)
    ensures SameContext(Run(Store(None, 0), steps, le), Run(Run(Store(None, 0), steps, le), later, le))
  {
    hide Run;
    RunValid(Store(None, 0), steps, le);
    RunFollows(Run(Store(None, 0), steps, le), later, le);
  }

  /** A line appears only when it was validated, against the branch the cart has and, if it has one, its menu. */
  lemma {:induction false} LinesAreAdded(store: Store, step: Step, id: nat, le: (string, string) -> bool)
    requires Valid(store) && !Holds(store, id) && Holds(Apply(store, step, le), id)
    ensures step.Add? && step.answers.validated.Some? && id == store.nextId
    ensures SameContext(store.(cart := CartForAddItem(store.cart, step.request, step.answers)), Apply(store, step, le))
  {
    StepFollows(store, step, le);
    HeldBelow(Apply(store, step, le), id);
    if step.Add? {
      AddedOnly(store, step.request, step.answers, id, le);
    } else {
      OnlyAddsNumber(store, step, le);
    }
  }

  lemma {:induction false} HeldBelow(store: Store, id: nat)
    requires Valid(store) && Holds(store, id)
    ensures id < store.nextId
  {}

  lemma {:induction false} OnlyAddsNumber(store: Store, step: Step, le: (string, string) -> bool)
    requires !step.Add?
    ensures Apply(store, step, le).nextId == store.nextId
  {
    hide EntriesOf, Pack, UpdatedChoice, FindId, SetUnits, RemoveUnits, Cleaned;
  }

  lemma {:induction false} AddedOnly(store: Store, request: AddRequest, answers: AddAnswers, id: nat, le: (string, string) -> bool)
    requires Valid(store) && !Holds(store, id) && Holds(AddItem(store, request, answers, le).store, id)
    ensures answers.validated.Some? && id == store.nextId
    ensures SameContext(store.(cart := CartForAddItem(store.cart, request, answers)), AddItem(store, request, answers, le).store)
  {
    hide CartForAddItem, FindLine, LineKey, Stored, ResolvedChoice;
    var after := AddItem(store, request, answers, le).store;
    AddItemFollows(store, request, answers, le);
    assert id >= store.nextId;
    assert after.nextId <= store.nextId + 1;
    HeldBelow(after, id);
    assert answers.validated.None? ==> after.nextId == store.nextId;
  }
}
