/** What single cart operations do to selections and quantities. */
module CartLaws {
  import opened Prelude
  import opened Texts
  import opened Json
  import opened Sorting
  import opened CanonicalJson
  import opened Selections
  import opened SelectionBags
  import opened DealGroups
  import opened Carts
  import opened CartRuns

  // ----- One line per selection -----

  /** No two lines hold the same selection. */
  ghost predicate OneLineEach(items: seq<Line>, le: (string, string) -> bool) {
    forall i, j :: 0 <= i < j < |items| ==> LineKey(items[i], le) != LineKey(items[j], le)
  }

  ghost predicate OneLinePerSelection(store: Store, le: (string, string) -> bool) {
    store.cart.Some? ==> OneLineEach(store.cart.value.items, le)
  }

  /** Units of the lines with a selection. */
  ghost function UnitsOf(items: seq<Line>, key: Key, le: (string, string) -> bool): int {
    if items == [] then 0
    else
      var n := |items| - 1;
      UnitsOf(items[..n], key, le) + (if LineKey(items[n], le) == key then items[n].quantity else 0)
  }

  ghost function TotalUnits(items: seq<Line>): int {
    if items == [] then 0 else TotalUnits(items[..|items| - 1]) + items[|items| - 1].quantity
  }

  lemma {:induction false} RequantifyUnits(items: seq<Line>, i: nat, quantity: int, key: Key, le: (string, string) -> bool)
    requires i < |items|
    ensures var after := items[i := items[i].(quantity := quantity)];
      && UnitsOf(after, key, le)
         == UnitsOf(items, key, le) + (if LineKey(items[i], le) == key then quantity - items[i].quantity else 0)
      && TotalUnits(after) == TotalUnits(items) + quantity - items[i].quantity
  {
    hide StableJson;
    var n := |items| - 1;
    var after := items[i := items[i].(quantity := quantity)];
    if i == n {
      assert after[..n] == items[..n];
    } else {
      RequantifyUnits(items[..n], i, quantity, key, le);
      assert after[..n] == items[..n][i := items[i].(quantity := quantity)];
    }
  }

  /** Adding raises the units of the added selection by the quantity added, and no other's. */
  lemma {:induction false} PutLineUnits(items: seq<Line>, line: Line, key: Key, le: (string, string) -> bool)
    ensures UnitsOf(PutLine(items, line, le), key, le)
         == UnitsOf(items, key, le) + (if LineKey(line, le) == key then line.quantity else 0)
    ensures TotalUnits(PutLine(items, line, le)) == TotalUnits(items) + line.quantity
  {
    hide LineKey;
    var found := FindLine(items, LineKey(line, le), le);
    if found.Some? {
      RequantifyUnits(items, found.value, items[found.value].quantity + line.quantity, key, le);
    } else {
      assert (items + [line])[..|items|] == items;
    }
  }

  lemma {:induction false} PutLineKeepsOneEach(items: seq<Line>, line: Line, le: (string, string) -> bool)
    requires OneLineEach(items, le)
    ensures OneLineEach(PutLine(items, line, le), le)
  {
    hide FindLine, StableJson;
  }

  /** A successful add puts exactly the quantity asked for into the cart it chose, under exactly the selection asked
      for; a refused one adds nothing. */
  lemma {:induction false} AddItemUnits(store: Store, request: AddRequest, answers: AddAnswers, key: Key, le: (string, string) -> bool)
    requires CartForAddItem(store.cart, request, answers).Some?
    ensures var before := CartForAddItem(store.cart, request, answers).value.items;
      var outcome := AddItem(store, request, answers, le);
      && outcome.store.cart.Some?
      && var after := outcome.store.cart.value.items;
      && (outcome.ok ==>
        && answers.validated.Some?
        && TotalUnits(after) == TotalUnits(before) + request.quantity
        && UnitsOf(after, key, le) == UnitsOf(before, key, le)
           + (if key == LineKey(AddedLine(request, answers.validated.value, store.nextId), le) then request.quantity else 0))
      && (!outcome.ok ==> after == before)
  {
    hide CartForAddItem, FindLine, PutLine, LineKey, Stored, ResolvedChoice;
    var before := CartForAddItem(store.cart, request, answers).value.items;
    if answers.validated.Some? {
      PutLineUnits(before, AddedLine(request, answers.validated.value, store.nextId), key, le);
    }
  }

  /** The cart an item goes into holds the lines there were, or none when the branch changes. */
  lemma {:induction false} CartForAddItemLines(cart: Cart, request: AddRequest, answers: AddAnswers)
    requires CartForAddItem(Some(cart), request, answers).Some?
    ensures CartForAddItem(Some(cart), request, answers).value.items
         == if Cleaned(request.branchId).Some? && Cleaned(request.branchId).value != cart.branchId then [] else cart.items
  {
    hide Cleaned, Resolve;
  }

  /** A change of a line that gives it the selection of another line: the line is there, it has no deal, the change is
      accepted, and some other line has the selection it would have. */
  ghost predicate Clashes(store: Store, step: Step, le: (string, string) -> bool) {
    && step.ChangeLine? && step.accepted && store.cart.Some?
    && var items := store.cart.value.items;
       var at := FindId(items, step.id);
    && at.Some?
    && ReadDealId(items[at.value].modifiers).GetOr("") == ""
    && exists i :: 0 <= i < |items| && i != at.value
                   && LineKey(items[i], le) == LineKey(UpdatedLine(items[at.value], step.update), le)
  }

  lemma {:induction false} ChangeLineOneEach(items: seq<Line>, at: nat, line: Line, le: (string, string) -> bool)
    requires OneLineEach(items, le) && at < |items|
    ensures OneLineEach(items[at := line], le)
            <==> forall i :: 0 <= i < |items| && i != at ==> LineKey(items[i], le) != LineKey(line, le)
  {
    hide LineKey;
    var after := items[at := line];
    if OneLineEach(after, le) {
      forall i | 0 <= i < |items| && i != at
        ensures LineKey(items[i], le) != LineKey(line, le)
      {
        assert after[i] == items[i] && after[at] == line;
      }
    }
  }

  /** Some line has the key. */
  ghost predicate HasKey(items: seq<Line>, key: Key, le: (string, string) -> bool) {
    exists i :: 0 <= i < |items| && LineKey(items[i], le) == key
  }

  lemma {:induction false} HasKeySnoc(items: seq<Line>, line: Line, key: Key, le: (string, string) -> bool)
    ensures HasKey(items + [line], key, le) <==> HasKey(items, key, le) || LineKey(line, le) == key
  {
    hide LineKey;
    if HasKey(items, key, le) {
      var i :| 0 <= i < |items| && LineKey(items[i], le) == key;
      assert LineKey((items + [line])[i], le) == key;
    }
    if LineKey(line, le) == key {
      assert LineKey((items + [line])[|items|], le) == key;
    }
  }

  lemma {:induction false} OneLineEachSnoc(items: seq<Line>, line: Line, le: (string, string) -> bool)
    ensures OneLineEach(items + [line], le) <==> OneLineEach(items, le) && !HasKey(items, LineKey(line, le), le)
  {
    hide LineKey;
    var all := items + [line];
    if OneLineEach(all, le) {
      forall i | 0 <= i < |items|
        ensures LineKey(items[i], le) != LineKey(line, le)
      {
        assert all[i] == items[i] && all[|items|] == line;
      }
      forall i, j | 0 <= i < j < |items|
        ensures LineKey(items[i], le) != LineKey(items[j], le)
      {
        assert all[i] == items[i] && all[j] == items[j];
      }
    }
  }

  lemma {:induction false} RemoveUnitsKeys(items: seq<Line>, entries: seq<Entry>, le: (string, string) -> bool)
    ensures forall key :: HasKey(RemoveUnits(items, entries), key, le) ==> HasKey(items, key, le)
    ensures OneLineEach(items, le) ==> OneLineEach(RemoveUnits(items, entries), le)
  {
    if items != [] {
      var n := |items| - 1;
      var front, last := items[..n], items[n];
      RemoveUnitsKeys(front, entries, le);
      var kept, after := RemoveUnits(front, entries), AfterRemoval(last, EntryFor(entries, n));
      assert after != [] ==> after == [after[0]] && LineKey(after[0], le) == LineKey(last, le);
      assert RemoveUnits(items, entries) == kept + after && items == front + [last];
      hide LineKey, RemoveUnits, HasKey, OneLineEach, AfterRemoval;
      OneLineEachSnoc(front, last, le);
      if after == [] {
        assert kept + after == kept;
      } else {
        OneLineEachSnoc(kept, after[0], le);
      }
      forall key
        ensures HasKey(kept + after, key, le) ==> HasKey(items, key, le)
      {
        KeysLeft(front, last, kept, after, key, le);
      }
    }
  }

  lemma {:induction false} KeysLeft(
    front: seq<Line>, last: Line, kept: seq<Line>, after: seq<Line>, key: Key, le: (string, string) -> bool)
    requires after != [] ==> after == [after[0]] && LineKey(after[0], le) == LineKey(last, le)
    requires HasKey(kept, key, le) ==> HasKey(front, key, le)
    ensures HasKey(kept + after, key, le) ==> HasKey(front + [last], key, le)
  {
    hide LineKey, HasKey;
    HasKeySnoc(front, last, key, le);
    if after == [] {
      assert kept + after == kept;
    } else {
      HasKeySnoc(kept, after[0], key, le);
    }
  }

  lemma {:induction false} SetUnitsKeys(items: seq<Line>, entries: seq<Entry>, quantity: int, le: (string, string) -> bool)
    ensures forall i :: 0 <= i < |items| ==> LineKey(SetUnits(items, entries, quantity)[i], le) == LineKey(items[i], le)
  {
    hide StableJson;
    if items != [] {
      SetUnitsKeys(items[..|items| - 1], entries, quantity, le);
    }
  }

  lemma {:induction false} LineStepOneEach(store: Store, step: Step, le: (string, string) -> bool)
    requires OneLinePerSelection(store, le) && (step.ChangeLine? || step.DropLine? || step.ChangeDeal? || step.DropDeal?)
    ensures OneLinePerSelection(Apply(store, step, le), le) <==> !Clashes(store, step, le)
  {
    hide EntriesOf, UpdatedLine, FindId, SetUnits, RemoveUnits, LineKey;
    if store.cart.Some? {
      var items := store.cart.value.items;
      match step {
        case ChangeLine(id, update, _) =>
          if FindId(items, id).Some? {
            var at := FindId(items, id).value;
            ChangeLineOneEach(items, at, UpdatedLine(items[at], update), le);
          }
        case DropLine(id) =>
        case ChangeDeal(call, quantity) =>
          SetUnitsKeys(items, EntriesOf(items, call), quantity, le);
        case DropDeal(call) =>
          RemoveUnitsKeys(items, EntriesOf(items, call), le);
      }
    }
  }

  lemma {:induction false} AddOneEach(store: Store, request: AddRequest, answers: AddAnswers, le: (string, string) -> bool)
    requires OneLinePerSelection(store, le)
    ensures OneLinePerSelection(AddItem(store, request, answers, le).store, le)
  {
    hide CartForAddItem, FindLine, PutLine, LineKey, Stored, ResolvedChoice;
    if CartForAddItem(store.cart, request, answers).Some? {
      var before := CartForAddItem(store.cart, request, answers).value.items;
      assert OneLineEach(before, le) by {
        if store.cart.Some? {
          CartForAddItemLines(store.cart.value, request, answers);
        } else {
          NewCartEmpty(request, answers);
        }
      }
      if answers.validated.Some? {
        PutLineKeepsOneEach(before, AddedLine(request, answers.validated.value, store.nextId), le);
      }
    }
  }

  lemma {:induction false} NewCartEmpty(request: AddRequest, answers: AddAnswers)
    requires CartForAddItem(None, request, answers).Some?
    ensures CartForAddItem(None, request, answers).value.items == []
  {}

  /** A step keeps one line per selection exactly when it does not change a line into another one's selection. */
  lemma {:induction false} StepOneEach(store: Store, step: Step, le: (string, string) -> bool)
    requires OneLinePerSelection(store, le)
    ensures OneLinePerSelection(Apply(store, step, le), le) <==> !Clashes(store, step, le)
  {
    if step.Add? {
      AddOneEach(store, step.request, step.answers, le);
    } else if step.ChangeLine? || step.DropLine? || step.ChangeDeal? || step.DropDeal? {
      LineStepOneEach(store, step, le);
    } else {
      hide Cleaned, LineKey;
    }
  }

  /** A run without such a change never holds two lines with the same selection. */
  lemma {:induction false} RunOneEach(steps: seq<Step>, le: (string, string) -> bool)
    requires forall k :: 0 <= k < |steps| ==> !Clashes(Run(Store(None, 0), steps[..k], le), steps[k], le)
    ensures OneLinePerSelection(Run(Store(None, 0), steps, le), le)
  {
    hide Apply, Clashes;
    if steps != [] {
      var n := |steps| - 1;
      forall k | 0 <= k < n
        ensures !Clashes(Run(Store(None, 0), steps[..n][..k], le), steps[..n][k], le)
      {
        assert steps[..n][..k] == steps[..k];
      }
      RunOneEach(steps[..n], le);
      StepOneEach(Run(Store(None, 0), steps[..n], le), steps[n], le);
    }
  }

  /** Two lines are one selection exactly when item, variation and trimmed note agree and the choices do. */
  lemma {:induction false} SameKeySameChoice(a: Line, b: Line, s: Selection, t: Selection, le: (string, string) -> bool)
    requires TotalOrder(le) && a.modifiers == Stored(s) && b.modifiers == Stored(t)
    ensures LineKey(a, le) == LineKey(b, le)
            <==> a.menuItemId == b.menuItemId && a.variationId == b.variationId && Cleaned(a.note) == Cleaned(b.note)
                 && SameChoice(s, t)
  {
    hide Stored, SameChoice, StableJson;
    SameTextSameChoice(s, t, le);
  }

  /** Such a change exists: two lines that differ in their note alone, and an update of one note to the other. */
  lemma {:induction false} NoteUpdateClashes(a: Line, b: Line, cart: Cart, nextId: nat, le: (string, string) -> bool)
    requires cart.items == [a, b] && a.id != b.id && a.menuItemId == b.menuItemId && a.variationId == b.variationId
    requires a.modifiers == b.modifiers && ReadDealId(b.modifiers).GetOr("") == ""
    ensures Clashes(Store(Some(cart), nextId),
                    ChangeLine(b.id, UpdateRequest(None, None, Some(a.note), None, None, None), true), le)
  {
    hide StableJson, ReadDealId, Pack;
    var update := UpdateRequest(None, None, Some(a.note), None, None, None);
    var items := cart.items;
    assert FindId(items, b.id) == Some(1);
    CleanedIdempotent(a.note);
    assert LineKey(items[0], le) == LineKey(UpdatedLine(items[1], update), le);
  }

  /** The request touches what was chosen. */
  predicate TouchesChoice(request: UpdateRequest) {
    request.modifiers.Some? || request.sections.Some? || request.groups.Some?
  }

  /** Nothing is chosen but perhaps a deal. */
  predicate ChoosesNothing(s: Selection) {
    Chosen(s.modifiers) == [] && Chosen(s.sections) == [] && Chosen(s.groups) == []
  }

  /** The stored value reads back as the choice. */
  predicate ReadsAs(stored: Value, s: Selection) {
    && ReadDealId(stored).GetOr("") == s.dealId.GetOr("")
    && StoredModifiers(stored) == NonEmpty(Mapped(WithQuantity, Chosen(s.modifiers)))
    && StoredGroups(stored) == NonEmpty(Mapped(GroupWithQuantities, Chosen(s.groups)))
    && StoredSections(stored) == NonEmpty(Chosen(s.sections))
  }

  /** Nothing reads back as chosen. */
  predicate HadNoChoice(line: Line) {
    StoredModifiers(line.modifiers).None? && StoredGroups(line.modifiers).None? && StoredSections(line.modifiers).None?
  }

  lemma {:induction false} MappedNothing<T, U>(f: T -> U, xs: seq<T>)
    ensures NonEmpty(Mapped(f, xs)).None? <==> xs == []
  {}

  /** An update of a line without a deal stores the choice it asks for exactly when it asks for something or the line
      had no choice before. Asking for nothing leaves the stored choice as it was. */
  lemma {:induction false} UpdateStoresChoice(line: Line, request: UpdateRequest)
    requires TouchesChoice(request) && ReadDealId(line.modifiers).GetOr("") == ""
    ensures ReadsAs(UpdatedLine(line, request).modifiers, UpdatedChoice(line, request))
            <==> !ChoosesNothing(UpdatedChoice(line, request)) || HadNoChoice(line)
    ensures ChoosesNothing(UpdatedChoice(line, request)) ==> UpdatedLine(line, request).modifiers == line.modifiers
  {
    var c := UpdatedChoice(line, request);
    assert c.dealId == ReadDealId(line.modifiers);
    hide ReadDealId, StoredModifiers, StoredGroups, StoredSections, UpdatedChoice, Mapped, PackedMembers;
    if ChoosesNothing(c) {
      MappedNothing(WithQuantity, Chosen(c.modifiers));
      MappedNothing(GroupWithQuantities, Chosen(c.groups));
    } else {
      PackRoundTrip(c);
    }
  }

  /** An empty list of modifiers does not empty a line that holds only modifiers. */
  lemma {:induction false} EmptyModifiersKept(line: Line, m: Modifier)
    requires line.modifiers == Stored(Selection(Some([m]), None, None, None))
    ensures var request := UpdateRequest(None, None, None, Some(Some([])), None, None);
      && UpdatedLine(line, request).modifiers == line.modifiers
      && !ReadsAs(line.modifiers, UpdatedChoice(line, request))
  {
    var s := Selection(Some([m]), None, None, None);
    var request := UpdateRequest(None, None, None, Some(Some([])), None, None);
    PackRoundTrip(s);
    MappedNothing(WithQuantity, [m]);
    hide Stored, Mapped, ReadDealId, StoredModifiers, StoredGroups, StoredSections;
    assert ChoosesNothing(UpdatedChoice(line, request));
    UpdateStoresChoice(line, request);
  }

  // ----- Removing a deal -----

  /** The line with an id. */
  ghost function LineWith(items: seq<Line>, id: nat): Option<Line> {
    if FindId(items, id).Some? then Some(items[FindId(items, id).value]) else None
  }

  lemma {:induction false} LineWithSnoc(items: seq<Line>, line: Line, id: nat)
    ensures LineWith(items + [line], id)
         == if LineWith(items, id).Some? then LineWith(items, id) else if line.id == id then Some(line) else None
  {
    assert (items + [line])[..|items|] == items;
  }

  lemma {:induction false} LineWithNone(items: seq<Line>, id: nat)
    ensures LineWith(items, id).None? <==> !HasId(items, id)
  {}

  /** What is left of a line: all of it when no entry names it, the rest of its units, or nothing. */
  ghost function Left(line: Line, entry: Option<Entry>): Option<Line> {
    match entry
    case None => Some(line)
    case Some(e) =>
      if e.quantity < line.quantity then Some(line.(quantity := line.quantity - e.quantity)) else None
  }

  /** Every line is left with its units less those named, all else unchanged; a line left with none is gone. */
  lemma {:induction false} RemoveUnitsExact(items: seq<Line>, entries: seq<Entry>, i: nat)
    requires DistinctIds(items) && i < |items|
    ensures LineWith(RemoveUnits(items, entries), items[i].id) == Left(items[i], EntryFor(entries, i))
  {
    hide RemoveUnits, LineWith, HasId, EntryFor;
    var n, id := |items| - 1, items[i].id;
    LastRemoved(items, entries, id);
    if i < n {
      assert items[..n][i] == items[i] && items[n].id != id;
      RemoveUnitsExact(items[..n], entries, i);
    } else {
      NotKept(items, entries);
    }
  }

  lemma {:induction false} NotKept(items: seq<Line>, entries: seq<Entry>)
    requires DistinctIds(items) && items != []
    ensures LineWith(RemoveUnits(items[..|items| - 1], entries), items[|items| - 1].id).None?
  {
    hide RemoveUnits, LineWith;
    RemoveUnitsIds(items[..|items| - 1], entries);
    NotInFront(items);
    LineWithNone(RemoveUnits(items[..|items| - 1], entries), items[|items| - 1].id);
  }

  lemma {:induction false} LastRemoved(items: seq<Line>, entries: seq<Entry>, id: nat)
    requires items != []
    ensures var n := |items| - 1;
      var earlier := LineWith(RemoveUnits(items[..n], entries), id);
      LineWith(RemoveUnits(items, entries), id)
      == if earlier.Some? then earlier else if items[n].id == id then Left(items[n], EntryFor(entries, n)) else None
  {
    var n := |items| - 1;
    var kept, after := RemoveUnits(items[..n], entries), AfterRemoval(items[n], EntryFor(entries, n));
    assert RemoveUnits(items, entries) == kept + after;
    hide RemoveUnits, LineWith, EntryFor;
    if after == [] {
      assert kept + after == kept;
    } else {
      assert after == [after[0]] && after[0].id == items[n].id;
      LineWithSnoc(kept, after[0], id);
    }
  }

  lemma {:induction false} NotInFront(items: seq<Line>)
    requires DistinctIds(items) && items != []
    ensures !HasId(items[..|items| - 1], items[|items| - 1].id)
  {}

  /** Units a line loses: those named on it, or all it has when more are named. */
  ghost function LostBy(line: Line, entry: Option<Entry>): int {
    match entry
    case None => 0
    case Some(e) => Min(e.quantity, line.quantity)
  }

  ghost function Lost(items: seq<Line>, entries: seq<Entry>): nat -> int {
    (i: nat) => if i < |items| then LostBy(items[i], EntryFor(entries, i)) else 0
  }

  lemma {:induction false} TotalAppend(items: seq<Line>, more: seq<Line>)
    requires |more| <= 1
    ensures TotalUnits(items + more) == TotalUnits(items) + (if more == [] then 0 else more[0].quantity)
  {
    if more == [] {
      assert items + more == items;
    } else {
      assert (items + more)[..|items|] == items;
    }
  }

  lemma {:induction false} LostSnoc(items: seq<Line>, entries: seq<Entry>)
    requires items != []
    ensures var n := |items| - 1;
      Total(|items|, Lost(items, entries)) == Total(n, Lost(items[..n], entries)) + LostBy(items[n], EntryFor(entries, n))
  {
    var n := |items| - 1;
    hide EntryFor, LostBy;
    TotalEqual(n, Lost(items, entries), Lost(items[..n], entries));
  }

  /** In total the cart loses what its lines lose. */
  lemma {:induction false} RemoveUnitsTotal(items: seq<Line>, entries: seq<Entry>)
    ensures TotalUnits(RemoveUnits(items, entries)) == TotalUnits(items) - Total(|items|, Lost(items, entries))
  {
    if items != [] {
      var n := |items| - 1;
      RemoveUnitsTotal(items[..n], entries);
      LostSnoc(items, entries);
      var kept, after := RemoveUnits(items[..n], entries), AfterRemoval(items[n], EntryFor(entries, n));
      assert RemoveUnits(items, entries) == kept + after;
      assert TotalUnits(items) == TotalUnits(items[..n]) + items[n].quantity;
      hide EntryFor, Total, Lost, RemoveUnits, TotalUnits;
      TotalAppend(kept, after);
    }
  }
}
