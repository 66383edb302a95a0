/** How a cart line stores what was chosen for it, and how the choice is read back.
    Models packCartSelections and the readers of the stored JSON. */
module Selections {
  import opened Prelude
  import opened Json

  /** A quantity may be left out; it then reads as one. */
  datatype Modifier = Modifier(modifierId: string, quantity: Option<Numeral>)

  datatype GroupSelection = GroupSelection(modifierGroupId: string, modifiers: seq<Modifier>)

  datatype Slot = LeftHalf | RightHalf

  datatype Section = Section(slot: Slot, menuItemId: string)

  datatype Selection = Selection(
    modifiers: Option<seq<Modifier>>,
    sections: Option<seq<Section>>,
    dealId: Option<string>,
    groups: Option<seq<GroupSelection>>
  )

  function Mapped<T, U>(f: T -> U, xs: seq<T>): (ys: seq<U>)
    ensures |ys| == |xs|
    ensures forall k :: 0 <= k < |xs| ==> ys[k] == f(xs[k])
  {
    if xs == [] then [] else Mapped(f, xs[..|xs| - 1]) + [f(xs[|xs| - 1])]
  }

  function Chosen<T>(xs: Option<seq<T>>): seq<T> { xs.GetOr([]) }

  function NonEmpty<T>(xs: seq<T>): Option<seq<T>> { if xs == [] then None else Some(xs) }

  // ----- Packing -----

  function ModifierJson(m: Modifier): Value {
    Obj([Member("modifierId", Str(m.modifierId))]
        + (if m.quantity.Some? then [Member("quantity", Num(m.quantity.value))] else []))
  }

  function GroupJson(g: GroupSelection): Value {
    Obj([Member("modifierGroupId", Str(g.modifierGroupId)), Member("modifiers", Arr(Mapped(ModifierJson, g.modifiers)))])
  }

  function SlotText(slot: Slot): string { if slot == LeftHalf then "LEFT" else "RIGHT" }

  function SectionJson(section: Section): Value {
    Obj([Member("slot", Str(SlotText(section.slot))), Member("menuItemId", Str(section.menuItemId))])
  }

  function PackedMembers(s: Selection): seq<Member> {
    (if s.dealId.GetOr("") != "" then [Member("dealId", Str(s.dealId.value))] else [])
    + [Member("modifiers", Arr(Mapped(ModifierJson, Chosen(s.modifiers))))]
    + (if Chosen(s.groups) != [] then [Member("modifierSelections", Arr(Mapped(GroupJson, s.groups.value)))] else [])
    + (if Chosen(s.sections) != [] then [Member("sections", Arr(Mapped(SectionJson, s.sections.value)))] else [])
  }

  predicate Bare(s: Selection) {
    Chosen(s.sections) == [] && s.dealId.GetOr("") == "" && Chosen(s.groups) == []
  }

  /** A bare array when there are only modifiers, an object otherwise, nothing for no choice at all. */
  function Pack(s: Selection): Option<Value> {
    if Bare(s) then
      if Chosen(s.modifiers) == [] then None else Some(Arr(Mapped(ModifierJson, s.modifiers.value)))
    else Some(Obj(PackedMembers(s)))
  }

  /** What the column holds after packing. */
  function Stored(s: Selection): Value { Pack(s).GetOr(Null) }

  // ----- Reading -----

  function Lookup(members: seq<Member>, key: string): Option<Value> {
    if members == [] then None
    else if members[|members| - 1].key == key then Some(members[|members| - 1].value)
    else Lookup(members[..|members| - 1], key)
  }

  function Field(v: Value, key: string): Option<Value> {
    if v.Obj? then Lookup(v.members, key) else None
  }

  function TextField(v: Value, key: string): Option<string> {
    match Field(v, key)
    case Some(Str(text)) => Some(text)
    case _ => None
  }

  /** The array a reader goes through: the value itself, or a field of it. */
  function SourceArray(input: Value, key: string): Option<seq<Value>> {
    if input.Arr? then Some(input.items)
    else match Field(input, key)
      case Some(Arr(items)) => Some(items)
      case _ => None
  }

  function ReadModifier(item: Value): Option<Modifier> {
    match TextField(item, "modifierId")
    case None => None
    case Some(id) =>
      Some(Modifier(id, match Field(item, "quantity") case Some(Num(n)) => Some(n) case _ => Some("1")))
  }

  function ReadGroup(item: Value): Option<GroupSelection> {
    match (TextField(item, "modifierGroupId"), Field(item, "modifiers"))
    case (Some(id), Some(Arr(items))) => Some(GroupSelection(id, Collect(items, ReadModifier)))
    case _ => None
  }

  function ReadSection(item: Value): Option<Section> {
    match (TextField(item, "slot"), TextField(item, "menuItemId"))
    case (Some(slot), Some(id)) =>
      if slot == "LEFT" then Some(Section(LeftHalf, id))
      else if slot == "RIGHT" then Some(Section(RightHalf, id))
      else None
    case _ => None
  }

  /** The readable items, in order. */
  function Collect<T>(items: seq<Value>, read: Value -> Option<T>): seq<T> {
    if items == [] then []
    else
      var front := Collect(items[..|items| - 1], read);
      match read(items[|items| - 1])
      case Some(x) => front + [x]
      case None => front
  }

  function Gather<T>(input: Value, key: string, read: Value -> Option<T>): Option<seq<T>> {
    match SourceArray(input, key)
    case None => None
    case Some(items) => NonEmpty(Collect(items, read))
  }

  function StoredModifiers(input: Value): Option<seq<Modifier>> { Gather(input, "modifiers", ReadModifier) }

  function StoredGroups(input: Value): Option<seq<GroupSelection>> { Gather(input, "modifierSelections", ReadGroup) }

  function StoredSections(input: Value): Option<seq<Section>> { Gather(input, "sections", ReadSection) }

  function ReadDealId(input: Value): Option<string> { TextField(input, "dealId") }

  method ReadModifiers(input: Value) returns (result: Option<seq<Modifier>>)
    ensures result == StoredModifiers(input)
  {
    var source := SourceArray(input, "modifiers");
    hide Lookup;
    if source.None? {
      return None;
    }
    var modifiers: seq<Modifier> := [];
    for i := 0 to |source.value|
      invariant modifiers == Collect(source.value[..i], ReadModifier)
    {
      assert source.value[..i + 1][..i] == source.value[..i];
      var item := source.value[i];
      if item.Obj? {
        var id := Lookup(item.members, "modifierId");
        if id.Some? && id.value.Str? {
          var quantity := Lookup(item.members, "quantity");
          modifiers := modifiers
          + [Modifier(id.value.text, if quantity.Some? && quantity.value.Num? then Some(quantity.value.numeral) else Some("1"))];
        }
      }
    }
    assert source.value[..|source.value|] == source.value;
    result := if |modifiers| > 0 then Some(modifiers) else None;
  }

  method ReadModifierSelections(input: Value) returns (result: Option<seq<GroupSelection>>)
    ensures result == StoredGroups(input)
  {
    var source := SourceArray(input, "modifierSelections");
    hide Lookup;
    if source.None? {
      return None;
    }
    var selections: seq<GroupSelection> := [];
    for i := 0 to |source.value|
      invariant selections == Collect(source.value[..i], ReadGroup)
    {
      assert source.value[..i + 1][..i] == source.value[..i];
      var item := source.value[i];
      if item.Obj? {
        var id, raw := Lookup(item.members, "modifierGroupId"), Lookup(item.members, "modifiers");
        if id.Some? && id.value.Str? && raw.Some? && raw.value.Arr? {
          var modifiers := ReadModifiers(raw.value);
          selections := selections + [GroupSelection(id.value.text, modifiers.GetOr([]))];
        }
      }
    }
    assert source.value[..|source.value|] == source.value;
    result := if |selections| > 0 then Some(selections) else None;
  }

  method ReadSections(input: Value) returns (result: Option<seq<Section>>)
    ensures result == StoredSections(input)
  {
    var source := SourceArray(input, "sections");
    hide Lookup;
    if source.None? {
      return None;
    }
    var sections: seq<Section> := [];
    for i := 0 to |source.value|
      invariant sections == Collect(source.value[..i], ReadSection)
    {
      assert source.value[..i + 1][..i] == source.value[..i];
      var item := source.value[i];
      if item.Obj? {
        var slot, id := Lookup(item.members, "slot"), Lookup(item.members, "menuItemId");
        if slot.Some? && slot.value.Str? && slot.value.text in {"LEFT", "RIGHT"} && id.Some? && id.value.Str? {
          sections := sections + [Section(if slot.value.text == "LEFT" then LeftHalf else RightHalf, id.value.text)];
        }
      }
    }
    assert source.value[..|source.value|] == source.value;
    result := if |sections| > 0 then Some(sections) else None;
  }

  // ----- What was packed reads back -----

  function WithQuantity(m: Modifier): Modifier { m.(quantity := Some(m.quantity.GetOr("1"))) }

  function GroupWithQuantities(g: GroupSelection): GroupSelection { g.(modifiers := Mapped(WithQuantity, g.modifiers)) }

  /** Reading what an encoder wrote. */
  lemma {:induction false} CollectMapped<T, U>(xs: seq<T>, encode: T -> Value, read: Value -> Option<U>, image: T -> U)
    requires forall k :: 0 <= k < |xs| ==> read(encode(xs[k])) == Some(image(xs[k]))
    ensures Collect(Mapped(encode, xs), read) == Mapped(image, xs)
  {
    if xs != [] {
      var front := xs[..|xs| - 1];
      CollectMapped(front, encode, read, image);
      assert Mapped(encode, xs)[..|xs| - 1] == Mapped(encode, front);
    }
  }

  lemma {:induction false} CollectNone<T>(items: seq<Value>, read: Value -> Option<T>)
    requires forall k :: 0 <= k < |items| ==> read(items[k]).None?
    ensures Collect(items, read) == []
  {
    if items != [] {
      CollectNone(items[..|items| - 1], read);
    }
  }

  lemma {:induction false} LookupSnoc(members: seq<Member>, m: Member, key: string)
    ensures Lookup(members + [m], key) == if m.key == key then Some(m.value) else Lookup(members, key)
  {
    assert (members + [m])[..|members|] == members;
  }

  /** The fields of an object of two members with different keys. */
  lemma {:induction false} LookupTwo(m: Member, n: Member, key: string)
    ensures Lookup([m], key) == if m.key == key then Some(m.value) else None
    ensures Lookup([m, n], key) == if n.key == key then Some(n.value) else if m.key == key then Some(m.value) else None
  {
    assert [] + [m] == [m] && [m] + [n] == [m, n];
    LookupSnoc([], m, key);
    LookupSnoc([m], n, key);
  }

  lemma {:induction false} ModifierRoundTrip(m: Modifier)
    ensures ReadModifier(ModifierJson(m)) == Some(WithQuantity(m))
    ensures ReadGroup(ModifierJson(m)).None? && ReadSection(ModifierJson(m)).None?
  {
    var id := Member("modifierId", Str(m.modifierId));
    forall key
      ensures Field(ModifierJson(m), key)
           == if key == "quantity" && m.quantity.Some? then Some(Num(m.quantity.value))
              else if key == "modifierId" then Some(id.value)
              else None
    {
      if m.quantity.Some? {
        var quantity := Member("quantity", Num(m.quantity.value));
        assert [id] + [quantity] == [id, quantity];
        LookupTwo(id, quantity, key);
      } else {
        assert [id] + [] == [id];
        LookupTwo(id, id, key);
      }
    }
  }

  lemma {:induction false} SectionRoundTrip(section: Section)
    ensures ReadSection(SectionJson(section)) == Some(section)
  {
    var slot, id := Member("slot", Str(SlotText(section.slot))), Member("menuItemId", Str(section.menuItemId));
    LookupTwo(slot, id, "slot");
    LookupTwo(slot, id, "menuItemId");
  }

  /** The fields of the packed object. */
  function PackedField(s: Selection, key: string): Option<Value> {
    if key == "dealId" && s.dealId.GetOr("") != "" then Some(Str(s.dealId.value))
    else if key == "modifiers" then Some(Arr(Mapped(ModifierJson, Chosen(s.modifiers))))
    else if key == "modifierSelections" && Chosen(s.groups) != [] then Some(Arr(Mapped(GroupJson, s.groups.value)))
    else if key == "sections" && Chosen(s.sections) != [] then Some(Arr(Mapped(SectionJson, s.sections.value)))
    else None
  }

  lemma {:induction false} PackedFields(s: Selection, key: string)
    ensures Lookup(PackedMembers(s), key) == PackedField(s, key)
  {
    hide Mapped, ModifierJson, GroupJson, SectionJson, Lookup;
    var deal := if s.dealId.GetOr("") != "" then [Member("dealId", Str(s.dealId.value))] else [];
    var modifiers := [Member("modifiers", Arr(Mapped(ModifierJson, Chosen(s.modifiers))))];
    var groups := if Chosen(s.groups) != [] then [Member("modifierSelections", Arr(Mapped(GroupJson, s.groups.value)))] else [];
    var sections := if Chosen(s.sections) != [] then [Member("sections", Arr(Mapped(SectionJson, s.sections.value)))] else [];
    assert PackedMembers(s) == deal + modifiers + groups + sections;
    hide PackedMembers;
    LookupFour(deal, modifiers, groups, sections, key);
  }

  lemma {:induction false} LookupFour(a: seq<Member>, b: seq<Member>, c: seq<Member>, d: seq<Member>, key: string)
    requires |a| <= 1 && |b| <= 1 && |c| <= 1 && |d| <= 1
    ensures Lookup(a + b + c + d, key)
         == if d != [] && d[0].key == key then Some(d[0].value)
            else if c != [] && c[0].key == key then Some(c[0].value)
            else if b != [] && b[0].key == key then Some(b[0].value)
            else if a != [] && a[0].key == key then Some(a[0].value)
            else None
  {
    hide Lookup;
    assert [] + a == a;
    LookupAppend([], a, key);
    LookupAppend(a, b, key);
    LookupAppend(a + b, c, key);
    LookupAppend(a + b + c, d, key);
  }

  lemma {:induction false} LookupAppend(members: seq<Member>, more: seq<Member>, key: string)
    requires |more| <= 1
    ensures Lookup(members + more, key)
         == if more != [] && more[0].key == key then Some(more[0].value) else Lookup(members, key)
    ensures Lookup([], key).None?
  {
    if more == [] {
      assert members + more == members;
    } else {
      LookupSnoc(members, more[0], key);
      assert members + more == members + [more[0]];
    }
  }

  lemma {:induction false} ModifiersRead(modifiers: seq<Modifier>)
    ensures Collect(Mapped(ModifierJson, modifiers), ReadModifier) == Mapped(WithQuantity, modifiers)
    ensures Collect(Mapped(ModifierJson, modifiers), ReadGroup) == []
    ensures Collect(Mapped(ModifierJson, modifiers), ReadSection) == []
  {
    forall k | 0 <= k < |modifiers|
      ensures ReadModifier(ModifierJson(modifiers[k])) == Some(WithQuantity(modifiers[k]))
      ensures ReadGroup(ModifierJson(modifiers[k])).None? && ReadSection(ModifierJson(modifiers[k])).None?
    {
      ModifierRoundTrip(modifiers[k]);
    }
    hide ModifierJson, ReadModifier, ReadGroup, ReadSection;
    CollectMapped(modifiers, ModifierJson, ReadModifier, WithQuantity);
    CollectNone(Mapped(ModifierJson, modifiers), ReadGroup);
    CollectNone(Mapped(ModifierJson, modifiers), ReadSection);
  }

  lemma {:induction false} GroupRoundTrip(g: GroupSelection)
    ensures ReadGroup(GroupJson(g)) == Some(GroupWithQuantities(g))
  {
    hide Collect, Mapped, Lookup;
    var id := Member("modifierGroupId", Str(g.modifierGroupId));
    var modifiers := Member("modifiers", Arr(Mapped(ModifierJson, g.modifiers)));
    LookupTwo(id, modifiers, "modifierGroupId");
    LookupTwo(id, modifiers, "modifiers");
    ModifiersRead(g.modifiers);
  }

  lemma {:induction false} GroupsRead(groups: seq<GroupSelection>)
    ensures Collect(Mapped(GroupJson, groups), ReadGroup) == Mapped(GroupWithQuantities, groups)
  {
    hide GroupJson, ReadGroup;
    forall k | 0 <= k < |groups|
      ensures ReadGroup(GroupJson(groups[k])) == Some(GroupWithQuantities(groups[k]))
    {
      GroupRoundTrip(groups[k]);
    }
    CollectMapped(groups, GroupJson, ReadGroup, GroupWithQuantities);
  }

  lemma {:induction false} SectionsRead(sections: seq<Section>)
    ensures Collect(Mapped(SectionJson, sections), ReadSection) == sections
  {
    hide SectionJson, ReadSection;
    var same: Section -> Section := section => section;
    forall k | 0 <= k < |sections|
      ensures ReadSection(SectionJson(sections[k])) == Some(same(sections[k]))
    {
      SectionRoundTrip(sections[k]);
    }
    CollectMapped(sections, SectionJson, ReadSection, same);
    assert Mapped(same, sections) == sections;
  }

  /** In either encoding, the deal, the modifiers, the grouped modifiers and the sections read back as they were
      packed; an empty choice reads as no choice and a missing quantity as one. */
  lemma {:induction false} PackRoundTrip(s: Selection)
    ensures ReadDealId(Stored(s)) == if s.dealId.GetOr("") == "" then None else s.dealId
    ensures StoredModifiers(Stored(s)) == NonEmpty(Mapped(WithQuantity, Chosen(s.modifiers)))
    ensures StoredGroups(Stored(s)) == NonEmpty(Mapped(GroupWithQuantities, Chosen(s.groups)))
    ensures StoredSections(Stored(s)) == NonEmpty(Chosen(s.sections))
  {
    hide Collect, Mapped, PackedMembers, Lookup, ReadModifier, ReadGroup, ReadSection;
    ModifiersRead(Chosen(s.modifiers));
    if !Bare(s) {
      PackedFields(s, "dealId");
      PackedFields(s, "modifiers");
      PackedFields(s, "modifierSelections");
      PackedFields(s, "sections");
      GroupsRead(Chosen(s.groups));
      SectionsRead(Chosen(s.sections));
    }
  }
}
