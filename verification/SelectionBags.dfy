/** When two packed selections count as the same: exactly when they choose the same deal and the same bags of
    modifiers, sections and grouped modifiers. */
module SelectionBags {
  import opened Prelude
  import opened Json
  import opened Sorting
  import opened CanonicalJson
  import opened Selections

  // ----- Objects agree field by field -----

  ghost predicate SameField(a: Option<Value>, b: Option<Value>) {
    if a.Some? && b.Some? then Equiv(a.value, b.value) else a == b
  }

  ghost predicate FieldsAgree(a: seq<Member>, b: seq<Member>) {
    forall key :: SameField(Lookup(a, key), Lookup(b, key))
  }

  lemma {:induction false} LookupFound(members: seq<Member>, key: string) returns (k: int)
    requires Lookup(members, key).Some?
    ensures 0 <= k < |members| && members[k] == Member(key, Lookup(members, key).value)
  {
    if members[|members| - 1].key == key {
      k := |members| - 1;
    } else {
      k := LookupFound(members[..|members| - 1], key);
    }
  }

  lemma {:induction false} LookupAt(members: seq<Member>, k: int)
    requires DistinctKeys(members) && 0 <= k < |members|
    ensures Lookup(members, members[k].key) == Some(members[k].value)
  {
    if k < |members| - 1 {
      LookupAt(members[..|members| - 1], k);
    }
  }

  lemma {:induction false} LookupWithout(members: seq<Member>, k: int, key: string)
    requires DistinctKeys(members) && 0 <= k < |members|
    ensures DistinctKeys(Without(members, k))
    ensures Lookup(Without(members, k), key) == if key == members[k].key then None else Lookup(members, key)
  {
    var rest := Without(members, k);
    if Lookup(rest, key).Some? {
      var i := LookupFound(rest, key);
      var at := if i < k then i else i + 1;
      assert members[at] == rest[i];
      LookupAt(members, at);
    } else if Lookup(members, key).Some? {
      var i := LookupFound(members, key);
      if i != k {
        var at := if i < k then i else i - 1;
        assert rest[at] == members[i];
        LookupAt(rest, at);
      }
    }
  }

  lemma {:induction false} MembersAgree(a: seq<Member>, b: seq<Member>)
    requires DistinctKeys(a) && DistinctKeys(b)
    ensures SameMembers(a, b) <==> FieldsAgree(a, b)
    decreases |a|
  {
    hide Equiv;
    if a == [] {
      if b != [] {
        LookupAt(b, 0);
        assert !SameField(Lookup(a, b[0].key), Lookup(b, b[0].key));
      }
    } else {
      MembersAgreeStep(a, b);
    }
  }

  lemma {:induction false} MembersAgreeStep(a: seq<Member>, b: seq<Member>)
    requires DistinctKeys(a) && DistinctKeys(b) && a != []
    ensures SameMembers(a, b) <==> FieldsAgree(a, b)
    decreases |a|, 0
  {
    hide Equiv, DistinctKeys;
    var n := |a| - 1;
    var m := a[n];
    if SameMembers(a, b) {
      var k := MemberPairOf(a, b);
      FieldsWithout(a, b, k, "");
      MembersAgree(a[..n], Without(b, k));
      forall key
        ensures SameField(Lookup(a, key), Lookup(b, key))
      {
        FieldsWithout(a, b, k, key);
        assert SameField(Lookup(a[..n], key), Lookup(Without(b, k), key));
      }
    }
    if FieldsAgree(a, b) {
      LookupAt(a, n);
      assert SameField(Lookup(a, m.key), Lookup(b, m.key));
      var k := LookupFound(b, m.key);
      FieldsWithout(a, b, k, m.key);
      forall key
        ensures SameField(Lookup(a[..n], key), Lookup(Without(b, k), key))
      {
        FieldsWithout(a, b, k, key);
        assert SameField(Lookup(a, key), Lookup(b, key));
      }
      assert SameMember(m, b[k]);
      assert FieldsAgree(a[..n], Without(b, k));
      MembersAgree(a[..n], Without(b, k));
      assert MemberPair(a, b, k);
    }
  }

  lemma {:induction false} MemberPairOf(a: seq<Member>, b: seq<Member>) returns (k: int)
    requires a != [] && SameMembers(a, b)
    ensures 0 <= k < |b| && MemberPair(a, b, k)
  {
    hide MemberPair;
    k :| 0 <= k < |b| && MemberPair(a, b, k);
  }

  lemma {:induction false} FieldsWithout(a: seq<Member>, b: seq<Member>, k: int, key: string)
    requires DistinctKeys(a) && DistinctKeys(b) && a != [] && 0 <= k < |b|
    ensures DistinctKeys(a[..|a| - 1]) && DistinctKeys(Without(b, k))
    ensures Lookup(a[..|a| - 1], key) == if key == a[|a| - 1].key then None else Lookup(a, key)
    ensures Lookup(Without(b, k), key) == if key == b[k].key then None else Lookup(b, key)
    ensures Lookup(a, a[|a| - 1].key) == Some(a[|a| - 1].value) && Lookup(b, b[k].key) == Some(b[k].value)
  {
    assert Without(a, |a| - 1) == a[..|a| - 1];
    LookupWithout(a, |a| - 1, key);
    LookupWithout(b, k, key);
    LookupAt(a, |a| - 1);
    LookupAt(b, k);
  }

  // ----- Arrays agree as bags -----

  lemma {:induction false} MappedWithout<T, U>(f: T -> U, xs: seq<T>, k: int)
    requires 0 <= k < |xs|
    ensures Mapped(f, Without(xs, k)) == Without(Mapped(f, xs), k)
  {}

  /** Where equivalence of the encodings is equality of images, arrays of encodings are equivalent exactly when the
      images form the same bag. */
  lemma {:induction false} BagsDecide<T(!new), U>(encode: T -> Value, image: T -> U, xs: seq<T>, ys: seq<T>)
    requires forall x, y :: Equiv(encode(x), encode(y)) <==> image(x) == image(y)
    ensures SameItems(Mapped(encode, xs), Mapped(encode, ys)) <==> multiset(Mapped(image, xs)) == multiset(Mapped(image, ys))
    decreases |xs|, 1
  {
    hide Pairs, ItemPair;
    var us, vs := Mapped(image, xs), Mapped(image, ys);
    if xs == [] {
      SameSize(us, vs);
    } else {
      forall k | 0 <= k < |ys|
        ensures ItemPair(Mapped(encode, xs), Mapped(encode, ys), k) <==> Pairs(us, vs, k)
      {
        BagsStep(encode, image, xs, ys, k);
      }
      hide Mapped;
      PairingOff(us, vs);
    }
  }

  lemma {:induction false} BagsStep<T(!new), U>(encode: T -> Value, image: T -> U, xs: seq<T>, ys: seq<T>, k: int)
    requires forall x, y :: Equiv(encode(x), encode(y)) <==> image(x) == image(y)
    requires xs != [] && 0 <= k < |ys|
    ensures ItemPair(Mapped(encode, xs), Mapped(encode, ys), k) <==> Pairs(Mapped(image, xs), Mapped(image, ys), k)
    decreases |xs|, 0
  {
    hide Equiv;
    var n := |xs| - 1;
    assert Mapped(encode, xs)[..n] == Mapped(encode, xs[..n]) && Mapped(image, xs)[..n] == Mapped(image, xs[..n]);
    MappedWithout(encode, ys, k);
    MappedWithout(image, ys, k);
    BagsDecide(encode, image, xs[..n], Without(ys, k));
  }

  // ----- Each encoding -----

  lemma {:induction false} ModifierDecides(m: Modifier, n: Modifier)
    ensures Equiv(ModifierJson(m), ModifierJson(n)) <==> m == n
  {
    var a, b := ModifierJson(m).members, ModifierJson(n).members;
    MembersAgree(a, b);
    forall key
      ensures Lookup(a, key) == ModifierField(m, key) && Lookup(b, key) == ModifierField(n, key)
    {
      ModifierFields(m, key);
      ModifierFields(n, key);
    }
    hide Lookup, ModifierJson;
    if SameMembers(a, b) {
      assert SameField(Lookup(a, "modifierId"), Lookup(b, "modifierId"));
      assert SameField(Lookup(a, "quantity"), Lookup(b, "quantity"));
    }
  }

  function ModifierField(m: Modifier, key: string): Option<Value> {
    if key == "modifierId" then Some(Str(m.modifierId))
    else if key == "quantity" && m.quantity.Some? then Some(Num(m.quantity.value))
    else None
  }

  lemma {:induction false} ModifierFields(m: Modifier, key: string)
    ensures DistinctKeys(ModifierJson(m).members)
    ensures Lookup(ModifierJson(m).members, key) == ModifierField(m, key)
  {
    var id := Member("modifierId", Str(m.modifierId));
    if m.quantity.Some? {
      var quantity := Member("quantity", Num(m.quantity.value));
      assert [id] + [quantity] == [id, quantity];
      LookupTwo(id, quantity, key);
    } else {
      assert [id] + [] == [id];
      LookupTwo(id, id, key);
    }
  }

  lemma {:induction false} ModifiersDecide(xs: seq<Modifier>, ys: seq<Modifier>)
    ensures SameItems(Mapped(ModifierJson, xs), Mapped(ModifierJson, ys)) <==> multiset(xs) == multiset(ys)
  {
    hide Equiv, ModifierJson;
    var same: Modifier -> Modifier := m => m;
    forall m, n
      ensures Equiv(ModifierJson(m), ModifierJson(n)) <==> same(m) == same(n)
    {
      ModifierDecides(m, n);
    }
    BagsDecide(ModifierJson, same, xs, ys);
    assert Mapped(same, xs) == xs && Mapped(same, ys) == ys;
  }

  lemma {:induction false} SectionDecides(m: Section, n: Section)
    ensures Equiv(SectionJson(m), SectionJson(n)) <==> m == n
  {
    var a, b := SectionJson(m).members, SectionJson(n).members;
    MembersAgree(a, b);
    forall key
      ensures Lookup(a, key) == SectionField(m, key) && Lookup(b, key) == SectionField(n, key)
    {
      LookupTwo(a[0], a[1], key);
      LookupTwo(b[0], b[1], key);
    }
    hide Lookup, SectionJson;
    if SameMembers(a, b) {
      assert SameField(Lookup(a, "slot"), Lookup(b, "slot"));
      assert SameField(Lookup(a, "menuItemId"), Lookup(b, "menuItemId"));
    }
  }

  function SectionField(s: Section, key: string): Option<Value> {
    if key == "slot" then Some(Str(SlotText(s.slot)))
    else if key == "menuItemId" then Some(Str(s.menuItemId))
    else None
  }

  lemma {:induction false} SectionsDecide(xs: seq<Section>, ys: seq<Section>)
    ensures SameItems(Mapped(SectionJson, xs), Mapped(SectionJson, ys)) <==> multiset(xs) == multiset(ys)
  {
    hide Equiv, SectionJson;
    var same: Section -> Section := s => s;
    forall m, n
      ensures Equiv(SectionJson(m), SectionJson(n)) <==> same(m) == same(n)
    {
      SectionDecides(m, n);
    }
    BagsDecide(SectionJson, same, xs, ys);
    assert Mapped(same, xs) == xs && Mapped(same, ys) == ys;
  }

  /** A group with the bag of its modifiers. */
  datatype GroupBag = GroupBag(modifierGroupId: string, modifiers: multiset<Modifier>)

  function Bag(g: GroupSelection): GroupBag { GroupBag(g.modifierGroupId, multiset(g.modifiers)) }

  lemma {:induction false} GroupDecides(g: GroupSelection, h: GroupSelection)
    ensures Equiv(GroupJson(g), GroupJson(h)) <==> Bag(g) == Bag(h)
  {
    var a, b := GroupJson(g).members, GroupJson(h).members;
    MembersAgree(a, b);
    forall key
      ensures Lookup(a, key) == GroupField(g, key) && Lookup(b, key) == GroupField(h, key)
    {
      LookupTwo(a[0], a[1], key);
      LookupTwo(b[0], b[1], key);
    }
    GroupFieldsDecide(g, h);
    hide SameField, GroupField, Lookup;
    if FieldsAgree(a, b) {
      assert SameField(Lookup(a, "modifierGroupId"), Lookup(b, "modifierGroupId"));
      assert SameField(Lookup(a, "modifiers"), Lookup(b, "modifiers"));
    }
  }

  lemma {:induction false} GroupFieldsDecide(g: GroupSelection, h: GroupSelection)
    ensures SameField(GroupField(g, "modifierGroupId"), GroupField(h, "modifierGroupId"))
            <==> g.modifierGroupId == h.modifierGroupId
    ensures SameField(GroupField(g, "modifiers"), GroupField(h, "modifiers")) <==> multiset(g.modifiers) == multiset(h.modifiers)
    ensures Bag(g) == Bag(h) ==> forall key :: SameField(GroupField(g, key), GroupField(h, key))
  {
    hide SameItems, Mapped, ModifierJson;
    ModifiersDecide(g.modifiers, h.modifiers);
  }

  function GroupField(g: GroupSelection, key: string): Option<Value> {
    if key == "modifierGroupId" then Some(Str(g.modifierGroupId))
    else if key == "modifiers" then Some(Arr(Mapped(ModifierJson, g.modifiers)))
    else None
  }

  lemma {:induction false} GroupsDecide(xs: seq<GroupSelection>, ys: seq<GroupSelection>)
    ensures SameItems(Mapped(GroupJson, xs), Mapped(GroupJson, ys)) <==> multiset(Mapped(Bag, xs)) == multiset(Mapped(Bag, ys))
  {
    hide Equiv, GroupJson;
    forall m, n
      ensures Equiv(GroupJson(m), GroupJson(n)) <==> Bag(m) == Bag(n)
    {
      GroupDecides(m, n);
    }
    BagsDecide(GroupJson, Bag, xs, ys);
  }

  // ----- Whole selections -----

  /** The same deal, and the same bags of modifiers, sections and groups; choosing nothing and choosing an empty list
      are the same. */
  ghost predicate SameChoice(s: Selection, t: Selection) {
    && s.dealId.GetOr("") == t.dealId.GetOr("")
    && multiset(Chosen(s.modifiers)) == multiset(Chosen(t.modifiers))
    && multiset(Chosen(s.sections)) == multiset(Chosen(t.sections))
    && multiset(Mapped(Bag, Chosen(s.groups))) == multiset(Mapped(Bag, Chosen(t.groups)))
  }

  lemma {:induction false} PackedDistinct(s: Selection)
    ensures DistinctKeys(PackedMembers(s))
  {}

  lemma {:induction false} DealDecides(s: Selection, t: Selection)
    ensures SameField(PackedField(s, "dealId"), PackedField(t, "dealId")) <==> s.dealId.GetOr("") == t.dealId.GetOr("")
  {}

  lemma {:induction false} ModifierFieldDecides(s: Selection, t: Selection)
    ensures SameField(PackedField(s, "modifiers"), PackedField(t, "modifiers"))
            <==> multiset(Chosen(s.modifiers)) == multiset(Chosen(t.modifiers))
  {
    hide SameItems, Mapped, ModifierJson;
    ModifiersDecide(Chosen(s.modifiers), Chosen(t.modifiers));
  }

  lemma {:induction false} SectionFieldDecides(s: Selection, t: Selection)
    ensures SameField(PackedField(s, "sections"), PackedField(t, "sections"))
            <==> multiset(Chosen(s.sections)) == multiset(Chosen(t.sections))
  {
    hide SameItems, Mapped, SectionJson;
    SectionsDecide(Chosen(s.sections), Chosen(t.sections));
    SameSize(Chosen(s.sections), Chosen(t.sections));
  }

  lemma {:induction false} GroupFieldDecides(s: Selection, t: Selection)
    ensures SameField(PackedField(s, "modifierSelections"), PackedField(t, "modifierSelections"))
            <==> multiset(Mapped(Bag, Chosen(s.groups))) == multiset(Mapped(Bag, Chosen(t.groups)))
  {
    GroupsDecide(Chosen(s.groups), Chosen(t.groups));
    SameSize(Mapped(Bag, Chosen(s.groups)), Mapped(Bag, Chosen(t.groups)));
    hide SameItems, Mapped, GroupJson;
  }

  lemma {:induction false} OtherFields(s: Selection, t: Selection, key: string)
    requires key !in {"dealId", "modifiers", "modifierSelections", "sections"}
    ensures SameField(PackedField(s, key), PackedField(t, key))
  {}

  lemma {:induction false} PackedDecide(s: Selection, t: Selection)
    ensures SameMembers(PackedMembers(s), PackedMembers(t)) <==> SameChoice(s, t)
  {
    hide PackedMembers, Mapped, Lookup, PackedField, SameField;
    var a, b := PackedMembers(s), PackedMembers(t);
    PackedDistinct(s);
    PackedDistinct(t);
    MembersAgree(a, b);
    forall key
      ensures Lookup(a, key) == PackedField(s, key) && Lookup(b, key) == PackedField(t, key)
      ensures key !in {"dealId", "modifiers", "modifierSelections", "sections"}
              ==> SameField(PackedField(s, key), PackedField(t, key))
    {
      PackedFields(s, key);
      PackedFields(t, key);
      if key !in {"dealId", "modifiers", "modifierSelections", "sections"} {
        OtherFields(s, t, key);
      }
    }
    DealDecides(s, t);
    ModifierFieldDecides(s, t);
    SectionFieldDecides(s, t);
    GroupFieldDecides(s, t);
    if FieldsAgree(a, b) {
      assert SameField(Lookup(a, "dealId"), Lookup(b, "dealId"));
      assert SameField(Lookup(a, "modifiers"), Lookup(b, "modifiers"));
      assert SameField(Lookup(a, "modifierSelections"), Lookup(b, "modifierSelections"));
      assert SameField(Lookup(a, "sections"), Lookup(b, "sections"));
    }
  }

  /** Two packed selections are equal up to order exactly when they make the same choice. */
  lemma {:induction false} StoredDecides(s: Selection, t: Selection)
    ensures Equiv(Stored(s), Stored(t)) <==> SameChoice(s, t)
  {
    hide Mapped, Lookup, PackedMembers, ModifierJson, SameItems;
    SameSize(Chosen(s.modifiers), Chosen(t.modifiers));
    SameSize(Chosen(s.sections), Chosen(t.sections));
    SameSize(Mapped(Bag, Chosen(s.groups)), Mapped(Bag, Chosen(t.groups)));
    if Bare(s) && Bare(t) {
      ModifiersDecide(Chosen(s.modifiers), Chosen(t.modifiers));
    } else if !Bare(s) && !Bare(t) {
      PackedDecide(s, t);
    }
  }

  lemma {:induction false} MappedWellFormed<T>(encode: T -> Value, xs: seq<T>)
    requires forall k :: 0 <= k < |xs| ==> WellFormed(encode(xs[k]))
    ensures WellFormed(Arr(Mapped(encode, xs)))
  {}

  lemma {:induction false} ModifiersWellFormed(modifiers: seq<Modifier>)
    ensures WellFormed(Arr(Mapped(ModifierJson, modifiers)))
  {
    hide WellFormed, ModifierJson;
    forall k | 0 <= k < |modifiers|
      ensures WellFormed(ModifierJson(modifiers[k]))
    {
      ModifierWellFormed(modifiers[k]);
    }
    MappedWellFormed(ModifierJson, modifiers);
  }

  lemma {:induction false} GroupsWellFormed(groups: seq<GroupSelection>)
    ensures WellFormed(Arr(Mapped(GroupJson, groups)))
  {
    hide WellFormed, GroupJson;
    forall k | 0 <= k < |groups|
      ensures WellFormed(GroupJson(groups[k]))
    {
      GroupWellFormed(groups[k]);
    }
    MappedWellFormed(GroupJson, groups);
  }

  lemma {:induction false} SectionsWellFormed(sections: seq<Section>)
    ensures WellFormed(Arr(Mapped(SectionJson, sections)))
  {
    hide WellFormed, SectionJson;
    forall k | 0 <= k < |sections|
      ensures WellFormed(SectionJson(sections[k]))
    {
      SectionWellFormed(sections[k]);
    }
    MappedWellFormed(SectionJson, sections);
  }

  lemma {:induction false} StoredWellFormed(s: Selection)
    ensures WellFormed(Stored(s))
  {
    hide Mapped, DistinctKeys;
    ModifiersWellFormed(Chosen(s.modifiers));
    GroupsWellFormed(Chosen(s.groups));
    SectionsWellFormed(Chosen(s.sections));
    PackedDistinct(s);
  }

  lemma {:induction false} ModifierWellFormed(m: Modifier)
    ensures WellFormed(ModifierJson(m))
  {
    ModifierFields(m, "");
  }

  lemma {:induction false} SectionWellFormed(s: Section)
    ensures WellFormed(SectionJson(s))
  {
    var a := SectionJson(s).members;
    assert WellFormed(a[0].value) && WellFormed(a[1].value) && DistinctKeys(a);
  }

  lemma {:induction false} GroupWellFormed(g: GroupSelection)
    ensures WellFormed(GroupJson(g))
  {
    ModifiersWellFormed(g.modifiers);
    hide Mapped;
    var a := GroupJson(g).members;
    assert WellFormed(a[0].value) && WellFormed(a[1].value) && DistinctKeys(a);
  }

  /** Two lines' stored selections compare equal exactly when they make the same choice. */
  lemma {:induction false} SameTextSameChoice(s: Selection, t: Selection, le: (string, string) -> bool)
    requires TotalOrder(le)
    ensures StableJson(Stored(s), le) == StableJson(Stored(t), le) <==> SameChoice(s, t)
  {
    hide Stored, SameChoice;
    StoredWellFormed(s);
    StoredWellFormed(t);
    StableJsonDecides(Stored(s), Stored(t), le);
    StoredDecides(s, t);
  }

  /** Selections that read back alike can still compare different: a missing quantity reads as one, but is not
      stored as one. */
  lemma {:induction false} MissingQuantityKeptApart(id: string, le: (string, string) -> bool)
    requires TotalOrder(le)
    ensures StoredModifiers(Stored(OneModifier(id, None))) == StoredModifiers(Stored(OneModifier(id, Some("1"))))
    ensures StableJson(Stored(OneModifier(id, None)), le) != StableJson(Stored(OneModifier(id, Some("1"))), le)
  {
    hide StoredModifiers, Stored, StableJson, TotalOrder;
    var s, t := OneModifier(id, None), OneModifier(id, Some("1"));
    PackRoundTrip(s);
    PackRoundTrip(t);
    SameTextSameChoice(s, t, le);
    assert Modifier(id, None) in multiset(Chosen(s.modifiers)) && Modifier(id, None) !in multiset(Chosen(t.modifiers));
    assert Mapped(WithQuantity, Chosen(s.modifiers)) == Mapped(WithQuantity, Chosen(t.modifiers));
  }

  function OneModifier(id: string, quantity: Option<Numeral>): Selection {
    Selection(Some([Modifier(id, quantity)]), None, None, None)
  }
}
