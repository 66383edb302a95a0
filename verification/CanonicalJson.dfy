/** The canonical text that decides whether two cart lines hold the same selection.
    Models sortJson and stableJson; `le` is the comparison of texts that localeCompare makes. */
module CanonicalJson {
  import opened Json
  import opened Sorting

  function KeyOf(m: Member): string { m.key }

  /** Arrays are sorted by the text of their sorted items, objects by key. */
  function SortJson(v: Value, le: (string, string) -> bool): Value
    decreases v
  {
    match v
    case Arr(items) => Arr(Sort(SortItems(items, le), Stringify, le))
    case Obj(members) => Obj(Sort(SortValues(members, le), KeyOf, le))
    case _ => v
  }

  function SortItems(items: seq<Value>, le: (string, string) -> bool): (sorted: seq<Value>)
    ensures |sorted| == |items|
    decreases items
  {
    if items == [] then [] else SortItems(items[..|items| - 1], le) + [SortJson(items[|items| - 1], le)]
  }

  function SortValue(m: Member, le: (string, string) -> bool): Member
    decreases m
  {
    Member(m.key, SortJson(m.value, le))
  }

  function SortValues(members: seq<Member>, le: (string, string) -> bool): (sorted: seq<Member>)
    ensures |sorted| == |members|
    decreases members
  {
    if members == [] then [] else SortValues(members[..|members| - 1], le) + [SortValue(members[|members| - 1], le)]
  }

  function StableJson(v: Value, le: (string, string) -> bool): string {
    Stringify(SortJson(v, le))
  }

  /** The same value up to the order of array items and of object keys, at every depth. */
  ghost predicate Equiv(v: Value, w: Value)
    decreases v
  {
    match v
    case Arr(items) => w.Arr? && SameItems(items, w.items)
    case Obj(members) => w.Obj? && SameMembers(members, w.members)
    case _ => v == w
  }

  /** The items pair off, each with an equivalent one. */
  ghost predicate SameItems(a: seq<Value>, b: seq<Value>)
    decreases a, 1
  {
    if a == [] then b == [] else exists k :: 0 <= k < |b| && ItemPair(a, b, k)
  }

  /** The last item of a goes with item k of b, and the others pair off. */
  ghost predicate ItemPair(a: seq<Value>, b: seq<Value>, k: int)
    requires a != [] && 0 <= k < |b|
    decreases a, 0
  {
    Equiv(a[|a| - 1], b[k]) && SameItems(a[..|a| - 1], Without(b, k))
  }

  /** The members pair off by key, with equivalent values. */
  ghost predicate SameMembers(a: seq<Member>, b: seq<Member>)
    decreases a, 1
  {
    if a == [] then b == [] else exists k :: 0 <= k < |b| && MemberPair(a, b, k)
  }

  ghost predicate MemberPair(a: seq<Member>, b: seq<Member>, k: int)
    requires a != [] && 0 <= k < |b|
    decreases a, 0
  {
    SameMember(a[|a| - 1], b[k]) && SameMembers(a[..|a| - 1], Without(b, k))
  }

  ghost predicate SameMember(m: Member, n: Member)
    decreases m
  {
    m.key == n.key && Equiv(m.value, n.value)
  }

  function Without<T>(xs: seq<T>, k: int): seq<T>
    requires 0 <= k < |xs|
  {
    xs[..k] + xs[k + 1..]
  }

  lemma {:induction false} WithoutOne<T>(xs: seq<T>, k: int)
    requires 0 <= k < |xs|
    ensures multiset(xs) == multiset(Without(xs, k)) + multiset{xs[k]}
  {
    assert xs == xs[..k] + [xs[k]] + xs[k + 1..];
  }

  // ----- Sorting item by item -----

  lemma {:induction false} SortItemsAt(items: seq<Value>, le: (string, string) -> bool, k: int)
    requires 0 <= k < |items|
    ensures SortItems(items, le)[k] == SortJson(items[k], le)
  {
    if k < |items| - 1 {
      SortItemsAt(items[..|items| - 1], le, k);
    }
  }

  lemma {:induction false} SortItemsWithout(items: seq<Value>, le: (string, string) -> bool, k: int)
    requires 0 <= k < |items|
    ensures SortItems(Without(items, k), le) == Without(SortItems(items, le), k)
  {
    var left, right := SortItems(Without(items, k), le), Without(SortItems(items, le), k);
    forall i | 0 <= i < |left|
      ensures left[i] == right[i]
    {
      SortItemsAt(Without(items, k), le, i);
      SortItemsAt(items, le, if i < k then i else i + 1);
    }
  }

  lemma {:induction false} SortValuesAt(members: seq<Member>, le: (string, string) -> bool, k: int)
    requires 0 <= k < |members|
    ensures SortValues(members, le)[k] == SortValue(members[k], le)
  {
    if k < |members| - 1 {
      SortValuesAt(members[..|members| - 1], le, k);
    }
  }

  lemma {:induction false} SortValuesWithout(members: seq<Member>, le: (string, string) -> bool, k: int)
    requires 0 <= k < |members|
    ensures SortValues(Without(members, k), le) == Without(SortValues(members, le), k)
  {
    var left, right := SortValues(Without(members, k), le), Without(SortValues(members, le), k);
    forall i | 0 <= i < |left|
      ensures left[i] == right[i]
    {
      SortValuesAt(Without(members, k), le, i);
      SortValuesAt(members, le, if i < k then i else i + 1);
    }
  }

  /** Objects may equally be sorted by key first and their values after, as the source does. */
  lemma {:induction false} ObjectOrder(members: seq<Member>, le: (string, string) -> bool)
    ensures SortJson(Obj(members), le).members == SortValues(Sort(members, KeyOf, le), le)
  {
    MapCommutes(members, le);
  }

  lemma {:induction false} MapCommutes(members: seq<Member>, le: (string, string) -> bool)
    ensures Sort(SortValues(members, le), KeyOf, le) == SortValues(Sort(members, KeyOf, le), le)
  {
    if members != [] {
      var n := |members| - 1;
      MapCommutes(members[..n], le);
      assert SortValues(members, le)[..n] == SortValues(members[..n], le);
      InsertCommutes(members[n], Sort(members[..n], KeyOf, le), le);
    }
  }

  lemma {:induction false} InsertCommutes(m: Member, members: seq<Member>, le: (string, string) -> bool)
    ensures Insert(SortValue(m, le), SortValues(members, le), KeyOf, le) == SortValues(Insert(m, members, KeyOf, le), le)
  {
    var sorted := SortValues(members, le);
    if members == [] {
      assert [m][..0] == [];
    } else {
      var n := |members| - 1;
      assert sorted[..n] == SortValues(members[..n], le);
      if le(members[n].key, m.key) {
        assert (members + [m])[..n + 1] == members;
      } else {
        InsertCommutes(m, members[..n], le);
        var more := Insert(m, members[..n], KeyOf, le);
        assert (more + [members[n]])[..|more|] == more;
      }
    }
  }

  // ----- The canonical form decides equivalence -----

  lemma {:induction false} TextDecides(xs: multiset<Value>)
    ensures KeyDecides(xs, Stringify)
  {
    forall v, w | v in xs && w in xs && Stringify(v) == Stringify(w)
      ensures v == w
    {
      StringifyInjective(v, w);
    }
  }

  lemma {:induction false} DistinctDecide(members: seq<Member>, le: (string, string) -> bool)
    requires DistinctKeys(members)
    ensures KeyDecides(multiset(SortValues(members, le)), KeyOf)
  {
    var sorted := SortValues(members, le);
    forall m, n | m in multiset(sorted) && n in multiset(sorted) && KeyOf(m) == KeyOf(n)
      ensures m == n
    {
      var i :| 0 <= i < |sorted| && sorted[i] == m;
      var j :| 0 <= j < |sorted| && sorted[j] == n;
      SortValuesAt(members, le, i);
      SortValuesAt(members, le, j);
    }
  }

  lemma {:induction false} SortDecides(v: Value, w: Value, le: (string, string) -> bool)
    requires TotalOrder(le) && WellFormed(v) && WellFormed(w)
    ensures SortJson(v, le) == SortJson(w, le) <==> Equiv(v, w)
    decreases v
  {
    if v.Arr? && w.Arr? {
      ItemsDecide(v.items, w.items, le);
      TextDecides(multiset(SortItems(v.items, le)));
      SortCanonical(SortItems(v.items, le), SortItems(w.items, le), Stringify, le);
    } else if v.Obj? && w.Obj? {
      MembersDecide(v.members, w.members, le);
      DistinctDecide(v.members, le);
      SortCanonical(SortValues(v.members, le), SortValues(w.members, le), KeyOf, le);
    }
  }

  lemma {:induction false} ItemsDecide(a: seq<Value>, b: seq<Value>, le: (string, string) -> bool)
    requires TotalOrder(le) && (forall v :: v in a ==> WellFormed(v)) && (forall v :: v in b ==> WellFormed(v))
    ensures multiset(SortItems(a, le)) == multiset(SortItems(b, le)) <==> SameItems(a, b)
    decreases a, 1
  {
    hide WellFormed, ItemPair, Pairs, TotalOrder, SortItems;
    var sortedA, sortedB := SortItems(a, le), SortItems(b, le);
    if a == [] {
      SameSize(sortedA, sortedB);
    } else {
      forall k | 0 <= k < |b|
        ensures Pairs(sortedA, sortedB, k) <==> ItemPair(a, b, k)
      {
        ItemsStep(a, b, le, k);
      }
      PairingOff(sortedA, sortedB);
    }
  }

  lemma {:induction false} ItemsStep(a: seq<Value>, b: seq<Value>, le: (string, string) -> bool, k: int)
    requires TotalOrder(le) && (forall v :: v in a ==> WellFormed(v)) && (forall v :: v in b ==> WellFormed(v))
    requires a != [] && 0 <= k < |b|
    ensures Pairs(SortItems(a, le), SortItems(b, le), k) <==> ItemPair(a, b, k)
    decreases a, 0
  {
    hide WellFormed, Equiv, TotalOrder, SortJson;
    assert SortItems(a, le)[..|a| - 1] == SortItems(a[..|a| - 1], le);
    SortItemsAt(b, le, k);
    SortDecides(a[|a| - 1], b[k], le);
    SortItemsWithout(b, le, k);
    ItemsDecide(a[..|a| - 1], Without(b, k), le);
  }

  /** The last of xs is element k of ys, and the others are the same elements. */
  ghost predicate Pairs<T>(xs: seq<T>, ys: seq<T>, k: int)
    requires xs != [] && 0 <= k < |ys|
  {
    xs[|xs| - 1] == ys[k] && multiset(xs[..|xs| - 1]) == multiset(Without(ys, k))
  }

  lemma {:induction false} SameSize<T>(xs: seq<T>, ys: seq<T>)
    ensures multiset(xs) == multiset(ys) ==> |xs| == |ys|
  {
    assert |multiset(xs)| == |xs| && |multiset(ys)| == |ys|;
  }

  /** Two lists hold the same elements exactly when the last of one occurs in the other and the rest agree. */
  lemma {:induction false} PairingOff<T>(xs: seq<T>, ys: seq<T>)
    requires xs != []
    ensures multiset(xs) == multiset(ys) <==> exists k :: 0 <= k < |ys| && Pairs(xs, ys, k)
  {
    Snoc(xs);
    if multiset(xs) == multiset(ys) {
      assert xs[|xs| - 1] in multiset(ys);
      var k :| 0 <= k < |ys| && ys[k] == xs[|xs| - 1];
      WithoutOne(ys, k);
      assert multiset(xs[..|xs| - 1]) == multiset(xs) - multiset{ys[k]};
      assert multiset(Without(ys, k)) == multiset(ys) - multiset{ys[k]};
      assert Pairs(xs, ys, k);
    }
    if k :| 0 <= k < |ys| && Pairs(xs, ys, k) {
      WithoutOne(ys, k);
    }
  }

  lemma {:induction false} MembersDecide(a: seq<Member>, b: seq<Member>, le: (string, string) -> bool)
    requires TotalOrder(le)
    requires (forall m :: m in a ==> WellFormed(m.value)) && (forall m :: m in b ==> WellFormed(m.value))
    ensures multiset(SortValues(a, le)) == multiset(SortValues(b, le)) <==> SameMembers(a, b)
    decreases a, 1
  {
    hide WellFormed, MemberPair, Pairs, TotalOrder, SortValues;
    var sortedA, sortedB := SortValues(a, le), SortValues(b, le);
    if a == [] {
      SameSize(sortedA, sortedB);
    } else {
      forall k | 0 <= k < |b|
        ensures Pairs(sortedA, sortedB, k) <==> MemberPair(a, b, k)
      {
        MembersStep(a, b, le, k);
      }
      PairingOff(sortedA, sortedB);
    }
  }

  lemma {:induction false} MembersStep(a: seq<Member>, b: seq<Member>, le: (string, string) -> bool, k: int)
    requires TotalOrder(le)
    requires (forall m :: m in a ==> WellFormed(m.value)) && (forall m :: m in b ==> WellFormed(m.value))
    requires a != [] && 0 <= k < |b|
    ensures Pairs(SortValues(a, le), SortValues(b, le), k) <==> MemberPair(a, b, k)
    decreases a, 0
  {
    hide WellFormed, Equiv, TotalOrder, SortJson;
    assert SortValues(a, le)[..|a| - 1] == SortValues(a[..|a| - 1], le);
    SortValuesAt(b, le, k);
    SortDecides(a[|a| - 1].value, b[k].value, le);
    SortValuesWithout(b, le, k);
    MembersDecide(a[..|a| - 1], Without(b, k), le);
  }

  /** Two values have the same canonical text exactly when they are equal up to order at every depth. */
  lemma {:induction false} StableJsonDecides(v: Value, w: Value, le: (string, string) -> bool)
    requires TotalOrder(le) && WellFormed(v) && WellFormed(w)
    ensures StableJson(v, le) == StableJson(w, le) <==> Equiv(v, w)
  {
    SortDecides(v, w, le);
    if StableJson(v, le) == StableJson(w, le) {
      StringifyInjective(SortJson(v, le), SortJson(w, le));
    }
  }

  // ----- Sorting twice changes nothing -----

  lemma {:induction false} SortJsonIdempotent(v: Value, le: (string, string) -> bool)
    requires TotalOrder(le) && WellFormed(v)
    ensures SortJson(SortJson(v, le), le) == SortJson(v, le)
    decreases v
  {
    match v {
      case Arr(items) =>
        forall k | 0 <= k < |items|
          ensures SortJson(SortJson(items[k], le), le) == SortJson(items[k], le)
        {
          SortJsonIdempotent(items[k], le);
        }
        ArrayIdempotent(items, le);
      case Obj(members) =>
        forall k | 0 <= k < |members|
          ensures SortJson(SortJson(members[k].value, le), le) == SortJson(members[k].value, le)
        {
          SortJsonIdempotent(members[k].value, le);
        }
        ObjectIdempotent(members, le);
      case _ =>
    }
  }

  lemma {:induction false} ArrayIdempotent(items: seq<Value>, le: (string, string) -> bool)
    requires TotalOrder(le)
    requires forall k :: 0 <= k < |items| ==> SortJson(SortJson(items[k], le), le) == SortJson(items[k], le)
    ensures SortJson(SortJson(Arr(items), le), le) == SortJson(Arr(items), le)
  {
    var mapped := SortItems(items, le);
    var sorted := Sort(mapped, Stringify, le);
    assert SortJson(Arr(items), le) == Arr(sorted);
    assert SortJson(Arr(sorted), le) == Arr(Sort(SortItems(sorted, le), Stringify, le));
    hide SortJson, Sort, SortItems, TotalOrder;
    SortKeeps(mapped, Stringify, le);
    forall x | x in sorted
      ensures SortJson(x, le) == x
    {
      assert x in multiset(sorted);
      assert x in multiset(mapped);
      var i :| 0 <= i < |mapped| && mapped[i] == x;
      SortItemsAt(items, le, i);
    }
    ItemsFixed(sorted, le);
    SortIdempotent(mapped, Stringify, le);
  }

  lemma {:induction false} ObjectIdempotent(members: seq<Member>, le: (string, string) -> bool)
    requires TotalOrder(le)
    requires forall k :: 0 <= k < |members| ==> SortJson(SortJson(members[k].value, le), le) == SortJson(members[k].value, le)
    ensures SortJson(SortJson(Obj(members), le), le) == SortJson(Obj(members), le)
  {
    var mapped := SortValues(members, le);
    var sorted := Sort(mapped, KeyOf, le);
    assert SortJson(Obj(members), le) == Obj(sorted);
    assert SortJson(Obj(sorted), le) == Obj(Sort(SortValues(sorted, le), KeyOf, le));
    hide SortJson, Sort, SortValues, TotalOrder;
    SortKeeps(mapped, KeyOf, le);
    forall m | m in sorted
      ensures SortValue(m, le) == m
    {
      assert m in multiset(sorted);
      assert m in multiset(mapped);
      var i :| 0 <= i < |mapped| && mapped[i] == m;
      SortValuesAt(members, le, i);
    }
    MembersFixed(sorted, le);
    SortIdempotent(mapped, KeyOf, le);
  }

  lemma {:induction false} ItemsFixed(items: seq<Value>, le: (string, string) -> bool)
    requires forall x :: x in items ==> SortJson(x, le) == x
    ensures SortItems(items, le) == items
  {
    forall k | 0 <= k < |items|
      ensures SortItems(items, le)[k] == items[k]
    {
      SortItemsAt(items, le, k);
    }
  }

  lemma {:induction false} MembersFixed(members: seq<Member>, le: (string, string) -> bool)
    requires forall m :: m in members ==> SortValue(m, le) == m
    ensures SortValues(members, le) == members
  {
    forall k | 0 <= k < |members|
      ensures SortValues(members, le)[k] == members[k]
    {
      SortValuesAt(members, le, k);
    }
  }

  // ----- Why the order has to be total -----

  /** The canonical texts of two values are equal exactly when the values are equivalent. */
  ghost predicate TextDecidesPair(v: Value, w: Value, le: (string, string) -> bool) {
    StableJson(v, le) == StableJson(w, le) <==> Equiv(v, w)
  }

  ghost predicate TextAlwaysDecides(le: (string, string) -> bool) {
    forall v, w :: WellFormed(v) && WellFormed(w) ==> TextDecidesPair(v, w, le)
  }

  function TwoKeys(x: string, y: string): Value { Obj([Member(x, Null), Member(y, Null)]) }

  lemma {:induction false} TwoKeysEquivalent(x: string, y: string)
    requires x != y
    ensures Equiv(TwoKeys(x, y), TwoKeys(y, x)) && WellFormed(TwoKeys(x, y)) && TwoKeys(x, y) != TwoKeys(y, x)
  {
    var m, n := Member(x, Null), Member(y, Null);
    var a, b := [m, n], [n, m];
    assert a[..1] == [m] && [m][..0] == [];
    assert Without(b, 0) == [m] && Without([m], 0) == [];
    assert SameMember(m, m) && SameMember(n, n);
    assert SameMembers([], []);
    assert MemberPair([m], [m], 0);
    assert SameMembers([m], [m]);
    assert MemberPair(a, b, 0);
  }

  /** Tied keys keep the order they come in. */
  lemma {:induction false} TiedKeys(x: string, y: string, le: (string, string) -> bool)
    requires le(x, y)
    ensures SortJson(TwoKeys(x, y), le) == TwoKeys(x, y)
  {
    var m, n := Member(x, Null), Member(y, Null);
    assert SortValue(m, le) == m && SortValue(n, le) == n;
    SortValuesAt([m, n], le, 0);
    SortValuesAt([m, n], le, 1);
    assert SortValues([m, n], le) == [m, n] by {
      hide SortValues, SortValue;
    }
    hide SortValues;
    TiedPair(m, n, le);
  }

  lemma {:induction false} TiedPair(m: Member, n: Member, le: (string, string) -> bool)
    requires le(m.key, n.key)
    ensures Sort([m, n], KeyOf, le) == [m, n]
  {
    assert [m, n][..1] == [m] && [m][..0] == [];
    assert Sort([], KeyOf, le) == [];
    assert Sort([m], KeyOf, le) == [m];
    assert [m] + [n] == [m, n];
  }

  /** A comparison that ties two different strings keeps objects with these keys apart. */
  lemma {:induction false} TiesAreNotCanonical(x: string, y: string, le: (string, string) -> bool)
    requires x != y && le(x, y) && le(y, x)
    ensures Equiv(TwoKeys(x, y), TwoKeys(y, x)) && StableJson(TwoKeys(x, y), le) != StableJson(TwoKeys(y, x), le)
  {
    TwoKeysEquivalent(x, y);
    TiedKeys(x, y, le);
    TiedKeys(y, x, le);
    hide SortJson, Stringify, Equiv, TwoKeys;
    if StableJson(TwoKeys(x, y), le) == StableJson(TwoKeys(y, x), le) {
      StringifyInjective(TwoKeys(x, y), TwoKeys(y, x));
    }
  }

  lemma {:induction false} UseText(v: Value, w: Value, le: (string, string) -> bool)
    requires TextAlwaysDecides(le) && WellFormed(v) && WellFormed(w)
    ensures StableJson(v, le) == StableJson(w, le) <==> Equiv(v, w)
  {
    hide StableJson, Equiv, WellFormed;
    assert TextDecidesPair(v, w, le);
  }

  /** Among comparisons that rank all strings, the canonical text decides equivalence exactly for those that tie no two
      different strings. */
  lemma {:induction false} CanonicalExactly(le: (string, string) -> bool)
    requires Preorder(le)
    ensures TextAlwaysDecides(le) <==> TotalOrder(le)
  {
    hide StableJson, Equiv, TwoKeys, WellFormed;
    if TotalOrder(le) {
      forall v, w | WellFormed(v) && WellFormed(w)
        ensures TextDecidesPair(v, w, le)
      {
        StableJsonDecides(v, w, le);
      }
    }
    if TextAlwaysDecides(le) {
      forall x, y | le(x, y) && le(y, x)
        ensures x == y
      {
        if x != y {
          TwoKeysEquivalent(x, y);
          TwoKeysEquivalent(y, x);
          TiesAreNotCanonical(x, y, le);
          UseText(TwoKeys(x, y), TwoKeys(y, x), le);
        }
      }
    }
  }
}
