/** JSON values and the text JSON.stringify prints for them, which determines the value. */
module Json {

  /** A number stands for the text printed for it: digits, perhaps a sign, a fraction and an exponent. */
  predicate IsNumeral(s: string) {
    && s != []
    && (s[0] == '-' || '0' <= s[0] <= '9')
    && forall k :: 0 <= k < |s| ==> NumeralChar(s[k])
  }

  predicate NumeralChar(c: char) { '0' <= c <= '9' || c == '-' || c == '+' || c == '.' || c == 'e' }

  type Numeral = s: string | IsNumeral(s) witness "0"

  datatype Member = Member(key: string, value: Value)

  datatype Value =
    | Null
    | Bool(flag: bool)
    | Num(numeral: Numeral)
    | Str(text: string)
    | Arr(items: seq<Value>)
    | Obj(members: seq<Member>)

  /** Keys are distinct in every object, as they are in every parsed value. */
  ghost predicate WellFormed(v: Value)
    decreases v
  {
    match v
    case Arr(items) => forall k :: 0 <= k < |items| ==> WellFormed(items[k])
    case Obj(members) =>
      && DistinctKeys(members)
      && forall k :: 0 <= k < |members| ==> WellFormed(members[k].value)
    case _ => true
  }

  ghost predicate DistinctKeys(members: seq<Member>) {
    forall i, j :: 0 <= i < j < |members| ==> members[i].key != members[j].key
  }

  // ----- Printing -----

  function HexDigit(d: nat): (c: char)
    requires d < 16
    ensures c != '"' && c != '\\'
  {
    if d < 10 then '0' + d as char else 'a' + (d - 10) as char
  }

  /** The letter after the backslash in a two-character escape. */
  function ShortEscape(c: char): (letter: char)
    ensures letter != 'u'
  {
    match c
    case '"' => '"'
    case '\\' => '\\'
    case '\n' => 'n'
    case '\r' => 'r'
    case '\t' => 't'
    case _ => if c == 8 as char then 'b' else if c == 12 as char then 'f' else ' '
  }

  function EscapeChar(c: char): (text: string)
    ensures text != [] && text[0] != '"'
  {
    if ShortEscape(c) != ' ' then ['\\', ShortEscape(c)]
    else if c < 32 as char then ['\\', 'u', '0', '0', HexDigit(c as nat / 16), HexDigit(c as nat % 16)]
    else [c]
  }

  function Escaped(s: string): string {
    if s == [] then [] else EscapeChar(s[0]) + Escaped(s[1..])
  }

  function Quoted(s: string): string { ['"'] + Escaped(s) + ['"'] }

  function Stringify(v: Value): (text: string)
    ensures text != []
    decreases v
  {
    match v
    case Null => "null"
    case Bool(flag) => if flag then "true" else "false"
    case Num(numeral) => numeral
    case Str(text) => Quoted(text)
    case Arr(items) => ['['] + (if items == [] then [] else Stringify(items[0]) + MoreItems(items[1..])) + [']']
    case Obj(members) => ['{'] + (if members == [] then [] else MemberText(members[0]) + MoreMembers(members[1..])) + ['}']
  }

  function MoreItems(items: seq<Value>): string
    decreases items
  {
    if items == [] then [] else [','] + Stringify(items[0]) + MoreItems(items[1..])
  }

  function MemberText(m: Member): (text: string)
    ensures text != []
    decreases m
  {
    Quoted(m.key) + [':'] + Stringify(m.value)
  }

  function MoreMembers(members: seq<Member>): string
    decreases members
  {
    if members == [] then [] else [','] + MemberText(members[0]) + MoreMembers(members[1..])
  }

  // ----- The text determines the value -----

  /** What can follow a value inside a text. */
  predicate Ends(s: string) { s == [] || s[0] in {',', ']', '}'} }

  lemma {:induction false} Cancel(x: string, s: string, y: string, t: string)
    requires x + s == y + t && |x| == |y|
    ensures x == y && s == t
  {
    assert x == (x + s)[..|x|] && y == (y + t)[..|y|];
    assert s == (x + s)[|x|..] && t == (y + t)[|y|..];
  }

  lemma {:induction false} CharUnambiguous(c: char, d: char, s: string, t: string)
    requires EscapeChar(c) + s == EscapeChar(d) + t
    ensures c == d && s == t
  {
    var all, other := EscapeChar(c) + s, EscapeChar(d) + t;
    assert all[0] == EscapeChar(c)[0] && other[0] == EscapeChar(d)[0];
    if EscapeChar(c)[0] == '\\' {
      assert all[1] == EscapeChar(c)[1] && other[1] == EscapeChar(d)[1];
      if EscapeChar(c)[1] == 'u' {
        assert all[4] == EscapeChar(c)[4] && other[4] == EscapeChar(d)[4];
        assert all[5] == EscapeChar(c)[5] && other[5] == EscapeChar(d)[5];
      }
    }
    Cancel(EscapeChar(c), s, EscapeChar(d), t);
  }

  lemma {:induction false} EscapedUnambiguous(a: string, b: string, s: string, t: string)
    requires Escaped(a) + ['"'] + s == Escaped(b) + ['"'] + t
    ensures a == b && s == t
    decreases |a|
  {
    hide EscapeChar;
    if a != [] {
      assert Escaped(a) + ['"'] + s == EscapeChar(a[0]) + (Escaped(a[1..]) + ['"'] + s);
    }
    if b != [] {
      assert Escaped(b) + ['"'] + t == EscapeChar(b[0]) + (Escaped(b[1..]) + ['"'] + t);
    }
    if a == [] || b == [] {
      assert (Escaped(a) + ['"'] + s)[0] == (Escaped(b) + ['"'] + t)[0];
      assert a == b && Escaped(a) == [];
      Cancel(['"'], s, ['"'], t) by { assert [] + ['"'] + s == ['"'] + s && [] + ['"'] + t == ['"'] + t; }
    } else {
      CharUnambiguous(a[0], b[0], Escaped(a[1..]) + ['"'] + s, Escaped(b[1..]) + ['"'] + t);
      EscapedUnambiguous(a[1..], b[1..], s, t);
      assert a == [a[0]] + a[1..] && b == [b[0]] + b[1..];
    }
  }

  lemma {:induction false} QuotedUnambiguous(a: string, b: string, s: string, t: string)
    requires Quoted(a) + s == Quoted(b) + t
    ensures a == b && s == t
  {
    assert Quoted(a) + s == ['"'] + (Escaped(a) + ['"'] + s);
    assert Quoted(b) + t == ['"'] + (Escaped(b) + ['"'] + t);
    Cancel(['"'], Escaped(a) + ['"'] + s, ['"'], Escaped(b) + ['"'] + t);
    EscapedUnambiguous(a, b, s, t);
  }

  lemma {:induction false} NumeralStops(a: Numeral, s: string)
    requires Ends(s)
    ensures forall k :: 0 <= k < |a| ==> NumeralChar((a + s)[k])
    ensures |a| < |a + s| ==> !NumeralChar((a + s)[|a|])
  {}

  lemma {:induction false} NumeralUnambiguous(a: Numeral, b: Numeral, s: string, t: string)
    requires a + s == b + t && Ends(s) && Ends(t)
    ensures a == b && s == t
  {
    NumeralStops(a, s);
    NumeralStops(b, t);
    assert |a| == |b|;
    Cancel(a, s, b, t);
  }

  /** The first character tells the kinds of value apart. */
  function Lead(v: Value): (c: char)
    ensures c == Stringify(v)[0]
  {
    match v
    case Null => 'n'
    case Bool(flag) => if flag then 't' else 'f'
    case Num(numeral) => numeral[0]
    case Str(_) => '"'
    case Arr(_) => '['
    case Obj(_) => '{'
  }

  lemma {:induction false} SameLead(v: Value, w: Value, s: string, t: string)
    requires Stringify(v) + s == Stringify(w) + t
    ensures Lead(v) == Lead(w)
  {
    assert (Stringify(v) + s)[0] == Stringify(v)[0] && (Stringify(w) + t)[0] == Stringify(w)[0];
  }

  function ItemsText(items: seq<Value>): string {
    if items == [] then [] else Stringify(items[0]) + MoreItems(items[1..])
  }

  function MembersText(members: seq<Member>): string {
    if members == [] then [] else MemberText(members[0]) + MoreMembers(members[1..])
  }

  lemma {:induction false} Unambiguous(v: Value, w: Value, s: string, t: string)
    requires Stringify(v) + s == Stringify(w) + t && Ends(s) && Ends(t)
    ensures v == w && s == t
    decreases v, 1
  {
    SameLead(v, w, s, t);
    match v {
      case Null => Cancel(Stringify(v), s, Stringify(w), t);
      case Bool(_) => Cancel(Stringify(v), s, Stringify(w), t);
      case Num(a) => NumeralUnambiguous(a, w.numeral, s, t);
      case Str(a) => QuotedUnambiguous(a, w.text, s, t);
      case Arr(a) =>
        ArrayText(a, s);
        ArrayText(w.items, t);
        Cancel(['['], ItemsText(a) + [']'] + s, ['['], ItemsText(w.items) + [']'] + t);
        ItemsUnambiguous(a, w.items, s, t);
      case Obj(a) =>
        ObjectText(a, s);
        ObjectText(w.members, t);
        Cancel(['{'], MembersText(a) + ['}'] + s, ['{'], MembersText(w.members) + ['}'] + t);
        MembersUnambiguous(a, w.members, s, t);
    }
  }

  lemma {:induction false} ArrayText(items: seq<Value>, s: string)
    ensures Stringify(Arr(items)) + s == ['['] + (ItemsText(items) + [']'] + s)
  {}

  lemma {:induction false} ObjectText(members: seq<Member>, s: string)
    ensures Stringify(Obj(members)) + s == ['{'] + (MembersText(members) + ['}'] + s)
  {}

  lemma {:induction false} ItemsUnambiguous(a: seq<Value>, b: seq<Value>, s: string, t: string)
    requires ItemsText(a) + [']'] + s == ItemsText(b) + [']'] + t
    ensures a == b && s == t
    decreases a, 1
  {
    hide Stringify;
    assert (ItemsText(a) + [']'] + s)[0] == (ItemsText(b) + [']'] + t)[0];
    LeadsApart(a);
    LeadsApart(b);
    if a == [] || b == [] {
      assert a == [] && b == [];
      Cancel([']'], s, [']'], t) by { assert [] + [']'] + s == [']'] + s && [] + [']'] + t == [']'] + t; }
    } else {
      assert ItemsText(a) + [']'] + s == Stringify(a[0]) + (MoreItems(a[1..]) + [']'] + s);
      assert ItemsText(b) + [']'] + t == Stringify(b[0]) + (MoreItems(b[1..]) + [']'] + t);
      Unambiguous(a[0], b[0], MoreItems(a[1..]) + [']'] + s, MoreItems(b[1..]) + [']'] + t);
      MoreItemsUnambiguous(a[1..], b[1..], s, t);
      assert a == [a[0]] + a[1..] && b == [b[0]] + b[1..];
    }
  }

  lemma {:induction false} LeadsApart(a: seq<Value>)
    ensures a != [] ==> ItemsText(a) != [] && ItemsText(a)[0] != ']'
  {
    if a != [] {
      assert ItemsText(a)[0] == Lead(a[0]);
    }
  }

  lemma {:induction false} MoreItemsUnambiguous(a: seq<Value>, b: seq<Value>, s: string, t: string)
    requires MoreItems(a) + [']'] + s == MoreItems(b) + [']'] + t
    ensures a == b && s == t
    decreases a, 0
  {
    hide Stringify;
    assert (MoreItems(a) + [']'] + s)[0] == (MoreItems(b) + [']'] + t)[0];
    if a == [] || b == [] {
      Cancel([']'], s, [']'], t) by { assert [] + [']'] + s == [']'] + s && [] + [']'] + t == [']'] + t; }
    } else {
      var restA, restB := MoreItems(a[1..]) + [']'] + s, MoreItems(b[1..]) + [']'] + t;
      assert MoreItems(a) + [']'] + s == [','] + (Stringify(a[0]) + restA);
      assert MoreItems(b) + [']'] + t == [','] + (Stringify(b[0]) + restB);
      Cancel([','], Stringify(a[0]) + restA, [','], Stringify(b[0]) + restB);
      Unambiguous(a[0], b[0], restA, restB);
      MoreItemsUnambiguous(a[1..], b[1..], s, t);
      assert a == [a[0]] + a[1..] && b == [b[0]] + b[1..];
    }
  }

  lemma {:induction false} MemberUnambiguous(m: Member, n: Member, s: string, t: string)
    requires MemberText(m) + s == MemberText(n) + t && Ends(s) && Ends(t)
    ensures m == n && s == t
    decreases m
  {
    hide Stringify, Quoted;
    var restM, restN := Stringify(m.value) + s, Stringify(n.value) + t;
    assert MemberText(m) + s == Quoted(m.key) + ([':'] + restM);
    assert MemberText(n) + t == Quoted(n.key) + ([':'] + restN);
    QuotedUnambiguous(m.key, n.key, [':'] + restM, [':'] + restN);
    Cancel([':'], restM, [':'], restN);
    Unambiguous(m.value, n.value, s, t);
  }

  lemma {:induction false} MembersUnambiguous(a: seq<Member>, b: seq<Member>, s: string, t: string)
    requires MembersText(a) + ['}'] + s == MembersText(b) + ['}'] + t
    ensures a == b && s == t
    decreases a, 1
  {
    hide MemberText;
    assert (MembersText(a) + ['}'] + s)[0] == (MembersText(b) + ['}'] + t)[0];
    if a == [] || b == [] {
      QuoteLeads(a);
      QuoteLeads(b);
      Cancel(['}'], s, ['}'], t) by { assert [] + ['}'] + s == ['}'] + s && [] + ['}'] + t == ['}'] + t; }
    } else {
      assert MembersText(a) + ['}'] + s == MemberText(a[0]) + (MoreMembers(a[1..]) + ['}'] + s);
      assert MembersText(b) + ['}'] + t == MemberText(b[0]) + (MoreMembers(b[1..]) + ['}'] + t);
      MemberUnambiguous(a[0], b[0], MoreMembers(a[1..]) + ['}'] + s, MoreMembers(b[1..]) + ['}'] + t);
      MoreMembersUnambiguous(a[1..], b[1..], s, t);
      assert a == [a[0]] + a[1..] && b == [b[0]] + b[1..];
    }
  }

  lemma {:induction false} QuoteLeads(a: seq<Member>)
    ensures a != [] ==> MembersText(a) != [] && MembersText(a)[0] == '"'
  {
    if a != [] {
      assert MemberText(a[0])[0] == Quoted(a[0].key)[0];
    }
  }

  lemma {:induction false} MoreMembersUnambiguous(a: seq<Member>, b: seq<Member>, s: string, t: string)
    requires MoreMembers(a) + ['}'] + s == MoreMembers(b) + ['}'] + t
    ensures a == b && s == t
    decreases a, 0
  {
    hide MemberText;
    assert (MoreMembers(a) + ['}'] + s)[0] == (MoreMembers(b) + ['}'] + t)[0];
    if a == [] || b == [] {
      Cancel(['}'], s, ['}'], t) by { assert [] + ['}'] + s == ['}'] + s && [] + ['}'] + t == ['}'] + t; }
    } else {
      var restA, restB := MoreMembers(a[1..]) + ['}'] + s, MoreMembers(b[1..]) + ['}'] + t;
      assert MoreMembers(a) + ['}'] + s == [','] + (MemberText(a[0]) + restA);
      assert MoreMembers(b) + ['}'] + t == [','] + (MemberText(b[0]) + restB);
      Cancel([','], MemberText(a[0]) + restA, [','], MemberText(b[0]) + restB);
      MemberUnambiguous(a[0], b[0], restA, restB);
      MoreMembersUnambiguous(a[1..], b[1..], s, t);
      assert a == [a[0]] + a[1..] && b == [b[0]] + b[1..];
    }
  }

  /** Two values print the same text only when they are the same. */
  lemma {:induction false} StringifyInjective(v: Value, w: Value)
    requires Stringify(v) == Stringify(w)
    ensures v == w
  {
    assert Stringify(v) + [] == Stringify(w) + [];
    Unambiguous(v, w, [], []);
  }
}
