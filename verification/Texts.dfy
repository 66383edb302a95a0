/** Optional texts as requests carry them.
    Models resolveOptionalString. */
module Texts {
  import opened Prelude

  /** The white space trim() removes. */
  predicate IsSpace(c: char) {
    var code := c as int;
    || 9 <= code <= 13
    || code in {32, 0xA0, 0x1680, 0x2028, 0x2029, 0x202F, 0x205F, 0x3000, 0xFEFF}
    || 0x2000 <= code <= 0x200A
  }

  function TrimStart(s: string): (t: string)
    ensures t != [] ==> !IsSpace(t[0])
  {
    if s != [] && IsSpace(s[0]) then TrimStart(s[1..]) else s
  }

  function TrimEnd(s: string): (t: string)
    ensures t <= s
    ensures t != [] ==> !IsSpace(t[|t| - 1])
  {
    if s != [] && IsSpace(s[|s| - 1]) then TrimEnd(s[..|s| - 1]) else s
  }

  function Trim(s: string): string { TrimEnd(TrimStart(s)) }

  /** Absent stays absent, null stays null, and blank text becomes null. */
  function Resolve(text: Option<Option<string>>): Option<Option<string>> {
    match text
    case Some(Some(s)) => Some(NonBlank(s))
    case _ => text
  }

  function NonBlank(s: string): Option<string> {
    if Trim(s) == [] then None else Some(Trim(s))
  }

  /** The same for a text that is either there or null. */
  function Cleaned(text: Option<string>): Option<string> {
    if text.Some? then NonBlank(text.value) else None
  }

  ghost predicate OnlySpace(s: string) { forall k :: 0 <= k < |s| ==> IsSpace(s[k]) }

  /** Trimming takes white space off both ends, all of it and nothing else. */
  lemma {:induction false} TrimExactly(s: string) returns (before: string, after: string)
    ensures s == before + Trim(s) + after && OnlySpace(before) && OnlySpace(after)
    ensures Trim(s) != [] ==> !IsSpace(Trim(s)[0]) && !IsSpace(Trim(s)[|Trim(s)| - 1])
  {
    before := StartSpace(s);
    after := EndSpace(TrimStart(s));
    if Trim(s) != [] {
      assert Trim(s)[0] == TrimStart(s)[0];
    }
  }

  lemma {:induction false} StartSpace(s: string) returns (before: string)
    ensures s == before + TrimStart(s) && OnlySpace(before)
  {
    before := [];
    if s != [] && IsSpace(s[0]) {
      var more := StartSpace(s[1..]);
      before := [s[0]] + more;
      assert s == [s[0]] + s[1..];
    }
  }

  lemma {:induction false} EndSpace(s: string) returns (after: string)
    ensures s == TrimEnd(s) + after && OnlySpace(after)
  {
    after := [];
    if s != [] && IsSpace(s[|s| - 1]) {
      var more := EndSpace(s[..|s| - 1]);
      after := more + [s[|s| - 1]];
      assert s == s[..|s| - 1] + [s[|s| - 1]];
    }
  }

  lemma {:induction false} TrimIdempotent(s: string)
    ensures Trim(Trim(s)) == Trim(s)
  {
    if Trim(s) != [] {
      assert Trim(s)[0] == TrimStart(s)[0];
    }
  }

  lemma {:induction false} CleanedIdempotent(text: Option<string>)
    ensures Cleaned(Cleaned(text)) == Cleaned(text)
  {
    if text.Some? {
      TrimIdempotent(text.value);
    }
  }
}
