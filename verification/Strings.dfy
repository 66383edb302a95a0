/** Splitting and joining strings, as split and join do. */
module Strings {

  /** The parts between separators; always at least one. */
  function Split(s: string, sep: char): (parts: seq<string>)
    ensures parts != []
  {
    if s == [] then [[]]
    else
      var front := Split(s[..|s| - 1], sep);
      var c := s[|s| - 1];
      if c == sep then front + [[]] else front[..|front| - 1] + [front[|front| - 1] + [c]]
  }

  function Join(parts: seq<string>, sep: string): string {
    if parts == [] then []
    else if |parts| == 1 then parts[0]
    else Join(parts[..|parts| - 1], sep) + sep + parts[|parts| - 1]
  }

  lemma {:induction false} SplitNothing(s: string, sep: char)
    requires sep !in s
    ensures Split(s, sep) == [s]
  {
    if s != [] {
      SplitNothing(s[..|s| - 1], sep);
      assert s == s[..|s| - 1] + [s[|s| - 1]];
    }
  }

  /** Splitting after one more separator. */
  lemma {:induction false} SplitAppend(s: string, t: string, sep: char)
    requires sep !in t
    ensures Split(s + [sep] + t, sep) == Split(s, sep) + [t]
  {
    if t == [] {
      assert s + [sep] + t == s + [sep];
      assert (s + [sep])[..|s|] == s;
    } else {
      var front, c := t[..|t| - 1], t[|t| - 1];
      SplitAppend(s, front, sep);
      var all := s + [sep] + t;
      assert all[..|all| - 1] == s + [sep] + front && all[|all| - 1] == c;
      assert t == front + [c];
    }
  }

  /** No part holds a separator. */
  lemma {:induction false} SplitParts(s: string, sep: char)
    ensures forall k :: 0 <= k < |Split(s, sep)| ==> sep !in Split(s, sep)[k]
  {
    if s != [] {
      SplitParts(s[..|s| - 1], sep);
    }
  }
}
