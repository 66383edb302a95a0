/** Text on the page: wrapping into lines, and escaping into PDF literal strings.
    Models wrap and escape of the invoice builder; literal strings are read as section 7.3.4.2 of ISO 32000-1 says. */
module PdfText {
  import opened Prelude
  import opened Strings

  const MAX_CHARS := 92

  /** Characters outside the basic plane count twice, as two UTF-16 units. */
  function Units(c: char): nat { if c as int >= 0x1_0000 then 2 else 1 }

  function Length(s: string): nat {
    if s == [] then 0 else Length(s[..|s| - 1]) + Units(s[|s| - 1])
  }

  lemma {:induction false} LengthConcat(s: string, t: string)
    ensures Length(s + t) == Length(s) + Length(t)
  {
    if t == [] {
      assert s + t == s;
    } else {
      assert (s + t)[..|s + t| - 1] == s + t[..|t| - 1];
      LengthConcat(s, t[..|t| - 1]);
    }
  }

  // ----- Wrapping -----

  function Extended(current: string, word: string): string {
    if current == [] then word else current + " " + word
  }

  /** The finished lines and the open one after placing some words. */
  datatype Wrapping = Wrapping(lines: seq<string>, current: string)

  function Place(words: seq<string>): Wrapping {
    if words == [] then Wrapping([], [])
    else
      var w, word := Place(words[..|words| - 1]), words[|words| - 1];
      if Length(Extended(w.current, word)) > MAX_CHARS then Wrapping(w.lines + [w.current], word)
      else Wrapping(w.lines, Extended(w.current, word))
  }

  lemma {:induction false} PlaceNext(words: seq<string>, i: nat)
    requires i < |words|
    ensures var w := Place(words[..i]);
      var next := Extended(w.current, words[i]);
      Place(words[..i + 1])
      == if Length(next) > MAX_CHARS then Wrapping(w.lines + [w.current], words[i]) else Wrapping(w.lines, next)
  {
    hide Length, Extended;
    assert words[..i + 1][..i] == words[..i];
  }

  function Wrapped(text: string): seq<string> {
    if Length(text) <= MAX_CHARS then [text]
    else
      var w := Place(Split(text, ' '));
      if w.current != [] then w.lines + [w.current] else w.lines
  }

  method Wrap(text: string) returns (lines: seq<string>)
    ensures lines == Wrapped(text)
  {
    if Length(text) <= MAX_CHARS {
      return [text];
    }
    var words := Split(text, ' ');
    lines := [];
    var current: string := "";
    for i := 0 to |words|
      invariant Wrapping(lines, current) == Place(words[..i])
    {
      PlaceNext(words, i);
      var next := if |current| > 0 then current + " " + words[i] else words[i];
      if Length(next) > MAX_CHARS {
        lines := lines + [current];
        current := words[i];
      } else {
        current := next;
      }
    }
    assert words[..|words|] == words;
    if |current| > 0 {
      lines := lines + [current];
    }
  }

  /** The words that show. */
  function NonEmptyWords(words: seq<string>): seq<string> {
    if words == [] then []
    else NonEmptyWords(words[..|words| - 1]) + (if words[|words| - 1] == [] then [] else [words[|words| - 1]])
  }

  function WordsOf(text: string): seq<string> { NonEmptyWords(Split(text, ' ')) }

  function WordsOfAll(lines: seq<string>): seq<string> {
    if lines == [] then [] else WordsOfAll(lines[..|lines| - 1]) + WordsOf(lines[|lines| - 1])
  }

  lemma {:induction false} NonEmptyWordsSnoc(words: seq<string>, word: string)
    ensures NonEmptyWords(words + [word]) == NonEmptyWords(words) + (if word == [] then [] else [word])
  {
    assert (words + [word])[..|words|] == words;
  }

  lemma {:induction false} WordsOfWord(word: string)
    requires ' ' !in word
    ensures WordsOf(word) == if word == [] then [] else [word]
  {
    SplitNothing(word, ' ');
    assert [] + [word] == [word];
    NonEmptyWordsSnoc([], word);
  }

  lemma {:induction false} WordsOfExtended(current: string, word: string)
    requires ' ' !in word
    ensures WordsOf(Extended(current, word)) == WordsOf(current) + WordsOf(word)
  {
    WordsOfWord(word);
    if current == [] {
      WordsOfWord([]);
    } else {
      SplitAppend(current, word, ' ');
      assert current + " " + word == current + [' '] + word;
      NonEmptyWordsSnoc(Split(current, ' '), word);
    }
  }

  lemma {:induction false} WordsOfAllSnoc(lines: seq<string>, line: string)
    ensures WordsOfAll(lines + [line]) == WordsOfAll(lines) + WordsOf(line)
  {
    assert (lines + [line])[..|lines|] == lines;
  }

  /** Fits on a line, or is one word that cannot be broken. */
  ghost predicate LineFits(line: string) {
    Length(line) <= MAX_CHARS || ' ' !in line
  }

  ghost predicate WordsWithoutSpaces(words: seq<string>) {
    forall k :: 0 <= k < |words| ==> ' ' !in words[k]
  }

  ghost predicate AllFit(lines: seq<string>) {
    forall k :: 0 <= k < |lines| ==> LineFits(lines[k])
  }

  lemma {:induction false} PlaceFitsLines(words: seq<string>)
    requires WordsWithoutSpaces(words)
    ensures LineFits(Place(words).current) && AllFit(Place(words).lines)
  {
    if words != [] {
      PlaceFitsLines(words[..|words| - 1]);
    }
  }

  /** Placing a word adds it to the words shown, whether it opens a line or extends one. */
  lemma {:induction false} PlaceOne(w: Wrapping, word: string, shown: seq<string>)
    requires ' ' !in word && WordsOfAll(w.lines) + WordsOf(w.current) == shown
    ensures WordsOfAll(w.lines + [w.current]) + WordsOf(word) == shown + WordsOf(word)
    ensures WordsOfAll(w.lines) + WordsOf(Extended(w.current, word)) == shown + WordsOf(word)
  {
    hide WordsOf, WordsOfAll;
    WordsOfAllSnoc(w.lines, w.current);
    WordsOfExtended(w.current, word);
  }

  lemma {:induction false} PlaceKeepsWords(words: seq<string>)
    requires WordsWithoutSpaces(words)
    ensures WordsOfAll(Place(words).lines) + WordsOf(Place(words).current) == NonEmptyWords(words)
  {
    if words == [] {
      WordsOfWord([]);
    } else {
      var front, word := words[..|words| - 1], words[|words| - 1];
      PlaceKeepsWords(front);
      PlaceOne(Place(front), word, NonEmptyWords(front));
      WordsOfWord(word);
      assert NonEmptyWords(words) == NonEmptyWords(front) + WordsOf(word);
      hide WordsOf, WordsOfAll, Place, NonEmptyWords, Extended, Length;
      if Length(Extended(Place(front).current, word)) > MAX_CHARS {
        PlaceOverflows(words);
      } else {
        PlaceFits(words);
      }
    }
  }

  lemma {:induction false} PlaceOverflows(words: seq<string>)
    requires words != []
    requires Length(Extended(Place(words[..|words| - 1]).current, words[|words| - 1])) > MAX_CHARS
    ensures Place(words) == Wrapping(Place(words[..|words| - 1]).lines + [Place(words[..|words| - 1]).current], words[|words| - 1])
  {}

  lemma {:induction false} PlaceFits(words: seq<string>)
    requires words != []
    requires Length(Extended(Place(words[..|words| - 1]).current, words[|words| - 1])) <= MAX_CHARS
    ensures Place(words)
         == Wrapping(Place(words[..|words| - 1]).lines, Extended(Place(words[..|words| - 1]).current, words[|words| - 1]))
  {}

  /** Wrapping keeps every non-empty word, in order, and each line fits or is a single word. */
  lemma {:induction false} WrapKeepsWords(text: string)
    ensures WordsOfAll(Wrapped(text)) == WordsOf(text)
    ensures AllFit(Wrapped(text))
  {
    hide WordsOf, Place;
    if Length(text) <= MAX_CHARS {
      assert [] + [text] == [text];
      WordsOfAllSnoc([], text);
    } else {
      var words := Split(text, ' ');
      SplitParts(text, ' ');
      PlaceKeepsWords(words);
      PlaceFitsLines(words);
      assert WordsOf(text) == NonEmptyWords(words) by {
        WordsOfSplit(text);
      }
      if Place(words).current != [] {
        WordsOfAllSnoc(Place(words).lines, Place(words).current);
      } else {
        WordsOfWord([]);
      }
    }
  }

  lemma {:induction false} WordsOfSplit(text: string)
    ensures WordsOf(text) == NonEmptyWords(Split(text, ' '))
  {}

  // ----- Where lines break -----

  function FirstWord(line: string): string { Split(line, ' ')[0] }

  /** Not even the first word of the next line, after a space, has room. */
  ghost predicate NoRoomFor(line: string, next: string) {
    Length(line) + 1 + Length(FirstWord(next)) > 92
  }

  ghost predicate BreaksWhenFull(lines: seq<string>) {
    forall k :: 0 < k < |lines| ==> NoRoomFor(lines[k - 1], lines[k])
  }

  lemma {:induction false} FirstWordOf(current: string, word: string)
    requires ' ' !in word
    ensures FirstWord(word) == word && FirstWord([]) == []
    ensures current != [] ==> FirstWord(Extended(current, word)) == FirstWord(current)
  {
    SplitNothing(word, ' ');
    if current != [] {
      SplitAppend(current, word, ' ');
      assert current + " " + word == current + [' '] + word;
    }
  }

  lemma {:induction false} FullSnoc(lines: seq<string>, line: string)
    ensures BreaksWhenFull(lines + [line])
            <==> BreaksWhenFull(lines) && (lines != [] ==> NoRoomFor(lines[|lines| - 1], line))
  {
    hide NoRoomFor;
    var all := lines + [line];
    if BreaksWhenFull(all) {
      forall k | 0 < k < |lines|
        ensures NoRoomFor(lines[k - 1], lines[k])
      {
        assert all[k - 1] == lines[k - 1] && all[k] == lines[k];
      }
      assert lines != [] ==> all[|lines| - 1] == lines[|lines| - 1] && all[|lines|] == line;
    }
  }

  lemma {:induction false} OneLineFull()
    ensures BreaksWhenFull(Place([]).lines + [Place([]).current])
  {}

  lemma {:induction false} PlaceBreaks(words: seq<string>)
    requires WordsWithoutSpaces(words)
    ensures BreaksWhenFull(Place(words).lines + [Place(words).current])
  {
    hide BreaksWhenFull, Length, FirstWord, Extended;
    if words == [] {
      OneLineFull();
    } else {
      var front, word := words[..|words| - 1], words[|words| - 1];
      PlaceBreaks(front);
      hide Place;
      if Length(Extended(Place(front).current, word)) > MAX_CHARS {
        PlaceOverflows(words);
        WordOverflows(Place(front), word);
      } else {
        PlaceFits(words);
        WordFits(Place(front), word);
      }
    }
  }

  lemma {:induction false} WordOverflows(w: Wrapping, word: string)
    requires ' ' !in word && BreaksWhenFull(w.lines + [w.current])
    requires Length(Extended(w.current, word)) > MAX_CHARS
    ensures BreaksWhenFull(w.lines + [w.current] + [word])
  {
    hide BreaksWhenFull, Length, FirstWord, Extended;
    FullSnoc(w.lines + [w.current], word);
    ExtendedLength(w.current, word);
    LengthZero(w.current);
    FirstWordOf(w.current, word);
  }

  lemma {:induction false} WordFits(w: Wrapping, word: string)
    requires ' ' !in word && BreaksWhenFull(w.lines + [w.current])
    ensures BreaksWhenFull(w.lines + [Extended(w.current, word)])
  {
    FullSnoc(w.lines, w.current);
    FullSnoc(w.lines, Extended(w.current, word));
    FirstWordOf(w.current, word);
    LengthZero([]);
    hide BreaksWhenFull, Length, FirstWord;
  }

  /** A text of at most 92 characters is one line. A longer one goes on to the next line only where the first word there
      would not have fitted any more. */
  lemma {:induction false} LinesBreakWhenFull(text: string)
    ensures Length(text) <= 92 ==> Wrapped(text) == [text]
    ensures BreaksWhenFull(Wrapped(text))
    ensures forall k :: 0 <= k < |Wrapped(text)| ==> Length(Wrapped(text)[k]) <= 92 || ' ' !in Wrapped(text)[k]
  {
    WrapKeepsWords(text);
    if Length(text) > 92 {
      var words := Split(text, ' ');
      SplitParts(text, ' ');
      PlaceBreaks(words);
      hide Place, NoRoomFor, Length;
      FullSnoc(Place(words).lines, Place(words).current);
    }
  }

  // ----- Empty lines -----

  /** The length of the open line before word k, from the words' lengths alone. */
  function OpenLength(words: seq<string>, k: nat): nat
    requires k <= |words|
  {
    if k == 0 then 0
    else
      var before, next := OpenLength(words, k - 1), Length(words[k - 1]);
      var extended := if before == 0 then next else before + 1 + next;
      if extended > MAX_CHARS then next else extended
  }

  /** Words j to k - 1 are empty, and they follow the beginning of the text or a line that has no room for a space. */
  ghost predicate EmptyFrom(words: seq<string>, j: nat, k: nat)
    requires j <= k <= |words|
  {
    && (forall i :: j <= i < k ==> words[i] == [])
    && (j == 0 || (j < k && OpenLength(words, j) >= MAX_CHARS))
  }

  /** Word k meets an empty line. */
  ghost predicate OpenLineEmpty(words: seq<string>, k: nat)
    requires k <= |words|
  {
    exists j: nat :: j <= k && EmptyFrom(words, j, k)
  }

  lemma {:induction false} LengthZero(s: string)
    ensures Length(s) == 0 <==> s == []
  {}

  lemma {:induction false} ExtendedLength(current: string, word: string)
    ensures Length(Extended(current, word)) == if current == [] then Length(word) else Length(current) + 1 + Length(word)
  {
    if current != [] {
      LengthConcat(current + " ", word);
      LengthConcat(current, " ");
      assert " "[..0] == [];
    }
  }

  lemma {:induction false} OpenLengthIs(words: seq<string>, k: nat)
    requires k <= |words|
    ensures Length(Place(words[..k]).current) == OpenLength(words, k)
  {
    if k > 0 {
      OpenLengthIs(words, k - 1);
      assert words[..k][..k - 1] == words[..k - 1] && words[..k][k - 1] == words[k - 1];
      var w := Place(words[..k - 1]);
      hide Length;
      LengthZero(w.current);
      ExtendedLength(w.current, words[k - 1]);
    }
  }

  lemma {:induction false} OpenLineEmptyIs(words: seq<string>, k: nat)
    requires k <= |words|
    ensures OpenLineEmpty(words, k) <==> OpenLength(words, k) == 0
  {
    hide Length;
    if k == 0 {
      assert EmptyFrom(words, 0, 0);
    } else {
      OpenLineEmptyIs(words, k - 1);
      LengthZero(words[k - 1]);
      if OpenLength(words, k) == 0 {
        if OpenLength(words, k - 1) == 0 {
          var j: nat :| j <= k - 1 && EmptyFrom(words, j, k - 1);
          assert EmptyFrom(words, j, k);
        } else {
          assert EmptyFrom(words, k - 1, k);
        }
      }
      if OpenLineEmpty(words, k) {
        var j: nat :| j <= k && EmptyFrom(words, j, k);
        if j < k - 1 || j == 0 {
          assert EmptyFrom(words, j, k - 1);
        }
      }
    }
  }

  /** Placing words leaves an empty line exactly where a word too long for any line meets one. */
  ghost predicate MeetsEmptyLine(words: seq<string>, k: nat)
    requires k < |words|
  {
    Length(words[k]) > MAX_CHARS && OpenLineEmpty(words, k)
  }

  ghost predicate SomeMeetsEmptyLine(words: seq<string>, n: nat)
    requires n <= |words|
  {
    exists k: nat :: k < n && MeetsEmptyLine(words, k)
  }

  lemma {:induction false} OneMoreMeets(words: seq<string>, n: nat)
    requires n < |words|
    ensures SomeMeetsEmptyLine(words, n + 1) <==> SomeMeetsEmptyLine(words, n) || MeetsEmptyLine(words, n)
  {
    hide MeetsEmptyLine;
    if k: nat :| k < n + 1 && MeetsEmptyLine(words, k) {
      assert k < n || k == n;
    }
  }

  /** A word that overflows leaves an empty line exactly when it meets one. */
  lemma {:induction false} OverflowMeets(words: seq<string>, n: nat)
    requires n < |words|
    ensures var w := Place(words[..n]);
      Length(Extended(w.current, words[n])) > MAX_CHARS && w.current == [] <==> MeetsEmptyLine(words, n)
  {
    OpenLengthIs(words, n);
    OpenLineEmptyIs(words, n);
    hide Place, Length, OpenLength, OpenLineEmpty;
    LengthZero(Place(words[..n]).current);
    ExtendedLength(Place(words[..n]).current, words[n]);
  }

  lemma {:induction false} InSnoc<T>(xs: seq<T>, x: T, y: T)
    ensures y in xs + [x] <==> y in xs || y == x
  {}

  lemma {:induction false} PlaceStep(words: seq<string>)
    requires words != []
    ensures var w, word := Place(words[..|words| - 1]), words[|words| - 1];
      [] in Place(words).lines <==> [] in w.lines || (Length(Extended(w.current, word)) > MAX_CHARS && w.current == [])
  {
    var w, word := Place(words[..|words| - 1]), words[|words| - 1];
    hide Place, Length, Extended;
    if Length(Extended(w.current, word)) > MAX_CHARS {
      PlaceOverflows(words);
      InSnoc(w.lines, w.current, []);
    } else {
      PlaceFits(words);
    }
  }

  lemma {:induction false} PlaceEmptyLine(words: seq<string>, n: nat)
    requires n <= |words|
    ensures [] in Place(words[..n]).lines <==> SomeMeetsEmptyLine(words, n)
  {
    if n == 0 {
      assert words[..0] == [];
    } else {
      hide Place, Length, Extended, MeetsEmptyLine, SomeMeetsEmptyLine;
      PlaceEmptyLine(words, n - 1);
      OneMoreMeets(words, n - 1);
      OverflowMeets(words, n - 1);
      PlaceStep(words[..n]);
      assert words[..n][..n - 1] == words[..n - 1] && words[..n][n - 1] == words[n - 1];
    }
  }

  /** No line is empty, except for the empty text and for texts in which a word too long for any line meets an empty
      open line: at the beginning, or after spaces that follow a line with no room for one. */
  lemma {:induction false} EmptyLineExactly(text: string)
    ensures [] in Wrapped(text)
            <==> text == []
                 || (Length(text) > MAX_CHARS
                     && exists k: nat :: k < |Split(text, ' ')| && MeetsEmptyLine(Split(text, ' '), k))
  {
    LengthZero(text);
    if Length(text) > MAX_CHARS {
      WrappedPlaced(text);
      var words := Split(text, ' ');
      assert words[..|words|] == words;
      hide Place, Length, MeetsEmptyLine, Split, Wrapped;
      PlaceEmptyLine(words, |words|);
    } else {
      assert Wrapped(text) == [text];
    }
  }

  lemma {:induction false} WrappedPlaced(text: string)
    requires Length(text) > MAX_CHARS
    ensures [] in Wrapped(text) <==> [] in Place(Split(text, ' ')).lines
  {
    hide Place, Length, Split;
    var w := Place(Split(text, ' '));
    InSnoc(w.lines, w.current, []);
  }

  /** A text that is one word too long for any line is preceded by an empty line. */
  lemma {:induction false} LongFirstWord(word: string)
    requires ' ' !in word && Length(word) > MAX_CHARS
    ensures Wrapped(word) == [[], word]
  {
    SplitNothing(word, ' ');
    assert [word][..0] == [];
    assert Place([]) == Wrapping([], []);
    assert [] + [[]] + [word] == [[], word];
  }

  /** So is such a word after a full line and two spaces. */
  lemma {:induction false} LongWordAfterFullLine(a: string, b: string)
    requires ' ' !in a && ' ' !in b && Length(a) == MAX_CHARS && Length(b) > MAX_CHARS
    ensures Wrapped(a + "  " + b) == [a, [], b]
  {
    hide Length, Split;
    var words := [a, [], b];
    TwoSpaces(a, b);
    LengthConcat(a + "  ", b);
    PlaceFull(a, b);
    assert [a, []] + [b] == [a, [], b];
    LengthZero(b);
  }

  lemma {:induction false} TwoSpaces(a: string, b: string)
    requires ' ' !in a && ' ' !in b
    ensures Split(a + "  " + b, ' ') == [a, [], b]
  {
    assert a + "  " + b == a + [' '] + [] + [' '] + b;
    hide Split;
    SplitNothing(a, ' ');
    SplitAppend(a, [], ' ');
    SplitAppend(a + [' '] + [], b, ' ');
  }

  lemma {:induction false} PlaceFull(a: string, b: string)
    requires Length(a) == MAX_CHARS && Length(b) > MAX_CHARS
    ensures Place([a, [], b]) == Wrapping([a, []], b)
  {
    hide Length;
    var words := [a, [], b];
    assert words[..1] == [a] && words[..2] == [a, []] && words[..0] == [] && [a, []][..1] == [a] && [a][..0] == [];
    LengthZero(a);
    ExtendedLength(a, []);
    LengthZero([]);
    assert Place([]) == Wrapping([], []);
    assert Place([a]) == Wrapping([], a);
    assert Place([a, []]) == Wrapping([] + [a], []);
    assert [] + [a] == [a] && [a] + [[]] == [a, []];
  }

  // ----- Escaping -----

  /** Printable characters stay; each UTF-16 unit of any other becomes a question mark. */
  function PrintableChar(c: char): string {
    if ' ' <= c <= '~' then [c] else if Units(c) == 2 then "??" else "?"
  }

  function Printable(s: string): string {
    if s == [] then [] else PrintableChar(s[0]) + Printable(s[1..])
  }

  function ReplaceAll(s: string, c: char, image: string): string {
    if s == [] then [] else (if s[0] == c then image else [s[0]]) + ReplaceAll(s[1..], c, image)
  }

  /** Four replacements, one after the other. */
  function Escape(text: string): string {
    ReplaceAll(ReplaceAll(ReplaceAll(Printable(text), '\\', "\\\\"), '(', "\\("), ')', "\\)")
  }

  /** The same in one pass. */
  function EscapedChar(c: char): string {
    if c == '\\' || c == '(' || c == ')' then ['\\', c] else [c]
  }

  function OnePass(s: string): string {
    if s == [] then [] else EscapedChar(s[0]) + OnePass(s[1..])
  }

  lemma {:induction false} ReplaceConcat(s: string, t: string, c: char, image: string)
    ensures ReplaceAll(s + t, c, image) == ReplaceAll(s, c, image) + ReplaceAll(t, c, image)
    decreases |s|
  {
    if s == [] {
      assert s + t == t;
    } else {
      assert (s + t)[1..] == s[1..] + t;
      ReplaceConcat(s[1..], t, c, image);
    }
  }

  lemma {:induction false} ReplaceOne(d: char, c: char, image: string)
    ensures ReplaceAll([d], c, image) == if d == c then image else [d]
    ensures ReplaceAll([], c, image) == []
  {
    assert [d][1..] == [];
    assert ReplaceAll([d][1..], c, image) == [];
  }

  lemma {:induction false} ReplaceTwo(d: char, e: char, c: char, image: string)
    ensures ReplaceAll([d, e], c, image) == (if d == c then image else [d]) + (if e == c then image else [e])
  {
    assert [d, e] == [d] + [e];
    ReplaceConcat([d], [e], c, image);
    ReplaceOne(d, c, image);
    ReplaceOne(e, c, image);
  }

  function Thrice(s: string): string {
    ReplaceAll(ReplaceAll(ReplaceAll(s, '\\', "\\\\"), '(', "\\("), ')', "\\)")
  }

  lemma {:induction false} ThriceOne(c: char)
    ensures Thrice([c]) == EscapedChar(c)
  {
    ReplaceOne(c, '\\', "\\\\");
    if c == '\\' {
      assert "\\\\" == ['\\', '\\'];
      ReplaceTwo('\\', '\\', '(', "\\(");
      ReplaceTwo('\\', '\\', ')', "\\)");
    } else {
      ReplaceOne(c, '(', "\\(");
      if c == '(' {
        assert "\\(" == ['\\', '('];
        ReplaceTwo('\\', '(', ')', "\\)");
      } else {
        ReplaceOne(c, ')', "\\)");
      }
    }
  }

  lemma {:induction false} ThriceOnePass(s: string)
    ensures Thrice(s) == OnePass(s)
    decreases |s|
  {
    if s != [] {
      hide EscapedChar;
      assert s == [s[0]] + s[1..];
      var a := ReplaceAll([s[0]], '\\', "\\\\");
      var b := ReplaceAll(s[1..], '\\', "\\\\");
      ReplaceConcat([s[0]], s[1..], '\\', "\\\\");
      ReplaceConcat(a, b, '(', "\\(");
      ReplaceConcat(ReplaceAll(a, '(', "\\("), ReplaceAll(b, '(', "\\("), ')', "\\)");
      ThriceOne(s[0]);
      ThriceOnePass(s[1..]);
    }
  }

  // ----- Reading literal strings -----

  predicate IsOctal(c: char) { '0' <= c <= '7' }

  function OctalRun(s: string, most: nat): (n: nat)
    ensures n <= |s| && n <= most && forall k :: 0 <= k < n ==> IsOctal(s[k])
  {
    if most > 0 && s != [] && IsOctal(s[0]) then 1 + OctalRun(s[1..], most - 1) else 0
  }

  function OctalDigit(c: char): nat
    requires IsOctal(c)
  {
    (c - '0') as nat
  }

  function OctalValue(s: string): nat
    requires forall k :: 0 <= k < |s| ==> IsOctal(s[k])
  {
    if s == [] then 0 else 8 * OctalValue(s[..|s| - 1]) + OctalDigit(s[|s| - 1])
  }

  /** The character and the length of what follows a backslash; an ignored line end gives no character, and a backslash
      before any other character is ignored itself. */
  function ReadEscape(s: string): (r: (string, nat))
    requires s != []
    ensures 1 <= r.1 <= |s|
  {
    var digits := OctalRun(s, 3);
    if digits > 0 then ([(OctalValue(s[..digits]) % 256) as char], digits)
    else match s[0]
      case 'n' => (['\n'], 1)
      case 'r' => (['\r'], 1)
      case 't' => (['\t'], 1)
      case 'b' => ([8 as char], 1)
      case 'f' => ([12 as char], 1)
      case '\r' => if |s| > 1 && s[1] == '\n' then ([], 2) else ([], 1)
      case '\n' => ([], 1)
      case c => ([c], 1)
  }

  /** The contents of a literal string up to the parenthesis that closes it, and what follows; nothing if it never
      closes. Unescaped parentheses must balance. */
  function ReadLiteral(s: string, depth: nat): Option<(string, string)>
    decreases |s|
  {
    if s == [] then None
    else if s[0] == '\\' then
      if |s| == 1 then None
      else
        var (text, n) := ReadEscape(s[1..]);
        Prefixed(text, ReadLiteral(s[1 + n..], depth))
    else if s[0] == ')' then
      if depth == 0 then Some(([], s[1..])) else Prefixed([')'], ReadLiteral(s[1..], depth - 1))
    else if s[0] == '(' then Prefixed(['('], ReadLiteral(s[1..], depth + 1))
    else if s[0] == '\r' then
      Prefixed(['\n'], ReadLiteral(if |s| > 1 && s[1] == '\n' then s[2..] else s[1..], depth))
    else Prefixed([s[0]], ReadLiteral(s[1..], depth))
  }

  function Prefixed(text: string, result: Option<(string, string)>): Option<(string, string)> {
    match result
    case None => None
    case Some((more, rest)) => Some((text + more, rest))
  }

  predicate AllPrintable(s: string) { forall k :: 0 <= k < |s| ==> ' ' <= s[k] <= '~' }

  lemma {:induction false} PrintableIs(s: string)
    ensures AllPrintable(Printable(s))
    decreases |s|
  {
    if s != [] {
      PrintableIs(s[1..]);
    }
  }

  lemma {:induction false} ReadEscapedChar(c: char, rest: string)
    requires ' ' <= c <= '~'
    ensures ReadLiteral(EscapedChar(c) + rest, 0) == Prefixed([c], ReadLiteral(rest, 0))
  {
    var all := EscapedChar(c) + rest;
    if c == '\\' || c == '(' || c == ')' {
      assert all[0] == '\\' && all[1] == c;
      assert all[1..][0] == c && OctalRun(all[1..], 3) == 0;
      assert ReadEscape(all[1..]) == ([c], 1);
      assert all[2..] == rest;
    } else {
      assert all[0] == c && all[1..] == rest;
    }
  }

  lemma {:induction false} ReadOnePass(s: string, rest: string)
    requires AllPrintable(s)
    ensures ReadLiteral(OnePass(s) + [')'] + rest, 0) == Some((s, rest))
    decreases |s|
  {
    if s == [] {
      assert OnePass(s) + [')'] + rest == [')'] + rest;
      assert ([')'] + rest)[1..] == rest;
    } else {
      hide ReadLiteral, EscapedChar;
      var more := OnePass(s[1..]) + [')'] + rest;
      assert OnePass(s) + [')'] + rest == EscapedChar(s[0]) + more;
      ReadEscapedChar(s[0], more);
      ReadOnePass(s[1..], rest);
      assert [s[0]] + s[1..] == s;
    }
  }

  /** A reader of literal strings gets back the text with non-printable characters replaced, whatever follows it. */
  lemma {:induction false} EscapeRoundTrip(text: string, rest: string)
    ensures ReadLiteral(Escape(text) + [')'] + rest, 0) == Some((Printable(text), rest))
  {
    hide ReadLiteral, OnePass, Printable, ReplaceAll;
    PrintableIs(text);
    ThriceOnePass(Printable(text));
    ReadOnePass(Printable(text), rest);
  }
}
