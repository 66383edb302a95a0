/** Printing tables as comma-separated values and parsing them back.
    Models the two toCsv printers and the parser parseCsv. */
module Csv {
  import opened Prelude

  // ----- Parsing -----

  /** The parser's variables: finished rows, the current row and cell, and whether a quote is open. */
  datatype State = State(rows: seq<seq<string>>, row: seq<string>, cell: string, inQuotes: bool)

  const START := State([], [], [], false)

  function EndCell(st: State): State { st.(row := st.row + [st.cell], cell := []) }

  function EndRow(st: State): State { st.(rows := st.rows + [st.row + [st.cell]], row := [], cell := []) }

  /** The state after reading a text. */
  function Scan(s: string, st: State): State
    decreases |s|
  {
    if s == [] then st
    else if s[0] == '"' then
      if st.inQuotes && |s| > 1 && s[1] == '"' then Scan(s[2..], st.(cell := st.cell + ['"']))
      else Scan(s[1..], st.(inQuotes := !st.inQuotes))
    else if s[0] == ',' && !st.inQuotes then Scan(s[1..], EndCell(st))
    else if (s[0] == '\n' || s[0] == '\r') && !st.inQuotes then
      Scan(if s[0] == '\r' && |s| > 1 && s[1] == '\n' then s[2..] else s[1..], EndRow(st))
    else Scan(s[1..], st.(cell := st.cell + [s[0]]))
  }

  function Finish(st: State): seq<seq<string>> {
    if st.cell != [] || st.row != [] then st.rows + [st.row + [st.cell]] else st.rows
  }

  function Parsed(content: string): seq<seq<string>> { Finish(Scan(content, START)) }

  method ParseCsv(content: string) returns (rows: seq<seq<string>>)
    ensures rows == Parsed(content)
  {
    rows := [];
    var row: seq<string> := [];
    var cell: string := [];
    var inQuotes := false;
    var index := 0;
    while index < |content|
      invariant 0 <= index <= |content|
      invariant Scan(content[index..], State(rows, row, cell, inQuotes)) == Scan(content, START)
    {
      var c := content[index];
      var rest := content[index..];
      assert rest[0] == c && rest[1..] == content[index + 1..];
      assert |rest| > 1 ==> rest[1] == content[index + 1] && rest[2..] == content[index + 2..];
      if c == '"' {
        if inQuotes && index + 1 < |content| && content[index + 1] == '"' {
          cell := cell + ['"'];
          index := index + 1;
        } else {
          inQuotes := !inQuotes;
        }
      } else if c == ',' && !inQuotes {
        row := row + [cell];
        cell := [];
      } else if (c == '\n' || c == '\r') && !inQuotes {
        if c == '\r' && index + 1 < |content| && content[index + 1] == '\n' {
          index := index + 1;
        }
        row := row + [cell];
        rows := rows + [row];
        row := [];
        cell := [];
      } else {
        cell := cell + [c];
      }
      index := index + 1;
    }
    if |cell| > 0 || |row| > 0 {
      row := row + [cell];
      rows := rows + [row];
    }
  }

  // ----- Printing -----

  function Doubled(s: string): string {
    if s == [] then [] else (if s[0] == '"' then ['"', '"'] else [s[0]]) + Doubled(s[1..])
  }

  predicate NeedsQuotes(s: string) { '"' in s || ',' in s || '\n' in s }

  function EscapeCell(s: string): string {
    if NeedsQuotes(s) then ['"'] + Doubled(s) + ['"'] else Doubled(s)
  }

  function CellsText(cells: seq<string>): string
    requires cells != []
  {
    EscapeCell(cells[0]) + (if |cells| == 1 then [] else [','] + CellsText(cells[1..]))
  }

  function LinesText(lines: seq<seq<string>>): string
    requires lines != [] && forall i :: 0 <= i < |lines| ==> lines[i] != []
  {
    CellsText(lines[0]) + (if |lines| == 1 then [] else ['\n'] + LinesText(lines[1..]))
  }

  function HeaderText(headers: seq<string>): string
    requires headers != []
  {
    headers[0] + (if |headers| == 1 then [] else [','] + HeaderText(headers[1..]))
  }

  /** A record's fields by name, as texts; a missing or null field prints as nothing. */
  type Record = map<string, string>

  function CellsOf(record: Record, headers: seq<string>): (cells: seq<string>)
    ensures |cells| == |headers|
  {
    seq(|headers|, k requires 0 <= k < |headers| => if headers[k] in record then record[headers[k]] else [])
  }

  function Table(headers: seq<string>, records: seq<Record>): (lines: seq<seq<string>>)
    ensures |lines| == |records|
    ensures headers != [] ==> forall i :: 0 <= i < |lines| ==> lines[i] != []
  {
    if records == [] then [] else [CellsOf(records[0], headers)] + Table(headers, records[1..])
  }

  /** The header line and a line per record; `ending` closes the last line. */
  function ToCsv(headers: seq<string>, records: seq<Record>, ending: string): string
    requires headers != []
  {
    if records == [] then [] else HeaderText(headers) + ['\n'] + LinesText(Table(headers, records)) + ending
  }

  // ----- Scanning what was printed -----

  /** A character the parser always reads as itself outside quotes. */
  predicate Plain(c: char) { c != '"' && c != ',' && c != '\n' && c != '\r' }

  predicate IsPlain(s: string) { forall k :: 0 <= k < |s| ==> Plain(s[k]) }

  /** A carriage return comes only with something that makes the printer quote the cell. */
  predicate Safe(s: string) { '\r' in s ==> NeedsQuotes(s) }

  lemma {:induction false} ScanPlain(s: string, rest: string, st: State)
    requires IsPlain(s) && !st.inQuotes
    ensures Scan(s + rest, st) == Scan(rest, st.(cell := st.cell + s))
    decreases |s|
  {
    if s == [] {
      assert s + rest == rest && st.cell + s == st.cell;
    } else {
      assert (s + rest)[1..] == s[1..] + rest;
      ScanPlain(s[1..], rest, st.(cell := st.cell + [s[0]]));
      assert st.cell + [s[0]] + s[1..] == st.cell + s;
    }
  }

  lemma {:induction false} ScanDoubled(s: string, rest: string, st: State)
    requires st.inQuotes && (rest == [] || rest[0] != '"')
    ensures Scan(Doubled(s) + ['"'] + rest, st) == Scan(rest, st.(cell := st.cell + s, inQuotes := false))
    decreases |s|
  {
    var all := Doubled(s) + ['"'] + rest;
    if s == [] {
      assert all[0] == '"' && all[1..] == rest;
      assert st.cell + s == st.cell;
    } else {
      var head := if s[0] == '"' then ['"', '"'] else [s[0]];
      assert all == head + (Doubled(s[1..]) + ['"'] + rest);
      assert all[|head|..] == Doubled(s[1..]) + ['"'] + rest;
      assert all[0] == s[0] && (s[0] == '"' ==> all[1] == '"');
      ScanDoubled(s[1..], rest, st.(cell := st.cell + [s[0]]));
      assert st.cell + [s[0]] + s[1..] == st.cell + s;
    }
  }

  lemma {:induction false} DoubledNothing(s: string)
    requires '"' !in s
    ensures Doubled(s) == s
    decreases |s|
  {
    if s != [] {
      DoubledNothing(s[1..]);
    }
  }

  /** A safe cell reads back whole. */
  lemma {:induction false} ScanCell(s: string, rest: string, st: State)
    requires Safe(s) && !st.inQuotes && st.cell == [] && (rest == [] || rest[0] != '"')
    ensures Scan(EscapeCell(s) + rest, st) == Scan(rest, st.(cell := s))
  {
    assert [] + s == s;
    if NeedsQuotes(s) {
      var all := EscapeCell(s) + rest;
      assert all[0] == '"' && all[1..] == Doubled(s) + ['"'] + rest;
      ScanDoubled(s, rest, st.(inQuotes := true));
    } else {
      DoubledNothing(s);
      ScanPlain(s, rest, st);
    }
  }

  lemma {:induction false} ScanComma(rest: string, st: State)
    requires !st.inQuotes
    ensures Scan([','] + rest, st) == Scan(rest, EndCell(st))
  {
    assert ([','] + rest)[1..] == rest;
  }

  lemma {:induction false} ScanBreak(rest: string, st: State)
    requires !st.inQuotes
    ensures Scan(['\n'] + rest, st) == Scan(rest, EndRow(st))
  {
    assert (['\n'] + rest)[1..] == rest;
  }

  ghost predicate AllSafe(cells: seq<string>) {
    forall k :: 0 <= k < |cells| ==> Safe(cells[k])
  }

  ghost predicate LinesSafe(lines: seq<seq<string>>) {
    forall i :: 0 <= i < |lines| ==> AllSafe(lines[i])
  }

  /** The rows still to come after a line: its last cell is open until something ends it. */
  function Reading(st: State, cells: seq<string>): State
    requires cells != []
  {
    st.(row := st.row + cells[..|cells| - 1], cell := cells[|cells| - 1])
  }

  lemma {:induction false} ScanCells(cells: seq<string>, rest: string, st: State)
    requires cells != [] && AllSafe(cells) && !st.inQuotes && st.cell == [] && (rest == [] || rest[0] == '\n')
    ensures Scan(CellsText(cells) + rest, st) == Scan(rest, Reading(st, cells))
    decreases |cells|
  {
    hide Scan, EscapeCell;
    if |cells| == 1 {
      assert st.row + cells[..0] == st.row;
      ScanCell(cells[0], rest, st);
      assert CellsText(cells) + rest == EscapeCell(cells[0]) + rest;
    } else {
      var more := CellsText(cells[1..]) + rest;
      assert CellsText(cells) + rest == EscapeCell(cells[0]) + ([','] + more);
      ScanCell(cells[0], [','] + more, st);
      ScanComma(more, st.(cell := cells[0]));
      ScanCells(cells[1..], rest, EndCell(st.(cell := cells[0])));
      assert st.row + [cells[0]] + cells[1..][..|cells| - 2] == st.row + cells[..|cells| - 1];
    }
  }

  lemma {:induction false} ScanLines(lines: seq<seq<string>>, ending: string, st: State)
    requires lines != [] && (forall i :: 0 <= i < |lines| ==> lines[i] != []) && LinesSafe(lines)
    requires !st.inQuotes && st.cell == [] && st.row == [] && (ending == [] || ending == ['\n'])
    ensures Scan(LinesText(lines) + ending, st)
         == Scan(ending, Reading(st.(rows := st.rows + lines[..|lines| - 1]), lines[|lines| - 1]))
    decreases |lines|
  {
    hide Scan, CellsText;
    if |lines| == 1 {
      assert st.rows + lines[..0] == st.rows;
      assert LinesText(lines) + ending == CellsText(lines[0]) + ending;
      ScanCells(lines[0], ending, st);
    } else {
      var more := LinesText(lines[1..]) + ending;
      assert LinesText(lines) + ending == CellsText(lines[0]) + (['\n'] + more);
      ScanCells(lines[0], ['\n'] + more, st);
      ScanBreak(more, Reading(st, lines[0]));
      var next := EndRow(Reading(st, lines[0]));
      assert [] + lines[0][..|lines[0]| - 1] + [lines[0][|lines[0]| - 1]] == lines[0];
      ScanLines(lines[1..], ending, next);
      assert st.rows + [lines[0]] + lines[1..][..|lines| - 2] == st.rows + lines[..|lines| - 1];
    }
  }

  // ----- An unsafe cell does not read back -----

  /** Finished rows stay. */
  lemma {:induction false} RowsStay(s: string, st: State)
    ensures st.rows <= Scan(s, st).rows
    decreases |s|
  {
    if s != [] {
      if s[0] == '"' {
        if st.inQuotes && |s| > 1 && s[1] == '"' {
          RowsStay(s[2..], st.(cell := st.cell + ['"']));
        } else {
          RowsStay(s[1..], st.(inQuotes := !st.inQuotes));
        }
      } else if s[0] == ',' && !st.inQuotes {
        RowsStay(s[1..], EndCell(st));
      } else if (s[0] == '\n' || s[0] == '\r') && !st.inQuotes {
        RowsStay(if s[0] == '\r' && |s| > 1 && s[1] == '\n' then s[2..] else s[1..], EndRow(st));
      } else {
        RowsStay(s[1..], st.(cell := st.cell + [s[0]]));
      }
    }
  }

  /** The next row the parser finishes is `row`. */
  ghost predicate NextRow(s: string, st: State, row: seq<string>) {
    st.rows + [row] <= Scan(s, st).rows
  }

  /** An unsafe cell ends its row at its first carriage return. */
  lemma {:induction false} ScanUnsafe(s: string, rest: string, st: State) returns (before: string)
    requires !Safe(s) && !st.inQuotes && st.cell == []
    ensures |before| < |s|
    ensures NextRow(EscapeCell(s) + rest, st, st.row + [before])
  {
    var after: string;
    before, after := SplitAtReturn(s);
    UnsafeText(s, before, after, rest);
    hide Scan, NextRow, EscapeCell, Safe, IsPlain;
    assert st.cell + before == before;
    var tail, open := ['\r'] + (after + rest), st.(cell := before);
    ScanPlain(before, tail, st);
    ScanReturn(after + rest, open);
    SameNextRow(EscapeCell(s) + rest, st, tail, open, st.row + [before]);
  }

  lemma {:induction false} UnsafeText(s: string, before: string, after: string, rest: string)
    requires !Safe(s) && s == before + ['\r'] + after
    ensures EscapeCell(s) + rest == before + (['\r'] + (after + rest))
    ensures |before| < |s|
  {
    assert EscapeCell(s) == s by {
      DoubledNothing(s);
    }
    hide EscapeCell, Safe;
  }

  lemma {:induction false} SameNextRow(s: string, st: State, t: string, su: State, row: seq<string>)
    requires NextRow(t, su, row) && Scan(s, st) == Scan(t, su) && st.rows == su.rows
    ensures NextRow(s, st, row)
  {}

  lemma {:induction false} ScanReturn(rest: string, st: State)
    requires !st.inQuotes
    ensures NextRow(['\r'] + rest, st, st.row + [st.cell])
  {
    var all := ['\r'] + rest;
    assert all[1..] == rest;
    RowsStay(if |all| > 1 && all[1] == '\n' then all[2..] else all[1..], EndRow(st));
  }

  lemma {:induction false} SplitAtReturn(s: string) returns (before: string, after: string)
    requires !Safe(s)
    ensures s == before + ['\r'] + after && IsPlain(before)
  {
    var k := 0;
    while s[k] != '\r'
      invariant k < |s| && IsPlain(s[..k])
      invariant '\r' in s[k..]
      decreases |s| - k
    {
      assert s[k..] == [s[k]] + s[k + 1..];
      assert s[..k + 1] == s[..k] + [s[k]];
      k := k + 1;
    }
    before, after := s[..k], s[k + 1..];
  }

  lemma {:induction false} CellsFail(cells: seq<string>, rest: string, st: State) returns (row: seq<string>)
    requires cells != [] && !AllSafe(cells) && !st.inQuotes && st.cell == []
    ensures row != st.row + cells && NextRow(CellsText(cells) + rest, st, row)
    decreases |cells|
  {
    hide Scan, EscapeCell, Safe;
    var more := if |cells| == 1 then rest else [','] + (CellsText(cells[1..]) + rest);
    assert CellsText(cells) + rest == EscapeCell(cells[0]) + more;
    if !Safe(cells[0]) {
      var before := ScanUnsafe(cells[0], more, st);
      row := st.row + [before];
      assert |cells| == 1 ==> row[|st.row|] == before && (st.row + cells)[|st.row|] == cells[0];
    } else {
      assert cells[1..] != [] && !AllSafe(cells[1..]) by {
        var k :| 0 <= k < |cells| && !Safe(cells[k]);
        assert cells[1..][k - 1] == cells[k];
      }
      var after := CellsText(cells[1..]) + rest;
      ScanCell(cells[0], [','] + after, st);
      ScanComma(after, st.(cell := cells[0]));
      row := CellsFail(cells[1..], rest, EndCell(st.(cell := cells[0])));
      assert st.row + [cells[0]] + cells[1..] == st.row + cells;
    }
  }

  lemma {:induction false} LinesFail(lines: seq<seq<string>>, ending: string, st: State)
    requires lines != [] && (forall i :: 0 <= i < |lines| ==> lines[i] != []) && !LinesSafe(lines)
    requires !st.inQuotes && st.cell == [] && st.row == []
    ensures !(st.rows + lines <= Finish(Scan(LinesText(lines) + ending, st)))
    decreases |lines|
  {
    hide Scan, CellsText, AllSafe;
    var more := if |lines| == 1 then ending else ['\n'] + (LinesText(lines[1..]) + ending);
    assert LinesText(lines) + ending == CellsText(lines[0]) + more;
    if !AllSafe(lines[0]) {
      var row := CellsFail(lines[0], more, st);
      assert [] + lines[0] == lines[0];
      var final := Finish(Scan(LinesText(lines) + ending, st));
      assert st.rows + [row] <= final;
      assert final[|st.rows|] == row && (st.rows + lines)[|st.rows|] == lines[0];
    } else {
      assert lines[1..] != [] && !LinesSafe(lines[1..]) by {
        var i :| 0 <= i < |lines| && !AllSafe(lines[i]);
        assert lines[1..][i - 1] == lines[i];
      }
      var after := LinesText(lines[1..]) + ending;
      ScanCells(lines[0], ['\n'] + after, st);
      ScanBreak(after, Reading(st, lines[0]));
      assert [] + lines[0][..|lines[0]| - 1] + [lines[0][|lines[0]| - 1]] == lines[0];
      LinesFail(lines[1..], ending, EndRow(Reading(st, lines[0])));
      assert st.rows + [lines[0]] + lines[1..] == st.rows + lines;
    }
  }

  // ----- Round trips -----

  lemma {:induction false} ScanHeader(headers: seq<string>, rest: string, st: State)
    requires headers != [] && (forall k :: 0 <= k < |headers| ==> IsPlain(headers[k]))
    requires !st.inQuotes && st.cell == []
    ensures Scan(HeaderText(headers) + (['\n'] + rest), st) == Scan(rest, st.(rows := st.rows + [st.row + headers], row := []))
    decreases |headers|
  {
    hide Scan;
    assert [] + headers[0] == headers[0];
    if |headers| == 1 {
      assert HeaderText(headers) == headers[0];
      ScanPlain(headers[0], ['\n'] + rest, st);
      ScanBreak(rest, st.(cell := headers[0]));
      assert [headers[0]] == headers;
    } else {
      var more := HeaderText(headers[1..]) + (['\n'] + rest);
      assert HeaderText(headers) + (['\n'] + rest) == headers[0] + ([','] + more);
      ScanPlain(headers[0], [','] + more, st);
      ScanComma(more, st.(cell := headers[0]));
      ScanHeader(headers[1..], rest, EndCell(st.(cell := headers[0])));
      assert st.row + [headers[0]] + headers[1..] == st.row + headers;
    }
  }

  /** Parsing a printed table gives back the header and the cells exactly when a carriage return occurs only in quoted
      cells and, for the printer that leaves the last line open, the last line is not one empty cell. */
  lemma {:induction false} CsvRoundTrip(headers: seq<string>, records: seq<Record>, ending: string)
    requires headers != [] && (forall k :: 0 <= k < |headers| ==> IsPlain(headers[k]))
    requires records != [] && (ending == [] || ending == ['\n'])
    ensures Parsed(ToCsv(headers, records, ending)) == [headers] + Table(headers, records)
            <==> LinesSafe(Table(headers, records)) && (ending == [] ==> Table(headers, records)[|records| - 1] != [[]])
  {
    hide Scan, HeaderText, Table, LinesText, LinesSafe, IsPlain, Finish;
    var lines := Table(headers, records);
    var body := LinesText(lines) + ending;
    TextParts(HeaderText(headers), LinesText(lines), ending);
    ScanHeader(headers, body, START);
    var st := State([headers], [], [], false);
    assert START.row + headers == headers && START.rows + [headers] == [headers];
    assert START.(rows := [headers], row := []) == st;
    LinesRoundTrip(lines, ending, st);
  }

  lemma {:induction false} TextParts(header: string, lines: string, ending: string)
    ensures header + ['\n'] + lines + ending == header + (['\n'] + (lines + ending))
  {}

  lemma {:induction false} LinesRoundTrip(lines: seq<seq<string>>, ending: string, st: State)
    requires lines != [] && (forall i :: 0 <= i < |lines| ==> lines[i] != []) && (ending == [] || ending == ['\n'])
    requires !st.inQuotes && st.cell == [] && st.row == []
    ensures Finish(Scan(LinesText(lines) + ending, st)) == st.rows + lines
            <==> LinesSafe(lines) && (ending == [] ==> lines[|lines| - 1] != [[]])
  {
    hide Scan, LinesText, LinesSafe;
    if LinesSafe(lines) {
      var last := lines[|lines| - 1];
      ScanLines(lines, ending, st);
      var open := Reading(st.(rows := st.rows + lines[..|lines| - 1]), last);
      assert open.row + [open.cell] == last;
      assert st.rows + lines[..|lines| - 1] + [last] == st.rows + lines;
      ScanEnding(ending, open);
      assert last == [[]] <==> open.cell == [] && open.row == [];
    } else {
      LinesFail(lines, ending, st);
    }
  }

  lemma {:induction false} ScanEnding(ending: string, st: State)
    requires !st.inQuotes && (ending == [] || ending == ['\n'])
    ensures Finish(Scan(ending, st))
         == if ending == [] && st.cell == [] && st.row == [] then st.rows else st.rows + [st.row + [st.cell]]
  {
    if ending != [] {
      assert ending[1..] == [];
      assert Scan([], EndRow(st)) == EndRow(st);
    }
  }

  /** Printing nothing parses to nothing. */
  lemma {:induction false} EmptyRoundTrip(headers: seq<string>, ending: string)
    requires headers != []
    ensures Parsed(ToCsv(headers, [], ending)) == []
  {}

  // ----- Inputs that do not survive -----

  /** A character and a line end that is not the first of two are a row of one cell. */
  lemma {:induction false} ShortLine(s: string, rows: seq<seq<string>>, c: char)
    requires |s| >= 2 && s[0] == c && (s[1] == '\n' || s[1] == '\r') && Plain(c) && (|s| > 2 ==> s[2] != '\n')
    ensures Scan(s, State(rows, [], [], false)) == Scan(s[2..], State(rows + [[[c]]], [], [], false))
  {
    var st := State(rows, [], [c], false);
    assert [] + [c] == [c];
    assert s[1..][1..] == s[2..];
    assert |s| > 2 ==> s[1..][1] == s[2];
    assert [] + [[c]] == [[c]];
    assert EndRow(st) == State(rows + [[[c]]], [], [], false);
  }

  /** A carriage return in a cell without comma, quote or line feed splits the line: the cell is printed unquoted. */
  lemma {:induction false} ReturnSplitsLine()
    ensures ToCsv(["h"], [map["h" := "a\rb"]], "\n") == "h\na\rb\n"
    ensures Parsed(ToCsv(["h"], [map["h" := "a\rb"]], "\n")) == [["h"], ["a"], ["b"]]
  {
    OneCellText("a\rb", "\n");
    assert ['h'] + ['\n'] + "a\rb" + "\n" == "h\na\rb\n";
    ThreeLines();
  }

  lemma {:induction false} ThreeLines()
    ensures Parsed("h\na\rb\n") == [["h"], ["a"], ["b"]]
  {
    var text, rest, last := "h\na\rb\n", "a\rb\n", "b\n";
    assert text[2..] == rest && rest[2..] == last && last[2..] == [];
    ShortLine(text, [], 'h');
    ShortLine(rest, [["h"]], 'a');
    ShortLine(last, [["h"], ["a"]], 'b');
    assert [] + [["h"]] == [["h"]] && [["h"]] + [["a"]] == [["h"], ["a"]];
    assert [["h"], ["a"]] + [["b"]] == [["h"], ["a"], ["b"]];
  }

  lemma {:induction false} OneCellText(cell: string, ending: string)
    requires !NeedsQuotes(cell)
    ensures ToCsv(["h"], [map["h" := cell]], ending) == ['h'] + ['\n'] + Doubled(cell) + ending
  {
    var records: seq<Record> := [map["h" := cell]];
    assert CellsOf(records[0], ["h"]) == [cell];
    assert records[1..] == [] && Table(["h"], []) == [];
    assert Table(["h"], records) == [[cell]];
  }

  /** A last line that is one empty cell is dropped when nothing ends it. */
  lemma {:induction false} EmptyCellLost()
    ensures ToCsv(["h"], [map[]], "") == "h\n"
    ensures Parsed(ToCsv(["h"], [map[]], "")) == [["h"]]
  {
    var records: seq<Record> := [map[]];
    assert CellsOf(records[0], ["h"]) == [[]];
    assert records[1..] == [] && Table(["h"], []) == [];
    assert Table(["h"], records) == [[[]]];
    var text := "h\n";
    assert ['h'] + ['\n'] + [] + [] == text;
    ShortLine(text, [], 'h');
    assert [] + [["h"]] == [["h"]] && text[2..] == [];
  }
}
