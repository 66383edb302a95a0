/** Writing the objects of a PDF file with its cross-reference table, and finding them again through it.
    Models serialize and build of the invoice builder; sections 7.5.4 and 7.5.5 of ISO 32000-1. */
module PdfFile {
  import opened Prelude
  import opened Decimals
  import opened Bytes

  const TEN_DIGITS := 10_000_000_000

  // The fixed texts of a file.

  function FreeEntry(): (s: string)
    ensures |s| == 20 && IsAscii(s)
  {
    "0000000000 65535 f \n"
  }

  function EntryEnd(): (s: string)
    ensures |s| == 10 && IsAscii(s)
  {
    " 00000 n \n"
  }

  function XrefStart(): (s: string)
    ensures |s| == 7 && IsAscii(s)
  {
    "xref\n0 "
  }

  function LineEnd(): (s: string)
    ensures |s| == 1 && IsAscii(s) && !IsDigit(s[0])
  {
    "\n"
  }

  function SizeStart(): (s: string)
    ensures IsAscii(s)
  {
    "trailer\n<< /Size "
  }

  function RootEnd(): (s: string)
    ensures s != [] && IsAscii(s) && s[0] == ' ' && !IsDigit(s[|s| - 1])
  {
    " 0 R >>\nstartxref\n"
  }

  function SizeEnd(): (s: string)
    ensures s != [] && IsAscii(s) && !IsDigit(s[|s| - 1])
  {
    " /Root " + "1" + RootEnd()
  }

  function EndMarker(): (s: string)
    ensures |s| == 7 && IsAscii(s)
  {
    "\n%%EOF\n"
  }

  // ----- Writing -----

  /** The header and the objects. */
  function Body(objects: seq<string>): string {
    if objects == [] then "%PDF-1.4\n" else Body(objects[..|objects| - 1]) + objects[|objects| - 1]
  }

  /** The byte at which object k starts. */
  function Offset(objects: seq<string>, k: nat): nat
    requires k <= |objects|
  {
    ByteLength(Body(objects[..k]))
  }

  function Zeros(n: nat): (s: string)
    ensures |s| == n && forall k :: 0 <= k < n ==> s[k] == '0'
  {
    seq(n, _ => '0')
  }

  /** At least ten digits. */
  function PadStart(n: nat): string {
    var digits := ToDecimal(n);
    if |digits| < 10 then Zeros(10 - |digits|) + digits else digits
  }

  function XrefEntry(offset: nat): string { PadStart(offset) + EntryEnd() }

  function XrefEntries(offsets: seq<nat>): string {
    if offsets == [] then [] else XrefEntries(offsets[..|offsets| - 1]) + XrefEntry(offsets[|offsets| - 1])
  }

  function Offsets(objects: seq<string>): (offsets: seq<nat>)
    ensures |offsets| == |objects|
    ensures forall k :: 0 <= k < |objects| ==> offsets[k] == Offset(objects, k)
  {
    seq(|objects|, k requires 0 <= k < |objects| => Offset(objects, k))
  }

  function XrefHeader(count: nat): string { XrefStart() + ToDecimal(count + 1) + LineEnd() }

  function Trailer(count: nat, xrefOffset: nat): string {
    SizeStart() + ToDecimal(count + 1) + SizeEnd() + ToDecimal(xrefOffset) + EndMarker()
  }

  function FileText(objects: seq<string>): string {
    Body(objects)
    + XrefHeader(|objects|) + FreeEntry() + XrefEntries(Offsets(objects))
    + Trailer(|objects|, ByteLength(Body(objects)))
  }

  /** The table's entries for some offsets. */
  method WriteEntries(offsets: seq<nat>) returns (table: string)
    ensures table == XrefEntries(offsets)
  {
    hide XrefEntry;
    table := [];
    for i := 0 to |offsets|
      invariant table == XrefEntries(offsets[..i])
    {
      assert offsets[..i + 1][..i] == offsets[..i];
      table := table + XrefEntry(offsets[i]);
    }
    assert offsets[..|offsets|] == offsets;
  }

  method Serialize(objects: seq<string>) returns (file: seq<Byte>)
    ensures file == Utf8(FileText(objects))
  {
    var pdf := "%PDF-1.4\n";
    var offsets: seq<nat> := [];
    for i := 0 to |objects|
      invariant pdf == Body(objects[..i])
      invariant offsets == Offsets(objects)[..i]
    {
      hide Utf8;
      assert objects[..i + 1][..i] == objects[..i];
      offsets := offsets + [ByteLength(pdf)];
      pdf := pdf + objects[i];
    }
    assert objects[..|objects|] == objects && offsets == Offsets(objects);
    hide XrefHeader, FreeEntry, Trailer, Body, Utf8, XrefEntries;
    var xrefOffset := ByteLength(pdf);
    pdf := pdf + XrefHeader(|objects|);
    pdf := pdf + FreeEntry();
    var table := WriteEntries(offsets);
    pdf := pdf + table;
    pdf := pdf + Trailer(|objects|, xrefOffset);
    return Utf8(pdf);
  }

  // ----- Entries -----

  function Power10(k: nat): nat { if k == 0 then 1 else 10 * Power10(k - 1) }

  lemma {:induction false} DigitCount(n: nat, k: nat)
    requires k >= 1
    ensures |ToDecimal(n)| <= k <==> n < Power10(k)
    decreases k
  {
    if n < 10 {
      Power10Grows(k);
    } else if k == 1 {
      assert Power10(1) == 10 * Power10(0);
    } else {
      DigitCount(n / 10, k - 1);
    }
  }

  lemma {:induction false} Power10Grows(k: nat)
    requires k >= 1
    ensures Power10(k) >= 10
  {
    if k > 1 {
      Power10Grows(k - 1);
    }
  }

  lemma {:induction false} TenDigits(n: nat)
    ensures |ToDecimal(n)| <= 10 <==> n < TEN_DIGITS
  {
    DigitCount(n, 10);
    assert Power10(2) == 100 && Power10(4) == 10_000;
    assert Power10(7) == 10_000_000;
    assert Power10(10) == TEN_DIGITS;
  }

  lemma {:induction false} LeadingZeros(n: nat, s: string)
    requires forall k :: 0 <= k < |s| ==> IsDigit(s[k])
    ensures FromDecimal(Zeros(n) + s) == FromDecimal(s)
  {
    if s != [] {
      assert (Zeros(n) + s)[..n + |s| - 1] == Zeros(n) + s[..|s| - 1];
      LeadingZeros(n, s[..|s| - 1]);
    } else if n > 0 {
      assert Zeros(n) + s == Zeros(n) && Zeros(n)[..n - 1] == Zeros(n - 1) + s;
      LeadingZeros(n - 1, s);
    } else {
      assert Zeros(0) + s == s;
    }
  }

  lemma {:induction false} PadShape(n: nat)
    ensures |PadStart(n)| >= 10 && (|PadStart(n)| == 10 <==> n < TEN_DIGITS)
    ensures forall k :: 0 <= k < |PadStart(n)| ==> IsDigit(PadStart(n)[k])
    ensures FromDecimal(PadStart(n)) == n
  {
    TenDigits(n);
    DecimalRoundTrip(n);
    if |ToDecimal(n)| < 10 {
      LeadingZeros(10 - |ToDecimal(n)|, ToDecimal(n));
    }
  }

  /** A cross-reference entry is twenty bytes long exactly while its offset has at most ten digits; then its first ten
      characters are the offset. */
  lemma {:induction false} EntryShape(offset: nat)
    ensures |XrefEntry(offset)| == 20 <==> offset < TEN_DIGITS
    ensures IsAscii(XrefEntry(offset))
    ensures offset < TEN_DIGITS ==>
      && (forall k :: 0 <= k < 10 ==> IsDigit(XrefEntry(offset)[k]))
      && FromDecimal(XrefEntry(offset)[..10]) == offset
  {
    hide PadStart, EntryEnd, FromDecimal;
    PadShape(offset);
    if offset < TEN_DIGITS {
      assert XrefEntry(offset)[..10] == PadStart(offset);
    }
  }

  ghost predicate SmallOffsets(offsets: seq<nat>) {
    forall k :: 0 <= k < |offsets| ==> offsets[k] < TEN_DIGITS
  }

  /** Entry k of the table starts at byte 20 * k. */
  lemma {:induction false} EntryAt(offsets: seq<nat>, k: nat)
    requires SmallOffsets(offsets) && k < |offsets|
    ensures |XrefEntries(offsets)| == 20 * |offsets|
    ensures XrefEntries(offsets)[20 * k..20 * k + 20] == XrefEntry(offsets[k])
    decreases |offsets|
  {
    hide XrefEntry;
    var n := |offsets| - 1;
    EntryShape(offsets[n]);
    EntriesLength(offsets[..n]);
    if k < n {
      EntryAt(offsets[..n], k);
    }
  }

  lemma {:induction false} EntriesLength(offsets: seq<nat>)
    requires SmallOffsets(offsets)
    ensures |XrefEntries(offsets)| == 20 * |offsets|
  {
    if offsets != [] {
      EntriesLength(offsets[..|offsets| - 1]);
      EntryShape(offsets[|offsets| - 1]);
    }
  }

  lemma {:induction false} EntriesAscii(offsets: seq<nat>)
    ensures IsAscii(XrefEntries(offsets))
  {
    if offsets != [] {
      EntriesAscii(offsets[..|offsets| - 1]);
      EntryShape(offsets[|offsets| - 1]);
    }
  }

  // ----- Reading -----

  predicate IsDigitByte(b: Byte) { 48 <= b <= 57 }

  function ByteDigits(bytes: seq<Byte>): nat {
    if bytes == [] then 0
    else
      var b := bytes[|bytes| - 1];
      10 * ByteDigits(bytes[..|bytes| - 1]) + (if IsDigitByte(b) then b as int - 48 else 0)
  }

  /** Where the run of digits ending at `end` begins. */
  function RunStart(bytes: seq<Byte>, end: nat): (start: nat)
    requires end <= |bytes|
    ensures start <= end
  {
    if end == 0 || !IsDigitByte(bytes[end - 1]) then end else RunStart(bytes, end - 1)
  }

  function RunEnd(bytes: seq<Byte>, start: nat): (end: nat)
    requires start <= |bytes|
    ensures start <= end <= |bytes|
    decreases |bytes| - start
  {
    if start == |bytes| || !IsDigitByte(bytes[start]) then start else RunEnd(bytes, start + 1)
  }

  /** The number before the last seven bytes, which are a line end and the end-of-file marker. */
  function ReadStartXref(file: seq<Byte>): nat {
    if |file| < 7 then 0
    else
      var end := |file| - 7;
      ByteDigits(file[RunStart(file, end)..end])
  }

  /** Follows the table to the object: the entries stand after the line that counts them, twenty bytes each. */
  function Locate(file: seq<Byte>, id: nat): nat {
    var x := ReadStartXref(file);
    if x + 7 > |file| then 0
    else
      var first := RunEnd(file, x + 7) + 1;
      var entry := first + 20 * id;
      if entry + 10 <= |file| then ByteDigits(file[entry..entry + 10]) else 0
  }

  lemma {:induction false} DigitBytes(s: string)
    requires forall k :: 0 <= k < |s| ==> IsDigit(s[k])
    ensures |Utf8(s)| == |s|
    ensures forall k :: 0 <= k < |s| ==> IsDigitByte(Utf8(s)[k])
    ensures ByteDigits(Utf8(s)) == FromDecimal(s)
  {
    if s != [] {
      DigitBytes(s[..|s| - 1]);
      Utf8Ascii(s[..|s| - 1]);
      assert Utf8(s)[..|s| - 1] == Utf8(s[..|s| - 1]);
      assert Utf8(s)[|s| - 1] == s[|s| - 1] as int as Byte;
    }
  }

  lemma {:induction false} RunBackwards(bytes: seq<Byte>, start: nat, end: nat)
    requires start <= end <= |bytes|
    requires start > 0 ==> !IsDigitByte(bytes[start - 1])
    requires forall k :: start <= k < end ==> IsDigitByte(bytes[k])
    ensures RunStart(bytes, end) == start
    decreases end
  {
    if end > start {
      RunBackwards(bytes, start, end - 1);
    }
  }

  lemma {:induction false} RunForwards(bytes: seq<Byte>, start: nat, end: nat)
    requires start <= end < |bytes| && !IsDigitByte(bytes[end])
    requires forall k :: start <= k < end ==> IsDigitByte(bytes[k])
    ensures RunEnd(bytes, start) == end
    decreases end - start
  {
    if start < end {
      RunForwards(bytes, start + 1, end);
    }
  }

  lemma {:induction false} ThreeParts(before: string, part: string, after: string)
    ensures Utf8(before + part + after) == Utf8(before) + Utf8(part) + Utf8(after)
  {
    Utf8Concat(before + part, after);
    Utf8Concat(before, part);
  }

  lemma {:induction false} LastByte(s: string)
    requires s != [] && s[|s| - 1] as int < 128
    ensures Utf8(s) != [] && Utf8(s)[|Utf8(s)| - 1] == s[|s| - 1] as int as Byte
  {}

  /** The digits of a number somewhere inside a file. */
  lemma {:induction false} DigitsInside(before: seq<Byte>, digits: string, after: seq<Byte>)
    requires forall k :: 0 <= k < |digits| ==> IsDigit(digits[k])
    ensures |Utf8(digits)| == |digits|
    ensures var file, start := before + Utf8(digits) + after, |before|;
      && file[start..start + |digits|] == Utf8(digits)
      && forall k :: start <= k < start + |digits| ==> IsDigitByte(file[k])
  {
    DigitBytes(digits);
    hide Utf8, IsDigitByte;
    Middle(before, Utf8(digits), after);
  }

  lemma {:induction false} Middle<T>(a: seq<T>, b: seq<T>, c: seq<T>)
    ensures (a + b + c)[|a|..|a| + |b|] == b
    ensures forall k :: |a| <= k < |a| + |b| ==> (a + b + c)[k] == b[k - |a|]
  {}

  /** A number between text that does not end in a digit and the last seven bytes is what the end of a file says. */
  lemma {:induction false} StartXrefReads(before: string, n: nat)
    requires before != [] && before[|before| - 1] as int < 128 && !IsDigit(before[|before| - 1])
    ensures ReadStartXref(Utf8(before + ToDecimal(n) + EndMarker())) == n
  {
    hide Utf8, EndMarker, ToDecimal, RunStart;
    var digits := ToDecimal(n);
    var file := Utf8(before + digits + EndMarker());
    ThreeParts(before, digits, EndMarker());
    Utf8Ascii(EndMarker());
    LastByte(before);
    DigitsInside(Utf8(before), digits, Utf8(EndMarker()));
    DigitBytes(digits);
    DecimalRoundTrip(n);
    var start := |Utf8(before)|;
    assert file[start - 1] == Utf8(before)[start - 1];
    RunBackwards(file, start, start + |digits|);
  }

  lemma {:induction false} CountRunReads(before: string, count: nat, after: string)
    ensures var file := Utf8(before + XrefStart() + ToDecimal(count) + LineEnd() + after);
      && ByteLength(before) + 7 <= |file|
      && RunEnd(file, ByteLength(before) + 7) + 1 == ByteLength(before + XrefStart() + ToDecimal(count) + LineEnd())
  {
    hide Utf8, XrefStart, LineEnd, ToDecimal, RunEnd;
    var head, digits := before + XrefStart(), ToDecimal(count);
    var file := Utf8(head + digits + LineEnd() + after);
    Utf8Concat(head + digits + LineEnd(), after);
    ThreeParts(head, digits, LineEnd());
    Utf8Concat(before, XrefStart());
    Utf8Ascii(XrefStart());
    Utf8Ascii(LineEnd());
    var tail := Utf8(LineEnd()) + Utf8(after);
    assert file == Utf8(head) + Utf8(digits) + tail;
    DigitsInside(Utf8(head), digits, tail);
    var start := |Utf8(head)|;
    assert file[start + |digits|] == Utf8(LineEnd())[0];
    RunForwards(file, start, start + |digits|);
  }

  /** The text before the number at the end. */
  function BeforeEnd(objects: seq<string>): string {
    Body(objects) + XrefHeader(|objects|) + FreeEntry() + XrefEntries(Offsets(objects))
    + SizeStart() + ToDecimal(|objects| + 1) + SizeEnd()
  }

  lemma {:induction false} EndsWithNumber(objects: seq<string>)
    ensures FileText(objects) == BeforeEnd(objects) + ToDecimal(ByteLength(Body(objects))) + EndMarker()
    ensures BeforeEnd(objects) != [] && BeforeEnd(objects)[|BeforeEnd(objects)| - 1] == SizeEnd()[|SizeEnd()| - 1]
  {
    hide Body, XrefEntries, XrefHeader, FreeEntry, SizeStart, SizeEnd, EndMarker, ToDecimal, ByteLength;
  }

  lemma {:induction false} Regroup(body: string, a: string, b: string, c: string, d: string, e: string, f: string)
    ensures body + (a + b + c) + d + e + f == body + a + (b + c + d + e + f)
  {}

  lemma {:induction false} StartsTable(objects: seq<string>) returns (after: string)
    ensures FileText(objects) == Body(objects) + XrefStart() + after
  {
    var size, entries := ToDecimal(|objects| + 1), XrefEntries(Offsets(objects));
    var trailer := Trailer(|objects|, ByteLength(Body(objects)));
    after := size + LineEnd() + FreeEntry() + entries + trailer;
    hide Body, XrefEntries, FreeEntry, Trailer, XrefStart, LineEnd, ToDecimal, ByteLength;
    Regroup(Body(objects), XrefStart(), size, LineEnd(), FreeEntry(), entries, trailer);
  }

  /** The end of the file gives the byte where the table starts. */
  lemma {:induction false} StartXrefCorrect(objects: seq<string>)
    ensures ReadStartXref(Utf8(FileText(objects))) == ByteLength(Body(objects))
    ensures |Utf8(FileText(objects))| >= ByteLength(Body(objects)) + 7
    ensures Utf8(FileText(objects))[ByteLength(Body(objects))..][..7] == Utf8(XrefStart())
  {
    EndsWithNumber(objects);
    var after := StartsTable(objects);
    hide Body, BeforeEnd, ReadStartXref, FileText, Utf8, XrefStart, SizeEnd, EndMarker;
    StartXrefReads(BeforeEnd(objects), ByteLength(Body(objects)));
    ThreeParts(Body(objects), XrefStart(), after);
    Utf8Ascii(XrefStart());
  }

  lemma {:induction false} BodyPrefix(objects: seq<string>, k: nat) returns (rest: string)
    requires k < |objects|
    ensures Body(objects) == Body(objects[..k]) + objects[k] + rest
    decreases |objects|
  {
    var n := |objects| - 1;
    if k == n {
      rest := [];
    } else {
      var more := BodyPrefix(objects[..n], k);
      assert objects[..n][..k] == objects[..k];
      rest := more + objects[n];
    }
  }

  /** The bytes of a text stand in the file from a position on. */
  ghost predicate StandsAt(file: seq<Byte>, at: nat, text: string) {
    at + ByteLength(text) <= |file| && file[at..at + ByteLength(text)] == Utf8(text)
  }

  /** Each object starts at its offset. */
  lemma {:induction false} ObjectAtOffset(objects: seq<string>, k: nat)
    requires k < |objects|
    ensures StandsAt(Utf8(FileText(objects)), Offset(objects, k), objects[k])
  {
    var after := ObjectInText(objects, k);
    hide Body, FileText, Utf8, StandsAt;
    PartStands(Body(objects[..k]), objects[k], after, FileText(objects));
  }

  lemma {:induction false} RegroupObject(a: string, b: string, rest: string, c: string, d: string, e: string, f: string)
    ensures (a + b + rest) + c + d + e + f == a + b + (rest + c + d + e + f)
  {}

  lemma {:induction false} ObjectInText(objects: seq<string>, k: nat) returns (after: string)
    requires k < |objects|
    ensures FileText(objects) == Body(objects[..k]) + objects[k] + after
  {
    var rest := BodyPrefix(objects, k);
    var header, entries := XrefHeader(|objects|), XrefEntries(Offsets(objects));
    var trailer := Trailer(|objects|, ByteLength(Body(objects)));
    after := rest + header + FreeEntry() + entries + trailer;
    hide Body, XrefEntries, XrefHeader, Trailer, FreeEntry, ByteLength, Offsets;
    RegroupObject(Body(objects[..k]), objects[k], rest, header, FreeEntry(), entries, trailer);
  }

  lemma {:induction false} PartInside(before: string, part: string, after: string, text: string)
    requires text == before + part + after
    ensures ByteLength(before) + ByteLength(part) <= |Utf8(text)|
    ensures Utf8(text)[ByteLength(before)..ByteLength(before) + ByteLength(part)] == Utf8(part)
  {
    hide Utf8;
    ThreeParts(before, part, after);
  }

  lemma {:induction false} PartStands(before: string, part: string, after: string, text: string)
    requires text == before + part + after
    ensures StandsAt(Utf8(text), ByteLength(before), part)
  {
    hide Utf8;
    PartInside(before, part, after, text);
  }

  /** While all offsets have at most ten digits, following the table finds every object: entry `id` leads to the byte
      where object number `id` starts, and the object's own bytes stand there. */
  lemma {:induction false} TableFindsObjects(objects: seq<string>, id: nat)
    requires SmallOffsets(Offsets(objects)) && 1 <= id <= |objects|
    ensures Locate(Utf8(FileText(objects)), id) == Offset(objects, id - 1)
    ensures StandsAt(Utf8(FileText(objects)), Locate(Utf8(FileText(objects)), id), objects[id - 1])
  {
    hide Utf8, Body, FileText, RunEnd, ReadStartXref, XrefEntries;
    var file := Utf8(FileText(objects));
    ObjectAtOffset(objects, id - 1);
    StartXrefCorrect(objects);
    var x := ByteLength(Body(objects));
    TablePosition(objects);
    EntryReads(objects, id);
  }

  /** The text up to the first entry of the table. */
  function BeforeTable(objects: seq<string>): string { Body(objects) + XrefHeader(|objects|) }

  lemma {:induction false} TablePosition(objects: seq<string>)
    ensures var file := Utf8(FileText(objects));
      && ByteLength(Body(objects)) + 7 <= |file|
      && RunEnd(file, ByteLength(Body(objects)) + 7) + 1 == ByteLength(BeforeTable(objects))
  {
    hide Body, XrefEntries, RunEnd, Trailer, Utf8, FreeEntry, XrefStart, LineEnd, ToDecimal;
    var after := FreeEntry() + XrefEntries(Offsets(objects)) + Trailer(|objects|, ByteLength(Body(objects)));
    var size := ToDecimal(|objects| + 1);
    assert BeforeTable(objects) == Body(objects) + XrefStart() + size + LineEnd();
    assert FileText(objects) == BeforeTable(objects) + after;
    hide FileText, BeforeTable, XrefHeader;
    CountRunReads(Body(objects), |objects| + 1, after);
  }

  /** The table text around the offset in entry `id`. */
  lemma {:induction false} TableParts(offsets: seq<nat>, id: nat) returns (before: string, digits: string, after: string)
    requires SmallOffsets(offsets) && 1 <= id <= |offsets|
    ensures XrefEntries(offsets) == before + digits + after
    ensures |before| == 20 * (id - 1) && |digits| == 10 && IsAscii(before)
    ensures forall k :: 0 <= k < |digits| ==> IsDigit(digits[k])
    ensures FromDecimal(digits) == offsets[id - 1]
  {
    hide XrefEntry, FromDecimal;
    EntryAt(offsets, id - 1);
    EntriesAscii(offsets);
    EntryShape(offsets[id - 1]);
    hide XrefEntries;
    var table, at := XrefEntries(offsets), 20 * (id - 1);
    before, digits, after := table[..at], XrefEntry(offsets[id - 1])[..10], table[at + 10..];
    assert table[at..at + 20][..10] == table[at..at + 10];
  }

  lemma {:induction false} RegroupEntry(head: string, free: string, a: string, b: string, c: string, trailer: string)
    ensures head + free + (a + b + c) + trailer == (head + free + a) + b + (c + trailer)
  {}

  /** The bytes before an entry's digits. */
  lemma {:induction false} BeforeEntry(head: string, front: string)
    requires IsAscii(front)
    ensures ByteLength(head + FreeEntry() + front) == ByteLength(head) + 20 + |front|
  {
    hide Utf8, FreeEntry;
    ThreeParts(head, FreeEntry(), front);
    Utf8Ascii(FreeEntry());
    Utf8Ascii(front);
  }

  lemma {:induction false} EntryInText(objects: seq<string>, front: string, digits: string, back: string)
    requires XrefEntries(Offsets(objects)) == front + digits + back
    ensures FileText(objects)
         == (BeforeTable(objects) + FreeEntry() + front) + digits
            + (back + Trailer(|objects|, ByteLength(Body(objects))))
  {
    var head, trailer := BeforeTable(objects), Trailer(|objects|, ByteLength(Body(objects)));
    assert FileText(objects) == head + FreeEntry() + (front + digits + back) + trailer;
    hide FileText, BeforeTable, Trailer, FreeEntry, XrefEntries, ByteLength;
    RegroupEntry(head, FreeEntry(), front, digits, back, trailer);
  }

  /** Where the digits of entry `id` stand in the text of the file. */
  lemma {:induction false} EntryDigits(objects: seq<string>, id: nat) returns (before: string, digits: string, after: string)
    requires SmallOffsets(Offsets(objects)) && 1 <= id <= |objects|
    ensures FileText(objects) == before + digits + after
    ensures ByteLength(before) == ByteLength(BeforeTable(objects)) + 20 * id
    ensures |Utf8(digits)| == 10 && ByteDigits(Utf8(digits)) == Offsets(objects)[id - 1]
  {
    var front, back: string;
    front, digits, back := TableParts(Offsets(objects), id);
    EntryInText(objects, front, digits, back);
    BeforeEntry(BeforeTable(objects), front);
    DigitBytes(digits);
    before, after := BeforeTable(objects) + FreeEntry() + front, back + Trailer(|objects|, ByteLength(Body(objects)));
    hide *;
  }

  lemma {:induction false} EntryReads(objects: seq<string>, id: nat)
    requires SmallOffsets(Offsets(objects)) && 1 <= id <= |objects|
    ensures var file := Utf8(FileText(objects));
      var entry := ByteLength(BeforeTable(objects)) + 20 * id;
      entry + 10 <= |file| && ByteDigits(file[entry..entry + 10]) == Offset(objects, id - 1)
  {
    var before, digits, after := EntryDigits(objects, id);
    PartInside(before, digits, after, FileText(objects));
    hide *;
    EntryNumber(objects, id, before, digits);
  }

  lemma {:induction false} EntryNumber(objects: seq<string>, id: nat, before: string, digits: string)
    requires 1 <= id <= |objects| && ByteLength(before) == ByteLength(BeforeTable(objects)) + 20 * id
    requires |Utf8(digits)| == 10 && ByteDigits(Utf8(digits)) == Offsets(objects)[id - 1]
    requires ByteLength(before) + ByteLength(digits) <= |Utf8(FileText(objects))|
    requires Utf8(FileText(objects))[ByteLength(before)..ByteLength(before) + ByteLength(digits)] == Utf8(digits)
    ensures var file := Utf8(FileText(objects));
      var entry := ByteLength(BeforeTable(objects)) + 20 * id;
      entry + 10 <= |file| && ByteDigits(file[entry..entry + 10]) == Offset(objects, id - 1)
  {
    hide Utf8, FileText, BeforeTable, ByteDigits;
  }
}
