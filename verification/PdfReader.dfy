/** Reading an invoice file from its end: the table, the catalogue, the page tree, and every page's stream.
    The reader is the reference the built file is proved against; sections 7.5 and 7.7 of ISO 32000-1. */
module PdfReader {
  import opened Prelude
  import opened Strings
  import opened Decimals
  import opened Bytes
  import opened PdfFile
  import opened PdfBuild

  /** What follows the first occurrence of a key; nothing when there is none. */
  function After(bytes: seq<Byte>, key: seq<Byte>): seq<Byte> {
    if |bytes| < |key| then []
    else if bytes[..|key|] == key then bytes[|key|..]
    else After(bytes[1..], key)
  }

  /** The number the bytes begin with. */
  function Number(bytes: seq<Byte>): nat { ByteDigits(bytes[..RunEnd(bytes, 0)]) }

  function AfterNumber(bytes: seq<Byte>): seq<Byte> { bytes[RunEnd(bytes, 0)..] }

  /** The bytes from an object on, found through the table. */
  function ObjectBytes(file: seq<Byte>, id: nat): seq<Byte> {
    if Locate(file, id) <= |file| then file[Locate(file, id)..] else []
  }

  function TableBytes(file: seq<Byte>): seq<Byte> {
    if ReadStartXref(file) <= |file| then file[ReadStartXref(file)..] else []
  }

  function Space(): Byte { 32 }

  /** The references of a list: a number and two marks each, with spaces between. */
  function ReadReferences(bytes: seq<Byte>): seq<nat> {
    if bytes == [] || !IsDigitByte(bytes[0]) then []
    else
      var rest := AfterNumber(bytes);
      [Number(bytes)]
      + if |rest| > 4 && rest[..4] == Utf8(" 0 R") && rest[4] == Space() then ReadReferences(rest[5..]) else []
  }

  function ReadRoot(file: seq<Byte>): nat { Number(After(TableBytes(file), Utf8("/Root "))) }

  function ReadTree(file: seq<Byte>): nat { Number(After(ObjectBytes(file, ReadRoot(file)), Utf8("/Pages "))) }

  function ReadKids(file: seq<Byte>): seq<nat> {
    ReadReferences(After(ObjectBytes(file, ReadTree(file)), Utf8("/Kids [")))
  }

  function ReadContents(file: seq<Byte>, page: nat): nat { Number(After(ObjectBytes(file, page), Utf8("/Contents "))) }

  function ReadStream(file: seq<Byte>, id: nat): seq<Byte> {
    var sized := After(ObjectBytes(file, id), Utf8("/Length "));
    var stream := After(sized, Utf8("stream\n"));
    stream[..Min(Number(sized), |stream|)]
  }

  /** The streams of all pages, in page order. */
  function ReadPages(file: seq<Byte>): (streams: seq<seq<Byte>>)
    ensures |streams| == |ReadKids(file)|
    ensures forall j :: 0 <= j < |streams| ==> streams[j] == ReadStream(file, ReadContents(file, ReadKids(file)[j]))
  {
    var kids := ReadKids(file);
    seq(|kids|, j requires 0 <= j < |kids| => ReadStream(file, ReadContents(file, kids[j])))
  }

  // ----- Keys and numbers -----

  /** The key's first two bytes occur nowhere in the bytes, even with others after them. */
  ghost predicate Misses(bytes: seq<Byte>, key: seq<Byte>)
    requires |key| >= 2
  {
    forall k :: 0 <= k < |bytes| && bytes[k] == key[0] ==> k + 1 < |bytes| && bytes[k + 1] != key[1]
  }

  lemma {:induction false} SkipBytes(bytes: seq<Byte>, rest: seq<Byte>, key: seq<Byte>)
    requires |key| >= 2 && Misses(bytes, key)
    ensures After(bytes + rest, key) == After(rest, key)
  {
    if bytes == [] {
      assert bytes + rest == rest;
    } else {
      var all := bytes + rest;
      assert all[1..] == bytes[1..] + rest;
      SkipBytes(bytes[1..], rest, key);
      if |all| >= |key| {
        assert all[..|key|][0] == all[0] && all[..|key|][1] == all[1];
        assert all[0] == key[0] ==> all[1] == bytes[1];
      } else {
        assert |rest| < |key|;
      }
    }
  }

  lemma {:induction false} FoundBytes(key: seq<Byte>, rest: seq<Byte>)
    ensures After(key + rest, key) == rest
  {
    assert (key + rest)[..|key|] == key;
  }

  /** No character that starts the key has the key's second one after it, or stands last. */
  ghost predicate TextMisses(text: string, key: string)
    requires |key| >= 2
  {
    forall k :: 0 <= k < |text| && text[k] == key[0] ==> k + 1 < |text| && text[k + 1] != key[1]
  }

  /** Reading a key finds it behind a text that misses it. */
  lemma {:induction false} Seek(before: string, key: string, rest: seq<Byte>)
    requires |key| >= 2 && IsAscii(before) && IsAscii(key) && TextMisses(before, key)
    ensures After(Utf8(before) + (Utf8(key) + rest), Utf8(key)) == rest
  {
    hide Utf8, After;
    Utf8Ascii(before);
    Utf8Ascii(key);
    SkipBytes(Utf8(before), Utf8(key) + rest, Utf8(key));
    FoundBytes(Utf8(key), rest);
  }

  lemma {:induction false} NumberReads(n: nat, rest: seq<Byte>)
    requires rest != [] && !IsDigitByte(rest[0])
    ensures Number(Utf8(ToDecimal(n)) + rest) == n
    ensures AfterNumber(Utf8(ToDecimal(n)) + rest) == rest
  {
    hide Utf8, ToDecimal, RunEnd;
    var digits := Utf8(ToDecimal(n));
    DigitBytes(ToDecimal(n));
    DecimalRoundTrip(n);
    RunForwards(digits + rest, 0, |digits|);
    assert (digits + rest)[..|digits|] == digits && (digits + rest)[|digits|..] == rest;
  }

  lemma {:induction false} MissesTogether(a: string, b: string, key: string)
    requires |key| >= 2 && TextMisses(a, key) && TextMisses(b, key)
    ensures TextMisses(a + b, key)
  {}

  /** The key behind some text of an object, whatever follows the object. */
  lemma {:induction false} SeekText(text: string, before: string, key: string, after: string, tail: seq<Byte>)
    requires text == before + key + after
    requires |key| >= 2 && IsAscii(before) && IsAscii(key) && TextMisses(before, key)
    ensures After(Utf8(text) + tail, Utf8(key)) == Utf8(after) + tail
  {
    hide Utf8, After;
    ThreeParts(before, key, after);
    assert Utf8(text) + tail == Utf8(before) + (Utf8(key) + (Utf8(after) + tail));
    Seek(before, key, Utf8(after) + tail);
  }

  /** A number at the beginning of a text. */
  lemma {:induction false} NumberInText(n: nat, after: string, tail: seq<Byte>)
    requires after != [] && after[0] as int < 128 && !IsDigit(after[0])
    ensures Number(Utf8(ToDecimal(n) + after) + tail) == n
    ensures AfterNumber(Utf8(ToDecimal(n) + after) + tail) == Utf8(after) + tail
  {
    hide ToDecimal, Number, AfterNumber;
    Utf8Concat(ToDecimal(n), after);
    FirstByte(after);
    hide Utf8;
    assert Utf8(ToDecimal(n) + after) + tail == Utf8(ToDecimal(n)) + (Utf8(after) + tail);
    NumberReads(n, Utf8(after) + tail);
  }

  lemma {:induction false} FirstByte(s: string)
    requires s != [] && s[0] as int < 128
    ensures Utf8(s) != [] && Utf8(s)[0] == s[0] as int as Byte
  {
    if |s| > 1 {
      FirstByte(s[..|s| - 1]);
    }
  }

  lemma {:induction false} AsciiDecimal(n: nat)
    ensures IsAscii(ToDecimal(n))
    ensures forall k :: 0 <= k < |ToDecimal(n)| ==> ToDecimal(n)[k] != '/' && ToDecimal(n)[k] != 's'
  {}

  // ----- The objects of a built file -----

  /** The bytes from an object on begin with it. */
  lemma {:induction false} ObjectBegins(objects: seq<string>, id: nat) returns (tail: seq<Byte>)
    requires SmallOffsets(Offsets(objects)) && 1 <= id <= |objects|
    ensures ObjectBytes(Utf8(FileText(objects)), id) == Utf8(objects[id - 1]) + tail
  {
    hide Utf8, FileText, Locate, SmallOffsets, Offsets;
    TableFindsObjects(objects, id);
    var file, text := Utf8(FileText(objects)), objects[id - 1];
    var at := Locate(file, id);
    tail := file[at + ByteLength(text)..];
    assert file[at..] == file[at..at + ByteLength(text)] + tail;
  }

  /** The number behind a key in an object. */
  lemma {:induction false} NumberIn(objects: seq<string>, id: nat, before: string, key: string, n: nat, after: string)
    requires SmallOffsets(Offsets(objects)) && 1 <= id <= |objects|
    requires objects[id - 1] == before + key + (ToDecimal(n) + after)
    requires |key| >= 2 && IsAscii(before) && IsAscii(key) && TextMisses(before, key)
    requires after != [] && after[0] as int < 128 && !IsDigit(after[0])
    ensures Number(After(ObjectBytes(Utf8(FileText(objects)), id), Utf8(key))) == n
  {
    hide Utf8, FileText, After, Number, AfterNumber, ObjectBytes, SmallOffsets, Offsets, ToDecimal;
    var tail := ObjectBegins(objects, id);
    SeekText(objects[id - 1], before, key, ToDecimal(n) + after, tail);
    NumberInText(n, after, tail);
  }

  /** What an object's text begins with, and a little more, misses a name. */
  lemma {:induction false} MarkMisses(id: nat, more: string, key: string)
    requires |key| >= 2 && key[0] == '/' && IsAscii(more) && TextMisses(more, key)
    ensures TextMisses(ObjectMark(id) + more, key) && IsAscii(ObjectMark(id) + more)
  {
    AsciiDecimal(id);
    hide ToDecimal;
    assert TextMisses(ObjectMark(id), key);
    MissesTogether(ObjectMark(id), more, key);
  }

  /** What follows the reference that ends an object. */
  function ReferenceEnd(): (s: string)
    ensures s != [] && s[0] == ' '
  {
    " 0 R >>" + "\nendobj\n"
  }

  lemma {:induction false} TreeReads(objects: seq<string>)
    requires SmallOffsets(Offsets(objects)) && |objects| >= 1 && objects[0] == CatalogText()
    ensures Number(After(ObjectBytes(Utf8(FileText(objects)), 1), Utf8("/Pages "))) == 2
  {
    MarkMisses(1, CatalogStart(), "/Pages ");
    CatalogParts();
    hide ToDecimal, CatalogText, CatalogStart, ObjectMark, ReferenceEnd;
    NumberIn(objects, 1, ObjectMark(1) + CatalogStart(), "/Pages ", 2, ReferenceEnd());
  }

  function CatalogStart(): string { "<< /Type /Catalog " }

  lemma {:induction false} CatalogParts()
    ensures CatalogText() == (ObjectMark(1) + CatalogStart()) + "/Pages " + (ToDecimal(2) + ReferenceEnd())
  {
    assert ToDecimal(2) == "2";
    hide ObjectMark;
    assert "<< /Type /Catalog /Pages 2 0 R >>" == CatalogStart() + "/Pages " + "2" + " 0 R >>";
  }

  // ----- The list of pages -----

  lemma {:induction false} JoinFront(parts: seq<string>, sep: string)
    requires |parts| >= 2
    ensures Join(parts, sep) == parts[0] + sep + Join(parts[1..], sep)
  {
    var n := |parts| - 1;
    if n > 1 {
      JoinFront(parts[..n], sep);
      assert parts[..n][1..] == parts[1..][..n - 1];
    } else {
      assert Join(parts[..1], sep) == parts[0];
    }
  }

  lemma {:induction false} ReferencesFront(ids: seq<nat>)
    requires ids != []
    ensures Join(References(ids), " ")
         == ToDecimal(ids[0]) + " 0 R" + (if |ids| == 1 then "" else " " + Join(References(ids[1..]), " "))
  {
    hide ToDecimal;
    if |ids| > 1 {
      assert References(ids)[1..] == References(ids[1..]);
      JoinFront(References(ids), " ");
    }
  }

  lemma {:induction false} MarkBytes()
    ensures |Utf8(" 0 R")| == 4 && Utf8(" 0 R")[0] == Space()
    ensures Utf8(" ") == [Space()]
  {
    Utf8Ascii(" 0 R");
    Utf8Ascii(" ");
  }

  /** One reference, and whether another follows. */
  lemma {:induction false} OneReferenceRead(n: nat, tail: seq<Byte>)
    requires tail != []
    ensures ReadReferences(Utf8(ToDecimal(n)) + (Utf8(" 0 R") + tail))
         == [n] + (if tail[0] == Space() then ReadReferences(tail[1..]) else [])
  {
    hide ToDecimal, Utf8, Number, AfterNumber;
    MarkBytes();
    var after := Utf8(" 0 R") + tail;
    NumberReads(n, after);
    LeadingDigit(n, after);
    assert after[..4] == Utf8(" 0 R") && after[5..] == tail[1..] && after[4] == tail[0];
  }

  /** The references read back as the numbers they were written from. */
  lemma {:induction false} ReferencesRead(ids: seq<nat>, rest: seq<Byte>)
    requires rest != [] && !IsDigitByte(rest[0]) && rest[0] != Space()
    ensures ReadReferences(Utf8(Join(References(ids), " ")) + rest) == ids
  {
    hide ToDecimal, Utf8, Join;
    if ids == [] {
      NoReferences();
      assert [] + rest == rest;
    } else {
      hide ReadReferences;
      MarkBytes();
      ReferenceBytes(ids);
      var first := Utf8(ToDecimal(ids[0]));
      if |ids| == 1 {
        assert first + (Utf8(" 0 R") + []) + rest == first + (Utf8(" 0 R") + rest);
        OneReferenceRead(ids[0], rest);
        assert [ids[0]] == ids;
      } else {
        var more := Utf8(Join(References(ids[1..]), " "));
        var tail := [Space()] + (more + rest);
        assert first + (Utf8(" 0 R") + ([Space()] + more)) + rest == first + (Utf8(" 0 R") + tail);
        OneReferenceRead(ids[0], tail);
        assert tail[1..] == more + rest;
        ReferencesRead(ids[1..], rest);
        assert ids == [ids[0]] + ids[1..];
      }
    }
  }

  lemma {:induction false} NoReferences()
    ensures Utf8(Join(References([]), " ")) == []
  {}

  lemma {:induction false} ReferenceBytes(ids: seq<nat>)
    requires ids != []
    ensures Utf8(Join(References(ids), " "))
         == Utf8(ToDecimal(ids[0])) + (Utf8(" 0 R")
            + (if |ids| == 1 then [] else Utf8(" ") + Utf8(Join(References(ids[1..]), " "))))
  {
    hide ToDecimal, Join, Utf8;
    ReferencesFront(ids);
    if |ids| == 1 {
      Utf8Concat(ToDecimal(ids[0]), " 0 R");
      assert ToDecimal(ids[0]) + " 0 R" + "" == ToDecimal(ids[0]) + " 0 R";
      assert Utf8(" 0 R") + [] == Utf8(" 0 R");
    } else {
      MoreReferenceBytes(ToDecimal(ids[0]), Join(References(ids[1..]), " "));
    }
  }

  lemma {:induction false} MoreReferenceBytes(digits: string, more: string)
    ensures Utf8(digits + " 0 R" + (" " + more)) == Utf8(digits) + (Utf8(" 0 R") + (Utf8(" ") + Utf8(more)))
  {
    hide Utf8;
    Utf8Concat(" ", more);
    ThreeParts(digits, " 0 R", " " + more);
  }

  lemma {:induction false} LeadingDigit(n: nat, rest: seq<Byte>)
    ensures var bytes := Utf8(ToDecimal(n)) + rest; bytes != [] && IsDigitByte(bytes[0])
  {
    DigitBytes(ToDecimal(n));
  }

  lemma {:induction false} KidsRead(objects: seq<string>, pageIds: seq<nat>)
    requires SmallOffsets(Offsets(objects)) && |objects| >= 2 && objects[1] == TreeText(pageIds)
    ensures ReadReferences(After(ObjectBytes(Utf8(FileText(objects)), 2), Utf8("/Kids ["))) == pageIds
  {
    hide ToDecimal, Utf8, FileText, After, ObjectBytes, SmallOffsets, Offsets, Join, ObjectMark, ReadReferences, References;
    var before, kids := ObjectMark(2) + "<< /Type /Pages ", Join(References(pageIds), " ");
    var end := "] /Count " + ToDecimal(|pageIds|) + " >>" + "\nendobj\n";
    TreeMisses();
    TreeParts(pageIds);
    var tail := ObjectBegins(objects, 2);
    SeekText(objects[1], before, "/Kids [", kids + end, tail);
    Utf8Concat(kids, end);
    FirstByte(end);
    assert Utf8(kids + end) + tail == Utf8(kids) + (Utf8(end) + tail);
    ReferencesRead(pageIds, Utf8(end) + tail);
  }

  lemma {:induction false} TreeMisses()
    ensures IsAscii("/Kids [") && TextMisses(ObjectMark(2) + "<< /Type /Pages ", "/Kids [")
    ensures IsAscii(ObjectMark(2) + "<< /Type /Pages ")
  {
    MarkMisses(2, "<< /Type /Pages ", "/Kids [");
  }

  lemma {:induction false} TreeParts(pageIds: seq<nat>)
    ensures TreeText(pageIds)
         == (ObjectMark(2) + "<< /Type /Pages ") + "/Kids ["
            + (Join(References(pageIds), " ") + ("] /Count " + ToDecimal(|pageIds|) + " >>" + "\nendobj\n"))
  {
    hide ObjectMark, ToDecimal, Join, References;
    assert "<< /Type /Pages /Kids [" == "<< /Type /Pages " + "/Kids [";
  }

  // ----- A page and its stream -----

  function PageStart(): string { PageHead() + MediaBox() + Resources() + " " }

  lemma {:induction false} PageHeadMisses()
    ensures IsAscii(PageHead()) && TextMisses(PageHead(), "/Contents ")
  {}

  lemma {:induction false} MediaBoxMisses()
    ensures IsAscii(MediaBox()) && TextMisses(MediaBox(), "/Contents ")
  {}

  lemma {:induction false} FontNamesMiss()
    ensures IsAscii(FontNames()) && TextMisses(FontNames(), "/Contents ")
  {}

  lemma {:induction false} ResourcesMiss()
    ensures IsAscii(Resources()) && TextMisses(Resources(), "/Contents ")
  {
    FontNamesMiss();
    hide FontNames;
    assert TextMisses(" /Resources << /Font <<", "/Contents ");
    MissesTogether(" /Resources << /Font <<", FontNames(), "/Contents ");
    MissesTogether(" /Resources << /Font <<" + FontNames(), " >> >>", "/Contents ");
  }

  lemma {:induction false} PageStartMisses()
    ensures IsAscii(PageStart()) && TextMisses(PageStart(), "/Contents ")
  {
    PageHeadMisses();
    MediaBoxMisses();
    ResourcesMiss();
    hide PageHead, MediaBox, Resources;
    MissesTogether(PageHead(), MediaBox(), "/Contents ");
    MissesTogether(PageHead() + MediaBox(), Resources(), "/Contents ");
    MissesTogether(PageHead() + MediaBox() + Resources(), " ", "/Contents ");
  }

  lemma {:induction false} PageParts(id: nat, contentId: nat)
    ensures PageText(id, contentId)
         == (ObjectMark(id) + PageStart()) + "/Contents " + (ToDecimal(contentId) + ReferenceEnd())
  {
    hide ObjectMark, ToDecimal, PageHead, MediaBox, Resources;
    var page := PageHead() + MediaBox() + Resources();
    assert " /Contents " == " " + "/Contents ";
    assert " 0 R >>" == " 0 R" + " >>";
    assert PageText(id, contentId)
        == ObjectMark(id) + (page + " /Contents " + (ToDecimal(contentId) + " 0 R") + " >>") + "\nendobj\n";
  }

  lemma {:induction false} ContentsRead(objects: seq<string>, id: nat, contentId: nat)
    requires SmallOffsets(Offsets(objects)) && 1 <= id <= |objects| && objects[id - 1] == PageText(id, contentId)
    ensures Number(After(ObjectBytes(Utf8(FileText(objects)), id), Utf8("/Contents "))) == contentId
  {
    PageStartMisses();
    hide ToDecimal, PageStart, ObjectMark, PageText, ReferenceEnd;
    PageParts(id, contentId);
    MarkMisses(id, PageStart(), "/Contents ");
    NumberIn(objects, id, ObjectMark(id) + PageStart(), "/Contents ", contentId, ReferenceEnd());
  }

  function StreamEnd(): string { "\nendstream" + "\nendobj\n" }

  lemma {:induction false} ContentParts(id: nat, stream: string)
    ensures var after := " >>\n" + "stream\n" + (stream + StreamEnd());
      ContentText(id, stream) == (ObjectMark(id) + "<< ") + "/Length " + (ToDecimal(ByteLength(stream)) + after)
  {
    hide ObjectMark, ToDecimal, ByteLength;
    assert "<< /Length " == "<< " + "/Length ";
    assert " >>\nstream\n" == " >>\n" + "stream\n";
  }

  lemma {:induction false} StreamReads(objects: seq<string>, id: nat, stream: string)
    requires SmallOffsets(Offsets(objects)) && 1 <= id <= |objects| && objects[id - 1] == ContentText(id, stream)
    ensures ReadStream(Utf8(FileText(objects)), id) == Utf8(stream)
  {
    hide ToDecimal, Utf8, FileText, After, ObjectBytes, SmallOffsets, Offsets, ObjectMark, ContentText, Number, StreamEnd;
    var n, body := ByteLength(stream), stream + StreamEnd();
    var after := " >>\n" + "stream\n" + body;
    MarkMisses(id, "<< ", "/Length ");
    ContentParts(id, stream);
    var tail := ObjectBegins(objects, id);
    SeekText(objects[id - 1], ObjectMark(id) + "<< ", "/Length ", ToDecimal(n) + after, tail);
    NumberInText(n, after, tail);
    AsciiDecimal(n);
    assert ToDecimal(n) + after == (ToDecimal(n) + " >>\n") + "stream\n" + body;
    SeekText(ToDecimal(n) + after, ToDecimal(n) + " >>\n", "stream\n", body, tail);
    Utf8Concat(stream, StreamEnd());
    assert Utf8(body) + tail == Utf8(stream) + (Utf8(StreamEnd()) + tail);
  }

  // ----- From the end of the file to every stream -----

  /** The table's entries have no slash. */
  lemma {:induction false} EntriesMiss(offsets: seq<nat>)
    ensures Clear(XrefEntries(offsets), "/Root ")
  {
    if offsets != [] {
      var n := |offsets| - 1;
      EntriesMiss(offsets[..n]);
      EntryMisses(offsets[n]);
      hide XrefEntry;
      MissesTogether(XrefEntries(offsets[..n]), XrefEntry(offsets[n]), "/Root ");
    }
  }

  lemma {:induction false} EntryMisses(offset: nat)
    ensures IsAscii(XrefEntry(offset)) && TextMisses(XrefEntry(offset), "/Root ")
  {
    AsciiDecimal(offset);
    hide ToDecimal;
    assert TextMisses(EntryEnd(), "/Root ");
    MissesTogether(PadStart(offset), EntryEnd(), "/Root ");
  }

  /** What stands between the body and the root's reference. */
  function BeforeRoot(objects: seq<string>): string {
    XrefHeader(|objects|) + FreeEntry() + XrefEntries(Offsets(objects)) + SizeStart() + ToDecimal(|objects| + 1) + " "
  }

  ghost predicate Clear(text: string, key: string)
    requires |key| >= 2
  {
    IsAscii(text) && TextMisses(text, key)
  }

  lemma {:induction false} ClearTogether(a: string, b: string, key: string)
    requires |key| >= 2 && Clear(a, key) && Clear(b, key)
    ensures Clear(a + b, key)
  {
    MissesTogether(a, b, key);
  }

  lemma {:induction false} RootMisses(objects: seq<string>)
    ensures Clear(BeforeRoot(objects), "/Root ") && IsAscii("/Root ")
  {
    var digits, header, entries := ToDecimal(|objects| + 1), XrefHeader(|objects|), XrefEntries(Offsets(objects));
    AsciiDecimal(|objects| + 1);
    assert Clear(digits, "/Root ");
    EntriesMiss(Offsets(objects));
    FixedClear();
    hide ToDecimal, XrefEntries, FreeEntry, SizeStart, XrefStart, LineEnd, Offsets, Clear;
    ClearTogether(XrefStart(), digits, "/Root ");
    ClearTogether(XrefStart() + digits, LineEnd(), "/Root ");
    assert header == XrefStart() + digits + LineEnd();
    hide XrefHeader;
    ClearTogether(header, FreeEntry(), "/Root ");
    ClearTogether(header + FreeEntry(), entries, "/Root ");
    ClearTogether(header + FreeEntry() + entries, SizeStart(), "/Root ");
    ClearTogether(header + FreeEntry() + entries + SizeStart(), digits, "/Root ");
    ClearTogether(header + FreeEntry() + entries + SizeStart() + digits, " ", "/Root ");
  }

  lemma {:induction false} FixedClear()
    ensures Clear(XrefStart(), "/Root ") && Clear(LineEnd(), "/Root ") && Clear(" ", "/Root ")
    ensures Clear(FreeEntry(), "/Root ") && Clear(SizeStart(), "/Root ")
  {}

  lemma {:induction false} SizeEndParts()
    ensures SizeEnd() == " " + "/Root " + (ToDecimal(1) + RootEnd())
  {
    hide RootEnd;
    assert ToDecimal(1) == "1";
    assert " /Root " == " " + "/Root ";
  }

  lemma {:induction false} RegroupTrailer(
    body: string, a: string, b: string, c: string, d: string, size: string, space: string, key: string, root: string,
    digits: string, end: string)
    ensures body + a + b + c + (d + size + (space + key + root) + digits + end)
         == body + ((a + b + c + d + size + space) + key + (root + digits + end))
  {}

  lemma {:induction false} TrailerParts(objects: seq<string>)
    ensures FileText(objects)
         == Body(objects)
            + (BeforeRoot(objects) + "/Root " + (ToDecimal(1) + RootEnd() + ToDecimal(ByteLength(Body(objects))) + EndMarker()))
  {
    SizeEndParts();
    hide Body, XrefHeader, FreeEntry, XrefEntries, Offsets, SizeStart, SizeEnd, ToDecimal, RootEnd, EndMarker, ByteLength;
    RegroupTrailer(Body(objects), XrefHeader(|objects|), FreeEntry(), XrefEntries(Offsets(objects)),
      SizeStart(), ToDecimal(|objects| + 1), " ", "/Root ", ToDecimal(1) + RootEnd(),
      ToDecimal(ByteLength(Body(objects))), EndMarker());
  }

  /** The trailer names object 1 as the root. */
  lemma {:induction false} RootReads(objects: seq<string>)
    ensures ReadRoot(Utf8(FileText(objects))) == 1
  {
    var digits := ToDecimal(ByteLength(Body(objects)));
    var end := RootEnd() + digits + EndMarker();
    TrailerParts(objects);
    RootMisses(objects);
    StartXrefCorrect(objects);
    hide Utf8, FileText, Body, BeforeRoot, ToDecimal, RootEnd, EndMarker, ReadStartXref, ReadRoot, XrefStart;
    assert ToDecimal(1) + RootEnd() + digits + EndMarker() == ToDecimal(1) + end;
    RootAfter(Utf8(FileText(objects)), Body(objects), BeforeRoot(objects), end);
  }

  lemma {:induction false} RootAfter(file: seq<Byte>, body: string, before: string, end: string)
    requires file == Utf8(body + (before + "/Root " + (ToDecimal(1) + end)))
    requires ReadStartXref(file) == ByteLength(body)
    requires Clear(before, "/Root ") && IsAscii("/Root ") && end != [] && end[0] == ' '
    ensures ReadRoot(file) == 1
  {
    hide Utf8, ToDecimal, ReadStartXref, After, Number;
    var rest := before + "/Root " + (ToDecimal(1) + end);
    Utf8Concat(body, rest);
    assert TableBytes(file) == Utf8(rest) + [];
    SeekText(rest, before, "/Root ", ToDecimal(1) + end, []);
    NumberInText(1, end, []);
  }

  /** A reader that follows a built file from its end, over the trailer, the table, the catalogue and the page tree,
      gets back the stream of every page, in order. */
  lemma {:induction false} PagesReadBack(streams: seq<string>)
    requires SmallOffsets(Offsets(Objects(streams)))
    ensures var file := Utf8(FileText(Objects(streams)));
      && ReadKids(file) == PageIds(|streams|)
      && |ReadPages(file)| == |streams|
      && forall j :: 0 <= j < |streams| ==> ReadPages(file)[j] == Utf8(streams[j])
  {
    var objects := Objects(streams);
    FirstObjects(streams);
    hide Utf8, FileText, SmallOffsets, Offsets, Objects, CatalogText, TreeText, ReadRoot, ReadReferences, ReadStream;
    hide PageText, ContentText, Number, After, ObjectBytes, ReadPages;
    var file := Utf8(FileText(objects));
    RootReads(objects);
    TreeReads(objects);
    KidsRead(objects, PageIds(|streams|));
    forall j | 0 <= j < |streams|
      ensures ReadPages(file)[j] == Utf8(streams[j])
    {
      ReferencesMeet(streams, j);
      var kid := PageIds(|streams|)[j];
      ContentsRead(objects, kid, kid + 1);
      StreamReads(objects, kid + 1, streams[j]);
    }
  }

  lemma {:induction false} FirstObjects(streams: seq<string>)
    ensures Objects(streams)[0] == CatalogText() && Objects(streams)[1] == TreeText(PageIds(|streams|))
  {}
}
