/** The objects of an invoice file: catalogue, page tree, fonts, and a page and a content stream per page.
    Models build of the invoice builder, for any content streams. */
module PdfBuild {
  import opened Prelude
  import opened Strings
  import opened Decimals
  import opened Bytes
  import opened PdfFile

  /** What object number `id` starts with. */
  function ObjectMark(id: nat): string { ToDecimal(id) + " 0 obj\n" }

  /** Object number `id` with what stands between its marks. */
  function ObjectText(id: nat, inner: string): (text: string)
    ensures ObjectMark(id) <= text
  {
    ObjectMark(id) + inner + "\nendobj\n"
  }

  function Reference(id: nat): string { ToDecimal(id) + " 0 R" }

  function References(ids: seq<nat>): (texts: seq<string>)
    ensures |texts| == |ids|
    ensures forall k :: 0 <= k < |ids| ==> texts[k] == Reference(ids[k])
  {
    seq(|ids|, k requires 0 <= k < |ids| => Reference(ids[k]))
  }

  function CatalogText(): string { ObjectText(1, "<< /Type /Catalog /Pages 2 0 R >>") }

  function TreeText(pageIds: seq<nat>): string {
    ObjectText(2, "<< /Type /Pages /Kids [" + Join(References(pageIds), " ") + "] /Count " + ToDecimal(|pageIds|) + " >>")
  }

  function FontText(id: nat, name: string): string {
    ObjectText(id, "<< /Type /Font /Subtype /Type1 /BaseFont /" + name + " >>")
  }

  function PageHead(): string { "<< /Type /Page /Parent 2 0 R" }

  function MediaBox(): string { " /MediaBox [0 0 595 842]" }

  function FontNames(): string { " /F1 3 0 R /F2 4 0 R" }

  function Resources(): string { " /Resources << /Font <<" + FontNames() + " >> >>" }

  function PageText(id: nat, contentId: nat): string {
    ObjectText(id, PageHead() + MediaBox() + Resources() + " /Contents " + Reference(contentId) + " >>")
  }

  function ContentText(id: nat, stream: string): string {
    ObjectText(id, "<< /Length " + ToDecimal(ByteLength(stream)) + " >>\nstream\n" + stream + "\nendstream")
  }

  /** The numbers of the first n pages. */
  function PageIds(n: nat): (ids: seq<nat>)
    ensures |ids| == n && forall j :: 0 <= j < n ==> ids[j] == 5 + 2 * j
  {
    seq(n, j requires 0 <= j < n => 5 + 2 * j)
  }

  /** Pages and contents take turns. */
  function PageObject(streams: seq<string>, k: nat): string
    requires k < 2 * |streams|
  {
    if k % 2 == 0 then PageText(5 + k, 6 + k) else ContentText(5 + k, streams[k / 2])
  }

  function PageObjects(streams: seq<string>): (objects: seq<string>)
    ensures |objects| == 2 * |streams|
  {
    seq(2 * |streams|, k requires 0 <= k < 2 * |streams| => PageObject(streams, k))
  }

  function Objects(streams: seq<string>): (objects: seq<string>)
    ensures |objects| == 4 + 2 * |streams|
  {
    [CatalogText(), TreeText(PageIds(|streams|)), FontText(3, "Helvetica"), FontText(4, "Helvetica-Bold")] + PageObjects(streams)
  }

  method BuildObjects(streams: seq<string>) returns (objects: seq<string>)
    ensures objects == Objects(streams)
  {
    hide ObjectText, TreeText, PageText, ContentText, FontText, CatalogText;
    var pageObjectIds: seq<nat> := [];
    objects := [CatalogText(), TreeText([]), FontText(3, "Helvetica"), FontText(4, "Helvetica-Bold")];
    ghost var head := objects;
    for index := 0 to |streams|
      invariant pageObjectIds == PageIds(index)
      invariant objects == head + PageObjects(streams[..index])
    {
      PageObjectsMore(streams, index);
      var pageId := |objects| + 1;
      var contentId := pageId + 1;
      pageObjectIds := pageObjectIds + [pageId];
      objects := objects + [PageText(pageId, contentId)];
      objects := objects + [ContentText(contentId, streams[index])];
    }
    assert streams[..|streams|] == streams;
    objects := objects[1 := TreeText(pageObjectIds)];
  }

  method Build(streams: seq<string>) returns (file: seq<Byte>)
    ensures file == Utf8(FileText(Objects(streams)))
  {
    var objects := BuildObjects(streams);
    file := Serialize(objects);
  }

  /** One more page is two more objects. */
  lemma {:induction false} PageObjectsMore(streams: seq<string>, n: nat)
    requires n < |streams|
    ensures PageObjects(streams[..n + 1])
         == PageObjects(streams[..n]) + [PageText(5 + 2 * n, 6 + 2 * n), ContentText(6 + 2 * n, streams[n])]
  {
    hide PageText, ContentText;
    forall k: nat | k < 2 * n
      ensures PageObject(streams[..n + 1], k) == PageObject(streams[..n], k)
    {}
  }

  /** The object at list position k carries number k + 1. */
  lemma {:induction false} ObjectsNumbered(streams: seq<string>, k: nat)
    requires k < |Objects(streams)|
    ensures ObjectMark(k + 1) <= Objects(streams)[k]
  {
    if k < 4 {
      FirstObjectsMarked(streams, k);
    } else {
      PageObjectMarked(streams, k - 4);
      hide ObjectMark, PageObject, CatalogText, TreeText, FontText;
      assert Objects(streams)[k] == PageObject(streams, k - 4);
    }
  }

  lemma {:induction false} FirstObjectsMarked(streams: seq<string>, k: nat)
    requires k < 4
    ensures ObjectMark(k + 1) <= Objects(streams)[k]
  {
    hide ObjectMark, ObjectText, PageObjects;
  }

  lemma {:induction false} PageObjectMarked(streams: seq<string>, k: nat)
    requires k < 2 * |streams|
    ensures ObjectMark(5 + k) <= PageObject(streams, k)
  {
    hide ObjectMark, ObjectText;
  }

  /** The page tree lists exactly the pages in order, and each page's contents are the object after it, which holds
      that page's stream with its length in bytes. */
  lemma {:induction false} ReferencesMeet(streams: seq<string>, j: nat)
    requires j < |streams|
    ensures Objects(streams)[1] == TreeText(PageIds(|streams|))
    ensures var kid := PageIds(|streams|)[j];
      && kid + 1 <= |Objects(streams)|
      && Objects(streams)[kid - 1] == PageText(kid, kid + 1)
      && Objects(streams)[kid] == ContentText(kid + 1, streams[j])
  {
    hide CatalogText, TreeText, FontText, PageText, ContentText;
    assert Objects(streams)[4 + 2 * j] == PageObject(streams, 2 * j);
    assert Objects(streams)[5 + 2 * j] == PageObject(streams, 2 * j + 1);
  }

  /** Following the table of the built file from a kid of the page tree reaches that page, and from the page's contents
      reference its stream. */
  lemma {:induction false} KidsLeadToStreams(streams: seq<string>, j: nat)
    requires SmallOffsets(Offsets(Objects(streams))) && j < |streams|
    ensures var file, kid := Utf8(FileText(Objects(streams))), PageIds(|streams|)[j];
      && StandsAt(file, Locate(file, kid), PageText(kid, kid + 1))
      && StandsAt(file, Locate(file, kid + 1), ContentText(kid + 1, streams[j]))
  {
    hide *;
    ReferencesMeet(streams, j);
    var kid := PageIds(|streams|)[j];
    TableFindsObjects(Objects(streams), kid);
    TableFindsObjects(Objects(streams), kid + 1);
  }
}
