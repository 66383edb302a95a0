/** Distributing invoice lines over pages and placing them on a page.
    Models paginate and the vertical positions of buildPageStream. */
module PdfPages {

  datatype Style = Heading | Subheading | Normal | Small

  datatype Line =
    | TextLine(text: string, style: Style)
    | TableRow(cells: seq<string>, header: bool)
    | KeyValue(caption: string, value: string)
    | PageBreak

  const PAGE_HEIGHT := 842
  const HEADER_HEIGHT := 92
  const CONTENT_TOP := PAGE_HEIGHT - HEADER_HEIGHT - 32
  const BOTTOM := 54

  function LineHeight(line: Line): nat {
    match line
    case PageBreak => 0
    case TableRow(_, _) => 18
    case KeyValue(_, _) => 15
    case TextLine(_, style) => if style == Heading then 22 else if style == Subheading then 18 else 14
  }

  function Height(lines: seq<Line>): nat {
    if lines == [] then 0 else Height(lines[..|lines| - 1]) + LineHeight(lines[|lines| - 1])
  }

  // ----- Pagination -----

  /** The pages so far and where the next line would go. */
  datatype Layout = Layout(pages: seq<seq<Line>>, y: int)

  function AddTo(pages: seq<seq<Line>>, line: Line): seq<seq<Line>>
    requires pages != []
  {
    pages[..|pages| - 1] + [pages[|pages| - 1] + [line]]
  }

  function LayOut(lines: seq<Line>): (layout: Layout)
    ensures layout.pages != []
  {
    if lines == [] then Layout([[]], CONTENT_TOP)
    else
      var before, line := LayOut(lines[..|lines| - 1]), lines[|lines| - 1];
      var last := before.pages[|before.pages| - 1];
      if line.PageBreak? then
        Layout(if last != [] then before.pages + [[]] else before.pages, CONTENT_TOP)
      else if before.y < BOTTOM then
        Layout(AddTo(before.pages + [[]], line), CONTENT_TOP - LineHeight(line))
      else
        Layout(AddTo(before.pages, line), before.y - LineHeight(line))
  }

  method Paginate(lines: seq<Line>) returns (pages: seq<seq<Line>>)
    ensures pages == LayOut(lines).pages
  {
    pages := [[]];
    var y := CONTENT_TOP;
    for i := 0 to |lines|
      invariant Layout(pages, y) == LayOut(lines[..i])
    {
      assert lines[..i + 1][..i] == lines[..i];
      var line := lines[i];
      if line.PageBreak? {
        if |pages[|pages| - 1]| > 0 {
          pages := pages + [[]];
        }
        y := CONTENT_TOP;
      } else {
        if y < BOTTOM {
          pages := pages + [[]];
          y := CONTENT_TOP;
        }
        pages := pages[..|pages| - 1] + [pages[|pages| - 1] + [line]];
        y := y - LineHeight(line);
      }
    }
    assert lines[..|lines|] == lines;
  }

  // ----- What the pages hold -----

  function AllLines(pages: seq<seq<Line>>): seq<Line> {
    if pages == [] then [] else AllLines(pages[..|pages| - 1]) + pages[|pages| - 1]
  }

  function WithoutBreaks(lines: seq<Line>): seq<Line> {
    if lines == [] then []
    else WithoutBreaks(lines[..|lines| - 1]) + (if lines[|lines| - 1].PageBreak? then [] else [lines[|lines| - 1]])
  }

  lemma {:induction false} AllLinesSnoc(pages: seq<seq<Line>>, page: seq<Line>)
    ensures AllLines(pages + [page]) == AllLines(pages) + page
  {
    assert (pages + [page])[..|pages|] == pages;
  }

  lemma {:induction false} AllLinesAddTo(pages: seq<seq<Line>>, line: Line)
    requires pages != []
    ensures AllLines(AddTo(pages, line)) == AllLines(pages) + [line]
  {
    var front, last := pages[..|pages| - 1], pages[|pages| - 1];
    assert pages == front + [last];
    AllLinesSnoc(front, last);
    AllLinesSnoc(front, last + [line]);
  }

  /** Where line k of a page is drawn. */
  function Baseline(page: seq<Line>, k: nat): int
    requires k <= |page|
  {
    CONTENT_TOP - Height(page[..k])
  }

  /** No line of the page is drawn below the bottom margin. */
  ghost predicate StaysAbove(page: seq<Line>) {
    forall k :: 0 <= k < |page| ==> Baseline(page, k) >= BOTTOM
  }

  ghost predicate PagesStayAbove(pages: seq<seq<Line>>) {
    forall p :: 0 <= p < |pages| ==> StaysAbove(pages[p])
  }

  ghost predicate OnlyLastEmpty(pages: seq<seq<Line>>) {
    forall p :: 0 <= p < |pages| - 1 ==> pages[p] != []
  }

  /** A page is full when nothing more fits above the margin. */
  ghost predicate FullButLast(pages: seq<seq<Line>>) {
    forall p :: 0 <= p < |pages| - 1 ==> Baseline(pages[p], |pages[p]|) < BOTTOM
  }

  lemma {:induction false} StaysAboveSnoc(page: seq<Line>, line: Line)
    requires StaysAbove(page) && Baseline(page, |page|) >= BOTTOM
    ensures StaysAbove(page + [line])
    ensures Baseline(page + [line], |page| + 1) == Baseline(page, |page|) - LineHeight(line)
  {
    var more := page + [line];
    assert page[..|page|] == page && more[..|page| + 1] == more && more[..|page|] == page;
    forall k | 0 <= k < |more|
      ensures Baseline(more, k) >= BOTTOM
    {
      assert more[..k] == page[..k];
      assert Baseline(more, k) == Baseline(page, k);
    }
  }

  function LastPage(pages: seq<seq<Line>>): seq<Line>
    requires pages != []
  {
    pages[|pages| - 1]
  }

  /** The pages hold these lines; only the last can be empty; no line is below the margin; and the next position is
      where drawing the last page would have ended. */
  ghost predicate LaysOut(layout: Layout, shown: seq<Line>) {
    && layout.pages != []
    && AllLines(layout.pages) == shown
    && OnlyLastEmpty(layout.pages)
    && PagesStayAbove(layout.pages)
    && layout.y == Baseline(LastPage(layout.pages), |LastPage(layout.pages)|)
  }

  lemma {:induction false} NewPage(layout: Layout, shown: seq<Line>)
    requires LaysOut(layout, shown) && LastPage(layout.pages) != []
    ensures LaysOut(Layout(layout.pages + [[]], CONTENT_TOP), shown)
  {
    AllLinesSnoc(layout.pages, []);
    assert shown + [] == shown;
    assert Height([]) == 0;
  }

  lemma {:induction false} NextLine(layout: Layout, shown: seq<Line>, line: Line)
    requires LaysOut(layout, shown) && layout.y >= BOTTOM
    ensures LaysOut(Layout(AddTo(layout.pages, line), layout.y - LineHeight(line)), shown + [line])
  {
    hide Baseline, AllLines;
    AddLine(layout.pages, line);
  }

  lemma {:induction false} EmptyPageTop(layout: Layout, shown: seq<Line>)
    requires LaysOut(layout, shown)
    ensures LastPage(layout.pages) == [] ==> layout.y == CONTENT_TOP
  {}

  lemma {:induction false} FirstPage()
    ensures LaysOut(Layout([[]], CONTENT_TOP), [])
  {
    assert [] + [[]] == Layout([[]], CONTENT_TOP).pages;
    AllLinesSnoc([], []);
  }

  /** The pages concatenate to the lines without page breaks; only the last page can be empty; and pagination's
      positions are those of drawing, never below the margin. */
  lemma {:induction false} LayOutCorrect(lines: seq<Line>)
    ensures LaysOut(LayOut(lines), WithoutBreaks(lines))
  {
    if lines == [] {
      FirstPage();
    } else {
      var front := lines[..|lines| - 1];
      var before, line, shown := LayOut(front), lines[|lines| - 1], WithoutBreaks(front);
      LayOutCorrect(front);
      EmptyPageTop(before, shown);
      assert LastPage(before.pages) == before.pages[|before.pages| - 1];
      if line.PageBreak? {
        assert WithoutBreaks(lines) == shown;
        hide LaysOut;
        if LastPage(before.pages) != [] {
          NewPage(before, shown);
        }
      } else {
        assert WithoutBreaks(lines) == shown + [line];
        hide LaysOut;
        if before.y < BOTTOM {
          NewPage(before, shown);
          NextLine(Layout(before.pages + [[]], CONTENT_TOP), shown, line);
        } else {
          NextLine(before, shown, line);
        }
      }
    }
  }

  /** Adding a line that fits keeps the pages in order. */
  lemma {:induction false} AddLine(pages: seq<seq<Line>>, line: Line)
    requires pages != [] && OnlyLastEmpty(pages) && PagesStayAbove(pages)
    requires Baseline(pages[|pages| - 1], |pages[|pages| - 1]|) >= BOTTOM
    ensures var added := AddTo(pages, line);
      && OnlyLastEmpty(added) && PagesStayAbove(added)
      && AllLines(added) == AllLines(pages) + [line]
      && Baseline(added[|added| - 1], |added[|added| - 1]|)
         == Baseline(pages[|pages| - 1], |pages[|pages| - 1]|) - LineHeight(line)
  {
    hide Baseline;
    AllLinesAddTo(pages, line);
    StaysAboveSnoc(pages[|pages| - 1], line);
  }

  /** Without page breaks in the input, a page is left only when it is full. */
  lemma {:induction false} PagesAreFull(lines: seq<Line>)
    requires forall k :: 0 <= k < |lines| ==> !lines[k].PageBreak?
    ensures FullButLast(LayOut(lines).pages)
  {
    if lines != [] {
      var before := LayOut(lines[..|lines| - 1]);
      PagesAreFull(lines[..|lines| - 1]);
      LayOutCorrect(lines[..|lines| - 1]);
      hide Baseline;
    }
  }

  // ----- Drawing -----

  datatype Drawn = Drawn(line: Line, y: int)

  /** Every line but the breaks, at its baseline. */
  function Placed(page: seq<Line>): seq<Drawn> {
    if page == [] then []
    else
      var n := |page| - 1;
      Placed(page[..n]) + (if page[n].PageBreak? then [] else [Drawn(page[n], Baseline(page, n))])
  }

  method DrawPage(page: seq<Line>) returns (drawn: seq<Drawn>)
    ensures drawn == Placed(page)
  {
    drawn := [];
    var y := CONTENT_TOP;
    for i := 0 to |page|
      invariant y == Baseline(page, i) && drawn == Placed(page[..i])
    {
      assert page[..i + 1][..i] == page[..i];
      if page[i].PageBreak? {
        continue;
      }
      drawn := drawn + [Drawn(page[i], y)];
      y := y - LineHeight(page[i]);
    }
    assert page[..|page|] == page;
  }

  lemma {:induction false} PlacedShows(page: seq<Line>)
    ensures |Placed(page)| == |WithoutBreaks(page)|
    ensures forall k :: 0 <= k < |Placed(page)| ==> Placed(page)[k].line == WithoutBreaks(page)[k]
    ensures StaysAbove(page) ==> forall k :: 0 <= k < |Placed(page)| ==> Placed(page)[k].y >= BOTTOM
  {
    if page != [] {
      var front := page[..|page| - 1];
      PlacedShows(front);
      if StaysAbove(page) {
        forall k | 0 <= k < |front|
          ensures Baseline(front, k) >= BOTTOM
        {
          assert front[..k] == page[..k];
          assert Baseline(front, k) == Baseline(page, k);
        }
      }
    }
  }

  /** Drawing any page that pagination made shows its lines in order, none below the bottom margin. */
  lemma {:induction false} PagesDrawnAbove(lines: seq<Line>, p: nat, k: nat)
    requires p < |LayOut(lines).pages| && k < |Placed(LayOut(lines).pages[p])|
    ensures Placed(LayOut(lines).pages[p])[k].y >= BOTTOM
  {
    LayOutCorrect(lines);
    PlacedShows(LayOut(lines).pages[p]);
  }

  /** How far below a line the next one stands, in points. */
  predicate IsGap(line: Line, gap: int) {
    && (line.TableRow? ==> gap == 18)
    && (line.KeyValue? ==> gap == 15)
    && (line.TextLine? && line.style == Heading ==> gap == 22)
    && (line.TextLine? && line.style == Subheading ==> gap == 18)
    && (line.TextLine? && line.style in {Normal, Small} ==> gap == 14)
  }

  predicate NoBreaks(page: seq<Line>) { forall k :: 0 <= k < |page| ==> !page[k].PageBreak? }

  lemma {:induction false} PlacedAt(page: seq<Line>, k: nat)
    requires NoBreaks(page) && k < |page|
    ensures |Placed(page)| == |page| && Placed(page)[k] == Drawn(page[k], Baseline(page, k))
  {
    var n := |page| - 1;
    if n > 0 {
      PlacedAt(page[..n], if k < n then k else 0);
      assert k < n ==> page[..n][..k] == page[..k];
    }
  }

  /** No page holds a page break. */
  lemma {:induction false} PagesHoldNoBreak(lines: seq<Line>)
    ensures forall p :: 0 <= p < |LayOut(lines).pages| ==> NoBreaks(LayOut(lines).pages[p])
  {
    if lines != [] {
      var before, line := LayOut(lines[..|lines| - 1]), lines[|lines| - 1];
      PagesHoldNoBreak(lines[..|lines| - 1]);
      if !line.PageBreak? {
        AddedHasNoBreak(before.pages, line);
        AddedHasNoBreak(before.pages + [[]], line);
      }
    }
  }

  lemma {:induction false} AddedHasNoBreak(pages: seq<seq<Line>>, line: Line)
    requires pages != [] && !line.PageBreak?
    requires forall p :: 0 <= p < |pages| ==> NoBreaks(pages[p])
    ensures forall p :: 0 <= p < |AddTo(pages, line)| ==> NoBreaks(AddTo(pages, line)[p])
  {}

  /** A page begins 718 points up, every line stands its own height below the one before, and none below 54. */
  lemma {:induction false} DrawnInPoints(lines: seq<Line>, p: nat, k: nat)
    requires p < |LayOut(lines).pages| && k < |LayOut(lines).pages[p]|
    ensures var page := LayOut(lines).pages[p];
      && |Placed(page)| == |page| && Placed(page)[k].line == page[k] && Placed(page)[k].y >= 54
      && (k == 0 ==> Placed(page)[k].y == 718)
      && (k > 0 ==> IsGap(page[k - 1], Placed(page)[k - 1].y - Placed(page)[k].y))
  {
    var page := LayOut(lines).pages[p];
    PagesHoldNoBreak(lines);
    PlacedAt(page, k);
    PagesDrawnAbove(lines, p, k);
    hide LayOut, Placed;
    if k > 0 {
      PlacedAt(page, k - 1);
      assert page[..k][..k - 1] == page[..k - 1];
    }
  }
}
