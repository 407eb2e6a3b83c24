/** The text layout of the word-to-pdf tool: paragraph texts are drawn one
    line at a time down the page from a cursor, and a new page starts
    whenever the cursor drops below the bottom margin. The page height is an
    integer parameter (the source uses the A4 height in points). */
module Layout {

  import opened Text

  const LeftMargin: int := 40
  const TopMargin: int := 40
  const LineHeight: int := 14
  const BottomMargin: int := 60
  const MaxLineChars: nat := 110

  /** One `drawString(x, y, text)` call. */
  datatype Draw = Draw(x: int, y: int, text: string)

  type Page = seq<Draw>

  /** The layout state between two steps: the pages `showPage` has closed,
      the draws on the open page, and the cursor height `y`. */
  datatype Cursor = Cursor(done: seq<Page>, current: Page, y: int)

  /** `x, y = 40, height - 40` on a fresh canvas: one open page with
      nothing drawn, the cursor on the top line. */
  function Start(height: int): (c: Cursor)
    ensures Pages(c) == [[]] && c.y == height - TopMargin
  {
    Cursor([], [], height - TopMargin)
  }

  /** `y -= 14`, then `showPage()` and `y = height - 40` if `y < 60`: a
      step draws nothing, and either keeps the open page or closes it and
      opens an empty one. */
  function Advance(c: Cursor, height: int): (r: Cursor)
    ensures || (r.done == c.done && r.current == c.current)
            || (r.done == c.done + [c.current] && r.current == [])
  {
    var y := c.y - LineHeight;
    if y < BottomMargin then Cursor(c.done + [c.current], [], height - TopMargin)
    else Cursor(c.done, c.current, y)
  }

  /** `drawString(x, y, line[:110])`, then the cursor step: the cut line is
      drawn at the left margin at the cursor height, on the open page or on
      the page the step closes. */
  function DrawLine(c: Cursor, line: string, height: int): (r: Cursor)
    ensures var d := Draw(LeftMargin, c.y, Prefix(line, MaxLineChars));
      || (r.done == c.done && r.current == c.current + [d])
      || (r.done == c.done + [c.current + [d]] && r.current == [])
  {
    Advance(Cursor(c.done, c.current + [Draw(LeftMargin, c.y, Prefix(line, MaxLineChars))], c.y), height)
  }

  /** The inner loop over the lines of one paragraph: closed pages stay
      closed. */
  function DrawLines(c: Cursor, lines: seq<string>, height: int): (r: Cursor)
    ensures c.done <= r.done
    decreases |lines|
  {
    if lines == [] then c
    else DrawLine(DrawLines(c, lines[..|lines| - 1], height), lines[|lines| - 1], height)
  }

  /** One paragraph: a blank one only moves the cursor; any other draws each
      of its lines. Closed pages stay closed. */
  function Paragraph(c: Cursor, para: string, height: int): (r: Cursor)
    ensures c.done <= r.done
  {
    StrippedParagraph(c, Strip(para), height)
  }

  /** A paragraph after `strip()`: the empty text only moves the cursor,
      any other draws each of its lines. */
  function StrippedParagraph(c: Cursor, text: string, height: int): (r: Cursor)
    ensures c.done <= r.done
  {
    if text == [] then Advance(c, height)
    else DrawLines(c, Split(text, '\n'), height)
  }

  /** The outer loop over the document's paragraphs: closed pages stay
      closed. */
  function Paragraphs(c: Cursor, paras: seq<string>, height: int): (r: Cursor)
    ensures c.done <= r.done
    decreases |paras|
  {
    if paras == [] then c
    else Paragraph(Paragraphs(c, paras[..|paras| - 1], height), paras[|paras| - 1], height)
  }

  /** The closed pages followed by the open one. */
  function Pages(c: Cursor): seq<Page> {
    c.done + [c.current]
  }

  /** The pages the word-to-pdf tool hands to the PDF writer: every page
      the loop closed, then the open one, so never none. */
  function Layout(paras: seq<string>, height: int): (pages: seq<Page>)
    ensures |pages| >= 1 && |pages| == |Paragraphs(Start(height), paras, height).done| + 1
  {
    Pages(Paragraphs(Start(height), paras, height))
  }

  /** The canvas the layout draws on, reduced to its page bookkeeping. */
  class Canvas {
    var done: seq<Page>
    var current: Page

    constructor ()
      ensures done == [] && current == []
    {
      done, current := [], [];
    }

    method DrawString(x: int, y: int, text: string)
      modifies this
      ensures done == old(done) && current == old(current) + [Draw(x, y, text)]
    {
      current := current + [Draw(x, y, text)];
    }

    method ShowPage()
      modifies this
      ensures done == old(done) + [old(current)] && current == []
    {
      done, current := done + [current], [];
    }
  }

  /** `y -= 14`, and a new page with the cursor back at the top once it
      drops below the bottom margin. */
  method Step(c: Canvas, y0: int, height: int) returns (y: int)
    modifies c
    ensures Cursor(c.done, c.current, y) == Advance(Cursor(old(c.done), old(c.current), y0), height)
  {
    y := y0 - LineHeight;
    if y < BottomMargin {
      c.ShowPage();
      y := height - TopMargin;
    }
  }

  /** The inner loop of the word-to-pdf tool: draws each line of one
      paragraph at the cursor, stepping and paging after each. */
  method DrawParagraphLines(c: Canvas, lines: seq<string>, x: int, y0: int, height: int) returns (y: int)
    requires x == LeftMargin
    modifies c
    ensures Cursor(c.done, c.current, y) == DrawLines(Cursor(old(c.done), old(c.current), y0), lines, height)
  {
    ghost var before := Cursor(c.done, c.current, y0);
    y := y0;
    var j := 0;
    while j < |lines|
      invariant 0 <= j <= |lines|
      invariant Cursor(c.done, c.current, y) == DrawLines(before, lines[..j], height)
    {
      assert lines[..j + 1][..j] == lines[..j];
      c.DrawString(x, y, Prefix(lines[j], MaxLineChars));
      y := Step(c, y, height);
      j := j + 1;
    }
    assert lines[..j] == lines;
  }

  /** One pass of the word-to-pdf loop: a blank paragraph moves the cursor
      one line down, any other has each of its lines drawn. */
  method RenderParagraph(c: Canvas, para: string, x: int, y0: int, height: int) returns (y: int)
    requires x == LeftMargin
    modifies c
    ensures Cursor(c.done, c.current, y) == Paragraph(Cursor(old(c.done), old(c.current), y0), para, height)
  {
    var text := Strip(para);
    if text == [] {
      y := Step(c, y0, height);
    } else {
      y := DrawParagraphLines(c, Split(text, '\n'), x, y0, height);
    }
  }

  /** The outer loop over one more paragraph is one more pass. */
  lemma ParagraphsSnoc(c: Cursor, paras: seq<string>, i: nat, height: int)
    requires i < |paras|
    ensures Paragraphs(c, paras[..i + 1], height) == Paragraph(Paragraphs(c, paras[..i], height), paras[i], height)
  {
    assert paras[..i + 1][..i] == paras[..i];
  }

  /** The word-to-pdf loop: walks the paragraphs on a fresh canvas, moving
      the cursor for a blank one and drawing the lines of any other, and
      returns the canvas's pages. */
  method RenderParagraphs(paragraphs: seq<string>, height: int) returns (pages: seq<Page>)
    ensures pages == Layout(paragraphs, height)
  {
    var c := new Canvas();
    var x, y := LeftMargin, height - TopMargin;
    var i := 0;
    while i < |paragraphs|
      invariant 0 <= i <= |paragraphs|
      invariant Cursor(c.done, c.current, y) == Paragraphs(Start(height), paragraphs[..i], height)
    {
      ParagraphsSnoc(Start(height), paragraphs, i, height);
      y := RenderParagraph(c, paragraphs[i], x, y, height);
      i := i + 1;
    }
    assert paragraphs[..i] == paragraphs;
    pages := c.done + [c.current];
  }

  // ---------------------------------------------------------------------
  // Placement: where the draws land.

  /** The heights the cursor can take: never above the top line, and below
      the bottom margin only when the page is too short to hold one line. */
  ghost predicate InBand(y: int, height: int) {
    y <= height - TopMargin && (y >= BottomMargin || y == height - TopMargin)
  }

  /** Every draw is at the left margin, at a height in the band, with at most
      110 characters, and each draw on a page is at least one line below the
      previous one. */
  ghost predicate WellPlaced(page: Page, height: int) {
    && (forall i :: 0 <= i < |page| ==>
          page[i].x == LeftMargin && InBand(page[i].y, height) && |page[i].text| <= MaxLineChars)
    && (forall i, j :: 0 <= i < j < |page| ==> page[j].y <= page[i].y - LineHeight)
  }

  ghost predicate Placed(c: Cursor, height: int) {
    && InBand(c.y, height)
    && (forall p :: 0 <= p < |c.done| ==> WellPlaced(c.done[p], height))
    && WellPlaced(c.current, height)
    && (forall i :: 0 <= i < |c.current| ==> c.current[i].y >= c.y + LineHeight)
  }

  lemma AdvancePlaced(c: Cursor, height: int)
    requires Placed(c, height)
    ensures Placed(Advance(c, height), height)
  {
  }

  lemma DrawLinePlaced(c: Cursor, line: string, height: int)
    requires Placed(c, height)
    ensures Placed(DrawLine(c, line, height), height)
  {
    var d := Cursor(c.done, c.current + [Draw(LeftMargin, c.y, Prefix(line, MaxLineChars))], c.y);
    assert WellPlaced(d.current, height);
  }

  lemma {:induction false} DrawLinesPlaced(c: Cursor, lines: seq<string>, height: int)
    requires Placed(c, height)
    ensures Placed(DrawLines(c, lines, height), height)
    decreases |lines|
  {
    if lines != [] {
      DrawLinesPlaced(c, lines[..|lines| - 1], height);
      DrawLinePlaced(DrawLines(c, lines[..|lines| - 1], height), lines[|lines| - 1], height);
    }
  }

  lemma {:induction false} ParagraphsPlaced(paras: seq<string>, height: int)
    ensures Placed(Paragraphs(Start(height), paras, height), height)
    decreases |paras|
  {
    if paras != [] {
      var prev := paras[..|paras| - 1];
      ParagraphsPlaced(prev, height);
      var c := Paragraphs(Start(height), prev, height);
      var text := Strip(paras[|paras| - 1]);
      if text == [] {
        AdvancePlaced(c, height);
      } else {
        DrawLinesPlaced(c, Split(text, '\n'), height);
      }
    }
  }

  /** Every page of the layout is well placed: left margin, cursor band,
      at most 110 characters, lines in top-to-bottom order without overlap. */
  lemma LayoutWellPlaced(paras: seq<string>, height: int)
    ensures forall p :: 0 <= p < |Layout(paras, height)| ==> WellPlaced(Layout(paras, height)[p], height)
  {
    ParagraphsPlaced(paras, height);
    var c := Paragraphs(Start(height), paras, height);
    var pages := Layout(paras, height);
    forall p | 0 <= p < |pages| ensures WellPlaced(pages[p], height) {
      if p < |c.done| {
        assert pages[p] == c.done[p];
      } else {
        assert pages[p] == c.current;
      }
    }
  }

  /** On a page tall enough for one line (the A4 height is), every draw lies
      between the bottom margin and the top line. */
  lemma LayoutWithinMargins(paras: seq<string>, height: int)
    requires height >= TopMargin + BottomMargin
    ensures forall p, i :: 0 <= p < |Layout(paras, height)| && 0 <= i < |Layout(paras, height)[p]| ==>
              var d := Layout(paras, height)[p][i];
              d.x == LeftMargin && BottomMargin <= d.y <= height - TopMargin
  {
    LayoutWellPlaced(paras, height);
  }

  /** On a page tall enough for one line, the cursor stays between the
      bottom margin and the top line after every paragraph. */
  lemma CursorWithinMargins(paras: seq<string>, height: int)
    requires height >= TopMargin + BottomMargin
    ensures BottomMargin <= Paragraphs(Start(height), paras, height).y <= height - TopMargin
  {
    ParagraphsPlaced(paras, height);
  }

  // ---------------------------------------------------------------------
  // Content: what is drawn, in which order.

  function PageTexts(page: Page): (r: seq<string>)
    ensures |r| == |page| && forall i :: 0 <= i < |page| ==> r[i] == page[i].text
  {
    seq(|page|, i requires 0 <= i < |page| => page[i].text)
  }

  /** The texts of all draws, page after page. */
  function AllTexts(pages: seq<Page>): seq<string>
    decreases |pages|
  {
    if pages == [] then []
    else AllTexts(pages[..|pages| - 1]) + PageTexts(pages[|pages| - 1])
  }

  function CursorTexts(c: Cursor): seq<string> {
    AllTexts(c.done) + PageTexts(c.current)
  }

  /** What the document's paragraphs should put on paper, independently of
      pages: nothing for a blank paragraph, otherwise each of its lines cut
      to 110 characters. */
  function ParagraphLines(para: string): seq<string> {
    var text := Strip(para);
    if text == [] then []
    else
      var lines := Split(text, '\n');
      seq(|lines|, k requires 0 <= k < |lines| => Prefix(lines[k], MaxLineChars))
  }

  function ExpectedLines(paras: seq<string>): seq<string>
    decreases |paras|
  {
    if paras == [] then []
    else ExpectedLines(paras[..|paras| - 1]) + ParagraphLines(paras[|paras| - 1])
  }

  lemma AdvanceKeepsTexts(c: Cursor, height: int)
    ensures CursorTexts(Advance(c, height)) == CursorTexts(c)
  {
    var pages := c.done + [c.current];
    assert pages[..|pages| - 1] == c.done;
  }

  /** A blank paragraph only moves the cursor down one line; it draws
      nothing. */
  lemma BlankParagraphDrawsNothing(c: Cursor, para: string, height: int)
    requires AllSpace(para)
    ensures Paragraph(c, para, height) == Advance(c, height)
    ensures CursorTexts(Paragraph(c, para, height)) == CursorTexts(c)
  {
    StripEmptyIffBlank(para);
    AdvanceKeepsTexts(c, height);
  }

  lemma {:induction false} DrawLinesTexts(c: Cursor, lines: seq<string>, height: int)
    ensures CursorTexts(DrawLines(c, lines, height))
            == CursorTexts(c) + seq(|lines|, k requires 0 <= k < |lines| => Prefix(lines[k], MaxLineChars))
    decreases |lines|
  {
    if lines != [] {
      var init := lines[..|lines| - 1];
      DrawLinesTexts(c, init, height);
      var b := DrawLines(c, init, height);
      var line := Prefix(lines[|lines| - 1], MaxLineChars);
      var d := Cursor(b.done, b.current + [Draw(LeftMargin, b.y, line)], b.y);
      assert DrawLines(c, lines, height) == Advance(d, height);
      AdvanceKeepsTexts(d, height);
      assert PageTexts(d.current) == PageTexts(b.current) + [line];
      assert CursorTexts(d) == CursorTexts(b) + [line];
      assert seq(|lines|, k requires 0 <= k < |lines| => Prefix(lines[k], MaxLineChars))
             == seq(|init|, k requires 0 <= k < |init| => Prefix(init[k], MaxLineChars)) + [line];
    }
  }

  lemma {:induction false} ParagraphsTexts(paras: seq<string>, height: int)
    ensures CursorTexts(Paragraphs(Start(height), paras, height)) == ExpectedLines(paras)
    decreases |paras|
  {
    if paras != [] {
      var prev := paras[..|paras| - 1];
      ParagraphsTexts(prev, height);
      var c := Paragraphs(Start(height), prev, height);
      var text := Strip(paras[|paras| - 1]);
      if text == [] {
        AdvanceKeepsTexts(c, height);
      } else {
        DrawLinesTexts(c, Split(text, '\n'), height);
      }
    }
  }

  /** The layout draws exactly the expected lines: paragraph by paragraph,
      line by line, each cut to 110 characters, none for blank paragraphs. */
  lemma LayoutDrawsExpectedLines(paras: seq<string>, height: int)
    ensures AllTexts(Layout(paras, height)) == ExpectedLines(paras)
  {
    ParagraphsTexts(paras, height);
    var c := Paragraphs(Start(height), paras, height);
    var pages := Pages(c);
    assert pages[..|pages| - 1] == c.done;
  }

  // ---------------------------------------------------------------------
  // Pagination: how many pages.

  /** Cursor steps a paragraph takes: one for a blank paragraph, one per
      line otherwise. */
  function ParagraphSteps(para: string): nat {
    var text := Strip(para);
    if text == [] then 1 else |Split(text, '\n')|
  }

  function StepCount(paras: seq<string>): nat
    decreases |paras|
  {
    if paras == [] then 0
    else StepCount(paras[..|paras| - 1]) + ParagraphSteps(paras[|paras| - 1])
  }

  /** Steps that fit on one page: the cursor positions from the top line down
      to the bottom margin, 14 apart. */
  function PageCapacity(height: int): (n: nat)
    requires height >= TopMargin + BottomMargin
    ensures n >= 1
    ensures height - TopMargin - LineHeight * (n - 1) >= BottomMargin
    ensures height - TopMargin - LineHeight * n < BottomMargin
  {
    (height - TopMargin - BottomMargin) / LineHeight + 1
  }

  /** After `n` steps the cursor has closed `n / C` pages and stands
      `n % C` lines below the top, where `C` is the page capacity. */
  ghost predicate AtStep(c: Cursor, n: nat, height: int)
    requires height >= TopMargin + BottomMargin
  {
    var cap := PageCapacity(height);
    |c.done| == n / cap && c.y == height - TopMargin - LineHeight * (n % cap)
  }

  lemma DivModStep(n: nat, cap: nat)
    requires cap >= 1
    ensures n % cap + 1 < cap ==> (n + 1) / cap == n / cap && (n + 1) % cap == n % cap + 1
    ensures n % cap + 1 == cap ==> (n + 1) / cap == n / cap + 1 && (n + 1) % cap == 0
  {
    var q, r := n / cap, n % cap;
    assert n == q * cap + r;
    if r + 1 < cap {
      DivModUnique(n + 1, cap, q, r + 1);
    } else {
      assert n + 1 == (q + 1) * cap + 0;
      DivModUnique(n + 1, cap, q + 1, 0);
    }
  }

  lemma DivModUnique(n: int, cap: int, q: int, r: int)
    requires cap >= 1 && 0 <= r < cap && n == q * cap + r
    ensures n / cap == q && n % cap == r
  {
    var q', r' := n / cap, n % cap;
    assert (q - q') * cap == r' - r;
    MulSmall(q - q', cap, r' - r);
  }

  lemma MulSmall(d: int, cap: int, e: int)
    requires cap >= 1 && d * cap == e && -cap < e < cap
    ensures d == 0
  {
    MulAtLeast(d, cap);
  }

  lemma {:induction false} MulAtLeast(d: int, cap: int)
    requires cap >= 1
    ensures d >= 1 ==> d * cap >= cap
    ensures d <= -1 ==> d * cap <= -cap
    decreases if d < 0 then -d else d
  {
    if d > 1 {
      MulAtLeast(d - 1, cap);
      assert d * cap == (d - 1) * cap + cap;
    } else if d < -1 {
      MulAtLeast(d + 1, cap);
      assert d * cap == (d + 1) * cap - cap;
    }
  }

  lemma AdvanceStep(c: Cursor, n: nat, height: int)
    requires height >= TopMargin + BottomMargin
    requires AtStep(c, n, height)
    ensures AtStep(Advance(c, height), n + 1, height)
  {
    var cap := PageCapacity(height);
    DivModStep(n, cap);
    var k := n % cap;
    if k + 1 < cap {
      assert c.y - LineHeight == height - TopMargin - LineHeight * (k + 1);
      assert height - TopMargin - LineHeight * (k + 1) >= BottomMargin by {
        assert LineHeight * (k + 1) <= LineHeight * (cap - 1);
      }
    } else {
      assert c.y - LineHeight == height - TopMargin - LineHeight * cap;
    }
  }

  lemma {:induction false} DrawLinesSteps(c: Cursor, lines: seq<string>, n: nat, height: int)
    requires height >= TopMargin + BottomMargin
    requires AtStep(c, n, height)
    ensures AtStep(DrawLines(c, lines, height), n + |lines|, height)
    decreases |lines|
  {
    if lines != [] {
      var init := lines[..|lines| - 1];
      DrawLinesSteps(c, init, n, height);
      var b := DrawLines(c, init, height);
      var d := Cursor(b.done, b.current + [Draw(LeftMargin, b.y, Prefix(lines[|lines| - 1], MaxLineChars))], b.y);
      AdvanceStep(d, n + |init|, height);
    }
  }

  lemma StartAtStep(height: int)
    requires height >= TopMargin + BottomMargin
    ensures AtStep(Start(height), 0, height)
  {
    assert 0 / PageCapacity(height) == 0 && 0 % PageCapacity(height) == 0;
  }

  /** One paragraph moves the cursor by its step count. */
  lemma ParagraphStep(c: Cursor, para: string, n: nat, height: int)
    requires height >= TopMargin + BottomMargin
    requires AtStep(c, n, height)
    ensures AtStep(Paragraph(c, para, height), n + ParagraphSteps(para), height)
  {
    var text := Strip(para);
    if text == [] {
      AdvanceStep(c, n, height);
    } else {
      DrawLinesSteps(c, Split(text, '\n'), n, height);
    }
  }

  lemma {:induction false} ParagraphsSteps(paras: seq<string>, height: int)
    requires height >= TopMargin + BottomMargin
    ensures AtStep(Paragraphs(Start(height), paras, height), StepCount(paras), height)
    decreases |paras|
  {
    if paras == [] {
      StartAtStep(height);
    } else {
      var prev := paras[..|paras| - 1];
      var last := paras[|paras| - 1];
      var c := Paragraphs(Start(height), prev, height);
      var d := Paragraph(c, last, height);
      var n := StepCount(prev) + ParagraphSteps(last);
      assert AtStep(d, n, height) by {
        ParagraphsSteps(prev, height);
        ParagraphStep(c, last, StepCount(prev), height);
      }
      assert Paragraphs(Start(height), paras, height) == d && StepCount(paras) == n by {
        assert paras[..|paras| - 1] == prev;
      }
    }
  }

  /** A new page starts exactly every `PageCapacity(height)` cursor steps:
      the document has `StepCount / PageCapacity + 1` pages (the last one
      possibly empty), and the cursor ends `StepCount % PageCapacity` lines
      below the top line. */
  lemma LayoutPageCount(paras: seq<string>, height: int)
    requires height >= TopMargin + BottomMargin
    ensures |Layout(paras, height)| == StepCount(paras) / PageCapacity(height) + 1
    ensures Paragraphs(Start(height), paras, height).y
            == height - TopMargin - LineHeight * (StepCount(paras) % PageCapacity(height))
  {
    ParagraphsSteps(paras, height);
  }
}
