/** The legend above a timeline: items are laid out in rows that wrap at the width, once to compute the
    height and once to draw. */
module Legend {

  // The extents of the text of one item.
  datatype Text = Text(width: real, height: real)

  // The area of one item: its coloured box, its text, and the padding around them.
  datatype Cell = Cell(x: real, y: real, width: real, height: real)

  // Where the next item goes: how much of the row is used, the greatest item height so far, the row's top.
  datatype Pen = Pen(lineUsed: real, lineHeight: real, totalHeight: real)

  function Max(a: real, b: real): real { if a > b then a else b }

  function Start(padding: real): Pen { Pen(padding, 0.0, padding) }

  function ItemWidth(padding: real, t: Text): real { padding + padding + t.width + padding }

  function ItemHeight(padding: real, t: Text): real { t.height + padding }

  // The line height is never reset, so a row is at least as high as every item before it.
  function Advance(padding: real, width: real, pen: Pen, t: Text): Pen {
    var w, height := ItemWidth(padding, t), Max(pen.lineHeight, ItemHeight(padding, t));
    if pen.lineUsed + w > width then Pen(padding + w, height, pen.totalHeight + height)
    else Pen(pen.lineUsed + w, height, pen.totalHeight)
  }

  function CellAt(padding: real, pen: Pen, t: Text): Cell {
    Cell(pen.lineUsed - ItemWidth(padding, t), pen.totalHeight, ItemWidth(padding, t), ItemHeight(padding, t))
  }

  function PenAfter(padding: real, width: real, texts: seq<Text>): Pen {
    if texts == [] then Start(padding)
    else Advance(padding, width, PenAfter(padding, width, texts[..|texts| - 1]), texts[|texts| - 1])
  }

  // The cells of the items, in order.
  function Cells(padding: real, width: real, texts: seq<Text>): (cells: seq<Cell>)
    ensures |cells| == |texts|
  {
    if texts == [] then []
    else
      var last := |texts| - 1;
      Cells(padding, width, texts[..last]) + [CellAt(padding, PenAfter(padding, width, texts), texts[last])]
  }

  function LayoutHeight(padding: real, width: real, texts: seq<Text>): real {
    var pen := PenAfter(padding, width, texts);
    pen.totalHeight + pen.lineHeight
  }

  ghost predicate Sized(padding: real, texts: seq<Text>) {
    padding >= 0.0 && forall t | t in texts :: t.width >= 0.0 && t.height >= 0.0
  }

  ghost predicate Disjoint(a: Cell, b: Cell) {
    a.x + a.width <= b.x || b.x + b.width <= a.x || a.y + a.height <= b.y || b.y + b.height <= a.y
  }

  // A cell lies on an earlier row, or on the pen's row and to its left; and it fits that row's height.
  ghost predicate Behind(c: Cell, pen: Pen, padding: real) {
    && padding <= c.x && padding <= c.y
    && c.height <= pen.lineHeight
    && (c.y + c.height <= pen.totalHeight || (c.y == pen.totalHeight && c.x + c.width <= pen.lineUsed))
  }

  lemma {:induction false} CellsBehind(padding: real, width: real, texts: seq<Text>, i: nat)
    requires Sized(padding, texts) && i < |texts|
    ensures Behind(Cells(padding, width, texts)[i], PenAfter(padding, width, texts), padding)
  {
    var last := |texts| - 1;
    var front := texts[..last];
    assert texts[last] in texts;
    PenBounds(padding, width, front);
    if i < last {
      CellsBehind(padding, width, front, i);
    }
  }

  lemma {:induction false} PenBounds(padding: real, width: real, texts: seq<Text>)
    requires Sized(padding, texts)
    ensures var pen := PenAfter(padding, width, texts);
      pen.lineUsed >= padding && pen.lineHeight >= 0.0 && pen.totalHeight >= padding
  {
    if texts != [] {
      assert texts[|texts| - 1] in texts;
      PenBounds(padding, width, texts[..|texts| - 1]);
    }
  }

  // Cells do not move when items are added.
  lemma {:induction false} CellsPrefix(padding: real, width: real, texts: seq<Text>, n: nat, i: nat)
    requires i < n <= |texts|
    ensures Cells(padding, width, texts)[i] == Cells(padding, width, texts[..n])[i]
  {
    if n == |texts| {
      assert texts[..n] == texts;
    } else {
      CellsPrefix(padding, width, texts[..|texts| - 1], n, i);
      assert texts[..|texts| - 1][..n] == texts[..n];
    }
  }

  /** For every list of item sizes and every width, no two item cells overlap. */
  lemma CellsDisjoint(padding: real, width: real, texts: seq<Text>, i: nat, j: nat)
    requires Sized(padding, texts) && i < j < |texts|
    ensures Disjoint(Cells(padding, width, texts)[i], Cells(padding, width, texts)[j])
  {
    var before, upto := texts[..j], texts[..j + 1];
    assert upto[..j] == before && upto[j] in texts;
    CellsPrefix(padding, width, texts, j, i);
    CellsPrefix(padding, width, texts, j + 1, j);
    CellsBehind(padding, width, before, i);
    PenBounds(padding, width, before);
  }

  /** Every cell lies below the top padding and within the height computed by the layout pass, and it ends
      within the width unless it starts its row. */
  lemma {:induction false} CellsInside(padding: real, width: real, texts: seq<Text>, i: nat)
    requires Sized(padding, texts) && i < |texts|
    ensures var c := Cells(padding, width, texts)[i];
      && padding <= c.y && c.y + c.height <= LayoutHeight(padding, width, texts)
      && padding <= c.x && (c.x + c.width <= width || c.x == padding)
  {
    CellsBehind(padding, width, texts, i);
    PenBounds(padding, width, texts);
    var upto := texts[..i + 1];
    assert upto[..i] == texts[..i];
    CellsPrefix(padding, width, texts, i + 1, i);
    PenBounds(padding, width, texts[..i]);
  }

  lemma CellSize(padding: real, width: real, texts: seq<Text>, i: nat)
    requires i < |texts|
    ensures var c := Cells(padding, width, texts)[i];
      c.width == ItemWidth(padding, texts[i]) && c.height == ItemHeight(padding, texts[i])
  {
    CellsPrefix(padding, width, texts, i + 1, i);
  }

  // ------------------------------------------------------------------ the cells, told by the sizes alone

  // The greatest height of an item, or zero.
  function Highest(padding: real, texts: seq<Text>): real {
    if texts == [] then 0.0
    else
      var last := |texts| - 1;
      var before := Highest(padding, texts[..last]);
      if texts[last].height + padding > before then texts[last].height + padding else before
  }

  lemma {:induction false} HighestIsGreatest(padding: real, texts: seq<Text>)
    ensures Highest(padding, texts) >= 0.0
    ensures forall i | 0 <= i < |texts| :: texts[i].height + padding <= Highest(padding, texts)
    ensures Highest(padding, texts) == 0.0
      || exists i :: 0 <= i < |texts| && texts[i].height + padding == Highest(padding, texts)
  {
    if texts != [] {
      var last := |texts| - 1;
      HighestIsGreatest(padding, texts[..last]);
      assert forall i | 0 <= i < last :: texts[..last][i] == texts[i];
    }
  }

  lemma {:induction false} PenHeight(padding: real, width: real, texts: seq<Text>)
    ensures PenAfter(padding, width, texts).lineHeight == Highest(padding, texts)
  {
    if texts != [] { PenHeight(padding, width, texts[..|texts| - 1]); }
  }

  // The pen stands at the right end of the last cell, on its row.
  lemma PenAtLastCell(padding: real, width: real, texts: seq<Text>)
    requires texts != []
    ensures var c, pen := Cells(padding, width, texts)[|texts| - 1], PenAfter(padding, width, texts);
      pen.lineUsed == c.x + c.width && pen.totalHeight == c.y
  {
  }

  // A cell is three paddings wider than its text and one padding higher.
  predicate CellFor(padding: real, t: Text, c: Cell) {
    c.width == 3.0 * padding + t.width && c.height == t.height + padding
  }

  // The first cell stands in the first row if it fits; otherwise it starts the row below.
  predicate FirstCell(padding: real, width: real, t: Text, c: Cell) {
    && c.x == padding
    && c.y == if padding + c.width <= width then padding else padding + if c.height > 0.0 then c.height else 0.0
  }

  // A cell follows the one before it on the same row exactly when it fits there; otherwise it starts a row
  // below, as far below as the highest item up to it is high.
  predicate NextCell(padding: real, width: real, highest: real, before: Cell, c: Cell) {
    if before.x + before.width + c.width <= width
    then c.y == before.y && c.x == before.x + before.width
    else c.y == before.y + highest && c.x == padding
  }

  /** Where every cell is: each follows the one before it if it fits on its row, and starts a row otherwise. */
  lemma CellsFollow(padding: real, width: real, texts: seq<Text>, i: nat)
    requires i < |texts|
    ensures CellFor(padding, texts[i], Cells(padding, width, texts)[i])
    ensures i == 0 ==> FirstCell(padding, width, texts[0], Cells(padding, width, texts)[0])
    ensures i > 0 ==>
      NextCell(padding, width, Highest(padding, texts[..i + 1]),
               Cells(padding, width, texts)[i - 1], Cells(padding, width, texts)[i])
  {
    CellSize(padding, width, texts, i);
    var front, upto := texts[..i], texts[..i + 1];
    assert upto[..i] == front && upto[i] == texts[i];
    CellsPrefix(padding, width, texts, i + 1, i);
    PenHeight(padding, width, upto);
    if i > 0 {
      CellsPrefix(padding, width, texts, i, i - 1);
      PenAtLastCell(padding, width, front);
    } else {
      assert upto == [texts[0]] && Highest(padding, front) == 0.0;
    }
  }

  /** The layout pass gives the height of the last row's top and the greatest item height together. */
  lemma LayoutHeightIs(padding: real, width: real, texts: seq<Text>)
    ensures texts == [] ==> LayoutHeight(padding, width, texts) == padding
    ensures texts != [] ==>
      LayoutHeight(padding, width, texts) == Cells(padding, width, texts)[|texts| - 1].y + Highest(padding, texts)
  {
    PenHeight(padding, width, texts);
    if texts != [] { PenAtLastCell(padding, width, texts); }
  }

  // What holds of all the cells of a legend.
  lemma CellsFit(padding: real, width: real, texts: seq<Text>)
    requires Sized(padding, texts)
    ensures forall i | 0 <= i < |texts| ::
      var c := Cells(padding, width, texts)[i];
      && c.width == ItemWidth(padding, texts[i]) && c.height == ItemHeight(padding, texts[i])
      && texts[i].width >= 0.0 && texts[i].height >= 0.0
      && c.y + c.height <= LayoutHeight(padding, width, texts)
    ensures forall i, j | 0 <= i < j < |texts| ::
      Disjoint(Cells(padding, width, texts)[i], Cells(padding, width, texts)[j])
  {
    forall i | 0 <= i < |texts|
      ensures var c := Cells(padding, width, texts)[i];
        && c.width == ItemWidth(padding, texts[i]) && c.height == ItemHeight(padding, texts[i])
        && texts[i].width >= 0.0 && texts[i].height >= 0.0
        && c.y + c.height <= LayoutHeight(padding, width, texts)
    {
      assert texts[i] in texts;
      CellsInside(padding, width, texts, i);
      CellSize(padding, width, texts, i);
    }
    forall i, j | 0 <= i < j < |texts|
      ensures Disjoint(Cells(padding, width, texts)[i], Cells(padding, width, texts)[j])
    {
      CellsDisjoint(padding, width, texts, i, j);
    }
  }

  lemma OneMoreItem(padding: real, width: real, texts: seq<Text>, k: nat)
    requires k < |texts|
    ensures var pen := Advance(padding, width, PenAfter(padding, width, texts[..k]), texts[k]);
      && PenAfter(padding, width, texts[..k + 1]) == pen
      && Cells(padding, width, texts[..k + 1]) == Cells(padding, width, texts[..k]) + [CellAt(padding, pen, texts[k])]
  {
    assert texts[..k + 1][..k] == texts[..k];
  }

  // The boxes and the captions of the items have been put at the positions of these cells.
  ghost predicate Drawn(padding: real, texts: seq<Text>, cells: seq<Cell>,
                        boxes: seq<(real, real)>, captions: seq<(real, real)>) {
    && |boxes| == |captions| == |cells| == |texts|
    && (forall i | 0 <= i < |texts| :: boxes[i] == (cells[i].x, cells[i].y))
    && (forall i | 0 <= i < |texts| :: captions[i] == (cells[i].x + padding * 2.0, cells[i].y + texts[i].height))
  }

  lemma DrawnOneMore(padding: real, texts: seq<Text>, cells: seq<Cell>,
                     boxes: seq<(real, real)>, captions: seq<(real, real)>,
                     t: Text, c: Cell, box: (real, real), caption: (real, real))
    requires Drawn(padding, texts, cells, boxes, captions)
    requires box == (c.x, c.y) && caption == (c.x + padding * 2.0, c.y + t.height)
    ensures Drawn(padding, texts + [t], cells + [c], boxes + [box], captions + [caption])
  {
  }

  // The box and the text of an item lie in its cell.
  predicate FitsCell(padding: real, t: Text, c: Cell, box: (real, real), caption: (real, real)) {
    && box == (c.x, c.y)
    && padding <= c.width && padding <= c.height
    && c.x <= caption.0 && caption.0 + t.width <= c.x + c.width
    && c.y <= caption.1 <= c.y + c.height
  }

  lemma DrawnFits(padding: real, width: real, texts: seq<Text>, boxes: seq<(real, real)>, captions: seq<(real, real)>)
    requires Sized(padding, texts) && Drawn(padding, texts, Cells(padding, width, texts), boxes, captions)
    ensures forall i | 0 <= i < |texts| ::
      FitsCell(padding, texts[i], Cells(padding, width, texts)[i], boxes[i], captions[i])
  {
    CellsFit(padding, width, texts);
  }

  class TopLegendRenderer {
    var padding: real
    var legends: seq<Text>
    var width: real
    var height: real

    constructor ()
      ensures padding == 10.0 && legends == []
    {
      padding, legends, width, height := 10.0, [], 0.0, 0.0;
    }

    // The pass that computes the height.
    method Layout(width: real)
      modifies this`width, this`height
      ensures this.width == width && height == LayoutHeight(padding, width, legends)
    {
      this.width := width;
      var lineHeight, totalHeight, lineUsed := 0.0, padding, padding;
      for k := 0 to |legends|
        invariant Pen(lineUsed, lineHeight, totalHeight) == PenAfter(padding, width, legends[..k])
        invariant this.width == width
      {
        OneMoreItem(padding, width, legends, k);
        var itemWidth := padding + padding + legends[k].width + padding;
        var itemHeight := legends[k].height + padding;
        if itemHeight > lineHeight {
          lineHeight := itemHeight;
        }
        if lineUsed + itemWidth > this.width {
          lineUsed := padding + itemWidth;
          totalHeight := totalHeight + lineHeight;
        } else {
          lineUsed := lineUsed + itemWidth;
        }
      }
      assert legends[..|legends|] == legends;
      totalHeight := totalHeight + lineHeight;
      height := totalHeight;
    }

    /** The drawing pass: the positions it computes are those of cells that are pairwise disjoint and, when
        the layout pass was made with the same width, padding and items, lie within its height; the box and
        the text of an item lie in its cell. */
    method Draw() returns (boxes: seq<(real, real)>, captions: seq<(real, real)>)
      ensures Drawn(padding, legends, Cells(padding, width, legends), boxes, captions)
      ensures Sized(padding, legends) ==>
        forall i | 0 <= i < |legends| ::
          var c := Cells(padding, width, legends)[i];
          && FitsCell(padding, legends[i], c, boxes[i], captions[i])
          && (height == LayoutHeight(padding, width, legends) ==> c.y + c.height <= height)
      ensures Sized(padding, legends) ==>
        forall i, j | 0 <= i < j < |legends| ::
          Disjoint(Cells(padding, width, legends)[i], Cells(padding, width, legends)[j])
    {
      boxes, captions := [], [];
      ghost var cells: seq<Cell> := [];
      var lineHeight, totalHeight, lineUsed := 0.0, padding, padding;
      for k := 0 to |legends|
        invariant Pen(lineUsed, lineHeight, totalHeight) == PenAfter(padding, width, legends[..k])
        invariant cells == Cells(padding, width, legends[..k])
        invariant Drawn(padding, legends[..k], cells, boxes, captions)
      {
        OneMoreItem(padding, width, legends, k);
        assert legends[..k + 1] == legends[..k] + [legends[k]];
        ghost var pen := Advance(padding, width, Pen(lineUsed, lineHeight, totalHeight), legends[k]);
        var itemWidth := padding + padding + legends[k].width + padding;
        var itemHeight := legends[k].height + padding;
        if itemHeight > lineHeight {
          lineHeight := itemHeight;
        }
        if lineUsed + itemWidth > this.width {
          lineUsed := padding + itemWidth;
          totalHeight := totalHeight + lineHeight;
        } else {
          lineUsed := lineUsed + itemWidth;
        }
        assert pen == Pen(lineUsed, lineHeight, totalHeight);
        var x := lineUsed - itemWidth;
        var box, caption := (x, totalHeight), (x + padding * 2.0, totalHeight + legends[k].height);
        ghost var cell := CellAt(padding, pen, legends[k]);
        DrawnOneMore(padding, legends[..k], cells, boxes, captions, legends[k], cell, box, caption);
        boxes, captions, cells := boxes + [box], captions + [caption], cells + [cell];
      }
      assert legends[..|legends|] == legends;
      if Sized(padding, legends) {
        CellsFit(padding, width, legends);
        DrawnFits(padding, width, legends, boxes, captions);
      }
    }
  }
}
