/** The "organize" layout: glyphs are set in rows like a typewriter, a fixed
    advance per character from a left margin, wrapping to a new row once the
    cursor passes the right margin. */
module Layout {
  import opened Glyphs

  const MarginLeft := 50
  const MarginTop := 100
  const LineHeight := 30
  const CharWidth := 15

  /** The right-hand limit of the cursor on a canvas `width` wide. */
  function MaxWidth(width: int): (m: int)
  {
    width - MarginLeft
  }

  /** Number of glyphs on one row: column 0 is always used, and column c > 0
      is used exactly when the cursor there has not passed MaxWidth. */
  function Columns(width: int): (k: nat)
    ensures k >= 1
    ensures MarginLeft + CharWidth * k > MaxWidth(width)
    ensures k > 1 ==> MarginLeft + CharWidth * (k - 1) <= MaxWidth(width)
  {
    if MaxWidth(width) - MarginLeft >= 0 then (MaxWidth(width) - MarginLeft) / CharWidth + 1 else 1
  }

  /** Where the i-th glyph of the list is set: row i / k, column i % k. */
  function Slot(width: int, i: nat): (p: Point)
    ensures MarginLeft <= p.x < MarginLeft + CharWidth * Columns(width)
    ensures MarginTop <= p.y
  {
    var k := Columns(width);
    Point(MarginLeft + CharWidth * (i % k), MarginTop + LineHeight * (i / k))
  }

  /** The list after the layout pass: same characters in the same order,
      every glyph moved to its slot. */
  function Organized(gs: seq<Glyph>, width: int): (r: seq<Glyph>)
    ensures |r| == |gs|
    ensures forall i :: 0 <= i < |gs| ==> r[i].ch == gs[i].ch
  {
    seq(|gs|, i requires 0 <= i < |gs| => Glyph(gs[i].ch, Slot(width, i).x, Slot(width, i).y))
  }

  /** Reading order on positions: by row (y), then by column (x). */
  predicate Before(a: Point, b: Point)
  {
    a.y < b.y || (a.y == b.y && a.x < b.x)
  }

  /** A positive multiple of k is at least k. */
  lemma {:induction false} MultipleAtLeast(d: int, k: int)
    requires d >= 1 && k > 0
    ensures d * k >= k
    decreases d
  {
    if d > 1 {
      MultipleAtLeast(d - 1, k);
      assert d * k == (d - 1) * k + k;
    }
  }

  /** Euclidean division of line * k + col by k gives back line and col. */
  lemma DivModOf(n: int, k: int, line: int, col: int)
    requires k > 0 && 0 <= col < k && 0 <= line
    requires n == line * k + col
    ensures n / k == line && n % k == col
  {
    var q, r := n / k, n % k;
    assert n == q * k + r && 0 <= r < k;
    if q > line {
      assert (q - line) * k == col - r;
      MultipleAtLeast(q - line, k);
    } else if q < line {
      assert (line - q) * k == r - col;
      MultipleAtLeast(line - q, k);
    }
  }

  /** One step of the cursor: the next slot is one advance to the right on the
      same row while that stays within MaxWidth, and otherwise the left margin
      of the row one line height lower. */
  lemma SlotStep(width: int, i: nat)
    ensures Slot(width, i + 1) ==
      if Slot(width, i).x + CharWidth > MaxWidth(width)
      then Point(MarginLeft, Slot(width, i).y + LineHeight)
      else Point(Slot(width, i).x + CharWidth, Slot(width, i).y)
  {
    var k := Columns(width);
    var line, col := i / k, i % k;
    if col + 1 < k {
      DivModOf(i + 1, k, line, col + 1);
    } else {
      DivModOf(i + 1, k, line + 1, 0);
    }
  }

  /** The first glyph goes at the top-left corner of the page. */
  lemma SlotFirst(width: int)
    ensures Slot(width, 0) == Point(MarginLeft, MarginTop)
  {
  }

  /** Every slot lies on the character grid: x is the left margin plus a whole
      number of advances, never beyond the right margin when the canvas is wide
      enough to hold one, and y is the top margin plus whole lines. */
  lemma SlotOnGrid(width: int, i: nat)
    ensures MarginLeft <= Slot(width, i).x
    ensures MarginLeft + MarginLeft <= width ==> Slot(width, i).x <= MaxWidth(width)
    ensures (Slot(width, i).x - MarginLeft) % CharWidth == 0
    ensures MarginTop <= Slot(width, i).y
    ensures (Slot(width, i).y - MarginTop) % LineHeight == 0
  {
    var k := Columns(width);
    assert 0 <= i % k < k;
  }

  /** Slots follow list order strictly in reading order. */
  lemma {:induction false} SlotsIncrease(width: int, i: nat, j: nat)
    requires i < j
    ensures Before(Slot(width, i), Slot(width, j))
    decreases j - i
  {
    SlotStep(width, j - 1);
    if i < j - 1 {
      SlotsIncrease(width, i, j - 1);
    }
  }

  /** Rows never go back up: y does not decrease along the list. */
  lemma RowsDescend(width: int, i: nat, j: nat)
    requires i <= j
    ensures Slot(width, i).y <= Slot(width, j).y
  {
    if i < j {
      SlotsIncrease(width, i, j);
    }
  }

  /** After the layout pass no two glyphs share a position. */
  lemma OrganizedDistinct(gs: seq<Glyph>, width: int, i: nat, j: nat)
    requires i < j < |gs|
    ensures PosOf(Organized(gs, width)[i]) != PosOf(Organized(gs, width)[j])
  {
    SlotsIncrease(width, i, j);
  }

  /** Laying out an already laid-out list changes nothing. */
  lemma OrganizedIdempotent(gs: seq<Glyph>, width: int)
    ensures Organized(Organized(gs, width), width) == Organized(gs, width)
  {
  }
}
