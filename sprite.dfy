/** The sprite blit of DRW (Dxyn): a row-by-row, bit-by-bit XOR into the display
    buffer with clipping at the right and bottom edges, and the collision flag as
    the source computes it, set again at every visible pixel. */
module Sprite {
  import opened Hardware

  /** The display buffer (a cell is lit or not) together with the value VF has
      reached so far (`flag` means VF = 1). */
  datatype Canvas = Canvas(pixels: seq<bool>, flag: bool)

  predicate Framed(c: Canvas) { |c.pixels| == DisplaySize }

  /** The number of pixels in a sprite row. */
  const RowBits: int := 8

  /** The pixel at column `x + col` of screen row `yr` is drawn only inside the
      64 x 32 screen; nothing wraps around. */
  predicate Visible(x: nat, yr: nat, col: nat)
  {
    yr < ScreenHeight && x + col < ScreenWidth
  }

  /** The buffer index the source computes for that pixel. It is stored in an
      `unsigned char`, so it is taken mod 256: only cells 0 .. 255 are ever
      reached, and screen rows y and y + 4 share cells. */
  function Loc(x: nat, yr: nat, col: nat): (r: nat)
    ensures r < 256
  {
    (x + col + yr * ScreenWidth) % 256
  }

  /** The mask `1 << (8 - pixel_offset)` of column `col = pixel_offset - 1`. */
  function Mask(col: nat): (m: Byte)
    requires col < RowBits
    ensures m == 1 << (7 - col)
  {
    match col
    case 0 => 0x80
    case 1 => 0x40
    case 2 => 0x20
    case 3 => 0x10
    case 4 => 0x08
    case 5 => 0x04
    case 6 => 0x02
    case 7 => 0x01
  }

  /** Bit `col` of a sprite row, most significant bit first. */
  function Bit(b: Byte, col: nat): (r: bool)
    requires col < RowBits
    ensures r <==> (b & Mask(col)) >> (7 - col) == 1
  {
    b & Mask(col) != 0
  }

  /** One pass of the inner loop: XOR the bit into its cell and set VF to 1 when
      that cell became unlit, to 0 otherwise. A clipped pixel changes nothing. */
  function Plot(c: Canvas, b: Byte, x: nat, yr: nat, col: nat): (r: Canvas)
    requires Framed(c) && col < RowBits
    ensures Framed(r)
    ensures !Visible(x, yr, col) ==> r == c
    ensures Visible(x, yr, col) ==> var loc := Loc(x, yr, col);
      && (r.pixels[loc] <==> c.pixels[loc] != Bit(b, col))
      && (forall j :: 0 <= j < DisplaySize && j != loc ==> r.pixels[j] == c.pixels[j])
      && r.flag == !r.pixels[loc]
  {
    if !Visible(x, yr, col) then c
    else
      var loc := Loc(x, yr, col);
      var lit := c.pixels[loc] != Bit(b, col);
      Canvas(c.pixels[loc := lit], !lit)
  }

  /** The first `cols` pixels of one sprite row. */
  function DrawCols(c: Canvas, b: Byte, x: nat, yr: nat, cols: nat): (r: Canvas)
    requires Framed(c) && cols <= RowBits
    ensures Framed(r)
  {
    if cols == 0 then c
    else Plot(DrawCols(c, b, x, yr, cols - 1), b, x, yr, cols - 1)
  }

  /** The first `rows` rows of the sprite, each `w` pixels wide. */
  function DrawRows(c: Canvas, sprite: seq<Byte>, x: nat, y: nat, rows: nat, w: nat): (r: Canvas)
    requires Framed(c) && rows <= |sprite| && w <= RowBits
    ensures Framed(r)
  {
    if rows == 0 then c
    else DrawCols(DrawRows(c, sprite, x, y, rows - 1, w), sprite[rows - 1], x, y + rows - 1, w)
  }

  /** The whole blit of `sprite` with its top-left corner at (x, y). */
  function Draw(c: Canvas, sprite: seq<Byte>, x: nat, y: nat): (r: Canvas)
    requires Framed(c)
    ensures Framed(r)
  {
    DrawRows(c, sprite, x, y, |sprite|, RowBits)
  }

  // ---------------------------------------------------------------------------
  // What the blit does to each cell: it toggles the cell once for every set bit
  // of a visible pixel that lands on it, whatever VF is.

  /** The bit pixel `col` of a row puts on cell j: its sprite bit if it is visible
      and lands there, nothing otherwise. */
  function Flip(b: Byte, x: nat, yr: nat, col: nat, j: int): bool
    requires col < RowBits
  {
    Visible(x, yr, col) && Loc(x, yr, col) == j && Bit(b, col)
  }

  /** Parity of the toggles the first `cols` pixels of a row make on cell j. */
  function ColFlips(b: Byte, x: nat, yr: nat, cols: nat, j: int): bool
    requires cols <= RowBits
  {
    if cols == 0 then false
    else ColFlips(b, x, yr, cols - 1, j) != Flip(b, x, yr, cols - 1, j)
  }

  /** Parity of the toggles the first `rows` rows make on cell j. */
  function RowFlips(sprite: seq<Byte>, x: nat, y: nat, rows: nat, w: nat, j: int): bool
    requires rows <= |sprite| && w <= RowBits
  {
    if rows == 0 then false
    else RowFlips(sprite, x, y, rows - 1, w, j) != ColFlips(sprite[rows - 1], x, y + rows - 1, w, j)
  }

  lemma PlotAt(c: Canvas, b: Byte, x: nat, yr: nat, col: nat, j: int)
    requires Framed(c) && col < RowBits && 0 <= j < DisplaySize
    ensures Plot(c, b, x, yr, col).pixels[j] == (c.pixels[j] != Flip(b, x, yr, col, j))
  {
  }

  lemma {:induction false} DrawColsAt(c: Canvas, b: Byte, x: nat, yr: nat, cols: nat, j: int)
    requires Framed(c) && cols <= RowBits && 0 <= j < DisplaySize
    ensures DrawCols(c, b, x, yr, cols).pixels[j] == (c.pixels[j] != ColFlips(b, x, yr, cols, j))
  {
    if cols > 0 {
      DrawColsAt(c, b, x, yr, cols - 1, j);
      PlotAt(DrawCols(c, b, x, yr, cols - 1), b, x, yr, cols - 1, j);
    }
  }

  lemma DrawRowsStep(c: Canvas, sprite: seq<Byte>, x: nat, y: nat, rows: nat, w: nat)
    requires Framed(c) && 0 < rows <= |sprite| && w <= RowBits
    ensures DrawRows(c, sprite, x, y, rows, w)
         == DrawCols(DrawRows(c, sprite, x, y, rows - 1, w), sprite[rows - 1], x, y + rows - 1, w)
  {
  }

  lemma {:induction false} DrawRowsAt(c: Canvas, sprite: seq<Byte>, x: nat, y: nat, rows: nat, w: nat, j: int)
    requires Framed(c) && rows <= |sprite| && w <= RowBits && 0 <= j < DisplaySize
    ensures DrawRows(c, sprite, x, y, rows, w).pixels[j] == (c.pixels[j] != RowFlips(sprite, x, y, rows, w, j))
  {
    if rows > 0 {
      DrawRowsStep(c, sprite, x, y, rows, w);
      DrawRowsAt(c, sprite, x, y, rows - 1, w, j);
      DrawColsAt(DrawRows(c, sprite, x, y, rows - 1, w), sprite[rows - 1], x, y + rows - 1, w, j);
    }
  }

  /** Each cell ends as its old value toggled by the bits that land on it,
      independent of the starting VF: the blit is a pure toggle of the buffer. */
  lemma DrawAt(c: Canvas, sprite: seq<Byte>, x: nat, y: nat, j: int)
    requires Framed(c) && 0 <= j < DisplaySize
    ensures Draw(c, sprite, x, y).pixels[j] == (c.pixels[j] != RowFlips(sprite, x, y, |sprite|, RowBits, j))
  {
    DrawRowsAt(c, sprite, x, y, |sprite|, RowBits, j);
  }

  /** Drawing the same sprite at the same place twice restores the buffer: XOR is
      an involution. */
  lemma DrawTwice(pixels: seq<bool>, f0: bool, f1: bool, sprite: seq<Byte>, x: nat, y: nat)
    requires |pixels| == DisplaySize
    ensures Draw(Canvas(Draw(Canvas(pixels, f0), sprite, x, y).pixels, f1), sprite, x, y).pixels == pixels
  {
    var once := Draw(Canvas(pixels, f0), sprite, x, y);
    var twice := Draw(Canvas(once.pixels, f1), sprite, x, y);
    forall j | 0 <= j < DisplaySize
      ensures twice.pixels[j] == pixels[j]
    {
      DrawAt(Canvas(pixels, f0), sprite, x, y, j);
      DrawAt(Canvas(once.pixels, f1), sprite, x, y, j);
    }
  }

  lemma {:induction false} ColFlipsHigh(b: Byte, x: nat, yr: nat, cols: nat, j: int)
    requires cols <= RowBits && j >= 256
    ensures !ColFlips(b, x, yr, cols, j)
  {
    if cols > 0 {
      ColFlipsHigh(b, x, yr, cols - 1, j);
    }
  }

  lemma {:induction false} RowFlipsHigh(sprite: seq<Byte>, x: nat, y: nat, rows: nat, w: nat, j: int)
    requires rows <= |sprite| && w <= RowBits && j >= 256
    ensures !RowFlips(sprite, x, y, rows, w, j)
  {
    if rows > 0 {
      RowFlipsHigh(sprite, x, y, rows - 1, w, j);
      ColFlipsHigh(sprite[rows - 1], x, y + rows - 1, w, j);
    }
  }

  /** Because the index is 8 bits wide, cells 256 .. 2047 (screen rows 4 .. 31)
      are never changed by a blit. */
  lemma DrawKeepsHighCells(c: Canvas, sprite: seq<Byte>, x: nat, y: nat)
    requires Framed(c)
    ensures forall j :: 256 <= j < DisplaySize ==> Draw(c, sprite, x, y).pixels[j] == c.pixels[j]
  {
    forall j | 256 <= j < DisplaySize
      ensures Draw(c, sprite, x, y).pixels[j] == c.pixels[j]
    {
      DrawAt(c, sprite, x, y, j);
      RowFlipsHigh(sprite, x, y, |sprite|, RowBits, j);
    }
  }

  // ---------------------------------------------------------------------------
  // The collision flag: VF only remembers the last visible pixel.

  /** VF says whether cell `loc` is unlit. */
  predicate FlagAgrees(c: Canvas, loc: int)
    requires Framed(c) && 0 <= loc < DisplaySize
  {
    c.flag == !c.pixels[loc]
  }

  function Min(a: int, b: int): int { if a < b then a else b }

  /** The last screen row a sprite of `rows` rows at y reaches, and the last
      screen column a row of w pixels at x reaches. */
  function LastRow(y: nat, rows: nat): int { y + Min(rows, ScreenHeight - y) - 1 }
  function LastCol(x: nat, w: nat): int { Min(w, ScreenWidth - x) - 1 }

  lemma {:induction false} DrawColsClipped(c: Canvas, b: Byte, x: nat, yr: nat, cols: nat)
    requires Framed(c) && cols <= RowBits
    requires yr >= ScreenHeight || x >= ScreenWidth
    ensures DrawCols(c, b, x, yr, cols) == c
  {
    if cols > 0 {
      DrawColsClipped(c, b, x, yr, cols - 1);
    }
  }

  /** Within a visible row, VF ends as the flag of the last visible column. */
  lemma {:induction false} DrawColsLatch(c: Canvas, b: Byte, x: nat, yr: nat, cols: nat)
    requires Framed(c) && x < ScreenWidth && yr < ScreenHeight && 0 < cols <= RowBits
    ensures FlagAgrees(DrawCols(c, b, x, yr, cols), Loc(x, yr, LastCol(x, cols)))
  {
    if !Visible(x, yr, cols - 1) {
      DrawColsLatch(c, b, x, yr, cols - 1);
      assert LastCol(x, cols) == LastCol(x, cols - 1);
    } else {
      assert LastCol(x, cols) == cols - 1;
    }
  }

  lemma {:induction false} DrawRowsClipped(c: Canvas, sprite: seq<Byte>, x: nat, y: nat, rows: nat, w: nat)
    requires Framed(c) && rows <= |sprite| && w <= RowBits
    requires y >= ScreenHeight || x >= ScreenWidth
    ensures DrawRows(c, sprite, x, y, rows, w) == c
  {
    if rows > 0 {
      DrawRowsClipped(c, sprite, x, y, rows - 1, w);
      DrawColsClipped(c, sprite[rows - 1], x, y + rows - 1, w);
    }
  }

  lemma {:induction false} DrawRowsLatch(c: Canvas, sprite: seq<Byte>, x: nat, y: nat, rows: nat, w: nat)
    requires Framed(c) && x < ScreenWidth && y < ScreenHeight && 0 < rows <= |sprite| && 0 < w <= RowBits
    ensures FlagAgrees(DrawRows(c, sprite, x, y, rows, w), Loc(x, LastRow(y, rows), LastCol(x, w)))
  {
    DrawRowsStep(c, sprite, x, y, rows, w);
    var before := DrawRows(c, sprite, x, y, rows - 1, w);
    if y + rows - 1 < ScreenHeight {
      DrawColsLatch(before, sprite[rows - 1], x, y + rows - 1, w);
      assert LastRow(y, rows) == y + rows - 1;
    } else {
      DrawColsClipped(before, sprite[rows - 1], x, y + rows - 1, w);
      DrawRowsLatch(c, sprite, x, y, rows - 1, w);
      assert LastRow(y, rows) == LastRow(y, rows - 1);
    }
  }

  /** Some pixel of the sprite is on screen. */
  predicate AnyVisible(sprite: seq<Byte>, x: nat, y: nat)
  {
    |sprite| > 0 && y < ScreenHeight && x < ScreenWidth
  }

  /** The bottom-right visible pixel, the last one the loops draw. */
  function LastVisibleLoc(sprite: seq<Byte>, x: nat, y: nat): int
    requires AnyVisible(sprite, x, y)
  {
    Loc(x, LastRow(y, |sprite|), LastCol(x, RowBits))
  }

  /** With VF reset to 0 first: VF ends 1 exactly when the cell of the last visible
      pixel is unlit after the blit, and a sprite entirely off screen changes
      nothing and leaves VF 0. */
  lemma DrawFlag(pixels: seq<bool>, sprite: seq<Byte>, x: nat, y: nat)
    requires |pixels| == DisplaySize
    ensures var r := Draw(Canvas(pixels, false), sprite, x, y);
      && (AnyVisible(sprite, x, y) ==> (r.flag <==> !r.pixels[LastVisibleLoc(sprite, x, y)]))
      && (!AnyVisible(sprite, x, y) ==> r == Canvas(pixels, false))
  {
    var c := Canvas(pixels, false);
    if AnyVisible(sprite, x, y) {
      DrawRowsLatch(c, sprite, x, y, |sprite|, RowBits);
    } else if |sprite| > 0 {
      DrawRowsClipped(c, sprite, x, y, |sprite|, RowBits);
    }
  }
}
