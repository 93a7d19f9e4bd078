/** The 6x8 bitmap font and the two single-glyph rasterisers, `SSD1322_DrawChar`
    (oled_ssd1322.c:178-194) and `SSD1322_DrawCharAdvanced` (oled_ssd1322.c:271-292).

    The table `Font6x8` lives in font6x8.h, which is not part of this model; the font is
    therefore a parameter. Entry `c - 32` holds the glyph of code `c` (32..127) as six
    column bytes, and bit `row` of column `col` is pixel (col, row).
 */
module Glyphs {
  import opened Bits
  import opened Framebuffer

  const GlyphWidth := 6
  const GlyphHeight := 8

  type Glyph = g: seq<Byte> | |g| == GlyphWidth witness [0, 0, 0, 0, 0, 0]
  type Font = f: seq<Glyph> | |f| == 96 witness seq<Glyph>(96, _ => [0, 0, 0, 0, 0, 0])

  /** The codes that have a glyph; every other code draws nothing. */
  predicate Printable(c: Byte) {
    32 <= c <= 127
  }

  /** Pixel (col, row) of the glyph of `c` is lit. */
  predicate PixelOn(font: Font, c: Byte, col: int, row: int)
    requires Printable(c) && 0 <= col < GlyphWidth && 0 <= row < GlyphHeight
  {
    Bit(font[c - 32][col], row)
  }

  // ---------------------------------------------------------------------------
  // Unscaled glyphs: an overwrite of the whole 6x8 cell

  /** The reference meaning of `DrawChar`: inside the on-screen part of the box
      [x, x+6) x [y, y+8) a lit pixel becomes 3 and an unlit one 0; everything else keeps
      its value. A non-printable code changes nothing. */
  function CharCell(fb: Frame, font: Font, x: int, y: int, c: Byte, r: int, k: int): Byte
    requires 0 <= r < Height && 0 <= k < Width
  {
    if Printable(c) && x <= k < x + GlyphWidth && y <= r < y + GlyphHeight then
      (if PixelOn(font, c, k - x, r - y) then 3 else 0)
    else fb[r][k]
  }

  function CharFrame(fb: Frame, font: Font, x: int, y: int, c: Byte): Frame {
    seq<Row>(Height, r requires 0 <= r < Height =>
      seq(Width, k requires 0 <= k < Width => CharCell(fb, font, x, y, c, r, k)))
  }

  /** `SSD1322_DrawChar`: columns, then rows, of the glyph; each off-screen column or row
      is skipped on its own, so a glyph partly off screen still draws its visible part. */
  method DrawChar(fb: Frame, font: Font, x: int, y: int, c: Byte) returns (out: Frame)
    ensures out == CharFrame(fb, font, x, y, c)
  {
    out := fb;
    if c < 32 || c > 127 {
      FrameExt(out, CharFrame(fb, font, x, y, c));
      return;
    }
    var col := 0;
    while col < GlyphWidth
      invariant 0 <= col <= GlyphWidth
      invariant forall r, k :: 0 <= r < Height && 0 <= k < Width ==>
        out[r][k] == (if x <= k < x + col && y <= r < y + GlyphHeight
                      then (if PixelOn(font, c, k - x, r - y) then 3 else 0) else fb[r][k])
    {
      var fx := x + col;
      if 0 <= fx < Width {
        var columnBits := font[c - 32][col];
        var row := 0;
        while row < GlyphHeight
          invariant 0 <= row <= GlyphHeight
          invariant forall r, k :: 0 <= r < Height && 0 <= k < Width ==>
            out[r][k] == (if (x <= k < x + col && y <= r < y + GlyphHeight) || (k == fx && y <= r < y + row)
                          then (if PixelOn(font, c, k - x, r - y) then 3 else 0) else fb[r][k])
        {
          var fy := y + row;
          if 0 <= fy < Height {
            var pixelOn := Shr(columnBits, row) % 2;
            out := Store(out, fx, fy, if pixelOn == 1 then 3 else 0);
          }
          row := row + 1;
        }
      }
      col := col + 1;
    }
    FrameExt(out, CharFrame(fb, font, x, y, c));
  }

  /** An unprintable code leaves the buffer exactly as it was. */
  lemma CharFrameUnprintable(fb: Frame, font: Font, x: int, y: int, c: Byte)
    requires !Printable(c)
    ensures CharFrame(fb, font, x, y, c) == fb
  {
    FrameExt(CharFrame(fb, font, x, y, c), fb);
  }

  /** The result of `DrawChar` does not depend on what was under the glyph: drawing the
      same glyph again changes nothing, and the glyph box only ever holds 0 or 3. */
  lemma CharFrameIdempotent(fb: Frame, font: Font, x: int, y: int, c: Byte)
    ensures CharFrame(CharFrame(fb, font, x, y, c), font, x, y, c) == CharFrame(fb, font, x, y, c)
  {
    var once := CharFrame(fb, font, x, y, c);
    FrameExt(CharFrame(once, font, x, y, c), once);
  }

  lemma CharFrameKeepsLevels(fb: Frame, font: Font, x: int, y: int, c: Byte)
    requires IsLevels(fb)
    ensures IsLevels(CharFrame(fb, font, x, y, c))
  {
  }

  // ---------------------------------------------------------------------------
  // Scaled glyphs: set bits only, each as a size x size block

  /** The reference meaning of `DrawCharAdvanced`. Cell (k, r) of the box
      [x, x+6*size) x [y, y+8*size) belongs to source pixel ((k-x)/size, (r-y)/size);
      it takes `color & 3` when that pixel is lit and keeps its value otherwise. */
  function ScaledCell(fb: Frame, font: Font, x: int, y: int, c: Byte, size: Byte, color: Byte, r: int, k: int): Byte
    requires 0 <= r < Height && 0 <= k < Width
  {
    if Printable(c) && size > 0 && x <= k && y <= r
       && (k - x) / size < GlyphWidth && (r - y) / size < GlyphHeight
       && PixelOn(font, c, (k - x) / size, (r - y) / size)
    then color % 4
    else fb[r][k]
  }

  function Scaled(fb: Frame, font: Font, x: int, y: int, c: Byte, size: Byte, color: Byte): Frame {
    seq<Row>(Height, r requires 0 <= r < Height =>
      seq(Width, k requires 0 <= k < Width => ScaledCell(fb, font, x, y, c, size, color, r, k)))
  }

  /** A clipped, filled square of side `size` at (left, top). */
  function BlockFrame(fb: Frame, left: int, top: int, size: int, v: Byte): Frame {
    seq<Row>(Height, r requires 0 <= r < Height =>
      seq(Width, k requires 0 <= k < Width =>
        if left <= k < left + size && top <= r < top + size then v else fb[r][k]))
  }

  /** The inner `dx`/`dy` loops of `SSD1322_DrawCharAdvanced` for one lit glyph pixel. */
  method FillBlock(fb: Frame, left: int, top: int, size: Byte, v: Byte) returns (out: Frame)
    ensures out == BlockFrame(fb, left, top, size, v)
  {
    out := fb;
    var dx := 0;
    while dx < size
      invariant 0 <= dx <= size
      invariant forall r, k :: 0 <= r < Height && 0 <= k < Width ==>
        out[r][k] == (if left <= k < left + dx && top <= r < top + size then v else fb[r][k])
    {
      var dy := 0;
      while dy < size
        invariant 0 <= dy <= size
        invariant forall r, k :: 0 <= r < Height && 0 <= k < Width ==>
          out[r][k] == (if (left <= k < left + dx && top <= r < top + size) || (k == left + dx && top <= r < top + dy)
                        then v else fb[r][k])
      {
        var fx := left + dx;
        var fy := top + dy;
        if 0 <= fx < Width && 0 <= fy < Height {
          out := Store(out, fx, fy, v);
        }
        dy := dy + 1;
      }
      dx := dx + 1;
    }
    FrameExt(out, BlockFrame(fb, left, top, size, v));
  }

  /** Which cells the scaled loop has painted once it has finished every source pixel
      before (col, row) in column-major order. */
  predicate Painted(font: Font, x: int, y: int, c: Byte, size: Byte, col: int, row: int, r: int, k: int)
    requires Printable(c)
  {
    size > 0 && x <= k && y <= r
    && (k - x) / size < GlyphWidth && (r - y) / size < GlyphHeight
    && ((k - x) / size < col || ((k - x) / size == col && (r - y) / size < row))
    && PixelOn(font, c, (k - x) / size, (r - y) / size)
  }

  /** `out` is `fb` with every source pixel before (col, row) painted. */
  predicate PaintedUpTo(out: Frame, fb: Frame, font: Font, x: int, y: int, c: Byte, size: Byte, color: Byte, col: int, row: int)
    requires Printable(c)
  {
    forall r, k :: 0 <= r < Height && 0 <= k < Width ==>
      out[r][k] == (if Painted(font, x, y, c, size, col, row, r, k) then color % 4 else fb[r][k])
  }

  /** One iteration of the `row` loop: painting the block of pixel (col, row), when it is
      lit, extends the painted region by exactly that pixel's cells. */
  lemma PaintStep(out: Frame, fb: Frame, font: Font, x: int, y: int, c: Byte, size: Byte, color: Byte, col: int, row: int)
    requires Printable(c) && 0 <= col < GlyphWidth && 0 <= row < GlyphHeight
    requires PaintedUpTo(out, fb, font, x, y, c, size, color, col, row)
    ensures PixelOn(font, c, col, row) ==>
      PaintedUpTo(BlockFrame(out, x + col * size, y + row * size, size, color % 4), fb, font, x, y, c, size, color, col, row + 1)
    ensures !PixelOn(font, c, col, row) ==> PaintedUpTo(out, fb, font, x, y, c, size, color, col, row + 1)
  {
    var after := BlockFrame(out, x + col * size, y + row * size, size, color % 4);
    forall r, k | 0 <= r < Height && 0 <= k < Width
      ensures PixelOn(font, c, col, row) ==>
        after[r][k] == (if Painted(font, x, y, c, size, col, row + 1, r, k) then color % 4 else fb[r][k])
      ensures !PixelOn(font, c, col, row) ==>
        out[r][k] == (if Painted(font, x, y, c, size, col, row + 1, r, k) then color % 4 else fb[r][k])
    {
      if size > 0 {
        BlockIndex(k - x, size, col);
        BlockIndex(r - y, size, row);
      }
    }
  }

  /** Before the loop nothing is painted. */
  lemma PaintStart(fb: Frame, font: Font, x: int, y: int, c: Byte, size: Byte, color: Byte)
    requires Printable(c)
    ensures PaintedUpTo(fb, fb, font, x, y, c, size, color, 0, 0)
  {
    forall r, k | 0 <= r < Height && 0 <= k < Width
      ensures !Painted(font, x, y, c, size, 0, 0, r, k)
    {
      if size > 0 && x <= k {
        BlockBound(k - x, size, 0);
      }
    }
  }

  lemma PaintNextColumn(out: Frame, fb: Frame, font: Font, x: int, y: int, c: Byte, size: Byte, color: Byte, col: int)
    requires Printable(c)
    requires PaintedUpTo(out, fb, font, x, y, c, size, color, col, GlyphHeight)
    ensures PaintedUpTo(out, fb, font, x, y, c, size, color, col + 1, 0)
  {
  }

  lemma PaintDone(out: Frame, fb: Frame, font: Font, x: int, y: int, c: Byte, size: Byte, color: Byte)
    requires Printable(c)
    requires PaintedUpTo(out, fb, font, x, y, c, size, color, GlyphWidth, 0)
    ensures out == Scaled(fb, font, x, y, c, size, color)
  {
    FrameExt(out, Scaled(fb, font, x, y, c, size, color));
  }

  /** `SSD1322_DrawCharAdvanced`: for each lit pixel of the glyph, fill its scaled block
      with `color & 3`; unlit pixels are not touched at all. */
  method DrawCharAdvanced(fb: Frame, font: Font, x: int, y: int, c: Byte, size: Byte, color: Byte) returns (out: Frame)
    ensures out == Scaled(fb, font, x, y, c, size, color)
  {
    out := fb;
    if c < 32 || c > 127 {
      ScaledFrameCondition(fb, font, x, y, c, size, color);
      return;
    }
    PaintStart(fb, font, x, y, c, size, color);
    var col := 0;
    while col < GlyphWidth
      invariant 0 <= col <= GlyphWidth
      invariant PaintedUpTo(out, fb, font, x, y, c, size, color, col, 0)
    {
      out := PaintColumn(out, fb, font, x, y, c, size, color, col);
      col := col + 1;
    }
    PaintDone(out, fb, font, x, y, c, size, color);
  }

  /** One pass of the outer loop of `SSD1322_DrawCharAdvanced`: the eight pixels of glyph
      column `col`, top to bottom. */
  method PaintColumn(out: Frame, fb: Frame, font: Font, x: int, y: int, c: Byte, size: Byte, color: Byte, col: int)
    returns (next: Frame)
    requires Printable(c) && 0 <= col < GlyphWidth
    requires PaintedUpTo(out, fb, font, x, y, c, size, color, col, 0)
    ensures PaintedUpTo(next, fb, font, x, y, c, size, color, col + 1, 0)
  {
    next := out;
    var columnBits := font[c - 32][col];
    var row := 0;
    while row < GlyphHeight
      invariant 0 <= row <= GlyphHeight
      invariant PaintedUpTo(next, fb, font, x, y, c, size, color, col, row)
    {
      PaintStep(next, fb, font, x, y, c, size, color, col, row);
      if Shr(columnBits, row) % 2 == 1 {
        next := FillBlock(next, x + col * size, y + row * size, size, color % 4);
      }
      row := row + 1;
    }
    PaintNextColumn(next, fb, font, x, y, c, size, color, col);
  }

  /** Unlit glyph pixels are never written: every cell of a scaled draw either keeps its
      value or takes the text colour. This is the asymmetry with `DrawChar`, which
      erases the unlit pixels of its box. */
  lemma ScaledWritesOnlyColor(fb: Frame, font: Font, x: int, y: int, c: Byte, size: Byte, color: Byte)
    ensures forall r, k :: 0 <= r < Height && 0 <= k < Width ==>
      Scaled(fb, font, x, y, c, size, color)[r][k] in {fb[r][k], color % 4}
  {
  }

  /** A lit glyph pixel (col, row) becomes a size x size block of `color & 3` at
      (x + col*size, y + row*size), clipped to the screen. */
  lemma ScaledBlock(fb: Frame, font: Font, x: int, y: int, c: Byte, size: Byte, color: Byte,
                    col: int, row: int, dx: int, dy: int)
    requires Printable(c) && 0 <= col < GlyphWidth && 0 <= row < GlyphHeight
    requires PixelOn(font, c, col, row)
    requires 0 <= dx < size && 0 <= dy < size
    requires OnScreen(x + col * size + dx, y + row * size + dy)
    ensures Scaled(fb, font, x, y, c, size, color)[y + row * size + dy][x + col * size + dx] == color % 4
  {
    BlockIndex(col * size + dx, size, col);
    BlockIndex(row * size + dy, size, row);
  }

  /** A scaled draw changes nothing outside its box [x, x+6*size) x [y, y+8*size), and
      nothing at all for an unprintable code. */
  lemma ScaledFrameCondition(fb: Frame, font: Font, x: int, y: int, c: Byte, size: Byte, color: Byte)
    ensures forall r, k :: (0 <= r < Height && 0 <= k < Width
      && !(x <= k < x + GlyphWidth * size && y <= r < y + GlyphHeight * size)) ==>
      Scaled(fb, font, x, y, c, size, color)[r][k] == fb[r][k]
    ensures !Printable(c) ==> Scaled(fb, font, x, y, c, size, color) == fb
  {
    var out := Scaled(fb, font, x, y, c, size, color);
    forall r, k | 0 <= r < Height && 0 <= k < Width
      && !(x <= k < x + GlyphWidth * size && y <= r < y + GlyphHeight * size)
      ensures out[r][k] == fb[r][k]
    {
      if size > 0 {
        BlockBound(k - x, size, GlyphWidth);
        BlockBound(r - y, size, GlyphHeight);
      }
    }
    if !Printable(c) {
      FrameExt(out, fb);
    }
  }

  /** At size 1 the scaled draw paints exactly the lit pixels of the unscaled glyph box. */
  lemma ScaledSizeOne(fb: Frame, font: Font, x: int, y: int, c: Byte, color: Byte)
    requires Printable(c)
    ensures forall r, k :: 0 <= r < Height && 0 <= k < Width ==>
      Scaled(fb, font, x, y, c, 1, color)[r][k] ==
        (if x <= k < x + GlyphWidth && y <= r < y + GlyphHeight && PixelOn(font, c, k - x, r - y)
         then color % 4 else fb[r][k])
  {
  }

  lemma ScaledKeepsLevels(fb: Frame, font: Font, x: int, y: int, c: Byte, size: Byte, color: Byte)
    requires IsLevels(fb)
    ensures IsLevels(Scaled(fb, font, x, y, c, size, color))
  {
  }
}
