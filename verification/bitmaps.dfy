/** The packed-bitmap blitters `SSD1322_Draw4bppBitmap` and `SSD1322_DrawGrayscaleBitmap`
    (oled_ssd1322.c:474-523).

    Both read a row-major bitmap whose rows start on byte boundaries and copy it into the
    rectangle [x, x+width) x [y, y+height), clipped to the panel. A 4bpp byte holds two
    pixels, the left one in the high nibble, and a nibble is reduced to a level by
    dropping its two low bits. A 2bpp byte holds four levels, the leftmost in the top two
    bits.
 */
module Bitmaps {
  import opened Bits
  import opened Framebuffer

  // ---------------------------------------------------------------------------
  // 4 bits per pixel

  /** Bytes per bitmap row: `(width + 1) / 2`. */
  function Stride4(w: int): int {
    (w + 1) / 2
  }

  /** The bitmap holds every byte the blitter reads. */
  predicate Fits4(bitmap: seq<Byte>, w: int, h: int) {
    w <= 0 || h <= 0 || |bitmap| >= h * Stride4(w)
  }

  /** The level of pixel (col, row): byte `row * stride + col / 2`, high nibble for an
      even column, low nibble for an odd one, shifted right by 2. */
  function Level4(bitmap: seq<Byte>, w: int, h: int, row: int, col: int): (level: Byte)
    requires 0 <= row < h && 0 <= col < w && Fits4(bitmap, w, h)
    ensures level <= 3
  {
    RowMajor(row, h, col / 2, Stride4(w));
    var b := bitmap[row * Stride4(w) + col / 2];
    var nibble := if col % 2 == 0 then Shr(b, 4) % 16 else b % 16;
    NibbleLevel(nibble);
    Shr(nibble, 2)
  }

  function Cell4(fb: Frame, bitmap: seq<Byte>, x: int, y: int, w: int, h: int, r: int, k: int): Byte
    requires 0 <= r < Height && 0 <= k < Width && Fits4(bitmap, w, h)
  {
    if y <= r < y + h && x <= k < x + w then Level4(bitmap, w, h, r - y, k - x) else fb[r][k]
  }

  /** The reference meaning of `SSD1322_Draw4bppBitmap`. */
  function Bitmap4Frame(fb: Frame, bitmap: seq<Byte>, x: int, y: int, w: int, h: int): Frame
    requires Fits4(bitmap, w, h)
  {
    seq<Row>(Height, r requires 0 <= r < Height =>
      seq(Width, k requires 0 <= k < Width => Cell4(fb, bitmap, x, y, w, h, r, k)))
  }

  /** `SSD1322_Draw4bppBitmap`: rows, then column pairs; the right pixel of a pair is
      written only when it lies inside the bitmap's width. */
  method Draw4bppBitmap(fb: Frame, x: int, y: int, w: int, h: int, bitmap: seq<Byte>) returns (out: Frame)
    requires Fits4(bitmap, w, h)
    ensures out == Bitmap4Frame(fb, bitmap, x, y, w, h)
  {
    out := fb;
    var row := 0;
    while row < h
      invariant 0 <= row && (row == 0 || row <= h)
      invariant DrawnUpTo(out, fb, Image4(bitmap, w, h), x, y, w, row, 0)
    {
      out := CopyRow4(out, fb, x, y, w, h, bitmap, row);
      row := row + 1;
    }
    DrawnAll(out, fb, Image4(bitmap, w, h), x, y, w, h, row);
    FrameExt(out, Bitmap4Frame(fb, bitmap, x, y, w, h));
  }

  /** One pass of the outer loop of `SSD1322_Draw4bppBitmap`: bitmap row `row`, two
      pixels per byte; the right pixel of a pair is written only when it lies inside the
      bitmap's width. */
  method CopyRow4(out: Frame, fb: Frame, x: int, y: int, w: int, h: int, bitmap: seq<Byte>, row: int)
    returns (next: Frame)
    requires Fits4(bitmap, w, h) && 0 <= row < h
    requires DrawnUpTo(out, fb, Image4(bitmap, w, h), x, y, w, row, 0)
    ensures DrawnUpTo(next, fb, Image4(bitmap, w, h), x, y, w, row + 1, 0)
  {
    next := out;
    var col := 0;
    while col < w
      invariant 0 <= col && col % 2 == 0 && (w >= 0 ==> col <= w + 1)
      invariant DrawnUpTo(next, fb, Image4(bitmap, w, h), x, y, w, row, col)
    {
      next := CopyPair4(next, fb, x, y, w, h, bitmap, row, col);
      col := col + 2;
    }
    DrawnEnd(next, fb, Image4(bitmap, w, h), x, y, w, row, col);
    DrawnNextRow(next, fb, Image4(bitmap, w, h), x, y, w, row);
  }

  /** The body of the inner loop of `SSD1322_Draw4bppBitmap`: the byte holding columns
      col and col + 1, high nibble first; the right pixel only when it lies inside the
      bitmap's width. */
  method CopyPair4(out: Frame, fb: Frame, x: int, y: int, w: int, h: int, bitmap: seq<Byte>, row: int, col: int)
    returns (next: Frame)
    requires Fits4(bitmap, w, h) && 0 <= row < h && 0 <= col < w && col % 2 == 0
    requires DrawnUpTo(out, fb, Image4(bitmap, w, h), x, y, w, row, col)
    ensures DrawnUpTo(next, fb, Image4(bitmap, w, h), x, y, w, row, col + 2)
  {
    ghost var img := Image4(bitmap, w, h);
    PairLevels(bitmap, w, h, row, col);
    var b := bitmap[row * Stride4(w) + col / 2];
    var gray1 := Shr(Shr(b, 4) % 16, 2);
    var gray2 := Shr(b % 16, 2);
    DrawnStep(out, fb, img, x, y, w, row, col);
    next := Plot(out, x + col, y + row, gray1);
    if col + 1 < w {
      DrawnStep(next, fb, img, x, y, w, row, col + 1);
      next := Plot(next, x + col + 1, y + row, gray2);
    } else {
      DrawnEnd(next, fb, img, x, y, w, row, col + 2);
    }
  }

  /** The two nibbles of the byte holding columns col and col + 1 of row `row` are the
      levels of those pixels. */
  lemma PairLevels(bitmap: seq<Byte>, w: int, h: int, row: int, col: int)
    requires Fits4(bitmap, w, h) && 0 <= row < h && 0 <= col < w && col % 2 == 0
    ensures 0 <= row * Stride4(w) + col / 2 < |bitmap|
    ensures var b := bitmap[row * Stride4(w) + col / 2];
      Shr(Shr(b, 4) % 16, 2) == Image4(bitmap, w, h)(row, col) &&
      (col + 1 < w ==> Shr(b % 16, 2) == Image4(bitmap, w, h)(row, col + 1))
  {
    RowMajor(row, h, col / 2, Stride4(w));
    assert (col + 1) / 2 == col / 2 && (col + 1) % 2 == 1;
  }

  /** One 4bpp byte `hi * 16 + lo` gives the left pixel level `hi >> 2` and the right
      pixel level `lo >> 2`; so 0xF0 on a two-pixel row gives levels 3 and 0. */
  lemma Unpack4(hi: Byte, lo: Byte)
    requires hi < 16 && lo < 16
    ensures Level4([hi * 16 + lo], 2, 1, 0, 0) == hi / 4
    ensures Level4([hi * 16 + lo], 2, 1, 0, 1) == lo / 4
    ensures Level4([0xF0], 2, 1, 0, 0) == 3 && Level4([0xF0], 2, 1, 0, 1) == 0
  {
    assert Pow2(2) == 4 && Pow2(4) == 16;
  }

  // ---------------------------------------------------------------------------
  // 2 bits per pixel

  /** Bytes per bitmap row: `(width + 3) / 4`. */
  function Stride2(w: int): int {
    (w + 3) / 4
  }

  predicate Fits2(bitmap: seq<Byte>, w: int, h: int) {
    w <= 0 || h <= 0 || |bitmap| >= h * Stride2(w)
  }

  /** The level of pixel (col, row): byte `row * stride + col / 4`, bits
      `6 - 2 * (col % 4)` and up. */
  function Level2(bitmap: seq<Byte>, w: int, h: int, row: int, col: int): (level: Byte)
    requires 0 <= row < h && 0 <= col < w && Fits2(bitmap, w, h)
  {
    RowMajor(row, h, col / 4, Stride2(w));
    Shr(bitmap[row * Stride2(w) + col / 4], 6 - 2 * (col % 4)) % 4
  }

  function Cell2(fb: Frame, bitmap: seq<Byte>, x: int, y: int, w: int, h: int, r: int, k: int): Byte
    requires 0 <= r < Height && 0 <= k < Width && Fits2(bitmap, w, h)
  {
    if y <= r < y + h && x <= k < x + w then Level2(bitmap, w, h, r - y, k - x) else fb[r][k]
  }

  /** The reference meaning of `SSD1322_DrawGrayscaleBitmap`. */
  function Bitmap2Frame(fb: Frame, bitmap: seq<Byte>, x: int, y: int, w: int, h: int): Frame
    requires Fits2(bitmap, w, h)
  {
    seq<Row>(Height, r requires 0 <= r < Height =>
      seq(Width, k requires 0 <= k < Width => Cell2(fb, bitmap, x, y, w, h, r, k)))
  }

  /** `SSD1322_DrawGrayscaleBitmap`: rows, then groups of four columns, then the pixels of
      the group that lie inside the bitmap's width. */
  method DrawGrayscaleBitmap(fb: Frame, x: int, y: int, w: int, h: int, bitmap: seq<Byte>) returns (out: Frame)
    requires Fits2(bitmap, w, h)
    ensures out == Bitmap2Frame(fb, bitmap, x, y, w, h)
  {
    out := fb;
    var row := 0;
    while row < h
      invariant 0 <= row && (row == 0 || row <= h)
      invariant DrawnUpTo(out, fb, Image2(bitmap, w, h), x, y, w, row, 0)
    {
      out := CopyRow2(out, fb, x, y, w, h, bitmap, row);
      row := row + 1;
    }
    DrawnAll(out, fb, Image2(bitmap, w, h), x, y, w, h, row);
    FrameExt(out, Bitmap2Frame(fb, bitmap, x, y, w, h));
  }

  /** One pass of the outer loop of `SSD1322_DrawGrayscaleBitmap`: bitmap row `row`, in
      groups of four columns, one byte per group. */
  method CopyRow2(out: Frame, fb: Frame, x: int, y: int, w: int, h: int, bitmap: seq<Byte>, row: int)
    returns (next: Frame)
    requires Fits2(bitmap, w, h) && 0 <= row < h
    requires DrawnUpTo(out, fb, Image2(bitmap, w, h), x, y, w, row, 0)
    ensures DrawnUpTo(next, fb, Image2(bitmap, w, h), x, y, w, row + 1, 0)
  {
    next := out;
    var col := 0;
    while col < w
      invariant 0 <= col && col % 4 == 0 && (w >= 0 ==> col <= w + 3)
      invariant DrawnUpTo(next, fb, Image2(bitmap, w, h), x, y, w, row, col)
    {
      next := CopyGroup2(next, fb, x, y, w, h, bitmap, row, col);
      col := col + 4;
    }
    DrawnEnd(next, fb, Image2(bitmap, w, h), x, y, w, row, col);
    DrawnNextRow(next, fb, Image2(bitmap, w, h), x, y, w, row);
  }

  /** The innermost loop of `SSD1322_DrawGrayscaleBitmap`: the up to four pixels of the
      byte that holds columns [col, col + 4) of row `row`, leftmost in the top two bits. */
  method CopyGroup2(out: Frame, fb: Frame, x: int, y: int, w: int, h: int, bitmap: seq<Byte>, row: int, col: int)
    returns (next: Frame)
    requires Fits2(bitmap, w, h) && 0 <= row < h && 0 <= col < w && col % 4 == 0
    requires DrawnUpTo(out, fb, Image2(bitmap, w, h), x, y, w, row, col)
    ensures DrawnUpTo(next, fb, Image2(bitmap, w, h), x, y, w, row, col + 4)
  {
    ghost var img := Image2(bitmap, w, h);
    RowMajor(row, h, col / 4, Stride2(w));
    var b := bitmap[row * Stride2(w) + col / 4];
    next := out;
    var i := 0;
    while i < 4 && col + i < w
      invariant 0 <= i <= 4
      invariant DrawnUpTo(next, fb, img, x, y, w, row, col + i)
    {
      var pixel := Shr(b, 6 - i * 2) % 4;
      assert (col + i) / 4 == col / 4 && (col + i) % 4 == i;
      assert pixel == img(row, col + i);
      DrawnStep(next, fb, img, x, y, w, row, col + i);
      next := Plot(next, x + col + i, y + row, pixel);
      i := i + 1;
    }
    if i < 4 {
      DrawnEnd(next, fb, img, x, y, w, row, col + 4);
    }
  }

  /** Packing four levels `a b c d` into `a << 6 | b << 4 | c << 2 | d` and unpacking gives
      them back in order, leftmost first. */
  lemma Unpack2(a: Byte, b: Byte, c: Byte, d: Byte)
    requires a < 4 && b < 4 && c < 4 && d < 4
    ensures var packed := [a * 64 + b * 16 + c * 4 + d];
      Level2(packed, 4, 1, 0, 0) == a && Level2(packed, 4, 1, 0, 1) == b &&
      Level2(packed, 4, 1, 0, 2) == c && Level2(packed, 4, 1, 0, 3) == d
  {
    var v := a * 64 + b * 16 + c * 4 + d;
    assert Pow2(0) == 1 && Pow2(2) == 4 && Pow2(4) == 16 && Pow2(6) == 64;
    assert v / 64 == a;
    assert v / 16 == a * 4 + b;
    assert v / 4 == a * 16 + b * 4 + c;
    assert [v][0 * Stride2(4) + 0] == v;
  }

  // ---------------------------------------------------------------------------
  // The row-by-row copy both blitters perform

  /** The decoded bitmaps as total functions of (row, column). */
  function Image4(bitmap: seq<Byte>, w: int, h: int): (int, int) -> Byte {
    (r, c) => if Fits4(bitmap, w, h) && 0 <= r < h && 0 <= c < w then Level4(bitmap, w, h, r, c) else 0
  }

  function Image2(bitmap: seq<Byte>, w: int, h: int): (int, int) -> Byte {
    (r, c) => if Fits2(bitmap, w, h) && 0 <= r < h && 0 <= c < w then Level2(bitmap, w, h, r, c) else 0
  }

  /** The clipped cell write `if (px, py on screen) framebuf[py][px] = v`. */
  function Plot(fb: Frame, px: int, py: int, v: Byte): Frame {
    if OnScreen(px, py) then Store(fb, px, py, v) else fb
  }

  /** `out` is `fb` with rows [0, row) of the `w`-wide image `img` copied to (x, y), and
      columns [0, col) of row `row`. */
  predicate DrawnUpTo(out: Frame, fb: Frame, img: (int, int) -> Byte, x: int, y: int, w: int, row: int, col: int) {
    forall r, k :: 0 <= r < Height && 0 <= k < Width ==>
      out[r][k] == (if (y <= r < y + row || (r == y + row && k < x + col)) && x <= k < x + w
                    then img(r - y, k - x) else fb[r][k])
  }

  lemma DrawnStep(out: Frame, fb: Frame, img: (int, int) -> Byte, x: int, y: int, w: int, row: int, col: int)
    requires DrawnUpTo(out, fb, img, x, y, w, row, col) && 0 <= col < w
    ensures DrawnUpTo(Plot(out, x + col, y + row, img(row, col)), fb, img, x, y, w, row, col + 1)
  {
  }

  /** Past the image's width, further columns change nothing. */
  lemma DrawnEnd(out: Frame, fb: Frame, img: (int, int) -> Byte, x: int, y: int, w: int, row: int, col: int)
    requires DrawnUpTo(out, fb, img, x, y, w, row, w) && col >= w
    ensures DrawnUpTo(out, fb, img, x, y, w, row, col)
  {
  }

  lemma DrawnNextRow(out: Frame, fb: Frame, img: (int, int) -> Byte, x: int, y: int, w: int, row: int)
    requires DrawnUpTo(out, fb, img, x, y, w, row, w) && 0 <= row
    ensures DrawnUpTo(out, fb, img, x, y, w, row + 1, 0)
  {
    forall r, k | 0 <= r < Height && 0 <= k < Width
      ensures out[r][k] == (if (y <= r < y + row + 1 || (r == y + row + 1 && k < x)) && x <= k < x + w
                            then img(r - y, k - x) else fb[r][k])
    {
      assert (y <= r < y + row + 1 && x <= k < x + w) ==
             ((y <= r < y + row || (r == y + row && k < x + w)) && x <= k < x + w);
    }
  }

  lemma DrawnAll(out: Frame, fb: Frame, img: (int, int) -> Byte, x: int, y: int, w: int, h: int, row: int)
    requires DrawnUpTo(out, fb, img, x, y, w, row, 0) && (row == 0 || row == h) && (row == 0 ==> h <= 0)
    ensures forall r, k :: 0 <= r < Height && 0 <= k < Width ==>
      out[r][k] == (if y <= r < y + h && x <= k < x + w then img(r - y, k - x) else fb[r][k])
  {
    forall r, k | 0 <= r < Height && 0 <= k < Width
      ensures out[r][k] == (if y <= r < y + h && x <= k < x + w then img(r - y, k - x) else fb[r][k])
    {
      if row == 0 {
        assert !(y <= r < y + h);
      }
    }
  }

  // ---------------------------------------------------------------------------
  // Properties shared by both blitters

  /** Both blitters write only the clipped rectangle, and only levels. */
  lemma BitmapFrameCondition(fb: Frame, bitmap: seq<Byte>, x: int, y: int, w: int, h: int)
    ensures Fits4(bitmap, w, h) ==>
      forall r, k :: 0 <= r < Height && 0 <= k < Width ==>
        (if y <= r < y + h && x <= k < x + w then Bitmap4Frame(fb, bitmap, x, y, w, h)[r][k] <= 3
         else Bitmap4Frame(fb, bitmap, x, y, w, h)[r][k] == fb[r][k])
    ensures Fits2(bitmap, w, h) ==>
      forall r, k :: 0 <= r < Height && 0 <= k < Width ==>
        (if y <= r < y + h && x <= k < x + w then Bitmap2Frame(fb, bitmap, x, y, w, h)[r][k] <= 3
         else Bitmap2Frame(fb, bitmap, x, y, w, h)[r][k] == fb[r][k])
  {
  }

  /** A nibble shifted right by two is a level. */
  lemma NibbleLevel(n: Byte)
    requires n < 16
    ensures Shr(n, 2) <= 3
  {
    assert Pow2(2) == 4;
  }

  /** A buffer of levels stays one under either blitter. */
  lemma BitmapsKeepLevels(fb: Frame, bitmap: seq<Byte>, x: int, y: int, w: int, h: int)
    requires IsLevels(fb)
    ensures Fits4(bitmap, w, h) ==> IsLevels(Bitmap4Frame(fb, bitmap, x, y, w, h))
    ensures Fits2(bitmap, w, h) ==> IsLevels(Bitmap2Frame(fb, bitmap, x, y, w, h))
  {
    BitmapFrameCondition(fb, bitmap, x, y, w, h);
  }
}
