/** Single-line text layout with the unscaled font: `SSD1322_DrawStringCentered`,
    `SSD1322_DrawStringAtOffset` and `draw_centered_at_y` (oled_ssd1322.c:196-231,
    598-608).

    All three draw a run of glyphs with `SSD1322_DrawChar`, glyph `i` at column
    `x0 + 7 * i`: six glyph columns and one blank column per character. Because the boxes
    of neighbouring glyphs never overlap, the whole run has a cell-wise closed form,
    `RunFrame`, which the loops are proved to compute.

    A C string is modelled by the bytes before its terminating NUL.
 */
module Text {
  import opened Bits
  import opened Framebuffer
  import opened Glyphs
  import opened Protocol
  import opened Refresh

  /** Horizontal distance between the origins of neighbouring glyphs. */
  const Pitch := GlyphWidth + 1

  // ---------------------------------------------------------------------------
  // A run of glyphs

  /** Cell (k, r) after drawing `s` from column `x0` on row band `y`: column `k` lies
      `d = k - x0` columns into the run, in glyph `d / 7` at glyph column `d % 7`; column 6
      of each pitch is the gap and is never written. */
  function RunCell(fb: Frame, font: Font, s: seq<Byte>, x0: int, y: int, r: int, k: int): Byte
    requires 0 <= r < Height && 0 <= k < Width
  {
    var d := k - x0;
    if 0 <= d && d / Pitch < |s| && d % Pitch < GlyphWidth && y <= r < y + GlyphHeight
       && Printable(s[d / Pitch])
    then (if PixelOn(font, s[d / Pitch], d % Pitch, r - y) then 3 else 0)
    else fb[r][k]
  }

  function RunFrame(fb: Frame, font: Font, s: seq<Byte>, x0: int, y: int): Frame {
    seq<Row>(Height, r requires 0 <= r < Height =>
      seq(Width, k requires 0 <= k < Width => RunCell(fb, font, s, x0, y, r, k)))
  }

  lemma RunEmpty(fb: Frame, font: Font, x0: int, y: int)
    ensures RunFrame(fb, font, [], x0, y) == fb
  {
    FrameExt(RunFrame(fb, font, [], x0, y), fb);
  }

  /** Drawing glyph `i` on top of the first `i` glyphs gives the first `i + 1`. */
  lemma RunStep(fb: Frame, font: Font, s: seq<Byte>, x0: int, y: int, i: int)
    requires 0 <= i < |s|
    ensures CharFrame(RunFrame(fb, font, s[..i], x0, y), font, x0 + Pitch * i, y, s[i])
            == RunFrame(fb, font, s[..i + 1], x0, y)
  {
    var before := RunFrame(fb, font, s[..i], x0, y);
    var a := CharFrame(before, font, x0 + Pitch * i, y, s[i]);
    var b := RunFrame(fb, font, s[..i + 1], x0, y);
    forall r, k | 0 <= r < Height && 0 <= k < Width
      ensures a[r][k] == b[r][k]
    {
      var d := k - x0;
      BlockIndex(d, Pitch, i);
      BlockBound(d, Pitch, i);
      if 0 <= d && d / Pitch < i {
        assert s[..i + 1][d / Pitch] == s[..i][d / Pitch];
      }
    }
    FrameExt(a, b);
  }

  /** The string loop shared by the three layout functions: `DrawChar` for each byte,
      stepping the origin by 7 columns. */
  method DrawRun(fb: Frame, font: Font, s: seq<Byte>, x0: int, y: int) returns (out: Frame)
    ensures out == RunFrame(fb, font, s, x0, y)
  {
    out := fb;
    RunEmpty(fb, font, x0, y);
    assert s[..0] == [];
    var x := x0;
    var i := 0;
    while i < |s|
      invariant 0 <= i <= |s|
      invariant x == x0 + Pitch * i
      invariant out == RunFrame(fb, font, s[..i], x0, y)
    {
      RunStep(fb, font, s, x0, y, i);
      out := DrawChar(out, font, x, y, s[i]);
      x := x + Pitch;
      i := i + 1;
    }
    assert s[..|s|] == s;
  }

  /** Glyph `i` of the run sits at column `x0 + 7 * i`: each of its on-screen pixels is 3
      when lit and 0 when not. */
  lemma RunGlyph(fb: Frame, font: Font, s: seq<Byte>, x0: int, y: int, i: int, col: int, row: int)
    requires 0 <= i < |s| && Printable(s[i])
    requires 0 <= col < GlyphWidth && 0 <= row < GlyphHeight
    requires OnScreen(x0 + Pitch * i + col, y + row)
    ensures RunFrame(fb, font, s, x0, y)[y + row][x0 + Pitch * i + col]
            == (if PixelOn(font, s[i], col, row) then 3 else 0)
  {
    var d := Pitch * i + col;
    BlockIndex(d, Pitch, i);
    assert d / Pitch == i && d % Pitch == col;
  }

  /** The blank column after glyph `i`. */
  function Gap(x0: int, i: int): int {
    x0 + Pitch * i + GlyphWidth
  }

  /** A run touches nothing outside its band of rows, left of its origin, right of its
      last glyph, or in the gap column between two glyphs. */
  lemma RunFrameCondition(fb: Frame, font: Font, s: seq<Byte>, x0: int, y: int)
    ensures forall r, k ::
      (0 <= r < Height && 0 <= k < Width &&
       (r < y || r >= y + GlyphHeight || k < x0 || k >= x0 + Pitch * |s|)) ==>
      RunFrame(fb, font, s, x0, y)[r][k] == fb[r][k]
    ensures forall r, i :: 0 <= r < Height && 0 <= i < |s| && 0 <= Gap(x0, i) < Width ==>
      RunFrame(fb, font, s, x0, y)[r][Gap(x0, i)] == fb[r][Gap(x0, i)]
  {
    forall r, k | 0 <= r < Height && 0 <= k < Width && k >= x0 + Pitch * |s|
      ensures RunFrame(fb, font, s, x0, y)[r][k] == fb[r][k]
    {
      BlockBound(k - x0, Pitch, |s|);
    }
    forall r, i | 0 <= r < Height && 0 <= i < |s| && 0 <= Gap(x0, i) < Width
      ensures RunFrame(fb, font, s, x0, y)[r][Gap(x0, i)] == fb[r][Gap(x0, i)]
    {
      var d := Pitch * i + GlyphWidth;
      BlockIndex(d, Pitch, i);
    }
  }

  /** The cells a run writes hold 0 or 3, so a buffer of levels stays one. */
  lemma RunKeepsLevels(fb: Frame, font: Font, s: seq<Byte>, x0: int, y: int)
    requires IsLevels(fb)
    ensures IsLevels(RunFrame(fb, font, s, x0, y))
  {
  }

  // ---------------------------------------------------------------------------
  // SSD1322_DrawStringCentered (oled_ssd1322.c:197-215)

  /** `(128 - total_width) / 2` with `total_width = len * 6 + (len - 1)`, truncating like C;
      it is negative once the text is wider than the panel. */
  function CenterX(len: int): int {
    TruncHalf(Width - (len * GlyphWidth + (len - 1)))
  }

  /** `(64 - 8) / 2`. */
  const CenterY := (Height - GlyphHeight) / 2

  /** `SSD1322_DrawStringCentered`: clears the whole buffer, draws the run centred on the
      panel, and refreshes. Nothing of the previous buffer survives. */
  method DrawStringCentered(fb: Frame, font: Font, s: seq<Byte>) returns (out: Frame, t: seq<Event>)
    ensures out == RunFrame(Blank(), font, s, CenterX(|s|), CenterY)
    ensures t == RefreshTrace(out)
  {
    var x0 := CenterX(|s|);
    var y0 := CenterY;
    out := ClearFramebuffer(fb);
    out := DrawRun(out, font, s, x0, y0);
    t := RefreshFromFramebuffer(out);
  }

  /** "AB" puts its glyphs at columns 57 and 64 of row 28; a 20-character string, 139
      columns wide, starts at column -5 (C truncation; floor division would give -6). */
  lemma CenteredExamples()
    ensures CenterY == 28
    ensures CenterX(2) == 57 && CenterX(2) + Pitch == 64
    ensures CenterX(20) == -5
  {
    TruncHalfIsNotEuclidean();
  }

  /** Text that fits is centred: the blank margins on the left and right of the run
      differ by at most one column, the extra one on the right. */
  lemma CenteredMargins(len: int)
    requires 1 <= len && Pitch * len - 1 <= Width
    ensures var left := CenterX(len);
      var right := Width - (left + Pitch * len - 1);
      0 <= left <= right <= left + 1
  {
  }

  // ---------------------------------------------------------------------------
  // SSD1322_DrawStringAtOffset (oled_ssd1322.c:218-231)

  /** Rows `[y, y + 8)` that lie on screen are zeroed; all other rows are kept. */
  function ClearBand(fb: Frame, y: int): Frame {
    seq<Row>(Height, r requires 0 <= r < Height =>
      if y <= r < y + GlyphHeight then BlackRow else fb[r])
  }

  /** The first loop of `SSD1322_DrawStringAtOffset`: every row of the band, every column,
      skipping rows off screen. */
  method ClearBandLoop(fb: Frame, y: int) returns (out: Frame)
    ensures out == ClearBand(fb, y)
  {
    out := fb;
    var row := y;
    while row < y + GlyphHeight
      invariant y <= row <= y + GlyphHeight
      invariant forall r, k :: 0 <= r < Height && 0 <= k < Width ==>
        out[r][k] == (if y <= r < row then 0 else fb[r][k])
    {
      var col := 0;
      while col < Width
        invariant 0 <= col <= Width
        invariant forall r, k :: 0 <= r < Height && 0 <= k < Width ==>
          out[r][k] == (if y <= r < row || (r == row && k < col) then 0 else fb[r][k])
      {
        if 0 <= row < Height {
          out := Store(out, col, row, 0);
        }
        col := col + 1;
      }
      row := row + 1;
    }
    FrameExt(out, ClearBand(fb, y));
  }

  /** The reference meaning of `SSD1322_DrawStringAtOffset`: clear the band, then draw the
      run starting `offset` columns left of column 0. */
  function StringAtOffset(fb: Frame, font: Font, s: seq<Byte>, y: int, offset: int): Frame {
    RunFrame(ClearBand(fb, y), font, s, -offset, y)
  }

  method DrawStringAtOffset(fb: Frame, font: Font, s: seq<Byte>, y: int, offset: int) returns (out: Frame)
    ensures out == StringAtOffset(fb, font, s, y, offset)
  {
    out := ClearBandLoop(fb, y);
    out := DrawRun(out, font, s, -offset, y);
  }

  /** Only the band changes, and what it shows does not depend on what it held before:
      every band cell outside the glyph boxes is 0. */
  lemma AtOffsetFrameCondition(fb: Frame, font: Font, s: seq<Byte>, y: int, offset: int)
    ensures forall r :: 0 <= r < Height && !(y <= r < y + GlyphHeight) ==>
      StringAtOffset(fb, font, s, y, offset)[r] == fb[r]
    ensures forall g: Frame, r :: 0 <= r < Height && y <= r < y + GlyphHeight ==>
      StringAtOffset(g, font, s, y, offset)[r] == StringAtOffset(fb, font, s, y, offset)[r]
  {
    var out := StringAtOffset(fb, font, s, y, offset);
    forall r | 0 <= r < Height && !(y <= r < y + GlyphHeight)
      ensures out[r] == fb[r]
    {
      assert forall k :: 0 <= k < Width ==> out[r][k] == fb[r][k];
    }
    forall g: Frame, r | 0 <= r < Height && y <= r < y + GlyphHeight
      ensures StringAtOffset(g, font, s, y, offset)[r] == out[r]
    {
      var o2 := StringAtOffset(g, font, s, y, offset);
      assert forall k :: 0 <= k < Width ==> o2[r][k] == out[r][k];
    }
  }

  /** Redrawing the same line at the same offset changes nothing, which is what lets a
      static scroll line be redrawn on every tick. */
  lemma AtOffsetIdempotent(fb: Frame, font: Font, s: seq<Byte>, y: int, offset: int)
    ensures var once := StringAtOffset(fb, font, s, y, offset);
      StringAtOffset(once, font, s, y, offset) == once
  {
    var once := StringAtOffset(fb, font, s, y, offset);
    var twice := StringAtOffset(once, font, s, y, offset);
    AtOffsetFrameCondition(fb, font, s, y, offset);
    AtOffsetFrameCondition(once, font, s, y, offset);
    forall r | 0 <= r < Height
      ensures twice[r] == once[r]
    {
      if y <= r < y + GlyphHeight {
        assert twice[r] == StringAtOffset(fb, font, s, y, offset)[r];
      }
    }
  }

  // ---------------------------------------------------------------------------
  // draw_centered_at_y (oled_ssd1322.c:598-608)

  /** The origin `draw_centered_at_y` computes: `total_width = len * 6 + (len + 1)`, then
      `(128 - total_width) / 2`, clamped to 0 when negative. */
  function AtYOriginAsWritten(len: int): int {
    var x0 := TruncHalf(Width - (len * GlyphWidth + (len + 1)));
    if x0 < 0 then 0 else x0
  }

  /** The same origin with the width of a run of `len` glyphs, `7 * len - 1`, as in
      `SSD1322_DrawStringCentered`. */
  function AtYOrigin(len: int): int {
    var x0 := CenterX(len);
    if x0 < 0 then 0 else x0
  }

  /** `draw_centered_at_y` as written: draws onto the buffer without clearing it. */
  method DrawCenteredAtYAsWritten(fb: Frame, font: Font, s: seq<Byte>, y: int) returns (out: Frame)
    ensures out == RunFrame(fb, font, s, AtYOriginAsWritten(|s|), y)
  {
    out := DrawRun(fb, font, s, AtYOriginAsWritten(|s|), y);
  }

  /** `draw_centered_at_y` with the width of the drawn run. */
  method DrawCenteredAtY(fb: Frame, font: Font, s: seq<Byte>, y: int) returns (out: Frame)
    ensures out == RunFrame(fb, font, s, AtYOrigin(|s|), y)
  {
    out := DrawRun(fb, font, s, AtYOrigin(|s|), y);
  }

  /** As written, the width counts one gap more than the run has, so the run sits left of
      centre: for "AB" it starts at column 56 and leaves 56 blank columns on the left and
      59 on the right; every fitting length leaves 2 or 3 more on the right. */
  lemma AtYAsWrittenOffCentre(len: int)
    requires 1 <= len && Pitch * len - 1 <= Width
    ensures AtYOriginAsWritten(2) == 56 && Width - (56 + Pitch * 2 - 1) == 59
    ensures var left := AtYOriginAsWritten(len);
      var right := Width - (left + Pitch * len - 1);
      left + 2 <= right <= left + 3
  {
  }

  /** With the run's own width, text that fits is centred to within one column, text that
      does not fit starts at column 0, and the origin agrees with
      `SSD1322_DrawStringCentered` whenever that one is not negative. */
  lemma AtYCentred(len: int)
    requires len >= 1
    ensures Pitch * len - 1 <= Width ==>
      var left := AtYOrigin(len);
      var right := Width - (left + Pitch * len - 1);
      0 <= left <= right <= left + 1
    ensures Pitch * len - 1 > Width + 1 ==> AtYOrigin(len) == 0
    ensures CenterX(len) >= 0 ==> AtYOrigin(len) == CenterX(len)
  {
    if Pitch * len - 1 <= Width {
      CenteredMargins(len);
    }
  }
}
