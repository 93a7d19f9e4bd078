/** The text cursor and text style, and the scaled text printers: `SSD1322_SetTextSize`,
    `SSD1322_SetTextColor`, `SSD1322_SetTextWrap`, `SSD1322_SetCursor`,
    `SSD1322_PrintChar`, `SSD1322_PrintString` and `SSD1322_DrawString`
    (oled_ssd1322.c:128-133, 234-268, 294-355).

    The driver keeps the style and the cursor in file-level variables; here they are one
    `TextState` value that the operations take and return. A character is drawn with
    `SSD1322_DrawCharAdvanced` at the current size and colour; a character cell is
    `6 * size` columns wide plus `size` columns of spacing, and a line is `8 * size` rows
    high plus `size` rows of spacing.
 */
module Cursor {
  import opened Bits
  import opened Framebuffer
  import opened Glyphs

  const Newline: Byte := 10

  datatype TextState = TextState(size: Byte, color: Byte, wrap: bool, cursorX: int, cursorY: int)

  /** The power-on values of `text_size`, `text_color`, `text_wrap`, `cursor_x`, `cursor_y`. */
  const DefaultText := TextState(1, 3, false, 0, 0)

  /** What the setters guarantee: a size of 1..4 and a colour that is a level. */
  predicate ValidText(st: TextState) {
    1 <= st.size <= 4 && st.color <= 3
  }

  // ---------------------------------------------------------------------------
  // Setters (oled_ssd1322.c:234-268)

  /** `SSD1322_SetTextSize`: sizes outside 1..4 are ignored. */
  function SetTextSize(st: TextState, size: Byte): (r: TextState)
    ensures r.size == (if 1 <= size <= 4 then size else st.size)
    ensures r == st.(size := r.size)
    ensures ValidText(st) ==> ValidText(r)
  {
    if 1 <= size <= 4 then st.(size := size) else st
  }

  /** `SSD1322_SetTextColor`: only the low two bits are kept, so the colour is always a
      level. */
  function SetTextColor(st: TextState, color: Byte): (r: TextState)
    ensures r.color <= 3 && r.color == color % 4
    ensures r == st.(color := r.color)
    ensures 1 <= st.size <= 4 ==> ValidText(r)
  {
    st.(color := color % 4)
  }

  /** `SSD1322_SetTextWrap`. */
  function SetTextWrap(st: TextState, wrap: bool): (r: TextState)
    ensures r.wrap == wrap && r == st.(wrap := r.wrap)
    ensures ValidText(st) ==> ValidText(r)
  {
    st.(wrap := wrap)
  }

  /** `SSD1322_SetCursor`; `SSD1322_GetCursor` reads back `cursorX` and `cursorY`. */
  function SetCursor(st: TextState, x: int, y: int): (r: TextState)
    ensures r.cursorX == x && r.cursorY == y
    ensures r == st.(cursorX := r.cursorX, cursorY := r.cursorY)
    ensures ValidText(st) ==> ValidText(r)
  {
    st.(cursorX := x, cursorY := y)
  }

  lemma DefaultTextValid()
    ensures ValidText(DefaultText)
    ensures DefaultText.size == 1 && DefaultText.color == 3 && !DefaultText.wrap
  {
  }

  // ---------------------------------------------------------------------------
  // SSD1322_PrintChar (oled_ssd1322.c:327-349)

  /** Columns from one character origin to the next: `6 * size + size`. */
  function CharAdvance(st: TextState): int {
    GlyphWidth * st.size + st.size
  }

  /** Rows from one line to the next: `8 * size + size`. */
  function LineAdvance(st: TextState): int {
    GlyphHeight * st.size + st.size
  }

  /** With wrapping on, a character wraps when its box would reach column 128. */
  predicate WrapsBefore(st: TextState) {
    st.wrap && st.cursorX + GlyphWidth * st.size >= Width
  }

  /** The cursor a (non-newline) character is drawn at, after any wrap. */
  function Placed(st: TextState): TextState {
    if WrapsBefore(st) then st.(cursorX := 0, cursorY := st.cursorY + LineAdvance(st)) else st
  }

  /** The driver draws only when the origin is left of column 128 and above row 64. */
  predicate Visible(p: TextState) {
    p.cursorX < Width && p.cursorY < Height
  }

  /** The state after printing `c`. */
  function PrintState(st: TextState, c: Byte): TextState {
    if c == Newline then st.(cursorX := 0, cursorY := st.cursorY + LineAdvance(st))
    else Placed(st).(cursorX := Placed(st).cursorX + CharAdvance(st))
  }

  /** The buffer after printing `c`. */
  function PrintFrame(fb: Frame, font: Font, st: TextState, c: Byte): Frame {
    if c == Newline || !Visible(Placed(st)) then fb
    else Scaled(fb, font, Placed(st).cursorX, Placed(st).cursorY, c, st.size, st.color)
  }

  /** `SSD1322_PrintChar`. */
  method PrintChar(fb: Frame, font: Font, st: TextState, c: Byte) returns (out: Frame, next: TextState)
    ensures out == PrintFrame(fb, font, st, c)
    ensures next == PrintState(st, c)
  {
    out := fb;
    next := st;
    if c == Newline {
      next := next.(cursorX := 0, cursorY := next.cursorY + GlyphHeight * st.size + st.size);
      return;
    }
    var charWidth := GlyphWidth * st.size;
    var spacing := st.size;
    if st.wrap && next.cursorX + charWidth >= Width {
      next := next.(cursorX := 0, cursorY := next.cursorY + GlyphHeight * st.size + st.size);
    }
    if next.cursorX < Width && next.cursorY < Height {
      out := DrawCharAdvanced(out, font, next.cursorX, next.cursorY, c, st.size, st.color);
    }
    next := next.(cursorX := next.cursorX + charWidth + spacing);
  }

  /** A newline moves to column 0 of the next line and draws nothing. */
  lemma PrintNewline(fb: Frame, font: Font, st: TextState)
    ensures PrintFrame(fb, font, st, Newline) == fb
    ensures PrintState(st, Newline).cursorX == 0
    ensures PrintState(st, Newline).cursorY == st.cursorY + 9 * st.size
  {
  }

  /** Any other code, drawable or not, first wraps if wrapping is on and the cursor is
      within `6 * size` columns of the right edge, then advances the cursor by
      `7 * size`; the style never changes. */
  lemma PrintAdvance(st: TextState, c: Byte)
    requires c != Newline
    ensures var wrapped := st.wrap && st.cursorX + 6 * st.size >= 128;
      PrintState(st, c).cursorX == (if wrapped then 0 else st.cursorX) + 7 * st.size &&
      PrintState(st, c).cursorY == (if wrapped then st.cursorY + 9 * st.size else st.cursorY)
    ensures PrintState(st, c).size == st.size && PrintState(st, c).color == st.color
    ensures PrintState(st, c).wrap == st.wrap
  {
  }

  /** Printing never erases: each cell keeps its value or takes the text colour, and an
      unprintable code or an origin off the right or bottom edge changes nothing. */
  lemma PrintNoErase(fb: Frame, font: Font, st: TextState, c: Byte)
    ensures forall r, k :: 0 <= r < Height && 0 <= k < Width ==>
      PrintFrame(fb, font, st, c)[r][k] in {fb[r][k], st.color % 4}
    ensures !Printable(c) || !Visible(Placed(st)) ==> PrintFrame(fb, font, st, c) == fb
  {
    ScaledWritesOnlyColor(fb, font, Placed(st).cursorX, Placed(st).cursorY, c, st.size, st.color);
    ScaledFrameCondition(fb, font, Placed(st).cursorX, Placed(st).cursorY, c, st.size, st.color);
  }

  /** With wrapping on and the cursor not left of the panel, a drawn character is never
      clipped at the right edge: its whole box lies left of column 128. */
  lemma WrapKeepsGlyphOnScreen(st: TextState)
    requires ValidText(st) && st.wrap && st.cursorX >= 0
    ensures 0 <= Placed(st).cursorX && Placed(st).cursorX + GlyphWidth * st.size < Width
  {
  }

  /** The wrap test is `>= 128`, so at size 1 a cursor at column 122 wraps although the
      glyph would end exactly at the edge; column 121 does not wrap. */
  lemma WrapExamples()
    ensures WrapsBefore(TextState(1, 3, true, 126, 0))
    ensures WrapsBefore(TextState(1, 3, true, 122, 0))
    ensures !WrapsBefore(TextState(1, 3, true, 121, 0))
    ensures !WrapsBefore(TextState(1, 3, false, 126, 0))
  {
  }

  // ---------------------------------------------------------------------------
  // SSD1322_PrintString (oled_ssd1322.c:351-355)

  /** The buffer and state after printing `s` character by character. */
  function Printed(fb: Frame, font: Font, st: TextState, s: seq<Byte>): (Frame, TextState)
    decreases |s|
  {
    if |s| == 0 then (fb, st)
    else Printed(PrintFrame(fb, font, st, s[0]), font, PrintState(st, s[0]), s[1..])
  }

  /** `SSD1322_PrintString`. */
  method PrintString(fb: Frame, font: Font, st: TextState, s: seq<Byte>) returns (out: Frame, next: TextState)
    ensures (out, next) == Printed(fb, font, st, s)
  {
    out := fb;
    next := st;
    var i := 0;
    while i < |s|
      invariant 0 <= i <= |s|
      invariant Printed(out, font, next, s[i..]) == Printed(fb, font, st, s)
    {
      assert s[i..][1..] == s[i + 1..];
      out, next := PrintChar(out, font, next, s[i]);
      i := i + 1;
    }
  }

  /** Printing a string keeps the style, never moves the cursor up, never erases, and
      keeps the buffer a buffer of levels. */
  lemma {:induction false} PrintedInvariants(fb: Frame, font: Font, st: TextState, s: seq<Byte>)
    ensures var (out, next) := Printed(fb, font, st, s);
      next.size == st.size && next.color == st.color && next.wrap == st.wrap &&
      next.cursorY >= st.cursorY &&
      (forall r, k :: 0 <= r < Height && 0 <= k < Width ==> out[r][k] in {fb[r][k], st.color % 4}) &&
      (IsLevels(fb) ==> IsLevels(out))
    decreases |s|
  {
    if |s| > 0 {
      var fb1 := PrintFrame(fb, font, st, s[0]);
      var st1 := PrintState(st, s[0]);
      PrintNoErase(fb, font, st, s[0]);
      if s[0] != Newline {
        PrintAdvance(st, s[0]);
      }
      if s[0] != Newline && IsLevels(fb) {
        ScaledKeepsLevels(fb, font, Placed(st).cursorX, Placed(st).cursorY, s[0], st.size, st.color);
      }
      PrintedInvariants(fb1, font, st1, s[1..]);
    }
  }

  /** Once the cursor is at or below row 64, printing draws nothing more. */
  lemma {:induction false} PrintedBelowScreen(fb: Frame, font: Font, st: TextState, s: seq<Byte>)
    requires st.cursorY >= Height
    ensures Printed(fb, font, st, s).0 == fb
    decreases |s|
  {
    if |s| > 0 {
      PrintedBelowScreen(fb, font, PrintState(st, s[0]), s[1..]);
    }
  }

  // ---------------------------------------------------------------------------
  // SSD1322_DrawString (oled_ssd1322.c:294-325)

  /** The buffer after the loop of `SSD1322_DrawString` has drawn `s` from the running
      position (cx, cy); `x` is the column a newline or a wrap returns to. Unlike the
      cursor printers it stops as soon as a wrap moves below the panel. */
  function DrawnFrom(fb: Frame, font: Font, st: TextState, x: int, cx: int, cy: int, s: seq<Byte>): Frame
    decreases |s|
  {
    if |s| == 0 then fb
    else if s[0] == Newline then DrawnFrom(fb, font, st, x, x, cy + LineAdvance(st), s[1..])
    else
      var wrapNow := st.wrap && cx + GlyphWidth * st.size >= Width;
      var cx' := if wrapNow then x else cx;
      var cy' := if wrapNow then cy + LineAdvance(st) else cy;
      if wrapNow && cy' >= Height then fb
      else
        var fb' := if cx' < Width && cy' < Height then Scaled(fb, font, cx', cy', s[0], st.size, st.color) else fb;
        DrawnFrom(fb', font, st, x, cx' + CharAdvance(st), cy', s[1..])
  }

  /** `SSD1322_DrawString`: prints from (x, y) with the current style without touching
      the cursor. */
  method DrawString(fb: Frame, font: Font, st: TextState, x: int, y: int, s: seq<Byte>) returns (out: Frame)
    ensures out == DrawnFrom(fb, font, st, x, x, y, s)
  {
    out := fb;
    var cx := x;
    var cy := y;
    var charWidth := GlyphWidth * st.size;
    var charHeight := GlyphHeight * st.size;
    var spacing := st.size;
    var i := 0;
    while i < |s|
      invariant 0 <= i <= |s|
      invariant DrawnFrom(out, font, st, x, cx, cy, s[i..]) == DrawnFrom(fb, font, st, x, x, y, s)
    {
      assert s[i..][1..] == s[i + 1..];
      var c := s[i];
      if c == Newline {
        cx := x;
        cy := cy + charHeight + spacing;
        i := i + 1;
        continue;
      }
      if st.wrap && cx + charWidth >= Width {
        cx := x;
        cy := cy + charHeight + spacing;
        if cy >= Height {
          break;
        }
      }
      if cx < Width && cy < Height {
        out := DrawCharAdvanced(out, font, cx, cy, c, st.size, st.color);
      }
      cx := cx + charWidth + spacing;
      i := i + 1;
    }
    if i == |s| {
      assert s[i..] == [];
    }
  }

  /** From the left edge, `SSD1322_DrawString` draws exactly what printing the same
      string from a cursor at (0, y) draws; its early stop below the panel loses nothing,
      because the cursor printer draws nothing there either. */
  lemma {:induction false} DrawStringIsPrint(fb: Frame, font: Font, st: TextState, cx: int, cy: int, s: seq<Byte>)
    ensures DrawnFrom(fb, font, st, 0, cx, cy, s) == Printed(fb, font, st.(cursorX := cx, cursorY := cy), s).0
    decreases |s|
  {
    var p := st.(cursorX := cx, cursorY := cy);
    if |s| > 0 {
      var c := s[0];
      var next := PrintState(p, c);
      if c == Newline {
        DrawStringIsPrint(fb, font, st, 0, cy + LineAdvance(st), s[1..]);
        assert next == st.(cursorX := 0, cursorY := cy + LineAdvance(st));
      } else {
        var wrapNow := st.wrap && cx + GlyphWidth * st.size >= Width;
        var cx' := if wrapNow then 0 else cx;
        var cy' := if wrapNow then cy + LineAdvance(st) else cy;
        assert Placed(p) == st.(cursorX := cx', cursorY := cy');
        if wrapNow && cy' >= Height {
          PrintedBelowScreen(PrintFrame(fb, font, p, c), font, next, s[1..]);
        } else {
          var fb' := PrintFrame(fb, font, p, c);
          DrawStringIsPrint(fb', font, st, cx' + CharAdvance(st), cy', s[1..]);
          assert next == st.(cursorX := cx' + CharAdvance(st), cursorY := cy');
        }
      }
    }
  }
}
