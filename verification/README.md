# SSD1322 OLED driver — a verified Dafny model

This project models the logic of a small C driver for an SSD1322 grayscale OLED
controller driving a 128×64 panel (`oled_ssd1322.c`, `oled_ssd1322.h`). It covers:

- **The framebuffer.** `framebuf[64][128]` holds one 2-bit gray level (0..3) per pixel.
  The model covers the pixel and clear operations on it.
- **Glyph rasterisation.** A 6×8 column-major font is drawn overwriting (`SSD1322_DrawChar`)
  or scaled with set bits only (`SSD1322_DrawCharAdvanced`).
- **Text layout.** This includes centred lines, lines at a horizontal offset, the text
  cursor and style state, `SSD1322_PrintChar` / `SSD1322_PrintString`, and origin-relative
  `SSD1322_DrawString`.
- **The scrolling line.** `ScrollLine_Init` / `ScrollLine_Tick` form a ping-pong state
  machine.
- **The controller protocol.** It is modelled as a trace of command and data transfers.
  The model covers:
  - the command helpers;
  - the fixed power-up register sequence;
  - the framebuffer refresh, which widens every level with `gray2byte` and sends each
    byte twice;
  - the bounded SPI retry, as a pure function over the statuses the HAL returns.
- **The 4bpp and 2bpp packed-bitmap blitters.**

The framebuffer is an immutable `Frame` (64 rows of 128 bytes). Each C loop nest is a
Dafny `method` with the same loops. Its postcondition equates the result with a
cell-wise reference function: `CharFrame`, `Scaled`, `RunFrame`, `Bitmap4Frame`, and so on.
Lemmas state what the references mean: frame conditions, placement, idempotence, and
preservation of the "every cell is a level" invariant `IsLevels`.

Trace functions produce `seq<Event>`, built from `Cmd(op)` and `Data(bytes)`.
`Protocol.Parse` decodes a trace into commands (`Txn`), and it round-trips with `Emit` in
both directions. Contracts about traces are stated through that decoding.

The font table `Font6x8` is not part of this model, so the font is a parameter: 96 glyphs
of six column bytes, where bit `row` of column `col` is pixel (col, row). Characters are
unsigned bytes, as `char` is on the ARM target, and a C string is its bytes before the
NUL. C's `/ 2` on a signed `int` truncates toward zero, so it is written out as
`Bits.TruncHalf`.

Modules: `Bits`, `Framebuffer`, `Glyphs`, `Protocol`, `Startup`, `Refresh`, `Text`,
`Cursor`, `Scroll`, `Bitmaps`, one per file.

## Model

| member | source | states |
|---|---|---|
| `Bits.TruncHalf` | oled_ssd1322.c:202 | C's `/ 2` on a signed `int`: twice the quotient lies within one of the dividend, on the dividend's side of zero (truncation, not floor) |
| `Bits.TruncHalfIsNotEuclidean` | oled_ssd1322.c:372 | truncating and floor division differ on negative odd widths: -11 / 2 is -5 in C and -6 in Dafny |
| `Framebuffer.SetPixel` | oled_ssd1322.c:556-560 | an off-screen coordinate leaves the buffer unchanged; otherwise exactly cell [y][x] changes and becomes `gray & 3`; levels stay levels |
| `Framebuffer.SetPixelIdempotent` | oled_ssd1322.c:556-560 | writing the same pixel twice equals writing it once |
| `Framebuffer.ClearFramebuffer` | oled_ssd1322.c:541-549 | after the nested zero-fill loop every cell is 0, whatever the buffer held |
| `Glyphs.DrawChar` | oled_ssd1322.c:178-194 | the column/row loops compute `CharFrame`: codes outside 32..127 change nothing; inside the clipped 6×8 box a lit glyph bit gives 3 and an unlit one gives 0; every other cell is kept, with off-screen columns and rows skipped one by one |
| `Glyphs.CharFrameUnprintable` | oled_ssd1322.c:180 | a code below 32 or above 127 leaves the buffer exactly as it was |
| `Glyphs.CharFrameIdempotent` | oled_ssd1322.c:183-193 | the glyph box overwrites what was under it, so drawing the same glyph again changes nothing |
| `Glyphs.FillBlock` | oled_ssd1322.c:280-288 | the `dx`/`dy` loops fill exactly the on-screen part of the size×size square with the colour |
| `Glyphs.DrawCharAdvanced` | oled_ssd1322.c:271-292 | the glyph loops compute `Scaled`: each lit source pixel's clipped size×size block takes `color & 3`, and nothing else is written |
| `Glyphs.PaintColumn` | oled_ssd1322.c:275-290 | one pass of the column loop paints exactly the blocks of that column's lit pixels, so the painted region grows by one glyph column and unlit pixels stay untouched |
| `Glyphs.ScaledWritesOnlyColor` | oled_ssd1322.c:278-285 | unlit glyph pixels are never written: every cell either keeps its value or takes the text colour |
| `Glyphs.ScaledBlock` | oled_ssd1322.c:280-286 | every on-screen cell of a lit pixel's block at (x + col·size + dx, y + row·size + dy) holds `color & 3` |
| `Glyphs.ScaledFrameCondition` | oled_ssd1322.c:271-292 | nothing outside [x, x+6·size) × [y, y+8·size) changes, and an unprintable code changes nothing |
| `Glyphs.ScaledSizeOne` | oled_ssd1322.c:271-292 | at size 1 exactly the lit pixels of the 6×8 box take the colour |
| `Glyphs.ScaledKeepsLevels` | oled_ssd1322.c:285 | after a scaled draw, a buffer of levels is still a buffer of levels |
| `Protocol.ParseEmit` | oled_ssd1322.c:43-62 | decoding inverts encoding: every well-formed command list (no empty data transfer) parses back to itself |
| `Protocol.EmitParse` | oled_ssd1322.c:43-62 | every trace that parses is exactly the encoding of its parse, and that parse is well formed |
| `Protocol.SpiTx` | oled_ssd1322.c:21-30 | at most `SSD1322_SPI_RETRY_MAX` = 3 attempts, stopping at the first `HAL_OK`; the result is OK iff one of the first three attempts is; on failure all three attempts are made and the third one's status is returned |
| `Protocol.SendCommand` | oled_ssd1322.c:43-49 | the trace decodes to one command with no data phase |
| `Protocol.SendCommandWithData` | oled_ssd1322.c:52-62 | the trace decodes to the command with the payload as one data transfer; a zero-length payload sends exactly what `SendCommand` sends |
| `Protocol.SetColumn` | oled_ssd1322.c:74-77 | decodes to command 0x15 carrying the two column bounds |
| `Protocol.SetRow` | oled_ssd1322.c:79-82 | decodes to command 0x75 carrying the two row bounds |
| `Protocol.DisplayOnOff` | oled_ssd1322.c:85-89 | decodes to the bare command 0xAF when switching on and 0xAE when switching off |
| `Protocol.EntireDisplayOn` | oled_ssd1322.c:33-35 | decodes to the bare command 0xA5 |
| `Protocol.EntireDisplayOff` | oled_ssd1322.c:37-39 | decodes to the bare command 0xA4 |
| `Protocol.SetContrast` | oled_ssd1322.c:526-529 | the remembered contrast (what `SSD1322_GetContrast` returns) is the argument, and the trace decodes to command 0xC1 carrying that same value |
| `Protocol.SetMasterContrast` | oled_ssd1322.c:531-534 | the trace decodes to command 0xC7 with a one-byte payload m below 16 that is congruent to the argument modulo 16 (that is, `contrast & 0x0F`), equal to the argument whenever the argument already fits in four bits |
| `Protocol.MasterContrastMask` | oled_ssd1322.c:531-534 | arguments sixteen apart send the same trace, and 0x1F sends payload 0x0F |
| `Startup.WithDataEmit` | oled_ssd1322.c:52-62 | a register-table entry encodes to exactly the transfers of `SSD1322_SendCommandWithData` with its payload |
| `Startup.Init` | oled_ssd1322.c:92-123 | the power-up trace after the reset pulse decodes to exactly the 21-entry register table |
| `Startup.InitCmdOps` | oled_ssd1322.c:96-122 | the command opcodes of the power-up trace are, in order, 0xAE 0xFD 0xB3 0xCA 0xA2 0xAB 0xA1 0xA0 0xC7 0xC1 0xB1 0xBB 0xB4 0xBE 0xA6 0xA9 0xD1 0xB5 0xB9 0xB6 0xAF |
| `Startup.InitOffFirstOnLast` | oled_ssd1322.c:96-122 | the trace starts with display-off and ends with display-on |
| `Startup.DisplayOnOnlyLast` | oled_ssd1322.c:96-122 | display-on (0xAF) appears nowhere in the register table but as its last entry, so every register is programmed while the panel is dark |
| `Refresh.Gray2ByteRoundTrip` | oled_ssd1322.c:137-145 | `gray2byte` loses no level: reading the byte back gives `g & 3`, and two inputs give the same byte iff they have the same low two bits |
| `Refresh.Gray2Byte` | oled_ssd1322.c:137-145 | the four-way switch equals 0x55 · (g & 3) |
| `Refresh.ExpandLine` | oled_ssd1322.c:156-160 | the column loop fills a 256-byte line in which bytes 2c and 2c+1 both hold `gray2byte` of cell c |
| `Refresh.RefreshFromFramebuffer` | oled_ssd1322.c:148-166 | the address commands, write-RAM, then one expanded line per row, in row order |
| `Refresh.RefreshParses` | oled_ssd1322.c:148-166 | the refresh trace is the encoding of three commands (column window, row window, write-RAM with the 64 lines) and decodes back to them |
| `Refresh.RefreshShape` | oled_ssd1322.c:150-165 | the trace is `Cmd 0x15, Data[0x00,0x7F], Cmd 0x75, Data[0x00,0x3F], Cmd 0x5C`, then exactly 64 data transfers of 256 bytes, in which bytes 2c and 2c+1 of transfer r both hold `gray2byte(framebuf[r][c])` |
| `Refresh.RefreshRoundTrip` | oled_ssd1322.c:155-160 | decoding the transmitted lines gives back every cell masked to its low two bits, so a buffer of levels is recovered exactly |
| `Refresh.Clear` | oled_ssd1322.c:169-175 | `SSD1322_Clear` leaves the blank buffer and sends the refresh of it, in which every transmitted pixel byte is 0x00 |
| `Text.DrawRun` | oled_ssd1322.c:210-213 | the string loop of `DrawChar` calls at x0 + 7i computes the closed form `RunFrame` |
| `Text.RunGlyph` | oled_ssd1322.c:211-212 | glyph i of a run sits at column x0 + 7i: each of its on-screen pixels is 3 when lit and 0 when not |
| `Text.RunFrameCondition` | oled_ssd1322.c:226-230 | a run changes nothing outside its 8-row band, left of its origin or right of its last glyph, and never writes the gap column after a glyph |
| `Text.DrawStringCentered` | oled_ssd1322.c:197-215 | clears the whole buffer, draws the run at x0 = trunc((128 - (7·len - 1)) / 2), y = 28, and sends the refresh of the result; nothing of the old buffer survives |
| `Text.CenteredExamples` | oled_ssd1322.c:201-203 | "AB" puts its glyphs at columns 57 and 64 of row 28; a 20-character string starts at column -5 |
| `Text.CenteredMargins` | oled_ssd1322.c:201-202 | for text that fits, the blank margins left and right of the run differ by at most one column |
| `Text.ClearBandLoop` | oled_ssd1322.c:221-224 | the band loop zeroes the on-screen rows of [y, y+8) and keeps every other row |
| `Text.DrawStringAtOffset` | oled_ssd1322.c:218-231 | clears the band, then draws the run from column -offset |
| `Text.AtOffsetFrameCondition` | oled_ssd1322.c:218-231 | only rows [y, y+8) change, and what they show does not depend on what they held before |
| `Text.AtOffsetIdempotent` | oled_ssd1322.c:218-231 | redrawing the same line at the same offset changes nothing |
| `Text.DrawCenteredAtYAsWritten` | oled_ssd1322.c:598-608 | draws the run onto the buffer, without clearing, from the origin computed with the width `len·6 + (len + 1)` and clamped to 0 |
| `Text.AtYAsWrittenOffCentre` | oled_ssd1322.c:601-604 | as written, "AB" starts at column 56 with margins 56 and 59, and every fitting length leaves 2 or 3 more blank columns on the right than on the left |
| `Text.DrawCenteredAtY` | oled_ssd1322.c:598-608 | the same drawing with the run's own width `7·len - 1` |
| `Text.AtYCentred` | oled_ssd1322.c:601-604 | with the run's width, fitting text is centred within one column, text wider than the panel starts at 0, and the origin agrees with `SSD1322_DrawStringCentered` whenever that one is not negative |
| `Cursor.SetTextSize` | oled_ssd1322.c:234-238 | sizes 1..4 are taken, any other size is ignored, nothing else changes |
| `Cursor.SetTextColor` | oled_ssd1322.c:240-242 | the colour becomes `color & 3`, always a level, nothing else changes |
| `Cursor.SetTextWrap` | oled_ssd1322.c:244-246 | only the wrap flag changes |
| `Cursor.SetCursor` | oled_ssd1322.c:260-263 | only the cursor changes, to (x, y) |
| `Cursor.DefaultTextValid` | oled_ssd1322.c:129-133 | the power-on style is size 1, colour 3, wrap off, and it satisfies the setters' invariant |
| `Cursor.PrintChar` | oled_ssd1322.c:327-349 | the step computes `PrintFrame` / `PrintState`: newline handling, the optional wrap, drawing only at an origin left of column 128 and above row 64, then the advance |
| `Cursor.PrintNewline` | oled_ssd1322.c:328-332 | '\n' draws nothing, sets the cursor column to 0 and moves the cursor down 9·size rows |
| `Cursor.PrintAdvance` | oled_ssd1322.c:334-348 | any other code, drawable or not, first wraps when wrap is on and cursor_x + 6·size ≥ 128, and then advances the cursor by 7·size; the style is unchanged |
| `Cursor.PrintNoErase` | oled_ssd1322.c:343-346 | printing never erases: each cell keeps its value or takes the text colour; an unprintable code, or an origin off the right or bottom edge, changes nothing |
| `Cursor.WrapKeepsGlyphOnScreen` | oled_ssd1322.c:338-341 | with wrap on and a valid style, a drawn character's whole box lies left of column 128 |
| `Cursor.WrapExamples` | oled_ssd1322.c:338 | at size 1 cursors 126 and 122 wrap (the test is `>= 128`), 121 does not, and nothing wraps with wrap off |
| `Cursor.PrintString` | oled_ssd1322.c:351-355 | the loop prints the characters one by one, computing `Printed` |
| `Cursor.PrintedInvariants` | oled_ssd1322.c:327-355 | printing a string keeps the style, never moves the cursor up, never erases, and keeps a buffer of levels |
| `Cursor.PrintedBelowScreen` | oled_ssd1322.c:344 | once the cursor is at or below row 64, printing draws nothing more |
| `Cursor.DrawString` | oled_ssd1322.c:294-325 | the loop, including its early stop when a wrap moves below the panel, computes `DrawnFrom` |
| `Cursor.DrawStringIsPrint` | oled_ssd1322.c:294-349 | from the left edge, `SSD1322_DrawString` draws exactly what printing the same string from a cursor at (0, y) draws |
| `Scroll.Init` | oled_ssd1322.c:358-367 | the text is the first min(len, 63) characters of the format; its width 7·len - 1 lies in [-1, 440]; the line starts at offset 0 moving +1 and satisfies the scroll invariant |
| `Scroll.Tick` | oled_ssd1322.c:369-380 | draws the line at `DrawOffset` (centred when it fits, the current offset otherwise) and then steps the state |
| `Scroll.StepValid` | oled_ssd1322.c:374-379 | a tick keeps the invariant, moves a wide line by exactly one column, turns it to -1 exactly when the offset reaches w - 128 and to +1 exactly when it reaches 0, and keeps the direction in between |
| `Scroll.StaticLine` | oled_ssd1322.c:371-373 | a line no wider than the panel never moves, and it is drawn at the origin `SSD1322_DrawStringCentered` uses for the same text |
| `Scroll.StaticTickIdempotent` | oled_ssd1322.c:371-373 | ticking a line that fits redraws the same picture |
| `Scroll.IterateValid` | oled_ssd1322.c:369-380 | on every tick a wide line's offset stays in [0, w - 128] and the direction stays +1 or -1 |
| `Scroll.SweepOut` | oled_ssd1322.c:376-377 | moving with direction +1, k ticks advance the offset by k and turn only on arrival at w - 128 |
| `Scroll.SweepBack` | oled_ssd1322.c:376-378 | moving with direction -1, k ticks reduce the offset by k and turn only on arrival at 0 |
| `Scroll.WideLinePeriod` | oled_ssd1322.c:358-380 | from `Init`, a wide line reaches w - 128 after w - 128 ticks, and after 2·(w - 128) ticks it is back exactly where it started |
| `Bitmaps.Level4` | oled_ssd1322.c:478-487 | a 4bpp pixel reads byte row·((w+1)/2) + col/2, takes the high nibble for an even column and the low one for an odd column, and shifts it right by 2, so it is a level |
| `Bitmaps.Draw4bppBitmap` | oled_ssd1322.c:475-502 | the row/column-pair loops write `Level4` into exactly the on-screen cells of [x, x+w) × [y, y+h), and the right pixel of a pair only inside the width |
| `Bitmaps.CopyRow4` | oled_ssd1322.c:476-500 | one pass of the row loop extends the copied region from bitmap rows [0, row) to [0, row] and leaves every other cell unchanged |
| `Bitmaps.CopyPair4` | oled_ssd1322.c:477-499 | one byte writes the levels of columns col and col + 1, the second only inside the width, growing the copied region by exactly those cells |
| `Bitmaps.Unpack4` | oled_ssd1322.c:482-487 | byte hi·16 + lo gives levels hi >> 2 (left) and lo >> 2 (right); 0xF0 on a two-pixel row gives levels 3 and 0 |
| `Bitmaps.DrawGrayscaleBitmap` | oled_ssd1322.c:505-523 | the loops write pixel i of byte row·((w+3)/4) + col/4 as `(b >> (6 - 2i)) & 3` into exactly the on-screen cells of the rectangle |
| `Bitmaps.CopyRow2` | oled_ssd1322.c:506-521 | one pass of the row loop extends the copied region from bitmap rows [0, row) to [0, row] and leaves every other cell unchanged |
| `Bitmaps.CopyGroup2` | oled_ssd1322.c:507-520 | one byte writes the up-to-four levels of columns [col, col + 4) that lie inside the width, growing the copied region by exactly those cells |
| `Bitmaps.Unpack2` | oled_ssd1322.c:512-513 | four levels packed leftmost-first into the top bits come back out in order |
| `Bitmaps.BitmapFrameCondition` | oled_ssd1322.c:475-523 | both blitters leave every cell outside the rectangle unchanged and write only levels inside it |
| `Bitmaps.BitmapsKeepLevels` | oled_ssd1322.c:475-523 | after either blitter, a buffer of levels is still a buffer of levels |

## Left out

- The reset pulse (`SSD1322_Reset`), every `HAL_Delay`, the CS, D/C, reset and debug GPIO lines, and `HAL_SPI_Transmit` itself are hardware I/O. A trace records only which bytes are sent as commands and which as data.
- The retry loop is modelled on its own (`Protocol.SpiTx`). The trace functions record each transfer once, because the driver discards every transfer status and carries on; repeated attempts and failed transfers do not appear in a trace.
- `SSD1322_DisplayImage` streams a caller's buffer straight to the bus. Each iteration sends 128 bytes of a 256-byte buffer it only partly fills, so it has no coherent contract.
- The self-test and demo routines (`SSD1322_SelfTestRemap`, `SSD1322_FillTestPattern`, `SSD1322_DrawGridTest`, `pixel_grid_test`, `SSD1322_ComprehensiveSelfTest`) only sequence the modelled operations with delays.
- The contents of `Font6x8` (font6x8.h is not part of this model) and of `NHD_Logo`. The font is a parameter.
- The getters `SSD1322_GetTextSize`, `SSD1322_GetTextColor`, `SSD1322_GetTextWrap`, `SSD1322_GetCursor` and `SSD1322_GetContrast` are reads of the state fields (`TextState`, `ContrastWrite.stored`) and have no separate members.
- Scroll.Init: copies the format text literally. `snprintf`'s interpretation of `%` directives in `fmt` is not modelled.
- Arithmetic on C `int` (cursor advance, scroll offset, `len * 7`, text widths) is unbounded here; 32-bit overflow would need a cursor or string length near 2^31 and is not modelled.
- The `uint16_t` length of `SSD1322_SendCommandWithData` never truncates in the driver, whose calls pass payloads of 1 or 2 bytes; payload lengths are unbounded here. The 256-byte refresh lines go to `ssd1322_spi_tx` directly (oled_ssd1322.c:163) and are recorded as data transfers of their own.
- C strings: the string arguments of `SSD1322_DrawStringCentered`, `SSD1322_DrawStringAtOffset`, `draw_centered_at_y`, `SSD1322_PrintString`, `SSD1322_DrawString` and `ScrollLine_Init` are `seq<Byte>` values standing for the bytes before the terminating NUL. No contract requires them to be free of 0 bytes; a sequence holding a 0 byte has no C counterpart, since `strlen` and the `s[i]` loops would stop there.

## Findings

| source | as written | input that shows it | evidently intended | confidence | as-written member | corrected member |
|---|---|---|---|---|---|---|
| oled_ssd1322.c:601 | `total_width = len * 6 + (len + 1)`: one gap more than the run drawn at `x0 + 7i` has | "AB": x0 = 56, blank margins 56 on the left and 59 on the right | the run's own width `len * 6 + (len - 1)`, as in `SSD1322_DrawStringCentered`: x0 = 57, margins 57 and 58 | medium, not executed | `Text.AtYAsWrittenOffCentre` | `Text.AtYCentred` |
