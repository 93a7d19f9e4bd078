/** `SSD1322_RefreshFromFramebuffer` and `SSD1322_Clear` (oled_ssd1322.c:136-175): how the
    2-bit framebuffer reaches the controller's display RAM.

    Each cell is widened to a byte by `gray2byte` and sent twice, so one 128-cell row
    becomes one 256-byte data transfer; 64 such transfers follow the write-RAM command.
 */
module Refresh {
  import opened Bits
  import opened Framebuffer
  import opened Protocol

  const LineBytes := 2 * Width

  /** `gray2byte`: the low two bits select one of four evenly spaced brightness bytes. */
  function Gray2Byte(g: Byte): (b: Byte)
    ensures b == 0x55 * (g % 4)
  {
    match g % 4
    case 0 => 0x00
    case 1 => 0x55
    case 2 => 0xAA
    case 3 => 0xFF
  }

  /** Reads a grayscale level back from a brightness byte. */
  function LevelOf(b: Byte): Byte {
    b / 0x55
  }

  /** `gray2byte` keeps the level: reading the byte back gives `g & 3`, and two levels
      map to the same byte only if they are the same level. */
  lemma Gray2ByteRoundTrip(g: Byte, h: Byte)
    ensures LevelOf(Gray2Byte(g)) == g % 4
    ensures Gray2Byte(g) == Gray2Byte(h) <==> g % 4 == h % 4
  {
  }

  /** The 256-byte line buffer of one framebuffer row: bytes `2c` and `2c + 1` both carry
      cell `c`. */
  function ExpandRow(row: Row): (line: seq<Byte>)
    ensures |line| == LineBytes
  {
    seq(LineBytes, i requires 0 <= i < LineBytes => Gray2Byte(row[i / 2]))
  }

  /** The inner loop of the refresh: fills `linebuf` two bytes per cell. */
  method ExpandLine(row: Row) returns (line: seq<Byte>)
    ensures |line| == LineBytes
    ensures forall c :: 0 <= c < Width ==>
      line[2 * c] == Gray2Byte(row[c]) && line[2 * c + 1] == Gray2Byte(row[c])
    ensures line == ExpandRow(row)
  {
    line := seq(LineBytes, _ => 0);
    var col := 0;
    while col < Width
      invariant 0 <= col <= Width && |line| == LineBytes
      invariant forall i :: 0 <= i < 2 * col ==> line[i] == Gray2Byte(row[i / 2])
    {
      var b := Gray2Byte(row[col]);
      line := line[2 * col := b];
      line := line[2 * col + 1 := b];
      col := col + 1;
    }
  }

  /** Reads a framebuffer row back from a line: the level of the first byte of each pair. */
  function DecodeLine(line: seq<Byte>): Row
    requires |line| == LineBytes
  {
    seq(Width, c requires 0 <= c < Width => LevelOf(line[2 * c]))
  }

  /** The data transfers of a refresh, one line per framebuffer row. */
  function Lines(fb: Frame): (ls: seq<seq<Byte>>)
    ensures |ls| == Height
  {
    seq(Height, r requires 0 <= r < Height => ExpandRow(fb[r]))
  }

  /** The commands of a refresh: the full-panel address window, then write-RAM followed
      by the 64 lines. */
  function RefreshTxns(fb: Frame): seq<Txn> {
    [Txn(SetColumnCmd, [[ColumnStart, ColumnEnd]]),
     Txn(SetRowCmd, [[RowStart, RowEnd]]),
     Txn(WriteRamCmd, Lines(fb))]
  }

  /** The transfers of `SSD1322_RefreshFromFramebuffer` for the buffer `fb`. */
  function RefreshTrace(fb: Frame): seq<Event> {
    SetColumn(ColumnStart, ColumnEnd) + SetRow(RowStart, RowEnd) + SendCommand(WriteRamCmd)
      + Datas(Lines(fb))
  }

  /** `SSD1322_RefreshFromFramebuffer`: the address commands, then the row loop that
      expands and sends one line per row. */
  method RefreshFromFramebuffer(fb: Frame) returns (t: seq<Event>)
    ensures t == RefreshTrace(fb)
  {
    t := SetColumn(ColumnStart, ColumnEnd) + SetRow(RowStart, RowEnd) + SendCommand(WriteRamCmd);
    var head := t;
    var row := 0;
    while row < Height
      invariant 0 <= row <= Height
      invariant t == head + Datas(Lines(fb)[..row])
    {
      var line := ExpandLine(fb[row]);
      assert Lines(fb)[..row + 1] == Lines(fb)[..row] + [line];
      t := t + [Data(line)];
      row := row + 1;
    }
    assert Lines(fb)[..Height] == Lines(fb);
  }

  lemma EmitThree(a: Txn, b: Txn, c: Txn)
    ensures Emit([a, b, c]) == EmitTxn(a) + EmitTxn(b) + EmitTxn(c)
  {
    var ts := [a, b, c];
    assert ts[1..] == [b, c] && ts[1..][1..] == [c] && ts[1..][1..][1..] == [];
    assert Emit([c]) == EmitTxn(c) + [];
  }

  lemma RefreshIsEmit(fb: Frame)
    ensures RefreshTrace(fb) == Emit(RefreshTxns(fb))
  {
    var ts := RefreshTxns(fb);
    EmitThree(ts[0], ts[1], ts[2]);
    assert Datas([[ColumnStart, ColumnEnd]]) == [Data([ColumnStart, ColumnEnd])];
    assert Datas([[RowStart, RowEnd]]) == [Data([RowStart, RowEnd])];
    assert Datas([]) == [];
  }

  lemma RefreshWellFormed(fb: Frame)
    ensures WellFormed(RefreshTxns(fb))
  {
    var ts := RefreshTxns(fb);
    forall i, j | 0 <= i < |ts| && 0 <= j < |ts[i].frames|
      ensures |ts[i].frames[j]| > 0
    {
      if i == 2 {
        assert ts[i].frames[j] == ExpandRow(fb[j]);
      }
    }
  }

  /** The refresh trace is exactly the encoding of its three commands, and it decodes
      back to them. */
  lemma RefreshParses(fb: Frame)
    ensures RefreshTrace(fb) == Emit(RefreshTxns(fb))
    ensures Parse(RefreshTrace(fb)) == Some(RefreshTxns(fb))
  {
    RefreshIsEmit(fb);
    RefreshWellFormed(fb);
    ParseEmit(RefreshTxns(fb));
  }

  /** The shape of a refresh: column window 0x00..0x7F, row window 0x00..0x3F, write-RAM,
      then exactly 64 transfers of 256 bytes in which bytes `2c` and `2c + 1` of transfer
      `r` both hold `gray2byte(framebuf[r][c])`. */
  lemma RefreshShape(fb: Frame)
    ensures var t := RefreshTrace(fb);
      |t| == 5 + Height &&
      t[0] == Cmd(0x15) && t[1] == Data([0x00, 0x7F]) &&
      t[2] == Cmd(0x75) && t[3] == Data([0x00, 0x3F]) &&
      t[4] == Cmd(0x5C) &&
      forall r :: 0 <= r < Height ==>
        t[5 + r].Data? && |t[5 + r].bytes| == 256 &&
        forall c :: 0 <= c < Width ==>
          t[5 + r].bytes[2 * c] == Gray2Byte(fb[r][c]) &&
          t[5 + r].bytes[2 * c + 1] == Gray2Byte(fb[r][c])
  {
    var t := RefreshTrace(fb);
    var head := SetColumn(ColumnStart, ColumnEnd) + SetRow(RowStart, RowEnd) + SendCommand(WriteRamCmd);
    assert |head| == 5;
    forall r | 0 <= r < Height
      ensures t[5 + r] == Data(ExpandRow(fb[r]))
    {
      assert t[5 + r] == Datas(Lines(fb))[r];
    }
  }

  /** Decoding the transmitted lines gives back the framebuffer masked to levels; for a
      buffer of levels (the driver's invariant) it is the buffer itself. */
  lemma RefreshRoundTrip(fb: Frame)
    ensures forall r, c :: 0 <= r < Height && 0 <= c < Width ==>
      DecodeLine(Lines(fb)[r])[c] == fb[r][c] % 4
    ensures IsLevels(fb) ==> forall r :: 0 <= r < Height ==> DecodeLine(Lines(fb)[r]) == fb[r]
  {
    forall r, c | 0 <= r < Height && 0 <= c < Width
      ensures DecodeLine(Lines(fb)[r])[c] == fb[r][c] % 4
    {
      Gray2ByteRoundTrip(fb[r][c], fb[r][c]);
    }
  }

  /** `SSD1322_Clear`: zero-fill the buffer, then refresh it; every transmitted byte is
      0x00. */
  method Clear(fb: Frame) returns (out: Frame, t: seq<Event>)
    ensures out == Blank()
    ensures t == RefreshTrace(Blank())
    ensures forall r, i :: 0 <= r < Height && 0 <= i < LineBytes ==> Lines(out)[r][i] == 0
  {
    out := ClearFramebuffer(fb);
    t := RefreshFromFramebuffer(out);
  }
}
