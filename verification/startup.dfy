/** `SSD1322_Init` (oled_ssd1322.c:92-123): the fixed register programming sequence
    issued after the reset pulse. */
module Startup {
  import opened Bits
  import opened Protocol

  /** The command `SSD1322_SendCommandWithData(op, payload)` sends, as a `Txn`;
      `SSD1322_SendCommand(op)` sends `WithData(op, [])`. */
  function WithData(op: Byte, payload: seq<Byte>): Txn {
    Txn(op, if |payload| > 0 then [payload] else [])
  }

  /** Encoding `WithData(op, payload)` gives exactly the transfers of
      `SSD1322_SendCommandWithData(op, payload)`. */
  lemma WithDataEmit(op: Byte, payload: seq<Byte>)
    ensures EmitTxn(WithData(op, payload)) == SendCommandWithData(op, payload)
  {
    assert Datas(WithData(op, payload).frames) == (if |payload| > 0 then [Data(payload)] else []);
  }

  /** The opcodes of the register writes of `SSD1322_Init` after the reset pulse, in the
      order the function issues them, and their payloads (empty where the source calls
      `SSD1322_SendCommand`). */
  const InitOpcodes: seq<Byte> := [
    DisplayOffCmd, 0xFD, 0xB3, 0xCA, 0xA2, 0xAB, 0xA1, 0xA0, MasterContrastCmd, ContrastCmd,
    0xB1, 0xBB, 0xB4, 0xBE, 0xA6, 0xA9, 0xD1, 0xB5, 0xB9, 0xB6, DisplayOnCmd]

  const InitPayloads: seq<seq<Byte>> := [
    [],             // display off
    [0x12],         // command lock
    [0x91],         // display clock
    [0x3F],         // multiplex ratio
    [0x00],         // display offset
    [0x01],         // function select (internal VDD)
    [0x00],         // start line
    [0x16, 0x11],   // remap
    [0x0F],         // master contrast
    [DefaultContrast],
    [0x72],         // phase length
    [0x1F],         // precharge voltage
    [0xA0, 0xFD],   // display enhancement A
    [0x04],         // VCOMH
    [],             // normal display
    [],             // exit partial display
    [0xA2, 0x20],   // display enhancement B
    [0x00],         // GPIO
    [],             // default grayscale table
    [0x08],         // second precharge
    []]             // display on

  function InitRegisters(): (ts: seq<Txn>)
    ensures |ts| == |InitOpcodes|
    ensures Ops(ts) == InitOpcodes
  {
    seq(|InitOpcodes|, i requires 0 <= i < |InitOpcodes| => WithData(InitOpcodes[i], InitPayloads[i]))
  }

  lemma InitWellFormed()
    ensures WellFormed(InitRegisters())
  {
    var ts := InitRegisters();
    forall i, j | 0 <= i < |ts| && 0 <= j < |ts[i].frames|
      ensures |ts[i].frames[j]| > 0
    {
      var p := InitPayloads[i];
      assert ts[i] == WithData(InitOpcodes[i], p);
    }
  }

  /** `SSD1322_Init` after the reset pulse: the concatenation of the transfers of its
      `SendCommand` / `SendCommandWithData` calls. The trace decodes back to exactly the
      register table. */
  function Init(): (t: seq<Event>)
    ensures Parse(t) == Some(InitRegisters())
  {
    InitWellFormed();
    ParseEmit(InitRegisters());
    Emit(InitRegisters())
  }

  /** The command transfers of `SSD1322_Init` carry the register opcodes in their fixed
      order. */
  lemma InitCmdOps()
    ensures CmdOps(Init()) == InitOpcodes
  {
    CmdOpsEmit(InitRegisters());
  }

  /** `SSD1322_Init` powers the panel off first and on last. */
  lemma InitOffFirstOnLast()
    ensures Init()[0] == Cmd(DisplayOffCmd)
    ensures Init()[|Init()| - 1] == Cmd(DisplayOnCmd)
  {
    var ts := InitRegisters();
    EmitHead(ts);
    assert ts[20] == WithData(InitOpcodes[20], InitPayloads[20]);
    EmitLast(ts);
  }

  /** In the register table of `SSD1322_Init`, display-on is only the last entry, so
      remap, contrast and the rest are all configured while the panel is dark. */
  lemma DisplayOnOnlyLast()
    ensures forall i :: 0 <= i < |InitOpcodes| - 1 ==> InitOpcodes[i] != DisplayOnCmd
  {
  }
}
