/** The controller protocol as a trace of bus transfers.

    A transfer is either a command byte sent with the D/C line low (`Cmd`) or a run of
    bytes sent with the D/C line high (`Data`). Chip-select framing, the D/C and reset
    lines and the delays are hardware plumbing and do not appear in the trace.
    `Txn` groups one command with the data transfers that follow it; `Emit` turns
    commands into a trace and `Parse` recovers them.
 */
module Protocol {
  import opened Bits

  datatype Option<T> = None | Some(value: T)

  datatype Event = Cmd(op: Byte) | Data(bytes: seq<Byte>)

  /** One command and the data transfers sent after it. */
  datatype Txn = Txn(op: Byte, frames: seq<seq<Byte>>)

  // Full-panel address window (oled_ssd1322.h).
  const ColumnStart: Byte := 0x00
  const ColumnEnd: Byte := 0x7F
  const RowStart: Byte := 0x00
  const RowEnd: Byte := 0x3F

  // Opcodes used outside the initialisation table.
  const SetColumnCmd: Byte := 0x15
  const SetRowCmd: Byte := 0x75
  const WriteRamCmd: Byte := 0x5C
  const DisplayOffCmd: Byte := 0xAE
  const DisplayOnCmd: Byte := 0xAF
  const ContrastCmd: Byte := 0xC1
  const MasterContrastCmd: Byte := 0xC7

  /** The contrast the driver believes is programmed before any `SetContrast`. */
  const DefaultContrast: Byte := 0x9F

  // ---------------------------------------------------------------------------
  // Trace encoding and decoding

  function EmitTxn(t: Txn): (out: seq<Event>)
    ensures |out| == 1 + |t.frames|
  {
    [Cmd(t.op)] + Datas(t.frames)
  }

  function Emit(ts: seq<Txn>): seq<Event> {
    if |ts| == 0 then [] else EmitTxn(ts[0]) + Emit(ts[1..])
  }

  /** No data transfer of a well-formed command is empty: the driver never emits one. */
  predicate WellFormed(ts: seq<Txn>) {
    forall i, j :: 0 <= i < |ts| && 0 <= j < |ts[i].frames| ==> |ts[i].frames[j]| > 0
  }

  /** The number of `Data` transfers at the head of a trace. */
  function DataRun(t: seq<Event>): (n: nat)
    ensures n <= |t|
    ensures forall i :: 0 <= i < n ==> t[i].Data?
    ensures n < |t| ==> t[n].Cmd?
  {
    if |t| == 0 || t[0].Cmd? then 0 else 1 + DataRun(t[1..])
  }

  /** The data transfers carrying `frames`, in order. */
  function Datas(frames: seq<seq<Byte>>): (d: seq<Event>)
    ensures |d| == |frames|
  {
    seq(|frames|, i requires 0 <= i < |frames| => Data(frames[i]))
  }

  /** The bytes of each transfer of a run of data transfers. */
  function Payloads(d: seq<Event>): (frames: seq<seq<Byte>>)
    ensures |frames| == |d|
  {
    seq(|d|, i requires 0 <= i < |d| => if d[i].Data? then d[i].bytes else [])
  }

  predicate NonEmpty(frames: seq<seq<Byte>>) {
    forall i :: 0 <= i < |frames| ==> |frames[i]| > 0
  }

  /** Splits a trace back into commands. A trace that starts with data, or holds an empty
      data transfer, is not the output of the driver and has no parse. */
  function Parse(t: seq<Event>): Option<seq<Txn>>
    decreases |t|
  {
    if |t| == 0 then Some([])
    else if t[0].Data? then None
    else
      var n := DataRun(t[1..]);
      var frames := Payloads(t[1..1 + n]);
      var rest := Parse(t[1 + n..]);
      if !NonEmpty(frames) || rest.None? then None
      else Some([Txn(t[0].op, frames)] + rest.value)
  }

  lemma DataRunOfData(frames: seq<seq<Byte>>, rest: seq<Event>)
    requires |rest| == 0 || rest[0].Cmd?
    ensures DataRun(Datas(frames) + rest) == |frames|
  {
    var t := Datas(frames) + rest;
    assert forall i :: 0 <= i < |frames| ==> t[i].Data?;
    assert |frames| < |t| ==> t[|frames|].Cmd?;
  }

  /** Parsing one command whose data transfers are followed by another command (or by
      nothing). */
  lemma ParseCons(op: Byte, frames: seq<seq<Byte>>, rest: seq<Event>, t: seq<Event>)
    requires NonEmpty(frames)
    requires |rest| == 0 || rest[0].Cmd?
    requires t == [Cmd(op)] + (Datas(frames) + rest)
    ensures Parse(t) ==
      (if Parse(rest).None? then None else Some([Txn(op, frames)] + Parse(rest).value))
  {
    var d := Datas(frames) + rest;
    assert t[1..] == d;
    DataRunOfData(frames, rest);
    var n := DataRun(d);
    assert d[..n] == Datas(frames);
    assert t[1..1 + n] == Datas(frames);
    assert Payloads(t[1..1 + n]) == frames;
    assert t[1 + n..] == rest;
    ParseHead(t);
  }

  /** One unfolding of `Parse` on a non-empty trace. */
  lemma ParseHead(t: seq<Event>)
    requires |t| > 0
    ensures t[0].Data? ==> Parse(t) == None
    ensures t[0].Cmd? ==> var n := DataRun(t[1..]);
      Parse(t) == (if !NonEmpty(Payloads(t[1..1 + n])) || Parse(t[1 + n..]).None? then None
                   else Some([Txn(t[0].op, Payloads(t[1..1 + n]))] + Parse(t[1 + n..]).value))
  {
  }

  lemma WellFormedTail(ts: seq<Txn>)
    requires |ts| > 0 && WellFormed(ts)
    ensures WellFormed(ts[1..]) && NonEmpty(ts[0].frames)
  {
    forall i, j | 0 <= i < |ts[1..]| && 0 <= j < |ts[1..][i].frames|
      ensures |ts[1..][i].frames[j]| > 0
    {
      assert ts[1..][i] == ts[i + 1];
    }
    assert forall j :: 0 <= j < |ts[0].frames| ==> |ts[0].frames[j]| > 0;
  }

  lemma EmitCons(ts: seq<Txn>)
    requires |ts| > 0
    ensures Emit(ts) == [Cmd(ts[0].op)] + (Datas(ts[0].frames) + Emit(ts[1..]))
    ensures |Emit(ts[1..])| == 0 || Emit(ts[1..])[0].Cmd?
  {
    if |ts| > 1 {
      assert ts[1..][0] == ts[1];
    }
  }

  /** Decoding inverts encoding for every well-formed command list. */
  lemma {:induction false} ParseEmit(ts: seq<Txn>)
    requires WellFormed(ts)
    ensures Parse(Emit(ts)) == Some(ts)
  {
    if |ts| > 0 {
      WellFormedTail(ts);
      ParseEmit(ts[1..]);
      EmitCons(ts);
      ParseCons(ts[0].op, ts[0].frames, Emit(ts[1..]), Emit(ts));
      assert [ts[0]] + ts[1..] == ts;
    }
  }

  /** A run of data transfers is the encoding of its payloads. */
  lemma DatasPayloads(d: seq<Event>)
    requires forall i :: 0 <= i < |d| ==> d[i].Data?
    ensures Datas(Payloads(d)) == d
  {
  }

  lemma WellFormedCons(tx: Txn, rest: seq<Txn>)
    requires NonEmpty(tx.frames) && WellFormed(rest)
    ensures WellFormed([tx] + rest)
  {
    var ts := [tx] + rest;
    forall i, j | 0 <= i < |ts| && 0 <= j < |ts[i].frames|
      ensures |ts[i].frames[j]| > 0
    {
      if i > 0 {
        assert ts[i] == rest[i - 1];
      }
    }
  }

  lemma EmitConsTxn(tx: Txn, rest: seq<Txn>)
    ensures Emit([tx] + rest) == EmitTxn(tx) + Emit(rest)
  {
    assert ([tx] + rest)[1..] == rest;
  }

  /** One step of a successful parse: the head command, its data run and the rest. */
  lemma ParseSome(t: seq<Event>, ts: seq<Txn>)
    requires |t| > 0 && Parse(t) == Some(ts)
    ensures t[0].Cmd?
    ensures var n := DataRun(t[1..]);
      NonEmpty(Payloads(t[1..1 + n])) && Parse(t[1 + n..]).Some? &&
      ts == [Txn(t[0].op, Payloads(t[1..1 + n]))] + Parse(t[1 + n..]).value
  {
    ParseHead(t);
  }

  /** Conversely, every trace that parses is exactly the encoding of its parse, and the
      parse is well formed: `Parse` loses nothing. */
  lemma {:induction false} EmitParse(t: seq<Event>, ts: seq<Txn>)
    requires Parse(t) == Some(ts)
    ensures Emit(ts) == t && WellFormed(ts)
    decreases |t|
  {
    if |t| > 0 {
      ParseSome(t, ts);
      var n := DataRun(t[1..]);
      var rest := Parse(t[1 + n..]).value;
      EmitParse(t[1 + n..], rest);
      Reassemble(t, n, rest);
    }
  }

  /** A command, a run of `n` data transfers and the encoding of `rest` make up the
      encoding of one more command followed by `rest`. */
  lemma Reassemble(t: seq<Event>, n: nat, rest: seq<Txn>)
    requires 1 + n <= |t| && t[0].Cmd?
    requires forall i :: 0 <= i < n ==> t[1..][i].Data?
    requires NonEmpty(Payloads(t[1..1 + n]))
    requires Emit(rest) == t[1 + n..] && WellFormed(rest)
    ensures var tx := Txn(t[0].op, Payloads(t[1..1 + n]));
      Emit([tx] + rest) == t && WellFormed([tx] + rest)
  {
    var head := t[1..1 + n];
    assert forall i :: 0 <= i < |head| ==> head[i] == t[1..][i];
    DatasPayloads(head);
    var tx := Txn(t[0].op, Payloads(head));
    EmitConsTxn(tx, rest);
    WellFormedCons(tx, rest);
    SplitHead(t, n);
  }

  lemma SplitHead(t: seq<Event>, n: nat)
    requires 1 + n <= |t| && t[0].Cmd?
    ensures t == [Cmd(t[0].op)] + t[1..1 + n] + t[1 + n..]
  {
    assert t == [t[0]] + t[1..];
    assert t[1..] == t[1..1 + n] + t[1 + n..];
  }

  /** The opcodes of the command transfers of a trace, in order. */
  function CmdOps(t: seq<Event>): seq<Byte> {
    if |t| == 0 then [] else (if t[0].Cmd? then [t[0].op] else []) + CmdOps(t[1..])
  }

  lemma {:induction false} CmdOpsAppend(a: seq<Event>, b: seq<Event>)
    ensures CmdOps(a + b) == CmdOps(a) + CmdOps(b)
    decreases |a|
  {
    if |a| == 0 {
      assert a + b == b;
    } else {
      assert (a + b)[1..] == a[1..] + b;
      CmdOpsAppend(a[1..], b);
    }
  }

  lemma {:induction false} CmdOpsDatas(frames: seq<seq<Byte>>)
    ensures CmdOps(Datas(frames)) == []
    decreases |frames|
  {
    if |frames| > 0 {
      assert Datas(frames)[1..] == Datas(frames[1..]);
      CmdOpsDatas(frames[1..]);
    }
  }

  /** The opcodes of a command list, in order. */
  function Ops(ts: seq<Txn>): seq<Byte> {
    seq(|ts|, i requires 0 <= i < |ts| => ts[i].op)
  }

  /** The command transfers of an encoded command list carry its opcodes, in order. */
  lemma {:induction false} CmdOpsEmit(ts: seq<Txn>)
    ensures CmdOps(Emit(ts)) == Ops(ts)
  {
    if |ts| > 0 {
      CmdOpsAppend(EmitTxn(ts[0]), Emit(ts[1..]));
      CmdOpsAppend([Cmd(ts[0].op)], Datas(ts[0].frames));
      CmdOpsDatas(ts[0].frames);
      CmdOpsEmit(ts[1..]);
      assert Ops(ts) == [ts[0].op] + Ops(ts[1..]);
    }
  }

  lemma EmitHead(ts: seq<Txn>)
    requires |ts| > 0
    ensures |Emit(ts)| > 0 && Emit(ts)[0] == Cmd(ts[0].op)
  {
  }

  lemma {:induction false} EmitSnoc(ts: seq<Txn>, t: Txn)
    ensures Emit(ts + [t]) == Emit(ts) + EmitTxn(t)
  {
    if |ts| == 0 {
      assert ts + [t] == [t];
    } else {
      assert (ts + [t])[1..] == ts[1..] + [t];
      EmitSnoc(ts[1..], t);
    }
  }

  /** A command list whose last command carries no data ends its encoding with that
      command's opcode. */
  lemma EmitLast(ts: seq<Txn>)
    requires |ts| > 0 && ts[|ts| - 1].frames == []
    ensures |Emit(ts)| > 0 && Emit(ts)[|Emit(ts)| - 1] == Cmd(ts[|ts| - 1].op)
  {
    var n := |ts| - 1;
    assert ts == ts[..n] + [ts[n]];
    EmitSnoc(ts[..n], ts[n]);
  }

  // ---------------------------------------------------------------------------
  // Bounded retry of one transfer (oled_ssd1322.c:21-30)

  /** `HAL_StatusTypeDef`. */
  datatype Status = HalOk | HalError | HalBusy | HalTimeout

  /** `SSD1322_SPI_RETRY_MAX`. */
  const RetryMax := 3

  /** The status a transfer returns and how many times it called `HAL_SPI_Transmit`. */
  datatype TxResult = TxResult(status: Status, attempts: nat)

  /** The retry loop from attempt number `attempt` on; `outcomes[i]` is the status the
      HAL returns on attempt `i`. */
  function TryFrom(outcomes: seq<Status>, attempt: nat): (r: TxResult)
    requires attempt < RetryMax <= |outcomes|
    ensures attempt < r.attempts <= RetryMax
    ensures r.status == outcomes[r.attempts - 1]
    ensures forall i :: attempt <= i < r.attempts - 1 ==> outcomes[i] != HalOk
    ensures r.status != HalOk ==> r.attempts == RetryMax
    decreases RetryMax - attempt
  {
    if outcomes[attempt] == HalOk then TxResult(HalOk, attempt + 1)
    else if attempt + 1 == RetryMax then TxResult(outcomes[attempt], attempt + 1)
    else TryFrom(outcomes, attempt + 1)
  }

  /** `ssd1322_spi_tx`: at most `RetryMax` attempts, stopping at the first success. The
      transfer succeeds iff one of the first `RetryMax` attempts does; otherwise it
      reports the status of the last attempt. */
  function SpiTx(outcomes: seq<Status>): (r: TxResult)
    requires |outcomes| >= RetryMax
    ensures 1 <= r.attempts <= RetryMax
    ensures r.status == HalOk <==> exists i :: 0 <= i < RetryMax && outcomes[i] == HalOk
    ensures r.status == HalOk ==>
      (outcomes[r.attempts - 1] == HalOk && forall i :: 0 <= i < r.attempts - 1 ==> outcomes[i] != HalOk)
    ensures r.status != HalOk ==> r.attempts == RetryMax && r.status == outcomes[RetryMax - 1]
  {
    TryFrom(outcomes, 0)
  }

  // ---------------------------------------------------------------------------
  // Command helpers (oled_ssd1322.c:33-89, 525-538)

  /** `SSD1322_SendCommand`: one command byte, no data phase. */
  function SendCommand(op: Byte): (t: seq<Event>)
    ensures Parse(t) == Some([Txn(op, [])])
  {
    assert Datas([]) + [] == [];
    ParseCons(op, [], [], [Cmd(op)]);
    assert Parse([]) == Some([]);
    assert [Txn(op, [])] + [] == [Txn(op, [])];
    [Cmd(op)]
  }

  /** `SSD1322_SendCommandWithData`: the command byte, then the payload as one data
      transfer; a zero-length payload has no data phase at all. */
  function SendCommandWithData(op: Byte, payload: seq<Byte>): (t: seq<Event>)
    ensures |payload| == 0 ==> t == SendCommand(op)
    ensures Parse(t) == Some([Txn(op, if |payload| > 0 then [payload] else [])])
  {
    var frames := if |payload| > 0 then [payload] else [];
    var t := [Cmd(op)] + (if |payload| > 0 then [Data(payload)] else []);
    assert Datas(frames) + [] == (if |payload| > 0 then [Data(payload)] else []);
    ParseCons(op, frames, [], t);
    assert Parse([]) == Some([]);
    assert [Txn(op, frames)] + [] == [Txn(op, frames)];
    t
  }

  /** `SSD1322_SetColumn`: one column-address command carrying the two bounds. */
  function SetColumn(a: Byte, b: Byte): (t: seq<Event>)
    ensures Parse(t) == Some([Txn(SetColumnCmd, [[a, b]])])
  {
    SendCommandWithData(SetColumnCmd, [a, b])
  }

  /** `SSD1322_SetRow`: one row-address command carrying the two bounds. */
  function SetRow(a: Byte, b: Byte): (t: seq<Event>)
    ensures Parse(t) == Some([Txn(SetRowCmd, [[a, b]])])
  {
    SendCommandWithData(SetRowCmd, [a, b])
  }

  /** `SSD1322_DisplayOnOff`: a single bare command, 0xAF to switch on, 0xAE to switch off. */
  function DisplayOnOff(on: bool): (t: seq<Event>)
    ensures Parse(t) == Some([Txn(if on then DisplayOnCmd else DisplayOffCmd, [])])
  {
    SendCommand(if on then DisplayOnCmd else DisplayOffCmd)
  }

  /** `SSD1322_EntireDisplayOn` / `SSD1322_EntireDisplayOff`: the bare commands 0xA5 (all
      pixels lit) and 0xA4 (normal display). */
  function EntireDisplayOn(): (t: seq<Event>)
    ensures Parse(t) == Some([Txn(0xA5, [])])
  {
    SendCommand(0xA5)
  }

  function EntireDisplayOff(): (t: seq<Event>)
    ensures Parse(t) == Some([Txn(0xA4, [])])
  {
    SendCommand(0xA4)
  }

  /** What a contrast setter leaves behind: the value the driver remembers and the
      transfers it sent. */
  datatype ContrastWrite = ContrastWrite(stored: Byte, trace: seq<Event>)

  /** `SSD1322_SetContrast`: remembers the value (read back by `SSD1322_GetContrast`) and
      programs the same value into the contrast register. */
  function SetContrast(contrast: Byte): (w: ContrastWrite)
    ensures w.stored == contrast
    ensures Parse(w.trace) == Some([Txn(ContrastCmd, [[w.stored]])])
  {
    ContrastWrite(contrast, SendCommandWithData(ContrastCmd, [contrast]))
  }

  /** `SSD1322_SetMasterContrast`: only the low four bits reach the register. */
  function SetMasterContrast(contrast: Byte): (t: seq<Event>)
    ensures exists m: Byte :: (m < 16 && (contrast - m) % 16 == 0 &&
                               Parse(t) == Some([Txn(MasterContrastCmd, [[m]])]))
    ensures contrast < 16 ==> Parse(t) == Some([Txn(MasterContrastCmd, [[contrast]])])
  {
    var m: Byte := contrast % 16;
    assert Parse(SendCommandWithData(MasterContrastCmd, [m])) == Some([Txn(MasterContrastCmd, [[m]])]);
    SendCommandWithData(MasterContrastCmd, [m])
  }

  /** Masking to four bits: arguments sixteen apart program the same register value, and
      0x1F sends 0x0F. */
  lemma MasterContrastMask(contrast: Byte)
    requires contrast + 16 < 256
    ensures SetMasterContrast(contrast + 16) == SetMasterContrast(contrast)
    ensures Parse(SetMasterContrast(0x1F)) == Some([Txn(MasterContrastCmd, [[0x0F]])])
  {
    assert (contrast + 16) % 16 == contrast % 16;
    assert 0x1F % 16 == 0x0F;
  }
}
