/**
 The floppy controller as the guest sees it: ready, or collecting the bytes of a command, or with
 result bytes left to hand out.  Together with the DMA registers and low memory it moves sectors.
 */
module FdcSpec {
  import opened Bytes
  import opened Image
  import DmaSpec

  const CMD_READ_DATA := 0x6
  const CMD_RECALIBRATE := 0x7
  const CMD_SENSE_INTERRUPT := 0x8
  const CMD_READ_ID := 0xA
  const CMD_SEEK := 0xF

  const DIGITAL_OUT := 2
  const MAIN_STATUS := 4
  const DATA_FIFO := 5
  const CONFIGURATION := 7

  const BUFFER_SIZE := 0x1_0000
  const LOW_BLOCK := 0xA_0000
  const HIGH_BASE := 0xC_0000
  const MEM_SIZE := 0xE_0000

  type Status3 = s: seq<byte> | |s| == 3 witness Zeros(3)
  type Buffer64K = s: seq<byte> | |s| == BUFFER_SIZE witness Zeros(BUFFER_SIZE)

  /** Memory below 0xE0000 by guest address; nothing is ever moved to the gap from 0xA0000 to 0xBFFFF. */
  type LowMem = s: seq<byte> | |s| == MEM_SIZE witness Zeros(MEM_SIZE)
  type PageRegs = s: seq<byte> | |s| == 15 witness Zeros(15)

  datatype Phase = Ready | Command(bytes: seq<byte>) | Result(bytes: seq<byte>)

  datatype Fdc = Fdc(
    phase: Phase, ndma: bool, dor: byte, ccr: byte, dsr: byte, cyl: byte, head: byte, sect: byte,
    st: Status3, image: seq<byte>, buffer: Buffer64K, irq6: bool)

  /** The floppy controller with what its DMA transfers depend on and change. */
  datatype FloppySystem = FloppySystem(fdc: Fdc, ctl: DmaSpec.Ctl, page: PageRegs, mem: LowMem)

  datatype Access = InB(off: int) | OutB(off: int, val: byte) | Dma(a: DmaSpec.Access) | Page(off: int, val: byte)

  /** Main status register: RQM always, DIO with results, command-busy while collecting, plus the left-over NDMA bit. */
  function Msr(f: Fdc): byte {
    if f.phase.Result? then 0xC0
    else 0x80 + (if f.ndma then 0x20 else 0) + (if f.phase.Command? then 0x10 else 0)
  }

  /** Bytes of a command, opcode included, keyed by the low nibble; 0 for an unknown command. */
  function CommandLength(opcode: byte): nat {
    var c := opcode % 0x10;
    if c == CMD_READ_DATA then 9
    else if c == CMD_RECALIBRATE || c == CMD_READ_ID then 2
    else if c == CMD_SENSE_INTERRUPT then 1
    else if c == CMD_SEEK then 3
    else 0
  }

  /** Cylinder/head/sector to block number, before truncation to 32 bits. */
  function Block(c: int, h: int, s: int): int { 18 * 2 * c + h * 18 + s - 1 }

  function ReadOffset(cmd: seq<byte>): nat
    requires |cmd| == 9
  {
    Block(cmd[2], cmd[3], cmd[4]) % 0x1_0000_0000 * 512 % 0x1_0000_0000
  }

  // ----- the DMA transfer -----

  function Dest(ctl: DmaSpec.Ctl, page: PageRegs): nat {
    page[1] as int * 0x1_0000 + ctl.reg[DmaSpec.START_ADDR_2].Value()
  }

  function Count(ctl: DmaSpec.Ctl): nat { ctl.reg[DmaSpec.COUNT_2].Value() }

  /** A range that lies in one of the two host blocks of low memory. */
  predicate InBlock(d: nat, n: nat) { d + n <= LOW_BLOCK || (HIGH_BASE <= d && d + n <= MEM_SIZE) }

  /** What the transfer needs: the whole destination in one block. */
  predicate TransferFits(ctl: DmaSpec.Ctl, page: PageRegs) {
    InBlock(Dest(ctl, page), Count(ctl) + 1)
  }

  // ----- commands -----

  function ResultOf(f: Fdc): seq<byte> { [f.st[0], f.st[1], f.st[2], f.cyl, f.head, f.sect, 2] }

  predicate Executable(cmd: seq<byte>, ctl: DmaSpec.Ctl, page: PageRegs) {
    && |cmd| > 0 && |cmd| == CommandLength(cmd[0])
    && (cmd[0] % 0x10 == CMD_READ_DATA ==> cmd[6] <= 128 && TransferFits(ctl, page))
  }

  /** Everything but READ DATA concerns the controller alone. */
  function ExecuteLocal(f: Fdc, cmd: seq<byte>): Fdc
    requires |cmd| > 0 && |cmd| == CommandLength(cmd[0]) && cmd[0] % 0x10 != CMD_READ_DATA
  {
    var op := cmd[0] % 0x10;
    if op == CMD_RECALIBRATE then f.(cyl := 0, phase := Ready, ndma := false, irq6 := true)
    else if op == CMD_SENSE_INTERRUPT then f.(phase := Result([f.st[0], f.cyl]), ndma := false, irq6 := false)
    else if op == CMD_READ_ID then f.(phase := Result(ResultOf(f)), ndma := false, irq6 := true)
    else f.(head := cmd[1] / 4, cyl := cmd[2], phase := Ready, ndma := true, irq6 := true)
  }

  function Execute(s: FloppySystem, cmd: seq<byte>): FloppySystem
    requires Executable(cmd, s.ctl, s.page)
  {
    if cmd[0] % 0x10 == CMD_READ_DATA then
      var buffer := Splice(s.fdc.buffer, 0, FileRead(s.fdc.image, ReadOffset(cmd), 512 * cmd[6] as int));
      var g := s.fdc.(cyl := cmd[2], head := cmd[3], buffer := buffer, ndma := false, irq6 := true);
      s.(fdc := g.(phase := Result(ResultOf(g))),
         mem := Splice(s.mem, Dest(s.ctl, s.page), buffer[..Count(s.ctl) + 1]))
    else
      s.(fdc := ExecuteLocal(s.fdc, cmd))
  }

  // ----- steps -----

  function Pending(f: Fdc): seq<byte> { if f.phase.Command? then f.phase.bytes else [] }

  predicate Inv(f: Fdc) {
    && (f.phase.Command? ==> 0 < |f.phase.bytes| < CommandLength(f.phase.bytes[0]))
    && (f.phase.Result? ==> 0 < |f.phase.bytes| <= 7)
  }

  /** Accesses that keep the main-status handshake, use implemented ports and known commands. */
  predicate Legal(s: FloppySystem, a: Access) {
    match a
    case InB(off) => off == MAIN_STATUS || off == DIGITAL_OUT || (off == DATA_FIFO && s.fdc.phase.Result?)
    case OutB(off, v) =>
      || off == DIGITAL_OUT || off == CONFIGURATION
      || (off == DATA_FIFO && !s.fdc.phase.Result?
          && var cmd := Pending(s.fdc) + [v];
             CommandLength(cmd[0]) != 0 && (|cmd| == CommandLength(cmd[0]) ==> Executable(cmd, s.ctl, s.page)))
    case Dma(d) => DmaSpec.Legal(d)
    case Page(off, _) => 0 <= off < 15
  }

  lemma NeverTooLong(s: FloppySystem, v: byte)
    requires Inv(s.fdc) && Legal(s, OutB(DATA_FIFO, v))
    ensures var cmd := Pending(s.fdc) + [v]; |cmd| <= CommandLength(cmd[0])
  {}

  predicate Completes(f: Fdc, a: Access) {
    && a.OutB? && a.off == DATA_FIFO
    && var cmd := Pending(f) + [a.val]; |cmd| == CommandLength(cmd[0])
  }

  function ReadPort(f: Fdc, off: int): byte {
    if off == MAIN_STATUS then Msr(f)
    else if off == DIGITAL_OUT then f.dor
    else if f.phase.Result? && |f.phase.bytes| > 0 then f.phase.bytes[0] else 0
  }

  /** Taking the last result byte ends the result phase and drops the interrupt. */
  function AfterReadPort(f: Fdc, off: int): Fdc {
    if off != DATA_FIFO || !f.phase.Result? || |f.phase.bytes| == 0 then f
    else if |f.phase.bytes| == 1 then f.(phase := Ready, ndma := true, irq6 := false)
    else f.(phase := Result(f.phase.bytes[1..]))
  }

  /** Clearing bit 2 of the digital output register resets; the bit itself is never stored. */
  function WriteDor(f: Fdc, v: byte): Fdc {
    if v / 4 % 2 == 0 then f.(phase := Ready, ndma := false, ccr := 0, dsr := 0, irq6 := true, dor := v)
    else f.(dor := v - 4)
  }

  function Step(s: FloppySystem, a: Access): (s': FloppySystem)
    requires Inv(s.fdc) && Legal(s, a)
    ensures Inv(s'.fdc)
  {
    match a
    case InB(off) => s.(fdc := AfterReadPort(s.fdc, off))
    case OutB(off, v) =>
      if off == DIGITAL_OUT then s.(fdc := WriteDor(s.fdc, v))
      else if off == CONFIGURATION then s.(fdc := s.fdc.(ccr := v, dsr := s.fdc.dsr / 4 * 4 + v % 4))
      else if Completes(s.fdc, a) then Execute(s, Pending(s.fdc) + [v])
      else s.(fdc := s.fdc.(phase := Command(Pending(s.fdc) + [v])))
    case Dma(d) => s.(ctl := DmaSpec.Step(s.ctl, d))
    case Page(off, v) => s.(page := s.page[off := v])
  }

  predicate LegalRun(s: FloppySystem, run: seq<Access>)
    requires Inv(s.fdc)
    decreases |run|
  {
    |run| == 0 || (Legal(s, run[0]) && LegalRun(Step(s, run[0]), run[1..]))
  }

  function Run(s: FloppySystem, run: seq<Access>): (s': FloppySystem)
    requires Inv(s.fdc) && LegalRun(s, run)
    ensures Inv(s'.fdc)
    decreases |run|
  {
    if |run| == 0 then s else Run(Step(s, run[0]), run[1..])
  }
}
