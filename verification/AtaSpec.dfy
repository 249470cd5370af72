/**
 The ATA PIO interface as the guest sees it: a task file of registers, and at most one data
 transfer in progress, seen as the bytes still to come or the bytes already sent.  There are no
 buffers, offsets or sizes here; class `AtaController` refines this machine.
 */
module AtaSpec {
  import opened Bytes
  import opened Image

  const REG_ERROR := 1
  const REG_FEATURES := 2
  const REG_SECTOR_COUNT := 3
  const REG_SECTOR_NUMBER := 4
  const REG_CYLINDER_LOW := 5
  const REG_CYLINDER_HIGH := 6
  const REG_DEVICE_HEAD := 7
  const REG_STATUS := 8
  const REG_COMMAND := 9
  const REG_DEVICE_CONTROL := 10
  const REG_ALTERNATE_STATUS := 11

  const PORT_ERROR_FEATURES := 1
  const PORT_SECTOR_COUNT := 2
  const PORT_SECTOR_NUMBER := 3
  const PORT_CYLINDER_LOW := 4
  const PORT_CYLINDER_HIGH := 5
  const PORT_DEVICE_HEAD := 6
  const PORT_STATUS_COMMAND := 7
  const PORT_FLOPPY0 := 0x202
  const PORT_FLOPPY4 := 0x204
  const PORT_DEVICE_CONTROL := 0x206

  const CMD_RECALIBRATE := 0x10
  const CMD_READ_SECTORS := 0x20
  const CMD_WRITE_SECTORS := 0x30
  const CMD_INITIALIZE_DEV_PARAMS := 0x91
  const CMD_IDENTIFY_PACKET_DEVICE := 0xA1
  const CMD_IDENTIFY_DEVICE := 0xEC

  const DRDY: byte := 0x40
  const DRDY_DRQ: byte := 0x48
  const DRDY_ERR: byte := 0x41
  const ABRT: byte := 0x04

  type Registers = r: seq<byte> | |r| == 12 witness Zeros(12)
  type Sector = s: seq<byte> | |s| == 512 witness Zeros(512)

  datatype Transfer =
    | Idle
    | DataIn(todo: seq<byte>)
    | DataOut(lba: nat, need: nat, got: seq<byte>)

  function Blank(): Registers { Zeros(12) }

  /** `buffered` says whether a read buffer has ever been allocated (soft reset needs one). */
  datatype Drive = Drive(
    present: bool, image: seq<byte>, identify: Sector, reg: Registers, xfer: Transfer, buffered: bool)

  datatype Controller = Controller(master: Drive, slave: Drive, slaveSelected: bool, irq14: bool) {
    function Cur(): Drive { if slaveSelected then slave else master }
    function WithCur(d: Drive): Controller { if slaveSelected then this.(slave := d) else this.(master := d) }
  }

  /** One guest access; `off` is the port minus the handler's base. */
  datatype Access = InB(off: int) | OutB(off: int, val: byte) | InW | OutW(w: word)

  // ----- what the task file addresses -----

  predicate LbaMode(r: Registers) { r[REG_DEVICE_HEAD] / 0x40 % 2 == 1 }

  function Lba28(r: Registers): nat {
    (r[REG_DEVICE_HEAD] as int % 0x10) * 0x100_0000 + r[REG_CYLINDER_HIGH] as int * 0x1_0000
    + r[REG_CYLINDER_LOW] as int * 0x100 + r[REG_SECTOR_NUMBER] as int
  }

  /** Cylinder/head/sector to block number, before truncation to 32 bits. */
  function ChsBlock(c: nat, h: nat, s: nat): int { (c * 255 + h) * 63 + s - 1 }

  function ReadBlock(r: Registers): nat {
    if LbaMode(r) then Lba28(r)
    else ChsBlock(r[REG_CYLINDER_HIGH] as int * 0x100 + r[REG_CYLINDER_LOW] as int,
                  r[REG_DEVICE_HEAD] as int % 0x10, r[REG_SECTOR_NUMBER] as int) % 0x1_0000_0000
  }

  function ReadCount(r: Registers): nat {
    if r[REG_SECTOR_COUNT] == 0 then 256 else r[REG_SECTOR_COUNT]
  }

  // ----- steps -----

  function Settle(d: Drive, status: byte, xfer: Transfer): Drive {
    d.(reg := d.reg[REG_ERROR := 0][REG_STATUS := status][REG_ALTERNATE_STATUS := status], xfer := xfer)
  }

  function SoftReset(d: Drive): Drive {
    d.(reg := Blank()[REG_SECTOR_COUNT := 1][REG_SECTOR_NUMBER := 1][REG_STATUS := DRDY][REG_ALTERNATE_STATUS := DRDY],
       xfer := Idle)
  }

  /** Commands the emulator implements; anything else aborts it. */
  predicate Supported(d: Drive, cmd: byte) {
    || cmd == CMD_RECALIBRATE || cmd == CMD_READ_SECTORS || cmd == CMD_INITIALIZE_DEV_PARAMS
    || cmd == CMD_IDENTIFY_PACKET_DEVICE || cmd == CMD_IDENTIFY_DEVICE
    || (cmd == CMD_WRITE_SECTORS && LbaMode(d.reg) && d.reg[REG_SECTOR_COUNT] != 0)
  }

  function Command(d0: Drive, cmd: byte): Drive
    requires Supported(d0, cmd)
  {
    var d := d0.(reg := d0.reg[REG_COMMAND := cmd]);
    if cmd == CMD_READ_SECTORS then
      Settle(d.(buffered := true), DRDY_DRQ,
             DataIn(Window(d.image, 512 * ReadBlock(d.reg), 512 * ReadCount(d.reg))))
    else if cmd == CMD_WRITE_SECTORS then
      Settle(d, DRDY_DRQ, DataOut(Lba28(d.reg), 512 * d.reg[REG_SECTOR_COUNT] as int, []))
    else if cmd == CMD_IDENTIFY_DEVICE then
      Settle(d.(buffered := true), DRDY_DRQ, DataIn(d.identify))
    else if cmd == CMD_IDENTIFY_PACKET_DEVICE then
      d.(reg := d.reg[REG_ERROR := ABRT][REG_STATUS := DRDY_ERR], xfer := Idle)
    else
      Settle(d, DRDY, Idle)
  }

  predicate RaisesIrq(cmd: byte) {
    cmd == CMD_READ_SECTORS || cmd == CMD_RECALIBRATE || cmd == CMD_INITIALIZE_DEV_PARAMS
  }

  /** The accesses a guest may make: implemented ports, and the data port only during a transfer, in its direction. */
  predicate Legal(c: Controller, a: Access) {
    var d := c.Cur();
    match a
    case InB(off) =>
      || off == PORT_FLOPPY0 || off == PORT_FLOPPY4 || off == PORT_DEVICE_HEAD || !d.present
      || off == PORT_ERROR_FEATURES || off == PORT_SECTOR_COUNT || off == PORT_SECTOR_NUMBER
      || off == PORT_STATUS_COMMAND || off == PORT_DEVICE_CONTROL
    case OutB(off, v) =>
      || off == PORT_FLOPPY0 || off == PORT_DEVICE_HEAD || !d.present
      || 1 <= off <= 5
      || (off == PORT_STATUS_COMMAND && Supported(d, v))
      || (off == PORT_DEVICE_CONTROL && (v / 4 % 2 == 1 ==> d.buffered))
    case InW => d.xfer.DataIn?
    case OutW(_) => d.xfer.DataOut?
  }

  function PortRegister(off: int): nat
    requires 1 <= off <= 5
  {
    if off == PORT_ERROR_FEATURES then REG_FEATURES else off + 1
  }

  function WritePort(c: Controller, off: int, v: byte): Controller
    requires Legal(c, OutB(off, v))
  {
    if off == PORT_FLOPPY0 then c
    else if off == PORT_DEVICE_HEAD then
      var s := c.(slaveSelected := v / 0x10 % 2 == 1);
      s.WithCur(s.Cur().(reg := s.Cur().reg[REG_DEVICE_HEAD := v]))
    else if !c.Cur().present then c
    else if off == PORT_STATUS_COMMAND then
      c.WithCur(Command(c.Cur(), v)).(irq14 := RaisesIrq(v))
    else if off == PORT_DEVICE_CONTROL then
      var s := if v / 4 % 2 == 1 then c.WithCur(SoftReset(c.Cur())).(slaveSelected := false, irq14 := false) else c;
      s.WithCur(s.Cur().(reg := s.Cur().reg[REG_DEVICE_CONTROL := v][REG_FEATURES := v]))
    else
      c.WithCur(c.Cur().(reg := c.Cur().reg[PortRegister(off) := v]))
  }

  function ReadPort(c: Controller, off: int): byte
    requires Legal(c, InB(off))
  {
    if off == PORT_FLOPPY0 || off == PORT_FLOPPY4 then 0
    else if off == PORT_DEVICE_HEAD then (if c.slaveSelected then 0xB0 else 0xA0)
    else if !c.Cur().present then 0
    else if off == PORT_ERROR_FEATURES then c.Cur().reg[REG_ERROR]
    else if off == PORT_SECTOR_COUNT then c.Cur().reg[REG_SECTOR_COUNT]
    else if off == PORT_SECTOR_NUMBER then c.Cur().reg[REG_SECTOR_NUMBER]
    else if off == PORT_STATUS_COMMAND then c.Cur().reg[REG_STATUS]
    else c.Cur().reg[REG_ALTERNATE_STATUS]
  }

  /** A byte read changes nothing but the interrupt line, which reading the status lowers. */
  function AfterReadPort(c: Controller, off: int): Controller {
    c.(irq14 := c.irq14 && !(off == PORT_STATUS_COMMAND && c.Cur().present))
  }

  /** One word from the host to the guest. */
  function AfterReadData(d: Drive): Drive
    requires d.xfer.DataIn? && |d.xfer.todo| >= 2
  {
    if |d.xfer.todo| == 2 then
      d.(reg := d.reg[REG_STATUS := DRDY][REG_ALTERNATE_STATUS := DRDY], xfer := Idle)
    else
      d.(xfer := DataIn(d.xfer.todo[2..]))
  }

  /** One word from the guest to the host; the image changes only when the last word arrives. */
  function AfterWriteData(d: Drive, w: word): Drive
    requires d.xfer.DataOut?
  {
    var got := d.xfer.got + ToLE(2, w);
    if |got| == d.xfer.need then
      d.(image := FileWrite(d.image, 512 * d.xfer.lba, got),
         reg := d.reg[REG_STATUS := DRDY][REG_ALTERNATE_STATUS := DRDY], xfer := Idle)
    else
      d.(xfer := d.xfer.(got := got))
  }

  // ----- the invariant of every reachable state -----

  /** DRQ is up exactly while a transfer is active; then no error is flagged and both status registers agree. */
  predicate DriveInv(d: Drive) {
    && (d.xfer.Idle? <==> d.reg[REG_STATUS] / 8 % 2 == 0)
    && d.reg[REG_ALTERNATE_STATUS] != DRDY_ERR
    && (!d.xfer.Idle? ==>
          d.reg[REG_STATUS] == d.reg[REG_ALTERNATE_STATUS] == DRDY_DRQ && d.reg[REG_ERROR] == 0)
    && (d.xfer.DataIn? ==>
          d.buffered && 0 < |d.xfer.todo| <= 0x2_0000 && |d.xfer.todo| % 2 == 0)
    && (d.xfer.DataOut? ==>
          && 0 < d.xfer.need <= 255 * 512 && d.xfer.need % 512 == 0 && d.xfer.lba < 0x1000_0000
          && |d.xfer.got| < d.xfer.need && |d.xfer.got| % 2 == 0)
  }

  predicate Inv(c: Controller) {
    && c.master.present && DriveInv(c.master)
    && !c.slave.present && DriveInv(c.slave) && c.slave.xfer.Idle?
  }

  lemma CommandInv(d: Drive, cmd: byte)
    requires DriveInv(d) && Supported(d, cmd)
    ensures DriveInv(Command(d, cmd)) && Command(d, cmd).present == d.present
  {
    hide Window, ReadBlock;
    var r := d.reg[REG_COMMAND := cmd];
    assert ReadCount(r) <= 256;
    assert Lba28(r) < 0x1000_0000;
  }

  lemma SoftResetInv(d: Drive)
    ensures DriveInv(SoftReset(d)) && SoftReset(d).present == d.present && SoftReset(d).xfer.Idle?
  {}

  lemma WritePortInv(c: Controller, off: int, v: byte)
    requires Inv(c) && Legal(c, OutB(off, v))
    ensures Inv(WritePort(c, off, v))
  {
    SoftResetInv(c.Cur());
    hide Supported, SoftReset, Command;
    if off == PORT_STATUS_COMMAND && !c.slaveSelected {
      CommandInv(c.master, v);
    }
  }

  lemma ReadDataInv(d: Drive)
    requires DriveInv(d) && d.xfer.DataIn?
    ensures DriveInv(AfterReadData(d))
  {
    hide ToLE, FileWrite;
    if |d.xfer.todo| == 2 {
      assert AfterReadData(d).xfer.Idle?;
    } else {
      assert |d.xfer.todo[2..]| == |d.xfer.todo| - 2;
    }
  }

  lemma WriteDataInv(d: Drive, w: word)
    requires DriveInv(d) && d.xfer.DataOut?
    ensures DriveInv(AfterWriteData(d, w))
  {
    hide ToLE, FileWrite;
    assert |d.xfer.got + ToLE(2, w)| == |d.xfer.got| + 2;
  }

  /** Every data word keeps the invariant, in either direction. */
  lemma DataInv(d: Drive, w: word)
    requires DriveInv(d)
    ensures d.xfer.DataIn? ==> DriveInv(AfterReadData(d))
    ensures d.xfer.DataOut? ==> DriveInv(AfterWriteData(d, w))
  {
    hide DriveInv, AfterReadData, AfterWriteData;
    if d.xfer.DataIn? { ReadDataInv(d); }
    if d.xfer.DataOut? { WriteDataInv(d, w); }
  }

  function Step(c: Controller, a: Access): (c': Controller)
    requires Inv(c) && Legal(c, a)
    ensures Inv(c')
  {
    match a
    case InB(off) => AfterReadPort(c, off)
    case OutB(off, v) => WritePortInv(c, off, v); WritePort(c, off, v)
    case InW => DataInv(c.Cur(), 0); c.WithCur(AfterReadData(c.Cur()))
    case OutW(w) =>
      var done := |c.Cur().xfer.got| + 2 == c.Cur().xfer.need;
      DataInv(c.Cur(), w); c.WithCur(AfterWriteData(c.Cur(), w)).(irq14 := c.irq14 || done)
  }

  predicate LegalRun(c: Controller, run: seq<Access>)
    requires Inv(c)
    decreases |run|
  {
    |run| == 0 || (Legal(c, run[0]) && LegalRun(Step(c, run[0]), run[1..]))
  }

  function Run(c: Controller, run: seq<Access>): (c': Controller)
    requires Inv(c) && LegalRun(c, run)
    ensures Inv(c')
    decreases |run|
  {
    if |run| == 0 then c else Run(Step(c, run[0]), run[1..])
  }

  /** The bytes a single access takes from the data port. */
  function Delivered(c: Controller, a: Access): (b: seq<byte>)
    requires Inv(c) && Legal(c, a)
    ensures |b| == if a.InW? then 2 else 0
  {
    if a.InW? then c.Cur().xfer.todo[..2] else []
  }

  /** The bytes the data port returns during a run. */
  function DataRead(c: Controller, run: seq<Access>): seq<byte>
    requires Inv(c) && LegalRun(c, run)
    decreases |run|
  {
    if |run| == 0 then []
    else Delivered(c, run[0]) + DataRead(Step(c, run[0]), run[1..])
  }

  /** The bytes sent to the data port during a run. */
  function DataWritten(run: seq<Access>): seq<byte> {
    if |run| == 0 then []
    else (if run[0].OutW? then ToLE(2, run[0].w) else []) + DataWritten(run[1..])
  }
}
