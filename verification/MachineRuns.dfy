/**
 Whole-machine results: devices do not disturb each other, so each device's theorems hold under any
 interleaving; and a driver's disk transfers move the right bytes for every batching of the string
 instructions.
 */
module MachineRuns {
  import opened Bytes
  import opened Image
  import opened Io
  import opened MachineSpec
  import AtaSpec
  import AtaRuns
  import FdcSpec
  import KeyboardSpec

  // ----- non-interference -----

  function AtaPart(run: seq<Event>): seq<AtaSpec.Access> {
    if |run| == 0 then []
    else if Route(run[0]).ToAta? then [Route(run[0]).ata] + AtaPart(run[1..])
    else AtaPart(run[1..])
  }

  function FloppyPart(run: seq<Event>): seq<FdcSpec.Access> {
    if |run| == 0 then []
    else if Route(run[0]).ToFloppy? then [Route(run[0]).floppy] + FloppyPart(run[1..])
    else FloppyPart(run[1..])
  }

  function KeyboardPart(run: seq<Event>): seq<KeyboardSpec.Event> {
    if |run| == 0 then []
    else if Route(run[0]).ToKeyboard? then [Route(run[0]).kbd] + KeyboardPart(run[1..])
    else KeyboardPart(run[1..])
  }

  lemma AtaStep(m: Machine, e: Event)
    requires Inv(m) && Legal(m, e)
    ensures AtaSpec.Inv(m.ata)
    ensures if Route(e).ToAta?
            then AtaSpec.Legal(m.ata, Route(e).ata) && Step(m, e).ata == AtaSpec.Step(m.ata, Route(e).ata)
            else Step(m, e).ata == m.ata
  {
    hide Route, AtaSpec.Step, AtaSpec.Legal;
  }

  /** The disk sees only its own accesses, whatever the guest does to the other devices in between. */
  lemma {:induction false} AtaIsIndependent(m: Machine, run: seq<Event>)
    requires Inv(m) && LegalRun(m, run)
    ensures AtaSpec.LegalRun(m.ata, AtaPart(run))
    ensures Run(m, run).ata == AtaSpec.Run(m.ata, AtaPart(run))
    decreases |run|
  {
    if |run| != 0 {
      var e := run[0];
      AtaStep(m, e);
      hide Step, Legal, Inv, Route, AtaSpec.Step, AtaSpec.Legal, AtaSpec.Inv;
      AtaIsIndependent(Step(m, e), run[1..]);
      if Route(e).ToAta? {
        AtaRuns.RunCons(m.ata, Route(e).ata, AtaPart(run[1..]));
      }
    }
  }

  lemma FloppyStep(m: Machine, e: Event)
    requires Inv(m) && Legal(m, e)
    ensures FdcSpec.Inv(m.floppy.fdc)
    ensures if Route(e).ToFloppy?
            then && FdcSpec.Legal(m.floppy, Route(e).floppy)
                 && Step(m, e).floppy == FdcSpec.Step(m.floppy, Route(e).floppy)
            else Step(m, e).floppy == m.floppy
  {
    hide Route, FdcSpec.Step, FdcSpec.Legal;
  }

  /** So do the floppy controller and the DMA channel it uses. */
  lemma {:induction false} FloppyIsIndependent(m: Machine, run: seq<Event>)
    requires Inv(m) && LegalRun(m, run)
    ensures FdcSpec.LegalRun(m.floppy, FloppyPart(run))
    ensures Run(m, run).floppy == FdcSpec.Run(m.floppy, FloppyPart(run))
    decreases |run|
  {
    if |run| != 0 {
      var e := run[0];
      FloppyStep(m, e);
      hide Step, Legal, Inv, Route, FdcSpec.Step, FdcSpec.Legal, FdcSpec.Inv;
      FloppyIsIndependent(Step(m, e), run[1..]);
      if Route(e).ToFloppy? {
        assert ([Route(e).floppy] + FloppyPart(run[1..]))[1..] == FloppyPart(run[1..]);
      }
    }
  }

  lemma KeyboardStep(m: Machine, e: Event)
    requires Inv(m) && Legal(m, e)
    ensures KeyboardSpec.Inv(m.kbd)
    ensures if Route(e).ToKeyboard?
            then KeyboardSpec.Legal(m.kbd, Route(e).kbd) && Step(m, e).kbd == KeyboardSpec.Step(m.kbd, Route(e).kbd)
            else Step(m, e).kbd == m.kbd
  {
    hide Route, KeyboardSpec.Step, KeyboardSpec.Legal;
  }

  /** And the keyboard. */
  lemma {:induction false} KeyboardIsIndependent(m: Machine, run: seq<Event>)
    requires Inv(m) && LegalRun(m, run)
    ensures KeyboardSpec.LegalRun(m.kbd, KeyboardPart(run))
    ensures Run(m, run).kbd == KeyboardSpec.Run(m.kbd, KeyboardPart(run))
    decreases |run|
  {
    if |run| != 0 {
      var e := run[0];
      KeyboardStep(m, e);
      hide Step, Legal, Inv, Route, KeyboardSpec.Step, KeyboardSpec.Legal, KeyboardSpec.Inv;
      KeyboardIsIndependent(Step(m, e), run[1..]);
      if Route(e).ToKeyboard? {
        assert ([Route(e).kbd] + KeyboardPart(run[1..]))[1..] == KeyboardPart(run[1..]);
      }
    }
  }

  // ----- ports nobody claims, or somebody outside the model -----

  /** A port that no handler claims reads 0xFF as a byte and 0 if wider, and a write to it does nothing. */
  lemma UnclaimedPorts(m: Machine, port: bv16, size: nat, v: nat)
    requires Inv(m) && size in {1, 2, 4} && PortMap(port).None?
    ensures Legal(m, In(port, size)) && Step(m, In(port, size)) == m
    ensures Delivered(m, port, size) == if size == 1 then [0xFF] else if size == 2 then [0, 0] else [0, 0, 0, 0]
    ensures Legal(m, Out(port, size, v)) && Step(m, Out(port, size, v)) == m
  {
    LookupIsPortMap(port);
    hide Lookup, DeviceTable, PortMap;
    assert Route(In(port, size)) == Unclaimed == Route(Out(port, size, v));
    UnclaimedChangesNothing(m);
  }

  /** A device outside the model gives its next answer, least significant byte first; writes to it change nothing. */
  lemma OutsidePorts(m: Machine, port: bv16, size: nat, v: nat)
    requires Inv(m) && size in {1, 2, 4} && PortMap(port).Some?
    requires PortMap(port).value !in {AtaDisk, Floppy, Dma0, Dma1, DmaPage, Keyboard}
    ensures Legal(m, In(port, size)) && Legal(m, Out(port, size, v)) && Step(m, Out(port, size, v)) == m
    ensures m.others == [] ==> Delivered(m, port, size) == ToLE(size, 0) && Step(m, In(port, size)) == m
    ensures m.others != [] ==> Delivered(m, port, size) == ToLE(size, m.others[0])
    ensures m.others != [] ==> Step(m, In(port, size)) == m.(others := m.others[1..])
  {
    LookupIsPortMap(port);
    hide Lookup, DeviceTable, PortMap;
    OutsideRoutes(port, size, v);
    hide Route;
    OtherOutChangesNothing(m);
  }

  lemma OutsideRoutes(port: bv16, size: nat, v: nat)
    requires size in {1, 2, 4} && Lookup(DeviceTable(), port).Some?
    requires Lookup(DeviceTable(), port).value.dev !in {AtaDisk, Floppy, Dma0, Dma1, DmaPage, Keyboard}
    ensures Route(In(port, size)) == ToOther(true) && Route(Out(port, size, v)) == ToOther(false)
  {
    hide Lookup, DeviceTable;
  }

  /** An access of any other width aborts the emulator. */
  lemma OtherWidths(m: Machine, port: bv16, size: nat, v: nat)
    requires Inv(m) && size !in {1, 2, 4}
    ensures !Legal(m, In(port, size)) && !Legal(m, Out(port, size, v))
  {
    hide Lookup, DeviceTable;
  }

  // ----- the disk through its ports -----

  /** The port at an offset of the disk's command block. */
  function DiskPort(off: nat): bv16
    requires off < 8
  {
    match off
    case 0 => 0x1F0
    case 1 => 0x1F1
    case 2 => 0x1F2
    case 3 => 0x1F3
    case 4 => 0x1F4
    case 5 => 0x1F5
    case 6 => 0x1F6
    case 7 => 0x1F7
  }

  lemma DiskPortOffset(off: nat)
    requires off < 8
    ensures Offset(DiskPort(off), 0x1F0) == off
  {
    if off == 0 {} else if off == 1 {} else if off == 2 {} else if off == 3 {}
    else if off == 4 {} else if off == 5 {} else if off == 6 {} else {}
  }

  lemma DiskPortLookup(off: nat)
    requires off < 8
    ensures Lookup(DeviceTable(), DiskPort(off)) == Some(IoHandler(0x01F0, 0xFDF8, AtaDisk))
  {
    hide Lookup, DeviceTable;
    if off == 0 { AtaLookup(0x1F0); } else if off == 1 { AtaLookup(0x1F1); } else if off == 2 { AtaLookup(0x1F2); }
    else if off == 3 { AtaLookup(0x1F3); } else if off == 4 { AtaLookup(0x1F4); } else if off == 5 { AtaLookup(0x1F5); }
    else if off == 6 { AtaLookup(0x1F6); } else { AtaLookup(0x1F7); }
  }

  predicate AtDisk(port: bv16, off: int) {
    Lookup(DeviceTable(), port) == Some(IoHandler(0x01F0, 0xFDF8, AtaDisk)) && Offset(port, 0x1F0) == off
  }

  lemma DiskPortIsDisk(off: nat)
    requires off < 8
    ensures AtDisk(DiskPort(off), off)
  {
    DiskPortOffset(off);
    DiskPortLookup(off);
  }

  lemma RouteAtDisk(port: bv16, off: int, v: byte, w: word)
    requires AtDisk(port, off)
    ensures Route(Out(port, 1, v)) == ToAta(AtaSpec.OutB(off, v))
    ensures Route(In(port, 1)) == ToAta(AtaSpec.InB(off))
    ensures off == 0 ==> Route(In(port, 2)) == ToAta(AtaSpec.InW)
    ensures off == 0 ==> Route(Out(port, 2, w)) == ToAta(AtaSpec.OutW(w))
  {
    hide Lookup, DeviceTable, Offset;
  }

  /** A disk access as the port access that causes it. */
  function Lift(a: AtaSpec.Access): Event
    requires OnPorts(a)
  {
    match a
    case InB(off) => In(DiskPort(off), 1)
    case OutB(off, v) => Out(DiskPort(off), 1, v)
    case InW => In(DiskPort(0), 2)
    case OutW(w) => Out(DiskPort(0), 2, w)
  }

  predicate OnPorts(a: AtaSpec.Access) {
    match a
    case InB(off) => 0 <= off < 8
    case OutB(off, _) => 0 <= off < 8
    case _ => true
  }

  function LiftAll(run: seq<AtaSpec.Access>): (r: seq<Event>)
    requires forall a :: a in run ==> OnPorts(a)
    ensures |r| == |run| && forall i :: 0 <= i < |run| ==> r[i] == Lift(run[i])
  {
    seq(|run|, i requires 0 <= i < |run| => Lift(run[i]))
  }

  lemma LiftStep(m: Machine, a: AtaSpec.Access)
    requires Inv(m) && AtaSpec.Legal(m.ata, a) && OnPorts(a)
    ensures Legal(m, Lift(a)) && Step(m, Lift(a)) == m.(ata := AtaSpec.Step(m.ata, a))
    ensures a.InW? ==> Delivered(m, Lift(a).port, 2) == AtaSpec.Delivered(m.ata, a)
  {
    var off := if a.InB? || a.OutB? then a.off else 0;
    DiskPortIsDisk(off);
    RouteAtDisk(DiskPort(off), off, if a.OutB? then a.val else 0, if a.OutW? then a.w else 0);
    hide Route, DiskPort, AtDisk, AtaSpec.Legal, AtaSpec.Step, AtaSpec.Inv;
  }

  /** A run of disk accesses, through the ports. */
  lemma {:induction false} LiftRun(m: Machine, run: seq<AtaSpec.Access>)
    requires Inv(m) && AtaSpec.LegalRun(m.ata, run)
    requires forall a :: a in run ==> OnPorts(a) && !a.InB?
    ensures LegalRun(m, LiftAll(run))
    ensures Run(m, LiftAll(run)) == m.(ata := AtaSpec.Run(m.ata, run))
    ensures Received(m, LiftAll(run)) == AtaSpec.DataRead(m.ata, run)
    decreases |run|
  {
    if |run| != 0 {
      var a := run[0];
      assert a in run;
      LiftStep(m, a);
      hide Step, Legal, AtaSpec.Step, AtaSpec.Legal, AtaSpec.Inv, Delivered, DiskPort;
      assert LiftAll(run)[1..] == LiftAll(run[1..]);
      LiftRun(m.(ata := AtaSpec.Step(m.ata, a)), run[1..]);
    }
  }

  function Sum(ks: seq<nat>): nat {
    if |ks| == 0 then 0 else ks[0] + Sum(ks[1..])
  }

  /** Consecutive `REP INSW` instructions on the data port, with the given counts. */
  function RepInBatches(ks: seq<nat>): seq<Event> {
    if |ks| == 0 then [] else RepIn(0x1F0, 2, ks[0]) + RepInBatches(ks[1..])
  }

  lemma {:induction false} BatchesAreReads(ks: seq<nat>)
    ensures RepInBatches(ks) == RepIn(0x1F0, 2, Sum(ks))
    decreases |ks|
  {
    if |ks| != 0 { BatchesAreReads(ks[1..]); }
  }

  /** Consecutive `REP OUTSW` instructions, each with its own piece of the data. */
  function RepOutBatches(chunks: seq<seq<byte>>): seq<Event> {
    if |chunks| == 0 then [] else RepOut(0x1F0, 2, chunks[0]) + RepOutBatches(chunks[1..])
  }

  function Joined(chunks: seq<seq<byte>>): seq<byte> {
    if |chunks| == 0 then [] else chunks[0] + Joined(chunks[1..])
  }

  predicate WholeWords(chunks: seq<seq<byte>>) { forall c :: c in chunks ==> |c| % 2 == 0 }

  lemma {:induction false} BatchesAreWrites(chunks: seq<seq<byte>>)
    requires WholeWords(chunks)
    ensures RepOutBatches(chunks) == RepOut(0x1F0, 2, Joined(chunks))
    ensures |Joined(chunks)| % 2 == 0
    decreases |chunks|
  {
    hide DiskPort;
    if |chunks| != 0 {
      assert chunks[0] in chunks;
      BatchesAreWrites(chunks[1..]);
      RepOutSplits(0x1F0, 2, chunks[0], Joined(chunks[1..]));
      hide RepOut;
      EvenSum(|chunks[0]|, |Joined(chunks[1..])|);
    }
  }

  lemma EvenSum(a: nat, b: nat)
    requires a % 2 == 0 && b % 2 == 0
    ensures (a + b) % 2 == 0
  {}

  lemma {:induction false} RepOutIsLifted(data: seq<byte>)
    requires |data| % 2 == 0
    ensures forall a :: a in AtaRuns.Words(data) ==> OnPorts(a) && !a.InB?
    ensures LiftAll(AtaRuns.Words(data)) == RepOut(0x1F0, 2, data)
    decreases |data|
  {
    assert DiskPort(0) == 0x1F0;
    hide DiskPort;
    if |data| != 0 {
      RepOutIsLifted(data[2..]);
      var w: AtaSpec.Access := AtaSpec.OutW(FromLE(data[..2]));
      assert AtaRuns.Words(data) == [w] + AtaRuns.Words(data[2..]);
      assert LiftAll(AtaRuns.Words(data)) == [Lift(w)] + LiftAll(AtaRuns.Words(data[2..]));
    }
  }

  // ----- what a driver does -----

  /** Address the sectors, give the command. */
  function Setup(t: AtaRuns.TaskFile, cmd: byte): (run: seq<AtaSpec.Access>)
    ensures forall a :: a in run ==> OnPorts(a) && !a.InB?
  {
    AtaRuns.Address(t) + [AtaSpec.OutB(AtaSpec.PORT_STATUS_COMMAND, cmd)]
  }

  /** The same through the ports, by their numbers. */
  function Command(head: byte, count: byte, low: byte, mid: byte, high: byte, cmd: byte): seq<Event> {
    [ Out(0x1F6, 1, head), Out(0x1F2, 1, count), Out(0x1F3, 1, low), Out(0x1F4, 1, mid), Out(0x1F5, 1, high),
      Out(0x1F7, 1, cmd) ]
  }

  lemma SetupIsCommand(t: AtaRuns.TaskFile, cmd: byte)
    ensures LiftAll(Setup(t, cmd)) == Command(t.head, t.count, t.low, t.mid, t.high, cmd)
  {}

  /** READ SECTORS of n sectors at a block number, and `REP INSW` instructions on port 0x1F0. */
  function DriverRead(lba: nat, n: nat, ks: seq<nat>): seq<Event>
    requires lba < 0x1000_0000 && 1 <= n <= 256
  {
    Command(0xE0 + lba / 0x100_0000, n % 256, lba % 0x100, lba / 0x100 % 0x100, lba / 0x1_0000 % 0x100, 0x20)
    + RepInBatches(ks)
  }

  /** The same at a cylinder, head and sector. */
  function DriverReadChs(c: word, h: nat, s: byte, n: nat, ks: seq<nat>): seq<Event>
    requires h <= 15 && 1 <= n <= 256
  {
    Command(0xA0 + h, n % 256, s, c % 0x100, c / 0x100, 0x20) + RepInBatches(ks)
  }

  function DriverWrite(lba: nat, n: nat, chunks: seq<seq<byte>>): seq<Event>
    requires lba < 0x1000_0000 && 1 <= n <= 255
  {
    Command(0xE0 + lba / 0x100_0000, n, lba % 0x100, lba / 0x100 % 0x100, lba / 0x1_0000 % 0x100, 0x30)
    + RepOutBatches(chunks)
  }

  lemma AfterSetup(c: AtaSpec.Controller, t: AtaRuns.TaskFile, cmd: byte)
    requires AtaSpec.Inv(c) && AtaSpec.LegalRun(c, AtaRuns.Address(t))
    requires var a := AtaSpec.Run(c, AtaRuns.Address(t)); !a.slaveSelected && AtaSpec.Supported(a.master, cmd)
    ensures var a := AtaSpec.Run(c, AtaRuns.Address(t));
            && AtaSpec.LegalRun(c, Setup(t, cmd))
            && AtaSpec.Run(c, Setup(t, cmd)) == AtaRuns.AfterCommand(a, cmd)
            && AtaSpec.DataRead(c, Setup(t, cmd)) == []
  {
    var a := AtaSpec.Run(c, AtaRuns.Address(t));
    var x := AtaSpec.OutB(AtaSpec.PORT_STATUS_COMMAND, cmd);
    assert a.master.present && AtaSpec.Legal(a, x);
    assert AtaRuns.AfterCommand(a, cmd) == AtaSpec.Step(a, x);
    hide AtaSpec.Step, AtaSpec.Legal, AtaSpec.Inv, AtaSpec.Run, AtaSpec.LegalRun, AtaSpec.Supported;
    hide AtaRuns.AfterCommand;
    RunLast(c, AtaRuns.Address(t), a, x);
    AtaRuns.NoDataRead(c, Setup(t, cmd));
  }

  lemma RunLast(c: AtaSpec.Controller, run: seq<AtaSpec.Access>, a: AtaSpec.Controller, x: AtaSpec.Access)
    requires AtaSpec.Inv(c) && AtaSpec.LegalRun(c, run) && a == AtaSpec.Run(c, run) && AtaSpec.Legal(a, x)
    ensures AtaSpec.LegalRun(c, run + [x]) && AtaSpec.Run(c, run + [x]) == AtaSpec.Step(a, x)
  {
    hide AtaSpec.Step, AtaSpec.Legal, AtaSpec.Inv;
    AtaRuns.RunCons(a, x, []);
    assert [x] + [] == [x];
    hide AtaSpec.Run, AtaSpec.LegalRun;
    AtaRuns.RunAppend(c, run, [x]);
  }

  /** Two disk runs one after the other, through the ports. */
  lemma LiftTwo(m: Machine, setup: seq<AtaSpec.Access>, tail: seq<AtaSpec.Access>)
    requires Inv(m) && AtaSpec.LegalRun(m.ata, setup) && AtaSpec.LegalRun(AtaSpec.Run(m.ata, setup), tail)
    requires forall a :: a in setup ==> OnPorts(a) && !a.InB?
    requires forall a :: a in tail ==> OnPorts(a) && !a.InB?
    ensures var run := LiftAll(setup) + LiftAll(tail);
            var c1 := AtaSpec.Run(m.ata, setup);
            && LegalRun(m, run)
            && Run(m, run) == m.(ata := AtaSpec.Run(c1, tail))
            && Received(m, run) == AtaSpec.DataRead(m.ata, setup) + AtaSpec.DataRead(c1, tail)
  {
    hide AtaSpec.Inv, AtaSpec.LegalRun, AtaSpec.Run, AtaSpec.DataRead, LegalRun, Run, Received, OnPorts;
    LiftRun(m, setup);
    LiftRun(m.(ata := AtaSpec.Run(m.ata, setup)), tail);
    RunAppend(m, LiftAll(setup), LiftAll(tail));
  }

  /** READ SECTORS of whatever the task file addresses, fetched in any batching. */
  lemma ReadAddressed(m: Machine, t: AtaRuns.TaskFile, n: nat, ks: seq<nat>)
    requires Inv(m) && AtaSpec.LegalRun(m.ata, AtaRuns.Address(t))
    requires var a := AtaSpec.Run(m.ata, AtaRuns.Address(t));
             && !a.slaveSelected && a.master.image == m.ata.master.image
             && a.master.reg[AtaSpec.REG_SECTOR_COUNT] == n % 256
    requires 1 <= n <= 256 && Sum(ks) == 256 * n
    ensures var run := LiftAll(Setup(t, AtaSpec.CMD_READ_SECTORS)) + RepInBatches(ks);
            var block := AtaSpec.ReadBlock(AtaSpec.Run(m.ata, AtaRuns.Address(t)).master.reg);
            && LegalRun(m, run)
            && Received(m, run) == Window(m.ata.master.image, 512 * block, 512 * n)
            && var m' := Run(m, run);
               && m' == m.(ata := m'.ata) && m'.ata.master.image == m.ata.master.image && !AtaRuns.Busy(m'.ata.master)
  {
    assert DiskPort(0) == 0x1F0;
    hide AtaSpec.Inv, AtaSpec.LegalRun, AtaSpec.Run, AtaSpec.DataRead, AtaSpec.ReadBlock;
    hide LegalRun, Run, Received, DiskPort, Setup, Route, Window;
    var setup, words: seq<AtaSpec.Access> := Setup(t, AtaSpec.CMD_READ_SECTORS), seq(256 * n, i => AtaSpec.InW);
    var a := AtaSpec.Run(m.ata, AtaRuns.Address(t));
    CountRead(a.master.reg, n);
    hide AtaSpec.ReadCount;
    Loaded(m.ata, t, a);
    WordReadsFinish(AtaSpec.Run(m.ata, setup), 256 * n);
    BatchesAreReads(ks);
    assert LiftAll(words) == RepInBatches(ks);
    LiftTwo(m, setup, words);
  }

  lemma CountRead(r: AtaSpec.Registers, n: nat)
    requires 1 <= n <= 256 && r[AtaSpec.REG_SECTOR_COUNT] == n % 256
    ensures AtaSpec.ReadCount(r) == n
  {}

  lemma Loaded(c: AtaSpec.Controller, t: AtaRuns.TaskFile, a: AtaSpec.Controller)
    requires AtaSpec.Inv(c) && AtaSpec.LegalRun(c, AtaRuns.Address(t)) && a == AtaSpec.Run(c, AtaRuns.Address(t))
    requires !a.slaveSelected && a.master.image == c.master.image
    ensures AtaSpec.LegalRun(c, Setup(t, AtaSpec.CMD_READ_SECTORS))
    ensures AtaSpec.DataRead(c, Setup(t, AtaSpec.CMD_READ_SECTORS)) == []
    ensures var c1 := AtaSpec.Run(c, Setup(t, AtaSpec.CMD_READ_SECTORS));
            var block, n := AtaSpec.ReadBlock(a.master.reg), AtaSpec.ReadCount(a.master.reg);
            && !c1.slaveSelected && c1.master.image == c.master.image
            && c1.master.xfer == AtaSpec.DataIn(Window(c.master.image, 512 * block, 512 * n))
  {
    hide AtaSpec.Inv, AtaSpec.LegalRun, AtaSpec.Run, AtaSpec.DataRead, AtaSpec.ReadBlock, AtaSpec.ReadCount;
    hide AtaRuns.AfterCommand, Setup, Window;
    AfterSetup(c, t, AtaSpec.CMD_READ_SECTORS);
    AtaRuns.ReadCommandLoads(a);
  }

  /**
   From any machine state at all: addressing n sectors at lba, READ SECTORS, and then any number of
   `REP INSW` instructions that together fetch 256n words, deliver exactly the n sectors of the
   zero-extended image, change neither it nor any other device, and leave DRQ down.
   */
  lemma ReadForEveryBatching(m: Machine, lba: nat, n: nat, ks: seq<nat>)
    requires Inv(m) && lba < 0x1000_0000 && 1 <= n <= 256 && Sum(ks) == 256 * n
    ensures LegalRun(m, DriverRead(lba, n, ks))
    ensures Received(m, DriverRead(lba, n, ks)) == Window(m.ata.master.image, 512 * lba, 512 * n)
    ensures var m' := Run(m, DriverRead(lba, n, ks));
            && m' == m.(ata := m'.ata) && m'.ata.master.image == m.ata.master.image && !AtaRuns.Busy(m'.ata.master)
  {
    hide AtaSpec.Inv, AtaSpec.LegalRun, AtaSpec.Run, AtaSpec.ReadBlock, LegalRun, Run, Received, DiskPort, Setup;
    var t := AtaRuns.LbaFile(lba, n % 256);
    AtaRuns.AddressDecodes(m.ata, lba, n % 256);
    SetupIsCommand(t, AtaSpec.CMD_READ_SECTORS);
    ReadAddressed(m, t, n, ks);
  }

  /**
   The same for a cylinder/head/sector address: the block is ((c * 255 + h) * 63) + s - 1, in 32 bits, so
   that only sector 0 of the first track is not where the formula says.
   */
  lemma ReadChsForEveryBatching(m: Machine, c: word, h: nat, s: byte, n: nat, ks: seq<nat>)
    requires Inv(m) && h <= 15 && 1 <= n <= 256 && Sum(ks) == 256 * n
    ensures LegalRun(m, DriverReadChs(c, h, s, n, ks))
    ensures var b := (c as int * 255 + h) * 63 + s as int - 1;
            Received(m, DriverReadChs(c, h, s, n, ks)) ==
            Window(m.ata.master.image, 512 * (if b < 0 then 0xFFFF_FFFF else b), 512 * n)
    ensures var m' := Run(m, DriverReadChs(c, h, s, n, ks));
            && m' == m.(ata := m'.ata) && m'.ata.master.image == m.ata.master.image && !AtaRuns.Busy(m'.ata.master)
  {
    hide AtaSpec.Inv, AtaSpec.LegalRun, AtaSpec.Run, AtaSpec.ReadBlock, LegalRun, Run, Received, DiskPort, Setup;
    var t := AtaRuns.ChsFile(c, h, s, n % 256);
    AtaRuns.ChsDecodes(m.ata, c, h, s, n % 256);
    AtaRuns.ChsBounds(c, h, s);
    SetupIsCommand(t, AtaSpec.CMD_READ_SECTORS);
    ReadAddressed(m, t, n, ks);
  }

  lemma WordReadsFinish(c: AtaSpec.Controller, k: nat)
    requires AtaSpec.Inv(c) && !c.slaveSelected && c.master.xfer.DataIn? && 2 * k == |c.master.xfer.todo|
    ensures AtaSpec.LegalRun(c, seq(k, i => AtaSpec.InW))
    ensures var c' := AtaSpec.Run(c, seq(k, i => AtaSpec.InW));
            && !AtaRuns.Busy(c'.master) && c'.master.image == c.master.image
            && AtaSpec.DataRead(c, seq(k, i => AtaSpec.InW)) == c.master.xfer.todo
  {
    var words: seq<AtaSpec.Access> := seq(k, i => AtaSpec.InW);
    AtaRuns.WordReadsAreLegal(c, k);
    AtaRuns.ReadProgress(c, words);
    assert AtaRuns.Todo(c.master)[..2 * k] == AtaRuns.Todo(c.master);
  }

  /**
   Likewise for writing: 256n words sent by any number of `REP OUTSW` instructions put the data at the
   addressed sectors and change no other device.
   */
  lemma WriteForEveryBatching(m: Machine, lba: nat, n: nat, chunks: seq<seq<byte>>)
    requires Inv(m) && lba < 0x1000_0000 && 1 <= n <= 255
    requires WholeWords(chunks) && |Joined(chunks)| == 512 * n
    ensures LegalRun(m, DriverWrite(lba, n, chunks))
    ensures var m' := Run(m, DriverWrite(lba, n, chunks));
            && m' == m.(ata := m'.ata) && !AtaRuns.Busy(m'.ata.master)
            && m'.ata.master.image == FileWrite(m.ata.master.image, 512 * lba, Joined(chunks))
  {
    hide AtaSpec.Inv, AtaSpec.LegalRun, AtaSpec.Run, AtaSpec.DataRead, AtaRuns.AfterCommand, AtaSpec.Lba28;
    hide LegalRun, Run, Received, DiskPort, Setup, AtaSpec.LbaMode;
    var t, cmd, data := AtaRuns.LbaFile(lba, n), AtaSpec.CMD_WRITE_SECTORS, Joined(chunks);
    AtaRuns.AddressDecodes(m.ata, lba, n);
    var a := AtaSpec.Run(m.ata, AtaRuns.Address(t));
    AfterSetup(m.ata, t, cmd);
    AtaRuns.WriteCommandStarts(a);
    var c1 := AtaSpec.Run(m.ata, Setup(t, cmd));
    NotSelected(a, cmd);
    AtaRuns.WordWritesAreLegal(c1, data, lba, 512 * n, []);
    WordWritesFinish(c1, data, lba);
    RepOutIsLifted(data);
    BatchesAreWrites(chunks);
    SetupIsCommand(t, cmd);
    LiftTwo(m, Setup(t, cmd), AtaRuns.Words(data));
  }

  lemma NotSelected(a: AtaSpec.Controller, cmd: byte)
    requires AtaSpec.Inv(a) && !a.slaveSelected && AtaSpec.Supported(a.master, cmd)
    ensures !AtaRuns.AfterCommand(a, cmd).slaveSelected
  {}

  lemma WordWritesFinish(c: AtaSpec.Controller, data: seq<byte>, lba: nat)
    requires AtaSpec.Inv(c) && !c.slaveSelected && |data| > 0 && |data| % 2 == 0
    requires AtaRuns.Sending(c.master, lba, |data|, []) && AtaSpec.LegalRun(c, AtaRuns.Words(data))
    ensures var c' := AtaSpec.Run(c, AtaRuns.Words(data));
            !AtaRuns.Busy(c'.master) && c'.master.image == FileWrite(c.master.image, 512 * lba, data)
  {
    AtaRuns.WordsSendData(data);
    AtaRuns.WriteProgress(c, AtaRuns.Words(data), lba, |data|, []);
    assert [] + data == data;
  }

  /**
   The disk law at machine level: what one driver writes, in any batching, another reads back, in any
   other batching; the rest of the image is untouched.
   */
  lemma DiskRoundTrip(m: Machine, lba: nat, n: nat, chunks: seq<seq<byte>>, ks: seq<nat>, i: nat)
    requires Inv(m) && lba < 0x1000_0000 && 1 <= n <= 255
    requires WholeWords(chunks) && |Joined(chunks)| == 512 * n && Sum(ks) == 256 * n
    ensures LegalRun(m, DriverWrite(lba, n, chunks))
    ensures var m1 := Run(m, DriverWrite(lba, n, chunks));
            && LegalRun(m1, DriverRead(lba, n, ks))
            && Received(m1, DriverRead(lba, n, ks)) == Joined(chunks)
            && var m2 := Run(m1, DriverRead(lba, n, ks));
               (i < 512 * lba || i >= 512 * (lba + n) ==> At(m2.ata.master.image, i) == At(m.ata.master.image, i))
  {
    WriteForEveryBatching(m, lba, n, chunks);
    var m1 := Run(m, DriverWrite(lba, n, chunks));
    hide Inv, LegalRun, Run, Received, DriverRead, DriverWrite, FileWrite, Window;
    ReadForEveryBatching(m1, lba, n, ks);
    ReadBack(m.ata.master.image, 512 * lba, Joined(chunks));
    WriteIsPointwise(m.ata.master.image, 512 * lba, Joined(chunks), i);
  }
}
