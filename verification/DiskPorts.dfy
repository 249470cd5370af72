/**
 The disk as a driver meets it, by port numbers and byte values: what the status, error, count and
 device/head ports read, when the interrupt line is up, and what a polled transfer delivers.
 */
module DiskPorts {
  import opened Bytes
  import opened Image
  import opened Io
  import opened MachineSpec
  import opened MachineRuns
  import AtaSpec
  import AtaRuns

  // ----- which accesses reach the disk -----

  /** The offset of a port of the command block; 8 for any other port. */
  function BlockOffset(port: bv16): nat {
    if port == 0x1F0 then 0 else if port == 0x1F1 then 1 else if port == 0x1F2 then 2 else if port == 0x1F3 then 3
    else if port == 0x1F4 then 4 else if port == 0x1F5 then 5 else if port == 0x1F6 then 6
    else if port == 0x1F7 then 7 else 8
  }

  lemma BlockPorts(port: bv16)
    requires port & 0xFFF8 == 0x1F0
    ensures BlockOffset(port) < 8 && port == DiskPort(BlockOffset(port))
  {}

  lemma BlockLookup(port: bv16)
    ensures BlockOffset(port) < 8 ==> AtDisk(port, BlockOffset(port))
  {
    BlockOffsetPort(port);
    hide BlockOffset, DiskPort, AtDisk;
    if BlockOffset(port) < 8 { DiskPortIsDisk(BlockOffset(port)); }
  }

  lemma BlockOffsetPort(port: bv16)
    ensures BlockOffset(port) < 8 ==> port == DiskPort(BlockOffset(port))
  {}

  /** An access reaches the disk through one of its eight ports and no other way. */
  lemma DiskEvent(e: Event)
    requires Route(e).ToAta?
    ensures !e.Key? && BlockOffset(e.port) < 8
    ensures var off := BlockOffset(e.port);
            match Route(e).ata
            case InB(o) => o == off && e == In(e.port, 1)
            case OutB(o, v) => o == off && e == Out(e.port, 1, v)
            case InW => off == 0 && e == In(e.port, 2)
            case OutW(w) => off == 0 && e == Out(e.port, 2, w)
  {
    hide Lookup, DeviceTable, BlockOffset, DiskPort, Offset;
    OnlyDiskRoutes(e);
    DiskAt(e.port);
  }

  lemma DiskAt(port: bv16)
    requires Lookup(DeviceTable(), port).Some? && Lookup(DeviceTable(), port).value.dev == AtaDisk
    ensures BlockOffset(port) < 8 && AtDisk(port, BlockOffset(port))
  {
    hide Lookup, DeviceTable, AtDisk;
    DeviceControlUnreachable(port);
    BlockPorts(port);
    hide BlockOffset, DiskPort;
    BlockLookup(port);
  }

  lemma OnlyDiskRoutes(e: Event)
    requires Route(e).ToAta?
    ensures !e.Key? && Lookup(DeviceTable(), e.port).Some? && Lookup(DeviceTable(), e.port).value.dev == AtaDisk
  {
    hide Lookup, DeviceTable, Offset;
  }

  lemma DiskRoute(port: bv16, v: byte, w: word)
    requires BlockOffset(port) < 8
    ensures Route(In(port, 1)) == ToAta(AtaSpec.InB(BlockOffset(port)))
    ensures Route(Out(port, 1, v)) == ToAta(AtaSpec.OutB(BlockOffset(port), v))
    ensures port == 0x1F0 ==> Route(In(port, 2)) == ToAta(AtaSpec.InW)
    ensures port == 0x1F0 ==> Route(Out(port, 2, w)) == ToAta(AtaSpec.OutW(w))
  {
    BlockLookup(port);
    hide DiskPort, AtDisk;
    RouteAtDisk(port, BlockOffset(port), v, w);
  }

  /** An access that is not for the disk leaves it alone. */
  lemma ElsewhereKeepsDisk(m: Machine, e: Event)
    requires Inv(m) && Legal(m, e) && !Route(e).ToAta?
    ensures Step(m, e).ata == m.ata
  {
    AtaStep(m, e);
  }

  // ----- what the ports read -----

  /** A byte read of the command block with the master selected. */
  lemma MasterReads(m: Machine, port: bv16)
    requires Inv(m) && !m.ata.slaveSelected && port in {0x1F1, 0x1F2, 0x1F3, 0x1F7}
    ensures Legal(m, In(port, 1))
    ensures var r := m.ata.master.reg;
            Delivered(m, port, 1) == [if port == 0x1F1 then r[1] else if port == 0x1F2 then r[3]
                                      else if port == 0x1F3 then r[4] else r[8]]
    ensures Step(m, In(port, 1)).ata == m.ata.(irq14 := m.ata.irq14 && port != 0x1F7)
  {
    hide Route, BlockOffset, AtaSpec.Legal, AtaSpec.Step, AtaSpec.ReadPort, AtaSpec.Inv;
    ByteReads(m.ata, BlockOffset(port));
    ReadOffsets(port);
    DiskRoute(port, 0, 0);
  }

  lemma ReadOffsets(port: bv16)
    ensures port == 0x1F1 ==> BlockOffset(port) == 1
    ensures port == 0x1F2 ==> BlockOffset(port) == 2
    ensures port == 0x1F3 ==> BlockOffset(port) == 3
    ensures port == 0x1F7 ==> BlockOffset(port) == 7
  {}

  lemma ByteReads(c: AtaSpec.Controller, off: nat)
    requires AtaSpec.Inv(c) && !c.slaveSelected
    ensures off in {1, 2, 3, 7} ==>
              && AtaSpec.Legal(c, AtaSpec.InB(off))
              && AtaSpec.ReadPort(c, off) == (if off == 1 then c.master.reg[1] else if off == 2 then c.master.reg[3]
                                              else if off == 3 then c.master.reg[4] else c.master.reg[8])
              && AtaSpec.Step(c, AtaSpec.InB(off)) == c.(irq14 := c.irq14 && off != 7)
  {}

  /** The device/head port reads 0xA0 or 0xB0, whatever is there. */
  lemma HeadReads(m: Machine)
    requires Inv(m)
    ensures Legal(m, In(0x1F6, 1)) && Delivered(m, 0x1F6, 1) == [if m.ata.slaveSelected then 0xB0 else 0xA0]
    ensures Step(m, In(0x1F6, 1)).ata == m.ata
  {
    DiskRoute(0x1F6, 0, 0);
    hide Route;
  }

  /** With the absent slave selected every other register reads 0, which is how a driver finds it absent. */
  lemma SlaveReadsZero(m: Machine, port: bv16)
    requires Inv(m) && m.ata.slaveSelected && port in {0x1F1, 0x1F2, 0x1F3, 0x1F4, 0x1F5, 0x1F7}
    ensures Legal(m, In(port, 1)) && Delivered(m, port, 1) == [0] && Step(m, In(port, 1)).ata == m.ata
  {
    hide Route, BlockOffset, AtaSpec.Legal, AtaSpec.Step, AtaSpec.ReadPort, AtaSpec.Inv;
    SlaveByteReads(m.ata, BlockOffset(port));
    SlaveOffsets(port);
    DiskRoute(port, 0, 0);
  }

  lemma SlaveOffsets(port: bv16)
    requires port in {0x1F1, 0x1F2, 0x1F3, 0x1F4, 0x1F5, 0x1F7}
    ensures BlockOffset(port) in {1, 2, 3, 4, 5, 7}
  {}

  lemma SlaveByteReads(c: AtaSpec.Controller, off: nat)
    requires AtaSpec.Inv(c) && c.slaveSelected
    ensures off in {1, 2, 3, 4, 5, 7} ==>
              && AtaSpec.Legal(c, AtaSpec.InB(off)) && AtaSpec.ReadPort(c, off) == 0
              && AtaSpec.Step(c, AtaSpec.InB(off)) == c
  {}

  /** Register writes are legal from any state and lost on the absent slave. */
  lemma MasterWrites(m: Machine, port: bv16, v: byte)
    requires Inv(m) && port in {0x1F2, 0x1F3}
    ensures Legal(m, Out(port, 1, v))
    ensures var i := if port == 0x1F2 then 3 else 4;
            Step(m, Out(port, 1, v)).ata ==
            if m.ata.slaveSelected then m.ata else m.ata.(master := m.ata.master.(reg := m.ata.master.reg[i := v]))
  {
    DiskRoute(port, v, 0);
    hide Route;
  }

  // ----- registers over runs -----

  /** Only its own port changes the sector count or the sector number of the master. */
  lemma CountIsKept(m: Machine, e: Event)
    requires Inv(m) && Legal(m, e)
    ensures !(e.Out? && e.port == 0x1F2) ==> Step(m, e).ata.master.reg[3] == m.ata.master.reg[3]
    ensures !(e.Out? && e.port == 0x1F3) ==> Step(m, e).ata.master.reg[4] == m.ata.master.reg[4]
  {
    AtaStep(m, e);
    if Route(e).ToAta? {
      DiskEvent(e);
      hide Route, Step, Legal, Inv, BlockOffset;
      AccessKeepsCount(m.ata, Route(e).ata);
      BlockOffsetIs(e.port);
    }
  }

  lemma BlockOffsetIs(port: bv16)
    ensures BlockOffset(port) == 2 ==> port == 0x1F2
    ensures BlockOffset(port) == 3 ==> port == 0x1F3
    ensures BlockOffset(port) == 6 ==> port == 0x1F6
    ensures BlockOffset(port) == 7 ==> port == 0x1F7
    ensures BlockOffset(port) == 0 ==> port == 0x1F0
  {}

  lemma AccessKeepsCount(c: AtaSpec.Controller, a: AtaSpec.Access)
    requires AtaSpec.Inv(c) && AtaSpec.Legal(c, a)
    requires (a.InB? || a.OutB?) ==> 0 <= a.off < 8
    ensures !(a.OutB? && a.off == 2) ==> AtaSpec.Step(c, a).master.reg[3] == c.master.reg[3]
    ensures !(a.OutB? && a.off == 3) ==> AtaSpec.Step(c, a).master.reg[4] == c.master.reg[4]
  {
    hide Window, AtaSpec.Lba28, AtaSpec.ReadBlock, AtaSpec.DriveInv, ToLE;
  }

  lemma {:induction false} CountIsKeptByRuns(m: Machine, run: seq<Event>)
    requires Inv(m) && LegalRun(m, run)
    ensures (forall e :: e in run ==> !(e.Out? && e.port == 0x1F2)) ==>
              Run(m, run).ata.master.reg[3] == m.ata.master.reg[3]
    ensures (forall e :: e in run ==> !(e.Out? && e.port == 0x1F3)) ==>
              Run(m, run).ata.master.reg[4] == m.ata.master.reg[4]
    decreases |run|
  {
    hide Step, Legal, Inv;
    if |run| != 0 {
      assert run[0] in run;
      CountIsKept(m, run[0]);
      CountIsKeptByRuns(Step(m, run[0]), run[1..]);
    }
  }

  /**
   The sector count and sector number ports read back what the guest last wrote there, whatever
   commands, transfers and accesses to other ports and devices come in between.
   */
  lemma RegisterReadsBack(m: Machine, port: bv16, v: byte, run: seq<Event>)
    requires Inv(m) && !m.ata.slaveSelected && port in {0x1F2, 0x1F3}
    requires Legal(m, Out(port, 1, v)) && LegalRun(Step(m, Out(port, 1, v)), run)
    requires forall e :: e in run ==> !(e.Out? && e.port == port)
    ensures var t := Run(Step(m, Out(port, 1, v)), run);
            !t.ata.slaveSelected ==> Legal(t, In(port, 1)) && Delivered(t, port, 1) == [v]
  {
    var m1 := Step(m, Out(port, 1, v));
    MasterWrites(m, port, v);
    hide Step, Legal, Inv, LegalRun, Run, Delivered;
    CountIsKeptByRuns(m1, run);
    var t := Run(m1, run);
    if !t.ata.slaveSelected { MasterReads(t, port); }
  }

  /** Only the device/head port selects. */
  lemma SelectionIsKept(m: Machine, e: Event)
    requires Inv(m) && Legal(m, e) && !(e.Out? && e.port == 0x1F6)
    ensures Step(m, e).ata.slaveSelected == m.ata.slaveSelected
  {
    AtaStep(m, e);
    if Route(e).ToAta? {
      DiskEvent(e);
      BlockOffsetIs(e.port);
      hide Route, Step, Legal, Inv, BlockOffset;
      AccessKeepsSelection(m.ata, Route(e).ata);
    }
  }

  lemma AccessKeepsSelection(c: AtaSpec.Controller, a: AtaSpec.Access)
    requires AtaSpec.Inv(c) && AtaSpec.Legal(c, a)
    requires ((a.InB? || a.OutB?) ==> 0 <= a.off < 8) && !(a.OutB? && a.off == 6)
    ensures AtaSpec.Step(c, a).slaveSelected == c.slaveSelected
  {
    hide AtaSpec.Command, AtaSpec.DriveInv, AtaSpec.Supported;
  }

  lemma {:induction false} SelectionIsKeptByRuns(m: Machine, run: seq<Event>)
    requires Inv(m) && LegalRun(m, run)
    requires forall e :: e in run ==> !(e.Out? && e.port == 0x1F6)
    ensures Run(m, run).ata.slaveSelected == m.ata.slaveSelected
    decreases |run|
  {
    hide Step, Legal, Inv;
    if |run| != 0 {
      assert run[0] in run;
      SelectionIsKept(m, run[0]);
      SelectionIsKeptByRuns(Step(m, run[0]), run[1..]);
    }
  }

  /** The device/head port reads 0xB0 exactly if the last value written to it had bit 4, and 0xA0 otherwise. */
  lemma HeadReadsBack(m: Machine, v: byte, run: seq<Event>)
    requires Inv(m)
    requires LegalRun(m, [Out(0x1F6, 1, v)] + run)
    requires forall e :: e in run ==> !(e.Out? && e.port == 0x1F6)
    ensures var t := Run(m, [Out(0x1F6, 1, v)] + run);
            Legal(t, In(0x1F6, 1)) && Delivered(t, 0x1F6, 1) == [if v / 0x10 % 2 == 1 then 0xB0 else 0xA0]
  {
    var e := Out(0x1F6, 1, v);
    SelectStep(m, v);
    assert ([e] + run)[1..] == run;
    hide Step, Legal, Inv, Delivered;
    SelectionIsKeptByRuns(Step(m, e), run);
    HeadReads(Run(m, [e] + run));
  }

  lemma SelectStep(m: Machine, v: byte)
    requires Inv(m)
    ensures Legal(m, Out(0x1F6, 1, v)) && (Step(m, Out(0x1F6, 1, v)).ata.slaveSelected <==> v / 0x10 % 2 == 1)
  {
    DiskRoute(0x1F6, v, 0);
    hide Route;
  }

  // ----- commands -----

  /** The commands the emulator carries out, by number; WRITE SECTORS only in LBA mode with a nonzero count. */
  predicate Accepted(m: Machine, cmd: byte) {
    || cmd in {0x10, 0x20, 0x91, 0xA1, 0xEC}
    || (cmd == 0x30 && m.ata.master.reg[7] / 0x40 % 2 == 1 && m.ata.master.reg[3] != 0)
  }

  /**
   Which byte accesses the emulator survives: it reads back neither the data port nor the cylinder ports,
   and a command must be one it carries out; with the absent slave selected everything is allowed.
   */
  lemma AcceptedAccesses(m: Machine, port: bv16, v: byte)
    requires Inv(m) && port in {0x1F0, 0x1F1, 0x1F2, 0x1F3, 0x1F4, 0x1F5, 0x1F6, 0x1F7}
    ensures Legal(m, In(port, 1)) <==> m.ata.slaveSelected || port !in {0x1F0, 0x1F4, 0x1F5}
    ensures Legal(m, Out(port, 1, v)) <==>
            m.ata.slaveSelected || (port != 0x1F0 && (port == 0x1F7 ==> Accepted(m, v)))
  {
    AcceptedOffsets(m, BlockOffset(port), v);
    PortOffsets(port);
    hide BlockOffset, Accepted;
    DiskRoute(port, v, 0);
    hide Route, AtaSpec.Legal;
  }

  lemma PortOffsets(port: bv16)
    requires port in {0x1F0, 0x1F1, 0x1F2, 0x1F3, 0x1F4, 0x1F5, 0x1F6, 0x1F7}
    ensures BlockOffset(port) < 8
    ensures BlockOffset(port) in {0, 4, 5} <==> port in {0x1F0, 0x1F4, 0x1F5}
    ensures (BlockOffset(port) == 0 <==> port == 0x1F0) && (BlockOffset(port) == 7 <==> port == 0x1F7)
  {}

  lemma AcceptedOffsets(m: Machine, off: nat, v: byte)
    requires Inv(m) && off < 8
    ensures AtaSpec.Legal(m.ata, AtaSpec.InB(off)) <==> m.ata.slaveSelected || off !in {0, 4, 5}
    ensures AtaSpec.Legal(m.ata, AtaSpec.OutB(off, v)) <==>
            m.ata.slaveSelected || (off != 0 && (off == 7 ==> Accepted(m, v)))
  {}

  /**
   Right after a command the status port reads ready (0x40), ready with data requested (0x48) for the
   three transfers, or ready with an error (0x41) for IDENTIFY PACKET DEVICE; the error port reads 0, or
   4 after the latter; and the interrupt line is up after RECALIBRATE, READ SECTORS and INITIALIZE DEVICE
   PARAMETERS alone.
   */
  lemma CommandReports(m: Machine, cmd: byte)
    requires Inv(m) && !m.ata.slaveSelected
    ensures Legal(m, Out(0x1F7, 1, cmd)) <==> Accepted(m, cmd)
    ensures Accepted(m, cmd) ==>
              var t := Step(m, Out(0x1F7, 1, cmd));
              && t == m.(ata := t.ata) && !t.ata.slaveSelected && t.ata.master.image == m.ata.master.image
              && Legal(t, In(0x1F7, 1)) && Legal(t, In(0x1F1, 1))
              && Delivered(t, 0x1F7, 1) ==
                 [if cmd == 0xA1 then 0x41 else if cmd in {0x20, 0x30, 0xEC} then 0x48 else 0x40]
              && Delivered(t, 0x1F1, 1) == [if cmd == 0xA1 then 4 else 0]
              && (t.ata.irq14 <==> cmd in {0x10, 0x20, 0x91})
  {
    DiskRoute(0x1F7, cmd, 0);
    hide Route;
    if Accepted(m, cmd) {
      var t := Step(m, Out(0x1F7, 1, cmd));
      CommandStep(m.ata, cmd);
      assert t == m.(ata := AtaSpec.Step(m.ata, AtaSpec.OutB(7, cmd)));
      hide Step, Legal, Delivered, AtaSpec.Step;
      MasterReads(t, 0x1F7);
      MasterReads(t, 0x1F1);
    }
  }

  lemma CommandStep(c: AtaSpec.Controller, cmd: byte)
    requires AtaSpec.Inv(c) && !c.slaveSelected && AtaSpec.Legal(c, AtaSpec.OutB(7, cmd))
    ensures var d := AtaSpec.Step(c, AtaSpec.OutB(7, cmd));
            && !d.slaveSelected && d.master.image == c.master.image
            && d.master.reg[8] == (if cmd == 0xA1 then 0x41 else if cmd in {0x20, 0x30, 0xEC} then 0x48 else 0x40)
            && d.master.reg[1] == (if cmd == 0xA1 then 4 else 0)
            && (d.irq14 <==> cmd in {0x10, 0x20, 0x91})
  {
    hide Window, AtaSpec.ReadBlock, AtaSpec.Lba28, AtaSpec.DriveInv;
  }

  /** The error port keeps its value until the next command. */
  lemma ErrorIsKept(m: Machine, e: Event)
    requires Inv(m) && Legal(m, e) && !(e.Out? && e.port == 0x1F7)
    ensures Step(m, e).ata.master.reg[1] == m.ata.master.reg[1]
  {
    AtaStep(m, e);
    if Route(e).ToAta? {
      DiskEvent(e);
      BlockOffsetIs(e.port);
      hide Route, Step, Legal, Inv, BlockOffset;
      AccessKeepsError(m.ata, Route(e).ata);
    }
  }

  lemma AccessKeepsError(c: AtaSpec.Controller, a: AtaSpec.Access)
    requires AtaSpec.Inv(c) && AtaSpec.Legal(c, a)
    requires ((a.InB? || a.OutB?) ==> 0 <= a.off < 8) && !(a.OutB? && a.off == 7)
    ensures AtaSpec.Step(c, a).master.reg[1] == c.master.reg[1]
  {
    hide AtaSpec.Command, AtaSpec.DriveInv, AtaSpec.Supported, ToLE, FileWrite;
  }

  lemma {:induction false} ErrorIsKeptByRuns(m: Machine, run: seq<Event>)
    requires Inv(m) && LegalRun(m, run)
    requires forall e :: e in run ==> !(e.Out? && e.port == 0x1F7)
    ensures Run(m, run).ata.master.reg[1] == m.ata.master.reg[1]
    decreases |run|
  {
    hide Step, Legal, Inv;
    if |run| != 0 {
      assert run[0] in run;
      ErrorIsKept(m, run[0]);
      ErrorIsKeptByRuns(Step(m, run[0]), run[1..]);
    }
  }

  /** From a command to the next the error port reads 0, or 4 if the command was IDENTIFY PACKET DEVICE. */
  lemma ErrorReads(m: Machine, cmd: byte, run: seq<Event>)
    requires Inv(m) && !m.ata.slaveSelected && Accepted(m, cmd)
    requires LegalRun(m, [Out(0x1F7, 1, cmd)] + run)
    requires forall e :: e in run ==> !(e.Out? && e.port == 0x1F7)
    ensures var t := Run(m, [Out(0x1F7, 1, cmd)] + run);
            !t.ata.slaveSelected ==> Legal(t, In(0x1F1, 1)) && Delivered(t, 0x1F1, 1) == [if cmd == 0xA1 then 4 else 0]
  {
    var e := Out(0x1F7, 1, cmd);
    CommandReports(m, cmd);
    assert ([e] + run)[1..] == run;
    hide Legal, Inv, Delivered, Accepted;
    var m1 := Step(m, e);
    hide Step;
    MasterReads(m1, 0x1F1);
    ErrorIsKeptByRuns(m1, run);
    var t := Run(m, [e] + run);
    if !t.ata.slaveSelected { MasterReads(t, 0x1F1); }
  }
}
