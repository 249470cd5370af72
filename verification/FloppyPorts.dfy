/**
 The floppy controller and the DMA controllers as a driver meets them, by port numbers and byte values:
 how long each command is, what it does, and what the status, output and DMA ports read.
 */
module FloppyPorts {
  import opened Bytes
  import opened Io
  import opened FdcSpec
  import opened FdcRuns
  import opened FloppyDriver
  import DmaSpec
  import MachineSpec

  // ----- single accesses -----

  /** Main status: 0x80 or 0xA0 when ready, bit 4 as well while a command is collected, 0xC0 with results. */
  lemma StatusReads(m: MachineSpec.Machine)
    requires MachineSpec.Inv(m)
    ensures MachineSpec.Legal(m, MachineSpec.In(0x3F4, 1)) && MachineSpec.Step(m, MachineSpec.In(0x3F4, 1)) == m
    ensures var f := m.floppy.fdc;
            MachineSpec.Reads(m, 0x3F4) ==
            Some(if f.phase.Result? then 0xC0
                 else if f.phase.Command? then (if f.ndma then 0xB0 else 0x90)
                 else if f.ndma then 0xA0 else 0x80)
  {
    LiftStep(m, InB(4));
    assert Step(m.floppy, InB(4)) == m.floppy;
    hide MachineSpec.Legal, MachineSpec.Step, MachineSpec.Delivered;
    assert m.(floppy := m.floppy) == m;
  }

  /** The digital output register reads back what was written, without bit 2. */
  lemma OutputReads(m: MachineSpec.Machine)
    requires MachineSpec.Inv(m)
    ensures MachineSpec.Legal(m, MachineSpec.In(0x3F2, 1)) && MachineSpec.Step(m, MachineSpec.In(0x3F2, 1)) == m
    ensures MachineSpec.Reads(m, 0x3F2) == Some(m.floppy.fdc.dor)
  {
    LiftStep(m, InB(2));
    assert Step(m.floppy, InB(2)) == m.floppy;
    hide MachineSpec.Legal, MachineSpec.Step, MachineSpec.Delivered;
    assert m.(floppy := m.floppy) == m;
  }

  /**
   A write to the digital output register reads back without bit 2.  With bit 2 clear it resets: the
   controller is ready with status 0x80, whatever it was doing, and raises its interrupt.  With bit 2 set
   nothing else changes.
   */
  lemma OutputWrite(m: MachineSpec.Machine, v: byte)
    requires MachineSpec.Inv(m)
    ensures MachineSpec.Legal(m, MachineSpec.Out(0x3F2, 1, v))
    ensures var t := MachineSpec.Step(m, MachineSpec.Out(0x3F2, 1, v));
            && t == m.(floppy := m.floppy.(fdc := t.floppy.fdc)) && t.floppy.fdc.image == m.floppy.fdc.image
            && MachineSpec.Reads(t, 0x3F2) == Some(if v / 4 % 2 == 1 then v - 4 else v)
            && (v / 4 % 2 == 0 ==>
                  && t.floppy.fdc.phase.Ready? && t.floppy.fdc.irq6 && MachineSpec.Reads(t, 0x3F4) == Some(0x80)
                  && t.floppy.fdc.cyl == m.floppy.fdc.cyl && t.floppy.fdc.head == m.floppy.fdc.head)
            && (v / 4 % 2 == 1 ==> t.floppy.fdc == m.floppy.fdc.(dor := v - 4))
  {
    hide MachineSpec.Route, MachineSpec.Legal, MachineSpec.Step, MachineSpec.Reads, MachineSpec.Inv, Step, Legal, Inv;
    MachineFloppyInv(m);
    DorStep(m.floppy, v);
    LiftStep(m, OutB(2, v));
    var t := MachineSpec.Step(m, MachineSpec.Out(0x3F2, 1, v));
    OutputReads(t);
    StatusReads(t);
  }

  lemma MachineFloppyInv(m: MachineSpec.Machine)
    requires MachineSpec.Inv(m)
    ensures Inv(m.floppy.fdc)
  {}

  lemma DorStep(s: FloppySystem, v: byte)
    requires Inv(s.fdc)
    ensures Legal(s, OutB(2, v)) && Step(s, OutB(2, v)) == s.(fdc := WriteDor(s.fdc, v))
  {}

  /** The data-rate select register with its two low bits replaced. */
  function RateBits(dsr: byte, v: byte): byte { dsr / 4 * 4 + v % 4 }

  /** A write to the configuration port sets the rate registers, which no port shows. */
  lemma RateWrite(m: MachineSpec.Machine, v: byte)
    requires MachineSpec.Inv(m)
    ensures MachineSpec.Legal(m, MachineSpec.Out(0x3F7, 1, v))
    ensures var t := MachineSpec.Step(m, MachineSpec.Out(0x3F7, 1, v));
            && t == m.(floppy := m.floppy.(fdc := t.floppy.fdc))
            && t.floppy.fdc == m.floppy.fdc.(ccr := v, dsr := RateBits(m.floppy.fdc.dsr, v))
            && MachineSpec.Reads(t, 0x3F4) == MachineSpec.Reads(m, 0x3F4)
            && MachineSpec.Reads(t, 0x3F2) == MachineSpec.Reads(m, 0x3F2)
  {
    LiftStep(m, OutB(7, v));
    var t := MachineSpec.Step(m, MachineSpec.Out(0x3F7, 1, v));
    assert t.floppy.fdc == m.floppy.fdc.(ccr := v, dsr := RateBits(m.floppy.fdc.dsr, v));
    hide MachineSpec.Legal, MachineSpec.Step, MachineSpec.Reads, Step;
    OutputReads(t);
    StatusReads(t);
    OutputReads(m);
    StatusReads(m);
  }

  /**
   Which byte accesses to the controller the emulator survives, and which bytes start a command.  A read
   command's parameters are judged at its last byte.
   */
  lemma AcceptedAccesses(m: MachineSpec.Machine, port: bv16, v: byte)
    requires MachineSpec.Inv(m) && 0x3F0 <= port <= 0x3F7
    ensures MachineSpec.Legal(m, MachineSpec.In(port, 1)) <==>
            port in {0x3F2, 0x3F4} || (port == 0x3F5 && m.floppy.fdc.phase.Result?)
    ensures port != 0x3F5 ==> (MachineSpec.Legal(m, MachineSpec.Out(port, 1, v)) <==> port in {0x3F2, 0x3F7})
    ensures m.floppy.fdc.phase.Ready? ==>
              (MachineSpec.Legal(m, MachineSpec.Out(0x3F5, 1, v)) <==> v % 0x10 in {6, 7, 8, 10, 15})
    ensures m.floppy.fdc.phase.Result? ==> !MachineSpec.Legal(m, MachineSpec.Out(0x3F5, 1, v))
  {
    FloppyPortLookup(port);
    FloppyPortLookup(0x3F5);
    hide Lookup, DeviceTable, MachineSpec.Route, MachineSpec.Offset;
    FloppyPortRoute(port, v);
    FloppyPortRoute(0x3F5, v);
    PortOffset(port);
    PortOffset(0x3F5);
    AcceptedOffsets(m.floppy, v);
    hide Legal;
  }

  lemma AcceptedOffsets(s: FloppySystem, v: byte)
    ensures forall off :: Legal(s, InB(off)) <==> off in {2, 4} || (off == 5 && s.fdc.phase.Result?)
    ensures forall off :: off != 5 ==> (Legal(s, OutB(off, v)) <==> off in {2, 7})
    ensures s.fdc.phase.Ready? ==> (Legal(s, OutB(5, v)) <==> v % 0x10 in {6, 7, 8, 10, 15})
    ensures s.fdc.phase.Result? ==> !Legal(s, OutB(5, v))
  {}

  lemma FloppyPortRoute(port: bv16, v: byte)
    requires Lookup(DeviceTable(), port) == Some(IoHandler(0x03F0, 0xFFF8, DeviceId.Floppy))
    ensures var off := MachineSpec.Offset(port, 0x3F0);
            && MachineSpec.Route(MachineSpec.In(port, 1)) == MachineSpec.ToFloppy(InB(off))
            && MachineSpec.Route(MachineSpec.Out(port, 1, v)) == MachineSpec.ToFloppy(OutB(off, v))
  {
    hide Lookup, DeviceTable, MachineSpec.Offset;
  }

  lemma FloppyPortLookup(port: bv16)
    requires 0x3F0 <= port <= 0x3F7
    ensures Lookup(DeviceTable(), port) == Some(IoHandler(0x03F0, 0xFFF8, DeviceId.Floppy))
  {
    assert DeviceTable()[19] == IoHandler(0x03F0, 0xFFF8, DeviceId.Floppy);
    assert port & 0xFFF8 == 0x3F0;
    hide Lookup;
    AnswersIff(DeviceTable()[19], port);
  }

  lemma PortOffset(port: bv16)
    requires 0x3F0 <= port <= 0x3F7
    ensures var off := MachineSpec.Offset(port, 0x3F0);
            && (port == 0x3F2 <==> off == 2) && (port == 0x3F4 <==> off == 4)
            && (port == 0x3F5 <==> off == 5) && (port == 0x3F7 <==> off == 7)
  {}

  // ----- commands -----

  /** A command other than READ DATA, of the length its low nibble asks for. */
  predicate ShortCommand(cmd: seq<byte>) {
    && |cmd| > 0 && cmd[0] % 0x10 in {7, 8, 10, 15}
    && |cmd| == (if cmd[0] % 0x10 == 8 then 1 else if cmd[0] % 0x10 == 15 then 3 else 2)
  }

  /** The controller after a whole command, whatever its phase was called before. */
  lemma CommandRuns(m: MachineSpec.Machine, cmd: seq<byte>)
    requires MachineSpec.Inv(m) && m.floppy.fdc.phase.Ready? && ShortCommand(cmd)
    ensures Executable(cmd, m.floppy.ctl, m.floppy.page)
    ensures MachineSpec.LegalRun(m, FifoOut(cmd)) && MachineSpec.Received(m, FifoOut(cmd)) == []
    ensures MachineSpec.Run(m, FifoOut(cmd)) == m.(floppy := Execute(m.floppy, cmd))
  {
    hide LegalRun, Run, FifoReads, Execute, MachineSpec.LegalRun, MachineSpec.Run, MachineSpec.Received, Inv;
    assert cmd[0..] == cmd && cmd[..0] == [];
    FeedRun(m.floppy, cmd, 0);
    FeedDrives(cmd);
    LiftRun(m, Feed(cmd));
    NothingRead(m.floppy, Feed(cmd));
  }

  lemma FeedDrives(cmd: seq<byte>)
    ensures forall a :: a in Feed(cmd) ==> OnPorts(a) && Drives(a) && !IsFifoRead(a)
    ensures LiftAll(Feed(cmd)) == FifoOut(cmd)
  {}

  /**
   Until its last byte a command is only collected: nothing but the collected bytes changes, and the
   status port has its busy bit up.
   */
  lemma CommandCollects(m: MachineSpec.Machine, cmd: seq<byte>, k: nat)
    requires MachineSpec.Inv(m) && m.floppy.fdc.phase.Ready? && 0 < k < |cmd|
    requires cmd[0] % 0x10 in {6, 7, 10, 15}
    requires |cmd| == if cmd[0] % 0x10 == 6 then 9 else if cmd[0] % 0x10 == 15 then 3 else 2
    ensures MachineSpec.LegalRun(m, FifoOut(cmd[..k]))
    ensures var t := MachineSpec.Run(m, FifoOut(cmd[..k]));
            && t == m.(floppy := m.floppy.(fdc := m.floppy.fdc.(phase := Command(cmd[..k]))))
            && MachineSpec.Reads(t, 0x3F4) == Some(if m.floppy.fdc.ndma then 0xB0 else 0x90)
  {
    Collect(m.floppy, cmd, 0, k);
    hide LegalRun, Run, FifoReads, MachineSpec.LegalRun, MachineSpec.Run, MachineSpec.Received, MachineSpec.Reads;
    assert cmd[0..k] == cmd[..k];
    FeedDrives(cmd[..k]);
    LiftRun(m, Feed(cmd[..k]));
    StatusReads(MachineSpec.Run(m, FifoOut(cmd[..k])));
  }

  lemma {:induction false} Collect(s: FloppySystem, cmd: seq<byte>, j: nat, k: nat)
    requires Inv(s.fdc) && !s.fdc.phase.Result? && j < k < |cmd| && Pending(s.fdc) == cmd[..j]
    requires CommandLength(cmd[0]) == |cmd|
    ensures LegalRun(s, Feed(cmd[j..k]))
    ensures Run(s, Feed(cmd[j..k])) == s.(fdc := s.fdc.(phase := Command(cmd[..k])))
    decreases k - j
  {
    var a := OutB(DATA_FIFO, cmd[j]);
    assert Feed(cmd[j..k]) == [a] + Feed(cmd[j + 1..k]);
    CollectStep(s, cmd, j);
    var s1 := Step(s, a);
    hide Step, Legal, Pending, CommandLength;
    if j + 1 < k {
      Collect(s1, cmd, j + 1, k);
    } else {
      assert Feed(cmd[k..k]) == [];
    }
    RunCons(s, a, Feed(cmd[j + 1..k]));
  }

  lemma CollectStep(s: FloppySystem, cmd: seq<byte>, j: nat)
    requires Inv(s.fdc) && !s.fdc.phase.Result? && j + 1 < |cmd| && Pending(s.fdc) == cmd[..j]
    requires CommandLength(cmd[0]) == |cmd|
    ensures var a := OutB(DATA_FIFO, cmd[j]);
            && Legal(s, a) && Step(s, a) == s.(fdc := s.fdc.(phase := Command(cmd[..j + 1])))
            && Pending(Step(s, a).fdc) == cmd[..j + 1]
  {
    assert cmd[..j] + [cmd[j]] == cmd[..j + 1] && cmd[..j + 1][0] == cmd[0];
    hide CommandLength, Execute, Executable;
  }

  /** All result bytes of a command through `REP INSB`. */
  lemma ResultsRead(m: MachineSpec.Machine, bytes: seq<byte>)
    requires MachineSpec.Inv(m) && m.floppy.fdc.phase == Result(bytes)
    ensures var run := MachineSpec.RepIn(0x3F5, 1, |bytes|);
            && MachineSpec.LegalRun(m, run) && MachineSpec.Received(m, run) == bytes
            && MachineSpec.Run(m, run) ==
               m.(floppy := m.floppy.(fdc := m.floppy.fdc.(phase := Ready, ndma := true, irq6 := false)))
  {
    hide LegalRun, Run, FifoReads, MachineSpec.LegalRun, MachineSpec.Run, MachineSpec.Received;
    TakeRun(m.floppy, bytes);
    TakeDrives(|bytes|);
    LiftRun(m, Take(|bytes|));
  }

  lemma TakeDrives(k: nat)
    ensures forall a :: a in Take(k) ==> OnPorts(a) && Drives(a)
    ensures LiftAll(Take(k)) == MachineSpec.RepIn(0x3F5, 1, k)
  {}

  /**
   RECALIBRATE is two bytes: after the second the head is at cylinder 0, the status port reads 0x80 and
   the interrupt is up.
   */
  lemma Recalibrates(m: MachineSpec.Machine, op: byte, x: byte)
    requires MachineSpec.Inv(m) && m.floppy.fdc.phase.Ready? && op % 0x10 == 7
    ensures MachineSpec.LegalRun(m, FifoOut([op, x]))
    ensures var t := MachineSpec.Run(m, FifoOut([op, x]));
            && t == m.(floppy := m.floppy.(fdc := m.floppy.fdc.(cyl := 0, ndma := false, irq6 := true)))
            && MachineSpec.Reads(t, 0x3F4) == Some(0x80)
  {
    CommandRuns(m, [op, x]);
    assert Execute(m.floppy, [op, x]) ==
           m.floppy.(fdc := m.floppy.fdc.(cyl := 0, ndma := false, irq6 := true));
    hide Execute, MachineSpec.LegalRun, MachineSpec.Run, MachineSpec.Received, MachineSpec.Reads;
    StatusReads(MachineSpec.Run(m, FifoOut([op, x])));
  }

  /**
   SEEK is three bytes: after the third the head is the second byte's upper six bits, the cylinder the
   third byte, the status port reads 0xA0 and the interrupt is up.
   */
  lemma Seeks(m: MachineSpec.Machine, op: byte, h: byte, c: byte)
    requires MachineSpec.Inv(m) && m.floppy.fdc.phase.Ready? && op % 0x10 == 15
    ensures MachineSpec.LegalRun(m, FifoOut([op, h, c]))
    ensures var t := MachineSpec.Run(m, FifoOut([op, h, c]));
            && t == m.(floppy := m.floppy.(fdc := m.floppy.fdc.(head := h / 4, cyl := c, ndma := true, irq6 := true)))
            && MachineSpec.Reads(t, 0x3F4) == Some(0xA0)
  {
    CommandRuns(m, [op, h, c]);
    assert Execute(m.floppy, [op, h, c]) ==
           m.floppy.(fdc := m.floppy.fdc.(head := h / 4, cyl := c, ndma := true, irq6 := true));
    hide Execute, MachineSpec.LegalRun, MachineSpec.Run, MachineSpec.Received, MachineSpec.Reads;
    StatusReads(MachineSpec.Run(m, FifoOut([op, h, c])));
  }

  /** A command with results: they are offered with status 0xC0 and come out of the FIFO in order. */
  lemma CommandAnswers(m: MachineSpec.Machine, cmd: seq<byte>, f: Fdc, bytes: seq<byte>)
    requires MachineSpec.Inv(m) && m.floppy.fdc.phase.Ready? && ShortCommand(cmd)
    requires f == m.floppy.fdc.(phase := Result(bytes), ndma := false, irq6 := f.irq6)
    requires Executable(cmd, m.floppy.ctl, m.floppy.page) && Execute(m.floppy, cmd) == m.floppy.(fdc := f)
    ensures var run := FifoOut(cmd) + MachineSpec.RepIn(0x3F5, 1, |bytes|);
            && MachineSpec.LegalRun(m, FifoOut(cmd)) && MachineSpec.LegalRun(m, run)
            && MachineSpec.Received(m, run) == bytes
            && MachineSpec.Reads(MachineSpec.Run(m, FifoOut(cmd)), 0x3F4) == Some(0xC0)
            && MachineSpec.Run(m, FifoOut(cmd)).floppy.fdc.irq6 == f.irq6
            && MachineSpec.Run(m, run) ==
               m.(floppy := m.floppy.(fdc := m.floppy.fdc.(ndma := true, irq6 := false)))
  {
    hide Execute, Executable, MachineSpec.LegalRun, MachineSpec.Run, MachineSpec.Received, MachineSpec.Reads;
    CommandRuns(m, cmd);
    var m1 := MachineSpec.Run(m, FifoOut(cmd));
    assert m1 == m.(floppy := m.floppy.(fdc := f));
    StatusReads(m1);
    ResultsRead(m1, bytes);
    MachineSpec.RunAppend(m, FifoOut(cmd), MachineSpec.RepIn(0x3F5, 1, |bytes|));
    assert [] + bytes == bytes;
  }

  /**
   SENSE INTERRUPT is one byte: status register 0 and the cylinder come back, and the interrupt is lowered
   at once.
   */
  lemma SensesInterrupt(m: MachineSpec.Machine, op: byte)
    requires MachineSpec.Inv(m) && m.floppy.fdc.phase.Ready? && op % 0x10 == 8
    ensures var run := FifoOut([op]) + MachineSpec.RepIn(0x3F5, 1, 2);
            && MachineSpec.LegalRun(m, FifoOut([op])) && MachineSpec.LegalRun(m, run)
            && !MachineSpec.Run(m, FifoOut([op])).floppy.fdc.irq6
            && MachineSpec.Received(m, run) == [m.floppy.fdc.st[0], m.floppy.fdc.cyl]
            && MachineSpec.Run(m, run) == m.(floppy := m.floppy.(fdc := m.floppy.fdc.(ndma := true, irq6 := false)))
  {
    SenseEffect(m.floppy, op);
    hide Execute, Executable, ShortCommand, FifoOut, MachineSpec.RepIn, MachineSpec.Inv;
    hide MachineSpec.LegalRun, MachineSpec.Run, MachineSpec.Received, MachineSpec.Reads;
    var bytes := [m.floppy.fdc.st[0], m.floppy.fdc.cyl];
    CommandAnswers(m, [op], m.floppy.fdc.(phase := Result(bytes), ndma := false, irq6 := false), bytes);
  }

  lemma SenseEffect(s: FloppySystem, op: byte)
    requires op % 0x10 == 8
    ensures ShortCommand([op]) && Executable([op], s.ctl, s.page)
    ensures Execute(s, [op]) ==
            s.(fdc := s.fdc.(phase := Result([s.fdc.st[0], s.fdc.cyl]), ndma := false, irq6 := false))
  {}

  /**
   READ ID is two bytes: the three status registers, cylinder, head, sector and the code of 512-byte
   sectors come back, with the interrupt up until the last of them is read.
   */
  lemma ReadsId(m: MachineSpec.Machine, op: byte, x: byte)
    requires MachineSpec.Inv(m) && m.floppy.fdc.phase.Ready? && op % 0x10 == 10
    ensures var run, f := FifoOut([op, x]) + MachineSpec.RepIn(0x3F5, 1, 7), m.floppy.fdc;
            && MachineSpec.LegalRun(m, FifoOut([op, x])) && MachineSpec.LegalRun(m, run)
            && MachineSpec.Run(m, FifoOut([op, x])).floppy.fdc.irq6
            && MachineSpec.Received(m, run) == [f.st[0], f.st[1], f.st[2], f.cyl, f.head, f.sect, 2]
            && MachineSpec.Run(m, run) == m.(floppy := m.floppy.(fdc := f.(ndma := true, irq6 := false)))
  {
    IdEffect(m.floppy, op, x);
    hide Execute, Executable, ShortCommand, FifoOut, MachineSpec.RepIn, MachineSpec.Inv;
    hide MachineSpec.LegalRun, MachineSpec.Run, MachineSpec.Received, MachineSpec.Reads;
    var g := m.floppy.fdc;
    var bytes := [g.st[0], g.st[1], g.st[2], g.cyl, g.head, g.sect, 2];
    CommandAnswers(m, [op, x], g.(phase := Result(bytes), ndma := false, irq6 := true), bytes);
  }

  lemma IdEffect(s: FloppySystem, op: byte, x: byte)
    requires op % 0x10 == 10
    ensures ShortCommand([op, x]) && Executable([op, x], s.ctl, s.page)
    ensures var g := s.fdc;
            var bytes := [g.st[0], g.st[1], g.st[2], g.cyl, g.head, g.sect, 2];
            Execute(s, [op, x]) == s.(fdc := g.(phase := Result(bytes), ndma := false, irq6 := true))
  {}

  /** What drivers do: after a SEEK, SENSE INTERRUPT reports the cylinder asked for and READ ID the head as well. */
  lemma SeekIsReported(m: MachineSpec.Machine, h: byte, c: byte)
    requires MachineSpec.Inv(m) && m.floppy.fdc.phase.Ready?
    ensures MachineSpec.LegalRun(m, FifoOut([0x0F, h, c]))
    ensures var t := MachineSpec.Run(m, FifoOut([0x0F, h, c]));
            && MachineSpec.LegalRun(t, FifoOut([0x08]) + MachineSpec.RepIn(0x3F5, 1, 2))
            && MachineSpec.Received(t, FifoOut([0x08]) + MachineSpec.RepIn(0x3F5, 1, 2)) == [m.floppy.fdc.st[0], c]
            && MachineSpec.LegalRun(t, FifoOut([0x4A, 0]) + MachineSpec.RepIn(0x3F5, 1, 7))
            && MachineSpec.Received(t, FifoOut([0x4A, 0]) + MachineSpec.RepIn(0x3F5, 1, 7)) ==
               [m.floppy.fdc.st[0], m.floppy.fdc.st[1], m.floppy.fdc.st[2], c, h / 4, m.floppy.fdc.sect, 2]
  {
    hide MachineSpec.LegalRun, MachineSpec.Run, MachineSpec.Received, MachineSpec.Reads, MachineSpec.RepIn, FifoOut;
    Seeks(m, 0x0F, h, c);
    var t := MachineSpec.Run(m, FifoOut([0x0F, h, c]));
    SensesInterrupt(t, 0x08);
    ReadsId(t, 0x4A, 0);
  }

  // ----- the DMA controllers -----

  /** The first controller's registers are at ports 0 to 6; the second's at every other port from 0xC0. */
  lemma DmaRoutes(port: bv16, v: byte)
    requires port <= 6
    ensures MachineSpec.Route(MachineSpec.In(port, 1)) == MachineSpec.ToFloppy(Dma(DmaSpec.InB(port as int)))
    ensures MachineSpec.Route(MachineSpec.Out(port, 1, v)) == MachineSpec.ToFloppy(Dma(DmaSpec.OutB(port as int, v)))
  {
    Dma0Lookup(port);
    hide Lookup, DeviceTable;
  }

  lemma Dma0Lookup(port: bv16)
    requires port <= 0xF
    ensures Lookup(DeviceTable(), port) == Some(IoHandler(0x0000, 0xFFF0, Dma0))
  {
    assert DeviceTable()[3] == IoHandler(0x0000, 0xFFF0, Dma0);
    LowPorts(port);
    hide Lookup;
    AnswersIff(DeviceTable()[3], port);
  }

  lemma LowPorts(port: bv16)
    requires port <= 0xF
    ensures port & 0xFFF0 == 0
  {}

  lemma SmallPort(port: bv16)
    requires port <= 6
    ensures 0 <= port as int <= 6
  {}

  /** From even parity a register of the first controller, written low byte first, reads back low byte first. */
  lemma DmaReadsBack(m: MachineSpec.Machine, port: bv16, lo: byte, hi: byte)
    requires MachineSpec.Inv(m) && port <= 6 && !m.floppy.ctl.reg[port as int].odd
    ensures var w := [MachineSpec.Out(port, 1, lo), MachineSpec.Out(port, 1, hi)];
            && MachineSpec.LegalRun(m, w)
            && var t := MachineSpec.Run(m, w);
               && t.floppy.fdc == m.floppy.fdc && t.floppy.mem == m.floppy.mem
               && MachineSpec.LegalRun(t, MachineSpec.RepIn(port, 1, 2))
               && MachineSpec.Received(t, MachineSpec.RepIn(port, 1, 2)) == [lo, hi]
  {
    hide MachineSpec.Route, MachineSpec.Inv, MachineSpec.Step, MachineSpec.Legal, MachineSpec.Delivered;
    hide MachineSpec.LegalRun, MachineSpec.Run, MachineSpec.Received, Inv, DmaSpec.Step, DmaSpec.ReadPort;
    SmallPort(port);
    var r := port as int;
    DmaRoutes(port, lo);
    DmaRoutes(port, hi);
    PairSteps(m.floppy.ctl, r, lo, hi);
    var e1, e2, e3 := MachineSpec.Out(port, 1, lo), MachineSpec.Out(port, 1, hi), MachineSpec.In(port, 1);
    DmaStep(m, e1, DmaSpec.OutB(r, lo));
    var m1 := MachineSpec.Step(m, e1);
    DmaStep(m1, e2, DmaSpec.OutB(r, hi));
    var m2 := MachineSpec.Step(m1, e2);
    DmaStep(m2, e3, DmaSpec.InB(r));
    var m3 := MachineSpec.Step(m2, e3);
    DmaStep(m3, e3, DmaSpec.InB(r));
    TwoEvents(m, e1, e2);
    TwoEvents(m2, e3, e3);
    assert MachineSpec.RepIn(port, 1, 2) == [e3, e3];
    TwoReads(m2, port);
    assert [lo] + [hi] == [lo, hi];
  }

  lemma PairSteps(c: DmaSpec.Ctl, r: nat, lo: byte, hi: byte)
    requires r <= 6 && !c.reg[r].odd
    ensures var c2 := DmaSpec.Step(DmaSpec.Step(c, DmaSpec.OutB(r, lo)), DmaSpec.OutB(r, hi));
            && c2.reg[r].Next() == lo && DmaSpec.Step(c2, DmaSpec.InB(r)).reg[r].Next() == hi
  {
    var c1 := DmaSpec.Step(c, DmaSpec.OutB(r, lo));
    assert c1.reg[r] == DmaSpec.Reg16(lo, c.reg[r].hi, true);
    var c2 := DmaSpec.Step(c1, DmaSpec.OutB(r, hi));
    assert c2.reg[r] == DmaSpec.Reg16(lo, hi, false);
  }

  /** The second controller's registers take two ports each from 0xC0 on. */
  lemma SecondDmaRoutes(port: bv16, v: byte)
    requires 0xC0 <= port <= 0xCD
    ensures var r := (port - 0xC0) as int / 2;
            && r <= 6
            && MachineSpec.Route(MachineSpec.In(port, 1)) == MachineSpec.ToDma1(DmaSpec.InB(r))
            && MachineSpec.Route(MachineSpec.Out(port, 1, v)) == MachineSpec.ToDma1(DmaSpec.OutB(r, v))
  {
    Dma1Lookup(port);
    SecondOffset(port);
    hide Lookup, DeviceTable;
  }

  lemma SecondOffset(port: bv16)
    requires 0xC0 <= port <= 0xCD
    ensures 0 <= (port - 0xC0) as int <= 13
  {}

  lemma Dma1Lookup(port: bv16)
    requires 0xC0 <= port <= 0xDF
    ensures Lookup(DeviceTable(), port) == Some(IoHandler(0x00C0, 0xFFE0, Dma1))
  {
    assert DeviceTable()[4] == IoHandler(0x00C0, 0xFFE0, Dma1);
    SecondPorts(port);
    hide Lookup;
    AnswersIff(DeviceTable()[4], port);
  }

  lemma SecondPorts(port: bv16)
    requires 0xC0 <= port <= 0xDF
    ensures port & 0xFFE0 == 0xC0
  {}

  /** One access to a register of the second controller: bytes alternate low, high, independently of the first. */
  lemma SecondDmaAccess(m: MachineSpec.Machine, port: bv16, v: byte)
    requires MachineSpec.Inv(m) && 0xC0 <= port <= 0xCD
    ensures var r := (port - 0xC0) as int / 2;
            var g := m.dma1.reg[r];
            && MachineSpec.Reads(m, port) == Some(if g.odd then g.hi else g.lo)
            && MachineSpec.Legal(m, MachineSpec.Out(port, 1, v))
            && MachineSpec.Step(m, MachineSpec.Out(port, 1, v)) ==
               m.(dma1 := m.dma1.(reg := m.dma1.reg[r := if g.odd then DmaSpec.Reg16(g.lo, v, false)
                                                         else DmaSpec.Reg16(v, g.hi, true)]))
  {
    SecondOffset(port);
    SecondDmaRoutes(port, v);
    hide MachineSpec.Route;
  }

  /** The command registers, at ports 0x08 and 0xD0, read 4: the controllers say they are disabled. */
  lemma DmaCommandReads(m: MachineSpec.Machine)
    requires MachineSpec.Inv(m)
    ensures MachineSpec.Reads(m, 0x08) == Some(4) && MachineSpec.Reads(m, 0xD0) == Some(4)
  {
    Dma0Lookup(0x08);
    Dma1Lookup(0xD0);
    assert MachineSpec.Offset(0x08, 0x0000) == 8 && MachineSpec.Offset(0xD0, 0x00C0) == 16;
    hide Lookup, DeviceTable, MachineSpec.Offset;
  }

  /** Which byte accesses to the first controller the emulator survives. */
  lemma DmaAccepts(m: MachineSpec.Machine, port: bv16, v: byte)
    requires MachineSpec.Inv(m) && port <= 0xF
    ensures MachineSpec.Legal(m, MachineSpec.In(port, 1)) <==> port <= 6 || port == 8
    ensures MachineSpec.Legal(m, MachineSpec.Out(port, 1, v)) <==>
            port <= 6 || port in {0xA, 0xB, 0xD} || (port == 0xC && v in {0, 0xFF})
  {
    Dma0Lookup(port);
    LowOffset(port);
    hide Lookup, DeviceTable, MachineSpec.Offset;
  }

  /** The page registers are write-only, and the sixteenth is missing. */
  lemma PageAccepts(m: MachineSpec.Machine, port: bv16, v: byte)
    requires MachineSpec.Inv(m) && 0x80 <= port <= 0x8F
    ensures !MachineSpec.Legal(m, MachineSpec.In(port, 1))
    ensures MachineSpec.Legal(m, MachineSpec.Out(port, 1, v)) <==> port != 0x8F
    ensures port != 0x8F ==>
              MachineSpec.Step(m, MachineSpec.Out(port, 1, v)) ==
              m.(floppy := m.floppy.(page := m.floppy.page[(port - 0x80) as int := v]))
  {
    PageOffset(port);
    PageLookup(port);
    hide Lookup, DeviceTable;
    PageRoute(port, v);
    assert MachineSpec.Offset(port, 0x80) == (port - 0x80) as int;
    hide MachineSpec.Route, MachineSpec.Offset;
  }

  lemma PageRoute(port: bv16, v: byte)
    requires Lookup(DeviceTable(), port) == Some(IoHandler(0x0080, 0xFFF0, DmaPage))
    ensures MachineSpec.Route(MachineSpec.In(port, 1)) == MachineSpec.Unsupported
    ensures MachineSpec.Route(MachineSpec.Out(port, 1, v)) ==
            MachineSpec.ToFloppy(Page(MachineSpec.Offset(port, 0x80), v))
  {
    hide Lookup, DeviceTable, MachineSpec.Offset;
  }

  lemma LowOffset(port: bv16)
    requires port <= 0xF
    ensures var off := MachineSpec.Offset(port, 0);
            && 0 <= off <= 0xF && (off <= 6 <==> port <= 6) && (off == 8 <==> port == 8)
            && (off == 0xA <==> port == 0xA) && (off == 0xB <==> port == 0xB)
            && (off == 0xC <==> port == 0xC) && (off == 0xD <==> port == 0xD)
  {}

  lemma PageOffset(port: bv16)
    requires 0x80 <= port <= 0x8F
    ensures 0 <= (port - 0x80) as int <= 15 && ((port - 0x80) as int == 15 <==> port == 0x8F)
  {}

  lemma PageLookup(port: bv16)
    requires 0x80 <= port <= 0x8F
    ensures Lookup(DeviceTable(), port) == Some(IoHandler(0x0080, 0xFFF0, DmaPage))
  {
    assert DeviceTable()[5] == IoHandler(0x0080, 0xFFF0, DmaPage);
    assert port & 0xFFF0 == 0x80;
    hide Lookup;
    AnswersIff(DeviceTable()[5], port);
  }

  /**
   The control ports of the first controller: 0x0A masks, 0x0B sets the mode, 0x0C takes 0 and 0xFF only
   and brings registers 0 and 1 alone back to their low byte, 0x0D clears everything.
   */
  lemma DmaControls(m: MachineSpec.Machine, v: byte)
    requires MachineSpec.Inv(m)
    ensures var c := m.floppy.ctl;
            && ControlStep(m, 0x0A, v, c.(mask := 0xF0 + v % 0x10))
            && ControlStep(m, 0x0B, v, c.(mode := v))
            && (v == 0 ==> ControlStep(m, 0x0C, v, c))
            && (v == 0xFF ==> ControlStep(m, 0x0C, v, LowBytesNext(c)))
            && (MachineSpec.Legal(m, MachineSpec.Out(0x0C, 1, v)) <==> v in {0, 0xFF})
            && ControlStep(m, 0x0D, v, DmaSpec.Ctl(seq(7, i => DmaSpec.Reg16(0, 0, false)), 0, 0))
  {
    ControlRoute(m, 0x0A, v);
    ControlRoute(m, 0x0B, v);
    ControlRoute(m, 0x0C, v);
    ControlRoute(m, 0x0D, v);
    ControlEffects(m.floppy.ctl, v);
    hide MachineSpec.Route, DmaSpec.Step, LowBytesNext;
  }

  /** What the port does to the first controller, and that it does nothing else. */
  predicate ControlStep(m: MachineSpec.Machine, port: bv16, v: byte, c: DmaSpec.Ctl)
    requires MachineSpec.Inv(m)
  {
    var e := MachineSpec.Out(port, 1, v);
    MachineSpec.Legal(m, e) && MachineSpec.Step(m, e) == m.(floppy := m.floppy.(ctl := c))
  }

  function LowBytesNext(c: DmaSpec.Ctl): DmaSpec.Ctl {
    c.(reg := c.reg[0 := c.reg[0].(odd := false)][1 := c.reg[1].(odd := false)])
  }

  lemma ControlEffects(c: DmaSpec.Ctl, v: byte)
    ensures DmaSpec.Step(c, DmaSpec.OutB(0xA, v)) == c.(mask := 0xF0 + v % 0x10)
    ensures DmaSpec.Step(c, DmaSpec.OutB(0xB, v)) == c.(mode := v)
    ensures DmaSpec.Step(c, DmaSpec.OutB(0xC, v)) == if v > 0 then LowBytesNext(c) else c
    ensures DmaSpec.Step(c, DmaSpec.OutB(0xD, v)) ==
            DmaSpec.Ctl(seq(7, i => DmaSpec.Reg16(0, 0, false)), 0, 0)
  {}

  lemma ControlRoute(m: MachineSpec.Machine, port: bv16, v: byte)
    requires MachineSpec.Inv(m) && 0x0A <= port <= 0x0D
    ensures var e, d := MachineSpec.Out(port, 1, v), DmaSpec.OutB(port as int, v);
            && (MachineSpec.Legal(m, e) <==> DmaSpec.Legal(d))
            && (DmaSpec.Legal(d) ==>
                  MachineSpec.Step(m, e) == m.(floppy := m.floppy.(ctl := DmaSpec.Step(m.floppy.ctl, d))))
  {
    Dma0Lookup(port);
    hide Lookup, DeviceTable, DmaSpec.Step, DmaSpec.Legal;
  }

  lemma TwoReads(m: MachineSpec.Machine, port: bv16)
    requires MachineSpec.Inv(m) && MachineSpec.LegalRun(m, MachineSpec.RepIn(port, 1, 2))
    ensures var e := MachineSpec.In(port, 1);
            && MachineSpec.Legal(m, e) && MachineSpec.Legal(MachineSpec.Step(m, e), e)
            && MachineSpec.Received(m, MachineSpec.RepIn(port, 1, 2)) ==
               MachineSpec.Delivered(m, port, 1) + MachineSpec.Delivered(MachineSpec.Step(m, e), port, 1)
  {
    hide MachineSpec.Inv, MachineSpec.Legal, MachineSpec.Step, MachineSpec.Delivered, MachineSpec.RepIn;
    hide MachineSpec.LegalRun, MachineSpec.Run, MachineSpec.Received;
    MachineSpec.RepInUnfolds(m, port, 1, 2);
    var m1 := MachineSpec.Step(m, MachineSpec.In(port, 1));
    MachineSpec.RepInUnfolds(m1, port, 1, 1);
    var m2 := MachineSpec.Step(m1, MachineSpec.In(port, 1));
    MachineSpec.RepInNone(m2, port, 1);
    var d := MachineSpec.Delivered(m1, port, 1);
    assert d + [] == d;
  }

  lemma DmaStep(m: MachineSpec.Machine, e: MachineSpec.Event, d: DmaSpec.Access)
    requires MachineSpec.Inv(m) && MachineSpec.Route(e) == MachineSpec.ToFloppy(Dma(d)) && d.port <= 6
    requires if d.InB? then e.In? && e.size == 1 else e.Out?
    ensures MachineSpec.Legal(m, e)
    ensures MachineSpec.Step(m, e) == m.(floppy := m.floppy.(ctl := DmaSpec.Step(m.floppy.ctl, d)))
    ensures d.InB? ==> MachineSpec.Delivered(m, e.port, 1) == [m.floppy.ctl.reg[d.port].Next()]
  {
    hide MachineSpec.Route, DmaSpec.Step;
  }

  lemma TwoEvents(m: MachineSpec.Machine, a: MachineSpec.Event, b: MachineSpec.Event)
    requires MachineSpec.Inv(m) && MachineSpec.Legal(m, a) && MachineSpec.Legal(MachineSpec.Step(m, a), b)
    ensures MachineSpec.LegalRun(m, [a, b])
    ensures MachineSpec.Run(m, [a, b]) == MachineSpec.Step(MachineSpec.Step(m, a), b)
  {
    hide MachineSpec.Step, MachineSpec.Legal, MachineSpec.Inv;
    var m1 := MachineSpec.Step(m, a);
    assert [a, b][1..] == [b] && [b][1..] == [];
    assert MachineSpec.LegalRun(MachineSpec.Step(m1, b), []) && MachineSpec.LegalRun(m1, [b]);
    assert MachineSpec.Run(m1, [b]) == MachineSpec.Run(MachineSpec.Step(m1, b), []) == MachineSpec.Step(m1, b);
  }
}
