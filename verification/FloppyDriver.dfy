/**
 A driver's floppy read through the machine's ports: DMA programming, the command bytes, the result
 bytes.  Together with any accesses to the other devices in between it moves the right sectors.
 */
module FloppyDriver {
  import opened Bytes
  import opened Image
  import opened Io
  import opened FdcSpec
  import opened FdcRuns
  import DmaSpec
  import MachineSpec
  import MachineRuns

  // ----- the accesses of the driver, as the controller sees them -----

  /** A 16-bit register of the channel, low byte first. */
  function Pair(r: nat, v: word): seq<Access> {
    [Dma(DmaSpec.OutB(r, v % 0x100)), Dma(DmaSpec.OutB(r, v / 0x100))]
  }

  /** Channel 2 set to `n` sectors at guest address `d`. */
  function Setup(d: nat, n: nat): seq<Access>
    requires d < 0x100_0000 && 1 <= n <= 128
  {
    Pair(DmaSpec.START_ADDR_2, d % 0x1_0000) + ([Page(1, d / 0x1_0000)] + Pair(DmaSpec.COUNT_2, 512 * n - 1))
  }

  function Feed(cmd: seq<byte>): seq<Access> {
    seq(|cmd|, i requires 0 <= i < |cmd| => OutB(DATA_FIFO, cmd[i]))
  }

  function Take(k: nat): seq<Access> { seq(k, i => InB(DATA_FIFO)) }

  function WithReg(s: FloppySystem, r: nat, v: word): FloppySystem
    requires r <= 6
  {
    s.(ctl := s.ctl.(reg := s.ctl.reg[r := DmaSpec.Reg16(v % 0x100, v / 0x100, false)]))
  }

  function WithPage(s: FloppySystem, v: byte): FloppySystem { s.(page := s.page[1 := v]) }

  /** The state with the channel programmed. */
  function Prepared(s: FloppySystem, d: nat, n: nat): FloppySystem
    requires d < 0x100_0000 && 1 <= n <= 128
  {
    var addressed := WithReg(s, DmaSpec.START_ADDR_2, d % 0x1_0000);
    WithReg(WithPage(addressed, d / 0x1_0000), DmaSpec.COUNT_2, 512 * n - 1)
  }

  predicate Even(s: FloppySystem) {
    !s.ctl.reg[DmaSpec.START_ADDR_2].odd && !s.ctl.reg[DmaSpec.COUNT_2].odd
  }

  lemma PreparedIsProgrammed(s: FloppySystem, d: nat, n: nat)
    requires d < 0x100_0000 && 1 <= n <= 128
    ensures Programmed(Prepared(s, d, n), d, n) && Even(Prepared(s, d, n))
  {
    WordValue(d % 0x1_0000);
    WordValue(512 * n - 1);
  }

  lemma WordValue(v: word)
    ensures DmaSpec.Reg16(v % 0x100, v / 0x100, false).Value() == v
  {}

  /** A pair of writes to one register of the channel. */
  lemma PairRun(s: FloppySystem, r: nat, v: word)
    requires Inv(s.fdc) && r <= 6 && !s.ctl.reg[r].odd
    ensures LegalRun(s, Pair(r, v)) && Run(s, Pair(r, v)) == WithReg(s, r, v)
  {
    var lo, hi := v % 0x100, v / 0x100;
    var a, b := Dma(DmaSpec.OutB(r, lo)), Dma(DmaSpec.OutB(r, hi));
    var s1 := Step(s, a);
    assert s1 == s.(ctl := s.ctl.(reg := s.ctl.reg[r := DmaSpec.Reg16(lo, s.ctl.reg[r].hi, true)]));
    assert Step(s1, b) == WithReg(s, r, v);
    hide Step;
    RunCons(s1, b, []);
    RunCons(s, a, [b]);
    assert [b] + [] == [b] && [a] + [b] == Pair(r, v);
  }

  lemma PageStep(s: FloppySystem, v: byte)
    requires Inv(s.fdc)
    ensures Legal(s, Page(1, v)) && Step(s, Page(1, v)) == WithPage(s, v)
  {}

  lemma SetupSteps(s: FloppySystem, v: word, pg: byte, w: word)
    requires Inv(s.fdc) && Even(s)
    ensures var run := Pair(DmaSpec.START_ADDR_2, v) + ([Page(1, pg)] + Pair(DmaSpec.COUNT_2, w));
            && LegalRun(s, run)
            && Run(s, run) == WithReg(WithPage(WithReg(s, DmaSpec.START_ADDR_2, v), pg), DmaSpec.COUNT_2, w)
  {
    var s1 := WithReg(s, DmaSpec.START_ADDR_2, v);
    var s2 := WithPage(s1, pg);
    assert s1.fdc == s2.fdc == s.fdc && s2.ctl.reg[DmaSpec.COUNT_2] == s.ctl.reg[DmaSpec.COUNT_2];
    hide WithReg, WithPage, Pair, Step, Run, LegalRun, Executed, Inv, Legal;
    PairRun(s, DmaSpec.START_ADDR_2, v);
    PageStep(s1, pg);
    PairRun(s2, DmaSpec.COUNT_2, w);
    RunCons(s1, Page(1, pg), Pair(DmaSpec.COUNT_2, w));
    RunAppend(s, Pair(DmaSpec.START_ADDR_2, v), [Page(1, pg)] + Pair(DmaSpec.COUNT_2, w));
  }

  lemma SetupRun(s: FloppySystem, d: nat, n: nat)
    requires Inv(s.fdc) && Even(s) && d < 0x100_0000 && 1 <= n <= 128
    ensures LegalRun(s, Setup(d, n)) && Run(s, Setup(d, n)) == Prepared(s, d, n)
  {
    hide LegalRun, Run, Inv, WithReg, WithPage, Pair;
    SetupSteps(s, d % 0x1_0000, d / 0x1_0000, 512 * n - 1);
  }

  /** The bytes of a command, one after the other, execute it. */
  lemma {:induction false} FeedRun(s: FloppySystem, cmd: seq<byte>, k: nat)
    requires Inv(s.fdc) && !s.fdc.phase.Result? && k < |cmd| && Pending(s.fdc) == cmd[..k]
    requires Executable(cmd, s.ctl, s.page)
    ensures LegalRun(s, Feed(cmd[k..])) && Run(s, Feed(cmd[k..])) == Execute(s, cmd)
    decreases |cmd| - k
  {
    var a, rest := OutB(DATA_FIFO, cmd[k]), cmd[k + 1..];
    assert Feed(cmd[k..]) == [a] + Feed(rest);
    FeedStep(s, cmd, k);
    var s1 := Step(s, a);
    hide Step, Legal, Execute, Executable, Pending;
    if k + 1 < |cmd| {
      PhaseIsOverwritten(s1, s, cmd);
      FeedRun(s1, cmd, k + 1);
    } else {
      assert Feed(rest) == [];
    }
    RunCons(s, a, Feed(rest));
  }

  lemma FeedStep(s: FloppySystem, cmd: seq<byte>, k: nat)
    requires Inv(s.fdc) && !s.fdc.phase.Result? && k < |cmd| && Pending(s.fdc) == cmd[..k]
    requires Executable(cmd, s.ctl, s.page)
    ensures var a := OutB(DATA_FIFO, cmd[k]);
            && Legal(s, a)
            && (k + 1 < |cmd| ==> Step(s, a) == s.(fdc := s.fdc.(phase := Command(cmd[..k + 1]))))
            && (k + 1 == |cmd| ==> Step(s, a) == Execute(s, cmd))
            && (k + 1 < |cmd| ==> Pending(Step(s, a).fdc) == cmd[..k + 1])
  {
    assert cmd[..k] + [cmd[k]] == cmd[..k + 1] && cmd[..k + 1][0] == cmd[0];
    if k + 1 == |cmd| { assert cmd[..k + 1] == cmd; }
    hide Execute, ReadOffset;
  }

  /** All result bytes, read in order. */
  lemma {:induction false} TakeRun(s: FloppySystem, bytes: seq<byte>)
    requires Inv(s.fdc) && s.fdc.phase == Result(bytes)
    ensures LegalRun(s, Take(|bytes|)) && FifoReads(s, Take(|bytes|)) == bytes
    ensures Run(s, Take(|bytes|)) == s.(fdc := s.fdc.(phase := Ready, ndma := true, irq6 := false))
    decreases |bytes|
  {
    var a := InB(DATA_FIFO);
    var s1 := Step(s, a);
    assert Take(|bytes|) == [a] + Take(|bytes| - 1) && Take(|bytes|)[1..] == Take(|bytes| - 1);
    if |bytes| > 1 {
      TakeRun(s1, bytes[1..]);
    } else {
      assert Take(0) == [] && FifoReads(s1, []) == [];
    }
    hide Step;
    assert bytes == [bytes[0]] + bytes[1..];
  }

  // ----- through the ports -----

  /** The accesses of this model that a driver makes: channel 2, its page, and the controller's four ports. */
  predicate OnPorts(a: Access) {
    || (a.Dma? && a.a.OutB? && a.a.port in {4, 5})
    || (a.Page? && a.off == 1)
    || (a.InB? && a.off in {2, 4, 5})
    || (a.OutB? && a.off in {2, 5, 7})
  }

  function ControllerPort(off: int): bv16 {
    if off == 2 then 0x3F2 else if off == 4 then 0x3F4 else if off == 5 then 0x3F5 else 0x3F7
  }

  /** The port access that causes it. */
  function Lift(a: Access): MachineSpec.Event
    requires OnPorts(a)
  {
    match a
    case Dma(d) => MachineSpec.Out(if d.port == 4 then 0x04 else 0x05, 1, d.val)
    case Page(_, v) => MachineSpec.Out(0x81, 1, v)
    case OutB(off, v) => MachineSpec.Out(ControllerPort(off), 1, v)
    case InB(off) => MachineSpec.In(ControllerPort(off), 1)
  }

  function LiftAll(run: seq<Access>): (r: seq<MachineSpec.Event>)
    requires forall a :: a in run ==> OnPorts(a)
    ensures |r| == |run| && forall i :: 0 <= i < |run| ==> r[i] == Lift(run[i])
  {
    seq(|run|, i requires 0 <= i < |run| => Lift(run[i]))
  }

  lemma ChannelLookups()
    ensures Lookup(DeviceTable(), 0x04) == Some(IoHandler(0x0000, 0xFFF0, Dma0))
    ensures Lookup(DeviceTable(), 0x05) == Some(IoHandler(0x0000, 0xFFF0, Dma0))
    ensures Lookup(DeviceTable(), 0x81) == Some(IoHandler(0x0080, 0xFFF0, DmaPage))
  {
    assert DeviceTable()[3] == IoHandler(0x0000, 0xFFF0, Dma0);
    assert DeviceTable()[5] == IoHandler(0x0080, 0xFFF0, DmaPage);
    hide Lookup;
    AnswersIff(DeviceTable()[3], 0x04);
    AnswersIff(DeviceTable()[3], 0x05);
    AnswersIff(DeviceTable()[5], 0x81);
  }

  lemma ControllerLookup(off: int)
    requires off in {2, 4, 5, 7}
    ensures Lookup(DeviceTable(), ControllerPort(off)) == Some(IoHandler(0x03F0, 0xFFF8, DeviceId.Floppy))
    ensures MachineSpec.Offset(ControllerPort(off), 0x03F0) == off
  {
    assert DeviceTable()[19] == IoHandler(0x03F0, 0xFFF8, DeviceId.Floppy);
    hide Lookup;
    AnswersIff(DeviceTable()[19], ControllerPort(off));
  }

  lemma ChannelOffsets()
    ensures MachineSpec.Offset(0x04, 0x0000) == 4 && MachineSpec.Offset(0x05, 0x0000) == 5
    ensures MachineSpec.Offset(0x81, 0x0080) == 1
  {}

  lemma ChannelRoute(v: byte)
    ensures MachineSpec.Route(MachineSpec.Out(0x04, 1, v)) == MachineSpec.ToFloppy(Dma(DmaSpec.OutB(4, v)))
    ensures MachineSpec.Route(MachineSpec.Out(0x05, 1, v)) == MachineSpec.ToFloppy(Dma(DmaSpec.OutB(5, v)))
    ensures MachineSpec.Route(MachineSpec.Out(0x81, 1, v)) == MachineSpec.ToFloppy(Page(1, v))
  {
    ChannelLookups();
    ChannelOffsets();
    hide Lookup, DeviceTable, MachineSpec.Offset;
  }

  lemma ControllerRoute(off: int, v: byte)
    requires off in {2, 4, 5, 7}
    ensures MachineSpec.Route(MachineSpec.In(ControllerPort(off), 1)) == MachineSpec.ToFloppy(InB(off))
    ensures MachineSpec.Route(MachineSpec.Out(ControllerPort(off), 1, v)) == MachineSpec.ToFloppy(OutB(off, v))
  {
    ControllerLookup(off);
    hide Lookup, DeviceTable, MachineSpec.Offset, ControllerPort;
  }

  lemma FloppyRoute(a: Access)
    requires OnPorts(a)
    ensures MachineSpec.Route(Lift(a)) == MachineSpec.ToFloppy(a)
  {
    hide MachineSpec.Route, ControllerPort;
    match a
    case Dma(d) => ChannelRoute(d.val);
    case Page(off, v) => ChannelRoute(v);
    case InB(off) => ControllerRoute(off, 0);
    case OutB(off, v) => ControllerRoute(off, v);
  }

  lemma LiftStep(m: MachineSpec.Machine, a: Access)
    requires MachineSpec.Inv(m) && Legal(m.floppy, a) && OnPorts(a)
    ensures MachineSpec.Legal(m, Lift(a)) && MachineSpec.Step(m, Lift(a)) == m.(floppy := Step(m.floppy, a))
    ensures a.InB? ==> MachineSpec.Delivered(m, Lift(a).port, 1) == [ReadPort(m.floppy.fdc, a.off)]
  {
    FloppyRoute(a);
    hide MachineSpec.Route, Legal, Step, Inv, ReadPort, ControllerPort;
  }

  /** A FIFO byte or a DMA programming access. */
  predicate Drives(a: Access) { OnPorts(a) && (a.InB? ==> a.off == DATA_FIFO) }

  /** A run of the driver's accesses, through the ports. */
  lemma {:induction false} LiftRun(m: MachineSpec.Machine, run: seq<Access>)
    requires MachineSpec.Inv(m) && LegalRun(m.floppy, run)
    requires forall a :: a in run ==> OnPorts(a) && Drives(a)
    ensures MachineSpec.LegalRun(m, LiftAll(run))
    ensures MachineSpec.Run(m, LiftAll(run)) == m.(floppy := Run(m.floppy, run))
    ensures MachineSpec.Received(m, LiftAll(run)) == FifoReads(m.floppy, run)
    decreases |run|
  {
    if |run| != 0 {
      var a := run[0];
      assert a in run;
      LiftStep(m, a);
      hide MachineSpec.Step, MachineSpec.Legal, MachineSpec.Delivered, Step, Legal, Inv, ReadPort;
      assert LiftAll(run)[1..] == LiftAll(run[1..]);
      LiftRun(m.(floppy := Step(m.floppy, a)), run[1..]);
    }
  }

  // ----- the driver -----

  /** Bytes written to the FIFO. */
  function FifoOut(bytes: seq<byte>): (run: seq<MachineSpec.Event>)
    ensures |run| == |bytes| && forall i :: 0 <= i < |bytes| ==> run[i] == MachineSpec.Out(0x3F5, 1, bytes[i])
  {
    seq(|bytes|, i requires 0 <= i < |bytes| => MachineSpec.Out(0x3F5, 1, bytes[i]))
  }

  /** Channel setup on ports 0x04, 0x81 and 0x05, nine bytes to port 0x3F5, seven bytes back from it. */
  function DriverRead(d: nat, n: nat, cmd: seq<byte>): seq<MachineSpec.Event>
    requires d < 0x100_0000 && 1 <= n <= 128
  {
    [ MachineSpec.Out(0x04, 1, d % 0x100), MachineSpec.Out(0x04, 1, d / 0x100 % 0x100),
      MachineSpec.Out(0x81, 1, d / 0x1_0000),
      MachineSpec.Out(0x05, 1, (512 * n - 1) % 0x100), MachineSpec.Out(0x05, 1, (512 * n - 1) / 0x100) ]
    + FifoOut(cmd) + MachineSpec.RepIn(0x3F5, 1, 7)
  }

  lemma DriverIsLifted(d: nat, n: nat, cmd: seq<byte>)
    requires d < 0x100_0000 && 1 <= n <= 128
    ensures forall a :: a in Setup(d, n) + Feed(cmd) + Take(7) ==> OnPorts(a) && Drives(a)
    ensures DriverRead(d, n, cmd) == LiftAll(Setup(d, n)) + LiftAll(Feed(cmd)) + LiftAll(Take(7))
  {
    SetupIsListed(d, n);
    assert LiftAll(Feed(cmd)) == FifoOut(cmd);
    assert LiftAll(Take(7)) == MachineSpec.RepIn(0x3F5, 1, 7);
  }

  lemma SetupIsListed(d: nat, n: nat)
    requires d < 0x100_0000 && 1 <= n <= 128
    ensures forall a :: a in Setup(d, n) ==> OnPorts(a)
    ensures LiftAll(Setup(d, n)) ==
            [ MachineSpec.Out(0x04, 1, d % 0x100), MachineSpec.Out(0x04, 1, d / 0x100 % 0x100),
              MachineSpec.Out(0x81, 1, d / 0x1_0000),
              MachineSpec.Out(0x05, 1, (512 * n - 1) % 0x100), MachineSpec.Out(0x05, 1, (512 * n - 1) / 0x100) ]
  {
    HighByte(d);
  }

  lemma HighByte(d: nat)
    ensures d % 0x1_0000 % 0x100 == d % 0x100 && d % 0x1_0000 / 0x100 == d / 0x100 % 0x100
  {
    var a := d / 0x100;
    assert d == d % 0x100 + 0x100 * a && a == a % 0x100 + 0x100 * (a / 0x100);
    Digits(d % 0x100, a % 0x100, a / 0x100);
  }

  lemma Digits(low: nat, digit: nat, rest: nat)
    requires low < 0x100 && digit < 0x100
    ensures (low + 0x100 * digit + 0x1_0000 * rest) % 0x1_0000 == low + 0x100 * digit
    ensures (low + 0x100 * digit) % 0x100 == low && (low + 0x100 * digit) / 0x100 == digit
  {}

  /** READ DATA of `n` sectors. */
  predicate ReadCommand(cmd: seq<byte>, n: nat) { |cmd| == 9 && cmd[0] % 0x10 == 6 && cmd[6] == n && cmd[4] >= 1 }

  function ReadResult(f: Fdc, cmd: seq<byte>): seq<byte>
    requires |cmd| == 9
  {
    [f.st[0], f.st[1], f.st[2], cmd[2], cmd[3], f.sect, 2]
  }

  /** The three phases one after the other, as the controller sees them. */
  lemma Phases(s: FloppySystem, d: nat, n: nat, cmd: seq<byte>)
    requires Inv(s.fdc) && s.fdc.phase.Ready? && Even(s)
    requires 1 <= n <= 128 && InBlock(d, 512 * n) && ReadCommand(cmd, n)
    ensures LegalRun(s, Setup(d, n)) && Run(s, Setup(d, n)) == Prepared(s, d, n)
    ensures var s1 := Prepared(s, d, n);
            && Executable(cmd, s1.ctl, s1.page)
            && LegalRun(s1, Feed(cmd)) && Run(s1, Feed(cmd)) == Execute(s1, cmd)
            && var s2 := Execute(s1, cmd);
               && FdcSpec.Inv(s2.fdc) && LegalRun(s2, Take(7)) && FifoReads(s2, Take(7)) == ReadResult(s.fdc, cmd)
               && Run(s2, Take(7)) == s2.(fdc := s2.fdc.(phase := Ready, ndma := true, irq6 := false))
  {
    hide LegalRun, Run, Prepared, Execute, Executable, Programmed, FifoReads, Setup, Feed, Take, Even;
    var s1 := Prepared(s, d, n);
    PreparedIsProgrammed(s, d, n);
    PreparedKeepsTheRest(s, d, n);
    SetupRun(s, d, n);
    ReadyToExecute(s1, d, n, cmd);
    ExecuteGivesResult(s1, cmd);
    assert Pending(s1.fdc) == cmd[..0] && cmd[0..] == cmd;
    FeedRun(s1, cmd, 0);
    TakeRun(Execute(s1, cmd), ReadResult(s.fdc, cmd));
  }

  lemma ReadyToExecute(s: FloppySystem, d: nat, n: nat, cmd: seq<byte>)
    requires Programmed(s, d, n) && 1 <= n <= 128 && InBlock(d, 512 * n) && ReadCommand(cmd, n)
    ensures Executable(cmd, s.ctl, s.page)
  {}

  lemma ExecuteGivesResult(s: FloppySystem, cmd: seq<byte>)
    requires |cmd| == 9 && cmd[0] % 0x10 == CMD_READ_DATA && Executable(cmd, s.ctl, s.page)
    ensures Execute(s, cmd).fdc.phase == Result(ReadResult(s.fdc, cmd))
  {}

  /** The driver's whole read, as the command it carries out. */
  lemma DriverExecutes(m: MachineSpec.Machine, d: nat, n: nat, cmd: seq<byte>)
    requires MachineSpec.Inv(m) && m.floppy.fdc.phase.Ready? && Even(m.floppy)
    requires 1 <= n <= 128 && InBlock(d, 512 * n) && ReadCommand(cmd, n)
    ensures Executable(cmd, Prepared(m.floppy, d, n).ctl, Prepared(m.floppy, d, n).page)
    ensures MachineSpec.LegalRun(m, DriverRead(d, n, cmd))
    ensures MachineSpec.Received(m, DriverRead(d, n, cmd)) == ReadResult(m.floppy.fdc, cmd)
    ensures var done := Execute(Prepared(m.floppy, d, n), cmd);
            MachineSpec.Run(m, DriverRead(d, n, cmd)) ==
            m.(floppy := done.(fdc := done.fdc.(phase := Ready, ndma := true, irq6 := false)))
  {
    DriverIsLifted(d, n, cmd);
    hide LegalRun, Run, Execute, Feed, Setup, Even, DriverRead;
    Phases(m.floppy, d, n, cmd);
    PortsOfDriver(d, n, cmd);
    hide FdcSpec.Inv, LegalRun, Run, FifoReads, Execute, Executable, Prepared, OnPorts, Setup, Feed, Take;
    hide MachineSpec.LegalRun, MachineSpec.Run, MachineSpec.Received;
    var s1 := Prepared(m.floppy, d, n);
    LiftThree(m, Setup(d, n), s1, Feed(cmd), Execute(s1, cmd), Take(7));
    NothingRead(m.floppy, Setup(d, n));
    NothingRead(s1, Feed(cmd));
    assert [] + [] + ReadResult(m.floppy.fdc, cmd) == ReadResult(m.floppy.fdc, cmd);
  }

  lemma PortsOfDriver(d: nat, n: nat, cmd: seq<byte>)
    requires d < 0x100_0000 && 1 <= n <= 128
    ensures forall a :: a in Setup(d, n) ==> !IsFifoRead(a)
    ensures forall a :: a in Feed(cmd) ==> !IsFifoRead(a)
  {}

  lemma {:induction false} NothingRead(s: FloppySystem, run: seq<Access>)
    requires FdcSpec.Inv(s.fdc) && LegalRun(s, run)
    requires forall a :: a in run ==> !IsFifoRead(a)
    ensures FifoReads(s, run) == []
    decreases |run|
  {
    hide Step, Legal, FdcSpec.Inv;
    if |run| != 0 { NothingRead(Step(s, run[0]), run[1..]); }
  }

  /** Three runs one after the other, through the ports. */
  lemma LiftThree(m: MachineSpec.Machine, r1: seq<Access>, s1: FloppySystem, r2: seq<Access>,
                  s2: FloppySystem, r3: seq<Access>)
    requires MachineSpec.Inv(m) && LegalRun(m.floppy, r1) && s1 == Run(m.floppy, r1)
    requires LegalRun(s1, r2) && s2 == Run(s1, r2) && LegalRun(s2, r3)
    requires forall a :: a in r1 + r2 + r3 ==> OnPorts(a) && Drives(a)
    ensures var run := LiftAll(r1) + LiftAll(r2) + LiftAll(r3);
            && MachineSpec.LegalRun(m, run)
            && MachineSpec.Run(m, run) == m.(floppy := Run(s2, r3))
            && MachineSpec.Received(m, run) == FifoReads(m.floppy, r1) + FifoReads(s1, r2) + FifoReads(s2, r3)
  {
    assert forall a :: a in r1 + r2 ==> a in r1 + r2 + r3;
    assert forall a :: a in r1 ==> a in r1 + r2 + r3;
    assert forall a :: a in r2 ==> a in r1 + r2 + r3;
    assert forall a :: a in r3 ==> a in r1 + r2 + r3;
    hide FdcSpec.Inv, LegalRun, Run, FifoReads, OnPorts, Drives;
    hide MachineSpec.LegalRun, MachineSpec.Run, MachineSpec.Received;
    LiftRun(m, r1);
    LiftRun(m.(floppy := s1), r2);
    LiftRun(m.(floppy := s2), r3);
    MachineSpec.RunAppend(m, LiftAll(r1), LiftAll(r2));
    MachineSpec.RunAppend(m, LiftAll(r1) + LiftAll(r2), LiftAll(r3));
  }

  /**
   The floppy read on ports 0x04, 0x81, 0x05 and 0x3F5: from any machine state with the controller
   ready and the flip-flops even, the addressed sectors reach guest address `d`, no other byte of
   memory and no other device changes, the seven result bytes come back, and the driver can go again.
   */
  lemma DriverReadsSectors(m: MachineSpec.Machine, d: nat, n: nat, cmd: seq<byte>, lba: nat)
    requires MachineSpec.Inv(m) && m.floppy.fdc.phase.Ready? && Even(m.floppy)
    requires 1 <= n <= 128 && (d + 512 * n <= 0xA_0000 || (0xC_0000 <= d && d + 512 * n <= 0xE_0000))
    requires |cmd| == 9 && cmd[0] % 0x10 == 6 && cmd[6] == n && cmd[4] >= 1
    requires lba == 36 * cmd[2] as int + 18 * cmd[3] as int + cmd[4] as int - 1
    requires 512 * (lba + n) <= |m.floppy.fdc.image|
    ensures MachineSpec.LegalRun(m, DriverRead(d, n, cmd))
    ensures var f := m.floppy.fdc;
            MachineSpec.Received(m, DriverRead(d, n, cmd)) == [f.st[0], f.st[1], f.st[2], cmd[2], cmd[3], f.sect, 2]
    ensures var m' := MachineSpec.Run(m, DriverRead(d, n, cmd));
            && m' == m.(floppy := m'.floppy)
            && m'.floppy.mem == Splice(m.floppy.mem, d, m.floppy.fdc.image[512 * lba..512 * (lba + n)])
            && m'.floppy.fdc.image == m.floppy.fdc.image
            && m'.floppy.fdc.phase.Ready? && !m'.floppy.fdc.irq6 && Even(m'.floppy)
  {
    BlockWritten(cmd);
    hide DriverRead, Block, MachineSpec.Inv, MachineSpec.LegalRun, MachineSpec.Run, MachineSpec.Received, Splice, Even;
    DriverMovesSectors(m, d, n, cmd, lba);
  }

  lemma DriverMovesSectors(m: MachineSpec.Machine, d: nat, n: nat, cmd: seq<byte>, lba: nat)
    requires MachineSpec.Inv(m) && m.floppy.fdc.phase.Ready? && Even(m.floppy)
    requires 1 <= n <= 128 && InBlock(d, 512 * n) && ReadCommand(cmd, n)
    requires lba == Block(cmd[2], cmd[3], cmd[4]) && 512 * (lba + n) <= |m.floppy.fdc.image|
    ensures MachineSpec.LegalRun(m, DriverRead(d, n, cmd))
    ensures MachineSpec.Received(m, DriverRead(d, n, cmd)) == ReadResult(m.floppy.fdc, cmd)
    ensures var m' := MachineSpec.Run(m, DriverRead(d, n, cmd));
            && m' == m.(floppy := m'.floppy)
            && m'.floppy.mem == Splice(m.floppy.mem, d, m.floppy.fdc.image[512 * lba..512 * (lba + n)])
            && m'.floppy.fdc.image == m.floppy.fdc.image
            && m'.floppy.fdc.phase.Ready? && !m'.floppy.fdc.irq6 && Even(m'.floppy)
  {
    hide Prepared, Execute, Executable, DriverRead, Programmed, Block, Even, Splice;
    hide MachineSpec.Inv, MachineSpec.LegalRun, MachineSpec.Run, MachineSpec.Received;
    var s1 := Prepared(m.floppy, d, n);
    DriverExecutes(m, d, n, cmd);
    PreparedIsProgrammed(m.floppy, d, n);
    PreparedKeepsTheRest(m.floppy, d, n);
    ExecuteKeeps(s1, cmd);
    SectorsMoved(s1, cmd, d, n, lba);
    EvenAfter(s1, Execute(s1, cmd));
  }

  lemma SectorsMoved(s: FloppySystem, cmd: seq<byte>, d: nat, n: nat, lba: nat)
    requires ReadCommand(cmd, n) && n >= 1 && Executable(cmd, s.ctl, s.page) && Programmed(s, d, n)
    requires InBlock(d, 512 * n) && lba == Block(cmd[2], cmd[3], cmd[4]) && 512 * (lba + n) <= |s.fdc.image|
    ensures Execute(s, cmd).mem == Splice(s.mem, d, s.fdc.image[512 * lba..512 * (lba + n)])
  {
    hide Execute, Executable, Programmed, Block;
    ReadDataTransfers(s, cmd, d, n, lba);
    assert |s.fdc.image[512 * lba..512 * (lba + n)]| == 512 * n;
  }

  lemma EvenAfter(s: FloppySystem, t: FloppySystem)
    requires Even(s) && t.ctl == s.ctl
    ensures Even(t) && Even(t.(fdc := t.fdc.(phase := Ready, ndma := true, irq6 := false)))
  {}

  lemma ExecuteKeeps(s: FloppySystem, cmd: seq<byte>)
    requires Executable(cmd, s.ctl, s.page)
    ensures Execute(s, cmd).ctl == s.ctl && Execute(s, cmd).page == s.page
    ensures Execute(s, cmd).fdc.image == s.fdc.image
  {}

  /**
   The same under any interleaving: the machine runs between the phases may hold accesses to every other
   device, as long as those that reach the floppy controller and its channel are the right ones.
   */
  lemma InterleavedRead(m: MachineSpec.Machine, prog: seq<MachineSpec.Event>, m1: MachineSpec.Machine,
                        cmdRun: seq<MachineSpec.Event>, m2: MachineSpec.Machine, resRun: seq<MachineSpec.Event>,
                        d: nat, n: nat, cmd: seq<byte>, lba: nat)
    requires MachineSpec.Inv(m) && m.floppy.fdc.phase.Ready? && Even(m.floppy)
    requires MachineSpec.LegalRun(m, prog) && m1 == MachineSpec.Run(m, prog)
    requires MachineSpec.LegalRun(m1, cmdRun) && m2 == MachineSpec.Run(m1, cmdRun)
    requires MachineSpec.LegalRun(m2, resRun)
    requires 1 <= n <= 128 && d < 0x100_0000 && ReadCommand(cmd, n)
    requires lba == 36 * cmd[2] as int + 18 * cmd[3] as int + cmd[4] as int - 1
    requires 512 * (lba + n) <= |m.floppy.fdc.image|
    requires MachineRuns.FloppyPart(prog) == Setup(d, n)
    requires MachineRuns.FloppyPart(cmdRun) == Feed(cmd) && MachineRuns.FloppyPart(resRun) == Take(7)
    ensures var t := MachineSpec.Run(m2, resRun).floppy;
            && InBlock(d, 512 * n)
            && t.mem == Splice(m.floppy.mem, d, m.floppy.fdc.image[512 * lba..512 * (lba + n)])
            && t.fdc.phase.Ready? && !t.fdc.irq6
  {
    MachineRuns.FloppyIsIndependent(m, prog);
    MachineRuns.FloppyIsIndependent(m1, cmdRun);
    MachineRuns.FloppyIsIndependent(m2, resRun);
    hide MachineSpec.LegalRun, MachineSpec.Run, MachineRuns.FloppyPart, LegalRun, Run, Setup, Feed, Take, Block, Splice;
    hide Even;
    BlockWritten(cmd);
    ReadAsSeen(m.floppy, m1.floppy, m2.floppy, d, n, cmd, lba);
  }

  lemma BlockWritten(cmd: seq<byte>)
    requires |cmd| == 9
    ensures Block(cmd[2], cmd[3], cmd[4]) == 36 * cmd[2] as int + 18 * cmd[3] as int + cmd[4] as int - 1
  {}

  /** The three phases, legal one after the other, read the sectors. */
  lemma ReadAsSeen(s: FloppySystem, s1: FloppySystem, s2: FloppySystem, d: nat, n: nat, cmd: seq<byte>, lba: nat)
    requires Inv(s.fdc) && s.fdc.phase.Ready? && Even(s)
    requires 1 <= n <= 128 && d < 0x100_0000 && ReadCommand(cmd, n)
    requires lba == Block(cmd[2], cmd[3], cmd[4]) && 512 * (lba + n) <= |s.fdc.image|
    requires LegalRun(s, Setup(d, n)) && s1 == Run(s, Setup(d, n))
    requires LegalRun(s1, Feed(cmd)) && s2 == Run(s1, Feed(cmd)) && LegalRun(s2, Take(7))
    ensures var t := Run(s2, Take(7));
            && InBlock(d, 512 * n)
            && t.mem == Splice(s.mem, d, s.fdc.image[512 * lba..512 * (lba + n)])
            && t.fdc.phase.Ready? && !t.fdc.irq6
  {
    hide LegalRun, Run, Execute, Executable, Prepared, FifoReads, Programmed, Setup, Feed, Take, Block;
    SetupRun(s, d, n);
    PreparedIsProgrammed(s, d, n);
    PreparedKeepsTheRest(s, d, n);
    LegalFeedFits(s1, d, n, cmd);
    Phases(s, d, n, cmd);
    ReadDataTransfers(s1, cmd, d, n, lba);
  }

  lemma PreparedKeepsTheRest(s: FloppySystem, d: nat, n: nat)
    requires d < 0x100_0000 && 1 <= n <= 128
    ensures Prepared(s, d, n).fdc == s.fdc && Prepared(s, d, n).mem == s.mem
  {}

  /** A legal READ DATA stays inside a block of memory. */
  lemma LegalFeedFits(s: FloppySystem, d: nat, n: nat, cmd: seq<byte>)
    requires Inv(s.fdc) && s.fdc.phase.Ready? && Programmed(s, d, n) && 1 <= n <= 128
    requires ReadCommand(cmd, n) && LegalRun(s, Feed(cmd))
    ensures InBlock(d, 512 * n)
  {
    FeedIsComplete(cmd);
    assert [] + cmd == cmd;
    hide LegalRun, Run, Feed, Execute;
    CommandBytes(s, Feed(cmd), cmd);
  }

  lemma FeedIsComplete(cmd: seq<byte>)
    requires |cmd| == 9 && cmd[0] % 0x10 == CMD_READ_DATA
    ensures FifoWrites(Feed(cmd)) == cmd
    ensures forall a :: a in Feed(cmd) ==> IsFifoWrite(a)
    ensures |Feed(cmd)| == 9 && IsFifoWrite(Feed(cmd)[8])
  {
    FeedWrites(cmd);
  }

  lemma {:induction false} FeedWrites(cmd: seq<byte>)
    ensures FifoWrites(Feed(cmd)) == cmd
    decreases |cmd|
  {
    if |cmd| != 0 {
      FeedWrites(cmd[1..]);
      assert Feed(cmd)[1..] == Feed(cmd[1..]);
    }
  }

  /** READ DATA of one sector of the first track. */
  function OneSector(sector: byte): (cmd: seq<byte>)
    requires sector >= 1
    ensures ReadCommand(cmd, 1) && Block(cmd[2], cmd[3], cmd[4]) == sector as int - 1
  {
    [CMD_READ_DATA, 0, 0, 0, sector, 2, 1, 0, 0]
  }

  lemma AfterFirstSector(m: MachineSpec.Machine, d: nat)
    requires MachineSpec.Inv(m) && m.floppy.fdc.phase.Ready? && Even(m.floppy) && InBlock(d, 512)
    requires |m.floppy.fdc.image| == 512
    ensures MachineSpec.LegalRun(m, DriverRead(d, 1, OneSector(1)))
    ensures var s := MachineSpec.Run(m, DriverRead(d, 1, OneSector(1))).floppy;
            && s.fdc.phase.Ready? && Even(s)
            && s.fdc.image == m.floppy.fdc.image == s.fdc.buffer[..512]
  {
    var cmd, s1 := OneSector(1), Prepared(m.floppy, d, 1);
    hide OneSector, DriverRead, Prepared, Execute, Executable;
    hide MachineSpec.Run, MachineSpec.LegalRun, MachineSpec.Received, MachineSpec.Inv;
    DriverExecutes(m, d, 1, cmd);
    PreparedKeepsTheRest(m.floppy, d, 1);
    PreparedIsProgrammed(m.floppy, d, 1);
    ExecuteKeeps(s1, cmd);
    BufferAfterRead(s1, cmd, 0);
  }

  /**
   A read past the end does deliver stale bytes: on a one-sector diskette, after the sector has been
   read, reading the next one puts the first sector's bytes in memory again.
   */
  lemma StaleRead(m: MachineSpec.Machine, d: nat)
    requires MachineSpec.Inv(m) && m.floppy.fdc.phase.Ready? && Even(m.floppy) && InBlock(d, 512)
    requires |m.floppy.fdc.image| == 512
    ensures MachineSpec.LegalRun(m, DriverRead(d, 1, OneSector(1)))
    ensures var m1 := MachineSpec.Run(m, DriverRead(d, 1, OneSector(1)));
            && MachineSpec.LegalRun(m1, DriverRead(d, 1, OneSector(2)))
            && MachineSpec.Run(m1, DriverRead(d, 1, OneSector(2))).floppy.mem[d..d + 512] == m.floppy.fdc.image
  {
    hide OneSector, DriverRead, Prepared, Execute, Executable;
    hide MachineSpec.Run, MachineSpec.LegalRun, MachineSpec.Received, MachineSpec.Inv;
    AfterFirstSector(m, d);
    var m1 := MachineSpec.Run(m, DriverRead(d, 1, OneSector(1)));
    DriverExecutes(m1, d, 1, OneSector(2));
    PreparedKeepsTheRest(m1.floppy, d, 1);
    PreparedIsProgrammed(m1.floppy, d, 1);
    StaleBytes(Prepared(m1.floppy, d, 1), OneSector(2), d);
  }

  /** The second sector of a one-sector diskette is whatever the buffer holds. */
  lemma StaleBytes(s: FloppySystem, cmd: seq<byte>, d: nat)
    requires ReadCommand(cmd, 1) && Executable(cmd, s.ctl, s.page) && Programmed(s, d, 1)
    requires Block(cmd[2], cmd[3], cmd[4]) == 1 && |s.fdc.image| == 512
    ensures d + 512 <= MEM_SIZE && Execute(s, cmd).mem[d..d + 512] == s.fdc.buffer[..512]
  {
    hide Execute, Executable, Programmed, Block;
    ReadPastEndIsStale(s, cmd, d, 1, 1);
    assert Overlaid(s.fdc.image, 512, s.fdc.buffer[..512]) == s.fdc.buffer[..512];
  }

  lemma BufferAfterRead(s: FloppySystem, cmd: seq<byte>, lba: nat)
    requires ReadCommand(cmd, 1) && Executable(cmd, s.ctl, s.page)
    requires lba == Block(cmd[2], cmd[3], cmd[4]) && 512 * (lba + 1) <= |s.fdc.image|
    ensures Execute(s, cmd).fdc.buffer[..512] == s.fdc.image[512 * lba..512 * (lba + 1)]
  {
    OffsetOfBlock(cmd, lba);
    hide ReadOffset, Block;
  }
}
