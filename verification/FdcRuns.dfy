/**
 The floppy controller over whole runs: its command port is a parser, every phase ends, and a READ
 DATA command moves exactly the right bytes.
 */
module FdcRuns {
  import opened Bytes
  import opened Image
  import opened FdcSpec
  import DmaSpec

  predicate IsFifoWrite(a: Access) { a.OutB? && a.off == DATA_FIFO }
  predicate IsFifoRead(a: Access) { a.InB? && a.off == DATA_FIFO }
  predicate IsReset(a: Access) { a.OutB? && a.off == DIGITAL_OUT && a.val / 4 % 2 == 0 }

  lemma {:induction false} RunAppend(s: FloppySystem, r: seq<Access>, t: seq<Access>)
    requires Inv(s.fdc) && LegalRun(s, r) && LegalRun(Run(s, r), t)
    ensures LegalRun(s, r + t) && Run(s, r + t) == Run(Run(s, r), t)
    ensures Executed(s, r + t) == Executed(s, r) + Executed(Run(s, r), t)
    decreases |r|
  {
    hide Step, Legal, Completes;
    if |r| == 0 {
      assert r + t == t;
    } else {
      assert (r + t)[1..] == r[1..] + t;
      RunAppend(Step(s, r[0]), r[1..], t);
    }
  }

  lemma RunCons(s: FloppySystem, a: Access, run: seq<Access>)
    requires Inv(s.fdc) && Legal(s, a) && LegalRun(Step(s, a), run)
    ensures LegalRun(s, [a] + run) && Run(s, [a] + run) == Run(Step(s, a), run)
    ensures !Completes(s.fdc, a) ==> Executed(s, [a] + run) == Executed(Step(s, a), run)
  {
    hide Step, Legal, Completes, Inv;
    assert ([a] + run)[1..] == run;
  }

  // ----- the command stream -----

  /** Complete commands at the front of a byte stream, and the incomplete rest. */
  datatype Parsed = Parsed(commands: seq<seq<byte>>, partial: seq<byte>)

  /** The command table: READ DATA 9 bytes, RECALIBRATE 2, SENSE INTERRUPT 1, READ ID 2, SEEK 3. */
  function TableLength(opcode: byte): nat {
    match opcode % 0x10
    case 6 => 9
    case 7 => 2
    case 8 => 1
    case 10 => 2
    case 15 => 3
    case _ => 0
  }

  lemma LengthIsTable(opcode: byte)
    ensures CommandLength(opcode) == TableLength(opcode)
  {}

  function Parse(stream: seq<byte>): Parsed
    decreases |stream|
  {
    if |stream| == 0 || TableLength(stream[0]) == 0 || |stream| < TableLength(stream[0]) then Parsed([], stream)
    else
      var n := TableLength(stream[0]);
      var rest := Parse(stream[n..]);
      Parsed([stream[..n]] + rest.commands, rest.partial)
  }

  /** The bytes written to the FIFO. */
  function FifoWrites(run: seq<Access>): seq<byte> {
    if |run| == 0 then []
    else if IsFifoWrite(run[0]) then [run[0].val] + FifoWrites(run[1..])
    else FifoWrites(run[1..])
  }

  /** The commands executed during a run, with their parameter bytes, in order. */
  function Executed(s: FloppySystem, run: seq<Access>): seq<seq<byte>>
    requires Inv(s.fdc) && LegalRun(s, run)
    decreases |run|
  {
    if |run| == 0 then []
    else if Completes(s.fdc, run[0]) then [Pending(s.fdc) + [run[0].val]] + Executed(Step(s, run[0]), run[1..])
    else Executed(Step(s, run[0]), run[1..])
  }

  lemma StepStream(s: FloppySystem, a: Access)
    requires Inv(s.fdc) && Legal(s, a) && !IsReset(a)
    ensures !IsFifoWrite(a) ==> !Completes(s.fdc, a) && Pending(Step(s, a).fdc) == Pending(s.fdc)
    ensures IsFifoWrite(a) ==>
              var cmd := Pending(s.fdc) + [a.val];
              && Pending(Step(s, a).fdc) == (if Completes(s.fdc, a) then [] else cmd)
              && (if Completes(s.fdc, a) then |cmd| == CommandLength(cmd[0]) else |cmd| < CommandLength(cmd[0]))
  {}

  /** A reset drops exactly the partial command: what follows is parsed from scratch. */
  lemma ResetDropsPartial(s: FloppySystem, before: seq<Access>, s1: FloppySystem, reset: Access, after: seq<Access>)
    requires Inv(s.fdc) && LegalRun(s, before) && s1 == Run(s, before)
    requires IsReset(reset) && Legal(s1, reset) && LegalRun(Step(s1, reset), after)
    requires forall a :: a in before ==> !IsReset(a)
    requires forall a :: a in after ==> !IsReset(a)
    ensures LegalRun(s, before + ([reset] + after))
    ensures Executed(s, before + ([reset] + after)) ==
            Parse(Pending(s.fdc) + FifoWrites(before)).commands + Parse(FifoWrites(after)).commands
  {
    ResetClears(s1, reset);
    RunCons(s1, reset, after);
    RunAppend(s, before, [reset] + after);
    hide Step, Legal, Completes, Parse, Inv, IsReset, Pending, LegalRun, Run, Executed, Streams;
    OneStream(before);
    OneStream(after);
    StreamIsParsed(s, before);
    StreamIsParsed(Step(s1, reset), after);
    assert [] + FifoWrites(after) == FifoWrites(after);
  }

  lemma ParseCut(p: seq<byte>, ss: seq<seq<byte>>)
    requires |ss| > 0
    ensures ParseAll(p, [[]] + ss) ==
            Parsed(Parse(p).commands + ParseAll([], ss).commands, ParseAll([], ss).partial)
  {
    hide Parse;
    assert p + [] == p && ([[]] + ss)[1..] == ss;
  }

  lemma ParseAllFeed(p: seq<byte>, v: byte, ss: seq<seq<byte>>)
    requires |ss| > 0
    ensures var cmd, fed := p + [v], ParseAll(p, [[v] + ss[0]] + ss[1..]);
            if |cmd| == CommandLength(cmd[0])
            then fed == Parsed([cmd] + ParseAll([], ss).commands, ParseAll([], ss).partial)
            else fed == ParseAll(cmd, ss)
  {
    hide Parse, CommandLength, ParseAll;
    var cmd, fed, tail := p + [v], [v] + ss[0], ss[1..];
    ParseFeed(p, v, ss[0]);
    assert ([fed] + tail)[1..] == tail;
    ParseAllSplit(p, [fed] + tail, fed, tail);
    ParseAllSplit(cmd, ss, ss[0], tail);
    ParseAllSplit([], ss, ss[0], tail);
    if |cmd| == CommandLength(cmd[0]) && |tail| > 0 {
      var first, rest := Parse(ss[0]), ParseAll([], tail);
      assert ([cmd] + first.commands) + rest.commands == [cmd] + (first.commands + rest.commands);
    }
  }

  lemma ParseAllSplit(p: seq<byte>, ss: seq<seq<byte>>, first: seq<byte>, tail: seq<seq<byte>>)
    requires |ss| > 0 && ss[0] == first && ss[1..] == tail
    ensures ParseAll(p, ss) ==
            if tail == [] then Parse(p + first)
            else Parsed(Parse(p + first).commands + ParseAll([], tail).commands, ParseAll([], tail).partial)
  {
    hide Parse;
  }

  lemma ParseFeed(p: seq<byte>, v: byte, rest: seq<byte>)
    ensures p + ([v] + rest) == (p + [v]) + rest && [] + rest == rest
    ensures |p + [v]| == CommandLength((p + [v])[0]) ==>
              Parse(p + ([v] + rest)) == Parsed([p + [v]] + Parse(rest).commands, Parse(rest).partial)
  {
    hide CommandLength, Parse;
    if |p + [v]| == CommandLength((p + [v])[0]) { ParseComplete(p + [v], rest); }
  }

  lemma ParseComplete(cmd: seq<byte>, rest: seq<byte>)
    requires |cmd| > 0 && |cmd| == CommandLength(cmd[0])
    ensures Parse(cmd + rest) == Parsed([cmd] + Parse(rest).commands, Parse(rest).partial)
  {
    LengthIsTable(cmd[0]);
    hide CommandLength;
    assert (cmd + rest)[..|cmd|] == cmd && (cmd + rest)[|cmd|..] == rest;
  }

  /** The FIFO writes of a run, cut at every reset. */
  function Streams(run: seq<Access>): (ss: seq<seq<byte>>)
    ensures |ss| > 0
    decreases |run|
  {
    if |run| == 0 then [[]]
    else
      var ss := Streams(run[1..]);
      if IsReset(run[0]) then [[]] + ss
      else if IsFifoWrite(run[0]) then [[run[0].val] + ss[0]] + ss[1..]
      else ss
  }

  /** Each stream parsed from scratch, the first one after the pending bytes `p`: all commands, and the last rest. */
  function ParseAll(p: seq<byte>, ss: seq<seq<byte>>): Parsed
    requires |ss| > 0
    decreases |ss|
  {
    var first := Parse(p + ss[0]);
    if |ss| == 1 then first
    else
      var rest := ParseAll([], ss[1..]);
      Parsed(first.commands + rest.commands, rest.partial)
  }

  /**
   The command port refines the parser: the commands executed, with all their bytes, are those of the
   byte stream, where each reset drops exactly the partial command before it.  Status and result reads,
   output-register and rate writes and DMA programming may come in between.
   */
  lemma {:induction false} StreamIsParsed(s: FloppySystem, run: seq<Access>)
    requires Inv(s.fdc) && LegalRun(s, run)
    ensures ParseAll(Pending(s.fdc), Streams(run)) == Parsed(Executed(s, run), Pending(Run(s, run).fdc))
    decreases |run|
  {
    var p := Pending(s.fdc);
    if |run| == 0 {
      assert p + [] == p;
      PartialIsItself(s.fdc);
    } else {
      var a, ss := run[0], Streams(run[1..]);
      ExecutedUnfold(s, run);
      if IsReset(a) {
        ResetClears(s, a);
        PartialIsItself(s.fdc);
      } else {
        StepStream(s, a);
      }
      hide Step, Legal, Completes, Pending, Inv, Parse, ParseAll, CommandLength, Executed;
      StreamIsParsed(Step(s, a), run[1..]);
      if IsReset(a) {
        ParseCut(p, ss);
      } else if IsFifoWrite(a) {
        ParseAllFeed(p, a.val, ss);
      }
    }
  }

  lemma ExecutedUnfold(s: FloppySystem, run: seq<Access>)
    requires Inv(s.fdc) && LegalRun(s, run) && |run| > 0
    ensures Run(s, run) == Run(Step(s, run[0]), run[1..])
    ensures var rest := Executed(Step(s, run[0]), run[1..]);
            Executed(s, run) == if Completes(s.fdc, run[0]) then [Pending(s.fdc) + [run[0].val]] + rest else rest
  {
    hide Step, Legal, Completes, Pending, Inv;
  }

  /** The bytes of an unfinished command contain no command. */
  lemma PartialIsItself(f: Fdc)
    requires FdcSpec.Inv(f)
    ensures Parse(Pending(f)) == Parsed([], Pending(f))
  {
    if f.phase.Command? { LengthIsTable(f.phase.bytes[0]); }
    hide CommandLength;
  }

  /** Without a reset there is a single stream. */
  lemma {:induction false} OneStream(run: seq<Access>)
    requires forall a :: a in run ==> !IsReset(a)
    ensures Streams(run) == [FifoWrites(run)]
    decreases |run|
  {
    if |run| != 0 { OneStream(run[1..]); }
  }

  lemma ResetClears(s: FloppySystem, a: Access)
    requires Inv(s.fdc) && IsReset(a)
    ensures !Completes(s.fdc, a) && Pending(Step(s, a).fdc) == []
  {}

  // ----- phases end -----

  /** Result bytes: READ DATA and READ ID 7, SENSE INTERRUPT 2, the others none. */
  function ResultLength(opcode: byte): nat {
    match opcode % 0x10
    case 6 => 7
    case 8 => 2
    case 10 => 7
    case _ => 0
  }

  /** FIFO writes and reads the current command still needs. */
  function WritesLeft(f: Fdc): nat
    requires Inv(f)
  {
    if f.phase.Command? then CommandLength(f.phase.bytes[0]) - |f.phase.bytes| else 0
  }

  function ReadsLeft(f: Fdc): nat {
    match f.phase
    case Ready => 0
    case Command(bytes) => if |bytes| > 0 then ResultLength(bytes[0]) else 0
    case Result(bytes) => |bytes|
  }

  function FifoReadCount(run: seq<Access>): nat {
    if |run| == 0 then 0 else (if IsFifoRead(run[0]) then 1 else 0) + FifoReadCount(run[1..])
  }

  /** The controller is in the middle of a command before each access of the run. */
  predicate Busy(s: FloppySystem, run: seq<Access>)
    requires Inv(s.fdc) && LegalRun(s, run)
    decreases |run|
  {
    |run| == 0 || (!s.fdc.phase.Ready? && Busy(Step(s, run[0]), run[1..]))
  }

  lemma StepCost(s: FloppySystem, a: Access)
    requires Inv(s.fdc) && Legal(s, a) && !s.fdc.phase.Ready?
    ensures var f, g := s.fdc, Step(s, a).fdc;
            var w, r := if IsFifoWrite(a) then 1 else 0, if IsFifoRead(a) then 1 else 0;
            && w + WritesLeft(g) <= WritesLeft(f) && r + ReadsLeft(g) <= ReadsLeft(f)
            && (!IsReset(a) ==> w + WritesLeft(g) == WritesLeft(f) && r + ReadsLeft(g) == ReadsLeft(f))
  {}

  /** Exact accounting while a command is under way; a reset can only save accesses. */
  lemma {:induction false} RunCost(s: FloppySystem, run: seq<Access>)
    requires Inv(s.fdc) && LegalRun(s, run) && Busy(s, run)
    ensures var f, g, w, r := s.fdc, Run(s, run).fdc, |FifoWrites(run)|, FifoReadCount(run);
            && w + WritesLeft(g) <= WritesLeft(f) && r + ReadsLeft(g) <= ReadsLeft(f)
            && ((forall a :: a in run ==> !IsReset(a)) ==>
                  w + WritesLeft(g) == WritesLeft(f) && r + ReadsLeft(g) == ReadsLeft(f))
    decreases |run|
  {
    if |run| != 0 {
      StepCost(s, run[0]);
      hide Step, Legal, Inv, WritesLeft, ReadsLeft, IsReset;
      RunCost(Step(s, run[0]), run[1..]);
    }
  }

  /**
   A command takes at most 9 FIFO writes and 7 FIFO reads.  Unless it is reset, it is over exactly when
   it has had as many of each as its opcode says.
   */
  lemma CommandIsBounded(s: FloppySystem, a: Access, run: seq<Access>)
    requires Inv(s.fdc) && s.fdc.phase.Ready? && Legal(s, a) && IsFifoWrite(a)
    requires LegalRun(Step(s, a), run) && Busy(Step(s, a), run)
    ensures var w, r := 1 + |FifoWrites(run)|, FifoReadCount(run);
            && w <= TableLength(a.val) <= 9 && r <= ResultLength(a.val) <= 7
            && ((forall b :: b in run ==> !IsReset(b)) ==>
                  (Run(Step(s, a), run).fdc.phase.Ready? <==> w == TableLength(a.val) && r == ResultLength(a.val)))
  {
    var s1 := Step(s, a);
    LengthIsTable(a.val);
    assert 1 + WritesLeft(s1.fdc) == TableLength(a.val) && ReadsLeft(s1.fdc) == ResultLength(a.val);
    RunCost(s1, run);
    hide Step, Legal, Busy, FifoWrites, FifoReadCount, LegalRun;
    ReadyMeansNothingLeft(Run(s1, run).fdc);
  }

  lemma ReadyMeansNothingLeft(f: Fdc)
    requires Inv(f)
    ensures f.phase.Ready? <==> WritesLeft(f) == 0 && ReadsLeft(f) == 0
  {}

  /** So every run with enough FIFO accesses in it reaches a point where the controller is ready again. */
  lemma {:induction false} CommandsEnd(s: FloppySystem, run: seq<Access>) returns (i: nat)
    requires Inv(s.fdc) && LegalRun(s, run)
    requires |FifoWrites(run)| + FifoReadCount(run) >= WritesLeft(s.fdc) + ReadsLeft(s.fdc)
    ensures WritesLeft(s.fdc) + ReadsLeft(s.fdc) <= 15
    ensures i <= |run| && LegalRun(s, run[..i]) && Run(s, run[..i]).fdc.phase.Ready?
    decreases |run|
  {
    ReadyMeansNothingLeft(s.fdc);
    if s.fdc.phase.Ready? {
      i := 0;
    } else {
      StepCost(s, run[0]);
      hide Step, Legal, WritesLeft, ReadsLeft, Inv;
      i := CommandsEnd(Step(s, run[0]), run[1..]);
      i := i + 1;
      assert run[..i][1..] == run[1..][..i - 1];
    }
  }

  /** The status register tells the phases apart. */
  lemma MsrTellsPhase(f: Fdc)
    ensures f.phase.Ready? <==> Msr(f) in {0x80, 0xA0}
    ensures f.phase.Command? <==> Msr(f) in {0x90, 0xB0}
    ensures f.phase.Result? <==> Msr(f) == 0xC0
  {}

  // ----- READ DATA from end to end -----

  /** Status and output-register reads, rate writes: they may occur anywhere in a command. */
  predicate Quiet(a: Access) {
    || (a.InB? && a.off != DATA_FIFO)
    || (a.OutB? && a.off == CONFIGURATION)
  }

  function FifoReads(s: FloppySystem, run: seq<Access>): seq<byte>
    requires Inv(s.fdc) && LegalRun(s, run)
    decreases |run|
  {
    if |run| == 0 then []
    else if IsFifoRead(run[0]) then [ReadPort(s.fdc, DATA_FIFO)] + FifoReads(Step(s, run[0]), run[1..])
    else FifoReads(Step(s, run[0]), run[1..])
  }

  lemma QuietKeeps(s: FloppySystem, a: Access)
    requires Inv(s.fdc) && Legal(s, a) && Quiet(a)
    ensures var t := Step(s, a);
            t == s.(fdc := s.fdc.(ccr := t.fdc.ccr, dsr := t.fdc.dsr)) && Pending(t.fdc) == Pending(s.fdc)
  {}

  /** Equal up to the two data-rate registers. */
  predicate Same(s: FloppySystem, t: FloppySystem) {
    t == s.(fdc := s.fdc.(ccr := t.fdc.ccr, dsr := t.fdc.dsr))
  }

  /** Parameter bytes trickle in; the last one executes the command. */
  lemma {:induction false} CommandBytes(s: FloppySystem, run: seq<Access>, cmd: seq<byte>)
    requires Inv(s.fdc) && LegalRun(s, run) && !s.fdc.phase.Result?
    requires forall a :: a in run ==> Quiet(a) || IsFifoWrite(a)
    requires |cmd| > 0 && |cmd| == CommandLength(cmd[0]) && Pending(s.fdc) + FifoWrites(run) == cmd
    requires |run| > 0 && IsFifoWrite(run[|run| - 1])
    ensures Executable(cmd, s.ctl, s.page)
    ensures Same(Execute(s, cmd), Run(s, run))
    decreases |run|
  {
    hide Step, Legal, Execute, Executable, Inv, Pending, Quiet;
    var a, s1, rest := run[0], Step(s, run[0]), FifoWrites(run[1..]);
    if IsFifoWrite(a) {
      assert cmd == Pending(s.fdc) + [a.val] + rest;
      if |run| > 1 { LastIsWrite(run[1..]); }
      CommandByte(s, a, cmd, rest);
      if |run| == 1 {
        assert run[1..] == [];
      } else {
        CommandBytes(s1, run[1..], cmd);
        PhaseIsOverwritten(s, s1, cmd);
      }
    } else {
      QuietKeeps(s, a);
      CommandBytes(s1, run[1..], cmd);
      SameExecute(s, s1, cmd);
    }
  }

  lemma CommandByte(s: FloppySystem, a: Access, cmd: seq<byte>, rest: seq<byte>)
    requires Inv(s.fdc) && Legal(s, a) && IsFifoWrite(a)
    requires |cmd| > 0 && |cmd| == CommandLength(cmd[0]) && cmd == Pending(s.fdc) + [a.val] + rest
    ensures rest == [] ==> Executable(cmd, s.ctl, s.page) && Step(s, a) == Execute(s, cmd)
    ensures rest != [] ==>
              && Step(s, a) == s.(fdc := s.fdc.(phase := Command(Pending(s.fdc) + [a.val])))
              && Pending(Step(s, a).fdc) + rest == cmd
  {
    var p := Pending(s.fdc) + [a.val];
    assert p[0] == cmd[0];
    if rest == [] { assert p == cmd; }
  }

  /** Executing looks at neither the data-rate registers nor the phase. */
  lemma PhaseIsOverwritten(s: FloppySystem, t: FloppySystem, cmd: seq<byte>)
    requires t == s.(fdc := s.fdc.(phase := t.fdc.phase)) && Executable(cmd, t.ctl, t.page)
    ensures Executable(cmd, s.ctl, s.page) && Execute(s, cmd) == Execute(t, cmd)
  {}

  lemma SameExecute(s: FloppySystem, t: FloppySystem, cmd: seq<byte>)
    requires Same(s, t) && Executable(cmd, t.ctl, t.page)
    ensures Executable(cmd, s.ctl, s.page) && Same(Execute(s, cmd), Execute(t, cmd))
  {}

  lemma {:induction false} LastIsWrite(run: seq<Access>)
    requires |run| > 0 && IsFifoWrite(run[|run| - 1])
    ensures |FifoWrites(run)| > 0
  {
    if |run| > 1 { LastIsWrite(run[1..]); }
  }

  /** Result bytes come out in order; the interrupt stays up exactly until the last one is taken. */
  lemma {:induction false} ResultBytes(s: FloppySystem, run: seq<Access>, all: seq<byte>)
    requires Inv(s.fdc) && LegalRun(s, run) && s.fdc.phase == Result(all) && s.fdc.irq6
    requires forall a :: a in run ==> Quiet(a) || IsFifoRead(a)
    ensures var got, t := FifoReads(s, run), Run(s, run);
            && got <= all
            && t.mem == s.mem && t.fdc.cyl == s.fdc.cyl
            && (t.fdc.irq6 <==> |got| < |all|)
            && t.fdc.phase == (if |got| == |all| then Ready else Result(all[|got|..]))
    decreases |run|
  {
    assert |all| > 0;
    hide Step, Legal, Inv, Quiet;
    if |run| != 0 {
      var a, s1, rest := run[0], Step(s, run[0]), run[1..];
      if IsFifoRead(a) {
        TakeResult(s, a, all);
        hide ReadPort;
        if |all| == 1 {
          NoMoreResults(s1, rest);
          assert FifoReads(s, run) == [all[0]];
        } else {
          ResultBytes(s1, rest, all[1..]);
          assert FifoReads(s, run) == [all[0]] + FifoReads(s1, rest);
        }
      } else {
        QuietKeeps(s, a);
        ResultBytes(s1, rest, all);
      }
    }
  }

  lemma TakeResult(s: FloppySystem, a: Access, all: seq<byte>)
    requires Inv(s.fdc) && Legal(s, a) && IsFifoRead(a) && s.fdc.phase == Result(all)
    ensures |all| > 0 && ReadPort(s.fdc, DATA_FIFO) == all[0]
    ensures var t := Step(s, a);
            && t.mem == s.mem && t.fdc.cyl == s.fdc.cyl
            && t.fdc.irq6 == (s.fdc.irq6 && |all| > 1)
            && t.fdc.phase == (if |all| == 1 then Ready else Result(all[1..]))
  {}

  lemma {:induction false} NoMoreResults(s: FloppySystem, run: seq<Access>)
    requires Inv(s.fdc) && LegalRun(s, run) && s.fdc.phase.Ready?
    requires forall a :: a in run ==> Quiet(a) || IsFifoRead(a)
    ensures FifoReads(s, run) == [] && Same(s, Run(s, run))
    decreases |run|
  {
    if |run| != 0 {
      QuietKeeps(s, run[0]);
      NoMoreResults(Step(s, run[0]), run[1..]);
    }
  }

  /** A channel programmed for `n` sectors at guest address `d`. */
  predicate Programmed(s: FloppySystem, d: nat, n: nat) {
    Dest(s.ctl, s.page) == d && Count(s.ctl) == 512 * n - 1
  }

  /**
   READ DATA from end to end: the nine command bytes put the addressed sectors of the image at the
   programmed guest address and change no other byte of memory; the result bytes follow, with the
   interrupt up until the last of them is read.
   */
  lemma ReadDataMovesSectors(s: FloppySystem, cmdRun: seq<Access>, resRun: seq<Access>,
                             cmd: seq<byte>, d: nat, n: nat, lba: nat)
    requires Inv(s.fdc) && s.fdc.phase.Ready?
    requires LegalRun(s, cmdRun) && LegalRun(Run(s, cmdRun), resRun)
    requires forall a :: a in cmdRun ==> Quiet(a) || IsFifoWrite(a)
    requires |cmdRun| > 0 && IsFifoWrite(cmdRun[|cmdRun| - 1]) && FifoWrites(cmdRun) == cmd
    requires forall a :: a in resRun ==> Quiet(a) || IsFifoRead(a)
    requires |cmd| == 9 && cmd[0] % 0x10 == CMD_READ_DATA && cmd[6] == n >= 1
    requires cmd[4] >= 1 && lba == Block(cmd[2], cmd[3], cmd[4])
    requires Programmed(s, d, n) && 512 * (lba + n) <= |s.fdc.image|
    ensures var s1, t := Run(s, cmdRun), Run(Run(s, cmdRun), resRun);
            var result := [s.fdc.st[0], s.fdc.st[1], s.fdc.st[2], cmd[2], cmd[3], s.fdc.sect, 2];
            var got := FifoReads(s1, resRun);
            && n <= 128 && InBlock(d, 512 * n)
            && t.mem == s1.mem == s.mem[..d] + s.fdc.image[512 * lba..512 * (lba + n)] + s.mem[d + 512 * n..]
            && got <= result
            && s1.fdc.irq6 && (t.fdc.irq6 <==> got != result)
            && t.fdc.phase == (if got == result then Ready else Result(result[|got|..]))
  {
    assert Pending(s.fdc) + cmd == cmd;
    CommandBytes(s, cmdRun, cmd);
    var s1 := Run(s, cmdRun);
    ReadDataTransfers(s, cmd, d, n, lba);
    var result := [s.fdc.st[0], s.fdc.st[1], s.fdc.st[2], cmd[2], cmd[3], s.fdc.sect, 2];
    hide Execute, Run, LegalRun, FifoReads, Executable;
    ResultBytes(s1, resRun, result);
    var got := FifoReads(s1, resRun);
    assert |got| == |result| ==> got == result;
  }

  lemma ReadDataTransfers(s: FloppySystem, cmd: seq<byte>, d: nat, n: nat, lba: nat)
    requires |cmd| == 9 && cmd[0] % 0x10 == CMD_READ_DATA && cmd[6] == n >= 1 && Executable(cmd, s.ctl, s.page)
    requires cmd[4] >= 1 && lba == Block(cmd[2], cmd[3], cmd[4])
    requires Programmed(s, d, n) && 512 * (lba + n) <= |s.fdc.image|
    ensures var t := Execute(s, cmd);
            && t.mem == s.mem[..d] + s.fdc.image[512 * lba..512 * (lba + n)] + s.mem[d + 512 * n..]
            && t.fdc.irq6
            && t.fdc.phase == Result([s.fdc.st[0], s.fdc.st[1], s.fdc.st[2], cmd[2], cmd[3], s.fdc.sect, 2])
  {
    OffsetOfBlock(cmd, lba);
    hide ReadOffset, Block, CommandLength;
    var data := FileRead(s.fdc.image, 512 * lba, 512 * n);
    assert data == s.fdc.image[512 * lba..512 * (lba + n)] && |data| == 512 * n;
    hide FileRead;
    var buffer := Splice(s.fdc.buffer, 0, data);
    assert buffer[..Count(s.ctl) + 1] == data;
    hide Count, Dest;
  }

  /** The byte offset of the first sector a READ DATA command names; sector 0 of track 0 wraps around 32 bits. */
  lemma OffsetWritten(cmd: seq<byte>)
    requires |cmd| == 9
    ensures ReadOffset(cmd) == if cmd[2] == 0 && cmd[3] == 0 && cmd[4] == 0 then 0xFFFF_FE00
                               else 512 * (36 * cmd[2] as int + 18 * cmd[3] as int + cmd[4] as int - 1)
  {
    var b := Block(cmd[2], cmd[3], cmd[4]);
    assert b == 36 * cmd[2] as int + 18 * cmd[3] as int + cmd[4] as int - 1;
    assert ReadOffset(cmd) == b % 0x1_0000_0000 * 512 % 0x1_0000_0000;
    hide ReadOffset, Block;
    Truncated(b);
  }

  lemma Truncated(b: int)
    requires -1 <= b < 0x1_0000
    ensures b % 0x1_0000_0000 * 512 % 0x1_0000_0000 == if b < 0 then 0xFFFF_FE00 else 512 * b
  {}

  /**
   READ DATA for every count of sectors, every count of DMA bytes and every address: the image's bytes,
   as far as it has any, go over the old sector buffer, and as many bytes of that as the channel counts
   go to memory, however many sectors were asked for.
   */
  lemma ReadDataIsPointwise(s: FloppySystem, cmd: seq<byte>, i: nat)
    requires |cmd| == 9 && cmd[0] % 0x10 == 6 && Executable(cmd, s.ctl, s.page)
    ensures var t := Execute(s, cmd);
            var d := s.page[1] as int * 0x1_0000 + s.ctl.reg[4].hi as int * 0x100 + s.ctl.reg[4].lo as int;
            var k := s.ctl.reg[5].hi as int * 0x100 + s.ctl.reg[5].lo as int + 1;
            && (d + k <= 0xA_0000 || (0xC_0000 <= d && d + k <= 0xE_0000))
            && (i < 0xE_0000 ==> t.mem[i] == if d <= i < d + k then t.fdc.buffer[i - d] else s.mem[i])
            && (i < 0x1_0000 ==>
                  t.fdc.buffer[i] == if i < 512 * cmd[6] as int && ReadOffset(cmd) + i < |s.fdc.image|
                                     then s.fdc.image[ReadOffset(cmd) + i] else s.fdc.buffer[i])
            && t.fdc == s.fdc.(cyl := cmd[2], head := cmd[3], buffer := t.fdc.buffer, ndma := false, irq6 := true,
                               phase := Result([s.fdc.st[0], s.fdc.st[1], s.fdc.st[2], cmd[2], cmd[3], s.fdc.sect, 2]))
            && t.ctl == s.ctl && t.page == s.page
  {
    hide ReadOffset;
    var data := FileRead(s.fdc.image, ReadOffset(cmd), 512 * cmd[6] as int);
    var buffer := Splice(s.fdc.buffer, 0, data);
    assert Execute(s, cmd).fdc.buffer == buffer;
  }

  /** The image's bytes from `off` as far as there are any, then the old ones. */
  function Overlaid(image: seq<byte>, off: nat, rest: seq<byte>): (r: seq<byte>)
    ensures |r| == |rest|
    ensures forall i :: 0 <= i < |r| ==> r[i] == if off + i < |image| then image[off + i] else rest[i]
  {
    seq<byte>(|rest|, i requires 0 <= i < |rest| => if off + i < |image| then image[off + i] else rest[i])
  }

  /** That is the zero-extended image exactly if the old bytes that are left are zero. */
  lemma OverlaidIsWindow(image: seq<byte>, off: nat, rest: seq<byte>)
    ensures Overlaid(image, off, rest) == Window(image, off, |rest|) <==>
            forall i :: 0 <= i < |rest| && |image| <= off + i ==> rest[i] == 0
  {
    var r, window := Overlaid(image, off, rest), Window(image, off, |rest|);
    assert forall i :: 0 <= i < |rest| ==> window[i] == At(image, off + i);
    if r == window {
      forall i | 0 <= i < |rest| && |image| <= off + i ensures rest[i] == 0 {
        assert r[i] == window[i];
      }
    }
  }

  lemma OverlaidIsSplice(image: seq<byte>, off: nat, rest: seq<byte>, n: nat)
    requires n <= |rest|
    ensures |FileRead(image, off, n)| <= n
    ensures Splice(rest, 0, FileRead(image, off, n))[..n] == Overlaid(image, off, rest[..n])
  {}

  /**
   Past the end of the image the sector buffer keeps what it held: guest memory then gets stale bytes,
   so a read is that of the zero-extended image exactly when the stale bytes are all zero.
   */
  lemma ReadPastEndIsStale(s: FloppySystem, cmd: seq<byte>, d: nat, n: nat, lba: nat)
    requires |cmd| == 9 && cmd[0] % 0x10 == CMD_READ_DATA && cmd[6] == n >= 1 && Executable(cmd, s.ctl, s.page)
    requires cmd[4] >= 1 && lba == Block(cmd[2], cmd[3], cmd[4]) && Programmed(s, d, n)
    ensures n <= 128 && InBlock(d, 512 * n)
    ensures var moved, stale := Execute(s, cmd).mem[d..d + 512 * n], s.fdc.buffer[..512 * n];
            && moved == Overlaid(s.fdc.image, 512 * lba, stale)
            && (moved == Window(s.fdc.image, 512 * lba, 512 * n) <==>
                forall i :: 0 <= i < |stale| && |s.fdc.image| <= 512 * lba + i ==> stale[i] == 0)
  {
    OffsetOfBlock(cmd, lba);
    hide ReadOffset, Block, CommandLength, FileRead, Overlaid, Window;
    OverlaidIsSplice(s.fdc.image, 512 * lba, s.fdc.buffer, 512 * n);
    OverlaidIsWindow(s.fdc.image, 512 * lba, s.fdc.buffer[..512 * n]);
    var buffer := Splice(s.fdc.buffer, 0, FileRead(s.fdc.image, 512 * lba, 512 * n));
    assert Execute(s, cmd).mem == Splice(s.mem, d, buffer[..512 * n]);
    hide Execute, Executable;
    SpliceHolds(s.mem, d, buffer[..512 * n]);
  }

  lemma SpliceHolds(mem: seq<byte>, at: nat, data: seq<byte>)
    requires at + |data| <= |mem|
    ensures Splice(mem, at, data)[at..at + |data|] == data
  {}

  /** SENSE INTERRUPT after a SEEK or RECALIBRATE reports the cylinder it went to and lowers the interrupt it raised. */
  lemma SenseReportsCylinder(s: FloppySystem, seek: seq<byte>)
    requires Executable(seek, s.ctl, s.page) && seek[0] % 0x10 in {CMD_SEEK, CMD_RECALIBRATE}
    ensures var t := Execute(s, seek);
            && t.fdc.irq6 && t.fdc.phase.Ready? && Executable([CMD_SENSE_INTERRUPT], t.ctl, t.page)
            && var u := Execute(t, [CMD_SENSE_INTERRUPT]);
               && u.mem == s.mem && !u.fdc.irq6
               && u.fdc.phase == Result([s.fdc.st[0], if seek[0] % 0x10 == CMD_SEEK then seek[2] else 0])
  {}

  lemma OffsetOfBlock(cmd: seq<byte>, lba: nat)
    requires |cmd| == 9 && cmd[4] >= 1 && lba == Block(cmd[2], cmd[3], cmd[4])
    ensures ReadOffset(cmd) == 512 * lba
  {
    assert lba < 0x1_0000;
  }

  // ----- programming the channel -----

  /** The DMA accesses of a run that touches nothing else. */
  function DmaPart(run: seq<Access>): seq<DmaSpec.Access> {
    if |run| == 0 then [] else (if run[0].Dma? then [run[0].a] else []) + DmaPart(run[1..])
  }

  lemma {:induction false} RunCtl(s: FloppySystem, run: seq<Access>)
    requires Inv(s.fdc) && LegalRun(s, run)
    ensures Run(s, run).ctl == DmaSpec.Run(s.ctl, DmaPart(run))
    decreases |run|
  {
    if |run| != 0 {
      StepCtl(s, run[0]);
      hide Step;
      RunCtl(Step(s, run[0]), run[1..]);
      if run[0].Dma? {
        assert DmaPart(run)[1..] == DmaPart(run[1..]);
      } else {
        assert DmaPart(run) == DmaPart(run[1..]);
      }
    }
  }

  lemma StepCtl(s: FloppySystem, a: Access)
    requires Inv(s.fdc) && Legal(s, a)
    ensures Step(s, a).ctl == if a.Dma? then DmaSpec.Step(s.ctl, a.a) else s.ctl
    ensures Step(s, a).page == if a.Page? then s.page[a.off := a.val] else s.page
  {}

  /** The last value written to a page register. */
  function LastPage(run: seq<Access>, off: nat, v0: byte): byte {
    if |run| == 0 then v0
    else LastPage(run[1..], off, if run[0].Page? && run[0].off == off then run[0].val else v0)
  }

  lemma {:induction false} RunPage(s: FloppySystem, run: seq<Access>, off: nat)
    requires Inv(s.fdc) && LegalRun(s, run) && off < 15
    ensures Run(s, run).page[off] == LastPage(run, off, s.page[off])
    decreases |run|
  {
    if |run| != 0 {
      StepCtl(s, run[0]);
      hide Step;
      RunPage(Step(s, run[0]), run[1..], off);
    }
  }

  /** A 16-bit value written to a register, low byte first. */
  function LowHigh(r: nat, v: word): seq<DmaSpec.Access> {
    [DmaSpec.OutB(r, v % 0x100), DmaSpec.OutB(r, v / 0x100)]
  }

  /**
   Any run whose writes to the address register are `lo, hi`, to the count register `512n-1` low byte
   first, and to page register 1 finally `pg`, programs the channel, however they interleave.
   */
  lemma ProgramChannel(s: FloppySystem, run: seq<Access>, d: nat, n: nat)
    requires Inv(s.fdc) && LegalRun(s, run)
    requires !s.ctl.reg[DmaSpec.START_ADDR_2].odd && !s.ctl.reg[DmaSpec.COUNT_2].odd
    requires 1 <= n <= 128 && d < 0x100_0000
    requires DmaSpec.Only(DmaSpec.START_ADDR_2, DmaPart(run)) ==
             LowHigh(DmaSpec.START_ADDR_2, d % 0x1_0000)
    requires DmaSpec.Only(DmaSpec.COUNT_2, DmaPart(run)) ==
             LowHigh(DmaSpec.COUNT_2, 512 * n - 1)
    requires LastPage(run, 1, s.page[1]) == d / 0x1_0000
    ensures Programmed(Run(s, run), d, n)
  {
    RunCtl(s, run);
    RunPage(s, run, 1);
    PairProgrammed(s.ctl, DmaPart(run), DmaSpec.START_ADDR_2, d % 0x1_0000);
    PairProgrammed(s.ctl, DmaPart(run), DmaSpec.COUNT_2, 512 * n - 1);
  }

  lemma PairProgrammed(c: DmaSpec.Ctl, run: seq<DmaSpec.Access>, r: nat, v: word)
    requires r <= 6 && !c.reg[r].odd
    requires DmaSpec.Only(r, run) == LowHigh(r, v)
    ensures DmaSpec.Run(c, run).reg[r].Value() == v
  {
    DmaSpec.RegistersIndependent(c, r, run);
    DmaSpec.TwoWrites(c.reg[r], r, v % 0x100, v / 0x100);
  }

  predicate Programs(a: Access) { a.Dma? || a.Page? }

  lemma {:induction false} ProgrammingKeepsTheRest(s: FloppySystem, run: seq<Access>)
    requires Inv(s.fdc) && LegalRun(s, run)
    requires forall a :: a in run ==> Programs(a)
    ensures Run(s, run).fdc == s.fdc && Run(s, run).mem == s.mem
    decreases |run|
  {
    if |run| != 0 {
      assert Programs(run[0]);
      ProgrammingKeepsTheRest(Step(s, run[0]), run[1..]);
    }
  }

  /**
   The floppy read from end to end, starting before the channel is programmed: DMA and page writes in
   any interleaving, then the nine command bytes, then the seven result bytes.
   */
  lemma FloppyReadEndToEnd(s: FloppySystem, prog: seq<Access>, s0: FloppySystem,
                           cmdRun: seq<Access>, resRun: seq<Access>, cmd: seq<byte>, d: nat, n: nat, lba: nat)
    requires Inv(s.fdc) && s.fdc.phase.Ready? && LegalRun(s, prog) && s0 == Run(s, prog)
    requires forall a :: a in prog ==> Programs(a)
    requires !s.ctl.reg[DmaSpec.START_ADDR_2].odd && !s.ctl.reg[DmaSpec.COUNT_2].odd
    requires 1 <= n <= 128 && d < 0x100_0000
    requires DmaSpec.Only(DmaSpec.START_ADDR_2, DmaPart(prog)) ==
             LowHigh(DmaSpec.START_ADDR_2, d % 0x1_0000)
    requires DmaSpec.Only(DmaSpec.COUNT_2, DmaPart(prog)) ==
             LowHigh(DmaSpec.COUNT_2, 512 * n - 1)
    requires LastPage(prog, 1, s.page[1]) == d / 0x1_0000
    requires LegalRun(s0, cmdRun) && LegalRun(Run(s0, cmdRun), resRun)
    requires forall a :: a in cmdRun ==> Quiet(a) || IsFifoWrite(a)
    requires |cmdRun| > 0 && IsFifoWrite(cmdRun[|cmdRun| - 1]) && FifoWrites(cmdRun) == cmd
    requires forall a :: a in resRun ==> Quiet(a) || IsFifoRead(a)
    requires |cmd| == 9 && cmd[0] % 0x10 == CMD_READ_DATA && cmd[6] == n
    requires cmd[4] >= 1 && lba == Block(cmd[2], cmd[3], cmd[4]) && 512 * (lba + n) <= |s.fdc.image|
    ensures var t := Run(Run(s0, cmdRun), resRun);
            && InBlock(d, 512 * n)
            && t.mem == s.mem[..d] + s.fdc.image[512 * lba..512 * (lba + n)] + s.mem[d + 512 * n..]
            && FifoReads(Run(s0, cmdRun), resRun)
               <= [s.fdc.st[0], s.fdc.st[1], s.fdc.st[2], cmd[2], cmd[3], s.fdc.sect, 2]
            && (t.fdc.irq6 <==> |FifoReads(Run(s0, cmdRun), resRun)| < 7)
  {
    hide LegalRun, Run, FifoReads, Inv, FifoWrites, Quiet, Programs, Block;
    ProgramChannel(s, prog, d, n);
    ProgrammingKeepsTheRest(s, prog);
    ReadDataMovesSectors(s0, cmdRun, resRun, cmd, d, n, lba);
  }

  // ----- addressing -----

  /** On a two-headed, 18-sector disk the block formula is a bijection onto the naturals. */
  lemma BlockIsBijection(lba: nat)
    ensures exists c: nat, h: nat, s: nat :: h < 2 && 1 <= s <= 18 && Block(c, h, s) == lba
    ensures forall c: nat, h: nat, s: nat, c': nat, h': nat, s': nat ::
              h < 2 && 1 <= s <= 18 && h' < 2 && 1 <= s' <= 18 && Block(c, h, s) == Block(c', h', s')
              ==> c == c' && h == h' && s == s'
  {
    assert Block(lba / 36, lba % 36 / 18, lba % 18 + 1) == lba;
  }
}
