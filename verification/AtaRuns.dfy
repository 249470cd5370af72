/**
 What whole runs of guest accesses do to the disk.  Every theorem allows arbitrary legal accesses
 of the stated kinds between the data words: status polls, task-file writes, device selection.
 */
module AtaRuns {
  import opened Bytes
  import opened Image
  import opened AtaSpec

  /** The controller as it comes up: status and alternate status disagree until the first command. */
  function Initial(image: seq<byte>, identify: Sector): (c: Controller)
    ensures Inv(c)
    ensures c.master.reg[REG_STATUS] != c.master.reg[REG_ALTERNATE_STATUS]
  {
    Controller(Drive(true, image, identify, Blank()[REG_STATUS := DRDY], Idle, false),
               Drive(false, [], Zeros(512), Blank(), Idle, false), false, false)
  }

  predicate IsCommand(a: Access) { a.OutB? && a.off == PORT_STATUS_COMMAND }
  predicate IsReset(a: Access) { a.OutB? && a.off == PORT_DEVICE_CONTROL && a.val / 4 % 2 == 1 }

  /** Byte accesses that neither start a command nor reset: they may occur anywhere in a transfer. */
  predicate Quiet(a: Access) { (a.InB? || a.OutB?) && !IsCommand(a) && !IsReset(a) }

  function Todo(d: Drive): seq<byte> { if d.xfer.DataIn? then d.xfer.todo else [] }

  lemma {:induction false} RunAppend(c: Controller, r: seq<Access>, s: seq<Access>)
    requires Inv(c) && LegalRun(c, r) && LegalRun(Run(c, r), s)
    ensures LegalRun(c, r + s)
    ensures Run(c, r + s) == Run(Run(c, r), s)
    ensures DataRead(c, r + s) == DataRead(c, r) + DataRead(Run(c, r), s)
    decreases |r|
  {
    hide Step, Legal, Inv;
    if |r| == 0 {
      assert r + s == s;
    } else {
      assert (r + s)[1..] == r[1..] + s;
      RunAppend(Step(c, r[0]), r[1..], s);
    }
  }

  lemma QuietKeepsDrive(c: Controller, a: Access)
    requires Inv(c) && Legal(c, a) && Quiet(a)
    ensures var d, d' := c.master, Step(c, a).master;
            && d'.xfer == d.xfer && d'.image == d.image && d'.identify == d.identify && d'.buffered == d.buffered
            && forall r :: r in {REG_ERROR, REG_STATUS, REG_ALTERNATE_STATUS, REG_COMMAND} ==> d'.reg[r] == d.reg[r]
  {}

  /** The state after a command byte to the selected, present device. */
  function AfterCommand(c: Controller, cmd: byte): (c': Controller)
    requires Inv(c) && !c.slaveSelected && Supported(c.master, cmd)
    ensures Inv(c')
  {
    Step(c, OutB(PORT_STATUS_COMMAND, cmd))
  }

  /** The DRQ bit. */
  predicate Busy(d: Drive) { d.reg[REG_STATUS] / 8 % 2 == 1 }

  // ----- reading -----

  lemma ReadStep(c: Controller, a: Access)
    requires Inv(c) && Legal(c, a) && !c.master.xfer.DataOut? && (Quiet(a) || a.InW?)
    ensures var d := Step(c, a).master;
            && d.image == c.master.image && !d.xfer.DataOut?
            && Delivered(c, a) + Todo(d) == Todo(c.master)
  {
    if a.InW? {
      assert c.master.xfer.todo == c.master.xfer.todo[..2] + c.master.xfer.todo[2..];
    } else {
      QuietKeepsDrive(c, a);
    }
  }

  /** Bytes delivered so far, followed by bytes still to come, are always what the command loaded. */
  lemma {:induction false} ReadProgress(c: Controller, run: seq<Access>)
    requires Inv(c) && LegalRun(c, run)
    requires !c.master.xfer.DataOut?
    requires forall a :: a in run ==> Quiet(a) || a.InW?
    ensures var d := Run(c, run).master;
            && d.image == c.master.image && !d.xfer.DataOut?
            && DataRead(c, run) + Todo(d) == Todo(c.master)
    decreases |run|
  {
    hide Step, Legal, Inv, Quiet, Todo, Delivered;
    if |run| == 0 {
      assert [] + Todo(c.master) == Todo(c.master);
    } else {
      var c1 := Step(c, run[0]);
      ReadStep(c, run[0]);
      ReadProgress(c1, run[1..]);
      Regroup(Delivered(c, run[0]), DataRead(c1, run[1..]), Todo(Run(c1, run[1..]).master), Todo(c1.master));
    }
  }

  /**
   READ SECTORS: every data word is the next little-endian word of the zero-extended image, for
   either addressing mode and every count; DRQ is up exactly until the last one; the image is kept.
   */
  lemma ReadSectors(c: Controller, run: seq<Access>)
    requires Inv(c) && !c.slaveSelected
    requires LegalRun(AfterCommand(c, CMD_READ_SECTORS), run)
    requires forall a :: a in run ==> Quiet(a) || a.InW?
    ensures var c1 := AfterCommand(c, CMD_READ_SECTORS);
            var all := Window(c.master.image, 512 * ReadBlock(c.master.reg), 512 * ReadCount(c.master.reg));
            && DataRead(c1, run) <= all
            && (DataRead(c1, run) == all <==> !Busy(Run(c1, run).master))
            && Run(c1, run).master.image == c.master.image
  {
    var c1 := AfterCommand(c, CMD_READ_SECTORS);
    ReadCommandLoads(c);
    hide AfterCommand;
    ReadProgress(c1, run);
    var got, rest := DataRead(c1, run), Todo(Run(c1, run).master);
    assert |got + rest| == |got| + |rest|;
    if |rest| == 0 { assert got + rest == got; }
  }

  lemma ReadCommandLoads(c: Controller)
    requires Inv(c) && !c.slaveSelected
    ensures var d := AfterCommand(c, CMD_READ_SECTORS).master;
            && d.xfer == DataIn(Window(c.master.image, 512 * ReadBlock(c.master.reg), 512 * ReadCount(c.master.reg)))
            && d.image == c.master.image && !AfterCommand(c, CMD_READ_SECTORS).slaveSelected
  {
    var r := c.master.reg[REG_COMMAND := CMD_READ_SECTORS];
    assert ReadBlock(r) == ReadBlock(c.master.reg) && ReadCount(r) == ReadCount(c.master.reg);
  }

  /** IDENTIFY DEVICE delivers the identify block in the same way. */
  lemma IdentifyDevice(c: Controller, run: seq<Access>)
    requires Inv(c) && !c.slaveSelected
    requires LegalRun(AfterCommand(c, CMD_IDENTIFY_DEVICE), run)
    requires forall a :: a in run ==> Quiet(a) || a.InW?
    ensures var c1 := AfterCommand(c, CMD_IDENTIFY_DEVICE);
            && DataRead(c1, run) <= c.master.identify
            && (DataRead(c1, run) == c.master.identify <==> !Busy(Run(c1, run).master))
  {
    var c1 := AfterCommand(c, CMD_IDENTIFY_DEVICE);
    assert c1.master.xfer == DataIn(c.master.identify);
    hide AfterCommand;
    ReadProgress(c1, run);
    var got, rest := DataRead(c1, run), Todo(Run(c1, run).master);
    assert |got + rest| == |got| + |rest|;
    if |rest| == 0 { assert got + rest == got; }
  }

  /** The guest can always fetch as many words as are left. */
  lemma {:induction false} WordReadsAreLegal(c: Controller, k: nat)
    requires Inv(c) && !c.slaveSelected && 2 * k <= |Todo(c.master)|
    ensures LegalRun(c, seq(k, i => InW))
    ensures !Run(c, seq(k, i => InW)).slaveSelected
    ensures DataRead(c, seq(k, i => InW)) == Todo(c.master)[..2 * k]
    ensures Todo(Run(c, seq(k, i => InW)).master) == Todo(c.master)[2 * k..]
    decreases k
  {
    hide Inv, Legal, Step, Delivered, Todo;
    var run: seq<Access> := seq(k, i => InW);
    if k != 0 {
      WordReadStep(c);
      var c1, todo := Step(c, InW), Todo(c.master);
      var rest: seq<Access> := seq(k - 1, i => InW);
      assert run[1..] == rest && run[0] == InW;
      WordReadsAreLegal(c1, k - 1);
      assert todo[..2] + todo[2..][..2 * (k - 1)] == todo[..2 * k];
      assert todo[2..][2 * (k - 1)..] == todo[2 * k..];
    }
  }

  lemma WordReadStep(c: Controller)
    requires Inv(c) && !c.slaveSelected && 2 <= |Todo(c.master)|
    ensures Legal(c, InW) && Delivered(c, InW) == Todo(c.master)[..2]
    ensures !Step(c, InW).slaveSelected && Todo(Step(c, InW).master) == Todo(c.master)[2..]
  {}

  lemma {:induction false} NoDataRead(c: Controller, run: seq<Access>)
    requires Inv(c) && LegalRun(c, run)
    requires forall a :: a in run ==> !a.InW?
    ensures DataRead(c, run) == []
    decreases |run|
  {
    hide Step, Legal, Inv;
    if |run| != 0 { NoDataRead(Step(c, run[0]), run[1..]); }
  }

  // ----- writing -----

  predicate Sending(d: Drive, lba: nat, need: nat, got: seq<byte>) {
    d.xfer == DataOut(lba, need, got)
  }

  /** The bytes one access sends. */
  function Sent(a: Access): seq<byte> { if a.OutW? then ToLE(2, a.w) else [] }

  lemma SendWord(c: Controller, w: word, lba: nat, need: nat, got: seq<byte>)
    requires Inv(c) && Legal(c, OutW(w)) && Sending(c.master, lba, need, got)
    ensures var all, d := got + ToLE(2, w), Step(c, OutW(w)).master;
            && c.Cur() == c.master && |all| <= need && (Completes(c, OutW(w)) <==> |all| == need)
            && (if |all| == need then d.xfer.Idle? && d.image == FileWrite(c.master.image, 512 * lba, all)
                else Sending(d, lba, need, all) && d.image == c.master.image)
  {
    hide ToLE, FileWrite;
  }

  /** One access of a transfer: the bytes sent join those before, and the last ones complete it. */
  lemma SendStep(c: Controller, a: Access, lba: nat, need: nat, got: seq<byte>)
    requires Inv(c) && Legal(c, a) && (Quiet(a) || a.OutW?) && Sending(c.master, lba, need, got)
    ensures var all, d := got + Sent(a), Step(c, a).master;
            && |all| <= need && (Completes(c, a) <==> |all| == need)
            && (Completes(c, a) ==> a.OutW? && c.Cur().xfer == DataOut(lba, need, got))
            && (if |all| == need then d.xfer.Idle? && d.image == FileWrite(c.master.image, 512 * lba, all)
                else Sending(d, lba, need, all) && d.image == c.master.image)
  {
    hide Step, Legal, Inv;
    if a.OutW? {
      SendWord(c, a.w, lba, need, got);
    } else {
      QuietKeepsDrive(c, a);
      SendingIsShort(c, lba, need, got);
      assert got + [] == got;
    }
  }

  lemma SendingIsShort(c: Controller, lba: nat, need: nat, got: seq<byte>)
    requires Inv(c) && Sending(c.master, lba, need, got)
    ensures |got| < need
  {}

  lemma {:induction false} WriteProgress(c: Controller, run: seq<Access>, lba: nat, need: nat, got: seq<byte>)
    requires Inv(c) && LegalRun(c, run) && Sending(c.master, lba, need, got)
    requires forall a :: a in run ==> Quiet(a) || a.OutW?
    ensures var d := Run(c, run).master;
            var all := got + DataWritten(run);
            if |all| < need then d.image == c.master.image && Sending(d, lba, need, all)
            else |all| == need && d.image == FileWrite(c.master.image, 512 * lba, all) && d.xfer.Idle?
    decreases |run|
  {
    if |run| == 0 {
      SendingIsShort(c, lba, need, got);
      assert got + [] == got;
    } else {
      var a, c1, rest := run[0], Step(c, run[0]), run[1..];
      var all := got + Sent(a);
      SendStep(c, a, lba, need, got);
      assert DataWritten(run) == Sent(a) + DataWritten(rest);
      Regroup(got, Sent(a), DataWritten(rest), DataWritten(run));
      hide Step, Legal, Inv, Quiet, Sent, DataWritten, Completes, FileWrite;
      if |all| == need {
        NothingMoreToSend(c1, rest);
        assert all + [] == all;
      } else {
        WriteProgress(c1, rest, lba, need, all);
      }
    }
  }

  lemma {:induction false} NothingMoreToSend(c: Controller, run: seq<Access>)
    requires Inv(c) && LegalRun(c, run) && c.master.xfer.Idle?
    requires forall a :: a in run ==> Quiet(a) || a.OutW?
    ensures Run(c, run).master.image == c.master.image && Run(c, run).master.xfer.Idle?
    ensures DataWritten(run) == []
    decreases |run|
  {
    if |run| != 0 {
      QuietKeepsDrive(c, run[0]);
      NothingMoreToSend(Step(c, run[0]), run[1..]);
    }
  }

  /**
   WRITE SECTORS is all or nothing: until the last of its 256 words per sector the image is
   untouched; with the last word exactly the addressed bytes change, at once, and DRQ drops.
   */
  lemma WriteSectors(c: Controller, run: seq<Access>)
    requires Inv(c) && !c.slaveSelected && Supported(c.master, CMD_WRITE_SECTORS)
    requires LegalRun(AfterCommand(c, CMD_WRITE_SECTORS), run)
    requires forall a :: a in run ==> Quiet(a) || a.OutW?
    ensures var d := Run(AfterCommand(c, CMD_WRITE_SECTORS), run).master;
            var lba, need, data := Lba28(c.master.reg), 512 * c.master.reg[REG_SECTOR_COUNT] as int, DataWritten(run);
            && |data| <= need
            && d.image == (if |data| < need then c.master.image else FileWrite(c.master.image, 512 * lba, data))
            && (|data| < need <==> Busy(d))
  {
    var lba, need := Lba28(c.master.reg), 512 * c.master.reg[REG_SECTOR_COUNT] as int;
    WriteCommandStarts(c);
    hide AfterCommand;
    WriteProgress(AfterCommand(c, CMD_WRITE_SECTORS), run, lba, need, []);
    assert [] + DataWritten(run) == DataWritten(run);
  }

  lemma WriteCommandStarts(c: Controller)
    requires Inv(c) && !c.slaveSelected && Supported(c.master, CMD_WRITE_SECTORS)
    ensures var d := AfterCommand(c, CMD_WRITE_SECTORS).master;
            && Sending(d, Lba28(c.master.reg), 512 * c.master.reg[REG_SECTOR_COUNT] as int, [])
            && d.image == c.master.image
  {
    assert Lba28(c.master.reg[REG_COMMAND := CMD_WRITE_SECTORS]) == Lba28(c.master.reg);
  }

  predicate Completes(c: Controller, a: Access) {
    a.OutW? && c.Cur().xfer.DataOut? && |c.Cur().xfer.got| + 2 == c.Cur().xfer.need
  }

  /** The only step that changes the image is the one that completes a write. */
  lemma StepImage(c: Controller, a: Access)
    requires Inv(c) && Legal(c, a)
    ensures Step(c, a).master.image ==
            if Completes(c, a) then FileWrite(c.master.image, 512 * c.master.xfer.lba, c.master.xfer.got + ToLE(2, a.w))
            else c.master.image
  {}

  /** The data-out accesses that send a byte string, a word at a time. */
  function Words(data: seq<byte>): (run: seq<Access>)
    decreases |data|
  {
    if |data| < 2 then [] else [OutW(FromLE(data[..2]))] + Words(data[2..])
  }

  lemma {:induction false} WordsSendData(data: seq<byte>)
    requires |data| % 2 == 0
    ensures DataWritten(Words(data)) == data
    ensures forall a :: a in Words(data) ==> a.OutW?
    decreases |data|
  {
    if |data| != 0 {
      LERoundTrip(data[..2]);
      WordsSendData(data[2..]);
      assert data == data[..2] + data[2..];
      assert Words(data)[1..] == Words(data[2..]);
    }
  }

  /** The guest can always send as many words as are wanted. */
  lemma {:induction false} WordWritesAreLegal(c: Controller, data: seq<byte>, lba: nat, need: nat, got: seq<byte>)
    requires Inv(c) && !c.slaveSelected && Sending(c.master, lba, need, got)
    requires |data| % 2 == 0 && |got| + |data| <= need
    ensures LegalRun(c, Words(data))
    decreases |data|
  {
    if |data| != 0 {
      var a := OutW(FromLE(data[..2]));
      var c1 := Step(c, a);
      if |data| != 2 {
        WordWritesAreLegal(c1, data[2..], lba, need, got + ToLE(2, a.w));
      }
      hide Step, Legal, Inv;
      RunCons(c, a, Words(data[2..]));
    }
  }

  /** Without data-out words no run of any kind, commands and resets included, touches the image. */
  lemma {:induction false} ImageKeptWithoutDataOut(c: Controller, run: seq<Access>)
    requires Inv(c) && LegalRun(c, run)
    requires forall a :: a in run ==> !a.OutW?
    ensures Run(c, run).master.image == c.master.image
    decreases |run|
  {
    if |run| != 0 {
      StepImage(c, run[0]);
      hide Step;
      ImageKeptWithoutDataOut(Step(c, run[0]), run[1..]);
    }
  }

  /** A completed transfer, as a record of what reached the disk. */
  datatype Commit = Commit(lba: nat, data: seq<byte>)

  function ApplyCommits(image: seq<byte>, log: seq<Commit>): seq<byte>
    decreases |log|
  {
    if |log| == 0 then image
    else ApplyCommits(FileWrite(image, 512 * log[0].lba, log[0].data), log[1..])
  }

  /** The writes completed during a run: each holds all the words sent since its command. */
  function Commits(c: Controller, run: seq<Access>): seq<Commit>
    requires Inv(c) && LegalRun(c, run)
    decreases |run|
  {
    if |run| == 0 then []
    else
      (if Completes(c, run[0]) then [Commit(c.Cur().xfer.lba, c.Cur().xfer.got + ToLE(2, run[0].w))] else [])
      + Commits(Step(c, run[0]), run[1..])
  }

  /** Over any run whatsoever the disk is the initial image plus the completed whole-sector writes, in order. */
  lemma {:induction false} ImageIsCommittedWrites(c: Controller, run: seq<Access>)
    requires Inv(c) && LegalRun(c, run)
    ensures Run(c, run).master.image == ApplyCommits(c.master.image, Commits(c, run))
    ensures forall w :: w in Commits(c, run) ==> 0 < |w.data| && |w.data| % 512 == 0 && w.lba < 0x1000_0000
    decreases |run|
  {
    if |run| != 0 {
      StepImage(c, run[0]);
      hide Step;
      ImageIsCommittedWrites(Step(c, run[0]), run[1..]);
      var x := c.Cur().xfer;
      if Completes(c, run[0]) {
        assert Commits(c, run)[1..] == Commits(Step(c, run[0]), run[1..]);
      } else {
        assert Commits(c, run) == Commits(Step(c, run[0]), run[1..]);
      }
    }
  }

  /** The log of a run cut in two is the log of its parts, one after the other. */
  lemma {:induction false} CommitsAppend(c: Controller, r: seq<Access>, s: seq<Access>)
    requires Inv(c) && LegalRun(c, r) && LegalRun(Run(c, r), s)
    ensures LegalRun(c, r + s) && Commits(c, r + s) == Commits(c, r) + Commits(Run(c, r), s)
    decreases |r|
  {
    hide Step, Legal, Inv, Completes;
    if |r| == 0 {
      assert r + s == s;
    } else {
      assert (r + s)[1..] == r[1..] + s;
      CommitsAppend(Step(c, r[0]), r[1..], s);
    }
  }

  lemma CommitsUnfold(c: Controller, run: seq<Access>)
    requires Inv(c) && LegalRun(c, run) && |run| > 0
    ensures DataWritten(run) == Sent(run[0]) + DataWritten(run[1..])
    ensures var x, rest := c.Cur().xfer, Commits(Step(c, run[0]), run[1..]);
            Commits(c, run) == (if Completes(c, run[0]) then [Commit(x.lba, x.got + Sent(run[0]))] else []) + rest
  {
    hide Step, Legal, Inv, ToLE;
  }

  lemma Regroup(a: seq<byte>, b: seq<byte>, c: seq<byte>, bc: seq<byte>)
    requires b + c == bc
    ensures (a + b) + c == a + bc
  {}

  /** A transfer in progress logs nothing until its last word, and then everything sent for it, once. */
  lemma {:induction false} CommitsOfTransfer(c: Controller, run: seq<Access>, lba: nat, need: nat, got: seq<byte>)
    requires Inv(c) && LegalRun(c, run) && Sending(c.master, lba, need, got)
    requires forall a :: a in run ==> Quiet(a) || a.OutW?
    ensures var all := got + DataWritten(run);
            Commits(c, run) == if |all| < need then [] else [Commit(lba, all)]
    decreases |run|
  {
    if |run| == 0 {
      assert got + DataWritten(run) == got;
    } else {
      var a, c1, rest := run[0], Step(c, run[0]), run[1..];
      var all := got + Sent(a);
      SendStep(c, a, lba, need, got);
      CommitsUnfold(c, run);
      Regroup(got, Sent(a), DataWritten(rest), DataWritten(run));
      hide Step, Legal, Quiet, Sent, DataWritten, Commits, Completes;
      if Completes(c, a) {
        NothingMoreToSend(c1, rest);
        NoCommits(c1, rest);
        assert all + [] == all;
        assert [Commit(lba, all)] + [] == [Commit(lba, all)];
      } else {
        CommitsOfTransfer(c1, rest, lba, need, all);
        assert [] + Commits(c1, rest) == Commits(c1, rest);
      }
    }
  }

  lemma {:induction false} NoCommits(c: Controller, run: seq<Access>)
    requires Inv(c) && LegalRun(c, run) && c.master.xfer.Idle?
    requires forall a :: a in run ==> Quiet(a) || a.OutW?
    ensures Commits(c, run) == []
    decreases |run|
  {
    if |run| != 0 {
      QuietKeepsDrive(c, run[0]);
      NoCommits(Step(c, run[0]), run[1..]);
    }
  }

  /**
   The log is a function of the accesses: WRITE SECTORS and the words sent after it log the addressed
   block with exactly those words, if there are as many as it asked for, and nothing otherwise.
   */
  lemma CommitsAreSentWords(c: Controller, run: seq<Access>)
    requires Inv(c) && !c.slaveSelected && Supported(c.master, CMD_WRITE_SECTORS)
    requires LegalRun(AfterCommand(c, CMD_WRITE_SECTORS), run)
    requires forall a :: a in run ==> Quiet(a) || a.OutW?
    ensures var lba, need, data := Lba28(c.master.reg), 512 * c.master.reg[REG_SECTOR_COUNT] as int, DataWritten(run);
            Commits(AfterCommand(c, CMD_WRITE_SECTORS), run) == if |data| < need then [] else [Commit(lba, data)]
  {
    var lba, need := Lba28(c.master.reg), 512 * c.master.reg[REG_SECTOR_COUNT] as int;
    WriteCommandStarts(c);
    hide AfterCommand, Commits;
    CommitsOfTransfer(AfterCommand(c, CMD_WRITE_SECTORS), run, lba, need, []);
    assert [] + DataWritten(run) == DataWritten(run);
  }

  // ----- write then read -----

  /**
   The disk law: sectors written by WRITE SECTORS and later read back with READ SECTORS at the same
   address return the words that were sent, whatever happens in between short of further data-out words.
   */
  lemma WriteThenRead(c: Controller, w: seq<Access>, c2: Controller, mid: seq<Access>, c3: Controller, r: seq<Access>)
    requires Inv(c) && !c.slaveSelected && Supported(c.master, CMD_WRITE_SECTORS)
    requires LegalRun(AfterCommand(c, CMD_WRITE_SECTORS), w) && c2 == Run(AfterCommand(c, CMD_WRITE_SECTORS), w)
    requires LegalRun(c2, mid) && c3 == Run(c2, mid) && !c3.slaveSelected
    requires LegalRun(AfterCommand(c3, CMD_READ_SECTORS), r)
    requires ReadBlock(c3.master.reg) == Lba28(c.master.reg)
    requires ReadCount(c3.master.reg) == c.master.reg[REG_SECTOR_COUNT]
    requires forall a :: a in w ==> Quiet(a) || a.OutW?
    requires forall a :: a in mid ==> !a.OutW?
    requires forall a :: a in r ==> Quiet(a) || a.InW?
    requires |DataWritten(w)| == 512 * c.master.reg[REG_SECTOR_COUNT] as int
    ensures var c4 := AfterCommand(c3, CMD_READ_SECTORS);
            && DataRead(c4, r) <= DataWritten(w)
            && (DataRead(c4, r) == DataWritten(w) <==> !Busy(Run(c4, r).master))
  {
    hide AfterCommand, LegalRun, Run, DataRead, DataWritten;
    WriteSectors(c, w);
    ImageKeptWithoutDataOut(c2, mid);
    ReadSectors(c3, r);
    ReadBack(c.master.image, 512 * Lba28(c.master.reg), DataWritten(w));
  }

  // ----- status registers -----

  predicate Agree(d: Drive) { d.reg[REG_STATUS] == d.reg[REG_ALTERNATE_STATUS] }

  predicate IsIdentifyPacket(a: Access) { IsCommand(a) && a.val == CMD_IDENTIFY_PACKET_DEVICE }

  /** Once they agree, the two status registers part exactly at an IDENTIFY PACKET DEVICE sent to the master. */
  lemma StatusAgreement(c: Controller, a: Access)
    requires Inv(c) && Legal(c, a) && Agree(c.master)
    ensures Agree(Step(c, a).master) <==> !(IsIdentifyPacket(a) && !c.slaveSelected)
  {}

  lemma {:induction false} StatusAgreementOverRuns(c: Controller, run: seq<Access>)
    requires Inv(c) && LegalRun(c, run) && Agree(c.master)
    requires forall a :: a in run ==> !IsIdentifyPacket(a)
    ensures Agree(Run(c, run).master)
    decreases |run|
  {
    if |run| != 0 {
      StatusAgreement(c, run[0]);
      StatusAgreementOverRuns(Step(c, run[0]), run[1..]);
    }
  }

  /**
   A software reset, whatever was going on: the signature in the count and number registers, no error,
   ready in both status registers, no transfer, the master selected and the interrupt down.
   */
  lemma ResetSignature(c: Controller, v: byte)
    requires Inv(c) && !c.slaveSelected && c.master.buffered && v / 4 % 2 == 1
    ensures Legal(c, OutB(0x206, v))
    ensures var d := Step(c, OutB(0x206, v));
            && !d.slaveSelected && !d.irq14 && d.master.xfer.Idle? && d.master.image == c.master.image
            && Legal(d, InB(1)) && ReadPort(d, 1) == 0 && Legal(d, InB(2)) && ReadPort(d, 2) == 1
            && Legal(d, InB(3)) && ReadPort(d, 3) == 1 && Legal(d, InB(7)) && ReadPort(d, 7) == 0x40
            && Legal(d, InB(0x206)) && ReadPort(d, 0x206) == 0x40
            && Legal(d, InB(0x202)) && ReadPort(d, 0x202) == 0 && Legal(d, InB(0x204)) && ReadPort(d, 0x204) == 0
  {}

  // ----- addressing -----

  /** What a driver puts in the task file before a data command. */
  datatype TaskFile = TaskFile(head: byte, count: byte, low: byte, mid: byte, high: byte)

  /** A 28-bit block number: the top nibble with the LBA bit, then the three low bytes. */
  function LbaFile(lba: nat, count: byte): TaskFile
    requires lba < 0x1000_0000
  {
    TaskFile(0xE0 + lba / 0x100_0000, count, lba % 0x100, lba / 0x100 % 0x100, lba / 0x1_0000 % 0x100)
  }

  /** Cylinder, head and sector, the LBA bit clear. */
  function ChsFile(cyl: word, h: nat, s: byte, count: byte): TaskFile
    requires h <= 15
  {
    TaskFile(0xA0 + h, count, s, cyl % 0x100, cyl / 0x100)
  }

  /** The five byte writes that fill it. */
  function Address(t: TaskFile): seq<Access> {
    [ OutB(PORT_DEVICE_HEAD, t.head), OutB(PORT_SECTOR_COUNT, t.count), OutB(PORT_SECTOR_NUMBER, t.low),
      OutB(PORT_CYLINDER_LOW, t.mid), OutB(PORT_CYLINDER_HIGH, t.high) ]
  }

  function WithReg(c: Controller, i: nat, v: byte): Controller
    requires i < 12
  {
    c.(master := c.master.(reg := c.master.reg[i := v]))
  }

  lemma RegisterWrite(c: Controller, off: int, v: byte)
    requires Inv(c) && !c.slaveSelected && 1 <= off <= 5
    ensures Legal(c, OutB(off, v))
    ensures Step(c, OutB(off, v)) == WithReg(c, PortRegister(off), v) && !Step(c, OutB(off, v)).slaveSelected
  {}

  lemma SelectMaster(c: Controller, head: byte)
    requires Inv(c) && head / 0x10 % 2 == 0
    ensures Legal(c, OutB(PORT_DEVICE_HEAD, head))
    ensures Step(c, OutB(PORT_DEVICE_HEAD, head)) == WithReg(c.(slaveSelected := false), REG_DEVICE_HEAD, head)
    ensures !Step(c, OutB(PORT_DEVICE_HEAD, head)).slaveSelected
  {}

  lemma RunCons(c: Controller, a: Access, run: seq<Access>)
    requires Inv(c) && Legal(c, a) && LegalRun(Step(c, a), run)
    ensures LegalRun(c, [a] + run) && Run(c, [a] + run) == Run(Step(c, a), run)
    ensures DataRead(c, [a] + run) == Delivered(c, a) + DataRead(Step(c, a), run)
  {
    hide Step;
    assert ([a] + run)[1..] == run;
  }

  /** What the five writes leave behind. */
  function Addressed(c: Controller, t: TaskFile): Controller {
    var c1 := WithReg(c.(slaveSelected := false), REG_DEVICE_HEAD, t.head);
    var c2 := WithReg(WithReg(c1, REG_SECTOR_COUNT, t.count), REG_SECTOR_NUMBER, t.low);
    WithReg(WithReg(c2, REG_CYLINDER_LOW, t.mid), REG_CYLINDER_HIGH, t.high)
  }

  lemma AddressRun(c: Controller, t: TaskFile)
    requires Inv(c) && t.head / 0x10 % 2 == 0
    ensures LegalRun(c, Address(t)) && Run(c, Address(t)) == Addressed(c, t)
  {
    hide Step, Legal, Inv, LegalRun, Run, DataRead, WithReg;
    var a0, a1, a2 := OutB(PORT_DEVICE_HEAD, t.head), OutB(PORT_SECTOR_COUNT, t.count), OutB(PORT_SECTOR_NUMBER, t.low);
    var a3, a4 := OutB(PORT_CYLINDER_LOW, t.mid), OutB(PORT_CYLINDER_HIGH, t.high);
    SelectMaster(c, t.head);
    var c1 := Step(c, a0);
    RegisterWrite(c1, PORT_SECTOR_COUNT, t.count);
    var c2 := Step(c1, a1);
    RegisterWrite(c2, PORT_SECTOR_NUMBER, t.low);
    var c3 := Step(c2, a2);
    RegisterWrite(c3, PORT_CYLINDER_LOW, t.mid);
    var c4 := Step(c3, a3);
    RegisterWrite(c4, PORT_CYLINDER_HIGH, t.high);
    RunOfTwo(c3, a3, a4);
    RunCons(c2, a2, [a3, a4]);
    RunCons(c1, a1, [a2] + [a3, a4]);
    RunCons(c, a0, [a1] + ([a2] + [a3, a4]));
    assert [a0, a1, a2, a3, a4] == [a0] + ([a1] + ([a2] + [a3, a4]));
  }

  /** From any state the block number written comes back from the decoders of both commands. */
  lemma AddressDecodes(c: Controller, lba: nat, count: byte)
    requires Inv(c) && lba < 0x1000_0000
    ensures var t := LbaFile(lba, count);
            && LegalRun(c, Address(t))
            && var d := Run(c, Address(t));
               && !d.slaveSelected && d.master.image == c.master.image && d.irq14 == c.irq14
               && LbaMode(d.master.reg) && Lba28(d.master.reg) == ReadBlock(d.master.reg) == lba
               && d.master.reg[REG_SECTOR_COUNT] == count
  {
    var t := LbaFile(lba, count);
    AddressBytes(lba);
    HeadSelectsMaster(t.head);
    AddressRun(c, t);
    hide Run, LegalRun, Step, Inv, Lba28;
    TaskFileAddress(Addressed(c, t).master.reg, t);
  }

  /**
   So does a cylinder/head/sector address, in the 255-head, 63-sector geometry; sectors count from 1, and
   sector 0 of the first track wraps to the last 32-bit block number.
   */
  lemma ChsDecodes(c: Controller, cyl: word, h: nat, s: byte, count: byte)
    requires Inv(c) && h <= 15
    ensures var t := ChsFile(cyl, h, s, count);
            var b := (cyl as int * 255 + h) * 63 + s as int - 1;
            && LegalRun(c, Address(t))
            && var d := Run(c, Address(t));
               && !d.slaveSelected && d.master.image == c.master.image && d.irq14 == c.irq14
               && !LbaMode(d.master.reg) && ReadBlock(d.master.reg) == (if b < 0 then 0xFFFF_FFFF else b)
               && d.master.reg[REG_SECTOR_COUNT] == count
  {
    var t := ChsFile(cyl, h, s, count);
    ChsHeadByte(h);
    AddressRun(c, t);
    ChsBounds(cyl, h, s);
    hide Run, LegalRun, Step, Inv, LbaMode, ReadBlock, Address;
    ChsRegisters(Addressed(c, t).master.reg, cyl, h, s);
  }

  lemma ChsRegisters(r: Registers, cyl: word, h: nat, s: byte)
    requires h <= 15 && r[REG_DEVICE_HEAD] == 0xA0 + h && r[REG_SECTOR_NUMBER] == s
    requires r[REG_CYLINDER_LOW] == cyl % 0x100 && r[REG_CYLINDER_HIGH] == cyl / 0x100
    ensures var b := (cyl as int * 255 + h) * 63 + s as int - 1;
            !LbaMode(r) && ReadBlock(r) == if b < 0 then 0xFFFF_FFFF else b
  {
    var b := (cyl as int * 255 + h) * 63 + s as int - 1;
    ChsHeadByte(h);
    ChsBounds(cyl, h, s);
    Wrapped(b);
    assert ChsBlock(cyl, h, s) == b;
    hide ChsBlock;
    assert r[REG_CYLINDER_HIGH] as int * 0x100 + r[REG_CYLINDER_LOW] as int == cyl;
  }

  lemma Wrapped(b: int)
    requires -1 <= b < 0x1_0000_0000
    ensures b % 0x1_0000_0000 == if b < 0 then 0xFFFF_FFFF else b
  {}

  lemma ChsHeadByte(h: nat)
    requires h <= 15
    ensures (0xA0 + h) / 0x10 % 2 == 0 && (0xA0 + h) / 0x40 % 2 == 0 && (0xA0 + h) % 0x10 == h
  {}

  lemma ChsBounds(cyl: word, h: nat, s: byte)
    requires h <= 15
    ensures -1 <= (cyl as int * 255 + h) * 63 + s as int - 1 < 0x1_0000_0000
    ensures cyl / 0x100 * 0x100 + cyl % 0x100 == cyl
  {}

  lemma HeadSelectsMaster(head: byte)
    requires 0xE0 <= head < 0xF0
    ensures head / 0x10 % 2 == 0
  {}

  lemma TaskFileAddress(r: Registers, t: TaskFile)
    requires r[REG_DEVICE_HEAD] == t.head && r[REG_SECTOR_NUMBER] == t.low
    requires r[REG_CYLINDER_LOW] == t.mid && r[REG_CYLINDER_HIGH] == t.high && t.head / 0x40 % 2 == 1
    ensures LbaMode(r) && ReadBlock(r) == Lba28(r)
    ensures Lba28(r) == (t.head as int % 0x10) * 0x100_0000 + t.high as int * 0x1_0000
                        + t.mid as int * 0x100 + t.low as int
  {}

  lemma AddressBytes(lba: nat)
    requires lba < 0x1000_0000
    ensures var head := 0xE0 + lba / 0x100_0000;
            && head < 0xF0 && head / 0x40 % 2 == 1 && head % 0x10 == lba / 0x100_0000
            && lba / 0x100_0000 * 0x100_0000 + lba / 0x1_0000 % 0x100 * 0x1_0000
               + lba / 0x100 % 0x100 * 0x100 + lba % 0x100 == lba
  {
    var q, r := lba / 0x100, lba / 0x1_0000;
    assert q / 0x100 == r && r / 0x100 == lba / 0x100_0000;
    assert lba == 0x100 * q + lba % 0x100 && q == 0x100 * r + q % 0x100 && r == 0x100 * (r / 0x100) + r % 0x100;
    HeadOfNibble(r / 0x100);
  }

  lemma HeadOfNibble(n: nat)
    requires n < 0x10
    ensures (0xE0 + n) / 0x40 % 2 == 1 && (0xE0 + n) % 0x10 == n
  {}

  lemma RunOfTwo(c: Controller, a: Access, b: Access)
    requires Inv(c) && Legal(c, a) && Legal(Step(c, a), b)
    ensures LegalRun(c, [a, b]) && Run(c, [a, b]) == Step(Step(c, a), b)
  {
    hide Step, Legal, Inv;
    assert [a, b][1..] == [b] && [b][1..] == [];
    assert Run(Step(c, a), [b]) == Step(Step(c, a), b);
  }

  /** The fixed 255x63 geometry orders blocks by cylinder, head, sector and never leaves 32 bits. */
  lemma ChsIsMonotone(c1: word, h1: nat, s1: nat, c2: word, h2: nat, s2: nat)
    requires h1 <= 15 && h2 <= 15 && 1 <= s1 <= 63 && 1 <= s2 <= 63
    ensures 0 <= ChsBlock(c1, h1, s1) < 0x1_0000_0000
    ensures ChsBlock(c1, h1, s1) < ChsBlock(c2, h2, s2) <==>
            c1 < c2 || (c1 == c2 && (h1 < h2 || (h1 == h2 && s1 < s2)))
  {}

  lemma ChsHead(c: nat, h: nat, s: nat)
    requires h < 255 && 1 <= s <= 63
    ensures ChsBlock(c, h, s) / 63 % 255 == h
  {
    assert ChsBlock(c, h, s) / 63 == c * 255 + h;
  }

  /**
   With four head bits the geometry has holes: a block has a cylinder/head/sector address exactly when
   its head number in the 255-head geometry is below 16.
   */
  lemma ChsReaches(b: nat)
    requires b < 0x1_0000 * 255 * 63
    ensures (exists c: word, h: nat, s: nat :: h <= 15 && 1 <= s <= 63 && ChsBlock(c, h, s) == b)
            <==> b / 63 % 255 < 16
  {
    if b / 63 % 255 < 16 {
      assert ChsBlock(b / 63 / 255, b / 63 % 255, b % 63 + 1) == b;
    } else {
      forall c: word, h: nat, s: nat | h <= 15 && 1 <= s <= 63
        ensures ChsBlock(c, h, s) != b
      {
        ChsHead(c, h, s);
      }
    }
  }
}
