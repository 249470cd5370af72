/**
 Polled transfers through the ports: a driver that reads the status port as often as it likes between
 the data words, with any accesses to other devices in between, sees data requested exactly as long as
 words are outstanding.
 */
module DiskPolling {
  import opened Bytes
  import opened Image
  import opened Io
  import opened MachineSpec
  import opened MachineRuns
  import opened DiskPorts
  import AtaSpec
  import AtaRuns

  // ----- reading -----

  /** A status poll, a data word, or something for another device. */
  predicate PollOrRead(e: Event) { e == In(0x1F7, 1) || e == In(0x1F0, 2) || !Route(e).ToAta? }

  function WordsIn(run: seq<Event>): nat {
    if |run| == 0 then 0 else (if run[0] == In(0x1F0, 2) then 1 else 0) + WordsIn(run[1..])
  }

  /** The bytes that came from the data port. */
  function DataBytes(m: Machine, run: seq<Event>): seq<byte>
    requires Inv(m) && LegalRun(m, run)
    decreases |run|
  {
    hide Inv, Legal, Step, Delivered;
    if |run| == 0 then []
    else if run[0] == In(0x1F0, 2) then Delivered(m, 0x1F0, 2) + DataBytes(Step(m, run[0]), run[1..])
    else DataBytes(Step(m, run[0]), run[1..])
  }

  /** The master is selected and has `todo` to hand out; the status register says whether that is anything. */
  predicate Serving(c: AtaSpec.Controller, todo: seq<byte>) {
    && !c.slaveSelected && |todo| % 2 == 0
    && c.master.reg[8] == (if |todo| > 0 then 0x48 else 0x40)
    && c.master.xfer == if |todo| > 0 then AtaSpec.DataIn(todo) else AtaSpec.Idle
  }

  lemma ReadAWord(m: Machine, todo: seq<byte>)
    requires Inv(m) && Serving(m.ata, todo)
    ensures Legal(m, In(0x1F0, 2)) <==> |todo| > 0
    ensures |todo| > 0 ==>
              var m' := Step(m, In(0x1F0, 2));
              && |todo| >= 2 && Delivered(m, 0x1F0, 2) == todo[..2] && Serving(m'.ata, todo[2..])
              && m'.ata.irq14 == m.ata.irq14 && m'.ata.master.image == m.ata.master.image
  {
    DiskRoute(0x1F0, 0, 0);
    hide Route;
    if |todo| > 0 { WordStep(m.ata, todo); }
    hide AtaSpec.Step;
  }

  lemma WordStep(c: AtaSpec.Controller, todo: seq<byte>)
    requires AtaSpec.Inv(c) && Serving(c, todo) && |todo| > 0
    ensures AtaSpec.Legal(c, AtaSpec.InW) && |todo| >= 2
    ensures var d := AtaSpec.Step(c, AtaSpec.InW);
            Serving(d, todo[2..]) && d.irq14 == c.irq14 && d.master.image == c.master.image
  {}

  lemma Poll(m: Machine)
    requires Inv(m) && !m.ata.slaveSelected
    ensures Legal(m, In(0x1F7, 1)) && Delivered(m, 0x1F7, 1) == [m.ata.master.reg[8]]
    ensures Step(m, In(0x1F7, 1)).ata == m.ata.(irq14 := false)
  {
    hide Step, Legal, Delivered;
    MasterReads(m, 0x1F7);
  }

  lemma {:induction false} ServingRun(m: Machine, run: seq<Event>, todo: seq<byte>)
    requires Inv(m) && LegalRun(m, run) && Serving(m.ata, todo)
    requires forall e :: e in run ==> PollOrRead(e)
    ensures var k, t := WordsIn(run), Run(m, run);
            && 2 * k <= |todo| && DataBytes(m, run) == todo[..2 * k] && Serving(t.ata, todo[2 * k..])
            && t.ata.master.image == m.ata.master.image
            && (t.ata.irq14 <==> m.ata.irq14 && In(0x1F7, 1) !in run)
    decreases |run|
  {
    hide Step, Legal, Inv, Delivered, Serving, Route;
    if |run| == 0 {
      assert todo[0..] == todo;
    } else {
      var e, rest, m1 := run[0], run[1..], Step(m, run[0]);
      assert e in run && run == [e] + rest;
      if e == In(0x1F0, 2) {
        ReadAWord(m, todo);
        ServingRun(m1, rest, todo[2..]);
        Shifted(todo, WordsIn(rest));
      } else if e == In(0x1F7, 1) {
        ServingSelected(m.ata, todo);
        Poll(m);
        PollKeepsServing(m.ata, todo);
        ServingRun(m1, rest, todo);
      } else {
        ElsewhereKeepsDisk(m, e);
        ServingRun(m1, rest, todo);
      }
    }
  }

  lemma ServingSelected(c: AtaSpec.Controller, todo: seq<byte>)
    requires Serving(c, todo)
    ensures !c.slaveSelected && c.master.reg[8] == if |todo| > 0 then 0x48 else 0x40
  {}

  lemma PollKeepsServing(c: AtaSpec.Controller, todo: seq<byte>)
    requires Serving(c, todo)
    ensures Serving(c.(irq14 := false), todo)
  {}

  lemma Shifted(s: seq<byte>, k: nat)
    requires 2 + 2 * k <= |s|
    ensures s[..2] + s[2..][..2 * k] == s[..2 * (k + 1)] && s[2..][2 * k..] == s[2 * (k + 1)..]
  {}

  /** The setup of a read of `n` sectors at any address. */
  lemma AfterReadCommand(m: Machine, t: AtaRuns.TaskFile, a: AtaSpec.Controller)
    requires Inv(m) && AtaSpec.LegalRun(m.ata, AtaRuns.Address(t)) && a == AtaSpec.Run(m.ata, AtaRuns.Address(t))
    requires !a.slaveSelected && a.master.image == m.ata.master.image
    ensures var setup := Command(t.head, t.count, t.low, t.mid, t.high, 0x20);
            var block, n := AtaSpec.ReadBlock(a.master.reg), AtaSpec.ReadCount(a.master.reg);
            && LegalRun(m, setup)
            && var m1 := Run(m, setup);
               && m1 == m.(ata := m1.ata) && m1.ata.master.image == m.ata.master.image && m1.ata.irq14
               && Serving(m1.ata, Window(m.ata.master.image, 512 * block, 512 * n))
  {
    ReadStarts(a);
    hide AtaSpec.Inv, AtaSpec.LegalRun, AtaSpec.Run, AtaSpec.DataRead, AtaSpec.ReadBlock, AtaSpec.ReadCount;
    hide AtaRuns.AfterCommand, Setup, Window, Serving, LegalRun, Run, Received;
    AfterSetup(m.ata, t, 0x20);
    LiftRun(m, Setup(t, 0x20));
    SetupIsCommand(t, 0x20);
  }

  lemma ReadStarts(c: AtaSpec.Controller)
    requires AtaSpec.Inv(c) && !c.slaveSelected
    ensures var d := AtaRuns.AfterCommand(c, 0x20);
            var block, n := AtaSpec.ReadBlock(c.master.reg), AtaSpec.ReadCount(c.master.reg);
            && Serving(d, Window(c.master.image, 512 * block, 512 * n))
            && d.master.image == c.master.image && d.irq14
  {
    AtaRuns.ReadCommandLoads(c);
    CommandStep(c, 0x20);
    hide AtaSpec.ReadBlock;
    assert 512 * AtaSpec.ReadCount(c.master.reg) % 2 == 0;
    hide Window;
  }

  /**
   A polled READ SECTORS, from any machine state: whenever k words have been read, they are the first 2k
   bytes of the sectors, the status port reads 0x48 while words are outstanding and 0x40 afterwards, the
   data port may be read exactly while it reads 0x48, and the interrupt line is up until the first poll.
   */
  lemma PolledRead(m: Machine, lba: nat, n: nat, run: seq<Event>)
    requires Inv(m) && lba < 0x1000_0000 && 1 <= n <= 256
    requires forall e :: e in run ==> PollOrRead(e)
    ensures LegalRun(m, DriverRead(lba, n, []))
    ensures var m1 := Run(m, DriverRead(lba, n, []));
            LegalRun(m1, run) ==>
            var k, t := WordsIn(run), Run(m1, run);
            && k <= 256 * n && DataBytes(m1, run) == Window(m.ata.master.image, 512 * lba, 512 * n)[..2 * k]
            && Legal(t, In(0x1F7, 1)) && Delivered(t, 0x1F7, 1) == [if k < 256 * n then 0x48 else 0x40]
            && (Legal(t, In(0x1F0, 2)) <==> k < 256 * n)
            && (t.ata.irq14 <==> In(0x1F7, 1) !in run)
            && t.ata.master.image == m.ata.master.image
  {
    hide AtaSpec.Inv, AtaSpec.LegalRun, AtaSpec.Run, AtaSpec.ReadBlock, LegalRun, Run, Legal, Delivered;
    hide Serving, PollOrRead, DataBytes;
    var t := AtaRuns.LbaFile(lba, n % 256);
    AtaRuns.AddressDecodes(m.ata, lba, n % 256);
    var a := AtaSpec.Run(m.ata, AtaRuns.Address(t));
    assert AtaSpec.ReadCount(a.master.reg) == n;
    AfterReadCommand(m, t, a);
    NoBatches(lba, n);
    hide DriverRead, Command;
    var m1 := Run(m, DriverRead(lba, n, []));
    if LegalRun(m1, run) { ReadIsPolled(m1, Window(m.ata.master.image, 512 * lba, 512 * n), n, run); }
  }

  lemma NoBatches(lba: nat, n: nat)
    requires lba < 0x1000_0000 && 1 <= n <= 256
    ensures var t := AtaRuns.LbaFile(lba, n % 256);
            DriverRead(lba, n, []) == Command(t.head, t.count, t.low, t.mid, t.high, 0x20)
  {
    assert Command(0, 0, 0, 0, 0, 0x20) + [] == Command(0, 0, 0, 0, 0, 0x20);
  }

  lemma ReadIsPolled(m: Machine, all: seq<byte>, n: nat, run: seq<Event>)
    requires Inv(m) && LegalRun(m, run) && Serving(m.ata, all) && |all| == 512 * n && m.ata.irq14
    requires forall e :: e in run ==> PollOrRead(e)
    ensures var k, t := WordsIn(run), Run(m, run);
            && k <= 256 * n && DataBytes(m, run) == all[..2 * k]
            && Legal(t, In(0x1F7, 1)) && Delivered(t, 0x1F7, 1) == [if k < 256 * n then 0x48 else 0x40]
            && (Legal(t, In(0x1F0, 2)) <==> k < 256 * n)
            && (t.ata.irq14 <==> In(0x1F7, 1) !in run)
            && t.ata.master.image == m.ata.master.image
  {
    hide LegalRun, Run, Legal, Delivered, Serving, PollOrRead, Inv;
    ServingRun(m, run, all);
    var k, t := WordsIn(run), Run(m, run);
    ReadAWord(t, all[2 * k..]);
    ServingSelected(t.ata, all[2 * k..]);
    Poll(t);
  }

  // ----- writing -----

  predicate PollOrWrite(e: Event) {
    || e == In(0x1F7, 1) || !Route(e).ToAta?
    || (e.Out? && e.port == 0x1F0 && e.size == 2 && e.val < 0x1_0000)
  }

  predicate IsDataOut(e: Event) { e.Out? && e.port == 0x1F0 && e.size == 2 && e.val < 0x1_0000 }

  /** The bytes sent to the data port, low byte of each word first. */
  function SentBytes(run: seq<Event>): seq<byte> {
    if |run| == 0 then []
    else if IsDataOut(run[0]) then [run[0].val % 0x100, run[0].val / 0x100] + SentBytes(run[1..])
    else SentBytes(run[1..])
  }

  /** The master is selected and has taken `got` of `need` bytes for a block. */
  predicate Taking(c: AtaSpec.Controller, lba: nat, need: nat, got: seq<byte>) {
    && !c.slaveSelected && |got| % 2 == 0 && need % 2 == 0 && |got| < need
    && c.master.reg[8] == 0x48 && c.master.xfer == AtaSpec.DataOut(lba, need, got)
  }

  /** All of them taken. */
  predicate Taken(c: AtaSpec.Controller) { !c.slaveSelected && c.master.reg[8] == 0x40 && c.master.xfer.Idle? }

  lemma WriteAWord(m: Machine, w: word, lba: nat, need: nat, got: seq<byte>)
    requires Inv(m) && Taking(m.ata, lba, need, got)
    ensures Legal(m, Out(0x1F0, 2, w))
    ensures var all, m' := got + [w % 0x100, w / 0x100], Step(m, Out(0x1F0, 2, w));
            if |all| < need then
              Taking(m'.ata, lba, need, all) && m'.ata.irq14 == m.ata.irq14 && m'.ata.master.image == m.ata.master.image
            else
              && |all| == need && Taken(m'.ata) && m'.ata.irq14
              && m'.ata.master.image == FileWrite(m.ata.master.image, 512 * lba, all)
  {
    DiskRoute(0x1F0, 0, w);
    hide Route;
    TakeStep(m.ata, w, lba, need, got);
    hide AtaSpec.Step;
  }

  lemma TakeStep(c: AtaSpec.Controller, w: word, lba: nat, need: nat, got: seq<byte>)
    requires AtaSpec.Inv(c) && Taking(c, lba, need, got)
    ensures AtaSpec.Legal(c, AtaSpec.OutW(w))
    ensures var all, d := got + [w % 0x100, w / 0x100], AtaSpec.Step(c, AtaSpec.OutW(w));
            if |all| < need then Taking(d, lba, need, all) && d.irq14 == c.irq14 && d.master.image == c.master.image
            else |all| == need && Taken(d) && d.irq14 && d.master.image == FileWrite(c.master.image, 512 * lba, all)
  {
    WordLayout(w);
    hide ToLE, FileWrite;
  }

  /** After the last word the data port takes no more. */
  lemma NoMoreWords(m: Machine, e: Event)
    requires Inv(m) && Taken(m.ata) && IsDataOut(e)
    ensures !Legal(m, e)
  {
    DiskRoute(0x1F0, 0, e.val);
    hide Route;
  }

  lemma {:induction false} TakenRun(m: Machine, run: seq<Event>)
    requires Inv(m) && LegalRun(m, run) && Taken(m.ata)
    requires forall e :: e in run ==> PollOrWrite(e)
    ensures SentBytes(run) == [] && Taken(Run(m, run).ata) && Run(m, run).ata.master.image == m.ata.master.image
    decreases |run|
  {
    if |run| != 0 {
      hide Step, Legal, Inv, Route;
      var e := run[0];
      assert e in run;
      if IsDataOut(e) {
        NoMoreWords(m, e);
      } else if e == In(0x1F7, 1) {
        Poll(m);
        TakenRun(Step(m, e), run[1..]);
      } else {
        ElsewhereKeepsDisk(m, e);
        TakenRun(Step(m, e), run[1..]);
      }
    }
  }

  lemma {:induction false} TakingRun(m: Machine, run: seq<Event>, lba: nat, need: nat, got: seq<byte>)
    requires Inv(m) && LegalRun(m, run) && Taking(m.ata, lba, need, got)
    requires forall e :: e in run ==> PollOrWrite(e)
    ensures var all, t := got + SentBytes(run), Run(m, run);
            if |all| < need then
              && Taking(t.ata, lba, need, all) && t.ata.master.image == m.ata.master.image
              && (!m.ata.irq14 ==> !t.ata.irq14)
            else
              && |all| == need && Taken(t.ata)
              && t.ata.master.image == FileWrite(m.ata.master.image, 512 * lba, all)
              && (IsDataOut(run[|run| - 1]) ==> t.ata.irq14)
    decreases |run|
  {
    hide Step, Legal, Inv, Route, Taking, Taken, FileWrite, IsDataOut;
    if |run| == 0 {
      assert got + [] == got;
      TakingIsShort(m.ata, lba, need, got);
    } else {
      var e, rest, m1 := run[0], run[1..], Step(m, run[0]);
      assert e in run;
      if IsDataOut(e) {
        var w := DataWord(e);
        var all := got + [w % 0x100, w / 0x100];
        WriteAWord(m, w, lba, need, got);
        AtaRuns.Regroup(got, [w % 0x100, w / 0x100], SentBytes(rest), SentBytes(run));
        if |all| < need {
          TakingRun(m1, rest, lba, need, all);
          LastOf(run);
        } else {
          TakenRun(m1, rest);
          assert all + [] == all;
          LastWord(m1, rest, run);
        }
      } else {
        TakingSelected(m.ata, lba, need, got);
        if e == In(0x1F7, 1) {
          Poll(m);
          PollKeepsTaking(m.ata, lba, need, got);
        } else {
          NotData(e);
          ElsewhereKeepsDisk(m, e);
        }
        TakingRun(m1, rest, lba, need, got);
        if |rest| != 0 { LastOf(run); }
      }
    }
  }

  function DataWord(e: Event): (w: word)
    requires IsDataOut(e)
    ensures e == Out(0x1F0, 2, w)
  {
    e.val
  }

  lemma NotData(e: Event)
    requires PollOrWrite(e) && e != In(0x1F7, 1) && !IsDataOut(e)
    ensures !Route(e).ToAta?
  {
    hide Route;
  }

  lemma LastOf(run: seq<Event>)
    requires |run| > 0
    ensures |run| > 1 ==> run[1..][|run[1..]| - 1] == run[|run| - 1]
  {}

  /** A last data word after the transfer is over can only be the first of the run. */
  lemma LastWord(m1: Machine, rest: seq<Event>, run: seq<Event>)
    requires Inv(m1) && LegalRun(m1, rest) && |run| > 0 && rest == run[1..] && SentBytes(rest) == []
    ensures IsDataOut(run[|run| - 1]) ==> rest == []
  {
    if |rest| > 0 && IsDataOut(run[|run| - 1]) {
      SentLast(rest);
    }
  }

  lemma {:induction false} SentLast(run: seq<Event>)
    requires |run| > 0 && IsDataOut(run[|run| - 1])
    ensures SentBytes(run) != []
  {
    if |run| > 1 { SentLast(run[1..]); }
  }

  lemma TakingIsShort(c: AtaSpec.Controller, lba: nat, need: nat, got: seq<byte>)
    requires Taking(c, lba, need, got)
    ensures |got| < need
  {}

  lemma TakingSelected(c: AtaSpec.Controller, lba: nat, need: nat, got: seq<byte>)
    requires Taking(c, lba, need, got)
    ensures !c.slaveSelected && c.master.reg[8] == 0x48
  {}

  lemma PollKeepsTaking(c: AtaSpec.Controller, lba: nat, need: nat, got: seq<byte>)
    requires Taking(c, lba, need, got)
    ensures Taking(c.(irq14 := false), lba, need, got)
  {}

  /** The setup of a write of `n` sectors. */
  lemma AfterWriteCommand(m: Machine, lba: nat, n: nat)
    requires Inv(m) && lba < 0x1000_0000 && 1 <= n <= 255
    ensures var setup := DriverWrite(lba, n, []);
            && LegalRun(m, setup)
            && var m1 := Run(m, setup);
               && m1 == m.(ata := m1.ata) && m1.ata.master.image == m.ata.master.image && !m1.ata.irq14
               && Taking(m1.ata, lba, 512 * n, [])
  {
    hide AtaSpec.Inv, AtaSpec.LegalRun, AtaSpec.Run, AtaSpec.DataRead, AtaSpec.Lba28, AtaSpec.LbaMode;
    hide Setup, Taking, LegalRun, Run, Received;
    var t := AtaRuns.LbaFile(lba, n);
    AtaRuns.AddressDecodes(m.ata, lba, n);
    var a := AtaSpec.Run(m.ata, AtaRuns.Address(t));
    WriteStarts(a, lba, n);
    hide AtaRuns.AfterCommand;
    AfterSetup(m.ata, t, 0x30);
    LiftRun(m, Setup(t, 0x30));
    SetupIsCommand(t, 0x30);
    var c := Command(t.head, t.count, t.low, t.mid, t.high, 0x30);
    assert c + RepOutBatches([]) == c;
  }

  lemma WriteStarts(c: AtaSpec.Controller, lba: nat, n: nat)
    requires AtaSpec.Inv(c) && !c.slaveSelected && 1 <= n <= 255
    requires AtaSpec.LbaMode(c.master.reg) && AtaSpec.Lba28(c.master.reg) == lba && c.master.reg[3] == n
    ensures AtaSpec.Supported(c.master, 0x30)
    ensures var d := AtaRuns.AfterCommand(c, 0x30);
            Taking(d, lba, 512 * n, []) && d.master.image == c.master.image && !d.irq14
  {
    AtaRuns.WriteCommandStarts(c);
    CommandStep(c, 0x30);
    hide AtaSpec.Lba28;
  }

  /**
   A polled WRITE SECTORS, from any machine state: the image is untouched until the last word and then
   holds the bytes sent; the status port reads 0x48 until then and 0x40 afterwards; the interrupt line
   stays down until the last word raises it.
   */
  lemma PolledWrite(m: Machine, lba: nat, n: nat, run: seq<Event>)
    requires Inv(m) && lba < 0x1000_0000 && 1 <= n <= 255
    requires forall e :: e in run ==> PollOrWrite(e)
    ensures LegalRun(m, DriverWrite(lba, n, []))
    ensures var m1 := Run(m, DriverWrite(lba, n, []));
            LegalRun(m1, run) ==>
            var data, t := SentBytes(run), Run(m1, run);
            && |data| <= 512 * n
            && t.ata.master.image == (if |data| < 512 * n then m.ata.master.image
                                      else FileWrite(m.ata.master.image, 512 * lba, data))
            && Legal(t, In(0x1F7, 1)) && Delivered(t, 0x1F7, 1) == [if |data| < 512 * n then 0x48 else 0x40]
            && (t.ata.irq14 ==> |data| == 512 * n)
            && (|data| == 512 * n && IsDataOut(run[|run| - 1]) ==> t.ata.irq14)
  {
    hide Inv, LegalRun, Run, Legal, Delivered, Taking, Taken, PollOrWrite, IsDataOut, DriverWrite, FileWrite;
    AfterWriteCommand(m, lba, n);
    var m1 := Run(m, DriverWrite(lba, n, []));
    if LegalRun(m1, run) {
      var data, t := SentBytes(run), Run(m1, run);
      TakingRun(m1, run, lba, 512 * n, []);
      assert [] + data == data;
      if |data| < 512 * n { TakingSelected(t.ata, lba, 512 * n, data); } else { TakenSelected(t.ata); }
      Poll(t);
    }
  }

  lemma TakenSelected(c: AtaSpec.Controller)
    requires Taken(c)
    ensures !c.slaveSelected && c.master.reg[8] == 0x40
  {}

  // ----- identification -----

  /** IDENTIFY DEVICE through the ports: 256 words in any batching are the identify block, from any state. */
  lemma IdentifyThroughPorts(m: Machine, ks: seq<nat>)
    requires Inv(m) && Sum(ks) == 256
    ensures var run := [Out(0x1F6, 1, 0xA0), Out(0x1F7, 1, 0xEC)] + RepInBatches(ks);
            && LegalRun(m, run) && Received(m, run) == m.ata.master.identify
            && var t := Run(m, run);
               && t == m.(ata := t.ata) && t.ata.master.image == m.ata.master.image
               && Legal(t, In(0x1F7, 1)) && Delivered(t, 0x1F7, 1) == [0x40]
  {
    IdentifyIsLifted();
    hide AtaSpec.Inv, AtaSpec.LegalRun, AtaSpec.Run, AtaSpec.DataRead;
    hide LegalRun, Run, Received, DiskPort, Legal, Delivered, Route;
    var setup: seq<AtaSpec.Access> := [AtaSpec.OutB(6, 0xA0), AtaSpec.OutB(7, 0xEC)];
    var words: seq<AtaSpec.Access> := seq(256, i => AtaSpec.InW);
    IdentifyStarts(m.ata);
    var c1 := AtaSpec.Run(m.ata, setup);
    WordReadsFinish(c1, 256);
    AfterWords(c1, 256);
    BatchesAreReads(ks);
    LiftTwo(m, setup, words);
    assert [] + m.ata.master.identify == m.ata.master.identify;
    Poll(m.(ata := AtaSpec.Run(c1, words)));
  }

  lemma IdentifyIsLifted()
    ensures LiftAll([AtaSpec.OutB(6, 0xA0), AtaSpec.OutB(7, 0xEC)]) == [Out(0x1F6, 1, 0xA0), Out(0x1F7, 1, 0xEC)]
    ensures LiftAll(seq(256, i => AtaSpec.InW)) == RepIn(0x1F0, 2, 256)
  {
    assert DiskPort(0) == 0x1F0;
  }

  lemma IdentifyStarts(c: AtaSpec.Controller)
    requires AtaSpec.Inv(c)
    ensures var setup := [AtaSpec.OutB(6, 0xA0), AtaSpec.OutB(7, 0xEC)];
            && AtaSpec.LegalRun(c, setup) && AtaSpec.DataRead(c, setup) == []
            && var d := AtaSpec.Run(c, setup);
               && !d.slaveSelected && d.master.image == c.master.image
               && d.master.xfer == AtaSpec.DataIn(c.master.identify)
  {
    var a, b := AtaSpec.OutB(6, 0xA0), AtaSpec.OutB(7, 0xEC);
    var c1 := AtaSpec.Step(c, a);
    assert !c1.slaveSelected && c1.master.identify == c.master.identify && c1.master.image == c.master.image;
    var d := AtaSpec.Step(c1, b);
    assert !d.slaveSelected && d.master.image == c.master.image && d.master.xfer == AtaSpec.DataIn(c.master.identify);
    hide AtaSpec.Step, AtaSpec.Legal, AtaSpec.Inv;
    AtaRuns.RunOfTwo(c, a, b);
    AtaRuns.NoDataRead(c, [a, b]);
  }

  /** After the last word: idle, ready, the master still selected. */
  lemma {:induction false} AfterWords(c: AtaSpec.Controller, k: nat)
    requires AtaSpec.Inv(c) && !c.slaveSelected && c.master.xfer.DataIn? && 2 * k == |c.master.xfer.todo|
    requires AtaSpec.LegalRun(c, seq(k, i => AtaSpec.InW))
    ensures var d := AtaSpec.Run(c, seq(k, i => AtaSpec.InW)); !d.slaveSelected && d.master.reg[8] == 0x40
    decreases k
  {
    var run: seq<AtaSpec.Access> := seq(k, i => AtaSpec.InW);
    assert run[1..] == seq(k - 1, i => AtaSpec.InW);
    if k == 1 {
      assert AtaSpec.Run(c, run) == AtaSpec.Run(AtaSpec.Step(c, AtaSpec.InW), []);
    } else {
      AfterWords(AtaSpec.Step(c, AtaSpec.InW), k - 1);
    }
  }
}
