/**
 The keyboard controller.  `KeyboardSpec` sees it as a queue of bytes waiting for the guest and at
 most one command waiting for its parameter on each side; class `Keyboard` has the real buffers.
 The viewer thread's `Inject` interleaves with guest accesses as one atomic step.
 */
module KeyboardSpec {
  import opened Bytes
  import opened Io

  const DATA := 0
  const COMMAND_STATUS := 4

  /** `ctrl` and `key` hold the controller or keyboard command that waits for its parameter. */
  datatype Kbd = Kbd(commandByte: byte, queue: seq<byte>, obf: bool, ctrl: Option<byte>, key: Option<byte>, irq1: bool)

  datatype Event = InB(off: int) | OutB(off: int, val: byte) | Inject(code: byte, pressed: bool)

  const Initial := Kbd(0, [0], false, None, None, false)

  predicate TakesParameter(cmd: byte) { cmd in {0x20, 0x60, 0xD1, 0xD3, 0xD4} }

  predicate Legal(k: Kbd, e: Event) {
    match e
    case InB(off) => off == DATA || off == COMMAND_STATUS
    case OutB(off, v) =>
      || (off == COMMAND_STATUS && (TakesParameter(v) || v in {0xA9, 0xAA, 0xAB, 0xAD, 0xAE, 0xFF}))
      || (off == DATA && (if k.ctrl.Some? then k.ctrl.value != 0x20
                          else k.key.Some? || v in {0x05, 0xED, 0xF0, 0xF2, 0xF4, 0xF5, 0xFF}))
    case Inject(_, _) => true
  }

  function Answer(k: Kbd, q: seq<byte>): Kbd { k.(queue := q, obf := true) }

  /** A key release is the scan code with the top bit set. */
  function ScanCode(code: byte, pressed: bool): byte {
    if pressed || code >= 0x80 then code else code + 0x80
  }

  function Command(k: Kbd, v: byte): Kbd {
    if v == 0x20 then Answer(k, [k.commandByte]).(ctrl := Some(v))
    else if TakesParameter(v) then k.(ctrl := Some(v))
    else if v == 0xA9 then Answer(k, [0x01])
    else if v == 0xAA then Answer(k, [0x55])
    else if v == 0xAB then Answer(k, [0x00])
    else k
  }

  function Data(k: Kbd, v: byte): Kbd {
    if k.ctrl.Some? then
      k.(ctrl := None, commandByte := if k.ctrl.value == 0x60 then v else k.commandByte)
    else if k.key.Some? then Answer(k, [0xFA]).(key := None)
    else if v == 0x05 then k
    else if v == 0xED then k.(key := Some(v))
    else if v == 0xF0 then Answer(k, [0xFA]).(key := Some(v))
    else if v == 0xFF then Answer(k, [0xFA, 0xAA])
    else Answer(k, [0xFA])
  }

  function ReadPort(k: Kbd, off: int): byte {
    if off == COMMAND_STATUS then (if k.obf then 1 else 0)
    else if k.queue == [] then 0 else k.queue[0]
  }

  function AfterReadPort(k: Kbd, off: int): Kbd {
    if off == COMMAND_STATUS || k.queue == [] then k
    else
      var more := |k.queue| > 1;
      k.(queue := k.queue[1..], obf := k.obf && more, irq1 := more)
  }

  /** A full output buffer has something in it, an interrupt means a full buffer, at most two bytes wait. */
  predicate Inv(k: Kbd) {
    && |k.queue| <= 2
    && (k.obf ==> k.queue != [])
    && (|k.queue| == 2 ==> k.obf)
    && (k.irq1 ==> k.obf)
    && (k.ctrl.Some? ==> TakesParameter(k.ctrl.value))
    && (k.key.Some? ==> k.key.value in {0xED, 0xF0})
  }

  function Step(k: Kbd, e: Event): (k': Kbd)
    requires Inv(k) && Legal(k, e)
    ensures Inv(k')
  {
    match e
    case InB(off) => AfterReadPort(k, off)
    case OutB(off, v) => if off == COMMAND_STATUS then Command(k, v) else Data(k, v)
    case Inject(code, pressed) => Answer(k, [ScanCode(code, pressed)]).(irq1 := true)
  }

  predicate LegalRun(k: Kbd, run: seq<Event>)
    requires Inv(k)
    decreases |run|
  {
    |run| == 0 || (Legal(k, run[0]) && LegalRun(Step(k, run[0]), run[1..]))
  }

  function Run(k: Kbd, run: seq<Event>): (k': Kbd)
    requires Inv(k) && LegalRun(k, run)
    ensures Inv(k')
    decreases |run|
  {
    if |run| == 0 then k else Run(Step(k, run[0]), run[1..])
  }

  lemma {:induction false} RunSnoc(k: Kbd, run: seq<Event>, e: Event)
    requires Inv(k) && LegalRun(k, run + [e])
    ensures LegalRun(k, run) && Legal(Run(k, run), e) && Run(k, run + [e]) == Step(Run(k, run), e)
    decreases |run|
  {
    hide Step, Legal, Inv;
    assert run + [e] != [];
    if |run| == 0 {
      assert (run + [e])[1..] == [] && (run + [e])[0] == e;
      assert Run(Step(k, e), []) == Step(k, e);
    } else {
      assert (run + [e])[1..] == run[1..] + [e];
      RunSnoc(Step(k, run[0]), run[1..], e);
    }
  }

  // ----- who gets a data byte, told from the history alone -----

  predicate ParamCommand(e: Event) { e.OutB? && e.off == COMMAND_STATUS && TakesParameter(e.val) }
  predicate DataByte(e: Event) { e.OutB? && e.off == DATA }

  /** The command that a data byte after `h` would be a parameter of: the latest, with no data byte since. */
  function Awaiting(h: seq<Event>): Option<byte> {
    if |h| == 0 || DataByte(h[|h| - 1]) then None
    else if ParamCommand(h[|h| - 1]) then Some(h[|h| - 1].val)
    else Awaiting(h[..|h| - 1])
  }

  /** Event i is a parameter command with no data byte after it. */
  predicate Unanswered(h: seq<Event>, i: nat) {
    i < |h| && ParamCommand(h[i]) && forall j :: i < j < |h| ==> !DataByte(h[j])
  }

  lemma {:induction false} AwaitingHasCommand(h: seq<Event>) returns (i: nat)
    requires Awaiting(h).Some?
    ensures Unanswered(h, i) && Awaiting(h) == Some(h[i].val)
  {
    if ParamCommand(h[|h| - 1]) {
      i := |h| - 1;
    } else {
      i := AwaitingHasCommand(h[..|h| - 1]);
    }
  }

  lemma {:induction false} CommandIsAwaited(h: seq<Event>, i: nat)
    requires Unanswered(h, i)
    ensures Awaiting(h).Some?
  {
    if i < |h| - 1 {
      assert !DataByte(h[|h| - 1]);
      CommandIsAwaited(h[..|h| - 1], i);
    }
  }

  /** `Awaiting` spelled out: some parameter command with no data byte after it. */
  lemma AwaitingMeans(h: seq<Event>)
    ensures Awaiting(h).Some? <==> exists i: nat :: Unanswered(h, i)
  {
    hide Awaiting, Unanswered;
    if Awaiting(h).Some? {
      var i := AwaitingHasCommand(h);
    }
    if i: nat :| Unanswered(h, i) {
      CommandIsAwaited(h, i);
    }
  }

  /** The data bytes that are nobody's controller parameter: the stream the keyboard gets. */
  function KeyboardBytes(h: seq<Event>): seq<byte> {
    if |h| == 0 then []
    else
      var t, e := h[..|h| - 1], h[|h| - 1];
      if DataByte(e) && Awaiting(t) == None then KeyboardBytes(t) + [e.val] else KeyboardBytes(t)
  }

  /** The keyboard's own command awaiting a parameter: 0xED and 0xF0 take the byte after them. */
  function KeyAwaiting(s: seq<byte>): Option<byte> {
    if |s| == 0 then None
    else
      var p := KeyAwaiting(s[..|s| - 1]);
      if p == None && s[|s| - 1] in {0xED, 0xF0} then Some(s[|s| - 1]) else None
  }

  /** The value the guest last gave the command byte. */
  function WrittenCommandByte(h: seq<Event>): byte {
    if |h| == 0 then 0
    else
      var t, e := h[..|h| - 1], h[|h| - 1];
      if DataByte(e) && Awaiting(t) == Some(0x60) then e.val else WrittenCommandByte(t)
  }

  lemma StepRouting(k: Kbd, e: Event)
    requires Inv(k) && Legal(k, e)
    ensures var k' := Step(k, e);
            && k'.ctrl == (if DataByte(e) then None else if ParamCommand(e) then Some(e.val) else k.ctrl)
            && k'.commandByte == (if DataByte(e) && k.ctrl == Some(0x60) then e.val else k.commandByte)
            && k'.key == (if !DataByte(e) || k.ctrl.Some? then k.key
                          else if k.key == None && e.val in {0xED, 0xF0} then Some(e.val) else None)
  {}

  /**
   Routing is by history: in every interleaving of guest accesses and injected keys, a data byte is
   the parameter of the latest parameter command if none came since, else it belongs to the keyboard,
   whose bytes pair up by themselves; and the command byte is the last parameter given to 0x60.
   */
  lemma {:induction false} RoutingIsByHistory(h: seq<Event>)
    requires LegalRun(Initial, h)
    ensures var k := Run(Initial, h);
            && k.ctrl == Awaiting(h)
            && k.key == KeyAwaiting(KeyboardBytes(h))
            && k.commandByte == WrittenCommandByte(h)
    decreases |h|
  {
    if |h| != 0 {
      var t, e := h[..|h| - 1], h[|h| - 1];
      assert h == t + [e];
      RunSnoc(Initial, t, e);
      StepRouting(Run(Initial, t), e);
      hide Step, Legal, Inv, Run, LegalRun;
      RoutingIsByHistory(t);
      if DataByte(e) && Awaiting(t) == None {
        var s := KeyboardBytes(t) + [e.val];
        assert KeyboardBytes(h) == s && s[..|s| - 1] == KeyboardBytes(t);
      }
    }
  }

  // ----- reading the command byte back -----

  /** Command 0x60 with v, and later command 0x20: the next data read is v, from any state. */
  lemma CommandByteRoundTrip(k: Kbd, v: byte)
    requires Inv(k)
    ensures Legal(k, OutB(COMMAND_STATUS, 0x60))
    ensures var k1 := Step(k, OutB(COMMAND_STATUS, 0x60));
            Legal(k1, OutB(DATA, v)) &&
            var k2 := Step(k1, OutB(DATA, v));
            var k3 := Step(k2, OutB(COMMAND_STATUS, 0x20));
            k3.obf && ReadPort(k3, DATA) == v
  {}

  // ----- keys against answers -----

  /** What the viewer thread and a polling guest do while an answer waits. */
  predicate KeyOrPoll(e: Event) { e.Inject? || e == InB(COMMAND_STATUS) }

  /** The scan code of the last key of a run. */
  function LastKey(run: seq<Event>): Option<byte> {
    if |run| == 0 then None
    else
      var later := LastKey(run[1..]);
      if later == None && run[0].Inject? then
        Some(if run[0].pressed || run[0].code >= 0x80 then run[0].code else run[0].code + 0x80)
      else later
  }

  /** Whatever waits to be read is replaced by each key as it comes: only the last one is left, alone. */
  lemma {:induction false} KeysReplaceAnswers(k: Kbd, run: seq<Event>)
    requires Inv(k) && forall e :: e in run ==> KeyOrPoll(e)
    ensures LegalRun(k, run)
    ensures var k' := Run(k, run);
            && k' == k.(queue := k'.queue, obf := k'.obf, irq1 := k'.irq1)
            && k'.queue == (if LastKey(run).Some? then [LastKey(run).value] else k.queue)
            && k'.obf == (k.obf || LastKey(run).Some?) && k'.irq1 == (k.irq1 || LastKey(run).Some?)
    decreases |run|
  {
    if |run| != 0 {
      assert run[0] in run;
      KeysReplaceAnswers(Step(k, run[0]), run[1..]);
    }
  }

  /**
   Between command 0x20 and the read of its answer any keys may come: the byte read is the scan code
   of the last one, so the command byte arrives exactly if no key came or the last one looks like it.
   */
  lemma InjectedKeyReplacesAnswer(k: Kbd, run: seq<Event>)
    requires Inv(k) && forall e :: e in run ==> KeyOrPoll(e)
    ensures var k0 := Step(k, OutB(COMMAND_STATUS, 0x20));
            && LegalRun(k0, run)
            && var read := ReadPort(Run(k0, run), DATA);
               && (LastKey(run).Some? ==> read == LastKey(run).value)
               && (read == k.commandByte <==> LastKey(run) in {None, Some(k.commandByte)})
  {
    KeysReplaceAnswers(Step(k, OutB(COMMAND_STATUS, 0x20)), run);
  }

  /** A keyboard reset answers 0xFA and then 0xAA; only the second byte is announced by an interrupt. */
  lemma ResetAnswers(k: Kbd)
    requires Inv(k) && k.ctrl == None && k.key == None && !k.irq1
    ensures var k1 := Step(k, OutB(DATA, 0xFF));
            var k2 := Step(k1, InB(DATA));
            var k3 := Step(k2, InB(DATA));
            && ReadPort(k1, DATA) == 0xFA && ReadPort(k2, DATA) == 0xAA
            && !k1.irq1 && k2.irq1 && !k3.irq1
            && k1.obf && k2.obf && !k3.obf && k3.queue == []
  {}

  /**
   Reading the command byte leaves a parameter pending that nothing can consume: whatever else happens,
   no data byte can be written (the emulator aborts) until a parameter command other than 0x20 is sent.
   */
  lemma {:induction false} ReadingCommandByteBlocksData(k: Kbd, run: seq<Event>, v: byte, cmd: byte)
    requires Inv(k) && LegalRun(Step(k, OutB(COMMAND_STATUS, 0x20)), run) && TakesParameter(cmd)
    requires forall e :: e in run ==> !ParamCommand(e)
    ensures var k1 := Run(Step(k, OutB(COMMAND_STATUS, 0x20)), run);
            && !Legal(k1, OutB(DATA, v))
            && (Legal(Step(k1, OutB(COMMAND_STATUS, cmd)), OutB(DATA, v)) <==> cmd != 0x20)
  {
    PendingStays(Step(k, OutB(COMMAND_STATUS, 0x20)), run);
  }

  lemma {:induction false} PendingStays(k: Kbd, run: seq<Event>)
    requires Inv(k) && LegalRun(k, run) && k.ctrl == Some(0x20)
    requires forall e :: e in run ==> !ParamCommand(e)
    ensures Run(k, run).ctrl == Some(0x20)
    decreases |run|
  {
    if |run| != 0 {
      assert run[0] in run;
      PendingStays(Step(k, run[0]), run[1..]);
    }
  }
}

module I8042 {
  import opened Bytes
  import opened Io
  import opened KeyboardSpec

  class Keyboard {
    const buf_output: array<byte>
    const cmdparams: array<byte>
    const kbdparams: array<byte>
    var status: byte
    var command_byte: byte
    var ndx_output: int
    var cmdparams_left: int
    var cmdparams_cmd: byte
    var kbdparams_left: int
    var kbdparams_cmd: byte
    var irq1: bool
    ghost const Repr: set<object>

    ghost predicate Valid()
      reads this, Repr
      ensures Valid() ==>
                {this, buf_output, cmdparams, kbdparams} <= Repr && -1 <= ndx_output <= 1 && buf_output.Length == 8
    {
      && Repr == {this, buf_output, cmdparams, kbdparams}
      && buf_output.Length == 8 && cmdparams.Length == 8 && kbdparams.Length == 8
      && buf_output != cmdparams && buf_output != kbdparams && cmdparams != kbdparams
      && -1 <= ndx_output <= 1 && status in {0, 1}
      && cmdparams_left in {0, 1} && kbdparams_left in {0, 1}
      && KeyboardSpec.Inv(View())
    }

    /** The bytes still to be read: the buffer is emptied from the index down. */
    ghost function View(): Kbd
      requires buf_output.Length == 8 && -1 <= ndx_output <= 1 && {this, buf_output} <= Repr
      reads this, Repr
    {
      Kbd(command_byte,
          if ndx_output < 0 then [] else if ndx_output == 0 then [buf_output[0]] else [buf_output[1], buf_output[0]],
          status == 1,
          if cmdparams_left > 0 then Some(cmdparams_cmd) else None,
          if kbdparams_left > 0 then Some(kbdparams_cmd) else None,
          irq1)
    }

    constructor ()
      ensures Valid() && fresh(Repr)
      ensures View() == Initial
    {
      buf_output := new byte[8](i => 0);
      cmdparams := new byte[8](i => 0);
      kbdparams := new byte[8](i => 0);
      status, command_byte, ndx_output := 0, 0, 0;
      cmdparams_left, cmdparams_cmd, kbdparams_left, kbdparams_cmd := 0, 0, 0, 0;
      irq1 := false;
      Repr := {this, buf_output, cmdparams, kbdparams};
    }

    method Inject(code: byte, pressed: bool)
      requires Valid()
      modifies this, buf_output
      ensures Valid()
      ensures View() == Step(old(View()), KeyboardSpec.Inject(code, pressed))
    {
      if pressed {
        buf_output[0] := code;
        ndx_output := 0;
      } else {
        buf_output[0] := if code >= 0x80 then code else code + 0x80;
        ndx_output := 0;
      }
      status := 1;
      irq1 := true;
    }

    /** One byte in the output buffer, and OBF. */
    method Answer(v: byte)
      requires buf_output.Length == 8
      modifies `ndx_output, `status, buf_output
      ensures ndx_output == 0 && status == 1 && buf_output[0] == v
    {
      buf_output[0] := v;
      ndx_output := 0;
      status := 1;
    }

    method HandleCommand(cmd: byte)
      requires Valid() && Legal(View(), KeyboardSpec.OutB(COMMAND_STATUS, cmd))
      modifies this, buf_output
      ensures Valid()
      ensures View() == Step(old(View()), KeyboardSpec.OutB(COMMAND_STATUS, cmd))
    {
      hide ScanCode, ReadPort, AfterReadPort, Data;
      if cmd == 0x20 {
        // falls through to the case of 0x60
        Answer(command_byte);
        cmdparams_left, cmdparams_cmd := 1, cmd;
      } else if cmd == 0x60 {
        cmdparams_left, cmdparams_cmd := 1, cmd;
      } else if cmd == 0xA9 {
        Answer(0x01);
      } else if cmd == 0xAA {
        Answer(0x55);
      } else if cmd == 0xAB {
        Answer(0x00);
      } else if cmd in {0xD1, 0xD3, 0xD4} {
        cmdparams_left, cmdparams_cmd := 1, cmd;
      }
    }

    method HandleKeyboardCommand(cmd: byte)
      requires Valid() && cmdparams_left == 0 && kbdparams_left == 0
      requires Legal(View(), KeyboardSpec.OutB(DATA, cmd))
      modifies this, buf_output
      ensures Valid()
      ensures View() == Step(old(View()), KeyboardSpec.OutB(DATA, cmd))
    {
      if cmd == 0x05 {
      } else if cmd == 0xED {
        kbdparams_left, kbdparams_cmd := 1, cmd;
      } else if cmd == 0xF0 {
        kbdparams_left, kbdparams_cmd := 1, cmd;
        Answer(0xFA);
      } else if cmd == 0xFF {
        buf_output[0] := 0xAA;
        buf_output[1] := 0xFA;
        ndx_output := 1;
        status := 1;
      } else {
        Answer(0xFA);
      }
    }

    method OutB(off: int, val: byte)
      requires Valid() && Legal(View(), KeyboardSpec.OutB(off, val))
      modifies this, buf_output, cmdparams, kbdparams
      ensures Valid()
      ensures View() == Step(old(View()), KeyboardSpec.OutB(off, val))
    {
      if off == COMMAND_STATUS {
        HandleCommand(val);
      } else if cmdparams_left > 0 {
        cmdparams[cmdparams_left - 1] := val;
        cmdparams_left := cmdparams_left - 1;
        if cmdparams_cmd == 0x60 { command_byte := cmdparams[0]; }
      } else if kbdparams_left > 0 {
        kbdparams[kbdparams_left - 1] := val;
        kbdparams_left := kbdparams_left - 1;
        Answer(0xFA);
      } else {
        HandleKeyboardCommand(val);
      }
    }

    method InB(off: int) returns (val: byte)
      requires Valid() && Legal(View(), KeyboardSpec.InB(off))
      modifies this
      ensures Valid()
      ensures val == ReadPort(old(View()), off)
      ensures View() == Step(old(View()), KeyboardSpec.InB(off))
    {
      if off == COMMAND_STATUS { return status; }
      if ndx_output < 0 { return 0; }
      val := buf_output[ndx_output];
      ndx_output := ndx_output - 1;
      irq1 := false;
      if ndx_output < 0 {
        status := 0;
      } else {
        irq1 := true;
      }
    }
  }
}
