/**
 The keyboard controller as a driver meets it, by port numbers and byte values: what ports 0x60 and 0x64
 read after keys, controller commands and keyboard commands.
 */
module KeyboardPorts {
  import opened Bytes
  import opened Io
  import opened MachineSpec
  import opened MachineRuns
  import opened KeyboardSpec

  // ----- routing -----

  lemma KeyboardLookups()
    ensures Lookup(DeviceTable(), 0x60) == Some(IoHandler(0x0060, 0xFFF8, DeviceId.Keyboard))
    ensures Lookup(DeviceTable(), 0x64) == Some(IoHandler(0x0060, 0xFFF8, DeviceId.Keyboard))
    ensures Offset(0x60, 0x0060) == 0 && Offset(0x64, 0x0060) == 4
  {
    assert DeviceTable()[8] == IoHandler(0x0060, 0xFFF8, DeviceId.Keyboard);
    hide Lookup;
    AnswersIff(DeviceTable()[8], 0x60);
    AnswersIff(DeviceTable()[8], 0x64);
  }

  lemma KeyboardRoutes(v: byte)
    ensures Route(In(0x60, 1)) == ToKeyboard(InB(0)) && Route(In(0x64, 1)) == ToKeyboard(InB(4))
    ensures Route(Out(0x60, 1, v)) == ToKeyboard(OutB(0, v)) && Route(Out(0x64, 1, v)) == ToKeyboard(OutB(4, v))
  {
    KeyboardLookups();
    hide Lookup, DeviceTable, Offset;
  }

  lemma KeyboardAccess(m: Machine, e: MachineSpec.Event, k: KeyboardSpec.Event)
    requires MachineSpec.Inv(m) && Route(e) == ToKeyboard(k)
    ensures KeyboardSpec.Inv(m.kbd)
    ensures MachineSpec.Legal(m, e) <==> KeyboardSpec.Legal(m.kbd, k)
    ensures MachineSpec.Legal(m, e) ==> MachineSpec.Step(m, e) == m.(kbd := KeyboardSpec.Step(m.kbd, k))
  {
    hide Route, KeyboardSpec.Legal, KeyboardSpec.Step;
  }

  // ----- what the ports read -----

  /** The status port reads 1 while something waits and 0 otherwise; the data port reads the first waiting byte. */
  lemma PortsRead(m: Machine)
    requires MachineSpec.Inv(m)
    ensures Reads(m, 0x64) == Some(if m.kbd.obf then 1 else 0)
    ensures Reads(m, 0x60) == Some(if m.kbd.queue == [] then 0 else m.kbd.queue[0])
    ensures MachineSpec.Legal(m, In(0x64, 1)) && MachineSpec.Step(m, In(0x64, 1)) == m
  {
    KeyboardRoutes(0);
    KeyboardAccess(m, In(0x64, 1), InB(4));
    hide Route;
    assert KeyboardSpec.Step(m.kbd, InB(4)) == m.kbd;
    assert m.(kbd := m.kbd) == m;
  }

  /** Taking a data byte moves the next one up; the interrupt stays up only if there is one. */
  lemma DataRead(m: Machine)
    requires MachineSpec.Inv(m) && m.kbd.queue != []
    ensures MachineSpec.Legal(m, In(0x60, 1))
    ensures var t := MachineSpec.Step(m, In(0x60, 1));
            var more := |m.kbd.queue| > 1;
            && t == m.(kbd := m.kbd.(queue := m.kbd.queue[1..], obf := m.kbd.obf && more, irq1 := more))
            && (!more ==> Reads(t, 0x64) == Some(0) && Reads(t, 0x60) == Some(0) && !t.kbd.irq1)
  {
    hide Route, MachineSpec.Legal, MachineSpec.Step, Reads;
    KeyboardRoutes(0);
    KeyboardAccess(m, In(0x60, 1), InB(0));
    PortsRead(MachineSpec.Step(m, In(0x60, 1)));
  }

  // ----- keys -----

  /** A status poll, or something for another device. */
  predicate PollOrElsewhere(e: MachineSpec.Event) { e == In(0x64, 1) || !Route(e).ToKeyboard? }

  lemma {:induction false} PollsKeepKeyboard(m: Machine, run: seq<MachineSpec.Event>)
    requires MachineSpec.Inv(m) && MachineSpec.LegalRun(m, run)
    requires forall e :: e in run ==> PollOrElsewhere(e)
    ensures MachineSpec.Run(m, run).kbd == m.kbd
    decreases |run|
  {
    if |run| != 0 {
      hide MachineSpec.Step, MachineSpec.Legal, MachineSpec.Inv, Route;
      var e := run[0];
      assert e in run;
      if e == In(0x64, 1) { PortsRead(m); } else { KeyboardStep(m, e); }
      PollsKeepKeyboard(MachineSpec.Step(m, e), run[1..]);
    }
  }

  /** The byte a key puts in the data port: the low seven bits are the scan code's, the top one marks a release. */
  predicate IsScanCode(b: byte, code: byte, pressed: bool) {
    b % 0x80 == code % 0x80 && (b >= 0x80 <==> !pressed || code >= 0x80)
  }

  lemma KeyStep(m: Machine, code: byte, pressed: bool)
    requires MachineSpec.Inv(m)
    ensures MachineSpec.Legal(m, Key(code, pressed))
    ensures var t := MachineSpec.Step(m, Key(code, pressed));
            && t == m.(kbd := t.kbd) && t.kbd.obf && t.kbd.irq1
            && |t.kbd.queue| == 1 && IsScanCode(t.kbd.queue[0], code, pressed)
  {
    KeyboardAccess(m, Key(code, pressed), Inject(code, pressed));
  }

  /**
   A key, from any state, and any polls and accesses to other devices after it: the status port reads 1,
   the interrupt is up, and the data port reads the scan code, its top bit set exactly for a release.
   */
  lemma KeyIsSeen(m: Machine, code: byte, pressed: bool, run: seq<MachineSpec.Event>)
    requires MachineSpec.Inv(m) && MachineSpec.LegalRun(m, [Key(code, pressed)] + run)
    requires forall e :: e in run ==> PollOrElsewhere(e)
    ensures var t := MachineSpec.Run(m, [Key(code, pressed)] + run);
            && Reads(t, 0x64) == Some(1) && t.kbd.irq1
            && Reads(t, 0x60).Some? && IsScanCode(Reads(t, 0x60).value, code, pressed)
  {
    hide MachineSpec.Step, MachineSpec.Legal, MachineSpec.Inv, Reads, PollOrElsewhere, IsScanCode;
    KeyStep(m, code, pressed);
    assert ([Key(code, pressed)] + run)[1..] == run;
    PollsKeepKeyboard(MachineSpec.Step(m, Key(code, pressed)), run);
    PortsRead(MachineSpec.Run(m, [Key(code, pressed)] + run));
  }

  /** So a press and a release of the same ordinary key are told apart. */
  lemma PressIsNotRelease(m: Machine, code: byte)
    requires MachineSpec.Inv(m) && code < 0x80
    ensures Reads(MachineSpec.Step(m, Key(code, true)), 0x60) == Some(code)
    ensures Reads(MachineSpec.Step(m, Key(code, false)), 0x60) == Some(code + 0x80)
  {
    hide MachineSpec.Step, MachineSpec.Legal, MachineSpec.Inv, Reads;
    KeyStep(m, code, true);
    KeyStep(m, code, false);
    PortsRead(MachineSpec.Step(m, Key(code, true)));
    PortsRead(MachineSpec.Step(m, Key(code, false)));
  }

  // ----- the controller's commands -----

  /** The commands the controller accepts, by number; any other one aborts the emulator. */
  lemma ControllerAccepts(m: Machine, cmd: byte)
    requires MachineSpec.Inv(m)
    ensures MachineSpec.Legal(m, Out(0x64, 1, cmd)) <==>
            cmd in {0x20, 0x60, 0xA9, 0xAA, 0xAB, 0xAD, 0xAE, 0xD1, 0xD3, 0xD4, 0xFF}
  {
    hide Route;
    KeyboardRoutes(cmd);
    KeyboardAccess(m, Out(0x64, 1, cmd), OutB(4, cmd));
  }

  /** Self-test, interface test and line test answer 0x55, 0x00 and 0x01, and 0x20 the command byte, at once. */
  lemma ControllerAnswers(m: Machine, cmd: byte)
    requires MachineSpec.Inv(m) && cmd in {0x20, 0xA9, 0xAA, 0xAB}
    ensures MachineSpec.Legal(m, Out(0x64, 1, cmd))
    ensures var t := MachineSpec.Step(m, Out(0x64, 1, cmd));
            && t == m.(kbd := t.kbd) && Reads(t, 0x64) == Some(1) && t.kbd.irq1 == m.kbd.irq1
            && Reads(t, 0x60) == Some(if cmd == 0x20 then m.kbd.commandByte else if cmd == 0xA9 then 0x01
                                      else if cmd == 0xAA then 0x55 else 0x00)
            && t.kbd.ctrl == if cmd == 0x20 then Some(0x20) else m.kbd.ctrl
  {
    hide Route, MachineSpec.Legal, MachineSpec.Step, Reads;
    KeyboardRoutes(cmd);
    KeyboardAccess(m, Out(0x64, 1, cmd), OutB(4, cmd));
    PortsRead(MachineSpec.Step(m, Out(0x64, 1, cmd)));
  }

  /** Enabling and disabling the port, and 0xFF, do nothing. */
  lemma ControllerIgnores(m: Machine, cmd: byte)
    requires MachineSpec.Inv(m) && cmd in {0xAD, 0xAE, 0xFF}
    ensures MachineSpec.Legal(m, Out(0x64, 1, cmd)) && MachineSpec.Step(m, Out(0x64, 1, cmd)) == m
  {
    hide Route, MachineSpec.Legal, MachineSpec.Step;
    KeyboardRoutes(cmd);
    KeyboardAccess(m, Out(0x64, 1, cmd), OutB(4, cmd));
    assert m.(kbd := m.kbd) == m;
  }

  /**
   Commands with a parameter take the next data byte, whatever it is, and answer nothing; only 0x60 keeps
   it, as the command byte.
   */
  lemma ControllerTakes(m: Machine, cmd: byte, v: byte)
    requires MachineSpec.Inv(m) && cmd in {0x60, 0xD1, 0xD3, 0xD4}
    ensures MachineSpec.Legal(m, Out(0x64, 1, cmd))
    ensures MachineSpec.Step(m, Out(0x64, 1, cmd)) == m.(kbd := m.kbd.(ctrl := Some(cmd)))
    ensures MachineSpec.Legal(MachineSpec.Step(m, Out(0x64, 1, cmd)), Out(0x60, 1, v))
    ensures MachineSpec.Step(MachineSpec.Step(m, Out(0x64, 1, cmd)), Out(0x60, 1, v)) ==
            m.(kbd := m.kbd.(ctrl := None, commandByte := if cmd == 0x60 then v else m.kbd.commandByte))
  {
    hide Route, MachineSpec.Legal, MachineSpec.Step;
    KeyboardRoutes(cmd);
    KeyboardRoutes(v);
    KeyboardAccess(m, Out(0x64, 1, cmd), OutB(4, cmd));
    KeyboardAccess(MachineSpec.Step(m, Out(0x64, 1, cmd)), Out(0x60, 1, v), OutB(0, v));
  }

  // ----- the keyboard's commands -----

  /** With no parameter pending the keyboard accepts these commands. */
  lemma KeyboardAccepts(m: Machine, v: byte)
    requires MachineSpec.Inv(m) && m.kbd.ctrl == None && m.kbd.key == None
    ensures MachineSpec.Legal(m, Out(0x60, 1, v)) <==> v in {0x05, 0xED, 0xF0, 0xF2, 0xF4, 0xF5, 0xFF}
  {
    hide Route;
    KeyboardRoutes(v);
    KeyboardAccess(m, Out(0x60, 1, v), OutB(0, v));
  }

  /** Identify, enable, disable and the scan code command are acknowledged with 0xFA; 0x05 and 0xED say nothing. */
  lemma KeyboardAnswers(m: Machine, v: byte)
    requires MachineSpec.Inv(m) && m.kbd.ctrl == None && m.kbd.key == None
    requires v in {0x05, 0xED, 0xF0, 0xF2, 0xF4, 0xF5}
    ensures MachineSpec.Legal(m, Out(0x60, 1, v))
    ensures var t := MachineSpec.Step(m, Out(0x60, 1, v));
            && t == m.(kbd := t.kbd) && t.kbd.irq1 == m.kbd.irq1
            && t.kbd.key == (if v in {0xED, 0xF0} then Some(v) else None)
            && (if v in {0x05, 0xED} then Reads(t, 0x60) == Reads(m, 0x60) && Reads(t, 0x64) == Reads(m, 0x64)
                else Reads(t, 0x60) == Some(0xFA) && Reads(t, 0x64) == Some(1))
  {
    hide Route, MachineSpec.Legal, MachineSpec.Step, Reads;
    KeyboardRoutes(v);
    KeyboardAccess(m, Out(0x60, 1, v), OutB(0, v));
    PortsRead(m);
    PortsRead(MachineSpec.Step(m, Out(0x60, 1, v)));
  }

  /** The parameter of 0xED and 0xF0, any byte, is acknowledged with 0xFA. */
  lemma ParameterAcknowledged(m: Machine, v: byte)
    requires MachineSpec.Inv(m) && m.kbd.ctrl == None && m.kbd.key.Some?
    ensures MachineSpec.Legal(m, Out(0x60, 1, v))
    ensures var t := MachineSpec.Step(m, Out(0x60, 1, v));
            && t == m.(kbd := t.kbd) && t.kbd.key == None && t.kbd.irq1 == m.kbd.irq1
            && Reads(t, 0x60) == Some(0xFA) && Reads(t, 0x64) == Some(1)
  {
    hide Route, MachineSpec.Legal, MachineSpec.Step, Reads;
    KeyboardRoutes(v);
    KeyboardAccess(m, Out(0x60, 1, v), OutB(0, v));
    PortsRead(MachineSpec.Step(m, Out(0x60, 1, v)));
  }

  /** A reset answers 0xFA, then 0xAA announced by an interrupt, and then nothing is left. */
  lemma KeyboardResets(m: Machine)
    requires MachineSpec.Inv(m) && m.kbd.ctrl == None && m.kbd.key == None
    ensures MachineSpec.Legal(m, Out(0x60, 1, 0xFF))
    ensures var t := MachineSpec.Step(m, Out(0x60, 1, 0xFF));
            && Reads(t, 0x64) == Some(1) && Reads(t, 0x60) == Some(0xFA)
            && MachineSpec.Legal(t, In(0x60, 1))
            && var u := MachineSpec.Step(t, In(0x60, 1));
               && u.kbd.irq1 && Reads(u, 0x64) == Some(1) && Reads(u, 0x60) == Some(0xAA)
               && MachineSpec.Legal(u, In(0x60, 1))
               && Reads(MachineSpec.Step(u, In(0x60, 1)), 0x64) == Some(0)
  {
    hide Route, MachineSpec.Legal, MachineSpec.Step, Reads;
    KeyboardRoutes(0xFF);
    KeyboardAccess(m, Out(0x60, 1, 0xFF), OutB(0, 0xFF));
    var t := MachineSpec.Step(m, Out(0x60, 1, 0xFF));
    assert t.kbd.queue == [0xFA, 0xAA] && t.kbd.obf;
    PortsRead(t);
    DataRead(t);
    var u := MachineSpec.Step(t, In(0x60, 1));
    assert u.kbd.queue == [0xAA];
    PortsRead(u);
    DataRead(u);
  }
}
