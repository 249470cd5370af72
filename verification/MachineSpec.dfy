/**
 The guest's view of the port space: every access is routed to one device, and string instructions
 repeat an access.  Devices outside this model may answer anything: `others` are the answers to come.
 */
module MachineSpec {
  import opened Bytes
  import opened Image
  import opened Io
  import AtaSpec
  import DmaSpec
  import FdcSpec
  import KeyboardSpec

  datatype Machine = Machine(
    ata: AtaSpec.Controller, floppy: FdcSpec.FloppySystem, dma1: DmaSpec.Ctl, kbd: KeyboardSpec.Kbd,
    others: seq<nat>)

  /** A guest port access of 1, 2 or 4 bytes, or a key from the viewer thread. */
  datatype Event = In(port: bv16, size: nat) | Out(port: bv16, size: nat, val: nat) | Key(code: byte, pressed: bool)

  datatype Routed =
    | ToAta(ata: AtaSpec.Access)
    | ToFloppy(floppy: FdcSpec.Access)
    | ToDma1(dma: DmaSpec.Access)
    | ToKeyboard(kbd: KeyboardSpec.Event)
    | ToOther(read: bool)
    | Unclaimed
    | Unsupported

  /** Devices that are in the handler table but not in this model. */
  predicate Outside(dev: DeviceId) { dev !in {AtaDisk, Floppy, Dma0, Dma1, DmaPage, Keyboard} }

  function RouteIn(dev: DeviceId, off: int, size: nat): Routed {
    match dev
    case AtaDisk =>
      if size == 1 then ToAta(AtaSpec.InB(off))
      else if size == 2 && off == 0 then ToAta(AtaSpec.InW) else Unsupported
    case Floppy => if size == 1 then ToFloppy(FdcSpec.InB(off)) else Unsupported
    case Dma0 => if size == 1 && off >= 0 then ToFloppy(FdcSpec.Dma(DmaSpec.InB(off))) else Unsupported
    case Dma1 => if size == 1 && off >= 0 then ToDma1(DmaSpec.InB(off / 2)) else Unsupported
    case DmaPage => Unsupported
    case Keyboard => if size == 1 then ToKeyboard(KeyboardSpec.InB(off)) else Unsupported
    case _ => ToOther(true)
  }

  function RouteOut(dev: DeviceId, off: int, size: nat, val: nat): Routed {
    match dev
    case AtaDisk =>
      if size == 1 && val < 0x100 then ToAta(AtaSpec.OutB(off, val))
      else if size == 2 && off == 0 && val < 0x1_0000 then ToAta(AtaSpec.OutW(val)) else Unsupported
    case Floppy => if size == 1 && val < 0x100 then ToFloppy(FdcSpec.OutB(off, val)) else Unsupported
    case Dma0 =>
      if size == 1 && val < 0x100 && off >= 0 then ToFloppy(FdcSpec.Dma(DmaSpec.OutB(off, val))) else Unsupported
    case Dma1 => if size == 1 && val < 0x100 && off >= 0 then ToDma1(DmaSpec.OutB(off / 2, val)) else Unsupported
    case DmaPage => if size == 1 && val < 0x100 then ToFloppy(FdcSpec.Page(off, val)) else Unsupported
    case Keyboard => if size == 1 && val < 0x100 then ToKeyboard(KeyboardSpec.OutB(off, val)) else Unsupported
    case _ => ToOther(false)
  }

  function Offset(port: bv16, base: bv16): int { (port - base) as int }

  /** Which device an access reaches: the port decoder's answer, at the offset from its base. */
  function Route(e: Event): Routed {
    if e.Key? then ToKeyboard(KeyboardSpec.Inject(e.code, e.pressed))
    else if e.size !in {1, 2, 4} then Unsupported
    else
      match Lookup(DeviceTable(), e.port)
      case None => Unclaimed
      case Some(h) =>
        var off := Offset(e.port, h.base);
        if e.In? then RouteIn(h.dev, off, e.size) else RouteOut(h.dev, off, e.size, e.val)
  }

  predicate Inv(m: Machine) {
    AtaSpec.Inv(m.ata) && FdcSpec.Inv(m.floppy.fdc) && KeyboardSpec.Inv(m.kbd)
  }

  predicate LegalFor(m: Machine, r: Routed) {
    match r
    case ToAta(a) => AtaSpec.Legal(m.ata, a)
    case ToFloppy(a) => FdcSpec.Legal(m.floppy, a)
    case ToDma1(a) => DmaSpec.Legal(a)
    case ToKeyboard(k) => KeyboardSpec.Legal(m.kbd, k)
    case ToOther(_) => true
    case Unclaimed => true
    case Unsupported => false
  }

  function StepFor(m: Machine, r: Routed): (m': Machine)
    requires Inv(m) && LegalFor(m, r)
    ensures Inv(m')
  {
    match r
    case ToAta(a) => m.(ata := AtaSpec.Step(m.ata, a))
    case ToFloppy(a) => m.(floppy := FdcSpec.Step(m.floppy, a))
    case ToDma1(a) => m.(dma1 := DmaSpec.Step(m.dma1, a))
    case ToKeyboard(k) => m.(kbd := KeyboardSpec.Step(m.kbd, k))
    case ToOther(read) => if read then m.(others := AfterAnswer(m.others)) else m
    case Unclaimed => m
  }

  /** The next answer from outside the model, and the ones after it. */
  function NextAnswer(others: seq<nat>): nat { if |others| == 0 then 0 else others[0] }
  function AfterAnswer(others: seq<nat>): seq<nat> { if |others| == 0 then [] else others[1..] }

  lemma UnclaimedChangesNothing(m: Machine)
    requires Inv(m)
    ensures StepFor(m, Unclaimed) == m
  {}

  lemma OtherOutChangesNothing(m: Machine)
    requires Inv(m)
    ensures StepFor(m, ToOther(false)) == m
  {}

  predicate Legal(m: Machine, e: Event) { LegalFor(m, Route(e)) }

  function Step(m: Machine, e: Event): (m': Machine)
    requires Inv(m) && Legal(m, e)
    ensures Inv(m')
  {
    StepFor(m, Route(e))
  }

  /** Of the accesses to modelled devices only words through the disk's data port are wider than a byte. */
  lemma RoutedWidth(port: bv16, size: nat, val: nat)
    ensures var r := Route(In(port, size));
            && (r.ToAta? ==> (r.ata.InB? && size == 1) || (r.ata.InW? && size == 2))
            && (r.ToFloppy? ==> size == 1 && (r.floppy.InB? || (r.floppy.Dma? && r.floppy.a.InB?)))
            && (r.ToDma1? ==> size == 1 && r.dma.InB?)
            && (r.ToKeyboard? ==> size == 1 && r.kbd.InB?)
    ensures var r := Route(Out(port, size, val));
            && (r.ToAta? ==> (r.ata.OutB? && size == 1) || (r.ata.OutW? && size == 2))
            && (r.ToFloppy? ==> size == 1 && !r.floppy.InB? && (r.floppy.Dma? ==> r.floppy.a.OutB?))
            && (r.ToDma1? ==> size == 1 && r.dma.OutB?)
            && (r.ToKeyboard? ==> size == 1 && r.kbd.OutB?)
  {
    hide Lookup, DeviceTable, Offset;
  }

  /** The bytes an IN delivers; a port nobody claims gives 0xFF for a byte, 0 for anything wider. */
  function Delivered(m: Machine, port: bv16, size: nat): (b: seq<byte>)
    requires Inv(m) && Legal(m, In(port, size))
    ensures |b| == size
  {
    RoutedWidth(port, size, 0);
    hide Route;
    match Route(In(port, size))
    case ToAta(a) => if a.InW? then AtaSpec.Delivered(m.ata, a) else [AtaSpec.ReadPort(m.ata, a.off)]
    case ToFloppy(a) =>
      if a.Dma? then [DmaSpec.ReadPort(m.floppy.ctl, a.a.port)] else [FdcSpec.ReadPort(m.floppy.fdc, a.off)]
    case ToDma1(a) => [DmaSpec.ReadPort(m.dma1, a.port)]
    case ToKeyboard(k) => [KeyboardSpec.ReadPort(m.kbd, k.off)]
    case ToOther(_) => ToLE(size, NextAnswer(m.others))
    case Unclaimed => if size == 1 then [0xFF] else Zeros(size)
  }

  /** What a byte read of a port gives; nothing if it is not legal. */
  function Reads(m: Machine, port: bv16): Option<byte>
    requires Inv(m)
  {
    if Legal(m, In(port, 1)) then Some(Delivered(m, port, 1)[0]) else None
  }

  // ----- runs -----

  predicate LegalRun(m: Machine, run: seq<Event>)
    requires Inv(m)
    decreases |run|
  {
    hide Inv, Legal, Step;
    |run| == 0 || (Legal(m, run[0]) && LegalRun(Step(m, run[0]), run[1..]))
  }

  function Run(m: Machine, run: seq<Event>): (m': Machine)
    requires Inv(m) && LegalRun(m, run)
    ensures Inv(m')
    decreases |run|
  {
    hide Inv, Legal, Step;
    if |run| == 0 then m else Run(Step(m, run[0]), run[1..])
  }

  /** The bytes delivered by the INs of a run, in order. */
  function Received(m: Machine, run: seq<Event>): seq<byte>
    requires Inv(m) && LegalRun(m, run)
    decreases |run|
  {
    hide Inv, Legal, Step, Delivered;
    if |run| == 0 then []
    else if run[0].In? then Delivered(m, run[0].port, run[0].size) + Received(Step(m, run[0]), run[1..])
    else Received(Step(m, run[0]), run[1..])
  }

  lemma {:induction false} RunAppend(m: Machine, r: seq<Event>, t: seq<Event>)
    requires Inv(m) && LegalRun(m, r) && LegalRun(Run(m, r), t)
    ensures LegalRun(m, r + t) && Run(m, r + t) == Run(Run(m, r), t)
    ensures Received(m, r + t) == Received(m, r) + Received(Run(m, r), t)
    decreases |r|
  {
    hide Step, Legal, Inv, Delivered;
    if |r| == 0 {
      assert r + t == t;
    } else {
      assert (r + t)[1..] == r[1..] + t;
      RunAppend(Step(m, r[0]), r[1..], t);
    }
  }

  // ----- string instructions -----

  /** `REP INS`: the same IN, count times. */
  function RepIn(port: bv16, size: nat, count: nat): (run: seq<Event>)
    ensures |run| == count && forall i :: 0 <= i < count ==> run[i] == In(port, size)
  {
    seq(count, i => In(port, size))
  }

  /** `REP OUTS`: one OUT per cell of the data. */
  function RepOut(port: bv16, size: nat, data: seq<byte>): (run: seq<Event>)
    requires size > 0
    decreases |data|
  {
    if |data| < size then [] else [Out(port, size, FromLE(data[..size]))] + RepOut(port, size, data[size..])
  }

  /** Splitting a repeated IN anywhere changes neither the device state nor the bytes. */
  lemma RepInSplits(m: Machine, port: bv16, size: nat, a: nat, b: nat)
    requires Inv(m) && LegalRun(m, RepIn(port, size, a)) && LegalRun(Run(m, RepIn(port, size, a)), RepIn(port, size, b))
    ensures LegalRun(m, RepIn(port, size, a + b))
    ensures var m1 := Run(m, RepIn(port, size, a));
            && Run(m, RepIn(port, size, a + b)) == Run(m1, RepIn(port, size, b))
            && Received(m, RepIn(port, size, a + b)) ==
               Received(m, RepIn(port, size, a)) + Received(m1, RepIn(port, size, b))
  {
    hide Inv, LegalRun, Run, Received;
    assert RepIn(port, size, a + b) == RepIn(port, size, a) + RepIn(port, size, b);
    RunAppend(m, RepIn(port, size, a), RepIn(port, size, b));
  }

  /** So does splitting a repeated OUT between cells. */
  lemma {:induction false} RepOutSplits(port: bv16, size: nat, a: seq<byte>, b: seq<byte>)
    requires size in {1, 2, 4} && |a| % size == 0
    ensures RepOut(port, size, a + b) == RepOut(port, size, a) + RepOut(port, size, b)
    decreases |a|
  {
    if |a| == 0 {
      assert a + b == b;
    } else {
      WholeCells(|a|, size);
      assert (a + b)[..size] == a[..size] && (a + b)[size..] == a[size..] + b;
      RepOutSplits(port, size, a[size..], b);
    }
  }

  lemma WholeCells(n: nat, size: nat)
    requires size in {1, 2, 4} && n > 0 && n % size == 0
    ensures n >= size && (n - size) % size == 0
  {
    if size == 1 {} else if size == 2 {} else {}
  }

  // ----- the cells of a repeated IN -----

  lemma RepInNone(m: Machine, port: bv16, size: nat)
    requires Inv(m)
    ensures LegalRun(m, RepIn(port, size, 0))
    ensures Run(m, RepIn(port, size, 0)) == m && Received(m, RepIn(port, size, 0)) == []
  {}

  lemma OneCellLess(size: nat, count: nat)
    requires count > 0
    ensures size + (count - 1) * size == count * size
  {}

  lemma RepInUnfolds(m: Machine, port: bv16, size: nat, k: nat)
    requires Inv(m) && k > 0 && LegalRun(m, RepIn(port, size, k))
    ensures Legal(m, In(port, size))
    ensures var m1 := Step(m, In(port, size));
            && LegalRun(m1, RepIn(port, size, k - 1))
            && Run(m, RepIn(port, size, k)) == Run(m1, RepIn(port, size, k - 1))
            && Received(m, RepIn(port, size, k)) == Delivered(m, port, size) + Received(m1, RepIn(port, size, k - 1))
  {
    hide Inv, Legal, Step, Delivered;
    assert RepIn(port, size, k)[1..] == RepIn(port, size, k - 1);
  }

  /** The bytes of all cells, in order: one cell per access. */
  function Cells(m: Machine, port: bv16, size: nat, count: nat): (b: seq<byte>)
    requires Inv(m) && LegalRun(m, RepIn(port, size, count))
    ensures |b| == count * size
  {
    CellsSize(m, port, size, count);
    hide Inv, LegalRun, RepIn, Received;
    Received(m, RepIn(port, size, count))
  }

  lemma {:induction false} CellsSize(m: Machine, port: bv16, size: nat, count: nat)
    requires Inv(m) && LegalRun(m, RepIn(port, size, count))
    ensures |Received(m, RepIn(port, size, count))| == count * size
    decreases count
  {
    hide Inv, Legal, Step, Delivered;
    if count != 0 {
      RepInUnfolds(m, port, size, count);
      OneCellLess(size, count);
      CellsSize(Step(m, In(port, size)), port, size, count - 1);
    }
  }

  lemma RepOutUnfolds(m: Machine, port: bv16, size: nat, data: seq<byte>)
    requires Inv(m) && 0 < size <= |data| && LegalRun(m, RepOut(port, size, data))
    ensures var e := Out(port, size, FromLE(data[..size]));
            && Legal(m, e)
            && LegalRun(Step(m, e), RepOut(port, size, data[size..]))
            && Run(m, RepOut(port, size, data)) == Run(Step(m, e), RepOut(port, size, data[size..]))
  {
    hide Inv, Legal, Step;
    assert RepOut(port, size, data)[1..] == RepOut(port, size, data[size..]);
  }
}
