/**
 The machine: port dispatch through the handler table, and the exit handler that carries out string
 I/O on the shared run page.
 */
module Machine {
  import opened Bytes
  import opened Image
  import opened Io
  import opened MachineSpec
  import opened Ata
  import opened Dma
  import opened Floppy
  import opened I8042
  import opened Startup
  import AtaSpec
  import AtaRuns
  import DmaSpec
  import FdcSpec
  import KeyboardSpec

  /** The part of KVM's shared run page that describes a port exit. */
  class KvmRun {
    const page: array<byte>
    const port: bv16
    const size: nat
    const count: nat
    var data_offset: int

    constructor (page: array<byte>, port: bv16, size: nat, count: nat, data_offset: int)
      ensures this.page == page && this.port == port && this.size == size && this.count == count
      ensures this.data_offset == data_offset
    {
      this.page, this.port, this.size, this.count, this.data_offset := page, port, size, count, data_offset;
    }

    predicate HasCell()
      reads this
    {
      0 <= data_offset && data_offset + size <= page.Length
    }

    /** The value in the current cell. */
    ghost function Cell(): nat
      requires HasCell()
      reads this, page
    {
      FromLE(page[data_offset..data_offset + size])
    }

    lemma CellIsInRange()
      requires HasCell() && size in {1, 2, 4}
      ensures size == 1 ==> Cell() == page[data_offset]
      ensures size == 2 ==> Cell() == page[data_offset] as int + 0x100 * page[data_offset + 1] as int
      ensures size == 4 ==>
                Cell() == page[data_offset] as int + 0x100 * page[data_offset + 1] as int
                          + 0x1_0000 * page[data_offset + 2] as int + 0x100_0000 * page[data_offset + 3] as int
    {}

    // A value of the width of the access goes to the current cell, least significant byte first.

    method StoreByte(val: byte)
      requires HasCell() && size == 1
      modifies page
      ensures page[..] == Splice(old(page[..]), data_offset, [val])
    {
      page[data_offset] := val;
    }

    method StoreWord(val: word)
      requires HasCell() && size == 2
      modifies page
      ensures page[..] == Splice(old(page[..]), data_offset, ToLE(2, val))
    {
      WordLayout(val);
      page[data_offset] := val % 0x100;
      page[data_offset + 1] := val / 0x100;
    }

    method StoreDword(val: dword)
      requires HasCell() && size == 4
      modifies page
      ensures page[..] == Splice(old(page[..]), data_offset, ToLE(4, val))
    {
      DwordLayout(val);
      page[data_offset] := val % 0x100;
      page[data_offset + 1] := val / 0x100 % 0x100;
      page[data_offset + 2] := val / 0x1_0000 % 0x100;
      page[data_offset + 3] := val / 0x100_0000;
    }
  }

  /** Everything outside this model, as the answers it will give to reads. */
  class OtherDevices {
    var answers: seq<nat>

    constructor (answers: seq<nat>)
      ensures this.answers == answers
    {
      this.answers := answers;
    }

    method Answer() returns (val: nat)
      modifies this
      ensures val == NextAnswer(old(answers)) && answers == AfterAnswer(old(answers))
    {
      if |answers| == 0 { return 0; }
      val := answers[0];
      answers := answers[1..];
    }
  }

  class System {
    const table: PortTable
    const ata: AtaController
    const fdc: FloppyController
    const dma1: DmaController
    const kbd: Keyboard
    const others: OtherDevices
    /** Everything but the disk, whose buffers come and go. */
    ghost const fixed: set<object>

    ghost predicate Valid()
      reads this, fixed, ata, ata.Repr, fdc, kbd, others, table
    {
      && fixed == fdc.Repr + dma1.Repr + kbd.Repr + {others, table, table.iohandler}
      && fdc.Repr !! dma1.Repr && fdc.Repr !! kbd.Repr && dma1.Repr !! kbd.Repr
      && {others, table, table.iohandler} !! fdc.Repr + dma1.Repr + kbd.Repr
      && ata in ata.Repr && ata.Repr !! fixed
      && ata.Valid() && fdc.Valid() && dma1.Valid() && kbd.Valid() && table.Valid()
      && table.Handlers() == DeviceTable()
    }

    ghost function View(): (m: MachineSpec.Machine)
      requires Valid()
      reads this, fixed, ata, ata.Repr, fdc, kbd, others, table
      ensures Inv(m)
    {
      MachineSpec.Machine(ata.View(), fdc.View(), dma1.View(), kbd.View(), others.answers)
    }

    /** Puts working devices on a common port space. */
    constructor (t: PortTable, a: AtaController, f: FloppyController, d1: DmaController, k: Keyboard, o: OtherDevices)
      requires a.Valid() && f.Valid() && d1.Valid() && k.Valid() && t.Valid() && t.Handlers() == DeviceTable()
      requires f.Repr !! d1.Repr && f.Repr !! k.Repr && d1.Repr !! k.Repr
      requires {o, t, t.iohandler} !! f.Repr + d1.Repr + k.Repr
      requires a.Repr !! f.Repr + d1.Repr + k.Repr + {o, t, t.iohandler}
      ensures Valid() && ata == a && fdc == f && dma1 == d1 && kbd == k && others == o && table == t
      ensures View() == MachineSpec.Machine(a.View(), f.View(), d1.View(), k.View(), o.answers)
    {
      hide AtaController.Valid, AtaController.View, FloppyController.Valid, FloppyController.View;
      hide Keyboard.Valid, Keyboard.View;
      hide DmaController.View, DeviceTable;
      table, dma1, kbd, fdc, ata, others := t, d1, k, f, a, o;
      fixed := f.Repr + d1.Repr + k.Repr + {o, t, t.iohandler};
    }

    static method PowerOn(disk: seq<byte>, diskette: seq<byte>, answers: seq<nat>) returns (s: System)
      ensures s.Valid() && s.View().others == answers && PoweredOn(s.View(), disk, diskette)
    {
      hide AtaController.Valid, AtaController.View, FloppyController.Valid, FloppyController.View;
      hide Keyboard.Valid, Keyboard.View;
      hide DmaController.View, DeviceTable, System.Valid, System.View, FloppyController.Controller;
      hide AtaSpec.Inv, FdcSpec.Inv, KeyboardSpec.Inv, AtaSpec.Blank, AtaRuns.Initial, IdentifyWords, SectorCount;
      hide WordBytes, FloppyAtRest, DmaSpec.Cleared, Zeros;
      hide DmaController.Valid, PortTable.Valid, PortTable.Handlers;
      var t, d1, k, o := BuildSmallDevices(answers);
      var f := BuildFloppy(diskette);
      var a := BuildDisk(disk);
      s := new System(t, a, f, d1, k, o);
    }

    static method BuildSmallDevices(answers: seq<nat>)
      returns (t: PortTable, d1: DmaController, k: Keyboard, o: OtherDevices)
      ensures t.Valid() && t.Handlers() == DeviceTable() && d1.Valid() && k.Valid() && o.answers == answers
      ensures d1.View() == DmaSpec.Ctl(DmaSpec.Cleared(), 0, 0) && k.View() == KeyboardSpec.Initial
      ensures d1.Repr !! k.Repr && {o, t, t.iohandler} !! d1.Repr + k.Repr
      ensures fresh({o, t, t.iohandler} + d1.Repr + k.Repr)
    {
      hide Keyboard.Valid, Keyboard.View, DmaController.View, DeviceTable;
      t := BuildTable();
      d1 := new DmaController();
      k := new Keyboard();
      o := new OtherDevices(answers);
    }

    static method BuildDisk(disk: seq<byte>) returns (a: AtaController)
      ensures a.Valid() && fresh(a.Repr)
      ensures a.View() == AtaRuns.Initial(disk, WordBytes(IdentifyWords(SectorCount(disk))))
    {
      hide AtaController.View;
      a := new AtaController(disk);
    }

    static method BuildTable() returns (t: PortTable)
      ensures fresh(t) && fresh(t.iohandler) && t.Valid() && t.Handlers() == DeviceTable()
    {
      hide DeviceTable;
      t := new PortTable();
      RegisterAll(t);
    }

    static method BuildFloppy(diskette: seq<byte>) returns (f: FloppyController)
      ensures f.Valid() && fresh(f.Repr)
      ensures f.View().ctl == DmaSpec.Ctl(DmaSpec.Cleared(), 0, 0) && f.View().page == Zeros(15)
      ensures f.View().fdc == FloppyAtRest(diskette, f.View().fdc.buffer)
    {
      hide FloppyController.Controller, DmaController.View;
      var d := new I8237();
      f := new FloppyController(diskette, d);
    }

    /** The handlers in the order the devices come up. */
    static method RegisterAll(t: PortTable)
      requires t.Valid() && t.Handlers() == []
      modifies t, t.iohandler
      ensures t.Valid() && t.Handlers() == DeviceTable()
    {
      hide DeviceTable;
      var all := DeviceTable();
      assert |all| == 21 by { TableSize(); }
      for i := 0 to |all|
        invariant t.Valid() && t.Handlers() == all[..i]
      {
        var slot := t.Register(all[i]);
        assert all[..i] + [all[i]] == all[..i + 1];
      }
      assert all[..|all|] == all;
    }

    method AtaInB(off: int) returns (val: byte)
      requires Valid() && LegalFor(View(), ToAta(AtaSpec.InB(off)))
      modifies ata.Repr
      ensures Valid() && fresh(ata.Repr - old(ata.Repr))
      ensures val == AtaSpec.ReadPort(old(View()).ata, off)
      ensures View() == StepFor(old(View()), ToAta(AtaSpec.InB(off)))
    {
      hide AtaController.Valid, AtaController.View, FloppyController.Valid, FloppyController.View;
      hide Keyboard.Valid, Keyboard.View;
      hide DmaController.View, AtaSpec.Inv, AtaSpec.Legal, AtaSpec.Step, FdcSpec.Inv, FdcSpec.Legal, FdcSpec.Step;
      hide KeyboardSpec.Inv, KeyboardSpec.Legal, KeyboardSpec.Step, DeviceTable;
      val := ata.InB(off);
    }

    method AtaOutB(off: int, val: byte)
      requires Valid() && LegalFor(View(), ToAta(AtaSpec.OutB(off, val)))
      modifies ata.Repr
      ensures Valid() && fresh(ata.Repr - old(ata.Repr))
      ensures View() == StepFor(old(View()), ToAta(AtaSpec.OutB(off, val)))
    {
      hide AtaController.Valid, AtaController.View, FloppyController.Valid, FloppyController.View;
      hide Keyboard.Valid, Keyboard.View;
      hide DmaController.View, AtaSpec.Inv, AtaSpec.Legal, AtaSpec.Step, FdcSpec.Inv, FdcSpec.Legal, FdcSpec.Step;
      hide KeyboardSpec.Inv, KeyboardSpec.Legal, KeyboardSpec.Step, DeviceTable;
      ata.OutB(off, val);
    }

    method AtaInW() returns (val: word)
      requires Valid() && LegalFor(View(), ToAta(AtaSpec.InW))
      modifies ata.Repr
      ensures Valid() && fresh(ata.Repr - old(ata.Repr))
      ensures ToLE(2, val) == AtaSpec.Delivered(old(View()).ata, AtaSpec.InW)
      ensures View() == StepFor(old(View()), ToAta(AtaSpec.InW))
    {
      hide AtaController.Valid, AtaController.View, FloppyController.Valid, FloppyController.View;
      hide Keyboard.Valid, Keyboard.View;
      hide DmaController.View, AtaSpec.Inv, AtaSpec.Legal, AtaSpec.Step, FdcSpec.Inv, FdcSpec.Legal, FdcSpec.Step;
      hide KeyboardSpec.Inv, KeyboardSpec.Legal, KeyboardSpec.Step, DeviceTable;
      val := ata.InW();
    }

    method AtaOutW(val: word)
      requires Valid() && LegalFor(View(), ToAta(AtaSpec.OutW(val)))
      modifies ata.Repr
      ensures Valid() && fresh(ata.Repr - old(ata.Repr))
      ensures View() == StepFor(old(View()), ToAta(AtaSpec.OutW(val)))
    {
      hide AtaController.Valid, AtaController.View, FloppyController.Valid, FloppyController.View;
      hide Keyboard.Valid, Keyboard.View;
      hide DmaController.View, AtaSpec.Inv, AtaSpec.Legal, AtaSpec.Step, FdcSpec.Inv, FdcSpec.Legal, FdcSpec.Step;
      hide KeyboardSpec.Inv, KeyboardSpec.Legal, KeyboardSpec.Step, DeviceTable;
      ata.OutW(val);
    }

    method FloppyInB(off: int) returns (val: byte)
      requires Valid() && LegalFor(View(), ToFloppy(FdcSpec.InB(off)))
      modifies fixed
      ensures Valid() && ata.Repr == old(ata.Repr)
      ensures val == FdcSpec.ReadPort(old(View()).floppy.fdc, off)
      ensures View() == StepFor(old(View()), ToFloppy(FdcSpec.InB(off)))
    {
      hide AtaController.Valid, AtaController.View, FloppyController.Valid, FloppyController.View;
      hide Keyboard.Valid, Keyboard.View;
      hide DmaController.View, AtaSpec.Inv, AtaSpec.Legal, AtaSpec.Step, FdcSpec.Inv, FdcSpec.Legal, FdcSpec.Step;
      hide KeyboardSpec.Inv, KeyboardSpec.Legal, KeyboardSpec.Step, DeviceTable;
      val := fdc.InB(off);
    }

    method FloppyOutB(off: int, val: byte)
      requires Valid() && LegalFor(View(), ToFloppy(FdcSpec.OutB(off, val)))
      modifies fixed
      ensures Valid() && ata.Repr == old(ata.Repr)
      ensures View() == StepFor(old(View()), ToFloppy(FdcSpec.OutB(off, val)))
    {
      hide AtaController.Valid, AtaController.View, FloppyController.Valid, FloppyController.View;
      hide Keyboard.Valid, Keyboard.View;
      hide DmaController.View, AtaSpec.Inv, AtaSpec.Legal, AtaSpec.Step, FdcSpec.Inv, FdcSpec.Legal, FdcSpec.Step;
      hide KeyboardSpec.Inv, KeyboardSpec.Legal, KeyboardSpec.Step, DeviceTable;
      fdc.OutB(off, val);
    }

    method Dma0InB(off: nat) returns (val: byte)
      requires Valid() && LegalFor(View(), ToFloppy(FdcSpec.Dma(DmaSpec.InB(off))))
      modifies fixed
      ensures Valid() && ata.Repr == old(ata.Repr)
      ensures val == DmaSpec.ReadPort(old(View()).floppy.ctl, off)
      ensures View() == StepFor(old(View()), ToFloppy(FdcSpec.Dma(DmaSpec.InB(off))))
    {
      hide AtaController.Valid, AtaController.View, FloppyController.Valid, FloppyController.View;
      hide Keyboard.Valid, Keyboard.View;
      hide DmaController.View, AtaSpec.Inv, AtaSpec.Legal, AtaSpec.Step, FdcSpec.Inv, FdcSpec.Legal, FdcSpec.Step;
      hide KeyboardSpec.Inv, KeyboardSpec.Legal, KeyboardSpec.Step, DeviceTable;
      val := fdc.DmaInB(off);
    }

    method Dma0OutB(off: nat, val: byte)
      requires Valid() && LegalFor(View(), ToFloppy(FdcSpec.Dma(DmaSpec.OutB(off, val))))
      modifies fixed
      ensures Valid() && ata.Repr == old(ata.Repr)
      ensures View() == StepFor(old(View()), ToFloppy(FdcSpec.Dma(DmaSpec.OutB(off, val))))
    {
      hide AtaController.Valid, AtaController.View, FloppyController.Valid, FloppyController.View;
      hide Keyboard.Valid, Keyboard.View;
      hide DmaController.View, AtaSpec.Inv, AtaSpec.Legal, AtaSpec.Step, FdcSpec.Inv, FdcSpec.Legal, FdcSpec.Step;
      hide KeyboardSpec.Inv, KeyboardSpec.Legal, KeyboardSpec.Step, DeviceTable;
      fdc.DmaOutB(off, val);
    }

    method PageOutB(off: int, val: byte)
      requires Valid() && LegalFor(View(), ToFloppy(FdcSpec.Page(off, val)))
      modifies fixed
      ensures Valid() && ata.Repr == old(ata.Repr)
      ensures View() == StepFor(old(View()), ToFloppy(FdcSpec.Page(off, val)))
    {
      hide AtaController.Valid, AtaController.View, FloppyController.Valid, FloppyController.View;
      hide Keyboard.Valid, Keyboard.View;
      hide DmaController.View, AtaSpec.Inv, AtaSpec.Legal, AtaSpec.Step, FdcSpec.Inv, FdcSpec.Legal, FdcSpec.Step;
      hide KeyboardSpec.Inv, KeyboardSpec.Legal, KeyboardSpec.Step, DeviceTable;
      fdc.PageOutB(off, val);
    }

    method Dma1InB(off: nat) returns (val: byte)
      requires Valid() && LegalFor(View(), ToDma1(DmaSpec.InB(off)))
      modifies fixed
      ensures Valid() && ata.Repr == old(ata.Repr)
      ensures val == DmaSpec.ReadPort(old(View()).dma1, off)
      ensures View() == StepFor(old(View()), ToDma1(DmaSpec.InB(off)))
    {
      hide AtaController.Valid, AtaController.View, FloppyController.Valid, FloppyController.View;
      hide Keyboard.Valid, Keyboard.View;
      hide DmaController.View, AtaSpec.Inv, AtaSpec.Legal, AtaSpec.Step, FdcSpec.Inv, FdcSpec.Legal, FdcSpec.Step;
      hide KeyboardSpec.Inv, KeyboardSpec.Legal, KeyboardSpec.Step, DeviceTable;
      val := dma1.InB(off);
    }

    method Dma1OutB(off: nat, val: byte)
      requires Valid() && LegalFor(View(), ToDma1(DmaSpec.OutB(off, val)))
      modifies fixed
      ensures Valid() && ata.Repr == old(ata.Repr)
      ensures View() == StepFor(old(View()), ToDma1(DmaSpec.OutB(off, val)))
    {
      hide AtaController.Valid, AtaController.View, FloppyController.Valid, FloppyController.View;
      hide Keyboard.Valid, Keyboard.View;
      hide DmaController.View, AtaSpec.Inv, AtaSpec.Legal, AtaSpec.Step, FdcSpec.Inv, FdcSpec.Legal, FdcSpec.Step;
      hide KeyboardSpec.Inv, KeyboardSpec.Legal, KeyboardSpec.Step, DeviceTable;
      dma1.OutB(off, val);
    }

    method KeyboardInB(off: int) returns (val: byte)
      requires Valid() && LegalFor(View(), ToKeyboard(KeyboardSpec.InB(off)))
      modifies fixed
      ensures Valid() && ata.Repr == old(ata.Repr)
      ensures val == KeyboardSpec.ReadPort(old(View()).kbd, off)
      ensures View() == StepFor(old(View()), ToKeyboard(KeyboardSpec.InB(off)))
    {
      hide AtaController.Valid, AtaController.View, FloppyController.Valid, FloppyController.View;
      hide Keyboard.Valid, Keyboard.View;
      hide DmaController.View, AtaSpec.Inv, AtaSpec.Legal, AtaSpec.Step, FdcSpec.Inv, FdcSpec.Legal, FdcSpec.Step;
      hide KeyboardSpec.Inv, KeyboardSpec.Legal, KeyboardSpec.Step, DeviceTable;
      val := kbd.InB(off);
    }

    method KeyboardOutB(off: int, val: byte)
      requires Valid() && LegalFor(View(), ToKeyboard(KeyboardSpec.OutB(off, val)))
      modifies fixed
      ensures Valid() && ata.Repr == old(ata.Repr)
      ensures View() == StepFor(old(View()), ToKeyboard(KeyboardSpec.OutB(off, val)))
    {
      hide AtaController.Valid, AtaController.View, FloppyController.Valid, FloppyController.View;
      hide Keyboard.Valid, Keyboard.View;
      hide DmaController.View, AtaSpec.Inv, AtaSpec.Legal, AtaSpec.Step, FdcSpec.Inv, FdcSpec.Legal, FdcSpec.Step;
      hide KeyboardSpec.Inv, KeyboardSpec.Legal, KeyboardSpec.Step, DeviceTable;
      kbd.OutB(off, val);
    }

    method InjectKey(code: byte, pressed: bool)
      requires Valid() && LegalFor(View(), ToKeyboard(KeyboardSpec.Inject(code, pressed)))
      modifies fixed
      ensures Valid() && ata.Repr == old(ata.Repr)
      ensures View() == StepFor(old(View()), ToKeyboard(KeyboardSpec.Inject(code, pressed)))
    {
      hide AtaController.Valid, AtaController.View, FloppyController.Valid, FloppyController.View;
      hide Keyboard.Valid, Keyboard.View;
      hide DmaController.View, AtaSpec.Inv, AtaSpec.Legal, AtaSpec.Step, FdcSpec.Inv, FdcSpec.Legal, FdcSpec.Step;
      hide KeyboardSpec.Inv, KeyboardSpec.Legal, KeyboardSpec.Step, DeviceTable;
      kbd.Inject(code, pressed);
    }

    /** Ports of devices outside the model: only the answer matters, at the width of the access. */
    method OtherIn(size: nat) returns (val: nat)
      requires Valid()
      modifies fixed
      ensures Valid() && ata.Repr == old(ata.Repr)
      ensures ToLE(size, val) == ToLE(size, NextAnswer(old(View()).others)) && val == FromLE(ToLE(size, val))
      ensures View() == StepFor(old(View()), ToOther(true))
    {
      hide AtaController.Valid, AtaController.View, FloppyController.Valid, FloppyController.View;
      hide Keyboard.Valid, Keyboard.View;
      hide DmaController.View, AtaSpec.Inv, AtaSpec.Legal, AtaSpec.Step, FdcSpec.Inv, FdcSpec.Legal, FdcSpec.Step;
      hide KeyboardSpec.Inv, KeyboardSpec.Legal, KeyboardSpec.Step, DeviceTable;
      hide FromLE, ToLE, NextAnswer, AfterAnswer;
      val := others.Answer();
      LERoundTrip(ToLE(size, val));
      val := FromLE(ToLE(size, val));
    }

    // ----- the port dispatchers -----

    method Find(port: bv16) returns (handler: Option<IoHandler>)
      requires Valid()
      ensures handler == Lookup(DeviceTable(), port)
    {
      hide Lookup, DeviceTable;
      handler := table.LookupHandler(port);
    }

    method IoInB(port: bv16) returns (val: byte)
      requires Valid() && Legal(View(), In(port, 1))
      modifies fixed, ata.Repr
      ensures Valid() && fresh(ata.Repr - old(ata.Repr))
      ensures [val] == Delivered(old(View()), port, 1)
      ensures View() == Step(old(View()), In(port, 1))
    {
      hide System.Valid, System.View, StepFor, Lookup, DeviceTable, Offset, AtaSpec.Inv, FdcSpec.Inv, KeyboardSpec.Inv;
      hide AtaSpec.Legal, FdcSpec.Legal, KeyboardSpec.Legal, DmaSpec.Legal;
      var handler := Find(port);
      UnclaimedChangesNothing(View());
      if handler == None { return 0xFF; }
      if Outside(handler.value.dev) {
        var v := OtherIn(1);
        ByteRange(1, v);
        return v;
      }
      var off := Offset(port, handler.value.base);
      match handler.value.dev
      case AtaDisk => val := AtaInB(off);
      case Floppy => val := FloppyInB(off);
      case Dma0 => val := Dma0InB(off);
      case Dma1 => val := Dma1InB(off / 2);
      case Keyboard => val := KeyboardInB(off);
    }

    method IoInW(port: bv16) returns (val: word)
      requires Valid() && Legal(View(), In(port, 2))
      modifies fixed, ata.Repr
      ensures Valid() && fresh(ata.Repr - old(ata.Repr))
      ensures ToLE(2, val) == Delivered(old(View()), port, 2)
      ensures View() == Step(old(View()), In(port, 2))
    {
      hide System.Valid, System.View, StepFor, Lookup, DeviceTable, Offset, AtaSpec.Inv, FdcSpec.Inv, KeyboardSpec.Inv;
      hide AtaSpec.Legal, FdcSpec.Legal, KeyboardSpec.Legal, DmaSpec.Legal;
      var handler := Find(port);
      UnclaimedChangesNothing(View());
      if handler == None { return 0; }
      if Outside(handler.value.dev) {
        var v := OtherIn(2);
        ByteRange(2, v);
        return v;
      }
      val := AtaInW();
    }

    /** No modelled device answers 32-bit reads. */
    method IoInL(port: bv16) returns (val: dword)
      requires Valid() && Legal(View(), In(port, 4))
      modifies fixed, ata.Repr
      ensures Valid() && fresh(ata.Repr - old(ata.Repr))
      ensures ToLE(4, val) == Delivered(old(View()), port, 4)
      ensures View() == Step(old(View()), In(port, 4))
    {
      hide System.Valid, System.View, StepFor, Lookup, DeviceTable, Offset, AtaSpec.Inv, FdcSpec.Inv, KeyboardSpec.Inv;
      hide AtaSpec.Legal, FdcSpec.Legal, KeyboardSpec.Legal, DmaSpec.Legal;
      var handler := Find(port);
      UnclaimedChangesNothing(View());
      if handler == None { return 0; }
      var v := OtherIn(4);
      ByteRange(4, v);
      val := v;
    }

    method IoOutB(port: bv16, val: byte)
      requires Valid() && Legal(View(), Out(port, 1, val))
      modifies fixed, ata.Repr
      ensures Valid() && fresh(ata.Repr - old(ata.Repr))
      ensures View() == Step(old(View()), Out(port, 1, val))
    {
      hide System.Valid, System.View, StepFor, Lookup, DeviceTable, Offset, AtaSpec.Inv, FdcSpec.Inv, KeyboardSpec.Inv;
      hide AtaSpec.Legal, FdcSpec.Legal, KeyboardSpec.Legal, DmaSpec.Legal;
      var handler := Find(port);
      UnclaimedChangesNothing(View());
      OtherOutChangesNothing(View());
      if handler == None || Outside(handler.value.dev) { return; }
      var off := Offset(port, handler.value.base);
      match handler.value.dev
      case AtaDisk => AtaOutB(off, val);
      case Floppy => FloppyOutB(off, val);
      case Dma0 => Dma0OutB(off, val);
      case Dma1 => Dma1OutB(off / 2, val);
      case DmaPage => PageOutB(off, val);
      case Keyboard => KeyboardOutB(off, val);
    }

    method IoOutW(port: bv16, val: word)
      requires Valid() && Legal(View(), Out(port, 2, val))
      modifies fixed, ata.Repr
      ensures Valid() && fresh(ata.Repr - old(ata.Repr))
      ensures View() == Step(old(View()), Out(port, 2, val))
    {
      hide System.Valid, System.View, StepFor, Lookup, DeviceTable, Offset, AtaSpec.Inv, FdcSpec.Inv, KeyboardSpec.Inv;
      hide AtaSpec.Legal, FdcSpec.Legal, KeyboardSpec.Legal, DmaSpec.Legal;
      var handler := Find(port);
      UnclaimedChangesNothing(View());
      OtherOutChangesNothing(View());
      if handler == None || Outside(handler.value.dev) { return; }
      AtaOutW(val);
    }

    method IoOutL(port: bv16, val: dword)
      requires Valid() && Legal(View(), Out(port, 4, val))
      ensures Valid() && View() == Step(old(View()), Out(port, 4, val))
    {
      hide System.Valid, System.View, StepFor, Lookup, DeviceTable, Offset, AtaSpec.Inv, FdcSpec.Inv, KeyboardSpec.Inv;
      hide AtaSpec.Legal, FdcSpec.Legal, KeyboardSpec.Legal, DmaSpec.Legal;
      var handler := Find(port);
      UnclaimedChangesNothing(View());
      OtherOutChangesNothing(View());
    }

    // ----- string I/O -----

    ghost predicate Apart(run: KvmRun)
      reads this, ata
    {
      {run, run.page} !! fixed + ata.Repr
    }

    /** One read into the cell at the current offset. */
    method CellIn(run: KvmRun)
      requires Valid() && Apart(run) && run.size in {1, 2, 4}
      requires run.HasCell()
      requires Legal(View(), In(run.port, run.size))
      modifies fixed, ata.Repr, run`data_offset, run.page
      ensures Valid() && fresh(ata.Repr - old(ata.Repr)) && Apart(run)
      ensures View() == Step(old(View()), In(run.port, run.size))
      ensures run.data_offset == old(run.data_offset) + run.size
      ensures run.page[..] ==
              Splice(old(run.page[..]), old(run.data_offset), Delivered(old(View()), run.port, run.size))
    {
      hide System.Valid, System.View, Inv, Legal, Step, Delivered, Splice;
      if run.size == 1 {
        var val := IoInB(run.port);
        run.StoreByte(val);
      } else if run.size == 2 {
        var val := IoInW(run.port);
        run.StoreWord(val);
      } else {
        var val := IoInL(run.port);
        run.StoreDword(val);
      }
      run.data_offset := run.data_offset + run.size;
    }

    /** The IN half of `handle_io`: one read per cell of the run page, at a moving offset. */
    method HandleIn(run: KvmRun)
      requires Valid() && Apart(run) && run.size in {1, 2, 4}
      requires 0 <= run.data_offset && run.data_offset + run.count * run.size <= run.page.Length
      requires LegalRun(View(), RepIn(run.port, run.size, run.count))
      modifies fixed, ata.Repr, run`data_offset, run.page
      ensures Valid() && fresh(ata.Repr - old(ata.Repr))
      ensures View() == Run(old(View()), RepIn(run.port, run.size, run.count))
      ensures run.data_offset == old(run.data_offset) + run.count * run.size
      ensures run.page[..] ==
              Splice(old(run.page[..]), old(run.data_offset), Cells(old(View()), run.port, run.size, run.count))
    {
      hide System.Valid, System.View, Inv, Legal, Step, Delivered, Splice, LegalRun, MachineSpec.Run, Received, RepIn;
      ghost var m, at, got := View(), run.data_offset, [];
      SpliceNext(run.page[..], at, [], []);
      var c := 0;
      while c < run.count
        invariant 0 <= c <= run.count
        invariant Valid() && fresh(ata.Repr - old(ata.Repr)) && Apart(run)
        invariant run.data_offset == at + c * run.size && |got| == c * run.size
        invariant LegalRun(View(), RepIn(run.port, run.size, run.count - c))
        invariant MachineSpec.Run(m, RepIn(run.port, run.size, run.count)) ==
                  MachineSpec.Run(View(), RepIn(run.port, run.size, run.count - c))
        invariant Received(m, RepIn(run.port, run.size, run.count)) ==
                  got + Received(View(), RepIn(run.port, run.size, run.count - c))
        invariant run.page[..] == Splice(old(run.page[..]), at, got)
      {
        RepInUnfolds(View(), run.port, run.size, run.count - c);
        ghost var cell := Delivered(View(), run.port, run.size);
        CellIn(run);
        SpliceNext(old(run.page[..]), at, got, cell);
        got := got + cell;
        c := c + 1;
      }
      RepInNone(View(), run.port, run.size);
      assert got + [] == got == Cells(m, run.port, run.size, run.count);
    }

    /** One write from the cell at the current offset. */
    method CellOut(run: KvmRun)
      requires Valid() && Apart(run) && run.size in {1, 2, 4} && run.HasCell()
      requires Legal(View(), Out(run.port, run.size, run.Cell()))
      modifies fixed, ata.Repr, run`data_offset
      ensures Valid() && fresh(ata.Repr - old(ata.Repr)) && Apart(run)
      ensures View() == Step(old(View()), Out(run.port, run.size, old(run.Cell())))
      ensures run.data_offset == old(run.data_offset) + run.size
    {
      hide System.Valid, System.View, Inv, Legal, Step;
      run.CellIsInRange();
      if run.size == 1 {
        IoOutB(run.port, run.page[run.data_offset]);
      } else if run.size == 2 {
        IoOutW(run.port, run.page[run.data_offset] as int + 0x100 * run.page[run.data_offset + 1] as int);
      } else {
        IoOutL(run.port, run.page[run.data_offset] as int + 0x100 * run.page[run.data_offset + 1] as int
               + 0x1_0000 * run.page[run.data_offset + 2] as int + 0x100_0000 * run.page[run.data_offset + 3] as int);
      }
      run.data_offset := run.data_offset + run.size;
    }

    /** The OUT half of `handle_io`: one write per cell, in order. */
    method HandleOut(run: KvmRun)
      requires Valid() && Apart(run) && run.size in {1, 2, 4}
      requires 0 <= run.data_offset && run.data_offset + run.count * run.size <= run.page.Length
      requires LegalRun(View(),
                 RepOut(run.port, run.size, run.page[run.data_offset..run.data_offset + run.count * run.size]))
      modifies fixed, ata.Repr, run`data_offset
      ensures Valid() && fresh(ata.Repr - old(ata.Repr))
      ensures View() == MachineSpec.Run(old(View()),
                RepOut(run.port, run.size, old(run.page[run.data_offset..run.data_offset + run.count * run.size])))
      ensures run.data_offset == old(run.data_offset) + run.count * run.size
    {
      hide System.Valid, System.View, Inv, Legal, Step, LegalRun, MachineSpec.Run, RepOut;
      ghost var m, at, end := View(), run.data_offset, run.data_offset + run.count * run.size;
      ghost var all := run.page[at..end];
      var c := 0;
      while c < run.count
        invariant 0 <= c <= run.count
        invariant Valid() && fresh(ata.Repr - old(ata.Repr)) && Apart(run)
        invariant run.data_offset == at + c * run.size <= end
        invariant run.page[at..end] == all
        invariant LegalRun(View(), RepOut(run.port, run.size, run.page[run.data_offset..end]))
        invariant MachineSpec.Run(m, RepOut(run.port, run.size, all)) ==
                  MachineSpec.Run(View(), RepOut(run.port, run.size, run.page[run.data_offset..end]))
      {
        CellFits(c, run.count, run.size);
        ghost var i, rest := run.data_offset, run.page[run.data_offset..end];
        RepOutUnfolds(View(), run.port, run.size, rest);
        FirstCell(run.page[..], i, run.size, end);
        CellOut(run);
        NextCell(at, c, run.size);
        c := c + 1;
      }
      RepOutNone(View(), run.port, run.size);
      assert run.page[end..end] == [];
    }
  }

  lemma FirstCell(page: seq<byte>, i: nat, size: nat, end: nat)
    requires i + size <= end <= |page|
    ensures page[i..end][..size] == page[i..i + size] && page[i..end][size..] == page[i + size..end]
  {}

  lemma ByteRange(size: nat, v: nat)
    requires size in {1, 2, 4} && v == FromLE(ToLE(size, v))
    ensures size == 1 ==> v < 0x100 && ToLE(1, v) == [v]
    ensures size == 2 ==> v < 0x1_0000
    ensures size == 4 ==> v < 0x1_0000_0000
  {
    var b := ToLE(size, v);
    if size == 1 {
      assert b == [v % 0x100] + ToLE(0, v / 0x100) == [v % 0x100];
    }
    hide ToLE;
    assert v == FromLE(b);
  }

  lemma NextCell(at: int, c: nat, size: nat)
    ensures at + c * size + size == at + (c + 1) * size
  {}

  lemma CellFits(c: nat, count: nat, size: nat)
    requires c < count && size in {1, 2, 4}
    ensures c * size + size <= count * size
  {
    if size == 1 {} else if size == 2 {} else {}
  }

  lemma RepOutNone(m: MachineSpec.Machine, port: bv16, size: nat)
    requires Inv(m) && size > 0
    ensures LegalRun(m, RepOut(port, size, [])) && MachineSpec.Run(m, RepOut(port, size, [])) == m
  {}

  lemma TableSize()
    ensures |DeviceTable()| == 21
  {}
}
