/**
 The floppy controller with its real state: one array and one index serve command bytes and result
 bytes, and the status byte says which.  Every method is proved against `FdcSpec`.
 */
module Floppy {
  import opened Bytes
  import opened Image
  import opened FdcSpec
  import opened Dma
  import DmaSpec

  const FIFO_SIZE := 522

  class FloppyController {
    const fifo: array<byte>
    const st: array<byte>
    const dmaBuffer: array<byte>
    const image: seq<byte>
    const dma: I8237
    ghost const Repr: set<object>
    var fifondx: int
    var fifolen: int
    var msr: byte
    var dor: byte
    var ccr: byte
    var dsr: byte
    var cyl: byte
    var head: byte
    var sect: byte
    var irq6: bool

    ghost predicate Separate() {
      && fifo.Length == FIFO_SIZE && st.Length == 3 && dmaBuffer.Length == BUFFER_SIZE
      && dma.Valid()
      && fifo != st && fifo != dmaBuffer && st != dmaBuffer
      && this !in dma.Repr && {fifo, st, dmaBuffer} !! dma.Repr
      && Repr == {this, fifo, st, dmaBuffer} + dma.Repr
    }

    /** The phase the status byte announces, and what the index and length then mean. */
    ghost predicate Valid()
      reads this, Repr
      ensures Valid() ==> {this, fifo, dmaBuffer, dma.lowMem, dma.highMem} <= Repr && dma.Repr <= Repr && dma.Valid()
    {
      && Separate()
      && (|| (msr in {0x80, 0xA0} && fifondx == 0)
          || (msr in {0x90, 0xB0} && 0 < fifondx < fifolen == CommandLength(fifo[0]))
          || (msr == 0xC0 && 0 <= fifondx < fifolen && fifolen in {2, 7}))
    }

    ghost function Phase(): Phase
      requires Valid()
      reads this, Repr
    {
      if msr in {0x80, 0xA0} then Ready
      else if msr in {0x90, 0xB0} then Command(fifo[..fifondx])
      else Result(fifo[fifondx..fifolen])
    }

    ghost function Controller(): (f: Fdc)
      requires Valid()
      reads this, Repr
      ensures Inv(f) && f.phase == Phase() && f.image == image
    {
      Fdc(Phase(), msr in {0xA0, 0xB0}, dor, ccr, dsr, cyl, head, sect, st[..], image, dmaBuffer[..], irq6)
    }

    ghost function View(): (s: FloppySystem)
      requires Valid()
      reads this, Repr
      ensures s.fdc == Controller() && Inv(s.fdc) && s.fdc.image == image && s.ctl == dma.ctl.View()
    {
      FloppySystem(Controller(), dma.ctl.View(), dma.page[..], dma.Memory())
    }

    constructor (image: seq<byte>, dma: I8237)
      requires dma.Valid()
      ensures Valid() && fresh(Repr - dma.Repr)
      ensures this.dma == dma && this.image == image
      ensures Controller() == Fdc(Ready, false, 0, 0, 0, 0, 0, 1, Zeros(3), image, dmaBuffer[..], false)
    {
      fifo := new byte[FIFO_SIZE](i => 0);
      st := new byte[3](i => 0);
      dmaBuffer := new byte[BUFFER_SIZE];
      this.image, this.dma := image, dma;
      Repr := {this, fifo, st, dmaBuffer} + dma.Repr;
      fifondx, fifolen, msr := 0, 0, 0x80;
      dor, ccr, dsr, cyl, head, sect := 0, 0, 0, 0, 0, 1;
      irq6 := false;
    }

    method InB(off: int) returns (r: byte)
      requires Valid() && Legal(View(), FdcSpec.InB(off))
      modifies this
      ensures Valid()
      ensures r == ReadPort(old(Controller()), off)
      ensures View() == Step(old(View()), FdcSpec.InB(off))
    {
      hide DmaController.Valid, DmaController.View, FdcSpec.Inv;
      if off == MAIN_STATUS { return msr; }
      if off == DIGITAL_OUT { return dor; }
      r := fifo[fifondx];
      fifondx := fifondx + 1;
      if fifondx >= fifolen {
        msr := 0xA0;
        fifondx := 0;
        irq6 := false;
      }
    }

    method DoReset()
      requires Valid()
      modifies this
      ensures Valid()
      ensures Controller() == old(Controller()).(phase := Ready, ndma := false, dor := 0, ccr := 0, dsr := 0)
    {
      hide Separate, I8237.Valid, DmaController.Valid, CommandLength, FdcSpec.Inv;
      msr, dor, ccr, dsr := 0, 0, 0, 0;
      msr := 0x80;
      fifondx, fifolen := 0, 0;
    }

    method OutB(off: int, val: byte)
      requires Valid() && Legal(View(), FdcSpec.OutB(off, val))
      modifies this, fifo, dmaBuffer, dma.lowMem, dma.highMem
      ensures Valid()
      ensures View() == Step(old(View()), FdcSpec.OutB(off, val))
    {
      hide Separate, FloppyController.Phase, CommandLength, Msr;
      if off == DIGITAL_OUT {
        WriteDigitalOut(val);
      } else if off == DATA_FIFO {
        WriteFifo(val);
      } else {
        WriteRate(val);
      }
    }

    method WriteDigitalOut(val: byte)
      requires Valid()
      modifies this
      ensures Valid() && Controller() == WriteDor(old(Controller()), val)
    {
      if val / 4 % 2 == 0 {
        DoReset();
        irq6 := true;
      }
      dor := if val / 4 % 2 == 1 then val - 4 else val;
    }

    method WriteRate(val: byte)
      requires Valid()
      modifies `ccr, `dsr
      ensures Valid() && Controller() == old(Controller()).(ccr := val, dsr := old(dsr) / 4 * 4 + val % 4)
    {
      ccr := val;
      dsr := dsr / 4 * 4 + val % 4;
    }

    method WriteFifo(val: byte)
      requires Valid() && Legal(View(), FdcSpec.OutB(DATA_FIFO, val))
      modifies this, fifo, dmaBuffer, dma.lowMem, dma.highMem
      ensures Valid()
      ensures View() == Step(old(View()), FdcSpec.OutB(DATA_FIFO, val))
    {
      hide I8237.Valid, DmaController.Valid, FdcSpec.Inv, Execute, Executable;
      ghost var s := View();
      ghost var cmd := Pending(s.fdc) + [val];
      assert |cmd| <= CommandLength(cmd[0]) by { NeverTooLong(s, val); }
      AppendByte(val);
      assert SameFields(s.fdc);
      if fifondx >= fifolen {
        ExecuteCommand(cmd, s);
      }
    }

    /** The byte joins the command; the first one fixes the length. */
    method AppendByte(val: byte)
      requires Valid() && Legal(View(), FdcSpec.OutB(DATA_FIFO, val))
      modifies `fifondx, `fifolen, `msr, fifo
      ensures var cmd := Pending(old(Controller())) + [val];
              fifondx == |cmd| && fifo[..fifondx] == cmd && fifolen == CommandLength(cmd[0])
      ensures msr == if old(Controller()).ndma then 0xB0 else 0x90
    {
      hide I8237.Valid, DmaController.Valid, Execute, Executable, FdcSpec.Inv;
      if fifondx == 0 {
        var command := val % 0x10;
        if command == CMD_READ_DATA {
          fifolen := 9;
        } else if command == CMD_RECALIBRATE {
          fifolen := 2;
        } else if command == CMD_SENSE_INTERRUPT {
          fifolen := 1;
        } else if command == CMD_READ_ID {
          fifolen := 2;
        } else {
          fifolen := 3;
        }
        msr := msr + 0x10;
      }
      ghost var cmd := Pending(old(Controller())) + [val];
      fifo[fifondx] := val;
      fifondx := fifondx + 1;
      assert fifo[..fifondx] == cmd;
    }

    /** The bytes in the FIFO are a whole command; `s` is the state before its last byte came. */
    method ExecuteCommand(ghost cmd: seq<byte>, ghost s: FloppySystem)
      requires Separate() && Inv(s.fdc) && Executable(cmd, s.ctl, s.page) && fifo[..|cmd|] == cmd
      requires s.ctl == dma.ctl.View() && s.page == dma.page[..] && s.mem == dma.Memory()
      requires SameFields(s.fdc)
      modifies this, fifo, dmaBuffer, dma.lowMem, dma.highMem
      ensures Valid()
      ensures View() == Execute(s, cmd)
    {
      assert fifo[0] == cmd[0];
      if fifo[0] % 0x10 == CMD_READ_DATA {
        ReadData(cmd, s);
      } else {
        ExecuteLocally(cmd, s.fdc);
      }
    }

    /** All but the phase of `f` is what the fields hold. */
    ghost predicate SameFields(f: Fdc)
      requires Separate()
      reads this, Repr
    {
      f == Fdc(f.phase, f.ndma, dor, ccr, dsr, cyl, head, sect, st[..], image, dmaBuffer[..], irq6)
    }

    method ExecuteLocally(ghost cmd: seq<byte>, ghost f: Fdc)
      requires Separate() && |cmd| > 0 && |cmd| == CommandLength(cmd[0]) && cmd[0] % 0x10 != CMD_READ_DATA
      requires fifo[..|cmd|] == cmd && SameFields(f)
      modifies this, fifo
      ensures Valid() && Controller() == ExecuteLocal(f, cmd)
    {
      assert forall i :: 0 <= i < |cmd| ==> cmd[i] == fifo[i];
      hide Separate, Valid, SameFields, FloppyController.Phase, Controller;
      var op := fifo[0] % 0x10;
      if op == CMD_RECALIBRATE {
        Recalibrate(f);
      } else if op == CMD_SENSE_INTERRUPT {
        SenseInterrupt(f);
      } else if op == CMD_READ_ID {
        GiveResult(f);
      } else {
        Seek(f);
      }
    }

    method Recalibrate(ghost f: Fdc)
      requires Separate() && SameFields(f)
      modifies this
      ensures Valid() && Controller() == f.(cyl := 0, phase := Ready, ndma := false, irq6 := true)
    {
      hide I8237.Valid, DmaController.Valid, CommandLength, FdcSpec.Inv;
      cyl := 0;
      msr := 0x80;
      fifolen, fifondx := 1, 0;
      irq6 := true;
    }

    method SenseInterrupt(ghost f: Fdc)
      requires Separate() && SameFields(f)
      modifies this, fifo
      ensures Valid() && Controller() == f.(phase := Result([f.st[0], f.cyl]), ndma := false, irq6 := false)
    {
      hide I8237.Valid, DmaController.Valid, CommandLength, FdcSpec.Inv;
      msr := 0xC0;
      fifolen, fifondx := 2, 0;
      fifo[0] := st[0];
      fifo[1] := cyl;
      irq6 := false;
      assert fifo[0..2] == [st[0], cyl];
    }

    method Seek(ghost f: Fdc)
      requires Separate() && SameFields(f)
      modifies this
      ensures Valid()
      ensures Controller() == f.(head := fifo[1] / 4, cyl := fifo[2], phase := Ready, ndma := true, irq6 := true)
    {
      hide I8237.Valid, DmaController.Valid, CommandLength, FdcSpec.Inv;
      head := fifo[1] / 4;
      cyl := fifo[2];
      fifolen, fifondx := 0, 0;
      msr := 0xA0;
      irq6 := true;
    }

    method StoreResult()
      requires Separate()
      modifies fifo
      ensures fifo[..7] == [st[0], st[1], st[2], cyl, head, sect, 2]
    {
      fifo[0], fifo[1], fifo[2] := st[0], st[1], st[2];
      fifo[3] := cyl;
      fifo[4] := head;
      fifo[5] := sect;
      fifo[6] := 2;
    }

    /** Seven result bytes and the interrupt. */
    method GiveResult(ghost f: Fdc)
      requires Separate() && SameFields(f)
      modifies this, fifo
      ensures Valid() && Controller() == f.(phase := Result(ResultOf(f)), ndma := false, irq6 := true)
    {
      hide I8237.Valid, DmaController.Valid, CommandLength, FdcSpec.Inv;
      msr := 0xC0;
      fifolen, fifondx := 7, 0;
      StoreResult();
      irq6 := true;
      assert fifo[0..7] == ResultOf(f);
    }

    /** Seek and read on the image file, into the start of the buffer; what is past the end stays as it was. */
    method FillBuffer(off: nat, n: nat)
      requires Separate() && n <= BUFFER_SIZE
      modifies dmaBuffer
      ensures dmaBuffer[..] == Splice(old(dmaBuffer[..]), 0, FileRead(image, off, n))
    {
      var data := FileRead(image, off, n);
      forall i | 0 <= i < |data| { dmaBuffer[i] := data[i]; }
    }

    method CommandOffset() returns (off: nat)
      requires Separate()
      ensures off == ReadOffset(fifo[..9])
    {
      var lba := (18 * 2 * fifo[2] as int + fifo[3] as int * 18 + (fifo[4] as int - 1)) % 0x1_0000_0000;
      off := lba * 512 % 0x1_0000_0000;
    }

    /** The image's bytes to the buffer, the buffer's bytes to guest memory. */
    method MoveSectors(ghost cmd: seq<byte>, ghost s: FloppySystem)
      requires Separate() && Executable(cmd, s.ctl, s.page) && fifo[..|cmd|] == cmd
      requires cmd[0] % 0x10 == CMD_READ_DATA
      requires s.ctl == dma.ctl.View() && s.page == dma.page[..] && s.mem == dma.Memory()
      requires s.fdc.image == image && s.fdc.buffer == dmaBuffer[..]
      modifies dmaBuffer, dma.lowMem, dma.highMem
      ensures dmaBuffer[..] == Execute(s, cmd).fdc.buffer && dma.Memory() == Execute(s, cmd).mem
    {
      hide DmaController.Valid, DmaController.View, I8237.Memory;
      hide InBlock, TransferFits, FdcSpec.Dest, FdcSpec.Count, ReadOffset, FileRead, Splice;
      assert fifo[6] == cmd[6];
      var off := CommandOffset();
      FillBuffer(off, fifo[6] as int * 512);
      dma.TransferFromDevice(dmaBuffer);
    }

    method ReadData(ghost cmd: seq<byte>, ghost s: FloppySystem)
      requires Separate() && Inv(s.fdc) && Executable(cmd, s.ctl, s.page) && fifo[..|cmd|] == cmd
      requires cmd[0] % 0x10 == CMD_READ_DATA
      requires s.ctl == dma.ctl.View() && s.page == dma.page[..] && s.mem == dma.Memory()
      requires SameFields(s.fdc)
      modifies this, fifo, dmaBuffer, dma.lowMem, dma.highMem
      ensures Valid()
      ensures View() == Execute(s, cmd)
    {
      hide FloppyController.Phase, DmaController.Valid, DmaController.View;
      hide InBlock, FdcSpec.Count, ReadOffset, FileRead, Splice;
      assert fifo[2] == cmd[2] && fifo[3] == cmd[3];
      MoveSectors(cmd, s);
      cyl := fifo[2];
      head := fifo[3];
      GiveResult(s.fdc.(cyl := cmd[2], head := cmd[3], buffer := dmaBuffer[..]));
    }

    // The DMA registers the transfer depends on, seen through the same view.

    method DmaInB(port: nat) returns (val: byte)
      requires Valid() && Legal(View(), FdcSpec.Dma(DmaSpec.InB(port)))
      modifies dma.ctl.Repr
      ensures Valid() && val == DmaSpec.ReadPort(old(View()).ctl, port)
      ensures View() == Step(old(View()), FdcSpec.Dma(DmaSpec.InB(port)))
    {
      hide Msr, DmaSpec.Step, DmaController.View;
      val := dma.ctl.InB(port);
    }

    method DmaOutB(port: nat, val: byte)
      requires Valid() && Legal(View(), FdcSpec.Dma(DmaSpec.OutB(port, val)))
      modifies dma.ctl.Repr
      ensures Valid()
      ensures View() == Step(old(View()), FdcSpec.Dma(DmaSpec.OutB(port, val)))
    {
      hide Msr, DmaSpec.Step, DmaController.View;
      dma.ctl.OutB(port, val);
    }

    method PageOutB(off: int, val: byte)
      requires Valid() && Legal(View(), FdcSpec.Page(off, val))
      modifies dma.page
      ensures Valid()
      ensures View() == Step(old(View()), FdcSpec.Page(off, val))
    {
      hide Msr;
      dma.PageOutB(off, val);
    }
  }
}
