/**
 The machine as it comes up, and what its ports read first.
 */
module Startup {
  import opened Bytes
  import opened Image
  import opened Io
  import opened MachineSpec
  import Ata
  import AtaRuns
  import DmaSpec
  import FdcSpec
  import KeyboardSpec
  import DiskPorts
  import FloppyPorts
  import KeyboardPorts

  /** Everything at rest; only the floppy's sector buffer and the guest's memory hold arbitrary bytes. */
  predicate PoweredOn(m: Machine, disk: seq<byte>, diskette: seq<byte>) {
    && m.ata == AtaRuns.Initial(disk, WordBytes(Ata.IdentifyWords(Ata.SectorCount(disk))))
    && m.kbd == KeyboardSpec.Initial
    && m.dma1 == DmaSpec.Ctl(DmaSpec.Cleared(), 0, 0) && m.floppy.ctl == DmaSpec.Ctl(DmaSpec.Cleared(), 0, 0)
    && m.floppy.page == Zeros(15)
    && m.floppy.fdc == FloppyAtRest(diskette, m.floppy.fdc.buffer)
  }

  function FloppyAtRest(diskette: seq<byte>, buffer: FdcSpec.Buffer64K): FdcSpec.Fdc {
    FdcSpec.Fdc(FdcSpec.Ready, false, 0, 0, 0, 0, 0, 1, Zeros(3), diskette, buffer, false)
  }

  /** The first reads: a ready disk without an error, the master selected, a ready floppy, no key, no interrupt. */
  lemma FirstReads(m: Machine, disk: seq<byte>, diskette: seq<byte>)
    requires Inv(m) && PoweredOn(m, disk, diskette)
    ensures Reads(m, 0x1F1) == Some(0) && Reads(m, 0x1F6) == Some(0xA0) && Reads(m, 0x1F7) == Some(0x40)
    ensures Reads(m, 0x3F2) == Some(0) && Reads(m, 0x3F4) == Some(0x80)
    ensures Reads(m, 0x60) == Some(0) && Reads(m, 0x64) == Some(0)
    ensures !m.ata.irq14 && !m.floppy.fdc.irq6 && !m.kbd.irq1
    ensures !m.floppy.ctl.reg[4].odd && !m.floppy.ctl.reg[5].odd
  {
    hide Legal, Step, Delivered;
    DiskPorts.MasterReads(m, 0x1F1);
    DiskPorts.MasterReads(m, 0x1F7);
    DiskPorts.HeadReads(m);
    hide Reads;
    FloppyPorts.OutputReads(m);
    FloppyPorts.StatusReads(m);
    KeyboardPorts.PortsRead(m);
  }
}
