/**
 The 8237 pair, the page registers and conventional memory, with their real state: two-byte
 registers and free-running flip-flop counters in arrays.
 */
module Dma {
  import opened Bytes
  import opened Image
  import opened DmaSpec
  import FdcSpec
  import opened Io
  import opened MemorySize

  class DmaController {
    const regs: array2<byte>
    const flipflop: array<nat>
    ghost const Repr: set<object>
    var mode: byte
    var mask: byte

    ghost predicate Valid() {
      && regs.Length0 == 7 && regs.Length1 == 2 && flipflop.Length == 7
      && Repr == {this, regs, flipflop}
    }

    ghost function View(): Ctl
      requires Valid()
      reads Repr
    {
      Ctl(seq<Reg16>(7, i requires 0 <= i < 7 reads Repr => Entry(i)), mode, mask)
    }

    ghost function Entry(i: nat): Reg16
      requires Valid() && i < 7
      reads Repr
    {
      Reg16(regs[i, 0], regs[i, 1], flipflop[i] % 2 == 1)
    }

    constructor ()
      ensures Valid() && fresh(Repr)
      ensures View() == Ctl(Cleared(), 0, 0)
    {
      regs := new byte[7, 2]((i, j) => 0);
      flipflop := new nat[7](i => 0);
      Repr := {this, regs, flipflop};
      mode, mask := 0, 0;
    }

    method InB(port: nat) returns (val: byte)
      requires Valid() && Legal(DmaSpec.InB(port))
      modifies Repr
      ensures val == ReadPort(old(View()), port)
      ensures View() == Step(old(View()), DmaSpec.InB(port))
    {
      if port <= 6 {
        val := regs[port, flipflop[port] % 2];
        flipflop[port] := flipflop[port] + 1;
      } else if port == COMMAND {
        val := 4;
      } else {
        val := 0;
      }
    }

    method OutB(port: nat, val: byte)
      requires Valid() && Legal(DmaSpec.OutB(port, val))
      modifies Repr
      ensures View() == Step(old(View()), DmaSpec.OutB(port, val))
    {
      if port <= 6 {
        regs[port, flipflop[port] % 2] := val;
        flipflop[port] := flipflop[port] + 1;
      } else if port == MASTER_CLEAR {
        forall i, j | 0 <= i < 7 && 0 <= j < 2 { regs[i, j] := 0; }
        forall i | 0 <= i < 7 { flipflop[i] := 0; }
        mode, mask := 0, 0;
      } else if port == MODE {
        mode := val;
      } else if port == SINGLE_MASK {
        mask := 0xF0 + val % 0x10;
      } else if val > 0 {
        // seven bytes are cleared: entry 0, and the three low bytes of entry 1
        flipflop[0] := 0;
        flipflop[1] := flipflop[1] - flipflop[1] % 0x100_0000;
        MultipleIsEven(flipflop[1]);
      }
    }
  }

  lemma MultipleIsEven(x: nat)
    requires x % 0x100_0000 == 0
    ensures x % 2 == 0
  {}

  class I8237 {
    const ctl: DmaController
    const page: array<byte>
    const lowMem: array<byte>
    const highMem: array<byte>
    ghost const Repr: set<object>

    ghost predicate Valid() {
      && ctl.Valid() && page.Length == 15
      && lowMem.Length == FdcSpec.LOW_BLOCK && highMem.Length == FdcSpec.MEM_SIZE - FdcSpec.HIGH_BASE
      && {page, lowMem, highMem} !! ctl.Repr && Repr == {this, page, lowMem, highMem} + ctl.Repr
    }

    ghost function Dest(): nat
      requires Valid()
      reads Repr
    {
      FdcSpec.Dest(ctl.View(), page[..])
    }

    /** The two blocks by guest address. */
    ghost function Memory(): FdcSpec.LowMem
      requires Valid()
      reads Repr
    {
      lowMem[..] + Zeros(FdcSpec.HIGH_BASE - FdcSpec.LOW_BLOCK) + highMem[..]
    }

    constructor ()
      ensures Valid() && fresh(Repr) && page[..] == Zeros(15)
      ensures ctl.View() == Ctl(Cleared(), 0, 0)
    {
      var c := new DmaController();
      ctl := c;
      page := new byte[15](i => 0);
      lowMem := new byte[FdcSpec.LOW_BLOCK](i => 0);
      highMem := new byte[FdcSpec.MEM_SIZE - FdcSpec.HIGH_BASE](i => 0);
      Repr := {this, page, lowMem, highMem} + c.Repr;
    }

    method PageOutB(port: nat, val: byte)
      requires Valid() && port < 15
      modifies page
      ensures page[..] == old(page[..])[port := val]
    {
      page[port] := val;
    }

    /** Channel 2 only: one more byte than the count register goes to the 24-bit destination. */
    method TransferFromDevice(data: array<byte>)
      requires Valid() && data.Length == FdcSpec.BUFFER_SIZE && data != lowMem && data != highMem
      requires FdcSpec.TransferFits(ctl.View(), page[..])
      modifies lowMem, highMem
      ensures Memory() == Splice(old(Memory()), Dest(), data[..FdcSpec.Count(ctl.View()) + 1])
    {
      assert ctl.View().reg[START_ADDR_2] == ctl.Entry(4) && ctl.View().reg[COUNT_2] == ctl.Entry(5);
      var destOff := page[1] as int * 0x1_0000
        + ctl.regs[START_ADDR_2, 1] as int * 0x100 + ctl.regs[START_ADDR_2, 0] as int;
      var count := ctl.regs[COUNT_2, 1] as int * 0x100 + ctl.regs[COUNT_2, 0] as int;
      assert destOff == Dest() && count == FdcSpec.Count(ctl.View());
      var dest := GetLowMem(destOff).value;
      MoveToBlock(dest, destOff, data, count + 1);
    }

    /** `memcpy` to a host pointer. */
    method MoveToBlock(dest: HostPointer, ghost d: nat, data: array<byte>, n: nat)
      requires Valid() && 0 < n <= data.Length && data != lowMem && data != highMem
      requires d < 0x10_0000 && FdcSpec.InBlock(d, n) && GetLowMem(d) == Some(dest)
      modifies lowMem, highMem
      ensures Memory() == Splice(old(Memory()), d, data[..n])
    {
      ghost var low, gap, high := lowMem[..], Zeros(FdcSpec.HIGH_BASE - FdcSpec.LOW_BLOCK), highMem[..];
      if dest.block == 0 {
        CopyTo(lowMem, dest.offset, data, n);
        hide Splice, Zeros;
        SpliceInBlock(low, gap, d, data[..n]);
        SpliceInBlock(low + gap, high, d, data[..n]);
      } else {
        CopyTo(highMem, dest.offset, data, n);
        hide Splice, Zeros;
        SpliceInBlock(low + gap, high, dest.offset, data[..n]);
      }
    }

    static method CopyTo(block: array<byte>, at: nat, data: array<byte>, n: nat)
      requires at + n <= block.Length && n <= data.Length && block != data
      modifies block
      ensures block[..] == Splice(old(block[..]), at, data[..n])
    {
      forall i | 0 <= i < n { block[at + i] := data[i]; }
    }
  }
}
