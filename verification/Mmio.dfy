/**
 Memory-mapped devices: a list of 128K windows decoded first match first, and the expansion ROM whose
 window the guest moves through its PCI configuration.
 */
module MmioSpec {
  import opened Bytes
  import opened Io

  const WINDOW := 0x2_0000
  const LEGACY_BASE := 0xC_0000
  const VRAM_BASE := 0xA_0000
  const INITIAL_ROM_BASE := 0xFFAA_0000

  /** `address & mask` for the 32-bit mask ~0x1FFFF, widened to 64 bits: the address modulo 4G, rounded down to 128K. */
  function Masked(address: nat): nat { address % 0x1_0000_0000 / WINDOW * WINDOW }

  /** A base of zero means not mapped. */
  predicate Matches(base: nat, address: nat) { base != 0 && Masked(address) == base }

  /** The first device in the list whose window holds the address. */
  function First(bases: seq<nat>, address: nat): (r: Option<nat>)
    ensures r.Some? ==> r.value < |bases| && Matches(bases[r.value], address)
  {
    if |bases| == 0 then None
    else if Matches(bases[0], address) then Some(0)
    else
      var r := First(bases[1..], address);
      if r.Some? then Some(r.value + 1) else None
  }

  lemma {:induction false} FirstIsLeast(bases: seq<nat>, address: nat, i: nat)
    requires i < |bases| && Matches(bases[i], address)
    requires forall j :: 0 <= j < i ==> !Matches(bases[j], address)
    ensures First(bases, address) == Some(i)
  {
    if i != 0 {
      FirstIsLeast(bases[1..], address, i - 1);
    }
  }

  lemma {:induction false} FirstNone(bases: seq<nat>, address: nat)
    requires forall j :: 0 <= j < |bases| ==> !Matches(bases[j], address)
    ensures First(bases, address) == None
  {
    if |bases| != 0 { FirstNone(bases[1..], address); }
  }

  // ----- where the ROM is -----

  const EXPROM := 0x30

  predicate IsBar(reg: nat) { reg in {0x10, 0x14, 0x18, 0x1C, 0x20, 0x24} }

  /** A 32-bit configuration write; only base addresses and the expansion ROM register are writable. */
  datatype ConfigWrite = ConfigWrite(reg: nat, val: dword)

  /** A write that enables decoding at some address other than the legacy one; the sizing probe does not. */
  predicate Moves(w: ConfigWrite) {
    w.reg == EXPROM && w.val != 0xFFFF_F800 && w.val % 2 == 1 && w.val - 1 != LEGACY_BASE
  }

  /** The ROM base after a history of configuration writes: that of the last write that moved it. */
  function RomBase(h: seq<ConfigWrite>): nat {
    if |h| == 0 then INITIAL_ROM_BASE
    else if Moves(h[|h| - 1]) then h[|h| - 1].val - 1
    else RomBase(h[..|h| - 1])
  }

  /** No history puts the ROM at its legacy address, the only one where writes would reach memory. */
  lemma {:induction false} NeverLegacy(h: seq<ConfigWrite>)
    ensures RomBase(h) != LEGACY_BASE && RomBase(h) < 0x1_0000_0000
  {
    if |h| != 0 { NeverLegacy(h[..|h| - 1]); }
  }

  // ----- what decodes where -----

  datatype Target = Nothing | Rom | Vram

  /** The two devices in registration order: ROM, then video memory. */
  function Decode(romBase: nat, address: nat): Target {
    match First([romBase, VRAM_BASE], address)
    case None => Nothing
    case Some(i) => if i == 0 then Rom else Vram
  }

  predicate Aligned(base: nat) { base % WINDOW == 0 && 0 < base < 0x1_0000_0000 }

  lemma MaskedBelow4G(address: nat, base: nat)
    requires address < 0x1_0000_0000
    ensures Masked(address) % WINDOW == 0
    ensures base % WINDOW == 0 ==> (Masked(address) == base <==> base <= address < base + WINDOW)
  {}

  lemma DecodeOfTwo(romBase: nat, address: nat)
    ensures Decode(romBase, address) ==
            if Matches(romBase, address) then Rom else if Matches(VRAM_BASE, address) then Vram else Nothing
  {
    var bases := [romBase, VRAM_BASE];
    assert bases[1..] == [VRAM_BASE] && [VRAM_BASE][1..] == [];
    hide Matches;
    assert First([], address) == None;
    assert First([VRAM_BASE], address) == if Matches(VRAM_BASE, address) then Some(0) else None;
  }

  /**
   Below 4G the ROM answers exactly in its own window, and only if its base is a nonzero multiple of
   128K; video memory answers exactly in its window unless the ROM lies on top of it.
   */
  lemma DecodeIsWindows(romBase: nat, address: nat)
    requires address < 0x1_0000_0000
    ensures Decode(romBase, address) == Rom <==>
            romBase % 0x2_0000 == 0 && 0 < romBase <= address < romBase + 0x2_0000
    ensures Decode(romBase, address) == Vram <==> 0xA_0000 <= address < 0xC_0000 && romBase != 0xA_0000
  {
    DecodeOfTwo(romBase, address);
    MaskedBelow4G(address, romBase);
    MaskedBelow4G(address, VRAM_BASE);
  }

  /** An access that stays inside its 128K window stays inside the device that answers. */
  lemma AccessFits(romBase: nat, address: nat, len: nat)
    requires address < 0x1_0000_0000 && address % WINDOW + len <= WINDOW
    ensures Decode(romBase, address) == Rom ==> romBase <= address && address - romBase + len <= WINDOW
    ensures Decode(romBase, address) == Vram ==> VRAM_BASE <= address && address - VRAM_BASE + len <= WINDOW
  {
    DecodeIsWindows(romBase, address);
    if Decode(romBase, address) == Rom { SameRemainder(romBase, address); }
    if Decode(romBase, address) == Vram { SameRemainder(VRAM_BASE, address); }
  }

  lemma SameRemainder(base: nat, address: nat)
    requires base % WINDOW == 0 && base <= address < base + WINDOW
    ensures address % WINDOW == address - base
  {}

  /**
   Where a write leaves the ROM: an odd value for register 0x30 puts it at that value less one, but for
   0xC0000; even values, the sizing probe among them, and the other registers leave it where it was.
   */
  lemma WriteMovesRom(h: seq<ConfigWrite>, w: ConfigWrite)
    ensures RomBase([]) == 0xFFAA_0000
    ensures RomBase(h + [w]) == if w.reg == 0x30 && w.val % 2 == 1 && w.val != 0xC_0001 then w.val - 1 else RomBase(h)
  {
    assert (h + [w])[|h|] == w && (h + [w])[..|h|] == h;
  }

  lemma OddAligned(v: nat)
    requires v % 0x2_0000 == 1
    ensures v % 2 == 1 && (v - 1) % 0x2_0000 == 0
  {
    var q := v / 0x2_0000;
    assert v == 0x2_0000 * q + 1;
    Odd(v, 0x1_0000 * q);
    Multiple(v - 1, q);
  }

  lemma Odd(v: nat, k: nat)
    requires v == 2 * k + 1
    ensures v % 2 == 1
  {}

  lemma Multiple(v: nat, q: nat)
    requires v == 0x2_0000 * q
    ensures v % 0x2_0000 == 0
  {}

  /** Moving the ROM clear of video memory empties its old window and leaves video memory where it was. */
  lemma MovingTheRom(h: seq<ConfigWrite>, w: ConfigWrite, address: nat)
    requires w.reg == 0x30 && w.val % 0x2_0000 == 1 && w.val - 1 !in {0, 0xA_0000, 0xC_0000}
    requires RomBase(h) != 0xA_0000 && address < 0x1_0000_0000
    ensures RomBase(h + [w]) == w.val - 1
    ensures w.val - 1 <= address < w.val - 1 + 0x2_0000 ==> Decode(RomBase(h + [w]), address) == Rom
    ensures Decode(RomBase(h), address) == Rom && RomBase(h) != w.val - 1 ==>
              Decode(RomBase(h + [w]), address) == Nothing
    ensures Decode(RomBase(h), address) == Vram <==> Decode(RomBase(h + [w]), address) == Vram
  {
    WriteMovesRom(h, w);
    OddAligned(w.val);
    hide Decode, RomBase;
    DecodeIsWindows(RomBase(h), address);
    DecodeIsWindows(w.val - 1, address);
  }
}

module Mmio {
  import opened Bytes
  import opened Image
  import opened Io
  import opened MmioSpec
  import opened VgaMemory
  import opened VgaRegs
  import opened Vga

  /** The planes after a guest store: video memory ignores 8-byte stores. */
  function GuestStore(planes: Planes, mask: byte, romBase: nat, address: nat, data: seq<byte>): Planes {
    if Decode(romBase, address) == Vram && |data| != 8
       && VRAM_BASE <= address && address - VRAM_BASE + |data| <= PLANE_SIZE
    then VgaMemory.Write(planes, mask, address - VRAM_BASE, data)
    else planes
  }

  /** What a device registers; a move of the ROM rewrites `base` in place. */
  class MmioDevice {
    var base: nat

    constructor (base: nat)
      ensures this.base == base
    {
      this.base := base;
    }
  }

  class MmioNode {
    const dev: MmioDevice
    var next: MmioNode?

    constructor (dev: MmioDevice)
      ensures this.dev == dev && next == null
    {
      this.dev, next := dev, null;
    }
  }

  /** The device list, extended in place at its tail. */
  class MmioList {
    var head: MmioNode?
    ghost var nodes: seq<MmioNode>

    ghost predicate Valid()
      reads this, nodes
    {
      && (head == if |nodes| == 0 then null else nodes[0])
      && (forall i {:trigger nodes[i]} :: 0 <= i < |nodes| - 1 ==> nodes[i].next == nodes[i + 1])
      && (|nodes| > 0 ==> nodes[|nodes| - 1].next == null)
      && (forall i, j :: 0 <= i < j < |nodes| ==> nodes[i] != nodes[j])
    }

    ghost function Devices(): (ds: seq<MmioDevice>)
      reads this
      ensures |ds| == |nodes| && forall i :: 0 <= i < |ds| ==> ds[i] == nodes[i].dev
    {
      seq(|nodes|, i requires 0 <= i < |nodes| reads this => nodes[i].dev)
    }

    ghost function Bases(): (bs: seq<nat>)
      reads this, Devices()
      ensures |bs| == |nodes| && forall i :: 0 <= i < |bs| ==> bs[i] == nodes[i].dev.base
    {
      seq(|nodes|, i requires 0 <= i < |nodes| reads this, Devices() => nodes[i].dev.base)
    }

    constructor ()
      ensures Valid() && nodes == []
    {
      head, nodes := null, [];
    }

    method GetDevice(address: nat) returns (dev: MmioDevice?)
      requires Valid()
      ensures First(Bases(), address) == None ==> dev == null
      ensures First(Bases(), address).Some? ==> dev == Devices()[First(Bases(), address).value]
    {
      var curr := head;
      ghost var i := 0;
      while curr != null
        invariant 0 <= i <= |nodes|
        invariant curr == if i < |nodes| then nodes[i] else null
        invariant forall j :: 0 <= j < i ==> !Matches(Bases()[j], address)
        decreases |nodes| - i
      {
        if curr.dev.base != 0 {
          if Masked(address) == curr.dev.base {
            FirstIsLeast(Bases(), address, i);
            return curr.dev;
          }
        }
        curr := curr.next;
        i := i + 1;
      }
      FirstNone(Bases(), address);
      return null;
    }

    method Register(dev: MmioDevice)
      requires Valid()
      modifies this, nodes
      ensures Valid() && |nodes| == |old(nodes)| + 1
      ensures nodes[..|old(nodes)|] == old(nodes) && fresh(nodes[|old(nodes)|])
      ensures Devices() == old(Devices()) + [dev]
    {
      var node := new MmioNode(dev);
      if head == null {
        head := node;
      } else {
        var curr := head;
        ghost var i := 0;
        while curr.next != null
          invariant Valid() && nodes == old(nodes)
          invariant 0 <= i < |nodes| && curr == nodes[i]
          decreases |nodes| - i
        {
          curr := curr.next;
          i := i + 1;
        }
        curr.next := node;
      }
      nodes := nodes + [node];
    }
  }

  /** The VGA expansion ROM: its configuration block, its contents and the shadow copy of them. */
  class ExpansionRom {
    const conf: array<byte>
    const romData: array<byte>
    const ramData: array<byte>
    const dev: MmioDevice
    ghost var history: seq<ConfigWrite>

    ghost predicate Shape() {
      && conf.Length == 304 && romData.Length == WINDOW && ramData.Length == WINDOW && romData != ramData
    }

    ghost predicate Valid()
      reads this, dev
    {
      Shape() && dev.base == RomBase(history)
    }

    constructor (image: seq<byte>)
      requires |image| == WINDOW
      ensures Valid() && history == [] && romData[..] == image && ramData[..] == image && fresh(dev) && fresh(conf)
      ensures fresh(romData) && fresh(ramData)
    {
      conf := new byte[304](i => 0);
      romData := new byte[WINDOW](i requires 0 <= i < |image| => image[i]);
      ramData := new byte[WINDOW](i requires 0 <= i < |image| => image[i]);
      var d := new MmioDevice(INITIAL_ROM_BASE);
      dev := d;
      history := [];
    }

    method StoreConf(reg: nat, val: dword)
      requires Shape() && reg + 4 <= 304
      modifies conf
      ensures conf[..] == Splice(old(conf[..]), reg, ToLE(4, val))
    {
      DwordLayout(val);
      conf[reg], conf[reg + 1] := val % 0x100, val / 0x100 % 0x100;
      conf[reg + 2], conf[reg + 3] := val / 0x1_0000 % 0x100, val / 0x100_0000;
    }

    method RemapBios(newbase: nat)
      modifies dev
      ensures dev.base == if newbase != LEGACY_BASE then newbase else old(dev.base)
    {
      if newbase != LEGACY_BASE {
        dev.base := newbase;
      }
    }

    /**
     A base address register loses its low byte; the sizing probe reports 128K; anything else is stored,
     and an enabled address moves the window.
     */
    method ConfigWriteL(reg: nat, val: dword)
      requires Valid() && (reg == 0x30 || reg in {0x10, 0x14, 0x18, 0x1C, 0x20, 0x24})
      modifies this, conf, dev
      ensures Valid() && history == old(history) + [ConfigWrite(reg, val)]
      ensures conf[..] == if reg in {0x10, 0x14, 0x18, 0x1C, 0x20, 0x24} then old(conf[..])[reg := 0]
                          else Splice(old(conf[..]), 0x30, ToLE(4, if val == 0xFFFF_F800 then 0xFFFE_0000 else val))
    {
      ghost var w := ConfigWrite(reg, val);
      assert (history + [w])[..|history|] == history;
      if IsBar(reg) {
        conf[reg] := 0;
      } else if val == 0xFFFF_F800 {
        StoreConf(EXPROM, 0xFFFE_0000);
      } else {
        if val % 2 == 1 {
          RemapBios(val - 1);
        }
        StoreConf(reg, val);
      }
      history := history + [w];
    }

    method Read(address: nat, len: nat) returns (data: seq<byte>)
      requires Shape() && dev.base <= address && address - dev.base + len <= WINDOW
      ensures var off := address - dev.base;
              data == if dev.base == LEGACY_BASE then ramData[off..off + len] else romData[off..off + len]
    {
      var off := address - dev.base;
      if dev.base == LEGACY_BASE {
        data := ramData[off..off + len];
      } else {
        data := romData[off..off + len];
      }
    }

    method Write(address: nat, data: seq<byte>)
      requires Shape() && dev.base <= address && address - dev.base + |data| <= WINDOW
      modifies ramData
      ensures dev.base != LEGACY_BASE ==> ramData[..] == old(ramData[..])
      ensures dev.base == LEGACY_BASE ==> ramData[..] == Splice(old(ramData[..]), address - dev.base, data)
    {
      if dev.base == LEGACY_BASE {
        var off := address - dev.base;
        forall i | 0 <= i < |data| { ramData[off + i] := data[i]; }
      }
    }
  }

  /** The guest's memory-mapped accesses, carried to ROM or video memory. */
  class MmioSpace {
    const list: MmioList
    const rom: ExpansionRom
    const vram: MmioDevice
    const vga: VgaContext

    ghost predicate Valid()
      reads list, list.nodes, rom, rom.dev, vram
    {
      && list.Valid() && list.Devices() == [rom.dev, vram]
      && rom.Valid() && vram != rom.dev && vram.base == VRAM_BASE && vga.Valid()
      && rom.romData !in vga.plane && rom.ramData !in vga.plane
    }

    constructor (rom: ExpansionRom, vga: VgaContext)
      requires rom.Valid() && vga.Valid() && rom.romData !in vga.plane && rom.ramData !in vga.plane
      ensures Valid() && this.rom == rom && this.vga == vga
    {
      var l := new MmioList();
      var v := new MmioDevice(VRAM_BASE);
      l.Register(rom.dev);
      l.Register(v);
      list, this.rom, vram, this.vga := l, rom, v, vga;
    }

    ghost function DecodeNow(address: nat): Target
      reads rom.dev
    {
      Decode(rom.dev.base, address)
    }

    method Find(address: nat) returns (dev: MmioDevice?)
      requires Valid()
      ensures dev == match DecodeNow(address) case Nothing => null case Rom => rom.dev case Vram => vram
    {
      dev := list.GetDevice(address);
      assert list.Bases() == [rom.dev.base, VRAM_BASE] by {
        assert list.Devices()[0] == rom.dev && list.Devices()[1] == vram;
      }
    }

    /** An access of natural width that stays below 4G and inside one window; the ROM has no 8-byte handlers. */
    ghost predicate InWindow(address: nat, len: nat)
      reads rom.dev
    {
      && len in {1, 2, 4, 8} && address + len <= 0x1_0000_0000 && address % WINDOW + len <= WINDOW
      && (len == 8 ==> DecodeNow(address) != Rom)
    }

    /** The bytes a read stores: of an 8-byte read only the lower half. */
    ghost function Stored(address: nat, len: nat): seq<byte>
      requires Valid() && InWindow(address, len)
      reads list, list.nodes, rom, rom.dev, rom.romData, vram, vga, vga.plane
    {
      AccessFits(rom.dev.base, address, len);
      var n := if len == 8 then 4 else len;
      match DecodeNow(address)
      case Nothing => []
      case Rom => rom.romData[address - rom.dev.base..address - rom.dev.base + n]
      case Vram => vga.Planes()[0][address - VRAM_BASE..address - VRAM_BASE + n]
    }

    /** What is read goes to the front of the caller's buffer; the rest of the buffer keeps its bytes. */
    method Read(address: nat, len: nat, pData: array<byte>) returns (ok: bool)
      requires Valid() && InWindow(address, len)
      requires pData.Length == 8 && pData !in {rom.romData, rom.ramData} && pData !in vga.plane
      modifies pData
      ensures Valid() && ok == (DecodeNow(address) != Nothing)
      ensures pData[..] == Splice(old(pData[..]), 0, old(Stored(address, len)))
    {
      hide VgaMemory.Write, Decode, RomBase, Splice;
      hide MmioList.Valid, MmioList.Devices, VgaContext.Planes, VgaContext.Registers;
      var dev := Find(address);
      ghost var bytes := Stored(address, len);
      AccessFits(rom.dev.base, address, len);
      NeverLegacy(rom.history);
      if dev == null {
        SpliceNext(pData[..], 0, [], []);
        return false;
      }
      if dev == rom.dev {
        var data := rom.Read(address, len);
        assert data == bytes;
        StoreBytes(pData, data);
        return true;
      }
      ReadVram(address - VRAM_BASE, len, pData);
      return true;
    }

    static method StoreBytes(pData: array<byte>, data: seq<byte>)
      requires |data| <= pData.Length
      modifies pData
      ensures pData[..] == Splice(old(pData[..]), 0, data)
    {
      forall i | 0 <= i < |data| { pData[i] := data[i]; }
    }

    /** By width; of the 64 bits of an 8-byte read 32 are stored. */
    method ReadVram(off: nat, len: nat, pData: array<byte>)
      requires vga.Valid() && len in {1, 2, 4, 8} && off + len <= WINDOW && pData.Length == 8 && pData !in vga.plane
      modifies pData
      ensures pData[..] == Splice(old(pData[..]), 0, old(vga.Planes()[0][off..off + if len == 8 then 4 else len]))
    {
      hide Splice;
      if len == 1 {
        var v := vga.ReadB(off);
        assert vga.Planes()[0][off..off + 1] == [v];
        StoreBytes(pData, [v]);
      } else if len == 2 {
        var v := vga.ReadW(off);
        StoreBytes(pData, ToLE(2, v));
      } else if len == 4 {
        var v := vga.ReadL(off);
        StoreBytes(pData, ToLE(4, v));
      } else {
        var v := vga.ReadQ(off);
        var all := vga.Planes()[0][off..off + 8];
        LowHalf(all);
        assert all[..4] == vga.Planes()[0][off..off + 4];
        StoreBytes(pData, ToLE(4, v % 0x1_0000_0000));
      }
    }

    /** No write ever changes the ROM or its shadow; one that reaches video memory is a masked plane write. */
    method Write(address: nat, data: seq<byte>) returns (ok: bool)
      requires Valid() && InWindow(address, |data|)
      modifies rom.ramData, vga.plane
      ensures Valid() && ok == (DecodeNow(address) != Nothing)
      ensures rom.romData[..] == old(rom.romData[..]) && rom.ramData[..] == old(rom.ramData[..])
      ensures vga.Planes() == GuestStore(old(vga.Planes()), vga.seqReg[MAP_MASK], rom.dev.base, address, data)
    {
      hide VgaMemory.Write, Decode, RomBase;
      var dev := Find(address);
      AccessFits(rom.dev.base, address, |data|);
      NeverLegacy(rom.history);
      if dev == null { return false; }
      if dev == rom.dev {
        rom.Write(address, data);
        return true;
      }
      if |data| != 8 {
        WriteVram(address - VRAM_BASE, data);
      }
      return true;
    }

    /** By width, as the little-endian value of the bytes. */
    method WriteVram(off: nat, data: seq<byte>)
      requires vga.Valid() && |data| in {1, 2, 4} && off + |data| <= WINDOW
      modifies vga.plane
      ensures vga.Planes() == VgaMemory.Write(old(vga.Planes()), vga.seqReg[MAP_MASK], off, data)
    {
      hide VgaMemory.Write;
      LERoundTrip(data);
      if |data| == 1 {
        assert data == [data[0]];
        vga.WriteB(off, data[0]);
      } else if |data| == 2 {
        vga.WriteW(off, FromLE(data));
      } else {
        vga.WriteL(off, FromLE(data));
      }
    }
  }
}
