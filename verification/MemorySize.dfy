/**
 The RAM slots requested from KVM, and what the CMOS registers tell the firmware about them.
 */
module MemorySize {
  import opened Bytes
  import opened Io

  const MB := 0x10_0000
  const HOLE := 0xE000_0000
  const FOUR_GB := 0x1_0000_0000

  datatype Slot = Slot(base: nat, length: nat)

  /** Subtraction of 64-bit unsigned values. */
  function Sub64(a: nat, b: nat): nat { (a - b) % 0x1_0000_0000_0000_0000 }

  /** Slots requested so far and the size reported to the devices. */
  class GuestMemory {
    var slots: seq<Slot>
    var currmemslot: nat
    var ramsize: nat

    constructor ()
      ensures slots == [] && currmemslot == 0 && ramsize == 0
    {
      slots, currmemslot, ramsize := [], 0, 0;
    }

    method Map(base: nat, length: nat)
      modifies this
      ensures slots == old(slots) + [Slot(base, length)]
      ensures currmemslot == old(currmemslot) + 1 && ramsize == old(ramsize)
    {
      currmemslot := currmemslot + 1;
      slots := slots + [Slot(base, length)];
    }

    method MapRam(megs: dword)
      modifies this
      ensures slots == old(slots) + RamSlots(megs * MB) && ramsize == megs * MB
      ensures currmemslot == old(currmemslot) + |RamSlots(megs * MB)|
    {
      var ramEnd := megs as int * MB;
      Map(0, 0xA_0000);
      Map(0xC_0000, 0x2_0000);
      if ramEnd <= HOLE {
        Map(MB, Sub64(ramEnd, MB));
      } else {
        Map(MB, HOLE - MB);
        Map(FOUR_GB, Sub64(ramEnd, 0xE010_0000));
      }
      ramsize := ramEnd;
    }
  }

  function RamSlots(ramEnd: nat): seq<Slot> {
    [Slot(0, 0xA_0000), Slot(0xC_0000, 0x2_0000)]
    + if ramEnd <= HOLE then [Slot(MB, Sub64(ramEnd, MB))]
      else [Slot(MB, HOLE - MB), Slot(FOUR_GB, Sub64(ramEnd, 0xE010_0000))]
  }

  // ----- the CMOS side -----

  /** Memory above 16M and below the hole. */
  function ExtendedLow(ramsize: nat): nat {
    var rs := if ramsize > HOLE then HOLE else ramsize;
    Sub64(rs, 16 * MB)
  }

  /** Memory above 4G. */
  function High(ramsize: nat): nat {
    if ramsize <= HOLE then 0 else Sub64(ramsize, 0xE010_0000)
  }

  /** The memory-size registers of the CMOS. */
  function CmosRead(ramsize: nat, reg: byte): byte
    requires reg in {0x30, 0x31, 0x34, 0x35, 0x5b, 0x5c, 0x5d}
  {
    if reg == 0x30 then ExtendedLow(ramsize) / 0x400 % 0x100
    else if reg == 0x31 then ExtendedLow(ramsize) / 0x4_0000 % 0x100
    else if reg == 0x34 then ExtendedLow(ramsize) / 0x1_0000 % 0x100
    else if reg == 0x35 then ExtendedLow(ramsize) / 0x100_0000 % 0x100
    else if reg == 0x5b then High(ramsize) / 0x1_0000 % 0x100
    else if reg == 0x5c then High(ramsize) / 0x100_0000 % 0x100
    else High(ramsize) / 0x1_0000_0000 % 0x100
  }

  /** What firmware computes from the registers in units of 64K, and of 1K. */
  function FirmwareLow(ramsize: nat): nat {
    16 * MB + 0x1_0000 * (CmosRead(ramsize, 0x34) as int + 0x100 * CmosRead(ramsize, 0x35) as int)
  }

  function FirmwareHigh(ramsize: nat): nat {
    0x1_0000 * (CmosRead(ramsize, 0x5b) as int + 0x100 * CmosRead(ramsize, 0x5c) as int
                + 0x1_0000 * CmosRead(ramsize, 0x5d) as int)
  }

  function FirmwareKilobytes(ramsize: nat): nat {
    16 * MB + 0x400 * (CmosRead(ramsize, 0x30) as int + 0x100 * CmosRead(ramsize, 0x31) as int)
  }

  lemma TwoDigits(x: nat)
    ensures x % 0x100 + 0x100 * (x / 0x100 % 0x100) == x % 0x1_0000
  {
    var q := x / 0x100;
    assert x == 0x100 * q + x % 0x100 && q == 0x100 * (q / 0x100) + q % 0x100;
    LowWord(x % 0x100, q % 0x100, q / 0x100);
  }

  lemma LowWord(low: nat, digit: nat, rest: nat)
    requires low < 0x100 && digit < 0x100
    ensures (low + 0x100 * digit + 0x1_0000 * rest) % 0x1_0000 == low + 0x100 * digit
  {}

  lemma ThreeDigits(x: nat)
    ensures x % 0x100 + 0x100 * (x / 0x100 % 0x100) + 0x1_0000 * (x / 0x1_0000 % 0x100) == x % 0x100_0000
  {
    var high := x / 0x1_0000;
    TwoDigits(x);
    Upper(x, high);
    Rejoined(x % 0x1_0000, high % 0x100, high / 0x100);
  }

  lemma Upper(x: nat, high: nat)
    requires high == x / 0x1_0000
    ensures x == x % 0x1_0000 + 0x1_0000 * (high % 0x100) + 0x100_0000 * (high / 0x100)
  {
    assert x == 0x1_0000 * high + x % 0x1_0000 && high == 0x100 * (high / 0x100) + high % 0x100;
  }

  lemma Rejoined(low: nat, digit: nat, rest: nat)
    requires low < 0x1_0000 && digit < 0x100
    ensures (low + 0x1_0000 * digit + 0x100_0000 * rest) % 0x100_0000 == low + 0x1_0000 * digit
  {}

  /** The extended memory in whole megabytes. */
  function LowMegs(megs: nat): int { (if megs > HOLE / MB then HOLE / MB else megs) - 16 }

  lemma LowSize(megs: dword)
    requires megs >= 16
    ensures 0 <= LowMegs(megs) < 0x1000 && ExtendedLow(megs * MB) == LowMegs(megs) * MB
  {}

  lemma Kilobytes(m: nat)
    ensures m * MB / 0x400 == 0x400 * m && m * MB / 0x4_0000 == 4 * m && 0x400 * m / 0x100 == 4 * m
    ensures 0x400 * m % 0x1_0000 == 0x400 * m <==> m < 0x40
  {}

  lemma Sections(m: nat)
    ensures m * MB / 0x1_0000 == 0x10 * m && m * MB / 0x100_0000 == 0x10 * m / 0x100
  {}

  /** From 16M up, registers 0x34 and 0x35 give exactly the end of the slot that starts at 1M. */
  lemma LowMemoryAgrees(megs: dword)
    requires megs >= 16
    ensures var s := RamSlots(megs * 0x10_0000)[2];
            s.base == 0x10_0000 && FirmwareLow(megs * 0x10_0000) == s.base + s.length
  {
    var m := LowMegs(megs);
    LowSize(megs);
    Sections(m);
    TwoDigits(0x10 * m);
    hide ExtendedLow;
    assert FirmwareLow(megs as int * MB) == 16 * MB + 0x1_0000 * (0x10 * m);
  }

  /** Beyond the hole, registers 0x5b-0x5d give the length of the slot at 4G exactly while it is below 1T. */
  lemma HighMemoryAgrees(megs: dword)
    requires megs * 0x10_0000 > 0xE000_0000
    ensures var s := RamSlots(megs * 0x10_0000)[3];
            && s.base == 0x1_0000_0000
            && (FirmwareHigh(megs * 0x10_0000) == s.length <==> s.length < 0x100_0000_0000)
  {
    var len := High(megs as int * MB);
    var units := len / 0x1_0000;
    assert len == units * 0x1_0000 by { assert len % 0x1_0000 == 0; }
    HighBytes(len, units);
    ThreeDigits(units);
    hide High, Sub64;
    assert FirmwareHigh(megs as int * MB) == 0x1_0000 * (units % 0x100_0000);
    assert units % 0x100_0000 == units <==> units < 0x100_0000;
  }

  lemma HighBytes(len: nat, units: nat)
    requires len == units * 0x1_0000
    ensures len / 0x1_0000 == units && len / 0x100_0000 == units / 0x100 && len / 0x1_0000_0000 == units / 0x1_0000
  {}

  /** Registers 0x30 and 0x31 count kilobytes in sixteen bits: they agree exactly below 80M. */
  lemma KilobytesAgree(megs: dword)
    requires 16 <= megs
    ensures var s := RamSlots(megs * MB)[2];
            FirmwareKilobytes(megs * MB) == s.base + s.length <==> megs < 80
  {
    var m := LowMegs(megs);
    LowSize(megs);
    Kilobytes(m);
    TwoDigits(0x400 * m);
    hide ExtendedLow;
    assert FirmwareKilobytes(megs as int * MB) == 16 * MB + 0x400 * (0x400 * m % 0x1_0000);
  }

  /** Guest-visible RAM above the first megabyte. */
  function Extended(slots: seq<Slot>): nat {
    if |slots| == 3 then slots[2].length else if |slots| == 4 then slots[2].length + slots[3].length else 0
  }

  /** All memory above the first megabyte is mapped exactly when no hole is needed; else one megabyte is lost. */
  lemma RamIsConserved(megs: dword)
    requires megs >= 1
    ensures var ram, slots := megs as int * 0x10_0000, RamSlots(megs * 0x10_0000);
            && (0x10_0000 + Extended(slots) == ram <==> ram <= 0xE000_0000)
            && (ram > 0xE000_0000 ==> 0x10_0000 + Extended(slots) == ram - 0x10_0000)
            && slots[0] == Slot(0, 0xA_0000) && slots[1] == Slot(0xC_0000, 0x2_0000)
            && (ram > 0xE000_0000 ==> slots[2] == Slot(0x10_0000, 0xDFF0_0000) && slots[3].base == 0x1_0000_0000)
  {
    var ramEnd := megs as int * MB;
    assert ramEnd > HOLE ==> ramEnd >= 0xE010_0000;
  }

  /** The requested slots never overlap. */
  lemma SlotsAreDisjoint(megs: dword, i: nat, j: nat)
    requires megs >= 1 && i < j < |RamSlots(megs * MB)|
    ensures var s := RamSlots(megs * MB); s[i].base + s[i].length <= s[j].base
  {}

  // ----- host addresses of low memory -----

  /** A host pointer: which of the two low blocks, and the offset from its start. */
  datatype HostPointer = HostPointer(block: nat, offset: int)

  /** Where device DMA finds a guest address below 1M; anything above aborts. */
  function GetLowMem(addr: dword): Option<HostPointer> {
    if addr < 0xA_0000 then Some(HostPointer(0, addr))
    else if addr <= 0xF_FFFF then Some(HostPointer(1, addr as int - 0xC_0000))
    else None
  }

  /** The pointer lands in the slot of the guest address exactly for addresses the first two slots cover. */
  lemma GetLowMemFindsSlot(addr: dword, megs: dword)
    requires GetLowMem(addr).Some?
    ensures var p := GetLowMem(addr).value;
            var s := RamSlots(megs * MB)[p.block];
            0 <= p.offset < s.length && s.base + p.offset == addr
            <==> addr < 0xA_0000 || 0xC_0000 <= addr < 0xE_0000
  {}
}
