/**
 PCI configuration mechanism: an address latch, and a table of devices numbered as they register.
 */
module Pci {
  import opened Bytes

  const MAX_FPB := 256
  const CONF_SIZE := 304

  // ----- the address latch -----

  datatype Latch = Latch(configspace: nat, bus: byte, dev: byte, fn: byte, index: byte)

  function Decode(v: dword): Latch {
    Latch(v / 0x8000_0000, v / 0x1_0000 % 0x10, v / 0x800 % 0x20, v / 0x100 % 8, v % 0x100)
  }

  function Compose(s: Latch): nat {
    s.configspace * 0x8000_0000 + (s.bus as int % 0x10) * 0x1_0000 + (s.dev as int % 0x20) * 0x800 + s.index as int
  }

  /** The fields of an address are where the configuration mechanism puts them; bits 20-30 are ignored. */
  lemma AddressFields(cs: nat, ignored: nat, bus: nat, dev: nat, fn: nat, index: byte)
    requires cs <= 1 && ignored < 0x800 && bus < 0x10 && dev < 0x20 && fn < 8
    ensures var v := cs * 0x8000_0000 + ignored * 0x10_0000 + bus * 0x1_0000 + dev * 0x800 + fn * 0x100 + index as int;
            v < 0x1_0000_0000 && Decode(v) == Latch(cs, bus, dev, fn, index)
  {
    var d := cs * 0x800 + ignored;
    var c := d * 0x10 + bus;
    var b := c * 0x20 + dev;
    var a := b * 8 + fn;
    var v := a * 0x100 + index as int;
    assert v == cs * 0x8000_0000 + ignored * 0x10_0000 + bus * 0x1_0000 + dev * 0x800 + fn * 0x100 + index as int;
    Fields(v, a, b, c, d, cs);
  }

  /**
   The address port returns what was written without the function number (bits 8-10) and without
   bits 20-30: what is missing is exactly those fields of the value.
   */
  lemma AddressReadsBack(v: dword)
    ensures v - Compose(Decode(v)) == (v / 0x100 % 8) * 0x100 + (v / 0x10_0000 % 0x800) * 0x10_0000
    ensures Compose(Decode(v)) == v <==> v / 0x100 % 8 == 0 && v / 0x10_0000 % 0x800 == 0
  {
    var a := v / 0x100;
    var b := a / 8;
    var c := b / 0x20;
    var d := c / 0x10;
    var e := d / 0x800;
    Fields(v, a, b, c, d, e);
    Missing(v, a, b, c, d, e);
    FieldRanges(b, c, e);
    assert Compose(Decode(v)) == e * 0x8000_0000 + c % 0x10 * 0x1_0000 + b % 0x20 * 0x800 + v % 0x100;
    hide Compose, Decode;
  }

  lemma FieldRanges(b: nat, c: nat, e: nat)
    ensures b % 0x20 < 0x100 && b % 0x20 % 0x20 == b % 0x20 && c % 0x10 % 0x10 == c % 0x10
  {}

  lemma Missing(v: nat, a: nat, b: nat, c: nat, d: nat, e: nat)
    requires a == v / 0x100 && b == a / 8 && c == b / 0x20 && d == c / 0x10 && e == d / 0x800
    ensures v - (e * 0x8000_0000 + c % 0x10 * 0x1_0000 + b % 0x20 * 0x800 + v % 0x100)
            == a % 8 * 0x100 + d % 0x800 * 0x10_0000
  {
    assert d == d % 0x800 + 0x800 * e && c == c % 0x10 + 0x10 * d && b == b % 0x20 + 0x20 * c;
    assert a == a % 8 + 8 * b && v == v % 0x100 + 0x100 * a;
  }

  lemma Fields(v: dword, a: nat, b: nat, c: nat, d: nat, e: nat)
    requires a == v / 0x100 && b == a / 8 && c == b / 0x20 && d == c / 0x10 && e == d / 0x800
    ensures v / 0x800 == b && v / 0x1_0000 == c && v / 0x10_0000 == d && v / 0x8000_0000 == e
  {
    assert v / 0x800 == b;
    assert v / 0x1_0000 == c;
    assert v / 0x10_0000 == d;
  }

  class PciDevice {
    const conf: array<byte>
    var bus: byte
    var dev: byte
    var fn: byte

    constructor ()
      ensures conf.Length == CONF_SIZE && fresh(conf)
    {
      conf := new byte[CONF_SIZE](i => 0);
      bus, dev, fn := 0, 0, 0;
    }
  }

  class PciBus {
    const slot: array<PciDevice?>
    var devs: nat
    var configspace: nat
    var bus: byte
    var dev: byte
    var fn: byte
    var index: byte

    /** Slot i holds device number i, on bus 0, function 0; the rest of the table is empty. */
    ghost predicate Valid()
      reads this, slot, Registered()
    {
      && slot.Length == MAX_FPB && devs <= MAX_FPB
      && (forall i :: 0 <= i < devs ==>
            && slot[i] != null && slot[i].bus == 0 && slot[i].dev == i && slot[i].fn == 0
            && slot[i].conf.Length == CONF_SIZE)
      && (forall i :: devs <= i < MAX_FPB ==> slot[i] == null)
      && dev < 32 && configspace <= 1
    }

    ghost function Registered(): set<object>
      reads slot
    {
      set i | 0 <= i < slot.Length && slot[i] != null :: slot[i]
    }

    constructor ()
      ensures Valid() && devs == 0 && fresh(slot)
    {
      slot := new PciDevice?[MAX_FPB](i => null);
      devs, configspace, bus, dev, fn, index := 0, 0, 0, 0, 0, 0;
    }

    /** The next device gets the next number; a full table refuses it. */
    method Register(newdev: PciDevice) returns (ok: bool)
      requires Valid() && newdev !in Registered() && newdev.conf.Length == CONF_SIZE
      modifies this, slot, newdev
      ensures Valid() && ok == (old(devs) < MAX_FPB)
      ensures ok ==> devs == old(devs) + 1 && slot[..] == old(slot[..])[old(devs) := newdev] && newdev.dev == old(devs)
      ensures !ok ==> devs == old(devs) && slot[..] == old(slot[..])
    {
      var i := 0;
      while i < MAX_FPB
        invariant 0 <= i <= devs
      {
        if slot[i] == null {
          slot[i] := newdev;
          newdev.bus := 0;
          newdev.dev := devs;
          newdev.fn := 0;
          devs := devs + 1;
          return true;
        }
        i := i + 1;
      }
      return false;
    }

    /** The linear search for the latched address agrees with indexing the table by device number. */
    method GetDevice() returns (r: PciDevice?)
      requires Valid()
      ensures r == if bus == 0 && fn == 0 && dev < devs then slot[dev] else null
    {
      var i := 0;
      while i < MAX_FPB
        invariant 0 <= i <= MAX_FPB
        invariant bus == 0 && fn == 0 ==> i <= dev || devs <= dev
      {
        if slot[i] != null {
          if slot[i].bus == bus && slot[i].dev == dev && slot[i].fn == fn {
            return slot[i];
          }
        }
        i := i + 1;
      }
      return null;
    }

    method WriteAddress(v: dword)
      requires Valid()
      modifies this
      ensures Valid() && devs == old(devs)
      ensures Latch(configspace, bus, dev, fn, index) == Decode(v)
    {
      configspace := v / 0x8000_0000;
      index := v % 0x100;
      bus := v / 0x1_0000 % 0x10;
      dev := v / 0x800 % 0x20;
      fn := v / 0x100 % 8;
    }

    method ReadAddress() returns (v: dword)
      requires Valid()
      ensures v == Compose(Latch(configspace, bus, dev, fn, index))
    {
      v := configspace * 0x8000_0000 + (bus as int % 0x10) * 0x1_0000 + (dev as int % 0x20) * 0x800 + index as int;
    }

    /**
     A 32-bit configuration read through the data port, at any of its four offsets, stays inside the
     device's block; an absent device reads as 0xFFFF, not as all ones.
     */
    method ReadConfigL(port: nat) returns (v: dword)
      requires Valid() && 4 <= port < 8
      ensures if bus == 0 && fn == 0 && dev < devs
              then var reg := index as int + port - 4;
                   reg + 4 <= CONF_SIZE && ToLE(4, v) == slot[dev].conf[reg..reg + 4]
              else v == 0xFFFF
    {
      var d := GetDevice();
      if d == null { return 0xFFFF; }
      var reg := index as int + port - 4;
      var b := d.conf[reg..reg + 4];
      v := b[0] as int + 0x100 * b[1] as int + 0x1_0000 * b[2] as int + 0x100_0000 * b[3] as int;
      LERoundTrip(b);
    }
  }
}
