/**
 The port decoder: handlers claim `port & mask == base`, the first registered claim wins.
 */
module Io {
  datatype Option<T> = None | Some(value: T)

  datatype DeviceId =
    | Cmos | Ps2Pos | BiosDebug | Dma0 | Dma1 | DmaPage | Pci | QemuParavirt | Keyboard
    | Parallel | Serial | VgaRegisters | VgaDebug | Vbe | Floppy | AtaDisk

  datatype IoHandler = IoHandler(base: bv16, mask: bv16, dev: DeviceId)

  predicate Claims(h: IoHandler, port: bv16) { port & h.mask == h.base }

  /** The answer of the decoder: the earliest claim. */
  function Lookup(hs: seq<IoHandler>, port: bv16): Option<IoHandler> {
    if |hs| == 0 then None
    else if Claims(hs[0], port) then Some(hs[0])
    else Lookup(hs[1..], port)
  }

  ghost predicate FirstClaim(hs: seq<IoHandler>, port: bv16, i: nat) {
    i < |hs| && Claims(hs[i], port) && forall j :: 0 <= j < i ==> !Claims(hs[j], port)
  }

  lemma {:induction false} LookupIsFirstClaim(hs: seq<IoHandler>, port: bv16, i: nat)
    requires FirstClaim(hs, port, i)
    ensures Lookup(hs, port) == Some(hs[i])
  {
    if i != 0 {
      assert !Claims(hs[0], port);
      assert FirstClaim(hs[1..], port, i - 1);
      LookupIsFirstClaim(hs[1..], port, i - 1);
    }
  }

  lemma {:induction false} LookupNone(hs: seq<IoHandler>, port: bv16)
    ensures Lookup(hs, port) == None <==> forall h :: h in hs ==> !Claims(h, port)
  {
    if |hs| != 0 {
      LookupNone(hs[1..], port);
      assert hs == [hs[0]] + hs[1..];
    }
  }

  /** A later registration is heard only on ports nobody claimed before. */
  lemma {:induction false} RegistrationKeepsClaims(hs: seq<IoHandler>, h: IoHandler, port: bv16)
    ensures Lookup(hs + [h], port) ==
            if Lookup(hs, port).Some? then Lookup(hs, port) else if Claims(h, port) then Some(h) else None
  {
    if |hs| == 0 {
      assert hs + [h] == [h];
      assert [h][1..] == [];
    } else {
      assert (hs + [h])[1..] == hs[1..] + [h];
      RegistrationKeepsClaims(hs[1..], h, port);
    }
  }

  const MAX_HANDLERS := 128

  class PortTable {
    const iohandler: array<IoHandler>
    var iohandlers: nat

    ghost predicate Valid()
      reads this
    {
      iohandler.Length == MAX_HANDLERS && iohandlers <= MAX_HANDLERS - 1
    }

    ghost function Handlers(): seq<IoHandler>
      requires Valid()
      reads this, iohandler
    {
      iohandler[..iohandlers]
    }

    constructor ()
      ensures Valid() && fresh(iohandler) && Handlers() == []
    {
      iohandler := new IoHandler[MAX_HANDLERS](i => IoHandler(0, 0, Cmos));
      iohandlers := 0;
    }

    method LookupHandler(address: bv16) returns (r: Option<IoHandler>)
      requires Valid()
      ensures r == Lookup(Handlers(), address)
    {
      hide Claims;
      var i := 0;
      while i < iohandlers
        invariant 0 <= i <= iohandlers
        invariant forall j :: 0 <= j < i ==> !Claims(iohandler[j], address)
      {
        if Claims(iohandler[i], address) {
          LookupIsFirstClaim(Handlers(), address, i);
          return Some(iohandler[i]);
        }
        i := i + 1;
      }
      LookupNone(Handlers(), address);
      return None;
    }

    /** Returns the slot, which is what remapping takes; the last slot of the array stays unused. */
    method Register(h: IoHandler) returns (slot: Option<nat>)
      requires Valid()
      modifies this, iohandler
      ensures Valid()
      ensures slot == if |old(Handlers())| < MAX_HANDLERS - 1 then Some(|old(Handlers())|) else None
      ensures Handlers() == if slot.Some? then old(Handlers()) + [h] else old(Handlers())
    {
      if iohandlers < MAX_HANDLERS - 1 {
        iohandler[iohandlers] := h;
        iohandlers := iohandlers + 1;
        return Some(iohandlers - 1);
      }
      return None;
    }

    method Remap(slot: nat, h: IoHandler)
      requires Valid() && slot < |Handlers()|
      modifies iohandler
      ensures Valid() && Handlers() == old(Handlers())[slot := h]
    {
      iohandler[slot] := h;
    }
  }

  // ----- overlap -----

  predicate Normalised(h: IoHandler) { h.base & !h.mask == 0 }

  /** A handler whose base has bits outside its mask can never be reached; any other is reached at its base. */
  lemma ReachableIffNormalised(h: IoHandler)
    ensures (exists port: bv16 :: Claims(h, port)) <==> Normalised(h)
  {
    if Normalised(h) {
      assert h.base & h.mask == h.base;
      assert Claims(h, h.base);
    } else {
      forall port: bv16 ensures !Claims(h, port) {
        assert (port & h.mask) & !h.mask == 0;
      }
    }
  }

  predicate Compatible(a: IoHandler, b: IoHandler) { (a.base ^ b.base) & a.mask & b.mask == 0 }

  lemma SharedPort(a: IoHandler, b: IoHandler, port: bv16)
    requires Claims(a, port) && Claims(b, port)
    ensures Compatible(a, b)
  {
    NoOverlap(a.base, a.mask, b.base, b.mask, port);
  }

  lemma ClaimsUnionOfBases(a: IoHandler, b: IoHandler)
    requires Normalised(a) && Normalised(b) && Compatible(a, b)
    ensures Claims(a, a.base | b.base)
  {}

  lemma CompatibleSymmetric(a: IoHandler, b: IoHandler)
    ensures Compatible(a, b) == Compatible(b, a)
  {}

  /** Two reachable handlers share a port exactly when their bases agree on the mask bits they have in common. */
  lemma OverlapIff(a: IoHandler, b: IoHandler)
    requires Normalised(a) && Normalised(b)
    ensures (exists port: bv16 :: Claims(a, port) && Claims(b, port)) <==> Compatible(a, b)
  {
    hide Claims, Compatible;
    if Compatible(a, b) {
      CompatibleSymmetric(a, b);
      ClaimsUnionOfBases(a, b);
      ClaimsUnionOfBases(b, a);
      OrCommutes(a.base, b.base);
    }
    forall port: bv16 | Claims(a, port) && Claims(b, port) ensures Compatible(a, b) {
      SharedPort(a, b, port);
    }
  }

  lemma OrCommutes(x: bv16, y: bv16)
    ensures x | y == y | x
  {}

  lemma NoOverlap(ba: bv16, ma: bv16, bb: bv16, mb: bv16, port: bv16)
    requires port & ma == ba && port & mb == bb
    ensures (ba ^ bb) & ma & mb == 0
  {}

  // ----- the machine's registration order -----

  function DeviceTable(): seq<IoHandler> {
    [ IoHandler(0x0070, 0x00FE, Cmos),
      IoHandler(0x0090, 0xFFF8, Ps2Pos),
      IoHandler(0x0402, 0xFFFF, BiosDebug),
      IoHandler(0x0000, 0xFFF0, Dma0),
      IoHandler(0x00C0, 0xFFE0, Dma1),
      IoHandler(0x0080, 0xFFF0, DmaPage),
      IoHandler(0x0CF8, 0xFFF8, Pci),
      IoHandler(0x0510, 0xFFFE, QemuParavirt),
      IoHandler(0x0060, 0xFFF8, Keyboard),
      IoHandler(0x0378, 0xFFFC, Parallel),
      IoHandler(0x0278, 0xFFFC, Parallel),
      IoHandler(0x03F8, 0xFFF8, Serial),
      IoHandler(0x02F8, 0xFFF8, Serial),
      IoHandler(0x03E8, 0xFFF8, Serial),
      IoHandler(0x02E8, 0xFFF8, Serial),
      IoHandler(0x03C0, 0xFFF0, VgaRegisters),
      IoHandler(0x03D0, 0xFFF0, VgaRegisters),
      IoHandler(0x0500, 0xFFFF, VgaDebug),
      IoHandler(0x01CE, 0xFFFE, Vbe),
      IoHandler(0x03F0, 0xFFF8, Floppy),
      IoHandler(0x01F0, 0xFDF8, AtaDisk) ]
  }

  const FLOPPY_SLOT := 19
  const ATA_SLOT := 20

  predicate FloppyPort(port: bv16) { port & 0xFFF8 == 0x3F0 }

  /** The slot that answers for a port, in closed form; 21 when none does. */
  function Owner(port: bv16): nat {
    if port & 0x00FE == 0x70 then 0
    else if port & 0xFFF8 == 0x90 then 1
    else if port == 0x402 then 2
    else if port & 0xFFF0 == 0 then 3
    else if port & 0xFFE0 == 0xC0 then 4
    else if port & 0xFFF0 == 0x80 then 5
    else if port & 0xFFF8 == 0xCF8 then 6
    else if port & 0xFFFE == 0x510 then 7
    else if port & 0xFFF8 == 0x60 then 8
    else if port & 0xFFFC == 0x378 then 9
    else if port & 0xFFFC == 0x278 then 10
    else if port & 0xFFF8 == 0x3F8 then 11
    else if port & 0xFFF8 == 0x2F8 then 12
    else if port & 0xFFF8 == 0x3E8 then 13
    else if port & 0xFFF8 == 0x2E8 then 14
    else if port & 0xFFF0 == 0x3C0 then 15
    else if port & 0xFFF0 == 0x3D0 then 16
    else if port == 0x500 then 17
    else if port & 0xFFFE == 0x1CE then 18
    else if FloppyPort(port) then FLOPPY_SLOT
    else if port & 0xFDF8 == 0x1F0 then ATA_SLOT
    else 21
  }

  lemma OwnerClaims(port: bv16, i: nat)
    requires Owner(port) == i < 21
    ensures Claims(DeviceTable()[i], port)
  {
    if i == 0 { assert Claims(DeviceTable()[0], port); }
    else if i == 1 { assert Claims(DeviceTable()[1], port); }
    else if i == 2 { assert Claims(DeviceTable()[2], port); }
    else if i == 3 { assert Claims(DeviceTable()[3], port); }
    else if i == 4 { assert Claims(DeviceTable()[4], port); }
    else if i == 5 { assert Claims(DeviceTable()[5], port); }
    else if i == 6 { assert Claims(DeviceTable()[6], port); }
    else if i == 7 { assert Claims(DeviceTable()[7], port); }
    else if i == 8 { assert Claims(DeviceTable()[8], port); }
    else if i == 9 { assert Claims(DeviceTable()[9], port); }
    else if i == 10 { assert Claims(DeviceTable()[10], port); }
    else if i == 11 { assert Claims(DeviceTable()[11], port); }
    else if i == 12 { assert Claims(DeviceTable()[12], port); }
    else if i == 13 { assert Claims(DeviceTable()[13], port); }
    else if i == 14 { assert Claims(DeviceTable()[14], port); }
    else if i == 15 { assert Claims(DeviceTable()[15], port); }
    else if i == 16 { assert Claims(DeviceTable()[16], port); }
    else if i == 17 { assert Claims(DeviceTable()[17], port); }
    else if i == 18 { assert Claims(DeviceTable()[18], port); }
    else if i == 19 { assert Claims(DeviceTable()[19], port); }
    else if i == 20 { assert Claims(DeviceTable()[20], port); }
  }

  lemma ClaimantOwnsLow(i: nat, port: bv16)
    requires 0 <= i < 7 && Claims(DeviceTable()[i], port)
    ensures Owner(port) == if i == ATA_SLOT && FloppyPort(port) then FLOPPY_SLOT else i
  {
    if i == 0 { assert Claims(DeviceTable()[0], port); assert Owner(port) == 0; }
    else if i == 1 { assert Claims(DeviceTable()[1], port); assert Owner(port) == 1; }
    else if i == 2 { assert Claims(DeviceTable()[2], port); assert Owner(port) == 2; }
    else if i == 3 { assert Claims(DeviceTable()[3], port); assert Owner(port) == 3; }
    else if i == 4 { assert Claims(DeviceTable()[4], port); assert Owner(port) == 4; }
    else if i == 5 { assert Claims(DeviceTable()[5], port); assert Owner(port) == 5; }
    else if i == 6 { assert Claims(DeviceTable()[6], port); assert Owner(port) == 6; }
  }

  lemma ClaimantOwnsMiddle(i: nat, port: bv16)
    requires 7 <= i < 14 && Claims(DeviceTable()[i], port)
    ensures Owner(port) == if i == ATA_SLOT && FloppyPort(port) then FLOPPY_SLOT else i
  {
    if i == 7 { assert Claims(DeviceTable()[7], port); assert Owner(port) == 7; }
    else if i == 8 { assert Claims(DeviceTable()[8], port); assert Owner(port) == 8; }
    else if i == 9 { assert Claims(DeviceTable()[9], port); assert Owner(port) == 9; }
    else if i == 10 { assert Claims(DeviceTable()[10], port); assert Owner(port) == 10; }
    else if i == 11 { assert Claims(DeviceTable()[11], port); assert Owner(port) == 11; }
    else if i == 12 { assert Claims(DeviceTable()[12], port); assert Owner(port) == 12; }
    else if i == 13 { assert Claims(DeviceTable()[13], port); assert Owner(port) == 13; }
  }

  lemma ClaimantOwnsHigh(i: nat, port: bv16)
    requires 14 <= i < 21 && Claims(DeviceTable()[i], port)
    ensures Owner(port) == if i == ATA_SLOT && FloppyPort(port) then FLOPPY_SLOT else i
  {
    if i == 14 { assert Claims(DeviceTable()[14], port); assert Owner(port) == 14; }
    else if i == 15 { assert Claims(DeviceTable()[15], port); assert Owner(port) == 15; }
    else if i == 16 { assert Claims(DeviceTable()[16], port); assert Owner(port) == 16; }
    else if i == 17 { assert Claims(DeviceTable()[17], port); assert Owner(port) == 17; }
    else if i == 18 { assert Claims(DeviceTable()[18], port); assert Owner(port) == 18; }
    else if i == 19 { assert Claims(DeviceTable()[19], port); assert Owner(port) == 19; }
    else if i == 20 {
      assert Claims(DeviceTable()[20], port);
      assert Owner(port) == if FloppyPort(port) then FLOPPY_SLOT else ATA_SLOT;
    }
  }

  /** A claim on a port makes its holder the owner, save that the floppy takes its eight ports from the disk. */
  lemma ClaimantOwns(i: nat, port: bv16)
    requires i < 21 && Claims(DeviceTable()[i], port)
    ensures Owner(port) == if i == ATA_SLOT && FloppyPort(port) then FLOPPY_SLOT else i
  {
    hide Owner, Claims, FloppyPort;
    if i < 7 {
      ClaimantOwnsLow(i, port);
    } else if i < 14 {
      ClaimantOwnsMiddle(i, port);
    } else {
      ClaimantOwnsHigh(i, port);
    }
  }

  /** Of all pairs of devices only the floppy and the disk compete, and only for 0x3F0-0x3F7. */
  lemma OnlyFloppyAndAtaOverlap(i: nat, j: nat, port: bv16)
    requires i < j < 21 && Claims(DeviceTable()[i], port) && Claims(DeviceTable()[j], port)
    ensures i == FLOPPY_SLOT && j == ATA_SLOT && FloppyPort(port)
  {
    ClaimantOwns(i, port);
    ClaimantOwns(j, port);
  }

  /** The decoder over the registered table computes the closed form. */
  lemma LookupIsOwner(port: bv16)
    ensures Lookup(DeviceTable(), port) == if Owner(port) < 21 then Some(DeviceTable()[Owner(port)]) else None
  {
    hide Claims, Owner, FloppyPort;
    if Owner(port) < 21 {
      OwnerClaims(port, Owner(port));
      forall j: nat | j < Owner(port) ensures !Claims(DeviceTable()[j], port) {
        if Claims(DeviceTable()[j], port) { ClaimantOwns(j, port); }
      }
      LookupIsFirstClaim(DeviceTable(), port, Owner(port));
    } else {
      forall h | h in DeviceTable() ensures !Claims(h, port) {
        var j :| 0 <= j < |DeviceTable()| && DeviceTable()[j] == h;
        if Claims(DeviceTable()[j], port) { ClaimantOwns(j, port); }
      }
      LookupNone(DeviceTable(), port);
    }
  }

  /**
   Who answers, without regard to order: a handler of the table answers a port exactly if it claims it
   and is not the disk on a port of the floppy.
   */
  lemma AnswersIff(h: IoHandler, port: bv16)
    ensures Lookup(DeviceTable(), port) == Some(h) <==>
            h in DeviceTable() && Claims(h, port) && !(h.dev == AtaDisk && FloppyPort(port))
  {
    hide Claims, Owner, FloppyPort, Lookup;
    LookupIsOwner(port);
    if h in DeviceTable() && Claims(h, port) {
      var i :| 0 <= i < |DeviceTable()| && DeviceTable()[i] == h;
      ClaimantOwns(i, port);
      DiskIsLast(i);
    }
    if Owner(port) < 21 {
      OwnerClaims(port, Owner(port));
      ClaimantOwns(Owner(port), port);
      DiskIsLast(Owner(port));
    }
  }

  /** The machine's port map by number: which device answers, if any. */
  function PortMap(port: bv16): Option<DeviceId> {
    if port <= 0x0F then Some(Dma0)
    else if 0x60 <= port <= 0x67 then Some(Keyboard)
    else if port & 0xFF == 0x70 || port & 0xFF == 0x71 then Some(Cmos)
    else if 0x80 <= port <= 0x8F then Some(DmaPage)
    else if 0x90 <= port <= 0x97 then Some(Ps2Pos)
    else if 0xC0 <= port <= 0xDF then Some(Dma1)
    else if 0x1CE <= port <= 0x1CF then Some(Vbe)
    else if 0x1F0 <= port <= 0x1F7 then Some(AtaDisk)
    else if 0x278 <= port <= 0x27B || 0x378 <= port <= 0x37B then Some(Parallel)
    else if 0x2E8 <= port <= 0x2EF || 0x2F8 <= port <= 0x2FF then Some(Serial)
    else if 0x3C0 <= port <= 0x3DF then Some(VgaRegisters)
    else if 0x3E8 <= port <= 0x3EF || 0x3F8 <= port <= 0x3FF then Some(Serial)
    else if 0x3F0 <= port <= 0x3F7 then Some(Floppy)
    else if port == 0x402 then Some(BiosDebug)
    else if port == 0x500 then Some(VgaDebug)
    else if 0x510 <= port <= 0x511 then Some(QemuParavirt)
    else if 0xCF8 <= port <= 0xCFF then Some(Pci)
    else None
  }

  function OwnerMap(slot: nat): Option<DeviceId> { if slot < 21 then Some(DeviceTable()[slot].dev) else None }

  lemma OwnerIsMapped(port: bv16)
    ensures OwnerMap(Owner(port)) == PortMap(port)
  {}

  /** For every one of the 65536 ports the search over the registered table finds the device of the port map. */
  lemma LookupIsPortMap(port: bv16)
    ensures (match Lookup(DeviceTable(), port) case None => None case Some(h) => Some(h.dev)) == PortMap(port)
  {
    LookupIsOwner(port);
    OwnerIsMapped(port);
    hide Lookup, Owner, PortMap;
  }

  lemma DiskIsLast(i: nat)
    requires i < 21
    ensures DeviceTable()[i].dev == AtaDisk <==> i == ATA_SLOT
    ensures DeviceTable()[i] == DeviceTable()[FLOPPY_SLOT] ==> i == FLOPPY_SLOT
  {}

  lemma AtaSlotPorts(port: bv16)
    ensures Owner(port) == ATA_SLOT <==> port & 0xFFF8 == 0x1F0
  {}

  /** What the decoder finds at the eight ports of the disk's command block. */
  lemma AtaLookup(port: bv16)
    requires port & 0xFFF8 == 0x1F0
    ensures Lookup(DeviceTable(), port) == Some(IoHandler(0x01F0, 0xFDF8, AtaDisk))
  {
    AtaSlotPorts(port);
    hide Owner, Claims, Lookup;
    LookupIsOwner(port);
  }

  /** So the disk's control block at 0x3F6 never reaches the disk: no port decodes to its offset 0x206. */
  lemma DeviceControlUnreachable(port: bv16)
    requires Lookup(DeviceTable(), port).Some? && Lookup(DeviceTable(), port).value.dev == AtaDisk
    ensures port & 0xFFF8 == 0x1F0
  {
    hide Owner, Claims, Lookup;
    LookupIsOwner(port);
    AtaSlotPorts(port);
  }
}
