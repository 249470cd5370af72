/**
 The VGA context shared by memory, registers and viewer, with its real state.
 */
module Vga {
  import opened Bytes
  import opened Image
  import opened VgaMemory
  import opened VgaRegs

  class VgaContext {
    const plane: seq<array<byte>>
    const seqReg: array<byte>
    const gcontReg: array<byte>
    const crtcReg: array<byte>
    const pel: array<byte>
    var misc: byte
    var attrNdx: byte
    var seqNdx: int
    var gcontNdx: int
    var crtcNdx: byte
    var pelWrite: nat
    var pelRead: nat

    ghost predicate Valid() {
      && |plane| == NUM_PLANES
      && (forall p :: 0 <= p < NUM_PLANES ==> plane[p].Length == PLANE_SIZE)
      && (forall p, q :: 0 <= p < q < NUM_PLANES ==> plane[p] != plane[q])
      && seqReg.Length == 5 && gcontReg.Length == 9 && crtcReg.Length == 0x19 && pel.Length == PEL_SIZE
    }

    ghost function Planes(): Planes
      requires Valid()
      reads plane
    {
      seq<Plane>(NUM_PLANES, p requires 0 <= p < NUM_PLANES reads plane => plane[p][..])
    }

    ghost function Registers(): Regs
      requires Valid()
      reads this, seqReg, gcontReg, crtcReg, pel
    {
      Regs(misc, attrNdx, seqNdx, seqReg[..], gcontNdx, gcontReg[..], crtcNdx, crtcReg[..], pelWrite, pelRead, pel[..])
    }

    constructor ()
      ensures Valid() && VgaRegs.Inv(Registers())
    {
      var p0, p1, p2, p3 := new byte[PLANE_SIZE], new byte[PLANE_SIZE], new byte[PLANE_SIZE], new byte[PLANE_SIZE];
      plane := [p0, p1, p2, p3];
      seqReg := new byte[5](i => 0);
      gcontReg := new byte[9](i => 0);
      crtcReg := new byte[0x19](i => 0);
      pel := new byte[PEL_SIZE](i => 0);
      misc, attrNdx, seqNdx, gcontNdx, crtcNdx, pelWrite, pelRead := 0, 0, 0, 0, 0, 0, 0;
    }

    // ----- registers -----

    method RegOutB(port: int, val: byte)
      requires Valid() && VgaRegs.Inv(Registers()) && Legal(Registers(), port, val)
      modifies this, seqReg, gcontReg, crtcReg, pel
      ensures Registers() == Step(old(Registers()), port, val) && Planes() == old(Planes())
    {
      if port == ATTR_INDEX {
        attrNdx := val;
      } else if port == MISC_OUTPUT {
        misc := val;
      } else if port == SEQ_INDEX {
        seqNdx := if val <= 4 then val else -1;
      } else if port == SEQ_DATA {
        SequencerWrite(val);
      } else if port == PEL_MASK {
      } else if port == PEL_READ_ADDR {
        pelRead := val as int * 3;
      } else if port == PEL_WRITE_ADDR {
        pelWrite := val as int * 3;
      } else if port == PEL_DATA {
        pel[pelWrite] := val;
        pelWrite := pelWrite + 1;
      } else if port == GCONT_INDEX {
        gcontNdx := if val <= 8 then val else -1;
      } else if port == GCONT_DATA {
        if gcontNdx != -1 { gcontReg[gcontNdx] := val; }
      } else if port == CRTC_INDEX {
        crtcNdx := val;
      } else if port == CRTC_DATA {
        crtcReg[crtcNdx] := val;
      } else {
        misc := val;
      }
    }

    method SequencerWrite(val: byte)
      requires Valid() && -1 <= seqNdx <= 4
      modifies seqReg
      ensures seqReg[..] == if seqNdx <= 0 then old(seqReg[..])
                            else old(seqReg[..])[seqNdx := if seqNdx == MAP_MASK then val % 0x10 else val]
    {
      if seqNdx == 4 {
        seqReg[4] := val;
      } else if seqNdx == 1 {
        seqReg[1] := val;
      } else if seqNdx == 2 {
        seqReg[2] := val % 0x10;
      } else if seqNdx == 3 {
        seqReg[3] := val;
      }
    }

    /** Two byte writes: index, then data. */
    method RegOutW(port: int, val: word)
      requires Valid() && VgaRegs.Inv(Registers()) && LegalWord(Registers(), port, val)
      modifies this, seqReg, gcontReg, crtcReg, pel
      ensures Registers() == StepWord(old(Registers()), port, val) && Planes() == old(Planes())
    {
      RegOutB(port, val % 0x100);
      RegOutB(port + 1, val / 0x100);
    }

    // ----- memory -----

    method WriteB(address: nat, val: byte)
      requires Valid() && address < PLANE_SIZE
      modifies plane
      ensures Planes() == Write(old(Planes()), seqReg[MAP_MASK], address, [val])
      ensures Registers() == old(Registers())
    {
      for p := 0 to NUM_PLANES
        invariant forall q :: 0 <= q < p ==>
                    plane[q][..] == WritePlane(old(Planes())[q], Selected(seqReg[MAP_MASK], q), address, [val])
        invariant forall q :: p <= q < NUM_PLANES ==> plane[q][..] == old(Planes())[q]
      {
        if Selected(seqReg[MAP_MASK], p) {
          plane[p][address] := val;
          assert plane[p][..] == Splice(old(Planes())[p], address, [val]);
        }
      }
    }

    /** The bytes of one store into one plane. */
    static method Put(a: array<byte>, at: nat, data: seq<byte>)
      requires at + |data| <= a.Length
      modifies a
      ensures a[..] == Splice(old(a[..]), at, data)
    {
      forall i | 0 <= i < |data| { a[at + i] := data[i]; }
    }

    method WriteW(address: nat, val: word)
      requires Valid() && address + 2 <= PLANE_SIZE
      modifies plane
      ensures Planes() == Write(old(Planes()), seqReg[MAP_MASK], address, ToLE(2, val))
      ensures Registers() == old(Registers())
    {
      WordLayout(val);
      hide Splice, Selected;
      var data := [val % 0x100, val / 0x100];
      for p := 0 to NUM_PLANES
        invariant forall q :: 0 <= q < p ==>
                    plane[q][..] == WritePlane(old(Planes())[q], Selected(seqReg[MAP_MASK], q), address, data)
        invariant forall q :: p <= q < NUM_PLANES ==> plane[q][..] == old(Planes())[q]
      {
        if Selected(seqReg[MAP_MASK], p) {
          Put(plane[p], address, data);
        }
      }
    }

    method WriteL(address: nat, val: dword)
      requires Valid() && address + 4 <= PLANE_SIZE
      modifies plane
      ensures Planes() == Write(old(Planes()), seqReg[MAP_MASK], address, ToLE(4, val))
      ensures Registers() == old(Registers())
    {
      DwordLayout(val);
      hide Splice, Selected;
      var data := [val % 0x100, val / 0x100 % 0x100, val / 0x1_0000 % 0x100, val / 0x100_0000];
      for p := 0 to NUM_PLANES
        invariant forall q :: 0 <= q < p ==>
                    plane[q][..] == WritePlane(old(Planes())[q], Selected(seqReg[MAP_MASK], q), address, data)
        invariant forall q :: p <= q < NUM_PLANES ==> plane[q][..] == old(Planes())[q]
      {
        if Selected(seqReg[MAP_MASK], p) {
          Put(plane[p], address, data);
        }
      }
    }

    method ReadB(address: nat) returns (val: byte)
      requires Valid() && address < PLANE_SIZE
      ensures val == Planes()[0][address]
    {
      val := plane[0][address];
    }

    method ReadW(address: nat) returns (val: word)
      requires Valid() && address + 2 <= PLANE_SIZE
      ensures ToLE(2, val) == Planes()[0][address..address + 2]
    {
      val := plane[0][address] as int + 0x100 * plane[0][address + 1] as int;
      WordLayout(val);
    }

    method ReadQ(address: nat) returns (val: nat)
      requires Valid() && address + 8 <= PLANE_SIZE
      ensures val == FromLE(Planes()[0][address..address + 8])
    {
      val := FromLE(plane[0][address..address + 8]);
    }

    method ReadL(address: nat) returns (val: dword)
      requires Valid() && address + 4 <= PLANE_SIZE
      ensures ToLE(4, val) == Planes()[0][address..address + 4]
    {
      var b := plane[0][address..address + 4];
      val := b[0] as int + 0x100 * b[1] as int + 0x1_0000 * b[2] as int + 0x100_0000 * b[3] as int;
      LERoundTrip(b);
    }
  }
}
