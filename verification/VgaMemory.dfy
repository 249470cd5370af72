/**
 The four VGA memory planes: a write goes to every plane the map mask selects, a read sees plane 0.
 */
module VgaMemory {
  import opened Bytes
  import opened Image

  const PLANE_SIZE := 0x2_0000
  const NUM_PLANES := 4

  type Plane = s: seq<byte> | |s| == PLANE_SIZE witness Zeros(PLANE_SIZE)
  type Planes = s: seq<Plane> | |s| == NUM_PLANES witness seq<Plane>(NUM_PLANES, i => BlankPlane())

  function BlankPlane(): Plane { Zeros(PLANE_SIZE) }

  /** Bit p of the map mask. */
  predicate Selected(mask: byte, p: nat) {
    if p == 0 then mask % 2 == 1 else if p == 1 then mask / 2 % 2 == 1
    else if p == 2 then mask / 4 % 2 == 1 else mask / 8 % 2 == 1
  }

  function WritePlane(plane: Plane, on: bool, at: nat, data: seq<byte>): Plane
    requires at + |data| <= PLANE_SIZE
  {
    if on then Splice(plane, at, data) else plane
  }

  function Write(planes: Planes, mask: byte, at: nat, data: seq<byte>): Planes
    requires at + |data| <= PLANE_SIZE
  {
    seq<Plane>(NUM_PLANES, p requires 0 <= p < NUM_PLANES => WritePlane(planes[p], Selected(mask, p), at, data))
  }

  /** Selection is by the bits of the mask: 1, 2, 4 and 8 for planes 0 to 3. */
  lemma SelectedIsBit(mask: byte, p: nat)
    requires p < NUM_PLANES
    ensures Selected(mask, p) <==> mask / [1, 2, 4, 8][p] % 2 == 1
  {}

  /** A store byte by byte: its bytes go to the planes whose mask bit is set, and nothing else changes. */
  lemma StoreIsPointwise(planes: Planes, mask: byte, at: nat, data: seq<byte>, p: nat, i: nat)
    requires at + |data| <= 0x2_0000 && p < 4 && i < 0x2_0000
    ensures Write(planes, mask, at, data)[p][i] ==
            if mask / [1, 2, 4, 8][p] % 2 == 1 && at <= i < at + |data| then data[i - at] else planes[p][i]
  {
    SelectedIsBit(mask, p);
    hide Selected;
    assert Write(planes, mask, at, data)[p] == WritePlane(planes[p], Selected(mask, p), at, data);
  }

  /** A wide write is its little-endian byte writes, one after the other. */
  lemma {:induction false} WideWriteIsByteWrites(planes: Planes, mask: byte, at: nat, data: seq<byte>)
    requires at + |data| <= PLANE_SIZE
    ensures Write(planes, mask, at, data) == ByteWrites(planes, mask, at, data)
    decreases |data|
  {
    if |data| == 0 {
      forall p | 0 <= p < NUM_PLANES ensures Write(planes, mask, at, data)[p] == planes[p] {
        SpliceNext(planes[p], at, [], []);
      }
    } else {
      var first := Write(planes, mask, at, data[..1]);
      WideWriteIsByteWrites(first, mask, at + 1, data[1..]);
      forall p | 0 <= p < NUM_PLANES
        ensures Write(planes, mask, at, data)[p] == Write(first, mask, at + 1, data[1..])[p]
      {
        SpliceNext(planes[p], at, data[..1], data[1..]);
        assert data[..1] + data[1..] == data;
      }
    }
  }

  function ByteWrites(planes: Planes, mask: byte, at: nat, data: seq<byte>): Planes
    requires at + |data| <= PLANE_SIZE
    decreases |data|
  {
    if |data| == 0 then planes
    else ByteWrites(Write(planes, mask, at, data[..1]), mask, at + 1, data[1..])
  }

  // ----- histories -----

  datatype Event = Store(at: nat, data: seq<byte>) | SetMask(mask: byte)

  predicate InRange(e: Event) { e.Store? ==> e.at + |e.data| <= PLANE_SIZE }

  /** The mask register keeps four bits. */
  function MaskAfter(h: seq<Event>, mask: byte): byte {
    if |h| == 0 then mask
    else if h[|h| - 1].SetMask? then h[|h| - 1].mask % 0x10
    else MaskAfter(h[..|h| - 1], mask)
  }

  function After(h: seq<Event>, planes: Planes, mask: byte): Planes
    requires forall e :: e in h ==> InRange(e)
  {
    if |h| == 0 then planes
    else
      var t, e := h[..|h| - 1], h[|h| - 1];
      assert e in h && InRange(e);
      if e.Store? then Write(After(t, planes, mask), MaskAfter(t, mask), e.at, e.data) else After(t, planes, mask)
  }

  /** Event k of the history writes byte i of plane p. */
  predicate Hits(h: seq<Event>, k: nat, mask: byte, p: nat, i: nat)
    requires k < |h|
  {
    h[k].Store? && h[k].at <= i < h[k].at + |h[k].data| && Selected(MaskAfter(h[..k], mask), p)
  }

  lemma HitsInPrefix(h: seq<Event>, k: nat, mask: byte, p: nat, i: nat)
    requires k < |h| - 1
    ensures Hits(h, k, mask, p, i) == Hits(h[..|h| - 1], k, mask, p, i)
  {
    assert h[..|h| - 1][..k] == h[..k];
  }

  /**
   Each plane byte is what the last write put there that covered it while the mask selected the plane;
   with no such write it is as before.
   */
  lemma {:induction false} ByteIsLastWrite(h: seq<Event>, planes: Planes, mask: byte, p: nat, i: nat)
    requires forall e :: e in h ==> InRange(e)
    requires p < NUM_PLANES && i < PLANE_SIZE
    ensures forall k: nat :: k < |h| && Hits(h, k, mask, p, i) && (forall j :: k < j < |h| ==> !Hits(h, j, mask, p, i))
              ==> After(h, planes, mask)[p][i] == h[k].data[i - h[k].at]
    ensures (forall k: nat :: k < |h| ==> !Hits(h, k, mask, p, i)) ==> After(h, planes, mask)[p][i] == planes[p][i]
    decreases |h|
  {
    if |h| != 0 {
      var t, last := h[..|h| - 1], |h| - 1;
      ByteIsLastWrite(t, planes, mask, p, i);
      LastEvent(h, planes, mask, p, i);
      forall k: nat | k < last ensures Hits(h, k, mask, p, i) == Hits(t, k, mask, p, i) {
        HitsInPrefix(h, k, mask, p, i);
      }
      hide After, Hits;
      if !Hits(h, last, mask, p, i) {
        forall k: nat | k < |h| && Hits(h, k, mask, p, i) && (forall j :: k < j < |h| ==> !Hits(h, j, mask, p, i))
          ensures After(h, planes, mask)[p][i] == h[k].data[i - h[k].at]
        {
          assert k < last && h[k] == t[k];
          assert forall j :: k < j < |t| ==> !Hits(t, j, mask, p, i);
        }
      }
    }
  }

  lemma LastEvent(h: seq<Event>, planes: Planes, mask: byte, p: nat, i: nat)
    requires |h| > 0 && forall e :: e in h ==> InRange(e)
    requires p < NUM_PLANES && i < PLANE_SIZE
    ensures After(h, planes, mask)[p][i] ==
            if Hits(h, |h| - 1, mask, p, i) then h[|h| - 1].data[i - h[|h| - 1].at]
            else After(h[..|h| - 1], planes, mask)[p][i]
  {
    var t, e := h[..|h| - 1], h[|h| - 1];
    assert e in h;
    if e.Store? {
      var was := After(t, planes, mask);
      assert After(h, planes, mask)[p] == WritePlane(was[p], Selected(MaskAfter(t, mask), p), e.at, e.data);
    }
  }
}
