/**
 Memory and registers together: over any history of stores and register writes, the planes are those
 of the history of stores and map-mask changes, the latter being the sequencer writes that hit register 2.
 */
module VgaRuns {
  import opened Bytes
  import M = VgaMemory
  import R = VgaRegs

  datatype Vga = Vga(regs: R.Regs, planes: M.Planes)

  datatype Access = Store(at: nat, data: seq<byte>) | Out(port: int, val: byte) | OutWord(port: int, w: word)

  predicate Legal(v: Vga, a: Access)
    requires R.Inv(v.regs)
  {
    match a
    case Store(at, data) => at + |data| <= M.PLANE_SIZE
    case Out(port, val) => R.Legal(v.regs, port, val)
    case OutWord(port, w) => R.LegalWord(v.regs, port, w)
  }

  function Step(v: Vga, a: Access): (v': Vga)
    requires R.Inv(v.regs) && Legal(v, a)
    ensures R.Inv(v'.regs)
  {
    match a
    case Store(at, data) => v.(planes := M.Write(v.planes, v.regs.seqReg[R.MAP_MASK], at, data))
    case Out(port, val) => v.(regs := R.Step(v.regs, port, val))
    case OutWord(port, w) => v.(regs := R.StepWord(v.regs, port, w))
  }

  predicate LegalRun(v: Vga, run: seq<Access>)
    requires R.Inv(v.regs)
    decreases |run|
  {
    |run| == 0 || (Legal(v, run[0]) && LegalRun(Step(v, run[0]), run[1..]))
  }

  function Run(v: Vga, run: seq<Access>): Vga
    requires R.Inv(v.regs) && LegalRun(v, run)
    decreases |run|
  {
    if |run| == 0 then v else Run(Step(v, run[0]), run[1..])
  }

  /** What one access means to the planes: a store, a new map mask, or nothing. */
  function Effect(v: Vga, a: Access): seq<M.Event> {
    match a
    case Store(at, data) => [M.Store(at, data)]
    case Out(port, val) => if port == 0x3C5 && v.regs.seqNdx == 2 then [M.SetMask(val)] else []
    case OutWord(port, w) => if port == 0x3C4 && w % 0x100 == 2 then [M.SetMask(w / 0x100)] else []
  }

  function Effects(v: Vga, run: seq<Access>): (h: seq<M.Event>)
    requires R.Inv(v.regs) && LegalRun(v, run)
    ensures forall e :: e in h ==> M.InRange(e)
    decreases |run|
  {
    if |run| == 0 then [] else Effect(v, run[0]) + Effects(Step(v, run[0]), run[1..])
  }

  lemma StepEffect(v: Vga, a: Access)
    requires R.Inv(v.regs) && Legal(v, a)
    ensures |Effect(v, a)| <= 1 && forall e :: e in Effect(v, a) ==> M.InRange(e)
    ensures var mask := v.regs.seqReg[R.MAP_MASK];
            && Step(v, a).planes == M.After(Effect(v, a), v.planes, mask)
            && Step(v, a).regs.seqReg[R.MAP_MASK] == M.MaskAfter(Effect(v, a), mask)
  {
    hide M.Write;
    assert M.MaskAfter([], v.regs.seqReg[R.MAP_MASK]) == v.regs.seqReg[R.MAP_MASK];
    if |Effect(v, a)| == 1 {
      assert Effect(v, a)[..0] == [];
      assert M.After([], v.planes, v.regs.seqReg[R.MAP_MASK]) == v.planes;
    }
  }

  lemma {:induction false} AfterAppend(h: seq<M.Event>, t: seq<M.Event>, planes: M.Planes, mask: byte)
    requires forall e :: e in h ==> M.InRange(e)
    requires forall e :: e in t ==> M.InRange(e)
    ensures M.MaskAfter(h + t, mask) == M.MaskAfter(t, M.MaskAfter(h, mask))
    ensures M.After(h + t, planes, mask) == M.After(t, M.After(h, planes, mask), M.MaskAfter(h, mask))
    decreases |t|
  {
    if |t| == 0 {
      assert h + t == h;
    } else {
      var front, last := t[..|t| - 1], t[|t| - 1];
      assert (h + t)[..|h + t| - 1] == h + front && (h + t)[|h + t| - 1] == last;
      assert last in t;
      hide M.Write;
      AfterAppend(h, front, planes, mask);
    }
  }

  /** Registers and planes together refine the plane memory under its mask history. */
  lemma {:induction false} RunIsEffects(v: Vga, run: seq<Access>)
    requires R.Inv(v.regs) && LegalRun(v, run)
    ensures var mask := v.regs.seqReg[R.MAP_MASK];
            && Run(v, run).planes == M.After(Effects(v, run), v.planes, mask)
            && Run(v, run).regs.seqReg[R.MAP_MASK] == M.MaskAfter(Effects(v, run), mask)
    decreases |run|
  {
    if |run| != 0 {
      var v1 := Step(v, run[0]);
      StepEffect(v, run[0]);
      hide Step, Legal, Effect, M.After, M.MaskAfter;
      RunIsEffects(v1, run[1..]);
      AfterAppend(Effect(v, run[0]), Effects(v1, run[1..]), v.planes, v.regs.seqReg[R.MAP_MASK]);
    } else {
      assert M.MaskAfter([], v.regs.seqReg[R.MAP_MASK]) == v.regs.seqReg[R.MAP_MASK];
    }
  }

  /**
   Each plane byte after any run is what the last store put there that covered it while the map mask
   the guest had programmed selected the plane, and the initial byte if there was none.
   */
  lemma PlaneByte(v: Vga, run: seq<Access>, p: nat, i: nat, k: int)
    requires R.Inv(v.regs) && LegalRun(v, run) && p < M.NUM_PLANES && i < M.PLANE_SIZE
    requires var h, mask := Effects(v, run), v.regs.seqReg[R.MAP_MASK];
             && -1 <= k < |h| && (k >= 0 ==> M.Hits(h, k, mask, p, i))
             && forall j :: k < j < |h| ==> !M.Hits(h, j, mask, p, i)
    ensures var h := Effects(v, run);
            Run(v, run).planes[p][i] == if k >= 0 then h[k].data[i - h[k].at] else v.planes[p][i]
  {
    RunIsEffects(v, run);
    hide M.Hits, M.After, Run, LegalRun, Effects;
    M.ByteIsLastWrite(Effects(v, run), v.planes, v.regs.seqReg[R.MAP_MASK], p, i);
  }
}
