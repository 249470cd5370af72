/**
 One 8237 controller as the guest programs it: seven 16-bit registers written and read a byte at a
 time, each with its own flip-flop saying which byte comes next.
 */
module DmaSpec {
  import opened Bytes

  const START_ADDR_2 := 4
  const COUNT_2 := 5
  const COMMAND := 8
  const SINGLE_MASK := 0xA
  const MODE := 0xB
  const FLIPFLOP_RESET := 0xC
  const MASTER_CLEAR := 0xD

  datatype Reg16 = Reg16(lo: byte, hi: byte, odd: bool) {
    function Value(): nat { lo as int + 0x100 * hi as int }
    function Next(): byte { if odd then hi else lo }
    function Put(v: byte): Reg16 { if odd then Reg16(lo, v, false) else Reg16(v, hi, true) }
    function Toggle(): Reg16 { Reg16(lo, hi, !odd) }
  }

  type Regs7 = r: seq<Reg16> | |r| == 7 witness seq(7, i => Reg16(0, 0, false))

  datatype Ctl = Ctl(reg: Regs7, mode: byte, mask: byte)

  datatype Access = InB(port: nat) | OutB(port: nat, val: byte)

  /** Implemented registers; the arrays hold registers 0 to 6 only. */
  predicate Legal(a: Access) {
    match a
    case InB(p) => p <= 6 || p == COMMAND || p == 0x10
    case OutB(p, v) =>
      p <= 6 || p in {MASTER_CLEAR, MODE, SINGLE_MASK} || (p == FLIPFLOP_RESET && v in {0, 0xFF})
  }

  function Cleared(): Regs7 { seq(7, i => Reg16(0, 0, false)) }

  function Even(r: Reg16): Reg16 { r.(odd := false) }

  function ReadPort(c: Ctl, p: nat): byte {
    if p <= 6 then c.reg[p].Next() else if p == COMMAND then 4 else 0
  }

  function Step(c: Ctl, a: Access): Ctl {
    match a
    case InB(p) => if p <= 6 then c.(reg := c.reg[p := c.reg[p].Toggle()]) else c
    case OutB(p, v) =>
      if p <= 6 then c.(reg := c.reg[p := c.reg[p].Put(v)])
      else if p == MASTER_CLEAR then Ctl(Cleared(), 0, 0)
      else if p == MODE then c.(mode := v)
      else if p == SINGLE_MASK then c.(mask := 0xF0 + v % 0x10)
      else if p == FLIPFLOP_RESET && v > 0 then
        // seven bytes of the flip-flop array: all of entry 0, three of entry 1
        c.(reg := c.reg[0 := Even(c.reg[0])][1 := Even(c.reg[1])])
      else c
  }

  function Run(c: Ctl, run: seq<Access>): Ctl
    decreases |run|
  {
    if |run| == 0 then c else Run(Step(c, run[0]), run[1..])
  }

  // ----- one register on its own -----

  predicate Concerns(r: nat, a: Access) {
    || a.port == r
    || (a.OutB? && a.port == MASTER_CLEAR)
    || (a.OutB? && a.port == FLIPFLOP_RESET && a.val > 0 && r <= 1)
  }

  function StepReg(g: Reg16, a: Access): Reg16 {
    match a
    case InB(_) => g.Toggle()
    case OutB(p, v) =>
      if p <= 6 then g.Put(v) else if p == MASTER_CLEAR then Reg16(0, 0, false) else Even(g)
  }

  function RunReg(g: Reg16, run: seq<Access>): Reg16
    decreases |run|
  {
    if |run| == 0 then g else RunReg(StepReg(g, run[0]), run[1..])
  }

  function Only(r: nat, run: seq<Access>): seq<Access> {
    if |run| == 0 then []
    else (if Concerns(r, run[0]) then [run[0]] else []) + Only(r, run[1..])
  }

  /** Registers are independent: each evolves as if the accesses to the others had never been made. */
  lemma {:induction false} RegistersIndependent(c: Ctl, r: nat, run: seq<Access>)
    requires r <= 6
    ensures Run(c, run).reg[r] == RunReg(c.reg[r], Only(r, run))
    decreases |run|
  {
    if |run| != 0 {
      RegistersIndependent(Step(c, run[0]), r, run[1..]);
      assert Concerns(r, run[0]) ==> Only(r, run)[1..] == Only(r, run[1..]);
      assert !Concerns(r, run[0]) ==> Only(r, run) == Only(r, run[1..]);
    }
  }

  lemma TwoWrites(g: Reg16, r: nat, lo: byte, hi: byte)
    requires r <= 6 && !g.odd
    ensures RunReg(g, [OutB(r, lo), OutB(r, hi)]) == Reg16(lo, hi, false)
  {
    var g1 := StepReg(g, OutB(r, lo));
    assert [OutB(r, lo), OutB(r, hi)][1..] == [OutB(r, hi)] && [OutB(r, hi)][1..] == [];
    assert RunReg(g1, [OutB(r, hi)]) == RunReg(StepReg(g1, OutB(r, hi)), []);
  }

  /** A low/high pair written with whatever accesses to other registers in between reads back, and restores parity. */
  lemma PairReadsBack(c: Ctl, r: nat, lo: byte, hi: byte, w: seq<Access>, rd: seq<Access>)
    requires r <= 6 && !c.reg[r].odd
    requires Only(r, w) == [OutB(r, lo), OutB(r, hi)]
    requires Only(r, rd) == [InB(r)]
    ensures var d := Run(c, w);
            && d.reg[r] == Reg16(lo, hi, false)
            && ReadPort(d, r) == lo && ReadPort(Run(d, rd), r) == hi
            && Run(Run(d, rd), [InB(r)]).reg[r] == Reg16(lo, hi, false)
  {
    var d := Run(c, w);
    RegistersIndependent(c, r, w);
    TwoWrites(c.reg[r], r, lo, hi);
    RegistersIndependent(d, r, rd);
    assert [InB(r)][1..] == [];
    var e := Run(d, rd);
    assert Run(e, [InB(r)]) == Run(Step(e, InB(r)), []);
  }

  /**
   The flip-flop reset is meant to make every register start at its low byte.  It does so exactly
   when registers 2 to 6 were already there, because only part of the array is cleared.
   */
  lemma FlipFlopResetIsPartial(c: Ctl)
    ensures (forall r :: 0 <= r < 7 ==> !Step(c, OutB(FLIPFLOP_RESET, 0xFF)).reg[r].odd)
            <==> forall r :: 2 <= r < 7 ==> !c.reg[r].odd
  {
    var d := Step(c, OutB(FLIPFLOP_RESET, 0xFF));
    assert forall r :: 2 <= r < 7 ==> d.reg[r] == c.reg[r];
  }
}
