/**
 The VGA register file: index/data pairs, and a palette whose write address advances by itself.
 */
module VgaRegs {
  import opened Bytes
  import opened Image

  const SEQ_INDEX := 0x3C4
  const SEQ_DATA := 0x3C5
  const PEL_MASK := 0x3C6
  const PEL_READ_ADDR := 0x3C7
  const PEL_WRITE_ADDR := 0x3C8
  const PEL_DATA := 0x3C9
  const GCONT_INDEX := 0x3CE
  const GCONT_DATA := 0x3CF
  const CRTC_INDEX := 0x3D4
  const CRTC_DATA := 0x3D5
  const MISC_OUTPUT := 0x3C2
  const ATTR_INDEX := 0x3C0
  const MODE_SELECT := 0x3D8

  const MAP_MASK := 2
  const START_HIGH := 0xC
  const START_LOW := 0xD
  const PEL_SIZE := 768

  type SeqRegs = s: seq<byte> | |s| == 5 witness Zeros(5)
  type GcontRegs = s: seq<byte> | |s| == 9 witness Zeros(9)
  type CrtcRegs = s: seq<byte> | |s| == 0x19 witness Zeros(0x19)
  type Palette = s: seq<byte> | |s| == PEL_SIZE witness Zeros(PEL_SIZE)

  datatype Regs = Regs(
    misc: byte, attrNdx: byte, seqNdx: int, seqReg: SeqRegs, gcontNdx: int, gcontReg: GcontRegs,
    crtcNdx: byte, crtcReg: CrtcRegs, pelWrite: nat, pelRead: nat, pel: Palette)

  predicate Inv(r: Regs) {
    -1 <= r.seqNdx <= 4 && -1 <= r.gcontNdx <= 8 && r.crtcNdx <= 0x18
  }

  /** Writes the emulator accepts: palette data only below the last entry. */
  predicate Legal(r: Regs, port: int, v: byte) {
    || port in {ATTR_INDEX, SEQ_INDEX, SEQ_DATA, PEL_READ_ADDR, PEL_WRITE_ADDR}
    || port in {GCONT_INDEX, GCONT_DATA, CRTC_DATA, MODE_SELECT}
    || (port == MISC_OUTPUT && v % 2 == 1)
    || (port == PEL_MASK && v == 0xFF)
    || (port == PEL_DATA && r.pelWrite < PEL_SIZE)
    || (port == CRTC_INDEX && v <= 0x18)
  }

  function Step(r: Regs, port: int, v: byte): (r': Regs)
    requires Inv(r) && Legal(r, port, v)
    ensures Inv(r')
  {
    if port == ATTR_INDEX then r.(attrNdx := v)
    else if port == MISC_OUTPUT || port == MODE_SELECT then r.(misc := v)
    else if port == SEQ_INDEX then r.(seqNdx := if v <= 4 then v else -1)
    else if port == SEQ_DATA then
      if r.seqNdx <= 0 then r
      else r.(seqReg := r.seqReg[r.seqNdx := if r.seqNdx == MAP_MASK then v % 0x10 else v])
    else if port == PEL_MASK then r
    else if port == PEL_READ_ADDR then r.(pelRead := v as int * 3)
    else if port == PEL_WRITE_ADDR then r.(pelWrite := v as int * 3)
    else if port == PEL_DATA then r.(pel := r.pel[r.pelWrite := v], pelWrite := r.pelWrite + 1)
    else if port == GCONT_INDEX then r.(gcontNdx := if v <= 8 then v else -1)
    else if port == GCONT_DATA then (if r.gcontNdx < 0 then r else r.(gcontReg := r.gcontReg[r.gcontNdx := v]))
    else if port == CRTC_INDEX then r.(crtcNdx := v)
    else r.(crtcReg := r.crtcReg[r.crtcNdx := v])
  }

  /** A 16-bit write to an index port: index in the low byte, data in the high byte. */
  predicate LegalWord(r: Regs, port: int, w: word)
    requires Inv(r)
  {
    port in {SEQ_INDEX, CRTC_INDEX, GCONT_INDEX} && Legal(r, port, w % 0x100)
  }

  function StepWord(r: Regs, port: int, w: word): (r': Regs)
    requires Inv(r) && LegalWord(r, port, w)
    ensures Inv(r')
  {
    Step(Step(r, port, w % 0x100), port + 1, w / 0x100)
  }

  /** Index in the low byte, data in the high byte. */
  function IndexData(i: byte, v: byte): (w: word)
    ensures w % 0x100 == i && w / 0x100 == v
  {
    i as int + 0x100 * v as int
  }

  /** One word write sets exactly the register it names, whatever index was latched before. */
  lemma WordWriteSetsOneRegister(r: Regs, i: byte, v: byte)
    requires Inv(r)
    ensures 1 <= i <= 4 ==>
              StepWord(r, 0x3C4, IndexData(i, v))
              == r.(seqNdx := i, seqReg := r.seqReg[i := if i == 2 then v % 0x10 else v])
    ensures i <= 8 ==> StepWord(r, 0x3CE, IndexData(i, v)) == r.(gcontNdx := i, gcontReg := r.gcontReg[i := v])
    ensures i <= 0x18 ==> StepWord(r, 0x3D4, IndexData(i, v)) == r.(crtcNdx := i, crtcReg := r.crtcReg[i := v])
    ensures i > 4 ==> StepWord(r, 0x3C4, IndexData(i, v)) == r.(seqNdx := -1)
    ensures i > 8 ==> StepWord(r, 0x3CE, IndexData(i, v)) == r.(gcontNdx := -1)
  {}

  /**
   By port number: which byte writes the emulator survives, and those that set a latch of their own (0x3C6
   sets nothing, 0x3C2 and 0x3D8 share one).  The index, data and palette ports are treated below.
   */
  lemma WritePorts(r: Regs, port: int, v: byte)
    requires Inv(r)
    ensures Legal(r, port, v) <==>
            || port in {0x3C0, 0x3C4, 0x3C5, 0x3C7, 0x3C8, 0x3CE, 0x3CF, 0x3D5, 0x3D8}
            || (port == 0x3C2 && v % 2 == 1) || (port == 0x3C6 && v == 0xFF)
            || (port == 0x3C9 && r.pelWrite < 768) || (port == 0x3D4 && v <= 24)
    ensures Step(r, 0x3C0, v) == r.(attrNdx := v) && Step(r, 0x3D8, v) == r.(misc := v)
    ensures Step(r, 0x3C7, v) == r.(pelRead := 3 * v as int)
    ensures v % 2 == 1 ==> Step(r, 0x3C2, v) == r.(misc := v)
    ensures v == 0xFF ==> Step(r, 0x3C6, v) == r
  {}

  /** An index write and a data write do the same as the word write; data for sequencer register 0 is dropped. */
  lemma IndexThenData(r: Regs, i: byte, v: byte)
    requires Inv(r)
    ensures i <= 4 ==>
              && Legal(r, 0x3C4, i) && Legal(Step(r, 0x3C4, i), 0x3C5, v)
              && Step(Step(r, 0x3C4, i), 0x3C5, v)
                 == r.(seqNdx := i,
                       seqReg := if i == 0 then r.seqReg else r.seqReg[i := if i == 2 then v % 0x10 else v])
    ensures i <= 8 ==>
              && Legal(r, 0x3CE, i) && Legal(Step(r, 0x3CE, i), 0x3CF, v)
              && Step(Step(r, 0x3CE, i), 0x3CF, v) == r.(gcontNdx := i, gcontReg := r.gcontReg[i := v])
    ensures i <= 0x18 ==>
              && Legal(r, 0x3D4, i) && Legal(Step(r, 0x3D4, i), 0x3D5, v)
              && Step(Step(r, 0x3D4, i), 0x3D5, v) == r.(crtcNdx := i, crtcReg := r.crtcReg[i := v])
  {}

  /** Palette data writes one after the other. */
  function LoadPalette(r: Regs, data: seq<byte>): (r': Regs)
    requires Inv(r) && r.pelWrite + |data| <= PEL_SIZE
    ensures Inv(r')
    decreases |data|
  {
    if |data| == 0 then r else LoadPalette(Step(r, 0x3C9, data[0]), data[1..])
  }

  /** Selecting entry n and sending bytes fills the palette from entry n on and touches nothing else. */
  lemma PaletteLoads(r: Regs, n: byte, data: seq<byte>)
    requires Inv(r) && 3 * n as int + |data| <= PEL_SIZE
    ensures var s := LoadPalette(Step(r, 0x3C8, n), data);
            s == r.(pelWrite := 3 * n as int + |data|, pel := Splice(r.pel, 3 * n as int, data))
  {
    var s := Step(r, PEL_WRITE_ADDR, n);
    SelectEntry(r, n);
    hide Step, Splice, LoadPalette, Legal, Inv;
    LoadIsSplice(s, data);
  }

  lemma SelectEntry(r: Regs, n: byte)
    requires Inv(r)
    ensures Step(r, PEL_WRITE_ADDR, n) == r.(pelWrite := 3 * n as int)
  {}

  lemma {:induction false} LoadIsSplice(r: Regs, data: seq<byte>)
    requires Inv(r) && r.pelWrite + |data| <= PEL_SIZE
    ensures LoadPalette(r, data) == r.(pelWrite := r.pelWrite + |data|, pel := Splice(r.pel, r.pelWrite, data))
    decreases |data|
  {
    if |data| == 0 {
      SpliceNext(r.pel, r.pelWrite, [], []);
    } else {
      LoadIsSplice(Step(r, PEL_DATA, data[0]), data[1..]);
      SpliceNext(r.pel, r.pelWrite, data[..1], data[1..]);
      assert data[..1] + data[1..] == data;
      assert r.pel[r.pelWrite := data[0]] == Splice(r.pel, r.pelWrite, data[..1]);
    }
  }
}
