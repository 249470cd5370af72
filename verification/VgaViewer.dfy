/**
 The viewer: text and 320x200 modes rendered into a 640x400 frame buffer, pixel by pixel.
 */
module VgaViewer {
  import opened Bytes
  import opened Image
  import opened VgaMemory
  import opened VgaRegs
  import opened Vga

  const WIDTH := 640
  const HEIGHT := 400
  const PIXELS := WIDTH * HEIGHT
  const TEXT_BASE := 0x1_8000

  type Glyph = s: seq<byte> | |s| == 16 witness Zeros(16)
  type Font = s: seq<Glyph> | |s| == 256 witness seq<Glyph>(256, i => BlankGlyph())

  function BlankGlyph(): Glyph { Zeros(16) }

  // ----- what each pixel should be -----

  /** Palette entry n, six-bit components at bits 18, 10 and 2. */
  function Colour(pel: Palette, n: byte): dword {
    pel[3 * n as int] as int * 0x4_0000 + pel[3 * n as int + 1] as int * 0x400 + pel[3 * n as int + 2] as int * 4
  }

  /** Bit 0x80 >> x of a glyph row. */
  predicate Bit(row: byte, x: nat) {
    if x == 0 then row / 0x80 % 2 == 1 else if x == 1 then row / 0x40 % 2 == 1
    else if x == 2 then row / 0x20 % 2 == 1 else if x == 3 then row / 0x10 % 2 == 1
    else if x == 4 then row / 8 % 2 == 1 else if x == 5 then row / 4 % 2 == 1
    else if x == 6 then row / 2 % 2 == 1 else row % 2 == 1
  }

  function GlyphPixel(font: Font, pel: Palette, ch: byte, attr: byte, x: nat, y: nat): dword
    requires y < 16
  {
    if Bit(font[ch][y], x) then Colour(pel, attr % 0x10) else Colour(pel, attr / 0x10)
  }

  /** The start address held by the CRTC. */
  function Start(crtc: CrtcRegs): nat { crtc[START_HIGH] as int * 0x100 + crtc[START_LOW] as int }

  /** Where the character of a text cell lies; its attribute is the next byte. */
  function CellAddress(start: nat, cx: nat, cy: nat): nat { TEXT_BASE + 2 * start + (cy * 80 + cx) * 2 }

  /** All 80x25 cells lie in the plane. */
  predicate TextFits(start: nat) { start <= 14384 }

  lemma TextFitsIff(start: nat)
    ensures TextFits(start) <==>
            forall cx: nat, cy: nat :: cx < 80 && cy < 25 ==> CellAddress(start, cx, cy) + 1 < PLANE_SIZE
  {
    if !TextFits(start) {
      assert CellAddress(start, 79, 24) + 1 >= PLANE_SIZE;
    }
  }

  function TextPixel(font: Font, pel: Palette, vram: Plane, start: nat, px: nat, py: nat): dword
    requires px < WIDTH && py < HEIGHT && TextFits(start)
  {
    var at := CellAddress(start, px / 8, py / 16);
    GlyphPixel(font, pel, vram[at], vram[at + 1], px % 8, py % 16)
  }

  function GraphicsPixel(pel: Palette, planes: Planes, start: nat, px: nat, py: nat): dword
    requires px < WIDTH && py < HEIGHT && start < 0x1_0000
  {
    Colour(pel, planes[px / 2 % 4][py / 2 * 320 + px / 2 + start])
  }

  /** Writing a character and attribute through plane 0 shows that glyph in that cell and changes no other cell. */
  lemma TextWriteShows(font: Font, pel: Palette, planes: Planes, mask: byte, start: nat,
                       cx: nat, cy: nat, ch: byte, attr: byte, px: nat, py: nat)
    requires TextFits(start) && cx < 80 && cy < 25 && px < WIDTH && py < HEIGHT && Selected(mask, 0)
    ensures var after := Write(planes, mask, CellAddress(start, cx, cy), [ch, attr]);
            TextPixel(font, pel, after[0], start, px, py) ==
            if px / 8 == cx && py / 16 == cy then GlyphPixel(font, pel, ch, attr, px % 8, py % 16)
            else TextPixel(font, pel, planes[0], start, px, py)
  {
    hide GlyphPixel, Selected, CellAddress;
    var at, of := CellAddress(start, cx, cy), CellAddress(start, px / 8, py / 16);
    CellsApart(start, cx, cy, px / 8, py / 16);
    var after := Write(planes, mask, at, [ch, attr]);
    assert after[0] == Splice(planes[0], at, [ch, attr]);
    hide Write;
    assert after[0][at] == ch && after[0][at + 1] == attr;
    assert of != at ==> after[0][of] == planes[0][of] && after[0][of + 1] == planes[0][of + 1];
  }

  lemma CellsApart(start: nat, cx: nat, cy: nat, x: nat, y: nat)
    requires TextFits(start) && cx < 80 && x < 80 && cy < 25 && y < 25
    ensures var at, of := CellAddress(start, cx, cy), CellAddress(start, x, y);
            && at + 2 <= PLANE_SIZE && of + 2 <= PLANE_SIZE
            && if x == cx && y == cy then of == at else of <= at - 2 || of >= at + 2
  {}

  /**
   In graphics mode a byte written at start + 320y + x shows at source pixel (x, y) if its plane x%4 is
   selected, and nowhere else.
   */
  lemma GraphicsWriteShows(pel: Palette, planes: Planes, mask: byte, start: nat,
                           x: nat, y: nat, v: byte, px: nat, py: nat)
    requires start < 0x1_0000 && x < 320 && y < 200 && px < WIDTH && py < HEIGHT
    ensures var after := Write(planes, mask, y * 320 + x + start, [v]);
            GraphicsPixel(pel, after, start, px, py) ==
            if px / 2 == x && py / 2 == y && Selected(mask, x % 4) then Colour(pel, v)
            else GraphicsPixel(pel, planes, start, px, py)
  {
    var at, p := y * 320 + x + start, px / 2 % 4;
    var after := Write(planes, mask, at, [v]);
    assert after[p] == WritePlane(planes[p], Selected(mask, p), at, [v]);
    hide Write, Selected, Colour;
  }

  // ----- the same from the font bytes and palette components -----

  /** Palette entry n as the frame buffer holds it. */
  predicate IsRgb(c: dword, pel: Palette, n: byte) {
    c == pel[3 * n as int] as int * 0x4_0000 + pel[3 * n as int + 1] as int * 0x400 + pel[3 * n as int + 2] as int * 4
  }

  /** Eight pixels in two colours spell a byte, leftmost pixel first. */
  predicate Spells(p: seq<dword>, fg: dword, bg: dword, row: byte)
    requires |p| == 8
  {
    && (forall x :: 0 <= x < 8 ==> p[x] == fg || p[x] == bg)
    && (fg != bg ==>
          row == (if p[0] == fg then 0x80 else 0) + (if p[1] == fg then 0x40 else 0)
                 + (if p[2] == fg then 0x20 else 0) + (if p[3] == fg then 0x10 else 0)
                 + (if p[4] == fg then 8 else 0) + (if p[5] == fg then 4 else 0)
                 + (if p[6] == fg then 2 else 0) + (if p[7] == fg then 1 else 0))
  }

  /** A row of a glyph: foreground from the low half of the attribute, background from the high half. */
  predicate ShowsGlyphRow(p: seq<dword>, font: Font, pel: Palette, ch: byte, attr: byte, y: nat)
    requires |p| == 8 && y < 16
  {
    exists fg: dword, bg: dword ::
      IsRgb(fg, pel, attr % 0x10) && IsRgb(bg, pel, attr / 0x10) && Spells(p, fg, bg, font[ch][y])
  }

  function GlyphRow(font: Font, pel: Palette, ch: byte, attr: byte, y: nat): (p: seq<dword>)
    requires y < 16
    ensures |p| == 8
  {
    seq<dword>(8, x requires 0 <= x < 8 => GlyphPixel(font, pel, ch, attr, x, y))
  }

  lemma BitsOfByte(row: byte)
    ensures row == row / 0x80 % 2 * 0x80 + row / 0x40 % 2 * 0x40 + row / 0x20 % 2 * 0x20 + row / 0x10 % 2 * 0x10
                   + row / 8 % 2 * 8 + row / 4 % 2 * 4 + row / 2 % 2 * 2 + row % 2
  {
    var a1 := row / 2;
    var a2, a3 := a1 / 2, a1 / 2 / 2;
    var a4 := a3 / 2;
    var a5, a6 := a4 / 2, a4 / 2 / 2;
    var a7 := a6 / 2;
    Halves(row, a1, a2, a3, a4, a5, a6, a7);
    assert row == 2 * a1 + row % 2 && a1 == 2 * a2 + a1 % 2 && a2 == 2 * a3 + a2 % 2 && a3 == 2 * a4 + a3 % 2;
    assert a4 == 2 * a5 + a4 % 2 && a5 == 2 * a6 + a5 % 2 && a6 == 2 * a7 + a6 % 2 && a7 == a7 % 2;
  }

  lemma Halves(row: byte, a1: nat, a2: nat, a3: nat, a4: nat, a5: nat, a6: nat, a7: nat)
    requires a1 == row / 2 && a2 == a1 / 2 && a3 == a2 / 2 && a4 == a3 / 2
    requires a5 == a4 / 2 && a6 == a5 / 2 && a7 == a6 / 2
    ensures row / 4 == a2 && row / 8 == a3 && row / 0x10 == a4 && row / 0x20 == a5
    ensures row / 0x40 == a6 && row / 0x80 == a7 && a7 <= 1
  {}

  /** Pixels chosen by the bits of a byte spell it. */
  lemma BitsSpell(p: seq<dword>, fg: dword, bg: dword, row: byte)
    requires |p| == 8 && forall x :: 0 <= x < 8 ==> p[x] == if Bit(row, x) then fg else bg
    ensures Spells(p, fg, bg, row)
  {
    BitsOfByte(row);
    var b := [row / 0x80 % 2, row / 0x40 % 2, row / 0x20 % 2, row / 0x10 % 2,
              row / 8 % 2, row / 4 % 2, row / 2 % 2, row % 2];
    assert Bit(row, 0) == (b[0] == 1) && Bit(row, 1) == (b[1] == 1) && Bit(row, 2) == (b[2] == 1);
    assert Bit(row, 3) == (b[3] == 1) && Bit(row, 4) == (b[4] == 1) && Bit(row, 5) == (b[5] == 1);
    assert Bit(row, 6) == (b[6] == 1) && Bit(row, 7) == (b[7] == 1);
    hide Bit, Spells;
    DigitsSpell(p, fg, bg, row, b);
  }

  lemma DigitsSpell(p: seq<dword>, fg: dword, bg: dword, row: byte, b: seq<nat>)
    requires |p| == 8 && |b| == 8 && forall x :: 0 <= x < 8 ==> b[x] <= 1 && p[x] == if b[x] == 1 then fg else bg
    requires row == b[0] * 0x80 + b[1] * 0x40 + b[2] * 0x20 + b[3] * 0x10 + b[4] * 8 + b[5] * 4 + b[6] * 2 + b[7]
    ensures Spells(p, fg, bg, row)
  {}

  /** A glyph's row is drawn as its font byte, most significant bit on the left. */
  lemma GlyphRowIsShown(font: Font, pel: Palette, ch: byte, attr: byte, y: nat)
    requires y < 16
    ensures ShowsGlyphRow(GlyphRow(font, pel, ch, attr, y), font, pel, ch, attr, y)
  {
    var fg, bg, row := Colour(pel, attr % 0x10), Colour(pel, attr / 0x10), font[ch][y];
    var p := GlyphRow(font, pel, ch, attr, y);
    assert IsRgb(fg, pel, attr % 0x10) && IsRgb(bg, pel, attr / 0x10);
    hide Colour, IsRgb, Bit, Spells;
    BitsSpell(p, fg, bg, row);
  }

  /** A pixel of graphics mode, in palette components and plane bytes. */
  lemma GraphicsPixelIsRgb(pel: Palette, planes: Planes, crtc: CrtcRegs, px: nat, py: nat)
    requires px < 640 && py < 400
    ensures var start := crtc[0xC] as int * 0x100 + crtc[0xD] as int;
            && start == Start(crtc)
            && IsRgb(GraphicsPixel(pel, planes, start, px, py), pel, planes[px / 2 % 4][py / 2 * 320 + px / 2 + start])
  {}

  // ----- rendering -----

  function Row(k: nat): nat { k / WIDTH }
  function Col(k: nat): nat { k % WIDTH }

  predicate InCell(k: nat, cx: nat, cy: nat) { Col(k) / 8 == cx && Row(k) / 16 == cy }

  lemma Locate(r: nat, c: nat)
    requires c < WIDTH
    ensures Row(r * WIDTH + c) == r && Col(r * WIDTH + c) == c
  {}

  lemma LocatedBack(k: nat)
    ensures k == Row(k) * WIDTH + Col(k) && Col(k) < WIDTH
  {}

  lemma LocateInCell(cx: nat, cy: nat, x: nat, y: nat)
    requires cx < 80 && cy < 25 && x < 8 && y < 16
    ensures var k := (16 * cy + y) * 640 + 8 * cx + x;
            k < PIXELS && InCell(k, cx, cy) && Col(k) % 8 == x && Row(k) % 16 == y
  {
    Locate(16 * cy + y, 8 * cx + x);
  }

  class Viewer {
    const pixels: array<dword>
    const font: Font
    const vga: VgaContext

    ghost predicate Valid() { pixels.Length == PIXELS && vga.Valid() }

    constructor (font: Font, vga: VgaContext)
      requires vga.Valid()
      ensures Valid() && this.font == font && this.vga == vga && fresh(pixels)
    {
      this.font, this.vga := font, vga;
      pixels := new dword[PIXELS];
    }

    function Pixel(px: nat, py: nat): dword
      requires pixels.Length == PIXELS && px < WIDTH && py < HEIGHT
      reads pixels
    {
      pixels[py * WIDTH + px]
    }

    /** Pixel (x, y) of text cell (cx, cy). */
    ghost function CellPixel(cx: nat, cy: nat, x: nat, y: nat): dword
      requires pixels.Length == PIXELS && cx < 80 && cy < 25 && x < 8 && y < 16
      reads pixels
    {
      pixels[(16 * cy + y) * 640 + 8 * cx + x]
    }

    ghost function CellRow(cx: nat, cy: nat, y: nat): (p: seq<dword>)
      requires pixels.Length == PIXELS && cx < 80 && cy < 25 && y < 16
      reads pixels
      ensures |p| == 8
    {
      seq<dword>(8, x requires 0 <= x < 8 reads pixels => CellPixel(cx, cy, x, y))
    }

    /** The frame shows a character in a cell: each of its sixteen rows spells the font byte in the two colours. */
    ghost predicate ShowsCharacter(cx: nat, cy: nat, ch: byte, attr: byte)
      requires Valid() && cx < 80 && cy < 25
      reads pixels, vga.pel
    {
      forall y: nat :: y < 16 ==> ShowsGlyphRow(CellRow(cx, cy, y), font, vga.pel[..], ch, attr, y)
    }

    /** A cell shows the character and attribute that lie for it in plane 0, on the page the CRTC starts at. */
    ghost predicate ShowsCell(cx: nat, cy: nat)
      requires Valid() && cx < 80 && cy < 25 && TextFits(Start(vga.crtcReg[..]))
      reads pixels, vga.pel, vga.crtcReg, vga.plane
    {
      var start := vga.crtcReg[0xC] as int * 0x100 + vga.crtcReg[0xD] as int;
      ShowsCharacter(cx, cy, vga.plane[0][0x1_8000 + 2 * start + 2 * (80 * cy + cx)],
                     vga.plane[0][0x1_8000 + 2 * start + 2 * (80 * cy + cx) + 1])
    }

    /** A pixel of graphics mode shows the palette entry named by the byte of its plane. */
    ghost predicate ShowsPixel(px: nat, py: nat)
      requires Valid() && px < 640 && py < 400
      reads pixels, vga.pel, vga.crtcReg, vga.plane
    {
      var start := vga.crtcReg[0xC] as int * 0x100 + vga.crtcReg[0xD] as int;
      IsRgb(Pixel(px, py), vga.pel[..], vga.plane[px / 2 % 4][py / 2 * 320 + px / 2 + start])
    }

    lemma PixelShown(px: nat, py: nat)
      requires Valid() && px < 640 && py < 400
      requires Pixel(px, py) == GraphicsPixel(vga.pel[..], vga.Planes(), Start(vga.crtcReg[..]), px, py)
      ensures ShowsPixel(px, py)
    {
      GraphicsPixelIsRgb(vga.pel[..], vga.Planes(), vga.crtcReg[..], px, py);
      hide IsRgb, GraphicsPixel;
    }

    lemma CharacterShown(cx: nat, cy: nat, ch: byte, attr: byte)
      requires Valid() && cx < 80 && cy < 25
      requires forall x: nat, y: nat :: x < 8 && y < 16 ==>
                 CellPixel(cx, cy, x, y) == GlyphPixel(font, vga.pel[..], ch, attr, x, y)
      ensures ShowsCharacter(cx, cy, ch, attr)
    {
      hide GlyphPixel, ShowsGlyphRow;
      forall y: nat | y < 16 ensures ShowsGlyphRow(CellRow(cx, cy, y), font, vga.pel[..], ch, attr, y) {
        assert CellRow(cx, cy, y) == GlyphRow(font, vga.pel[..], ch, attr, y);
        GlyphRowIsShown(font, vga.pel[..], ch, attr, y);
      }
    }

    predicate IsTextMode()
      requires vga.Valid()
      reads vga.gcontReg
    {
      vga.gcontReg[6] % 2 == 0
    }

    /** Pixel k belongs to the part of cell (sx, sy) drawn before row y, column x of the glyph. */
    static predicate Drawn(k: nat, sx: nat, sy: nat, y: nat, x: nat) {
      InCell(k, sx, sy) && (Row(k) < 16 * sy + y || (Row(k) == 16 * sy + y && Col(k) < 8 * sx + x))
    }

    method DrawGlyphAt(ch: byte, attr: byte, sx: nat, sy: nat)
      requires Valid() && sx < 80 && sy < 25
      modifies pixels
      ensures forall k :: 0 <= k < PIXELS ==>
                pixels[k] == if InCell(k, sx, sy) then GlyphPixel(font, vga.pel[..], ch, attr, Col(k) % 8, Row(k) % 16)
                             else old(pixels[k])
      ensures ShowsCharacter(sx, sy, ch, attr)
    {
      PaintGlyph(ch, attr, sx, sy);
      forall x: nat, y: nat | x < 8 && y < 16
        ensures CellPixel(sx, sy, x, y) == GlyphPixel(font, vga.pel[..], ch, attr, x, y)
      {
        LocateInCell(sx, sy, x, y);
      }
      CharacterShown(sx, sy, ch, attr);
    }

    method PaintGlyph(ch: byte, attr: byte, sx: nat, sy: nat)
      requires Valid() && sx < 80 && sy < 25
      modifies pixels
      ensures forall k :: 0 <= k < PIXELS ==>
                pixels[k] == if InCell(k, sx, sy) then GlyphPixel(font, vga.pel[..], ch, attr, Col(k) % 8, Row(k) % 16)
                             else old(pixels[k])
    {
      var pitch := WIDTH;
      var pFB := sy * 16 * pitch + sx * 8;
      var fgcol := Colour(vga.pel[..], attr % 0x10);
      var bgcol := Colour(vga.pel[..], attr / 0x10);
      for y := 0 to 16
        invariant pFB == (16 * sy + y) * WIDTH + 8 * sx
        invariant forall k :: 0 <= k < PIXELS ==>
                    pixels[k] == if Drawn(k, sx, sy, y, 0)
                                 then GlyphPixel(font, vga.pel[..], ch, attr, Col(k) % 8, Row(k) % 16)
                                 else old(pixels[k])
      {
        for x := 0 to 8
          invariant pFB == (16 * sy + y) * WIDTH + 8 * sx
          invariant forall k :: 0 <= k < PIXELS ==>
                      pixels[k] == if Drawn(k, sx, sy, y, x)
                                   then GlyphPixel(font, vga.pel[..], ch, attr, Col(k) % 8, Row(k) % 16)
                                   else old(pixels[k])
        {
          DrawnNext(sx, sy, y, x);
          Locate(16 * sy + y, 8 * sx + x);
          pixels[pFB + x] := if Bit(font[ch][y], x) then fgcol else bgcol;
        }
        DrawnRow(sx, sy, y);
        pFB := pFB + pitch;
      }
      DrawnAll(sx, sy);
    }

    static lemma DrawnNext(sx: nat, sy: nat, y: nat, x: nat)
      requires sx < 80 && sy < 25 && y < 16 && x < 8
      ensures forall k: nat :: Drawn(k, sx, sy, y, x + 1) <==>
                Drawn(k, sx, sy, y, x) || k == (16 * sy + y) * WIDTH + 8 * sx + x
    {
      forall k: nat
        ensures Drawn(k, sx, sy, y, x + 1) <==>
                Drawn(k, sx, sy, y, x) || k == (16 * sy + y) * WIDTH + 8 * sx + x
      {
        LocatedBack(k);
        Locate(16 * sy + y, 8 * sx + x);
      }
    }

    static lemma DrawnRow(sx: nat, sy: nat, y: nat)
      ensures forall k: nat :: Drawn(k, sx, sy, y, 8) <==> Drawn(k, sx, sy, y + 1, 0)
    {}

    static lemma DrawnAll(sx: nat, sy: nat)
      ensures forall k: nat :: Drawn(k, sx, sy, 16, 0) <==> InCell(k, sx, sy)
      ensures forall k: nat :: !Drawn(k, sx, sy, 0, 0)
    {}

    /** Pixel k lies in a cell before (x, y) in drawing order. */
    static predicate CellDone(k: nat, x: nat, y: nat) {
      Row(k) / 16 < y || (Row(k) / 16 == y && Col(k) / 8 < x)
    }

    /** What text mode shows at pixel k. */
    ghost function TextAt(k: nat): dword
      requires Valid() && k < PIXELS && TextFits(Start(vga.crtcReg[..]))
      reads vga.crtcReg, vga.pel, vga.plane
    {
      TextPixel(font, vga.pel[..], vga.Planes()[0], Start(vga.crtcReg[..]), Col(k), Row(k))
    }

    method UpdateTextmode()
      requires Valid() && TextFits(Start(vga.crtcReg[..]))
      modifies pixels
      ensures forall px: nat, py: nat :: px < WIDTH && py < HEIGHT ==>
                Pixel(px, py) == TextPixel(font, vga.pel[..], vga.Planes()[0], Start(vga.crtcReg[..]), px, py)
      ensures forall cx: nat, cy: nat :: cx < 80 && cy < 25 ==> ShowsCell(cx, cy)
    {
      var vram_off := (vga.crtcReg[START_HIGH] as int * 0x100 + vga.crtcReg[START_LOW] as int) * 2;
      for y := 0 to 25
        invariant forall k: nat :: k < PIXELS && CellDone(k, 0, y) ==> pixels[k] == TextAt(k)
      {
        for x := 0 to 80
          invariant forall k: nat :: k < PIXELS && CellDone(k, x, y) ==> pixels[k] == TextAt(k)
        {
          var ch := vga.plane[0][TEXT_BASE + vram_off + (y * 80 + x) * 2];
          var attr := vga.plane[0][TEXT_BASE + vram_off + (y * 80 + x) * 2 + 1];
          DrawGlyphAt(ch, attr, x, y);
        }
      }
      forall px: nat, py: nat | px < WIDTH && py < HEIGHT
        ensures Pixel(px, py) == TextPixel(font, vga.pel[..], vga.Planes()[0], Start(vga.crtcReg[..]), px, py)
      {
        Locate(py, px);
        assert CellDone(py * WIDTH + px, 0, 25);
      }
      forall cx: nat, cy: nat | cx < 80 && cy < 25 ensures ShowsCell(cx, cy) {
        TextCellShown(cx, cy);
      }
    }

    /** A frame that is right pixel by pixel shows every character. */
    lemma TextCellShown(cx: nat, cy: nat)
      requires Valid() && TextFits(Start(vga.crtcReg[..])) && cx < 80 && cy < 25
      requires forall px: nat, py: nat :: px < WIDTH && py < HEIGHT ==>
                 Pixel(px, py) == TextPixel(font, vga.pel[..], vga.Planes()[0], Start(vga.crtcReg[..]), px, py)
      ensures ShowsCell(cx, cy)
    {
      var at := CellAddress(Start(vga.crtcReg[..]), cx, cy);
      var ch, attr := vga.plane[0][at], vga.plane[0][at + 1];
      forall x: nat, y: nat | x < 8 && y < 16
        ensures CellPixel(cx, cy, x, y) == GlyphPixel(font, vga.pel[..], ch, attr, x, y)
      {
        InnerPixel(cx, cy, x, y);
        assert CellPixel(cx, cy, x, y) == Pixel(8 * cx + x, 16 * cy + y);
        hide GlyphPixel;
      }
      CharacterShown(cx, cy, ch, attr);
    }

    static lemma InnerPixel(cx: nat, cy: nat, x: nat, y: nat)
      requires cx < 80 && cy < 25 && x < 8 && y < 16
      ensures 8 * cx + x < WIDTH && 16 * cy + y < HEIGHT
      ensures (8 * cx + x) / 8 == cx && (8 * cx + x) % 8 == x && (16 * cy + y) / 16 == cy && (16 * cy + y) % 16 == y
    {}

    /** One turn of the viewer's loop: graphics controller register 6 picks the renderer. */
    method Refresh()
      requires Valid() && (IsTextMode() ==> TextFits(Start(vga.crtcReg[..])))
      modifies pixels
      ensures vga.gcontReg[6] % 2 == 0 ==> forall px: nat, py: nat :: px < WIDTH && py < HEIGHT ==>
                Pixel(px, py) == TextPixel(font, vga.pel[..], vga.Planes()[0], Start(vga.crtcReg[..]), px, py)
      ensures vga.gcontReg[6] % 2 == 0 ==> forall cx: nat, cy: nat :: cx < 80 && cy < 25 ==> ShowsCell(cx, cy)
      ensures vga.gcontReg[6] % 2 == 1 ==> forall px: nat, py: nat :: px < 640 && py < 400 ==> ShowsPixel(px, py)
    {
      if IsTextMode() {
        UpdateTextmode();
      } else {
        UpdateGraphics();
      }
    }

    static predicate BlockDone(k: nat, x: nat, y: nat) {
      Row(k) / 2 < y || (Row(k) / 2 == y && Col(k) / 2 < x)
    }

    ghost function GraphicsAt(k: nat): dword
      requires Valid() && k < PIXELS
      reads vga.crtcReg, vga.pel, vga.plane
    {
      GraphicsPixel(vga.pel[..], vga.Planes(), Start(vga.crtcReg[..]), Col(k), Row(k))
    }

    method UpdateGraphics()
      requires Valid()
      modifies pixels
      ensures forall px: nat, py: nat :: px < WIDTH && py < HEIGHT ==>
                Pixel(px, py) == GraphicsPixel(vga.pel[..], vga.Planes(), Start(vga.crtcReg[..]), px, py)
      ensures forall px: nat, py: nat :: px < 640 && py < 400 ==> ShowsPixel(px, py)
    {
      PaintFrame();
      forall px: nat, py: nat | px < 640 && py < 400 ensures ShowsPixel(px, py) {
        PixelShown(px, py);
      }
    }

    method PaintFrame()
      requires Valid()
      modifies pixels
      ensures forall px: nat, py: nat :: px < WIDTH && py < HEIGHT ==>
                Pixel(px, py) == GraphicsPixel(vga.pel[..], vga.Planes(), Start(vga.crtcReg[..]), px, py)
    {
      var o := vga.crtcReg[START_HIGH] as int * 0x100 + vga.crtcReg[START_LOW] as int;
      var w, h := 320, 200;
      for y := 0 to h
        invariant forall k: nat :: k < PIXELS && BlockDone(k, 0, y) ==> pixels[k] == GraphicsAt(k)
      {
        for x := 0 to w
          invariant forall k: nat :: k < PIXELS && BlockDone(k, x, y) ==> pixels[k] == GraphicsAt(k)
        {
          var ci := vga.plane[x % 4][y * w + x + o];
          var c := Colour(vga.pel[..], ci);
          DrawBlock(x, y, c);
        }
      }
      forall px: nat, py: nat | px < WIDTH && py < HEIGHT
        ensures Pixel(px, py) == GraphicsPixel(vga.pel[..], vga.Planes(), Start(vga.crtcReg[..]), px, py)
      {
        Locate(py, px);
        assert BlockDone(py * WIDTH + px, 0, 200);
      }
    }

    /** Each source pixel is doubled in both directions. */
    method DrawBlock(x: nat, y: nat, c: dword)
      requires Valid() && x < 320 && y < 200
      modifies pixels
      ensures forall k: nat :: k < PIXELS ==>
                pixels[k] == if Col(k) / 2 == x && Row(k) / 2 == y then c else old(pixels[k])
    {
      pixels[(y * 2 + 0) * 640 + (x * 2 + 0)] := c;
      pixels[(y * 2 + 0) * 640 + (x * 2 + 1)] := c;
      pixels[(y * 2 + 1) * 640 + (x * 2 + 0)] := c;
      pixels[(y * 2 + 1) * 640 + (x * 2 + 1)] := c;
      Locate(y * 2, x * 2);
      Locate(y * 2, x * 2 + 1);
      Locate(y * 2 + 1, x * 2);
      Locate(y * 2 + 1, x * 2 + 1);
      forall k: nat | k < PIXELS
        ensures pixels[k] == if Col(k) / 2 == x && Row(k) / 2 == y then c else old(pixels[k])
      {
        LocatedBack(k);
      }
    }
  }
}
