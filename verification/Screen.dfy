/**
 From a guest store to the screen: the memory decoder, the planes and the renderer together.
 */
module Screen {
  import opened Bytes
  import opened MmioSpec
  import opened Mmio
  import opened VgaMemory
  import opened VgaRegs
  import opened VgaViewer

  const TEXT_WINDOW := 0xB_8000

  /**
   With the ROM off video memory and plane 0 selected, storing a character and its attribute at 0xB8000 plus
   the offset of a cell on the page shown makes that cell show the glyph, and no other pixel changes.
   */
  lemma GuestTextShows(font: Font, pel: Palette, planes: Planes, mask: byte, romBase: nat, start: nat,
                       cx: nat, cy: nat, ch: byte, attr: byte, px: nat, py: nat)
    requires romBase != 0xA_0000 && mask % 2 == 1 && start <= 14384
    requires cx < 80 && cy < 25 && px < WIDTH && py < HEIGHT
    ensures var address := 0xB_8000 + 2 * (start + cy * 80 + cx);
            var after := GuestStore(planes, mask, romBase, address, [ch, attr]);
            TextPixel(font, pel, after[0], start, px, py) ==
            if px / 8 == cx && py / 16 == cy then GlyphPixel(font, pel, ch, attr, px % 8, py % 16)
            else TextPixel(font, pel, planes[0], start, px, py)
  {
    var address := TEXT_WINDOW + 2 * (start + cy * 80 + cx);
    assert address - VRAM_BASE == CellAddress(start, cx, cy);
    DecodeIsWindows(romBase, address);
    hide Write, Decode, TextPixel, GlyphPixel, Selected;
    TextWriteShows(font, pel, planes, mask, start, cx, cy, ch, attr, px, py);
  }

  /** In graphics mode a byte stored at 0xA0000 plus the offset of a source pixel shows there and nowhere else. */
  lemma GuestPixelShows(pel: Palette, planes: Planes, mask: byte, romBase: nat, start: nat,
                        x: nat, y: nat, v: byte, px: nat, py: nat)
    requires romBase != 0xA_0000 && start < 0x1_0000 && x < 320 && y < 200 && px < WIDTH && py < HEIGHT
    ensures var after := GuestStore(planes, mask, romBase, 0xA_0000 + start + y * 320 + x, [v]);
            GraphicsPixel(pel, after, start, px, py) ==
            if px / 2 == x && py / 2 == y && mask / [1, 2, 4, 8][x % 4] % 2 == 1 then Colour(pel, v)
            else GraphicsPixel(pel, planes, start, px, py)
  {
    DecodeIsWindows(romBase, VRAM_BASE + start + y * 320 + x);
    SelectedIsBit(mask, x % 4);
    hide Write, Decode, GraphicsPixel, Colour, Selected;
    GraphicsWriteShows(pel, planes, mask, start, x, y, v, px, py);
  }

  /** With the ROM on top of video memory no guest store reaches the screen at all. */
  lemma RomHidesScreen(planes: Planes, mask: byte, address: nat, data: seq<byte>)
    requires address < 0x1_0000_0000
    ensures GuestStore(planes, mask, 0xA_0000, address, data) == planes
  {
    DecodeIsWindows(VRAM_BASE, address);
  }

  /** A guest draws a character and the viewer refreshes: the glyph is on the screen. */
  method ShowCharacter(space: MmioSpace, viewer: Viewer, cx: nat, cy: nat, ch: byte, attr: byte)
    requires space.Valid() && viewer.Valid() && viewer.vga == space.vga && space.rom.dev.base != 0xA_0000
    requires viewer.IsTextMode() && TextFits(Start(viewer.vga.crtcReg[..])) && viewer.vga.seqReg[2] % 2 == 1
    requires cx < 80 && cy < 25
    modifies space.rom.ramData, space.vga.plane, viewer.pixels
    ensures viewer.ShowsCharacter(cx, cy, ch, attr)
  {
    hide GuestStore, TextPixel, GraphicsPixel, GlyphPixel, Selected, Decode, RomBase;
    ghost var start, mask := Start(viewer.vga.crtcReg[..]), viewer.vga.seqReg[MAP_MASK];
    ghost var planes, pel := viewer.vga.Planes(), viewer.vga.pel[..];
    var address := TEXT_WINDOW
      + 2 * (viewer.vga.crtcReg[START_HIGH] as int * 0x100 + viewer.vga.crtcReg[START_LOW] as int + cy * 80 + cx);
    var ok := space.Write(address, [ch, attr]);
    viewer.Refresh();
    forall x: nat, y: nat | x < 8 && y < 16
      ensures viewer.CellPixel(cx, cy, x, y) == GlyphPixel(viewer.font, viewer.vga.pel[..], ch, attr, x, y)
    {
      GuestTextShows(viewer.font, pel, planes, mask, space.rom.dev.base, start,
                     cx, cy, ch, attr, 8 * cx + x, 16 * cy + y);
      Viewer.InnerPixel(cx, cy, x, y);
      assert viewer.CellPixel(cx, cy, x, y) == viewer.Pixel(8 * cx + x, 16 * cy + y);
    }
    viewer.CharacterShown(cx, cy, ch, attr);
  }
}
