/**
 The ATA controller with its real state: register file, heap buffers, offsets and sizes, the
 current-device pointer.  Every method is proved against `AtaSpec`.
 */
module Ata {
  import opened Bytes
  import opened Image
  import opened AtaSpec
  import AtaRuns

  lemma {:induction false} ZeroWords(ws: seq<word>)
    requires forall i :: 0 <= i < |ws| ==> ws[i] == 0
    ensures WordBytes(ws) == Zeros(2 * |ws|)
  {
    if |ws| != 0 {
      WordLayout(0);
      ZeroWords(ws[1..]);
    }
  }

  // ----- IDENTIFY DEVICE data -----

  const SERIAL := "Serial Number"
  const FIRMWARE := "FW"
  const MODEL := "KVMulate VirtuHD"

  function Char(text: string, i: nat): byte {
    if i < |text| && text[i] as int < 0x100 then text[i] as int else 0
  }

  function Pair(text: string, i: nat): word {
    Char(text, 2 * i) as int + 0x100 * Char(text, 2 * i + 1) as int
  }

  function Swapped(w: word): word { (w % 0x100) * 0x100 + w / 0x100 }

  /** Whole sectors of the image, truncated to 32 bits. */
  function SectorCount(image: seq<byte>): dword { |image| / 512 % 0x1_0000_0000 }

  function Heads(sectors: nat): word { if sectors > 16514064 then 15 else 16 }

  function Cylinders(sectors: nat): word { sectors / (Heads(sectors) as int * 63) % 0x1_0000 }

  /** The words that do not depend on the disk, before the model number is swapped. */
  function FixedWord(k: nat): word {
    if k == 0 then 0x42
    else if 10 <= k < 20 then Pair(SERIAL, k - 10)
    else if 23 <= k < 26 then Pair(FIRMWARE, k - 23)
    else if 27 <= k < 47 then Pair(MODEL, k - 27)
    else if k == 50 then 0x4000
    else if k == 53 then 1
    else 0
  }

  function IdentifyWord(sectors: dword, k: nat): word {
    if k == 1 then Cylinders(sectors)
    else if k == 3 then Heads(sectors)
    else if k == 6 then 63
    else if k == 57 || k == 60 then sectors % 0x1_0000
    else if k == 58 || k == 61 then sectors / 0x1_0000
    else if 27 <= k < 47 then Swapped(FixedWord(k))
    else FixedWord(k)
  }

  function IdentifyWords(sectors: dword): (ws: seq<word>)
    ensures |ws| == 256
  {
    seq<word>(256, k requires 0 <= k => IdentifyWord(sectors, k))
  }

  lemma SwapPair(lo: byte, hi: byte)
    ensures Swapped(lo as int + 0x100 * hi as int) / 0x100 == lo
    ensures Swapped(lo as int + 0x100 * hi as int) % 0x100 == hi
  {
    var w := lo as int + 0x100 * hi as int;
    assert w % 0x100 == lo && w / 0x100 == hi;
  }

  /** What a driver gets from the data: the sector count, and the model number high byte first. */
  lemma IdentifyDecodes(sectors: dword, j: nat)
    requires j < 20
    ensures var ws := IdentifyWords(sectors);
            && ws[60] as int + 0x1_0000 * ws[61] as int == sectors == ws[57] as int + 0x1_0000 * ws[58] as int
            && Char(MODEL, 2 * j) == ws[27 + j] / 0x100 && Char(MODEL, 2 * j + 1) == ws[27 + j] % 0x100
  {
    hide Char;
    SwapPair(Char(MODEL, 2 * j), Char(MODEL, 2 * j + 1));
    hide Swapped;
    assert IdentifyWords(sectors)[27 + j] == Swapped(Pair(MODEL, j));
  }

  lemma {:induction false} WordAt(ws: seq<word>, k: nat)
    requires k < |ws|
    ensures WordBytes(ws)[2 * k] == ws[k] % 0x100 && WordBytes(ws)[2 * k + 1] == ws[k] / 0x100
  {
    WordLayout(ws[0]);
    if k != 0 {
      WordAt(ws[1..], k - 1);
    }
  }

  /** The value of word k of the identify block, low byte first. */
  function BlockWord(b: seq<byte>, k: nat): nat
    requires 2 * k + 1 < |b|
  {
    b[2 * k] as int + 0x100 * b[2 * k + 1] as int
  }

  /**
   The numbers a driver finds in the 512 bytes of the identify block: a fixed disk with LBA, the geometry,
   the whole sectors of the image, twice, and zero in every word that is not listed or text.
   */
  lemma IdentifyNumbers(image: seq<byte>, k: nat)
    requires k < 256
    ensures var b, n := WordBytes(IdentifyWords(SectorCount(image))), |image| / 512 % 0x1_0000_0000;
            var heads := if n > 16514064 then 15 else 16;
            && |b| == 512
            && (k == 0 ==> BlockWord(b, k) == 0x42)
            && (k == 1 ==> BlockWord(b, k) == n / (heads * 63) % 0x1_0000)
            && (k == 3 ==> BlockWord(b, k) == heads)
            && (k == 6 ==> BlockWord(b, k) == 63)
            && (k == 50 ==> BlockWord(b, k) == 0x4000)
            && (k == 53 ==> BlockWord(b, k) == 1)
            && (k == 57 || k == 60 ==> BlockWord(b, k) == n % 0x1_0000)
            && (k == 58 || k == 61 ==> BlockWord(b, k) == n / 0x1_0000)
            && (k !in {0, 1, 3, 6, 50, 53, 57, 58, 60, 61} && !(10 <= k < 20) && !(23 <= k < 26) && !(27 <= k < 47) ==>
                  BlockWord(b, k) == 0)
  {
    WordAt(IdentifyWords(SectorCount(image)), k);
    hide Pair, WordBytes;
  }

  /** The text in it: serial number and firmware in reading order, the model with the bytes of each word swapped. */
  lemma IdentifyText(image: seq<byte>, i: nat)
    requires i < 40
    ensures SERIAL == "Serial Number" && FIRMWARE == "FW" && MODEL == "KVMulate VirtuHD"
    ensures var b := WordBytes(IdentifyWords(SectorCount(image)));
            && |b| == 512
            && (i < 20 ==> b[20 + i] == TextByte(SERIAL, i))
            && (i < 6 ==> b[46 + i] == TextByte(FIRMWARE, i))
            && b[54 + i] == TextByte(MODEL, if i % 2 == 0 then i + 1 else i - 1)
  {
    var ws := IdentifyWords(SectorCount(image));
    assert forall k :: 10 <= k < 20 ==> ws[k] == Pair(SERIAL, k - 10);
    assert forall k :: 23 <= k < 26 ==> ws[k] == Pair(FIRMWARE, k - 23);
    assert forall k :: 27 <= k < 47 ==> ws[k] == Swapped(Pair(MODEL, k - 27));
    hide Pair, Swapped, Char, TextByte, WordBytes;
    PlainText(ws, 10, SERIAL, 10, i);
    PlainText(ws, 23, FIRMWARE, 3, i);
    SwappedText(ws, i);
  }

  /** A character of a text, zero beyond its end. */
  function TextByte(text: string, i: nat): int { if i < |text| then text[i] as int else 0 }

  lemma CharOf(text: string, i: nat)
    requires text in {SERIAL, FIRMWARE, MODEL}
    ensures Char(text, i) == TextByte(text, i)
  {}

  lemma ByteAt(ws: seq<word>, at: nat, i: nat, h: nat)
    requires h == i / 2 && at + h < |ws|
    ensures 2 * at + i < 2 * |ws|
    ensures WordBytes(ws)[2 * at + i] == if i % 2 == 0 then ws[at + h] % 0x100 else ws[at + h] / 0x100
  {
    hide WordBytes;
    WordAt(ws, at + h);
    Halved(i, h);
  }

  lemma Halved(i: nat, h: nat)
    requires h == i / 2
    ensures i % 2 == 0 ==> i == 2 * h
    ensures i % 2 != 0 ==> i == 2 * h + 1
  {}

  /** A pair of characters, split into bytes again. */
  lemma PairBytes(text: string, i: nat)
    ensures (if i % 2 == 0 then Pair(text, i / 2) % 0x100 else Pair(text, i / 2) / 0x100) == Char(text, i)
  {
    var k := i / 2;
    assert i == 2 * k + i % 2;
    TwoChars(Char(text, 2 * k), Char(text, 2 * k + 1));
    hide Char;
  }

  lemma TwoChars(lo: byte, hi: byte)
    ensures (lo as int + 0x100 * hi as int) % 0x100 == lo && (lo as int + 0x100 * hi as int) / 0x100 == hi
  {}

  lemma PlainText(ws: seq<word>, at: nat, text: string, n: nat, i: nat)
    requires |ws| == 256 && at + n <= 256 && text in {SERIAL, FIRMWARE, MODEL}
    requires forall k :: at <= k < at + n ==> ws[k] == Pair(text, k - at)
    ensures i < 2 * n ==> WordBytes(ws)[2 * at + i] == TextByte(text, i)
  {
    if i < 2 * n {
      CharOf(text, i);
      hide Pair, Char, TextByte, WordBytes;
      ByteAt(ws, at, i, i / 2);
      PairBytes(text, i);
    }
  }

  lemma SwappedText(ws: seq<word>, i: nat)
    requires |ws| == 256 && forall k :: 27 <= k < 47 ==> ws[k] == Swapped(Pair(MODEL, k - 27))
    ensures i < 40 ==> WordBytes(ws)[54 + i] == TextByte(MODEL, if i % 2 == 0 then i + 1 else i - 1)
  {
    hide Swapped, Pair, TextByte, WordBytes;
    if i < 40 {
      assert ws[27 + i / 2] == Swapped(Pair(MODEL, i / 2));
      SwappedWord(ws, i / 2);
      Halved(i, i / 2);
    }
  }

  /** One word of the model string, byte by byte. */
  lemma SwappedWord(ws: seq<word>, h: nat)
    requires |ws| == 256 && h < 20 && ws[27 + h] == Swapped(Pair(MODEL, h))
    ensures WordBytes(ws)[54 + 2 * h] == TextByte(MODEL, 2 * h + 1)
    ensures WordBytes(ws)[54 + 2 * h + 1] == TextByte(MODEL, 2 * h)
  {
    CharOf(MODEL, 2 * h);
    CharOf(MODEL, 2 * h + 1);
    TwoChars(Char(MODEL, 2 * h), Char(MODEL, 2 * h + 1));
    SwapBytes(Pair(MODEL, h));
    hide Swapped, Char, TextByte, WordBytes;
    WordAt(ws, 27 + h);
  }

  lemma SwapBytes(w: word)
    ensures Swapped(w) % 0x100 == w / 0x100 && Swapped(w) / 0x100 == w % 0x100
  {}

  /** The reported geometry covers the disk up to less than a cylinder exactly below 61931520 sectors. */
  lemma GeometryCoversDisk(sectors: nat)
    ensures var cylinder := Heads(sectors) as int * 63;
            0 <= sectors - Cylinders(sectors) as int * cylinder < cylinder <==> sectors < 61931520
  {
    if sectors <= 16514064 {
      assert sectors / 1008 < 0x1_0000;
    } else {
      var q := sectors / 945;
      if sectors < 61931520 {
        assert q < 0x1_0000;
      } else {
        assert q >= 0x1_0000 && q % 0x1_0000 <= q - 0x1_0000;
      }
    }
  }

  /** A word fits between an even offset and the end of a buffer of whole sectors. */
  lemma RoomForWord(offset: int, size: int)
    requires offset % 2 == 0 && size % 512 == 0 && offset < size
    ensures offset + 2 <= size
  {}

  lemma TwoBytes(b: seq<byte>, k: nat, lo: byte, hi: byte)
    requires k + 2 <= |b|
    ensures b[k := lo][k + 1 := hi][..k + 2] == b[..k] + [lo, hi]
  {}

  /** Which way the last data command moves words; only the proofs look at it. */
  datatype Direction = ToGuest | FromGuest

  class AtaDevice {
    const present: bool
    const identify: array<word>
    const reg: array<byte>
    var image: seq<byte>
    var readBuffer: array?<byte>
    var readOffset: int
    var readSize: int
    var writeBuffer: array?<byte>
    var writeOffset: int
    var writeSize: int
    var writeLBA: int
    ghost var direction: Direction
    ghost var Repr: set<object>

    /** The object's own arrays are apart from each other. */
    ghost predicate Shape()
      reads this
    {
      && this in Repr && identify in Repr && reg in Repr
      && identify.Length == 256 && reg.Length == 12
      && identify as object !in {reg as object, readBuffer as object?, writeBuffer as object?}
      && (readBuffer != null ==> readBuffer in Repr && readBuffer != reg && readBuffer.Length >= 512)
      && (writeBuffer != null ==> writeBuffer in Repr && writeBuffer != reg && writeBuffer != readBuffer)
    }

    /** While DRQ is up, the buffer of the transfer is allocated and the offset even and short of its end. */
    ghost predicate Valid()
      reads this, Repr
      ensures Valid() ==> this in Repr && reg in Repr
    {
      && Shape()
      && (Drq() && direction.ToGuest? ==>
            && readBuffer != null && readBuffer.Length == readSize && readSize % 512 == 0
            && 0 <= readOffset < readSize <= 0x2_0000 && readOffset % 2 == 0)
      && (Drq() && direction.FromGuest? ==>
            && writeBuffer != null && writeBuffer.Length == writeSize && writeSize % 512 == 0
            && 0 <= writeOffset < writeSize <= 255 * 512 && writeOffset % 2 == 0
            && 0 <= writeLBA < 0x1000_0000)
    }

    predicate Drq()
      requires reg.Length == 12
      reads this, reg
    {
      reg[REG_STATUS] / 8 % 2 == 1
    }

    ghost function Xfer(): Transfer
      requires Valid()
      reads this, Repr
    {
      if !Drq() then Idle
      else if direction.ToGuest? then DataIn(readBuffer[readOffset..])
      else DataOut(writeLBA, writeSize, writeBuffer[..writeOffset])
    }

    ghost function View(): (d: Drive)
      requires Valid()
      reads this, Repr
      ensures reg.Length == 12 && d.reg == reg[..]
      ensures d.present == present && d.image == image && d.buffered == (readBuffer != null)
    {
      Drive(present, image, WordBytes(identify[..]), reg[..], Xfer(), readBuffer != null)
    }

    constructor (present: bool, image: seq<byte>, status: byte)
      requires status / 8 % 2 == 0
      ensures Valid() && fresh(Repr)
      ensures View() == Drive(present, image, Zeros(512), Blank()[REG_STATUS := status], Idle, false)
    {
      this.present, this.image := present, image;
      identify := new word[256](i => 0);
      reg := new byte[12](i => 0);
      readBuffer, readOffset, readSize := null, 0, 0;
      writeBuffer, writeOffset, writeSize, writeLBA := null, 0, 0, 0;
      direction := ToGuest;
      Repr := {this, identify, reg};
      new;
      reg[REG_STATUS] := status;
      ZeroWords(identify[..]);
    }

    /** `strncpy` into `n` words: two characters a word, low byte first, zero padded. */
    method CopyString(at: nat, text: string, n: nat)
      requires identify.Length == 256 && at + n <= 256
      modifies identify
      ensures forall k :: 0 <= k < 256 ==>
                identify[k] == if at <= k < at + n then Pair(text, k - at) else old(identify[k])
    {
      for i := 0 to n
        invariant forall k :: 0 <= k < 256 ==>
                    identify[k] == if at <= k < at + i then Pair(text, k - at) else old(identify[k])
      {
        identify[at + i] := Pair(text, i);
      }
    }

    /** The model number is turned to big-endian words in place; the other strings are not. */
    method SwapModelNumber()
      requires identify.Length == 256
      modifies identify
      ensures forall k :: 0 <= k < 256 ==>
                identify[k] == if 27 <= k < 47 then Swapped(old(identify[k])) else old(identify[k])
    {
      for i := 0 to 20
        invariant forall k :: 0 <= k < 256 ==>
                    identify[k] == if 27 <= k < 27 + i then Swapped(old(identify[k])) else old(identify[k])
      {
        var tmp := identify[27 + i];
        identify[27 + i] := (tmp % 0x100) * 0x100 + tmp / 0x100;
      }
    }

    method FillFixed()
      requires identify.Length == 256
      modifies identify
      ensures forall k :: 0 <= k < 256 ==> identify[k] == FixedWord(k)
    {
      hide Pair;
      forall k | 0 <= k < 256 { identify[k] := 0; }
      identify[0] := 0x42;
      CopyString(10, SERIAL, 10);
      CopyString(23, FIRMWARE, 3);
      CopyString(27, MODEL, 20);
      identify[50] := 0x4000;
      identify[53] := 1;
    }

    method FillIdentify()
      requires identify.Length == 256
      modifies identify
      ensures identify[..] == IdentifyWords(SectorCount(image))
    {
      var sectors := |image| / 512 % 0x1_0000_0000;
      var h := if sectors <= 8257536 then 16 else if sectors > 16514064 then 15 else 16;
      var c := sectors / (h * 63) % 0x1_0000;
      assert c == Cylinders(sectors) && h == Heads(sectors);
      hide Cylinders, Heads, FixedWord, Swapped;
      FillFixed();
      identify[57] := sectors % 0x1_0000;
      identify[58] := sectors / 0x1_0000;
      identify[60] := identify[57];
      identify[61] := identify[58];
      identify[3] := h;
      identify[6] := 63;
      identify[1] := c;
      SwapModelNumber();
    }

    method BuildIdentify()
      requires Valid()
      modifies identify
      ensures Valid() && Repr == old(Repr)
      ensures View() == old(View()).(identify := WordBytes(IdentifyWords(SectorCount(image))))
    {
      FillIdentify();
    }

    /** Clears the error and sets both status registers. */
    method Report(status: byte)
      requires reg.Length == 12
      modifies reg
      ensures reg[..] == old(reg[..])[REG_ERROR := 0][REG_STATUS := status][REG_ALTERNATE_STATUS := status]
    {
      reg[REG_ERROR] := 0;
      reg[REG_STATUS] := status;
      reg[REG_ALTERNATE_STATUS] := reg[REG_STATUS];
    }

    method ClearRegisters()
      requires reg.Length == 12
      modifies reg
      ensures reg[..] == Blank()
    {
      forall i | 0 <= i < 12 { reg[i] := 0; }
    }

    method SoftReset()
      requires Valid() && readBuffer != null
      modifies Repr
      ensures Valid() && Repr == old(Repr)
      ensures View() == AtaSpec.SoftReset(old(View()))
    {
      hide WordBytes;
      forall i | 0 <= i < 512 { readBuffer[i] := 0; }
      assert identify[..] == old(identify[..]);
      ClearRegisters();
      reg[REG_SECTOR_COUNT] := 1;
      reg[REG_SECTOR_NUMBER] := 1;
      reg[REG_CYLINDER_LOW] := 0;
      reg[REG_CYLINDER_HIGH] := 0;
      reg[REG_ERROR] := 0;
      reg[REG_STATUS] := DRDY;
      reg[REG_ALTERNATE_STATUS] := reg[REG_STATUS];
      assert reg[..] == Blank()[REG_SECTOR_COUNT := 1][REG_SECTOR_NUMBER := 1]
                               [REG_STATUS := DRDY][REG_ALTERNATE_STATUS := DRDY];
    }

    method BlockToRead() returns (lba: nat)
      requires reg.Length == 12
      ensures lba == ReadBlock(reg[..])
    {
      if reg[REG_DEVICE_HEAD] / 0x40 % 2 == 1 {
        lba := (reg[REG_DEVICE_HEAD] as int % 0x10) * 0x100_0000 + reg[REG_CYLINDER_HIGH] as int * 0x1_0000
          + reg[REG_CYLINDER_LOW] as int * 0x100 + reg[REG_SECTOR_NUMBER] as int;
      } else {
        var s := reg[REG_SECTOR_NUMBER] as int;
        var h := reg[REG_DEVICE_HEAD] as int % 0x10;
        var c := reg[REG_CYLINDER_HIGH] as int * 0x100 + reg[REG_CYLINDER_LOW] as int;
        lba := (((c * 255) + h) * 63 + s - 1) % 0x1_0000_0000;
      }
    }

    /** calloc, seek, read: the file's bytes, as many as there are, over a zeroed buffer. */
    method Load(off: nat, size: nat)
      modifies `readBuffer
      ensures readBuffer != null && fresh(readBuffer) && readBuffer[..] == Window(image, off, size)
    {
      var bytes := FileRead(image, off, size);
      ReadIntoZeroed(image, off, size);
      var filled := bytes + Zeros(size - |bytes|);
      readBuffer := new byte[size](i requires 0 <= i < |filled| => filled[i]);
    }

    /** All of `d` but its transfer is what the fields hold. */
    ghost predicate SameFields(d: Drive)
      requires reg.Length == 12
      reads this, identify, reg
    {
      d.present == present && d.image == image && d.identify == WordBytes(identify[..]) && d.reg == reg[..]
    }

    /** A freshly filled read buffer starts a transfer to the guest. */
    method StartDataIn(ghost d: Drive, ghost data: seq<byte>)
      requires Shape() && SameFields(d)
      requires readBuffer != null && readBuffer[..] == data && |data| == readSize
      requires 0 < readSize <= 0x2_0000 && readSize % 512 == 0
      modifies `readOffset, `direction, reg
      ensures Valid()
      ensures View() == Settle(d.(buffered := true), DRDY_DRQ, DataIn(data))
    {
      hide WordBytes;
      readOffset := 0;
      direction := ToGuest;
      Report(DRDY_DRQ);
      assert readBuffer[0..] == readBuffer[..];
    }

    method ReadSectors()
      requires Valid()
      modifies Repr
      ensures Valid() && fresh(Repr - old(Repr))
      ensures View() == Settle(old(View()).(buffered := true), DRDY_DRQ,
                DataIn(Window(old(image), 512 * ReadBlock(old(reg[..])), 512 * ReadCount(old(reg[..])))))
    {
      hide ReadBlock, Window, WordBytes, Settle, AtaDevice.Xfer;
      ghost var d, r := View(), reg[..];
      assert SameFields(d);
      var lba := BlockToRead();
      readSize := reg[REG_SECTOR_COUNT];
      if readSize == 0 { readSize := 256; }
      readSize := readSize * 512;
      assert readSize == 512 * ReadCount(r);
      hide ReadCount;
      Load(512 * lba, readSize);
      Repr := Repr + {readBuffer};
      StartDataIn(d, Window(image, 512 * lba, readSize));
    }

    /** A zeroed write buffer starts a transfer from the guest. */
    method StartDataOut(ghost d: Drive)
      requires Shape() && SameFields(d) && d.buffered == (readBuffer != null)
      requires writeBuffer != null && writeBuffer.Length == writeSize && writeOffset == 0
      requires 0 < writeSize <= 255 * 512 && writeSize % 512 == 0 && 0 <= writeLBA < 0x1000_0000
      modifies `direction, reg
      ensures Valid()
      ensures View() == Settle(d, DRDY_DRQ, DataOut(writeLBA, writeSize, []))
    {
      hide WordBytes;
      direction := FromGuest;
      Report(DRDY_DRQ);
    }

    method WriteSectors()
      requires Valid() && LbaMode(reg[..]) && reg[REG_SECTOR_COUNT] != 0
      modifies Repr
      ensures Valid() && fresh(Repr - old(Repr))
      ensures View() == Settle(old(View()), DRDY_DRQ,
                DataOut(Lba28(old(reg[..])), 512 * old(reg[REG_SECTOR_COUNT]) as int, []))
    {
      hide WordBytes, Settle, AtaDevice.Xfer;
      ghost var d := View();
      assert SameFields(d);
      assert reg[..][REG_DEVICE_HEAD] == reg[REG_DEVICE_HEAD];
      writeLBA := (reg[REG_DEVICE_HEAD] as int % 0x10) * 0x100_0000 + reg[REG_CYLINDER_HIGH] as int * 0x1_0000
        + reg[REG_CYLINDER_LOW] as int * 0x100 + reg[REG_SECTOR_NUMBER] as int;
      assert writeLBA == Lba28(old(reg[..])) < 0x1000_0000;
      hide Lba28;
      writeOffset := 0;
      writeSize := reg[REG_SECTOR_COUNT] as int * 512;
      writeBuffer := new byte[writeSize](i => 0);
      Repr := Repr + {writeBuffer};
      StartDataOut(d);
    }

    method IdentifyDevice()
      requires Valid()
      modifies Repr
      ensures Valid() && fresh(Repr - old(Repr))
      ensures View() == Settle(old(View()).(buffered := true), DRDY_DRQ, DataIn(old(View()).identify))
    {
      hide WordBytes, Settle, AtaDevice.Xfer;
      ghost var d := View();
      assert SameFields(d);
      var bytes := WordBytes(identify[..]);
      readBuffer := new byte[512](i requires 0 <= i < |bytes| => bytes[i]);
      readSize := 512;
      Repr := Repr + {readBuffer};
      assert readBuffer[..] == bytes;
      StartDataIn(d, bytes);
    }

    method IdentifyPacketDevice()
      requires Valid()
      modifies reg
      ensures Valid() && Repr == old(Repr)
      ensures View() == old(View()).(reg := old(reg[..])[REG_ERROR := ABRT][REG_STATUS := DRDY_ERR], xfer := Idle)
    {
      reg[REG_ERROR] := ABRT;
      reg[REG_STATUS] := DRDY_ERR;
    }

    /** RECALIBRATE and INITIALIZE DEVICE PARAMETERS only report ready. */
    method ReportReady()
      requires Valid()
      modifies reg
      ensures Valid() && Repr == old(Repr)
      ensures View() == Settle(old(View()), DRDY, Idle)
    {
      Report(DRDY);
    }

    method DoCommand(cmd: byte)
      requires Valid() && Supported(View(), cmd)
      modifies Repr
      ensures Valid() && fresh(Repr - old(Repr))
      ensures View() == Command(old(View()), cmd)
    {
      hide AtaDevice.Valid, AtaDevice.View, AtaDevice.Xfer, Settle, Window, Lba28, ReadBlock, ReadCount;
      SetRegister(REG_COMMAND, cmd);
      if cmd == CMD_WRITE_SECTORS {
        WriteSectors();
      } else if cmd == CMD_READ_SECTORS {
        ReadSectors();
      } else if cmd == CMD_IDENTIFY_DEVICE {
        IdentifyDevice();
      } else if cmd == CMD_IDENTIFY_PACKET_DEVICE {
        IdentifyPacketDevice();
      } else {
        ReportReady();
      }
    }

    method ReadData() returns (val: word)
      requires Valid() && DriveInv(View()) && View().xfer.DataIn?
      modifies Repr
      ensures Valid() && Repr == old(Repr)
      ensures ToLE(2, val) == old(View().xfer.todo)[..2]
      ensures View() == AfterReadData(old(View()))
    {
      hide ToLE, WordBytes;
      ghost var todo := View().xfer.todo;
      val := NextWord();
      assert readBuffer[readOffset + 2..] == todo[2..];
      readOffset := readOffset + 2;
      if readOffset >= readSize {
        reg[REG_STATUS] := DRDY;
        reg[REG_ALTERNATE_STATUS] := reg[REG_STATUS];
      } else if readOffset % 0x200 == 0 {
        // the end of a block re-reports the status it already has
        Report(DRDY_DRQ);
        assert reg[..] == old(reg[..]);
      }
    }

    method NextWord() returns (val: word)
      requires Valid() && DriveInv(View()) && View().xfer.DataIn?
      ensures ToLE(2, val) == View().xfer.todo[..2]
    {
      RoomForWord(readOffset, readSize);
      ghost var todo := View().xfer.todo;
      assert todo[0] == readBuffer[readOffset] && todo[1] == readBuffer[readOffset + 1];
      val := readBuffer[readOffset] as int + 0x100 * readBuffer[readOffset + 1] as int;
      WordLayout(val);
      assert todo[..2] == [todo[0], todo[1]];
    }

    /** The arriving word goes to the buffer; nothing else the guest can see changes. */
    method StoreWord(val: word)
      requires Valid() && DriveInv(View()) && View().xfer.DataOut?
      modifies `writeOffset, writeBuffer
      ensures writeOffset == old(writeOffset) + 2 <= writeSize == writeBuffer.Length
      ensures writeBuffer[..writeOffset] == old(View().xfer.got) + ToLE(2, val)
      ensures identify[..] == old(identify[..]) && reg[..] == old(reg[..])
    {
      hide ToLE, WordBytes, FileWrite;
      WordLayout(val);
      RoomForWord(writeOffset, writeSize);
      ghost var was, k := writeBuffer[..], writeOffset;
      writeBuffer[writeOffset] := val % 0x100;
      writeBuffer[writeOffset + 1] := val / 0x100;
      writeOffset := writeOffset + 2;
      TwoBytes(was, k, val % 0x100, val / 0x100);
      assert writeBuffer[..] == was[k := val % 0x100][k + 1 := val / 0x100];
      assert was[..k] == old(writeBuffer[..writeOffset]);
      assert writeBuffer[..k + 2] == writeBuffer[..][..k + 2];
    }

    method WriteData(val: word) returns (done: bool)
      requires Valid() && DriveInv(View()) && View().xfer.DataOut?
      modifies Repr
      ensures Valid() && Repr == old(Repr)
      ensures done <==> |old(View()).xfer.got| + 2 == old(View()).xfer.need
      ensures View() == AfterWriteData(old(View()), val)
    {
      hide ToLE, FileWrite;
      StoreWord(val);
      done := writeOffset == writeSize;
      if done {
        assert writeBuffer[..] == writeBuffer[..writeOffset];
        image := FileWrite(image, 512 * writeLBA, writeBuffer[..]);
        reg[REG_STATUS] := DRDY;
        reg[REG_ALTERNATE_STATUS] := reg[REG_STATUS];
      }
    }

    method SetRegister(i: nat, val: byte)
      requires Valid() && i < 12 && i != REG_STATUS
      modifies reg
      ensures Valid() && Repr == old(Repr)
      ensures View() == old(View()).(reg := old(reg[..])[i := val])
    {
      reg[i] := val;
    }
  }

  class AtaController {
    const master: AtaDevice
    const slave: AtaDevice
    var curr: AtaDevice
    var irq14: bool
    ghost var Repr: set<object>

    ghost predicate Valid()
      reads this, Repr
      ensures Valid() ==> this in Repr
    {
      && this in Repr && master in Repr && slave in Repr && master.Repr <= Repr && slave.Repr <= Repr
      && master != slave && curr in {master, slave}
      && this !in master.Repr && this !in slave.Repr && master.Repr !! slave.Repr
      && master.Valid() && slave.Valid()
      && Inv(View())
    }

    ghost function View(): Controller
      requires this in Repr && master in Repr && slave in Repr && master.Repr <= Repr && slave.Repr <= Repr
      requires master.Valid() && slave.Valid()
      reads this, Repr
    {
      Controller(master.View(), slave.View(), curr == slave, irq14)
    }

    constructor (disk: seq<byte>)
      ensures Valid() && fresh(Repr)
      ensures View() == AtaRuns.Initial(disk, WordBytes(IdentifyWords(SectorCount(disk))))
    {
      var m := new AtaDevice(true, disk, DRDY);
      m.BuildIdentify();
      var s := new AtaDevice(false, [], 0);
      master, slave, curr, irq14 := m, s, m, false;
      Repr := {this} + m.Repr + s.Repr;
    }

    method OutB(off: int, val: byte)
      requires Valid() && Legal(View(), AtaSpec.OutB(off, val))
      modifies Repr
      ensures Valid() && fresh(Repr - old(Repr))
      ensures View() == Step(old(View()), AtaSpec.OutB(off, val))
    {
      hide AtaDevice.Valid, AtaDevice.View, AtaDevice.Xfer;
      WritePortInv(View(), off, val);
      hide Command, AtaSpec.SoftReset, DriveInv, Supported;
      if off == PORT_FLOPPY0 { return; }
      if off == PORT_DEVICE_HEAD {
        curr := if val / 0x10 % 2 == 1 then slave else master;
        curr.SetRegister(REG_DEVICE_HEAD, val);
        return;
      }
      if !curr.present { return; }
      if off == PORT_STATUS_COMMAND {
        Execute(val);
      } else if off == PORT_DEVICE_CONTROL {
        DeviceControl(val);
      } else {
        curr.SetRegister(PortRegister(off), val);
      }
    }

    method Execute(val: byte)
      requires Valid() && curr.present && Supported(curr.View(), val)
      modifies Repr
      ensures Valid() && fresh(Repr - old(Repr))
      ensures View() == Step(old(View()), AtaSpec.OutB(PORT_STATUS_COMMAND, val))
    {
      hide AtaDevice.Valid, AtaDevice.View, AtaDevice.Xfer;
      hide Command, DriveInv, Supported;
      irq14 := false;
      WritePortInv(View(), PORT_STATUS_COMMAND, val);
      assert curr == master;
      master.DoCommand(val);
      Repr := Repr + master.Repr;
      assert slave.Valid() && slave.View() == old(slave.View()) && slave.Repr == old(slave.Repr);
      assert View() == WritePort(old(View()), PORT_STATUS_COMMAND, val).(irq14 := false);
      irq14 := val == CMD_READ_SECTORS || val == CMD_RECALIBRATE || val == CMD_INITIALIZE_DEV_PARAMS;
    }

    method DeviceControl(val: byte)
      requires Valid() && View().Cur().present && (val / 4 % 2 == 1 ==> View().Cur().buffered)
      modifies Repr
      ensures Valid() && fresh(Repr - old(Repr))
      ensures View() == Step(old(View()), AtaSpec.OutB(PORT_DEVICE_CONTROL, val))
    {
      hide AtaDevice.Valid, AtaDevice.View, AtaController.Valid, AtaController.View, AtaSpec.SoftReset;
      if val / 4 % 2 == 1 {
        ResetSelected();
      }
      // the device control case falls through to the features case
      SetRegister(REG_DEVICE_CONTROL, val);
      SetRegister(REG_FEATURES, val);
    }

    /** The reset leaves the master selected. */
    method ResetSelected()
      requires Valid() && View().Cur().present && View().Cur().buffered
      modifies Repr
      ensures Valid() && Repr == old(Repr)
      ensures View() == old(View()).WithCur(AtaSpec.SoftReset(old(View()).Cur()))
                        .(slaveSelected := false, irq14 := false)
    {
      hide AtaDevice.Valid, AtaDevice.View, AtaDevice.Xfer;
      SoftResetInv(master.View());
      hide AtaSpec.SoftReset, DriveInv;
      assert curr == master;
      master.SoftReset();
      assert slave.Valid() && slave.View() == old(slave.View());
      curr := master;
      irq14 := false;
    }

    /** Registers that do not take part in the invariant. */
    method SetRegister(i: nat, val: byte)
      requires Valid() && i in {REG_DEVICE_CONTROL, REG_FEATURES}
      modifies Repr
      ensures Valid() && Repr == old(Repr) && curr == old(curr)
      ensures View() == old(View()).WithCur(old(View()).Cur().(reg := old(View()).Cur().reg[i := val]))
    {
      hide AtaDevice.Valid, AtaDevice.View, AtaDevice.Xfer;
      curr.SetRegister(i, val);
    }

    method InB(off: int) returns (val: byte)
      requires Valid() && Legal(View(), AtaSpec.InB(off))
      modifies `irq14
      ensures Valid() && Repr == old(Repr)
      ensures val == ReadPort(old(View()), off)
      ensures View() == Step(old(View()), AtaSpec.InB(off))
    {
      if off == PORT_FLOPPY0 { return 0; }
      if off == PORT_FLOPPY4 { return 0; }
      if off == PORT_DEVICE_HEAD { return if curr == slave then 0xB0 else 0xA0; }
      if !curr.present { return 0; }
      if off == PORT_ERROR_FEATURES {
        val := curr.reg[REG_ERROR];
      } else if off == PORT_SECTOR_COUNT {
        val := curr.reg[REG_SECTOR_COUNT];
      } else if off == PORT_SECTOR_NUMBER {
        val := curr.reg[REG_SECTOR_NUMBER];
      } else if off == PORT_STATUS_COMMAND {
        irq14 := false;
        val := curr.reg[REG_STATUS];
      } else {
        val := curr.reg[REG_ALTERNATE_STATUS];
      }
    }

    method InW() returns (val: word)
      requires Valid() && Legal(View(), AtaSpec.InW)
      modifies Repr
      ensures Valid() && Repr == old(Repr)
      ensures ToLE(2, val) == Delivered(old(View()), AtaSpec.InW)
      ensures View() == Step(old(View()), AtaSpec.InW)
    {
      hide AtaDevice.Valid, AtaDevice.View, AtaDevice.Xfer;
      DataInv(curr.View(), 0);
      val := curr.ReadData();
    }

    method OutW(val: word)
      requires Valid() && Legal(View(), AtaSpec.OutW(val))
      modifies Repr
      ensures Valid() && Repr == old(Repr)
      ensures View() == Step(old(View()), AtaSpec.OutW(val))
    {
      hide AtaDevice.Valid, AtaDevice.View, AtaDevice.Xfer;
      DataInv(curr.View(), val);
      var done := curr.WriteData(val);
      if done { irq14 := true; }
    }
  }
}
