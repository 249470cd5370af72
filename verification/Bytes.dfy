/**
 Fixed-width machine values and their little-endian byte layout.
 Values are mathematical integers in range, so every truncation of the original is written out.
 */
module Bytes {
  type byte = x: int | 0 <= x < 0x100
  type word = x: int | 0 <= x < 0x1_0000
  type dword = x: int | 0 <= x < 0x1_0000_0000

  /** The value of a byte string read little-endian. */
  function FromLE(b: seq<byte>): (v: nat)
    ensures |b| == 1 ==> v == b[0]
    ensures |b| == 2 ==> v == b[0] as int + 0x100 * b[1] as int
    ensures |b| == 4 ==> v == b[0] as int + 0x100 * b[1] as int + 0x1_0000 * b[2] as int + 0x100_0000 * b[3] as int
  {
    if |b| == 0 then 0 else b[0] + 0x100 * FromLE(b[1..])
  }

  /** The low `size` bytes of `v`, least significant first. */
  function ToLE(size: nat, v: nat): (b: seq<byte>)
    ensures |b| == size
  {
    if size == 0 then [] else [v % 0x100] + ToLE(size - 1, v / 0x100)
  }

  lemma {:induction false} LERoundTrip(b: seq<byte>)
    ensures ToLE(|b|, FromLE(b)) == b
  {
    if |b| != 0 {
      LERoundTrip(b[1..]);
      assert FromLE(b) / 0x100 == FromLE(b[1..]);
      assert b == [b[0]] + b[1..];
    }
  }

  lemma WordLayout(w: word)
    ensures ToLE(2, w) == [w % 0x100, w / 0x100]
    ensures FromLE(ToLE(2, w)) == w
  {
    assert ToLE(2, w) == [w % 0x100] + ToLE(1, w / 0x100);
    assert ToLE(1, w / 0x100) == [w / 0x100] + ToLE(0, 0);
  }

  lemma DwordLayout(d: dword)
    ensures ToLE(4, d) == [d % 0x100, d / 0x100 % 0x100, d / 0x1_0000 % 0x100, d / 0x100_0000]
    ensures FromLE(ToLE(4, d)) == d
  {
    var d1 := d / 0x100;
    var d2 := d1 / 0x100;
    var d3 := d2 / 0x100;
    assert ToLE(4, d) == [d % 0x100] + ToLE(3, d1);
    assert ToLE(3, d1) == [d1 % 0x100] + ToLE(2, d2);
    WordLayout(d2);
    assert d2 == d / 0x1_0000 && d3 == d / 0x100_0000;
  }

  /** The low 32 bits of eight bytes are the first four. */
  lemma LowHalf(b: seq<byte>)
    requires |b| == 8
    ensures ToLE(4, FromLE(b) % 0x1_0000_0000) == b[..4]
  {
    hide FromLE, ToLE;
    var low, high := FromLE(b[..4]), FromLE(b[4..]);
    FirstByte(b, 0);
    FirstByte(b, 1);
    FirstByte(b, 2);
    FirstByte(b, 3);
    assert b[0..] == b;
    LERoundTrip(b[..4]);
    assert low == b[0] as int + 0x100 * b[1] as int + 0x1_0000 * b[2] as int + 0x100_0000 * b[3] as int;
    Shifted(b[0], b[1], b[2], b[3], high);
    Remainder(low, high);
  }

  lemma FirstByte(b: seq<byte>, i: nat)
    requires i < |b|
    ensures FromLE(b[i..]) == b[i] + 0x100 * FromLE(b[i + 1..])
  {
    assert b[i..][1..] == b[i + 1..];
  }

  lemma Shifted(b0: byte, b1: byte, b2: byte, b3: byte, high: nat)
    ensures b0 + 0x100 * (b1 + 0x100 * (b2 + 0x100 * (b3 + 0x100 * high)))
            == b0 as int + 0x100 * b1 as int + 0x1_0000 * b2 as int + 0x100_0000 * b3 as int + 0x1_0000_0000 * high
  {}

  lemma Remainder(low: dword, high: nat)
    ensures (low + 0x1_0000_0000 * high) % 0x1_0000_0000 == low
  {}

  /** The bytes of a list of words, in order. */
  function WordBytes(ws: seq<word>): (b: seq<byte>)
    ensures |b| == 2 * |ws|
  {
    if |ws| == 0 then [] else ToLE(2, ws[0]) + WordBytes(ws[1..])
  }
}

/**
 A backing file as a flat byte string.  `lseek64`, `read` and `write` are complete operations:
 a read past the end is short, a write past the end fills the gap with zeros.
 */
module Image {
  import opened Bytes

  /** What `read(fd, _, n)` at offset `off` transfers: at most the bytes that exist. */
  function FileRead(img: seq<byte>, off: nat, n: nat): (r: seq<byte>) {
    if |img| <= off then [] else if |img| <= off + n then img[off..] else img[off..off + n]
  }

  /** The file after `write(fd, data, |data|)` at offset `off`. */
  function FileWrite(img: seq<byte>, off: nat, data: seq<byte>): (r: seq<byte>) {
    if |data| == 0 then img
    else if |img| <= off then img + Zeros(off - |img|) + data
    else if |img| <= off + |data| then img[..off] + data
    else img[..off] + data + img[off + |data|..]
  }

  function Zeros(n: nat): (z: seq<byte>)
    ensures |z| == n && forall i :: 0 <= i < n ==> z[i] == 0
  {
    seq(n, i => 0)
  }

  /** A fixed-size memory with `data` copied over it from `at` on. */
  function Splice(mem: seq<byte>, at: nat, data: seq<byte>): (r: seq<byte>)
    requires at + |data| <= |mem|
    ensures |r| == |mem|
  {
    mem[..at] + data + mem[at + |data|..]
  }

  lemma SpliceNext(mem: seq<byte>, at: nat, a: seq<byte>, b: seq<byte>)
    requires at + |a| + |b| <= |mem|
    ensures Splice(mem, at, []) == mem
    ensures Splice(Splice(mem, at, a), at + |a|, b) == Splice(mem, at, a + b)
  {}

  /** Copying into one of two adjacent blocks. */
  lemma SpliceInBlock(a: seq<byte>, b: seq<byte>, at: nat, data: seq<byte>)
    ensures at + |data| <= |a| ==> Splice(a + b, at, data) == Splice(a, at, data) + b
    ensures at + |data| <= |b| ==> Splice(a + b, |a| + at, data) == a + Splice(b, at, data)
  {}

  /** Byte `i` of the image seen as an infinite, zero-extended byte string. */
  function At(img: seq<byte>, i: nat): byte {
    if i < |img| then img[i] else 0
  }

  /** `n` bytes of the zero-extended image from `off`. */
  function Window(img: seq<byte>, off: nat, n: nat): (r: seq<byte>)
    ensures |r| == n
    ensures forall i :: 0 <= i < n ==> r[i] == At(img, off + i)
  {
    seq<byte>(n, i requires 0 <= i < n => At(img, off + i))
  }

  /** A zeroed buffer over which a short read is laid is exactly the zero-extended window. */
  lemma ReadIntoZeroed(img: seq<byte>, off: nat, n: nat)
    ensures |FileRead(img, off, n)| <= n
    ensures FileRead(img, off, n) + Zeros(n - |FileRead(img, off, n)|) == Window(img, off, n)
  {}

  /** A write is pointwise: inside the range the new data, elsewhere the old zero-extended byte. */
  lemma WriteIsPointwise(img: seq<byte>, off: nat, data: seq<byte>, i: nat)
    ensures At(FileWrite(img, off, data), i) ==
            if off <= i < off + |data| then data[i - off] else At(img, i)
    ensures |FileWrite(img, off, data)| == if |data| == 0 || off + |data| <= |img| then |img| else off + |data|
  {}

  lemma ReadBack(img: seq<byte>, off: nat, data: seq<byte>)
    ensures Window(FileWrite(img, off, data), off, |data|) == data
  {
    forall i | 0 <= i < |data|
      ensures Window(FileWrite(img, off, data), off, |data|)[i] == data[i]
    {
      WriteIsPointwise(img, off, data, off + i);
    }
  }
}
