/** Machine bytes, little-endian words and in-place patches of byte buffers.
    Every on-disk structure of the kernel is read and written through these. */
module Bytes {
  import opened Arith

  type u8 = x: int | 0 <= x < 0x100
  type u16 = x: int | 0 <= x < 0x1_0000
  type u32 = x: int | 0 <= x < 0x1_0000_0000

  type Buf = seq<u8>

  /** A 512-byte sector. */
  type Sector = b: Buf | |b| == 512 witness Zeros(512)

  datatype Option<+T> = None | Some(value: T)

  function Zeros(n: nat): (r: Buf)
    ensures |r| == n && forall i :: 0 <= i < n ==> r[i] == 0
  {
    seq(n, _ => 0)
  }

  /** `dst[o..o+len].copy_from_slice(src)`. */
  function Splice(b: Buf, o: nat, src: Buf): (r: Buf)
    requires o + |src| <= |b|
    ensures |r| == |b|
    ensures forall i :: 0 <= i < |b| ==> r[i] == if o <= i < o + |src| then src[i - o] else b[i]
  {
    b[..o] + src + b[o + |src|..]
  }

  /** `data` written over `bytes` at `offset`. */
  function Overwrite(bytes: Buf, offset: nat, data: Buf): (r: Buf)
    requires offset <= |bytes|
    ensures |r| == Max(|bytes|, offset + |data|)
    ensures forall i :: 0 <= i < |r| ==> r[i] == if offset <= i < offset + |data| then data[i - offset] else bytes[i]
  {
    if offset + |data| <= |bytes| then Splice(bytes, offset, data) else bytes[..offset] + data
  }

  function U16At(b: Buf, o: nat): u16
    requires o + 2 <= |b|
  {
    b[o] as int + 0x100 * (b[o + 1] as int)
  }

  function U32At(b: Buf, o: nat): u32
    requires o + 4 <= |b|
  {
    b[o] as int + 0x100 * (b[o + 1] as int) + 0x1_0000 * (b[o + 2] as int) + 0x100_0000 * (b[o + 3] as int)
  }

  function U16Bytes(v: u16): (r: Buf)
    ensures |r| == 2 && U16At(r, 0) == v
  {
    [v % 0x100, v / 0x100]
  }

  function U32Bytes(v: u32): (r: Buf)
    ensures |r| == 4 && U32At(r, 0) == v
  {
    WordDigits(v);
    [v % 0x100, (v / 0x100) % 0x100, (v / 0x1_0000) % 0x100, v / 0x100_0000]
  }

  lemma WordDigits(v: u32)
    ensures v as int == v as int % 0x100 + 0x100 * (v as int / 0x100 % 0x100)
            + 0x1_0000 * (v as int / 0x1_0000 % 0x100) + 0x100_0000 * (v as int / 0x100_0000)
  {
    var x := v as int;
    assert x == x % 0x100 + 0x100 * (x / 0x100);
    assert x / 0x100 == x / 0x100 % 0x100 + 0x100 * (x / 0x1_0000);
    assert x / 0x1_0000 == x / 0x1_0000 % 0x100 + 0x100 * (x / 0x100_0000);
  }

  function PutU16(b: Buf, o: nat, v: u16): (r: Buf)
    requires o + 2 <= |b|
    ensures |r| == |b| && U16At(r, o) == v
    ensures forall i :: 0 <= i < |b| && !(o <= i < o + 2) ==> r[i] == b[i]
  {
    Splice(b, o, U16Bytes(v))
  }

  function PutU32(b: Buf, o: nat, v: u32): (r: Buf)
    requires o + 4 <= |b|
    ensures |r| == |b| && U32At(r, o) == v
    ensures forall i :: 0 <= i < |b| && !(o <= i < o + 4) ==> r[i] == b[i]
  {
    Splice(b, o, U32Bytes(v))
  }

  function U64At(b: Buf, o: nat): nat
    requires o + 8 <= |b|
  {
    U32At(b, o) as int + 0x1_0000_0000 * U32At(b, o + 4) as int
  }

  function PutU64(b: Buf, o: nat, v: nat): (r: Buf)
    requires o + 8 <= |b| && v < 0x1_0000_0000_0000_0000
    ensures |r| == |b| && U64At(r, o) == v
    ensures forall i :: 0 <= i < |b| && !(o <= i < o + 8) ==> r[i] == b[i]
  {
    var lo := PutU32(b, o, v % 0x1_0000_0000);
    var r := PutU32(lo, o + 4, v / 0x1_0000_0000);
    assert U32At(r, o) == U32At(lo, o);
    r
  }

  /** Writing back the word that was read restores the bytes. */
  lemma U16Restores(b: Buf, o: nat)
    requires o + 2 <= |b|
    ensures U16Bytes(U16At(b, o)) == b[o..o + 2]
  {
  }

  lemma U32Restores(b: Buf, o: nat)
    requires o + 4 <= |b|
    ensures U32Bytes(U32At(b, o)) == b[o..o + 4]
  {
    Digits(b[o] as int, b[o + 1] as int, b[o + 2] as int, b[o + 3] as int);
  }

  lemma Digits(a: nat, b: nat, c: nat, d: nat)
    requires a < 0x100 && b < 0x100 && c < 0x100 && d < 0x100
    ensures var x := a + 0x100 * b + 0x1_0000 * c + 0x100_0000 * d;
            x % 0x100 == a && x / 0x100 % 0x100 == b && x / 0x1_0000 % 0x100 == c && x / 0x100_0000 == d
  {
    var x := a + 0x100 * b + 0x1_0000 * c + 0x100_0000 * d;
    assert x / 0x100 == b + 0x100 * c + 0x1_0000 * d;
    assert x / 0x1_0000 == c + 0x100 * d;
  }
}
