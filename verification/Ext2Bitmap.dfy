/** Usage bitmaps: one bit per block or inode of a group, little end first
    (fs/src/ext2/bitmap_alloc.rs). */
module Bitmap {
  import opened Bytes

  function Pow2(w: nat): (p: nat)
    ensures p >= 1
  {
    if w == 0 then 1 else 2 * Pow2(w - 1)
  }

  /** Bit `k` of a number: `x & (1 << k) != 0`. */
  predicate BitOf(x: nat, k: nat) {
    if k == 0 then x % 2 == 1 else BitOf(x / 2, k - 1)
  }

  /** `x | (1 << k)` when `v`, `x & !(1 << k)` otherwise, on a `w`-bit number. */
  function WithBit(x: nat, k: nat, v: bool, w: nat): (r: nat)
    requires k < w && x < Pow2(w)
    ensures r < Pow2(w)
    ensures forall j: nat :: BitOf(r, j) == if j == k then v else BitOf(x, j)
    decreases k
  {
    if k == 0 then
      var r := 2 * (x / 2) + if v then 1 else 0;
      assert r / 2 == x / 2;
      r
    else
      var r := x % 2 + 2 * WithBit(x / 2, k - 1, v, w - 1);
      assert r / 2 == WithBit(x / 2, k - 1, v, w - 1) && r % 2 == x % 2;
      r
  }

  lemma {:induction false} OnesHaveEveryBit(w: nat, k: nat)
    requires k < w
    ensures BitOf(Pow2(w) - 1, k)
  {
    if k > 0 {
      OnesHaveEveryBit(w - 1, k - 1);
      assert (Pow2(w) - 1) / 2 == Pow2(w - 1) - 1;
    }
  }

  lemma ByteWidth()
    ensures Pow2(8) == 0x100
  {
    assert Pow2(4) == 16;
  }

  predicate ByteBit(x: u8, k: nat)
    requires k < 8
  {
    BitOf(x as int, k)
  }

  /** `byte |= 1 << k` and `byte &= !(1 << k)`. */
  function ByteWith(x: u8, k: nat, v: bool): (r: u8)
    requires k < 8
    ensures forall j: nat :: j < 8 ==> ByteBit(r, j) == if j == k then v else ByteBit(x, j)
  {
    ByteWidth();
    WithBit(x as int, k, v, 8)
  }

  predicate Bit(bm: Buf, i: nat)
    requires i < 8 * |bm|
  {
    ByteBit(bm[i / 8], i % 8)
  }

  function SetBit(bm: Buf, i: nat): (r: Buf)
    requires i < 8 * |bm|
    ensures |r| == |bm|
    ensures forall j :: 0 <= j < 8 * |bm| ==> Bit(r, j) == (j == i || Bit(bm, j))
  {
    bm[i / 8 := ByteWith(bm[i / 8], i % 8, true)]
  }

  function ClearBit(bm: Buf, i: nat): (r: Buf)
    requires i < 8 * |bm|
    ensures |r| == |bm|
    ensures forall j :: 0 <= j < 8 * |bm| ==> Bit(r, j) == (j != i && Bit(bm, j))
  {
    bm[i / 8 := ByteWith(bm[i / 8], i % 8, false)]
  }

  /** The free items of a bitmap; its size is the number of zero bits. */
  ghost function FreeBits(bm: Buf): set<nat> {
    set i: nat | i < 8 * |bm| && !Bit(bm, i)
  }

  /** First zero bit at or after `i`. */
  function FirstFree(bm: Buf, i: nat): (r: Option<nat>)
    requires i <= 8 * |bm|
    ensures r.Some? ==> i <= r.value < 8 * |bm| && !Bit(bm, r.value)
    ensures r.Some? ==> forall j :: i <= j < r.value ==> Bit(bm, j)
    ensures r.None? ==> forall j :: i <= j < 8 * |bm| ==> Bit(bm, j)
    decreases 8 * |bm| - i
  {
    if i == 8 * |bm| then None
    else if !Bit(bm, i) then Some(i)
    else FirstFree(bm, i + 1)
  }

  lemma FirstFreeIsUnique(bm: Buf, k: nat)
    requires k < 8 * |bm| && !Bit(bm, k)
    requires forall j :: 0 <= j < k ==> Bit(bm, j)
    ensures FirstFree(bm, 0) == Some(k)
  {
    var r := FirstFree(bm, 0);
    assert r.Some?;
    assert r.value >= k;
  }

  /** find_free_bit: the byte scan skips full bytes and still returns the first zero bit. */
  method FindFreeBit(bm: Buf) returns (r: Option<nat>)
    ensures r == FirstFree(bm, 0)
  {
    var byteIdx := 0;
    while byteIdx < |bm|
      invariant 0 <= byteIdx <= |bm|
      invariant forall j :: 0 <= j < 8 * byteIdx ==> Bit(bm, j)
    {
      ByteWidth();
      if bm[byteIdx] != 0xFF {
        var bit := 0;
        while bit < 8
          invariant 0 <= bit <= 8
          invariant forall k: nat :: k < bit ==> ByteBit(bm[byteIdx], k)
        {
          if !ByteBit(bm[byteIdx], bit) {
            var k := 8 * byteIdx + bit;
            assert k / 8 == byteIdx && k % 8 == bit;
            forall j | 0 <= j < k ensures Bit(bm, j) {
              if 8 * byteIdx <= j { assert j / 8 == byteIdx; }
            }
            FirstFreeIsUnique(bm, k);
            return Some(k);
          }
          bit := bit + 1;
        }
      }
      forall k: nat | k < 8 ensures ByteBit(bm[byteIdx], k) {
        if bm[byteIdx] == 0xFF { OnesHaveEveryBit(8, k); }
      }
      forall j | 0 <= j < 8 * (byteIdx + 1) ensures Bit(bm, j) {
        if 8 * byteIdx <= j { assert j / 8 == byteIdx; }
      }
      byteIdx := byteIdx + 1;
    }
    r := None;
  }

  /** Marking a bit used or free moves the zero-bit count by exactly one, or not at all. */
  lemma FreeBitsUpdate(bm: Buf, i: nat)
    requires i < 8 * |bm|
    ensures FreeBits(SetBit(bm, i)) == FreeBits(bm) - {i}
    ensures FreeBits(ClearBit(bm, i)) == FreeBits(bm) + {i}
    ensures !Bit(bm, i) ==> |FreeBits(SetBit(bm, i))| == |FreeBits(bm)| - 1
    ensures Bit(bm, i) ==> |FreeBits(ClearBit(bm, i))| == |FreeBits(bm)| + 1
  {
  }

  lemma {:induction false} BitsDetermine(x: nat, y: nat, w: nat)
    requires x < Pow2(w) && y < Pow2(w)
    requires forall k: nat :: k < w ==> BitOf(x, k) == BitOf(y, k)
    ensures x == y
  {
    if w > 0 {
      assert BitOf(x, 0) == BitOf(y, 0);
      forall k: nat | k < w - 1 ensures BitOf(x / 2, k) == BitOf(y / 2, k) {
        assert BitOf(x, k + 1) == BitOf(y, k + 1);
      }
      BitsDetermine(x / 2, y / 2, w - 1);
    }
  }

  lemma ClearUndoesSet(bm: Buf, i: nat)
    requires i < 8 * |bm| && !Bit(bm, i)
    ensures ClearBit(SetBit(bm, i), i) == bm
  {
    var x := bm[i / 8];
    var y := ByteWith(ByteWith(x, i % 8, true), i % 8, false);
    ByteWidth();
    assert forall k: nat :: k < 8 ==> ByteBit(x, k) == ByteBit(y, k);
    var m: nat, n: nat := x as int, y as int;
    assert forall k: nat :: k < 8 ==> BitOf(m, k) == ByteBit(x, k) && BitOf(n, k) == ByteBit(y, k);
    BitsDetermine(m, n, 8);
  }
}
