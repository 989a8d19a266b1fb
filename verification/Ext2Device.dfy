/** The block device under the driver: 512-byte sectors, read and written one at a time
    (fs/src/ext2/inode.rs:45-69, superblock.rs:90-107). */
module Ext2Device {
  import opened Arith
  import opened Bytes
  import opened Bitmap
  import opened Ext2Layout
  import opened Ext2Alloc

  ghost predicate Sectors(s: seq<Buf>) {
    forall i :: 0 <= i < |s| ==> |s[i]| == 512
  }

  /** The first `k` sectors of block `b`, joined. */
  ghost function Joined(s: seq<Buf>, spb: nat, b: nat, k: nat): (r: Buf)
    requires Sectors(s) && Mul(b, spb) + k <= |s|
    ensures |r| == 512 * k
  {
    if k == 0 then [] else Joined(s, spb, b, k - 1) + s[Mul(b, spb) + k - 1]
  }

  /** The device seen as `count` blocks of `spb` sectors. */
  ghost function BlocksOf(s: seq<Buf>, spb: nat, count: nat): (r: seq<Buf>)
    requires Sectors(s) && Mul(count, spb) <= |s|
    ensures |r| == count && forall b :: 0 <= b < count ==> |r[b]| == 512 * spb
  {
    seq(count, b requires 0 <= b < count =>
      BlockInside(b, count, spb);
      Joined(s, spb, b, spb))
  }

  lemma BlockInside(b: nat, count: nat, spb: nat)
    requires b < count
    ensures Mul(b, spb) + spb <= Mul(count, spb)
  {
    MulMono(b + 1, count, spb);
  }

  lemma BlocksApart(b: nat, c: nat, spb: nat, k: nat)
    requires b != c && k < spb
    ensures !(Mul(c, spb) <= Mul(b, spb) + k < Mul(c, spb) + spb)
  {
    if b < c {
      MulMono(b + 1, c, spb);
    } else {
      MulMono(c + 1, b, spb);
    }
  }

  lemma {:induction false} JoinedAt(s: seq<Buf>, spb: nat, b: nat, k: nat, i: nat)
    requires Sectors(s) && Mul(b, spb) + k <= |s| && i < 512 * k
    ensures Mul(b, spb) + i / 512 < |s| && Joined(s, spb, b, k)[i] == s[Mul(b, spb) + i / 512][i % 512]
    decreases k
  {
    if i < 512 * (k - 1) {
      JoinedAt(s, spb, b, k - 1, i);
    } else {
      assert i / 512 == k - 1 && i % 512 == i - 512 * (k - 1);
    }
  }

  lemma {:induction false} JoinedSame(s: seq<Buf>, t: seq<Buf>, spb: nat, b: nat, k: nat)
    requires Sectors(s) && Sectors(t) && |s| == |t| && Mul(b, spb) + k <= |s|
    requires forall i :: Mul(b, spb) <= i < Mul(b, spb) + k ==> s[i] == t[i]
    ensures Joined(s, spb, b, k) == Joined(t, spb, b, k)
    decreases k
  {
    if k > 0 { JoinedSame(s, t, spb, b, k - 1); }
  }

  /** Rewriting the sectors of block `b` rewrites that block. */
  lemma BlockReplaced(s: seq<Buf>, t: seq<Buf>, spb: nat, count: nat, b: nat, data: Buf)
    requires Sectors(s) && Sectors(t) && |s| == |t| && Mul(count, spb) <= |s| && b < count && |data| == 512 * spb
    requires Mul(b, spb) + spb <= |s|
    requires forall i :: 0 <= i < |s| && !(Mul(b, spb) <= i < Mul(b, spb) + spb) ==> t[i] == s[i]
    requires forall k :: 0 <= k < spb ==> t[Mul(b, spb) + k] == data[512 * k..512 * (k + 1)]
    ensures BlocksOf(t, spb, count) == BlocksOf(s, spb, count)[b := data]
  {
    var u, v := BlocksOf(s, spb, count), BlocksOf(t, spb, count);
    forall c | 0 <= c < count ensures v[c] == u[b := data][c] {
      BlockInside(c, count, spb);
      if c == b {
        JoinedIs(t, spb, b, spb, data);
      } else {
        forall i | Mul(c, spb) <= i < Mul(c, spb) + spb ensures s[i] == t[i] {
          BlocksApart(c, b, spb, i - Mul(c, spb));
        }
        JoinedSame(s, t, spb, c, spb);
      }
    }
  }

  lemma {:induction false} JoinedIs(t: seq<Buf>, spb: nat, b: nat, k: nat, data: Buf)
    requires Sectors(t) && Mul(b, spb) + k <= |t| && 512 * k <= |data|
    requires forall j :: 0 <= j < k ==> t[Mul(b, spb) + j] == data[512 * j..512 * (j + 1)]
    ensures Joined(t, spb, b, k) == data[..512 * k]
    decreases k
  {
    if k > 0 {
      JoinedIs(t, spb, b, k - 1, data);
      assert data[..512 * (k - 1)] + data[512 * (k - 1)..512 * k] == data[..512 * k];
    }
  }
}
