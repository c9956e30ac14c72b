/** The free-block bitmap: bits of bytes of blocks, and the allocator's scan over them. */
module Bitmap {
  import opened Bytes

  /** Bits per bitmap block, inodes per inode block. */
  const BPB: nat := BSIZE * 8
  const IPB: nat := 8

  /** The superblock: disk size, number of inodes and length of the log, in blocks. */
  datatype Geometry = Geometry(size: nat, ninodes: nat, nlog: nat) {
    /** Block holding inode `i`, and block holding the bit of block `b`. */
    function InodeBlock(i: nat): nat {
      i / IPB + 2
    }

    function BitmapBlock(b: nat): nat {
      b / BPB + ninodes / IPB + 3
    }

    /** First data block (what mkfs counts as used before any file), and first log block. */
    function DataStart(): nat {
      ninodes / IPB + 3 + (size / BPB + 1)
    }

    function LogStart(): int {
      size - nlog
    }

    predicate Valid() {
      DataStart() <= LogStart() && size < U32
    }
  }

  function Pow2(n: nat): (p: nat) {
    if n == 0 then 1 else 2 * Pow2(n - 1)
  }

  /** `x & (1 << k)`, on the binary digits of `x`. */
  predicate Bit(x: nat, k: nat) {
    if k == 0 then x % 2 == 1 else Bit(x / 2, k - 1)
  }

  /** `x | (1 << k)` if `on`, else `x & ~(1 << k)`, for an `n`-bit `x`. */
  function SetBit(x: nat, k: nat, on: bool, n: nat): (r: nat)
    requires k < n && x < Pow2(n)
    ensures r < Pow2(n)
  {
    if k == 0 then x / 2 * 2 + (if on then 1 else 0) else SetBit(x / 2, k - 1, on, n - 1) * 2 + x % 2
  }

  lemma {:induction false} SetBitBits(x: nat, k: nat, on: bool, n: nat, j: nat)
    requires k < n && x < Pow2(n)
    ensures Bit(SetBit(x, k, on, n), j) <==> if j == k then on else Bit(x, j)
  {
    var r := SetBit(x, k, on, n);
    if k == 0 {
      assert r / 2 == x / 2;
    } else {
      assert r / 2 == SetBit(x / 2, k - 1, on, n - 1) && r % 2 == x % 2;
      if j > 0 {
        SetBitBits(x / 2, k - 1, on, n - 1, j - 1);
      }
    }
  }

  predicate BlockBit(blk: Block, bi: nat)
    requires bi < BPB
  {
    Bit(blk[bi / 8], bi % 8)
  }

  function BlockSet(blk: Block, bi: nat, on: bool): (r: Block)
    requires bi < BPB
  {
    blk[bi / 8 := SetBit(blk[bi / 8], bi % 8, on, 8)]
  }

  lemma BlockSetBits(blk: Block, bi: nat, on: bool, bj: nat)
    requires bi < BPB && bj < BPB
    ensures BlockBit(BlockSet(blk, bi, on), bj) <==> if bj == bi then on else BlockBit(blk, bj)
  {
    if bj / 8 == bi / 8 {
      SetBitBits(blk[bi / 8], bi % 8, on, 8, bj % 8);
    }
  }

  lemma BitmapBelowData(g: Geometry, b: nat)
    requires g.Valid() && b < g.size
    ensures g.BitmapBlock(b) < g.DataStart() <= g.size
  {
  }

  /** Block `b` is marked in use. */
  predicate Marked(g: Geometry, store: seq<Block>, b: nat)
    requires g.Valid() && |store| == g.size && b < g.size
  {
    BlockBit(store[g.BitmapBlock(b)], b % BPB)
  }

  /** The store with the bit of block `b` set or cleared. */
  function Mark(g: Geometry, store: seq<Block>, b: nat, on: bool): (r: seq<Block>)
    requires g.Valid() && |store| == g.size && b < g.size
  {
    store[g.BitmapBlock(b) := BlockSet(store[g.BitmapBlock(b)], b % BPB, on)]
  }

  lemma MarkBits(g: Geometry, store: seq<Block>, b: nat, on: bool)
    requires g.Valid() && |store| == g.size && b < g.size
    ensures forall x: nat :: x < g.size ==>
              (Marked(g, Mark(g, store, b, on), x) <==> if x == b then on else Marked(g, store, x))
  {
    hide BlockBit, BlockSet;
    var r := Mark(g, store, b, on);
    forall x: nat | x < g.size ensures Marked(g, r, x) <==> if x == b then on else Marked(g, store, x) {
      if x / BPB == b / BPB {
        BlockSetBits(store[g.BitmapBlock(b)], b % BPB, on, x % BPB);
      }
    }
  }

  /** Writing a block outside the bitmap leaves every mark alone. */
  lemma WriteKeepsMarks(g: Geometry, store: seq<Block>, s: nat, blk: Block)
    requires g.Valid() && |store| == g.size && g.DataStart() <= s < g.size
    ensures forall x: nat :: x < g.size ==> (Marked(g, store[s := blk], x) <==> Marked(g, store, x))
  {
  }
}
