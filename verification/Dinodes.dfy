/** The on-disk form of an inode: 64 bytes, eight to a block. */
module Dinodes {
  import opened Bytes
  import opened Bitmap
  import opened Inodes

  const DINODE: nat := 64

  /** The fields fit their on-disk widths. */
  predicate Encodable(ino: Inode) {
    && ino.kind < 0x8000 && 0 <= ino.nlink < 0x8000 && ino.size < U32 && |ino.addrs| == NDIRECT + 1
    && forall q :: 0 <= q <= NDIRECT ==> ino.addrs[q] < U32
  }

  function GetU16(b: seq<byte>, off: nat): (v: nat)
    requires off + 2 <= |b|
    ensures v < 0x1_0000
  {
    b[off] as int + 0x100 * (b[off + 1] as int)
  }

  function PutU16(b: seq<byte>, off: nat, v: nat): (r: seq<byte>)
    requires off + 2 <= |b| && v < 0x1_0000
    ensures |r| == |b|
  {
    b[off := v % 0x100][off + 1 := v / 0x100]
  }

  /** The first `k` addresses are stored from `off` on. */
  function PutAddrs(b: seq<byte>, off: nat, addrs: seq<nat>, k: nat): (r: seq<byte>)
    requires k <= |addrs| && off + 4 * k <= |b| && forall q :: 0 <= q < |addrs| ==> addrs[q] < U32
    ensures |r| == |b|
  {
    if k == 0 then b else PutU32(PutAddrs(b, off, addrs, k - 1), off + 4 * (k - 1), addrs[k - 1])
  }

  function GetAddrs(b: seq<byte>, off: nat, k: nat): (r: seq<nat>)
    requires off + 4 * k <= |b|
    ensures |r| == k && forall q :: 0 <= q < k ==> r[q] == GetU32(b, off + 4 * q)
  {
    if k == 0 then [] else GetAddrs(b, off, k - 1) + [GetU32(b, off + 4 * (k - 1))]
  }

  /** inode_update's stores into slot `slot` of an inode block. The device numbers are not modelled. */
  function PutInode(blk: Block, slot: nat, ino: Inode): (r: Block)
    requires slot < IPB && Encodable(ino)
  {
    var o := DINODE * slot;
    PutAddrs(PutU32(PutU16(PutU16(blk, o, ino.kind), o + 6, ino.nlink), o + 8, ino.size), o + 12, ino.addrs,
      NDIRECT + 1)
  }

  function GetInode(blk: Block, slot: nat): (ino: Inode)
    requires slot < IPB
  {
    var o := DINODE * slot;
    Inode(GetU16(blk, o), GetU16(blk, o + 6), GetU32(blk, o + 8), GetAddrs(blk, o + 12, NDIRECT + 1))
  }

  lemma {:induction false} PutAddrsGet(b: seq<byte>, off: nat, addrs: seq<nat>, k: nat)
    requires k <= |addrs| && off + 4 * k <= |b| && forall q :: 0 <= q < |addrs| ==> addrs[q] < U32
    ensures forall q :: 0 <= q < k ==> GetU32(PutAddrs(b, off, addrs, k), off + 4 * q) == addrs[q]
    ensures forall x :: 0 <= x < |b| && !(off <= x < off + 4 * k) ==> PutAddrs(b, off, addrs, k)[x] == b[x]
  {
    hide GetU32, PutU32;
    if k > 0 {
      PutAddrsGet(b, off, addrs, k - 1);
      PutThenGet(PutAddrs(b, off, addrs, k - 1), off + 4 * (k - 1), addrs[k - 1]);
    }
  }

  /** Only the bytes of the slot change. */
  lemma PutInodeFrame(blk: Block, slot: nat, ino: Inode)
    requires slot < IPB && Encodable(ino)
    ensures forall x :: 0 <= x < BSIZE && !(DINODE * slot <= x < DINODE * (slot + 1)) ==>
              PutInode(blk, slot, ino)[x] == blk[x]
  {
    hide PutU32, GetU32, PutAddrs;
    var o := DINODE * slot;
    var b1 := PutU16(PutU16(blk, o, ino.kind), o + 6, ino.nlink);
    PutThenGet(b1, o + 8, ino.size);
    PutAddrsGet(PutU32(b1, o + 8, ino.size), o + 12, ino.addrs, NDIRECT + 1);
  }

  /** An inode that is stored is read back. */
  lemma PutGetInode(blk: Block, slot: nat, ino: Inode)
    requires slot < IPB && Encodable(ino)
    ensures GetInode(PutInode(blk, slot, ino), slot) == ino
  {
    hide PutU32, GetU32, PutAddrs, GetAddrs;
    var o := DINODE * slot;
    var b1 := PutU16(PutU16(blk, o, ino.kind), o + 6, ino.nlink);
    var b2 := PutU32(b1, o + 8, ino.size);
    var b3 := PutAddrs(b2, o + 12, ino.addrs, NDIRECT + 1);
    PutThenGet(b1, o + 8, ino.size);
    PutAddrsGet(b2, o + 12, ino.addrs, NDIRECT + 1);
    assert GetU16(b3, o) == GetU16(b1, o) == ino.kind && GetU16(b3, o + 6) == GetU16(b1, o + 6) == ino.nlink;
    SameU32(b2, b3, o + 8);
    assert GetAddrs(b3, o + 12, NDIRECT + 1) == ino.addrs;
  }

  /** Where the fields of `struct dinode` are in its 64 bytes; the device numbers at 2 and 4 are left alone. */
  lemma InodeLayout(blk: Block, slot: nat, ino: Inode)
    requires slot < IPB && Encodable(ino)
    ensures var r, o := PutInode(blk, slot, ino), DINODE * slot;
            && GetU16(r, o) == ino.kind && GetU16(r, o + 6) == ino.nlink && GetU32(r, o + 8) == ino.size
            && (forall q :: 0 <= q < NDIRECT + 1 ==> GetU32(r, o + 12 + 4 * q) == ino.addrs[q])
            && forall x :: 0 <= x < BSIZE && !(o <= x < o + DINODE && !(o + 2 <= x < o + 6)) ==> r[x] == blk[x]
  {
    hide PutU32, GetU32, PutAddrs;
    var o := DINODE * slot;
    var b1 := PutU16(PutU16(blk, o, ino.kind), o + 6, ino.nlink);
    var b2 := PutU32(b1, o + 8, ino.size);
    PutThenGet(b1, o + 8, ino.size);
    PutAddrsGet(b2, o + 12, ino.addrs, NDIRECT + 1);
    SameU32(b2, PutInode(blk, slot, ino), o + 8);
  }

  lemma SameU32(a: seq<byte>, b: seq<byte>, off: nat)
    requires off + 4 <= |a| && off + 4 <= |b| && forall x :: off <= x < off + 4 ==> a[x] == b[x]
    ensures GetU32(a, off) == GetU32(b, off)
  {
  }

  /** An inode is read the same from blocks that agree on its slot. */
  lemma SameSlotSameInode(a: Block, b: Block, slot: nat)
    requires slot < IPB && forall x :: DINODE * slot <= x < DINODE * (slot + 1) ==> a[x] == b[x]
    ensures GetInode(a, slot) == GetInode(b, slot)
  {
    hide GetU32;
    var o := DINODE * slot;
    SameU32(a, b, o + 8);
    forall q | 0 <= q < NDIRECT + 1 ensures GetU32(a, o + 12 + 4 * q) == GetU32(b, o + 12 + 4 * q) {
      SameU32(a, b, o + 12 + 4 * q);
    }
    assert GetAddrs(a, o + 12, NDIRECT + 1) == GetAddrs(b, o + 12, NDIRECT + 1);
  }

  /** The inode blocks of `store` hold the inodes of `table`. */
  ghost predicate OnDisk(g: Geometry, store: seq<Block>, table: seq<Inode>) {
    && |table| <= g.ninodes && g.BitmapBlock(0) <= |store|
    && forall i: nat :: i < |table| ==> Encodable(table[i]) && GetInode(store[g.InodeBlock(i)], i % IPB) == table[i]
  }

  /** Storing inode `i` changes what is on disk for inode `i` only. */
  lemma InodeStored(g: Geometry, store: seq<Block>, table: seq<Inode>, i: nat, ino: Inode)
    requires OnDisk(g, store, table) && i < |table| && Encodable(ino)
    ensures g.InodeBlock(i) < g.BitmapBlock(0)
    ensures OnDisk(g, store[g.InodeBlock(i) := PutInode(store[g.InodeBlock(i)], i % IPB, ino)], table[i := ino])
  {
    hide PutInode, GetInode;
    var b := g.InodeBlock(i);
    var store' := store[b := PutInode(store[b], i % IPB, ino)];
    PutGetInode(store[b], i % IPB, ino);
    PutInodeFrame(store[b], i % IPB, ino);
    forall j: nat | j < |table| ensures GetInode(store'[g.InodeBlock(j)], j % IPB) == table[i := ino][j] {
      if j != i && g.InodeBlock(j) == b {
        assert j % IPB != i % IPB;
        SameSlotSameInode(store[b], store'[b], j % IPB);
      }
    }
  }

  /** Writes at or above the bitmap leave the inodes alone. */
  ghost predicate KeepsInodeBlocks(g: Geometry, s: seq<Block>, s': seq<Block>) {
    |s'| == |s| && forall b :: 0 <= b < g.BitmapBlock(0) && b < |s| ==> s'[b] == s[b]
  }

  lemma OnDiskKept(g: Geometry, s: seq<Block>, s': seq<Block>, table: seq<Inode>)
    requires OnDisk(g, s, table) && KeepsInodeBlocks(g, s, s')
    ensures OnDisk(g, s', table)
  {
    hide GetInode;
    forall i: nat | i < |table| ensures g.InodeBlock(i) < g.BitmapBlock(0) {
    }
  }
}
