/** mkfs: files are appended with block numbers handed out in order, and the bitmap is written last. The image always
    is one on which the kernel's invariants would hold if its bitmap already said so; at the end it does. */
module Mkfs {
  import opened Bytes
  import opened Bitmap
  import opened Inodes
  import opened FileSystem
  import opened Dinodes
  import opened Dirents

  /** The bitmap block with the first `used` bits set. */
  function FirstBits(used: nat): (blk: Block)
    requires used <= BPB
  {
    if used == 0 then ZeroBlock() else BlockSet(FirstBits(used - 1), used - 1, true)
  }

  lemma {:induction false} FirstBitsAre(used: nat, bi: nat)
    requires used <= BPB && bi < BPB
    ensures BlockBit(FirstBits(used), bi) <==> bi < used
  {
    if used > 0 {
      FirstBitsAre(used - 1, bi);
      BlockSetBits(FirstBits(used - 1), used - 1, true, bi);
    } else {
      NoBits(bi % 8);
    }
  }

  lemma {:induction false} NoBits(k: nat)
    ensures !Bit(0, k)
  {
    if k > 0 {
      NoBits(k - 1);
    }
  }

  /** `shown` is the image once its bitmap marks the blocks below `free`; the data blocks from there on are zero. */
  ghost predicate Shown(g: Geometry, image: seq<Block>, shown: seq<Block>, free: nat) {
    && g.Valid() && g.size <= BPB && |image| == |shown| == g.size && g.DataStart() <= free <= g.LogStart()
    && (forall b :: 0 <= b < g.size && b != g.BitmapBlock(0) ==> shown[b] == image[b])
    && (forall b :: free <= b < g.LogStart() ==> image[b] == ZeroBlock())
    && (forall x: nat :: x < g.size ==> (Marked(g, shown, x) <==> x < free))
  }

  /** Handing out the next block number is what the kernel's allocator would do on `shown`. */
  lemma NextBlock(g: Geometry, image: seq<Block>, shown: seq<Block>, free: nat)
    requires Shown(g, image, shown, free) && free < g.LogStart()
    ensures FreeData(g, shown, free) && Shown(g, image, Allocated(g, shown, free), free + 1)
  {
    hide BlockBit, BlockSet, Marked;
    BitmapBelowData(g, free);
    MarkBits(g, shown, free, true);
    var marked := Mark(g, shown, free, true);
    WriteKeepsMarks(g, marked, free, ZeroBlock());
    var shown' := Allocated(g, shown, free);
    assert g.BitmapBlock(free) == g.BitmapBlock(0);
    forall x: nat | x < g.size ensures Marked(g, shown', x) <==> x < free + 1 {
      assert Marked(g, shown', x) <==> Marked(g, marked, x);
      assert Marked(g, shown, x) <==> x < free;
    }
  }

  /** A data block that is in use is written. */
  lemma BlockWritten(g: Geometry, image: seq<Block>, shown: seq<Block>, free: nat, a: nat, blk: Block)
    requires Shown(g, image, shown, free) && g.DataStart() <= a < free
    ensures a < g.size && Shown(g, image[a := blk], shown[a := blk], free) && image[a] == shown[a]
  {
    hide BlockBit, BlockSet, Marked;
    BitmapBelowData(g, 0);
    WriteKeepsMarks(g, shown, a, blk);
    var shown' := shown[a := blk];
    forall x: nat | x < g.size ensures Marked(g, shown', x) <==> x < free {
      assert Marked(g, shown', x) <==> Marked(g, shown, x);
      assert Marked(g, shown, x) <==> x < free;
    }
  }

  /** What the last step of mkfs makes of the root's size. */
  function Rounded(size: nat): nat {
    (size / BSIZE + 1) * BSIZE
  }

  /** The root's size is rounded up to the next block, also when it is a whole number of blocks already: only then
      does the result call for a block that the directory does not have. */
  lemma RootSizeExactly(shown: seq<Block>, ino: Inode)
    requires Sized(shown, ino)
    ensures Sized(shown, ino.(size := Rounded(ino.size))) <==> ino.size % BSIZE != 0
  {
    hide Addr;
    var k, k' := BlocksFor(ino.size), BlocksFor(Rounded(ino.size));
    assert k' == ino.size / BSIZE + 1 && (ino.size % BSIZE != 0 <==> k == k');
    forall bn: nat | bn < MAXFILE
      ensures Addr(shown, ino.(size := Rounded(ino.size)), SlotOf(bn)) == Addr(shown, ino, SlotOf(bn))
    {
      SameAddr(shown, ino, ino.(size := Rounded(ino.size)), SlotOf(bn));
    }
    if k != k' && k < MAXFILE {
      assert Addr(shown, ino, SlotOf(k)) == 0;
    }
  }

  /** A root with 32 entries, the two dots and 30 files, fills one block, and is left with a size of two. */
  lemma RootSizeMisses(shown: seq<Block>, b: nat)
    requires b > 0
    ensures var ino := Inode(1, 1, 32 * DIRENT, [b] + seq(NDIRECT, _ => 0));
            Sized(shown, ino) && !Sized(shown, ino.(size := Rounded(ino.size)))
  {
    RootSizeExactly(shown, Inode(1, 1, 32 * DIRENT, [b] + seq(NDIRECT, _ => 0)));
  }

  /** Every byte past the end of a file is zero. */
  ghost predicate ZeroTails(s: seq<Block>, n: seq<Inode>) {
    && (forall j :: 0 <= j < |n| ==> |n[j].addrs| == NDIRECT + 1)
    && forall j: nat, pos: nat :: j < |n| && n[j].size <= pos < MAXFILE * BSIZE ==> ByteAt(s, n[j], pos) == 0
  }

  lemma TailsKept(s: seq<Block>, n: seq<Inode>, s': seq<Block>, n': seq<Inode>)
    requires ZeroTails(s, n) && SameBytes(s, n, s', n') && forall j :: 0 <= j < |n| ==> n'[j].size >= n[j].size
    ensures ZeroTails(s', n')
  {
    hide ByteAt;
  }

  lemma TailsAppended(s: seq<Block>, n: seq<Inode>, s': seq<Block>, n': seq<Inode>, i: nat, src: seq<byte>)
    requires ZeroTails(s, n) && i < |n| && Spliced(s, n, s', n', i, n[i].size, src)
    requires n'[i].size == n[i].size + |src| && forall j :: 0 <= j < |n| && j != i ==> n'[j].size == n[j].size
    ensures ZeroTails(s', n')
  {
    hide ByteAt;
  }

  /** Lengthening a file within its zero tail adds zeros to its contents. */
  lemma ContentLengthened(s: seq<Block>, n: seq<Inode>, s': seq<Block>, n': seq<Inode>, i: nat)
    requires ZeroTails(s, n) && SameBytes(s, n, s', n') && i < |n| && n[i].size <= n'[i].size <= MAXFILE * BSIZE
    ensures Content(s', n'[i]) == Content(s, n[i]) + seq(n'[i].size - n[i].size, _ => 0)
  {
    hide ByteAt;
  }

  /** Zeros after a directory's entries are free entries. */
  lemma ParseZeros(content: seq<byte>, m: nat)
    requires |content| % DIRENT == 0
    ensures Parse(content + seq(DIRENT * m, _ => 0)) == Parse(content) + FreeSlots(m)
  {
    hide Decode;
    var longer := content + seq(DIRENT * m, _ => 0);
    var a, b := Parse(content), Parse(longer);
    FreeEntryDecodes();
    forall k | 0 <= k < |b| ensures b[k] == (a + FreeSlots(m))[k] {
      if k < |a| {
        assert longer[DIRENT * k..DIRENT * k + DIRENT] == content[DIRENT * k..DIRENT * k + DIRENT];
      } else {
        assert longer[DIRENT * k..DIRENT * k + DIRENT] == seq(DIRENT, _ => 0);
      }
    }
  }

  lemma FreeEntryDecodes()
    ensures Decode(seq(DIRENT, _ => 0)) == Dirent(0, "")
  {
  }

  lemma SameAddr(s: seq<Block>, a: Inode, b: Inode, p: nat)
    requires a.addrs == b.addrs && |a.addrs| == NDIRECT + 1 && p < NSLOT
    ensures Addr(s, a, p) == Addr(s, b, p)
  {
  }

  /** An empty disk: nothing is named, and nothing but the reserved prefix is marked. */
  lemma EmptyOwns(g: Geometry, image: seq<Block>, shown: seq<Block>, table: seq<Inode>)
    requires Shown(g, image, shown, g.DataStart())
    requires forall i :: 0 <= i < |table| ==> |table[i].addrs| == NDIRECT + 1 && table[i].size == 0 && forall q ::
               0 <= q <= NDIRECT ==> table[i].addrs[q] == 0
    ensures Owns(g, shown, table, map[]) && forall j: nat :: j < |table| ==> Sized(shown, table[j])
  {
  }

  function FreeInode(): Inode {
    Inode(0, 0, 0, seq(NDIRECT + 1, _ => 0))
  }

  /** A zero block holds free inodes. */
  lemma EmptyOnDisk(g: Geometry, shown: seq<Block>, table: seq<Inode>)
    requires |table| == g.ninodes && g.BitmapBlock(0) <= |shown|
    requires forall i :: 0 <= i < |table| ==> table[i] == FreeInode()
    requires forall b :: 2 <= b < g.BitmapBlock(0) ==> shown[b] == ZeroBlock()
    ensures OnDisk(g, shown, table)
  {
    forall i: nat | i < |table| ensures GetInode(shown[g.InodeBlock(i)], i % IPB) == table[i] {
      ZeroInode(i % IPB);
    }
  }

  lemma ZeroInode(slot: nat)
    requires slot < IPB
    ensures GetInode(ZeroBlock(), slot) == FreeInode()
  {
    assert GetAddrs(ZeroBlock(), DINODE * slot + 12, NDIRECT + 1) == seq(NDIRECT + 1, _ => 0);
  }

  lemma ImageKeeps(g: Geometry, image: seq<Block>, shown: seq<Block>, free: nat)
    requires Shown(g, image, shown, free)
    ensures KeepsInodeBlocks(g, shown, image)
  {
  }

  /** A write to an inode block, in the image and in what is shown. */
  lemma InodeBlockShown(g: Geometry, image: seq<Block>, shown: seq<Block>, free: nat, b: nat, blk: Block)
    requires Shown(g, image, shown, free) && b < g.BitmapBlock(0)
    ensures b < g.size && image[b] == shown[b] && Shown(g, image[b := blk], shown[b := blk], free)
  {
    hide BlockBit;
    BitmapBelowData(g, 0);
    var shown' := shown[b := blk];
    forall x: nat | x < g.size ensures Marked(g, shown', x) <==> x < free {
      assert Marked(g, shown, x) <==> x < free;
    }
  }

  /** Type and link count of an inode say nothing about its blocks. */
  lemma Retyped(g: Geometry, s: seq<Block>, n: seq<Inode>, owner: map<nat, (nat, nat)>, i: nat, n': seq<Inode>)
    requires Owns(g, s, n, owner) && OnDisk(g, s, n) && (forall j: nat :: j < |n| ==> Sized(s, n[j])) && i < |n|
    requires |n'| == |n| && n' == n[i := n[i].(kind := n'[i].kind, nlink := n'[i].nlink)] && n'[i].kind < 0x8000
    requires 0 <= n'[i].nlink < 0x8000
    ensures Owns(g, s, n', owner) && SameBytes(s, n, s, n') && Encodable(n'[i])
    ensures forall j: nat :: j < |n'| ==> Sized(s, n'[j])
  {
    hide Marked, GetInode;
    assert Encodable(n[i]);
    forall j: nat, q: nat | j < |n| && q < NSLOT ensures Addr(s, n'[j], q) == Addr(s, n[j], q) {
      SameAddr(s, n[j], n'[j], q);
    }
    OwnsUnchanged(g, s, n, owner, s, n');
    hide Addr;
    forall j: nat | j < |n'| ensures Sized(s, n'[j]) {
      assert Sized(s, n[j]);
    }
  }

  /** Nor does its size. */
  lemma RootResized(g: Geometry, s: seq<Block>, n: seq<Inode>, owner: map<nat, (nat, nat)>, i: nat, size: nat)
    requires Owns(g, s, n, owner) && OnDisk(g, s, n) && i < |n| && size < U32
    ensures var n' := n[i := n[i].(size := size)];
            Owns(g, s, n', owner) && SameBytes(s, n, s, n') && Encodable(n'[i])
  {
    hide Marked, GetInode;
    var n' := n[i := n[i].(size := size)];
    assert Encodable(n[i]);
    forall j: nat, q: nat | j < |n| && q < NSLOT ensures Addr(s, n'[j], q) == Addr(s, n[j], q) {
      SameAddr(s, n[j], n'[j], q);
    }
    OwnsUnchanged(g, s, n, owner, s, n');
  }

  lemma EmptyShown(g: Geometry, image: seq<Block>)
    requires g.Valid() && g.size <= BPB && |image| == g.size
    requires forall b :: g.DataStart() <= b < g.LogStart() ==> image[b] == ZeroBlock()
    ensures g.BitmapBlock(0) < g.size && g.DataStart() <= BPB
    ensures Shown(g, image, image[g.BitmapBlock(0) := FirstBits(g.DataStart())], g.DataStart())
  {
    hide FirstBits, Marked;
    BitmapBelowData(g, 0);
    MarksDone(g, image[g.BitmapBlock(0) := FirstBits(g.DataStart())], g.DataStart());
  }

  lemma EmptyTails(shown: seq<Block>, table: seq<Inode>)
    requires forall i :: 0 <= i < |table| ==> table[i] == FreeInode()
    ensures ZeroTails(shown, table)
  {
  }

  lemma EmptyImage(g: Geometry, image: seq<Block>, table: seq<Inode>)
    requires g.Valid() && g.size <= BPB && |image| == g.size && forall b :: 2 <= b < g.size ==> image[b] == ZeroBlock()
    requires |table| == g.ninodes && forall i :: 0 <= i < |table| ==> table[i] == FreeInode()
    ensures g.BitmapBlock(0) < g.size && g.DataStart() <= BPB
    ensures var shown := image[g.BitmapBlock(0) := FirstBits(g.DataStart())];
            && Shown(g, image, shown, g.DataStart()) && Owns(g, shown, table, map[]) && OnDisk(g, shown, table)
            && ZeroTails(shown, table) && forall j: nat :: j < |table| ==> Sized(shown, table[j])
  {
    hide Shown, FirstBits, Owns, Mapped, OnDisk, Sized;
    EmptyShown(g, image);
    var shown := image[g.BitmapBlock(0) := FirstBits(g.DataStart())];
    EmptyOwns(g, image, shown, table);
    EmptyOnDisk(g, shown, table);
    EmptyTails(shown, table);
  }

  /** The blocks of a file of `k` data blocks, with its indirect block. */
  function Cost(k: nat): nat {
    if k > NDIRECT then k + 1 else k
  }

  /** The blocks that a file of `size` bytes takes. */
  function BlocksOf(size: nat): nat {
    Cost(BlocksFor(size))
  }

  lemma BlocksGrow(size: nat, off: nat, m: nat, end: nat)
    requires size <= off && 0 < m && off % BSIZE + m <= BSIZE && off + m <= end
    ensures var k := BlocksReached(size, off);
            && Cost(k) == BlocksOf(off) && Cost(if off / BSIZE < k then k else k + 1) == BlocksOf(off + m)
            && BlocksOf(off + m) <= BlocksOf(end)
  {
  }

  /** The first loop of mkfs, and the superblock. */
  method EmptyDisk(size: nat, super: Block) returns (disk: seq<Block>)
    ensures |disk| == size && forall b :: 0 <= b < size ==> disk[b] == if b == 1 then super else ZeroBlock()
  {
    disk := [];
    for b := 0 to size
      invariant |disk| == b && forall x :: 0 <= x < b ==> disk[x] == ZeroBlock()
    {
      disk := disk + [ZeroBlock()];
    }
    if 1 < size {
      disk := disk[1 := super];
    }
  }

  class Maker {
    const g: Geometry
    var image: seq<Block>
    var table: seq<Inode>
    var freeblock: nat
    var freeinode: nat
    ghost var shown: seq<Block>
    ghost var owner: map<nat, (nat, nat)>

    ghost predicate Valid()
      reads this
    {
      && Shown(g, image, shown, freeblock) && Owns(g, shown, table, owner) && OnDisk(g, shown, table)
      && ZeroTails(shown, table) && forall j: nat :: j < |table| ==> Sized(shown, table[j])
    }

    /** A disk of zeros, with the superblock written: all inodes are free. */
    constructor (geometry: Geometry, super: Block)
      requires geometry.Valid() && geometry.size <= BPB
      ensures Valid() && g == geometry && freeblock == geometry.DataStart() && freeinode == 1
      ensures |table| == geometry.ninodes
      ensures forall i :: 0 <= i < |table| ==> table[i] == FreeInode()
    {
      hide Shown, FirstBits, Owns, Mapped, Sized, OnDisk, ZeroTails;
      var disk := EmptyDisk(geometry.size, super);
      var inodes := seq(geometry.ninodes, _ => FreeInode());
      EmptyImage(geometry, disk, inodes);
      g, image, table, freeblock, freeinode, owner := geometry, disk, inodes, geometry.DataStart(), 1, map[];
      shown := disk[geometry.BitmapBlock(0) := FirstBits(geometry.DataStart())];
    }

    /** winode: the inode goes to its block, where the others are those of `was`. */
    method WriteInode(i: nat, ghost was: seq<Inode>)
      requires Shown(g, image, shown, freeblock) && Owns(g, shown, table, owner) && OnDisk(g, shown, was)
      requires i < |table| == |was| && Encodable(table[i])
      modifies this`image, this`shown
      ensures Shown(g, image, shown, freeblock) && Owns(g, shown, table, owner) && OnDisk(g, shown, was[i := table[i]])
      ensures SameAddrs(old(shown), table, shown, table) && SameBytes(old(shown), table, shown, table)
    {
      hide Shown, Owns, OnDisk, SameAddrs, SameBytes, PutInode, Encodable;
      InodeBlocksFirst(g, shown, was, i);
      InodeStored(g, shown, was, i, table[i]);
      FreeInRange(g, image, shown, freeblock);
      var b := g.InodeBlock(i);
      InodeBlockShown(g, image, shown, freeblock, b, PutInode(shown[b], i % IPB, table[i]));
      InodeBlockWritten(g, shown, table, owner, b, PutInode(shown[b], i % IPB, table[i]));
      image := image[b := PutInode(image[b], i % IPB, table[i])];
      shown := shown[b := PutInode(shown[b], i % IPB, table[i])];
    }

    /** ialloc: the next inode number, with the given type and one link. */
    method IAlloc(kind: nat) returns (inum: nat)
      requires Valid() && freeinode < |table| && kind < 0x8000 && table[freeinode].size == 0
      modifies this`image, this`shown, this`table, this`freeinode
      ensures Valid() && inum == old(freeinode) && freeinode == inum + 1
      ensures table == old(table)[inum := old(table)[inum].(kind := kind, nlink := 1)]
      ensures SameBytes(old(shown), old(table), shown, table)
    {
      hide Shown, Owns, OnDisk, SameAddrs, SameBytes, Mapped, ZeroTails;
      inum := freeinode;
      freeinode := freeinode + 1;
      table := table[inum := table[inum].(kind := kind, nlink := 1)];
      Retyped(g, shown, old(table), owner, inum, table);
      WriteInode(inum, old(table));
      assert old(table)[inum := table[inum]] == table;
      TruncInvisible(old(shown), shown, table);
      SameBytesTwice(old(shown), old(table), old(shown), table, shown, table);
      TailsKept(old(shown), old(table), shown, table);
    }

    /** The last change to an inode: the root's size is rounded up. The kernel's invariants still hold exactly if it was
        not a whole number of blocks, and then what it has gained is free entries. */
    method FixRoot(root: nat)
      requires Valid() && root < |table|
      modifies this`image, this`shown, this`table
      ensures Shown(g, image, shown, freeblock) && Owns(g, shown, table, owner) && OnDisk(g, shown, table)
      ensures table == old(table)[root := old(table)[root].(size := Rounded(old(table)[root].size))]
      ensures SameBytes(old(shown), old(table), shown, table) && ZeroTails(shown, table)
      ensures Valid() <==> old(table)[root].size % BSIZE != 0
      ensures Valid() && old(table)[root].size % DIRENT == 0 ==>
                PaddedRoot(old(shown), old(table)[root], shown, table[root])
    {
      hide Shown, Owns, OnDisk, SameAddrs, SameBytes, Sized, ZeroTails, PaddedRoot, Rounded;
      OwnsShape(g, shown, table, owner);
      var size := table[root].size;
      assert Sized(shown, table[root]);
      RootSizeExactly(shown, table[root]);
      RoundedBound(shown, table[root]);
      RootResized(g, shown, table, owner, root, Rounded(size));
      table := table[root := table[root].(size := Rounded(size))];
      WriteInode(root, old(table));
      assert old(table)[root := table[root]] == table;
      SameBytesTwice(old(shown), old(table), old(shown), table, shown, table);
      TailsKept(old(shown), old(table), shown, table);
      RootStillSized(old(shown), old(table), shown, table, root);
      if size % BSIZE != 0 && size % DIRENT == 0 {
        RootPadded(old(shown), old(table), shown, table, root);
      }
    }

    /** `din.addrs[p] = freeblock++` */
    method LinkDirect(i: nat, p: nat) returns (b: nat)
      requires Shown(g, image, shown, freeblock) && Owns(g, shown, table, owner) && freeblock < g.LogStart()
      requires i < |table| && p <= NDIRECT && table[i].addrs[p] == 0
      modifies this`table, this`freeblock, this`shown, this`owner
      ensures b == old(freeblock) && freeblock == b + 1 && Shown(g, image, shown, freeblock)
      ensures Owns(g, shown, table, owner)
      ensures AddrsAfter(old(shown), old(table), shown, table, i, p, b)
      ensures SameBytes(old(shown), old(table), shown, table)
      ensures KeepsInodeBlocks(g, old(shown), shown)
      ensures table == old(table)[i := old(table)[i].(addrs := old(table)[i].addrs[p := b])]
    {
      hide Owns, Marked, FreeData, Allocated, AddrsAfter, SameBytes, Addr, Shown;
      OwnsShape(g, shown, table, owner);
      b := freeblock;
      FreeInRange(g, image, shown, freeblock);
      AllocKeeps(g, shown, b);
      NextBlock(g, image, shown, freeblock);
      DirectLinked(g, shown, table, owner, i, p, b);
      freeblock := freeblock + 1;
      table := table[i := table[i].(addrs := table[i].addrs[p := b])];
      DirectInvisible(g, shown, old(table), owner, i, p, b, Allocated(g, shown, b), table);
      shown := Allocated(g, shown, b);
      owner := owner[b := (i, p)];
    }

    /** `indirect[k] = freeblock++` */
    method LinkEntry(i: nat, k: nat) returns (b: nat)
      requires Shown(g, image, shown, freeblock) && Owns(g, shown, table, owner) && freeblock < g.LogStart()
      requires i < |table| && k < NINDIRECT && table[i].addrs[NDIRECT] != 0
      requires Addr(shown, table[i], NDIRECT + 1 + k) == 0
      modifies this`image, this`freeblock, this`shown, this`owner
      ensures b == old(freeblock) && freeblock == b + 1 && Shown(g, image, shown, freeblock)
      ensures Owns(g, shown, table, owner)
      ensures AddrsAfter(old(shown), table, shown, table, i, NDIRECT + 1 + k, b)
      ensures SameBytes(old(shown), table, shown, table)
      ensures KeepsInodeBlocks(g, old(shown), shown)
    {
      hide Owns, Marked, FreeData, Allocated, AddrsAfter, SameBytes, Addr, Shown, PutU32, SameData;
      OwnsShape(g, shown, table, owner);
      b := freeblock;
      SmallBlock(g, image, shown, freeblock);
      FreeInRange(g, image, shown, freeblock);
      NextBlock(g, image, shown, freeblock);
      EntryLinked(g, shown, table, owner, i, k, b);
      freeblock := freeblock + 1;
      var ind := table[i].addrs[NDIRECT];
      ghost var s := Allocated(g, shown, b);
      UsedBelow(g, shown, table, owner, ind, freeblock - 1, image);
      OwnedAbove(g, shown, table, owner, ind);
      AllocKeeps(g, shown, b);
      BlockWritten(g, image, s, freeblock, ind, PutU32(s[ind], 4 * k, b));
      image := image[ind := PutU32(image[ind], 4 * k, b)];
      LinkInvisible(g, shown, table, owner, i, NDIRECT + 1 + k, b, s[ind := PutU32(s[ind], 4 * k, b)], table);
      shown := s[ind := PutU32(s[ind], 4 * k, b)];
      owner := owner[b := (i, NDIRECT + 1 + k)];
    }

    /** The block of iappend for file block `fbn` of an inode that has `k` blocks. Not `ok`: the disk is full, which
        mkfs does not notice. */
    method MapBlock(i: nat, fbn: nat, ghost k: nat) returns (x: nat, ok: bool)
      requires Shown(g, image, shown, freeblock) && Owns(g, shown, table, owner) && i < |table|
      requires Mapped(shown, table[i], k) && fbn <= k && fbn < MAXFILE
      modifies this`image, this`table, this`freeblock, this`shown, this`owner
      ensures fbn < k ==> ok && image == old(image) && table == old(table) && shown == old(shown)
      ensures ok <==> old(freeblock) + Cost(if fbn < k then k else k + 1) <= g.LogStart() + Cost(k)
      ensures ok ==> freeblock + Cost(k) == old(freeblock) + Cost(if fbn < k then k else k + 1)
      ensures KeepsInodeBlocks(g, old(shown), shown)
      ensures ok ==>
                && |table| == |old(table)| && Shown(g, image, shown, freeblock) && Owns(g, shown, table, owner)
                && Mapped(shown, table[i], if fbn < k then k else k + 1) && 0 < x == Addr(shown, table[i], SlotOf(fbn))
                && SameBytes(old(shown), old(table), shown, table) && Grown(old(shown), old(table), shown, table, i)
                && table == old(table)[i := old(table)[i].(addrs := table[i].addrs)]
    {
      hide Owns, AddrsAfter, SameBytes, Grown, Mapped, ReadyToGrow, Addr, GetU32, Shown;
      OwnsShape(g, shown, table, owner);
      FreeInRange(g, image, shown, freeblock);
      Unchanged(shown, table, i);
      MappedSlot(shown, table[i], k, fbn);
      ok := true;
      if fbn < NDIRECT {
        x := table[i].addrs[fbn];
        if x == 0 {
          if freeblock == g.LogStart() {
            return 0, false;
          }
          x := LinkDirect(i, fbn);
          BlockLinked(old(shown), old(table), shown, table, i, k, x);
        }
        return;
      }
      if table[i].addrs[NDIRECT] == 0 {
        if freeblock == g.LogStart() {
          return 0, false;
        }
        x := LinkDirect(i, NDIRECT);
        IndirectLinked(old(shown), old(table), shown, table, i, x);
        OwnsShape(g, shown, table, owner);
        FreeInRange(g, image, shown, freeblock);
      }
      ghost var s1, n1 := shown, table;
      EntryIsAddr(g, shown, table, owner, i, fbn);
      IndirectShown(g, image, shown, freeblock, table, owner, i);
      x := GetU32(image[table[i].addrs[NDIRECT]], 4 * (fbn - NDIRECT));
      if x == 0 {
        if freeblock == g.LogStart() {
          return 0, false;
        }
        x := LinkEntry(i, fbn - NDIRECT);
        OwnsShape(g, shown, table, owner);
        BlockLinked(s1, n1, shown, table, i, k, x);
        SameBytesTwice(old(shown), old(table), s1, n1, shown, table);
        GrownTwice(old(shown), old(table), s1, n1, shown, table, i);
      }
    }

    /** One turn of the loop of iappend. */
    method AppendChunk(i: nat, off: nat, chunk: seq<byte>, ghost k: nat) returns (ok: bool)
      requires Shown(g, image, shown, freeblock) && Owns(g, shown, table, owner) && i < |table|
      requires Mapped(shown, table[i], k)
      requires off / BSIZE <= k && off < MAXFILE * BSIZE && off % BSIZE + |chunk| <= BSIZE
      modifies this`image, this`table, this`freeblock, this`shown, this`owner
      ensures ok <==> old(freeblock) + Cost(if off / BSIZE < k then k else k + 1) <= g.LogStart() + Cost(k)
      ensures ok ==> freeblock + Cost(k) == old(freeblock) + Cost(if off / BSIZE < k then k else k + 1)
      ensures KeepsInodeBlocks(g, old(shown), shown)
      ensures ok ==>
                && |table| == |old(table)| && Shown(g, image, shown, freeblock) && Owns(g, shown, table, owner)
                && Mapped(shown, table[i], if off / BSIZE < k then k else k + 1)
                && Grown(old(shown), old(table), shown, table, i)
                && Spliced(old(shown), old(table), shown, table, i, off, chunk)
                && table == old(table)[i := old(table)[i].(addrs := table[i].addrs)]
                && (off / BSIZE < k ==> table == old(table))
    {
      hide Owns, Mapped, Addr, SameBytes, Grown, Spliced, SameAddrs, SpliceBlock, Shown;
      var x: nat;
      x, ok := MapBlock(i, off / BSIZE, k);
      if ok {
        OwnsShape(g, shown, table, owner);
        BlockShown(g, image, shown, freeblock, table, owner, i, SlotOf(off / BSIZE));
        AddrAbove(g, shown, table, owner, i, SlotOf(off / BSIZE));
        DataWritten(g, shown, table, owner, i, off, chunk);
        ghost var s1 := shown;
        BlockWritten(g, image, shown, freeblock, x, SpliceBlock(shown[x], off % BSIZE, chunk));
        image := image[x := SpliceBlock(image[x], off % BSIZE, chunk)];
        shown := shown[x := SpliceBlock(shown[x], off % BSIZE, chunk)];
        RewrittenKeeps(old(shown), old(table), s1, table, shown, i, off / BSIZE, if off / BSIZE < k then k else k + 1);
        SplicedAfterGrowth(old(shown), old(table), s1, table, shown, i, off, chunk);
      }
    }

    /** iappend: the bytes go to the end of the file, and every other file keeps its bytes. */
    method IAppend(i: nat, src: seq<byte>) returns (ok: bool)
      requires Valid() && i < |table| && table[i].size + |src| <= MAXFILE * BSIZE
      modifies this`image, this`table, this`freeblock, this`shown, this`owner
      ensures ok <==> old(freeblock) + BlocksOf(old(table)[i].size + |src|) <=
                      g.LogStart() + BlocksOf(old(table)[i].size)
      ensures ok ==> freeblock + BlocksOf(old(table)[i].size) == old(freeblock) + BlocksOf(old(table)[i].size + |src|)
      ensures ok ==> Valid() && |table| == |old(table)|
      ensures ok ==> Spliced(old(shown), old(table), shown, table, i, old(table)[i].size, src)
      ensures ok ==> table ==
                     old(table)[i := old(table)[i].(addrs := table[i].addrs, size := old(table)[i].size + |src|)]
    {
      hide Owns, Mapped, Addr, Grown, Spliced, BlocksFor, BlocksReached, Shown, ZeroTails, OnDisk, KeepsInodeBlocks,
           Encodable;
      hide SameAddrs, SameBytes;
      KeepsSame(g, shown);
      ghost var size0 := table[i].size;
      var off := table[i].size;
      StartWriting(g, shown, table, owner, i, off);
      var n := 0;
      while n < |src|
        invariant 0 <= n <= |src| && off == size0 + n && |table| == |old(table)|
        invariant Shown(g, image, shown, freeblock)
        invariant Writing(g, old(shown), old(table), shown, table, owner, i, size0, src[..n])
        invariant KeepsInodeBlocks(g, old(shown), shown)
        invariant freeblock + BlocksOf(size0) == old(freeblock) + BlocksOf(off)
      {
        var m := ChunkLength(off, |src| - n);
        BlocksGrow(size0, off, m, size0 + |src|);
        ghost var k := BlocksReached(size0, off);
        ReachedNext(size0, off, m);
        ghost var s1, n1, w1 := shown, table, owner;
        ok := AppendChunk(i, off, src[n..n + m], k);
        if !ok {
          return;
        }
        WritingStep(g, old(shown), old(table), s1, n1, w1, shown, table, owner, i, size0, src, n, m);
        KeepsTwice(g, old(shown), s1, shown);
        n := n + m;
        off := off + m;
      }
      assert src[..n] == src;
      ghost var n2 := table;
      table := table[i := table[i].(size := off)];
      FinishWriting(g, old(shown), old(table), shown, n2, owner, i, size0, src, table);
      OnDiskKept(g, old(shown), shown, old(table));
      StillEncodable(g, shown, table, owner, i, old(table));
      ghost var s2 := shown;
      WriteInode(i, old(table));
      assert old(table)[i := table[i]] == table;
      UpdateInvisible(old(shown), old(table), s2, shown, table, i, size0, src);
      TailsAppended(old(shown), old(table), shown, table, i, src);
      FreeInRange(g, image, shown, freeblock);
      ok := true;
    }

    /** balloc(usedblocks), the last step: what was shown now is true of the image itself. */
    method Balloc()
      requires Shown(g, image, shown, freeblock) && Owns(g, shown, table, owner) && OnDisk(g, shown, table)
      modifies this`image
      ensures Shown(g, image, shown, freeblock) && Owns(g, image, table, owner) && OnDisk(g, image, table)
      ensures SameAddrs(shown, table, image, table) && SameBytes(shown, table, image, table)
      ensures forall x: nat :: x < g.size ==> (Marked(g, image, x) <==> x < freeblock)
    {
      hide Owns, Shown, Marked, BlockSet, OnDisk, SameAddrs, SameBytes;
      FreeInRange(g, image, shown, freeblock);
      BitmapDone(g, image, shown, freeblock, table, owner);
      var buf, i := ZeroBlock(), 0;
      while i < freeblock
        invariant 0 <= i <= freeblock && buf == FirstBits(i) && image == old(image)
      {
        buf := BlockSet(buf, i, true);
        i := i + 1;
      }
      image := image[g.BitmapBlock(0) := buf];
      ImageKeeps(g, image, shown, freeblock);
      OnDiskKept(g, shown, image, table);
    }
  }

  lemma RoundedBound(s: seq<Block>, ino: Inode)
    requires Sized(s, ino)
    ensures ino.size <= Rounded(ino.size) < U32 && ino.size <= MAXFILE * BSIZE
  {
  }

  /** The entries of a directory, and after them free ones. */
  ghost predicate PaddedRoot(s: seq<Block>, ino: Inode, s': seq<Block>, ino': Inode) {
    && |ino.addrs| == |ino'.addrs| == NDIRECT + 1 && ino.size <= ino'.size <= MAXFILE * BSIZE
    && Parse(Content(s', ino')) == Parse(Content(s, ino)) + FreeSlots((ino'.size - ino.size) / DIRENT)
  }

  lemma RootPadded(s: seq<Block>, n: seq<Inode>, s': seq<Block>, n': seq<Inode>, root: nat)
    requires ZeroTails(s, n) && SameBytes(s, n, s', n') && root < |n| && n[root].size <= MAXFILE * BSIZE
    requires n'[root].size == Rounded(n[root].size) && n[root].size % BSIZE != 0 && n[root].size % DIRENT == 0
    ensures PaddedRoot(s, n[root], s', n'[root])
  {
    hide Parse, Content, ByteAt;
    var size, m := n[root].size, (n'[root].size - n[root].size) / DIRENT;
    assert n'[root].size - size == DIRENT * m && n'[root].size <= MAXFILE * BSIZE;
    ContentLengthened(s, n, s', n', root);
    ParseZeros(Content(s, n[root]), m);
  }

  /** The root is the only inode whose blocks are in question. */
  lemma RootStillSized(s: seq<Block>, n: seq<Inode>, s': seq<Block>, n': seq<Inode>, root: nat)
    requires SameAddrs(s, n', s', n') && root < |n| && (forall j: nat :: j < |n| ==> Sized(s, n[j]))
    requires n' == n[root := n[root].(size := Rounded(n[root].size))]
    ensures (forall j: nat :: j < |n'| ==> Sized(s', n'[j])) <==> Sized(s, n'[root])
  {
    hide Addr, BlocksFor;
    forall j: nat | j < |n'| ensures Sized(s', n'[j]) <==> Sized(s, n'[j]) {
      SizedSame(s, s', n', j);
    }
    forall j: nat | j < |n'| && j != root ensures Sized(s, n'[j]) {
    }
  }

  lemma SizedSame(s: seq<Block>, s': seq<Block>, n: seq<Inode>, j: nat)
    requires SameAddrs(s, n, s', n) && j < |n|
    ensures Sized(s', n[j]) <==> Sized(s, n[j])
  {
    hide Addr, BlocksFor;
    if |n[j].addrs| == NDIRECT + 1 {
      assert forall q: nat :: q < NSLOT ==> Addr(s', n[j], q) == Addr(s, n[j], q);
    }
  }

  lemma MarksDone(g: Geometry, image: seq<Block>, free: nat)
    requires g.Valid() && g.size <= BPB && |image| == g.size && free <= BPB
    requires image[g.BitmapBlock(0)] == FirstBits(free)
    ensures forall x: nat :: x < g.size ==> (Marked(g, image, x) <==> x < free)
  {
    hide FirstBits, BlockBit;
    forall x: nat | x < g.size ensures Marked(g, image, x) <==> x < free {
      FirstBitsAre(free, x);
    }
  }

  /** Writing the bitmap makes the image what was shown. */
  lemma BitmapDone(g: Geometry, image: seq<Block>, shown: seq<Block>, free: nat, table: seq<Inode>,
                   owner: map<nat, (nat, nat)>)
    requires Shown(g, image, shown, free) && Owns(g, shown, table, owner)
    ensures g.BitmapBlock(0) < g.size && free <= BPB
    ensures var image' := image[g.BitmapBlock(0) := FirstBits(free)];
            && Shown(g, image', shown, free) && Owns(g, image', table, owner)
            && SameAddrs(shown, table, image', table) && SameBytes(shown, table, image', table)
            && forall x: nat :: x < g.size ==> (Marked(g, image', x) <==> x < free)
  {
    hide Addr, FirstBits, Marked, GetU32, Owns;
    BitmapBelowData(g, 0);
    var image' := image[g.BitmapBlock(0) := FirstBits(free)];
    MarksDone(g, image', free);
    assert Shown(g, image', shown, free);
    forall x: nat | x < g.size ensures Marked(g, image', x) <==> Marked(g, shown, x) {
      assert Marked(g, image', x) <==> x < free;
      assert Marked(g, shown, x) <==> x < free;
    }
    hide Shown;
    OwnsShape(g, shown, table, owner);
    forall j: nat, q: nat | j < |table| && q < NSLOT ensures Addr(image', table[j], q) == Addr(shown, table[j], q) {
      SameSlot(g, image', shown, free, table, owner, j, q);
    }
    OwnsUnchanged(g, shown, table, owner, image', table);
    ShownBytes(g, image', shown, free, table, owner);
  }

  /** The image has the bytes that were shown. */
  lemma ShownBytes(g: Geometry, image: seq<Block>, shown: seq<Block>, free: nat, table: seq<Inode>,
                   owner: map<nat, (nat, nat)>)
    requires Shown(g, image, shown, free) && Owns(g, shown, table, owner) && SameAddrs(shown, table, image, table)
    ensures SameBytes(shown, table, image, table)
  {
    hide Addr, Owns, Shown;
    FreeInRange(g, image, shown, free);
    OwnsShape(g, shown, table, owner);
    forall j: nat, pos: nat | j < |table| && pos < MAXFILE * BSIZE
      ensures ByteAt(image, table[j], pos) == ByteAt(shown, table[j], pos)
    {
      if Addr(shown, table[j], SlotOf(pos / BSIZE)) != 0 {
        BlockShown(g, image, shown, free, table, owner, j, SlotOf(pos / BSIZE));
      }
    }
  }

  lemma SameSlot(g: Geometry, image: seq<Block>, shown: seq<Block>, free: nat, table: seq<Inode>,
                 owner: map<nat, (nat, nat)>, j: nat, q: nat)
    requires Shown(g, image, shown, free) && Owns(g, shown, table, owner) && j < |table| && q < NSLOT
    ensures Addr(image, table[j], q) == Addr(shown, table[j], q)
  {
    hide Owns, Shown, GetU32;
    OwnsShape(g, shown, table, owner);
    FreeInRange(g, image, shown, free);
    if table[j].addrs[NDIRECT] != 0 {
      IndirectShown(g, image, shown, free, table, owner, j);
    }
  }

  lemma BlockShown(g: Geometry, image: seq<Block>, shown: seq<Block>, free: nat, table: seq<Inode>,
                   owner: map<nat, (nat, nat)>, i: nat, p: nat)
    requires Shown(g, image, shown, free) && Owns(g, shown, table, owner) && i < |table| && p < NSLOT
    requires Addr(shown, table[i], p) != 0
    ensures var a := Addr(shown, table[i], p);
            g.DataStart() <= a < free && a < g.size == |image| == |shown| && image[a] == shown[a]
  {
    hide Addr, Marked;
    UsedBelow(g, shown, table, owner, Addr(shown, table[i], p), free, image);
  }

  lemma FreeInRange(g: Geometry, image: seq<Block>, shown: seq<Block>, free: nat)
    requires Shown(g, image, shown, free)
    ensures 0 < g.DataStart() <= free <= g.LogStart() <= g.size == |image| == |shown|
  {
  }

  lemma SmallBlock(g: Geometry, image: seq<Block>, shown: seq<Block>, free: nat)
    requires Shown(g, image, shown, free)
    ensures free < U32
  {
  }

  /** A named block is a data block below the next free one. */
  lemma UsedBelow(g: Geometry, shown: seq<Block>, table: seq<Inode>, owner: map<nat, (nat, nat)>, a: nat, free: nat,
                  image: seq<Block>)
    requires Owns(g, shown, table, owner) && a in owner && Shown(g, image, shown, free)
    ensures g.DataStart() <= a < free && a < g.size && image[a] == shown[a]
  {
    hide Addr;
    BitmapBelowData(g, 0);
    assert Marked(g, shown, a);
  }

  lemma IndirectShown(g: Geometry, image: seq<Block>, shown: seq<Block>, free: nat, table: seq<Inode>,
                      owner: map<nat, (nat, nat)>, i: nat)
    requires Shown(g, image, shown, free) && Owns(g, shown, table, owner) && i < |table| && table[i].addrs[NDIRECT] != 0
    ensures table[i].addrs[NDIRECT] < |image| && image[table[i].addrs[NDIRECT]] == shown[table[i].addrs[NDIRECT]]
  {
    AddrOfIndirect(shown, table[i]);
    hide Addr, Marked;
    assert Addr(shown, table[i], NDIRECT) in owner;
    UsedBelow(g, shown, table, owner, table[i].addrs[NDIRECT], free, image);
  }
}
