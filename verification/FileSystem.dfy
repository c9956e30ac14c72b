/** block.c and inode.c over the logged store: allocation, block mapping, reading, writing and truncation. */
module FileSystem {
  import opened Bytes
  import opened Bitmap
  import opened Inodes
  import opened Sequences
  import opened Dinodes
  import opened Journal

  /** The inodes that the inode blocks of a disk hold. */
  function DiskTable(g: Geometry, image: seq<Block>): (t: seq<Inode>)
    requires g.Valid() && |image| == g.size
    ensures |t| == g.ninodes
  {
    seq(g.ninodes, i requires 0 <= i < g.ninodes => GetInode(image[g.InodeBlock(i)], i % IPB))
  }

  /** A disk that the kernel can use: its inodes make sense, own their blocks once each, and have just the blocks that
      their sizes call for, and the bitmap marks exactly the blocks in use. */
  ghost predicate Mountable(g: Geometry, image: seq<Block>, owner: map<nat, (nat, nat)>) {
    && g.Valid() && |image| == g.size && Owns(g, image, DiskTable(g, image), owner)
    && forall i: nat :: i < g.ninodes ==> Encodable(DiskTable(g, image)[i]) && Sized(image, DiskTable(g, image)[i])
  }

  lemma TableOnDisk(g: Geometry, image: seq<Block>)
    requires g.Valid() && |image| == g.size
    requires forall i: nat :: i < g.ninodes ==> Encodable(DiskTable(g, image)[i])
    ensures OnDisk(g, image, DiskTable(g, image))
  {
    hide GetInode, Encodable;
  }

  lemma TableIs(g: Geometry, image: seq<Block>, table: seq<Inode>)
    requires g.Valid() && |image| == g.size && OnDisk(g, image, table) && |table| == g.ninodes
    ensures DiskTable(g, image) == table
  {
    hide GetInode, Encodable;
  }

  class FileSys {
    const g: Geometry
    /** What the log and the buffer cache present as the current contents of each sector. */
    var store: seq<Block>
    /** The inodes in memory. */
    var inodes: seq<Inode>
    /** What the running transaction has passed to log_write, in order; the store when it began; the sectors. */
    var journal: seq<(nat, Block)>
    ghost var base: seq<Block>
    ghost var logged: set<nat>
    ghost var owner: map<nat, (nat, nat)>

    ghost predicate Journaled()
      reads this
    {
      store == Replay(base, journal) && logged == Sectors(journal)
    }

    /** Mounting a disk: the inodes are read from their blocks. */
    constructor (geometry: Geometry, image: seq<Block>, ghost owners: map<nat, (nat, nat)>)
      requires Mountable(geometry, image, owners)
      ensures Valid() && g == geometry && store == base == image && owner == owners && journal == []
      ensures inodes == DiskTable(geometry, image)
    {
      hide Owns, Sized, GetInode, Encodable;
      TableOnDisk(geometry, image);
      g, store, owner := geometry, image, owners;
      var table: seq<Inode> := [];
      for i := 0 to geometry.ninodes
        invariant |table| == i && forall j :: 0 <= j < i ==> table[j] == DiskTable(geometry, image)[j]
      {
        table := table + [GetInode(image[geometry.InodeBlock(i)], i % IPB)];
      }
      assert table == DiskTable(geometry, image);
      inodes := table;
      journal, base, logged := [], image, {};
    }

    /** bufcache_read, a change to the buffer, log_write, bufcache_release. */
    method LogBlock(s: nat, blk: Block)
      requires s < |store| && Journaled()
      modifies this`store, this`logged, this`journal
      ensures store == old(store)[s := blk] && logged == old(logged) + {s} && Journaled()
    {
      Appended(base, journal, s, blk);
      store := store[s := blk];
      journal := journal + [(s, blk)];
      logged := logged + {s};
    }

    /** block_alloc: the lowest unmarked block, marked and zeroed; `g.size` where the C falls off the end. */
    method BlockAlloc() returns (b: nat)
      requires g.Valid() && |store| == g.size && Journaled()
      modifies this`store, this`logged, this`journal
      ensures Journaled()
      ensures b <= g.size && forall x: nat :: x < b ==> Marked(g, old(store), x)
      ensures b == g.size ==> store == old(store) && logged == old(logged)
      ensures b < g.size ==> !Marked(g, old(store), b)
      ensures b < g.size ==> store == Allocated(g, old(store), b) && logged == old(logged) + {g.BitmapBlock(b), b}
    {
      hide BlockBit, BlockSet, Marked, Replay, Sectors;
      b := FindClear();
      if b < g.size {
        BitmapInStore(g, b);
        var bp := store[g.BitmapBlock(b)];
        LogBlock(g.BitmapBlock(b), BlockSet(bp, b % BPB, true));
        LogBlock(b, ZeroBlock());
      }
    }

    /** The scan of block_alloc. */
    method FindClear() returns (b: nat)
      requires g.Valid() && |store| == g.size
      ensures b <= g.size && forall x: nat :: x < b ==> Marked(g, store, x)
      ensures b < g.size ==> !Marked(g, store, b)
    {
      hide Marked;
      var b0 := 0;
      while b0 < g.size
        invariant b0 % BPB == 0 && forall x: nat :: x < b0 && x < g.size ==> Marked(g, store, x)
      {
        var bi := ScanBlock(b0);
        if bi < BPB && b0 + bi < g.size {
          return b0 + bi;
        }
        NextBase(b0);
        b0 := b0 + BPB;
      }
      return g.size;
    }

    /** The inner loop, over the bits of one bitmap block. */
    method ScanBlock(b0: nat) returns (bi: nat)
      requires g.Valid() && |store| == g.size && b0 < g.size && b0 % BPB == 0
      ensures bi <= BPB && forall x: nat :: b0 <= x < b0 + bi && x < g.size ==> Marked(g, store, x)
      ensures bi < BPB && b0 + bi < g.size ==> !Marked(g, store, b0 + bi)
    {
      hide BlockBit, Marked, Geometry.BitmapBlock;
      BitmapInStore(g, b0);
      var bp := store[g.BitmapBlock(b0)];
      bi := 0;
      while bi < BPB && b0 + bi < g.size
        invariant 0 <= bi <= BPB && forall x: nat :: b0 <= x < b0 + bi && x < g.size ==> Marked(g, store, x)
      {
        BitHere(g, store, b0, bi);
        if !BlockBit(bp, bi) {
          return;
        }
        bi := bi + 1;
      }
    }

    /** bmap's `ip->addrs[p] = block_alloc()`. Not `ok`: the data region is used up, where the C would go on
        to hand out log sectors or fall off the end. */
    method LinkDirect(i: nat, p: nat) returns (b: nat, ok: bool)
      requires Owns(g, store, inodes, owner) && i < |inodes| && p <= NDIRECT && inodes[i].addrs[p] == 0 && Journaled()
      modifies this`store, this`inodes, this`owner, this`logged, this`journal
      ensures Journaled() && KeepsInodeBlocks(g, old(store), store)
      ensures !ok ==> |store| == g.size && NoFreeData(g, store)
      ensures ok ==>
                && FreeData(g, old(store), b) && AddrsAfter(old(store), old(inodes), store, inodes, i, p, b)
                && Owns(g, store, inodes, owner) && SameBytes(old(store), old(inodes), store, inodes)
                && inodes == old(inodes)[i := old(inodes)[i].(addrs := old(inodes)[i].addrs[p := b])]
                && logged <= old(logged) + BitmapBlocks(g) + {b}
    {
      hide Owns, Marked, FreeData, Allocated, NoFreeData, BitmapBlocks, AddrsAfter, SameBytes, Addr;
      OwnsShape(g, store, inodes, owner);
      b := BlockAlloc();
      ok := b < g.LogStart();
      LowestIsFree(g, old(store), inodes, owner, b);
      AllocKeeps(g, old(store), b);
      if !ok {
        StillNoFreeData(g, old(store), b);
      } else {
        DirectLinked(g, old(store), old(inodes), old(owner), i, p, b);
        inodes := inodes[i := inodes[i].(addrs := inodes[i].addrs[p := b])];
        owner := owner[b := (i, p)];
        DirectInvisible(g, old(store), old(inodes), old(owner), i, p, b, store, inodes);
        InBitmap(g, b);
      }
    }

    /** bmap's `a[k] = block_alloc(); log_write(bp)`. */
    method LinkEntry(i: nat, k: nat) returns (b: nat, ok: bool)
      requires Owns(g, store, inodes, owner) && i < |inodes| && k < NINDIRECT
      requires inodes[i].addrs[NDIRECT] != 0 && Addr(store, inodes[i], NDIRECT + 1 + k) == 0 && Journaled()
      modifies this`store, this`owner, this`logged, this`journal
      ensures Journaled() && KeepsInodeBlocks(g, old(store), store)
      ensures !ok ==> |store| == g.size && NoFreeData(g, store)
      ensures ok ==>
                && FreeData(g, old(store), b) && AddrsAfter(old(store), inodes, store, inodes, i, NDIRECT + 1 + k, b)
                && Owns(g, store, inodes, owner) && SameBytes(old(store), inodes, store, inodes)
                && logged <= old(logged) + BitmapBlocks(g) + {b, inodes[i].addrs[NDIRECT]}
    {
      hide Owns, Marked, FreeData, Allocated, NoFreeData, BitmapBlocks, AddrsAfter, SameBytes, Addr, PutU32;
      OwnsShape(g, store, inodes, owner);
      b := BlockAlloc();
      ok := b < g.LogStart();
      LowestIsFree(g, old(store), inodes, owner, b);
      AllocKeeps(g, old(store), b);
      if !ok {
        StillNoFreeData(g, old(store), b);
      } else {
        EntryLinked(g, old(store), inodes, old(owner), i, k, b);
        var ind := inodes[i].addrs[NDIRECT];
        OwnedAbove(g, old(store), inodes, old(owner), ind);
        LogBlock(ind, PutU32(store[ind], 4 * k, b));
        LinkInvisible(g, old(store), inodes, old(owner), i, NDIRECT + 1 + k, b, store, inodes);
        owner := owner[b := (i, NDIRECT + 1 + k)];
        InBitmap(g, b);
      }
    }
  
    /** bmap: the address of block `bn` of inode `i`; a missing block is allocated, and the indirect block before it.
        The requirement on `bn` is what its "out of range" panic checks. */
    method Bmap(i: nat, bn: nat) returns (addr: nat, ok: bool)
      requires Owns(g, store, inodes, owner) && i < |inodes| && bn < MAXFILE && Journaled()
      modifies this`store, this`inodes, this`owner, this`logged, this`journal
      ensures Journaled() && KeepsInodeBlocks(g, old(store), store)
      ensures Addr(old(store), old(inodes)[i], SlotOf(bn)) != 0 ==>
                ok && store == old(store) && inodes == old(inodes) && owner == old(owner) && logged == old(logged) &&
                  journal == old(journal)
      ensures !ok ==> |store| == g.size && NoFreeData(g, store)
      ensures ok ==>
                && |inodes| == |old(inodes)| && Owns(g, store, inodes, owner)
                && Filled(old(store), old(inodes), store, inodes, i, bn, addr)
                && SameBytes(old(store), old(inodes), store, inodes) && Grown(old(store), old(inodes), store, inodes, i)
                && inodes == old(inodes)[i := old(inodes)[i].(addrs := inodes[i].addrs)]
                && logged <= old(logged) + BitmapBlocks(g) + {addr} + IndirectOf(inodes[i])
    {
      hide Owns, NoFreeData, BitmapBlocks, AddrsAfter, SameBytes, Grown, Filled, Addr, GetU32;
      OwnsShape(g, store, inodes, owner);
      Unchanged(store, inodes, i);
      SlotIs(store, inodes[i], bn);
      if Addr(store, inodes[i], SlotOf(bn)) != 0 {
        FilledAlready(store, inodes, i, bn);
        HasIndirect(store, inodes[i], bn);
      }
      ok := true;
      if bn < NDIRECT {
        addr := inodes[i].addrs[bn];
        if addr == 0 {
          addr, ok := LinkDirect(i, bn);
          if ok {
            FilledHere(old(store), old(inodes), store, inodes, i, bn, addr);
          }
        }
        return;
      }
      if inodes[i].addrs[NDIRECT] != 0 {
        addr, ok := IndirectBmap(i, bn);
        return;
      }
      var ind: nat;
      ind, ok := LinkDirect(i, NDIRECT);
      if !ok {
        addr := 0;
        return;
      }
      GrownByIndirect(old(store), old(inodes), store, inodes, i, ind);
      ghost var s1, n1 := store, inodes;
      OtherSlot(old(store), old(inodes), store, inodes, i, bn, ind);
      addr, ok := IndirectBmap(i, bn);
      if ok {
        FilledBoth(old(store), old(inodes), s1, n1, store, inodes, i, bn, ind, addr);
        SameBytesTwice(old(store), old(inodes), s1, n1, store, inodes);
        GrownTwice(old(store), old(inodes), s1, n1, store, inodes, i);
      }
    }

    /** The second half of bmap: the entry in the indirect block, which is there. */
    method IndirectBmap(i: nat, bn: nat) returns (addr: nat, ok: bool)
      requires Owns(g, store, inodes, owner) && i < |inodes| && NDIRECT <= bn < MAXFILE && Journaled()
      requires |inodes[i].addrs| == NDIRECT + 1 && inodes[i].addrs[NDIRECT] != 0
      modifies this`store, this`owner, this`logged, this`journal
      ensures Journaled() && KeepsInodeBlocks(g, old(store), store)
      ensures Addr(old(store), inodes[i], SlotOf(bn)) != 0 ==>
                ok && store == old(store) && owner == old(owner) && logged == old(logged) && journal == old(journal)
      ensures !ok ==> |store| == g.size && NoFreeData(g, store)
      ensures ok ==>
                && Owns(g, store, inodes, owner) && Filled(old(store), inodes, store, inodes, i, bn, addr)
                && SameBytes(old(store), inodes, store, inodes) && Grown(old(store), inodes, store, inodes, i)
                && logged <= old(logged) + BitmapBlocks(g) + {addr} + IndirectOf(inodes[i])
    {
      hide Owns, NoFreeData, BitmapBlocks, AddrsAfter, SameBytes, Grown, Filled, Addr, GetU32;
      OwnsShape(g, store, inodes, owner);
      Unchanged(store, inodes, i);
      KeepsSame(g, store);
      EntryIsAddr(g, store, inodes, owner, i, bn);
      addr, ok := GetU32(store[inodes[i].addrs[NDIRECT]], 4 * (bn - NDIRECT)), true;
      if addr == 0 {
        addr, ok := LinkEntry(i, bn - NDIRECT);
        if ok {
          FilledHere(old(store), inodes, store, inodes, i, bn, addr);
        }
      } else {
        FilledAlready(store, inodes, i, bn);
      }
    }

    /** inode_update: copy the in-memory inode into its inode block, where the others are those of `table`. */
    method InodeUpdate(i: nat, ghost table: seq<Inode>)
      requires Owns(g, store, inodes, owner) && OnDisk(g, store, table) && Journaled()
      requires i < |inodes| == |table| && Encodable(inodes[i])
      modifies this`store, this`logged, this`journal
      ensures Journaled() && Owns(g, store, inodes, owner) && OnDisk(g, store, table[i := inodes[i]])
      ensures SameAddrs(old(store), inodes, store, inodes) && SameBytes(old(store), inodes, store, inodes)
      ensures logged == old(logged) + {g.InodeBlock(i)}
    {
      hide Owns, OnDisk, SameAddrs, SameBytes, PutInode, Encodable;
      OwnsShape(g, store, inodes, owner);
      InodeBlocksFirst(g, store, table, i);
      InodeStored(g, store, table, i, inodes[i]);
      var blk := PutInode(store[g.InodeBlock(i)], i % IPB, inodes[i]);
      InodeBlockWritten(g, store, inodes, owner, g.InodeBlock(i), blk);
      LogBlock(g.InodeBlock(i), blk);
    }

    /** Between calls: every file within the size limit has exactly the blocks its size needs, and the inode
        blocks hold the inodes in memory. */
    ghost predicate Valid()
      reads this
    {
      && Owns(g, store, inodes, owner) && OnDisk(g, store, inodes) && Journaled()
      && forall j: nat :: j < |inodes| ==> Sized(store, inodes[j])
    }

    /** inode_read: the bytes from `off` to `off + n` or the end of the file; nothing is allocated. */
    method InodeRead(i: nat, off: nat, n: nat) returns (r: int, dst: seq<byte>)
      requires Valid() && i < |inodes| && off < U32 && n < U32
      modifies this`store, this`inodes, this`owner, this`logged, this`journal
      ensures store == old(store) && inodes == old(inodes) && owner == old(owner) && logged == old(logged)
      ensures journal == old(journal)
      ensures r == -1 <==> off > inodes[i].size || off + n >= U32
      ensures r != -1 ==>
                && r == |dst| == (if off + n > inodes[i].size then inodes[i].size - off else n)
                && dst == Content(store, inodes[i])[off..off + r]
    {
      hide Owns, Sized, OnDisk, Replay, Sectors, Content, ChunkLength;
      dst := [];
      WrapTest(off, n);
      if off > inodes[i].size || (off + n) % U32 < off {
        return -1, dst;
      }
      OwnsShape(g, store, inodes, owner);
      SizedBound(store, inodes[i]);
      var len := if off + n > inodes[i].size then inodes[i].size - off else n;
      var tot := 0;
      while tot < len
        invariant 0 <= tot <= len
        invariant store == old(store) && inodes == old(inodes) && owner == old(owner) && logged == old(logged)
        invariant journal == old(journal)
        invariant dst == Content(store, inodes[i])[off..off + tot]
      {
        var m := ChunkLength(off + tot, len - tot);
        var chunk := ReadChunk(i, off + tot, m);
        SliceMore(Content(store, inodes[i]), off, off + tot, off + tot + m);
        dst := dst + chunk;
        tot := tot + m;
      }
      r := len;
    }

    /** One pass of inode_read's loop: bytes of one block, which the file has. */
    method ReadChunk(i: nat, pos: nat, m: nat) returns (chunk: seq<byte>)
      requires Valid() && i < |inodes| && 0 < m && pos % BSIZE + m <= BSIZE && pos + m <= inodes[i].size
      modifies this`store, this`inodes, this`owner, this`logged, this`journal
      ensures store == old(store) && inodes == old(inodes) && owner == old(owner) && logged == old(logged)
      ensures journal == old(journal)
      ensures chunk == Content(store, inodes[i])[pos..pos + m]
    {
      hide Owns, Mapped, Addr, SameBytes, Grown, NoFreeData, BitmapBlocks, BlocksFor, IndirectOf, OnDisk, Replay,
           Sectors, KeepsInodeBlocks, Content;
      MappedHere(store, inodes[i], pos);
      var addr, ok := Bmap(i, pos / BSIZE);
      OwnedInStore(g, store, inodes, owner, i, SlotOf(pos / BSIZE));
      ContentChunk(store, inodes[i], pos, m);
      chunk := store[addr][pos % BSIZE..pos % BSIZE + m];
    }

    /** One pass of inode_write's loop: `chunk` goes to offset `off`, within one block. */
    method WriteChunk(i: nat, off: nat, chunk: seq<byte>, ghost k: nat) returns (ok: bool)
      requires Owns(g, store, inodes, owner) && i < |inodes| && Mapped(store, inodes[i], k)
      requires off / BSIZE <= k && off < MAXFILE * BSIZE && off % BSIZE + |chunk| <= BSIZE && Journaled()
      modifies this`store, this`inodes, this`owner, this`logged, this`journal
      ensures Journaled() && KeepsInodeBlocks(g, old(store), store)
      ensures off / BSIZE < k ==> ok
      ensures !ok ==> |store| == g.size && NoFreeData(g, store)
      ensures ok ==>
                && |inodes| == |old(inodes)| && Owns(g, store, inodes, owner)
                && Mapped(store, inodes[i], if off / BSIZE < k then k else k + 1)
                && Grown(old(store), old(inodes), store, inodes, i)
                && Spliced(old(store), old(inodes), store, inodes, i, off, chunk)
                && inodes == old(inodes)[i := old(inodes)[i].(addrs := inodes[i].addrs)]
                && (off / BSIZE < k ==> inodes == old(inodes))
                && logged <= old(logged) + BitmapBlocks(g) + {Addr(store, inodes[i], SlotOf(off / BSIZE))} +
                     IndirectOf(inodes[i])
    {
      hide Owns, Mapped, Addr, SameBytes, Grown, NoFreeData, BitmapBlocks, Spliced, SameAddrs, SpliceBlock, IndirectOf;
      var addr: nat;
      MappedSlot(store, inodes[i], k, off / BSIZE);
      addr, ok := Bmap(i, off / BSIZE);
      if ok {
        MappedAfter(old(store), old(inodes), store, inodes, i, off / BSIZE, addr, k);
        OwnsShape(g, store, inodes, owner);
        OwnedInStore(g, store, inodes, owner, i, SlotOf(off / BSIZE));
        DataWritten(g, store, inodes, owner, i, off, chunk);
        ghost var s1 := store;
        AddrAbove(g, store, inodes, owner, i, SlotOf(off / BSIZE));
        LogBlock(addr, SpliceBlock(store[addr], off % BSIZE, chunk));
        RewrittenKeeps(old(store), old(inodes), s1, inodes, store, i, off / BSIZE,
          if off / BSIZE < k then k else k + 1);
        SplicedAfterGrowth(old(store), old(inodes), s1, inodes, store, i, off, chunk);
      }
    }

    /** inode_write: the file's bytes from `off0` on become `src`, the file grows if it must, every other
        file keeps its bytes, and whatever was allocated is recorded in the inode blocks. */
    method InodeWrite(i: nat, src: seq<byte>, off0: nat) returns (r: int, ok: bool)
      requires Valid() && i < |inodes| && off0 < U32 && |src| < U32
      modifies this
      ensures r == -1 <==> off0 > old(inodes)[i].size || off0 + |src| > MAXFILE * BSIZE
      ensures base == old(base) && Journaled()
      ensures r == -1 ==> ok && store == old(store) && inodes == old(inodes) && owner == old(owner)
      ensures r == -1 ==> logged == old(logged) && journal == old(journal)
      ensures r != -1 ==> r == |src|
      ensures !ok ==> |store| == g.size && NoFreeData(g, store)
      ensures BlocksFor(off0 + |src|) <= BlocksFor(old(inodes)[i].size) ==> ok
      ensures ok ==> Valid() && |inodes| == |old(inodes)|
      ensures r != -1 && BlocksFor(off0 + |src|) <= BlocksFor(old(inodes)[i].size) ==>
                inodes[i].addrs == old(inodes)[i].addrs
      ensures ok && r != -1 ==>
                && Spliced(old(store), old(inodes), store, inodes, i, off0, src)
                && inodes == old(inodes)[i := old(inodes)[i].(addrs := inodes[i].addrs,
                     size := NewSize(old(inodes)[i].size, off0, |src|))]
                && logged <= old(logged) + BitmapBlocks(g) + {g.InodeBlock(i)} + IndirectOf(inodes[i])
                             + Touched(store, inodes[i], off0 / BSIZE, BlocksFor(off0 + |src|))
    {
      hide Owns, Mapped, NoFreeData, Spliced, BlocksFor, Writing, LoggedBy, OnDisk, KeepsInodeBlocks, Touched, Replay,
           IndirectOf, BitmapBlocks, Sectors;
      WrapTest(off0, |src|);
      if off0 > inodes[i].size || (off0 + |src|) % U32 < off0 || off0 + |src| > MAXFILE * BSIZE {
        return -1, true;
      }
      r := |src|;
      ok := WriteBytes(i, src, off0);
      if ok {
        RecordWrite(i, src, off0, old(store), old(inodes), old(logged));
      }
    }

    /** The loop of inode_write. */
    method WriteBytes(i: nat, src: seq<byte>, off0: nat) returns (ok: bool)
      requires Valid() && i < |inodes| && off0 <= inodes[i].size && off0 + |src| <= MAXFILE * BSIZE
      modifies this`store, this`inodes, this`owner, this`logged, this`journal
      ensures Journaled() && KeepsInodeBlocks(g, old(store), store)
      ensures BlocksFor(off0 + |src|) <= BlocksFor(old(inodes)[i].size) ==> ok
      ensures !ok ==> |store| == g.size && NoFreeData(g, store)
      ensures ok ==> Writing(g, old(store), old(inodes), store, inodes, owner, i, off0, src)
      ensures ok ==> i < |inodes| == |old(inodes)| && LoggedBy(g, old(logged), logged, store, inodes[i], off0, |src|)
    {
      hide Owns, Mapped, NoFreeData, BlocksFor, Writing, LoggedBy, OnDisk, KeepsInodeBlocks, Replay, Sectors;
      ok := true;
      OwnsShape(g, store, inodes, owner);
      StartWriting(g, store, inodes, owner, i, off0);
      LoggedStart(g, logged, store, inodes[i], off0);
      KeepsSame(g, store);
      var tot := 0;
      while tot < |src|
        invariant 0 <= tot <= |src| && |inodes| == |old(inodes)|
        invariant Journaled() && KeepsInodeBlocks(g, old(store), store)
        invariant Writing(g, old(store), old(inodes), store, inodes, owner, i, off0, src[..tot])
        invariant LoggedBy(g, old(logged), logged, store, inodes[i], off0, tot)
      {
        var m;
        ghost var s1 := store;
        m, ok := WriteNext(i, src, off0, tot, old(store), old(inodes), old(logged));
        KeepsTwice(g, old(store), s1, store);
        if !ok {
          return false;
        }
        tot := tot + m;
      }
      assert src[..tot] == src;
    }

    /** The end of inode_write: a file that has grown gets its size, and its inode is written. */
    method RecordWrite(i: nat, src: seq<byte>, off0: nat, ghost s0: seq<Block>, ghost n0: seq<Inode>,
                       ghost l0: set<nat>)
      requires i < |inodes| == |n0| && off0 <= n0[i].size && off0 + |src| <= MAXFILE * BSIZE && Journaled()
      requires Writing(g, s0, n0, store, inodes, owner, i, off0, src) && KeepsInodeBlocks(g, s0, store)
      requires LoggedBy(g, l0, logged, store, inodes[i], off0, |src|) && OnDisk(g, s0, n0)
      requires forall j: nat :: j < |n0| ==> Sized(s0, n0[j])
      modifies this`store, this`inodes, this`logged, this`journal
      ensures Valid() && |inodes| == |n0| && Spliced(s0, n0, store, inodes, i, off0, src)
      ensures inodes == n0[i := n0[i].(addrs := inodes[i].addrs, size := NewSize(n0[i].size, off0, |src|))]
      ensures BlocksFor(off0 + |src|) <= BlocksFor(n0[i].size) ==> inodes[i].addrs == n0[i].addrs
      ensures logged <= l0 + BitmapBlocks(g) + {g.InodeBlock(i)} + IndirectOf(inodes[i])
                        + Touched(store, inodes[i], off0 / BSIZE, BlocksFor(off0 + |src|))
    {
      hide Owns, Mapped, Spliced, BlocksFor, Writing, LoggedBy, OnDisk, KeepsInodeBlocks, Touched, Sized, BlocksReached,
           IndirectOf, BitmapBlocks, SameAddrs, SameBytes, Encodable, Replay, Sectors;
      WritingState(g, s0, n0, store, inodes, owner, i, off0, src);
      ReachedSame(n0[i].size, off0 + |src|);
      ghost var n2 := inodes;
      OnDiskKept(g, s0, store, n0);
      if |src| > 0 && off0 + |src| > inodes[i].size {
        inodes := inodes[i := inodes[i].(size := off0 + |src|)];
        FinishWriting(g, s0, n0, store, n2, owner, i, off0, src, inodes);
        LoggedEnd(g, l0, logged, store, n2[i], inodes[i], off0, |src|);
        StillEncodable(g, store, inodes, owner, i, n0);
        ghost var s2 := store;
        InodeUpdate(i, n0);
        assert n0[i := inodes[i]] == inodes;
        UpdateInvisible(s0, n0, s2, store, inodes, i, off0, src);
      } else {
        FinishWriting(g, s0, n0, store, n2, owner, i, off0, src, inodes);
        LoggedEnd(g, l0, logged, store, n2[i], n2[i], off0, |src|);
      }
    }

    /** One turn of inode_write's loop. */
    method WriteNext(i: nat, src: seq<byte>, off0: nat, tot: nat, ghost s0: seq<Block>, ghost n0: seq<Inode>,
                     ghost l0: set<nat>) returns (m: nat, ok: bool)
      requires tot < |src| && off0 + |src| <= MAXFILE * BSIZE && Journaled()
      requires Writing(g, s0, n0, store, inodes, owner, i, off0, src[..tot])
      requires LoggedBy(g, l0, logged, store, inodes[i], off0, tot)
      modifies this`store, this`inodes, this`owner, this`logged, this`journal
      ensures Journaled() && KeepsInodeBlocks(g, old(store), store)
      ensures i < |n0| && (BlocksFor(off0 + |src|) <= BlocksFor(n0[i].size) ==> ok)
      ensures !ok ==> |store| == g.size && NoFreeData(g, store)
      ensures ok ==> 0 < m <= |src| - tot && |inodes| == |old(inodes)|
      ensures ok ==> Writing(g, s0, n0, store, inodes, owner, i, off0, src[..tot + m])
      ensures ok ==> LoggedBy(g, l0, logged, store, inodes[i], off0, tot + m)
    {
      hide Owns, Mapped, Addr, Grown, NoFreeData, BitmapBlocks, Spliced, Touched, BlocksFor, BlocksReached, Writing,
           IndirectOf;
      var off := off0 + tot;
      m := ChunkLength(off, |src| - tot);
      WritingState(g, s0, n0, store, inodes, owner, i, off0, src[..tot]);
      ghost var k := BlocksReached(n0[i].size, off);
      ReachedNext(n0[i].size, off, m);
      WithinBlocks(n0[i].size, off, off0 + |src|);
      ok := WriteChunk(i, off, src[tot..tot + m], k);
      if ok {
        OwnsShape(g, store, inodes, owner);
        WritingStep(g, s0, n0, old(store), old(inodes), old(owner), store, inodes, owner, i, off0, src, tot, m);
        TouchedStep(old(store), old(inodes), store, inodes, i, off0, tot, m, k);
        LoggedStep(l0, old(logged), logged, BitmapBlocks(g), IndirectOf(old(inodes)[i]), IndirectOf(inodes[i]),
                   Addr(store, inodes[i], SlotOf(off / BSIZE)),
                   Touched(old(store), old(inodes)[i], off0 / BSIZE, if tot == 0 then 0 else BlocksFor(off0 + tot)),
                   Touched(store, inodes[i], off0 / BSIZE, BlocksFor(off0 + tot + m)));
      }
    }

    /** begin_trans, as the file layer sees it: nothing is logged yet. */
    method BeginTrans()
      requires Valid()
      modifies this`base, this`journal, this`logged
      ensures Valid() && base == store && journal == [] && logged == {}
    {
      hide Owns, OnDisk, Sized;
      base, journal, logged := store, [], {};
    }

    /** One transaction of file_write's loop. On a disk whose bitmap is one block it logs at most 7 sectors. */
    method WriteTransaction(i: nat, chunk: seq<byte>, off: nat) returns (r: int, ok: bool)
      requires Valid() && i < |inodes| && off < U32 && |chunk| <= MAXCHUNK
      modifies this
      ensures r == -1 <==> off > old(inodes)[i].size || off + |chunk| > MAXFILE * BSIZE
      ensures r == -1 ==> ok && store == old(store) && inodes == old(inodes) && owner == old(owner)
      ensures r != -1 ==> r == |chunk|
      ensures !ok ==> |store| == g.size && NoFreeData(g, store)
      ensures base == old(store) && Journaled() && (r == -1 ==> journal == [])
      ensures ok ==> forall s :: s in logged ==> s < g.LogStart()
      ensures ok ==> Valid() && |inodes| == |old(inodes)| && (g.size <= BPB ==> |logged| <= 7)
      ensures ok && r != -1 ==>
                && Spliced(old(store), old(inodes), store, inodes, i, off, chunk)
                && inodes == old(inodes)[i := old(inodes)[i].(addrs := inodes[i].addrs,
                     size := NewSize(old(inodes)[i].size, off, |chunk|))]
    {
      hide Owns, Sized, NoFreeData, Spliced, BitmapBlocks, Touched, OnDisk, BlocksFor, IndirectOf;
      base, journal, logged := store, [], {};
      r, ok := InodeWrite(i, chunk, off);
      if ok && r != -1 {
        OwnsShape(g, store, inodes, owner);
        LoggedInHome(g, logged, store, inodes, owner, i, off / BSIZE, BlocksFor(off + |chunk|));
        if g.size <= BPB {
          LogBound(g, logged, store, inodes[i], i, off, |chunk|);
        }
      }
    }

    /** file_write on an inode: one transaction per chunk. The chunks that fit under the size limit are
        written, and the result is the whole length or -1. */
    method FileWrite(i: nat, src: seq<byte>, off0: nat) returns (r: int, off: nat, ok: bool)
      requires Valid() && i < |inodes| && off0 <= inodes[i].size
      modifies this
      ensures !ok ==> |store| == g.size && NoFreeData(g, store)
      ensures ok ==> Valid() && |inodes| == |old(inodes)|
      ensures ok ==> var n := Written(off0, |src|);
                && off == off0 + n && r == (if n == |src| then |src| else -1)
                && Spliced(old(store), old(inodes), store, inodes, i, off0, src[..n])
                && inodes == old(inodes)[i := old(inodes)[i].(addrs := inodes[i].addrs,
                     size := NewSize(old(inodes)[i].size, off0, n))]
    {
      hide Owns, Sized, NoFreeData, Spliced, Written, OnDisk, Replay, Sectors;
      off := off0;
      ok := true;
      var n := 0;
      OwnsShape(g, store, inodes, owner);
      SplicedNothing(store, inodes, i, off0);
      assert inodes == inodes[i := inodes[i].(addrs := inodes[i].addrs, size := NewSize(inodes[i].size, off0, 0))];
      while n < |src|
        invariant 0 <= n <= |src| && off == off0 + n && ok && Valid() && |inodes| == |old(inodes)|
        invariant off <= inodes[i].size
        invariant Written(off0, |src|) == n + Written(off, |src| - n)
        invariant Spliced(old(store), old(inodes), store, inodes, i, off0, src[..n])
        invariant inodes == old(inodes)[i := old(inodes)[i].(addrs := inodes[i].addrs,
                    size := NewSize(old(inodes)[i].size, off0, n))]
      {
        var n1 := if |src| - n > MAXCHUNK then MAXCHUNK else |src| - n;
        WrittenStep(off, |src| - n);
        ghost var s1, ns1 := store, inodes;
        SizedBound(store, inodes[i]);
        var c: int;
        c, ok := WriteTransaction(i, src[n..n + n1], off);
        if !ok {
          return -1, off, false;
        }
        if c < 0 {
          break;
        }
        SplicedAdjacent(old(store), old(inodes), s1, ns1, store, inodes, i, off0, src[..n], src[n..n + n1]);
        assert src[..n] + src[n..n + n1] == src[..n + n1];
        n := n + n1;
        off := off + n1;
      }
      WrittenNone(off);
      r := if n == |src| then |src| else -1;
    }
  
    /** block_free. The requirement is what its "freeing free block" panic checks. */
    method BlockFree(b: nat)
      requires g.Valid() && |store| == g.size && b < g.size && Marked(g, store, b) && Journaled()
      modifies this`store, this`logged, this`journal
      ensures Journaled() && KeepsInodeBlocks(g, old(store), store)
      ensures store == Mark(g, old(store), b, false) && logged == old(logged) + {g.BitmapBlock(b)}
    {
      hide BlockBit, BlockSet;
      LogBlock(g.BitmapBlock(b), BlockSet(store[g.BitmapBlock(b)], b % BPB, false));
    }

    /** Free the block in slot `p`, where `seen` are the slots already freed. */
    method FreeSlot(i: nat, p: nat, b: nat, ghost s0: seq<Block>, ghost n0: seq<Inode>, ghost seen: set<nat>)
      requires Freeing(g, s0, n0, owner, i, seen, store) && p < NSLOT && p !in seen && b == Addr(s0, n0[i], p)
      requires Journaled()
      modifies this`store, this`logged, this`journal
      ensures Journaled() && KeepsInodeBlocks(g, old(store), store)
      ensures Freeing(g, s0, n0, owner, i, seen + {p}, store)
      ensures logged <= old(logged) + BitmapBlocks(g)
    {
      hide Owns, Marked, Addr, Freeing, BitmapBlocks;
      if b != 0 {
        FreeNext(g, s0, n0, owner, i, seen, store, p);
        BlockFree(b);
        InBitmap(g, b);
      } else {
        FreeNothing(g, s0, n0, owner, i, seen, store, p);
      }
    }

    /** inode_trunc's loop over the direct addresses; the result is the address array with those cleared. */
    method FreeDirect(i: nat, ghost s0: seq<Block>, ghost n0: seq<Inode>) returns (addrs: seq<nat>)
      requires i < |inodes| && inodes == n0 && |inodes[i].addrs| == NDIRECT + 1
      requires Freeing(g, s0, n0, owner, i, Below(0), store) && Journaled()
      modifies this`store, this`logged, this`journal
      ensures Journaled() && KeepsInodeBlocks(g, old(store), store)
      ensures Freeing(g, s0, n0, owner, i, Below(NDIRECT), store)
      ensures addrs == seq(NDIRECT, _ => 0) + [inodes[i].addrs[NDIRECT]]
      ensures logged <= old(logged) + BitmapBlocks(g)
    {
      hide Owns, Marked, Addr, Freeing, BitmapBlocks;
      addrs := inodes[i].addrs;
      var p := 0;
      while p < NDIRECT
        invariant 0 <= p <= NDIRECT && |addrs| == NDIRECT + 1
        invariant forall q :: 0 <= q <= NDIRECT ==> addrs[q] == if q < p then 0 else n0[i].addrs[q]
        invariant Freeing(g, s0, n0, owner, i, Below(p), store) && logged <= old(logged) + BitmapBlocks(g)
        invariant Journaled() && KeepsInodeBlocks(g, old(store), store)
      {
        DirectAddr(s0, n0[i], p);
        FreeSlot(i, p, addrs[p], s0, n0, Below(p));
        assert Below(p) + {p} == Below(p + 1);
        addrs := addrs[p := 0];
        p := p + 1;
      }
    }

    /** inode_trunc's loop over the indirect block. */
    method FreeEntries(i: nat, ghost s0: seq<Block>, ghost n0: seq<Inode>)
      requires i < |inodes| && inodes == n0 && |inodes[i].addrs| == NDIRECT + 1 && inodes[i].addrs[NDIRECT] != 0
      requires Freeing(g, s0, n0, owner, i, Below(NDIRECT), store) && Journaled()
      modifies this`store, this`logged, this`journal
      ensures Journaled() && KeepsInodeBlocks(g, old(store), store)
      ensures Freeing(g, s0, n0, owner, i, Below(NSLOT) - {NDIRECT}, store)
      ensures logged <= old(logged) + BitmapBlocks(g)
    {
      hide Owns, Marked, Addr, Freeing, BitmapBlocks, GetU32, Replay, Sectors, KeepsInodeBlocks;
      hide SeenTo;
      var ind := inodes[i].addrs[NDIRECT];
      SeenSlots(0);
      KeepsSame(g, store);
      var j := 0;
      while j < NINDIRECT
        invariant 0 <= j <= NINDIRECT && Freeing(g, s0, n0, owner, i, SeenTo(j), store)
        invariant logged <= old(logged) + BitmapBlocks(g)
        invariant Journaled() && KeepsInodeBlocks(g, old(store), store)
      {
        SeenSlots(j);
        IndirectKept(g, s0, n0, owner, i, SeenTo(j), store, j);
        ghost var s := store;
        FreeSlot(i, NDIRECT + 1 + j, GetU32(store[ind], 4 * j), s0, n0, SeenTo(j));
        KeepsTwice(g, old(store), s, store);
        j := j + 1;
      }
      SeenSlots(j);
    }

    /** The freeing part of inode_trunc: direct blocks, the blocks in the indirect block, and the indirect block. */
    method FreeAll(i: nat) returns (addrs: seq<nat>, ghost seen: set<nat>)
      requires Owns(g, store, inodes, owner) && i < |inodes| && Journaled()
      modifies this`store, this`logged, this`journal
      ensures Journaled() && KeepsInodeBlocks(g, old(store), store) && logged <= old(logged) + BitmapBlocks(g)
      ensures Freeing(g, old(store), inodes, owner, i, seen, store) && |inodes[i].addrs| == NDIRECT + 1
      ensures forall q: nat :: q < NSLOT ==> q in seen || (q >= NDIRECT && inodes[i].addrs[NDIRECT] == 0)
      ensures addrs == seq(NDIRECT + 1, _ => 0)
    {
      hide Owns, Marked, Addr, Freeing, BitmapBlocks, GetU32, KeepsInodeBlocks;
      OwnsShape(g, store, inodes, owner);
      StartFreeing(g, store, inodes, owner, i);
      addrs := FreeDirect(i, old(store), inodes);
      seen := Below(NDIRECT);
      var ind := addrs[NDIRECT];
      if ind != 0 {
        ghost var s1 := store;
        FreeEntries(i, old(store), inodes);
        KeepsTwice(g, old(store), s1, store);
        seen := Below(NSLOT) - {NDIRECT};
        DirectAddr(old(store), inodes[i], NDIRECT);
        ghost var s2 := store;
        FreeSlot(i, NDIRECT, ind, old(store), inodes, seen);
        KeepsTwice(g, old(store), s2, store);
        seen := seen + {NDIRECT};
        addrs := addrs[NDIRECT := 0];
      }
      assert addrs == seq(NDIRECT + 1, _ => 0);
    }

    /** inode_trunc. Every block freed was marked; no other file changes. */
    method InodeTrunc(i: nat)
      requires Valid() && i < |inodes|
      modifies this
      ensures Valid() && |inodes| == |old(inodes)| && base == old(base)
      ensures inodes == old(inodes)[i := old(inodes)[i].(size := 0, addrs := seq(NDIRECT + 1, _ => 0))]
      ensures owner == map a | a in old(owner) && old(owner)[a].0 != i :: old(owner)[a]
      ensures forall j: nat, pos: nat :: j < |inodes| && j != i && pos < MAXFILE * BSIZE ==>
                ByteAt(store, inodes[j], pos) == ByteAt(old(store), inodes[j], pos)
      ensures logged <= old(logged) + BitmapBlocks(g) + {g.InodeBlock(i)}
    {
      hide Owns, Addr, Freeing, BitmapBlocks, Sized, OnDisk, KeepsInodeBlocks, SameAddrs, SameBytes, Encodable, ByteAt;
      OwnsShape(g, store, inodes, owner);
      var addrs, seen := FreeAll(i);
      AllFreed(g, old(store), inodes, owner, i, seen, store);
      OnDiskKept(g, old(store), store, inodes);
      inodes := inodes[i := inodes[i].(addrs := addrs, size := 0)];
      owner := map a | a in owner && owner[a].0 != i :: owner[a];
      StillEncodable(g, store, inodes, owner, i, old(inodes));
      ghost var s2 := store;
      InodeUpdate(i, old(inodes));
      assert old(inodes)[i := inodes[i]] == inodes;
      TruncInvisible(s2, store, inodes);
    }
  }

  ghost function Below(p: nat): (r: set<nat>)
    ensures forall q: nat :: q in r <==> q < p
  {
    if p == 0 then {} else Below(p - 1) + {p - 1}
  }

  /** The direct slots and the first `j` entries. */
  ghost function SeenTo(j: nat): set<nat> {
    Below(NDIRECT + 1 + j) - {NDIRECT}
  }

  lemma SeenSlots(j: nat)
    ensures SeenTo(0) == Below(NDIRECT) && SeenTo(NINDIRECT) == Below(NSLOT) - {NDIRECT}
    ensures NDIRECT + 1 + j !in SeenTo(j) && SeenTo(j) + {NDIRECT + 1 + j} == SeenTo(j + 1)
  {
  }

  lemma DirectAddr(s: seq<Block>, ino: Inode, p: nat)
    requires |ino.addrs| == NDIRECT + 1 && p <= NDIRECT
    ensures Addr(s, ino, p) == ino.addrs[p]
  {
  }

  /** Part way through inode_trunc of inode `i`: exactly the blocks in the `seen` slots have been unmarked,
      and only bitmap blocks have changed. */
  ghost predicate Freeing(g: Geometry, s0: seq<Block>, n0: seq<Inode>, owner: map<nat, (nat, nat)>, i: nat,
                          seen: set<nat>, s: seq<Block>) {
    && Owns(g, s0, n0, owner) && i < |n0| && |s| == |s0|
    && (forall x: nat :: x < g.size ==>
         (Marked(g, s, x) <==> Marked(g, s0, x) && !(x in owner && owner[x].0 == i && owner[x].1 in seen)))
    && (forall x: nat :: g.DataStart() <= x < g.size ==> s[x] == s0[x])
  }

  lemma StartFreeing(g: Geometry, s0: seq<Block>, n0: seq<Inode>, owner: map<nat, (nat, nat)>, i: nat)
    requires Owns(g, s0, n0, owner) && i < |n0|
    ensures Freeing(g, s0, n0, owner, i, Below(0), s0)
  {
  }

  /** The block in an unseen slot is still marked, and unmarking it is the next step. */
  lemma FreeNext(g: Geometry, s0: seq<Block>, n0: seq<Inode>, owner: map<nat, (nat, nat)>, i: nat, seen: set<nat>,
                 s: seq<Block>, p: nat)
    requires Freeing(g, s0, n0, owner, i, seen, s) && p < NSLOT && p !in seen && Addr(s0, n0[i], p) != 0
    ensures var b := Addr(s0, n0[i], p);
            && g.Valid() && |s| == g.size && b < g.size && Marked(g, s, b)
            && Freeing(g, s0, n0, owner, i, seen + {p}, Mark(g, s, b, false))
  {
    hide Addr, Marked, BlockSet, Geometry.LogStart;
    var b := Addr(s0, n0[i], p);
    MarkBits(g, s, b, false);
    MarkLength(g, s, b, false);
    BitmapBelowData(g, b);
  }

  lemma FreeNothing(g: Geometry, s0: seq<Block>, n0: seq<Inode>, owner: map<nat, (nat, nat)>, i: nat, seen: set<nat>,
                    s: seq<Block>, p: nat)
    requires Freeing(g, s0, n0, owner, i, seen, s) && p < NSLOT && Addr(s0, n0[i], p) == 0
    ensures Freeing(g, s0, n0, owner, i, seen + {p}, s)
  {
  }

  /** The indirect block still reads as it did. */
  lemma IndirectKept(g: Geometry, s0: seq<Block>, n0: seq<Inode>, owner: map<nat, (nat, nat)>, i: nat, seen: set<nat>,
                     s: seq<Block>, j: nat)
    requires Freeing(g, s0, n0, owner, i, seen, s) && j < NINDIRECT && |n0[i].addrs| == NDIRECT + 1
    requires n0[i].addrs[NDIRECT] != 0
    ensures n0[i].addrs[NDIRECT] < |s| && GetU32(s[n0[i].addrs[NDIRECT]], 4 * j) == Addr(s0, n0[i], NDIRECT + 1 + j)
  {
    hide GetU32, Marked, Geometry.LogStart;
    AddrOfIndirect(s0, n0[i]);
  }

  /** With every slot freed and cleared, the remaining files own exactly what they owned. */
  lemma AllFreed(g: Geometry, s0: seq<Block>, n0: seq<Inode>, owner: map<nat, (nat, nat)>, i: nat, seen: set<nat>,
                 s: seq<Block>)
    requires i < |n0| && Freeing(g, s0, n0, owner, i, seen, s) && |n0[i].addrs| == NDIRECT + 1
    requires forall q: nat :: q < NSLOT ==> q in seen || (q >= NDIRECT && n0[i].addrs[NDIRECT] == 0)
    requires forall j: nat :: j < |n0| ==> Sized(s0, n0[j])
    ensures var n := n0[i := n0[i].(addrs := seq(NDIRECT + 1, _ => 0), size := 0)];
            && Owns(g, s, n, map a | a in owner && owner[a].0 != i :: owner[a])
            && (forall j: nat :: j < |n| ==> Sized(s, n[j]))
            && (forall j: nat, pos: nat :: j < |n| && j != i && pos < MAXFILE * BSIZE ==>
                 ByteAt(s, n[j], pos) == ByteAt(s0, n[j], pos))
  {
    hide Addr, Owns, Marked, Mapped, Freeing;
    var n := n0[i := n0[i].(addrs := seq(NDIRECT + 1, _ => 0), size := 0)];
    AddrsFreed(g, s0, n0, owner, i, seen, s);
    EmptyMapped(s, n[i]);
    EmptyMapped(s0, n[i]);
    OwnsFreed(g, s0, n0, owner, i, seen, s, n);
    assert Grown(s0, n0[i := n[i]], s, n, i);
    forall j: nat | j < |n| && j != i
      ensures Sized(s, n[j])
      ensures forall pos: nat :: pos < MAXFILE * BSIZE ==> ByteAt(s, n[j], pos) == ByteAt(s0, n[j], pos)
    {
      OthersStayMapped(s0, n0[i := n[i]], s, n, i, j, BlocksFor(n0[j].size));
      DataKept(g, s0, n0, owner, i, seen, s, j);
    }
  }

  lemma EmptyMapped(s: seq<Block>, ino: Inode)
    requires |ino.addrs| == NDIRECT + 1 && (forall q :: 0 <= q <= NDIRECT ==> ino.addrs[q] == 0)
    ensures Mapped(s, ino, BlocksFor(0)) && forall q: nat :: q < NSLOT ==> Addr(s, ino, q) == 0
  {
  }

  lemma AddrsFreed(g: Geometry, s0: seq<Block>, n0: seq<Inode>, owner: map<nat, (nat, nat)>, i: nat, seen: set<nat>,
                   s: seq<Block>)
    requires Freeing(g, s0, n0, owner, i, seen, s)
    ensures |s| == |s0| == g.size && forall j :: 0 <= j < |n0| ==> |n0[j].addrs| == NDIRECT + 1
    ensures forall j: nat, q: nat :: j < |n0| && q < NSLOT ==> Addr(s, n0[j], q) == Addr(s0, n0[j], q)
  {
    hide GetU32, Marked, Geometry.DataStart, Geometry.LogStart;
    forall j: nat, q: nat | j < |n0| && q < NSLOT ensures Addr(s, n0[j], q) == Addr(s0, n0[j], q) {
      AddrOfIndirect(s0, n0[j]);
    }
  }

  lemma OwnsFreed(g: Geometry, s0: seq<Block>, n0: seq<Inode>, owner: map<nat, (nat, nat)>, i: nat, seen: set<nat>,
                  s: seq<Block>, n: seq<Inode>)
    requires Freeing(g, s0, n0, owner, i, seen, s) && |n| == |n0|
    requires (forall j :: 0 <= j < |n| ==> |n[j].addrs| == |n0[j].addrs| == NDIRECT + 1)
    requires forall q: nat :: q < NSLOT ==> q in seen || (q >= NDIRECT && n0[i].addrs[NDIRECT] == 0)
    requires forall j: nat, q: nat :: j < |n| && q < NSLOT ==>
               Addr(s, n[j], q) == if j == i then 0 else Addr(s0, n0[j], q)
    ensures Owns(g, s, n, map a | a in owner && owner[a].0 != i :: owner[a])
  {
  }

  lemma DataKept(g: Geometry, s0: seq<Block>, n0: seq<Inode>, owner: map<nat, (nat, nat)>, i: nat, seen: set<nat>,
                 s: seq<Block>, j: nat)
    requires Freeing(g, s0, n0, owner, i, seen, s) && j < |n0|
    requires (forall q :: 0 <= q < |n0| ==> |n0[q].addrs| == NDIRECT + 1)
    requires forall q: nat :: q < NSLOT ==> Addr(s, n0[j], q) == Addr(s0, n0[j], q)
    ensures forall pos: nat :: pos < MAXFILE * BSIZE ==> ByteAt(s, n0[j], pos) == ByteAt(s0, n0[j], pos)
  {
  }

  /** `((LOGSIZE-1-1-2) / 2) * 512` */
  const MAXCHUNK: nat := (10 - 1 - 1 - 2) / 2 * 512

  /** How many of `n` bytes file_write gets onto a file from offset `off`: whole chunks while they fit. */
  function Written(off: nat, n: nat): (w: nat)
    ensures w <= n
    decreases n
  {
    var n1 := if n > MAXCHUNK then MAXCHUNK else n;
    if n == 0 || off + n1 > MAXFILE * BSIZE then 0 else n1 + Written(off + n1, n - n1)
  }

  lemma WrittenStep(off: nat, n: nat)
    ensures var n1 := if n > MAXCHUNK then MAXCHUNK else n;
            Written(off, n) == if n == 0 || off + n1 > MAXFILE * BSIZE then 0 else n1 + Written(off + n1, n - n1)
  {
  }

  lemma WrittenNone(off: nat)
    ensures Written(off, 0) == 0
  {
  }

  lemma SizedBound(store: seq<Block>, ino: Inode)
    requires Sized(store, ino)
    ensures ino.size <= MAXFILE * BSIZE < U32
  {
  }

  lemma SplicedNothing(s: seq<Block>, n: seq<Inode>, i: nat, off: nat)
    requires forall j :: 0 <= j < |n| ==> |n[j].addrs| == NDIRECT + 1
    ensures Spliced(s, n, s, n, i, off, [])
  {
  }

  lemma {:induction false} TouchedSize(s: seq<Block>, ino: Inode, lo: nat, hi: nat)
    requires |ino.addrs| == NDIRECT + 1
    ensures |Touched(s, ino, lo, hi)| <= if lo < hi then hi - lo else 0
    decreases hi
  {
    TouchedNext(s, ino, lo, hi);
    hide Addr, Touched;
    if lo < hi {
      TouchedSize(s, ino, lo, hi - 1);
    }
  }

  lemma TouchedNext(s: seq<Block>, ino: Inode, lo: nat, hi: nat)
    requires |ino.addrs| == NDIRECT + 1
    ensures lo < hi <= MAXFILE ==>
              Touched(s, ino, lo, hi) == Touched(s, ino, lo, hi - 1) + {Addr(s, ino, SlotOf(hi - 1))}
    ensures lo < hi && MAXFILE < hi ==> Touched(s, ino, lo, hi) == Touched(s, ino, lo, hi - 1)
    ensures hi <= lo ==> Touched(s, ino, lo, hi) == {}
  {
  }

  /** Log space: a chunk at any offset dirties at most four data blocks, one bitmap block, one indirect
      block and one inode block, so log_write's "too big a transaction" is out of reach. */
  lemma LogBound(g: Geometry, logged: set<nat>, s: seq<Block>, ino: Inode, i: nat, off: nat, n: nat)
    requires g.Valid() && g.size <= BPB && |ino.addrs| == NDIRECT + 1 && n <= MAXCHUNK
    requires logged <= {} + BitmapBlocks(g) + {g.InodeBlock(i)} + IndirectOf(ino) +
               Touched(s, ino, off / BSIZE, BlocksFor(off + n))
    ensures |logged| <= 7
  {
    hide Touched;
    var data := Touched(s, ino, off / BSIZE, BlocksFor(off + n));
    TouchedSize(s, ino, off / BSIZE, BlocksFor(off + n));
    assert |data| <= 4;
    assert BitmapBlocks(g) <= {g.BitmapBlock(0)};
    var rest := {g.BitmapBlock(0), g.InodeBlock(i)} + IndirectOf(ino);
    assert |rest| <= 3;
    SubsetSize(logged, rest + data);
  }

  /** The contents after a write at `off <= |c|`. */
  ghost function Overwritten(c: seq<byte>, off: nat, src: seq<byte>): seq<byte>
    requires off <= |c|
  {
    c[..off] + src + if off + |src| < |c| then c[off + |src|..] else []
  }

  /** A write is a splice of the file's contents, and no other file's contents change. */
  lemma WriteIsSplice(s0: seq<Block>, n0: seq<Inode>, s: seq<Block>, n: seq<Inode>, i: nat, off: nat, src: seq<byte>)
    requires Spliced(s0, n0, s, n, i, off, src) && i < |n0| && off <= n0[i].size
    requires forall j: nat :: j < |n0| ==> n0[j].size <= MAXFILE * BSIZE && n[j].size <= MAXFILE * BSIZE
    requires n[i].size == NewSize(n0[i].size, off, |src|)
    requires forall j: nat :: j < |n0| && j != i ==> n[j].size == n0[j].size
    ensures Content(s, n[i]) == Overwritten(Content(s0, n0[i]), off, src)
    ensures forall j: nat :: j < |n0| && j != i ==> Content(s, n[j]) == Content(s0, n0[j])
  {
  }

  /** The size after writing `n` bytes at `off`. */
  function NewSize(size: nat, off: nat, n: nat): nat {
    if n > 0 && off + n > size then off + n else size
  }

  ghost function IndirectOf(ino: Inode): set<nat>
    requires |ino.addrs| == NDIRECT + 1
  {
    if ino.addrs[NDIRECT] == 0 then {} else {ino.addrs[NDIRECT]}
  }

  /** The data blocks of file blocks `lo..hi`. */
  ghost function Touched(store: seq<Block>, ino: Inode, lo: nat, hi: nat): set<nat>
    requires |ino.addrs| == NDIRECT + 1
  {
    set bn: nat | lo <= bn < hi && bn < MAXFILE :: Addr(store, ino, SlotOf(bn))
  }

  /** Blocks of a file of `size` bytes that has been written up to `off`. */
  function BlocksReached(size: nat, off: nat): nat {
    if BlocksFor(size) > BlocksFor(off) then BlocksFor(size) else BlocksFor(off)
  }

  lemma ReachedNext(size: nat, off: nat, m: nat)
    requires 0 < m && off % BSIZE + m <= BSIZE
    ensures var k := BlocksReached(size, off);
            && off / BSIZE <= k && BlocksReached(size, off + m) == (if off / BSIZE < k then k else k + 1)
            && BlocksFor(off + m) == off / BSIZE + 1 && off / BSIZE <= BlocksFor(off) <= off / BSIZE + 1
            && BlocksFor(off) <= k
  {
  }

  lemma ReachedSame(size: nat, end: nat)
    ensures BlocksFor(end) <= BlocksFor(size) ==> BlocksReached(size, end) == BlocksFor(size)
  {
  }

  /** A byte within the blocks that a file has needs no new one. */
  lemma WithinBlocks(size: nat, off: nat, end: nat)
    requires off < end
    ensures BlocksFor(end) <= BlocksFor(size) ==> off / BSIZE < BlocksReached(size, off)
  {
  }

  /** Part way through inode_write: `done` has been written at `off0`, and the inode has changed only by
      the blocks it gained, if any. */
  ghost predicate Writing(g: Geometry, s0: seq<Block>, n0: seq<Inode>, s: seq<Block>, n: seq<Inode>,
                          owner: map<nat, (nat, nat)>,
                          i: nat, off0: nat, done: seq<byte>)
  {
    && i < |n| == |n0| && Owns(g, s, n, owner) && Grown(s0, n0, s, n, i) && Spliced(s0, n0, s, n, i, off0, done)
    && |n[i].addrs| == NDIRECT + 1 && n == n0[i := n0[i].(addrs := n[i].addrs)]
    && Mapped(s, n[i], BlocksReached(n0[i].size, off0 + |done|))
    && (BlocksReached(n0[i].size, off0 + |done|) == BlocksFor(n0[i].size) ==> n == n0)
  }

  /** No sector that inode_write logs is in the log region. */
  lemma LoggedInHome(g: Geometry, logged: set<nat>, s: seq<Block>, n: seq<Inode>, owner: map<nat, (nat, nat)>, i: nat,
                     lo: nat, hi: nat)
    requires Owns(g, s, n, owner) && OnDisk(g, s, n) && i < |n| && |n[i].addrs| == NDIRECT + 1
    requires logged <= BitmapBlocks(g) + {g.InodeBlock(i)} + IndirectOf(n[i]) + Touched(s, n[i], lo, hi)
    ensures forall x :: x in logged ==> x < g.LogStart()
  {
    hide Addr, Marked, GetInode, Owns, OnDisk, BitmapBlocks, Touched;
    OwnsShape(g, s, n, owner);
    InodeBlocksFirst(g, s, n, i);
    BitmapBelowData(g, 0);
    BitmapBlocksFirst(g);
    TouchedInHome(g, s, n, owner, i, lo, hi);
  }

  lemma BitmapBlocksFirst(g: Geometry)
    requires g.Valid()
    ensures forall x :: x in BitmapBlocks(g) ==> x < g.DataStart()
  {
    forall b: nat | b < g.size ensures g.BitmapBlock(b) < g.DataStart() {
      BitmapBelowData(g, b);
    }
  }

  lemma TouchedInHome(g: Geometry, s: seq<Block>, n: seq<Inode>, owner: map<nat, (nat, nat)>, i: nat, lo: nat, hi: nat)
    requires Owns(g, s, n, owner) && i < |n|
    ensures forall x :: x in Touched(s, n[i], lo, hi) ==> x < g.LogStart()
    ensures n[i].addrs[NDIRECT] < g.LogStart()
  {
    hide Marked, GetU32;
    AddrOfIndirect(s, n[i]);
    hide Addr;
    forall p: nat | p < NSLOT ensures Addr(s, n[i], p) < g.LogStart() {
    }
  }

  lemma KeepsSame(g: Geometry, s: seq<Block>)
    ensures KeepsInodeBlocks(g, s, s)
  {
  }

  lemma KeepsTwice(g: Geometry, s0: seq<Block>, s1: seq<Block>, s2: seq<Block>)
    requires KeepsInodeBlocks(g, s0, s1) && KeepsInodeBlocks(g, s1, s2)
    ensures KeepsInodeBlocks(g, s0, s2)
  {
  }

  /** Allocation writes the bitmap and a block above it. */
  lemma AllocKeeps(g: Geometry, s: seq<Block>, b: nat)
    requires g.Valid() && |s| == g.size && g.DataStart() <= b
    ensures KeepsInodeBlocks(g, s, s) && (b < g.size ==> KeepsInodeBlocks(g, s, Allocated(g, s, b)))
  {
    hide BlockSet;
  }

  lemma OwnedAbove(g: Geometry, s: seq<Block>, n: seq<Inode>, owner: map<nat, (nat, nat)>, a: nat)
    requires Owns(g, s, n, owner) && a in owner
    ensures g.BitmapBlock(0) <= a
  {
    hide Addr, Marked;
    BitmapBelowData(g, 0);
  }

  lemma AddrAbove(g: Geometry, s: seq<Block>, n: seq<Inode>, owner: map<nat, (nat, nat)>, i: nat, p: nat)
    requires Owns(g, s, n, owner) && i < |n| && p < NSLOT && Addr(s, n[i], p) != 0
    ensures g.BitmapBlock(0) <= Addr(s, n[i], p)
  {
    hide Addr, Marked;
    OwnedAbove(g, s, n, owner, Addr(s, n[i], p));
  }

  lemma InodeBlocksFirst(g: Geometry, store: seq<Block>, table: seq<Inode>, i: nat)
    requires OnDisk(g, store, table) && i < |table|
    ensures g.InodeBlock(i) < g.BitmapBlock(0) <= |store|
  {
  }

  /** A write to an inode block shows in no mark, no address and no byte of a file. */
  lemma InodeBlockWritten(g: Geometry, s: seq<Block>, n: seq<Inode>, owner: map<nat, (nat, nat)>, b: nat, blk: Block)
    requires Owns(g, s, n, owner) && b < g.BitmapBlock(0) && b < |s|
    ensures Owns(g, s[b := blk], n, owner) && SameAddrs(s, n, s[b := blk], n) && SameBytes(s, n, s[b := blk], n)
  {
    hide GetU32, BlockBit, Marked, Addr;
    var s' := s[b := blk];
    BitmapBelowData(g, 0);
    forall x: nat | x < g.size ensures Marked(g, s', x) <==> Marked(g, s, x) {
      MarkElsewhere(g, s, b, blk, x);
    }
    forall j: nat, q: nat | j < |n| && q < NSLOT ensures Addr(s', n[j], q) == Addr(s, n[j], q) {
      AddrElsewhere(g, s, n, owner, b, blk, j, q);
    }
    OwnsUnchanged(g, s, n, owner, s', n);
    forall j: nat, pos: nat | j < |n| && pos < MAXFILE * BSIZE ensures ByteAt(s', n[j], pos) == ByteAt(s, n[j], pos) {
      assert Addr(s', n[j], SlotOf(pos / BSIZE)) == Addr(s, n[j], SlotOf(pos / BSIZE));
    }
  }

  lemma MarkElsewhere(g: Geometry, s: seq<Block>, b: nat, blk: Block, x: nat)
    requires g.Valid() && |s| == g.size && b < g.BitmapBlock(0) && b < |s| && x < g.size
    ensures Marked(g, s[b := blk], x) <==> Marked(g, s, x)
  {
    hide BlockBit;
    assert g.BitmapBlock(0) <= g.BitmapBlock(x);
  }

  lemma AddrElsewhere(g: Geometry, s: seq<Block>, n: seq<Inode>, owner: map<nat, (nat, nat)>, b: nat, blk: Block,
                      j: nat, q: nat)
    requires Owns(g, s, n, owner) && b < g.BitmapBlock(0) < g.DataStart() && b < |s| && j < |n| && q < NSLOT
    ensures Addr(s[b := blk], n[j], q) == Addr(s, n[j], q)
  {
    hide GetU32, Marked;
    if n[j].addrs[NDIRECT] != 0 {
      IndirectOwned(g, s, n, owner, j);
    }
  }

  /** Addresses are block numbers and sizes are within the limit, so the inode still fits its on-disk form. */
  lemma StillEncodable(g: Geometry, s: seq<Block>, n: seq<Inode>, owner: map<nat, (nat, nat)>, i: nat,
                       table: seq<Inode>)
    requires Owns(g, s, n, owner) && i < |n| == |table| && OnDisk(g, s, table)
    requires n[i].kind == table[i].kind && n[i].nlink == table[i].nlink && n[i].size <= MAXFILE * BSIZE
    ensures Encodable(n[i])
  {
    hide GetInode, Marked;
    assert Encodable(table[i]);
    forall q | 0 <= q <= NDIRECT ensures n[i].addrs[q] < U32 {
      assert Addr(s, n[i], q) == n[i].addrs[q];
    }
  }

  /** After inode_update everything reads as before. */
  lemma UpdateInvisible(s0: seq<Block>, n0: seq<Inode>, s: seq<Block>, s': seq<Block>, n: seq<Inode>, i: nat, off: nat,
                        src: seq<byte>)
    requires Spliced(s0, n0, s, n, i, off, src) && SameBytes(s, n, s', n) && SameAddrs(s, n, s', n) && i < |n|
    requires forall j: nat :: j < |n| ==> Sized(s, n[j])
    ensures Spliced(s0, n0, s', n, i, off, src) && (forall j: nat :: j < |n| ==> Sized(s', n[j]))
    ensures forall lo: nat, hi: nat :: Touched(s', n[i], lo, hi) == Touched(s, n[i], lo, hi)
  {
    hide Addr, ByteAt;
    forall j: nat | j < |n| ensures Sized(s', n[j]) {
      assert Sized(s, n[j]);
      MappedSame(s, s', n, j, BlocksFor(n[j].size));
    }
    forall j: nat, pos: nat | j < |n| && pos < MAXFILE * BSIZE
      ensures ByteAt(s', n[j], pos) ==
              if j == i && off <= pos < off + |src| then src[pos - off] else ByteAt(s0, n0[j], pos)
    {
      assert ByteAt(s', n[j], pos) == ByteAt(s, n[j], pos);
    }
  }

  lemma MappedSame(s: seq<Block>, s': seq<Block>, n: seq<Inode>, j: nat, k: nat)
    requires SameAddrs(s, n, s', n) && j < |n| && Mapped(s, n[j], k)
    ensures Mapped(s', n[j], k)
  {
    hide Addr;
    forall bn: nat | bn < MAXFILE ensures Addr(s', n[j], SlotOf(bn)) == Addr(s, n[j], SlotOf(bn)) {
    }
  }

  lemma TruncInvisible(s: seq<Block>, s': seq<Block>, n: seq<Inode>)
    requires SameBytes(s, n, s', n) && SameAddrs(s, n, s', n) && forall j: nat :: j < |n| ==> Sized(s, n[j])
    ensures forall j: nat :: j < |n| ==> Sized(s', n[j])
    ensures forall j: nat, pos: nat :: j < |n| && pos < MAXFILE * BSIZE ==>
              ByteAt(s', n[j], pos) == ByteAt(s, n[j], pos)
  {
    hide Addr, ByteAt;
    forall j: nat | j < |n| ensures Sized(s', n[j]) {
      assert Sized(s, n[j]);
      MappedSame(s, s', n, j, BlocksFor(n[j].size));
    }
  }

  /** What inode_write has logged once `tot` bytes from `off0` on are written. */
  ghost predicate LoggedBy(g: Geometry, l0: set<nat>, l: set<nat>, s: seq<Block>, ino: Inode, off0: nat, tot: nat) {
    && |ino.addrs| == NDIRECT + 1
    && l <= l0 + BitmapBlocks(g) + IndirectOf(ino) +
         Touched(s, ino, off0 / BSIZE, if tot == 0 then 0 else BlocksFor(off0 + tot))
  }

  lemma LoggedStart(g: Geometry, l: set<nat>, s: seq<Block>, ino: Inode, off0: nat)
    requires |ino.addrs| == NDIRECT + 1
    ensures LoggedBy(g, l, l, s, ino, off0, 0)
  {
  }

  lemma LoggedEnd(g: Geometry, l0: set<nat>, l: set<nat>, s: seq<Block>, ino: Inode, ino': Inode, off0: nat, n: nat)
    requires LoggedBy(g, l0, l, s, ino, off0, n) && ino'.addrs == ino.addrs
    ensures l <= l0 + BitmapBlocks(g) + IndirectOf(ino') + Touched(s, ino', off0 / BSIZE, BlocksFor(off0 + n))
  {
  }

  lemma LoggedStep(l0: set<nat>, l1: set<nat>, l2: set<nat>, bitmap: set<nat>, ind1: set<nat>, ind2: set<nat>,
                   addr: nat, t1: set<nat>, t2: set<nat>)
    requires l1 <= l0 + bitmap + ind1 + t1 && l2 <= l1 + bitmap + {addr} + ind2 && ind1 <= ind2 && t1 + {addr} <= t2
    ensures l2 <= l0 + bitmap + ind2 + t2
  {
  }

  lemma WritingState(g: Geometry, s0: seq<Block>, n0: seq<Inode>, s: seq<Block>, n: seq<Inode>,
                     owner: map<nat, (nat, nat)>,
                     i: nat, off0: nat, done: seq<byte>)
    requires Writing(g, s0, n0, s, n, owner, i, off0, done)
    ensures i < |n| == |n0| && Owns(g, s, n, owner) && Mapped(s, n[i], BlocksReached(n0[i].size, off0 + |done|))
    ensures |n[i].addrs| == NDIRECT + 1 && n == n0[i := n0[i].(addrs := n[i].addrs)]
    ensures BlocksReached(n0[i].size, off0 + |done|) == BlocksFor(n0[i].size) ==> n == n0
  {
  }

  lemma StartWriting(g: Geometry, s: seq<Block>, n: seq<Inode>, owner: map<nat, (nat, nat)>, i: nat, off0: nat)
    requires Owns(g, s, n, owner) && i < |n| && Mapped(s, n[i], BlocksFor(n[i].size)) && off0 <= n[i].size
    ensures Writing(g, s, n, s, n, owner, i, off0, [])
  {
  }

  lemma WritingStep(g: Geometry, s0: seq<Block>, n0: seq<Inode>, s1: seq<Block>, n1: seq<Inode>,
                    w1: map<nat, (nat, nat)>,
                    s: seq<Block>, n: seq<Inode>, owner: map<nat, (nat, nat)>, i: nat, off0: nat, src: seq<byte>,
                    tot: nat, m: nat)
    requires tot + m <= |src| && 0 < m && (off0 + tot) % BSIZE + m <= BSIZE
    requires Writing(g, s0, n0, s1, n1, w1, i, off0, src[..tot]) && |n| == |n1| && Owns(g, s, n, owner)
    requires Grown(s1, n1, s, n, i)
    requires Spliced(s1, n1, s, n, i, off0 + tot, src[tot..tot + m]) && n == n1[i := n1[i].(addrs := n[i].addrs)]
    requires var k := BlocksReached(n0[i].size, off0 + tot);
             && Mapped(s, n[i], if (off0 + tot) / BSIZE < k then k else k + 1)
             && ((off0 + tot) / BSIZE < k ==> n == n1)
    ensures Writing(g, s0, n0, s, n, owner, i, off0, src[..tot + m])
  {
    hide Owns, Addr, Mapped, ByteAt, Grown, Spliced, BlocksReached;
    ReachedNext(n0[i].size, off0 + tot, m);
    ReachedGrows(n0[i].size, off0 + tot);
    OwnsShape(g, s, n, owner);
    GrownTwice(s0, n0, s1, n1, s, n, i);
    SplicedAdjacent(s0, n0, s1, n1, s, n, i, off0, src[..tot], src[tot..tot + m]);
    assert src[..tot] + src[tot..tot + m] == src[..tot + m];
  }

  lemma ReachedGrows(size: nat, off: nat)
    ensures BlocksReached(size, off) >= BlocksFor(size)
  {
  }

  lemma SplicedAdjacent(s0: seq<Block>, n0: seq<Inode>, s1: seq<Block>, n1: seq<Inode>, s2: seq<Block>, n2: seq<Inode>,
                        i: nat, off: nat, a: seq<byte>, b: seq<byte>)
    requires Spliced(s0, n0, s1, n1, i, off, a) && Spliced(s1, n1, s2, n2, i, off + |a|, b)
    ensures Spliced(s0, n0, s2, n2, i, off, a + b)
  {
  }

  /** The blocks written so far keep their addresses, and this chunk's block joins them. */
  lemma TouchedStep(s1: seq<Block>, n1: seq<Inode>, s: seq<Block>, n: seq<Inode>, i: nat, off0: nat, tot: nat, m: nat,
                    k: nat)
    requires i < |n1| && Grown(s1, n1, s, n, i) && Mapped(s1, n1[i], k) && |n[i].addrs| == NDIRECT + 1
    requires 0 < m && (off0 + tot) % BSIZE + m <= BSIZE && off0 + tot + m <= MAXFILE * BSIZE
    requires BlocksFor(off0 + tot) <= k
    ensures Touched(s1, n1[i], off0 / BSIZE, if tot == 0 then 0 else BlocksFor(off0 + tot))
            + {Addr(s, n[i], SlotOf((off0 + tot) / BSIZE))} <= Touched(s, n[i], off0 / BSIZE, BlocksFor(off0 + tot + m))
    ensures IndirectOf(n1[i]) <= IndirectOf(n[i])
  {
    hide Addr;
    ReachedNext(0, off0 + tot, m);
    AddrOfIndirect(s1, n1[i]);
    AddrOfIndirect(s, n[i]);
    forall bn: nat | bn < BlocksFor(off0 + tot) && bn < MAXFILE
      ensures Addr(s, n[i], SlotOf(bn)) == Addr(s1, n1[i], SlotOf(bn))
    {
      assert Addr(s1, n1[i], SlotOf(bn)) != 0;
    }
  }

  /** After the last chunk: the size is set, and every file again has exactly the blocks its size needs. */
  lemma FinishWriting(g: Geometry, s0: seq<Block>, n0: seq<Inode>, s: seq<Block>, n: seq<Inode>,
                      owner: map<nat, (nat, nat)>,
                      i: nat, off0: nat, src: seq<byte>, n': seq<Inode>)
    requires Writing(g, s0, n0, s, n, owner, i, off0, src) && off0 <= n0[i].size && off0 + |src| <= MAXFILE * BSIZE
    requires forall j: nat :: j < |n0| ==> Sized(s0, n0[j])
    requires n' == n[i := n[i].(size := NewSize(n0[i].size, off0, |src|))]
    ensures Owns(g, s, n', owner) && Spliced(s0, n0, s, n', i, off0, src)
    ensures forall j: nat :: j < |n'| ==> Sized(s, n'[j])
    ensures NewSize(n0[i].size, off0, |src|) == n0[i].size ==> n' == n0
  {
    hide Owns, Addr, Grown, Spliced, Mapped, BlocksFor, SameAddrs;
    OwnsShape(g, s, n, owner);
    var size := NewSize(n0[i].size, off0, |src|);
    Resized(g, s, n, owner, i, size);
    ResizedMap(s, n[i], size);
    OwnsUnchanged(g, s, n, owner, s, n');
    SplicedAgrees(s0, n0, s, n, n', i, off0, src);
    ReachedExactly(n0[i].size, off0, |src|);
    forall j: nat | j < |n'| ensures Sized(s, n'[j]) {
      if j != i {
        OthersStayMapped(s0, n0, s, n, i, j, BlocksFor(n0[j].size));
      }
    }
  }

  lemma ReachedExactly(size: nat, off: nat, n: nat)
    requires off <= size
    ensures BlocksReached(size, off + n) == BlocksFor(NewSize(size, off, n))
  {
  }

  lemma Resized(g: Geometry, s: seq<Block>, n: seq<Inode>, owner: map<nat, (nat, nat)>, i: nat, size: nat)
    requires Owns(g, s, n, owner) && i < |n|
    ensures SameAddrs(s, n, s, n[i := n[i].(size := size)])
  {
  }

  lemma ResizedMap(s: seq<Block>, ino: Inode, size: nat)
    requires |ino.addrs| == NDIRECT + 1
    ensures forall k: nat :: Mapped(s, ino, k) ==> Mapped(s, ino.(size := size), k)
    ensures forall lo: nat, hi: nat :: Touched(s, ino.(size := size), lo, hi) == Touched(s, ino, lo, hi)
  {
  }

  /** Inodes that agree on their addresses have the same bytes. */
  lemma SplicedAgrees(s0: seq<Block>, n0: seq<Inode>, s: seq<Block>, n: seq<Inode>, n': seq<Inode>, i: nat, off: nat,
                      src: seq<byte>)
    requires Spliced(s0, n0, s, n, i, off, src) && SameAddrs(s, n, s, n')
    ensures Spliced(s0, n0, s, n', i, off, src)
  {
    hide Addr;
    forall j: nat, pos: nat | j < |n0| && pos < MAXFILE * BSIZE
      ensures ByteAt(s, n'[j], pos) ==
              if j == i && off <= pos < off + |src| then src[pos - off] else ByteAt(s0, n0[j], pos)
    {
      var q := SlotOf(pos / BSIZE);
      assert Addr(s, n'[j], q) == Addr(s, n[j], q);
      assert ByteAt(s, n'[j], pos) == ByteAt(s, n[j], pos);
    }
  }

  /** Rewriting a data block keeps the block map and the growth that preceded it. */
  lemma RewrittenKeeps(s0: seq<Block>, n0: seq<Inode>, s1: seq<Block>, n1: seq<Inode>, s2: seq<Block>, i: nat, bn: nat,
                       k: nat)
    requires Grown(s0, n0, s1, n1, i) && SameAddrs(s1, n1, s2, n1) && i < |n1| && bn < MAXFILE && Mapped(s1, n1[i], k)
    ensures Grown(s0, n0, s2, n1, i) && Mapped(s2, n1[i], k)
    ensures Addr(s2, n1[i], SlotOf(bn)) == Addr(s1, n1[i], SlotOf(bn))
  {
  }

  lemma SplicedAfterGrowth(s0: seq<Block>, n0: seq<Inode>, s1: seq<Block>, n1: seq<Inode>, s2: seq<Block>, i: nat,
                           off: nat, chunk: seq<byte>)
    requires SameBytes(s0, n0, s1, n1) && Spliced(s1, n1, s2, n1, i, off, chunk)
    ensures Spliced(s0, n0, s2, n1, i, off, chunk)
  {
  }

  /** The file is within the size limit and has exactly the blocks its size needs. */
  ghost predicate Sized(store: seq<Block>, ino: Inode) {
    |ino.addrs| == NDIRECT + 1 && ino.size <= MAXFILE * BSIZE && Mapped(store, ino, BlocksFor(ino.size))
  }

  lemma OwnedInStore(g: Geometry, store: seq<Block>, inodes: seq<Inode>, owner: map<nat, (nat, nat)>, i: nat, p: nat)
    requires Owns(g, store, inodes, owner) && i < |inodes| && p < NSLOT
    ensures Addr(store, inodes[i], p) < |store|
  {
  }

  /** A piece of a file that lies in one block. */
  lemma ContentChunk(store: seq<Block>, ino: Inode, pos: nat, m: nat)
    requires Sized(store, ino) && 0 < m && pos % BSIZE + m <= BSIZE && pos + m <= ino.size
    requires Addr(store, ino, SlotOf(pos / BSIZE)) < |store|
    ensures store[Addr(store, ino, SlotOf(pos / BSIZE))][pos % BSIZE..pos % BSIZE + m] ==
              Content(store, ino)[pos..pos + m]
  {
    hide Addr, Mapped, BlocksFor;
    var a := Addr(store, ino, SlotOf(pos / BSIZE));
    MappedHere(store, ino, pos);
    forall x: nat | pos <= x < pos + m ensures ByteAt(store, ino, x) == store[a][pos % BSIZE + x - pos] {
      assert x / BSIZE == pos / BSIZE && x % BSIZE == pos % BSIZE + x - pos;
    }
  }

  /** How much of the next block a turn of inode_read or inode_write covers. */
  function ChunkLength(pos: nat, rest: nat): (m: nat)
    requires rest > 0
    ensures 0 < m <= rest && pos % BSIZE + m <= BSIZE
  {
    if rest < BSIZE - pos % BSIZE then rest else BSIZE - pos % BSIZE
  }

  lemma WrapTest(off: nat, n: nat)
    requires off < U32 && n < U32
    ensures (off + n) % U32 < off <==> off + n >= U32
  {
  }

  lemma SliceMore(c: seq<byte>, a: nat, b: nat, d: nat)
    requires a <= b <= d <= |c|
    ensures c[a..b] + c[b..d] == c[a..d]
  {
  }

  lemma SlotIs(store: seq<Block>, ino: Inode, bn: nat)
    requires |ino.addrs| == NDIRECT + 1 && bn < MAXFILE
    ensures bn < NDIRECT ==> Addr(store, ino, SlotOf(bn)) == ino.addrs[bn]
    ensures Addr(store, ino, NDIRECT) == ino.addrs[NDIRECT]
  {
  }

  /** Making the indirect block fills no other slot. */
  lemma OtherSlot(store: seq<Block>, inodes: seq<Inode>, store': seq<Block>, inodes': seq<Inode>, i: nat, bn: nat,
                  b: nat)
    requires i < |inodes| && NDIRECT <= bn < MAXFILE && AddrsAfter(store, inodes, store', inodes', i, NDIRECT, b)
    requires inodes[i].addrs[NDIRECT] == 0
    ensures Addr(store', inodes'[i], SlotOf(bn)) == 0 && inodes'[i].addrs[NDIRECT] == b
    ensures |inodes'[i].addrs| == NDIRECT + 1
  {
    SlotIs(store', inodes'[i], bn);
    assert Addr(store', inodes'[i], NDIRECT) == b;
  }

  lemma MappedHere(store: seq<Block>, ino: Inode, pos: nat)
    requires Sized(store, ino) && pos < ino.size
    ensures pos / BSIZE < BlocksFor(ino.size) && pos / BSIZE < MAXFILE && Addr(store, ino, SlotOf(pos / BSIZE)) != 0
  {
  }

  ghost predicate NoFreeData(g: Geometry, store: seq<Block>)
    requires g.Valid() && |store| == g.size
  {
    forall b: nat :: !FreeData(g, store, b)
  }

  lemma StillNoFreeData(g: Geometry, store: seq<Block>, b: nat)
    requires g.Valid() && |store| == g.size && NoFreeData(g, store) && g.LogStart() <= b
    ensures b < g.size ==> |Allocated(g, store, b)| == g.size && NoFreeData(g, Allocated(g, store, b))
  {
    hide Marked, Mark;
    if b < g.size {
      MarkLength(g, store, b, true);
      MarkBits(g, store, b, true);
      WriteKeepsMarks(g, Mark(g, store, b, true), b, ZeroBlock());
      forall x: nat ensures !FreeData(g, Allocated(g, store, b), x) {
        assert !FreeData(g, store, x);
      }
    }
  }

  lemma MarkLength(g: Geometry, store: seq<Block>, b: nat, on: bool)
    requires g.Valid() && |store| == g.size && b < g.size
    ensures |Mark(g, store, b, on)| == g.size
  {
  }

  /** The blocks of the bitmap. */
  ghost function BitmapBlocks(g: Geometry): set<nat> {
    set b: nat | b < g.size :: g.BitmapBlock(b)
  }

  lemma InBitmap(g: Geometry, b: nat)
    requires g.Valid() && b < g.size
    ensures g.BitmapBlock(b) in BitmapBlocks(g)
  {
  }

  lemma OwnsShape(g: Geometry, store: seq<Block>, inodes: seq<Inode>, owner: map<nat, (nat, nat)>)
    requires Owns(g, store, inodes, owner)
    ensures g.Valid() && |store| == g.size && forall i :: 0 <= i < |inodes| ==> |inodes[i].addrs| == NDIRECT + 1
  {
  }

  /** The lowest unmarked block is a free data block, unless every data block is taken. */
  lemma LowestIsFree(g: Geometry, store: seq<Block>, inodes: seq<Inode>, owner: map<nat, (nat, nat)>, b: nat)
    requires Owns(g, store, inodes, owner) && b <= g.size && forall x: nat :: x < b ==> Marked(g, store, x)
    requires b < g.size ==> !Marked(g, store, b)
    ensures g.DataStart() <= b
    ensures b < g.LogStart() ==> b < g.size && FreeData(g, store, b)
    ensures b >= g.LogStart() ==> NoFreeData(g, store)
  {
  }

  lemma DirectInvisible(g: Geometry, store: seq<Block>, inodes: seq<Inode>, owner: map<nat, (nat, nat)>, i: nat, p: nat,
                        b: nat, store': seq<Block>, inodes': seq<Inode>)
    requires Owns(g, store, inodes, owner) && FreeData(g, store, b) && i < |inodes| && p <= NDIRECT
    requires inodes[i].addrs[p] == 0
    requires store' == Allocated(g, store, b) && AddrsAfter(store, inodes, store', inodes', i, p, b)
    ensures SameBytes(store, inodes, store', inodes')
  {
    hide Owns, FreeData, Marked, AddrsAfter, SameBytes, GetU32;
    AllocationInvisible(g, store, inodes, owner, b);
    OwnsShape(g, store, inodes, owner);
    LinkInvisible(g, store, inodes, owner, i, p, b, store', inodes');
  }

  lemma BitmapInStore(g: Geometry, b: nat)
    requires g.Valid() && b < g.size
    ensures g.BitmapBlock(b) < g.size
  {
  }

  /** Bit `bi` of the bitmap block for `base` is the mark of block `base + bi`. */
  lemma BitHere(g: Geometry, store: seq<Block>, base: nat, bi: nat)
    requires g.Valid() && |store| == g.size && base % BPB == 0 && bi < BPB && base + bi < g.size
    ensures g.BitmapBlock(base) < g.size && g.BitmapBlock(base + bi) == g.BitmapBlock(base)
    ensures Marked(g, store, base + bi) <==> BlockBit(store[g.BitmapBlock(base)], bi)
  {
    hide BlockBit;
    SameBitmapBlock(g, base, bi);
  }

  lemma NextBase(base: nat)
    requires base % BPB == 0
    ensures (base + BPB) % BPB == 0
  {
  }

  lemma SameBitmapBlock(g: Geometry, base: nat, bi: nat)
    requires base % BPB == 0 && bi < BPB
    ensures g.BitmapBlock(base + bi) == g.BitmapBlock(base) && (base + bi) % BPB == bi
  {
  }
}
