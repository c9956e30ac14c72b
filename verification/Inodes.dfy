/** Inode contents as bytes, who owns which block, and what each change to a block does to both. */
module Inodes {
  import opened Bytes
  import opened Bitmap

  const NDIRECT: nat := 12
  const NINDIRECT: nat := BSIZE / 4
  const MAXFILE: nat := NDIRECT + NINDIRECT
  /** Address slots of an inode: the direct ones, the indirect block, and the entries of that block. */
  const NSLOT: nat := NDIRECT + 1 + NINDIRECT

  datatype Inode = Inode(kind: nat, nlink: int, size: nat, addrs: seq<nat>)

  /** The slot that holds the address of file block `bn`. */
  function SlotOf(bn: nat): (p: nat)
    ensures bn < MAXFILE ==> p < NSLOT && p != NDIRECT
  {
    if bn < NDIRECT then bn else bn + 1
  }

  /** The block number in slot `p`, 0 if there is none. */
  ghost function Addr(store: seq<Block>, ino: Inode, p: nat): nat
    requires |ino.addrs| == NDIRECT + 1 && p < NSLOT
  {
    if p <= NDIRECT then ino.addrs[p]
    else if 0 < ino.addrs[NDIRECT] < |store| then GetU32(store[ino.addrs[NDIRECT]], 4 * (p - NDIRECT - 1))
    else 0
  }

  /** Byte `pos` of the file; a block the file does not have reads as zeros. */
  ghost function ByteAt(store: seq<Block>, ino: Inode, pos: nat): byte
    requires |ino.addrs| == NDIRECT + 1 && pos < MAXFILE * BSIZE
  {
    var a := Addr(store, ino, SlotOf(pos / BSIZE));
    if 0 < a < |store| then store[a][pos % BSIZE] else 0
  }

  ghost function Content(store: seq<Block>, ino: Inode): (c: seq<byte>)
    requires |ino.addrs| == NDIRECT + 1 && ino.size <= MAXFILE * BSIZE
    ensures |c| == ino.size
  {
    seq(ino.size, pos requires 0 <= pos < ino.size => ByteAt(store, ino, pos))
  }

  /** Every address names a data block that no other slot of any inode names, and the marked blocks are
      exactly the reserved prefix and the named blocks. `owner` maps each named block to its slot. */
  ghost predicate Owns(g: Geometry, store: seq<Block>, inodes: seq<Inode>, owner: map<nat, (nat, nat)>) {
    && g.Valid() && |store| == g.size
    && (forall i :: 0 <= i < |inodes| ==> |inodes[i].addrs| == NDIRECT + 1)
    && (forall i: nat, p: nat :: i < |inodes| && p < NSLOT && Addr(store, inodes[i], p) != 0 ==>
          Addr(store, inodes[i], p) in owner && owner[Addr(store, inodes[i], p)] == (i, p))
    && (forall a :: a in owner ==>
          && 0 < g.DataStart() <= a < g.LogStart() && a < g.size && owner[a].0 < |inodes| && owner[a].1 < NSLOT
          && Addr(store, inodes[owner[a].0], owner[a].1) == a)
    && (forall b: nat :: b < g.size ==> (Marked(g, store, b) <==> b < g.DataStart() || b in owner))
  }

  /** The same addresses everywhere, except `b` in slot `p` of inode `i`. */
  ghost predicate AddrsAfter(store: seq<Block>, inodes: seq<Inode>, store': seq<Block>, inodes': seq<Inode>, i: nat,
                             p: nat, b: nat) {
    && |inodes'| == |inodes|
    && (forall j :: 0 <= j < |inodes| ==> |inodes[j].addrs| == |inodes'[j].addrs| == NDIRECT + 1)
    && forall j: nat, q: nat :: j < |inodes| && q < NSLOT ==>
         Addr(store', inodes'[j], q) == if (j, q) == (i, p) then b else Addr(store, inodes[j], q)
  }

  ghost predicate SameBytes(store: seq<Block>, inodes: seq<Inode>, store': seq<Block>, inodes': seq<Inode>) {
    && |inodes'| == |inodes|
    && (forall j :: 0 <= j < |inodes| ==> |inodes[j].addrs| == |inodes'[j].addrs| == NDIRECT + 1)
    && forall j: nat, pos: nat :: j < |inodes| && pos < MAXFILE * BSIZE ==>
         ByteAt(store', inodes'[j], pos) == ByteAt(store, inodes[j], pos)
  }

  /** The store after block_alloc hands out `b`: marked and zeroed. */
  ghost function Allocated(g: Geometry, store: seq<Block>, b: nat): (r: seq<Block>)
    requires g.Valid() && |store| == g.size && b < g.size
  {
    Mark(g, store, b, true)[b := ZeroBlock()]
  }

  ghost predicate FreeData(g: Geometry, store: seq<Block>, b: nat)
    requires g.Valid() && |store| == g.size
  {
    0 < g.DataStart() <= b < g.LogStart() && b < g.size && !Marked(g, store, b)
  }

  /** Allocating a block changes no address and no byte of any file. */
  lemma AllocationInvisible(g: Geometry, store: seq<Block>, inodes: seq<Inode>, owner: map<nat, (nat, nat)>, b: nat)
    requires Owns(g, store, inodes, owner) && FreeData(g, store, b)
    ensures var s := Allocated(g, store, b);
            && |s| == |store| && s[b] == ZeroBlock() && b !in owner
            && (forall a :: a in owner ==> s[a] == store[a])
            && (forall x: nat :: x < g.size ==> (Marked(g, s, x) <==> x == b || Marked(g, store, x)))
            && (forall j: nat, q: nat :: j < |inodes| && q < NSLOT ==>
                 Addr(s, inodes[j], q) == Addr(store, inodes[j], q))
  {
    hide GetU32, BlockBit, BlockSet, Marked, Geometry.DataStart, Geometry.LogStart, Geometry.BitmapBlock;
    BitmapBelowData(g, b);
    var m := Mark(g, store, b, true);
    MarkBits(g, store, b, true);
    WriteKeepsMarks(g, m, b, ZeroBlock());
    var s := Allocated(g, store, b);
    forall j: nat, q: nat | j < |inodes| && q < NSLOT ensures Addr(s, inodes[j], q) == Addr(store, inodes[j], q) {
      assert Addr(store, inodes[j], NDIRECT) == inodes[j].addrs[NDIRECT];
    }
  }

  /** Storing `b` in a slot that was empty. */
  lemma OwnsAfter(g: Geometry, store: seq<Block>, inodes: seq<Inode>, owner: map<nat, (nat, nat)>, i: nat, p: nat,
                  b: nat, store': seq<Block>, inodes': seq<Inode>)
    requires Owns(g, store, inodes, owner) && FreeData(g, store, b) && i < |inodes| && p < NSLOT && |store'| == |store|
    requires AddrsAfter(store, inodes, store', inodes', i, p, b) && Addr(store, inodes[i], p) == 0
    requires forall x: nat :: x < g.size ==> (Marked(g, store', x) <==> x == b || Marked(g, store, x))
    ensures Owns(g, store', inodes', owner[b := (i, p)])
  {
  }

  lemma ZeroEntries()
    ensures forall k: nat :: k < NINDIRECT ==> GetU32(ZeroBlock(), 4 * k) == 0
  {
  }

  /** bmap's `ip->addrs[p] = block_alloc()`. */
  lemma DirectLinked(g: Geometry, store: seq<Block>, inodes: seq<Inode>, owner: map<nat, (nat, nat)>, i: nat, p: nat,
                     b: nat)
    requires Owns(g, store, inodes, owner) && FreeData(g, store, b)
    requires i < |inodes| && p <= NDIRECT && inodes[i].addrs[p] == 0
    ensures var s, ns := Allocated(g, store, b), inodes[i := inodes[i].(addrs := inodes[i].addrs[p := b])];
            && AddrsAfter(store, inodes, s, ns, i, p, b)
            && Owns(g, s, ns, owner[b := (i, p)])
  {
    hide GetU32, Marked, Mark, Allocated;
    AllocationInvisible(g, store, inodes, owner, b);
    ZeroEntries();
    var s, ns := Allocated(g, store, b), inodes[i := inodes[i].(addrs := inodes[i].addrs[p := b])];
    forall j: nat, q: nat | j < |inodes| && q < NSLOT
      ensures Addr(s, ns[j], q) == if (j, q) == (i, p) then b else Addr(store, inodes[j], q)
    {
      assert Addr(s, inodes[j], q) == Addr(store, inodes[j], q);
    }
    OwnsAfter(g, store, inodes, owner, i, p, b, s, ns);
  }

  /** Blocks that hold file data, as opposed to an indirect block, and their contents. */
  ghost predicate SameData(store: seq<Block>, owner: map<nat, (nat, nat)>, store': seq<Block>) {
    |store'| == |store| && forall a :: a in owner && owner[a].1 != NDIRECT && a < |store| ==> store'[a] == store[a]
  }

  /** Filling an empty slot with a zeroed block, or with an indirect block, changes no byte of any file. */
  lemma LinkInvisible(g: Geometry, store: seq<Block>, inodes: seq<Inode>, owner: map<nat, (nat, nat)>, i: nat, p: nat,
                      b: nat, store': seq<Block>, inodes': seq<Inode>)
    requires Owns(g, store, inodes, owner) && FreeData(g, store, b) && i < |inodes| && p < NSLOT
    requires AddrsAfter(store, inodes, store', inodes', i, p, b) && Addr(store, inodes[i], p) == 0
    requires SameData(store, owner, store') && store'[b] == ZeroBlock()
    ensures SameBytes(store, inodes, store', inodes')
  {
    hide Addr, Marked, Geometry.DataStart, Geometry.LogStart, SlotOf;
    forall j: nat, pos: nat | j < |inodes| && pos < MAXFILE * BSIZE
      ensures ByteAt(store', inodes'[j], pos) == ByteAt(store, inodes[j], pos)
    {
      var q := SlotOf(pos / BSIZE);
      assert Addr(store', inodes'[j], q) == if (j, q) == (i, p) then b else Addr(store, inodes[j], q);
    }
  }

  /** bmap's `a[k] = block_alloc()` in the indirect block. */
  lemma EntryLinked(g: Geometry, store: seq<Block>, inodes: seq<Inode>, owner: map<nat, (nat, nat)>, i: nat, k: nat,
                    b: nat)
    requires Owns(g, store, inodes, owner) && FreeData(g, store, b) && b < U32
    requires i < |inodes| && k < NINDIRECT && inodes[i].addrs[NDIRECT] != 0
    requires Addr(store, inodes[i], NDIRECT + 1 + k) == 0
    ensures var ind := inodes[i].addrs[NDIRECT];
            var s := Allocated(g, store, b);
            && ind < |s| && ind in owner && owner[ind] == (i, NDIRECT)
            && var s' := s[ind := PutU32(s[ind], 4 * k, b)];
               && AddrsAfter(store, inodes, s', inodes, i, NDIRECT + 1 + k, b)
               && Owns(g, s', inodes, owner[b := (i, NDIRECT + 1 + k)])
               && SameData(store, owner, s') && s'[b] == ZeroBlock()
  {
    hide GetU32, PutU32, Marked, Mark, Allocated, Addr, Geometry.DataStart, Geometry.LogStart;
    AllocationInvisible(g, store, inodes, owner, b);
    var ind := inodes[i].addrs[NDIRECT];
    IndirectOwned(g, store, inodes, owner, i);
    var s := Allocated(g, store, b);
    var s' := s[ind := PutU32(s[ind], 4 * k, b)];
    WriteKeepsMarks(g, s, ind, s'[ind]);
    forall j: nat, q: nat | j < |inodes| && q < NSLOT
      ensures Addr(s', inodes[j], q) == if (j, q) == (i, NDIRECT + 1 + k) then b else Addr(store, inodes[j], q)
    {
      if j != i && inodes[j].addrs[NDIRECT] != 0 {
        IndirectOwned(g, store, inodes, owner, j);
      }
      EntryAddr(s, inodes, i, k, b, s', j, q);
    }
    OwnsAfter(g, store, inodes, owner, i, NDIRECT + 1 + k, b, s', inodes);
  }

  lemma IndirectOwned(g: Geometry, store: seq<Block>, inodes: seq<Inode>, owner: map<nat, (nat, nat)>, i: nat)
    requires Owns(g, store, inodes, owner) && i < |inodes| && inodes[i].addrs[NDIRECT] != 0
    ensures var ind := inodes[i].addrs[NDIRECT]; ind < |store| && ind in owner && owner[ind] == (i, NDIRECT)
  {
    hide GetU32, Marked;
    assert Addr(store, inodes[i], NDIRECT) == inodes[i].addrs[NDIRECT];
  }

  /** The addresses after one store into an indirect block that no other inode has. */
  lemma EntryAddr(s: seq<Block>, inodes: seq<Inode>, i: nat, k: nat, b: nat, s': seq<Block>, j: nat, q: nat)
    requires i < |inodes| && j < |inodes| && |inodes[i].addrs| == |inodes[j].addrs| == NDIRECT + 1 && q < NSLOT
    requires k < NINDIRECT && b < U32
    requires 0 < inodes[i].addrs[NDIRECT] < |s| && (j != i ==> inodes[j].addrs[NDIRECT] != inodes[i].addrs[NDIRECT])
    requires var ind := inodes[i].addrs[NDIRECT]; s' == s[ind := PutU32(s[ind], 4 * k, b)]
    ensures Addr(s', inodes[j], q) == if (j, q) == (i, NDIRECT + 1 + k) then b else Addr(s, inodes[j], q)
  {
    hide GetU32, PutU32;
    PutThenGet(s[inodes[i].addrs[NDIRECT]], 4 * k, b);
  }

  /** Bytes `off..` of inode `i` become `src`; every other byte of every file is as before. */
  ghost predicate Spliced(store: seq<Block>, inodes: seq<Inode>, store': seq<Block>, inodes': seq<Inode>, i: nat,
                          off: nat, src: seq<byte>) {
    && |inodes'| == |inodes|
    && (forall j :: 0 <= j < |inodes| ==> |inodes[j].addrs| == |inodes'[j].addrs| == NDIRECT + 1)
    && forall j: nat, pos: nat :: j < |inodes| && pos < MAXFILE * BSIZE ==>
         ByteAt(store', inodes'[j], pos) ==
         if j == i && off <= pos < off + |src| then src[pos - off] else ByteAt(store, inodes[j], pos)
  }

  function SpliceBlock(blk: Block, o: nat, chunk: seq<byte>): (r: Block)
    requires o + |chunk| <= BSIZE
    ensures forall k :: 0 <= k < BSIZE ==> r[k] == if o <= k < o + |chunk| then chunk[k - o] else blk[k]
  {
    blk[..o] + chunk + blk[o + |chunk|..]
  }

  ghost predicate SameAddrs(store: seq<Block>, inodes: seq<Inode>, store': seq<Block>, inodes': seq<Inode>) {
    && |inodes'| == |inodes|
    && (forall j :: 0 <= j < |inodes| ==> |inodes[j].addrs| == |inodes'[j].addrs| == NDIRECT + 1)
    && forall j: nat, q: nat :: j < |inodes| && q < NSLOT ==> Addr(store', inodes'[j], q) == Addr(store, inodes[j], q)
  }

  /** Writing part of a data block of inode `i` changes those bytes of that file and nothing else. */
  lemma DataWritten(g: Geometry, store: seq<Block>, inodes: seq<Inode>, owner: map<nat, (nat, nat)>, i: nat, off: nat,
                    chunk: seq<byte>)
    requires Owns(g, store, inodes, owner) && i < |inodes|
    requires off < MAXFILE * BSIZE && off % BSIZE + |chunk| <= BSIZE
    requires Addr(store, inodes[i], SlotOf(off / BSIZE)) != 0
    ensures var a := Addr(store, inodes[i], SlotOf(off / BSIZE));
            && a < |store|
            && var s := store[a := SpliceBlock(store[a], off % BSIZE, chunk)];
               Owns(g, s, inodes, owner) && SameAddrs(store, inodes, s, inodes) &&
                 Spliced(store, inodes, s, inodes, i, off, chunk)
  {
    hide GetU32, Marked, Geometry.DataStart, Geometry.LogStart, SpliceBlock, Spliced;
    var a := Addr(store, inodes[i], SlotOf(off / BSIZE));
    var s := store[a := SpliceBlock(store[a], off % BSIZE, chunk)];
    WriteKeepsMarks(g, store, a, s[a]);
    forall j: nat, q: nat | j < |inodes| && q < NSLOT ensures Addr(s, inodes[j], q) == Addr(store, inodes[j], q) {
      assert Addr(store, inodes[j], NDIRECT) == inodes[j].addrs[NDIRECT];
    }
    OwnsUnchanged(g, store, inodes, owner, s, inodes);
    BytesSpliced(g, store, inodes, owner, i, off, chunk, s);
  }

  lemma OwnsUnchanged(g: Geometry, store: seq<Block>, inodes: seq<Inode>, owner: map<nat, (nat, nat)>, s: seq<Block>,
                      n: seq<Inode>)
    requires Owns(g, store, inodes, owner) && |s| == |store| && SameAddrs(store, inodes, s, n)
    requires forall x: nat :: x < g.size ==> (Marked(g, s, x) <==> Marked(g, store, x))
    ensures Owns(g, s, n, owner)
  {
  }

  lemma BytesSpliced(g: Geometry, store: seq<Block>, inodes: seq<Inode>, owner: map<nat, (nat, nat)>, i: nat, off: nat,
                     chunk: seq<byte>, s: seq<Block>)
    requires Owns(g, store, inodes, owner) && i < |inodes| && |s| == |store| && SameAddrs(store, inodes, s, inodes)
    requires off < MAXFILE * BSIZE && off % BSIZE + |chunk| <= BSIZE
    requires var a := Addr(store, inodes[i], SlotOf(off / BSIZE));
             0 < a < |store| && s == store[a := SpliceBlock(store[a], off % BSIZE, chunk)]
    ensures Spliced(store, inodes, s, inodes, i, off, chunk)
  {
    hide Addr, Marked, Geometry.DataStart, Geometry.LogStart;
    var a := Addr(store, inodes[i], SlotOf(off / BSIZE));
    forall j: nat, pos: nat | j < |inodes| && pos < MAXFILE * BSIZE
      ensures ByteAt(s, inodes[j], pos) ==
              if j == i && off <= pos < off + |chunk| then chunk[pos - off] else ByteAt(store, inodes[j], pos)
    {
      var q := SlotOf(pos / BSIZE);
      assert Addr(s, inodes[j], q) == Addr(store, inodes[j], q);
      if Addr(store, inodes[j], q) == a {
        assert (j, q) == (i, SlotOf(off / BSIZE));
        assert pos / BSIZE == off / BSIZE;
      }
    }
  }

  /** The file has exactly its first `k` blocks, and an indirect block just when it needs one. */
  ghost predicate Mapped(store: seq<Block>, ino: Inode, k: nat) {
    && |ino.addrs| == NDIRECT + 1
    && (forall bn: nat :: bn < MAXFILE ==> (Addr(store, ino, SlotOf(bn)) != 0 <==> bn < k))
    && (ino.addrs[NDIRECT] != 0 <==> k > NDIRECT)
  }

  /** The number of blocks a file of `size` bytes needs. */
  function BlocksFor(size: nat): nat {
    (size + BSIZE - 1) / BSIZE
  }

  /** Only empty slots of inode `i` may have been filled. */
  ghost predicate Grown(store: seq<Block>, inodes: seq<Inode>, store': seq<Block>, inodes': seq<Inode>, i: nat) {
    && |inodes'| == |inodes|
    && (forall j :: 0 <= j < |inodes| ==> |inodes[j].addrs| == |inodes'[j].addrs| == NDIRECT + 1)
    && forall j: nat, q: nat :: j < |inodes| && q < NSLOT && (j != i || Addr(store, inodes[j], q) != 0) ==>
         Addr(store', inodes'[j], q) == Addr(store, inodes[j], q)
  }

  /** Block `bn` of inode `i` has address `b` now, and what else has changed is at most that its indirect block was made
      on the way. */
  ghost predicate Filled(store: seq<Block>, inodes: seq<Inode>, store': seq<Block>, inodes': seq<Inode>, i: nat,
                         bn: nat, b: nat) {
    && |inodes'| == |inodes| && i < |inodes| && bn < MAXFILE && b != 0
    && (forall j :: 0 <= j < |inodes| ==> |inodes[j].addrs| == |inodes'[j].addrs| == NDIRECT + 1)
    && (forall j: nat, q: nat :: j < |inodes| && q < NSLOT && !(j == i && (q == SlotOf(bn) || q == NDIRECT)) ==>
          Addr(store', inodes'[j], q) == Addr(store, inodes[j], q))
    && Addr(store', inodes'[i], SlotOf(bn)) == b && Addr(store, inodes[i], SlotOf(bn)) in {0, b}
    && (if bn < NDIRECT || inodes[i].addrs[NDIRECT] != 0 then inodes'[i].addrs[NDIRECT] == inodes[i].addrs[NDIRECT]
        else inodes'[i].addrs[NDIRECT] != 0)
  }

  lemma FilledAlready(store: seq<Block>, inodes: seq<Inode>, i: nat, bn: nat)
    requires i < |inodes| && bn < MAXFILE && forall j :: 0 <= j < |inodes| ==> |inodes[j].addrs| == NDIRECT + 1
    requires Addr(store, inodes[i], SlotOf(bn)) != 0
    ensures Filled(store, inodes, store, inodes, i, bn, Addr(store, inodes[i], SlotOf(bn)))
  {
    hide Addr;
    HasIndirect(store, inodes[i], bn);
  }

  /** A block beyond the direct ones has an indirect block. */
  lemma HasIndirect(store: seq<Block>, ino: Inode, bn: nat)
    requires |ino.addrs| == NDIRECT + 1 && bn < MAXFILE && Addr(store, ino, SlotOf(bn)) != 0
    ensures bn >= NDIRECT ==> ino.addrs[NDIRECT] != 0
  {
  }

  /** One slot was filled. */
  lemma FilledHere(store: seq<Block>, inodes: seq<Inode>, store': seq<Block>, inodes': seq<Inode>, i: nat, bn: nat,
                   b: nat)
    requires i < |inodes| && bn < MAXFILE && b != 0 && AddrsAfter(store, inodes, store', inodes', i, SlotOf(bn), b)
    requires Addr(store, inodes[i], SlotOf(bn)) == 0 && (bn < NDIRECT || inodes[i].addrs[NDIRECT] != 0)
    ensures Filled(store, inodes, store', inodes', i, bn, b) && Grown(store, inodes, store', inodes', i)
  {
    hide Addr;
    AddrOfIndirect(store', inodes'[i]);
    AddrOfIndirect(store, inodes[i]);
  }

  /** The indirect block was made, and then the slot filled. */
  lemma FilledBoth(s0: seq<Block>, n0: seq<Inode>, s1: seq<Block>, n1: seq<Inode>, s2: seq<Block>, n2: seq<Inode>,
                   i: nat, bn: nat, ind: nat, b: nat)
    requires i < |n0| && NDIRECT <= bn < MAXFILE && ind != 0 && AddrsAfter(s0, n0, s1, n1, i, NDIRECT, ind)
    requires Addr(s0, n0[i], NDIRECT) == 0 && Filled(s1, n1, s2, n2, i, bn, b) && Addr(s1, n1[i], SlotOf(bn)) == 0
    ensures Filled(s0, n0, s2, n2, i, bn, b)
  {
    hide Addr;
    AddrOfIndirect(s0, n0[i]);
    AddrOfIndirect(s1, n1[i]);
    assert Addr(s1, n1[i], SlotOf(bn)) == Addr(s0, n0[i], SlotOf(bn));
  }

  lemma GrownByIndirect(store: seq<Block>, inodes: seq<Inode>, store': seq<Block>, inodes': seq<Inode>, i: nat, b: nat)
    requires i < |inodes| && AddrsAfter(store, inodes, store', inodes', i, NDIRECT, b)
    requires Addr(store, inodes[i], NDIRECT) == 0
    ensures Grown(store, inodes, store', inodes', i)
  {
    hide Addr;
  }

  /** A file whose blocks are the first `k`, with the next one filled, or one that it has. */
  lemma MappedAfter(store: seq<Block>, inodes: seq<Inode>, store': seq<Block>, inodes': seq<Inode>, i: nat, bn: nat,
                    b: nat, k: nat)
    requires Filled(store, inodes, store', inodes', i, bn, b) && Mapped(store, inodes[i], k) && bn <= k
    ensures Mapped(store', inodes'[i], if bn < k then k else k + 1)
  {
    hide Addr;
    forall x: nat | x < MAXFILE ensures Addr(store', inodes'[i], SlotOf(x)) != 0 <==> x < if bn < k then k else k + 1 {
      if x != bn {
        assert SlotOf(x) != SlotOf(bn) && SlotOf(x) != NDIRECT;
      }
    }
  }

  /** Growing one inode leaves the other inodes' blocks mapped as they were. */
  lemma OthersStayMapped(store: seq<Block>, inodes: seq<Inode>, store': seq<Block>, inodes': seq<Inode>, i: nat, j: nat,
                         k: nat)
    requires Grown(store, inodes, store', inodes', i) && j < |inodes| && j != i && Mapped(store, inodes[j], k)
    ensures Mapped(store', inodes'[j], k)
  {
    hide Addr;
    assert Addr(store', inodes'[j], NDIRECT) == Addr(store, inodes[j], NDIRECT);
    AddrOfIndirect(store', inodes'[j]);
    AddrOfIndirect(store, inodes[j]);
    forall bn: nat | bn < MAXFILE ensures Addr(store', inodes'[j], SlotOf(bn)) != 0 <==> bn < k {
      assert Addr(store', inodes'[j], SlotOf(bn)) == Addr(store, inodes[j], SlotOf(bn));
    }
  }

  lemma AddrOfIndirect(store: seq<Block>, ino: Inode)
    requires |ino.addrs| == NDIRECT + 1
    ensures Addr(store, ino, NDIRECT) == ino.addrs[NDIRECT]
  {
  }

  /** The file has exactly its first `k` blocks, and the indirect block that block `k` would need. */
  ghost predicate ReadyToGrow(store: seq<Block>, ino: Inode, k: nat) {
    && |ino.addrs| == NDIRECT + 1
    && (forall bn: nat :: bn < MAXFILE ==> (Addr(store, ino, SlotOf(bn)) != 0 <==> bn < k))
    && (ino.addrs[NDIRECT] != 0 <==> k >= NDIRECT)
  }

  /** Filling the slot of block `k`. */
  lemma BlockLinked(store: seq<Block>, inodes: seq<Inode>, store': seq<Block>, inodes': seq<Inode>, i: nat, k: nat,
                    b: nat)
    requires i < |inodes| && k < MAXFILE && b != 0 && ReadyToGrow(store, inodes[i], k)
    requires AddrsAfter(store, inodes, store', inodes', i, SlotOf(k), b)
    ensures Mapped(store', inodes'[i], k + 1) && Grown(store, inodes, store', inodes', i)
    ensures Addr(store', inodes'[i], SlotOf(k)) == b
  {
    hide Addr;
    AddrOfIndirect(store', inodes'[i]);
    AddrOfIndirect(store, inodes[i]);
    assert Addr(store, inodes[i], SlotOf(k)) == 0;
    forall bn: nat | bn < MAXFILE ensures Addr(store', inodes'[i], SlotOf(bn)) != 0 <==> bn < k + 1 {
      assert Addr(store', inodes'[i], SlotOf(bn)) == if bn == k then b else Addr(store, inodes[i], SlotOf(bn));
    }
  }

  /** Filling the indirect slot of a file whose direct slots are full. */
  lemma IndirectLinked(store: seq<Block>, inodes: seq<Inode>, store': seq<Block>, inodes': seq<Inode>, i: nat, b: nat)
    requires i < |inodes| && b != 0 && Mapped(store, inodes[i], NDIRECT)
    requires AddrsAfter(store, inodes, store', inodes', i, NDIRECT, b)
    ensures ReadyToGrow(store', inodes'[i], NDIRECT) && Grown(store, inodes, store', inodes', i)
    ensures Addr(store', inodes'[i], SlotOf(NDIRECT)) == 0
  {
  }

  /** What a mapped file says about the slot of block `bn`. */
  lemma MappedSlot(store: seq<Block>, ino: Inode, k: nat, bn: nat)
    requires Mapped(store, ino, k) && bn <= k && bn < MAXFILE
    ensures Addr(store, ino, SlotOf(bn)) != 0 <==> bn < k
    ensures bn < NDIRECT ==> Addr(store, ino, SlotOf(bn)) == ino.addrs[bn]
    ensures bn >= NDIRECT ==> (ino.addrs[NDIRECT] == 0 <==> k == NDIRECT)
    ensures k != NDIRECT || bn < NDIRECT ==> bn < k || ReadyToGrow(store, ino, k)
  {
  }

  lemma GrownTwice(s0: seq<Block>, n0: seq<Inode>, s1: seq<Block>, n1: seq<Inode>, s2: seq<Block>, n2: seq<Inode>,
                   i: nat)
    requires Grown(s0, n0, s1, n1, i) && Grown(s1, n1, s2, n2, i)
    ensures Grown(s0, n0, s2, n2, i)
  {
  }

  lemma Unchanged(store: seq<Block>, inodes: seq<Inode>, i: nat)
    requires forall j :: 0 <= j < |inodes| ==> |inodes[j].addrs| == NDIRECT + 1
    ensures SameBytes(store, inodes, store, inodes) && Grown(store, inodes, store, inodes, i)
  {
  }

  lemma SameBytesTwice(s0: seq<Block>, n0: seq<Inode>, s1: seq<Block>, n1: seq<Inode>, s2: seq<Block>, n2: seq<Inode>)
    requires SameBytes(s0, n0, s1, n1) && SameBytes(s1, n1, s2, n2)
    ensures SameBytes(s0, n0, s2, n2)
  {
  }

  /** The indirect entry for block `bn`, where bmap finds it. */
  lemma EntryIsAddr(g: Geometry, store: seq<Block>, inodes: seq<Inode>, owner: map<nat, (nat, nat)>, i: nat, bn: nat)
    requires Owns(g, store, inodes, owner) && i < |inodes| && NDIRECT <= bn < MAXFILE && inodes[i].addrs[NDIRECT] != 0
    ensures inodes[i].addrs[NDIRECT] < |store|
    ensures GetU32(store[inodes[i].addrs[NDIRECT]], 4 * (bn - NDIRECT)) == Addr(store, inodes[i], SlotOf(bn))
  {
    hide GetU32, Marked;
    AddrOfIndirect(store, inodes[i]);
  }
}
