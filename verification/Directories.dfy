/** dir.c on the file layer: entries are looked up and written through inode_read and inode_write. */
module Directories {
  import opened Bytes
  import opened Bitmap
  import opened Inodes
  import opened Dinodes
  import opened Dirents
  import opened FileSystem
  import opened Journal
  import opened Sequences

  /** The entries of directory `dp`. */
  ghost function Entries(fs: FileSys, dp: nat): (es: seq<Dirent>)
    requires fs.Valid() && dp < |fs.inodes|
    reads fs
  {
    Parse(Content(fs.store, fs.inodes[dp]))
  }

  /** One inode_read of dir_lookup and dir_link: entry `k`. */
  method ReadEntry(fs: FileSys, dp: nat, k: nat) returns (b: seq<byte>)
    requires fs.Valid() && dp < |fs.inodes| && DIRENT * k + DIRENT <= fs.inodes[dp].size
    modifies fs`store, fs`inodes, fs`owner, fs`logged, fs`journal
    ensures unchanged(fs)
    ensures |b| == DIRENT && k < |Entries(fs, dp)| && Entries(fs, dp)[k] == Decode(b)
  {
    hide Owns, OnDisk, Mapped, Decode;
    SizedBound(fs.store, fs.inodes[dp]);
    var r;
    r, b := fs.InodeRead(dp, DIRENT * k, DIRENT);
  }

  /** dir_lookup: the index of an entry with the name, or -1. */
  method DirLookup(fs: FileSys, dp: nat, name: seq<byte>) returns (k: int)
    requires fs.Valid() && dp < |fs.inodes| && fs.inodes[dp].size % DIRENT == 0 && |name| == DIRSIZ
    modifies fs`store, fs`inodes, fs`owner, fs`logged, fs`journal
    ensures unchanged(fs) && (k == -1 <==> !HasName(Entries(fs, dp), FieldName(name)))
    ensures k != -1 ==> 0 <= k < |Entries(fs, dp)| && Entries(fs, dp)[k].inum != 0
    ensures k != -1 ==> Entries(fs, dp)[k].name == FieldName(name)
  {
    hide Owns, OnDisk, Mapped, Sized, Replay, Sectors, Content, Parse, FieldName;
    k := 0;
    while DIRENT * k < fs.inodes[dp].size
      invariant unchanged(fs) && 0 <= k <= |Entries(fs, dp)| && DIRENT * k <= fs.inodes[dp].size
      invariant forall j :: 0 <= j < k ==> Entries(fs, dp)[j].inum == 0 || Entries(fs, dp)[j].name != FieldName(name)
    {
      var de := ReadEntry(fs, dp, k);
      if GetU16(de, 0) != 0 {
        var c := StrNCmp(de[2..], name, DIRSIZ);
        assert de[2..][..DIRSIZ] == de[2..] && name[..DIRSIZ] == name;
        if c == 0 {
          return;
        }
      }
      k := k + 1;
    }
    return -1;
  }

  /** The second loop of dir_link: the first free entry, or the end. */
  method FreeEntry(fs: FileSys, dp: nat) returns (k: nat)
    requires fs.Valid() && dp < |fs.inodes| && fs.inodes[dp].size % DIRENT == 0
    modifies fs`store, fs`inodes, fs`owner, fs`logged, fs`journal
    ensures unchanged(fs) && IsSlot(Entries(fs, dp), k) && DIRENT * k <= fs.inodes[dp].size
  {
    hide Owns, OnDisk, Mapped, Sized, Replay, Sectors, Content, Parse, FieldName;
    k := 0;
    while DIRENT * k < fs.inodes[dp].size
      invariant unchanged(fs) && 0 <= k <= |Entries(fs, dp)| && DIRENT * k <= fs.inodes[dp].size
      invariant forall j :: 0 <= j < k ==> Entries(fs, dp)[j].inum != 0
    {
      var de := ReadEntry(fs, dp, k);
      if GetU16(de, 0) == 0 {
        return;
      }
      k := k + 1;
    }
  }

  ghost predicate Bounded(n: seq<Inode>) {
    forall j :: 0 <= j < |n| ==> |n[j].addrs| == NDIRECT + 1 && n[j].size <= MAXFILE * BSIZE
  }

  lemma SizedIsBounded(s: seq<Block>, n: seq<Inode>)
    requires forall j: nat :: j < |n| ==> Sized(s, n[j])
    ensures Bounded(n)
  {
    hide Mapped;
    forall j | 0 <= j < |n| ensures |n[j].addrs| == NDIRECT + 1 && n[j].size <= MAXFILE * BSIZE {
      assert Sized(s, n[j]);
    }
  }

  /** inode_write of one encoded entry puts it among the entries, and leaves other files alone. */
  lemma EntryPut(s0: seq<Block>, n0: seq<Inode>, s: seq<Block>, n: seq<Inode>, dp: nat, k: nat, e: Dirent)
    requires dp < |n0| == |n| && e.inum < 0x1_0000 && GoodName(e.name) && DIRENT * k <= n0[dp].size
    requires n0[dp].size % DIRENT == 0
    requires Bounded(n0) && Bounded(n)
    requires Spliced(s0, n0, s, n, dp, DIRENT * k, Encode(e))
    requires n == n0[dp := n0[dp].(addrs := n[dp].addrs, size := NewSize(n0[dp].size, DIRENT * k, DIRENT))]
    ensures k <= |Parse(Content(s0, n0[dp]))| && Parse(Content(s, n[dp])) == Put(Parse(Content(s0, n0[dp])), k, e)
    ensures n[dp].size % DIRENT == 0
    ensures forall j: nat :: j < |n| && j != dp ==> Content(s, n[j]) == Content(s0, n0[j])
  {
    hide Spliced, Mapped, Encode, Parse;
    WriteIsSplice(s0, n0, s, n, dp, DIRENT * k, Encode(e));
    ParseWrite(Content(s0, n0[dp]), k, e, Content(s, n[dp]));
  }

  /** No entry is free, the next one starts a new block, and either the directory cannot grow or there is no block. */
  ghost predicate NoRoom(entries: seq<Dirent>, g: Geometry, s: seq<Block>) {
    && (forall j :: 0 <= j < |entries| ==> entries[j].inum != 0) && DIRENT * |entries| % BSIZE == 0
    && (DIRENT * |entries| >= MAXFILE * BSIZE || (g.Valid() && |s| == g.size && NoFreeData(g, s)))
  }

  /** Where an entry can be put without a new block. */
  lemma EntryFits(s: seq<Block>, ino: Inode, k: nat)
    requires Sized(s, ino) && ino.size % DIRENT == 0 && IsSlot(Parse(Content(s, ino)), k)
    ensures var es := Parse(Content(s, ino));
            && DIRENT * |es| == ino.size && DIRENT * k <= ino.size <= MAXFILE * BSIZE
            && (k < |es| || ino.size % BSIZE != 0 ==>
                 BlocksFor(DIRENT * k + DIRENT) <= BlocksFor(ino.size) && DIRENT * k + DIRENT <= MAXFILE * BSIZE)
            && (k == |es| ==> forall j :: 0 <= j < |es| ==> es[j].inum != 0)
  {
    hide Mapped;
  }

  /** What an operation on inodes `a` and `b` adds to the log: bitmap blocks, their inode blocks, and `w`. */
  ghost predicate Logs(g: Geometry, l0: set<nat>, l: set<nat>, a: nat, b: nat, w: set<nat>) {
    l <= l0 + BitmapBlocks(g) + {g.InodeBlock(a), g.InodeBlock(b)} + w && forall x :: x in w ==> x < g.LogStart()
  }

  /** One more operation, on any of the same inodes. */
  lemma LogsMore(g: Geometry, l0: set<nat>, l1: set<nat>, l2: set<nat>, a: nat, b: nat, c: nat, d: nat,
                 w1: set<nat>, w2: set<nat>)
    requires Logs(g, l0, l1, a, b, w1) && Logs(g, l1, l2, c, d, w2) && c in {a, b} && d in {a, b}
    ensures Logs(g, l0, l2, a, b, w1 + w2)
  {
    hide BitmapBlocks;
  }

  lemma LogsAgain(g: Geometry, l0: set<nat>, l1: set<nat>, l2: set<nat>, a: nat, b: nat, c: nat, w: set<nat>)
    requires Logs(g, l0, l1, a, b, w) && Logs(g, l1, l2, c, c, {}) && c in {a, b}
    ensures Logs(g, l0, l2, a, b, w)
  {
    hide BitmapBlocks;
  }

  lemma LogsInode(g: Geometry, l0: set<nat>, l: set<nat>, i: nat)
    requires l == l0 || l == l0 + {g.InodeBlock(i)}
    ensures Logs(g, l0, l, i, i, {})
  {
    hide BitmapBlocks;
  }

  lemma LogsFirst(g: Geometry, l: set<nat>, a: nat, b: nat)
    ensures Logs(g, l, l, a, b, {})
  {
    hide BitmapBlocks;
  }

  /** On a disk with one bitmap block such an operation fits in a transaction. */
  lemma LogIsSmall(g: Geometry, s: seq<Block>, n: seq<Inode>, owner: map<nat, (nat, nat)>, l: set<nat>, a: nat, b: nat,
                   w: set<nat>)
    requires Owns(g, s, n, owner) && OnDisk(g, s, n) && a < |n| && b < |n| && Logs(g, {}, l, a, b, w) && |w| <= 3
    ensures forall x :: x in l ==> x < g.LogStart()
    ensures g.size <= BPB ==> |l| <= 6
  {
    hide Owns, OnDisk, BitmapBlocks;
    OwnsShape(g, s, n, owner);
    InodeBlocksFirst(g, s, n, a);
    InodeBlocksFirst(g, s, n, b);
    BitmapBelowData(g, 0);
    BitmapBlocksFirst(g);
    if g.size <= BPB {
      OneBitmapBlock(g);
      var most := {g.BitmapBlock(0), g.InodeBlock(a), g.InodeBlock(b)} + w;
      SubsetSize(l, most);
      SumSize({g.BitmapBlock(0), g.InodeBlock(a), g.InodeBlock(b)}, w);
    }
  }

  lemma OneBitmapBlock(g: Geometry)
    requires g.Valid() && g.size <= BPB
    ensures BitmapBlocks(g) <= {g.BitmapBlock(0)}
  {
  }

  lemma SumSize(a: set<nat>, b: set<nat>)
    ensures |a + b| <= |a| + |b|
  {
    assert a + b == a + (b - a);
  }

  /** The sectors of directory `ino` that hold the bytes of entry `k` and lead to them. */
  ghost function EntrySectors(s: seq<Block>, ino: Inode, k: nat): (w: set<nat>)
    requires |ino.addrs| == NDIRECT + 1 && DIRENT * k < MAXFILE * BSIZE
    ensures |w| <= 2
  {
    IndirectOf(ino) + {Addr(s, ino, SlotOf(DIRENT * k / BSIZE))}
  }

  lemma EntryLogged(g: Geometry, s: seq<Block>, n: seq<Inode>, owner: map<nat, (nat, nat)>, dp: nat, k: nat,
                    l0: set<nat>, l: set<nat>)
    requires Owns(g, s, n, owner) && OnDisk(g, s, n) && dp < |n| && |n[dp].addrs| == NDIRECT + 1
    requires DIRENT * k < MAXFILE * BSIZE
    requires l <= l0 + BitmapBlocks(g) + {g.InodeBlock(dp)} + IndirectOf(n[dp])
                  + Touched(s, n[dp], DIRENT * k / BSIZE, BlocksFor(DIRENT * k + DIRENT))
    ensures Logs(g, l0, l, dp, dp, EntrySectors(s, n[dp], k))
  {
    hide Owns, OnDisk, BitmapBlocks, IndirectOf, Addr;
    var lo := DIRENT * k / BSIZE;
    assert BlocksFor(DIRENT * k + DIRENT) == lo + 1;
    assert Touched(s, n[dp], lo, lo + 1) == {Addr(s, n[dp], SlotOf(lo))};
    LoggedInHome(g, EntrySectors(s, n[dp], k), s, n, owner, dp, lo, lo + 1);
  }

  /** A directory of one block has no indirect block. */
  lemma OneBlock(s: seq<Block>, ino: Inode, k: nat)
    requires Sized(s, ino) && DIRENT * k < ino.size
    ensures ino.size <= BSIZE ==> EntrySectors(s, ino, k) == {ino.addrs[0]}
  {
    assert ino.size <= BSIZE ==> BlocksFor(ino.size) <= 1 && DIRENT * k / BSIZE == 0;
  }

  /** A directory that stays within one block has one sector written, the same one every time. */
  ghost predicate OneSector(was: Inode, now: Inode, w: set<nat>) {
    && |was.addrs| == |now.addrs| == NDIRECT + 1
    && (now.size <= BSIZE ==> w == {now.addrs[0]} && (was.size > 0 ==> now.addrs[0] == was.addrs[0]))
  }

  /** Entry `k` or the entry after the last is written. Not `ok`: it is past the largest file, or there is no block. */
  method WriteEntry(fs: FileSys, dp: nat, k: nat, e: Dirent) returns (ok: bool, ghost w: set<nat>)
    requires fs.Valid() && dp < |fs.inodes| && fs.inodes[dp].size % DIRENT == 0 && DIRENT * k <= fs.inodes[dp].size
    requires e.inum < 0x1_0000 && GoodName(e.name)
    modifies fs
    ensures fs.base == old(fs.base)
    ensures !ok ==> || DIRENT * k + DIRENT > MAXFILE * BSIZE
                    || (fs.g.Valid() && |fs.store| == fs.g.size && NoFreeData(fs.g, fs.store))
    ensures var end := DIRENT * k + DIRENT;
            end <= MAXFILE * BSIZE && BlocksFor(end) <= BlocksFor(old(fs.inodes)[dp].size) ==> ok
    ensures ok ==> fs.Valid() && |fs.inodes| == |old(fs.inodes)| && fs.inodes[dp].size % DIRENT == 0
    ensures ok ==> k <= |old(Entries(fs, dp))| && Entries(fs, dp) == Put(old(Entries(fs, dp)), k, e)
    ensures ok ==>
              fs.inodes == old(fs.inodes)[dp := old(fs.inodes)[dp].(addrs := fs.inodes[dp].addrs,
                size := fs.inodes[dp].size)]
    ensures ok ==> forall j: nat :: j < |fs.inodes| && j != dp ==>
              Content(fs.store, fs.inodes[j]) == old(Content(fs.store, fs.inodes[j]))
    ensures ok ==> |w| <= 2 && Logs(fs.g, old(fs.logged), fs.logged, dp, dp, w)
    ensures ok ==> OneSector(old(fs.inodes)[dp], fs.inodes[dp], w)
  {
    hide Owns, OnDisk, Mapped, Sized, Replay, Sectors, Content, Parse, Spliced, NoFreeData, Encode, BlocksFor, Touched,
         IndirectOf, BitmapBlocks, EntrySectors, Logs, OneSector, Put;
    SizedIsBounded(fs.store, fs.inodes);
    OwnsShape(fs.g, fs.store, fs.inodes, fs.owner);
    w := {};
    var len;
    len, ok := fs.InodeWrite(dp, Encode(e), DIRENT * k);
    ok := ok && len == DIRENT;
    if ok {
      SizedIsBounded(fs.store, fs.inodes);
      EntryPut(old(fs.store), old(fs.inodes), fs.store, fs.inodes, dp, k, e);
      w := EntrySectors(fs.store, fs.inodes[dp], k);
      EntryLogged(fs.g, fs.store, fs.inodes, fs.owner, dp, k, old(fs.logged), fs.logged);
      StaysOne(fs.store, old(fs.inodes)[dp], fs.inodes[dp], k);
    }
  }

  lemma StaysOne(s: seq<Block>, was: Inode, now: Inode, k: nat)
    requires Sized(s, now) && |was.addrs| == NDIRECT + 1 && now.size == NewSize(was.size, DIRENT * k, DIRENT)
    requires BlocksFor(DIRENT * k + DIRENT) <= BlocksFor(was.size) ==> now.addrs == was.addrs
    ensures OneSector(was, now, EntrySectors(s, now, k))
  {
    hide Mapped, EntrySectors;
    OneBlock(s, now, k);
  }

  /** dir_link: a new name is entered in the first free entry; an existing one is refused. Not `ok` stands for the
      panic when the entry cannot be written. */
  method DirLink(fs: FileSys, dp: nat, name: seq<byte>, inum: nat)
    returns (r: int, ok: bool, ghost k: nat, ghost w: set<nat>)
    requires fs.Valid() && dp < |fs.inodes| && fs.inodes[dp].size % DIRENT == 0 && |name| == DIRSIZ
    requires 0 < inum < 0x1_0000
    modifies fs
    ensures r == -1 <==> old(HasName(Entries(fs, dp), FieldName(name)))
    ensures r == -1 ==> ok && unchanged(fs)
    ensures fs.base == old(fs.base)
    ensures !ok ==> NoRoom(old(Entries(fs, dp)), fs.g, fs.store)
    ensures ok && r != -1 ==> fs.Valid() && |fs.inodes| == |old(fs.inodes)| && fs.inodes[dp].size % DIRENT == 0
    ensures ok && r != -1 ==> old(IsSlot(Entries(fs, dp), k))
    ensures ok && r != -1 ==> Entries(fs, dp) == Put(old(Entries(fs, dp)), k, Dirent(inum, FieldName(name)))
    ensures ok && r != -1 ==>
              fs.inodes == old(fs.inodes)[dp := old(fs.inodes)[dp].(addrs := fs.inodes[dp].addrs,
                size := fs.inodes[dp].size)]
    ensures ok && r != -1 ==> forall j: nat :: j < |fs.inodes| && j != dp ==>
              Content(fs.store, fs.inodes[j]) == old(Content(fs.store, fs.inodes[j]))
    ensures ok && r != -1 ==> |w| <= 2 && Logs(fs.g, old(fs.logged), fs.logged, dp, dp, w)
    ensures ok && r != -1 ==> OneSector(old(fs.inodes)[dp], fs.inodes[dp], w)
  {
    hide Owns, OnDisk, Mapped, Sized, Replay, Sectors, Content, Parse, FieldName, NoFreeData, Put, Logs, OneSector,
         HasName, BlocksFor;
    var found := DirLookup(fs, dp, name);
    if found != -1 {
      return -1, true, 0, {};
    }
    var slot := FreeEntry(fs, dp);
    r, k := 0, slot;
    EntryFits(fs.store, fs.inodes[dp], slot);
    ok, w := WriteEntry(fs, dp, slot, Dirent(inum, FieldName(name)));
  }
}
