/** The main program of mkfs: a disk with the given files in its root directory. */
module MakeDisk {
  import opened Bytes
  import opened Bitmap
  import opened Inodes
  import opened Dinodes
  import opened Dirents
  import opened FileSystem
  import opened Directories
  import opened Mkfs
  import opened Params

  /** A file argument: its name in the directory, and its bytes. */
  datatype File = File(name: string, bytes: seq<byte>)

  /** The name under which a file is entered: without one leading underscore, and at most DIRSIZ characters of it. */
  function EntryName(arg: string): (name: string)
    ensures |name| <= DIRSIZ
    ensures if "_" <= arg then "_" + name <= arg else name <= arg
    ensures |name| == DIRSIZ || arg == name || arg == "_" + name
  {
    var rest := if arg != "" && arg[0] == '_' then arg[1..] else arg;
    if |rest| <= DIRSIZ then rest else rest[..DIRSIZ]
  }

  predicate IsText(arg: string) {
    forall k :: 0 <= k < |arg| ==> 0 < arg[k] as int < 256
  }

  /** The entries of the root once `n` files have been added. */
  function Listing(files: seq<File>, n: nat): (es: seq<Dirent>)
    requires n <= |files|
    ensures |es| == n + 2
  {
    [Dirent(ROOTINO, "."), Dirent(ROOTINO, "..")] +
      seq(n, k requires 0 <= k < n => Dirent(k + 2, EntryName(files[k].name)))
  }

  /** File `k` is inode `k + 2`, and has its bytes. */
  ghost predicate FilesThere(s: seq<Block>, t: seq<Inode>, files: seq<File>, n: nat) {
    && n <= |files| && n + 2 <= |t| && Bounded(t)
    && forall k :: 0 <= k < n ==> Content(s, t[k + 2]) == files[k].bytes
  }

  /** The root, `n` files with one link each, and free inodes. */
  ghost predicate Typed(t: seq<Inode>, n: nat) {
    && n + 2 <= |t| && t[0] == FreeInode() && t[ROOTINO].kind == T_DIR && t[ROOTINO].nlink == 1
    && (forall j :: 2 <= j < n + 2 ==> t[j].kind == T_FILE && t[j].nlink == 1)
    && forall j :: n + 2 <= j < |t| ==> t[j] == FreeInode()
  }

  /** The root lists the first `n` files, and further inodes are free. */
  ghost predicate Built(s: seq<Block>, t: seq<Inode>, files: seq<File>, n: nat) {
    && FilesThere(s, t, files, n) && t[ROOTINO].size == DIRENT * (n + 2)
    && Parse(Content(s, t[ROOTINO])) == Listing(files, n) && Typed(t, n)
  }

  /** What iappend does to the contents of the files. */
  lemma AppendedContent(s0: seq<Block>, n0: seq<Inode>, s: seq<Block>, n: seq<Inode>, i: nat, src: seq<byte>)
    requires Bounded(n0) && Bounded(n) && i < |n0| && Spliced(s0, n0, s, n, i, n0[i].size, src)
    requires n == n0[i := n0[i].(addrs := n[i].addrs, size := n0[i].size + |src|)]
    ensures Content(s, n[i]) == Content(s0, n0[i]) + src
    ensures forall j: nat :: j < |n0| && j != i ==> Content(s, n[j]) == Content(s0, n0[j])
  {
    hide Spliced, Content;
    WriteIsSplice(s0, n0, s, n, i, n0[i].size, src);
    ContentSize(s0, n0[i]);
  }

  lemma ContentSize(s: seq<Block>, ino: Inode)
    requires |ino.addrs| == NDIRECT + 1 && ino.size <= MAXFILE * BSIZE
    ensures |Content(s, ino)| == ino.size
  {
  }

  /** `iappend(rootino, &de, sizeof(de))` */
  method AddEntry(m: Maker, e: Dirent) returns (ok: bool)
    requires m.Valid() && ROOTINO < |m.table| && m.table[ROOTINO].size % DIRENT == 0 && e.inum < 0x1_0000
    requires GoodName(e.name)
    requires m.table[ROOTINO].size + DIRENT <= MAXFILE * BSIZE
    modifies m`image, m`table, m`freeblock, m`shown, m`owner
    ensures var size := old(m.table)[ROOTINO].size;
            && (ok <==> old(m.freeblock) + BlocksOf(size + DIRENT) <= m.g.LogStart() + BlocksOf(size))
            && (ok ==> m.freeblock + BlocksOf(size) == old(m.freeblock) + BlocksOf(size + DIRENT))
    ensures ok ==> m.Valid() && |m.table| == |old(m.table)| && Bounded(m.table) && Bounded(old(m.table))
    ensures ok ==> var root := old(m.table)[ROOTINO];
                   m.table == old(m.table)[ROOTINO := root.(addrs := m.table[ROOTINO].addrs,
                                           size := root.size + DIRENT)]
    ensures ok ==> Parse(Content(m.shown, m.table[ROOTINO])) ==
                   Parse(Content(old(m.shown), old(m.table)[ROOTINO])) + [e]
    ensures ok ==> forall j: nat :: j < |m.table| && j != ROOTINO ==>
              Content(m.shown, m.table[j]) == Content(old(m.shown), old(m.table)[j])
  {
    hide Shown, Owns, OnDisk, Sized, ZeroTails, Spliced, Content, Parse, Encode, Bounded, BlocksOf;
    SizedIsBounded(m.shown, m.table);
    ok := m.IAppend(ROOTINO, Encode(e));
    if ok {
      SizedIsBounded(m.shown, m.table);
      EntryAppended(old(m.shown), old(m.table), m.shown, m.table, e);
    }
  }

  lemma EntryAppended(s0: seq<Block>, n0: seq<Inode>, s: seq<Block>, n: seq<Inode>, e: Dirent)
    requires ROOTINO < |n0| && e.inum < 0x1_0000 && GoodName(e.name) && n0[ROOTINO].size % DIRENT == 0 && Bounded(n0)
    requires Bounded(n)
    requires Spliced(s0, n0, s, n, ROOTINO, n0[ROOTINO].size, Encode(e))
    requires n == n0[ROOTINO := n0[ROOTINO].(addrs := n[ROOTINO].addrs, size := n0[ROOTINO].size + DIRENT)]
    ensures Parse(Content(s, n[ROOTINO])) == Parse(Content(s0, n0[ROOTINO])) + [e]
    ensures forall j: nat :: j < |n| && j != ROOTINO ==> Content(s, n[j]) == Content(s0, n0[j])
  {
    hide Spliced, Encode, Content;
    var k := n0[ROOTINO].size / DIRENT;
    ContentSize(s0, n0[ROOTINO]);
    EntryPut(s0, n0, s, n, ROOTINO, k, e);
  }

  /** The loop that copies a file to the disk, a block at a time. */
  method AddBytes(m: Maker, inum: nat, bytes: seq<byte>) returns (ok: bool)
    requires m.Valid() && inum < |m.table| && m.table[inum].size == 0
    modifies m`image, m`table, m`freeblock, m`shown, m`owner
    ensures ok <==> |bytes| <= MAXFILE * BSIZE && old(m.freeblock) + BlocksOf(|bytes|) <= m.g.LogStart()
    ensures ok ==> m.freeblock == old(m.freeblock) + BlocksOf(|bytes|)
    ensures ok ==> m.Valid() && |m.table| == |old(m.table)| && Bounded(m.table) && Bounded(old(m.table))
    ensures ok ==> m.table == old(m.table)[inum := old(m.table)[inum].(addrs := m.table[inum].addrs, size := |bytes|)]
    ensures ok ==> Content(m.shown, m.table[inum]) == bytes
    ensures ok ==> forall j: nat :: j < |m.table| && j != inum ==>
              Content(m.shown, m.table[j]) == Content(old(m.shown), old(m.table)[j])
  {
    hide Shown, Owns, OnDisk, Sized, ZeroTails, Spliced, Content, Bounded, BlocksOf;
    NoBlocks();
    FreeInRange(m.g, m.image, m.shown, m.freeblock);
    SizedIsBounded(m.shown, m.table);
    BoundedAt(m.table);
    ContentSize(m.shown, m.table[inum]);
    var done := 0;
    while done < |bytes|
      invariant 0 <= done <= |bytes| && m.Valid() && |m.table| == |old(m.table)| && Bounded(m.table)
      invariant m.table == old(m.table)[inum := old(m.table)[inum].(addrs := m.table[inum].addrs, size := done)]
      invariant forall j: nat :: j < |m.table| ==>
                  |m.table[j].addrs| == NDIRECT + 1 && m.table[j].size <= MAXFILE * BSIZE
      invariant Content(m.shown, m.table[inum]) == bytes[..done]
      invariant m.freeblock == old(m.freeblock) + BlocksOf(done) <= m.g.LogStart()
      invariant forall j: nat :: j < |m.table| && j != inum ==>
                  Content(m.shown, m.table[j]) == Content(old(m.shown), old(m.table)[j])
    {
      var cc := if |bytes| - done < BSIZE then |bytes| - done else BSIZE;
      if m.table[inum].size + cc > MAXFILE * BSIZE {
        return false;
      }
      ghost var s0, n0 := m.shown, m.table;
      BlocksMono(done + cc, |bytes|);
      ok := m.IAppend(inum, bytes[done..done + cc]);
      if !ok {
        return;
      }
      SizedIsBounded(m.shown, m.table);
      BoundedAt(m.table);
      AppendedContent(s0, n0, m.shown, m.table, inum, bytes[done..done + cc]);
      assert bytes[..done] + bytes[done..done + cc] == bytes[..done + cc];
      done := done + cc;
    }
    assert bytes[..done] == bytes;
    ok := true;
  }

  lemma NoBlocks()
    ensures BlocksOf(0) == 0
  {
  }

  lemma BlocksMono(a: nat, b: nat)
    requires a <= b
    ensures BlocksOf(a) <= BlocksOf(b)
  {
  }

  lemma BoundedAt(n: seq<Inode>)
    requires Bounded(n)
    ensures forall j :: 0 <= j < |n| ==> |n[j].addrs| == NDIRECT + 1 && n[j].size <= MAXFILE * BSIZE
  {
  }

  /** The root directory with its first two entries. */
  method AddRoot(m: Maker) returns (ok: bool)
    requires m.Valid() && ROOTINO < |m.table| && m.freeinode == ROOTINO
    requires forall i :: 0 <= i < |m.table| ==> m.table[i] == FreeInode()
    modifies m
    ensures ok <==> old(m.freeblock) + BlocksOf(DIRENT * 2) <= m.g.LogStart()
    ensures ok ==> m.freeblock == old(m.freeblock) + BlocksOf(DIRENT * 2)
    ensures ok ==> m.Valid() && m.freeinode == 2 <= |m.table| && |m.table| == |old(m.table)|
    ensures ok ==> Built(m.shown, m.table, [], 0)
  {
    hide Shown, Owns, OnDisk, Sized, ZeroTails, SameBytes, Bounded;
    var root := m.IAlloc(T_DIR);
    RootEmpty(m.shown, m.table);
    ok := AddEntry(m, Dirent(ROOTINO, "."));
    if !ok {
      return;
    }
    ok := AddEntry(m, Dirent(ROOTINO, ".."));
  }

  lemma RootEmpty(s: seq<Block>, t: seq<Inode>)
    requires ROOTINO < |t| && t[ROOTINO].size == 0 && |t[ROOTINO].addrs| == NDIRECT + 1
    ensures Parse(Content(s, t[ROOTINO])) == []
  {
  }

  lemma TableSame(s: seq<Block>, t: seq<Inode>, s': seq<Block>, t': seq<Inode>, files: seq<File>, n: nat)
    requires Built(s, t, files, n) && SameBytes(s, t, s', t') && n + 2 < |t|
    requires t' == t[n + 2 := t[n + 2].(kind := T_FILE, nlink := 1)]
    ensures FilesThere(s', t', files, n) && t'[ROOTINO].size == DIRENT * (n + 2) && t'[n + 2].size == 0
    ensures Parse(Content(s', t'[ROOTINO])) == Listing(files, n) && Typed(t', n + 1)
  {
    hide Parse, ByteAt;
    assert Content(s', t'[ROOTINO]) == Content(s, t[ROOTINO]);
  }

  lemma GoodEntryName(arg: string)
    requires IsText(arg)
    ensures GoodName(EntryName(arg))
  {
  }

  /** The blocks of the first `n` files. */
  function FileBlocks(files: seq<File>, n: nat): nat
    requires n <= |files|
  {
    if n == 0 then 0 else FileBlocks(files, n - 1) + BlocksOf(|files[n - 1].bytes|)
  }

  /** Inodes, blocks, the root directory and the largest file are within their limits. */
  ghost predicate Fits(g: Geometry, files: seq<File>) {
    && |files| + 2 <= g.ninodes && DIRENT * (|files| + 2) <= MAXFILE * BSIZE
    && (forall k :: 0 <= k < |files| ==> |files[k].bytes| <= MAXFILE * BSIZE)
    && g.DataStart() + BlocksOf(DIRENT * (|files| + 2)) + FileBlocks(files, |files|) <= g.LogStart()
  }

  lemma {:induction false} FileBlocksMono(files: seq<File>, a: nat, b: nat)
    requires a <= b <= |files|
    ensures FileBlocks(files, a) <= FileBlocks(files, b)
  {
    if a < b {
      FileBlocksMono(files, a, b - 1);
    }
  }

  /** One more file would not fit: then neither do all of them. */
  lemma NotAll(g: Geometry, files: seq<File>, n: nat)
    requires n < |files| && Fits(g, files)
    ensures n + 3 <= g.ninodes && DIRENT * (n + 3) <= MAXFILE * BSIZE && |files[n].bytes| <= MAXFILE * BSIZE
    ensures g.DataStart() + BlocksOf(DIRENT * (n + 3)) + FileBlocks(files, n + 1) <= g.LogStart()
  {
    hide BlocksOf;
    BlocksMono(DIRENT * (n + 3), DIRENT * (|files| + 2));
    FileBlocksMono(files, n + 1, |files|);
  }

  /** There is room for file `n` on a disk that is used below `free`. */
  ghost predicate FileFits(g: Geometry, files: seq<File>, n: nat, free: nat, ninodes: nat) {
    && n < |files| && n + 3 <= ninodes && DIRENT * (n + 3) <= MAXFILE * BSIZE && |files[n].bytes| <= MAXFILE * BSIZE
    && free + BlocksOf(DIRENT * (n + 3)) + BlocksOf(|files[n].bytes|) <= g.LogStart() + BlocksOf(DIRENT * (n + 2))
  }

  /** One more file: an inode, an entry in the root, and the bytes. */
  method AddFile(m: Maker, files: seq<File>, n: nat) returns (ok: bool)
    requires m.Valid() && n < |files| && m.freeinode == n + 2 <= |m.table| && |m.table| < 0x1_0000
    requires IsText(files[n].name)
    requires Built(m.shown, m.table, files, n)
    modifies m
    ensures ok <==> FileFits(m.g, files, n, old(m.freeblock), |old(m.table)|)
    ensures ok ==> m.freeblock + BlocksOf(DIRENT * (n + 2)) ==
                   old(m.freeblock) + BlocksOf(DIRENT * (n + 3)) + BlocksOf(|files[n].bytes|)
    ensures ok ==> m.Valid() && m.freeinode == n + 3 <= |m.table| && |m.table| == |old(m.table)|
    ensures ok ==> Built(m.shown, m.table, files, n + 1)
  {
    hide Shown, Owns, OnDisk, Sized, ZeroTails, SameBytes, Built, FilesThere, Content, Parse, Listing, Bounded,
         BlocksOf, Typed;
    FreeInodes(m.shown, m.table, files, n);
    if m.freeinode >= |m.table| {
      return false;
    }
    var inum := m.IAlloc(T_FILE);
    TableSame(old(m.shown), old(m.table), m.shown, m.table, files, n);
    if m.table[ROOTINO].size + DIRENT > MAXFILE * BSIZE {
      return false;
    }
    ghost var s1, t1 := m.shown, m.table;
    GoodEntryName(files[n].name);
    ok := AddEntry(m, Dirent(inum, EntryName(files[n].name)));
    if !ok {
      return;
    }
    ghost var s2, t2 := m.shown, m.table;
    ok := AddBytes(m, inum, files[n].bytes);
    if ok {
      FileAdded(s1, t1, s2, t2, m.shown, m.table, files, n);
    }
  }

  lemma FreeInodes(s: seq<Block>, t: seq<Inode>, files: seq<File>, n: nat)
    requires Built(s, t, files, n)
    ensures n + 2 < |t| ==> t[n + 2] == FreeInode() && t[n + 2].size == 0
  {
  }

  /** The entry and the bytes of file `n`, put together. */
  lemma FileAdded(s1: seq<Block>, t1: seq<Inode>, s2: seq<Block>, t2: seq<Inode>, s3: seq<Block>, t3: seq<Inode>,
                  files: seq<File>, n: nat)
    requires n < |files| && n + 2 < |t1| == |t2| == |t3| && FilesThere(s1, t1, files, n) && Bounded(t2) && Bounded(t3)
    requires t1[ROOTINO].size == DIRENT * (n + 2) && Parse(Content(s1, t1[ROOTINO])) == Listing(files, n)
    requires Typed(t1, n + 1)
    requires t2 == t1[ROOTINO := t1[ROOTINO].(addrs := t2[ROOTINO].addrs, size := t1[ROOTINO].size + DIRENT)]
    requires Parse(Content(s2, t2[ROOTINO])) ==
               Parse(Content(s1, t1[ROOTINO])) + [Dirent(n + 2, EntryName(files[n].name))]
    requires forall j: nat :: j < |t2| && j != ROOTINO ==> Content(s2, t2[j]) == Content(s1, t1[j])
    requires t3 == t2[n + 2 := t2[n + 2].(addrs := t3[n + 2].addrs, size := |files[n].bytes|)]
    requires Content(s3, t3[n + 2]) == files[n].bytes
    requires forall j: nat :: j < |t3| && j != n + 2 ==> Content(s3, t3[j]) == Content(s2, t2[j])
    ensures Built(s3, t3, files, n + 1)
  {
    hide Content, Parse;
    assert Listing(files, n + 1) == Listing(files, n) + [Dirent(n + 2, EntryName(files[n].name))];
  }

  /** The root directory lists the files, with free entries after them, and every file has its bytes. */
  ghost predicate HoldsFiles(s: seq<Block>, t: seq<Inode>, files: seq<File>) {
    && FilesThere(s, t, files, |files|) && Typed(t, |files|) && t[ROOTINO].size % DIRENT == 0
    && exists free: nat :: Parse(Content(s, t[ROOTINO])) == Listing(files, |files|) + FreeSlots(free)
  }

  /** The entries of the root fill whole blocks. */
  predicate FillsBlocks(files: seq<File>) {
    DIRENT * (|files| + 2) % BSIZE == 0
  }

  /** The root and all files, on an empty image. */
  method AddAll(m: Maker, files: seq<File>) returns (ok: bool)
    requires m.Valid() && |m.table| == m.g.ninodes && 2 <= m.g.ninodes < 0x1_0000
    requires m.freeblock == m.g.DataStart() && m.freeinode == ROOTINO
    requires forall i :: 0 <= i < |m.table| ==> m.table[i] == FreeInode()
    requires forall k :: 0 <= k < |files| ==> IsText(files[k].name)
    modifies m
    ensures ok <==> Fits(m.g, files)
    ensures ok ==> m.Valid() && |m.table| == m.g.ninodes && Built(m.shown, m.table, files, |files|)
  {
    hide Shown, Owns, OnDisk, Sized, ZeroTails, SameBytes, Built, FilesThere, Listing, BlocksOf, Fits, Used, FileFits;
    RootFits(m.g, files);
    ok := AddRoot(m);
    if !ok {
      return;
    }
    NoFilesYet(m.shown, m.table, files);
    NoneUsed(m.g, files, m.freeblock);
    var n := 0;
    while n < |files|
      invariant 0 <= n <= |files| && m.Valid() && |m.table| == m.g.ninodes && m.freeinode == n + 2 <= |m.table|
      invariant Built(m.shown, m.table, files, n) && Used(m.g, files, n, m.freeblock)
    {
      NextFits(m.g, files, n, m.freeblock);
      ghost var free := m.freeblock;
      ok := AddFile(m, files, n);
      if !ok {
        return;
      }
      NextUsed(m.g, files, n, free, m.freeblock);
      n := n + 1;
    }
    AllFit(m.g, files, m.freeblock);
    ok := true;
  }

  /** The root and the first `n` files are in the blocks below `free`. */
  ghost predicate Used(g: Geometry, files: seq<File>, n: nat, free: nat) {
    && n <= |files| && DIRENT * (n + 2) <= MAXFILE * BSIZE
    && (forall k :: 0 <= k < n ==> |files[k].bytes| <= MAXFILE * BSIZE)
    && free == g.DataStart() + BlocksOf(DIRENT * (n + 2)) + FileBlocks(files, n) && free <= g.LogStart()
  }

  lemma NoneUsed(g: Geometry, files: seq<File>, free: nat)
    requires free == g.DataStart() + BlocksOf(DIRENT * 2) && free <= g.LogStart()
    ensures Used(g, files, 0, free)
  {
    hide BlocksOf;
  }

  lemma NextFits(g: Geometry, files: seq<File>, n: nat, free: nat)
    requires Used(g, files, n, free) && n < |files|
    ensures Fits(g, files) ==> FileFits(g, files, n, free, g.ninodes)
  {
    hide BlocksOf;
    if Fits(g, files) {
      NotAll(g, files, n);
    }
  }

  lemma NextUsed(g: Geometry, files: seq<File>, n: nat, free: nat, free': nat)
    requires Used(g, files, n, free) && n < |files| && FileFits(g, files, n, free, g.ninodes)
    requires free' + BlocksOf(DIRENT * (n + 2)) == free + BlocksOf(DIRENT * (n + 3)) + BlocksOf(|files[n].bytes|)
    ensures Used(g, files, n + 1, free')
  {
    hide BlocksOf;
  }

  lemma RootFits(g: Geometry, files: seq<File>)
    ensures Fits(g, files) ==> g.DataStart() + BlocksOf(DIRENT * 2) <= g.LogStart()
  {
    hide BlocksOf;
    BlocksMono(DIRENT * 2, DIRENT * (|files| + 2));
  }

  lemma AllFit(g: Geometry, files: seq<File>, free: nat)
    requires Used(g, files, |files|, free) && |files| + 2 <= g.ninodes
    ensures Fits(g, files)
  {
    hide BlocksOf;
  }

  /** mkfs. The result is a disk that the kernel can use exactly if the entries of the root do not fill whole blocks,
      and then it holds the given files. Not `ok`: they do not fit, which mkfs notices by an assertion at best. */
  method Make(g: Geometry, super: Block, files: seq<File>) returns (m: Maker, ok: bool)
    requires g.Valid() && g.size <= BPB && 2 <= g.ninodes && forall k :: 0 <= k < |files| ==> IsText(files[k].name)
    ensures fresh(m) && (ok <==> Fits(g, files))
    ensures ok ==> m.g == g && |m.image| == g.size && (Mountable(g, m.image, m.owner) <==> !FillsBlocks(files))
    ensures ok && !FillsBlocks(files) ==> HoldsFiles(m.image, DiskTable(g, m.image), files)
  {
    hide Shown, Owns, OnDisk, Sized, ZeroTails, SameBytes, Built, Mountable, HoldsFiles, DiskTable, Fits;
    FewInodes(g);
    m := new Maker(g, super);
    ok := AddAll(m, files);
    if ok {
      Finish(m, files);
    }
  }

  /** The root's size is rewritten. */
  method FixSize(m: Maker, ghost files: seq<File>)
    requires m.Valid() && Built(m.shown, m.table, files, |files|)
    modifies m`image, m`shown, m`table
    ensures Shown(m.g, m.image, m.shown, m.freeblock) && Owns(m.g, m.shown, m.table, m.owner)
    ensures OnDisk(m.g, m.shown, m.table) && SameBytes(old(m.shown), old(m.table), m.shown, m.table)
    ensures ROOTINO < |old(m.table)|
    ensures m.table == old(m.table)[ROOTINO := old(m.table)[ROOTINO].(size := Rounded(old(m.table)[ROOTINO].size))]
    ensures AllSized(m.shown, m.table) <==> !FillsBlocks(files)
    ensures !FillsBlocks(files) ==> PaddedRoot(old(m.shown), old(m.table)[ROOTINO], m.shown, m.table[ROOTINO])
  {
    hide Shown, Owns, OnDisk, Sized, ZeroTails, SameBytes, Built, PaddedRoot, Rounded;
    RootSize(m.shown, m.table, files);
    m.FixRoot(ROOTINO);
  }

  ghost predicate AllSized(s: seq<Block>, t: seq<Inode>) {
    forall j: nat :: j < |t| ==> Sized(s, t[j])
  }

  /** The last two steps: the root's size and the bitmap. */
  method Finish(m: Maker, ghost files: seq<File>)
    requires m.Valid() && |m.table| == m.g.ninodes && Built(m.shown, m.table, files, |files|)
    modifies m`image, m`shown, m`table
    ensures |m.image| == m.g.size && m.g.Valid() && (Mountable(m.g, m.image, m.owner) <==> !FillsBlocks(files))
    ensures !FillsBlocks(files) ==> HoldsFiles(m.image, DiskTable(m.g, m.image), files)
  {
    hide Shown, Owns, OnDisk, Sized, ZeroTails, SameBytes, SameAddrs, Built, Mountable, HoldsFiles, PaddedRoot, Rounded,
         Marked, DiskTable, AllSized, FillsBlocks;
    OwnsShape(m.g, m.shown, m.table, m.owner);
    FixSize(m, files);
    ghost var s2 := m.shown;
    m.Balloc();
    FreeInRange(m.g, m.image, m.shown, m.freeblock);
    TableIs(m.g, m.image, m.table);
    Finished(m.g, old(m.shown), old(m.table), s2, m.table, m.image, m.owner, files);
  }

  lemma FewInodes(g: Geometry)
    requires g.Valid() && g.size <= BPB
    ensures g.ninodes < 0x1_0000
  {
  }

  lemma NoFilesYet(s: seq<Block>, t: seq<Inode>, files: seq<File>)
    requires Built(s, t, [], 0)
    ensures Built(s, t, files, 0)
  {
    hide Content, Parse;
  }

  lemma RootSize(s: seq<Block>, t: seq<Inode>, files: seq<File>)
    requires Built(s, t, files, |files|)
    ensures ROOTINO < |t| && t[ROOTINO].size == DIRENT * (|files| + 2)
  {
  }

  /** From what was shown to what is on the disk. */
  lemma Finished(g: Geometry, s1: seq<Block>, t1: seq<Inode>, s2: seq<Block>, t2: seq<Inode>, image: seq<Block>,
                 owner: map<nat, (nat, nat)>, files: seq<File>)
    requires g.Valid() && |image| == g.size && DiskTable(g, image) == t2 && OnDisk(g, image, t2)
    requires Owns(g, image, t2, owner)
    requires Built(s1, t1, files, |files|) && ROOTINO < |t1| && SameBytes(s1, t1, s2, t2)
    requires SameBytes(s2, t2, image, t2)
    requires t2 == t1[ROOTINO := t1[ROOTINO].(size := Rounded(t1[ROOTINO].size))] && SameAddrs(s2, t2, image, t2)
    requires AllSized(s2, t2) <==> !FillsBlocks(files)
    requires !FillsBlocks(files) ==> PaddedRoot(s1, t1[ROOTINO], s2, t2[ROOTINO])
    ensures Mountable(g, image, owner) <==> !FillsBlocks(files)
    ensures !FillsBlocks(files) ==> HoldsFiles(image, t2, files)
  {
    hide Owns, SameAddrs, Sized, Built, HoldsFiles, PaddedRoot, SameBytes, GetInode;
    forall j: nat | j < |t2| ensures Sized(image, t2[j]) <==> Sized(s2, t2[j]) {
      SizedSame(s2, image, t2, j);
    }
    if !FillsBlocks(files) {
      SizedIsBounded(s2, t2);
      FilesKept(s1, t1, s2, t2, image, files);
    }
  }

  lemma FilesKept(s1: seq<Block>, t1: seq<Inode>, s2: seq<Block>, t2: seq<Inode>, image: seq<Block>, files: seq<File>)
    requires Built(s1, t1, files, |files|) && SameBytes(s1, t1, s2, t2) && SameBytes(s2, t2, image, t2) && Bounded(t2)
    requires t2 == t1[ROOTINO := t1[ROOTINO].(size := Rounded(t1[ROOTINO].size))]
    requires PaddedRoot(s1, t1[ROOTINO], s2, t2[ROOTINO])
    ensures HoldsFiles(image, t2, files)
  {
    hide Parse, Listing, ByteAt, Rounded;
    WholeEntries(t1[ROOTINO].size);
    forall j: nat | j < |t2| ensures Content(image, t2[j]) == Content(s2, t2[j]) {
      SameContents(s2, t2, image, t2, j);
    }
    forall j: nat | j < |t2| && j != ROOTINO ensures Content(s2, t2[j]) == Content(s1, t1[j]) {
      SameContents(s1, t1, s2, t2, j);
    }
  }

  lemma WholeEntries(size: nat)
    ensures Rounded(size) % DIRENT == 0
  {
  }

  lemma SameContents(s: seq<Block>, t: seq<Inode>, s': seq<Block>, t': seq<Inode>, j: nat)
    requires SameBytes(s, t, s', t') && j < |t| && t'[j].size == t[j].size <= MAXFILE * BSIZE
    ensures Content(s', t'[j]) == Content(s, t[j])
  {
  }
}
