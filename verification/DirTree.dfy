/** create, link and unlink of sysfile.c on the bytes of the file system: what they do to the inodes and to the entries
    in the directories' contents is what they do to the tree of `Links`. */
module DirTree {
  import opened Bytes
  import opened Bitmap
  import opened Inodes
  import opened Dinodes
  import opened Dirents
  import opened FileSystem
  import opened Directories
  import opened Journal
  import opened Mkfs
  import opened Params
  import L = Links

  function KindOf(kind: nat): L.Kind {
    if kind == 0 then L.Free else if kind == T_DIR then L.Dir else L.File
  }

  /** Inodes as the tree sees them: with entries if they are directories. */
  ghost function NodeOf(s: seq<Block>, ino: Inode): L.Node
    requires |ino.addrs| == NDIRECT + 1 && ino.size <= MAXFILE * BSIZE && ino.nlink >= 0
  {
    L.Node(KindOf(ino.kind), ino.nlink, if ino.kind == T_DIR then Parse(Content(s, ino)) else [])
  }

  ghost function Nodes(s: seq<Block>, n: seq<Inode>): (r: seq<L.Node>)
    requires Tidy(n)
    ensures |r| == |n|
  {
    seq(|n|, i requires 0 <= i < |n| => NodeOf(s, n[i]))
  }

  /** A free inode is blank, and a directory is a whole number of entries. */
  ghost predicate Tidy(n: seq<Inode>) {
    forall i :: 0 <= i < |n| ==> TidyInode(n[i])
  }

  predicate TidyInode(ino: Inode) {
    && |ino.addrs| == NDIRECT + 1 && ino.size <= MAXFILE * BSIZE && 0 <= ino.nlink < 0x8000 && ino.kind < 0x8000
    && (ino.kind == 0 ==> ino == FreeInode()) && (ino.kind == T_DIR ==> ino.size % DIRENT == 0)
  }

  /** One inode is changed, and the other inodes and their contents are not. */
  lemma NodeChanged(s: seq<Block>, n: seq<Inode>, s': seq<Block>, n': seq<Inode>, i: nat)
    requires Tidy(n) && i < |n| == |n'| && n' == n[i := n'[i]] && TidyInode(n'[i])
    requires forall j: nat :: j < |n| && j != i ==> TidyInode(n[j]) && Content(s', n[j]) == Content(s, n[j])
    ensures Tidy(n') && Nodes(s', n') == Nodes(s, n)[i := NodeOf(s', n'[i])]
  {
    hide Content, Parse;
    forall j | 0 <= j < |n'| ensures TidyInode(n'[j]) {
      assert TidyInode(n[j]);
    }
    NodesAt(s, n);
    NodesAt(s', n');
    var a, b := Nodes(s', n'), Nodes(s, n)[i := NodeOf(s', n'[i])];
    forall j | 0 <= j < |n| ensures a[j] == b[j] {
      assert n'[j] == if j == i then n'[i] else n[j];
    }
  }

  lemma NodesAt(s: seq<Block>, n: seq<Inode>)
    requires Tidy(n)
    ensures forall j :: 0 <= j < |n| ==> TidyInode(n[j]) && Nodes(s, n)[j] == NodeOf(s, n[j])
  {
    hide Content, Parse;
  }

  /** The inodes other than those in `but` keep their kind, their size and every byte of their contents. */
  ghost predicate Kept(s: seq<Block>, n: seq<Inode>, s': seq<Block>, n': seq<Inode>, but: set<nat>) {
    && Tidy(n) && Tidy(n') && |n'| == |n|
    && forall j: nat :: j < |n| && j !in but ==> KeepsFile(s, n[j], s', n'[j])
  }

  ghost predicate KeepsFile(s: seq<Block>, ino: Inode, s': seq<Block>, ino': Inode) {
    && TidyInode(ino) && TidyInode(ino') && ino'.kind == ino.kind && ino'.size == ino.size
    && Content(s', ino') == Content(s, ino)
  }

  lemma KeptBut(s: seq<Block>, n: seq<Inode>, s': seq<Block>, n': seq<Inode>, i: nat)
    requires Tidy(n) && i < |n| == |n'| && n' == n[i := n'[i]] && TidyInode(n'[i])
    requires forall j: nat :: j < |n| && j != i ==> TidyInode(n[j]) && Content(s', n[j]) == Content(s, n[j])
    ensures Kept(s, n, s', n', {i})
  {
    hide Content;
  }

  lemma KeptThen(s: seq<Block>, n: seq<Inode>, s1: seq<Block>, n1: seq<Inode>, s2: seq<Block>, n2: seq<Inode>,
                 a: set<nat>, b: set<nat>)
    requires Kept(s, n, s1, n1, a) && Kept(s1, n1, s2, n2, b)
    ensures Kept(s, n, s2, n2, a + b)
  {
    hide Content;
    forall j: nat | j < |n| && j !in a + b ensures KeepsFile(s, n[j], s2, n2[j]) {
      assert KeepsFile(s, n[j], s1, n1[j]) && KeepsFile(s1, n1[j], s2, n2[j]);
    }
  }

  /** What one change spared in general, and of one of the rest. */
  lemma KeptAlso(s: seq<Block>, n: seq<Inode>, s': seq<Block>, n': seq<Inode>, i: nat)
    requires Kept(s, n, s', n', {i}) && i < |n| && KeepsFile(s, n[i], s', n'[i])
    ensures Kept(s, n, s', n', {})
  {
    hide Content;
  }

  lemma KeptKind(s: seq<Block>, n: seq<Inode>, s': seq<Block>, n': seq<Inode>, but: set<nat>, i: nat)
    requires Kept(s, n, s', n', but) && i < |n| && i !in but
    ensures n'[i].kind == n[i].kind
  {
    hide Content;
    assert KeepsFile(s, n[i], s', n'[i]);
  }

  /** `ip->type`, `ip->nlink` and inode_update. */
  method SetInode(fs: FileSys, i: nat, kind: nat, nlink: nat)
    requires fs.Valid() && i < |fs.inodes| && Tidy(fs.inodes) && kind < 0x8000 && nlink < 0x8000
    requires kind == 0 ==> nlink == 0 && fs.inodes[i].size == 0 && fs.inodes[i].addrs == FreeInode().addrs
    requires kind == T_DIR ==> fs.inodes[i].size % DIRENT == 0
    modifies fs
    ensures fs.Valid() && Tidy(fs.inodes)
    ensures fs.inodes == old(fs.inodes)[i := old(fs.inodes)[i].(kind := kind, nlink := nlink)]
    ensures Nodes(fs.store, fs.inodes) == Nodes(old(fs.store), old(fs.inodes))[i := NodeOf(fs.store, fs.inodes[i])]
    ensures SameBytes(old(fs.store), old(fs.inodes), fs.store, fs.inodes)
    ensures Kept(old(fs.store), old(fs.inodes), fs.store, fs.inodes, {i})
    ensures kind == old(fs.inodes)[i].kind ==> Kept(old(fs.store), old(fs.inodes), fs.store, fs.inodes, {})
    ensures fs.base == old(fs.base) && fs.logged == old(fs.logged) + {fs.g.InodeBlock(i)}
  {
    hide Owns, OnDisk, Sized, SameAddrs, SameBytes, Replay, Sectors, Nodes, NodeOf, Content, Kept;
    fs.inodes := fs.inodes[i := fs.inodes[i].(kind := kind, nlink := nlink)];
    Retyped(fs.g, fs.store, old(fs.inodes), fs.owner, i, fs.inodes);
    fs.InodeUpdate(i, old(fs.inodes));
    assert old(fs.inodes)[i := fs.inodes[i]] == fs.inodes;
    TruncInvisible(old(fs.store), fs.store, fs.inodes);
    SameBytesTwice(old(fs.store), old(fs.inodes), old(fs.store), fs.inodes, fs.store, fs.inodes);
    ContentsKept(old(fs.store), old(fs.inodes), fs.store, fs.inodes, i);
    NodeChanged(old(fs.store), old(fs.inodes), fs.store, fs.inodes, i);
    KeptBut(old(fs.store), old(fs.inodes), fs.store, fs.inodes, i);
    if kind == old(fs.inodes)[i].kind {
      KeptAlso(old(fs.store), old(fs.inodes), fs.store, fs.inodes, i);
    }
  }

  lemma ContentsKept(s: seq<Block>, n: seq<Inode>, s': seq<Block>, n': seq<Inode>, i: nat)
    requires Tidy(n) && SameBytes(s, n, s', n') && i < |n| && n' == n[i := n'[i]]
    ensures forall j: nat :: j < |n| && j != i ==> TidyInode(n[j]) && Content(s', n[j]) == Content(s, n[j])
    ensures n'[i].size == n[i].size ==> TidyInode(n[i]) && Content(s', n'[i]) == Content(s, n[i])
  {
    hide ByteAt;
    assert TidyInode(n[i]);
    forall j: nat | j < |n| && j != i ensures TidyInode(n[j]) && Content(s', n[j]) == Content(s, n[j]) {
      assert TidyInode(n[j]) && n'[j] == n[j];
      assert forall pos: nat :: pos < MAXFILE * BSIZE ==> ByteAt(s', n'[j], pos) == ByteAt(s, n[j], pos);
    }
  }

  /** A change to its link count leaves a directory's entries alone. */
  lemma SameEntries(s: seq<Block>, n: seq<Inode>, s': seq<Block>, n': seq<Inode>, i: nat)
    requires Tidy(n) && Tidy(n') && SameBytes(s, n, s', n') && i < |n| && n' == n[i := n'[i]] && n'[i].size == n[i].size
    requires n'[i].kind == n[i].kind
    ensures TidyInode(n[i]) && TidyInode(n'[i]) && NodeOf(s', n'[i]) == NodeOf(s, n[i]).(nlink := n'[i].nlink)
  {
    hide Parse, SameBytes, Content;
    assert TidyInode(n[i]) && TidyInode(n'[i]);
    ContentsKept(s, n, s', n', i);
  }

  /** `ip->nlink = nlink` and inode_update, of an inode in use. */
  method SetNlink(fs: FileSys, i: nat, nlink: nat)
    requires fs.Valid() && i < |fs.inodes| && Tidy(fs.inodes) && fs.inodes[i].kind != 0 && nlink < 0x8000
    modifies fs
    ensures fs.Valid() && Tidy(fs.inodes) && fs.inodes == old(fs.inodes)[i := old(fs.inodes)[i].(nlink := nlink)]
    ensures var nodes := Nodes(old(fs.store), old(fs.inodes));
            Nodes(fs.store, fs.inodes) == nodes[i := nodes[i].(nlink := nlink)]
    ensures Kept(old(fs.store), old(fs.inodes), fs.store, fs.inodes, {})
    ensures fs.base == old(fs.base) && fs.logged == old(fs.logged) + {fs.g.InodeBlock(i)}
  {
    hide Owns, OnDisk, Sized, Replay, Sectors, Content, SameBytes, Kept;
    NodesAt(fs.store, fs.inodes);
    SetInode(fs, i, fs.inodes[i].kind, nlink);
    SameEntries(old(fs.store), old(fs.inodes), fs.store, fs.inodes, i);
    NodesAt(fs.store, fs.inodes);
  }

  /** dir_link on the tree: entry `k` of `dp` is put, if the name is new. Not `ok`: there is no room for it. */
  method LinkEntry(fs: FileSys, dp: nat, field: seq<byte>, inum: nat)
    returns (r: int, ok: bool, ghost k: nat, ghost w: set<nat>)
    requires fs.Valid() && Tidy(fs.inodes) && dp < |fs.inodes| && fs.inodes[dp].kind == T_DIR && |field| == DIRSIZ
    requires 0 < inum < 0x1_0000
    modifies fs
    ensures r == -1 <==> HasName(Nodes(old(fs.store), old(fs.inodes))[dp].entries, FieldName(field))
    ensures r == -1 ==> ok && unchanged(fs) && fs.Valid()
    ensures fs.base == old(fs.base)
    ensures !ok ==> NoRoom(Nodes(old(fs.store), old(fs.inodes))[dp].entries, fs.g, fs.store)
    ensures ok && r != -1 ==> fs.Valid() && Tidy(fs.inodes) && |fs.inodes| == |old(fs.inodes)|
    ensures ok && r != -1 ==>
              fs.inodes == old(fs.inodes)[dp := old(fs.inodes)[dp].(addrs := fs.inodes[dp].addrs,
                size := fs.inodes[dp].size)]
    ensures ok && r != -1 ==> Entered(Nodes(old(fs.store), old(fs.inodes)), Nodes(fs.store, fs.inodes), dp, k,
                                      Dirent(inum, FieldName(field)))
    ensures ok && r != -1 ==> |w| <= 2 && Logs(fs.g, old(fs.logged), fs.logged, dp, dp, w)
    ensures ok && r != -1 ==> OneSector(old(fs.inodes)[dp], fs.inodes[dp], w)
    ensures ok && r != -1 ==> Kept(old(fs.store), old(fs.inodes), fs.store, fs.inodes, {dp})
  {
    hide Owns, OnDisk, Sized, Replay, Sectors, Content, Parse, FieldName, Put, HasName, IsSlot, NoRoom, Logs, OneSector,
         Kept;
    NodesAt(fs.store, fs.inodes);
    r, ok, k, w := DirLink(fs, dp, field, inum);
    if ok && r != -1 {
      SizedIsBounded(fs.store, fs.inodes);
      TidyAfter(old(fs.inodes), fs.inodes, dp);
      NodeChanged(old(fs.store), old(fs.inodes), fs.store, fs.inodes, dp);
      KeptBut(old(fs.store), old(fs.inodes), fs.store, fs.inodes, dp);
    }
  }

  /** Entry `k` of `dp` is the first free one, and is now `e`. */
  ghost predicate Entered(nodes: seq<L.Node>, nodes': seq<L.Node>, dp: nat, k: nat, e: Dirent) {
    && dp < |nodes| && IsSlot(nodes[dp].entries, k)
    && nodes' == nodes[dp := nodes[dp].(entries := Put(nodes[dp].entries, k, e))]
  }

  lemma TidyAfter(n: seq<Inode>, n': seq<Inode>, i: nat)
    requires Tidy(n) && i < |n| == |n'| && n[i].kind == T_DIR && Bounded(n') && n'[i].size % DIRENT == 0
    requires n' == n[i := n[i].(addrs := n'[i].addrs, size := n'[i].size)]
    ensures TidyInode(n'[i]) && forall j: nat :: j < |n| ==> TidyInode(n[j])
  {
    assert TidyInode(n[i]);
  }

  /** inode_alloc: the first free inode, or 0. */
  method FindFree(fs: FileSys) returns (ip: nat)
    requires Tidy(fs.inodes)
    ensures ip < |fs.inodes| || ip == 0
    ensures ip == 0 ==> forall i :: 0 < i < |fs.inodes| ==> fs.inodes[i].kind != 0
    ensures ip != 0 ==> fs.inodes[ip] == FreeInode() && forall i :: 0 < i < ip ==> fs.inodes[i].kind != 0
  {
    ip := 1;
    while ip < |fs.inodes|
      invariant 0 < ip && forall i :: 0 < i < ip && i < |fs.inodes| ==> fs.inodes[i].kind != 0
    {
      if fs.inodes[ip].kind == 0 {
        assert TidyInode(fs.inodes[ip]);
        return;
      }
      ip := ip + 1;
    }
    ip := 0;
  }

  ghost predicate NoFreeInode(n: seq<Inode>) {
    forall i :: 0 < i < |n| ==> n[i].kind != 0
  }

  ghost predicate DiskFull(g: Geometry, s: seq<Block>) {
    g.Valid() && |s| == g.size && NoFreeData(g, s)
  }

  /** create for a new file: an inode with one link, and its name. Not `ok`: inodes or room are used up. */
  method CreateFile(fs: FileSys, dp: nat, field: seq<byte>)
    returns (ip: nat, ok: bool, ghost k: nat, ghost w: set<nat>)
    requires fs.Valid() && Tidy(fs.inodes) && dp < |fs.inodes| < 0x1_0000 && fs.inodes[dp].kind == T_DIR
    requires |field| == DIRSIZ
    requires !HasName(Nodes(fs.store, fs.inodes)[dp].entries, FieldName(field))
    modifies fs
    ensures fs.base == old(fs.base)
    ensures !ok ==> NoFreeInode(old(fs.inodes))
                    || NoRoom(Nodes(old(fs.store), old(fs.inodes))[dp].entries, fs.g, fs.store)
    ensures ok ==> fs.Valid() && Tidy(fs.inodes) && 0 < ip < |fs.inodes| == |old(fs.inodes)|
    ensures ok ==> old(fs.inodes)[ip].kind == 0
    ensures ok ==> var nodes := Nodes(old(fs.store), old(fs.inodes));
                   IsSlot(nodes[dp].entries, k) &&
                     Nodes(fs.store, fs.inodes) == L.WithFile(nodes, dp, FieldName(field), k, ip)
    ensures ok ==> ip != dp && Kept(old(fs.store), old(fs.inodes), fs.store, fs.inodes, {dp, ip})
    ensures ok ==> fs.inodes[ip].kind == T_FILE && fs.inodes[ip].size == 0 && fs.inodes[dp].kind == T_DIR
    ensures ok ==> |w| <= 2 && Logs(fs.g, old(fs.logged), fs.logged, dp, ip, w)
  {
    hide Owns, OnDisk, Sized, Replay, Sectors, Content, Parse, FieldName, Put, HasName, IsSlot, SameBytes, Logs, NoRoom,
         OneSector, Kept;
    k, w := 0, {};
    ip := FindFree(fs);
    if ip == 0 {
      return 0, false, 0, {};
    }
    NodesAt(fs.store, fs.inodes);
    SetInode(fs, ip, T_FILE, 1);
    NodesAt(fs.store, fs.inodes);
    ghost var l1, s1, n1 := fs.logged, fs.store, fs.inodes;
    LogsInode(fs.g, old(fs.logged), l1, ip);
    var r;
    r, ok, k, w := LinkEntry(fs, dp, field, ip);
    if ok {
      LogsThen(fs.g, old(fs.logged), l1, fs.logged, dp, ip, w);
      KeptThen(old(fs.store), old(fs.inodes), s1, n1, fs.store, fs.inodes, {ip}, {dp});
      assert {ip} + {dp} == {dp, ip};
    }
  }

  /** The inode `ip` is written, and then directory `dp`. */
  lemma LogsThen(g: Geometry, l0: set<nat>, l1: set<nat>, l2: set<nat>, dp: nat, ip: nat, w: set<nat>)
    requires Logs(g, l0, l1, ip, ip, {}) && Logs(g, l1, l2, dp, dp, w)
    ensures Logs(g, l0, l2, dp, ip, w)
  {
    hide Logs;
    LogsFirst(g, l0, dp, ip);
    LogsAgain(g, l0, l0, l1, dp, ip, ip, {});
    LogsMore(g, l0, l1, l2, dp, ip, dp, dp, {}, w);
    assert {} + w == w;
  }

  /** The fields of "." and "..". */
  function DotField(): (b: seq<byte>)
    ensures |b| == DIRSIZ && FieldName(b) == "."
  {
    NameRoundTrip(".");
    NameBytes(".")
  }

  function DotDotField(): (b: seq<byte>)
    ensures |b| == DIRSIZ && FieldName(b) == ".."
  {
    NameRoundTrip("..");
    NameBytes("..")
  }

  /** A fresh inode becomes an empty directory. */
  method MakeEmpty(fs: FileSys, ip: nat)
    requires fs.Valid() && Tidy(fs.inodes) && ip < |fs.inodes| && fs.inodes[ip] == FreeInode()
    modifies fs
    ensures fs.Valid() && Tidy(fs.inodes) && fs.inodes == old(fs.inodes)[ip := FreeInode().(kind := T_DIR, nlink := 1)]
    ensures Nodes(fs.store, fs.inodes) == Nodes(old(fs.store), old(fs.inodes))[ip := L.Node(L.Dir, 1, [])]
    ensures Kept(old(fs.store), old(fs.inodes), fs.store, fs.inodes, {ip})
    ensures fs.base == old(fs.base) && fs.logged == old(fs.logged) + {fs.g.InodeBlock(ip)}
  {
    hide Owns, OnDisk, Sized, Replay, Sectors, Content, Parse, Nodes, SameBytes, Kept;
    SetInode(fs, ip, T_DIR, 1);
    EmptyContent(fs.store, fs.inodes[ip]);
  }

  /** The entries "." and ".." of an empty directory. Not `ok`: the disk is full. */
  method MakeDots(fs: FileSys, dp: nat, ip: nat) returns (ok: bool, ghost w: set<nat>)
    requires fs.Valid() && Tidy(fs.inodes) && 0 < dp < |fs.inodes| < 0x1_0000
    requires 0 < ip < |fs.inodes| && fs.inodes[ip].kind == T_DIR
    requires Nodes(fs.store, fs.inodes)[ip] == L.Node(L.Dir, 1, [])
    modifies fs
    ensures fs.base == old(fs.base) && (!ok ==> DiskFull(fs.g, fs.store))
    ensures ok ==> fs.Valid() && Tidy(fs.inodes) && |fs.inodes| == |old(fs.inodes)|
    ensures ok ==> forall j :: 0 <= j < |fs.inodes| ==> fs.inodes[j].kind == old(fs.inodes)[j].kind
    ensures ok ==> Nodes(fs.store, fs.inodes) == L.WithNewDir(Nodes(old(fs.store), old(fs.inodes)), dp, ip)
    ensures ok ==> Kept(old(fs.store), old(fs.inodes), fs.store, fs.inodes, {ip})
    ensures ok ==> |w| <= 1 && Logs(fs.g, old(fs.logged), fs.logged, ip, ip, w)
  {
    hide Owns, OnDisk, Sized, Replay, Sectors, Content, Parse, FieldName, Put, HasName, IsSlot, Nodes, DotField,
         DotDotField, Logs, NoRoom, Kept;
    ghost var k, w2;
    var r;
    FirstDots(ip, dp);
    r, ok, k, w := LinkEntry(fs, ip, DotField(), ip);
    if !ok {
      RoomForDots(ip, fs.g, fs.store);
      return;
    }
    OnlySlot([], k, Dirent(ip, "."));
    assert [] + [Dirent(ip, ".")] == [Dirent(ip, ".")];
    EntryCount(fs.store, fs.inodes, ip);
    ghost var l1, s1, n1 := fs.logged, fs.store, fs.inodes;
    r, ok, k, w2 := LinkEntry(fs, ip, DotDotField(), dp);
    RoomForDots(ip, fs.g, fs.store);
    OnlySlot([Dirent(ip, ".")], k, Dirent(dp, ".."));
    assert [Dirent(ip, ".")] + [Dirent(dp, "..")] == [Dirent(ip, "."), Dirent(dp, "..")];
    EntryCount(fs.store, fs.inodes, ip);
    LogsMore(fs.g, old(fs.logged), l1, fs.logged, ip, ip, ip, ip, w, w2);
    assert w + w2 == w;
    KeptThen(old(fs.store), old(fs.inodes), s1, n1, fs.store, fs.inodes, {ip}, {ip});
    assert {ip} + {ip} == {ip};
  }

  lemma RoomForDots(ip: nat, g: Geometry, s: seq<Block>)
    ensures NoRoom([], g, s) ==> DiskFull(g, s)
    ensures !NoRoom([Dirent(ip, ".")], g, s)
  {
    assert DIRENT * |[Dirent(ip, ".")]| == DIRENT;
  }

  lemma EmptyContent(s: seq<Block>, ino: Inode)
    requires |ino.addrs| == NDIRECT + 1 && ino.size == 0
    ensures Parse(Content(s, ino)) == []
  {
  }

  lemma FirstDots(ip: nat, dp: nat)
    ensures !HasName([], ".") && !HasName([Dirent(ip, ".")], "..")
  {
  }

  /** Among entries that are all in use the slot is the end. */
  lemma OnlySlot(entries: seq<Dirent>, k: nat, e: Dirent)
    requires IsSlot(entries, k) && forall j :: 0 <= j < |entries| ==> entries[j].inum != 0
    ensures Put(entries, k, e) == entries + [e]
  {
  }

  /** The new directory, not yet entered in `dp`: it counts as a link to `dp`. */
  function WithParent(nodes: seq<L.Node>, dp: nat, ip: nat): (r: seq<L.Node>)
    requires dp < |nodes| && ip < |nodes| && ip != dp
    ensures |r| == |nodes|
  {
    L.WithNewDir(nodes[dp := nodes[dp].(nlink := nodes[dp].nlink + 1)], dp, ip)
  }

  /** create for a new directory, up to its first two entries. */
  method MakeDir(fs: FileSys, dp: nat, ip: nat) returns (ok: bool, ghost w: set<nat>)
    requires fs.Valid() && Tidy(fs.inodes) && 0 < dp < |fs.inodes| < 0x1_0000 && fs.inodes[dp].kind == T_DIR
    requires fs.inodes[dp].nlink + 1 < 0x8000 && 0 < ip < |fs.inodes| && fs.inodes[ip] == FreeInode()
    modifies fs
    ensures ok ==> fs.Valid() && Tidy(fs.inodes) && |fs.inodes| == |old(fs.inodes)|
    ensures ok ==> ip != dp && fs.inodes[dp].kind == fs.inodes[ip].kind == T_DIR
    ensures ok ==> Kept(old(fs.store), old(fs.inodes), fs.store, fs.inodes, {ip})
    ensures ok ==> Nodes(fs.store, fs.inodes) == WithParent(Nodes(old(fs.store), old(fs.inodes)), dp, ip)
    ensures fs.base == old(fs.base) && (!ok ==> DiskFull(fs.g, fs.store))
    ensures ok ==> |w| <= 1 && Logs(fs.g, old(fs.logged), fs.logged, dp, ip, w)
  {
    hide Owns, OnDisk, Sized, Replay, Sectors, Nodes, WithParent, Logs, DiskFull, Kept;
    ghost var nodes := Nodes(fs.store, fs.inodes);
    KindsAgree(fs.store, fs.inodes, dp);
    MakeEmpty(fs, ip);
    ghost var l1, s1, n1 := fs.logged, fs.store, fs.inodes;
    LogsInode(fs.g, old(fs.logged), l1, ip);
    SetNlink(fs, dp, fs.inodes[dp].nlink + 1);
    KeptThen(old(fs.store), old(fs.inodes), s1, n1, fs.store, fs.inodes, {ip}, {});
    ghost var l2, s2, n2 := fs.logged, fs.store, fs.inodes;
    LogsInode(fs.g, l1, l2, dp);
    LogsThen(fs.g, old(fs.logged), l1, l2, dp, ip, {});
    ok, w := MakeDots(fs, dp, ip);
    InEitherOrder(nodes, dp, ip);
    if ok {
      LogsMore(fs.g, old(fs.logged), l2, fs.logged, dp, ip, ip, ip, {}, w);
      assert {} + w == w;
      KeptThen(old(fs.store), old(fs.inodes), s2, n2, fs.store, fs.inodes, {ip} + {}, {ip});
      assert {ip} + {} + {ip} == {ip};
    }
  }

  lemma InEitherOrder(nodes: seq<L.Node>, dp: nat, ip: nat)
    requires dp < |nodes| && ip < |nodes| && ip != dp
    ensures var nodes1 := nodes[ip := L.Node(L.Dir, 1, [])];
            L.WithNewDir(nodes1[dp := nodes1[dp].(nlink := nodes[dp].nlink + 1)], dp, ip) == WithParent(nodes, dp, ip)
  {
  }

  lemma EnteredIs(nodes: seq<L.Node>, dp: nat, name: string, k: nat, ip: nat)
    requires dp < |nodes| && ip < |nodes| && ip != dp && k <= |nodes[dp].entries|
    ensures var nodes1 := WithParent(nodes, dp, ip);
            && nodes1[dp].entries == nodes[dp].entries
            && nodes1[dp := nodes1[dp].(entries := Put(nodes1[dp].entries, k, Dirent(ip, name)))] ==
                 L.WithDirName(L.WithNewDir(nodes, dp, ip), dp, name, k, ip)
  {
    hide Put;
  }

  lemma SlotBound(entries: seq<Dirent>, k: nat)
    requires IsSlot(entries, k)
    ensures k <= |entries|
  {
  }

  /** create for a new directory. Not `ok`: inodes or room are used up, or the parent's link count would not fit. */
  method CreateDir(fs: FileSys, dp: nat, field: seq<byte>)
    returns (ip: nat, ok: bool, ghost k: nat, ghost w: set<nat>)
    requires fs.Valid() && Tidy(fs.inodes) && 0 < dp < |fs.inodes| < 0x1_0000 && fs.inodes[dp].kind == T_DIR
    requires |field| == DIRSIZ
    requires !HasName(Nodes(fs.store, fs.inodes)[dp].entries, FieldName(field))
    modifies fs
    ensures fs.base == old(fs.base)
    ensures !ok ==> NoFreeInode(old(fs.inodes)) || old(fs.inodes)[dp].nlink + 1 == 0x8000 || DiskFull(fs.g, fs.store)
                    || NoRoom(Nodes(old(fs.store), old(fs.inodes))[dp].entries, fs.g, fs.store)
    ensures ok ==> fs.Valid() && Tidy(fs.inodes) && 0 < ip < |fs.inodes| == |old(fs.inodes)|
    ensures ok ==> old(fs.inodes)[ip].kind == 0 && ip != dp
    ensures ok ==> var nodes := Nodes(old(fs.store), old(fs.inodes));
                   && IsSlot(nodes[dp].entries, k)
                   && Nodes(fs.store, fs.inodes) ==
                        L.WithDirName(L.WithNewDir(nodes, dp, ip), dp, FieldName(field), k, ip)
    ensures ok ==> Kept(old(fs.store), old(fs.inodes), fs.store, fs.inodes, {dp, ip})
    ensures ok ==> fs.inodes[ip].kind == fs.inodes[dp].kind == T_DIR
    ensures ok ==> |w| <= 3 && Logs(fs.g, old(fs.logged), fs.logged, dp, ip, w)
  {
    hide Owns, OnDisk, Sized, Replay, Sectors, FieldName, Put, HasName, IsSlot, Nodes, WithParent, L.WithDirName,
         L.WithNewDir, Logs, DiskFull, NoRoom, OneSector, Kept;
    k, w := 0, {};
    ip := FindFree(fs);
    if ip == 0 || fs.inodes[dp].nlink + 1 >= 0x8000 {
      LinkCount(fs.inodes, dp);
      return 0, false, 0, {};
    }
    ghost var nodes := Nodes(fs.store, fs.inodes);
    ghost var w1;
    ok, w1 := MakeDir(fs, dp, ip);
    if !ok {
      return;
    }
    EnteredIs(nodes, dp, FieldName(field), 0, ip);
    ghost var l1, s1, n1 := fs.logged, fs.store, fs.inodes;
    var r;
    r, ok, k, w := LinkEntry(fs, dp, field, ip);
    if ok {
      KeptThen(old(fs.store), old(fs.inodes), s1, n1, fs.store, fs.inodes, {ip}, {dp});
      assert {ip} + {dp} == {dp, ip};
      SlotBound(nodes[dp].entries, k);
      EnteredIs(nodes, dp, FieldName(field), k, ip);
      LogsMore(fs.g, old(fs.logged), l1, fs.logged, dp, ip, dp, dp, w1, w);
      SumSize(w1, w);
      w := w1 + w;
    }
  }

  lemma LinkCount(n: seq<Inode>, i: nat)
    requires Tidy(n) && i < |n|
    ensures n[i].nlink < 0x8000
  {
    assert TidyInode(n[i]);
  }

  /** sys_link, once both paths are resolved: the count goes up, and down again if the name is taken. Not `ok`: there is
      no room for the entry, or the count would not fit. */
  method LinkFile(fs: FileSys, ip: nat, dp: nat, field: seq<byte>)
    returns (done: bool, ok: bool, ghost k: nat, ghost w: set<nat>)
    requires fs.Valid() && Tidy(fs.inodes) && 0 < ip < |fs.inodes| < 0x1_0000 && fs.inodes[ip].kind == T_FILE
    requires dp < |fs.inodes| && fs.inodes[dp].kind == T_DIR && |field| == DIRSIZ
    modifies fs
    ensures fs.base == old(fs.base)
    ensures !ok ==> old(fs.inodes)[ip].nlink + 1 == 0x8000
                    || NoRoom(Nodes(old(fs.store), old(fs.inodes))[dp].entries, fs.g, fs.store)
    ensures ok ==> fs.Valid() && Tidy(fs.inodes) && |fs.inodes| == |old(fs.inodes)|
    ensures ok ==> (done <==> !HasName(Nodes(old(fs.store), old(fs.inodes))[dp].entries, FieldName(field)))
    ensures ok && !done ==> Nodes(fs.store, fs.inodes) == Nodes(old(fs.store), old(fs.inodes))
    ensures ok && done ==> var nodes := Nodes(old(fs.store), old(fs.inodes));
                           IsSlot(nodes[dp].entries, k) &&
                             Nodes(fs.store, fs.inodes) == L.WithLink(nodes, dp, FieldName(field), k, ip)
    ensures ok ==> Kept(old(fs.store), old(fs.inodes), fs.store, fs.inodes, if done then {dp} else {})
    ensures ok ==> fs.inodes[dp].kind == T_DIR
    ensures ok ==> |w| <= 2 && Logs(fs.g, old(fs.logged), fs.logged, dp, ip, w)
  {
    hide Owns, OnDisk, Sized, Replay, Sectors, Content, Parse, FieldName, Put, HasName, IsSlot, SameBytes, Logs, NoRoom,
         OneSector, Kept;
    NodesAt(fs.store, fs.inodes);
    done, k, w := false, 0, {};
    if fs.inodes[ip].nlink + 1 >= 0x8000 {
      LinkCount(fs.inodes, ip);
      return false, false, 0, {};
    }
    SetInode(fs, ip, T_FILE, fs.inodes[ip].nlink + 1);
    NodesAt(fs.store, fs.inodes);
    ghost var l1, s1, n1 := fs.logged, fs.store, fs.inodes;
    LogsInode(fs.g, old(fs.logged), l1, ip);
    var r;
    r, ok, k, w := LinkEntry(fs, dp, field, ip);
    if r != -1 {
      done := true;
      if ok {
        LogsThen(fs.g, old(fs.logged), l1, fs.logged, dp, ip, w);
        KeptThen(old(fs.store), old(fs.inodes), s1, n1, fs.store, fs.inodes, {}, {dp});
        assert {} + {dp} == {dp};
      }
      return;
    }
    SetInode(fs, ip, T_FILE, fs.inodes[ip].nlink - 1);
    ghost var none: set<nat> := {};
    KeptThen(old(fs.store), old(fs.inodes), s1, n1, fs.store, fs.inodes, none, none);
    assert none + none == none;
    NodesAt(fs.store, fs.inodes);
    assert Nodes(fs.store, fs.inodes) == Nodes(old(fs.store), old(fs.inodes));
    w := {};
    assert fs.logged == l1;
    LogsFirst(fs.g, l1, dp, dp);
    LogsThen(fs.g, old(fs.logged), l1, l1, dp, ip, {});
  }

  /** The `memset` and inode_write of sys_unlink: entry `k` of `dp` is cleared. The entry is within the directory, so no
      block is needed and the write does not fail. */
  method ClearEntry(fs: FileSys, dp: nat, k: nat) returns (ghost w: set<nat>)
    requires fs.Valid() && Tidy(fs.inodes) && dp < |fs.inodes| && fs.inodes[dp].kind == T_DIR
    requires k < |Nodes(fs.store, fs.inodes)[dp].entries|
    modifies fs
    ensures fs.Valid() && Tidy(fs.inodes) && |fs.inodes| == |old(fs.inodes)| && fs.base == old(fs.base)
    ensures fs.inodes ==
            old(fs.inodes)[dp := old(fs.inodes)[dp].(addrs := fs.inodes[dp].addrs, size := fs.inodes[dp].size)]
    ensures Nodes(fs.store, fs.inodes) == L.WithoutName(Nodes(old(fs.store), old(fs.inodes)), dp, k)
    ensures Kept(old(fs.store), old(fs.inodes), fs.store, fs.inodes, {dp})
    ensures |w| <= 2 && Logs(fs.g, old(fs.logged), fs.logged, dp, dp, w)
  {
    hide Owns, OnDisk, Sized, Replay, Sectors, Content, Parse, NoFreeData, Logs, BlocksFor, OneSector, Kept;
    NodesAt(fs.store, fs.inodes);
    EntryInFile(fs.store, fs.inodes, dp, k);
    var ok;
    ok, w := WriteEntry(fs, dp, k, Dirent(0, ""));
    SizedIsBounded(fs.store, fs.inodes);
    TidyAfter(old(fs.inodes), fs.inodes, dp);
    NodeChanged(old(fs.store), old(fs.inodes), fs.store, fs.inodes, dp);
    KeptBut(old(fs.store), old(fs.inodes), fs.store, fs.inodes, dp);
  }

  lemma EntryInFile(s: seq<Block>, n: seq<Inode>, dp: nat, k: nat)
    requires Tidy(n) && dp < |n| && n[dp].kind == T_DIR && k < |Nodes(s, n)[dp].entries|
    ensures DIRENT * k + DIRENT <= n[dp].size <= MAXFILE * BSIZE && n[dp].size % DIRENT == 0
    ensures BlocksFor(DIRENT * k + DIRENT) <= BlocksFor(n[dp].size)
  {
    hide Content;
    assert TidyInode(n[dp]);
    NodesAt(s, n);
  }

  /** inode_put of the last reference: the blocks are freed, and the inode. */
  method FreeInodeOf(fs: FileSys, ip: nat)
    requires fs.Valid() && Tidy(fs.inodes) && ip < |fs.inodes| && fs.inodes[ip].nlink == 0
    modifies fs
    ensures fs.Valid() && Tidy(fs.inodes) && |fs.inodes| == |old(fs.inodes)|
    ensures Nodes(fs.store, fs.inodes) == L.Freed(Nodes(old(fs.store), old(fs.inodes)), ip)
    ensures Kept(old(fs.store), old(fs.inodes), fs.store, fs.inodes, {ip})
    ensures fs.base == old(fs.base) && Logs(fs.g, old(fs.logged), fs.logged, ip, ip, {})
  {
    hide Owns, OnDisk, Sized, Replay, Sectors, Content, Parse, SameBytes, ByteAt, BitmapBlocks, Kept;
    NodesAt(fs.store, fs.inodes);
    fs.InodeTrunc(ip);
    OwnsShape(fs.g, fs.store, fs.inodes, fs.owner);
    TruncTidy(old(fs.store), old(fs.inodes), fs.store, fs.inodes, ip);
    NodeChanged(old(fs.store), old(fs.inodes), fs.store, fs.inodes, ip);
    KeptBut(old(fs.store), old(fs.inodes), fs.store, fs.inodes, ip);
    NodesAt(fs.store, fs.inodes);
    ghost var s1, n1 := fs.store, fs.inodes;
    SetInode(fs, ip, 0, 0);
    KeptThen(old(fs.store), old(fs.inodes), s1, n1, fs.store, fs.inodes, {ip}, {ip});
    assert {ip} + {ip} == {ip};
    NodesAt(fs.store, fs.inodes);
    assert Nodes(fs.store, fs.inodes) == L.Freed(Nodes(old(fs.store), old(fs.inodes)), ip);
  }

  lemma TruncTidy(s: seq<Block>, n: seq<Inode>, s': seq<Block>, n': seq<Inode>, i: nat)
    requires Tidy(n) && i < |n| && n' == n[i := n[i].(size := 0, addrs := seq(NDIRECT + 1, _ => 0))]
    requires forall j: nat :: j < |n'| ==> |n'[j].addrs| == NDIRECT + 1
    requires forall j: nat, pos: nat :: j < |n'| && j != i && pos < MAXFILE * BSIZE ==>
               ByteAt(s', n'[j], pos) == ByteAt(s, n'[j], pos)
    ensures TidyInode(n'[i])
    ensures forall j: nat :: j < |n| && j != i ==> TidyInode(n[j]) && Content(s', n[j]) == Content(s, n[j])
  {
    hide ByteAt;
    assert TidyInode(n[i]);
    forall j: nat | j < |n| && j != i ensures TidyInode(n[j]) && Content(s', n[j]) == Content(s, n[j]) {
      assert TidyInode(n[j]) && n'[j] == n[j];
      assert forall pos: nat :: pos < MAXFILE * BSIZE ==> ByteAt(s', n'[j], pos) == ByteAt(s, n'[j], pos);
    }
  }

  /** Entry `k` of `dp` leads to an inode in use whose counts can go down. */
  ghost predicate Takeable(nodes: seq<L.Node>, dp: nat, k: nat) {
    && dp < |nodes| && k < |nodes[dp].entries| && nodes[dp].entries[k].inum < |nodes|
    && var ip := nodes[dp].entries[k].inum;
    && ip != dp && nodes[ip].nlink > 0 && !nodes[ip].kind.Free?
    && (nodes[ip].kind.Dir? ==> nodes[dp].nlink > 0)
  }

  /** The tree without that entry; `last` says that nobody else refers to the inode. */
  ghost function Taken(nodes: seq<L.Node>, dp: nat, k: nat, last: bool): (r: seq<L.Node>)
    requires Takeable(nodes, dp, k)
  {
    var ip, after := nodes[dp].entries[k].inum, L.Unlinked(nodes, dp, k);
    if last && after[ip].nlink == 0 then L.Freed(after, ip) else after
  }

  /** `ip->nlink--`, inode_update and inode_put. */
  method DropLink(fs: FileSys, ip: nat, last: bool)
    requires fs.Valid() && Tidy(fs.inodes) && ip < |fs.inodes| && fs.inodes[ip].kind != 0 && fs.inodes[ip].nlink > 0
    modifies fs
    ensures fs.Valid() && Tidy(fs.inodes) && |fs.inodes| == |old(fs.inodes)| && fs.base == old(fs.base)
    ensures fs.inodes[ip].nlink + 1 == old(fs.inodes)[ip].nlink
    ensures Dropped(Nodes(old(fs.store), old(fs.inodes)), Nodes(fs.store, fs.inodes), ip, last)
    ensures Kept(old(fs.store), old(fs.inodes), fs.store, fs.inodes,
                 if last && old(fs.inodes)[ip].nlink == 1 then {ip} else {})
    ensures Logs(fs.g, old(fs.logged), fs.logged, ip, ip, {})
  {
    hide Owns, OnDisk, Sized, Replay, Sectors, Nodes, Logs, Kept;
    KindsAgree(fs.store, fs.inodes, ip);
    SetNlink(fs, ip, fs.inodes[ip].nlink - 1);
    ghost var l1, s1, n1 := fs.logged, fs.store, fs.inodes;
    LogsInode(fs.g, old(fs.logged), l1, ip);
    KindsAgree(fs.store, fs.inodes, ip);
    if last && fs.inodes[ip].nlink == 0 {
      FreeInodeOf(fs, ip);
      KindsAgree(fs.store, fs.inodes, ip);
      LogsAgain(fs.g, old(fs.logged), l1, fs.logged, ip, ip, ip, {});
      KeptThen(old(fs.store), old(fs.inodes), s1, n1, fs.store, fs.inodes, {}, {ip});
      assert {} + {ip} == {ip};
    }
  }

  ghost predicate Dropped(nodes: seq<L.Node>, nodes': seq<L.Node>, ip: nat, last: bool) {
    && ip < |nodes| && nodes[ip].nlink > 0
    && var after := L.Fewer(nodes, ip);
    nodes' == if last && after[ip].nlink == 0 then L.Freed(after, ip) else after
  }

  /** The tree after unlink of a name, which entry `k` had. */
  ghost predicate Removed(nodes: seq<L.Node>, nodes': seq<L.Node>, dp: nat, k: nat, name: string, last: bool) {
    Takeable(nodes, dp, k) && Named(nodes[dp].entries, k, name) && nodes' == Taken(nodes, dp, k, last)
  }

  /** Unlinking entry `k` changes the contents of the directory, and of the inode if this was its last name and
      reference; whatever still has a name, or is held, keeps its contents. */
  ghost predicate Spared(nodes: seq<L.Node>, s: seq<Block>, n: seq<Inode>, s': seq<Block>, n': seq<Inode>, dp: nat,
                         k: nat, last: bool) {
    && Takeable(nodes, dp, k)
    && var ip := nodes[dp].entries[k].inum;
    && ip < |n| && Kept(s, n, s', n', if last && n[ip].nlink == 1 then {dp, ip} else {dp})
  }

  /** What unlink of a name does to the tree and to the contents of the files. */
  ghost predicate NameGone(s: seq<Block>, n: seq<Inode>, s': seq<Block>, n': seq<Inode>, dp: nat, k: nat, name: string,
                           last: bool) {
    && Tidy(n) && Tidy(n') && dp < |n'| && n'[dp].kind == T_DIR
    && Removed(Nodes(s, n), Nodes(s', n'), dp, k, name, last) && Spared(Nodes(s, n), s, n, s', n', dp, k, last)
  }

  /** sys_unlink, once the entry is found and may go; `last` says that nobody holds the inode. */
  method UnlinkEntry(fs: FileSys, dp: nat, k: nat, last: bool) returns (ghost ip: nat, ghost w: set<nat>)
    requires fs.Valid() && Tidy(fs.inodes) && dp < |fs.inodes| && fs.inodes[dp].kind == T_DIR
    requires Takeable(Nodes(fs.store, fs.inodes), dp, k)
    modifies fs
    ensures fs.Valid() && Tidy(fs.inodes) && |fs.inodes| == |old(fs.inodes)| && fs.base == old(fs.base)
    ensures Nodes(fs.store, fs.inodes) == Taken(Nodes(old(fs.store), old(fs.inodes)), dp, k, last)
    ensures fs.inodes[dp].kind == T_DIR
    ensures Spared(Nodes(old(fs.store), old(fs.inodes)), old(fs.store), old(fs.inodes), fs.store, fs.inodes, dp, k,
              last)
    ensures ip < |fs.inodes| && |w| <= 2 && Logs(fs.g, old(fs.logged), fs.logged, dp, ip, w)
  {
    hide Owns, OnDisk, Sized, Replay, Sectors, Nodes, Logs, Kept, Dropped, Taken, Entryless;
    ghost var nodes := Nodes(fs.store, fs.inodes);
    var inum := ReadInum(fs, dp, k);
    ip := inum;
    w := TakeName(fs, dp, k, inum);
    LogsFirst(fs.g, old(fs.logged), dp, ip);
    LogsMore(fs.g, old(fs.logged), old(fs.logged), fs.logged, dp, ip, dp, dp, {}, w);
    assert {} + w == w;
    ghost var l2, s2, n2 := fs.logged, fs.store, fs.inodes;
    DropLink(fs, inum, last);
    LogsAgain(fs.g, old(fs.logged), l2, fs.logged, dp, ip, ip, w);
    DroppedIsTaken(nodes, Nodes(s2, n2), Nodes(fs.store, fs.inodes), dp, k, last);
    ghost var freed := if last && n2[inum].nlink == 1 then {inum} else {};
    KeptThen(old(fs.store), old(fs.inodes), s2, n2, fs.store, fs.inodes, {dp}, freed);
    assert {dp} + {inum} == {dp, inum} && {dp} + {} == {dp};
    KeptKind(s2, n2, fs.store, fs.inodes, freed, dp);
  }

  /** The tree without entry `k` of `dp`, and with one link less to `dp` if the entry led to a directory. */
  ghost predicate Entryless(nodes: seq<L.Node>, nodes': seq<L.Node>, dp: nat, k: nat) {
    && Takeable(nodes, dp, k)
    && var after := L.WithoutName(nodes, dp, k);
    nodes' == if nodes[nodes[dp].entries[k].inum].kind.Dir? then L.Fewer(after, dp) else after
  }

  lemma DroppedIsTaken(nodes: seq<L.Node>, nodes1: seq<L.Node>, nodes2: seq<L.Node>, dp: nat, k: nat, last: bool)
    requires Entryless(nodes, nodes1, dp, k) && Dropped(nodes1, nodes2, nodes[dp].entries[k].inum, last)
    ensures nodes2 == Taken(nodes, dp, k, last)
  {
  }

  lemma TakeableKept(nodes: seq<L.Node>, dp: nat, k: nat)
    requires Takeable(nodes, dp, k)
    ensures var ip, after := nodes[dp].entries[k].inum, L.WithoutName(nodes, dp, k);
            |after| == |nodes| && after[ip] == nodes[ip] && after[dp].nlink == nodes[dp].nlink && ip != dp
  {
  }

  /** The entry goes and, if it led to a directory, one link to `dp`. */
  method TakeName(fs: FileSys, dp: nat, k: nat, inum: nat) returns (ghost w: set<nat>)
    requires fs.Valid() && Tidy(fs.inodes) && dp < |fs.inodes| && fs.inodes[dp].kind == T_DIR
    requires Takeable(Nodes(fs.store, fs.inodes), dp, k) && inum == Nodes(fs.store, fs.inodes)[dp].entries[k].inum
    modifies fs
    ensures fs.Valid() && Tidy(fs.inodes) && |fs.inodes| == |old(fs.inodes)| && fs.base == old(fs.base)
    ensures inum < |fs.inodes| && inum != dp && fs.inodes[dp].kind == T_DIR
    ensures fs.inodes[inum] == old(fs.inodes)[inum] && fs.inodes[inum].kind != 0 && fs.inodes[inum].nlink > 0
    ensures Entryless(Nodes(old(fs.store), old(fs.inodes)), Nodes(fs.store, fs.inodes), dp, k)
    ensures Kept(old(fs.store), old(fs.inodes), fs.store, fs.inodes, {dp})
    ensures |w| <= 2 && Logs(fs.g, old(fs.logged), fs.logged, dp, dp, w)
  {
    hide Owns, OnDisk, Sized, Replay, Sectors, Nodes, Logs, Kept;
    TakeableKept(Nodes(fs.store, fs.inodes), dp, k);
    KindsAgree(fs.store, fs.inodes, inum);
    KindsAgree(fs.store, fs.inodes, dp);
    w := ClearEntry(fs, dp, k);
    KindsAgree(fs.store, fs.inodes, inum);
    KindsAgree(fs.store, fs.inodes, dp);
    if fs.inodes[inum].kind == T_DIR {
      ghost var l1, s1, n1 := fs.logged, fs.store, fs.inodes;
      SetNlink(fs, dp, fs.inodes[dp].nlink - 1);
      KeptThen(old(fs.store), old(fs.inodes), s1, n1, fs.store, fs.inodes, {dp}, {});
      assert {dp} + {} == {dp};
      LogsInode(fs.g, l1, fs.logged, dp);
      LogsAgain(fs.g, old(fs.logged), l1, fs.logged, dp, dp, dp, w);
    }
  }

  /** The inode number in entry `k`. */
  method ReadInum(fs: FileSys, dp: nat, k: nat) returns (inum: nat)
    requires fs.Valid() && Tidy(fs.inodes) && dp < |fs.inodes| && fs.inodes[dp].kind == T_DIR
    requires k < |Nodes(fs.store, fs.inodes)[dp].entries|
    modifies fs`store, fs`inodes, fs`owner, fs`logged, fs`journal
    ensures unchanged(fs) && inum == Nodes(fs.store, fs.inodes)[dp].entries[k].inum
  {
    hide Owns, OnDisk, Sized, Replay, Sectors, Content, Parse;
    NodesAt(fs.store, fs.inodes);
    EntryInFile(fs.store, fs.inodes, dp, k);
    var b := ReadEntry(fs, dp, k);
    inum := GetU16(b, 0);
  }

  /** The file system holds a tree in which every link count is the number of names. */
  ghost predicate InOrder(fs: FileSys, home: map<nat, nat>)
    reads fs
  {
    fs.Valid() && |fs.inodes| == L.NINODES && Tidy(fs.inodes) && L.Ok(Nodes(fs.store, fs.inodes), home)
  }

  /** dir_lookup on the tree. */
  method Lookup(fs: FileSys, dp: nat, field: seq<byte>) returns (k: int)
    requires fs.Valid() && Tidy(fs.inodes) && dp < |fs.inodes| && fs.inodes[dp].kind == T_DIR && |field| == DIRSIZ
    modifies fs`store, fs`inodes, fs`owner, fs`logged, fs`journal
    ensures unchanged(fs) && (k == -1 <==> !HasName(Nodes(fs.store, fs.inodes)[dp].entries, FieldName(field)))
    ensures k != -1 ==> var es := Nodes(fs.store, fs.inodes)[dp].entries;
                        0 <= k < |es| && es[k].inum != 0 && es[k].name == FieldName(field)
  {
    hide Owns, OnDisk, Sized, Replay, Sectors, Content, Parse, FieldName, HasName;
    NodesAt(fs.store, fs.inodes);
    k := DirLookup(fs, dp, field);
  }

  /** isdirempty on the tree. */
  method IsDirEmpty(fs: FileSys, dp: nat) returns (empty: bool)
    requires fs.Valid() && Tidy(fs.inodes) && dp < |fs.inodes| && fs.inodes[dp].kind == T_DIR
    modifies fs`store, fs`inodes, fs`owner, fs`logged, fs`journal
    ensures unchanged(fs) && empty == L.IsEmpty(Nodes(fs.store, fs.inodes)[dp].entries)
  {
    hide Owns, OnDisk, Sized, Replay, Sectors, Content, Nodes;
    EntryCount(fs.store, fs.inodes, dp);
    var off := 2;
    while DIRENT * off < fs.inodes[dp].size
      invariant unchanged(fs) && off >= 2
      invariant forall k :: 2 <= k < off && k < |Nodes(fs.store, fs.inodes)[dp].entries| ==>
                  Nodes(fs.store, fs.inodes)[dp].entries[k].inum == 0
    {
      var inum := ReadInum(fs, dp, off);
      if inum != 0 {
        return false;
      }
      off := off + 1;
    }
    return true;
  }

  lemma EntryCount(s: seq<Block>, n: seq<Inode>, dp: nat)
    requires Tidy(n) && dp < |n| && n[dp].kind == T_DIR
    ensures DIRENT * |Nodes(s, n)[dp].entries| == n[dp].size
  {
    hide Content;
    assert TidyInode(n[dp]);
    NodesAt(s, n);
  }

  lemma KindsAgree(s: seq<Block>, n: seq<Inode>, i: nat)
    requires Tidy(n) && i < |n|
    ensures var node := Nodes(s, n)[i];
            (node.kind.Free? <==> n[i].kind == 0) && (node.kind.Dir? <==> n[i].kind == T_DIR) &&
              node.nlink == n[i].nlink
  {
    hide Content, Parse;
    NodesAt(s, n);
  }

  /** What has been logged fits in one transaction, if the disk has one bitmap block. */
  ghost predicate SmallLog(fs: FileSys)
    reads fs
  {
    (forall x :: x in fs.logged ==> x < fs.g.LogStart()) && (fs.g.size <= BPB ==> |fs.logged| <= 6)
  }

  /** create. An existing name is left alone, and led to if it and the request are both for a file. A new name keeps the
      tree in order exactly if the directory still is linked. Not `ok`: inodes, blocks, the directory or the parent's
      link count are at their limit. */
  method Create(fs: FileSys, dp: nat, field: seq<byte>, dir: bool, ghost home: map<nat, nat>)
    returns (ip: nat, ok: bool, ghost home': map<nat, nat>, ghost k: nat)
    requires InOrder(fs, home) && 0 < dp < |fs.inodes| && fs.inodes[dp].kind == T_DIR && |field| == DIRSIZ
    modifies fs
    ensures var nodes := Nodes(old(fs.store), old(fs.inodes));
            HasName(nodes[dp].entries, FieldName(field)) ==>
              && ok && unchanged(fs) && home' == home && InOrder(fs, home')
              && Found(nodes[dp].entries, fs.inodes, k, FieldName(field), dir, ip)
    ensures !ok ==> || NoFreeInode(old(fs.inodes)) || (dir && old(fs.inodes)[dp].nlink + 1 == 0x8000)
                    || (dir && DiskFull(fs.g, fs.store))
                    || NoRoom(Nodes(old(fs.store), old(fs.inodes))[dp].entries, fs.g, fs.store)
    ensures var nodes := Nodes(old(fs.store), old(fs.inodes));
            ok && !HasName(nodes[dp].entries, FieldName(field)) ==>
              && fs.Valid() && Tidy(fs.inodes) && 0 < ip < |fs.inodes| == |old(fs.inodes)|
              && Created(nodes, Nodes(fs.store, fs.inodes), dp, FieldName(field), dir, k, ip)
              && Kept(old(fs.store), old(fs.inodes), fs.store, fs.inodes, {dp, ip})
              && fs.inodes[ip].kind == (if dir then T_DIR else T_FILE) && fs.inodes[dp].kind == T_DIR
              && (!dir ==> fs.inodes[ip].size == 0)
              && (InOrder(fs, home') <==> L.IsLinkedDir(nodes, dp))
    ensures ok && old(fs.logged) == {} ==> SmallLog(fs)
    ensures fs.base == old(fs.base)
  {
    hide Owns, OnDisk, Sized, Replay, Sectors, Content, Parse, FieldName, Put, HasName, IsSlot, Nodes, L.Ok, Logs,
         NoRoom, DiskFull, NoFreeInode, Kept;
    home', ok, k := home, true, 0;
    var found := Lookup(fs, dp, field);
    if found != -1 {
      k := found;
      ip := ReadInum(fs, dp, found);
      NamedInode(Nodes(fs.store, fs.inodes), home, dp, found, fs.store, fs.inodes);
      if dir || fs.inodes[ip].kind != T_FILE {
        ip := 0;
      }
      return;
    }
    ghost var nodes := Nodes(fs.store, fs.inodes);
    KindsAgree(fs.store, fs.inodes, dp);
    ghost var s0, n0 := fs.store, fs.inodes;
    ghost var w;
    if dir {
      ip, ok, k, w := CreateDir(fs, dp, field);
      home' := home[ip := k];
    } else {
      ip, ok, k, w := CreateFile(fs, dp, field);
    }
    if ok {
      KindsAgree(s0, n0, ip);
      CreatedOk(nodes, home, Nodes(fs.store, fs.inodes), dp, FieldName(field), dir, k, ip);
      if old(fs.logged) == {} {
        LogIsSmall(fs.g, fs.store, fs.inodes, fs.owner, fs.logged, dp, ip, w);
      }
    }
  }

  /** Entry `k` has the name, and `ip` is its inode if that is a file and a file was asked for. */
  predicate Found(entries: seq<Dirent>, n: seq<Inode>, k: nat, name: string, dir: bool, ip: nat) {
    && Named(entries, k, name) && entries[k].inum < |n|
    && ip == if !dir && n[entries[k].inum].kind == T_FILE then entries[k].inum else 0
  }

  predicate Named(entries: seq<Dirent>, k: nat, name: string) {
    k < |entries| && entries[k].inum != 0 && entries[k].name == name
  }

  /** The tree after create of a new name. */
  ghost predicate Created(nodes: seq<L.Node>, nodes': seq<L.Node>, dp: nat, name: string, dir: bool, k: nat, ip: nat) {
    && dp < |nodes| && 0 < ip < |nodes| && nodes[ip].kind.Free? && ip != dp && IsSlot(nodes[dp].entries, k)
    && nodes' == if dir then L.WithDirName(L.WithNewDir(nodes, dp, ip), dp, name, k, ip)
         else L.WithFile(nodes, dp, name, k, ip)
  }

  lemma CreatedOk(nodes: seq<L.Node>, home: map<nat, nat>, nodes': seq<L.Node>, dp: nat, name: string, dir: bool,
                  k: nat, ip: nat)
    requires L.Ok(nodes, home) && |nodes| == L.NINODES && Created(nodes, nodes', dp, name, dir, k, ip)
    requires 0 < dp && nodes[dp].kind.Dir? && !HasName(nodes[dp].entries, name)
    ensures L.Ok(nodes', if dir then home[ip := k] else home) <==> L.IsLinkedDir(nodes, dp)
  {
    hide L.Tree, L.Conserved, L.NoDuplicates, Put, HasName, L.WithDirName, L.WithNewDir, L.WithFile;
    if L.IsLinkedDir(nodes, dp) {
      if dir {
        L.DirMade(nodes, home, dp, name, k, ip);
      } else {
        L.FileMade(nodes, home, dp, name, k, ip);
      }
    } else if dir {
      L.DirMadeNowhere(nodes, home, dp, name, k, ip, home[ip := k]);
    } else {
      L.FileMadeNowhere(nodes, home, dp, name, k, ip);
    }
  }

  lemma NamedInode(nodes: seq<L.Node>, home: map<nat, nat>, dp: nat, k: nat, s: seq<Block>, n: seq<Inode>)
    requires L.Ok(nodes, home) && Tidy(n) && nodes == Nodes(s, n) && 0 < dp < |n| && n[dp].kind == T_DIR
    requires k < |nodes[dp].entries| && nodes[dp].entries[k].inum != 0
    ensures nodes[dp].entries[k].inum < |n|
  {
    hide L.Tree, L.Conserved, L.NoDuplicates, Nodes;
    KindsAgree(s, n, dp);
    L.AnyTarget(nodes, home, dp, k);
  }

  /** sys_link: a new name for `ip`, or nothing. The tree stays in order exactly if the name is refused or the directory
      still is linked. Not `ok`: blocks, the directory or the link count are at their limit. */
  method Link(fs: FileSys, ip: nat, dp: nat, field: seq<byte>, ghost home: map<nat, nat>)
    returns (done: bool, ok: bool, ghost k: nat)
    requires InOrder(fs, home) && 0 < ip < |fs.inodes| && fs.inodes[ip].kind == T_FILE
    requires 0 < dp < |fs.inodes| && fs.inodes[dp].kind == T_DIR && |field| == DIRSIZ
    modifies fs
    ensures !ok ==> || old(fs.inodes)[ip].nlink + 1 == 0x8000
                    || NoRoom(Nodes(old(fs.store), old(fs.inodes))[dp].entries, fs.g, fs.store)
    ensures ok ==> fs.Valid() && Tidy(fs.inodes) && |fs.inodes| == |old(fs.inodes)|
    ensures ok ==> (done <==> !HasName(Nodes(old(fs.store), old(fs.inodes))[dp].entries, FieldName(field)))
    ensures ok && !done ==> Nodes(fs.store, fs.inodes) == Nodes(old(fs.store), old(fs.inodes))
    ensures ok && done ==>
              var nodes := Nodes(old(fs.store), old(fs.inodes));
              && IsSlot(nodes[dp].entries, k)
              && Nodes(fs.store, fs.inodes) == L.WithLink(nodes, dp, FieldName(field), k, ip)
    ensures ok ==> Kept(old(fs.store), old(fs.inodes), fs.store, fs.inodes, if done then {dp} else {})
    ensures ok ==> fs.inodes[dp].kind == T_DIR
    ensures ok ==> (InOrder(fs, home) <==> !done || L.IsLinkedDir(Nodes(old(fs.store), old(fs.inodes)), dp))
    ensures ok && old(fs.logged) == {} ==> SmallLog(fs)
    ensures fs.base == old(fs.base)
  {
    hide Owns, OnDisk, Sized, Replay, Sectors, Content, Parse, FieldName, Put, HasName, IsSlot, Nodes, L.Ok, Logs,
         NoRoom, L.WithLink, Kept;
    KindsAgree(fs.store, fs.inodes, ip);
    KindsAgree(fs.store, fs.inodes, dp);
    ghost var nodes := Nodes(fs.store, fs.inodes);
    ghost var w;
    done, ok, k, w := LinkFile(fs, ip, dp, field);
    if ok && done {
      LinkedOk(nodes, home, dp, FieldName(field), k, ip);
    }
    if ok && old(fs.logged) == {} {
      LogIsSmall(fs.g, fs.store, fs.inodes, fs.owner, fs.logged, dp, ip, w);
    }
  }

  lemma LinkedOk(nodes: seq<L.Node>, home: map<nat, nat>, dp: nat, name: string, k: nat, ip: nat)
    requires L.Ok(nodes, home) && 0 < dp < L.NINODES && nodes[dp].kind.Dir? && !HasName(nodes[dp].entries, name)
    requires 0 < ip < L.NINODES && nodes[ip].kind.File? && IsSlot(nodes[dp].entries, k)
    ensures L.Ok(L.WithLink(nodes, dp, name, k, ip), home) <==> L.IsLinkedDir(nodes, dp)
  {
    hide L.Tree, L.Conserved, L.NoDuplicates, Put, HasName;
    if L.IsLinkedDir(nodes, dp) {
      L.LinkMade(nodes, home, dp, name, k, ip);
    } else {
      L.LinkMadeNowhere(nodes, home, dp, name, k, ip);
    }
  }

  /** sys_unlink: entry `k` with the name goes, and what it led to loses a link, or nothing changes. The tree stays in
      order, whatever the state of the disk. */
  method Unlink(fs: FileSys, dp: nat, field: seq<byte>, last: bool, ghost home: map<nat, nat>)
    returns (done: bool, ghost k: nat)
    requires InOrder(fs, home) && 0 < dp < |fs.inodes| && fs.inodes[dp].kind == T_DIR && |field| == DIRSIZ
    modifies fs
    ensures InOrder(fs, home) && |fs.inodes| == |old(fs.inodes)|
    ensures done <==> L.MayUnlink(Nodes(old(fs.store), old(fs.inodes)), dp, FieldName(field))
    ensures !done ==> unchanged(fs)
    ensures done ==> NameGone(old(fs.store), old(fs.inodes), fs.store, fs.inodes, dp, k, FieldName(field), last)
    ensures old(fs.logged) == {} ==> SmallLog(fs)
    ensures fs.base == old(fs.base)
  {
    hide Owns, OnDisk, Sized, Replay, Sectors, Content, Parse, HasName, Nodes, L.Ok, L.MayUnlink, DotField, DotDotField,
         FieldName, Logs, Taken, Spared;
    done, k := false, 0;
    var c := StrNCmp(field, DotField(), DIRSIZ);
    var d := StrNCmp(field, DotDotField(), DIRSIZ);
    assert field[..DIRSIZ] == field && DotField()[..DIRSIZ] == DotField() && DotDotField()[..DIRSIZ] == DotDotField();
    ghost var nodes := Nodes(fs.store, fs.inodes);
    KindsAgree(fs.store, fs.inodes, dp);
    if c == 0 || d == 0 {
      DotsStay(nodes, dp, FieldName(field));
      return;
    }
    var off := Lookup(fs, dp, field);
    if off == -1 {
      NotThere(nodes, dp, FieldName(field));
      return;
    }
    Findable(nodes, home, dp, off, FieldName(field));
    var ip := ReadInum(fs, dp, off);
    KindsAgree(fs.store, fs.inodes, ip);
    if fs.inodes[ip].kind == T_DIR {
      var empty := IsDirEmpty(fs, ip);
      if !empty {
        return;
      }
    }
    done, k := true, off;
    RemovedOk(nodes, home, dp, off, last);
    ghost var i, w := UnlinkEntry(fs, dp, off, last);
    if old(fs.logged) == {} {
      LogIsSmall(fs.g, fs.store, fs.inodes, fs.owner, fs.logged, dp, i, w);
    }
  }

  lemma DotsStay(nodes: seq<L.Node>, dp: nat, name: string)
    requires name == "." || name == ".."
    ensures !L.MayUnlink(nodes, dp, name)
  {
  }

  lemma NotThere(nodes: seq<L.Node>, dp: nat, name: string)
    requires dp < |nodes| && !HasName(nodes[dp].entries, name)
    ensures !L.MayUnlink(nodes, dp, name)
  {
  }

  /** An entry that is found is the only one of its name, is beyond the first two, and may go unless it is a directory
      with entries. */
  lemma Findable(nodes: seq<L.Node>, home: map<nat, nat>, dp: nat, k: nat, name: string)
    requires L.Ok(nodes, home) && 0 < dp < |nodes| && nodes[dp].kind.Dir? && name != "." && name != ".."
    requires k < |nodes[dp].entries| && nodes[dp].entries[k].inum != 0 && nodes[dp].entries[k].name == name
    ensures L.Removable(nodes, home, dp, k) && nodes[dp].entries[k].inum < |nodes|
    ensures L.MayUnlink(nodes, dp, name) <==>
            var ip := nodes[dp].entries[k].inum; !(nodes[ip].kind.Dir? && !L.IsEmpty(nodes[ip].entries))
  {
    hide L.Tree, L.Conserved, L.NoDuplicates;
    L.NodesOk(nodes, home);
    assert L.NodeOk(nodes[dp], dp);
    L.RemovableTarget(nodes, home, dp, k);
    L.SameEntry(nodes, dp, k);
  }

  lemma EntryUnlinked(nodes: seq<L.Node>, home: map<nat, nat>, dp: nat, k: nat)
    requires L.Removable(nodes, home, dp, k) && nodes[dp].entries[k].inum < |nodes|
    requires var ip := nodes[dp].entries[k].inum; nodes[ip].kind.Dir? ==> L.IsEmpty(nodes[ip].entries)
    ensures L.UnlinkedOk(nodes, home, dp, k)
    ensures var ip := nodes[dp].entries[k].inum; 0 < ip && ip != dp && !nodes[ip].kind.Free? && nodes[dp].nlink > 0
  {
    hide L.Ok, L.UnlinkedOk, L.Names;
    L.RemovableTarget(nodes, home, dp, k);
    if nodes[nodes[dp].entries[k].inum].kind.Dir? {
      L.DirUnlinked(nodes, home, dp, k);
    } else {
      L.FileUnlinked(nodes, home, dp, k);
    }
  }

  /** Removing an entry that may go keeps the tree in order, with the inode freed or still held. */
  lemma RemovedOk(nodes: seq<L.Node>, home: map<nat, nat>, dp: nat, k: nat, last: bool)
    requires L.Removable(nodes, home, dp, k) && nodes[dp].entries[k].inum < |nodes|
    requires var ip := nodes[dp].entries[k].inum; nodes[ip].kind.Dir? ==> L.IsEmpty(nodes[ip].entries)
    ensures Takeable(nodes, dp, k) && L.Ok(Taken(nodes, dp, k, last), home)
  {
    hide L.Ok, L.Freed, L.Removable, L.IsEmpty;
    EntryUnlinked(nodes, home, dp, k);
    var ip, after := nodes[dp].entries[k].inum, L.Unlinked(nodes, dp, k);
    if last && after[ip].nlink == 0 {
      L.FreedKeeps(after, home, ip);
    }
  }
}
