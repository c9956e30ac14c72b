/** create, link and unlink as transactions: a crash at any disk write leaves the tree as it was before the call or as
    it is after it. */
module TreeCrash {
  import opened Bytes
  import opened Bitmap
  import opened Inodes
  import opened Dinodes
  import opened Dirents
  import opened FileSystem
  import opened BufferCache
  import opened LogSpec
  import opened Log
  import opened Journal
  import opened Params
  import opened Directories
  import opened DirTree
  import opened Transactions
  import L = Links

  /** The log holds nothing and its cache shows the file system. */
  ghost predicate Ready(fs: FileSys, log: TransLog)
    reads fs, log, log.cache, log.cache.disk
  {
    && log.Valid() && !log.busy && log.cache.held == {} && log.start == fs.g.LogStart() <= |fs.store|
    && fs.store[..log.start] == log.cache.contents[..log.start]
  }

  /** The disk is larger than one bitmap block can describe, or the log smaller than such a transaction. */
  predicate BeyondLog(g: Geometry, size: nat) {
    g.size > BPB || size < 8
  }

  /** The disks of a call: before write `c` they stand for the store `s`, and from then on for `s'`. */
  ghost predicate Split(before: seq<seq<Block>>, trace: seq<seq<Block>>, start: nat, c: nat, s: seq<Block>,
                        s': seq<Block>) {
    before <= trace && start <= |s| && start <= |s'| && CommitsAt(trace, |before|, c, start, s[..start], s'[..start])
  }

  /** What was logged goes to the disk. Not `ok`: it does not fit. */
  method CommitTree(fs: FileSys, log: TransLog) returns (ok: bool, ghost c: nat)
    requires fs.Valid() && SmallLog(fs) && log.Valid() && !log.busy && log.cache.held == {}
    requires log.start == fs.g.LogStart() <= |fs.base| && fs.base[..log.start] == log.cache.contents[..log.start]
    modifies log, log.cache, log.cache.disk
    ensures !ok ==> BeyondLog(fs.g, log.size) && c == |log.cache.disk.trace|
    ensures ok ==> Ready(fs, log)
    ensures Split(old(log.cache.disk.trace), log.cache.disk.trace, log.start, c, fs.base, fs.store)
  {
    hide Owns, OnDisk, Sized, Recorded, Ring, Aged, Fits, Replay, Sectors, CommitsAt;
    StoreShape(fs.g, fs.store, fs.inodes, fs.owner);
    ok, c := Commit(fs, log);
  }

  lemma Unsplit(before: seq<seq<Block>>, trace: seq<seq<Block>>, start: nat, c: nat, s: seq<Block>, s': seq<Block>)
    requires Split(before, trace, start, c, s, s')
    ensures c == |trace| ==> Split(before, trace, start, c, s, s)
  {
  }

  /** sys_unlink as a transaction. It succeeds whatever the state of the disk. */
  method UnlinkThrough(fs: FileSys, log: TransLog, dp: nat, field: seq<byte>, last: bool, ghost home: map<nat, nat>)
    returns (done: bool, ok: bool, ghost k: nat, ghost c: nat)
    requires InOrder(fs, home) && 0 < dp < |fs.inodes| && fs.inodes[dp].kind == T_DIR && |field| == DIRSIZ
    requires Ready(fs, log)
    modifies fs, log, log.cache, log.cache.disk
    ensures InOrder(fs, home)
    ensures Split(old(log.cache.disk.trace), log.cache.disk.trace, log.start, c, old(fs.store), fs.store)
    ensures !ok ==> BeyondLog(fs.g, log.size) && c == |log.cache.disk.trace|
    ensures ok ==> Ready(fs, log)
    ensures done <==> L.MayUnlink(Nodes(old(fs.store), old(fs.inodes)), dp, FieldName(field))
    ensures !done ==> fs.store == old(fs.store) && fs.inodes == old(fs.inodes)
    ensures done ==> NameGone(old(fs.store), old(fs.inodes), fs.store, fs.inodes, dp, k, FieldName(field), last)
  {
    hide Owns, OnDisk, Sized, Recorded, Ring, Aged, Fits, Replay, Sectors, CommitsAt, Nodes, L.Ok, L.MayUnlink,
         SmallLog, FieldName, NameGone;
    StoreShape(fs.g, fs.store, fs.inodes, fs.owner);
    fs.BeginTrans();
    done, k := DirTree.Unlink(fs, dp, field, last, home);
    ok, c := CommitTree(fs, log);
  }

  /** sys_link as a transaction, once both paths are resolved. */
  method LinkThrough(fs: FileSys, log: TransLog, ip: nat, dp: nat, field: seq<byte>, ghost home: map<nat, nat>)
    returns (done: bool, ok: bool, ghost k: nat, ghost c: nat)
    requires InOrder(fs, home) && 0 < ip < |fs.inodes| && fs.inodes[ip].kind == T_FILE
    requires 0 < dp < |fs.inodes| && fs.inodes[dp].kind == T_DIR && |field| == DIRSIZ && Ready(fs, log)
    modifies fs, log, log.cache, log.cache.disk
    ensures !ok ==> || old(fs.inodes)[ip].nlink + 1 == 0x8000 || BeyondLog(fs.g, log.size)
                    || NoRoom(Nodes(old(fs.store), old(fs.inodes))[dp].entries, fs.g, fs.store)
    ensures !ok ==> c == |log.cache.disk.trace|
    ensures Split(old(log.cache.disk.trace), log.cache.disk.trace, log.start, c, old(fs.store),
                  if ok then fs.store else old(fs.store))
    ensures ok ==> fs.Valid() && Tidy(fs.inodes) && |fs.inodes| == |old(fs.inodes)| && Ready(fs, log)
    ensures ok ==> (done <==> !HasName(Nodes(old(fs.store), old(fs.inodes))[dp].entries, FieldName(field)))
    ensures ok && !done ==> Nodes(fs.store, fs.inodes) == Nodes(old(fs.store), old(fs.inodes))
    ensures ok && done ==>
              var nodes := Nodes(old(fs.store), old(fs.inodes));
              && IsSlot(nodes[dp].entries, k)
              && Nodes(fs.store, fs.inodes) == L.WithLink(nodes, dp, FieldName(field), k, ip)
    ensures ok ==> Kept(old(fs.store), old(fs.inodes), fs.store, fs.inodes, if done then {dp} else {})
    ensures ok ==> (InOrder(fs, home) <==> !done || L.IsLinkedDir(Nodes(old(fs.store), old(fs.inodes)), dp))
  {
    hide Owns, OnDisk, Sized, Recorded, Ring, Aged, Fits, Replay, Sectors, CommitsAt, Nodes, L.Ok, SmallLog, FieldName,
         HasName, IsSlot, NoRoom, L.WithLink, L.IsLinkedDir, Kept;
    StoreShape(fs.g, fs.store, fs.inodes, fs.owner);
    fs.BeginTrans();
    done, ok, k := Link(fs, ip, dp, field, home);
    if ok {
      ok, c := CommitTree(fs, log);
      Unsplit(old(log.cache.disk.trace), log.cache.disk.trace, log.start, c, old(fs.store), fs.store);
    } else {
      c := |log.cache.disk.trace|;
      NothingSince(log.cache.disk.trace, c, log.start, old(fs.store)[..log.start], old(fs.store)[..log.start]);
    }
  }

  /** create as a transaction, as sys_open and sys_mkdir have it. */
  method CreateThrough(fs: FileSys, log: TransLog, dp: nat, field: seq<byte>, dir: bool, ghost home: map<nat, nat>)
    returns (ip: nat, ok: bool, ghost home': map<nat, nat>, ghost k: nat, ghost c: nat)
    requires InOrder(fs, home) && 0 < dp < |fs.inodes| && fs.inodes[dp].kind == T_DIR && |field| == DIRSIZ
    requires Ready(fs, log)
    modifies fs, log, log.cache, log.cache.disk
    ensures !ok ==> || NoFreeInode(old(fs.inodes)) || (dir && old(fs.inodes)[dp].nlink + 1 == 0x8000)
                    || (dir && DiskFull(fs.g, fs.store)) || BeyondLog(fs.g, log.size)
                    || NoRoom(Nodes(old(fs.store), old(fs.inodes))[dp].entries, fs.g, fs.store)
    ensures !ok ==> c == |log.cache.disk.trace|
    ensures Split(old(log.cache.disk.trace), log.cache.disk.trace, log.start, c, old(fs.store),
                  if ok then fs.store else old(fs.store))
    ensures ok ==> Ready(fs, log) && |fs.inodes| == |old(fs.inodes)|
    ensures var nodes := Nodes(old(fs.store), old(fs.inodes));
            ok && HasName(nodes[dp].entries, FieldName(field)) ==>
              && fs.store == old(fs.store) && fs.inodes == old(fs.inodes) && home' == home && InOrder(fs, home')
              && Found(nodes[dp].entries, fs.inodes, k, FieldName(field), dir, ip)
    ensures var nodes := Nodes(old(fs.store), old(fs.inodes));
            ok && !HasName(nodes[dp].entries, FieldName(field)) ==>
              && Tidy(fs.inodes) && Created(nodes, Nodes(fs.store, fs.inodes), dp, FieldName(field), dir, k, ip)
              && Kept(old(fs.store), old(fs.inodes), fs.store, fs.inodes, {dp, ip})
              && (InOrder(fs, home') <==> L.IsLinkedDir(nodes, dp))
  {
    hide Owns, OnDisk, Sized, Recorded, Ring, Aged, Fits, Replay, Sectors, CommitsAt, Nodes, L.Ok, SmallLog, FieldName,
         HasName, NoRoom, L.IsLinkedDir, Created, DiskFull, NoFreeInode, Kept;
    StoreShape(fs.g, fs.store, fs.inodes, fs.owner);
    fs.BeginTrans();
    ip, ok, home', k := Create(fs, dp, field, dir, home);
    if ok {
      ok, c := CommitTree(fs, log);
      Unsplit(old(log.cache.disk.trace), log.cache.disk.trace, log.start, c, old(fs.store), fs.store);
    } else {
      c := |log.cache.disk.trace|;
      NothingSince(log.cache.disk.trace, c, log.start, old(fs.store)[..log.start], old(fs.store)[..log.start]);
    }
  }

  /** After a crash at any disk that stands for a tree in order, and any crashes in recovery, the disk holds that tree:
      the same names and link counts, one name for every link. */
  lemma TreeSurvives(g: Geometry, s: seq<Block>, n: seq<Inode>, w: map<nat, (nat, nat)>, home: map<nat, nat>,
                     start: nat, ds: seq<seq<Block>>)
    requires IsFileSystem(g, s, n, w) && Tidy(n) && L.Ok(Nodes(s, n), home) && start == g.LogStart() && start <= |s|
    requires |ds| > 0 && CrashHistory(ds, start) && |ds[|ds| - 1]| == g.size && StandsFor(ds[0], start, s[..start])
    ensures WellFormed(ds[|ds| - 1], start)
    ensures var t := RecoveryTrace(ds[|ds| - 1], start);
            var r := t[|t| - 1];
            && IsFileSystem(g, r, n, w) && Nodes(r, n) == Nodes(s, n) && L.Ok(Nodes(r, n), home)
            && Kept(s, n, r, n, {})
  {
    hide IsFileSystem, L.Ok, WellFormed, StandsFor, CrashHistory, RecoveryTrace, SameBytes, Kept;
    CrashConsistent(g, s, n, w, start, ds);
    var t := RecoveryTrace(ds[|ds| - 1], start);
    TraceSizes(ds[|ds| - 1], start);
    SameNodes(s, n, t[|t| - 1]);
  }

  /** A file system with its tree. */
  datatype Tree = Tree(store: seq<Block>, inodes: seq<Inode>, owner: map<nat, (nat, nat)>, home: map<nat, nat>)

  ghost predicate Sound(g: Geometry, t: Tree) {
    && IsFileSystem(g, t.store, t.inodes, t.owner) && Tidy(t.inodes) && L.Ok(Nodes(t.store, t.inodes), t.home)
    && 0 <= g.LogStart() <= |t.store|
  }

  /** A crash at disk `at` of a call that leads from tree `a` to tree `b`, and any crashes in recovery: recovery leaves
      `a` if the header was not written yet, and `b` if it was. */
  lemma TreeCrashConsistent(g: Geometry, a: Tree, b: Tree, before: seq<seq<Block>>, trace: seq<seq<Block>>, c: nat,
                            at: nat, ds: seq<seq<Block>>)
    requires Sound(g, a) && Sound(g, b) && Split(before, trace, g.LogStart(), c, a.store, b.store)
    requires |before| <= at < |trace| && |ds| > 0 && ds[0] == trace[at]
    requires CrashHistory(ds, g.LogStart()) && |ds[|ds| - 1]| == g.size
    ensures WellFormed(ds[|ds| - 1], g.LogStart())
    ensures var run, t := RecoveryTrace(ds[|ds| - 1], g.LogStart()), if at < c then a else b;
            var r := run[|run| - 1];
            && IsFileSystem(g, r, t.inodes, t.owner) && Nodes(r, t.inodes) == Nodes(t.store, t.inodes)
            && L.Ok(Nodes(r, t.inodes), t.home) && Kept(t.store, t.inodes, r, t.inodes, {})
  {
    hide IsFileSystem, L.Ok, WellFormed, StandsFor, CrashHistory, RecoveryTrace, Nodes, Kept;
    var t := if at < c then a else b;
    TreeSurvives(g, t.store, t.inodes, t.owner, t.home, g.LogStart(), ds);
  }

  /** A crash at any disk of a call that spares the files outside `but`, and any crashes in recovery: recovery leaves
      every one of those files with the bytes it had before the call. */
  lemma CrashSparesFiles(g: Geometry, a: Tree, b: Tree, but: set<nat>, before: seq<seq<Block>>, trace: seq<seq<Block>>,
                         c: nat, at: nat, ds: seq<seq<Block>>)
    requires Sound(g, a) && Sound(g, b) && Split(before, trace, g.LogStart(), c, a.store, b.store)
    requires Kept(a.store, a.inodes, b.store, b.inodes, but)
    requires |before| <= at < |trace| && |ds| > 0 && ds[0] == trace[at]
    requires CrashHistory(ds, g.LogStart()) && |ds[|ds| - 1]| == g.size
    ensures WellFormed(ds[|ds| - 1], g.LogStart())
    ensures var run, t := RecoveryTrace(ds[|ds| - 1], g.LogStart()), if at < c then a else b;
            Kept(a.store, a.inodes, run[|run| - 1], t.inodes, but)
  {
    hide IsFileSystem, L.Ok, WellFormed, StandsFor, CrashHistory, RecoveryTrace, Nodes;
    TreeCrashConsistent(g, a, b, before, trace, c, at, ds);
    hide Kept;
    TraceSizes(ds[|ds| - 1], g.LogStart());
    var run := RecoveryTrace(ds[|ds| - 1], g.LogStart());
    if at < c {
      KeptWider(a.store, a.inodes, run[|run| - 1], a.inodes, {}, but);
    } else {
      KeptThen(a.store, a.inodes, b.store, b.inodes, run[|run| - 1], b.inodes, but, {});
      assert but + {} == but;
    }
  }

  lemma KeptWider(s: seq<Block>, n: seq<Inode>, s': seq<Block>, n': seq<Inode>, a: set<nat>, b: set<nat>)
    requires Kept(s, n, s', n', a) && a <= b
    ensures Kept(s, n, s', n', b)
  {
    hide Content;
  }

  lemma SameNodes(s: seq<Block>, n: seq<Inode>, s': seq<Block>)
    requires Tidy(n) && SameBytes(s, n, s', n)
    ensures Nodes(s', n) == Nodes(s, n) && Kept(s, n, s', n, {})
  {
    hide SameBytes, Content, Parse;
    NodesAt(s, n);
    NodesAt(s', n);
    forall j | 0 <= j < |n| ensures Nodes(s', n)[j] == Nodes(s, n)[j] && KeepsFile(s, n[j], s', n[j]) {
      SameContent(s, n, s', j);
    }
  }
}
