/** The file layer on top of the log: the block writes of a file operation go through the log as one transaction, and a
    crash at any disk write leaves a file system that is wholly the old one or wholly the new one. */
module Transactions {
  import opened Bytes
  import opened Bitmap
  import opened Inodes
  import opened Dinodes
  import opened Journal
  import opened FileSystem
  import opened BufferCache
  import opened LogSpec
  import opened Log
  import opened Sequences

  /** Disk `d` stands for the contents `home` of the sectors below the log. */
  ghost predicate StandsFor(d: seq<Block>, start: nat, home: seq<Block>) {
    WellFormed(d, start) && Committed(d, start) == home
  }

  /** Of the disks passed through since the record had length `from`, those before `c` stand for `a`, and those from
      `c` on stand for `b`. */
  ghost predicate CommitsAt(trace: seq<seq<Block>>, from: nat, c: nat, start: nat, a: seq<Block>, b: seq<Block>) {
    && from <= c <= |trace|
    && (forall t :: from <= t < c ==> StandsFor(trace[t], start, a))
    && (forall t :: c <= t < |trace| ==> StandsFor(trace[t], start, b))
  }

  /** Part way through: the log has taken the writes `done`, and the home sectors and the header on disk are
      untouched. */
  ghost predicate Passed(base: seq<Block>, done: seq<(nat, Block)>, start: nat, contents: seq<Block>,
                         txn: map<nat, Block>, n: nat,
                         d0: seq<Block>, disk: seq<Block>, trace: seq<seq<Block>>, from: nat) {
    && start <= |base| && start <= |contents| && start < |d0| == |disk|
    && contents[..start] == Replay(base, done)[..start]
    && txn.Keys == Sectors(done) && n <= |Sectors(done)|
    && disk[..start + 1] == d0[..start + 1]
    && from <= |trace| && forall t :: from <= t < |trace| ==>
         |trace[t]| == |d0| && trace[t][..start + 1] == d0[..start + 1]
  }

  lemma NothingPassed(base: seq<Block>, start: nat, contents: seq<Block>, d0: seq<Block>, trace: seq<seq<Block>>)
    requires start <= |base| && start <= |contents| && start < |d0| && contents[..start] == base[..start]
    ensures Passed(base, [], start, contents, map[], 0, d0, d0, trace, |trace|)
  {
  }

  lemma PassedNext(base: seq<Block>, done: seq<(nat, Block)>, start: nat, contents: seq<Block>, txn: map<nat, Block>,
                   n: nat, d0: seq<Block>, disk: seq<Block>, trace: seq<seq<Block>>, from: nat, s: nat, blk: Block,
                   contents': seq<Block>, n': nat, disk': seq<Block>)
    requires Passed(base, done, start, contents, txn, n, d0, disk, trace, from) && s < start <= |contents'|
    requires |disk'| == |disk|
    requires n' == n + (if s in txn then 0 else 1) && contents'[..start] == contents[..start][s := blk]
    requires disk'[..start + 1] == disk[..start + 1]
    ensures Passed(base, done + [(s, blk)], start, contents', txn[s := blk], n', d0, disk', trace + [disk'], from)
  {
    hide Replay;
    Appended(base, done, s, blk);
    var r := Replay(base, done);
    assert r[s := blk][..start] == r[..start][s := blk];
    hide Sectors;
    if s in txn {
      assert Sectors(done) + {s} == Sectors(done);
    }
  }

  /** Until the header is written every disk stands for the old contents, and from that write on for the new ones. */
  lemma HeaderDecides(base: seq<Block>, done: seq<(nat, Block)>, start: nat, contents: seq<Block>, txn: map<nat, Block>,
                      n: nat, d0: seq<Block>, disk: seq<Block>, trace: seq<seq<Block>>, from: nat, sectors: seq<nat>)
    requires Passed(base, done, start, contents, txn, n, d0, disk, trace, from) && |d0| < U32
    requires HeaderCount(d0[start]) == 0
    requires d0[..start] == base[..start] && LogReady(disk, start, sectors)
    requires After(disk, start, sectors, |sectors|) == contents[..start]
    ensures CommitsAt(trace, from, |trace|, start, base[..start], contents[..start])
    ensures CommitsAt(trace + CommitTrace(disk, start, sectors), from, |trace|, start, base[..start], contents[..start])
  {
    hide WellFormed, Committed, CommitTrace, After, LogReady, HeaderCount, Replay, Sectors;
    StillOld(base, done, start, contents, txn, n, d0, disk, trace, from, contents[..start]);
    CommitCrashSafe(disk, start, sectors);
  }

  lemma FewerSectors(journal: seq<(nat, Block)>, k: nat)
    requires k < |journal|
    ensures journal[k].0 in Sectors(journal) && |Sectors(journal[..k])| <= |Sectors(journal)|
    ensures journal[..k + 1] == journal[..k] + [journal[k]]
  {
    SubsetSize(Sectors(journal[..k]), Sectors(journal));
  }

  /** The transaction that `fs` has made up so far is in the log up to write `k`. */
  ghost predicate Logged(fs: FileSys, log: TransLog, k: nat, d0: seq<Block>, from: nat)
    reads fs, log, log.cache, log.cache.disk
  {
    && fs.Journaled() && log.Valid() && log.busy && log.cache.held == {} && k <= |fs.journal|
    && Passed(fs.base, fs.journal[..k], log.start, log.cache.contents, log.txn, log.n, d0, log.cache.disk.sectors,
         log.cache.disk.trace, from)
  }

  /** The writes of `fs` can be one transaction: there are slots for them in the log, and buffers. */
  ghost predicate FitsLog(fs: FileSys, log: TransLog)
    reads fs
  {
    |fs.logged| + 2 <= log.size && |fs.logged| + 2 <= NBUF
  }

  /** bufcache_read, log_write and bufcache_release for write `k`. Not `ok` stands for the panics of log_write and
      bufcache_get. */
  method PassOn(fs: FileSys, log: TransLog, k: nat, ghost d0: seq<Block>, ghost from: nat) returns (ok: bool)
    requires Logged(fs, log, k, d0, from) && k < |fs.journal| && forall s :: s in fs.logged ==> s < log.start
    modifies log`n, log`sector, log`txn, log.cache, log.cache.disk
    ensures FitsLog(fs, log) ==> ok
    ensures !ok ==> log.cache.disk.trace == old(log.cache.disk.trace)
    ensures ok ==> Logged(fs, log, k + 1, d0, from)
    ensures ok ==> log.cache.disk.trace == old(log.cache.disk.trace) + [log.cache.disk.sectors]
  {
    hide Recorded, Replay, Ring, Aged, Fits, Full, Sectors;
    FewerSectors(fs.journal, k);
    ghost var contents, txn, n, disk, trace := log.cache.contents, log.txn, log.n, log.cache.disk.sectors,
      log.cache.disk.trace;
    var (s, blk) := fs.journal[k];
    ok := log.Update(s, blk);
    if ok {
      PassedNext(fs.base, fs.journal[..k], log.start, contents, txn, n, d0, disk, trace, from, s, blk,
                 log.cache.contents, log.n, log.cache.disk.sectors);
    }
  }

  /** begin_trans, the block writes of `fs` in order, and commit_trans. Disk write `c` is the one that commits. Not
      `ok` is a panic before that: every disk stands for the old store. */
  method Commit(fs: FileSys, log: TransLog) returns (ok: bool, ghost c: nat)
    requires log.Valid() && !log.busy && log.cache.held == {}
    requires fs.Journaled() && log.start <= |fs.store| && fs.base[..log.start] == log.cache.contents[..log.start]
    requires forall s :: s in fs.logged ==> s < log.start
    modifies log, log.cache, log.cache.disk
    ensures FitsLog(fs, log) || fs.journal == [] ==> ok
    ensures ok ==> log.Valid() && !log.busy && log.cache.held == {}
    ensures ok ==> log.cache.contents[..log.start] == fs.store[..log.start]
    ensures old(log.cache.disk.trace) <= log.cache.disk.trace
    ensures CommitsAt(log.cache.disk.trace, |old(log.cache.disk.trace)|, c, log.start, fs.base[..log.start],
                      fs.store[..log.start])
    ensures !ok ==> c == |log.cache.disk.trace|
  {
    hide Recorded, WellFormed, Committed, LogReady, CommitTrace, After, Replay, Ring, Aged, Fits, Full, Sectors,
         HeaderCount, CommitsAt;
    log.IdleAgrees();
    var begun := log.TryBegin();
    ghost var d0, from := log.cache.disk.sectors, |log.cache.disk.trace|;
    NothingPassed(fs.base, log.start, log.cache.contents, d0, log.cache.disk.trace);
    var k := 0;
    assert fs.journal[..0] == [];
    while k < |fs.journal|
      invariant 0 <= k <= |fs.journal| && Logged(fs, log, k, d0, from)
      invariant old(log.cache.disk.trace) <= log.cache.disk.trace
    {
      c := |log.cache.disk.trace|;
      StillOld(fs.base, fs.journal[..k], log.start, log.cache.contents, log.txn, log.n, d0, log.cache.disk.sectors,
               log.cache.disk.trace, from, fs.store[..log.start]);
      ok := PassOn(fs, log, k, d0, from);
      if !ok {
        return;
      }
      k := k + 1;
    }
    assert fs.journal[..k] == fs.journal;
    log.AfterIsWhatWasRead();
    HeaderDecides(fs.base, fs.journal, log.start, log.cache.contents, log.txn, log.n, d0, log.cache.disk.sectors,
                  log.cache.disk.trace, from, log.sector[..log.n]);
    ghost var n, trace := log.n, log.cache.disk.trace;
    c := |trace|;
    log.CommitTrans();
    assert n == 0 ==> log.cache.disk.trace == trace;
    ok := true;
  }

  /** Before the header is written every disk stands for the old contents. */
  lemma StillOld(base: seq<Block>, done: seq<(nat, Block)>, start: nat, contents: seq<Block>, txn: map<nat, Block>,
                 n: nat, d0: seq<Block>, disk: seq<Block>, trace: seq<seq<Block>>, from: nat, home: seq<Block>)
    requires Passed(base, done, start, contents, txn, n, d0, disk, trace, from) && |d0| < U32
    requires HeaderCount(d0[start]) == 0 && d0[..start] == base[..start]
    ensures CommitsAt(trace, from, |trace|, start, base[..start], home)
  {
    hide WellFormed, Committed, HeaderCount, Replay, Sectors;
    forall t | from <= t < |trace| ensures StandsFor(trace[t], start, base[..start]) {
      UncommittedInvisible(d0, trace[t], start);
    }
  }

  /** A file system: every block owned once, the bitmap exact, the inodes on disk, every file with just its blocks. */
  ghost predicate IsFileSystem(g: Geometry, s: seq<Block>, n: seq<Inode>, owner: map<nat, (nat, nat)>) {
    Owns(g, s, n, owner) && OnDisk(g, s, n) && forall j: nat :: j < |n| ==> Sized(s, n[j])
  }

  /** One transaction of file_write, all the way to the disk: before disk write `c` the disk stands for the store
      before, and from then on for the store after. */
  method WriteThrough(fs: FileSys, log: TransLog, i: nat, chunk: seq<byte>, off: nat)
    returns (r: int, ok: bool, ghost c: nat)
    requires fs.Valid() && i < |fs.inodes| && off < U32 && |chunk| <= MAXCHUNK
    requires log.Valid() && !log.busy && log.cache.held == {} && log.start == fs.g.LogStart()
    requires fs.store[..log.start] == log.cache.contents[..log.start]
    modifies fs, log, log.cache, log.cache.disk
    ensures r == -1 <==> off > old(fs.inodes)[i].size || off + |chunk| > MAXFILE * BSIZE
    ensures r == -1 ==> ok && fs.store == old(fs.store) && fs.inodes == old(fs.inodes) && fs.owner == old(fs.owner)
    ensures r != -1 ==> r == |chunk|
    ensures !ok ==> (|fs.store| == fs.g.size && NoFreeData(fs.g, fs.store)) || fs.g.size > BPB || log.size < 9
    ensures ok ==> fs.Valid() && log.Valid() && !log.busy && log.cache.held == {} && |fs.inodes| == |old(fs.inodes)|
    ensures ok ==> log.start <= |fs.store| && log.cache.contents[..log.start] == fs.store[..log.start]
    ensures ok && r != -1 ==>
              && Spliced(old(fs.store), old(fs.inodes), fs.store, fs.inodes, i, off, chunk)
              && fs.inodes == old(fs.inodes)[i := old(fs.inodes)[i].(addrs := fs.inodes[i].addrs,
                                             size := NewSize(old(fs.inodes)[i].size, off, |chunk|))]
    ensures old(log.cache.disk.trace) <= log.cache.disk.trace
    ensures log.start <= |old(fs.store)| && log.start <= |fs.store|
    ensures CommitsAt(log.cache.disk.trace, |old(log.cache.disk.trace)|, c, log.start,
                      old(fs.store)[..log.start], fs.store[..log.start])
    ensures !ok ==> c == |log.cache.disk.trace|
  {
    hide Owns, OnDisk, Sized, Spliced, Recorded, Ring, Aged, Fits, Replay, Sectors, CommitsAt, NoFreeData;
    StoreShape(fs.g, fs.store, fs.inodes, fs.owner);
    c := |log.cache.disk.trace|;
    r, ok := fs.WriteTransaction(i, chunk, off);
    if ok {
      StoreShape(fs.g, fs.store, fs.inodes, fs.owner);
      ok, c := Commit(fs, log);
    } else {
      NothingSince(log.cache.disk.trace, c, log.start, old(fs.store)[..log.start], fs.store[..log.start]);
    }
  }

  lemma NothingSince(trace: seq<seq<Block>>, from: nat, start: nat, a: seq<Block>, b: seq<Block>)
    requires from == |trace|
    ensures CommitsAt(trace, from, from, start, a, b)
  {
  }

  /** With no commit the new contents do not matter. */
  lemma Unmoved(trace: seq<seq<Block>>, from: nat, start: nat, a: seq<Block>, b: seq<Block>)
    requires CommitsAt(trace, from, |trace|, start, a, b)
    ensures CommitsAt(trace, from, |trace|, start, a, a)
  {
  }

  /** A file system at the end of a transaction, and how many bytes of the whole write are in it. */
  datatype Snapshot = Snapshot(store: seq<Block>, inodes: seq<Inode>, owner: map<nat, (nat, nat)>, done: nat)

  /** `snap` is a file system: `first` with the first `done` bytes of `src` written to file `i` at `off`. */
  ghost predicate Holds(g: Geometry, first: Snapshot, snap: Snapshot, i: nat, off: nat, src: seq<byte>) {
    && snap.done <= |src| && i < |first.inodes| == |snap.inodes|
    && IsFileSystem(g, snap.store, snap.inodes, snap.owner)
    && Spliced(first.store, first.inodes, snap.store, snap.inodes, i, off, src[..snap.done])
    && snap.inodes == first.inodes[i := first.inodes[i].(addrs := snap.inodes[i].addrs,
                                                         size := NewSize(first.inodes[i].size, off, snap.done))]
  }

  /** The file systems between the transactions of a write: whole chunks, and at the end perhaps a shorter one. */
  ghost predicate Chunked(g: Geometry, snaps: seq<Snapshot>, i: nat, off: nat, src: seq<byte>) {
    && |snaps| > 0
    && (forall k :: 0 <= k < |snaps| ==> Holds(g, snaps[0], snaps[k], i, off, src))
    && (forall k :: 0 <= k < |snaps| ==> snaps[k].done == if k * MAXCHUNK < |src| then k * MAXCHUNK else |src|)
  }

  /** `epoch[t]` tells which snapshot disk `t` of the write stands for. It never goes back. */
  ghost predicate Epochs(trace: seq<seq<Block>>, from: nat, start: nat, snaps: seq<Snapshot>, epoch: seq<nat>) {
    && from + |epoch| == |trace|
    && (forall t :: 0 <= t < |epoch| ==> InEpoch(trace[from + t], start, snaps, epoch[t]))
    && (forall t, u :: 0 <= t < u < |epoch| ==> epoch[t] <= epoch[u])
  }

  ghost predicate InEpoch(d: seq<Block>, start: nat, snaps: seq<Snapshot>, e: nat) {
    e < |snaps| && start <= |snaps[e].store| && StandsFor(d, start, snaps[e].store[..start])
  }

  /** One more transaction adds a snapshot and the disks before and after its commit. */
  lemma EpochsMore(trace: seq<seq<Block>>, from: nat, start: nat, snaps: seq<Snapshot>, epoch: seq<nat>,
                   trace': seq<seq<Block>>, c: nat, snap: Snapshot) returns (epoch': seq<nat>)
    requires Epochs(trace, from, start, snaps, epoch) && trace <= trace' && |snaps| > 0
    requires start <= |snaps[|snaps| - 1].store| && start <= |snap.store|
    requires CommitsAt(trace', |trace|, c, start, snaps[|snaps| - 1].store[..start], snap.store[..start])
    ensures Epochs(trace', from, start, snaps + [snap], epoch')
  {
    hide StandsFor;
    var last := |snaps| - 1;
    epoch' := epoch + seq(|trace'| - |trace|, t => if |trace| + t < c then last else last + 1);
    forall t | 0 <= t < |epoch'| ensures InEpoch(trace'[from + t], start, snaps + [snap], epoch'[t]) {
      if t < |epoch| {
        assert InEpoch(trace[from + t], start, snaps, epoch[t]);
      }
    }
    forall t | 0 <= t < |epoch| ensures epoch[t] <= last {
      assert InEpoch(trace[from + t], start, snaps, epoch[t]);
    }
  }

  /** The state in which a whole write stands after `n` bytes. */
  ghost predicate Written(fs: FileSys, log: TransLog, snaps: seq<Snapshot>, epoch: seq<nat>, from: nat,
                          i: nat, off: nat, src: seq<byte>, n: nat)
    reads fs, log, log.cache, log.cache.disk
  {
    && fs.Valid() && log.Valid() && !log.busy && log.cache.held == {} && log.start <= |fs.store|
    && log.cache.contents[..log.start] == fs.store[..log.start]
    && |snaps| > 0 && Chunked(fs.g, snaps, i, off, src) && Epochs(log.cache.disk.trace, from, log.start, snaps, epoch)
    && snaps[|snaps| - 1] == Snapshot(fs.store, fs.inodes, fs.owner, n)
  }

  /** file_write on an inode, all the way to the disk. Not `ok`: the disk is full. */
  method FileWriteThrough(fs: FileSys, log: TransLog, i: nat, src: seq<byte>, off: nat)
    returns (r: int, ok: bool, ghost snaps: seq<Snapshot>, ghost epoch: seq<nat>)
    requires fs.Valid() && i < |fs.inodes| && off <= fs.inodes[i].size
    requires log.Valid() && !log.busy && log.cache.held == {} && log.start == fs.g.LogStart()
    requires fs.store[..log.start] == log.cache.contents[..log.start]
    modifies fs, log, log.cache, log.cache.disk
    ensures Chunked(fs.g, snaps, i, off, src) && snaps[0] == Snapshot(old(fs.store), old(fs.inodes), old(fs.owner), 0)
    ensures Epochs(log.cache.disk.trace, |old(log.cache.disk.trace)|, log.start, snaps, epoch)
    ensures !ok ==> (|fs.store| == fs.g.size && NoFreeData(fs.g, fs.store)) || fs.g.size > BPB || log.size < 9
    ensures ok ==> var n := snaps[|snaps| - 1].done;
                   && n == FileSystem.Written(off, |src|) && r == (if n == |src| then |src| else -1)
                   && Written(fs, log, snaps, epoch, |old(log.cache.disk.trace)|, i, off, src, n)
  {
    hide Owns, OnDisk, Sized, Spliced, Recorded, Ring, Aged, Fits, Replay, Sectors, CommitsAt, NoFreeData,
         FileSystem.Written;
    hide Chunked, Epochs;
    ghost var from := |log.cache.disk.trace|;
    StoreShape(fs.g, fs.store, fs.inodes, fs.owner);
    snaps, epoch := [Snapshot(fs.store, fs.inodes, fs.owner, 0)], [];
    FirstSnapshot(fs.g, fs.store, fs.inodes, fs.owner, i, off, src, log.cache.disk.trace, log.start);
    r, ok := -1, true;
    var n := 0;
    while n < |src|
      invariant 0 <= n <= |src| && ok && Written(fs, log, snaps, epoch, from, i, off, src, n)
      invariant |fs.inodes| == |old(fs.inodes)| && off + n <= fs.inodes[i].size
      invariant FileSystem.Written(off, |src|) == n + FileSystem.Written(off + n, |src| - n)
      invariant snaps[0] == Snapshot(old(fs.store), old(fs.inodes), old(fs.owner), 0)
    {
      var n1 := if |src| - n > MAXCHUNK then MAXCHUNK else |src| - n;
      WrittenStep(off + n, |src| - n);
      SizedBound(fs.store, fs.inodes[i]);
      ghost var trace := log.cache.disk.trace;
      var c: int;
      ghost var at;
      c, ok, at := WriteThrough(fs, log, i, src[n..n + n1], off + n);
      if !ok {
        Unmoved(log.cache.disk.trace, |trace|, log.start, snaps[|snaps| - 1].store[..log.start],
                fs.store[..log.start]);
        epoch := EpochsOver(trace, from, log.start, snaps, epoch, log.cache.disk.trace, at);
        return;
      }
      if c < 0 {
        epoch := EpochsOver(trace, from, log.start, snaps, epoch, log.cache.disk.trace, at);
        break;
      }
      ghost var snap := Snapshot(fs.store, fs.inodes, fs.owner, n + n1);
      NextSnapshot(fs.g, snaps, snap, i, off, src, n, n1);
      epoch := EpochsMore(trace, from, log.start, snaps, epoch, log.cache.disk.trace, at, snap);
      snaps := snaps + [snap];
      n := n + n1;
    }
    WrittenNone(off + n);
    r := if n == |src| then |src| else -1;
  }

  lemma StoreShape(g: Geometry, s: seq<Block>, n: seq<Inode>, owner: map<nat, (nat, nat)>)
    requires Owns(g, s, n, owner)
    ensures |s| == g.size && g.LogStart() <= g.size
  {
  }

  /** Only the sectors below the log matter to the file system. */
  lemma HomeDecides(g: Geometry, s: seq<Block>, n: seq<Inode>, owner: map<nat, (nat, nat)>, s': seq<Block>)
    requires IsFileSystem(g, s, n, owner) && |s'| == |s| && 0 <= g.LogStart() <= |s|
    requires s'[..g.LogStart()] == s[..g.LogStart()]
    ensures IsFileSystem(g, s', n, owner) && SameBytes(s, n, s', n)
  {
    hide GetU32, GetInode, BlockBit;
    assert forall b :: 0 <= b < g.LogStart() ==> s'[b] == s'[..g.LogStart()][b] == s[..g.LogStart()][b] == s[b];
    BitmapBelowData(g, 0);
    forall x: nat | x < g.size ensures Marked(g, s', x) <==> Marked(g, s, x) {
      BitmapBelowData(g, x);
    }
    hide Marked;
    forall j: nat, q: nat | j < |n| && q < NSLOT ensures Addr(s', n[j], q) == Addr(s, n[j], q) {
      AddrOfIndirect(s, n[j]);
    }
    OwnsUnchanged(g, s, n, owner, s', n);
    SameFile(g, s, n, owner, s');
  }

  lemma SameFile(g: Geometry, s: seq<Block>, n: seq<Inode>, owner: map<nat, (nat, nat)>, s': seq<Block>)
    requires IsFileSystem(g, s, n, owner) && SameAddrs(s, n, s', n) && |s'| == |s|
    requires forall b :: 0 <= b < g.LogStart() && b < |s| ==> s'[b] == s[b]
    ensures OnDisk(g, s', n) && SameBytes(s, n, s', n) && forall j: nat :: j < |n| ==> Sized(s', n[j])
  {
    hide Addr, Marked, GetInode;
    BitmapBelowData(g, 0);
    OnDiskKept(g, s, s', n);
    forall j: nat | j < |n| ensures Sized(s', n[j]) {
      assert Sized(s, n[j]);
      MappedSame(s, s', n, j, BlocksFor(n[j].size));
    }
    forall j: nat, pos: nat | j < |n| && pos < MAXFILE * BSIZE ensures ByteAt(s', n[j], pos) == ByteAt(s, n[j], pos) {
      assert Addr(s', n[j], SlotOf(pos / BSIZE)) == Addr(s, n[j], SlotOf(pos / BSIZE));
    }
  }

  /** Crash consistency: after a crash at a disk that stands for a file system, and any number of crashes during
      recovery, a recovery that completes leaves that file system, with every byte of every file. */
  lemma CrashConsistent(g: Geometry, s: seq<Block>, n: seq<Inode>, w: map<nat, (nat, nat)>, start: nat,
                        ds: seq<seq<Block>>)
    requires IsFileSystem(g, s, n, w) && start == g.LogStart() && start <= |s|
    requires |ds| > 0 && CrashHistory(ds, start) && |ds[|ds| - 1]| == g.size && StandsFor(ds[0], start, s[..start])
    ensures WellFormed(ds[|ds| - 1], start)
    ensures var t := RecoveryTrace(ds[|ds| - 1], start);
            IsFileSystem(g, t[|t| - 1], n, w) && SameBytes(s, n, t[|t| - 1], n)
  {
    hide IsFileSystem, WellFormed, Committed, RecoveryTrace, CrashHistory, SameBytes;
    var last := ds[|ds| - 1];
    RepeatedCrashesSafe(ds, start);
    RecoveryCrashSafe(last, start);
    TraceSizes(last, start);
    FileSystemSize(g, s, n, w);
    var t := RecoveryTrace(last, start);
    HomeDecides(g, s, n, w, t[|t| - 1]);
  }

  /** A crash at any disk write of a file_write leaves a file system in which a whole number of chunks has been
      written, or all of the write: the contents of the file are the old ones with just those bytes put in, and every
      other file is as it was. A later crash never leaves fewer chunks than an earlier one. */
  lemma WriteCrashConsistent(g: Geometry, snaps: seq<Snapshot>, i: nat, off: nat, src: seq<byte>,
                             trace: seq<seq<Block>>, from: nat,
                             start: nat, epoch: seq<nat>, t: nat, ds: seq<seq<Block>>)
    requires Chunked(g, snaps, i, off, src) && Epochs(trace, from, start, snaps, epoch) && start == g.LogStart()
    requires t < |epoch|
    requires i < |snaps[0].inodes| && off <= snaps[0].inodes[i].size
    requires |ds| > 0 && ds[0] == trace[from + t] && CrashHistory(ds, start) && |ds[|ds| - 1]| == g.size
    ensures WellFormed(ds[|ds| - 1], start) && epoch[t] < |snaps| && snaps[epoch[t]].done <= |src|
    ensures |snaps[epoch[t]].inodes| == |snaps[0].inodes|
    ensures var run, snap := RecoveryTrace(ds[|ds| - 1], start), snaps[epoch[t]];
            var r := run[|run| - 1];
            && IsFileSystem(g, r, snap.inodes, snap.owner)
            && Content(r, snap.inodes[i]) ==
                 Overwritten(Content(snaps[0].store, snaps[0].inodes[i]), off, src[..snap.done])
            && forall j: nat :: j < |snap.inodes| && j != i ==>
                 Content(r, snap.inodes[j]) == Content(snaps[0].store, snaps[0].inodes[j])
  {
    hide IsFileSystem, CrashHistory, RecoveryTrace, StandsFor, Spliced, Content, SameBytes, Overwritten;
    assert InEpoch(trace[from + t], start, snaps, epoch[t]);
    var first, snap := snaps[0], snaps[epoch[t]];
    assert Holds(g, first, first, i, off, src) && Holds(g, first, snap, i, off, src);
    CrashConsistent(g, snap.store, snap.inodes, snap.owner, start, ds);
    var run := RecoveryTrace(ds[|ds| - 1], start);
    TraceSizes(ds[|ds| - 1], start);
    SizesBounded(g, first.store, first.inodes, first.owner);
    SizesBounded(g, snap.store, snap.inodes, snap.owner);
    WriteIsSplice(first.store, first.inodes, snap.store, snap.inodes, i, off, src[..snap.done]);
    forall j: nat | j < |snap.inodes|
      ensures Content(run[|run| - 1], snap.inodes[j]) == Content(snap.store, snap.inodes[j])
    {
      SameContent(snap.store, snap.inodes, run[|run| - 1], j);
    }
  }

  lemma SizesBounded(g: Geometry, s: seq<Block>, n: seq<Inode>, w: map<nat, (nat, nat)>)
    requires IsFileSystem(g, s, n, w)
    ensures forall j: nat :: j < |n| ==> |n[j].addrs| == NDIRECT + 1 && n[j].size <= MAXFILE * BSIZE
  {
    forall j: nat | j < |n| ensures n[j].size <= MAXFILE * BSIZE {
      assert Sized(s, n[j]);
      SizedBound(s, n[j]);
    }
  }

  lemma SameContent(s: seq<Block>, n: seq<Inode>, s': seq<Block>, j: nat)
    requires SameBytes(s, n, s', n) && j < |n| && n[j].size <= MAXFILE * BSIZE
    ensures Content(s', n[j]) == Content(s, n[j])
  {
  }

  lemma FirstSnapshot(g: Geometry, s: seq<Block>, n: seq<Inode>, w: map<nat, (nat, nat)>, i: nat, off: nat,
                      src: seq<byte>, trace: seq<seq<Block>>, start: nat)
    requires IsFileSystem(g, s, n, w) && i < |n|
    ensures Chunked(g, [Snapshot(s, n, w, 0)], i, off, src) && Epochs(trace, |trace|, start, [Snapshot(s, n, w, 0)], [])
  {
    hide IsFileSystem, Spliced;
    SizesBounded(g, s, n, w);
    SplicedNothing(s, n, i, off);
    assert n == n[i := n[i].(addrs := n[i].addrs, size := NewSize(n[i].size, off, 0))];
  }

  lemma NextSnapshot(g: Geometry, snaps: seq<Snapshot>, snap: Snapshot, i: nat, off: nat, src: seq<byte>, n: nat,
                     n1: nat)
    requires Chunked(g, snaps, i, off, src) && IsFileSystem(g, snap.store, snap.inodes, snap.owner)
    requires n + n1 <= |src| && snap.done == n + n1 && snaps[|snaps| - 1].done == n < |src|
    requires n1 == if |src| - n > MAXCHUNK then MAXCHUNK else |src| - n
    requires var last := snaps[|snaps| - 1];
             && i < |last.inodes| == |snap.inodes|
             && Spliced(last.store, last.inodes, snap.store, snap.inodes, i, off + n, src[n..n + n1])
             && snap.inodes == last.inodes[i := last.inodes[i].(addrs := snap.inodes[i].addrs,
                                                                size := NewSize(last.inodes[i].size, off + n, n1))]
    ensures Chunked(g, snaps + [snap], i, off, src)
  {
    hide IsFileSystem, Spliced;
    var first, last := snaps[0], snaps[|snaps| - 1];
    assert Holds(g, first, last, i, off, src);
    SplicedAdjacent(first.store, first.inodes, last.store, last.inodes, snap.store, snap.inodes, i, off, src[..n],
      src[n..n + n1]);
    assert src[..n] + src[n..n + n1] == src[..n + n1];
    assert Holds(g, first, snap, i, off, src);
  }

  /** A transaction that changes nothing adds disks that stand for the same file system. */
  lemma EpochsOver(trace: seq<seq<Block>>, from: nat, start: nat, snaps: seq<Snapshot>, epoch: seq<nat>,
                   trace': seq<seq<Block>>, c: nat) returns (epoch': seq<nat>)
    requires Epochs(trace, from, start, snaps, epoch) && trace <= trace' && |snaps| > 0
    requires start <= |snaps[|snaps| - 1].store|
    requires var home := snaps[|snaps| - 1].store[..start]; CommitsAt(trace', |trace|, c, start, home, home)
    ensures Epochs(trace', from, start, snaps, epoch')
  {
    hide StandsFor;
    var last := |snaps| - 1;
    epoch' := epoch + seq(|trace'| - |trace|, t => last);
    forall t | 0 <= t < |epoch'| ensures InEpoch(trace'[from + t], start, snaps, epoch'[t]) {
      if t < |epoch| {
        assert InEpoch(trace[from + t], start, snaps, epoch[t]);
      }
    }
    forall t | 0 <= t < |epoch| ensures epoch[t] <= last {
      assert InEpoch(trace[from + t], start, snaps, epoch[t]);
    }
  }

  lemma FileSystemSize(g: Geometry, s: seq<Block>, n: seq<Inode>, owner: map<nat, (nat, nat)>)
    requires IsFileSystem(g, s, n, owner)
    ensures |s| == g.size
  {
  }

  lemma TraceSizes(d: seq<Block>, start: nat)
    requires WellFormed(d, start)
    ensures var t := RecoveryTrace(d, start); |t| > 0 && |t[|t| - 1]| == |d|
  {
  }
}
