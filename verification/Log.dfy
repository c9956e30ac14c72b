/** The redo log: one transaction at a time, absorption of repeated writes, pinned dirty buffers,
    commit and recovery, running on the buffer cache. */
module Log {
  import opened Bytes
  import opened BufferCache
  import opened LogSpec
  import opened Sequences

  ghost function ToSet(xs: seq<nat>): set<nat> {
    set x | x in xs
  }

  lemma ToSetRest(xs: seq<nat>, k: nat, n: nat)
    requires k < n <= |xs| && forall i, j :: 0 <= i < j < n ==> xs[i] != xs[j]
    ensures xs[k] in ToSet(xs[k..n]) && ToSet(xs[k..n]) - {xs[k]} == ToSet(xs[k + 1..n])
  {
  }

  lemma ToSetNone(xs: seq<nat>)
    requires xs == []
    ensures ToSet(xs) == {}
  {
  }

  lemma {:induction false} ToSetSize(xs: seq<nat>)
    ensures |ToSet(xs)| <= |xs|
  {
    if xs != [] {
      ToSetSize(xs[1..]);
      assert ToSet(xs) == {xs[0]} + ToSet(xs[1..]);
    }
  }

  /** The transaction so far: the header on disk is empty, the log blocks hold the data last logged for
      each sector, exactly the logged sectors are pinned, and whoever reads one sees the logged data. */
  ghost predicate Recorded(contents: seq<Block>, held: set<nat>, pinned: set<nat>, disk: seq<Block>, start: nat,
                           sectors: seq<nat>, txn: map<nat, Block>)
  {
    && start + |sectors| < |disk| == |contents|
    && HeaderCount(disk[start]) == 0
    && (forall k :: 0 <= k < |sectors| ==> sectors[k] < start)
    && pinned == ToSet(sectors) == txn.Keys
    && (forall k :: 0 <= k < |sectors| ==> disk[start + 1 + k] == txn[sectors[k]])
    && (forall s :: s in pinned && s !in held ==> contents[s] == txn[s])
  }

  lemma PinnedAre(contents: seq<Block>, held: set<nat>, pinned: set<nat>, disk: seq<Block>, start: nat,
                  sectors: seq<nat>, txn: map<nat, Block>)
    requires Recorded(contents, held, pinned, disk, start, sectors, txn)
    ensures pinned == ToSet(sectors) == txn.Keys
  {
  }

  /** Logging the data of sector `s` in slot `i`, which is its slot if it has one and a new slot if not. */
  lemma RecordedAfter(contents: seq<Block>, held: set<nat>, pinned: set<nat>, disk: seq<Block>, start: nat,
                      sectors: seq<nat>, txn: map<nat, Block>, s: nat, i: nat)
    requires Recorded(contents, held, pinned, disk, start, sectors, txn) && start + 1 + i < |disk|
    requires s < start && s in held && i <= |sectors| && (i < |sectors| ==> sectors[i] == s) && s !in sectors[..i]
    requires forall j, k :: 0 <= j < k < |sectors| ==> sectors[j] != sectors[k]
    ensures i < |sectors| <==> s in txn
    ensures Recorded(contents[start + 1 + i := contents[s]], held, pinned + {s}, disk[start + 1 + i := contents[s]],
              start,
                     if i < |sectors| then sectors else sectors + [s], txn[s := contents[s]])
  {
    hide ToSet, Recorded;
    PinnedAre(contents, held, pinned, disk, start, sectors, txn);
    if i < |sectors| {
      SlotTaken(sectors, i);
      RecordedAgain(contents, held, pinned, disk, start, sectors, txn, i);
    } else {
      assert sectors[..i] == sectors;
      SlotAdded(sectors, s);
      RecordedNew(contents, held, pinned, disk, start, sectors, txn, s);
    }
  }

  lemma RecordedAgain(contents: seq<Block>, held: set<nat>, pinned: set<nat>, disk: seq<Block>, start: nat,
                      sectors: seq<nat>, txn: map<nat, Block>, i: nat)
    requires Recorded(contents, held, pinned, disk, start, sectors, txn) && i < |sectors| && sectors[i] in held
    requires forall j, k :: 0 <= j < k < |sectors| ==> sectors[j] != sectors[k]
    ensures var s := sectors[i];
            Recorded(contents[start + 1 + i := contents[s]], held, pinned + {s}, disk[start + 1 + i := contents[s]],
              start, sectors,
                     txn[s := contents[s]])
  {
    hide ToSet;
    SlotTaken(sectors, i);
    assert pinned + {sectors[i]} == pinned && txn[sectors[i] := contents[sectors[i]]].Keys == txn.Keys;
  }

  lemma RecordedNew(contents: seq<Block>, held: set<nat>, pinned: set<nat>, disk: seq<Block>, start: nat,
                    sectors: seq<nat>, txn: map<nat, Block>, s: nat)
    requires Recorded(contents, held, pinned, disk, start, sectors, txn) && s !in sectors && s < start && s in held
    requires start + 1 + |sectors| < |disk|
    ensures var i := |sectors|;
            Recorded(contents[start + 1 + i := contents[s]], held, pinned + {s}, disk[start + 1 + i := contents[s]],
              start, sectors + [s],
                     txn[s := contents[s]])
  {
    hide ToSet;
    SlotAdded(sectors, s);
    assert txn[s := contents[s]].Keys == txn.Keys + {s};
  }

  lemma SlotTaken(sectors: seq<nat>, i: nat)
    requires i < |sectors|
    ensures sectors[i] in ToSet(sectors) && ToSet(sectors) + {sectors[i]} == ToSet(sectors)
    ensures forall k :: 0 <= k < |sectors| ==> sectors[k] in ToSet(sectors)
    ensures forall x :: x in ToSet(sectors) ==> x in sectors
  {
  }

  lemma SlotAdded(sectors: seq<nat>, s: nat)
    requires s !in sectors
    ensures s !in ToSet(sectors) && ToSet(sectors + [s]) == ToSet(sectors) + {s}
    ensures forall k :: 0 <= k < |sectors| ==> sectors[k] in ToSet(sectors)
    ensures forall x :: x in ToSet(sectors) ==> x in sectors
  {
  }

  /** While a buffer is left for the log block of a held sector, fewer sectors are logged than there are buffers. */
  lemma PinnedBound(contents: seq<Block>, held: set<nat>, pinned: set<nat>, disk: seq<Block>, start: nat,
                    sectors: seq<nat>, txn: map<nat, Block>, s: nat)
    requires Recorded(contents, held, pinned, disk, start, sectors, txn) && s in held
    requires forall j, k :: 0 <= j < k < |sectors| ==> sectors[j] != sectors[k]
    ensures s !in sectors && !Full(held, pinned) ==> |sectors| + 1 < NBUF
  {
    if s !in sectors {
      DistinctSize(sectors);
      SubsetSize(ToSet(sectors) + {s}, held + pinned);
    }
  }

  lemma {:induction false} DistinctSize(xs: seq<nat>)
    requires forall j, k :: 0 <= j < k < |xs| ==> xs[j] != xs[k]
    ensures |ToSet(xs)| == |xs|
  {
    if xs != [] {
      DistinctSize(xs[1..]);
      assert ToSet(xs) == {xs[0]} + ToSet(xs[1..]) && xs[0] !in ToSet(xs[1..]);
    }
  }

  lemma SmallUnion(a: set<nat>, b: set<nat>)
    requires |a| + |b| < NBUF
    ensures !Full(a, b)
  {
  }

  lemma RoomFor(held: set<nat>, pinned: set<nat>)
    requires |pinned| < NBUF && (held == {} || (pinned == {} && |held| < NBUF))
    ensures !Full(held, pinned)
  {
  }

  /** The first `n` slots of the header name distinct home sectors. */
  ghost predicate Slots(sector: seq<nat>, n: nat, start: nat) {
    && |sector| == LOGSIZE && n <= LOGSIZE
    && (forall k :: 0 <= k < n ==> sector[k] < start)
    && (forall j, k :: 0 <= j < k < n ==> sector[j] != sector[k])
  }

  ghost predicate BelowLog(held: set<nat>, pinned: set<nat>, start: nat) {
    forall s :: s in held || s in pinned ==> s < start
  }

  /** Slot `i`, which is that of `s` or the first free one, is set to `s`. */
  lemma SlotsAfter(sector: seq<nat>, n: nat, start: nat, s: nat, i: nat)
    requires Slots(sector, n, start) && s < start && n < LOGSIZE && i <= n && s !in sector[..i]
    requires (i < n ==> sector[i] == s)
    ensures i == n ==> Slots(sector[i := s], n + 1, start) && sector[i := s][..n + 1] == sector[..n] + [s]
    ensures i < n ==> sector[i := s] == sector
    ensures forall j, k :: 0 <= j < k < |sector[..n]| ==> sector[..n][j] != sector[..n][k]
  {
    if i == n {
      forall j | 0 <= j < n ensures sector[j] != s {
        assert sector[..i][j] == sector[j];
      }
    }
  }

  lemma NoSlots(sector: seq<nat>, start: nat)
    ensures |sector| == LOGSIZE ==> Slots(sector, 0, start)
  {
  }

  lemma SlotsBound(sector: seq<nat>, n: nat, start: nat)
    requires Slots(sector, n, start)
    ensures |sector| == LOGSIZE && n <= LOGSIZE && forall k :: 0 <= k < n ==> sector[k] < start
    ensures forall j, k :: 0 <= j < k < n ==> sector[j] != sector[k]
  {
  }

  /** The disks of install_trans, one by one. */
  lemma InstallSteps(d: seq<Block>, start: nat, tail: nat)
    requires WellFormed(d, start) && tail <= HeaderCount(d[start])
    ensures |InstallTrace(d, start)| == HeaderCount(d[start]) && InstallTrace(d, start)[..0] == []
    ensures Installed(d, start, 0) == d
    ensures tail < HeaderCount(d[start]) ==>
              InstallTrace(d, start)[..tail + 1] == InstallTrace(d, start)[..tail] + [Installed(d, start, tail + 1)]
    ensures tail == HeaderCount(d[start]) ==> InstallTrace(d, start)[..tail] == InstallTrace(d, start)
  {
    hide WellFormed;
  }

  lemma BelowLogMore(held: set<nat>, pinned: set<nat>, start: nat, held': set<nat>, pinned': set<nat>, s: nat)
    requires BelowLog(held, pinned, start) && s < start && held' <= held + {s} && pinned' <= pinned + {s}
    ensures BelowLog(held', pinned', start)
  {
  }

  lemma NotBelow(held: set<nat>, pinned: set<nat>, start: nat, s: nat)
    requires BelowLog(held, pinned, start) && s >= start
    ensures s !in held && s !in pinned
  {
  }

  /** One turn of install_trans on the cache: read both sectors, copy, write and release. */
  method CopySector(cache: BufCache, from: nat, to: nat)
    requires cache.Valid() && from < |cache.disk.sectors| && to < |cache.disk.sectors| && from != to
    requires cache.held == {} && from !in cache.pinned && |cache.pinned| < NBUF
    requires (cache.pinned == {} || to in cache.pinned)
    modifies cache, cache.disk
    ensures cache.Valid() && cache.held == {} && cache.pinned == old(cache.pinned) - {to}
    ensures cache.disk.sectors == old(cache.disk.sectors)[to := old(cache.disk.sectors)[from]]
    ensures cache.disk.trace == old(cache.disk.trace) + [cache.disk.sectors]
  {
    hide Ring, Aged, Fits, Full;
    RoomFor(cache.held, cache.pinned);
    cache.AgreesWithDisk(from);
    var l := cache.Read(from);
    if cache.pinned == {} {
      RoomFor(cache.held, cache.pinned);
    }
    var h := cache.Read(to);
    cache.Modify(h.b, cache.buf[l.b].data);
    cache.Write(h.b);
    cache.Release(l.b);
    cache.Release(h.b);
  }

  /** Read a sector of the log, fill it and write it. */
  method StoreSector(cache: BufCache, s: nat, data: Block) returns (ok: bool)
    requires cache.Valid() && s < |cache.disk.sectors| && s !in cache.held && s !in cache.pinned
    modifies cache, cache.disk
    ensures cache.Valid() && cache.held == old(cache.held) && cache.pinned == old(cache.pinned)
    ensures ok <==> !Full(cache.held, cache.pinned)
    ensures !ok ==> cache.disk.sectors == old(cache.disk.sectors) && cache.contents == old(cache.contents)
    ensures !ok ==> cache.disk.trace == old(cache.disk.trace)
    ensures ok ==>
              && cache.contents == old(cache.contents)[s := data]
              && cache.disk.sectors == old(cache.disk.sectors)[s := data]
              && cache.disk.trace == old(cache.disk.trace) + [cache.disk.sectors]
    ensures forall i :: 0 <= i < NBUF && old(cache.buf)[i].busy ==> cache.buf[i] == old(cache.buf)[i]
  {
    hide Ring, Aged, Fits, Full;
    var l := cache.Read(s);
    if !l.Got? {
      return false;
    }
    cache.Modify(l.b, data);
    cache.Write(l.b);
    cache.Release(l.b);
    return true;
  }

  /** The part of log_write that concerns the cache: the data of buffer `b` goes to sector `t` of the log, and the
      buffer is kept from being recycled. */
  method StoreAndPin(cache: BufCache, b: nat, t: nat) returns (ok: bool)
    requires cache.Valid() && t < |cache.disk.sectors| && t !in cache.held && t !in cache.pinned
    requires b < NBUF && cache.buf[b].busy && cache.buf[b].valid && cache.buf[b].sector >= 0
    modifies cache, cache.disk
    ensures cache.Valid() && cache.held == old(cache.held) && (ok <==> !Full(old(cache.held), old(cache.pinned)))
    ensures !ok ==> cache.disk.sectors == old(cache.disk.sectors) && cache.contents == old(cache.contents)
                    && cache.pinned == old(cache.pinned) && cache.disk.trace == old(cache.disk.trace)
    ensures ok ==>
              && cache.contents == old(cache.contents)[t := old(cache.buf)[b].data]
              && cache.disk.sectors == old(cache.disk.sectors)[t := old(cache.buf)[b].data]
              && cache.disk.trace == old(cache.disk.trace) + [cache.disk.sectors]
              && cache.pinned == old(cache.pinned) + {old(cache.buf)[b].sector as nat}
              && cache.buf[b] == old(cache.buf)[b].(dirty := true)
    ensures forall i :: 0 <= i < NBUF && i != b && old(cache.buf)[i].busy ==> cache.buf[i] == old(cache.buf)[i]
  {
    hide Ring, Aged, Fits, Full;
    ok := StoreSector(cache, t, cache.buf[b].data);
    if ok {
      cache.Pin(b);
    }
  }

  class TransLog {
    const cache: BufCache
    const start: nat
    const size: nat
    var busy: bool
    /** `lh.n` and `lh.sector`. */
    var n: nat
    var sector: seq<nat>
    /** The data last logged for each sector of the running transaction. */
    ghost var txn: map<nat, Block>

    ghost predicate Shape()
      reads this, cache, cache.disk
    {
      && cache.Valid()
      && 1 <= size && |cache.disk.sectors| == start + size < U32
      && n <= size - 1 && Slots(sector, n, start) && BelowLog(cache.held, cache.pinned, start)
    }

    /** Between log operations. */
    ghost predicate Valid()
      reads this, cache, cache.disk
    {
      && Shape() && (!busy ==> n == 0) && n < NBUF
      && Recorded(cache.contents, cache.held, cache.pinned, cache.disk.sectors, start, sector[..n], txn)
    }

    /** log_init on a freshly booted machine: whatever disk the crash left behind, recovery ends with the
        contents that disk stands for in place, having passed through exactly the recovery disks. */
    constructor (d: Disk, logStart: nat, logSize: nat)
      requires WellFormed(d.sectors, logStart) && |d.sectors| == logStart + logSize && d.trace == []
      modifies d
      ensures Valid() && fresh(cache) && cache.disk == d && start == logStart && size == logSize
      ensures n == 0 && !busy && cache.held == {} && cache.contents == d.sectors
      ensures d.trace == RecoveryTrace(old(d.sectors), start) && d.sectors == d.trace[|d.trace| - 1]
      ensures d.sectors[..start] == Committed(old(d.sectors), start)
    {
      hide Ring, Aged, Fits, Full;
      cache := new BufCache(d);
      start, size := logStart, logSize;
      busy := false;
      n, sector := 0, seq(LOGSIZE, _ => 0);
      txn := map[];
      new;
      Recover();
    }

    /** recover_from_log, on an idle machine. */
    method Recover()
      requires Shape() && n == 0 && !busy && txn == map[] && WellFormed(cache.disk.sectors, start)
      requires cache.held == {} == cache.pinned
      modifies this`n, this`sector, cache, cache.disk
      ensures Valid() && n == 0 && cache.held == {} && cache.contents == cache.disk.sectors
      ensures cache.disk.trace == old(cache.disk.trace) + RecoveryTrace(old(cache.disk.sectors), start)
      ensures cache.disk.sectors == cache.disk.trace[|cache.disk.trace| - 1]
      ensures cache.disk.sectors[..start] == Committed(old(cache.disk.sectors), start)
    {
      hide Ring, Aged, Fits, Full, Committed, Installed, Latest, View, Slots, BelowLog, Recorded, WellFormed,
           HeaderCount, HeaderSector, InstallTrace;
      ReadHead();
      InstallTrans();
      SlotsBound(sector, n, start);
      n := 0;
      NoSlots(sector, start);
      RoomFor(cache.held, cache.pinned);
      WriteHead();
      RecoveryCrashSafe(old(cache.disk.sectors), start);
      assert sector[..n] == [];
      NothingRecorded(cache.contents, cache.disk.sectors, start);
    }

    /** read_head: copy the on-disk header into memory. */
    method ReadHead()
      requires Shape() && WellFormed(cache.disk.sectors, start) && cache.held == {} == cache.pinned
      modifies this`n, this`sector, cache
      ensures Shape() && cache.held == {} == cache.pinned && cache.contents == old(cache.contents)
      ensures n == HeaderCount(cache.disk.sectors[start])
      ensures forall k: nat :: k < n ==> sector[k] == HeaderSector(cache.disk.sectors[start], k)
    {
      hide Ring, Aged, Fits, Full;
      RoomFor(cache.held, cache.pinned);
      cache.AgreesWithDisk(start);
      var r := cache.Read(start);
      var h := cache.buf[r.b].data;
      n := HeaderCount(h);
      var i: nat, sectors: seq<nat> := 0, sector;
      while i < n
        invariant 0 <= i <= n <= LOGSIZE && |sectors| == LOGSIZE
        invariant forall k: nat :: k < i ==> sectors[k] == HeaderSector(h, k)
      {
        sectors := sectors[i := HeaderSector(h, i)];
        i := i + 1;
      }
      sector := sectors;
      cache.Release(r.b);
    }

    /** write_head: one sector write, after storing the count and the sector numbers in its buffer. */
    method WriteHead()
      requires Shape() && !Full(cache.held, cache.pinned)
      modifies cache, cache.disk
      ensures Shape() && cache.held == old(cache.held) && cache.pinned == old(cache.pinned)
      ensures cache.disk.sectors ==
                old(cache.disk.sectors)[start := EncodeHeader(old(cache.disk.sectors)[start], sector[..n], n)]
      ensures cache.disk.trace == old(cache.disk.trace) + [cache.disk.sectors]
      ensures cache.contents == old(cache.contents)[start := cache.disk.sectors[start]]
    {
      hide Ring, Aged, Fits, Full;
      cache.AgreesWithDisk(start);
      var r := cache.Read(start);
      var h := cache.buf[r.b].data;
      h := PutU32(h, 0, n);
      var i := 0;
      while i < n
        invariant 0 <= i <= n
        invariant h == EncodeHeader(old(cache.disk.sectors)[start], sector[..n], i)
      {
        h := PutU32(h, 4 * (i + 1), sector[i]);
        i := i + 1;
      }
      cache.Modify(r.b, h);
      cache.Write(r.b);
      cache.Release(r.b);
    }

    /** One iteration of install_trans. */
    method InstallOne(tail: nat)
      requires Shape() && tail < n
      requires cache.held == {} && |cache.pinned| < NBUF && (cache.pinned == {} || sector[tail] in cache.pinned)
      modifies cache, cache.disk
      ensures Shape() && cache.held == {} && cache.pinned == old(cache.pinned) - {sector[tail]}
      ensures cache.disk.sectors == old(cache.disk.sectors)[sector[tail] := old(cache.disk.sectors)[start + 1 + tail]]
      ensures cache.disk.trace == old(cache.disk.trace) + [cache.disk.sectors]
    {
      hide Ring, Aged, Fits, Full, Slots, BelowLog;
      SlotsBound(sector, n, start);
      NotBelow(cache.held, cache.pinned, start, start + tail + 1);
      BelowLogMore(cache.held, cache.pinned, start, {}, cache.pinned - {sector[tail]}, sector[tail]);
      CopySector(cache, start + tail + 1, sector[tail]);
    }

    /** install_trans: copy each log block to its home sector. */
    method InstallTrans()
      requires Shape() && WellFormed(cache.disk.sectors, start)
      requires HeaderCount(cache.disk.sectors[start]) == n
      requires forall k: nat :: k < n ==> HeaderSector(cache.disk.sectors[start], k) == sector[k]
      requires cache.held == {} && |cache.pinned| < NBUF && (cache.pinned == {} || cache.pinned == ToSet(sector[..n]))
      modifies cache, cache.disk
      ensures Shape() && cache.held == {} == cache.pinned
      ensures cache.disk.sectors == Installed(old(cache.disk.sectors), start, n)
      ensures cache.disk.trace == old(cache.disk.trace) + InstallTrace(old(cache.disk.sectors), start)
      ensures cache.contents == cache.disk.sectors
    {
      hide Ring, Aged, Fits, Full, ToSet, Installed, WellFormed, HeaderCount, HeaderSector, BelowLog;
      hide InstallTrace, Slots;
      SlotsBound(sector, n, start);
      ghost var d := cache.disk.sectors;
      var tail := 0;
      assert sector[0..n] == sector[..n];
      InstallSteps(d, start, 0);
      while tail < n
        invariant 0 <= tail <= n && Shape() && cache.held == {} && |cache.pinned| < NBUF
        invariant cache.pinned == {} || cache.pinned == ToSet(sector[tail..n])
        invariant cache.disk.sectors == Installed(d, start, tail)
        invariant cache.disk.trace == old(cache.disk.trace) + InstallTrace(d, start)[..tail]
      {
        ToSetRest(sector, tail, n);
        InstalledNext(d, start, tail);
        InstallSteps(d, start, tail);
        InstallOne(tail);
        tail := tail + 1;
      }
      ToSetNone(sector[n..n]);
      InstallSteps(d, start, n);
      AllAgree();
    }

    lemma AllAgree()
      requires cache.Valid() && cache.held == {} == cache.pinned
      ensures cache.contents == cache.disk.sectors
    {
      forall s: nat | s < |cache.contents| ensures cache.contents[s] == cache.disk.sectors[s] {
        cache.AgreesWithDisk(s);
      }
    }

    /** One pass of begin_trans under the log lock: the transaction starts unless another is running, in
        which case the caller sleeps on the log. */
    method TryBegin() returns (ok: bool)
      requires Valid()
      modifies this`busy
      ensures Valid() && ok == !old(busy) && busy
    {
      if busy {
        return false;
      }
      busy := true;
      return true;
    }

    /** The absorption loop of log_write: the slot of sector `s`, or the first free one. */
    method FindSlot(s: nat) returns (i: nat)
      requires n <= |sector|
      ensures i <= n && s !in sector[..i] && (i < n ==> sector[i] == s)
    {
      i := 0;
      while i < n && sector[i] != s
        invariant 0 <= i <= n && s !in sector[..i]
      {
        i := i + 1;
      }
    }

    /** log_write: append the held buffer to the log, or overwrite its earlier copy there. The result is
        false where the kernel panics: the log is full, or every buffer is held or pinned. The second test is what
        keeps a transaction below NBUF sectors in a long log. */
    method LogWrite(b: nat) returns (ok: bool)
      requires Valid() && busy && b < NBUF && cache.buf[b].busy && cache.buf[b].valid && cache.buf[b].sector < start
      modifies this`n, this`sector, this`txn, cache, cache.disk
      ensures Valid() && cache.held == old(cache.held)
      ensures !ok ==> cache.contents == old(cache.contents) && txn == old(txn)
      ensures !ok ==> cache.disk.sectors == old(cache.disk.sectors) && cache.disk.trace == old(cache.disk.trace)
      ensures ok <==> old(n) < LOGSIZE && old(n) < size - 1 && !Full(old(cache.held), old(cache.pinned))
      ensures ok ==> var s := old(cache.buf)[b].sector;
                && s >= 0 && txn == old(txn)[s as nat := old(cache.buf)[b].data]
                && n == old(n) + (if s in old(txn) then 0 else 1)
                && cache.buf[b] == old(cache.buf)[b].(dirty := true)
                && (forall i :: 0 <= i < NBUF && old(cache.buf)[i].busy && i != b ==> cache.buf[i] == old(cache.buf)[i])
                && cache.contents[..start] == old(cache.contents)[..start]
                && cache.disk.sectors[..start + 1] == old(cache.disk.sectors)[..start + 1]
                && cache.disk.trace == old(cache.disk.trace) + [cache.disk.sectors]
    {
      hide Ring, Aged, Fits, Full, Recorded, Slots, BelowLog;
      if n >= LOGSIZE || n >= size - 1 {
        return false;
      }
      cache.HoldsItsData(b);
      SlotsBound(sector, n, start);
      var s := cache.buf[b].sector as nat;
      var i := FindSlot(s);
      SlotsAfter(sector, n, start, s, i);
      RecordedAfter(cache.contents, cache.held, cache.pinned, cache.disk.sectors, start, sector[..n], txn, s, i);
      PinnedBound(cache.contents, cache.held, cache.pinned, cache.disk.sectors, start, sector[..n], txn, s);
      NotBelow(cache.held, cache.pinned, start, start + 1 + i);
      BelowLogMore(cache.held, cache.pinned, start, cache.held, cache.pinned + {s}, s);
      ok := StoreAndPin(cache, b, start + 1 + i);
      if !ok {
        return;
      }
      sector := sector[i := s];
      if i == n {
        n := n + 1;
      }
      txn := txn[s := cache.buf[b].data];
    }
  
    /** bufcache_read of a home sector. */
    method Read(s: nat) returns (r: GetResult)
      requires Valid() && s < start
      modifies cache`buf, cache`held
      ensures Valid()
      ensures r.Sleep? <==> s in old(cache.held)
      ensures r.NoBuffers? <==> s !in old(cache.held) && s !in cache.pinned && Full(old(cache.held), cache.pinned)
      ensures r.Got? ==>
                && r.b < NBUF && cache.held == old(cache.held) + {s} && !old(cache.buf)[r.b].busy
                && cache.buf == old(cache.buf)[r.b := Buf(s, true, true, s in cache.pinned, cache.contents[s])]
    {
      hide Ring, Aged, Fits, Full;
      r := cache.Read(s);
    }

    /** bufcache_release of a home sector whose changes, if any, have been logged. */
    method Release(b: nat)
      requires Valid() && b < NBUF && cache.buf[b].busy && cache.buf[b].valid && 0 <= cache.buf[b].sector < start
      requires var s := cache.buf[b].sector as nat;
               cache.buf[b].data == if s in txn then txn[s] else cache.disk.sectors[s]
      modifies cache
      ensures Valid() && cache.held == old(cache.held) - {old(cache.buf)[b].sector as nat}
      ensures cache.buf == old(cache.buf)[b := old(cache.buf)[b].(busy := false)]
      ensures cache.contents == old(cache.contents) && cache.pinned == old(cache.pinned)
    {
      hide Ring, Aged, Fits, Full;
      cache.HoldsItsData(b);
      cache.Release(b);
    }

    /** The file system's idiom: read a sector, change it, log it, release it. */
    method Update(s: nat, data: Block) returns (ok: bool)
      requires Valid() && busy && s < start && s !in cache.held
      modifies this`n, this`sector, this`txn, cache, cache.disk
      ensures old(cache.held) == {} && old(n) < size - 1 && old(n) + 1 < NBUF ==> ok
      ensures !ok ==> cache.disk.trace == old(cache.disk.trace)
      ensures ok ==>
                && Valid() && txn == old(txn)[s := data] && cache.held == old(cache.held)
                && n == old(n) + (if s in old(txn) then 0 else 1)
                && cache.contents[..start] == old(cache.contents)[..start][s := data]
                && cache.disk.sectors[..start + 1] == old(cache.disk.sectors)[..start + 1]
                && cache.disk.trace == old(cache.disk.trace) + [cache.disk.sectors]
    {
      hide Ring, Aged, Fits, Full, Recorded;
      RoomForOne(s);
      var r := Read(s);
      if !r.Got? {
        return false;
      }
      cache.Modify(r.b, data);
      ModifiedStaysRecorded(old(cache.contents), cache.held, cache.pinned, cache.disk.sectors, start, sector[..n], txn,
        s, data);
      ok := LogWrite(r.b);
      if ok {
        Release(r.b);
      }
    }

    /** commit_trans: write the header, install, clear the header. Nothing anyone could read changes, and
        the disk passes through exactly the commit disks. */
    method CommitTrans()
      requires Valid() && busy && cache.held == {}
      modifies this, cache, cache.disk
      ensures Valid() && !busy && n == 0 && cache.held == {} && cache.pinned == {}
      ensures LogReady(old(cache.disk.sectors), start, old(sector[..n]))
      ensures cache.disk.trace == old(cache.disk.trace) +
                if old(n) == 0 then [] else CommitTrace(old(cache.disk.sectors), start, old(sector[..n]))
      ensures cache.disk.sectors[..start] == cache.contents[..start] == old(cache.contents)[..start]
      ensures cache.contents[..start] == After(old(cache.disk.sectors), start, old(sector[..n]), old(n))
    {
      hide Ring, Aged, Fits, Full, Recorded, LogReady, CommitTrace, After, InstallTrace, Installed, EncodeHeader,
           WellFormed, HeaderCount, HeaderSector;
      ghost var d, sectors := cache.disk.sectors, sector[..n];
      AfterIsWhatWasRead();
      if n > 0 {
        CommitTraceIs(d, start, sectors);
        NothingHeld();
        WriteHead();
        InstallTrans();
        n := 0;
        NothingHeld();
        WriteHead();
      }
      busy := false;
      txn := map[];
      assert sector[..n] == [];
      NothingRecorded(cache.contents, cache.disk.sectors, start);
    }

    /** With nothing held and room in the log, there is a buffer for one more sector and for its log block. */
    lemma RoomForOne(s: nat)
      requires Valid()
      ensures cache.held == {} && n + 1 < NBUF ==> !Full(cache.held, cache.pinned)
      ensures cache.held == {} && n + 1 < NBUF ==> !Full(cache.held + {s}, cache.pinned)
    {
      hide Ring, Aged, Fits, Full, Slots, BelowLog, Recorded, ToSet;
      SlotsBound(sector, n, start);
      PinnedAre(cache.contents, cache.held, cache.pinned, cache.disk.sectors, start, sector[..n], txn);
      ToSetSize(sector[..n]);
      if cache.held == {} && n + 1 < NBUF {
        SmallUnion({}, cache.pinned);
        SmallUnion({s}, cache.pinned);
        assert cache.held + {s} == {s};
      }
    }

    /** Outside transactions the home sectors on disk are what readers see. */
    lemma IdleAgrees()
      requires Valid() && !busy && cache.held == {}
      ensures cache.disk.sectors[..start] == cache.contents[..start] && txn == map[]
      ensures HeaderCount(cache.disk.sectors[start]) == 0
    {
      assert sector[..n] == [];
      forall s: nat | s < start ensures cache.contents[s] == cache.disk.sectors[s] {
        cache.AgreesWithDisk(s);
      }
    }

    /** There is a buffer for the log's own use: fewer sectors are pinned than there are buffers. */
    lemma NothingHeld()
      requires Shape() && cache.held == {} && (cache.pinned == {} || (n < NBUF && cache.pinned == ToSet(sector[..n])))
      ensures |cache.pinned| < NBUF && !Full(cache.held, cache.pinned)
    {
      ToSetSize(sector[..n]);
      RoomFor(cache.held, cache.pinned);
    }

    /** With no buffer held, the transaction's outcome is what readers already see. */
    lemma AfterIsWhatWasRead()
      requires Valid() && cache.held == {}
      ensures cache.pinned == ToSet(sector[..n]) && HeaderCount(cache.disk.sectors[start]) == 0
      ensures LogReady(cache.disk.sectors, start, sector[..n])
      ensures After(cache.disk.sectors, start, sector[..n], n) == cache.contents[..start]
    {
      hide Ring, Aged, Fits, After, HeaderCount;
      var d, sectors := cache.disk.sectors, sector[..n];
      assert sectors[..n] == sectors;
      forall s: nat | s < start ensures After(d, start, sectors, n)[s] == cache.contents[s] {
        if s in sectors {
          var i :| 0 <= i < n && sectors[i] == s;
          assert s in cache.pinned;
        } else {
          cache.AgreesWithDisk(s);
        }
      }
    }
  }

  lemma NothingRecorded(contents: seq<Block>, disk: seq<Block>, start: nat)
    requires start < |disk| == |contents| && HeaderCount(disk[start]) == 0
    ensures Recorded(contents, {}, {}, disk, start, [], map[])
    ensures ToSet([]) == {}
  {
  }

  lemma ModifiedStaysRecorded(contents: seq<Block>, held: set<nat>, pinned: set<nat>, disk: seq<Block>, start: nat,
                              sectors: seq<nat>, txn: map<nat, Block>, s: nat, data: Block)
    requires Recorded(contents, held, pinned, disk, start, sectors, txn) && s in held && s < |contents|
    ensures Recorded(contents[s := data], held, pinned, disk, start, sectors, txn)
  {
  }
}
