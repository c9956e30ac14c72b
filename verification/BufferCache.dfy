/** The disk and the LRU buffer cache in front of it. */
module BufferCache {
  import opened Bytes
  import opened Sequences

  const NBUF: nat := 10
  /** Index of the list head `bcache.head` in the link fields. */
  const HEAD: nat := NBUF

  /** One `struct buf`; `sector == -1` is a buffer that has never held a sector. */
  datatype Buf = Buf(sector: int, busy: bool, valid: bool, dirty: bool, data: Block)

  /** The disk: one sector write is one atomic step. `trace` records the disk after every write. */
  class Disk {
    var sectors: seq<Block>
    ghost var trace: seq<seq<Block>>

    constructor (image: seq<Block>)
      ensures sectors == image && trace == []
    {
      sectors := image;
      trace := [];
    }

    method WriteSector(s: nat, data: Block)
      requires s < |sectors|
      modifies this
      ensures sectors == old(sectors)[s := data]
      ensures trace == old(trace) + [sectors]
    {
      sectors := sectors[s := data];
      trace := trace + [sectors];
    }
  }

  /** The k-th stop of a walk along `next` that starts and ends at the head. */
  ghost function At(order: seq<nat>, k: nat): nat
    requires k <= |order| + 1
  {
    if k == 0 || k == |order| + 1 then HEAD else order[k - 1]
  }

  /** The `prev`/`next` fields form one ring from the head through the buffers in `order` and back. */
  ghost predicate Linked(next: seq<nat>, prev: seq<nat>, order: seq<nat>) {
    && |next| == |prev| == NBUF + 1
    && (forall k :: 0 <= k < |order| ==> order[k] < NBUF)
    && (forall j, k :: 0 <= j < k < |order| ==> order[j] != order[k])
    && forall j, k :: 0 <= j < k == j + 1 <= |order| + 1 ==>
         next[At(order, j)] == At(order, k) && prev[At(order, k)] == At(order, j)
  }

  /** Every buffer is on the ring, exactly once. */
  ghost predicate Ring(next: seq<nat>, prev: seq<nat>, order: seq<nat>) {
    Linked(next, prev, order) && |order| == NBUF && forall b: nat :: b < NBUF ==> b in order
  }

  lemma PushFront(next: seq<nat>, prev: seq<nat>, order: seq<nat>, b: nat)
    requires Linked(next, prev, order) && b < NBUF && b !in order
    ensures next[HEAD] <= NBUF
    ensures Linked(next[b := next[HEAD]][HEAD := b], prev[b := HEAD][next[HEAD] := b], [b] + order)
  {
    var o := [b] + order;
    assert At(order, 0) == HEAD;
    assert next[HEAD] == At(order, 1);
    var next', prev' := next[b := next[HEAD]][HEAD := b], prev[b := HEAD][next[HEAD] := b];
    forall j, k | 0 <= j < k == j + 1 <= |o| + 1
      ensures next'[At(o, j)] == At(o, k) && prev'[At(o, k)] == At(o, j)
    {
      if j >= 1 {
        assert At(o, k) == At(order, j);
        assert j >= 2 ==> At(o, j) == At(order, j - 1);
      }
    }
  }

  lemma Unlink(next: seq<nat>, prev: seq<nat>, order: seq<nat>, k: nat)
    requires Linked(next, prev, order) && k < |order|
    ensures next[order[k]] <= NBUF && prev[order[k]] <= NBUF
    ensures var b := order[k];
            Linked(next[prev[b] := next[b]], prev[next[b] := prev[b]], order[..k] + order[k + 1..])
  {
    var b, o := order[k], order[..k] + order[k + 1..];
    assert At(order, k + 1) == b;
    assert next[b] == At(order, k + 2) && prev[b] == At(order, k);
    var next', prev' := next[prev[b] := next[b]], prev[next[b] := prev[b]];
    forall i, j | 0 <= i < j == i + 1 <= |o| + 1
      ensures next'[At(o, i)] == At(o, j) && prev'[At(o, j)] == At(o, i)
    {
      if i < k {
        assert At(o, i) == At(order, i) && At(o, j) == At(order, j);
      } else if i == k {
        assert At(o, i) == At(order, k) && At(o, j) == At(order, k + 2);
      } else {
        assert At(o, i) == At(order, i + 1) && At(o, j) == At(order, j + 1);
      }
    }
  }

  /** Buffer `i` is the one assigned to sector `s`. */
  predicate Holds(buf: seq<Buf>, i: nat, s: nat) {
    i < |buf| && buf[i].sector == s
  }

  predicate Evictable(b: Buf) {
    !b.busy && !b.dirty
  }

  /** No two buffers hold one sector, and a clean idle buffer agrees with the disk. */
  ghost predicate Coherent(buf: seq<Buf>, disk: seq<Block>) {
    && |buf| == NBUF
    && (forall i: nat, j: nat :: i < j < NBUF && buf[i].sector == buf[j].sector ==> buf[i].sector == -1)
    && (forall i :: 0 <= i < NBUF ==> -1 <= buf[i].sector < |disk|)
    && (forall i :: 0 <= i < NBUF && (buf[i].valid || buf[i].busy) ==> 0 <= buf[i].sector)
    && (forall i :: 0 <= i < NBUF && buf[i].dirty ==> buf[i].valid)
    && (forall i :: 0 <= i < NBUF && buf[i].valid && Evictable(buf[i]) ==> buf[i].data == disk[buf[i].sector])
  }

  /** What plain storage would hold at `s`: the cached contents if there are any, else the disk's. */
  ghost function Latest(buf: seq<Buf>, disk: seq<Block>, s: nat): Block
    requires s < |disk|
  {
    if exists i: nat :: Holds(buf, i, s) && buf[i].valid
    then var i: nat :| Holds(buf, i, s) && buf[i].valid; buf[i].data
    else disk[s]
  }

  ghost function View(buf: seq<Buf>, disk: seq<Block>): (v: seq<Block>)
    ensures |v| == |disk|
    ensures forall s :: 0 <= s < |disk| ==> v[s] == Latest(buf, disk, s)
  {
    seq(|disk|, s requires 0 <= s < |disk| => Latest(buf, disk, s))
  }

  /** `held` and `pinned` are the sectors of the busy and of the dirty buffers. */
  ghost predicate Tied(buf: seq<Buf>, held: set<nat>, pinned: set<nat>) {
    && (forall i: nat :: i < |buf| && buf[i].busy ==> buf[i].sector in held)
    && (forall i: nat :: i < |buf| && buf[i].dirty ==> buf[i].sector in pinned)
    && (forall s :: s in held ==> exists i: nat :: Holds(buf, i, s) && buf[i].busy)
    && (forall s :: s in pinned ==> exists i: nat :: Holds(buf, i, s) && buf[i].dirty)
  }

  ghost function Toggle(xs: set<nat>, s: nat, on: bool): set<nat> {
    if on then xs + {s} else xs - {s}
  }

  lemma TiedAfter(buf: seq<Buf>, disk: seq<Block>, held: set<nat>, pinned: set<nat>, b: nat, x: Buf)
    requires Coherent(buf, disk) && Tied(buf, held, pinned) && b < NBUF && x.sector >= 0
    requires buf[b].sector == x.sector || (Evictable(buf[b]) && forall i: nat :: !Holds(buf, i, x.sector))
    ensures Tied(buf[b := x], Toggle(held, x.sector, x.busy), Toggle(pinned, x.sector, x.dirty))
  {
    var buf' := buf[b := x];
    assert Holds(buf', b, x.sector);
    forall s | s in held && s != x.sector ensures exists i: nat :: Holds(buf', i, s) && buf'[i].busy {
      var i: nat :| Holds(buf, i, s) && buf[i].busy;
      assert Holds(buf', i, s);
    }
    forall s | s in pinned && s != x.sector ensures exists i: nat :: Holds(buf', i, s) && buf'[i].dirty {
      var i: nat :| Holds(buf, i, s) && buf[i].dirty;
      assert Holds(buf', i, s);
    }
    forall i: nat | i < NBUF && i != b ensures buf[i].sector != x.sector {
      assert buf[b].sector == x.sector || !Holds(buf, i, x.sector);
    }
  }

  ghost function UsedSectors(buf: seq<Buf>, k: nat): set<nat>
    requires k <= |buf|
  {
    set i | 0 <= i < k && !Evictable(buf[i]) && buf[i].sector >= 0 :: buf[i].sector as nat
  }

  ghost function UsedCount(buf: seq<Buf>, k: nat): (n: nat)
    requires k <= |buf|
    ensures n <= k && (n == k <==> forall i :: 0 <= i < k ==> !Evictable(buf[i]))
  {
    if k == 0 then 0 else UsedCount(buf, k - 1) + if Evictable(buf[k - 1]) then 0 else 1
  }

  lemma {:induction false} UsedSize(buf: seq<Buf>, disk: seq<Block>, k: nat)
    requires Coherent(buf, disk) && k <= NBUF
    ensures |UsedSectors(buf, k)| == UsedCount(buf, k)
  {
    hide Coherent, UsedSectors;
    if k == 0 {
      NoneUsed(buf);
    } else {
      UsedNext(buf, disk, k);
      UsedSize(buf, disk, k - 1);
    }
  }

  lemma NoneUsed(buf: seq<Buf>)
    ensures UsedSectors(buf, 0) == {}
  {
  }

  lemma UsedNext(buf: seq<Buf>, disk: seq<Block>, k: nat)
    requires Coherent(buf, disk) && 0 < k <= NBUF
    ensures Evictable(buf[k - 1]) ==> UsedSectors(buf, k) == UsedSectors(buf, k - 1)
    ensures !Evictable(buf[k - 1]) ==> buf[k - 1].sector >= 0 && buf[k - 1].sector as nat !in UsedSectors(buf, k - 1)
    ensures !Evictable(buf[k - 1]) ==> UsedSectors(buf, k) == UsedSectors(buf, k - 1) + {buf[k - 1].sector as nat}
  {
  }

  /** As many sectors are held or pinned as there are buffers. */
  ghost predicate Full(held: set<nat>, pinned: set<nat>) {
    |held + pinned| >= NBUF
  }

  /** Nothing can be recycled exactly when as many sectors are held or pinned as there are buffers. */
  lemma FullExactly(buf: seq<Buf>, disk: seq<Block>, contents: seq<Block>, held: set<nat>, pinned: set<nat>)
    requires Fits(buf, disk, contents, held, pinned)
    ensures Full(held, pinned) <==> forall i :: 0 <= i < NBUF ==> !Evictable(buf[i])
  {
    hide Coherent, Tied, UsedSectors, View;
    UsedSize(buf, disk, NBUF);
    UsedAre(buf, disk, held, pinned);
  }

  /** The sectors held or pinned are those of the buffers that cannot be recycled. */
  lemma UsedAre(buf: seq<Buf>, disk: seq<Block>, held: set<nat>, pinned: set<nat>)
    requires Coherent(buf, disk) && Tied(buf, held, pinned)
    ensures held + pinned == UsedSectors(buf, NBUF)
  {
    forall s | s in held + pinned ensures s in UsedSectors(buf, NBUF) {
      var i: nat :| Holds(buf, i, s) && (buf[i].busy || buf[i].dirty);
      assert buf[i].sector as nat in UsedSectors(buf, NBUF);
    }
  }

  /** Then a sector that is neither held nor pinned is in no buffer. */
  lemma FullHoldsNone(buf: seq<Buf>, disk: seq<Block>, contents: seq<Block>, held: set<nat>, pinned: set<nat>, s: nat)
    requires Fits(buf, disk, contents, held, pinned)
    ensures Full(held, pinned) && s !in held && s !in pinned ==> forall i: nat :: !Holds(buf, i, s)
  {
    hide Full, View;
    FullExactly(buf, disk, contents, held, pinned);
  }

  /** Changing one buffer, and possibly that buffer's sector on disk, changes the view only there. */
  lemma ViewAfter(buf: seq<Buf>, disk: seq<Block>, buf': seq<Buf>, disk': seq<Block>, b: nat)
    requires Coherent(buf, disk) && Coherent(buf', disk') && |disk'| == |disk| && b < NBUF
    requires forall i :: 0 <= i < NBUF && i != b ==> buf'[i] == buf[i]
    requires forall s :: 0 <= s < |disk| && s != buf'[b].sector ==> disk'[s] == disk[s]
    requires buf'[b].valid
    requires buf[b].sector == buf'[b].sector || Evictable(buf[b])
    ensures View(buf', disk') == View(buf, disk)[buf'[b].sector := buf'[b].data]
  {
  }

  /** The most-recently-used order after a release: `b` in front, the others unmoved. */
  ghost function MoveToFront(order: seq<nat>, b: nat): (r: seq<nat>)
  {
    [b] + Without(order, b)
  }

  /** The ring runs from the buffer released last to the one released longest ago: `stamps[b]` is the time, up to
      `clock`, of the last release of buffer `b`. */
  ghost predicate Aged(order: seq<nat>, stamps: seq<nat>, clock: nat) {
    && |stamps| == NBUF && (forall k :: 0 <= k < |order| ==> order[k] < NBUF && stamps[order[k]] < clock)
    && forall j, k :: 0 <= j < k < |order| ==> stamps[order[j]] > stamps[order[k]]
  }

  /** Of the buffers that may be recycled, `b` is the one whose last release is longest ago. */
  ghost predicate LeastRecent(buf: seq<Buf>, stamps: seq<nat>, b: nat) {
    && b < |buf| == |stamps| && Evictable(buf[b])
    && forall i :: 0 <= i < |buf| && i != b && Evictable(buf[i]) ==> stamps[b] < stamps[i]
  }

  lemma AgedInFront(order: seq<nat>, stamps: seq<nat>, clock: nat, b: nat, k: nat)
    requires Aged(order, stamps, clock) && k < |order| && order[k] == b
    requires forall j :: 0 <= j < |order| && j != k ==> order[j] != b
    ensures Aged([b] + (order[..k] + order[k + 1..]), stamps[b := clock], clock + 1)
  {
    var o, s := [b] + (order[..k] + order[k + 1..]), stamps[b := clock];
    forall j | 0 < j < |o| ensures o[j] < NBUF && o[j] != b && s[o[j]] < clock {
      assert o[j] == order[if j <= k then j - 1 else j];
    }
    forall i, j | 0 <= i < j < |o| ensures s[o[i]] > s[o[j]] {
      assert o[j] == order[if j <= k then j - 1 else j];
      assert i > 0 ==> o[i] == order[if i <= k then i - 1 else i];
    }
  }

  /** The buffers, the disk and the abstract view of them fit together. */
  ghost predicate Fits(buf: seq<Buf>, disk: seq<Block>, contents: seq<Block>, held: set<nat>, pinned: set<nat>) {
    Coherent(buf, disk) && Tied(buf, held, pinned) && contents == View(buf, disk)
  }

  /** Buffer `b` becomes `x`, valid and for the same sector, and at most that sector of the disk changes. */
  lemma FitsAfter(buf: seq<Buf>, disk: seq<Block>, contents: seq<Block>, held: set<nat>, pinned: set<nat>, b: nat,
                  x: Buf, disk': seq<Block>)
    requires Fits(buf, disk, contents, held, pinned) && b < NBUF
    requires 0 <= x.sector == buf[b].sector && x.valid && |disk'| == |disk|
    requires x.busy || x.dirty || x.data == disk'[x.sector]
    requires forall s :: 0 <= s < |disk| && s != x.sector ==> disk'[s] == disk[s]
    ensures x.sector < |contents|
    ensures Fits(buf[b := x], disk', contents[x.sector := x.data], Toggle(held, x.sector, x.busy),
              Toggle(pinned, x.sector, x.dirty))
  {
    var buf' := buf[b := x];
    assert Coherent(buf', disk') by {
      forall i: nat | i < NBUF && i != b && buf[i].valid && Evictable(buf[i]) ensures buf[i].sector != x.sector {
      }
    }
    ViewAfter(buf, disk, buf', disk', b);
    TiedAfter(buf, disk, held, pinned, b, x);
  }

  /** A clean idle buffer is recycled for a sector no buffer holds. */
  lemma FitsAfterRecycling(buf: seq<Buf>, disk: seq<Block>, contents: seq<Block>, held: set<nat>, pinned: set<nat>,
                           b: nat, s: nat)
    requires Fits(buf, disk, contents, held, pinned) && b < NBUF && s < |disk|
    requires Evictable(buf[b]) && forall i: nat :: !Holds(buf, i, s)
    ensures Fits(buf[b := Buf(s, true, false, false, buf[b].data)], disk, contents, held + {s}, pinned)
  {
    var x := Buf(s, true, false, false, buf[b].data);
    EvictionKeepsView(buf, disk, buf[b := x], b, s);
    TiedAfter(buf, disk, held, pinned, b, x);
    assert Toggle(pinned, s, false) == pinned;
  }

  lemma HeldExactly(buf: seq<Buf>, disk: seq<Block>, contents: seq<Block>, held: set<nat>, pinned: set<nat>, s: nat)
    requires Fits(buf, disk, contents, held, pinned)
    ensures forall b: nat :: Holds(buf, b, s) ==> (s in held <==> buf[b].busy) && (s in pinned <==> buf[b].dirty)
    ensures forall b: nat :: Holds(buf, b, s) && buf[b].valid ==> s < |contents| && contents[s] == buf[b].data
    ensures (forall b: nat :: !Holds(buf, b, s)) ==> s !in held && s !in pinned
  {
  }

  lemma ValidBuffer(buf: seq<Buf>, disk: seq<Block>, contents: seq<Block>, held: set<nat>, pinned: set<nat>, b: nat)
    requires Fits(buf, disk, contents, held, pinned) && b < NBUF && buf[b].valid
    ensures 0 <= buf[b].sector < |contents| && contents[buf[b].sector] == buf[b].data
    ensures (buf[b].sector in held <==> buf[b].busy) && (buf[b].sector in pinned <==> buf[b].dirty)
  {
  }

  lemma TakenFits(buf: seq<Buf>, disk: seq<Block>, contents: seq<Block>, held: set<nat>, pinned: set<nat>, b: nat)
    requires Fits(buf, disk, contents, held, pinned) && b < NBUF && buf[b].sector >= 0
    ensures Fits(buf[b := buf[b].(busy := true)], disk, contents, held + {buf[b].sector as nat}, pinned)
  {
    var x := buf[b].(busy := true);
    assert Coherent(buf[b := x], disk);
    hide Coherent, View;
    DirtyStays(buf, disk, held, pinned, b);
    hide Tied;
    TiedAfter(buf, disk, held, pinned, b, x);
    SameView(buf, disk, buf[b := x]);
  }

  lemma DirtyStays(buf: seq<Buf>, disk: seq<Block>, held: set<nat>, pinned: set<nat>, b: nat)
    requires Coherent(buf, disk) && Tied(buf, held, pinned) && b < NBUF && buf[b].sector >= 0
    ensures Toggle(pinned, buf[b].sector, buf[b].dirty) == pinned
  {
  }

  lemma FilledFits(buf: seq<Buf>, disk: seq<Block>, contents: seq<Block>, held: set<nat>, pinned: set<nat>, b: nat)
    requires Fits(buf, disk, contents, held, pinned) && b < NBUF && buf[b].busy && !buf[b].valid
    ensures contents[buf[b].sector] == disk[buf[b].sector]
    ensures Fits(buf[b := buf[b].(data := disk[buf[b].sector], valid := true)], disk, contents, held, pinned)
  {
    var x := buf[b].(data := disk[buf[b].sector], valid := true);
    assert Holds(buf, b, x.sector);
    assert !exists i: nat :: Holds(buf, i, x.sector) && buf[i].valid;
    FitsAfter(buf, disk, contents, held, pinned, b, x, disk);
    assert Toggle(held, x.sector, true) == held && Toggle(pinned, x.sector, x.dirty) == pinned;
    assert contents[x.sector := x.data] == contents;
  }

  /** Outcome of a lookup: a busy buffer, "sleep on this buffer and retry", or the kernel's panic. */
  datatype GetResult = Got(b: nat) | Sleep(b: nat) | NoBuffers

  class BufCache {
    const disk: Disk
    var buf: seq<Buf>
    var next: seq<nat>
    var prev: seq<nat>
    /** Buffers from most to least recently released. */
    ghost var order: seq<nat>
    /** When each buffer was released last, with bufcache_init as a first release of them all. */
    ghost var stamps: seq<nat>
    ghost var clock: nat
    /** What plain storage would hold, sector by sector. */
    ghost var contents: seq<Block>
    /** Sectors whose buffer is busy, and sectors whose buffer is dirty. */
    ghost var held: set<nat>
    ghost var pinned: set<nat>

    ghost predicate Valid()
      reads this, disk
    {
      && |buf| == NBUF && |contents| == |disk.sectors|
      && Ring(next, prev, order) && Aged(order, stamps, clock) && Fits(buf, disk.sectors, contents, held, pinned)
    }

    constructor (d: Disk)
      ensures Valid() && disk == d && contents == d.sectors && held == {} == pinned
    {
      disk := d;
      buf := seq(NBUF, _ => Buf(-1, false, false, false, ZeroBlock()));
      next := seq(NBUF + 1, _ => HEAD);
      prev := seq(NBUF + 1, _ => HEAD);
      order := [];
      stamps, clock := seq(NBUF, i => i), NBUF;
      contents := d.sectors;
      held, pinned := {}, {};
      new;
      var b := 0;
      while b < NBUF
        invariant 0 <= b <= NBUF && Linked(next, prev, order)
        invariant |order| == b && forall k :: 0 <= k < b ==> order[k] == b - 1 - k
        invariant buf == seq(NBUF, _ => Buf(-1, false, false, false, ZeroBlock()))
        modifies this`next, this`prev, this`order
      {
        PushFront(next, prev, order, b);
        next := next[b := next[HEAD]];
        prev := prev[b := HEAD];
        prev := prev[next[HEAD] := b];
        next := next[HEAD := b];
        order := [b] + order;
        b := b + 1;
      }
      forall b: nat | b < NBUF ensures b in order {
        assert order[NBUF - 1 - b] == b;
      }
      assert View(buf, d.sectors) == d.sectors;
    }

    /** First loop of bufcache_get: walk from the most recent buffer, looking for sector `s`. */
    method Find(s: nat) returns (b: nat)
      requires Valid()
      ensures b == HEAD ==> forall i: nat :: !Holds(buf, i, s)
      ensures b != HEAD ==> b < NBUF && Holds(buf, b, s)
    {
      assert At(order, 0) == At(order, NBUF + 1) == HEAD;
      b := next[HEAD];
      ghost var k := 1;
      assert b == At(order, 1);
      while b != HEAD
        invariant 1 <= k <= NBUF + 1 && b == At(order, k)
        invariant forall j :: 1 <= j < k ==> !Holds(buf, At(order, j), s)
        decreases NBUF + 1 - k
      {
        if buf[b].sector == s {
          return;
        }
        assert next[b] == At(order, k + 1);
        b := next[b];
        k := k + 1;
      }
      NotHeld(buf, order, s);
    }

    /** Second loop of bufcache_get: walk from the least recent buffer, looking for one to recycle. */
    method FindVictim() returns (b: nat)
      requires Valid()
      ensures b == HEAD <==> forall i :: 0 <= i < NBUF ==> !Evictable(buf[i])
      ensures b != HEAD ==> b < NBUF && Evictable(buf[b]) && LeastRecent(buf, stamps, b)
    {
      hide Fits;
      assert At(order, 0) == At(order, NBUF + 1) == HEAD;
      b := prev[HEAD];
      ghost var k := NBUF;
      assert b == At(order, k);
      while b != HEAD
        invariant 0 <= k <= NBUF && b == At(order, k)
        invariant forall j :: k <= j < NBUF ==> !Evictable(buf[order[j]])
        decreases k
      {
        if !buf[b].busy && !buf[b].dirty {
          forall i: nat | i < NBUF && i != b && Evictable(buf[i]) ensures stamps[b] < stamps[i] {
            var j := Position(order, i);
          }
          return;
        }
        assert prev[b] == At(order, k - 1);
        b := prev[b];
        k := k - 1;
      }
      forall i: nat | i < NBUF ensures !Evictable(buf[i]) {
        var j := Position(order, i);
      }
    }

    /** bufcache_get: the busy buffer for sector `s`, recycling the least recently used one if needed. */
    method Get(s: nat) returns (r: GetResult)
      requires Valid() && s < |disk.sectors|
      modifies this`buf, this`held
      ensures Valid()
      ensures r.Sleep? <==> s in old(held)
      ensures r.NoBuffers? <==> (forall i: nat :: !Holds(old(buf), i, s)) && Full(old(held), pinned)
      ensures !r.Got? ==> buf == old(buf) && held == old(held) && (r.Sleep? ==> Holds(buf, r.b, s))
      ensures r.Got? ==> r.b < NBUF && held == old(held) + {s}
      ensures r.Got? && Holds(old(buf), r.b, s) ==> buf == old(buf)[r.b := old(buf)[r.b].(busy := true)]
      ensures r.Got? && !Holds(old(buf), r.b, s) ==>
                && LeastRecent(old(buf), stamps, r.b) && Evictable(old(buf)[r.b])
                && buf == old(buf)[r.b := Buf(s, true, false, false, old(buf)[r.b].data)]
                && forall i: nat :: !Holds(old(buf), i, s)
    {
      hide Ring, Fits, Full, LeastRecent, Aged;
      FullExactly(buf, disk.sectors, contents, held, pinned);
      HeldExactly(buf, disk.sectors, contents, held, pinned, s);
      var b := Find(s);
      if b != HEAD {
        if !buf[b].busy {
          var x := buf[b].(busy := true);
          TakenFits(buf, disk.sectors, contents, held, pinned, b);
          buf := buf[b := x];
          held := held + {s};
          return Got(b);
        }
        return Sleep(b);
      }
      b := FindVictim();
      if b != HEAD {
        FitsAfterRecycling(buf, disk.sectors, contents, held, pinned, b, s);
        buf := buf[b := Buf(s, true, false, false, buf[b].data)];
        held := held + {s};
        return Got(b);
      }
      return NoBuffers;
    }

    /** bufcache_read: a busy buffer whose data is what plain storage holds at `s`. */
    method Read(s: nat) returns (r: GetResult)
      requires Valid() && s < |disk.sectors|
      modifies this`buf, this`held
      ensures Valid()
      ensures r.Sleep? <==> s in old(held)
      ensures r.NoBuffers? <==> (forall i: nat :: !Holds(old(buf), i, s)) && Full(old(held), pinned)
      ensures r.NoBuffers? <==> s !in old(held) && s !in pinned && Full(old(held), pinned)
      ensures !r.Got? ==> buf == old(buf) && held == old(held)
      ensures r.Got? ==>
                && r.b < NBUF && held == old(held) + {s} && !old(buf)[r.b].busy
                && buf == old(buf)[r.b := Buf(s, true, true, s in pinned, contents[s])]
    {
      hide Ring, Fits, Full, LeastRecent, Aged;
      HeldExactly(buf, disk.sectors, contents, held, pinned, s);
      FullHoldsNone(buf, disk.sectors, contents, held, pinned, s);
      r := Get(s);
      if r.Got? {
        var b := r.b;
        if !buf[b].valid {
          FilledFits(buf, disk.sectors, contents, held, pinned, b);
          buf := buf[b := buf[b].(data := disk.sectors[s], valid := true)];
        }
      }
    }

    /** The caller's own stores into `b->data` while it holds the buffer. */
    method Modify(b: nat, data: Block)
      requires Valid() && b < NBUF && buf[b].busy && buf[b].valid
      modifies this`buf, this`contents
      ensures Valid() && buf == old(buf)[b := old(buf)[b].(data := data)]
      ensures contents == old(contents)[buf[b].sector := data]
    {
      hide Ring, Fits;
      ValidBuffer(buf, disk.sectors, contents, held, pinned, b);
      var x := buf[b].(data := data);
      FitsAfter(buf, disk.sectors, contents, held, pinned, b, x, disk.sectors);
      assert Toggle(held, x.sector, true) == held && Toggle(pinned, x.sector, x.dirty) == pinned;
      buf := buf[b := x];
      contents := contents[x.sector := data];
    }

    /** The `b->flags |= B_DIRTY` of log_write: keeps the buffer from being recycled. */
    method Pin(b: nat)
      requires Valid() && b < NBUF && buf[b].busy && buf[b].valid
      modifies this`buf, this`pinned
      ensures Valid() && buf == old(buf)[b := old(buf)[b].(dirty := true)]
      ensures pinned == old(pinned) + {buf[b].sector as nat}
    {
      hide Ring, Fits;
      ValidBuffer(buf, disk.sectors, contents, held, pinned, b);
      var x := buf[b].(dirty := true);
      FitsAfter(buf, disk.sectors, contents, held, pinned, b, x, disk.sectors);
      assert Toggle(held, x.sector, true) == held && contents[x.sector := x.data] == contents;
      buf := buf[b := x];
      pinned := pinned + {x.sector as nat};
    }

    /** bufcache_write: one sector write; ide_rw clears B_DIRTY. */
    method Write(b: nat)
      requires Valid() && b < NBUF && buf[b].busy && buf[b].valid
      modifies this`buf, this`pinned, disk
      ensures Valid() && buf == old(buf)[b := old(buf)[b].(dirty := false)]
      ensures pinned == old(pinned) - {buf[b].sector as nat}
      ensures disk.sectors == old(disk.sectors)[buf[b].sector := buf[b].data]
      ensures disk.trace == old(disk.trace) + [disk.sectors]
    {
      hide Ring, Fits;
      ValidBuffer(buf, disk.sectors, contents, held, pinned, b);
      var x := buf[b].(dirty := false);
      FitsAfter(buf, disk.sectors, contents, held, pinned, b, x, disk.sectors[x.sector := x.data]);
      assert Toggle(held, x.sector, true) == held && contents[x.sector := x.data] == contents;
      disk.WriteSector(x.sector, x.data);
      buf := buf[b := x];
      pinned := pinned - {x.sector as nat};
    }

    /** The link updates of bufcache_release: unlink `b`, then put it behind the head. */
    method Relink(b: nat)
      requires Ring(next, prev, order) && Aged(order, stamps, clock) && b < NBUF
      modifies this`next, this`prev, this`order, this`stamps, this`clock
      ensures Ring(next, prev, order) && order == MoveToFront(old(order), b)
      ensures Aged(order, stamps, clock) && clock == old(clock) + 1
      ensures |old(stamps)| == NBUF && stamps == old(stamps)[b := old(clock)]
    {
      ghost var k := Position(order, b);
      Unlink(next, prev, order, k);
      prev := prev[next[b] := prev[b]];
      next := next[prev[b] := next[b]];
      ghost var rest := order[..k] + order[k + 1..];
      PushFront(next, prev, rest, b);
      next := next[b := next[HEAD]];
      prev := prev[b := HEAD];
      prev := prev[next[HEAD] := b];
      next := next[HEAD := b];
      AgedInFront(order, stamps, clock, b, k);
      order := [b] + rest;
      stamps, clock := stamps[b := clock], clock + 1;
      MovedToFront(old(order), b, k);
    }

    /** bufcache_release: back to the cache as its most recently used buffer. The caller must have
        logged or written what it changed. */
    method Release(b: nat)
      requires Valid() && b < NBUF && buf[b].busy && buf[b].valid
      requires buf[b].dirty || buf[b].data == disk.sectors[buf[b].sector]
      modifies this`buf, this`held, this`next, this`prev, this`order, this`stamps, this`clock
      ensures Valid() && buf == old(buf)[b := old(buf)[b].(busy := false)]
      ensures order == MoveToFront(old(order), b)
      ensures |old(stamps)| == NBUF && stamps == old(stamps)[b := old(clock)] && clock == old(clock) + 1
      ensures held == old(held) - {buf[b].sector as nat}
    {
      hide Ring, Fits, Aged;
      Relink(b);
      ValidBuffer(buf, disk.sectors, contents, held, pinned, b);
      var x := buf[b].(busy := false);
      FitsAfter(buf, disk.sectors, contents, held, pinned, b, x, disk.sectors);
      assert Toggle(pinned, x.sector, x.dirty) == pinned && contents[x.sector := x.data] == contents;
      buf := buf[b := x];
      held := held - {x.sector as nat};
    }

    lemma HoldsItsData(b: nat)
      requires Valid() && b < NBUF && buf[b].valid
      ensures 0 <= buf[b].sector < |contents| && contents[buf[b].sector] == buf[b].data
      ensures (buf[b].sector in held <==> buf[b].busy) && (buf[b].sector in pinned <==> buf[b].dirty)
    {
    }

    /** Outside the held and pinned sectors the cache and the disk agree. */
    lemma AgreesWithDisk(s: nat)
      requires Valid() && s < |disk.sectors| && s !in held && s !in pinned
      ensures contents[s] == disk.sectors[s]
    {
    }
  }

  ghost function Position(order: seq<nat>, b: nat): (k: nat)
    requires b in order
    ensures k < |order| && order[k] == b
  {
    var k :| 0 <= k < |order| && order[k] == b; k
  }

  lemma MovedToFront(order: seq<nat>, b: nat, k: nat)
    requires |order| == NBUF && forall i: nat :: i < NBUF ==> i in order
    requires k < |order| && order[k] == b && forall j :: 0 <= j < |order| && j != k ==> order[j] != b
    ensures MoveToFront(order, b) == [b] + (order[..k] + order[k + 1..])
    ensures forall i: nat :: i < NBUF ==> i in MoveToFront(order, b)
  {
    WithoutAt(order, k);
    var o := MoveToFront(order, b);
    forall i: nat | i < NBUF ensures i in o {
      assert i in order;
      var j := Position(order, i);
      assert if j < k then o[j + 1] == i else if j == k then o[0] == i else o[j] == i;
    }
  }

  lemma NotHeld(buf: seq<Buf>, order: seq<nat>, s: nat)
    requires |buf| == NBUF == |order| && forall b: nat :: b < NBUF ==> b in order
    requires forall j :: 1 <= j <= NBUF ==> !Holds(buf, At(order, j), s)
    ensures forall i: nat :: !Holds(buf, i, s)
  {
    forall i: nat | i < NBUF ensures !Holds(buf, i, s) {
      assert i in order;
      var j :| 0 <= j < NBUF && order[j] == i;
      assert At(order, j + 1) == i;
    }
  }

  /** Flags other than `valid` do not show in the view. */
  lemma SameView(buf: seq<Buf>, disk: seq<Block>, buf': seq<Buf>)
    requires Coherent(buf, disk) && |buf'| == NBUF
    requires forall i :: 0 <= i < NBUF ==>
               buf'[i].sector == buf[i].sector && buf'[i].valid == buf[i].valid && buf'[i].data == buf[i].data
    ensures View(buf', disk) == View(buf, disk)
  {
  }

  /** Recycling a clean idle buffer loses nothing. */
  lemma EvictionKeepsView(buf: seq<Buf>, disk: seq<Block>, buf': seq<Buf>, b: nat, s: nat)
    requires Coherent(buf, disk) && b < NBUF && s < |disk|
    requires Evictable(buf[b]) && forall i: nat :: !Holds(buf, i, s)
    requires buf' == buf[b := Buf(s, true, false, false, buf[b].data)]
    ensures Coherent(buf', disk) && View(buf', disk) == View(buf, disk)
  {
    forall i: nat | i < NBUF ensures buf[i].sector != s {
      assert !Holds(buf, i, s);
    }
    forall t: nat | t < |disk| ensures Latest(buf', disk, t) == Latest(buf, disk, t) {
      if i: nat :| Holds(buf, i, t) && buf[i].valid {
        if i != b {
          assert Holds(buf', i, t);
        } else {
          assert forall j: nat :: !Holds(buf', j, t) || j == b;
        }
      } else {
        assert forall j: nat :: Holds(buf', j, t) ==> j == b || Holds(buf, j, t);
      }
    }
  }
}
