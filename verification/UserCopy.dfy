/** pt_copyin and pt_copyout: bytes cross the kernel boundary page by page, through the page tables, with
    missing pages allocated on the way. */
module UserCopy {
  import opened Bytes
  import opened Params
  import opened PageTables
  import opened Paging
  import opened Faults
  import Containers

  /** The guard of both copies, computed modulo 2^32. */
  predicate InRange(uva: nat, kva: nat, len: nat) {
    VM_USERLO <= uva && (uva + len) % U32 <= VM_USERHI && (kva + len) % U32 <= VM_USERHI
  }

  /** A sum that 32 bits take for an address below VM_USERHI. */
  predicate WrapsBelow(end: nat) {
    U32 <= end <= U32 + VM_USERHI
  }

  /** The guard says that both ends are within bounds exactly unless an end wraps around and the guard is passed. */
  lemma InRangeExactly(uva: nat, kva: nat, len: nat)
    requires uva < U32 && kva < U32 && len < U32
    ensures (InRange(uva, kva, len) <==> VM_USERLO <= uva && uva + len <= VM_USERHI && kva + len <= VM_USERHI) <==>
            !(&& VM_USERLO <= uva
              && (uva + len <= VM_USERHI || WrapsBelow(uva + len)) && (kva + len <= VM_USERHI || WrapsBelow(kva + len))
              && (WrapsBelow(uva + len) || WrapsBelow(kva + len)))
  {
  }

  /** Sixteen bytes at the top of the address space pass the guard, for an ordinary kernel buffer. */
  lemma InRangeWraps()
    ensures InRange(0xFFFF_FFF8, 0x10_0000, 16) && !(0xFFFF_FFF8 + 16 <= VM_USERHI)
  {
  }

  /** `buf` is now at `uva` wherever that is mapped; every address mapped before still is, to the same page,
      and all other bytes are as before. */
  ghost predicate Wrote(pages: seq<Page>, pdir: seq<seq<nat>>, pages': seq<Page>, pdir': seq<seq<nat>>, p: nat,
                        uva: nat, buf: seq<byte>) {
    && Shaped(pages, pdir) && Shaped(pages', pdir')
    && (forall a: nat :: UserAddr(p, a) && uva <= a < uva + |buf| && Entry(pages', pdir', p, a / PAGESIZE) != 0 ==>
          ByteAt(pages', pdir', p, a) == buf[a - uva])
    && (forall q: nat, a: nat :: UserAddr(q, a) && Entry(pages, pdir, q, a / PAGESIZE) != 0 ==>
          && Entry(pages', pdir', q, a / PAGESIZE) == Entry(pages, pdir, q, a / PAGESIZE)
          && (!(q == p && uva <= a < uva + |buf|) ==> ByteAt(pages', pdir', q, a) == ByteAt(pages, pdir, q, a)))
  }

  /** `buf` is what is at `uva`, wherever that is mapped. */
  ghost predicate Fetched(pages: seq<Page>, pdir: seq<seq<nat>>, p: nat, uva: nat, buf: seq<byte>) {
    && Shaped(pages, pdir)
    && forall a: nat :: UserAddr(p, a) && uva <= a < uva + |buf| && Entry(pages, pdir, p, a / PAGESIZE) != 0 ==>
         buf[a - uva] == ByteAt(pages, pdir, p, a)
  }

  /** What is copied out and then copied in is the same bytes, provided the first copy found or allocated
      every page. */
  lemma RoundTrip(pages: seq<Page>, pdir: seq<seq<nat>>, pages1: seq<Page>, pdir1: seq<seq<nat>>, pages2: seq<Page>,
                  pdir2: seq<seq<nat>>, p: nat, uva: nat, buf: seq<byte>, back: seq<byte>)
    requires 1 <= p < NUM_IDS && VM_USERLO <= uva && uva + |buf| <= VM_USERHI && |back| == |buf|
    requires Wrote(pages, pdir, pages1, pdir1, p, uva, buf) && Kept(pages1, pdir1, pages2, pdir2)
    requires Fetched(pages2, pdir2, p, uva, back)
    requires AllMapped(pages1, pdir1, p, uva, |buf|)
    ensures back == buf
  {
    hide Entry, ByteAt;
    forall k | 0 <= k < |buf| ensures back[k] == buf[k] {
      assert UserAddr(p, uva + k);
      assert UserPage(p, (uva + k) / PAGESIZE);
    }
  }

  /** Allocating the next page keeps what has been written so far. */
  lemma WroteThenFaulted(pages: seq<Page>, pdir: seq<seq<nat>>, pages1: seq<Page>, pdir1: seq<seq<nat>>,
                         pages2: seq<Page>, pdir2: seq<seq<nat>>,
                         p: nat, uva: nat, buf: seq<byte>)
    requires Wrote(pages, pdir, pages1, pdir1, p, uva, buf) && AtBoundary(uva, |buf|) && UserAddr(p, uva + |buf|)
    requires Faulted(pages1, pdir1, pages2, pdir2, p, (uva + |buf|) / PAGESIZE)
    ensures Wrote(pages, pdir, pages2, pdir2, p, uva, buf)
  {
  }

  lemma FaultedByAlloc(pages: seq<Page>, pdir: seq<seq<nat>>, pages': seq<Page>, pdir': seq<seq<nat>>, p: nat, v: nat,
                       e: nat)
    requires UserPage(p, v) && Shaped(pages, pdir) && Entry(pages, pdir, p, v) == 0
    requires EntriesAfter(pages, pdir, pages', pdir', p, v, e) && KeptExcept(pages, pdir, pages', pdir', p, v)
    ensures Faulted(pages, pdir, pages', pdir', p, v) && Entry(pages', pdir', p, v) == e
  {
  }

  /** memcpy to offset `off` of a page. */
  function Pasted(pg: Page, off: nat, chunk: seq<byte>): (r: Page)
    requires off + |chunk| <= PAGESIZE
  {
    pg[..off] + chunk + pg[off + |chunk|..]
  }

  /** Copying the next chunk, which does not cross a page boundary. */
  lemma WroteMore(norm: seq<bool>, taken: seq<bool>, owner: map<nat, Use>, pages: seq<Page>, pdir: seq<seq<nat>>,
                  pages1: seq<Page>, pdir1: seq<seq<nat>>,
                  pages2: seq<Page>, p: nat, uva: nat, buf: seq<byte>, chunk: seq<byte>)
    requires Exclusive(norm, taken, pages1, pdir1, owner)
    requires Wrote(pages, pdir, pages1, pdir1, p, uva, buf) && AtBoundary(uva, |buf|)
    requires UserAddr(p, uva + |buf|) && (uva + |buf|) % PAGESIZE + |chunk| <= PAGESIZE
    requires var t := Entry(pages1, pdir1, p, (uva + |buf|) / PAGESIZE) / PAGESIZE;
             t < |pages1| && pages2 == pages1[t := Pasted(pages1[t], (uva + |buf|) % PAGESIZE, chunk)]
    ensures Exclusive(norm, taken, pages2, pdir1, owner) && Wrote(pages, pdir, pages2, pdir1, p, uva, buf + chunk)
    ensures SameEntries(pages1, pdir1, pages2, pdir1)
  {
    var v := (uva + |buf|) / PAGESIZE;
    var t := Entry(pages1, pdir1, p, v) / PAGESIZE;
    assert UserPage(p, v);
    assert t in owner ==> owner[t] == Data(p, v);
    ContentsStored(norm, taken, pages1, pdir1, owner, t, pages2);
    forall q: nat, a: nat | UserAddr(q, a) && Entry(pages1, pdir1, q, a / PAGESIZE) != 0
      ensures Entry(pages2, pdir1, q, a / PAGESIZE) == Entry(pages1, pdir1, q, a / PAGESIZE)
      ensures (q, a / PAGESIZE) != (p, v) ==> ByteAt(pages2, pdir1, q, a) == ByteAt(pages1, pdir1, q, a)
      ensures (q, a / PAGESIZE) == (p, v) ==> ByteAt(pages2, pdir1, q, a) == pages2[t][a % PAGESIZE]
    {
      assert UserPage(q, a / PAGESIZE);
    }
    PastedBytes(pages, pdir, pages1, pdir1, pages2, p, uva, buf, chunk, v, t);
  }

  lemma PastedBytes(pages: seq<Page>, pdir: seq<seq<nat>>, pages1: seq<Page>, pdir1: seq<seq<nat>>, pages2: seq<Page>,
                    p: nat, uva: nat, buf: seq<byte>, chunk: seq<byte>, v: nat, t: nat)
    requires Wrote(pages, pdir, pages1, pdir1, p, uva, buf) && AtBoundary(uva, |buf|) && UserAddr(p, uva + |buf|)
    requires v == (uva + |buf|) / PAGESIZE && t == Entry(pages1, pdir1, p, v) / PAGESIZE && t < |pages1| == |pages2|
    requires (uva + |buf|) % PAGESIZE + |chunk| <= PAGESIZE
    requires pages2[t] == Pasted(pages1[t], (uva + |buf|) % PAGESIZE, chunk)
    requires SameEntries(pages1, pdir1, pages2, pdir1)
    requires forall q: nat, a: nat :: UserAddr(q, a) && Entry(pages1, pdir1, q, a / PAGESIZE) != 0 ==>
               && Entry(pages2, pdir1, q, a / PAGESIZE) == Entry(pages1, pdir1, q, a / PAGESIZE)
               && ((q, a / PAGESIZE) != (p, v) ==> ByteAt(pages2, pdir1, q, a) == ByteAt(pages1, pdir1, q, a))
               && ((q, a / PAGESIZE) == (p, v) ==> ByteAt(pages2, pdir1, q, a) == pages2[t][a % PAGESIZE])
    ensures Wrote(pages, pdir, pages2, pdir1, p, uva, buf + chunk)
  {
    hide Entry;
    forall a: nat | UserAddr(p, a) && uva <= a < uva + |buf + chunk| && Entry(pages2, pdir1, p, a / PAGESIZE) != 0
      ensures ByteAt(pages2, pdir1, p, a) == (buf + chunk)[a - uva]
    {
      assert UserPage(p, a / PAGESIZE);
      assert Entry(pages1, pdir1, p, a / PAGESIZE) != 0;
      if a < uva + |buf| {
        assert a / PAGESIZE != v;
      } else {
        assert a / PAGESIZE == v && a % PAGESIZE == (uva + |buf|) % PAGESIZE + (a - uva - |buf|);
      }
    }
    forall q: nat, a: nat | UserAddr(q, a) && Entry(pages, pdir, q, a / PAGESIZE) != 0
      ensures Entry(pages2, pdir1, q, a / PAGESIZE) == Entry(pages, pdir, q, a / PAGESIZE)
      ensures !(q == p && uva <= a < uva + |buf + chunk|) ==> ByteAt(pages2, pdir1, q, a) == ByteAt(pages, pdir, q, a)
    {
      assert Entry(pages1, pdir1, q, a / PAGESIZE) != 0;
      if (q, a / PAGESIZE) == (p, v) {
        assert ByteAt(pages1, pdir1, q, a) == pages1[t][a % PAGESIZE];
      }
    }
  }

  /** `left` pages suffice to have all of the `len` bytes at `uva` mapped. */
  ghost predicate Suffices(pages: seq<Page>, pdir: seq<seq<nat>>, left: nat, p: nat, uva: nat, len: nat)
    requires Shaped(pages, pdir) && 1 <= p < NUM_IDS && VM_USERLO <= uva && uva + len <= VM_USERHI
  {
    Needed(pages, pdir, p, uva / PAGESIZE, EndPage(uva, len), false) <= left
  }

  lemma TrackStarts(pages: seq<Page>, pdir: seq<seq<nat>>, left: nat, p: nat, uva: nat, len: nat)
    requires Shaped(pages, pdir) && 1 <= p < NUM_IDS && VM_USERLO <= uva && uva + len <= VM_USERHI
    ensures OnTrack(pages, pdir, left, p, uva, 0, len) <==> Suffices(pages, pdir, left, p, uva, len)
    ensures OnTrack(pages, pdir, left, p, uva, len, len) <==> AllMapped(pages, pdir, p, uva, len)
  {
  }

  /** What a copy finds in the page tables is what another page's contents leave in them. */
  lemma TrackKept(pages: seq<Page>, pdir: seq<seq<nat>>, pages': seq<Page>, left: nat, p: nat, uva: nat, done: nat,
                  len: nat)
    requires SameEntries(pages, pdir, pages', pdir) && 1 <= p < NUM_IDS && VM_USERLO <= uva && uva + len <= VM_USERHI
    ensures OnTrack(pages', pdir, left, p, uva, done, len) <==> OnTrack(pages, pdir, left, p, uva, done, len)
  {
    hide Entry;
    NeededSame(pages, pdir, pages', p, EndPage(uva, done), EndPage(uva, len), false);
  }

  lemma {:induction false} NeededSame(pages: seq<Page>, pdir: seq<seq<nat>>, pages': seq<Page>, p: nat, v: nat,
                                      end: nat, table: bool)
    requires SameEntries(pages, pdir, pages', pdir) && 1 <= p < NUM_IDS && 256 * PTRS <= v && end <= 960 * PTRS
    ensures Needed(pages', pdir, p, v, end, table) == Needed(pages, pdir, p, v, end, table)
    decreases end - v
  {
    hide Entry, Pde;
    if v < end {
      assert UserPage(p, v);
      NeededSame(pages, pdir, pages', p, v + 1, end, (v + 1) % PTRS != 0);
    }
  }

  /** pt_copyout */
  method CopyOut(vm: VM, buf: seq<byte>, kva: nat, p: nat, uva: nat) returns (copied: nat)
    requires vm.Valid() && 1 <= p < NUM_IDS && vm.ct.cs[p].used
    requires uva + |buf| < U32 && kva + |buf| < U32
    modifies vm, vm.at, vm.ct
    ensures vm.Valid() && SameUsed(old(vm.ct.cs), vm.ct.cs) && |vm.pages| == |old(vm.pages)|
    ensures !InRange(uva, kva, |buf|) ==> copied == 0 && vm.pages == old(vm.pages) && vm.pdir == old(vm.pdir)
    ensures InRange(uva, kva, |buf|) ==> copied == |buf|
    ensures InRange(uva, kva, |buf|) ==> Wrote(old(vm.pages), old(vm.pdir), vm.pages, vm.pdir, p, uva, buf)
    ensures InRange(uva, kva, |buf|) ==>
              (AllMapped(vm.pages, vm.pdir, p, uva, |buf|) <==>
                Suffices(old(vm.pages), old(vm.pdir), old(vm.Left(p)), p, uva, |buf|))
    ensures InRange(uva, kva, |buf|) ==>
              KeepsCover(old(vm.pages), old(vm.pdir), old(vm.Left(p)), vm.pages, vm.pdir, vm.Left(p), p,
                         uva / PAGESIZE, EndPage(uva, |buf|))
    ensures InRange(uva, kva, |buf|) ==>
              OnlyNew(old(vm.pages), old(vm.pdir), vm.pages, vm.pdir, p, uva / PAGESIZE, EndPage(uva, |buf|))
  {
    hide Exclusive, Charged, PagesOf, Entry, ByteAt, Wrote, Containers.TreeShaped, Containers.Balanced, AtBoundary,
         KeepsCover, OnlyNew;
    if !InRange(uva, kva, |buf|) {
      return 0;
    }
    copied := 0;
    Containers.TableSize(vm.ct.cs);
    TablesShaped(vm.at.norm, vm.at.taken, vm.pages, vm.pdir, vm.owner);
    NothingWritten(vm.pages, vm.pdir, p, uva);
    NothingUsed(vm.pages, vm.pdir, vm.Left(p), p, uva / PAGESIZE, EndPage(uva, |buf|));
    NothingNew(vm.pages, vm.pdir, p, uva / PAGESIZE, EndPage(uva, |buf|));
    TrackStarts(vm.pages, vm.pdir, vm.Left(p), p, uva, |buf|);
    while copied < |buf|
      invariant vm.Valid() && SameUsed(old(vm.ct.cs), vm.ct.cs) && |vm.pages| == |old(vm.pages)|
      invariant 0 <= copied <= |buf| && (copied < |buf| ==> AtBoundary(uva, copied))
      invariant Wrote(old(vm.pages), old(vm.pdir), vm.pages, vm.pdir, p, uva, buf[..copied])
      invariant Shaped(vm.pages, vm.pdir)
      invariant OnTrack(vm.pages, vm.pdir, vm.Left(p), p, uva, copied, |buf|) ==
                OnTrack(old(vm.pages), old(vm.pdir), old(vm.Left(p)), p, uva, 0, |buf|)
      invariant KeepsCover(old(vm.pages), old(vm.pdir), old(vm.Left(p)), vm.pages, vm.pdir, vm.Left(p), p,
                           uva / PAGESIZE, EndPage(uva, |buf|))
      invariant OnlyNew(old(vm.pages), old(vm.pdir), vm.pages, vm.pdir, p, uva / PAGESIZE, EndPage(uva, |buf|))
    {
      ghost var pages1, pdir1, left1 := vm.pages, vm.pdir, vm.Left(p);
      var size := CopyChunk(vm, buf, copied, p, uva, old(vm.pages), old(vm.pdir));
      PageWithin(uva, copied, |buf|);
      CoverTwice(old(vm.pages), old(vm.pdir), old(vm.Left(p)), pages1, pdir1, left1, vm.pages, vm.pdir, vm.Left(p), p,
                 uva / PAGESIZE, EndPage(uva, |buf|), (uva + copied) / PAGESIZE, (uva + copied) / PAGESIZE + 1);
      OnlyNewTwice(old(vm.pages), old(vm.pdir), pages1, pdir1, vm.pages, vm.pdir, p, uva / PAGESIZE,
                   EndPage(uva, |buf|), (uva + copied) / PAGESIZE, (uva + copied) / PAGESIZE + 1);
      copied := copied + size;
    }
    assert buf[..copied] == buf;
    TrackStarts(vm.pages, vm.pdir, vm.Left(p), p, uva, |buf|);
  }

  /** The first half of a turn of either loop: the entry of `va`, after an attempt to allocate the page if it
      is not present. The attempt succeeds exactly if enough pages are left for it and its table. */
  method PageFor(vm: VM, p: nat, va: nat) returns (e: nat)
    requires vm.Valid() && UserAddr(p, va) && vm.ct.cs[p].used
    modifies vm, vm.at, vm.ct
    ensures vm.Valid() && SameUsed(old(vm.ct.cs), vm.ct.cs) && |vm.pages| == |old(vm.pages)|
    ensures Faulted(old(vm.pages), old(vm.pdir), vm.pages, vm.pdir, p, va / PAGESIZE)
    ensures e == Entry(vm.pages, vm.pdir, p, va / PAGESIZE) && e / PAGESIZE < |vm.pages|
    ensures SameDirs(old(vm.pdir), vm.pdir, p, va / PAGESIZE / PTRS)
    ensures e != 0 <==> Missing(old(vm.pages), old(vm.pdir), p, va / PAGESIZE, false) <= old(vm.Left(p))
    ensures e != 0 ==> vm.Left(p) + Missing(old(vm.pages), old(vm.pdir), p, va / PAGESIZE, false) == old(vm.Left(p))
    ensures e != 0 ==> Pde(vm.pdir, p, va / PAGESIZE / PTRS) != 0
    ensures OnlyNew(old(vm.pages), old(vm.pdir), vm.pages, vm.pdir, p, va / PAGESIZE, va / PAGESIZE + 1)
    ensures Entry(old(vm.pages), old(vm.pdir), p, va / PAGESIZE) != 0 ==>
              unchanged(vm) && unchanged(vm.at) && unchanged(vm.ct)
  {
    hide Exclusive, Charged, PagesOf, Entry, ByteAt, EntriesAfter, KeptExcept, Faulted, Containers.TreeShaped,
         Containers.Balanced;
    hide Missing, PagesLeft, OnlyNew;
    Containers.TableSize(vm.ct.cs);
    TablesShaped(vm.at.norm, vm.at.taken, vm.pages, vm.pdir, vm.owner);
    NothingNew(vm.pages, vm.pdir, p, va / PAGESIZE, va / PAGESIZE + 1);
    PresentOrZero(vm.at.norm, vm.at.taken, vm.pages, vm.pdir, vm.owner, p, va / PAGESIZE);
    NothingFaulted(vm.pages, vm.pdir, p, va / PAGESIZE);
    MissingIs(vm.pages, vm.pdir, p, va);
    e := Entry(vm.pages, vm.pdir, p, va / PAGESIZE);
    if e % 2 == 0 {
      var r, t := vm.AllocPage(p, va, PT_PERM_PTU);
      if r != MAGIC_NUMBER {
        FaultedByAlloc(old(vm.pages), old(vm.pdir), vm.pages, vm.pdir, p, va / PAGESIZE, t * PAGESIZE + PT_PERM_PTU);
        NewByAlloc(old(vm.pages), old(vm.pdir), vm.pages, vm.pdir, p, va / PAGESIZE, t);
      }
      TablesShaped(vm.at.norm, vm.at.taken, vm.pages, vm.pdir, vm.owner);
      PresentOrZero(vm.at.norm, vm.at.taken, vm.pages, vm.pdir, vm.owner, p, va / PAGESIZE);
      e := Entry(vm.pages, vm.pdir, p, va / PAGESIZE);
    }
  }

  lemma NothingNew(pages: seq<Page>, pdir: seq<seq<nat>>, p: nat, lo: nat, hi: nat)
    requires Shaped(pages, pdir)
    ensures OnlyNew(pages, pdir, pages, pdir, p, lo, hi)
  {
  }

  lemma NewByAlloc(pages: seq<Page>, pdir: seq<seq<nat>>, pages': seq<Page>, pdir': seq<seq<nat>>, p: nat, v: nat,
                   t: nat)
    requires Shaped(pages, pdir) && UserPage(p, v) && Entry(pages, pdir, p, v) == 0
    requires EntriesAfter(pages, pdir, pages', pdir', p, v, t * PAGESIZE + PT_PERM_PTU)
    ensures OnlyNew(pages, pdir, pages', pdir', p, v, v + 1)
  {
    hide Entry;
    assert (t * PAGESIZE + PT_PERM_PTU) % PAGESIZE == PT_PERM_PTU;
  }

  lemma MissingIs(pages: seq<Page>, pdir: seq<seq<nat>>, p: nat, va: nat)
    requires Shaped(pages, pdir) && UserAddr(p, va)
    ensures var v := va / PAGESIZE;
            && (Entry(pages, pdir, p, v) != 0 ==> Missing(pages, pdir, p, v, false) == 0 && Pde(pdir, p, v / PTRS) != 0)
            && (Entry(pages, pdir, p, v) == 0 ==> Missing(pages, pdir, p, v, false) == 1 + Tables(pdir, p, va))
  {
  }

  /** One turn of the loop of pt_copyout. */
  method CopyChunk(vm: VM, buf: seq<byte>, done: nat, p: nat, uva: nat, ghost pages0: seq<Page>,
                   ghost pdir0: seq<seq<nat>>) returns (size: nat)
    requires vm.Valid() && 1 <= p < NUM_IDS && vm.ct.cs[p].used
    requires VM_USERLO <= uva && uva + |buf| <= VM_USERHI && done < |buf| && AtBoundary(uva, done)
    requires Wrote(pages0, pdir0, vm.pages, vm.pdir, p, uva, buf[..done])
    modifies vm, vm.at, vm.ct
    ensures vm.Valid() && SameUsed(old(vm.ct.cs), vm.ct.cs) && |vm.pages| == |old(vm.pages)|
    ensures size == ChunkSize(uva, done, |buf|) && Shaped(vm.pages, vm.pdir)
    ensures OnTrack(vm.pages, vm.pdir, vm.Left(p), p, uva, done + size, |buf|) ==
            OnTrack(old(vm.pages), old(vm.pdir), old(vm.Left(p)), p, uva, done, |buf|)
    ensures Wrote(pages0, pdir0, vm.pages, vm.pdir, p, uva, buf[..done + size])
    ensures Shaped(old(vm.pages), old(vm.pdir))
    ensures KeepsCover(old(vm.pages), old(vm.pdir), old(vm.Left(p)), vm.pages, vm.pdir, vm.Left(p), p,
                       (uva + done) / PAGESIZE, (uva + done) / PAGESIZE + 1)
    ensures OnlyNew(old(vm.pages), old(vm.pdir), vm.pages, vm.pdir, p, (uva + done) / PAGESIZE,
                    (uva + done) / PAGESIZE + 1)
  {
    hide Exclusive, Charged, PagesOf, Entry, ByteAt, Wrote, Faulted, Pasted, Containers.TreeShaped, Containers.Balanced,
         AtBoundary, KeepsCover, OnlyNew;
    hide Missing, PagesLeft, OnTrack, SameDirs;
    Containers.TableSize(vm.ct.cs);
    TablesShaped(vm.at.norm, vm.at.taken, vm.pages, vm.pdir, vm.owner);
    var e := PageFor(vm, p, uva + done);
    WroteThenFaulted(pages0, pdir0, old(vm.pages), old(vm.pdir), vm.pages, vm.pdir, p, uva, buf[..done]);
    size := ChunkSize(uva, done, |buf|);
    StaysOnTrack(old(vm.pages), old(vm.pdir), old(vm.Left(p)), vm.pages, vm.pdir, vm.Left(p), p, uva, done, size,
      |buf|);
    FaultKeepsCover(old(vm.pages), old(vm.pdir), old(vm.Left(p)), vm.pages, vm.pdir, vm.Left(p), p,
                    (uva + done) / PAGESIZE);
    ghost var pages2 := vm.pages;
    vm.pages := vm.pages[e / PAGESIZE := Pasted(vm.pages[e / PAGESIZE], (uva + done) % PAGESIZE,
      buf[done..done + size])];
    WroteMore(vm.at.norm, vm.at.taken, vm.owner, pages0, pdir0, pages2, vm.pdir, vm.pages, p, uva, buf[..done],
      buf[done..done + size]);
    TrackKept(pages2, vm.pdir, vm.pages, vm.Left(p), p, uva, done + size, |buf|);
    CoverKept(old(vm.pages), old(vm.pdir), old(vm.Left(p)), pages2, vm.pdir, vm.pages, vm.Left(p), p,
              (uva + done) / PAGESIZE, (uva + done) / PAGESIZE + 1);
    NoneNew(pages2, vm.pdir, vm.pages, vm.pdir, p, (uva + done) / PAGESIZE, (uva + done) / PAGESIZE + 1);
    OnlyNewTwice(old(vm.pages), old(vm.pdir), pages2, vm.pdir, vm.pages, vm.pdir, p, (uva + done) / PAGESIZE,
                 (uva + done) / PAGESIZE + 1, (uva + done) / PAGESIZE, (uva + done) / PAGESIZE + 1);
    assert buf[..done] + buf[done..done + size] == buf[..done + size];
  }

  lemma NothingUsed(pages: seq<Page>, pdir: seq<seq<nat>>, left: nat, p: nat, a: nat, b: nat)
    requires Shaped(pages, pdir) && 1 <= p < NUM_IDS
    ensures KeepsCover(pages, pdir, left, pages, pdir, left, p, a, b)
  {
  }

  lemma PageWithin(uva: nat, done: nat, len: nat)
    requires done < len
    ensures uva / PAGESIZE <= (uva + done) / PAGESIZE < EndPage(uva, len)
  {
  }

  lemma CoverKept(pages: seq<Page>, pdir: seq<seq<nat>>, left: nat, pages1: seq<Page>, pdir1: seq<seq<nat>>,
                  pages2: seq<Page>, left1: nat, p: nat, a: nat, b: nat)
    requires Shaped(pages, pdir) && 1 <= p < NUM_IDS && SameEntries(pages1, pdir1, pages2, pdir1)
    requires KeepsCover(pages, pdir, left, pages1, pdir1, left1, p, a, b)
    ensures KeepsCover(pages, pdir, left, pages2, pdir1, left1, p, a, b)
  {
    hide Needed, Entry;
    forall lo: nat, end: nat | 256 * PTRS <= lo <= a && b <= end <= 960 * PTRS
      ensures Needed(pages2, pdir1, p, lo, end, false) == Needed(pages1, pdir1, p, lo, end, false)
    {
      NeededSame(pages1, pdir1, pages2, p, lo, end, false);
    }
  }

  /** How much of the next page a turn copies. */
  function ChunkSize(uva: nat, done: nat, len: nat): (size: nat)
    requires done < len
    ensures 0 < size <= len - done && (uva + done) % PAGESIZE + size <= PAGESIZE
    ensures done + size < len ==> AtBoundary(uva, done + size)
  {
    var off := (uva + done) % PAGESIZE;
    if len - done < PAGESIZE - off then len - done else PAGESIZE - off
  }

  lemma NothingFaulted(pages: seq<Page>, pdir: seq<seq<nat>>, p: nat, v: nat)
    requires Shaped(pages, pdir)
    ensures Faulted(pages, pdir, pages, pdir, p, v)
  {
  }

  lemma NothingWritten(pages: seq<Page>, pdir: seq<seq<nat>>, p: nat, uva: nat)
    requires Shaped(pages, pdir)
    ensures Wrote(pages, pdir, pages, pdir, p, uva, []) && AtBoundary(uva, 0)
  {
  }

  lemma PresentOrZero(norm: seq<bool>, taken: seq<bool>, pages: seq<Page>, pdir: seq<seq<nat>>, owner: map<nat, Use>,
                      p: nat, v: nat)
    requires Exclusive(norm, taken, pages, pdir, owner) && UserPage(p, v)
    ensures Entry(pages, pdir, p, v) == 0 || Entry(pages, pdir, p, v) % 2 == 1
    ensures Entry(pages, pdir, p, v) / PAGESIZE < |pages|
  {
  }

  /** pt_copyin */
  method CopyIn(vm: VM, p: nat, uva: nat, kva: nat, len: nat) returns (buf: seq<byte>)
    requires vm.Valid() && 1 <= p < NUM_IDS && vm.ct.cs[p].used
    requires uva + len < U32 && kva + len < U32
    modifies vm, vm.at, vm.ct
    ensures vm.Valid() && SameUsed(old(vm.ct.cs), vm.ct.cs) && |vm.pages| == |old(vm.pages)|
    ensures |buf| == if InRange(uva, kva, len) then len else 0
    ensures Kept(old(vm.pages), old(vm.pdir), vm.pages, vm.pdir) && Fetched(vm.pages, vm.pdir, p, uva, buf)
    ensures InRange(uva, kva, len) ==>
              (AllMapped(vm.pages, vm.pdir, p, uva, len) <==>
                Suffices(old(vm.pages), old(vm.pdir), old(vm.Left(p)), p, uva, len))
    ensures InRange(uva, kva, len) && AllMapped(old(vm.pages), old(vm.pdir), p, uva, len) ==>
              unchanged(vm) && unchanged(vm.at) && unchanged(vm.ct)
    ensures OnlyNew(old(vm.pages), old(vm.pdir), vm.pages, vm.pdir, p, uva / PAGESIZE, EndPage(uva, len))
  {
    buf := [];
    hide Exclusive, Charged, PagesOf, Entry, ByteAt, Fetched, Faulted, Kept, Containers.TreeShaped, Containers.Balanced,
         AtBoundary, OnlyNew;
    Containers.TableSize(vm.ct.cs);
    TablesShaped(vm.at.norm, vm.at.taken, vm.pages, vm.pdir, vm.owner);
    NothingNew(vm.pages, vm.pdir, p, uva / PAGESIZE, EndPage(uva, len));
    NothingFetched(vm.pages, vm.pdir, p, uva);
    if !InRange(uva, kva, len) {
      return;
    }
    TrackStarts(vm.pages, vm.pdir, vm.Left(p), p, uva, len);
    while |buf| < len
      invariant vm.Valid() && SameUsed(old(vm.ct.cs), vm.ct.cs) && |vm.pages| == |old(vm.pages)|
      invariant |buf| <= len && (|buf| < len ==> AtBoundary(uva, |buf|))
      invariant Kept(old(vm.pages), old(vm.pdir), vm.pages, vm.pdir) && Fetched(vm.pages, vm.pdir, p, uva, buf)
      invariant Shaped(vm.pages, vm.pdir)
      invariant OnTrack(vm.pages, vm.pdir, vm.Left(p), p, uva, |buf|, len) ==
                OnTrack(old(vm.pages), old(vm.pdir), old(vm.Left(p)), p, uva, 0, len)
      invariant AllMapped(old(vm.pages), old(vm.pdir), p, uva, len) ==>
                  unchanged(vm) && unchanged(vm.at) && unchanged(vm.ct)
      invariant OnlyNew(old(vm.pages), old(vm.pdir), vm.pages, vm.pdir, p, uva / PAGESIZE, EndPage(uva, len))
    {
      PageOfMapped(vm.pages, vm.pdir, p, uva, |buf|, len);
      PageWithin(uva, |buf|, len);
      ghost var pages1, pdir1, v := vm.pages, vm.pdir, (uva + |buf|) / PAGESIZE;
      buf := FetchChunk(vm, p, uva, buf, len, old(vm.pages), old(vm.pdir));
      OnlyNewTwice(old(vm.pages), old(vm.pdir), pages1, pdir1, vm.pages, vm.pdir, p, uva / PAGESIZE, EndPage(uva, len),
                   v, v + 1);
    }
    TrackStarts(vm.pages, vm.pdir, vm.Left(p), p, uva, len);
  }

  /** One turn of the loop of pt_copyin. */
  method FetchChunk(vm: VM, p: nat, uva: nat, buf: seq<byte>, len: nat, ghost pages0: seq<Page>,
                    ghost pdir0: seq<seq<nat>>) returns (buf': seq<byte>)
    requires vm.Valid() && 1 <= p < NUM_IDS && vm.ct.cs[p].used
    requires VM_USERLO <= uva && uva + len <= VM_USERHI && |buf| < len && AtBoundary(uva, |buf|)
    requires Kept(pages0, pdir0, vm.pages, vm.pdir) && Fetched(vm.pages, vm.pdir, p, uva, buf)
    modifies vm, vm.at, vm.ct
    ensures vm.Valid() && SameUsed(old(vm.ct.cs), vm.ct.cs) && |vm.pages| == |old(vm.pages)|
    ensures |buf'| == |buf| + ChunkSize(uva, |buf|, len) && Shaped(vm.pages, vm.pdir)
    ensures OnTrack(vm.pages, vm.pdir, vm.Left(p), p, uva, |buf'|, len) ==
            OnTrack(old(vm.pages), old(vm.pdir), old(vm.Left(p)), p, uva, |buf|, len)
    ensures Kept(pages0, pdir0, vm.pages, vm.pdir) && Fetched(vm.pages, vm.pdir, p, uva, buf')
    ensures Shaped(old(vm.pages), old(vm.pdir))
    ensures Entry(old(vm.pages), old(vm.pdir), p, (uva + |buf|) / PAGESIZE) != 0 ==>
              unchanged(vm) && unchanged(vm.at) && unchanged(vm.ct)
    ensures OnlyNew(old(vm.pages), old(vm.pdir), vm.pages, vm.pdir, p, (uva + |buf|) / PAGESIZE,
                    (uva + |buf|) / PAGESIZE + 1)
  {
    hide Exclusive, Charged, PagesOf, Entry, ByteAt, Fetched, Faulted, Kept, Containers.TreeShaped, Containers.Balanced,
         AtBoundary, OnlyNew;
    hide Missing, PagesLeft, OnTrack, SameDirs;
    Containers.TableSize(vm.ct.cs);
    TablesShaped(vm.at.norm, vm.at.taken, vm.pages, vm.pdir, vm.owner);
    var e := PageFor(vm, p, uva + |buf|);
    FetchedThenFaulted(pages0, pdir0, old(vm.pages), old(vm.pdir), vm.pages, vm.pdir, p, uva, buf);
    var off, size := (uva + |buf|) % PAGESIZE, ChunkSize(uva, |buf|, len);
    StaysOnTrack(old(vm.pages), old(vm.pdir), old(vm.Left(p)), vm.pages, vm.pdir, vm.Left(p), p, uva, |buf|, size, len);
    FetchedMore(vm.pages, vm.pdir, p, uva, buf, e / PAGESIZE, size);
    buf' := buf + vm.pages[e / PAGESIZE][off..off + size];
  }

  lemma PageOfMapped(pages: seq<Page>, pdir: seq<seq<nat>>, p: nat, uva: nat, done: nat, len: nat)
    requires Shaped(pages, pdir) && 1 <= p < NUM_IDS && VM_USERLO <= uva && uva + len <= VM_USERHI && done < len
    ensures AllMapped(pages, pdir, p, uva, len) ==> Entry(pages, pdir, p, (uva + done) / PAGESIZE) != 0
  {
    hide Entry;
    PageWithin(uva, done, len);
    assert UserPage(p, (uva + done) / PAGESIZE);
  }

  lemma NothingFetched(pages: seq<Page>, pdir: seq<seq<nat>>, p: nat, uva: nat)
    requires Shaped(pages, pdir)
    ensures Fetched(pages, pdir, p, uva, []) && Kept(pages, pdir, pages, pdir) && AtBoundary(uva, 0)
  {
  }

  lemma FetchedThenFaulted(pages: seq<Page>, pdir: seq<seq<nat>>, pages1: seq<Page>, pdir1: seq<seq<nat>>,
                           pages2: seq<Page>, pdir2: seq<seq<nat>>,
                           p: nat, uva: nat, buf: seq<byte>)
    requires Kept(pages, pdir, pages1, pdir1) && Fetched(pages1, pdir1, p, uva, buf) && AtBoundary(uva, |buf|)
    requires UserAddr(p, uva + |buf|)
    requires Faulted(pages1, pdir1, pages2, pdir2, p, (uva + |buf|) / PAGESIZE)
    ensures Kept(pages, pdir, pages2, pdir2) && Fetched(pages2, pdir2, p, uva, buf)
  {
  }

  lemma FetchedMore(pages: seq<Page>, pdir: seq<seq<nat>>, p: nat, uva: nat, buf: seq<byte>, t: nat, size: nat)
    requires Fetched(pages, pdir, p, uva, buf) && UserAddr(p, uva + |buf|)
    requires (uva + |buf|) % PAGESIZE + size <= PAGESIZE
    requires t == Entry(pages, pdir, p, (uva + |buf|) / PAGESIZE) / PAGESIZE < |pages|
    ensures var off := (uva + |buf|) % PAGESIZE; Fetched(pages, pdir, p, uva, buf + pages[t][off..off + size])
  {
    hide Entry;
    var off := (uva + |buf|) % PAGESIZE;
    var buf' := buf + pages[t][off..off + size];
    forall a: nat | UserAddr(p, a) && uva <= a < uva + |buf'| && Entry(pages, pdir, p, a / PAGESIZE) != 0
      ensures buf'[a - uva] == ByteAt(pages, pdir, p, a)
    {
      if a >= uva + |buf| {
        assert a / PAGESIZE == (uva + |buf|) / PAGESIZE && a % PAGESIZE == off + (a - uva - |buf|);
      }
    }
  }

  /** pt_copyout and then pt_copyin. If enough pages were left at the start, the same bytes come back. */
  method CopyOutAndIn(vm: VM, buf: seq<byte>, kva: nat, p: nat, uva: nat) returns (back: seq<byte>)
    requires vm.Valid() && 1 <= p < NUM_IDS && vm.ct.cs[p].used
    requires VM_USERLO <= uva && uva + |buf| <= VM_USERHI && kva + |buf| <= VM_USERHI
    modifies vm, vm.at, vm.ct
    ensures vm.Valid() && |back| == |buf|
    ensures Suffices(old(vm.pages), old(vm.pdir), old(vm.Left(p)), p, uva, |buf|) ==> back == buf
  {
    hide Exclusive, Charged, PagesOf, Entry, ByteAt, Fetched, Wrote, Kept, Containers.TreeShaped, Containers.Balanced,
         AllMapped, Suffices;
    TablesShaped(vm.at.norm, vm.at.taken, vm.pages, vm.pdir, vm.owner);
    Containers.TableSize(vm.ct.cs);
    var copied := CopyOut(vm, buf, kva, p, uva);
    TablesShaped(vm.at.norm, vm.at.taken, vm.pages, vm.pdir, vm.owner);
    ghost var pages1, pdir1 := vm.pages, vm.pdir;
    back := CopyIn(vm, p, uva, kva, |buf|);
    if AllMapped(pages1, pdir1, p, uva, |buf|) {
      RoundTrip(old(vm.pages), old(vm.pdir), pages1, pdir1, vm.pages, vm.pdir, p, uva, buf, back);
    }
  }
}
