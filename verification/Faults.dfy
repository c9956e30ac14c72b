/** How many pages a copy has to allocate, and that it maps every page exactly if that many are left. */
module Faults {
  import opened Params
  import opened PageTables
  import opened Paging

  /** At most the entry of page `v` of `p` is new: everything mapped before is kept. */
  ghost predicate Faulted(pages: seq<Page>, pdir: seq<seq<nat>>, pages': seq<Page>, pdir': seq<seq<nat>>, p: nat,
                          v: nat) {
    && Kept(pages, pdir, pages', pdir')
    && forall q: nat, u: nat :: UserPage(q, u) && (q, u) != (p, v) ==>
         Entry(pages', pdir', q, u) == Entry(pages, pdir, q, u)
  }

  /** The entries are as before, except that pages of `p` from `lo` up to `hi` that had none may have one now, present,
      writable and open to the user. */
  ghost predicate OnlyNew(pages: seq<Page>, pdir: seq<seq<nat>>, pages': seq<Page>, pdir': seq<seq<nat>>, p: nat,
                          lo: nat, hi: nat) {
    && Shaped(pages, pdir) && Shaped(pages', pdir')
    && forall q: nat, u: nat :: UserPage(q, u) && Entry(pages', pdir', q, u) != Entry(pages, pdir, q, u) ==>
         && q == p && lo <= u < hi && Entry(pages, pdir, q, u) == 0
         && Entry(pages', pdir', q, u) % PAGESIZE == PT_PERM_PTU
  }

  lemma OnlyNewTwice(pages: seq<Page>, pdir: seq<seq<nat>>, pages1: seq<Page>, pdir1: seq<seq<nat>>,
                     pages2: seq<Page>, pdir2: seq<seq<nat>>, p: nat, lo: nat, hi: nat, a: nat, b: nat)
    requires OnlyNew(pages, pdir, pages1, pdir1, p, lo, hi) && OnlyNew(pages1, pdir1, pages2, pdir2, p, a, b)
    requires lo <= a && b <= hi
    ensures OnlyNew(pages, pdir, pages2, pdir2, p, lo, hi)
  {
    hide Entry;
  }

  lemma NoneNew(pages: seq<Page>, pdir: seq<seq<nat>>, pages': seq<Page>, pdir': seq<seq<nat>>, p: nat, lo: nat,
                hi: nat)
    requires SameEntries(pages, pdir, pages', pdir')
    ensures OnlyNew(pages, pdir, pages', pdir', p, lo, hi)
  {
    hide Entry;
  }

  /** The pages to allocate for page `v`: itself, and its table unless that is known to be there. */
  ghost function Missing(pages: seq<Page>, pdir: seq<seq<nat>>, p: nat, v: nat, table: bool): nat
    requires Shaped(pages, pdir) && UserPage(p, v)
  {
    (if Entry(pages, pdir, p, v) == 0 then 1 else 0) + (if !table && Pde(pdir, p, v / PTRS) == 0 then 1 else 0)
  }

  /** The pages to allocate for the pages from `v` up to `end`. Each missing table counts once. */
  ghost function Needed(pages: seq<Page>, pdir: seq<seq<nat>>, p: nat, v: nat, end: nat, table: bool): nat
    requires Shaped(pages, pdir) && 1 <= p < NUM_IDS && 256 * PTRS <= v && end <= 960 * PTRS
    decreases end - v
  {
    if v >= end then 0
    else Missing(pages, pdir, p, v, table) + Needed(pages, pdir, p, v + 1, end, (v + 1) % PTRS != 0)
  }

  /** A fault on an earlier page changes what later pages need only by providing their table. */
  lemma {:induction false} NeededLater(pages: seq<Page>, pdir: seq<seq<nat>>, pages': seq<Page>, pdir': seq<seq<nat>>,
                                       p: nat, v: nat, u: nat, end: nat, table: bool)
    requires Faulted(pages, pdir, pages', pdir', p, v) && SameDirs(pdir, pdir', p, v / PTRS)
    requires UserPage(p, v) && Pde(pdir', p, v / PTRS) != 0 && v < u && end <= 960 * PTRS
    requires table == (u % PTRS != 0) || u / PTRS == v / PTRS
    ensures Needed(pages', pdir', p, u, end, table) == Needed(pages, pdir, p, u, end, u % PTRS != 0)
    decreases end - u
  {
    hide Entry, Pde, ByteAt;
    if u < end {
      assert UserPage(p, u) && UserDir(p, u / PTRS);
      NeededLater(pages, pdir, pages', pdir', p, v, u + 1, end, (u + 1) % PTRS != 0);
      if u / PTRS == v / PTRS {
        assert u % PTRS != 0;
      }
    }
  }

  /** The pages that the first `done` bytes lie in have all been left behind. */
  predicate AtBoundary(uva: nat, done: nat) {
    done == 0 || (uva + done) % PAGESIZE == 0
  }

  /** The first page after the first `done` bytes at `uva`. */
  function EndPage(uva: nat, done: nat): nat {
    if done == 0 then uva / PAGESIZE else (uva + done - 1) / PAGESIZE + 1
  }

  /** Every page of the first `done` bytes at `uva` is mapped. */
  ghost predicate AllMapped(pages: seq<Page>, pdir: seq<seq<nat>>, p: nat, uva: nat, done: nat)
    requires Shaped(pages, pdir)
  {
    forall v: nat :: uva / PAGESIZE <= v < EndPage(uva, done) && UserPage(p, v) ==> Entry(pages, pdir, p, v) != 0
  }

  /** After `done` of `len` bytes every page so far is mapped, and `left` pages suffice for the rest. */
  ghost predicate OnTrack(pages: seq<Page>, pdir: seq<seq<nat>>, left: nat, p: nat, uva: nat, done: nat, len: nat)
    requires Shaped(pages, pdir) && 1 <= p < NUM_IDS && VM_USERLO <= uva && uva + len <= VM_USERHI
  {
    && AllMapped(pages, pdir, p, uva, done)
    && Needed(pages, pdir, p, EndPage(uva, done), EndPage(uva, len), false) <= left
  }

  /** A turn of a copy loop, which looks at one page, keeps the copy on track or leaves it off track. */
  lemma StaysOnTrack(pages: seq<Page>, pdir: seq<seq<nat>>, left: nat, pages': seq<Page>, pdir': seq<seq<nat>>,
                     left': nat, p: nat, uva: nat, done: nat, size: nat, len: nat)
    requires 1 <= p < NUM_IDS && VM_USERLO <= uva && uva + len <= VM_USERHI && 0 < size && done + size <= len
    requires AtBoundary(uva, done)
    requires (uva + done) % PAGESIZE + size <= PAGESIZE
    requires Faulted(pages, pdir, pages', pdir', p, (uva + done) / PAGESIZE)
    requires SameDirs(pdir, pdir', p, (uva + done) / PAGESIZE / PTRS)
    requires var v := (uva + done) / PAGESIZE; var e := Entry(pages', pdir', p, v);
             && (e != 0 <==> Missing(pages, pdir, p, v, false) <= left)
             && (e != 0 ==> left' + Missing(pages, pdir, p, v, false) == left && Pde(pdir', p, v / PTRS) != 0)
    ensures OnTrack(pages', pdir', left', p, uva, done + size, len) <==> OnTrack(pages, pdir, left, p, uva, done, len)
  {
    hide Entry, Pde, ByteAt, EndPage, AllMapped, Faulted, SameDirs, Missing;
    var v := (uva + done) / PAGESIZE;
    PageSpan(uva, done, size, len);
    MappedMore(pages, pdir, pages', pdir', p, uva, done, size, len);
    if Entry(pages', pdir', p, v) != 0 {
      NeededLater(pages, pdir, pages', pdir', p, v, v + 1, EndPage(uva, len), false);
    }
  }

  lemma MappedMore(pages: seq<Page>, pdir: seq<seq<nat>>, pages': seq<Page>, pdir': seq<seq<nat>>,
                   p: nat, uva: nat, done: nat, size: nat, len: nat)
    requires 1 <= p < NUM_IDS && VM_USERLO <= uva && uva + len <= VM_USERHI && 0 < size && done + size <= len
    requires AtBoundary(uva, done)
    requires (uva + done) % PAGESIZE + size <= PAGESIZE
    requires Faulted(pages, pdir, pages', pdir', p, (uva + done) / PAGESIZE)
    ensures Shaped(pages, pdir) && Shaped(pages', pdir') && UserPage(p, (uva + done) / PAGESIZE)
    ensures AllMapped(pages', pdir', p, uva, done + size) <==>
            AllMapped(pages, pdir, p, uva, done) && Entry(pages', pdir', p, (uva + done) / PAGESIZE) != 0
  {
    hide Entry, ByteAt, EndPage;
    PageSpan(uva, done, size, len);
  }

  lemma PageSpan(uva: nat, done: nat, size: nat, len: nat)
    requires VM_USERLO <= uva && uva + len <= VM_USERHI && 0 < size && done + size <= len
    requires AtBoundary(uva, done)
    requires (uva + done) % PAGESIZE + size <= PAGESIZE
    ensures EndPage(uva, done) == (uva + done) / PAGESIZE && EndPage(uva, done + size) == (uva + done) / PAGESIZE + 1
    ensures EndPage(uva, done) < EndPage(uva, len) <= 960 * PTRS && 256 * PTRS <= (uva + done) / PAGESIZE
  {
  }

  /** A fault on page `v` uses up exactly what that page had missing of a range around it. */
  lemma {:induction false} FaultUses(pages: seq<Page>, pdir: seq<seq<nat>>, pages': seq<Page>, pdir': seq<seq<nat>>,
                                     p: nat, u: nat, v: nat, end: nat, table: bool)
    requires Faulted(pages, pdir, pages', pdir', p, v) && SameDirs(pdir, pdir', p, v / PTRS)
    requires 1 <= p < NUM_IDS && 256 * PTRS <= u <= v < end <= 960 * PTRS
    requires Entry(pages', pdir', p, v) != 0 && Pde(pdir', p, v / PTRS) != 0
    ensures Needed(pages', pdir', p, u, end, table) + Missing(pages, pdir, p, v, table && u / PTRS == v / PTRS) ==
            Needed(pages, pdir, p, u, end, table)
    decreases v - u
  {
    hide Entry, Pde, ByteAt, Kept;
    assert UserPage(p, u) && UserDir(p, u / PTRS) && UserDir(p, v / PTRS);
    if u == v {
      NeededLater(pages, pdir, pages', pdir', p, v, v + 1, end, (v + 1) % PTRS != 0);
    } else {
      FaultUses(pages, pdir, pages', pdir', p, u + 1, v, end, (u + 1) % PTRS != 0);
      NextPage(u, v);
      MissingBefore(pages, pdir, pages', pdir', p, u, v, table);
    }
  }

  /** The fault may have provided the table of an earlier page of the same directory entry. */
  lemma MissingBefore(pages: seq<Page>, pdir: seq<seq<nat>>, pages': seq<Page>, pdir': seq<seq<nat>>, p: nat, u: nat,
                      v: nat, table: bool)
    requires Faulted(pages, pdir, pages', pdir', p, v) && SameDirs(pdir, pdir', p, v / PTRS)
    requires UserPage(p, u) && UserPage(p, v) && u != v && Pde(pdir', p, v / PTRS) != 0
    ensures Missing(pages, pdir, p, u, table) == Missing(pages', pdir', p, u, table)
            + (if u / PTRS == v / PTRS && !table && Pde(pdir, p, v / PTRS) == 0 then 1 else 0)
  {
    hide Entry, Pde, ByteAt, Kept;
    KeptShaped(pages, pdir, pages', pdir', p, v);
    assert UserDir(p, u / PTRS);
  }

  lemma NextPage(u: nat, v: nat)
    requires u < v
    ensures u / PTRS == v / PTRS ==> (u + 1) / PTRS == v / PTRS && (u + 1) % PTRS != 0
    ensures u / PTRS != v / PTRS && (u + 1) / PTRS == v / PTRS ==> (u + 1) % PTRS == 0
  {
  }

  /** What a range needs is at least what each of its pages is missing. */
  lemma {:induction false} NeededHas(pages: seq<Page>, pdir: seq<seq<nat>>, p: nat, u: nat, v: nat, end: nat,
                                     table: bool)
    requires Shaped(pages, pdir) && 1 <= p < NUM_IDS && 256 * PTRS <= u <= v < end <= 960 * PTRS
    ensures Missing(pages, pdir, p, v, table && u / PTRS == v / PTRS) <= Needed(pages, pdir, p, u, end, table)
    decreases v - u
  {
    hide Entry, Pde;
    if u < v {
      NeededHas(pages, pdir, p, u + 1, v, end, (u + 1) % PTRS != 0);
      NextPage(u, v);
    }
  }

  /** A range that lies within another needs no more. */
  lemma NeededWithin(pages: seq<Page>, pdir: seq<seq<nat>>, p: nat, lo: nat, a: nat, b: nat, end: nat)
    requires Shaped(pages, pdir) && 1 <= p < NUM_IDS && 256 * PTRS <= lo <= a && b <= end <= 960 * PTRS
    ensures Needed(pages, pdir, p, a, b, false) <= Needed(pages, pdir, p, lo, end, false)
  {
    NeededSuffix(pages, pdir, p, lo, a, b);
    NeededPrefix(pages, pdir, p, lo, b, end, false);
  }

  lemma {:induction false} NeededPrefix(pages: seq<Page>, pdir: seq<seq<nat>>, p: nat, v: nat, b: nat, end: nat,
                                        table: bool)
    requires Shaped(pages, pdir) && 1 <= p < NUM_IDS && 256 * PTRS <= v && b <= end <= 960 * PTRS
    ensures Needed(pages, pdir, p, v, b, table) <= Needed(pages, pdir, p, v, end, table)
    decreases end - v
  {
    hide Entry, Pde, Missing;
    if v < b {
      NeededPrefix(pages, pdir, p, v + 1, b, end, (v + 1) % PTRS != 0);
    }
  }

  lemma {:induction false} NeededSuffix(pages: seq<Page>, pdir: seq<seq<nat>>, p: nat, lo: nat, a: nat, end: nat)
    requires Shaped(pages, pdir) && 1 <= p < NUM_IDS && 256 * PTRS <= lo <= a && end <= 960 * PTRS
    ensures Needed(pages, pdir, p, a, end, false) <= Needed(pages, pdir, p, lo, end, false)
    decreases a - lo
  {
    hide Entry, Pde;
    if lo < a && lo < end {
      NeededSuffix(pages, pdir, p, lo + 1, a, end);
      NextPage(lo, lo + 1);
    }
  }

  /** If the pages left covered what any range around the pages from `a` to `b` needs, they still do. */
  ghost predicate KeepsCover(pages: seq<Page>, pdir: seq<seq<nat>>, left: nat, pages': seq<Page>, pdir': seq<seq<nat>>,
                             left': nat, p: nat, a: nat, b: nat)
    requires Shaped(pages, pdir) && Shaped(pages', pdir') && 1 <= p < NUM_IDS
  {
    forall lo: nat, end: nat :: 256 * PTRS <= lo <= a && b <= end <= 960 * PTRS ==>
      Needed(pages, pdir, p, lo, end, false) <= left ==> Needed(pages', pdir', p, lo, end, false) <= left'
  }

  lemma FaultKeepsCover(pages: seq<Page>, pdir: seq<seq<nat>>, left: nat, pages': seq<Page>, pdir': seq<seq<nat>>,
                        left': nat, p: nat, v: nat)
    requires Faulted(pages, pdir, pages', pdir', p, v) && SameDirs(pdir, pdir', p, v / PTRS) && UserPage(p, v)
    requires var e := Entry(pages', pdir', p, v);
             && (e != 0 <==> Missing(pages, pdir, p, v, false) <= left)
             && (e != 0 ==> left' + Missing(pages, pdir, p, v, false) == left && Pde(pdir', p, v / PTRS) != 0)
    ensures KeepsCover(pages, pdir, left, pages', pdir', left', p, v, v + 1)
  {
    hide Entry, Pde, Faulted, SameDirs, Missing, Needed;
    KeptShaped(pages, pdir, pages', pdir', p, v);
    forall lo: nat, end: nat | 256 * PTRS <= lo <= v && v + 1 <= end <= 960 * PTRS
                               && Needed(pages, pdir, p, lo, end, false) <= left
      ensures Needed(pages', pdir', p, lo, end, false) <= left'
    {
      NeededHas(pages, pdir, p, lo, v, end, false);
      FaultUses(pages, pdir, pages', pdir', p, lo, v, end, false);
    }
  }

  lemma KeptShaped(pages: seq<Page>, pdir: seq<seq<nat>>, pages': seq<Page>, pdir': seq<seq<nat>>, p: nat, v: nat)
    requires Faulted(pages, pdir, pages', pdir', p, v)
    ensures Shaped(pages, pdir) && Shaped(pages', pdir')
  {
  }

  lemma CoverTwice(pages: seq<Page>, pdir: seq<seq<nat>>, left: nat, pages1: seq<Page>, pdir1: seq<seq<nat>>,
                   left1: nat, pages2: seq<Page>, pdir2: seq<seq<nat>>, left2: nat, p: nat, a: nat, b: nat, c: nat,
                   d: nat)
    requires Shaped(pages, pdir) && Shaped(pages1, pdir1) && Shaped(pages2, pdir2) && 1 <= p < NUM_IDS
    requires KeepsCover(pages, pdir, left, pages1, pdir1, left1, p, a, b)
    requires KeepsCover(pages1, pdir1, left1, pages2, pdir2, left2, p, c, d) && a <= c && d <= b
    ensures KeepsCover(pages, pdir, left, pages2, pdir2, left2, p, a, b)
  {
    hide Needed;
  }
}
