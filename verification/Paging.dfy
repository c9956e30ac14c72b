/** Virtual memory: allocating, mapping and freeing pages, and copying between the kernel and user space. */
module Paging {
  import opened Bytes
  import opened Params
  import opened PageTables
  import opened Sequences
  import PageAlloc
  import Containers

  const MAGIC_NUMBER: nat := 1048577

  /** The physical pages that process `p` holds. */
  ghost function PagesOf(owner: map<nat, Use>, p: nat): set<nat> {
    set t | t in owner && owner[t].p == p
  }

  ghost predicate Charged(cs: seq<Containers.Container>, owner: map<nat, Use>) {
    |cs| == NUM_IDS && forall p: nat :: p < NUM_IDS ==> |PagesOf(owner, p)| <= cs[p].own
  }

  /** No process holds more pages than its quota. */
  lemma WithinQuota(cs: seq<Containers.Container>, owner: map<nat, Use>, p: nat)
    requires Containers.TreeShaped(cs) && Containers.Balanced(cs) && Charged(cs, owner) && p < NUM_IDS && cs[p].used
    ensures |PagesOf(owner, p)| <= cs[p].quota
  {
  }

  /** One more page is charged to `p`. */
  lemma ChargedMore(cs: seq<Containers.Container>, owner: map<nat, Use>, p: nat, cs': seq<Containers.Container>)
    requires Charged(cs, owner) && p < NUM_IDS
    requires |cs'| == |cs| && cs' == cs[p := cs'[p]] && cs'[p].own == cs[p].own + 1
    ensures Charged(cs', owner) && |PagesOf(owner, p)| < cs'[p].own
  {
  }

  /** A page charged but not yet held is put to use. */
  lemma ChargedUse(cs: seq<Containers.Container>, owner: map<nat, Use>, p: nat, t: nat, use: Use, owner': map<nat, Use>)
    requires Charged(cs, owner) && p < NUM_IDS && use.p == p && |PagesOf(owner, p)| < cs[p].own && t !in owner
    requires forall u :: u in owner' ==> (u == t && owner'[u] == use) || (u in owner && owner'[u] == owner[u])
    ensures Charged(cs, owner') && |PagesOf(owner', p)| <= |PagesOf(owner, p)| + 1
  {
    forall q: nat | q < NUM_IDS ensures |PagesOf(owner', q)| <= |PagesOf(owner, q)| + if q == p then 1 else 0 {
      var more := if q == p then {t} else {};
      SubsetSize(PagesOf(owner', q), PagesOf(owner, q) + more);
    }
  }

  /** Pages dropped without being freed stay charged. */
  lemma ChargedSubset(cs: seq<Containers.Container>, owner: map<nat, Use>, owner': map<nat, Use>)
    requires Charged(cs, owner) && forall u :: u in owner' ==> u in owner && owner'[u] == owner[u]
    ensures Charged(cs, owner')
  {
    forall q: nat | q < NUM_IDS ensures |PagesOf(owner', q)| <= |PagesOf(owner, q)| {
      SubsetSize(PagesOf(owner', q), PagesOf(owner, q));
    }
  }

  /** A page held no longer is discharged. */
  lemma ChargedLess(cs: seq<Containers.Container>, owner: map<nat, Use>, p: nat, t: nat, owner': map<nat, Use>,
                    cs': seq<Containers.Container>)
    requires Charged(cs, owner) && p < NUM_IDS && t in owner && owner[t].p == p && t !in owner'
    requires forall u :: u in owner' ==> u in owner && owner'[u] == owner[u]
    requires cs[p].own > 0 ==> |cs'| == |cs| && cs' == cs[p := cs'[p]] && cs'[p].own == cs[p].own - 1
    ensures cs[p].own > 0 && Charged(cs', owner')
  {
    assert t in PagesOf(owner, p);
    SubsetSize(PagesOf(owner', p), PagesOf(owner, p) - {t});
    forall q: nat | q < NUM_IDS && q != p ensures |PagesOf(owner', q)| <= |PagesOf(owner, q)| {
      SubsetSize(PagesOf(owner', q), PagesOf(owner, q));
    }
  }

  /** The directory index of an address. */
  function DirOf(vaddr: nat): (d: nat)
    ensures vaddr < U32 ==> d < PTRS
    ensures d == vaddr / PAGESIZE / PTRS
  {
    vaddr / (PAGESIZE * PTRS)
  }

  /** The identity tables at `idptbl` serve the kernel's part of every directory and all of process 0; the
      user part of the others is empty. */
  ghost predicate InitialDir(dir: seq<nat>, idptbl: nat, p: nat) {
    |dir| == PTRS && forall d: nat :: d < PTRS ==>
      dir[d] == if UserDir(p, d) then 0 else idptbl + d * PAGESIZE + PT_PERM_PTU
  }

  /** pdir_init_kern */
  method PdirInit(idptbl: nat) returns (dirs: seq<seq<nat>>)
    ensures |dirs| == NUM_IDS
    ensures forall p :: 0 <= p < NUM_IDS ==> InitialDir(dirs[p], idptbl, p)
  {
    dirs := [];
    for i := 0 to NUM_IDS
      invariant |dirs| == i
      invariant forall p :: 0 <= p < i ==> InitialDir(dirs[p], idptbl, p)
    {
      var dir: seq<nat> := [];
      for j := 0 to PTRS
        invariant |dir| == j
        invariant forall d: nat :: d < j ==> dir[d] == if UserDir(i, d) then 0 else idptbl + d * PAGESIZE + PT_PERM_PTU
      {
        if j < 256 || j >= 960 {
          dir := dir + [idptbl + j * PAGESIZE + PT_PERM_PTU];
        } else if i == 0 {
          dir := dir + [idptbl + j * PAGESIZE + PT_PERM_PTU];
        } else {
          dir := dir + [0];
        }
      }
      dirs := dirs + [dir];
    }
  }

  /** How many tables have to be made before `vaddr` can be mapped. */
  function Tables(pdir: seq<seq<nat>>, p: nat, vaddr: nat): nat
    requires |pdir| == NUM_IDS && p < NUM_IDS && |pdir[p]| == PTRS && vaddr < U32
  {
    if Pde(pdir, p, DirOf(vaddr)) == 0 then 1 else 0
  }

  /** The same containers exist. */
  predicate SameUsed(cs: seq<Containers.Container>, cs': seq<Containers.Container>) {
    |cs'| == |cs| && forall i :: 0 <= i < |cs| ==> cs'[i].used == cs[i].used
  }

  predicate StillTaken(taken: seq<bool>, taken': seq<bool>) {
    |taken'| == |taken| && forall i :: 0 <= i < |taken| && taken[i] ==> taken'[i]
  }

  /** Whether container_alloc gets as far as palloc for `p`. */
  predicate QuotaLeft(cs: seq<Containers.Container>, p: nat)
    requires p < |cs|
  {
    cs[p].usage != cs[p].quota
  }

  /** The page that container_alloc returns. */
  function NextPage(cs: seq<Containers.Container>, norm: seq<bool>, taken: seq<bool>, last: nat, p: nat): nat
    requires p < |cs|
  {
    if QuotaLeft(cs, p) then PageAlloc.NextFree(norm, taken, last) else 0
  }

  /** How many more pages `p` gets before an allocation fails: what is left of its quota, or the free pages above
      the allocator's memo, whichever is less. */
  function PagesLeft(cs: seq<Containers.Container>, norm: seq<bool>, taken: seq<bool>, last: nat, p: nat): nat
    requires p < |cs|
  {
    var q := if cs[p].usage <= cs[p].quota then cs[p].quota - cs[p].usage else 0;
    var f := PageAlloc.FreeAbove(norm, taken, last);
    if q < f then q else f
  }

  /** container_alloc fails exactly if no page is left, and otherwise leaves one less. */
  lemma AllocUsesOne(cs: seq<Containers.Container>, norm: seq<bool>, taken: seq<bool>, last: nat, p: nat,
                     cs': seq<Containers.Container>)
    requires |taken| == |norm| && p < |cs| == |cs'| && cs[p].usage <= cs[p].quota
    requires QuotaLeft(cs, p) ==> cs'[p].usage == cs[p].usage + 1 && cs'[p].quota == cs[p].quota
    ensures var t := NextPage(cs, norm, taken, last, p);
            && (t == 0 <==> PagesLeft(cs, norm, taken, last, p) == 0)
            && (t != 0 ==> t < |taken| &&
                           PagesLeft(cs', norm, taken[t := true], t, p) + 1 == PagesLeft(cs, norm, taken, last, p))
  {
    PageAlloc.ScanUsesOne(norm, taken, last);
  }

  /** No directory entry of a user address has changed, except that of (p, d). */
  ghost predicate SameDirs(pdir: seq<seq<nat>>, pdir': seq<seq<nat>>, p: nat, d: nat) {
    && |pdir| == |pdir'| == NUM_IDS
    && forall q: nat, e: nat :: UserDir(q, e) && |pdir[q]| == PTRS && (q, e) != (p, d) ==>
         |pdir'[q]| == PTRS && Pde(pdir', q, e) == Pde(pdir, q, e)
  }

  class VM {
    const at: PageAlloc.AllocTable
    const ct: Containers.ContainerTable
    var pages: seq<Page>
    var pdir: seq<seq<nat>>
    ghost var owner: map<nat, Use>

    ghost predicate Valid()
      reads this, at, ct
    {
      && ct.Valid() && Exclusive(at.norm, at.taken, pages, pdir, owner) && Charged(ct.cs, owner)
    }

    ghost function Left(p: nat): nat
      requires p < |ct.cs|
      reads ct, at
    {
      PagesLeft(ct.cs, at.norm, at.taken, at.last, p)
    }

    constructor (at: PageAlloc.AllocTable, ct: Containers.ContainerTable, memory: seq<Page>, idptbl: nat)
      requires ct.Valid() && |at.norm| == |at.taken| == |memory| && 0 < |memory| <= 0x10_0000 && !at.norm[0]
      requires forall i :: 0 <= i < |at.taken| ==> !at.taken[i]
      ensures Valid() && this.at == at && this.ct == ct && pages == memory && owner == map[]
      ensures forall p: nat, v: nat :: UserPage(p, v) ==> Entry(pages, pdir, p, v) == 0
    {
      this.at, this.ct, pages, owner := at, ct, memory, map[];
      var dirs := PdirInit(idptbl);
      pdir := dirs;
      new;
      forall p: nat, v: nat | UserPage(p, v) ensures Entry(pages, pdir, p, v) == 0 {
        assert Pde(pdir, p, v / PTRS) == 0;
      }
      forall p: nat ensures PagesOf(owner, p) == {} {
      }
    }

    /** container_alloc. When the quota allows it but no page is found, the charge stays. */
    method ContainerAlloc(p: nat) returns (t: nat)
      requires Valid() && p < NUM_IDS && ct.cs[p].used
      modifies at, ct
      ensures Valid() && at.norm == old(at.norm) && SameUsed(old(ct.cs), ct.cs)
      ensures t == NextPage(old(ct.cs), at.norm, old(at.taken), old(at.last), p)
      ensures at.last == if QuotaLeft(old(ct.cs), p) then t else old(at.last)
      ensures t == 0 <==> old(Left(p)) == 0
      ensures t != 0 ==> Left(p) + 1 == old(Left(p))
      ensures t == 0 ==> at.taken == old(at.taken)
      ensures t != 0 ==> t < |old(at.taken)| && !old(at.taken)[t] && at.taken == old(at.taken)[t := true]
      ensures t != 0 ==> t < |pages| && at.norm[t] && t !in owner && |PagesOf(owner, p)| < ct.cs[p].own
      ensures |PagesOf(owner, p)| + 1 <= old(ct.cs)[p].own ==>
                |PagesOf(owner, p)| + (if t == 0 then 1 else 2) <= ct.cs[p].own
    {
      hide Exclusive, Containers.TreeShaped, Containers.Balanced, Charged, PagesOf, PagesLeft;
      Containers.Affordable(ct.cs, p);
      TablesShaped(at.norm, at.taken, pages, pdir, owner);
      ghost var was := ct.cs;
      var ok := ct.Charge(p);
      AllocUsesOne(was, at.norm, at.taken, at.last, p, ct.cs);
      if !ok {
        return 0;
      }
      ChargedMore(was, owner, p, ct.cs);
      ghost var taken := at.taken;
      t := at.Palloc();
      if t != 0 {
        TakenMore(at.norm, taken, pages, pdir, owner, t);
      }
    }

    /** The clearing loop of alloc_ptbl. */
    method ClearTable(t: nat)
      requires t < |pages|
      modifies this`pages
      ensures |pages| == |old(pages)| && Zeroed(pages[t])
      ensures forall k :: 0 <= k < |pages| && k != t ==> pages[k] == old(pages)[k]
    {
      hide GetU32, PutU32;
      var i := 0;
      while i < PTRS
        invariant i <= PTRS && |pages| == |old(pages)|
        invariant forall k :: 0 <= k < |pages| && k != t ==> pages[k] == old(pages)[k]
        invariant forall k: nat :: k < i ==> GetU32(pages[t], 4 * k) == 0
      {
        PutThenGet(pages[t], 4 * i, 0);
        pages := pages[t := PutU32(pages[t], 4 * i, 0)];
        i := i + 1;
      }
    }

    /** alloc_ptbl: a cleared table for the directory entry of `vaddr`, which has none. */
    method AllocPtbl(p: nat, vaddr: nat) returns (t: nat)
      requires Valid() && UserAddr(p, vaddr) && ct.cs[p].used && Pde(pdir, p, DirOf(vaddr)) == 0
      modifies this, at, ct
      ensures Valid() && SameUsed(old(ct.cs), ct.cs) && at.norm == old(at.norm) && |pages| == |old(pages)|
      ensures SameEntries(old(pages), old(pdir), pages, pdir)
      ensures Kept(old(pages), old(pdir), pages, pdir)
      ensures t == 0 ==> pages == old(pages) && pdir == old(pdir) && owner == old(owner)
      ensures t != 0 ==> t < |pages| && Pde(pdir, p, DirOf(vaddr)) == t * PAGESIZE + PT_PERM_PTU
      ensures t != 0 ==> t !in old(owner) && owner == old(owner)[t := Table(p, DirOf(vaddr))]
      ensures t == NextPage(old(ct.cs), at.norm, old(at.taken), old(at.last), p)
      ensures t == 0 <==> old(Left(p)) == 0
      ensures t != 0 ==> Left(p) + 1 == old(Left(p))
      ensures SameDirs(old(pdir), pdir, p, DirOf(vaddr))
      ensures StillTaken(old(at.taken), at.taken) && (t != 0 ==> t < |old(at.taken)| && !old(at.taken)[t])
      ensures |PagesOf(old(owner), p)| + 1 <= old(ct.cs)[p].own ==> |PagesOf(owner, p)| + 1 <= ct.cs[p].own
    {
      hide Exclusive, Charged, PagesOf, Entry, ByteAt, PagesLeft, NextPage;
      t := ContainerAlloc(p);
      TablesShaped(at.norm, at.taken, pages, pdir, owner);
      if t != 0 {
        var d := DirOf(vaddr);
        pdir := SetPde(pdir, p, d, t * PAGESIZE + PT_PERM_PTU);
        ClearTable(t);
        TableAdded(at.norm, at.taken, old(pages), old(pdir), owner, p, d, t, pages, pdir);
        UnusedPageKeeps(at.norm, at.taken, old(pages), old(pdir), owner, t, pages, pdir);
        owner := owner[t := Table(p, d)];
        ChargedUse(ct.cs, old(owner), p, t, Table(p, d), owner);
      } else {
        NothingChanged(pages, pdir, p, vaddr / PAGESIZE);
      }
    }

    /** set_ptbl_entry_by_va and rmv_ptbl_entry_by_va: a store through the directory entry. */
    method SetEntry(p: nat, vaddr: nat, e: nat)
      requires Valid() && UserAddr(p, vaddr) && Pde(pdir, p, DirOf(vaddr)) != 0 && e < U32
      requires e != 0 ==> e % 2 == 1 && e / PAGESIZE < |pages| && at.taken[e / PAGESIZE] && e / PAGESIZE !in owner
      requires e != 0 ==> |PagesOf(owner, p)| < ct.cs[p].own
      modifies this`pages, this`owner
      ensures Valid() && |pages| == |old(pages)| && owner == Renamed(old(owner), p, vaddr / PAGESIZE, e)
      ensures EntriesAfter(old(pages), pdir, pages, pdir, p, vaddr / PAGESIZE, e)
      ensures KeptExcept(old(pages), pdir, pages, pdir, p, vaddr / PAGESIZE)
    {
      hide Exclusive, Charged, PagesOf, Entry, ByteAt, DirOf, PutU32, KeptExcept, EntriesAfter, Containers.TreeShaped,
           Containers.Balanced;
      var d, k := DirOf(vaddr), vaddr / PAGESIZE % PTRS;
      TableHeld(at.norm, at.taken, pages, pdir, owner, ct.cs, p, d);
      var t := Pde(pdir, p, d) / PAGESIZE;
      TakenNormal(at.norm, at.taken, pages, pdir, owner);
      EntryStored(at.norm, at.taken, pages, pdir, owner, p, vaddr / PAGESIZE, e);
      pages := pages[t := PutU32(pages[t], 4 * k, e)];
      StoreKeepsBytes(at.norm, at.taken, old(pages), pdir, owner, p, vaddr / PAGESIZE, e, t, pages);
      ExclusiveAfterStore(at.norm, at.taken, old(pages), pdir, owner, p, vaddr / PAGESIZE, e, pages);
      owner := Renamed(owner, p, vaddr / PAGESIZE, e);
      if e == 0 {
        ChargedSubset(ct.cs, old(owner), owner);
      } else {
        ChargedUse(ct.cs, old(owner), p, e / PAGESIZE, Data(p, vaddr / PAGESIZE), owner);
      }
    }

    /** map_page, for a page that `p` was charged for and nobody uses. */
    method MapPage(p: nat, vaddr: nat, t: nat, perm: nat) returns (r: nat)
      requires Valid() && UserAddr(p, vaddr) && ct.cs[p].used && perm < PAGESIZE && perm % 2 == 1
      requires t < |pages| && at.taken[t] && t !in owner && |PagesOf(owner, p)| < ct.cs[p].own
      modifies this, at, ct
      ensures Valid() && SameUsed(old(ct.cs), ct.cs) && at.norm == old(at.norm) && |pages| == |old(pages)|
      ensures Pde(old(pdir), p, DirOf(vaddr)) != 0 ==> r == 0
      ensures Pde(old(pdir), p, DirOf(vaddr)) == 0 ==>
                var t := NextPage(old(ct.cs), at.norm, old(at.taken), old(at.last), p);
                r == if t == 0 then MAGIC_NUMBER else t
      ensures r == MAGIC_NUMBER <==> old(Left(p)) < Tables(old(pdir), p, vaddr)
      ensures r != MAGIC_NUMBER ==> Left(p) + Tables(old(pdir), p, vaddr) == old(Left(p))
      ensures r != MAGIC_NUMBER ==> Shaped(pages, pdir) && Pde(pdir, p, DirOf(vaddr)) != 0
      ensures SameDirs(old(pdir), pdir, p, DirOf(vaddr))
      ensures r == MAGIC_NUMBER ==> pages == old(pages) && pdir == old(pdir)
      ensures r != MAGIC_NUMBER ==>
                EntriesAfter(old(pages), old(pdir), pages, pdir, p, vaddr / PAGESIZE, t * PAGESIZE + perm)
      ensures KeptExcept(old(pages), old(pdir), pages, pdir, p, vaddr / PAGESIZE)
    {
      hide Exclusive, Charged, PagesOf, Entry, ByteAt, DirOf, Containers.TreeShaped, Containers.Balanced;
      Containers.TableSize(ct.cs);
      TablesShaped(at.norm, at.taken, pages, pdir, owner);
      NothingChanged(pages, pdir, p, vaddr / PAGESIZE);
      hide SameEntries, EntriesAfter, KeptExcept, Kept, Renamed, UserAddr, VM.Valid, Containers.ContainerTable.Valid;
      var pde := Pde(pdir, p, DirOf(vaddr));
      if pde != 0 {
        r := 0;
      } else {
        r := AllocPtbl(p, vaddr);
        if r == 0 {
          r := MAGIC_NUMBER;
        }
      }
      if r != MAGIC_NUMBER {
        PteParts(t, perm);
        ghost var pages1, pdir1 := pages, pdir;
        SetEntry(p, vaddr, t * PAGESIZE + perm);
        ThenStored(old(pages), old(pdir), pages1, pdir1, pages, p, vaddr / PAGESIZE, t * PAGESIZE + perm);
      }
    }

    /** unmap_page */
    method UnmapPage(p: nat, vaddr: nat) returns (e: nat)
      requires Valid() && UserAddr(p, vaddr)
      modifies this`pages, this`owner
      ensures Valid() && |pages| == |old(pages)| && Entry(old(pages), pdir, p, vaddr / PAGESIZE) == e
      ensures EntriesAfter(old(pages), pdir, pages, pdir, p, vaddr / PAGESIZE, 0)
      ensures KeptExcept(old(pages), pdir, pages, pdir, p, vaddr / PAGESIZE)
    {
      hide Exclusive, Charged, PagesOf, ByteAt, DirOf, Containers.TreeShaped, Containers.Balanced, Renamed;
      TablesShaped(at.norm, at.taken, pages, pdir, owner);
      e := Entry(pages, pdir, p, vaddr / PAGESIZE);
      if e != 0 {
        SetEntry(p, vaddr, 0);
      }
    }

    /** alloc_page. A page that was found but could not be mapped stays charged to `p`. */
    method AllocPage(p: nat, vaddr: nat, perm: nat) returns (r: nat, ghost t: nat)
      requires Valid() && UserAddr(p, vaddr) && ct.cs[p].used && perm < PAGESIZE && perm % 2 == 1
      modifies this, at, ct
      ensures Valid() && SameUsed(old(ct.cs), ct.cs) && at.norm == old(at.norm) && |pages| == |old(pages)|
      ensures r == MAGIC_NUMBER <==> old(Left(p)) < 1 + Tables(old(pdir), p, vaddr)
      ensures r != MAGIC_NUMBER ==> Left(p) + 1 + Tables(old(pdir), p, vaddr) == old(Left(p))
      ensures r != MAGIC_NUMBER ==> Shaped(pages, pdir) && Pde(pdir, p, DirOf(vaddr)) != 0
      ensures SameDirs(old(pdir), pdir, p, DirOf(vaddr))
      ensures r == MAGIC_NUMBER ==> pages == old(pages) && pdir == old(pdir)
      ensures r != MAGIC_NUMBER ==> t == PageAlloc.NextFree(at.norm, old(at.taken), old(at.last))
      ensures r != MAGIC_NUMBER ==> t < |pages| && at.norm[t] && !old(at.taken)[t] && t !in old(owner)
      ensures r != MAGIC_NUMBER ==>
                EntriesAfter(old(pages), old(pdir), pages, pdir, p, vaddr / PAGESIZE, t * PAGESIZE + perm)
      ensures KeptExcept(old(pages), old(pdir), pages, pdir, p, vaddr / PAGESIZE)
    {
      hide Exclusive, Charged, PagesOf, Entry, ByteAt, DirOf, Containers.TreeShaped, Containers.Balanced;
      hide SameEntries, EntriesAfter;
      Containers.TableSize(ct.cs);
      TablesShaped(at.norm, at.taken, pages, pdir, owner);
      t := 0;
      var pi := ContainerAlloc(p);
      if pi == 0 {
        r := MAGIC_NUMBER;
      } else {
        r := MapPage(p, vaddr, pi, perm);
        t := pi;
      }
    }

    /** free_ptbl: the table and all mappings in it are gone; nothing else changes. */
    method FreePtbl(p: nat, vaddr: nat)
      requires Valid() && UserAddr(p, vaddr) && ct.cs[p].used
      modifies this`pdir, this`owner, at`taken, ct
      ensures Valid() && WithoutTable(pages, old(pdir), pdir, p, DirOf(vaddr))
      ensures Pde(pdir, p, DirOf(vaddr)) == 0
      ensures var t := Pde(old(pdir), p, DirOf(vaddr)) / PAGESIZE;
              t < |old(at.taken)| && at.taken == old(at.taken)[t := false]
      ensures owner == Unnamed(old(owner), p, DirOf(vaddr))
    {
      hide Exclusive, Charged, PagesOf, Entry, ByteAt, DirOf, Containers.TreeShaped, Containers.Balanced, Unnamed,
           WithoutTable;
      var d := DirOf(vaddr);
      TableHeld(at.norm, at.taken, pages, pdir, owner, ct.cs, p, d);
      var pde := Pde(pdir, p, d);
      pdir := SetPde(pdir, p, d, 0);
      owner := Unnamed(owner, p, d);
      if at.taken[pde / PAGESIZE] {
        at.Pfree(pde / PAGESIZE);
        ct.Uncharge(p);
        TableDropped(old(ct.cs), old(owner), p, d, pde / PAGESIZE, ct.cs);
        TableFreed(at.norm, old(at.taken), pages, old(pdir), old(owner), p, d, pdir, at.taken);
      } else {
        NoTable(at.norm, at.taken, pages, old(pdir), old(owner), p, d);
      }
    }
  }

  lemma TableHeld(norm: seq<bool>, taken: seq<bool>, pages: seq<Page>, pdir: seq<seq<nat>>, owner: map<nat, Use>,
                  cs: seq<Containers.Container>, p: nat, d: nat)
    requires Exclusive(norm, taken, pages, pdir, owner) && UserDir(p, d) && Charged(cs, owner)
    ensures Shaped(pages, pdir) && |cs| == NUM_IDS && |taken| == |pages| > 0 && !taken[0]
    ensures Pde(pdir, p, d) / PAGESIZE < |taken|
    ensures Pde(pdir, p, d) != 0 ==>
              var t := Pde(pdir, p, d) / PAGESIZE; t in owner && owner[t] == Table(p, d) && taken[t] && cs[p].own > 0
  {
    var pde := Pde(pdir, p, d);
    if pde != 0 {
      assert pde / PAGESIZE in PagesOf(owner, p);
    }
  }

  lemma TableDropped(cs: seq<Containers.Container>, owner: map<nat, Use>, p: nat, d: nat, t: nat,
                     cs': seq<Containers.Container>)
    requires Charged(cs, owner) && p < NUM_IDS && t in owner && owner[t] == Table(p, d) && cs[p].own > 0
    requires |cs'| == |cs| && cs' == cs[p := cs'[p]] && cs'[p].own == cs[p].own - 1
    ensures Charged(cs', Unnamed(owner, p, d))
  {
    ChargedLess(cs, owner, p, t, Unnamed(owner, p, d), cs');
  }

  lemma PteParts(t: nat, perm: nat)
    requires t < 0x10_0000 && perm < PAGESIZE && perm % 2 == 1
    ensures var e := t * PAGESIZE + perm; e < U32 && e / PAGESIZE == t && e % 2 == 1 && e != 0
  {
  }

  lemma ThenStored(pages: seq<Page>, pdir: seq<seq<nat>>, pages1: seq<Page>, pdir1: seq<seq<nat>>, pages2: seq<Page>,
                   p: nat, v: nat, e: nat)
    requires SameEntries(pages, pdir, pages1, pdir1) && Kept(pages, pdir, pages1, pdir1)
    requires EntriesAfter(pages1, pdir1, pages2, pdir1, p, v, e) && KeptExcept(pages1, pdir1, pages2, pdir1, p, v)
    ensures EntriesAfter(pages, pdir, pages2, pdir1, p, v, e) && KeptExcept(pages, pdir, pages2, pdir1, p, v)
  {
  }

  lemma NoTable(norm: seq<bool>, taken: seq<bool>, pages: seq<Page>, pdir: seq<seq<nat>>, owner: map<nat, Use>, p: nat,
                d: nat)
    requires Exclusive(norm, taken, pages, pdir, owner) && UserDir(p, d) && Pde(pdir, p, d) == 0
    ensures Unnamed(owner, p, d) == owner && WithoutTable(pages, pdir, pdir, p, d) && SetPde(pdir, p, d, 0) == pdir
  {
    forall t | t in owner
      ensures owner[t] != Table(p, d) && !(owner[t].Data? && owner[t].p == p && owner[t].v / PTRS == d)
    {
      assert Named(pages, pdir, t, owner[t]) && t > 0;
    }
    assert pdir[p] == pdir[p][d := 0];
  }

  lemma TakenNormal(norm: seq<bool>, taken: seq<bool>, pages: seq<Page>, pdir: seq<seq<nat>>, owner: map<nat, Use>)
    requires Exclusive(norm, taken, pages, pdir, owner)
    ensures |norm| == |taken| && forall i :: 0 <= i < |taken| && taken[i] ==> norm[i]
  {
  }

  lemma NothingChanged(pages: seq<Page>, pdir: seq<seq<nat>>, p: nat, v: nat)
    requires Shaped(pages, pdir)
    ensures SameEntries(pages, pdir, pages, pdir)
    ensures Kept(pages, pdir, pages, pdir) && KeptExcept(pages, pdir, pages, pdir, p, v)
  {
  }

  lemma TablesShaped(norm: seq<bool>, taken: seq<bool>, pages: seq<Page>, pdir: seq<seq<nat>>, owner: map<nat, Use>)
    requires Exclusive(norm, taken, pages, pdir, owner)
    ensures |norm| == |taken| == |pages| > 0 && Shaped(pages, pdir)
  {
  }
}
