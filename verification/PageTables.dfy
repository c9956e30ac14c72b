/** Two-level page tables that live in allocated physical pages, as one flat map from (process, virtual
    page) to entry, and the exclusive ownership of the physical pages involved. */
module PageTables {
  import opened Bytes
  import opened Params

  const PAGESIZE: nat := 4096
  const PTRS: nat := 1024
  const VM_USERLO: nat := 0x4000_0000
  const VM_USERHI: nat := 0xf000_0000
  /** PTE_P | PTE_W | PTE_U */
  const PT_PERM_PTU: nat := 7

  type Page = b: seq<byte> | |b| == PAGESIZE witness seq(PAGESIZE, _ => 0)

  /** User directory entries, user virtual pages, and the processes that have them. */
  predicate UserDir(p: nat, d: nat) {
    1 <= p < NUM_IDS && 256 <= d < 960
  }

  predicate UserPage(p: nat, v: nat) {
    1 <= p < NUM_IDS && 256 * PTRS <= v < 960 * PTRS
  }

  ghost predicate Shaped(pages: seq<Page>, pdir: seq<seq<nat>>) {
    |pages| <= 0x10_0000 && |pdir| == NUM_IDS && forall p :: 0 <= p < NUM_IDS ==> |pdir[p]| == PTRS
  }

  /** Directory entry `d` of process `p`. */
  function Pde(pdir: seq<seq<nat>>, p: nat, d: nat): nat
    requires |pdir| == NUM_IDS && p < NUM_IDS && |pdir[p]| == PTRS && d < PTRS
  {
    pdir[p][d]
  }

  function SetPde(pdir: seq<seq<nat>>, p: nat, d: nat, e: nat): (r: seq<seq<nat>>)
    requires |pdir| == NUM_IDS && p < NUM_IDS && |pdir[p]| == PTRS && d < PTRS
  {
    var dir: seq<nat> := pdir[p][d := e];
    pdir[p := dir]
  }

  /** get_ptbl_entry_by_va, on the virtual page number: 0 if there is no table. */
  function Entry(pages: seq<Page>, pdir: seq<seq<nat>>, p: nat, v: nat): (e: nat)
    requires |pdir| == NUM_IDS && p < NUM_IDS && |pdir[p]| == PTRS && v < PTRS * PTRS
  {
    var pde := Pde(pdir, p, v / PTRS);
    if pde == 0 || pde / PAGESIZE >= |pages| then 0 else GetU32(pages[pde / PAGESIZE], 4 * (v % PTRS))
  }

  /** What a physical page is used for. */
  datatype Use = Table(p: nat, d: nat) | Data(p: nat, v: nat)

  /** Every page that a directory or table entry of a user address names is normal, marked allocated, and
      named there only: no page is mapped twice, and none is both a table and data. */
  ghost predicate Exclusive(norm: seq<bool>, taken: seq<bool>, pages: seq<Page>, pdir: seq<seq<nat>>,
                            owner: map<nat, Use>) {
    && Shaped(pages, pdir) && |norm| == |taken| == |pages| > 0
    && (forall i :: 0 <= i < |norm| && norm[i] ==> i > 0)
    && (forall i :: 0 <= i < |taken| && taken[i] ==> norm[i])
    && (forall p: nat, d: nat :: UserDir(p, d) && Pde(pdir, p, d) != 0 ==>
          && Pde(pdir, p, d) / PAGESIZE in owner && owner[Pde(pdir, p, d) / PAGESIZE] == Table(p, d)
          && Pde(pdir, p, d) == Pde(pdir, p, d) / PAGESIZE * PAGESIZE + PT_PERM_PTU)
    && (forall p: nat, v: nat :: UserPage(p, v) && Entry(pages, pdir, p, v) != 0 ==>
          && Entry(pages, pdir, p, v) / PAGESIZE in owner && owner[Entry(pages, pdir, p, v) / PAGESIZE] == Data(p, v)
          && Entry(pages, pdir, p, v) % 2 == 1)
    && (forall t :: t in owner ==> t < |pages| && norm[t] && taken[t] && Named(pages, pdir, t, owner[t]))
  }

  /** Two mappings of the same physical page are one mapping, and no table page is mapped. */
  lemma NoSharing(norm: seq<bool>, taken: seq<bool>, pages: seq<Page>, pdir: seq<seq<nat>>, owner: map<nat, Use>,
                  p: nat, v: nat)
    requires Exclusive(norm, taken, pages, pdir, owner) && UserPage(p, v) && Entry(pages, pdir, p, v) != 0
    ensures forall q: nat, u: nat :: UserPage(q, u) && Entry(pages, pdir, q, u) != 0 && (q, u) != (p, v) ==>
              Entry(pages, pdir, q, u) / PAGESIZE != Entry(pages, pdir, p, v) / PAGESIZE
    ensures forall q: nat, d: nat :: UserDir(q, d) && Pde(pdir, q, d) != 0 ==>
              Pde(pdir, q, d) / PAGESIZE != Entry(pages, pdir, p, v) / PAGESIZE
  {
  }

  /** Mapping an unmapped page and unmapping it restores the flat map. */
  lemma MapThenUnmap(pages: seq<Page>, pdir: seq<seq<nat>>, pages1: seq<Page>, pdir1: seq<seq<nat>>, pages2: seq<Page>,
                     p: nat, v: nat, e: nat)
    requires EntriesAfter(pages, pdir, pages1, pdir1, p, v, e) && EntriesAfter(pages1, pdir1, pages2, pdir1, p, v, 0)
    requires UserPage(p, v) && Entry(pages, pdir, p, v) == 0
    ensures SameEntries(pages, pdir, pages2, pdir1)
  {
  }

  /** Page `t` is what the entry for this use names. */
  ghost predicate Named(pages: seq<Page>, pdir: seq<seq<nat>>, t: nat, use: Use)
    requires Shaped(pages, pdir)
  {
    match use
    case Table(p, d) => UserDir(p, d) && Pde(pdir, p, d) / PAGESIZE == t
    case Data(p, v) => UserPage(p, v) && Entry(pages, pdir, p, v) / PAGESIZE == t
  }

  /** The flat map: all user entries as before, except `e` for (p, v). */
  ghost predicate EntriesAfter(pages: seq<Page>, pdir: seq<seq<nat>>, pages': seq<Page>, pdir': seq<seq<nat>>, p: nat,
                               v: nat, e: nat) {
    && Shaped(pages, pdir) && Shaped(pages', pdir')
    && forall q: nat, u: nat :: UserPage(q, u) ==>
         Entry(pages', pdir', q, u) == if (q, u) == (p, v) then e else Entry(pages, pdir, q, u)
  }

  ghost predicate SameEntries(pages: seq<Page>, pdir: seq<seq<nat>>, pages': seq<Page>, pdir': seq<seq<nat>>) {
    && Shaped(pages, pdir) && Shaped(pages', pdir')
    && forall q: nat, u: nat :: UserPage(q, u) ==> Entry(pages', pdir', q, u) == Entry(pages, pdir, q, u)
  }

  predicate Zeroed(pg: Page) {
    forall k: nat :: k < PTRS ==> GetU32(pg, 4 * k) == 0
  }

  /** A store of word `k` in the table page of (p, d). */
  lemma EntryStored(norm: seq<bool>, taken: seq<bool>, pages: seq<Page>, pdir: seq<seq<nat>>, owner: map<nat, Use>,
                    p: nat, v: nat, e: nat)
    requires Exclusive(norm, taken, pages, pdir, owner) && UserPage(p, v) && e < U32 && Pde(pdir, p, v / PTRS) != 0
    ensures var t := Pde(pdir, p, v / PTRS) / PAGESIZE;
            && t < |pages|
            && EntriesAfter(pages, pdir, pages[t := PutU32(pages[t], 4 * (v % PTRS), e)], pdir, p, v, e)
  {
    hide GetU32, PutU32;
    assert UserDir(p, v / PTRS);
    var t := Pde(pdir, p, v / PTRS) / PAGESIZE;
    var pages' := pages[t := PutU32(pages[t], 4 * (v % PTRS), e)];
    PutThenGet(pages[t], 4 * (v % PTRS), e);
    forall q: nat, u: nat | UserPage(q, u)
      ensures Entry(pages', pdir, q, u) == if (q, u) == (p, v) then e else Entry(pages, pdir, q, u)
    {
      assert UserDir(q, u / PTRS);
      if Pde(pdir, q, u / PTRS) != 0 && Pde(pdir, q, u / PTRS) / PAGESIZE == t {
        assert q == p && u / PTRS == v / PTRS;
        assert u != v ==> u % PTRS != v % PTRS;
      }
    }
  }

  /** Ownership once the entry of (p, v) names page `pi`, which nothing named before, or no page at all. */
  lemma ExclusiveAfterStore(norm: seq<bool>, taken: seq<bool>, pages: seq<Page>, pdir: seq<seq<nat>>,
                            owner: map<nat, Use>, p: nat, v: nat, e: nat, pages': seq<Page>)
    requires Exclusive(norm, taken, pages, pdir, owner) && UserPage(p, v) && |pages'| == |pages|
    requires EntriesAfter(pages, pdir, pages', pdir, p, v, e)
    requires e != 0 ==> e % 2 == 1 && e / PAGESIZE < |pages| && norm[e / PAGESIZE] && taken[e / PAGESIZE]
    requires e != 0 ==> e / PAGESIZE !in owner
    ensures Exclusive(norm, taken, pages', pdir, Renamed(owner, p, v, e))
  {
    hide Entry, Pde;
    var owner' := Renamed(owner, p, v, e);
    forall q: nat, u: nat | UserPage(q, u) && Entry(pages', pdir, q, u) != 0
      ensures Entry(pages', pdir, q, u) / PAGESIZE in owner'
      ensures owner'[Entry(pages', pdir, q, u) / PAGESIZE] == Data(q, u)
      ensures Entry(pages', pdir, q, u) % 2 == 1
    {
      if (q, u) != (p, v) {
        assert Entry(pages', pdir, q, u) == Entry(pages, pdir, q, u);
      }
    }
    forall t | t in owner' ensures t < |pages| && norm[t] && taken[t] && Named(pages', pdir, t, owner'[t]) {
      if t in owner && owner[t].Data? {
        assert Entry(pages', pdir, owner[t].p, owner[t].v) ==
                 if (owner[t].p, owner[t].v) == (p, v) then e else Entry(pages, pdir, owner[t].p, owner[t].v);
      }
    }
  }

  /** The page that (p, v) named gives way to the one `e` names. */
  ghost function Renamed(owner: map<nat, Use>, p: nat, v: nat, e: nat): map<nat, Use> {
    var rest := map t | t in owner && owner[t] != Data(p, v) :: owner[t];
    if e == 0 then rest else rest[e / PAGESIZE := Data(p, v)]
  }

  predicate UserAddr(p: nat, a: nat) {
    1 <= p < NUM_IDS && VM_USERLO <= a < VM_USERHI
  }

  /** The byte that the kernel reaches for user address `a`: the page is taken from the entry, also when
      the entry is 0. */
  function ByteAt(pages: seq<Page>, pdir: seq<seq<nat>>, p: nat, a: nat): byte
    requires |pdir| == NUM_IDS && UserAddr(p, a) && |pdir[p]| == PTRS
  {
    var t := Entry(pages, pdir, p, a / PAGESIZE) / PAGESIZE;
    if t < |pages| then pages[t][a % PAGESIZE] else 0
  }

  /** Every mapped address other than those of page `v` of process `p` stays mapped to the same physical
      page and keeps its byte. */
  ghost predicate KeptExcept(pages: seq<Page>, pdir: seq<seq<nat>>, pages': seq<Page>, pdir': seq<seq<nat>>, p: nat,
                             v: nat) {
    && Shaped(pages, pdir) && Shaped(pages', pdir')
    && forall q: nat, a: nat ::
         UserAddr(q, a) && (q, a / PAGESIZE) != (p, v) && Entry(pages, pdir, q, a / PAGESIZE) != 0 ==>
         && Entry(pages', pdir', q, a / PAGESIZE) == Entry(pages, pdir, q, a / PAGESIZE)
         && ByteAt(pages', pdir', q, a) == ByteAt(pages, pdir, q, a)
  }

  ghost predicate Kept(pages: seq<Page>, pdir: seq<seq<nat>>, pages': seq<Page>, pdir': seq<seq<nat>>) {
    && Shaped(pages, pdir) && Shaped(pages', pdir')
    && forall q: nat, a: nat :: UserAddr(q, a) && Entry(pages, pdir, q, a / PAGESIZE) != 0 ==>
         && Entry(pages', pdir', q, a / PAGESIZE) == Entry(pages, pdir, q, a / PAGESIZE)
         && ByteAt(pages', pdir', q, a) == ByteAt(pages, pdir, q, a)
  }

  /** A store into the table page of (p, v) reaches no user byte. */
  lemma StoreKeepsBytes(norm: seq<bool>, taken: seq<bool>, pages: seq<Page>, pdir: seq<seq<nat>>, owner: map<nat, Use>,
                        p: nat, v: nat, e: nat, t: nat, pages': seq<Page>)
    requires Exclusive(norm, taken, pages, pdir, owner) && EntriesAfter(pages, pdir, pages', pdir, p, v, e)
    requires t in owner && owner[t].Table? && |pages'| == |pages|
    requires forall i :: 0 <= i < |pages| && i != t ==> pages'[i] == pages[i]
    ensures KeptExcept(pages, pdir, pages', pdir, p, v)
  {
  }

  /** A page with new contents that is nobody's table: no entry changes, and bytes change in that page only. */
  lemma ContentsStored(norm: seq<bool>, taken: seq<bool>, pages: seq<Page>, pdir: seq<seq<nat>>, owner: map<nat, Use>,
                       t: nat, pages': seq<Page>)
    requires Exclusive(norm, taken, pages, pdir, owner) && (t in owner ==> owner[t].Data?) && |pages'| == |pages|
    requires forall i :: 0 <= i < |pages| && i != t ==> pages'[i] == pages[i]
    ensures SameEntries(pages, pdir, pages', pdir) && Exclusive(norm, taken, pages', pdir, owner)
  {
    forall q: nat, u: nat | UserPage(q, u) ensures Entry(pages', pdir, q, u) == Entry(pages, pdir, q, u) {
      assert UserDir(q, u / PTRS);
      if Pde(pdir, q, u / PTRS) != 0 {
        assert owner[Pde(pdir, q, u / PTRS) / PAGESIZE] == Table(q, u / PTRS);
      }
    }
    SameEntriesExclusive(norm, taken, pages, pdir, owner, pages');
  }

  lemma SameEntriesExclusive(norm: seq<bool>, taken: seq<bool>, pages: seq<Page>, pdir: seq<seq<nat>>,
                             owner: map<nat, Use>, pages': seq<Page>)
    requires Exclusive(norm, taken, pages, pdir, owner) && |pages'| == |pages| && SameEntries(pages, pdir, pages', pdir)
    ensures Exclusive(norm, taken, pages', pdir, owner)
  {
  }

  /** A zeroed, so far unused page becomes the table of (p, d): no entry changes and no user byte. */
  lemma TableAdded(norm: seq<bool>, taken: seq<bool>, pages: seq<Page>, pdir: seq<seq<nat>>, owner: map<nat, Use>,
                   p: nat, d: nat, t: nat, pages': seq<Page>, pdir': seq<seq<nat>>)
    requires Exclusive(norm, taken, pages, pdir, owner) && UserDir(p, d) && Pde(pdir, p, d) == 0
    requires t !in owner && t < |pages| && norm[t] && taken[t] && |pages'| == |pages| && Zeroed(pages'[t])
    requires forall i :: 0 <= i < |pages| && i != t ==> pages'[i] == pages[i]
    requires pdir' == SetPde(pdir, p, d, t * PAGESIZE + PT_PERM_PTU)
    ensures SameEntries(pages, pdir, pages', pdir') && Exclusive(norm, taken, pages', pdir', owner[t := Table(p, d)])
  {
    forall q: nat, u: nat | UserPage(q, u) ensures Entry(pages', pdir', q, u) == Entry(pages, pdir, q, u) {
      NewTableEntry(norm, taken, pages, pdir, owner, p, d, t, pages', pdir', q, u);
    }
    TableAddedExclusive(norm, taken, pages, pdir, owner, p, d, t, pages', pdir');
  }

  lemma NewTableEntry(norm: seq<bool>, taken: seq<bool>, pages: seq<Page>, pdir: seq<seq<nat>>, owner: map<nat, Use>,
                      p: nat, d: nat, t: nat, pages': seq<Page>, pdir': seq<seq<nat>>, q: nat, u: nat)
    requires Exclusive(norm, taken, pages, pdir, owner) && UserDir(p, d) && Pde(pdir, p, d) == 0 && UserPage(q, u)
    requires t !in owner && t < |pages| && |pages'| == |pages| && Zeroed(pages'[t])
    requires forall i :: 0 <= i < |pages| && i != t ==> pages'[i] == pages[i]
    requires pdir' == SetPde(pdir, p, d, t * PAGESIZE + PT_PERM_PTU)
    ensures Shaped(pages', pdir') && Entry(pages', pdir', q, u) == Entry(pages, pdir, q, u)
  {
  }

  lemma TableAddedExclusive(norm: seq<bool>, taken: seq<bool>, pages: seq<Page>, pdir: seq<seq<nat>>,
                            owner: map<nat, Use>, p: nat, d: nat, t: nat, pages': seq<Page>, pdir': seq<seq<nat>>)
    requires Exclusive(norm, taken, pages, pdir, owner) && UserDir(p, d) && Pde(pdir, p, d) == 0
    requires t !in owner && t < |pages| && norm[t] && taken[t] && |pages'| == |pages|
    requires SameEntries(pages, pdir, pages', pdir')
    requires pdir' == SetPde(pdir, p, d, t * PAGESIZE + PT_PERM_PTU)
    ensures Exclusive(norm, taken, pages', pdir', owner[t := Table(p, d)])
  {
    hide Entry;
    var owner' := owner[t := Table(p, d)];
    forall u | u in owner' ensures u < |pages| && norm[u] && taken[u] && Named(pages', pdir', u, owner'[u]) {
      if u != t && owner[u].Data? {
        assert Entry(pages', pdir', owner[u].p, owner[u].v) == Entry(pages, pdir, owner[u].p, owner[u].v);
      } else if u != t {
        assert Pde(pdir, owner[u].p, owner[u].d) / PAGESIZE == u && u > 0;
      }
    }
    forall q: nat, x: nat | UserDir(q, x) && Pde(pdir', q, x) != 0
      ensures Pde(pdir', q, x) / PAGESIZE in owner' && owner'[Pde(pdir', q, x) / PAGESIZE] == Table(q, x)
      ensures Pde(pdir', q, x) == Pde(pdir', q, x) / PAGESIZE * PAGESIZE + PT_PERM_PTU
    {
      if (q, x) != (p, d) {
        assert Pde(pdir', q, x) == Pde(pdir, q, x);
      }
    }
  }

  /** The same entries and contents except in an unused page: every mapped byte is kept. */
  lemma UnusedPageKeeps(norm: seq<bool>, taken: seq<bool>, pages: seq<Page>, pdir: seq<seq<nat>>, owner: map<nat, Use>,
                        t: nat, pages': seq<Page>, pdir': seq<seq<nat>>)
    requires Exclusive(norm, taken, pages, pdir, owner) && t !in owner && |pages'| == |pages|
    requires forall i :: 0 <= i < |pages| && i != t ==> pages'[i] == pages[i]
    requires SameEntries(pages, pdir, pages', pdir')
    ensures Kept(pages, pdir, pages', pdir')
  {
  }

  /** free_ptbl: all entries of the table disappear, and its page can be handed out again. */
  lemma TableFreed(norm: seq<bool>, taken: seq<bool>, pages: seq<Page>, pdir: seq<seq<nat>>, owner: map<nat, Use>,
                   p: nat, d: nat, pdir': seq<seq<nat>>, taken': seq<bool>)
    requires Exclusive(norm, taken, pages, pdir, owner) && UserDir(p, d) && Pde(pdir, p, d) != 0
    requires pdir' == SetPde(pdir, p, d, 0)
    requires var t := Pde(pdir, p, d) / PAGESIZE; t < |taken| && taken' == taken[t := false]
    ensures WithoutTable(pages, pdir, pdir', p, d) && Exclusive(norm, taken', pages, pdir', Unnamed(owner, p, d))
  {
    hide GetU32;
    forall q: nat, u: nat | UserPage(q, u)
      ensures Entry(pages, pdir', q, u) == if (q, u / PTRS) == (p, d) then 0 else Entry(pages, pdir, q, u)
    {
      assert UserDir(q, u / PTRS);
      assert Pde(pdir', q, u / PTRS) == if (q, u / PTRS) == (p, d) then 0 else Pde(pdir, q, u / PTRS);
    }
    TableFreedExclusive(norm, taken, pages, pdir, owner, p, d, pdir', taken');
  }

  ghost predicate WithoutTable(pages: seq<Page>, pdir: seq<seq<nat>>, pdir': seq<seq<nat>>, p: nat, d: nat) {
    && Shaped(pages, pdir) && Shaped(pages, pdir')
    && forall q: nat, u: nat :: UserPage(q, u) ==>
         Entry(pages, pdir', q, u) == if (q, u / PTRS) == (p, d) then 0 else Entry(pages, pdir, q, u)
  }

  lemma TableFreedExclusive(norm: seq<bool>, taken: seq<bool>, pages: seq<Page>, pdir: seq<seq<nat>>,
                            owner: map<nat, Use>, p: nat, d: nat, pdir': seq<seq<nat>>, taken': seq<bool>)
    requires Exclusive(norm, taken, pages, pdir, owner) && UserDir(p, d) && Pde(pdir, p, d) != 0
    requires pdir' == SetPde(pdir, p, d, 0) && WithoutTable(pages, pdir, pdir', p, d)
    requires var t := Pde(pdir, p, d) / PAGESIZE; t < |taken| && taken' == taken[t := false]
    ensures Exclusive(norm, taken', pages, pdir', Unnamed(owner, p, d))
  {
    hide Entry;
    var t := Pde(pdir, p, d) / PAGESIZE;
    var owner' := Unnamed(owner, p, d);
    forall u | u in owner' ensures u < |pages| && norm[u] && taken'[u] && Named(pages, pdir', u, owner'[u]) {
      assert owner[t] == Table(p, d);
      if owner[u].Data? {
        assert Entry(pages, pdir', owner[u].p, owner[u].v) == Entry(pages, pdir, owner[u].p, owner[u].v);
      }
    }
    forall q: nat, u: nat | UserPage(q, u) && Entry(pages, pdir', q, u) != 0
      ensures Entry(pages, pdir', q, u) / PAGESIZE in owner'
      ensures owner'[Entry(pages, pdir', q, u) / PAGESIZE] == Data(q, u)
    {
    }
    forall q: nat, x: nat | UserDir(q, x) && Pde(pdir', q, x) != 0
      ensures Pde(pdir', q, x) / PAGESIZE in owner' && owner'[Pde(pdir', q, x) / PAGESIZE] == Table(q, x)
    {
      assert Pde(pdir', q, x) == Pde(pdir, q, x);
    }
  }

  /** Without the table of (p, d) and what it mapped. */
  ghost function Unnamed(owner: map<nat, Use>, p: nat, d: nat): map<nat, Use> {
    map t | t in owner && owner[t] != Table(p, d) &&
      !(owner[t].Data? && owner[t].p == p && owner[t].v / PTRS == d) :: owner[t]
  }

  /** One more page is marked allocated. */
  lemma TakenMore(norm: seq<bool>, taken: seq<bool>, pages: seq<Page>, pdir: seq<seq<nat>>, owner: map<nat, Use>,
                  t: nat)
    requires Exclusive(norm, taken, pages, pdir, owner) && t < |taken| && norm[t] && !taken[t]
    ensures t !in owner && Exclusive(norm, taken[t := true], pages, pdir, owner)
  {
  }
}
