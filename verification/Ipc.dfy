/** The copy of a message from one address space to another. */
module Ipc {
  import opened Bytes
  import opened Params
  import opened PageTables
  import opened Paging
  import opened Faults
  import opened UserCopy
  import opened Sequences
  import Rendezvous
  import Containers

  const MSG_BUF_SIZE: nat := 100

  ghost predicate Mapped(pages: seq<Page>, pdir: seq<seq<nat>>, p: nat, a: nat)
    requires Shaped(pages, pdir)
  {
    UserAddr(p, a) && Entry(pages, pdir, p, a / PAGESIZE) != 0
  }

  /** Both ends of the piece that byte `k` of `length` is copied in are in user space, for a buffer at `base`. */
  predicate Inside(base: nat, k: nat, length: nat) {
    var lo := k / MSG_BUF_SIZE * MSG_BUF_SIZE;
    VM_USERLO <= base + lo && base + (if length - lo < MSG_BUF_SIZE then length else lo + MSG_BUF_SIZE) <= VM_USERHI
  }

  /** Of `length` bytes the first `n` of `src` from `sa` on, as they were at the start, are now in `dest` from `da` on,
      wherever both were mapped and in a piece inside user space; every other mapped byte is as before. */
  ghost predicate Copied(pages: seq<Page>, pdir: seq<seq<nat>>, pages': seq<Page>, pdir': seq<seq<nat>>,
                         dest: nat, da: nat, src: nat, sa: nat, n: nat, length: nat) {
    && Shaped(pages, pdir) && Shaped(pages', pdir')
    && (forall a: nat :: da <= a < da + n && Mapped(pages, pdir, dest, a) && Mapped(pages, pdir, src, sa + (a - da))
                         && Inside(da, a - da, length) && Inside(sa, a - da, length) ==>
          ByteAt(pages', pdir', dest, a) == ByteAt(pages, pdir, src, sa + (a - da)))
    && (forall q: nat, a: nat :: UserAddr(q, a) && Entry(pages, pdir, q, a / PAGESIZE) != 0 ==>
          && Entry(pages', pdir', q, a / PAGESIZE) == Entry(pages, pdir, q, a / PAGESIZE)
          && (!(q == dest && da <= a < da + n) ==> ByteAt(pages', pdir', q, a) == ByteAt(pages, pdir, q, a)))
  }

  /** Between two buffers in user space every byte arrives that was mapped on both sides. */
  lemma WholeCopied(pages: seq<Page>, pdir: seq<seq<nat>>, pages': seq<Page>, pdir': seq<seq<nat>>,
                    dest: nat, da: nat, src: nat, sa: nat, length: nat, k: nat)
    requires Copied(pages, pdir, pages', pdir', dest, da, src, sa, length, length) && k < length
    requires VM_USERLO <= da && da + length <= VM_USERHI && VM_USERLO <= sa && sa + length <= VM_USERHI
    requires Mapped(pages, pdir, dest, da + k) && Mapped(pages, pdir, src, sa + k)
    ensures ByteAt(pages', pdir', dest, da + k) == ByteAt(pages, pdir, src, sa + k)
  {
    hide Entry, ByteAt;
    assert Inside(da, (da + k) - da, length) && Inside(sa, (da + k) - da, length);
  }

  /** One more piece, through the kernel's buffer. */
  lemma CopiedMore(pages: seq<Page>, pdir: seq<seq<nat>>, pages1: seq<Page>, pdir1: seq<seq<nat>>,
                   pages2: seq<Page>, pdir2: seq<seq<nat>>, pages3: seq<Page>, pdir3: seq<seq<nat>>,
                   dest: nat, da: nat, src: nat, sa: nat, n: nat, length: nat, got: seq<byte>, put: seq<byte>)
    requires dest != src && 1 <= src < NUM_IDS && n % MSG_BUF_SIZE == 0 && n < length
    requires |put| == (if length - n < MSG_BUF_SIZE then length - n else MSG_BUF_SIZE)
    requires Copied(pages, pdir, pages1, pdir1, dest, da, src, sa, n, length) && Kept(pages1, pdir1, pages2, pdir2)
    requires Inside(sa, n, length) ==> got == put && Fetched(pages2, pdir2, src, sa + n, got)
    requires if Inside(da, n, length) then Wrote(pages2, pdir2, pages3, pdir3, dest, da + n, put)
             else pages3 == pages2 && pdir3 == pdir2
    ensures Copied(pages, pdir, pages3, pdir3, dest, da, src, sa, n + |put|, length)
  {
    hide Entry, ByteAt, Inside;
    SamePiece(da, n, length);
    SamePiece(sa, n, length);
  }

  /** The first `n` bytes have arrived, as they were at the start. */
  ghost predicate Arrived(pages0: seq<Page>, pdir0: seq<seq<nat>>, pages: seq<Page>, pdir: seq<seq<nat>>, dest: nat,
                          da: nat, src: nat, sa: nat, n: nat) {
    && Shaped(pages0, pdir0) && Shaped(pages, pdir)
    && forall a: nat :: da <= a < da + n ==>
         && Mapped(pages, pdir, dest, a) && UserAddr(src, sa + (a - da))
         && ByteAt(pages, pdir, dest, a) == ByteAt(pages0, pdir0, src, sa + (a - da))
  }

  /** Both buffers are in user space, the sender's was mapped, and the pages left to the receiver cover what its own is
      missing. */
  ghost predicate Covered(pages0: seq<Page>, pdir0: seq<seq<nat>>, pages: seq<Page>, pdir: seq<seq<nat>>, left: nat,
                          dest: nat, da: nat, src: nat, sa: nat, length: nat) {
    && VM_USERLO <= da && da + length <= VM_USERHI && VM_USERLO <= sa && sa + length <= VM_USERHI
    && 1 <= dest < NUM_IDS && 1 <= src < NUM_IDS && Shaped(pages0, pdir0) && Shaped(pages, pdir)
    && AllMapped(pages0, pdir0, src, sa, length) && Suffices(pages, pdir, left, dest, da, length)
  }

  /** The sender's piece is still mapped. */
  lemma PieceMapped(pages0: seq<Page>, pdir0: seq<seq<nat>>, pages: seq<Page>, pdir: seq<seq<nat>>, dest: nat, da: nat,
                    src: nat, sa: nat, n: nat, len: nat, length: nat)
    requires Copied(pages0, pdir0, pages, pdir, dest, da, src, sa, n, length) && 1 <= src < NUM_IDS
    requires VM_USERLO <= sa && sa + length <= VM_USERHI && 0 < len && n + len <= length
    requires AllMapped(pages0, pdir0, src, sa, length)
    ensures AllMapped(pages, pdir, src, sa + n, len)
  {
    hide Entry, ByteAt, Inside;
    forall v: nat | (sa + n) / PAGESIZE <= v < EndPage(sa + n, len) && UserPage(src, v)
      ensures Entry(pages, pdir, src, v) != 0
    {
      PieceWithin(sa, n, len, length);
      assert UserAddr(src, v * PAGESIZE) && v * PAGESIZE / PAGESIZE == v;
    }
  }

  lemma PieceWithin(base: nat, n: nat, len: nat, length: nat)
    requires 0 < len && n + len <= length
    ensures base / PAGESIZE <= (base + n) / PAGESIZE && EndPage(base + n, len) <= EndPage(base, length)
  {
  }

  /** One more piece has arrived. */
  lemma ArrivedMore(pages0: seq<Page>, pdir0: seq<seq<nat>>, pages1: seq<Page>, pdir1: seq<seq<nat>>,
                    pages2: seq<Page>, pdir2: seq<seq<nat>>, dest: nat, da: nat, src: nat, sa: nat, n: nat, length: nat,
                    got: seq<byte>)
    requires Arrived(pages0, pdir0, pages1, pdir1, dest, da, src, sa, n) && dest != src && 1 <= dest < NUM_IDS
    requires Copied(pages0, pdir0, pages1, pdir1, dest, da, src, sa, n, length) && 1 <= src < NUM_IDS
    requires VM_USERLO <= da && da + length <= VM_USERHI && VM_USERLO <= sa && sa + length <= VM_USERHI
    requires 0 < |got| && n + |got| <= length && AllMapped(pages0, pdir0, src, sa, length)
    requires Fetched(pages1, pdir1, src, sa + n, got) && Wrote(pages1, pdir1, pages2, pdir2, dest, da + n, got)
    requires AllMapped(pages2, pdir2, dest, da + n, |got|)
    ensures Arrived(pages0, pdir0, pages2, pdir2, dest, da, src, sa, n + |got|)
  {
    hide Entry, ByteAt, Inside, AllMapped;
    forall a: nat | da <= a < da + n + |got|
      ensures Mapped(pages2, pdir2, dest, a) && UserAddr(src, sa + (a - da))
      ensures ByteAt(pages2, pdir2, dest, a) == ByteAt(pages0, pdir0, src, sa + (a - da))
    {
      if a >= da + n {
        var k := a - da;
        MappedAt(pages0, pdir0, src, sa, length, sa + k);
        MappedAt(pages2, pdir2, dest, da + n, |got|, a);
        assert UserAddr(src, sa + k) && Entry(pages1, pdir1, src, (sa + k) / PAGESIZE) != 0;
        assert got[a - (da + n)] == got[(sa + k) - (sa + n)] == ByteAt(pages1, pdir1, src, sa + k);
      } else {
        assert Mapped(pages1, pdir1, dest, a);
      }
    }
  }

  lemma MappedAt(pages: seq<Page>, pdir: seq<seq<nat>>, p: nat, base: nat, len: nat, a: nat)
    requires Shaped(pages, pdir) && 1 <= p < NUM_IDS && VM_USERLO <= base && base + len <= VM_USERHI
    requires base <= a < base + len && AllMapped(pages, pdir, p, base, len)
    ensures Mapped(pages, pdir, p, a)
  {
    hide Entry;
    PageWithin(base, a - base, len);
    assert UserPage(p, a / PAGESIZE);
  }

  lemma SamePiece(base: nat, n: nat, length: nat)
    requires n % MSG_BUF_SIZE == 0 && n < length
    ensures forall k: nat :: n <= k < n + MSG_BUF_SIZE ==> Inside(base, k, length) == Inside(base, n, length)
  {
    forall k: nat | n <= k < n + MSG_BUF_SIZE ensures Inside(base, k, length) == Inside(base, n, length) {
      assert k / MSG_BUF_SIZE == n / MSG_BUF_SIZE;
    }
  }

  lemma NothingCopied(pages: seq<Page>, pdir: seq<seq<nat>>, dest: nat, da: nat, src: nat, sa: nat, length: nat)
    requires Shaped(pages, pdir)
    ensures Copied(pages, pdir, pages, pdir, dest, da, src, sa, 0, length)
  {
  }

  lemma NoneArrived(pages: seq<Page>, pdir: seq<seq<nat>>, dest: nat, da: nat, src: nat, sa: nat)
    requires Shaped(pages, pdir)
    ensures Arrived(pages, pdir, pages, pdir, dest, da, src, sa, 0)
  {
  }

  /** One turn of the loop of ipc_copy. `msg` is the kernel's buffer, which keeps what an earlier turn left in it if
      this turn's piece cannot be read. */
  method IpcChunk(vm: VM, dest: nat, da: nat, src: nat, sa: nat, n: nat, length: nat, kva: nat, msg: seq<byte>,
                  ghost pages0: seq<Page>, ghost pdir0: seq<seq<nat>>)
    returns (msg': seq<byte>, len: nat)
    requires vm.Valid() && 1 <= dest < NUM_IDS && 1 <= src < NUM_IDS && dest != src
    requires vm.ct.cs[dest].used && vm.ct.cs[src].used && |msg| == MSG_BUF_SIZE
    requires da + length < U32 && sa + length < U32 && kva + MSG_BUF_SIZE <= VM_USERHI && n < length
    requires n % MSG_BUF_SIZE == 0
    requires Copied(pages0, pdir0, vm.pages, vm.pdir, dest, da, src, sa, n, length)
    modifies vm, vm.at, vm.ct
    ensures vm.Valid() && SameUsed(old(vm.ct.cs), vm.ct.cs) && |msg'| == MSG_BUF_SIZE
    ensures len == if length - n < MSG_BUF_SIZE then length - n else MSG_BUF_SIZE
    ensures Copied(pages0, pdir0, vm.pages, vm.pdir, dest, da, src, sa, n + len, length)
    ensures Going(pages0, pdir0, old(vm.pages), old(vm.pdir), old(vm.Left(dest)), dest, da, src, sa, n, length) ==>
              Going(pages0, pdir0, vm.pages, vm.pdir, vm.Left(dest), dest, da, src, sa, n + len, length)
  {
    hide Exclusive, Charged, PagesOf, Entry, ByteAt, Fetched, Wrote, Copied, Kept, InRange, Inside, Suffices;
    hide Containers.TreeShaped, Containers.Balanced, Going, AllMapped, KeepsCover;
    Containers.TableSize(vm.ct.cs);
    TablesShaped(vm.at.norm, vm.at.taken, vm.pages, vm.pdir, vm.owner);
    ghost var going := Going(pages0, pdir0, vm.pages, vm.pdir, vm.Left(dest), dest, da, src, sa, n, length);
    len := if length - n < MSG_BUF_SIZE then length - n else MSG_BUF_SIZE;
    InsideExactly(sa, n, length, kva, len);
    InsideExactly(da, n, length, kva, len);
    if going {
      PieceIsGood(pages0, pdir0, vm.pages, vm.pdir, vm.Left(dest), dest, da, src, sa, n, len, length, kva);
    }
    var got := CopyIn(vm, src, sa + n, kva, len);
    msg' := got + msg[|got|..];
    ghost var pages2, pdir2 := vm.pages, vm.pdir;
    var copied := CopyOut(vm, msg'[..len], kva, dest, da + n);
    CopiedMore(pages0, pdir0, old(vm.pages), old(vm.pdir), pages2, pdir2, vm.pages, vm.pdir, dest, da, src, sa, n,
               length, got, msg'[..len]);
    if going {
      assert msg'[..len] == got;
      TablesShaped(vm.at.norm, vm.at.taken, vm.pages, vm.pdir, vm.owner);
      GoesOn(pages0, pdir0, pages2, pdir2, old(vm.Left(dest)), vm.pages, vm.pdir, vm.Left(dest), dest, da, src, sa, n,
             length, got);
    }
  }

  /** Part way through a copy that will succeed. */
  ghost predicate Going(pages0: seq<Page>, pdir0: seq<seq<nat>>, pages: seq<Page>, pdir: seq<seq<nat>>, left: nat,
                        dest: nat, da: nat, src: nat, sa: nat, n: nat, length: nat) {
    && Covered(pages0, pdir0, pages, pdir, left, dest, da, src, sa, length)
    && Arrived(pages0, pdir0, pages, pdir, dest, da, src, sa, n)
  }

  lemma PieceIsGood(pages0: seq<Page>, pdir0: seq<seq<nat>>, pages: seq<Page>, pdir: seq<seq<nat>>, left: nat,
                    dest: nat, da: nat, src: nat, sa: nat, n: nat, len: nat, length: nat, kva: nat)
    requires Going(pages0, pdir0, pages, pdir, left, dest, da, src, sa, n, length)
    requires Copied(pages0, pdir0, pages, pdir, dest, da, src, sa, n, length) && 0 < len && n + len <= length
    requires kva + len <= VM_USERHI
    ensures InRange(sa + n, kva, len) && InRange(da + n, kva, len)
    ensures AllMapped(pages, pdir, src, sa + n, len) && Suffices(pages, pdir, left, dest, da + n, len)
  {
    hide Copied, Arrived, AllMapped, Needed;
    PieceMapped(pages0, pdir0, pages, pdir, dest, da, src, sa, n, len, length);
    PieceWithin(da, n, len, length);
    NeededWithin(pages, pdir, dest, da / PAGESIZE, (da + n) / PAGESIZE, EndPage(da + n, len), EndPage(da, length));
  }

  lemma GoesOn(pages0: seq<Page>, pdir0: seq<seq<nat>>, pages1: seq<Page>, pdir1: seq<seq<nat>>, left1: nat,
               pages2: seq<Page>, pdir2: seq<seq<nat>>, left2: nat, dest: nat, da: nat, src: nat, sa: nat, n: nat,
               length: nat, got: seq<byte>)
    requires Going(pages0, pdir0, pages1, pdir1, left1, dest, da, src, sa, n, length) && dest != src
    requires Copied(pages0, pdir0, pages1, pdir1, dest, da, src, sa, n, length)
    requires 0 < |got| && n + |got| <= length && Shaped(pages2, pdir2)
    requires Fetched(pages1, pdir1, src, sa + n, got) && Wrote(pages1, pdir1, pages2, pdir2, dest, da + n, got)
    requires AllMapped(pages2, pdir2, dest, da + n, |got|)
    requires KeepsCover(pages1, pdir1, left1, pages2, pdir2, left2, dest, (da + n) / PAGESIZE, EndPage(da + n, |got|))
    ensures Going(pages0, pdir0, pages2, pdir2, left2, dest, da, src, sa, n + |got|, length)
  {
    hide Copied, Arrived, AllMapped, Needed, Fetched, Wrote;
    ArrivedMore(pages0, pdir0, pages1, pdir1, pages2, pdir2, dest, da, src, sa, n, length, got);
    PieceWithin(da, n, |got|, length);
  }

  /** The copies refuse a piece exactly if it is not inside user space. */
  lemma InsideExactly(base: nat, n: nat, length: nat, kva: nat, len: nat)
    requires n % MSG_BUF_SIZE == 0 && n < length && base + length < U32 && kva + MSG_BUF_SIZE <= VM_USERHI
    requires len == if length - n < MSG_BUF_SIZE then length - n else MSG_BUF_SIZE
    ensures Inside(base, n, length) == InRange(base + n, kva, len)
  {
  }

  /** ipc_copy. The whole message arrives if the sender's buffer is mapped and the pages left to the receiver cover its
      own. */
  method IpcCopy(vm: VM, dest: nat, da: nat, src: nat, sa: nat, length: nat, kva: nat, msg: seq<byte>)
    requires vm.Valid() && 1 <= dest < NUM_IDS && 1 <= src < NUM_IDS && dest != src
    requires vm.ct.cs[dest].used && vm.ct.cs[src].used && |msg| == MSG_BUF_SIZE
    requires da + length < U32 && sa + length < U32 && kva + MSG_BUF_SIZE <= VM_USERHI
    modifies vm, vm.at, vm.ct
    ensures vm.Valid() && Copied(old(vm.pages), old(vm.pdir), vm.pages, vm.pdir, dest, da, src, sa, length, length)
    ensures Covered(old(vm.pages), old(vm.pdir), old(vm.pages), old(vm.pdir), old(vm.Left(dest)), dest, da, src, sa,
                    length) ==>
              Arrived(old(vm.pages), old(vm.pdir), vm.pages, vm.pdir, dest, da, src, sa, length)
  {
    hide Exclusive, Charged, PagesOf, Entry, ByteAt, Fetched, Wrote, Copied, Kept, Containers.TreeShaped,
         Containers.Balanced, Covered, Arrived;
    Containers.TableSize(vm.ct.cs);
    TablesShaped(vm.at.norm, vm.at.taken, vm.pages, vm.pdir, vm.owner);
    NothingCopied(vm.pages, vm.pdir, dest, da, src, sa, length);
    NoneArrived(vm.pages, vm.pdir, dest, da, src, sa);
    var n, buf := 0, msg;
    while n < length
      invariant n <= length && vm.Valid() && SameUsed(old(vm.ct.cs), vm.ct.cs) && |buf| == MSG_BUF_SIZE
      invariant n == length || n % MSG_BUF_SIZE == 0
      invariant Copied(old(vm.pages), old(vm.pdir), vm.pages, vm.pdir, dest, da, src, sa, n, length)
      invariant Covered(old(vm.pages), old(vm.pdir), old(vm.pages), old(vm.pdir), old(vm.Left(dest)), dest, da, src, sa,
                        length) ==>
                  Going(old(vm.pages), old(vm.pdir), vm.pages, vm.pdir, vm.Left(dest), dest, da, src, sa, n, length)
    {
      var len;
      buf, len := IpcChunk(vm, dest, da, src, sa, n, length, kva, buf, old(vm.pages), old(vm.pdir));
      n := n + len;
    }
  }

  /** The memory of process `p` from `base` on is mapped and holds `mem`. */
  ghost predicate Seen(pages: seq<Page>, pdir: seq<seq<nat>>, p: nat, base: nat, mem: seq<byte>) {
    && Shaped(pages, pdir) && 1 <= p < NUM_IDS && VM_USERLO <= base && base + |mem| <= VM_USERHI
    && forall a: nat :: base <= a < base + |mem| ==>
         Mapped(pages, pdir, p, a) && ByteAt(pages, pdir, p, a) == mem[a - base]
  }

  /** On memory that is mapped, the copy through the page tables does to every process what the receive step of
      `Rendezvous` does to flat memory. */
  lemma TakeIsCopied(pages0: seq<Page>, pdir0: seq<seq<nat>>, pages: seq<Page>, pdir: seq<seq<nat>>,
                     s: Rendezvous.State, p: nat, from: nat, addr: nat, len: nat, base: nat, q: nat)
    requires Rendezvous.CanTry(s, p, from, addr, len) && Rendezvous.Ready(s, p, from) && p != from && q < NUM_IDS
    requires Seen(pages0, pdir0, p, base, s.mem[p]) && Seen(pages0, pdir0, from, base, s.mem[from])
    requires Seen(pages0, pdir0, q, base, s.mem[q])
    requires var n := Min(s.blocks[from].len, len);
             Copied(pages0, pdir0, pages, pdir, p, base + addr, from, base + s.blocks[from].addr, n, n)
    ensures Seen(pages, pdir, q, base, Rendezvous.Take(s, p, from, addr, len).mem[q])
  {
    hide Entry, ByteAt, Inside, Copied;
    var n, da, sa := Min(s.blocks[from].len, len), base + addr, base + s.blocks[from].addr;
    CopiedFrame(pages0, pdir0, pages, pdir, p, da, from, sa, n);
    var mem := Rendezvous.Take(s, p, from, addr, len).mem[q];
    forall a: nat | base <= a < base + |mem|
      ensures Mapped(pages, pdir, q, a) && ByteAt(pages, pdir, q, a) == mem[a - base]
    {
      assert Mapped(pages0, pdir0, q, a);
      if q == p && da <= a < da + n {
        assert Mapped(pages0, pdir0, from, sa + (a - da));
        WholeCopied(pages0, pdir0, pages, pdir, p, da, from, sa, n, a - da);
      }
    }
  }

  lemma CopiedFrame(pages: seq<Page>, pdir: seq<seq<nat>>, pages': seq<Page>, pdir': seq<seq<nat>>, dest: nat, da: nat,
                    src: nat, sa: nat, n: nat)
    requires Copied(pages, pdir, pages', pdir', dest, da, src, sa, n, n)
    ensures Shaped(pages', pdir')
    ensures forall q: nat, a: nat :: UserAddr(q, a) && Entry(pages, pdir, q, a / PAGESIZE) != 0 ==>
              && Entry(pages', pdir', q, a / PAGESIZE) == Entry(pages, pdir, q, a / PAGESIZE)
              && (!(q == dest && da <= a < da + n) ==> ByteAt(pages', pdir', q, a) == ByteAt(pages, pdir, q, a))
  {
    hide Entry, ByteAt, Inside;
  }
}
