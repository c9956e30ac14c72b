/** File descriptors: the system-wide file table, the pipe cache, and the slots of every thread that point at files. */
module Descriptors {
  import opened Params
  import opened Sequences

  const NFILE: nat := 100
  const NPIPE: nat := 10
  const NOFILE: nat := 16

  /** What a `struct file` is; `FdPipe(p, w)` is the writing (w) or reading end of pipe `p`, and `FdInode(ip)` is open
      on inode `ip`. */
  datatype Kind = FdNone | FdPipe(pipe: nat, writable: bool) | FdInode(ip: nat) | FdConsoleIn | FdConsoleOut

  /** `ref`, `readopen` and `writeopen` of a `struct pipe`. */
  datatype PipeSlot = PipeSlot(ref: nat, readopen: bool, writeopen: bool)

  predicate Open(p: PipeSlot, writable: bool) {
    if writable then p.writeopen else p.readopen
  }

  /** The descriptors that point at file `f`. A slot that points nowhere holds NFILE. */
  ghost function Holders(slots: seq<seq<nat>>, f: nat): (h: set<(nat, nat)>)
    requires SlotsShaped(slots)
  {
    set t: nat, d: nat | t < NUM_IDS && d < NOFILE && slots[t][d] == f :: (t, d)
  }

  ghost predicate SlotsShaped(slots: seq<seq<nat>>) {
    |slots| == NUM_IDS && forall t :: 0 <= t < NUM_IDS ==>
      |slots[t]| == NOFILE && forall d :: 0 <= d < NOFILE ==> slots[t][d] <= NFILE
  }

  /** Each file's `ref` counts the slots that point at it, and the references `loose` that a system call in
      progress has taken or dropped ahead of its slot. */
  ghost predicate Counted(refs: seq<nat>, slots: seq<seq<nat>>, loose: seq<int>) {
    && |refs| == |loose| == NFILE && SlotsShaped(slots)
    && forall f :: 0 <= f < NFILE ==> refs[f] == |Holders(slots, f)| + loose[f]
  }

  /** A free file has no kind; each end of a pipe is open exactly if there is a file for it, and then only one;
      a pipe is free exactly if both ends are closed. */
  ghost predicate EndsMatch(refs: seq<nat>, kinds: seq<Kind>, pipes: seq<PipeSlot>) {
    && |refs| == |kinds| == NFILE && |pipes| == NPIPE
    && (forall f :: 0 <= f < NFILE && refs[f] == 0 ==> kinds[f] == FdNone)
    && (forall f :: 0 <= f < NFILE && kinds[f].FdPipe? ==>
         kinds[f].pipe < NPIPE && Open(pipes[kinds[f].pipe], kinds[f].writable))
    && (forall f, g :: 0 <= f < g < NFILE && kinds[f].FdPipe? ==> kinds[f] != kinds[g])
    && (forall p: nat, w: bool :: p < NPIPE && Open(pipes[p], w) ==> FdPipe(p, w) in kinds)
    && (forall p :: 0 <= p < NPIPE ==> (pipes[p].ref == 0 <==> !pipes[p].readopen && !pipes[p].writeopen))
  }

  ghost predicate NoLoose(loose: seq<int>) {
    |loose| == NFILE && forall f :: 0 <= f < NFILE ==> loose[f] == 0
  }

  /** Some thread has a descriptor for the given end of pipe `p`. */
  ghost predicate Held(kinds: seq<Kind>, slots: seq<seq<nat>>, p: nat, w: bool) {
    exists t: nat, d: nat ::
      t < |slots| && d < |slots[t]| && slots[t][d] < |kinds| && kinds[slots[t][d]] == FdPipe(p, w)
  }

  /** Between system calls an end of a pipe is open exactly while some slot holds it. */
  lemma OpenIffHeld(refs: seq<nat>, kinds: seq<Kind>, pipes: seq<PipeSlot>, slots: seq<seq<nat>>, loose: seq<int>,
                    p: nat, w: bool)
    requires Counted(refs, slots, loose) && NoLoose(loose) && EndsMatch(refs, kinds, pipes) && p < NPIPE
    ensures Open(pipes[p], w) <==> Held(kinds, slots, p, w)
  {
  }

  /** `r` is the lowest index that holds `x`, or the length. */
  predicate First(s: seq<nat>, x: nat, r: nat) {
    r <= |s| && (r < |s| ==> s[r] == x) && forall k :: 0 <= k < r ==> s[k] != x
  }

  /** Slot (t, d) is repointed from `g` to `f`. */
  lemma SlotSet(slots: seq<seq<nat>>, t: nat, d: nat, f: nat, slots': seq<seq<nat>>)
    requires SlotsShaped(slots) && t < NUM_IDS && d < NOFILE && f <= NFILE && slots[t][d] != f
    requires slots' == WithSlot(slots, t, d, f)
    ensures SlotsShaped(slots')
    ensures |Holders(slots', f)| == |Holders(slots, f)| + 1
    ensures |Holders(slots', slots[t][d])| == |Holders(slots, slots[t][d])| - 1
    ensures forall g: nat :: g != f && g != slots[t][d] ==> |Holders(slots', g)| == |Holders(slots, g)|
  {
    assert Holders(slots', f) == Holders(slots, f) + {(t, d)};
    assert (t, d) in Holders(slots, slots[t][d]);
    assert Holders(slots', slots[t][d]) == Holders(slots, slots[t][d]) - {(t, d)};
    forall g: nat | g != f && g != slots[t][d] ensures |Holders(slots', g)| == |Holders(slots, g)| {
      assert Holders(slots', g) == Holders(slots, g);
    }
  }

  function WithSlot(slots: seq<seq<nat>>, t: nat, d: nat, f: nat): (r: seq<seq<nat>>)
    requires t < |slots| && d < |slots[t]|
  {
    var fds: seq<nat> := slots[t][d := f];
    slots[t := fds]
  }

  /** A file's reference moves from the caller's hand into a free slot. */
  lemma SlotFilled(refs: seq<nat>, slots: seq<seq<nat>>, loose: seq<int>, t: nat, d: nat, f: nat)
    requires Counted(refs, slots, loose) && t < NUM_IDS && d < NOFILE && f < NFILE && slots[t][d] == NFILE
    ensures Counted(refs, WithSlot(slots, t, d, f), loose[f := loose[f] - 1])
  {
    SlotSet(slots, t, d, f, WithSlot(slots, t, d, f));
  }

  lemma SlotEmptied(refs: seq<nat>, slots: seq<seq<nat>>, loose: seq<int>, t: nat, d: nat, f: nat)
    requires Counted(refs, slots, loose) && t < NUM_IDS && d < NOFILE && f < NFILE && slots[t][d] == f
    ensures Counted(refs, WithSlot(slots, t, d, NFILE), loose[f := loose[f] + 1])
  {
    SlotSet(slots, t, d, NFILE, WithSlot(slots, t, d, NFILE));
  }

  /** pipe_close, without the wakeups. */
  function Closed(p: PipeSlot, writable: bool): (r: PipeSlot)
    ensures !Open(r, writable) && Open(r, !writable) == Open(p, !writable)
    ensures r.ref == if r.readopen || r.writeopen then p.ref else 0
  {
    var q := if writable then p.(writeopen := false) else p.(readopen := false);
    if !q.readopen && !q.writeopen then q.(ref := 0) else q
  }

  function ClosedKinds(refs: seq<nat>, kinds: seq<Kind>, f: nat): (r: seq<Kind>)
    requires f < |refs| == |kinds|
  {
    if refs[f] == 1 then kinds[f := FdNone] else kinds
  }

  function ClosedPipes(refs: seq<nat>, kinds: seq<Kind>, pipes: seq<PipeSlot>, f: nat): (r: seq<PipeSlot>)
    requires f < |refs| == |kinds|
  {
    if refs[f] == 1 && kinds[f].FdPipe? && kinds[f].pipe < |pipes|
    then pipes[kinds[f].pipe := Closed(pipes[kinds[f].pipe], kinds[f].writable)] else pipes
  }

  /** The last close of an end closes it; the ends stay matched to the files. */
  lemma CloseKeeps(refs: seq<nat>, kinds: seq<Kind>, pipes: seq<PipeSlot>, f: nat)
    requires EndsMatch(refs, kinds, pipes) && f < NFILE && refs[f] > 0
    ensures EndsMatch(refs[f := refs[f] - 1], ClosedKinds(refs, kinds, f), ClosedPipes(refs, kinds, pipes, f))
  {
    var kinds', pipes' := ClosedKinds(refs, kinds, f), ClosedPipes(refs, kinds, pipes, f);
    forall p: nat, w: bool | p < NPIPE && Open(pipes'[p], w) ensures FdPipe(p, w) in kinds' {
      assert Open(pipes[p], w);
      var g :| 0 <= g < NFILE && kinds[g] == FdPipe(p, w);
      assert kinds'[g] == FdPipe(p, w);
    }
  }

  /** Two free files and a free pipe become the two ends of the pipe. */
  lemma PipeMade(refs: seq<nat>, kinds: seq<Kind>, pipes: seq<PipeSlot>, rf: nat, wf: nat, p: nat)
    requires EndsMatch(refs, kinds, pipes) && rf < NFILE && wf < NFILE && rf != wf && p < NPIPE
    requires refs[rf] > 0 && refs[wf] > 0 && kinds[rf] == kinds[wf] == FdNone && pipes[p].ref == 0
    ensures EndsMatch(refs, kinds[rf := FdPipe(p, false)][wf := FdPipe(p, true)], pipes[p := PipeSlot(2, true, true)])
  {
    var kinds', pipes' := kinds[rf := FdPipe(p, false)][wf := FdPipe(p, true)], pipes[p := PipeSlot(2, true, true)];
    assert !Open(pipes[p], true) && !Open(pipes[p], false);
    assert kinds'[rf] == FdPipe(p, false) && kinds'[wf] == FdPipe(p, true);
    forall q: nat, w: bool | q < NPIPE && Open(pipes'[q], w) ensures FdPipe(q, w) in kinds' {
      if q != p {
        assert Open(pipes[q], w);
        var g :| 0 <= g < NFILE && kinds[g] == FdPipe(q, w);
        assert kinds'[g] == FdPipe(q, w);
      }
    }
  }

  /** A file without a kind gets one that is not a pipe. */
  lemma KindSet(refs: seq<nat>, kinds: seq<Kind>, pipes: seq<PipeSlot>, f: nat, k: Kind)
    requires EndsMatch(refs, kinds, pipes) && f < NFILE && refs[f] > 0 && kinds[f] == FdNone && !k.FdPipe?
    ensures EndsMatch(refs, kinds[f := k], pipes)
  {
    var kinds' := kinds[f := k];
    forall q: nat, w: bool | q < NPIPE && Open(pipes[q], w) ensures FdPipe(q, w) in kinds' {
      var g :| 0 <= g < NFILE && kinds[g] == FdPipe(q, w);
      assert kinds'[g] == FdPipe(q, w);
    }
  }

  lemma RefMore(refs: seq<nat>, kinds: seq<Kind>, pipes: seq<PipeSlot>, slots: seq<seq<nat>>, loose: seq<int>, f: nat)
    requires Counted(refs, slots, loose) && EndsMatch(refs, kinds, pipes) && f < NFILE
    ensures Counted(refs[f := refs[f] + 1], slots, loose[f := loose[f] + 1])
    ensures EndsMatch(refs[f := refs[f] + 1], kinds, pipes)
  {
  }

  lemma RefLess(refs: seq<nat>, slots: seq<seq<nat>>, loose: seq<int>, f: nat)
    requires Counted(refs, slots, loose) && f < NFILE && refs[f] > 0
    ensures Counted(refs[f := refs[f] - 1], slots, loose[f := loose[f] - 1])
  {
  }

  lemma Shapes(refs: seq<nat>, kinds: seq<Kind>, pipes: seq<PipeSlot>, slots: seq<seq<nat>>, loose: seq<int>)
    requires Counted(refs, slots, loose) && EndsMatch(refs, kinds, pipes)
    ensures |refs| == |kinds| == |loose| == NFILE && |pipes| == NPIPE && SlotsShaped(slots)
    ensures forall f :: 0 <= f < NFILE && kinds[f].FdPipe? ==> kinds[f].pipe < NPIPE
  {
  }

  /** There are two free files and a free pipe. */
  /** Files, pipes and descriptors that are free. */
  function FreeFiles(refs: seq<nat>): nat {
    Count(refs, 0)
  }

  function PipeRefs(pipes: seq<PipeSlot>): seq<nat> {
    seq(|pipes|, i requires 0 <= i < |pipes| => pipes[i].ref)
  }

  function FreePipes(pipes: seq<PipeSlot>): nat {
    Count(PipeRefs(pipes), 0)
  }

  function FreeFds(fds: seq<nat>): nat {
    Count(fds, NFILE)
  }

  predicate NoFile(refs: seq<nat>) {
    0 !in refs
  }

  lemma CanPipeExactly(refs: seq<nat>, pipes: seq<PipeSlot>, fds: seq<nat>)
    ensures CanPipe(refs, pipes) <==> FreeFiles(refs) >= 2 && FreePipes(pipes) >= 1
    ensures TwoSlots(fds) <==> FreeFds(fds) >= 2
    ensures 0 in refs <==> FreeFiles(refs) >= 1
    ensures NFILE in fds <==> FreeFds(fds) >= 1
  {
    hide Count;
    CountTwo(refs, 0);
    CountSome(refs, 0);
    CountSome(PipeRefs(pipes), 0);
    CountTwo(fds, NFILE);
    CountSome(fds, NFILE);
    var rs := PipeRefs(pipes);
    assert forall p :: 0 <= p < |pipes| ==> rs[p] == pipes[p].ref;
  }

  lemma PipeTaken(refs: seq<nat>, pipes: seq<PipeSlot>, rf: nat, wf: nat, p: nat)
    requires rf < |refs| && wf < |refs| && rf != wf && refs[rf] == refs[wf] == 0 && p < |pipes| && pipes[p].ref == 0
    ensures FreeFiles(refs[rf := 1][wf := 1]) + 2 == FreeFiles(refs)
    ensures FreePipes(pipes[p := PipeSlot(2, true, true)]) + 1 == FreePipes(pipes)
  {
    hide Count;
    CountSet(refs, rf, 1, 0);
    CountSet(refs[rf := 1], wf, 1, 0);
    CountSet(PipeRefs(pipes), p, 2, 0);
    assert PipeRefs(pipes[p := PipeSlot(2, true, true)]) == PipeRefs(pipes)[p := 2];
  }

  lemma FileGivenBack(refs: seq<nat>, kinds: seq<Kind>, pipes: seq<PipeSlot>, f: nat)
    requires f < |refs| == |kinds| && refs[f] > 0
    ensures FreeFiles(refs[f := refs[f] - 1]) >= FreeFiles(refs)
    ensures FreePipes(ClosedPipes(refs, kinds, pipes, f)) >= FreePipes(pipes)
  {
    hide Count;
    CountSet(refs, f, refs[f] - 1, 0);
    var pipes' := ClosedPipes(refs, kinds, pipes, f);
    if pipes' != pipes {
      var p := kinds[f].pipe;
      CountSet(PipeRefs(pipes), p, pipes'[p].ref, 0);
      assert PipeRefs(pipes') == PipeRefs(pipes)[p := pipes'[p].ref];
    }
  }

  ghost predicate CanPipe(refs: seq<nat>, pipes: seq<PipeSlot>) {
    && (exists f, g :: 0 <= f < g < |refs| && refs[f] == 0 && refs[g] == 0)
    && (exists p :: 0 <= p < |pipes| && pipes[p].ref == 0)
  }

  lemma TwoFree(refs: seq<nat>, f: nat, g: nat)
    requires First(refs, 0, f) && f < |refs| && First(refs[f := 1], 0, g)
    ensures g < |refs| <==> exists i, j :: 0 <= i < j < |refs| && refs[i] == 0 && refs[j] == 0
  {
    if g < |refs| {
      assert refs[g] == 0 && f < g;
    } else {
      assert forall j :: 0 <= j < |refs| && j != f ==> refs[f := 1][j] == refs[j];
    }
  }

  class FileTable {
    var refs: seq<nat>
    var kinds: seq<Kind>
    var pipes: seq<PipeSlot>
    var slots: seq<seq<nat>>
    ghost var loose: seq<int>

    ghost predicate Valid()
      reads this
    {
      Counted(refs, slots, loose) && EndsMatch(refs, kinds, pipes)
    }

    /** No system call is in progress. */
    ghost predicate AtRest()
      reads this
    {
      Valid() && NoLoose(loose)
    }

    constructor ()
      ensures AtRest() && (forall t: nat, d: nat :: t < NUM_IDS && d < NOFILE ==> slots[t][d] == NFILE)
    {
      refs, kinds, pipes := seq(NFILE, _ => 0), seq(NFILE, _ => FdNone), seq(NPIPE, _ => PipeSlot(0, false, false));
      slots := seq(NUM_IDS, _ => seq(NOFILE, _ => NFILE));
      loose := seq(NFILE, _ => 0);
      new;
      forall f | 0 <= f < NFILE ensures Holders(slots, f) == {} {
      }
    }

    /** file_alloc: the first free file, or NFILE. */
    method FileAlloc() returns (f: nat)
      requires Valid()
      modifies this`refs, this`loose
      ensures Valid() && First(old(refs), 0, f)
      ensures f == NFILE ==> refs == old(refs) && loose == old(loose)
      ensures f < NFILE ==> refs == old(refs)[f := 1] && loose == old(loose)[f := old(loose)[f] + 1]
      ensures f < NFILE ==> kinds[f] == FdNone
    {
      hide Holders;
      f := 0;
      while f < NFILE
        invariant 0 <= f <= NFILE && refs == old(refs) && loose == old(loose)
        invariant forall k :: 0 <= k < f ==> refs[k] != 0
      {
        if refs[f] == 0 {
          RefMore(refs, kinds, pipes, slots, loose, f);
          refs := refs[f := 1];
          loose := loose[f := loose[f] + 1];
          return;
        }
        f := f + 1;
      }
    }

    /** file_dup */
    method FileDup(f: nat)
      requires Valid() && f < NFILE && refs[f] >= 1
      modifies this`refs, this`loose
      ensures Valid() && refs == old(refs)[f := old(refs)[f] + 1] && loose == old(loose)[f := old(loose)[f] + 1]
    {
      hide Counted, EndsMatch;
      Shapes(refs, kinds, pipes, slots, loose);
      RefMore(refs, kinds, pipes, slots, loose, f);
      refs := refs[f := refs[f] + 1];
      loose := loose[f := loose[f] + 1];
    }

    /** file_close. `last` is what the file was if this was its last reference: an end of a pipe, whose other side
        pipe_close then wakes, or an inode, which is then put. */
    method FileClose(f: nat) returns (last: Kind)
      requires Valid() && f < NFILE && refs[f] >= 1
      modifies this`refs, this`kinds, this`pipes, this`loose
      ensures Valid() && refs == old(refs)[f := old(refs)[f] - 1] && loose == old(loose)[f := old(loose)[f] - 1]
      ensures kinds == ClosedKinds(old(refs), old(kinds), f)
      ensures pipes == ClosedPipes(old(refs), old(kinds), old(pipes), f)
      ensures last == if old(refs)[f] == 1 then old(kinds)[f] else FdNone
    {
      hide Counted, EndsMatch, Closed;
      Shapes(refs, kinds, pipes, slots, loose);
      CloseKeeps(refs, kinds, pipes, f);
      RefLess(refs, slots, loose, f);
      refs := refs[f := refs[f] - 1];
      loose := loose[f := loose[f] - 1];
      if refs[f] > 0 {
        return FdNone;
      }
      last := kinds[f];
      kinds := kinds[f := FdNone];
      if last.FdPipe? {
        pipes := pipes[last.pipe := Closed(pipes[last.pipe], last.writable)];
      }
    }

    /** pipe_alloc: two new files for the two ends of a free pipe, or nothing at all. */
    method PipeAlloc() returns (ok: bool, rf: nat, wf: nat, ghost p: nat)
      requires Valid()
      modifies this`refs, this`kinds, this`pipes, this`loose
      ensures Valid() && (ok <==> CanPipe(old(refs), old(pipes)))
      ensures !ok ==> refs == old(refs) && kinds == old(kinds) && pipes == old(pipes) && loose == old(loose)
      ensures ok ==> NewPipe(old(refs), old(kinds), old(pipes), old(loose), refs, kinds, pipes, loose, rf, wf, p)
    {
      hide Counted, EndsMatch;
      Shapes(refs, kinds, pipes, slots, loose);
      ok, wf, p := false, NFILE, 0;
      rf := FileAlloc();
      if rf == NFILE {
        return;
      }
      wf := FileAlloc();
      TwoFree(old(refs), rf, wf);
      if wf == NFILE {
        var _ := FileClose(rf);
        return;
      }
      var i := FreePipe();
      if i == NPIPE {
        var _ := FileClose(rf);
        var _ := FileClose(wf);
        return;
      }
      PipeMade(refs, kinds, pipes, rf, wf, i);
      pipes := pipes[i := PipeSlot(2, true, true)];
      kinds := kinds[rf := FdPipe(i, false)];
      kinds := kinds[wf := FdPipe(i, true)];
      ok, p := true, i;
    }

    /** The scan of the pipe cache. */
    method FreePipe() returns (i: nat)
      requires |pipes| == NPIPE
      ensures i <= NPIPE && (i < NPIPE ==> pipes[i].ref == 0)
      ensures i == NPIPE ==> forall p :: 0 <= p < NPIPE ==> pipes[p].ref != 0
    {
      i := 0;
      while i < NPIPE
        invariant 0 <= i <= NPIPE && forall p :: 0 <= p < i ==> pipes[p].ref != 0
      {
        if pipes[i].ref == 0 {
          return;
        }
        i := i + 1;
      }
    }

    /** fdalloc: put a file the caller holds into the first free slot of thread `t`. */
    method FdAlloc(t: nat, f: nat) returns (fd: int)
      requires Valid() && t < NUM_IDS && f < NFILE
      modifies this`slots, this`loose
      ensures Valid()
      ensures fd == -1 ==> NFILE !in old(slots)[t] && slots == old(slots) && loose == old(loose)
      ensures fd != -1 ==> 0 <= fd < NOFILE && First(old(slots)[t], NFILE, fd)
      ensures fd != -1 ==> slots == WithSlot(old(slots), t, fd, f) && loose == old(loose)[f := old(loose)[f] - 1]
    {
      hide Counted, EndsMatch;
      Shapes(refs, kinds, pipes, slots, loose);
      var idx := 0;
      while idx < NOFILE
        invariant 0 <= idx <= NOFILE && slots == old(slots) && loose == old(loose)
        invariant forall k :: 0 <= k < idx ==> slots[t][k] != NFILE
      {
        if slots[t][idx] == NFILE {
          SlotFilled(refs, slots, loose, t, idx, f);
          slots := WithSlot(slots, t, idx, f);
          loose := loose[f := loose[f] - 1];
          return idx;
        }
        idx := idx + 1;
      }
      return -1;
    }

    /** sys_pipe: the first two free slots of `t` get the two ends of a new pipe, or nothing changes. */
    method SysPipe(t: nat) returns (ok: bool, r: int, w: int, ghost p: nat)
      requires AtRest() && t < NUM_IDS
      modifies this
      ensures AtRest()
      ensures ok <==> CanPipe(old(refs), old(pipes)) && TwoSlots(old(slots)[t])
      ensures ok ==> FreeFiles(refs) + 2 == FreeFiles(old(refs)) && FreePipes(pipes) + 1 == FreePipes(old(pipes))
      ensures !ok ==> refs == old(refs) && kinds == old(kinds) && pipes == old(pipes) && slots == old(slots)
      ensures ok ==> 0 <= r < NOFILE && 0 <= w < NOFILE && r != w && p < NPIPE && old(pipes)[p].ref == 0
      ensures ok ==> exists rf: nat, wf: nat ::
                rf < NFILE && wf < NFILE && old(refs)[rf] == 0 && old(refs)[wf] == 0 && rf != wf &&
                       kinds == old(kinds)[rf := FdPipe(p, false)][wf := FdPipe(p, true)] &&
                       SlotsShaped(old(slots)) && slots == WithSlot(WithSlot(old(slots), t, r, rf), t, w, wf)
      ensures ok ==> First(old(slots)[t], NFILE, r) && r < w && old(slots)[t][w] == NFILE && forall k :: r < k < w ==>
                old(slots)[t][k] != NFILE
    {
      hide Counted, EndsMatch;
      Shapes(refs, kinds, pipes, slots, loose);
      var rf, wf;
      r, w := -1, -1;
      ok, rf, wf, p := PipeAlloc();
      if !ok {
        return;
      }
      r := FdAlloc(t, rf);
      if r < 0 {
        CloseBoth(rf, wf, p, old(refs), old(kinds), old(pipes), old(loose));
        ok := false;
        return;
      }
      SecondSlot(old(slots), t, r, rf);
      PipeTaken(old(refs), old(pipes), rf, wf, p);
      w := FdAlloc(t, wf);
      if w < 0 {
        SlotEmptied(refs, slots, loose, t, r, rf);
        slots := WithSlot(slots, t, r, NFILE);
        loose := loose[rf := loose[rf] + 1];
        CloseBoth(rf, wf, p, old(refs), old(kinds), old(pipes), old(loose));
        ok := false;
        return;
      }
    }

    /** The error exits of sys_pipe: closing both ends of a new pipe undoes pipe_alloc. */
    method CloseBoth(rf: nat, wf: nat, ghost p: nat, ghost refs0: seq<nat>, ghost kinds0: seq<Kind>,
                     ghost pipes0: seq<PipeSlot>, ghost loose0: seq<int>)
      requires Valid() && EndsMatch(refs0, kinds0, pipes0)
      requires NewPipe(refs0, kinds0, pipes0, loose0, refs, kinds, pipes, loose, rf, wf, p)
      modifies this`refs, this`kinds, this`pipes, this`loose
      ensures Valid() && refs == refs0 && kinds == kinds0 && pipes == pipes0 && loose == loose0
    {
      hide Counted;
      assert kinds0[rf] == kinds0[wf] == FdNone && pipes0[p] == PipeSlot(0, false, false);
      hide EndsMatch;
      var _ := FileClose(rf);
      var _ := FileClose(wf);
    }

    /** sys_close */
    method SysClose(t: nat, fd: nat) returns (ok: bool, last: Kind)
      requires AtRest() && t < NUM_IDS
      modifies this
      ensures AtRest() && SlotsShaped(old(slots)) && (ok <==> fd < NOFILE && old(slots)[t][fd] != NFILE)
      ensures !ok ==> refs == old(refs) && kinds == old(kinds) && pipes == old(pipes) && slots == old(slots)
      ensures ok ==> slots == WithSlot(old(slots), t, fd, NFILE) && |old(refs)| == |old(kinds)| == NFILE
      ensures ok ==> var f := old(slots)[t][fd];
                     && kinds == ClosedKinds(old(refs), old(kinds), f)
                     && pipes == ClosedPipes(old(refs), old(kinds), old(pipes), f)
                     && last == if old(refs)[f] == 1 then old(kinds)[f] else FdNone
      ensures FreeFiles(refs) >= FreeFiles(old(refs)) && FreePipes(pipes) >= FreePipes(old(pipes))
    {
      hide Counted, EndsMatch;
      Shapes(refs, kinds, pipes, slots, loose);
      if fd >= NOFILE {
        return false, FdNone;
      }
      var f := slots[t][fd];
      if f == NFILE {
        return false, FdNone;
      }
      HolderCounts(refs, slots, loose, t, fd);
      last := FileClose(f);
      FileGivenBack(old(refs), old(kinds), old(pipes), f);
      SlotEmptied(refs, slots, loose, t, fd, f);
      slots := WithSlot(slots, t, fd, NFILE);
      loose := loose[f := loose[f] + 1];
      ok := true;
    }

    /** The descriptor part of sys_open, once the path was found to lead to inode `ip`. */
    method SysOpen(t: nat, ip: nat) returns (fd: int)
      requires AtRest() && t < NUM_IDS
      modifies this
      ensures AtRest() && SlotsShaped(old(slots))
      ensures fd == -1 <==> !(0 in old(refs) && NFILE in old(slots)[t])
      ensures fd == -1 ==> refs == old(refs) && kinds == old(kinds) && pipes == old(pipes) && slots == old(slots)
      ensures fd != -1 ==> 0 <= fd < NOFILE && First(old(slots)[t], NFILE, fd) && pipes == old(pipes)
      ensures fd != -1 ==> FreeFiles(refs) + 1 == FreeFiles(old(refs))
      ensures fd != -1 ==> exists f: nat ::
                f < NFILE && First(old(refs), 0, f) && kinds == old(kinds)[f := FdInode(ip)] &&
                slots == WithSlot(old(slots), t, fd, f)
    {
      hide Counted, EndsMatch;
      Shapes(refs, kinds, pipes, slots, loose);
      var f := FileAlloc();
      if f == NFILE {
        return -1;
      }
      fd := FdAlloc(t, f);
      if fd < 0 {
        var _ := FileClose(f);
        return;
      }
      CountSet(old(refs), f, 1, 0);
      KindSet(refs, kinds, pipes, f, FdInode(ip));
      kinds := kinds[f := FdInode(ip)];
    }

    /** sys_spawn and console_init_fds: a new console file in a free slot, if there is a free file. */
    method ConsoleFd(t: nat, d: nat, kind: Kind)
      requires AtRest() && t < NUM_IDS && d < NOFILE && slots[t][d] == NFILE && !kind.FdPipe? && !kind.FdNone?
      modifies this
      ensures AtRest() && pipes == old(pipes) && SameFiles(old(refs), old(kinds), refs, kinds)
      ensures exists f: nat ::
        f <= NFILE && First(old(refs), 0, f) && SlotsShaped(old(slots)) &&
        slots == WithSlot(old(slots), t, d, f) && (f < NFILE ==> kinds[f] == kind && refs[f] > 0)
      ensures SlotsShaped(old(slots)) && SlotsShaped(slots) && (slots[t][d] == NFILE ==> NoFile(refs))
      ensures slots[t][d] == NFILE <==> FreeFiles(old(refs)) == 0
      ensures FreeFiles(refs) == if FreeFiles(old(refs)) == 0 then 0 else FreeFiles(old(refs)) - 1
    {
      hide Counted, EndsMatch;
      Shapes(refs, kinds, pipes, slots, loose);
      CountSome(refs, 0);
      var f := FileAlloc();
      if f < NFILE {
        CountSet(old(refs), f, 1, 0);
        KindSet(refs, kinds, pipes, f, kind);
        kinds := kinds[f := kind];
        SlotFilled(refs, slots, loose, t, d, f);
        slots := WithSlot(slots, t, d, f);
        loose := loose[f := loose[f] - 1];
      } else {
        assert slots[t] == WithSlot(slots, t, d, f)[t];
        assert slots == WithSlot(slots, t, d, f);
      }
    }

    /** sys_spawn: slot `d` of the child gets the file of a descriptor of the parent. */
    method InheritFd(parent: nat, fd: nat, child: nat, d: nat)
      requires AtRest() && parent < NUM_IDS && child < NUM_IDS && fd < NOFILE && d < NOFILE
      requires slots[parent][fd] != NFILE && slots[child][d] == NFILE
      modifies this
      ensures AtRest() && kinds == old(kinds) && pipes == old(pipes) && SlotsShaped(old(slots))
      ensures SameFiles(old(refs), old(kinds), refs, kinds)
      ensures slots == WithSlot(old(slots), child, d, old(slots)[parent][fd])
      ensures FreeFiles(refs) == FreeFiles(old(refs))
    {
      hide Counted, EndsMatch;
      Shapes(refs, kinds, pipes, slots, loose);
      HolderCounts(refs, slots, loose, parent, fd);
      var f := slots[parent][fd];
      FileDup(f);
      CountSet(old(refs), f, refs[f], 0);
      SlotFilled(refs, slots, loose, child, d, f);
      slots := WithSlot(slots, child, d, f);
      loose := loose[f := loose[f] - 1];
    }

    /** Console files in the first three slots, as far as there are free files. */
    method ConsoleFds(t: nat)
      requires AtRest() && t < NUM_IDS && forall d :: 0 <= d < 3 ==> slots[t][d] == NFILE
      modifies this
      ensures AtRest() && pipes == old(pipes) && SlotsShaped(old(slots))
      ensures SameFiles(old(refs), old(kinds), refs, kinds)
      ensures slots == old(slots)[t := slots[t]] && forall d :: 3 <= d < NOFILE ==> slots[t][d] == old(slots)[t][d]
      ensures forall d :: 0 <= d < 3 ==>
                slots[t][d] == NFILE || kinds[slots[t][d]] == (if d == 0 then FdConsoleIn else FdConsoleOut)
      ensures forall d :: 0 <= d < 3 ==> slots[t][d] == NFILE ==> NoFile(refs)
      ensures forall d :: 0 <= d < 3 ==> (slots[t][d] == NFILE <==> FreeFiles(old(refs)) <= d)
      ensures FreeFiles(refs) + 3 >= FreeFiles(old(refs))
    {
      hide Counted, EndsMatch, First, FreeFiles;
      Shapes(refs, kinds, pipes, slots, loose);
      ConsoleFd(t, 0, FdConsoleIn);
      ConsoleFd(t, 1, FdConsoleOut);
      ConsoleFd(t, 2, FdConsoleOut);
    }

    /** The descriptors of a new child in sys_spawn. A child gets an end of a pipe only if its parent passes it. */
    method SpawnFds(parent: nat, child: nat, stdin: int, stdout: int)
      requires AtRest() && parent < NUM_IDS && child < NUM_IDS && parent != child
      requires forall d :: 0 <= d < NOFILE ==> slots[child][d] == NFILE
      modifies this
      ensures AtRest() && pipes == old(pipes) && SlotsShaped(old(slots))
      ensures SameFiles(old(refs), old(kinds), refs, kinds)
      ensures slots == old(slots)[child := slots[child]]
      ensures Passes(old(slots)[parent], stdin) ==> slots[child][0] == old(slots)[parent][stdin]
      ensures Passes(old(slots)[parent], stdout) ==> slots[child][1] == old(slots)[parent][stdout]
      ensures !Passes(old(slots)[parent], stdin) ==>
                slots[child][0] == NFILE || (stdin == -1 && kinds[slots[child][0]] == FdConsoleIn)
      ensures !Passes(old(slots)[parent], stdout) ==>
                slots[child][1] == NFILE || (stdout == -1 && kinds[slots[child][1]] == FdConsoleOut)
      ensures forall d :: 2 <= d < NOFILE ==>
                slots[child][d] == NFILE || (d == 2 && stdin == stdout == -1 && kinds[slots[child][d]] == FdConsoleOut)
      ensures stdin == -1 && slots[child][0] == NFILE ==> NoFile(refs)
      ensures stdout == -1 && slots[child][1] == NFILE ==> NoFile(refs)
      ensures stdin == stdout == -1 && slots[child][2] == NFILE ==> NoFile(refs)
      ensures stdin == -1 ==> (slots[child][0] == NFILE <==> FreeFiles(old(refs)) == 0)
      ensures stdout == -1 ==> (slots[child][1] == NFILE <==> FreeFiles(old(refs)) <= if stdin == -1 then 1 else 0)
      ensures stdin == stdout == -1 ==> (slots[child][2] == NFILE <==> FreeFiles(old(refs)) <= 2)
      ensures FreeFiles(refs) + Consoles(stdin, stdout) >= FreeFiles(old(refs))
    {
      hide Counted, EndsMatch, FreeFiles;
      Shapes(refs, kinds, pipes, slots, loose);
      if stdin == -1 && stdout == -1 {
        ConsoleFds(child);
      } else {
        if 0 <= stdin < NOFILE && slots[parent][stdin] != NFILE {
          InheritFd(parent, stdin, child, 0);
        } else if stdin == -1 {
          ConsoleFd(child, 0, FdConsoleIn);
        }
        if 0 <= stdout < NOFILE && slots[parent][stdout] != NFILE {
          InheritFd(parent, stdout, child, 1);
        } else if stdout == -1 {
          ConsoleFd(child, 1, FdConsoleOut);
        }
      }
    }

    /** sys_exit closes every descriptor. */
    method CloseAll(t: nat)
      requires AtRest() && t < NUM_IDS
      modifies this
      ensures AtRest() && |old(slots)| == NUM_IDS && slots == old(slots)[t := slots[t]]
      ensures forall d :: 0 <= d < NOFILE ==> slots[t][d] == NFILE
    {
      hide Counted, EndsMatch;
      Shapes(refs, kinds, pipes, slots, loose);
      var i := 0;
      while i < NOFILE
        invariant 0 <= i <= NOFILE && AtRest() && SlotsShaped(slots) && slots == old(slots)[t := slots[t]]
        invariant forall d :: 0 <= d < i ==> slots[t][d] == NFILE
      {
        if slots[t][i] != NFILE {
          var _, _ := SysClose(t, i);
          Shapes(refs, kinds, pipes, slots, loose);
        }
        i := i + 1;
      }
    }
  }

  /** Console files that sys_spawn asks for. */
  function Consoles(stdin: int, stdout: int): nat {
    if stdin == stdout == -1 then 3 else (if stdin == -1 then 1 else 0) + (if stdout == -1 then 1 else 0)
  }

  /** `fd` is a descriptor in use. */
  predicate Passes(fds: seq<nat>, fd: int) {
    0 <= fd < |fds| && fds[fd] != NFILE
  }

  /** Files in use stay in use and keep their kind. */
  ghost predicate SameFiles(refs: seq<nat>, kinds: seq<Kind>, refs': seq<nat>, kinds': seq<Kind>) {
    |kinds'| == |kinds| == |refs| == |refs'| && forall f :: 0 <= f < |kinds| && refs[f] > 0 ==>
      refs'[f] > 0 && kinds'[f] == kinds[f]
  }

  /** Two free descriptors. */
  ghost predicate TwoSlots(fds: seq<nat>) {
    exists i, j :: 0 <= i < j < |fds| && fds[i] == NFILE && fds[j] == NFILE
  }

  lemma SecondSlot(slots: seq<seq<nat>>, t: nat, r: nat, rf: nat)
    requires SlotsShaped(slots) && t < NUM_IDS && r < NOFILE && First(slots[t], NFILE, r) && rf < NFILE
    ensures var slots' := WithSlot(slots, t, r, rf);
            && (NFILE in slots'[t] <==> TwoSlots(slots[t])) && WithSlot(slots', t, r, NFILE) == slots
            && forall w: nat :: w < NOFILE && First(slots'[t], NFILE, w) ==>
                 r < w && forall k :: r < k < w ==> slots[t][k] != NFILE
  {
    var slots' := WithSlot(slots, t, r, rf);
    assert WithSlot(slots', t, r, NFILE)[t] == slots[t];
    if i, j :| 0 <= i < j < NOFILE && slots[t][i] == NFILE && slots[t][j] == NFILE {
      assert slots'[t][j] == NFILE;
    }
    if NFILE in slots'[t] {
      var j :| 0 <= j < NOFILE && slots'[t][j] == NFILE;
      assert r < j && slots[t][r] == NFILE && slots[t][j] == NFILE;
    }
    forall w: nat | w < NOFILE && First(slots'[t], NFILE, w)
      ensures r < w && forall k :: r < k < w ==> slots[t][k] != NFILE
    {
      forall k | r < k < w ensures slots[t][k] != NFILE {
        assert slots'[t][k] != NFILE;
      }
    }
  }

  lemma HolderCounts(refs: seq<nat>, slots: seq<seq<nat>>, loose: seq<int>, t: nat, d: nat)
    requires Counted(refs, slots, loose) && NoLoose(loose) && t < NUM_IDS && d < NOFILE && slots[t][d] < NFILE
    ensures refs[slots[t][d]] > 0
  {
    assert (t, d) in Holders(slots, slots[t][d]);
  }

  /** Files `rf` and `wf` were free and are now the ends of pipe `p`, which was free. */
  ghost predicate NewPipe(refs: seq<nat>, kinds: seq<Kind>, pipes: seq<PipeSlot>, loose: seq<int>,
                          refs': seq<nat>, kinds': seq<Kind>, pipes': seq<PipeSlot>, loose': seq<int>, rf: nat, wf: nat,
                          p: nat) {
    && |refs| == |kinds| == |loose| == NFILE && |pipes| == NPIPE && rf < NFILE && wf < NFILE && rf != wf && p < NPIPE
    && refs[rf] == refs[wf] == 0 && pipes[p].ref == 0
    && refs' == refs[rf := 1][wf := 1] && loose' == loose[rf := loose[rf] + 1][wf := loose[wf] + 1]
    && kinds' == kinds[rf := FdPipe(p, false)][wf := FdPipe(p, true)] && pipes' == pipes[p := PipeSlot(2, true, true)]
  }
}
