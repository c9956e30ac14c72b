/** Which descriptors point at which end of which pipe, and how the system calls change that. */
module Wiring {
  import opened Params
  import opened Descriptors

  /** The descriptors, as (thread, fd), for the given end of pipe `p`. */
  ghost function Ends(kinds: seq<Kind>, slots: seq<seq<nat>>, p: nat, w: bool): (e: set<(nat, int)>)
    requires SlotsShaped(slots) && |kinds| == NFILE
  {
    set t: nat, d: nat | t < NUM_IDS && d < NOFILE && IsEnd(kinds, slots[t][d], p, w) :: (t, d as int)
  }

  predicate IsEnd(kinds: seq<Kind>, f: nat, p: nat, w: bool) {
    f < |kinds| && kinds[f] == FdPipe(p, w)
  }

  /** Every file that a slot other than (t, d) points at keeps its kind. */
  ghost predicate KindsKept(kinds: seq<Kind>, kinds': seq<Kind>, slots: seq<seq<nat>>, t: nat, d: nat) {
    && SlotsShaped(slots) && |kinds| == |kinds'| == NFILE
    && forall u: nat, e: nat :: u < NUM_IDS && e < NOFILE && (u, e) != (t, d) && slots[u][e] < NFILE ==>
         kinds'[slots[u][e]] == kinds[slots[u][e]]
  }

  /** One slot is repointed. */
  lemma EndsSlot(kinds: seq<Kind>, kinds': seq<Kind>, slots: seq<seq<nat>>, t: nat, d: nat, f: nat, p: nat, w: bool)
    requires KindsKept(kinds, kinds', slots, t, d) && t < NUM_IDS && d < NOFILE && f <= NFILE
    ensures SlotsShaped(WithSlot(slots, t, d, f))
    ensures Ends(kinds', WithSlot(slots, t, d, f), p, w) ==
            Ends(kinds, slots, p, w) - {(t, d as int)} + (if IsEnd(kinds', f, p, w) then {(t, d as int)} else {})
  {
    var slots' := WithSlot(slots, t, d, f);
    forall u: nat, e: nat | u < NUM_IDS && e < NOFILE
      ensures IsEnd(kinds', slots'[u][e], p, w) <==>
              if (u, e) == (t, d) then IsEnd(kinds', f, p, w) else IsEnd(kinds, slots[u][e], p, w)
    {
      if (u, e) != (t, d) {
        assert slots'[u][e] == slots[u][e];
      }
    }
  }

  /** New kinds for files that nobody refers to. */
  lemma FreshKinds(refs: seq<nat>, kinds: seq<Kind>, slots: seq<seq<nat>>, loose: seq<int>, kinds': seq<Kind>, t: nat,
                   d: nat)
    requires Counted(refs, slots, loose) && NoLoose(loose) && |kinds| == |kinds'| == NFILE
    requires forall f :: 0 <= f < NFILE && refs[f] > 0 ==> kinds'[f] == kinds[f]
    ensures KindsKept(kinds, kinds', slots, t, d)
  {
    hide Holders;
    forall u: nat, e: nat | u < NUM_IDS && e < NOFILE && slots[u][e] < NFILE ensures refs[slots[u][e]] > 0 {
      HolderCounts(refs, slots, loose, u, e);
    }
  }

  /** sys_pipe: two descriptors for the ends of a pipe that had none. */
  lemma PipeEnds(refs: seq<nat>, kinds: seq<Kind>, pipes: seq<PipeSlot>, slots: seq<seq<nat>>, loose: seq<int>,
                 t: nat, r: nat, wr: nat, rf: nat, wf: nat, p: nat, q: nat, w: bool)
    requires Counted(refs, slots, loose) && NoLoose(loose) && EndsMatch(refs, kinds, pipes) && p < NPIPE
    requires pipes[p].ref == 0
    requires t < NUM_IDS && r < NOFILE && wr < NOFILE && r != wr && slots[t][r] == slots[t][wr] == NFILE
    requires rf < NFILE && wf < NFILE && rf != wf && refs[rf] == refs[wf] == 0
    ensures var kinds' := kinds[rf := FdPipe(p, false)][wf := FdPipe(p, true)];
            var slots' := WithSlot(WithSlot(slots, t, r, rf), t, wr, wf);
            && SlotsShaped(slots')
            && Ends(kinds', slots', q, w) ==
                 if q == p then {(t, (if w then wr else r) as int)} else Ends(kinds, slots, q, w)
  {
    hide Counted, EndsMatch, Held, Ends;
    Shapes(refs, kinds, pipes, slots, loose);
    var kinds' := kinds[rf := FdPipe(p, false)][wf := FdPipe(p, true)];
    FreshKinds(refs, kinds, slots, loose, kinds', t, r);
    EndsSlot(kinds, kinds', slots, t, r, rf, q, w);
    EndsSlot(kinds', kinds', WithSlot(slots, t, r, rf), t, wr, wf, q, w);
    NotAnEnd(kinds, slots, t, r, q, w);
    NotAnEnd(kinds, slots, t, wr, q, w);
    FreePipe(refs, kinds, pipes, slots, loose, p, w);
  }

  lemma NotAnEnd(kinds: seq<Kind>, slots: seq<seq<nat>>, t: nat, d: nat, p: nat, w: bool)
    requires SlotsShaped(slots) && |kinds| == NFILE && t < NUM_IDS && d < NOFILE
    ensures (t, d as int) in Ends(kinds, slots, p, w) <==> IsEnd(kinds, slots[t][d], p, w)
  {
  }

  lemma FreePipe(refs: seq<nat>, kinds: seq<Kind>, pipes: seq<PipeSlot>, slots: seq<seq<nat>>, loose: seq<int>, p: nat,
                 w: bool)
    requires Counted(refs, slots, loose) && NoLoose(loose) && EndsMatch(refs, kinds, pipes) && p < NPIPE
    requires pipes[p].ref == 0
    ensures Ends(kinds, slots, p, w) == {}
  {
    hide Counted;
    Shapes(refs, kinds, pipes, slots, loose);
    assert !Open(pipes[p], w);
  }

  /** sys_open makes no difference. */
  lemma OpenEnds(refs: seq<nat>, kinds: seq<Kind>, slots: seq<seq<nat>>, loose: seq<int>, t: nat, d: nat, f: nat,
                 ip: nat, q: nat, w: bool)
    requires Counted(refs, slots, loose) && NoLoose(loose) && |kinds| == NFILE
    requires t < NUM_IDS && d < NOFILE && slots[t][d] == NFILE && f < NFILE && refs[f] == 0
    ensures SlotsShaped(WithSlot(slots, t, d, f))
    ensures Ends(kinds[f := FdInode(ip)], WithSlot(slots, t, d, f), q, w) == Ends(kinds, slots, q, w)
  {
    hide Counted, Ends;
    FreshKinds(refs, kinds, slots, loose, kinds[f := FdInode(ip)], t, d);
    EndsSlot(kinds, kinds[f := FdInode(ip)], slots, t, d, f, q, w);
    NotAnEnd(kinds, slots, t, d, q, w);
  }

  /** sys_close takes one descriptor away. */
  lemma CloseEnds(refs: seq<nat>, kinds: seq<Kind>, slots: seq<seq<nat>>, loose: seq<int>, t: nat, d: nat, q: nat,
                  w: bool)
    requires Counted(refs, slots, loose) && NoLoose(loose) && |kinds| == NFILE
    requires t < NUM_IDS && d < NOFILE && slots[t][d] < NFILE
    ensures SlotsShaped(WithSlot(slots, t, d, NFILE))
    ensures Ends(ClosedKinds(refs, kinds, slots[t][d]), WithSlot(slots, t, d, NFILE), q, w) ==
            Ends(kinds, slots, q, w) - {(t, d as int)}
  {
    hide Ends;
    ClosedKept(refs, kinds, slots, loose, t, d);
    EndsSlot(kinds, ClosedKinds(refs, kinds, slots[t][d]), slots, t, d, NFILE, q, w);
  }

  /** A file that another descriptor points at outlives the close. */
  lemma ClosedKept(refs: seq<nat>, kinds: seq<Kind>, slots: seq<seq<nat>>, loose: seq<int>, t: nat, d: nat)
    requires Counted(refs, slots, loose) && NoLoose(loose) && |kinds| == NFILE
    requires t < NUM_IDS && d < NOFILE && slots[t][d] < NFILE
    ensures KindsKept(kinds, ClosedKinds(refs, kinds, slots[t][d]), slots, t, d)
  {
    var f := slots[t][d];
    forall u: nat, e: nat | u < NUM_IDS && e < NOFILE && (u, e) != (t, d) && slots[u][e] == f ensures refs[f] != 1 {
      TwoHolders(slots, f, t, d, u, e);
    }
  }

  lemma TwoHolders(slots: seq<seq<nat>>, f: nat, t: nat, d: nat, u: nat, e: nat)
    requires SlotsShaped(slots) && t < NUM_IDS && d < NOFILE && u < NUM_IDS && e < NOFILE && (u, e) != (t, d)
    requires slots[t][d] == slots[u][e] == f
    ensures |Holders(slots, f)| != 1
  {
    var h := Holders(slots, f);
    var rest := h - {(t, d)};
    assert (t, d) in h && h == rest + {(t, d)} && (u, e) in rest;
    assert |h| == |rest| + 1 && |rest| > 0;
  }

  /** A new child has the ends that its parent passes as its standard input and output, and no others. */
  lemma SpawnEnds(refs: seq<nat>, kinds: seq<Kind>, slots: seq<seq<nat>>, loose: seq<int>, kinds': seq<Kind>,
                  slots': seq<seq<nat>>, parent: nat, child: nat, stdin: int, stdout: int, q: nat, w: bool)
    requires Counted(refs, slots, loose) && NoLoose(loose) && |kinds| == |kinds'| == NFILE && SlotsShaped(slots')
    requires parent < NUM_IDS && child < NUM_IDS && parent != child
    requires forall f :: 0 <= f < NFILE && refs[f] > 0 ==> kinds'[f] == kinds[f]
    requires forall d :: 0 <= d < NOFILE ==> slots[child][d] == NFILE
    requires slots' == slots[child := slots'[child]]
    requires ChildSlot(kinds', slots[parent], stdin, slots'[child][0])
    requires ChildSlot(kinds', slots[parent], stdout, slots'[child][1])
    requires forall d :: 2 <= d < NOFILE ==> slots'[child][d] == NFILE || !kinds'[slots'[child][d]].FdPipe?
    ensures Ends(kinds', slots', q, w) == Ends(kinds, slots, q, w)
              + (if (parent, stdin) in Ends(kinds, slots, q, w) then {(child, 0)} else {})
              + (if (parent, stdout) in Ends(kinds, slots, q, w) then {(child, 1)} else {})
  {
    hide Counted, Holders;
    FreshKinds(refs, kinds, slots, loose, kinds', child, 0);
    forall t: nat, d: nat | t < NUM_IDS && d < NOFILE && t != child
      ensures slots'[t][d] == slots[t][d] && (IsEnd(kinds', slots'[t][d], q, w) <==> IsEnd(kinds, slots[t][d], q, w))
    {
    }
  }

  /** Slot `f` of a child is what descriptor `fd` of its parent is, or not a pipe. */
  predicate ChildSlot(kinds: seq<Kind>, fds: seq<nat>, fd: int, f: nat) {
    if Passes(fds, fd) then f == fds[fd] else f >= |kinds| || !kinds[f].FdPipe?
  }

  /** An end is held exactly if its set of holders is not empty. */
  lemma HeldExactly(kinds: seq<Kind>, slots: seq<seq<nat>>, p: nat, w: bool)
    requires SlotsShaped(slots) && |kinds| == NFILE
    ensures Held(kinds, slots, p, w) <==> Ends(kinds, slots, p, w) != {}
  {
    if t: nat, d: nat :| t < |slots| && d < |slots[t]| && slots[t][d] < |kinds| && kinds[slots[t][d]] == FdPipe(p, w) {
      assert (t, d as int) in Ends(kinds, slots, p, w);
    }
  }
}
