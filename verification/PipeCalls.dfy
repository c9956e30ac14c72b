/** What whole calls on a shared pipe do, in terms of their arguments: which bytes a write puts in, which bytes a read
    takes out, and who ends up with descriptors for which end. */
module PipeCalls {
  import opened Bytes
  import opened Sequences
  import opened Pipe
  import opened SharedPipe

  /** How many more descriptors for an end thread `t` has after these steps. */
  function Balance(steps: seq<Step>, t: nat, w: bool): int {
    if steps == [] then 0
    else Balance(steps[..|steps| - 1], t, w) + match steps[|steps| - 1]
         case Pass(_, child, v) => if child == t && v == w then 1 else 0
         case Close(u, v) => if u == t && v == w then -1 else 0
         case _ => 0
  }

  lemma StepBalance(s: State, step: Step, t: nat, w: bool)
    requires Enabled(s, step) && t < |s.pcs|
    ensures var e, e' := EndOf(s, w), EndOf(Next(s, step), w);
            && |e.counts| == |e'.counts| == |s.pcs| == |Next(s, step).pcs|
            && e'.counts[t] == e.counts[t] + Balance([step], t, w)
  {
    hide ReadRegion, WriteRegion;
    assert Balance([step][..0], t, w) == 0;
  }

  /** In every run a thread has exactly the descriptors that it had, was passed and has not closed. */
  lemma {:induction false} HoldersCounted(states: seq<State>, steps: seq<Step>, t: nat, w: bool)
    requires IsRun(states, steps) && t < |states[0].pcs|
    ensures |EndOf(states[0], w).counts| == |EndOf(states[|steps|], w).counts| == |states[|steps|].pcs| > t
    ensures EndOf(states[|steps|], w).counts[t] == EndOf(states[0], w).counts[t] + Balance(steps, t, w)
  {
    hide Next, Enabled;
    if |steps| > 0 {
      var n := |steps| - 1;
      var states', steps' := states[..n + 1], steps[..n];
      HoldersCounted(states', steps', t, w);
      StepBalance(states[n], steps[n], t, w);
      assert Balance([steps[n]][..0], t, w) == 0;
    }
  }

  /** The step is a region of a write by `t`. */
  predicate WriteBy(s: State, step: Step, t: nat) {
    match step
    case Write(u, _) => u == t
    case Resume(u) => u == t && t < |s.pcs| && s.pcs[t].Writing?
    case _ => false
  }

  /** A region of a write of `addr` that has `k` bytes in already puts in as many more as fit, in order and behind what
      is there; the call goes on exactly if that is not all and somebody can read. */
  lemma RegionWrites(s: State, step: Step, t: nat, addr: seq<byte>, k: nat)
    requires Enabled(s, step) && t < |s.pcs| && k <= |addr|
    requires (step == Write(t, addr) && k == 0) ||
             (step == Resume(t) && s.pcs[t].Writing? && s.pcs[t].addr == addr && s.pcs[t].i == k)
    ensures var r, m := Next(s, step), Min(|addr| - k, PIPESIZE - |s.inFlight|);
            && r.written == s.written + addr[k..k + m] && r.inFlight == s.inFlight + addr[k..k + m]
            && r.taken == s.taken && r.rd == s.rd && r.wr == s.wr && |r.pcs| == |s.pcs|
            && r.pcs[t] == if k + m < |addr| && s.rd.open then Writing(addr, k + m, true) else Idle
  {
  }

  /** Only a region of a write adds to what has been written, and the other steps leave a write where it is. */
  lemma OthersLeave(s: State, step: Step, t: nat)
    requires Enabled(s, step) && t < |s.pcs| && !WriteBy(s, step, t)
    ensures var r := Next(s, step);
            && |r.pcs| == |s.pcs| && s.written <= r.written
            && (s.pcs[t].Writing? ==> r.pcs[t].Writing? && r.pcs[t].addr == s.pcs[t].addr && r.pcs[t].i == s.pcs[t].i)
            && ((forall u: nat :: !WriteBy(s, step, u)) ==> r.written == s.written)
  {
    hide ReadRegion;
    if step.Resume? {
      assert s.pcs[step.t].Writing? ==> WriteBy(s, step, step.t);
    } else if step.Write? {
      assert WriteBy(s, step, step.t);
    }
  }

  /** The bytes that the regions of writes by `t` have put in from step `i` up to step `j`, in order. */
  ghost function PutBy(states: seq<State>, steps: seq<Step>, t: nat, i: nat, j: nat): seq<byte>
    requires |states| == |steps| + 1 && j <= |steps|
  {
    if j <= i then []
    else PutBy(states, steps, t, i, j - 1) +
           if WriteBy(states[j - 1], steps[j - 1], t) then Added(states[j - 1], states[j]) else []
  }

  /** What one step has added to the bytes written. */
  ghost function Added(s: State, r: State): seq<byte> {
    if s.written <= r.written then r.written[|s.written|..] else []
  }

  /** Where a write of `addr` stands that has put in `put`: still in the call, or returned, and then it has put in
      everything unless nobody can read. */
  ghost predicate Stands(before: State, s: State, t: nat, addr: seq<byte>, put: seq<byte>) {
    && t < |s.pcs| && put <= addr
    && if s.pcs[t].Writing? then s.pcs[t].addr == addr && s.pcs[t].i == |put|
       else s.pcs[t].Idle? && (put == addr || !before.rd.open)
  }

  lemma StandsAfter(s: State, step: Step, t: nat, addr: seq<byte>, put: seq<byte>)
    requires Enabled(s, step) && t < |s.pcs| && put <= addr
    requires || (step == Write(t, addr) && put == [])
             || (s.pcs[t].Writing? && s.pcs[t].addr == addr && s.pcs[t].i == |put|)
    ensures Stands(s, Next(s, step), t, addr,
                   put + if WriteBy(s, step, t) then Added(s, Next(s, step)) else [])
  {
    hide Next, Added, Enabled;
    if WriteBy(s, step, t) {
      CallerWrites(s, step, t);
      RegionWrites(s, step, t, addr, |put|);
      var m := Min(|addr| - |put|, PIPESIZE - |s.inFlight|);
      MoreAdded(s, Next(s, step), addr, put, m);
    } else {
      OthersLeave(s, step, t);
      assert put + [] == put;
    }
  }

  /** A thread that begins a write is in none. */
  lemma CallerWrites(s: State, step: Step, t: nat)
    requires Enabled(s, step) && t < |s.pcs|
    ensures |s.inFlight| <= PIPESIZE && (step.Write? && step.t == t ==> s.pcs[t].Idle?)
  {
  }

  lemma MoreAdded(s: State, r: State, addr: seq<byte>, put: seq<byte>, m: nat)
    requires put <= addr && |put| + m <= |addr| && r.written == s.written + addr[|put|..|put| + m]
    ensures put + Added(s, r) == addr[..|put| + m]
  {
    assert Added(s, r) == addr[|put|..|put| + m];
  }

  /** sys_write on a pipe: whatever else happens meanwhile, the regions of a call put in the bytes of its buffer, from
      the first on, each once and in order; when it returns they are all in, unless nobody can read. */
  lemma {:induction false} WritePutsItsBytes(states: seq<State>, steps: seq<Step>, t: nat, addr: seq<byte>, i: nat,
                                             j: nat)
    requires IsRun(states, steps) && i < j <= |steps| && steps[i] == Write(t, addr)
    requires forall k :: i < k < j ==> t < |states[k].pcs| && states[k].pcs[t].Writing?
    ensures Stands(states[j - 1], states[j], t, addr, PutBy(states, steps, t, i, j))
    decreases j
  {
    hide Next, Added;
    assert Enabled(states[j - 1], steps[j - 1]);
    if i + 1 < j {
      WritePutsItsBytes(states, steps, t, addr, i, j - 1);
      hide Enabled;
      StandsAfter(states[j - 1], steps[j - 1], t, addr, PutBy(states, steps, t, i, j - 1));
    } else {
      assert PutBy(states, steps, t, i, i) == [];
      StandsAfter(states[i], steps[i], t, addr, []);
    }
  }

  /** A region of a read of `n` bytes, in the call or resumed, sleeps on an empty pipe that can still be written, and
      else takes the first bytes in flight, as many as it may, and returns. */
  lemma RegionReads(s: State, step: Step, t: nat, n: nat)
    requires Enabled(s, step) && t < |s.pcs|
    requires step == Read(t, n) || (step == Resume(t) && s.pcs[t].Reading? && s.pcs[t].n == n)
    ensures var r, m := Next(s, step), Min(n, |s.inFlight|);
            && r.written == s.written && r.rd == s.rd && r.wr == s.wr && |r.pcs| == |s.pcs|
            && if s.inFlight == [] && s.wr.open
               then r == s.(pcs := s.pcs[t := Reading(n, true)])
               else r.taken == s.taken + s.inFlight[..m] && r.inFlight == s.inFlight[m..] && r.pcs[t].Idle?
  {
  }

  /** Only a read by some thread takes bytes. */
  lemma OnlyReadsTake(s: State, step: Step)
    requires Enabled(s, step) && Next(s, step).taken != s.taken
    ensures step.Read? || (step.Resume? && s.pcs[step.t].Reading?)
  {
    hide WriteRegion;
  }

  /** pipe_close clears the flag of its end, and no other step clears a flag. */
  lemma ClosesItsEnd(s: State, step: Step, w: bool)
    requires Enabled(s, step)
    ensures EndOf(Next(s, step), w).open == (EndOf(s, w).open && !(step.ClosePipe? && s.pcs[step.t] == Closing(w)))
  {
    hide ReadRegion, WriteRegion;
  }

  /** A signal to the readers, or to the writers, leaves none of them asleep and changes nothing else. */
  lemma SignalWakesThem(s: State, w: bool)
    requires Shaped(s)
    ensures var r := Next(s, if w then SignalWriters else SignalReaders);
            && r == s.(pcs := r.pcs) && |r.pcs| == |s.pcs|
            && forall t :: 0 <= t < |s.pcs| ==>
                 if (if w then s.pcs[t].Writing? else s.pcs[t].Reading?)
                 then !IsAsleep(r.pcs[t]) && (!IsAsleep(s.pcs[t]) ==> r.pcs[t] == s.pcs[t])
                 else r.pcs[t] == s.pcs[t]
  {
  }
}
