/** One pipe shared by any number of readers and writers, as a step system. A step is one region between two
    sleeping points, one of the two critical sections of a close, a descriptor passed to a child, or a wakeup that a
    signal causes. */
module SharedPipe {
  import opened Bytes
  import opened Pipe

  /** What a thread is doing with the pipe. Closing: it has dropped the last reference and is about to enter
      pipe_close. */
  datatype Pc =
    | Idle
    | Reading(n: nat, asleep: bool)
    | Writing(addr: seq<byte>, i: nat, asleep: bool)
    | Closing(writable: bool)

  /** One end of the pipe: `counts[t]` descriptors of thread `t` point at its file, whose reference count is `ref`;
      `open` is the pipe's `readopen` or `writeopen`. */
  datatype End = End(counts: seq<nat>, ref: nat, open: bool)

  /** `written` and `taken` are all bytes ever written and read, in order. */
  datatype State = State(inFlight: seq<byte>, rd: End, wr: End, pcs: seq<Pc>, written: seq<byte>, taken: seq<byte>)

  datatype Step =
    | Read(t: nat, n: nat)
    | Write(t: nat, addr: seq<byte>)
    | Resume(t: nat)
    | Close(t: nat, writable: bool)
    | ClosePipe(t: nat)
    | Pass(t: nat, child: nat, writable: bool)
    | SignalReaders
    | SignalWriters

  function EndOf(s: State, writable: bool): End {
    if writable then s.wr else s.rd
  }

  function WithEnd(s: State, writable: bool, e: End): State {
    if writable then s.(wr := e) else s.(rd := e)
  }

  ghost predicate Shaped(s: State) {
    |s.rd.counts| == |s.wr.counts| == |s.pcs| && |s.inFlight| <= PIPESIZE
  }

  /** Some thread has a descriptor for this end. */
  ghost predicate SomeHolder(counts: seq<nat>) {
    exists t :: 0 <= t < |counts| && counts[t] > 0
  }

  function Sum(counts: seq<nat>): nat {
    if counts == [] then 0 else Sum(counts[..|counts| - 1]) + counts[|counts| - 1]
  }

  lemma {:induction false} SumSet(counts: seq<nat>, t: nat, v: nat)
    requires t < |counts|
    ensures Sum(counts[t := v]) + counts[t] == Sum(counts) + v
  {
    var n := |counts| - 1;
    if t < n {
      SumSet(counts[..n], t, v);
      assert counts[t := v][..n] == counts[..n][t := v];
    } else {
      assert counts[t := v][..n] == counts[..n];
    }
  }

  lemma {:induction false} SumPositive(counts: seq<nat>)
    ensures Sum(counts) > 0 <==> SomeHolder(counts)
  {
    if counts != [] {
      var n := |counts| - 1;
      SumPositive(counts[..n]);
      if SomeHolder(counts[..n]) {
        var t :| 0 <= t < n && counts[..n][t] > 0;
        assert counts[t] > 0;
      }
      if SomeHolder(counts) {
        var t :| 0 <= t < |counts| && counts[t] > 0;
        assert t < n ==> counts[..n][t] > 0;
      }
    }
  }

  /** thread_wakeup(&p->nread) and thread_wakeup(&p->nwrite). */
  function WakeReaders(pcs: seq<Pc>): (r: seq<Pc>)
    ensures |r| == |pcs|
    ensures forall t :: 0 <= t < |pcs| ==> r[t] == if pcs[t].Reading? then Reading(pcs[t].n, false) else pcs[t]
  {
    seq(|pcs|, t requires 0 <= t < |pcs| => if pcs[t].Reading? then Reading(pcs[t].n, false) else pcs[t])
  }

  function WakeWriters(pcs: seq<Pc>): (r: seq<Pc>)
    ensures |r| == |pcs|
    ensures forall t :: 0 <= t < |pcs| ==>
              r[t] == if pcs[t].Writing? then Writing(pcs[t].addr, pcs[t].i, false) else pcs[t]
  {
    seq(|pcs|, t requires 0 <= t < |pcs| => if pcs[t].Writing? then Writing(pcs[t].addr, pcs[t].i, false) else pcs[t])
  }

  /** A region of pipe_read. */
  ghost function ReadOn(s: State, t: nat, n: nat): State
    requires Shaped(s) && t < |s.pcs|
  {
    var r := ReadRegion(s.inFlight, s.wr.open, n);
    if r.sleeps then s.(pcs := s.pcs[t := Reading(n, true)])
    else s.(inFlight := r.inFlight, taken := s.taken + r.bytes, pcs := WakeWriters(s.pcs)[t := Idle])
  }

  /** A region of pipe_write; the -1 exit does not wake the readers. */
  ghost function WriteOn(s: State, t: nat, addr: seq<byte>, i: nat): State
    requires Shaped(s) && t < |s.pcs| && i <= |addr|
  {
    var r := WriteRegion(s.inFlight, s.rd.open, addr, i);
    var pcs := if r.end.Broken? then s.pcs else WakeReaders(s.pcs);
    s.(inFlight := r.inFlight, written := s.written + addr[i..r.i],
       pcs := pcs[t := if r.end.MustSleep? then Writing(addr, r.i, true) else Idle])
  }

  ghost predicate Enabled(s: State, step: Step) {
    Shaped(s) &&
    match step
    case Read(t, n) => t < |s.pcs| && s.pcs[t].Idle? && s.rd.counts[t] > 0
    case Write(t, addr) => t < |s.pcs| && s.pcs[t].Idle? && s.wr.counts[t] > 0
    case Resume(t) =>
      && t < |s.pcs| && (s.pcs[t].Reading? || s.pcs[t].Writing?) && !s.pcs[t].asleep
      && (s.pcs[t].Writing? ==> s.pcs[t].i <= |s.pcs[t].addr|)
    case Close(t, w) => t < |s.pcs| && s.pcs[t].Idle? && EndOf(s, w).counts[t] > 0 && EndOf(s, w).ref > 0
    case ClosePipe(t) => t < |s.pcs| && s.pcs[t].Closing?
    case Pass(t, child, w) =>
      t < |s.pcs| && child < |s.pcs| && s.pcs[t].Idle? && EndOf(s, w).counts[t] > 0 && EndOf(s, w).ref > 0
    case SignalReaders => true
    case SignalWriters => true
  }

  ghost function Next(s: State, step: Step): State
    requires Enabled(s, step)
  {
    match step
    case Read(t, n) => ReadOn(s, t, n)
    case Write(t, addr) => WriteOn(s, t, addr, 0)
    case Resume(t) => if s.pcs[t].Reading? then ReadOn(s, t, s.pcs[t].n) else WriteOn(s, t, s.pcs[t].addr, s.pcs[t].i)
    case Close(t, w) => Dropped(s, t, w)
    case ClosePipe(t) => PipeClosed(s, t, s.pcs[t].writable)
    case Pass(_, child, w) =>
      var e := EndOf(s, w);
      WithEnd(s, w, End(e.counts[child := e.counts[child] + 1], e.ref + 1, e.open))
    case SignalReaders => s.(pcs := WakeReaders(s.pcs))
    case SignalWriters => s.(pcs := WakeWriters(s.pcs))
  }

  /** file_close up to the test of the reference count: only the last reference goes on to pipe_close. */
  function Dropped(s: State, t: nat, w: bool): State
    requires t < |s.pcs| && t < |EndOf(s, w).counts| && EndOf(s, w).counts[t] > 0 && EndOf(s, w).ref > 0
  {
    var e := EndOf(s, w);
    WithEnd(s, w, End(e.counts[t := e.counts[t] - 1], e.ref - 1, e.open)).(
      pcs := if e.ref == 1 then s.pcs[t := Closing(w)] else s.pcs)
  }

  /** pipe_close */
  function PipeClosed(s: State, t: nat, w: bool): State
    requires t < |s.pcs|
  {
    WithEnd(s, w, EndOf(s, w).(open := false)).(
      pcs := (if w then WakeReaders(s.pcs) else WakeWriters(s.pcs))[t := Idle])
  }

  /** A thread inside a call holds the descriptor it uses, and sleeps only while it has to. */
  ghost predicate Alert(s: State, t: nat)
    requires Shaped(s) && t < |s.pcs|
  {
    match s.pcs[t]
    case Idle => true
    case Reading(n, asleep) => s.rd.counts[t] > 0 && (asleep ==> s.inFlight == [] && s.wr.open)
    case Writing(addr, i, asleep) =>
      i <= |addr| && s.wr.counts[t] > 0 && (asleep ==> |s.inFlight| == PIPESIZE && s.rd.open)
    case Closing(w) => EndOf(s, w).ref == 0
  }

  /** The file's count is right, and the flag is set exactly while there are references or the thread that dropped
      the last one has not reached pipe_close. There is at most one such thread. */
  ghost predicate EndOk(e: End, pcs: seq<Pc>, w: bool) {
    && e.ref == Sum(e.counts) && (e.open <==> e.ref > 0 || Closing(w) in pcs)
    && forall t, u :: 0 <= t < u < |pcs| && pcs[t] == Closing(w) ==> pcs[u] != Closing(w)
  }

  /** First in, first out, with at most 512 bytes in flight, and no lost wakeup. */
  ghost predicate Inv(s: State) {
    && Shaped(s) && s.taken + s.inFlight == s.written && EndOk(s.rd, s.pcs, false) && EndOk(s.wr, s.pcs, true)
    && forall t: nat :: t < |s.pcs| ==> Alert(s, t)
  }

  /** Threads that are closing, and no others, are closing afterwards. */
  ghost predicate SameClosers(pcs: seq<Pc>, pcs': seq<Pc>) {
    |pcs'| == |pcs| && forall t :: 0 <= t < |pcs| ==> if pcs[t].Closing? then pcs'[t] == pcs[t] else !pcs'[t].Closing?
  }

  lemma EndStays(e: End, pcs: seq<Pc>, pcs': seq<Pc>, w: bool)
    requires EndOk(e, pcs, w) && SameClosers(pcs, pcs')
    ensures EndOk(e, pcs', w)
  {
    hide Sum;
    if Closing(w) in pcs {
      var t :| 0 <= t < |pcs| && pcs[t] == Closing(w);
      assert pcs'[t] == Closing(w);
    }
  }

  /** A thread with a descriptor for an end keeps it open. */
  lemma HeldOpen(e: End, pcs: seq<Pc>, w: bool, t: nat)
    requires EndOk(e, pcs, w) && t < |e.counts| && e.counts[t] > 0
    ensures e.ref > 0 && e.open
  {
    hide Sum;
    SumPositive(e.counts);
    assert SomeHolder(e.counts);
  }

  lemma ReadKeeps(s: State, t: nat, n: nat)
    requires Inv(s) && t < |s.pcs| && s.rd.counts[t] > 0 && (s.pcs[t].Idle? || s.pcs[t].Reading?)
    ensures Inv(ReadOn(s, t, n))
  {
    hide Sum, EndOk, SomeHolder;
    var s' := ReadOn(s, t, n);
    var r := ReadRegion(s.inFlight, s.wr.open, n);
    assert s.taken + r.bytes + r.inFlight == s.taken + (r.bytes + r.inFlight);
    EndStays(s.rd, s.pcs, s'.pcs, false);
    EndStays(s.wr, s.pcs, s'.pcs, true);
    forall u: nat | u < |s'.pcs| ensures Alert(s', u) {
      assert Alert(s, u);
    }
  }

  lemma WriteKeeps(s: State, t: nat, addr: seq<byte>, i: nat)
    requires Inv(s) && t < |s.pcs| && s.wr.counts[t] > 0 && i <= |addr| && (s.pcs[t].Idle? || s.pcs[t].Writing?)
    ensures Inv(WriteOn(s, t, addr, i))
  {
    hide Sum, EndOk, SomeHolder;
    var s' := WriteOn(s, t, addr, i);
    var r := WriteRegion(s.inFlight, s.rd.open, addr, i);
    assert s.taken + (s.inFlight + addr[i..r.i]) == s.written + addr[i..r.i];
    EndStays(s.rd, s.pcs, s'.pcs, false);
    EndStays(s.wr, s.pcs, s'.pcs, true);
    forall u: nat | u < |s'.pcs| ensures Alert(s', u) {
      assert Alert(s, u);
      if s.pcs[u].Reading? {
        HeldOpen(s.rd, s.pcs, false, u);
      }
    }
  }

  lemma StepKeepsInv(s: State, step: Step)
    requires Inv(s) && Enabled(s, step)
    ensures Inv(Next(s, step))
  {
    hide Sum, EndOk, SomeHolder;
    match step
    case Read(t, n) => ReadKeeps(s, t, n);
    case Write(t, addr) => WriteKeeps(s, t, addr, 0);
    case Resume(t) =>
      assert Alert(s, t);
      if s.pcs[t].Reading? {
        ReadKeeps(s, t, s.pcs[t].n);
      } else {
        WriteKeeps(s, t, s.pcs[t].addr, s.pcs[t].i);
      }
    case Close(t, w) => CloseKeeps(s, t, w);
    case ClosePipe(t) => ClosePipeKeeps(s, t);
    case Pass(t, child, w) => PassKeeps(s, child, w);
    case SignalReaders => WakeKeeps(s, WakeReaders(s.pcs));
    case SignalWriters => WakeKeeps(s, WakeWriters(s.pcs));
  }

  lemma WakeKeeps(s: State, pcs: seq<Pc>)
    requires Inv(s) && (pcs == WakeReaders(s.pcs) || pcs == WakeWriters(s.pcs))
    ensures Inv(s.(pcs := pcs))
  {
    hide Sum, EndOk;
    EndStays(s.rd, s.pcs, pcs, false);
    EndStays(s.wr, s.pcs, pcs, true);
    forall u: nat | u < |pcs| ensures Alert(s.(pcs := pcs), u) {
      assert Alert(s, u);
    }
  }

  lemma PassKeeps(s: State, child: nat, w: bool)
    requires Inv(s) && child < |s.pcs| && EndOf(s, w).ref > 0
    ensures var e := EndOf(s, w); Inv(WithEnd(s, w, End(e.counts[child := e.counts[child] + 1], e.ref + 1, e.open)))
  {
    hide Sum;
    var e := EndOf(s, w);
    var s' := WithEnd(s, w, End(e.counts[child := e.counts[child] + 1], e.ref + 1, e.open));
    SumSet(e.counts, child, e.counts[child] + 1);
    forall u: nat | u < |s'.pcs| ensures Alert(s', u) {
      assert Alert(s, u);
    }
  }

  /** The end whose reference is dropped. */
  lemma DroppedEnd(e: End, pcs: seq<Pc>, w: bool, t: nat)
    requires EndOk(e, pcs, w) && t < |e.counts| == |pcs| && e.counts[t] > 0 && pcs[t].Idle?
    requires Closing(w) !in pcs
    ensures e.ref > 0
    ensures EndOk(End(e.counts[t := e.counts[t] - 1], e.ref - 1, e.open),
              if e.ref == 1 then pcs[t := Closing(w)] else pcs, w)
  {
    hide Sum;
    HeldOpen(e, pcs, w, t);
    SumSet(e.counts, t, e.counts[t] - 1);
    assert pcs[t := Closing(w)][t] == Closing(w);
  }

  /** A close of the other end does not concern an end. */
  lemma OtherEnd(e: End, pcs: seq<Pc>, w: bool, t: nat)
    requires EndOk(e, pcs, w) && t < |pcs| && pcs[t].Idle?
    ensures EndOk(e, pcs[t := Closing(!w)], w)
  {
    hide Sum;
    if Closing(w) in pcs {
      var u :| 0 <= u < |pcs| && pcs[u] == Closing(w);
      assert pcs[t := Closing(!w)][u] == Closing(w);
    }
  }

  lemma CloseKeeps(s: State, t: nat, w: bool)
    requires Inv(s) && Enabled(s, Close(t, w))
    ensures Inv(Dropped(s, t, w))
  {
    hide Sum, EndOk;
    var s' := Dropped(s, t, w);
    forall u: nat | u < |s.pcs| ensures s.pcs[u] != Closing(w) {
      assert Alert(s, u);
    }
    DroppedEnd(EndOf(s, w), s.pcs, w, t);
    OtherEnd(EndOf(s, !w), s.pcs, !w, t);
    forall u: nat | u < |s'.pcs| ensures Alert(s', u) {
      assert Alert(s, u);
    }
  }

  /** pipe_close clears a flag that nobody needs any more. */
  lemma ClosedEnd(e: End, pcs: seq<Pc>, w: bool, t: nat, pcs': seq<Pc>)
    requires EndOk(e, pcs, w) && t < |pcs| && pcs[t] == Closing(w) && e.ref == 0
    requires |pcs'| == |pcs| && pcs'[t].Idle? && SameClosers(pcs[t := Idle], pcs')
    ensures EndOk(e.(open := false), pcs', w)
  {
    hide Sum;
  }

  lemma ClosePipeKeeps(s: State, t: nat)
    requires Inv(s) && Enabled(s, ClosePipe(t))
    ensures Inv(PipeClosed(s, t, s.pcs[t].writable))
  {
    hide Sum, EndOk;
    var w := s.pcs[t].writable;
    var s' := PipeClosed(s, t, w);
    assert Alert(s, t);
    ClosedEnd(EndOf(s, w), s.pcs, w, t, s'.pcs);
    OtherCloser(EndOf(s, !w), s.pcs, !w, t, s'.pcs);
    forall u: nat | u < |s'.pcs| ensures Alert(s', u) {
      assert Alert(s, u);
    }
  }

  lemma OtherCloser(e: End, pcs: seq<Pc>, w: bool, t: nat, pcs': seq<Pc>)
    requires EndOk(e, pcs, w) && t < |pcs| && pcs[t] == Closing(!w)
    requires SameClosers(pcs[t := Idle], pcs')
    ensures EndOk(e, pcs', w)
  {
    hide Sum;
    if Closing(w) in pcs {
      var u :| 0 <= u < |pcs| && pcs[u] == Closing(w);
      assert pcs'[u] == Closing(w);
    }
  }

  /** What pipe_alloc and sys_pipe leave: one thread with one descriptor for each end. */
  ghost predicate Init(s: State) {
    && Shaped(s) && s.inFlight == s.written == s.taken == []
    && (forall t :: 0 <= t < |s.pcs| ==> s.pcs[t].Idle?)
    && exists t :: 0 <= t < |s.pcs| && s.rd == s.wr == End(OneFor(|s.pcs|, t), 1, true)
  }

  /** One descriptor for thread `t`, none for the others. */
  function OneFor(n: nat, t: nat): (counts: seq<nat>)
    ensures |counts| == n
  {
    seq(n, i => if i == t then 1 else 0)
  }

  lemma {:induction false} SumOne(n: nat, t: nat)
    ensures Sum(OneFor(n, t)) == if t < n then 1 else 0
  {
    if n > 0 {
      SumOne(n - 1, t);
      assert OneFor(n, t)[..n - 1] == OneFor(n - 1, t);
    }
  }

  ghost predicate IsRun(states: seq<State>, steps: seq<Step>) {
    && |states| == |steps| + 1 && Init(states[0])
    && forall i :: 0 <= i < |steps| ==> Enabled(states[i], steps[i]) && states[i + 1] == Next(states[i], steps[i])
  }

  lemma {:induction false} RunKeepsInv(states: seq<State>, steps: seq<Step>)
    requires IsRun(states, steps)
    ensures Inv(states[|steps|])
  {
    hide Sum;
    if |steps| > 0 {
      RunKeepsInv(states[..|steps|], steps[..|steps| - 1]);
      StepKeepsInv(states[|steps| - 1], steps[|steps| - 1]);
    } else {
      var s := states[0];
      var t :| 0 <= t < |s.pcs| && s.rd == s.wr == End(OneFor(|s.pcs|, t), 1, true);
      SumOne(|s.pcs|, t);
    }
  }

  /** However readers and writers interleave, the bytes read so far, in the order the readers got them, are a
      prefix of the bytes written, and the rest is in flight. */
  lemma Fifo(states: seq<State>, steps: seq<Step>)
    requires IsRun(states, steps)
    ensures var s := states[|steps|];
            s.taken <= s.written && s.written[|s.taken|..] == s.inFlight && |s.inFlight| <= PIPESIZE
  {
    RunKeepsInv(states, steps);
  }

  /** The flag that a reader tests is cleared exactly when no thread has a descriptor to write with any more and
      the thread that closed the last one has been through pipe_close; and so for the other end. */
  lemma OpenExactly(states: seq<State>, steps: seq<Step>, w: bool)
    requires IsRun(states, steps)
    ensures var s := states[|steps|]; EndOf(s, w).open <==> SomeHolder(EndOf(s, w).counts) || Closing(w) in s.pcs
  {
    RunKeepsInv(states, steps);
    SumPositive(EndOf(states[|steps|], w).counts);
  }

  /** End of file: a read of n > 0 bytes returns none exactly when the pipe is drained, no thread has a descriptor to
      write with, and none is about to enter pipe_close. */
  lemma EndOfFile(states: seq<State>, steps: seq<Step>, t: nat, n: nat)
    requires IsRun(states, steps) && n > 0 && t < |states[|steps|].pcs| && Shaped(states[|steps|])
    ensures var s := states[|steps|];
            var s' := ReadOn(s, t, n);
            s'.pcs[t].Idle? && s'.taken == s.taken <==>
              s.taken == s.written &&
                (forall u :: 0 <= u < |s.pcs| ==> s.wr.counts[u] == 0 && s.pcs[u] != Closing(true))
  {
    RunKeepsInv(states, steps);
    OpenExactly(states, steps, true);
  }

  /** Readers and writers of a pipe are never asleep at the same time, and whoever is asleep waits for a thread that
      has a descriptor for the other end or is about to wake it from pipe_close. */
  lemma NoMutualSleep(states: seq<State>, steps: seq<Step>, t: nat, u: nat)
    requires IsRun(states, steps) && t < |states[|steps|].pcs| && u < |states[|steps|].pcs|
    requires var s := states[|steps|]; IsAsleep(s.pcs[t]) && IsAsleep(s.pcs[u])
    ensures var s := states[|steps|];
            && (s.pcs[t].Reading? <==> s.pcs[u].Reading?)
            && (if s.pcs[t].Reading? then s.inFlight == [] else |s.inFlight| == PIPESIZE)
            && var w := s.pcs[t].Reading?; SomeHolder(EndOf(s, w).counts) || Closing(w) in s.pcs
  {
    RunKeepsInv(states, steps);
    OpenExactly(states, steps, states[|steps|].pcs[t].Reading?);
    assert Alert(states[|steps|], t) && Alert(states[|steps|], u);
  }

  predicate IsAsleep(pc: Pc) {
    (pc.Reading? || pc.Writing?) && pc.asleep
  }
}
