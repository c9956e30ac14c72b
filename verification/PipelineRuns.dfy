/** Pipelines over whole runs: every schedule emits a prefix of the composed transform, none deadlocks,
    all end, and at the end the whole transform has been emitted. */
module PipelineRuns {
  import opened Bytes
  import opened Sequences
  import opened Pipe
  import opened Pipeline

  /** `trace` is a run of the pipeline under the schedule `steps`. */
  ghost predicate IsRun(trace: seq<State>, steps: seq<Step>) {
    && |trace| == |steps| + 1
    && forall k :: 0 <= k < |steps| ==>
         Shaped(trace[k]) && Enabled(trace[k], steps[k]) && trace[k + 1] == Next(trace[k], steps[k])
  }

  lemma {:induction false} SupplyAtStart(file: seq<byte>, kinds: seq<Kind>, i: nat)
    requires i < |kinds|
    ensures Supply(Init(file, kinds), i) == Composed(kinds, i, file)
    ensures Remaining(Init(file, kinds), i) == Composed(kinds, i + 1, file)
  {
    hide Translate, Supply, Composed;
    var st := Init(file, kinds);
    if i > 0 {
      SupplyAtStart(file, kinds, i - 1);
      SupplyIs(st, i - 1);
      assert st.pipes[i - 1] + Remaining(st, i - 1) == Remaining(st, i - 1);
    }
    ComposedNext(kinds, i, file);
    FirstSupply(st);
  }

  lemma ComposedNext(kinds: seq<Kind>, n: nat, file: seq<byte>)
    requires n < |kinds|
    ensures Composed(kinds, 0, file) == file
    ensures Composed(kinds, n + 1, file) == Translate(kinds[n], Composed(kinds, n, file))
  {
    hide Translate;
  }

  lemma FirstSupply(st: State)
    requires Shaped(st)
    ensures Supply(st, 0) == st.file[st.off..]
  {
  }

  lemma InitInv(file: seq<byte>, kinds: seq<Kind>)
    requires |kinds| >= 1
    ensures Inv(Init(file, kinds))
  {
    hide Supply, Composed, Remaining, Translate, WriteOpen, ReadOpen;
    SupplyAtStart(file, kinds, |kinds| - 1);
    var st := Init(file, kinds);
    assert st.out + Remaining(st, |kinds| - 1) == Remaining(st, |kinds| - 1);
  }

  /** The invariant holds at every point of every run. */
  lemma {:induction false} RunKeepsInv(trace: seq<State>, steps: seq<Step>, k: nat)
    requires IsRun(trace, steps) && Inv(trace[0]) && k < |trace|
    ensures Inv(trace[k]) && trace[k].file == trace[0].file && trace[k].kinds == trace[0].kinds
  {
    hide Inv, Next;
    if k > 0 {
      RunKeepsInv(trace, steps, k - 1);
      InvShape(trace[k - 1]);
      StepKeepsInv(trace[k - 1], steps[k - 1]);
    }
  }

  lemma InvShape(st: State)
    requires Inv(st)
    ensures AllSound(st)
  {
  }

  /** Safety over every schedule, signals included: what has come out is a prefix of the composed stages
      applied to the file. */
  lemma OutputIsPrefix(file: seq<byte>, kinds: seq<Kind>, trace: seq<State>, steps: seq<Step>, k: nat)
    requires |kinds| >= 1 && IsRun(trace, steps) && trace[0] == Init(file, kinds) && k < |trace|
    ensures trace[k].out <= Composed(kinds, |kinds|, file)
  {
    hide Supply, Composed, Remaining, Sound;
    InitInv(file, kinds);
    RunKeepsInv(trace, steps, k);
  }

  /** No wakeup is lost: a stage asleep on a pipe has an empty pipe that can still be written, or a full
      one that can still be read. */
  lemma NoLostWakeup(file: seq<byte>, kinds: seq<Kind>, trace: seq<State>, steps: seq<Step>, k: nat, i: nat)
    requires |kinds| >= 1 && IsRun(trace, steps) && trace[0] == Init(file, kinds) && k < |trace|
    requires i < |trace[k].pcs|
    ensures |trace[k].pcs| == |trace[k].pipes| + 1
    ensures trace[k].pcs[i].SleepRead? ==> i > 0 && trace[k].pipes[i - 1] == [] && WriteOpen(trace[k], i - 1)
    ensures trace[k].pcs[i].SleepWrite? ==>
              i + 1 < |trace[k].pcs| && |trace[k].pipes[i]| == PIPESIZE && ReadOpen(trace[k], i)
  {
    hide Supply, Composed, Remaining;
    InitInv(file, kinds);
    RunKeepsInv(trace, steps, k);
    assert Sound(trace[k], i);
  }

  ghost predicate Finished(st: State) {
    forall i :: 0 <= i < |st.pcs| ==> st.pcs[i].Dead?
  }

  lemma {:induction false} NothingLeft(st: State, i: nat)
    requires AllSound(st) && Finished(st) && i < |st.pcs|
    ensures Supply(st, i) == [] && Remaining(st, i) == []
  {
    hide Sound, Translate;
    InputOver(st, i);
    TranslateNothing(st.kinds[i]);
    if i > 0 {
      TranslateNothing(st.kinds[i - 1]);
      NothingLeft(st, i - 1);
    }
  }

  lemma InputOver(st: State, i: nat)
    requires Shaped(st) && i < |st.pcs| && Sound(st, i) && st.pcs[i].Dead?
    ensures if i == 0 then st.file[st.off..] == [] else st.pipes[i - 1] == []
  {
  }

  /** When every stage has exited, everything has come out. */
  lemma FinishedOutput(st: State)
    requires Inv(st) && Finished(st)
    ensures st.out == Composed(st.kinds, |st.kinds|, st.file)
  {
    hide Composed, Remaining, Supply, Sound;
    NothingLeft(st, |st.pcs| - 1);
  }

  /** Downstream of a stage that is not waiting for input, some stage can run. */
  lemma {:induction false} SomeoneDownstreamRuns(st: State, m: nat) returns (i: nat)
    requires AllSound(st) && st.shell == 4 * |st.kinds| && m < |st.pcs|
    requires !st.pcs[m].Dead? && !st.pcs[m].SleepRead?
    ensures Runnable(st, i)
    decreases |st.pcs| - m
  {
    assert Sound(st, m);
    if st.pcs[m].SleepWrite? {
      assert Sound(st, m + 1);
      i := SomeoneDownstreamRuns(st, m + 1);
    } else {
      i := m;
    }
  }

  /** Deadlock freedom: while a stage is unfinished, the shell or some stage can take a step. */
  lemma NoDeadlock(st: State) returns (step: Step)
    requires Inv(st) && !Finished(st)
    ensures !step.Signal? && Enabled(st, step)
  {
    hide Composed, Remaining, Supply;
    if st.shell < 4 * |st.kinds| {
      return Shell;
    }
    var m := FirstUnfinished(st);
    assert Sound(st, m) && (m > 0 ==> Sound(st, m - 1));
    var i := SomeoneDownstreamRuns(st, m);
    return Stage(i);
  }

  lemma FirstUnfinished(st: State) returns (m: nat)
    requires !Finished(st)
    ensures m < |st.pcs| && !st.pcs[m].Dead? && forall j :: 0 <= j < m ==> st.pcs[j].Dead?
  {
    m := 0;
    while st.pcs[m].Dead?
      invariant m < |st.pcs| && forall j :: 0 <= j < m ==> st.pcs[j].Dead?
      decreases |st.pcs| - m
    {
      assert exists i :: m < i < |st.pcs| && !st.pcs[i].Dead?;
      m := m + 1;
    }
  }

  /** Bytes still to be read by each of the first `n` stages, and still to be handed over by it. */
  ghost function Hops(st: State, n: nat): (h: nat)
    requires Shaped(st) && n <= |st.pcs|
  {
    if n == 0 then 0 else Hops(st, n - 1) + |Supply(st, n - 1)| + |Remaining(st, n - 1)|
  }

  function Rank(pc: Pc): nat {
    match pc
    case NotStarted => 7
    case Read => 6
    case SleepRead => 5
    case Write(_, _) => 6
    case SleepWrite(_, _) => 5
    case Closing1 => 4
    case Closing0 => 2
    case Dead => 0
  }

  function Ranks(pcs: seq<Pc>): nat {
    if pcs == [] then 0 else Ranks(pcs[..|pcs| - 1]) + Rank(pcs[|pcs| - 1])
  }

  lemma {:induction false} RanksUpdate(pcs: seq<Pc>, i: nat, pc: Pc)
    requires i < |pcs|
    ensures Ranks(pcs[i := pc]) == Ranks(pcs) - Rank(pcs[i]) + Rank(pc)
    decreases |pcs|
  {
    var n := |pcs| - 1;
    if i < n {
      RanksUpdate(pcs[..n], i, pc);
      assert pcs[i := pc][..n] == pcs[..n][i := pc];
    } else {
      assert pcs[i := pc][..n] == pcs[..n];
    }
  }

  /** Work left to do. */
  ghost function Measure(st: State): (m: nat)
    requires Shaped(st)
  {
    4 * Hops(st, |st.pcs|) + Ranks(st.pcs) + 4 * (4 * |st.kinds| - st.shell)
  }

  lemma {:induction false} HopsAfter(st: State, st': State, i: nat, s: nat, r: nat, n: nat)
    requires Shaped(st) && Shaped(st') && Moved(st, st', i, s, r) && n <= |st.pcs|
    ensures Hops(st', n) == Hops(st, n) - (if i < n then s + r else 0)
  {
    hide Supply, Remaining;
    if n > 0 {
      HopsAfter(st, st', i, s, r, n - 1);
    }
  }

  /** A wakeup costs at most one. */
  lemma WakeRanks(pcs: seq<Pc>, p: nat)
    requires p < |pcs|
    ensures |WakeWriter(pcs, p)| == |pcs| &&
              Ranks(WakeWriter(pcs, p)) == Ranks(pcs) + if pcs[p].SleepWrite? then 1 else 0
    ensures forall j :: 0 <= j < |pcs| && j != p ==> WakeWriter(pcs, p)[j] == pcs[j]
    ensures p + 1 < |pcs| ==>
              |WakeReader(pcs, p)| == |pcs| &&
                Ranks(WakeReader(pcs, p)) == Ranks(pcs) + if pcs[p + 1].SleepRead? then 1 else 0
    ensures p + 1 < |pcs| ==> WakeReader(pcs, p)[p] == pcs[p]
  {
    if pcs[p].SleepWrite? {
      RanksUpdate(pcs, p, Write(pcs[p].buf, pcs[p].j));
    }
    if p + 1 < |pcs| {
      RanksUpdate(pcs, p + 1, Read);
    }
  }

  lemma ReadDecreases(st: State, i: nat)
    requires AllSound(st) && i < |st.pcs| && st.pcs[i].Read?
    ensures Shaped(ReadStep(st, i)) && Measure(ReadStep(st, i)) < Measure(st)
  {
    hide Hops, Sound, Translate, Moved, Ranks, WakeWriter, WriteOpen, Supply, Remaining;
    var st' := ReadStep(st, i);
    if i == 0 { ReadFileFlow(st); } else { ReadPipeFlow(st, i); }
    HopsAfter(st, st', i, Takes(st, i), 0, |st.pcs|);
    if i == 0 {
      RanksUpdate(st.pcs, 0, st'.pcs[0]);
    } else if ReadRegion(st.pipes[i - 1], WriteOpen(st, i - 1), 512).sleeps {
      RanksUpdate(st.pcs, i, SleepRead);
    } else {
      WakeRanks(st.pcs, i - 1);
      RanksUpdate(WakeWriter(st.pcs, i - 1), i, st'.pcs[i]);
    }
  }

  lemma HasMore(st: State, i: nat)
    requires Shaped(st) && i < |st.pcs| && Sound(st, i) && st.pcs[i].Write?
    ensures st.pcs[i].j < |st.pcs[i].buf|
  {
  }

  /** A region of pipe_write moves bytes, or sleeps and wakes nobody. */
  lemma WriteMoves(st: State, i: nat)
    requires Shaped(st) && i + 1 < |st.pcs| && st.pcs[i].Write? && Sound(st, i) && Sound(st, i + 1)
    ensures var end := WriteRegion(st.pipes[i], ReadOpen(st, i), st.pcs[i].buf, st.pcs[i].j).end;
            !end.Broken? && (Gives(st, i) > 0 || (end.MustSleep? && !st.pcs[i + 1].SleepRead?))
  {
    NeverBroken(st, i);
  }

  lemma WriteDecreases(st: State, i: nat)
    requires AllSound(st) && i < |st.pcs| && st.pcs[i].Write?
    ensures Shaped(WriteStep(st, i)) && Measure(WriteStep(st, i)) < Measure(st)
  {
    hide Hops, Moved, Ranks, Sound, Supply, Remaining, WriteOpen, ReadOpen, WakeReader;
    var st' := WriteStep(st, i);
    WriteSound(st, i);
    WriteFlow(st, i);
    HopsAfter(st, st', i, 0, Gives(st, i), |st.pcs|);
    HasMore(st, i);
    if i == |st.pcs| - 1 {
      RanksUpdate(st.pcs, i, Read);
    } else {
      assert Sound(st, i + 1);
      WriteMoves(st, i);
      WakeRanks(st.pcs, i);
      RanksUpdate(WakeReader(st.pcs, i), i, st'.pcs[i]);
    }
  }

  lemma CloseDecreases(st: State, i: nat)
    requires AllSound(st) && i < |st.pcs| && (st.pcs[i].Closing1? || st.pcs[i].Closing0?)
    ensures Shaped(CloseStep(st, i)) && Measure(CloseStep(st, i)) < Measure(st)
  {
    hide Hops, Sound, Moved, WriteOpen, ReadOpen, Ranks, WakeReader, WakeWriter, Supply, Remaining;
    CloseFlow(st, i);
    HopsAfter(st, CloseStep(st, i), 0, 0, 0, |st.pcs|);
    var pc := if st.pcs[i].Closing1? then Closing0 else Dead;
    RanksUpdate(st.pcs, i, pc);
    if st.pcs[i].Closing1? {
      WakeRanks(st.pcs[i := pc], i);
    } else if i > 0 {
      WakeRanks(st.pcs[i := pc], i - 1);
    }
  }

  lemma ShellDecreases(st: State)
    requires AllSound(st) && st.shell < 4 * |st.kinds|
    ensures Shaped(ShellStep(st)) && Measure(ShellStep(st)) < Measure(st)
  {
    hide Hops, Moved, WriteOpen, ReadOpen, Ranks, WakeReader, WakeWriter;
    ShellFlow(st);
    HopsAfter(st, ShellStep(st), 0, 0, 0, |st.pcs|);
    var i := st.shell / 4;
    assert Sound(st, i);
    RanksUpdate(st.pcs, i, Read);
    WakeRanks(st.pcs, i);
    if i > 0 {
      WakeRanks(st.pcs, i - 1);
    }
  }

  /** Every step that is not a stray signal uses up work. */
  lemma StepDecreases(st: State, step: Step)
    requires Inv(st) && Enabled(st, step) && !step.Signal?
    ensures Shaped(Next(st, step)) && Measure(Next(st, step)) < Measure(st)
  {
    InvShape(st);
    hide Inv, AllSound, Measure, ReadStep, WriteStep, CloseStep, ShellStep, SignalStep;
    match step {
      case Shell => ShellDecreases(st);
      case Stage(i) =>
        if st.pcs[i].Read? {
          ReadDecreases(st, i);
        } else if st.pcs[i].Write? {
          WriteDecreases(st, i);
        } else {
          CloseDecreases(st, i);
        }
    }
  }

  /** Termination: without stray signals a run is no longer than the work there was at its start. */
  lemma {:induction false} RunsAreBounded(trace: seq<State>, steps: seq<Step>)
    requires IsRun(trace, steps) && Inv(trace[0]) && forall k :: 0 <= k < |steps| ==> !steps[k].Signal?
    ensures |steps| <= Measure(trace[0])
  {
    RunUsesWork(trace, steps, |steps|);
  }

  lemma {:induction false} RunUsesWork(trace: seq<State>, steps: seq<Step>, k: nat)
    requires IsRun(trace, steps) && Inv(trace[0]) && (forall j :: 0 <= j < |steps| ==> !steps[j].Signal?)
    requires k <= |steps|
    ensures Shaped(trace[k]) && Measure(trace[k]) + k <= Measure(trace[0])
  {
    hide Inv, Measure, Next;
    InvShape(trace[0]);
    if k > 0 {
      RunUsesWork(trace, steps, k - 1);
      RunKeepsInv(trace, steps, k - 1);
      StepDecreases(trace[k - 1], steps[k - 1]);
    }
  }

  /** A run from the start that cannot go on has finished every stage, and has emitted the composed stages applied to
      the whole file. */
  lemma OutputComposed(file: seq<byte>, kinds: seq<Kind>, trace: seq<State>, steps: seq<Step>)
    requires |kinds| >= 1 && IsRun(trace, steps) && trace[0] == Init(file, kinds)
    requires forall step: Step :: Enabled(trace[|steps|], step) ==> step.Signal?
    ensures Finished(trace[|steps|]) && trace[|steps|].out == Composed(kinds, |kinds|, file)
  {
    hide Inv, Next, Composed;
    InitInv(file, kinds);
    RunKeepsInv(trace, steps, |steps|);
    if !Finished(trace[|steps|]) {
      var step := NoDeadlock(trace[|steps|]);
      assert false;
    }
    FinishedOutput(trace[|steps|]);
  }

  /** rot13 is its own inverse. */
  lemma Rot13Twice(c: byte)
    ensures Rot13Char(Rot13Char(c)) == c
  {
    if 97 <= c <= 122 {
      HalfTurns(c - 97);
    } else if 65 <= c <= 90 {
      HalfTurns(c - 65);
    }
  }

  lemma HalfTurns(x: nat)
    requires x < 26
    ensures (x + 13) % 26 == if x < 13 then x + 13 else x - 13
    ensures ((x + 13) % 26 + 13) % 26 == x
  {
  }

  lemma CatKeeps(s: seq<byte>)
    ensures Translate(Cat, s) == s
  {
  }

  lemma TranslateTwice(s: seq<byte>)
    ensures Translate(Rot13, Translate(Rot13, s)) == s
  {
    hide Rot13Char;
    var once := Translate(Rot13, s);
    forall k | 0 <= k < |s| ensures Translate(Rot13, once)[k] == s[k] {
      Rot13Twice(s[k]);
    }
  }

  /** One more stage, and one more ROT13 stage if it is one. */
  lemma OneMoreStage(kinds: seq<Kind>, n: nat, file: seq<byte>)
    requires 0 < n <= |kinds|
    ensures Composed(kinds, n, file) == Translate(kinds[n - 1], Composed(kinds, n - 1, file))
    ensures Composed(kinds, 0, file) == file
    ensures Rot13Count(kinds, n) == Rot13Count(kinds, n - 1) + if kinds[n - 1].Rot13? then 1 else 0
  {
    hide Composed;
    ComposedNext(kinds, n - 1, file);
  }

  ghost function Rot13Count(kinds: seq<Kind>, n: nat): nat
    requires n <= |kinds|
  {
    if n == 0 then 0 else Rot13Count(kinds, n - 1) + if kinds[n - 1].Rot13? then 1 else 0
  }

  /** Stages compose to the identity or to one rot13, by the parity of the number of ROT13 stages. */
  lemma {:induction false} ComposedParity(kinds: seq<Kind>, n: nat, file: seq<byte>)
    requires n <= |kinds|
    ensures Composed(kinds, n, file) == if Rot13Count(kinds, n) % 2 == 0 then file else Translate(Rot13, file)
  {
    hide Translate;
    if n > 0 {
      OneMoreStage(kinds, n, file);
      ComposedParity(kinds, n - 1, file);
      hide Composed, Rot13Count;
      CatKeeps(file);
      CatKeeps(Translate(Rot13, file));
      TranslateTwice(file);
    }
  }

  /** Byte `r` of the output for byte `c` of the file, after `n` ROT13 stages. */
  predicate Comes(n: nat, c: byte, r: byte) {
    if IsLetter(c) && n % 2 == 1 then HalfTurn(c, r) else r == c
  }

  /** What is there for stage `i` to read. */
  function Input(st: State, i: nat): seq<byte>
    requires Shaped(st) && i < |st.pcs|
  {
    if i == 0 then st.file[st.off..] else st.pipes[i - 1]
  }

  /** A stage that reads takes what is there, up to 512 bytes, and goes on to write it, byte by byte as it is or with
      the letters moved. With nothing there it sleeps while somebody can still write, and else closes. */
  lemma StageReads(st: State, i: nat)
    requires Shaped(st) && i < |st.pcs| && st.pcs[i].Read?
    ensures var r, input := Next(st, Stage(i)), Input(st, i);
            var m := Min(512, |input|);
            && |r.pcs| == |st.pcs| && r.out == st.out && r.file == st.file && r.kinds == st.kinds && r.off <= |r.file|
            && |r.pipes| == |st.pipes| && (if i == 0 then r.file[r.off..] else r.pipes[i - 1]) == input[m..]
            && if input == [] then r.pcs[i] == if i > 0 && WriteOpen(st, i - 1) then SleepRead else Closing1
               else && r.pcs[i].Write? && r.pcs[i].j == 0 && |r.pcs[i].buf| == m
                    && forall k :: 0 <= k < m ==>
                         Comes(if st.kinds[i].Rot13? then 1 else 0, input[k], r.pcs[i].buf[k])
  {
    hide Rot13Char, HalfTurn, IsLetter;
  }

  /** A signal wakes a stage where it sleeps, and does nothing else. */
  lemma SignalWakes(st: State, i: nat)
    requires Shaped(st) && i < |st.pcs|
    ensures var r := Next(st, Signal(i));
            && r == st.(pcs := r.pcs) && r.pcs == st.pcs[i := r.pcs[i]] && !r.pcs[i].SleepRead? && !r.pcs[i].SleepWrite?
            && Pending(r.pcs[i]) == Pending(st.pcs[i])
            && (!st.pcs[i].SleepRead? && !st.pcs[i].SleepWrite? ==> r.pcs[i] == st.pcs[i])
  {
  }

  lemma ComposedBytes(file: seq<byte>, kinds: seq<Kind>)
    ensures |Composed(kinds, |kinds|, file)| == |file|
    ensures forall i :: 0 <= i < |file| ==>
              Comes(Rot13Count(kinds, |kinds|), file[i], Composed(kinds, |kinds|, file)[i])
  {
    hide Composed, Rot13Count, Rot13Char, IsLetter, HalfTurn;
    ComposedParity(kinds, |kinds|, file);
  }

  /** Total correctness: a run from the start that cannot go on has finished every stage, and whatever the schedule
      was, it has emitted the file byte by byte, with every letter moved by 13 if the ROT13 stages are odd in number. */
  lemma PipelineCorrect(file: seq<byte>, kinds: seq<Kind>, trace: seq<State>, steps: seq<Step>)
    requires |kinds| >= 1 && IsRun(trace, steps) && trace[0] == Init(file, kinds)
    requires forall step: Step :: Enabled(trace[|steps|], step) ==> step.Signal?
    ensures Finished(trace[|steps|]) && |trace[|steps|].out| == |file|
    ensures forall i :: 0 <= i < |file| ==> Comes(Rot13Count(kinds, |kinds|), file[i], trace[|steps|].out[i])
  {
    hide Composed, Next, Enabled, Rot13Count, Comes;
    OutputComposed(file, kinds, trace, steps);
    ComposedBytes(file, kinds);
  }

  /** `CAT f | ... ` with an even number of ROT13 stages gives back the file. */
  lemma EvenRot13GivesBackFile(file: seq<byte>, kinds: seq<Kind>, trace: seq<State>, steps: seq<Step>)
    requires |kinds| >= 1 && Rot13Count(kinds, |kinds|) % 2 == 0
    requires IsRun(trace, steps) && trace[0] == Init(file, kinds)
    requires forall step: Step :: Enabled(trace[|steps|], step) ==> step.Signal?
    ensures trace[|steps|].out == file
  {
    hide Composed, Next, Enabled;
    OutputComposed(file, kinds, trace, steps);
    ComposedParity(kinds, |kinds|, file);
  }
}
