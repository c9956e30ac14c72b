/** The step system of a pipeline on the descriptors: what it takes for open ends are the ends that somebody holds, and
    its steps change them as the system calls behind them do. */
module PipelineFds {
  import opened Bytes
  import opened Pipeline
  import opened PipelineRuns
  import D = Descriptors
  import W = Wiring
  import S = Shell

  /** The shell `shell` and the stages with pids `pids` hold the ends of pipe `p` that state `st` says; `r` and `w` are
      the shell's descriptors for them. */
  ghost predicate PipeAgrees(st: State, kinds: seq<D.Kind>, slots: seq<seq<nat>>, shell: nat, pids: seq<nat>, pipe: nat,
                             r: int, w: int, p: nat) {
    && D.SlotsShaped(slots) && |kinds| == D.NFILE && |pids| == |st.pcs| && p + 1 < |st.pcs|
    && W.Ends(kinds, slots, pipe, true) ==
       (if ShellHoldsWrite(st, p) then {(shell, w)} else {})
       + (if HoldsOutput(st.pcs[p]) then {(pids[p], 1)} else {})
    && W.Ends(kinds, slots, pipe, false) ==
       (if ShellHoldsRead(st, p) then {(shell, r)} else {})
       + (if HoldsInput(st.pcs[p + 1]) then {(pids[p + 1], 0)} else {})
  }

  /** The pids are those of different processes, and the pipes different ones. */
  predicate Apart(st: State, shell: nat, pids: seq<nat>, ps: seq<nat>, rs: seq<int>, ws: seq<int>) {
    && 1 <= |pids| == |st.pcs| == |ps| + 1 && |ps| == |rs| == |ws|
    && (forall i :: 0 <= i < |pids| ==> pids[i] != shell)
    && (forall i, j :: 0 <= i < j < |pids| ==> pids[i] != pids[j])
    && (forall i, j :: 0 <= i < j < |ps| ==> ps[i] != ps[j])
  }

  ghost predicate Agrees(st: State, kinds: seq<D.Kind>, slots: seq<seq<nat>>, shell: nat, pids: seq<nat>, ps: seq<nat>,
                         rs: seq<int>, ws: seq<int>) {
    && Pipeline.Shaped(st) && Apart(st, shell, pids, ps, rs, ws) && D.SlotsShaped(slots) && |kinds| == D.NFILE
    && forall p: nat :: p < |ps| ==> PipeAgrees(st, kinds, slots, shell, pids, ps[p], rs[p], ws[p], p)
  }

  /** An end is open in the step system exactly if some thread has a descriptor for it. */
  lemma OpenIsHeld(st: State, kinds: seq<D.Kind>, slots: seq<seq<nat>>, shell: nat, pids: seq<nat>, ps: seq<nat>,
                   rs: seq<int>, ws: seq<int>, p: nat)
    requires Agrees(st, kinds, slots, shell, pids, ps, rs, ws) && p + 1 < |st.pcs|
    ensures WriteOpen(st, p) <==> D.Held(kinds, slots, ps[p], true)
    ensures ReadOpen(st, p) <==> D.Held(kinds, slots, ps[p], false)
  {
    hide W.Ends, D.Held;
    assert PipeAgrees(st, kinds, slots, shell, pids, ps[p], rs[p], ws[p], p);
    W.HeldExactly(kinds, slots, ps[p], true);
    W.HeldExactly(kinds, slots, ps[p], false);
  }

  /** One descriptor is closed. */
  ghost predicate ClosedOne(kinds: seq<D.Kind>, slots: seq<seq<nat>>, kinds': seq<D.Kind>, slots': seq<seq<nat>>,
                            x: (nat, int)) {
    && D.SlotsShaped(slots) && D.SlotsShaped(slots') && |kinds| == |kinds'| == D.NFILE
    && forall q: nat, w: bool :: W.Ends(kinds', slots', q, w) == W.Ends(kinds, slots, q, w) - {x}
  }

  /** What a close does to who holds what. */
  lemma CloseHolds(st: State, i: nat, k: nat)
    requires Pipeline.Shaped(st) && i < |st.pcs| && (st.pcs[i].Closing1? || st.pcs[i].Closing0?) && k < |st.pcs|
    ensures var st' := CloseStep(st, i);
            && Pipeline.Shaped(st') && |st'.pcs| == |st.pcs| && st'.shell == st.shell
            && HoldsOutput(st'.pcs[k]) == (HoldsOutput(st.pcs[k]) && !(k == i && st.pcs[i].Closing1?))
            && HoldsInput(st'.pcs[k]) == (HoldsInput(st.pcs[k]) && !(k == i && st.pcs[i].Closing0?))
  {
  }

  /** A stage closes its output, and then its input. */
  lemma StageCloses(st: State, kinds: seq<D.Kind>, slots: seq<seq<nat>>, kinds': seq<D.Kind>, slots': seq<seq<nat>>,
                    shell: nat, pids: seq<nat>, ps: seq<nat>, rs: seq<int>, ws: seq<int>, i: nat)
    requires Agrees(st, kinds, slots, shell, pids, ps, rs, ws) && i < |st.pcs|
    requires st.pcs[i].Closing1? || st.pcs[i].Closing0?
    requires ClosedOne(kinds, slots, kinds', slots', (pids[i], if st.pcs[i].Closing1? then 1 else 0))
    ensures Agrees(CloseStep(st, i), kinds', slots', shell, pids, ps, rs, ws)
  {
    hide W.Ends, CloseStep, HoldsOutput, HoldsInput, Pipeline.Shaped, ShellHoldsWrite, ShellHoldsRead, D.SlotsShaped;
    forall p: nat | p < |ps|
      ensures PipeAgrees(CloseStep(st, i), kinds', slots', shell, pids, ps[p], rs[p], ws[p], p)
    {
      assert PipeAgrees(st, kinds, slots, shell, pids, ps[p], rs[p], ws[p], p);
      CloseHolds(st, i, p);
      CloseHolds(st, i, p + 1);
      SameShell(st, CloseStep(st, i), p);
      NotOut(st.pcs[i]);
    }
    CloseHolds(st, i, 0);
  }

  lemma SameShell(st: State, st': State, p: nat)
    requires st'.shell == st.shell
    ensures ShellHoldsWrite(st', p) == ShellHoldsWrite(st, p) && ShellHoldsRead(st', p) == ShellHoldsRead(st, p)
  {
  }

  lemma NotOut(pc: Pc)
    ensures pc.Closing0? ==> !HoldsOutput(pc) && HoldsInput(pc)
  {
  }

  /** What the system call behind the shell's next step does to the ends: sys_pipe, sys_spawn, or sys_close. */
  ghost predicate ShellCall(st: State, kinds: seq<D.Kind>, slots: seq<seq<nat>>, kinds': seq<D.Kind>,
                            slots': seq<seq<nat>>, shell: nat, pids: seq<nat>, ps: seq<nat>, rs: seq<int>, ws: seq<int>)
    requires Apart(st, shell, pids, ps, rs, ws) && st.shell < 4 * |st.pcs|
  {
    var i, m := st.shell / 4, st.shell % 4;
    && D.SlotsShaped(slots) && D.SlotsShaped(slots') && |kinds| == |kinds'| == D.NFILE
    && (m == 0 ==>
          forall q: nat, w: bool :: W.Ends(kinds', slots', q, w) ==
            if i < |ps| && q == ps[i] then {(shell, if w then ws[i] else rs[i])} else W.Ends(kinds, slots, q, w))
    && (m == 1 ==> S.PassedEnds(kinds, slots, kinds', slots', shell, pids[i], if i > 0 then rs[i - 1] else -1,
                                if i < |ps| then ws[i] else -1))
    && (m == 2 ==> ClosedOne(kinds, slots, kinds', slots', (shell, if i > 0 then rs[i - 1] else -1)))
    && (m == 3 ==> ClosedOne(kinds, slots, kinds', slots', (shell, if i < |ps| then ws[i] else -1)))
  }

  /** What a step of the shell does to who holds what. */
  lemma ShellHolds(st: State, p: nat)
    requires Pipeline.Shaped(st) && st.shell < 4 * |st.kinds| && p + 1 < |st.pcs|
    ensures var st', i, m := ShellStep(st), st.shell / 4, st.shell % 4;
            && Pipeline.Shaped(st') && |st'.pcs| == |st.pcs|
            && HoldsOutput(st'.pcs[p]) == (HoldsOutput(st.pcs[p]) || (m == 1 && i == p))
            && HoldsInput(st'.pcs[p + 1]) == (HoldsInput(st.pcs[p + 1]) || (m == 1 && i == p + 1))
            && ShellHoldsWrite(st', p) ==
               ((ShellHoldsWrite(st, p) && !(m == 3 && i == p)) || (m == 0 && i == p))
            && ShellHoldsRead(st', p) ==
               ((ShellHoldsRead(st, p) && !(m == 2 && i == p + 1)) || (m == 0 && i == p))
            && (m == 1 && i == p ==> ShellHoldsWrite(st, p)) && (m == 1 && i == p + 1 ==> ShellHoldsRead(st, p))
            && (m == 2 && i == p + 1 ==> ShellHoldsRead(st, p)) && (m == 3 && i == p ==> ShellHoldsWrite(st, p))
            && (m == 0 && i == p ==> !ShellHoldsWrite(st, p) && !ShellHoldsRead(st, p))
  {
  }

  /** The shell's steps do what its system calls do. A stage that is not spawned yet holds nothing. */
  lemma ShellCalls(st: State, kinds: seq<D.Kind>, slots: seq<seq<nat>>, kinds': seq<D.Kind>, slots': seq<seq<nat>>,
                   shell: nat, pids: seq<nat>, ps: seq<nat>, rs: seq<int>, ws: seq<int>)
    requires Agrees(st, kinds, slots, shell, pids, ps, rs, ws) && st.shell < 4 * |st.kinds|
    requires forall k :: 0 <= k < |st.pcs| && st.shell <= 4 * k + 1 ==> st.pcs[k].NotStarted?
    requires ShellCall(st, kinds, slots, kinds', slots', shell, pids, ps, rs, ws)
    ensures Agrees(ShellStep(st), kinds', slots', shell, pids, ps, rs, ws)
  {
    hide W.Ends, ShellStep, ShellHoldsWrite, ShellHoldsRead;
    forall p: nat | p < |ps|
      ensures PipeAgrees(ShellStep(st), kinds', slots', shell, pids, ps[p], rs[p], ws[p], p)
    {
      ShellCallsOne(st, kinds, slots, kinds', slots', shell, pids, ps, rs, ws, p);
    }
    ShellKeepsShape(st);
  }

  lemma ShellKeepsShape(st: State)
    requires Pipeline.Shaped(st) && st.shell < 4 * |st.kinds|
    ensures Pipeline.Shaped(ShellStep(st)) && |ShellStep(st).pcs| == |st.pcs|
  {
  }

  lemma ShellCallsOne(st: State, kinds: seq<D.Kind>, slots: seq<seq<nat>>, kinds': seq<D.Kind>, slots': seq<seq<nat>>,
                      shell: nat, pids: seq<nat>, ps: seq<nat>, rs: seq<int>, ws: seq<int>, p: nat)
    requires Agrees(st, kinds, slots, shell, pids, ps, rs, ws) && st.shell < 4 * |st.kinds| && p < |ps|
    requires forall k :: 0 <= k < |st.pcs| && st.shell <= 4 * k + 1 ==> st.pcs[k].NotStarted?
    requires ShellCall(st, kinds, slots, kinds', slots', shell, pids, ps, rs, ws)
    ensures PipeAgrees(ShellStep(st), kinds', slots', shell, pids, ps[p], rs[p], ws[p], p)
  {
    hide W.Ends, ShellStep, ShellHoldsWrite, ShellHoldsRead, D.SlotsShaped, HoldsOutput, HoldsInput;
    var i, m := st.shell / 4, st.shell % 4;
    assert PipeAgrees(st, kinds, slots, shell, pids, ps[p], rs[p], ws[p], p);
    ShellHolds(st, p);
    NothingHeld(st, p);
    OneAtATime(st, kinds, slots, shell, pids, ps, rs, ws, p, true);
    OneAtATime(st, kinds, slots, shell, pids, ps, rs, ws, p, false);
    if m == 0 {
      ShellPipes(st, kinds, slots, kinds', slots', shell, pids, ps, rs, ws, p);
    } else if m == 1 {
      ShellSpawns(st, kinds, slots, kinds', slots', shell, pids, ps, rs, ws, p);
    }
  }

  lemma NothingHeld(st: State, p: nat)
    requires Pipeline.Shaped(st) && p + 1 < |st.pcs|
    requires forall k :: 0 <= k < |st.pcs| && st.shell <= 4 * k + 1 ==> st.pcs[k].NotStarted?
    ensures st.shell == 4 * p ==> !HoldsOutput(st.pcs[p]) && !HoldsInput(st.pcs[p + 1])
  {
  }

  /** The shell's input and output descriptors are for the pipes before and after the stage at hand. */
  lemma OneAtATime(st: State, kinds: seq<D.Kind>, slots: seq<seq<nat>>, shell: nat, pids: seq<nat>, ps: seq<nat>,
                   rs: seq<int>, ws: seq<int>, p: nat, w: bool)
    requires Agrees(st, kinds, slots, shell, pids, ps, rs, ws) && st.shell < 4 * |st.kinds| && p < |ps|
    ensures var i, m := st.shell / 4, st.shell % 4;
            && (m in {1, 2} && (shell, if i > 0 then rs[i - 1] else -1) in W.Ends(kinds, slots, ps[p], w) ==>
                 i == p + 1 && !w)
            && (m in {1, 3} && (shell, if i < |ps| then ws[i] else -1) in W.Ends(kinds, slots, ps[p], w) ==>
                 i == p && w)
  {
    hide W.Ends, ShellStep, ShellHoldsWrite, ShellHoldsRead, D.SlotsShaped, HoldsOutput, HoldsInput;
    var i, m := st.shell / 4, st.shell % 4;
    S.NoNegative(kinds, slots, shell);
    if i > 0 && m in {1, 2} && (shell, rs[i - 1]) in W.Ends(kinds, slots, ps[p], w) {
      assert PipeAgrees(st, kinds, slots, shell, pids, ps[i - 1], rs[i - 1], ws[i - 1], i - 1);
      ShellHolds(st, i - 1);
      S.OneEnd(kinds, slots, (shell, rs[i - 1]), ps[p], w, ps[i - 1], false);
    }
    if i < |ps| && m in {1, 3} && (shell, ws[i]) in W.Ends(kinds, slots, ps[p], w) {
      assert PipeAgrees(st, kinds, slots, shell, pids, ps[i], rs[i], ws[i], i);
      ShellHolds(st, i);
      S.OneEnd(kinds, slots, (shell, ws[i]), ps[p], w, ps[i], true);
    }
  }

  lemma ShellPipes(st: State, kinds: seq<D.Kind>, slots: seq<seq<nat>>, kinds': seq<D.Kind>, slots': seq<seq<nat>>,
                   shell: nat, pids: seq<nat>, ps: seq<nat>, rs: seq<int>, ws: seq<int>, p: nat)
    requires Agrees(st, kinds, slots, shell, pids, ps, rs, ws) && st.shell < 4 * |st.kinds| && p < |ps|
    requires st.shell % 4 == 0 && (st.shell == 4 * p ==> !HoldsOutput(st.pcs[p]) && !HoldsInput(st.pcs[p + 1]))
    requires ShellCall(st, kinds, slots, kinds', slots', shell, pids, ps, rs, ws)
    ensures PipeAgrees(ShellStep(st), kinds', slots', shell, pids, ps[p], rs[p], ws[p], p)
  {
    hide W.Ends, ShellStep, ShellHoldsWrite, ShellHoldsRead, D.SlotsShaped, HoldsOutput, HoldsInput, Pipeline.Shaped;
    assert PipeAgrees(st, kinds, slots, shell, pids, ps[p], rs[p], ws[p], p);
    ShellHolds(st, p);
  }

  lemma ShellSpawns(st: State, kinds: seq<D.Kind>, slots: seq<seq<nat>>, kinds': seq<D.Kind>, slots': seq<seq<nat>>,
                    shell: nat, pids: seq<nat>, ps: seq<nat>, rs: seq<int>, ws: seq<int>, p: nat)
    requires Agrees(st, kinds, slots, shell, pids, ps, rs, ws) && st.shell < 4 * |st.kinds| && p < |ps|
    requires st.shell % 4 == 1 && ShellCall(st, kinds, slots, kinds', slots', shell, pids, ps, rs, ws)
    ensures PipeAgrees(ShellStep(st), kinds', slots', shell, pids, ps[p], rs[p], ws[p], p)
  {
    hide W.Ends, ShellStep, ShellHoldsWrite, ShellHoldsRead, D.SlotsShaped, HoldsOutput, HoldsInput, Pipeline.Shaped;
    assert PipeAgrees(st, kinds, slots, shell, pids, ps[p], rs[p], ws[p], p);
    ShellHolds(st, p);
    OneAtATime(st, kinds, slots, shell, pids, ps, rs, ws, p, true);
    OneAtATime(st, kinds, slots, shell, pids, ps, rs, ws, p, false);
  }

  /** The file table and the descriptors at one moment. */
  datatype Fds = Fds(kinds: seq<D.Kind>, slots: seq<seq<nat>>)

  /** What the system call behind a step does to the descriptors for pipes: reads, writes and signals do nothing. */
  ghost predicate Call(st: State, step: Step, a: Fds, b: Fds, shell: nat, pids: seq<nat>, ps: seq<nat>, rs: seq<int>,
                       ws: seq<int>)
    requires Pipeline.Shaped(st) && Enabled(st, step) && Apart(st, shell, pids, ps, rs, ws)
  {
    match step
    case Shell => ShellCall(st, a.kinds, a.slots, b.kinds, b.slots, shell, pids, ps, rs, ws)
    case Stage(i) =>
      if st.pcs[i].Closing1? then ClosedOne(a.kinds, a.slots, b.kinds, b.slots, (pids[i], 1))
      else if st.pcs[i].Closing0? then ClosedOne(a.kinds, a.slots, b.kinds, b.slots, (pids[i], 0))
      else S.SameEnds(a.kinds, a.slots, b.kinds, b.slots)
    case Signal(_) => S.SameEnds(a.kinds, a.slots, b.kinds, b.slots)
  }

  /** A read, a write or a signal changes nobody's descriptors. */
  ghost predicate SameHolds(st: State, st': State, k: nat) {
    && Pipeline.Shaped(st) && Pipeline.Shaped(st') && k < |st.pcs| == |st'.pcs| && st'.shell == st.shell
    && HoldsOutput(st'.pcs[k]) == HoldsOutput(st.pcs[k]) && HoldsInput(st'.pcs[k]) == HoldsInput(st.pcs[k])
  }

  lemma ReadHolds(st: State, i: nat, k: nat)
    requires Pipeline.Shaped(st) && i < |st.pcs| && st.pcs[i].Read? && k < |st.pcs|
    ensures SameHolds(st, ReadStep(st, i), k)
  {
    hide Translate;
  }

  lemma WriteHolds(st: State, i: nat, k: nat)
    requires Pipeline.Shaped(st) && i < |st.pcs| && st.pcs[i].Write? && k < |st.pcs|
    ensures SameHolds(st, WriteStep(st, i), k)
  {
  }

  lemma OtherHolds(st: State, step: Step, k: nat)
    requires Pipeline.Shaped(st) && Enabled(st, step) && k < |st.pcs| && !step.Shell?
    requires step.Stage? ==> st.pcs[step.i].Read? || st.pcs[step.i].Write?
    ensures SameHolds(st, Next(st, step), k)
  {
    hide ReadStep, WriteStep, CloseStep;
    match step
    case Stage(i) =>
      if st.pcs[i].Read? {
        ReadHolds(st, i, k);
      } else {
        WriteHolds(st, i, k);
      }
    case Signal(i) =>
  }

  lemma OtherAgrees(st: State, step: Step, a: Fds, b: Fds, shell: nat, pids: seq<nat>, ps: seq<nat>, rs: seq<int>,
                    ws: seq<int>)
    requires Agrees(st, a.kinds, a.slots, shell, pids, ps, rs, ws) && Enabled(st, step) && !step.Shell?
    requires step.Stage? ==> st.pcs[step.i].Read? || st.pcs[step.i].Write?
    requires S.SameEnds(a.kinds, a.slots, b.kinds, b.slots)
    ensures Agrees(Next(st, step), b.kinds, b.slots, shell, pids, ps, rs, ws)
  {
    hide W.Ends, Next, HoldsOutput, HoldsInput, Pipeline.Shaped, ShellHoldsWrite, ShellHoldsRead, D.SlotsShaped,
         Enabled;
    forall p: nat | p < |ps|
      ensures PipeAgrees(Next(st, step), b.kinds, b.slots, shell, pids, ps[p], rs[p], ws[p], p)
    {
      assert PipeAgrees(st, a.kinds, a.slots, shell, pids, ps[p], rs[p], ws[p], p);
      OtherHolds(st, step, p);
      OtherHolds(st, step, p + 1);
      SameShell(st, Next(st, step), p);
    }
    OtherHolds(st, step, 0);
  }

  /** Every step of a pipeline changes the holders of its pipes as the system call behind it does. */
  lemma StepAgrees(st: State, step: Step, a: Fds, b: Fds, shell: nat, pids: seq<nat>, ps: seq<nat>, rs: seq<int>,
                   ws: seq<int>)
    requires Inv(st) && Agrees(st, a.kinds, a.slots, shell, pids, ps, rs, ws) && Enabled(st, step)
    requires Call(st, step, a, b, shell, pids, ps, rs, ws)
    ensures Agrees(Next(st, step), b.kinds, b.slots, shell, pids, ps, rs, ws)
  {
    hide Agrees, ShellCall, ClosedOne, S.SameEnds, ShellStep, ReadStep, WriteStep, CloseStep, SignalStep, Remaining,
         Composed;
    match step
    case Shell =>
      forall k | 0 <= k < |st.pcs| && st.shell <= 4 * k + 1 ensures st.pcs[k].NotStarted? {
        assert Sound(st, k);
      }
      ShellCalls(st, a.kinds, a.slots, b.kinds, b.slots, shell, pids, ps, rs, ws);
    case Stage(i) =>
      if st.pcs[i].Closing1? || st.pcs[i].Closing0? {
        StageCloses(st, a.kinds, a.slots, b.kinds, b.slots, shell, pids, ps, rs, ws, i);
      } else {
        OtherAgrees(st, step, a, b, shell, pids, ps, rs, ws);
      }
    case Signal(_) =>
      OtherAgrees(st, step, a, b, shell, pids, ps, rs, ws);
  }

  /** At the start nobody holds the pipes to be. */
  lemma StartAgrees(file: seq<byte>, kinds: seq<Kind>, a: Fds, shell: nat, pids: seq<nat>, ps: seq<nat>, rs: seq<int>,
                    ws: seq<int>)
    requires |kinds| >= 1 && Apart(Init(file, kinds), shell, pids, ps, rs, ws)
    requires D.SlotsShaped(a.slots) && |a.kinds| == D.NFILE
    requires forall p: nat, w: bool :: p < |ps| ==> W.Ends(a.kinds, a.slots, ps[p], w) == {}
    ensures Agrees(Init(file, kinds), a.kinds, a.slots, shell, pids, ps, rs, ws)
  {
    hide W.Ends, D.SlotsShaped;
  }

  /** In every run, with the descriptors that its system calls leave, an end is open in the step system exactly if some
      thread has a descriptor for it: the tests of pipe_read and pipe_write in it are those on the real flags. */
  lemma {:induction false} RunAgrees(trace: seq<State>, steps: seq<Step>, fds: seq<Fds>, shell: nat, pids: seq<nat>,
                                     ps: seq<nat>, rs: seq<int>, ws: seq<int>, k: nat)
    requires IsRun(trace, steps) && Inv(trace[0]) && k < |trace| == |fds|
    requires Agrees(trace[0], fds[0].kinds, fds[0].slots, shell, pids, ps, rs, ws)
    requires forall j, l :: 0 <= j < l == j + 1 < |trace| && Apart(trace[j], shell, pids, ps, rs, ws) ==>
               Call(trace[j], steps[j], fds[j], fds[l], shell, pids, ps, rs, ws)
    ensures Agrees(trace[k], fds[k].kinds, fds[k].slots, shell, pids, ps, rs, ws)
    ensures forall p: nat :: p < |ps| ==>
              && (WriteOpen(trace[k], p) <==> D.Held(fds[k].kinds, fds[k].slots, ps[p], true))
              && (ReadOpen(trace[k], p) <==> D.Held(fds[k].kinds, fds[k].slots, ps[p], false))
  {
    hide Inv, Next, PipeAgrees, D.Held, Enabled, D.SlotsShaped, Call, WriteOpen, ReadOpen;
    if k > 0 {
      RunAgrees(trace, steps, fds, shell, pids, ps, rs, ws, k - 1);
      RunKeepsInv(trace, steps, k - 1);
      StepAgrees(trace[k - 1], steps[k - 1], fds[k - 1], fds[k], shell, pids, ps, rs, ws);
    }
    forall p: nat | p < |ps|
      ensures WriteOpen(trace[k], p) <==> D.Held(fds[k].kinds, fds[k].slots, ps[p], true)
      ensures ReadOpen(trace[k], p) <==> D.Held(fds[k].kinds, fds[k].slots, ps[p], false)
    {
      OpenIsHeld(trace[k], fds[k].kinds, fds[k].slots, shell, pids, ps, rs, ws, p);
    }
  }

  /** The wiring that run_pipeline leaves is that of the step system once the shell is done and no stage has closed
      anything. */
  lemma WiredAgrees(st: State, stages: seq<S.Stage>, answers: seq<S.Answer>, a: Fds, shell: nat, pids: seq<nat>,
                    ps: seq<nat>, rs: seq<int>, ws: seq<int>)
    requires Pipeline.Shaped(st) && Apart(st, shell, pids, ps, rs, ws) && st.shell == 4 * |st.pcs|
    requires forall i :: 0 <= i < |st.pcs| ==> HoldsOutput(st.pcs[i]) && HoldsInput(st.pcs[i])
    requires |stages| == |answers| == |pids| && S.Wired(a.kinds, a.slots, stages, answers, ps, |stages|)
    requires forall i :: 0 <= i < |pids| ==> answers[i].pid == pids[i]
    requires forall i :: 0 < i < |stages| ==> stages[i].Plain?
    ensures Agrees(st, a.kinds, a.slots, shell, pids, ps, rs, ws)
  {
    hide W.Ends, D.SlotsShaped;
    forall p: nat | p < |ps| ensures PipeAgrees(st, a.kinds, a.slots, shell, pids, ps[p], rs[p], ws[p], p) {
      var q := p + 1;
      assert W.Ends(a.kinds, a.slots, ps[p], false) == {(answers[q].pid, 0)};
    }
  }
}
