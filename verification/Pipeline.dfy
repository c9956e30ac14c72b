/** The shell's pipeline `CAT f | s2 | ... | sk` as a step system: the shell wiring the stages up, and the
    stages reading, transforming, writing, sleeping, waking, closing and exiting, in any order. */
module Pipeline {
  import opened Bytes
  import opened Sequences
  import opened Pipe

  datatype Kind = Cat | Rot13

  predicate IsLower(c: byte) {
    97 <= c <= 122
  }

  predicate IsUpper(c: byte) {
    65 <= c <= 90
  }

  predicate IsLetter(c: byte) {
    IsLower(c) || IsUpper(c)
  }

  /** `r` is the letter of the same case that is 13 away from the letter `c`. */
  predicate HalfTurn(c: byte, r: byte) {
    (IsLower(c) <==> IsLower(r)) && (IsUpper(c) <==> IsUpper(r)) && IsLetter(c) && (r == c + 13 || c == r + 13)
  }

  /** rot13_char, on a byte; a signed char of 128 or more is negative and so not a letter. */
  function Rot13Char(c: byte): (r: byte)
    ensures if IsLetter(c) then HalfTurn(c, r) else r == c
  {
    if 97 <= c <= 122 then 97 + (c - 97 + 13) % 26
    else if 65 <= c <= 90 then 65 + (c - 65 + 13) % 26
    else c
  }

  /** What a stage does to one byte. */
  function Apply(kind: Kind, c: byte): byte {
    match kind
    case Cat => c
    case Rot13 => Rot13Char(c)
  }

  function Translate(kind: Kind, s: seq<byte>): (r: seq<byte>)
    ensures |r| == |s|
  {
    seq(|s|, k requires 0 <= k < |s| => Apply(kind, s[k]))
  }

  /** Where a stage's process is. `Write(buf, j)` is inside sys_write with `j` bytes of `buf` accepted. */
  datatype Pc =
    | NotStarted
    | Read
    | SleepRead
    | Write(buf: seq<byte>, j: nat)
    | SleepWrite(buf: seq<byte>, j: nat)
    | Closing1
    | Closing0
    | Dead

  /** `shell` counts the shell's steps: 4 per stage, making the pipe, spawning, closing the input end and
      closing the output end. Pipe `p` joins stage `p` to stage `p + 1`; the last stage writes `out`. */
  datatype State = State(file: seq<byte>, kinds: seq<Kind>, shell: nat, off: nat, pcs: seq<Pc>, pipes: seq<seq<byte>>,
    out: seq<byte>)

  predicate ShellHoldsWrite(st: State, p: nat) {
    4 * p + 1 <= st.shell <= 4 * p + 3
  }

  predicate ShellHoldsRead(st: State, p: nat) {
    4 * p + 1 <= st.shell <= 4 * (p + 1) + 2
  }

  /** Stage `i` has its standard output open; stage `i` has its standard input open. */
  predicate HoldsOutput(pc: Pc) {
    !pc.NotStarted? && !pc.Closing0? && !pc.Dead?
  }

  predicate HoldsInput(pc: Pc) {
    !pc.NotStarted? && !pc.Dead?
  }

  /** Some process holds the write end, or the read end, of pipe `p`. */
  predicate WriteOpen(st: State, p: nat)
    requires p < |st.pcs|
  {
    ShellHoldsWrite(st, p) || HoldsOutput(st.pcs[p])
  }

  predicate ReadOpen(st: State, p: nat)
    requires p + 1 < |st.pcs|
  {
    ShellHoldsRead(st, p) || HoldsInput(st.pcs[p + 1])
  }

  /** thread_wakeup(&p->nread) and thread_wakeup(&p->nwrite) on the stages of a pipeline. */
  function WakeReader(pcs: seq<Pc>, p: nat): (r: seq<Pc>)
    requires p + 1 < |pcs|
  {
    if pcs[p + 1].SleepRead? then pcs[p + 1 := Read] else pcs
  }

  function WakeWriter(pcs: seq<Pc>, p: nat): (r: seq<Pc>)
    requires p < |pcs|
  {
    match pcs[p]
    case SleepWrite(buf, j) => pcs[p := Write(buf, j)]
    case _ => pcs
  }

  predicate Shaped(st: State) {
    && 1 <= |st.kinds| == |st.pcs| == |st.pipes| + 1
    && st.off <= |st.file| && st.shell <= 4 * |st.kinds|
    && (forall p :: 0 <= p < |st.pipes| ==> |st.pipes[p]| <= PIPESIZE)
    && (forall i :: 0 <= i < |st.pcs| ==>
          && (st.pcs[i].Write? ==> st.pcs[i].j <= |st.pcs[i].buf|)
          && (st.pcs[i].SleepWrite? ==> st.pcs[i].j <= |st.pcs[i].buf|))
  }

  predicate Runnable(st: State, i: nat) {
    i < |st.pcs| && !st.pcs[i].NotStarted? && !st.pcs[i].SleepRead? && !st.pcs[i].SleepWrite? && !st.pcs[i].Dead?
  }

  /** sys_read(0, buf, 512) by stage `i`. */
  function ReadStep(st: State, i: nat): (r: State)
    requires Shaped(st) && i < |st.pcs| && st.pcs[i].Read?
  {
    if i == 0 then
      var m := Min(512, |st.file| - st.off);
      st.(off := st.off + m,
          pcs := st.pcs[0 := if m == 0 then Closing1
                             else Write(Translate(st.kinds[0], st.file[st.off..st.off + m]), 0)])
    else
      var r := ReadRegion(st.pipes[i - 1], WriteOpen(st, i - 1), 512);
      if r.sleeps then st.(pcs := st.pcs[i := SleepRead])
      else st.(pipes := st.pipes[i - 1 := r.inFlight],
               pcs := WakeWriter(st.pcs,
                 i - 1)[i := if r.bytes == [] then Closing1 else Write(Translate(st.kinds[i], r.bytes), 0)])
  }

  /** sys_write(1, buf, n) by stage `i`; cat and rot13 ignore its result. */
  function WriteStep(st: State, i: nat): (r: State)
    requires Shaped(st) && i < |st.pcs| && st.pcs[i].Write?
  {
    var Write(buf, j) := st.pcs[i];
    if i == |st.pcs| - 1 then st.(out := st.out + buf[j..], pcs := st.pcs[i := Read])
    else
      var r := WriteRegion(st.pipes[i], ReadOpen(st, i), buf, j);
      var pcs := if r.end.Broken? then st.pcs else WakeReader(st.pcs, i);
      st.(pipes := st.pipes[i := r.inFlight], pcs := pcs[i := if r.end.MustSleep? then SleepWrite(buf, r.i) else Read])
  }

  /** sys_close(1), and then the close of fd 0 by rot13 or by sys_exit. The last holder's close wakes the
      other side. */
  function CloseStep(st: State, i: nat): (r: State)
    requires Shaped(st) && i < |st.pcs| && (st.pcs[i].Closing1? || st.pcs[i].Closing0?)
  {
    if st.pcs[i].Closing1? then
      var r := st.(pcs := st.pcs[i := Closing0]);
      if i + 1 < |st.pcs| && !WriteOpen(r, i) then r.(pcs := WakeReader(r.pcs, i)) else r
    else
      var r := st.(pcs := st.pcs[i := Dead]);
      if i > 0 && !ReadOpen(r, i - 1) then r.(pcs := WakeWriter(r.pcs, i - 1)) else r
  }

  /** One step of run_pipeline's loop. */
  function ShellStep(st: State): (r: State)
    requires Shaped(st) && st.shell < 4 * |st.kinds|
  {
    var i, r := st.shell / 4, st.(shell := st.shell + 1);
    if st.shell % 4 == 1 then r.(pcs := st.pcs[i := Read])
    else if st.shell % 4 == 2 && i > 0 && !ReadOpen(r, i - 1) then r.(pcs := WakeWriter(r.pcs, i - 1))
    else if st.shell % 4 == 3 && i + 1 < |st.pcs| && !WriteOpen(r, i) then r.(pcs := WakeReader(r.pcs, i))
    else r
  }

  /** A signal wakes a sleeping stage for no reason of its own. */
  function SignalStep(st: State, i: nat): (r: State)
    requires Shaped(st) && i < |st.pcs|
  {
    match st.pcs[i]
    case SleepRead => st.(pcs := st.pcs[i := Read])
    case SleepWrite(buf, j) => st.(pcs := st.pcs[i := Write(buf, j)])
    case _ => st
  }

  datatype Step = Shell | Stage(i: nat) | Signal(i: nat)

  predicate Enabled(st: State, step: Step) {
    match step
    case Shell => st.shell < 4 * |st.kinds|
    case Stage(i) => Runnable(st, i)
    case Signal(i) => i < |st.pcs|
  }

  function Next(st: State, step: Step): (r: State)
    requires Shaped(st) && Enabled(st, step)
  {
    match step
    case Shell => ShellStep(st)
    case Stage(i) =>
      if st.pcs[i].Read? then ReadStep(st, i) else if st.pcs[i].Write? then WriteStep(st, i) else CloseStep(st, i)
    case Signal(i) => SignalStep(st, i)
  }

  function Init(file: seq<byte>, kinds: seq<Kind>): (st: State)
    requires |kinds| >= 1
    ensures Shaped(st)
  {
    State(file, kinds, 0, 0, seq(|kinds|, _ => NotStarted), seq(|kinds| - 1, _ => []), [])
  }

  /** The bytes a stage has read and transformed but not yet handed over. */
  function Pending(pc: Pc): (s: seq<byte>) {
    match pc
    case Write(buf, j) => if j <= |buf| then buf[j..] else []
    case SleepWrite(buf, j) => if j <= |buf| then buf[j..] else []
    case _ => []
  }

  /** The bytes stage `i` has still to hand over: what it holds, and the transform of all that is on its
      way to it. */
  ghost function Remaining(st: State, i: nat): (s: seq<byte>)
    requires Shaped(st) && i < |st.pcs|
  {
    Pending(st.pcs[i]) + Translate(st.kinds[i], Supply(st, i))
  }

  ghost function Supply(st: State, i: nat): (s: seq<byte>)
    requires Shaped(st) && i < |st.pcs|
    decreases i, 0
  {
    if i == 0 then st.file[st.off..]
      else st.pipes[i - 1] + Pending(st.pcs[i - 1]) + Translate(st.kinds[i - 1], Supply(st, i - 1))
  }

  /** The first `n` stages applied to the whole file. */
  ghost function Composed(kinds: seq<Kind>, n: nat, file: seq<byte>): (s: seq<byte>)
    requires n <= |kinds|
  {
    if n == 0 then file else Translate(kinds[n - 1], Composed(kinds, n - 1, file))
  }

  /** No stage sleeps without cause, and no stage closes before its input is really over. */
  ghost predicate Sound(st: State, i: nat)
    requires Shaped(st) && i < |st.pcs|
  {
    && (st.pcs[i].NotStarted? <==> st.shell < 4 * i + 2)
    && (st.pcs[i].SleepRead? ==> i > 0 && st.pipes[i - 1] == [] && WriteOpen(st, i - 1))
    && (st.pcs[i].SleepWrite? ==>
          i + 1 < |st.pcs| && st.pcs[i].j < |st.pcs[i].buf| && |st.pipes[i]| == PIPESIZE && ReadOpen(st, i))
    && (st.pcs[i].Write? ==> st.pcs[i].j < |st.pcs[i].buf|)
    && (st.pcs[i].Closing1? || st.pcs[i].Closing0? || st.pcs[i].Dead? ==>
          if i == 0 then st.off == |st.file| else st.pipes[i - 1] == [] && !WriteOpen(st, i - 1))
  }

  ghost predicate Inv(st: State) {
    && Shaped(st)
    && (forall i: nat :: i < |st.pcs| ==> Sound(st, i))
    && st.out + Remaining(st, |st.pcs| - 1) == Composed(st.kinds, |st.kinds|, st.file)
  }

  /** A stage that can still write has a reader, now or to come: pipe_write never returns -1. */
  lemma WriterHasReader(st: State, i: nat)
    requires Shaped(st) && i + 1 < |st.pcs| && Sound(st, i) && Sound(st, i + 1) && HoldsOutput(st.pcs[i])
    ensures ReadOpen(st, i)
  {
  }

  lemma TranslateConcat(kind: Kind, a: seq<byte>, b: seq<byte>)
    ensures Translate(kind, a + b) == Translate(kind, a) + Translate(kind, b)
  {
  }

  /** What is on its way to stage `n` depends only on what lies upstream. */
  lemma {:induction false} SupplyKept(st: State, st': State, lo: nat, n: nat)
    requires Shaped(st) && Shaped(st') && st'.kinds == st.kinds && lo <= n < |st.pcs|
    requires Supply(st', lo) == Supply(st, lo)
    requires forall j :: lo <= j < n ==> Pending(st'.pcs[j]) == Pending(st.pcs[j]) && st'.pipes[j] == st.pipes[j]
    ensures Supply(st', n) == Supply(st, n)
    decreases n - lo
  {
    hide Translate, Pending;
    if lo < n {
      SupplyKept(st, st', lo, n - 1);
      assert Supply(st', n) ==
               st'.pipes[n - 1] + Pending(st'.pcs[n - 1]) + Translate(st'.kinds[n - 1], Supply(st', n - 1));
    }
  }

  /** Stage `i` has read `s` bytes and handed over `r`; no other stage's work has changed, and what is out
      and still to come out is as before. */
  ghost predicate Moved(st: State, st': State, i: nat, s: nat, r: nat)
    requires Shaped(st) && Shaped(st')
  {
    && |st'.pcs| == |st.pcs| && st'.kinds == st.kinds && st'.file == st.file
    && (forall n: nat :: n < |st.pcs| ==> |Supply(st', n)| == |Supply(st, n)| - (if n == i then s else 0))
    && (forall n: nat :: n < |st.pcs| ==> |Remaining(st', n)| == |Remaining(st, n)| - (if n == i then r else 0))
    && st'.out + Remaining(st', |st.pcs| - 1) == st.out + Remaining(st, |st.pcs| - 1)
  }

  /** A step that moves no byte. */
  lemma NothingMoved(st: State, st': State)
    requires Shaped(st) && Shaped(st') && st'.kinds == st.kinds && st'.file == st.file && st'.off == st.off
    requires st'.pipes == st.pipes && st'.out == st.out
    requires forall j :: 0 <= j < |st.pcs| ==> Pending(st'.pcs[j]) == Pending(st.pcs[j])
    ensures Moved(st, st', 0, 0, 0)
  {
    hide Translate;
    forall n: nat | n < |st.pcs| ensures Supply(st', n) == Supply(st, n) && Remaining(st', n) == Remaining(st, n) {
      SupplyKept(st, st', 0, n);
    }
  }

  /** Stage `i` takes `bytes` from the front of its supply. */
  lemma MovedByRead(st: State, st': State, i: nat, bytes: seq<byte>)
    requires Shaped(st) && Shaped(st') && st'.kinds == st.kinds && st'.out == st.out && i < |st.pcs|
    requires st.pcs[i].Read? && Pending(st'.pcs[i]) == Translate(st.kinds[i], bytes)
    requires Supply(st, i) == bytes + Supply(st', i)
    requires forall j :: 0 <= j < |st.pcs| && j != i ==> Pending(st'.pcs[j]) == Pending(st.pcs[j])
    requires forall p :: 0 <= p < |st.pipes| && p != i - 1 ==> st'.pipes[p] == st.pipes[p]
    requires i > 0 ==> st'.file == st.file && st'.off == st.off
    ensures forall n: nat :: n < |st.pcs| && n != i ==> Supply(st', n) == Supply(st, n)
    ensures forall n: nat :: n < |st.pcs| ==> Remaining(st', n) == Remaining(st, n)
  {
    hide Translate, Pending;
    RemainingKept(st, st', i, bytes);
    forall n: nat | n < |st.pcs| && n != i ensures Supply(st', n) == Supply(st, n) {
      if n < i {
        SupplyKept(st, st', 0, n);
      } else {
        SupplyKept(st, st', i + 1, n);
      }
    }
    hide Supply;
  }

  /** What stage `i` still has to write, and what stage `i + 1` still has to read, do not change. */
  lemma RemainingKept(st: State, st': State, i: nat, bytes: seq<byte>)
    requires Shaped(st) && Shaped(st') && st'.kinds == st.kinds && i < |st.pcs|
    requires st.pcs[i].Read? && Pending(st'.pcs[i]) == Translate(st.kinds[i], bytes)
    requires Supply(st, i) == bytes + Supply(st', i) && (i + 1 < |st.pcs| ==> st'.pipes[i] == st.pipes[i])
    ensures Remaining(st', i) == Remaining(st, i) && (i + 1 < |st.pcs| ==> Supply(st', i + 1) == Supply(st, i + 1))
  {
    hide Translate, Supply;
    TranslateConcat(st.kinds[i], bytes, Supply(st', i));
    if i + 1 < |st.pcs| {
      SupplyIs(st, i);
      SupplyIs(st', i);
    }
  }

  /** What is on its way to a stage is what is in its pipe and what the stage before has still to hand over. */
  lemma SupplyIs(st: State, i: nat)
    requires Shaped(st) && i + 1 < |st.pcs|
    ensures Supply(st, i + 1) == st.pipes[i] + Remaining(st, i)
  {
    hide Translate, Pending;
    Joined(st.pipes[i], Pending(st.pcs[i]), Translate(st.kinds[i], Supply(st, i)));
  }

  lemma Joined(a: seq<byte>, b: seq<byte>, c: seq<byte>)
    ensures a + b + c == a + (b + c)
  {
  }

  /** Stage `i` hands `m` bytes to its pipe. */
  lemma MovedByWrite(st: State, st': State, i: nat)
    requires Shaped(st) && Shaped(st') && st'.kinds == st.kinds && st'.file == st.file && st'.off == st.off
    requires st'.out == st.out
    requires i + 1 < |st.pcs| && st'.pipes[i] + Pending(st'.pcs[i]) == st.pipes[i] + Pending(st.pcs[i])
    requires forall j :: 0 <= j < |st.pcs| && j != i ==> Pending(st'.pcs[j]) == Pending(st.pcs[j])
    requires forall p :: 0 <= p < |st.pipes| && p != i ==> st'.pipes[p] == st.pipes[p]
    ensures forall n: nat :: n < |st.pcs| ==> Supply(st', n) == Supply(st, n)
    ensures forall n: nat :: n < |st.pcs| && n != i ==> Remaining(st', n) == Remaining(st, n)
  {
    hide Translate, Pending;
    SupplyKept(st, st', 0, i);
    assert Supply(st', i + 1) == Supply(st, i + 1);
    forall n: nat | n < |st.pcs| ensures Supply(st', n) == Supply(st, n) {
      if n <= i {
        SupplyKept(st, st', 0, n);
      } else {
        SupplyKept(st, st', i + 1, n);
      }
    }
    hide Supply;
  }

  ghost predicate AllSound(st: State) {
    Shaped(st) && forall i: nat :: i < |st.pcs| ==> Sound(st, i)
  }

  lemma ReadSound(st: State, i: nat)
    requires AllSound(st) && i < |st.pcs| && st.pcs[i].Read?
    ensures AllSound(ReadStep(st, i))
  {
    hide Translate;
    var st' := ReadStep(st, i);
    forall j: nat | j < |st'.pcs| ensures Sound(st', j) {
      assert Sound(st, j);
    }
  }

  lemma WriteSound(st: State, i: nat)
    requires AllSound(st) && i < |st.pcs| && st.pcs[i].Write?
    ensures AllSound(WriteStep(st, i))
    ensures i + 1 < |st.pcs| ==> !WriteRegion(st.pipes[i], ReadOpen(st, i), st.pcs[i].buf, st.pcs[i].j).end.Broken?
  {
    hide Sound, WriteOpen, ReadOpen;
    if i + 1 < |st.pcs| {
      assert Sound(st, i + 1);
      NeverBroken(st, i);
    }
    var st' := WriteStep(st, i);
    forall j: nat | j < |st'.pcs| ensures Sound(st', j) {
      WriteSoundAt(st, i, j);
    }
  }

  lemma NeverBroken(st: State, i: nat)
    requires Shaped(st) && i + 1 < |st.pcs| && st.pcs[i].Write? && Sound(st, i) && Sound(st, i + 1)
    ensures ReadOpen(st, i) && !WriteRegion(st.pipes[i], ReadOpen(st, i), st.pcs[i].buf, st.pcs[i].j).end.Broken?
  {
    WriterHasReader(st, i);
  }

  lemma WriteSoundAt(st: State, i: nat, j: nat)
    requires Shaped(st) && i < |st.pcs| && st.pcs[i].Write? && j < |st.pcs| && Sound(st, i) && Sound(st, j)
    requires i + 1 < |st.pcs| ==> ReadOpen(st, i)
    ensures Shaped(WriteStep(st, i)) && |WriteStep(st, i).pcs| == |st.pcs| && Sound(WriteStep(st, i), j)
  {
  }

  lemma CloseSound(st: State, i: nat)
    requires AllSound(st) && i < |st.pcs| && (st.pcs[i].Closing1? || st.pcs[i].Closing0?)
    ensures AllSound(CloseStep(st, i))
  {
    hide Sound, WriteOpen, ReadOpen;
    var st' := CloseStep(st, i);
    forall j: nat | j < |st'.pcs| ensures Sound(st', j) {
      CloseSoundAt(st, i, j);
    }
  }

  lemma CloseSoundAt(st: State, i: nat, j: nat)
    requires Shaped(st) && i < |st.pcs| && (st.pcs[i].Closing1? || st.pcs[i].Closing0?) && j < |st.pcs| && Sound(st, i)
    requires Sound(st, j)
    ensures Shaped(CloseStep(st, i)) && |CloseStep(st, i).pcs| == |st.pcs| && Sound(CloseStep(st, i), j)
  {
    hide Sound, CloseStep, WriteOpen, ReadOpen;
    if st.pcs[i].Closing1? {
      ClosedOutputSound(st, i, j);
    } else {
      ClosedInputSound(st, i, j);
    }
  }

  lemma ClosedOutputSound(st: State, i: nat, j: nat)
    requires Shaped(st) && i < |st.pcs| && st.pcs[i].Closing1? && j < |st.pcs| && Sound(st, i) && Sound(st, j)
    ensures Shaped(CloseStep(st, i)) && |CloseStep(st, i).pcs| == |st.pcs| && Sound(CloseStep(st, i), j)
  {
  }

  lemma ClosedInputSound(st: State, i: nat, j: nat)
    requires Shaped(st) && i < |st.pcs| && st.pcs[i].Closing0? && j < |st.pcs| && Sound(st, i) && Sound(st, j)
    ensures Shaped(CloseStep(st, i)) && |CloseStep(st, i).pcs| == |st.pcs| && Sound(CloseStep(st, i), j)
  {
  }

  lemma ShellSound(st: State)
    requires AllSound(st) && st.shell < 4 * |st.kinds|
    ensures AllSound(ShellStep(st))
  {
    hide Sound, WriteOpen, ReadOpen;
    var st', i := ShellStep(st), st.shell / 4;
    ShellSoundAt(st, i);
    forall j: nat | j < |st'.pcs| ensures Sound(st', j) {
      ShellSoundAt(st, j);
    }
  }

  lemma ShellSoundAt(st: State, j: nat)
    requires Shaped(st) && st.shell < 4 * |st.kinds| && j < |st.pcs| && Sound(st, j) && Sound(st, st.shell / 4)
    ensures Shaped(ShellStep(st)) && |ShellStep(st).pcs| == |st.pcs| && Sound(ShellStep(st), j)
  {
    hide Sound, ShellStep, WriteOpen, ReadOpen;
    match st.shell % 4
    case 0 => PipeMadeSound(st, j);
    case 1 => SpawnedSound(st, j);
    case 2 => InputClosedSound(st, j);
    case _ => OutputClosedSound(st, j);
  }

  lemma PipeMadeSound(st: State, j: nat)
    requires Shaped(st) && st.shell < 4 * |st.kinds| && st.shell % 4 == 0 && j < |st.pcs| && Sound(st, j)
    ensures Shaped(ShellStep(st)) && |ShellStep(st).pcs| == |st.pcs| && Sound(ShellStep(st), j)
  {
  }

  lemma SpawnedSound(st: State, j: nat)
    requires Shaped(st) && st.shell < 4 * |st.kinds| && st.shell % 4 == 1 && j < |st.pcs| && Sound(st, j)
    requires Sound(st, st.shell / 4)
    ensures Shaped(ShellStep(st)) && |ShellStep(st).pcs| == |st.pcs| && Sound(ShellStep(st), j)
  {
  }

  lemma InputClosedSound(st: State, j: nat)
    requires Shaped(st) && st.shell < 4 * |st.kinds| && st.shell % 4 == 2 && j < |st.pcs| && Sound(st, j)
    requires Sound(st, st.shell / 4)
    ensures Shaped(ShellStep(st)) && |ShellStep(st).pcs| == |st.pcs| && Sound(ShellStep(st), j)
  {
  }

  lemma OutputClosedSound(st: State, j: nat)
    requires Shaped(st) && st.shell < 4 * |st.kinds| && st.shell % 4 == 3 && j < |st.pcs| && Sound(st, j)
    requires Sound(st, st.shell / 4)
    ensures Shaped(ShellStep(st)) && |ShellStep(st).pcs| == |st.pcs| && Sound(ShellStep(st), j)
  {
  }

  lemma SignalSound(st: State, i: nat)
    requires AllSound(st) && i < |st.pcs|
    ensures AllSound(SignalStep(st, i))
  {
    var st' := SignalStep(st, i);
    forall j: nat | j < |st'.pcs| ensures Sound(st', j) {
      assert Sound(st, j);
    }
  }

  /** How many bytes the next ReadStep of stage `i` takes, and how many its next WriteStep hands over. */
  function Takes(st: State, i: nat): nat
    requires Shaped(st) && i < |st.pcs|
  {
    if i == 0 then Min(512, |st.file| - st.off) else |ReadRegion(st.pipes[i - 1], WriteOpen(st, i - 1), 512).bytes|
  }

  function Gives(st: State, i: nat): nat
    requires Shaped(st) && i < |st.pcs| && st.pcs[i].Write?
  {
    var Write(buf, j) := st.pcs[i];
    if i == |st.pcs| - 1 then |buf| - j else WriteRegion(st.pipes[i], ReadOpen(st, i), buf, j).i - j
  }

  lemma ReadFileFlow(st: State)
    requires AllSound(st) && st.pcs[0].Read?
    ensures AllSound(ReadStep(st, 0)) && Moved(st, ReadStep(st, 0), 0, Takes(st, 0), 0)
  {
    ReadSound(st, 0);
    hide Translate, Sound, Remaining;
    var st', m := ReadStep(st, 0), Takes(st, 0);
    var bytes := st.file[st.off..st.off + m];
    assert st.file[st.off..] == bytes + st'.file[st'.off..];
    TranslateNothing(st.kinds[0]);
    MovedByRead(st, st', 0, bytes);
  }

  lemma ReadPipeFlow(st: State, i: nat)
    requires AllSound(st) && 0 < i < |st.pcs| && st.pcs[i].Read?
    ensures AllSound(ReadStep(st, i)) && Moved(st, ReadStep(st, i), i, Takes(st, i), 0)
  {
    hide Translate, Sound, Remaining, WriteOpen, Supply;
    ReadSound(st, i);
    var st' := ReadStep(st, i);
    var r := ReadRegion(st.pipes[i - 1], WriteOpen(st, i - 1), 512);
    TranslateNothing(st.kinds[i]);
    SupplyAfterRead(st, st', i, r.bytes);
    MovedByRead(st, st', i, r.bytes);
  }

  lemma SupplyAfterRead(st: State, st': State, i: nat, bytes: seq<byte>)
    requires Shaped(st) && Shaped(st') && st'.kinds == st.kinds && st'.file == st.file && st'.off == st.off
    requires 0 < i < |st.pcs|
    requires st.pipes[i - 1] == bytes + st'.pipes[i - 1]
    requires forall j :: 0 <= j < i ==> Pending(st'.pcs[j]) == Pending(st.pcs[j])
    requires forall p :: 0 <= p < i - 1 ==> st'.pipes[p] == st.pipes[p]
    ensures Supply(st, i) == bytes + Supply(st', i)
  {
    hide Translate, Pending;
    SupplyKept(st, st', 0, i - 1);
  }

  lemma TranslateNothing(kind: Kind)
    ensures Translate(kind, []) == []
  {
  }

  lemma WriteFlow(st: State, i: nat)
    requires AllSound(st) && i < |st.pcs| && st.pcs[i].Write?
    ensures AllSound(WriteStep(st, i)) && Moved(st, WriteStep(st, i), i, 0, Gives(st, i))
  {
    hide Translate, Sound, Moved, ReadOpen;
    WriteSound(st, i);
    if i == |st.pcs| - 1 {
      WriteOutFlow(st, i);
    } else {
      assert Sound(st, i) && Sound(st, i + 1);
      WriterHasReader(st, i);
      WritePipeFlow(st, i);
    }
  }

  lemma WriteOutFlow(st: State, i: nat)
    requires Shaped(st) && i == |st.pcs| - 1 && st.pcs[i].Write? && Shaped(WriteStep(st, i))
    ensures Moved(st, WriteStep(st, i), i, 0, Gives(st, i))
  {
    hide Translate;
    var st' := WriteStep(st, i);
    forall n: nat | n < |st.pcs| ensures Supply(st', n) == Supply(st, n) {
      SupplyKept(st, st', 0, n);
    }
    hide Supply;
  }

  lemma WritePipeFlow(st: State, i: nat)
    requires Shaped(st) && i + 1 < |st.pcs| && st.pcs[i].Write? && Shaped(WriteStep(st, i)) && ReadOpen(st, i)
    ensures Moved(st, WriteStep(st, i), i, 0, Gives(st, i))
  {
    hide Translate, Supply, Pending, ReadOpen;
    WroteBytes(st, i);
    hide WriteStep;
    MovedByWrite(st, WriteStep(st, i), i);
  }

  /** The bytes that leave the buffer are in the pipe. */
  lemma WroteBytes(st: State, i: nat)
    requires Shaped(st) && i + 1 < |st.pcs| && st.pcs[i].Write? && ReadOpen(st, i)
    ensures var st' := WriteStep(st, i);
            && st'.kinds == st.kinds && st'.file == st.file && st'.off == st.off && st'.out == st.out
            && |st'.pcs| == |st.pcs| && |st'.pipes| == |st.pipes|
            && st'.pipes[i] + Pending(st'.pcs[i]) == st.pipes[i] + Pending(st.pcs[i])
            && |Pending(st'.pcs[i])| == |Pending(st.pcs[i])| - Gives(st, i)
            && (forall j :: 0 <= j < |st.pcs| && j != i ==> Pending(st'.pcs[j]) == Pending(st.pcs[j]))
            && (forall p :: 0 <= p < |st.pipes| && p != i ==> st'.pipes[p] == st.pipes[p])
  {
    hide ReadOpen, WriteRegion;
    var Write(buf, j) := st.pcs[i];
    SliceJoin(st.pipes[i], buf, j, WriteRegion(st.pipes[i], ReadOpen(st, i), buf, j).i);
  }

  lemma SliceJoin(p: seq<byte>, buf: seq<byte>, j: nat, k: nat)
    requires j <= k <= |buf|
    ensures p + buf[j..k] + buf[k..] == p + buf[j..]
    ensures k == |buf| ==> buf[k..] == []
  {
  }

  /** The other steps move nothing. */
  lemma CloseFlow(st: State, i: nat)
    requires AllSound(st) && i < |st.pcs| && (st.pcs[i].Closing1? || st.pcs[i].Closing0?)
    ensures AllSound(CloseStep(st, i)) && Moved(st, CloseStep(st, i), 0, 0, 0)
  {
    hide Translate, Sound, Supply, Remaining, WriteOpen, ReadOpen, Moved, CloseStep, Pending;
    CloseSound(st, i);
    ClosePending(st, i);
    NothingMoved(st, CloseStep(st, i));
  }

  lemma ClosePending(st: State, i: nat)
    requires Shaped(st) && i < |st.pcs| && (st.pcs[i].Closing1? || st.pcs[i].Closing0?)
    ensures SameBuffers(st, CloseStep(st, i))
  {
    hide WriteOpen, ReadOpen, Pending, WakeReader, WakeWriter;
    var pcs := st.pcs[i := if st.pcs[i].Closing1? then Closing0 else Dead];
    HoldsNothing(st.pcs[i]);
    HoldsNothing(pcs[i]);
    if i + 1 < |st.pcs| {
      WakePending(pcs, i);
    }
    if i > 0 {
      WakePending(pcs, i - 1);
    }
  }

  /** Waking a stage does not touch its buffer. */
  lemma WakePending(pcs: seq<Pc>, p: nat)
    requires p + 1 < |pcs|
    ensures |WakeReader(pcs, p)| == |WakeWriter(pcs, p)| == |pcs|
    ensures forall j :: 0 <= j < |pcs| ==> Pending(WakeReader(pcs, p)[j]) == Pending(pcs[j])
    ensures forall j :: 0 <= j < |pcs| ==> Pending(WakeWriter(pcs, p)[j]) == Pending(pcs[j])
  {
    forall j | 0 <= j < |pcs| ensures Pending(WakeWriter(pcs, p)[j]) == Pending(pcs[j]) {
      if j == p && pcs[p].SleepWrite? {
        assert WakeWriter(pcs, p)[p] == Write(pcs[p].buf, pcs[p].j);
      }
    }
    hide Pending;
    HoldsNothing(pcs[p + 1]);
    HoldsNothing(Read);
  }

  lemma HoldsNothing(pc: Pc)
    ensures !pc.Write? && !pc.SleepWrite? ==> Pending(pc) == []
  {
  }

  /** Everything that holds bytes is as before. */
  ghost predicate SameBuffers(st: State, st': State) {
    && st'.kinds == st.kinds && st'.file == st.file && st'.off == st.off && st'.pipes == st.pipes && st'.out == st.out
    && |st'.pcs| == |st.pcs| && forall j :: 0 <= j < |st.pcs| ==> Pending(st'.pcs[j]) == Pending(st.pcs[j])
  }

  lemma ShellFlow(st: State)
    requires AllSound(st) && st.shell < 4 * |st.kinds|
    ensures AllSound(ShellStep(st)) && Moved(st, ShellStep(st), 0, 0, 0)
  {
    hide Translate, Sound, Supply, Remaining, WriteOpen, ReadOpen, Moved, ShellStep, Pending;
    ShellSound(st);
    ShellPending(st);
    NothingMoved(st, ShellStep(st));
  }

  lemma ShellPending(st: State)
    requires Shaped(st) && st.shell < 4 * |st.kinds| && Sound(st, st.shell / 4)
    ensures SameBuffers(st, ShellStep(st))
  {
    hide WriteOpen, ReadOpen, Pending, WakeReader, WakeWriter;
    var i := st.shell / 4;
    HoldsNothing(st.pcs[i]);
    HoldsNothing(Read);
    if i + 1 < |st.pcs| {
      WakePending(st.pcs, i);
    }
    if i > 0 {
      WakePending(st.pcs, i - 1);
    }
  }

  lemma SignalFlow(st: State, i: nat)
    requires AllSound(st) && i < |st.pcs|
    ensures AllSound(SignalStep(st, i)) && Moved(st, SignalStep(st, i), 0, 0, 0)
  {
    SignalSound(st, i);
    hide Translate, Sound, Supply, Remaining;
    hide Moved;
    NothingMoved(st, SignalStep(st, i));
  }

  /** Every step keeps the stages sound, and moves what it moves. */
  lemma StepFlow(st: State, step: Step)
    requires AllSound(st) && Enabled(st, step)
    ensures AllSound(Next(st, step))
    ensures st.out + Remaining(st, |st.pcs| - 1) == Next(st, step).out + Remaining(Next(st, step), |st.pcs| - 1)
    ensures Next(st, step).file == st.file && Next(st, step).kinds == st.kinds
  {
    hide Supply, Remaining, Sound, Takes, Gives, ReadStep, WriteStep, CloseStep, ShellStep, SignalStep;
    match step {
      case Shell => ShellFlow(st);
      case Signal(i) => SignalFlow(st, i);
      case Stage(i) =>
        if st.pcs[i].Read? {
          if i == 0 { ReadFileFlow(st); } else { ReadPipeFlow(st, i); }
        } else if st.pcs[i].Write? {
          WriteFlow(st, i);
        } else {
          CloseFlow(st, i);
        }
    }
  }

  /** Every step of every schedule keeps the invariant. */
  lemma StepKeepsInv(st: State, step: Step)
    requires Inv(st) && Enabled(st, step)
    ensures Inv(Next(st, step)) && Next(st, step).file == st.file && Next(st, step).kinds == st.kinds
  {
    hide Supply, Remaining, Next, Sound, Composed;
    StepFlow(st, step);
  }
}
