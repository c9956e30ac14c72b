/** The thread scheduler on one CPU: spawn, yield, sleep, wakeup, exit and kill. */
module Scheduler {
  import opened Params
  import opened ReadyQueue
  import opened Sequences

  datatype TState = Ready | Run | Sleep | Dead

  const IDLE: nat := 1

  /** The scheduler's variables, with the ready queue as a sequence. Channel 0 is no channel. */
  datatype Sched = Sched(state: seq<TState>, chan: seq<nat>, cur: nat, queue: seq<nat>)

  /** A pid is queued iff READY and running iff current; the idle thread is always one or the other.
      Pid 0, the boot thread, stays RUN forever and is never queued. */
  ghost predicate Ok(s: Sched) {
    && |s.state| == |s.chan| == NUM_IDS
    && 1 <= s.cur < NUM_IDS
    && (forall k :: 0 <= k < |s.queue| ==> 1 <= s.queue[k] < NUM_IDS)
    && (forall j, k :: 0 <= j < k < |s.queue| ==> s.queue[j] != s.queue[k])
    && (forall pid: nat :: 1 <= pid < NUM_IDS ==> (pid in s.queue <==> s.state[pid].Ready?))
    && (forall pid: nat :: 1 <= pid < NUM_IDS ==> (s.state[pid].Run? <==> pid == s.cur))
    && (s.state[IDLE].Ready? || s.state[IDLE].Run?)
  }

  datatype Step = Spawn(pid: nat) | Yield | SleepOn(ch: nat) | Wakeup(ch: nat) | Exit | Kill(pid: nat)

  /** What the callers of the scheduler guarantee: a spawned pid was never used, idle neither sleeps nor
      exits nor is killed, and SIGKILL is sent to a live process other than the sender. */
  predicate Enabled(s: Sched, step: Step)
    requires |s.state| == NUM_IDS
  {
    match step
    case Spawn(pid) => 1 <= pid < NUM_IDS && s.state[pid].Dead?
    case Yield => true
    case SleepOn(_) => s.cur != IDLE
    case Wakeup(_) => true
    case Exit => s.cur != IDLE
    case Kill(pid) => pid < NUM_IDS && !s.state[pid].Dead? && pid != s.cur && pid != IDLE
  }

  ghost predicate Shape(s: Sched) {
    |s.state| == |s.chan| == NUM_IDS && s.cur < NUM_IDS
  }

  /** Give the CPU to the head of the queue. Of an empty queue, which the C would follow out of the TCB
      array, nothing is said; it does not arise. */
  function Dispatch(s: Sched): (r: Sched)
    requires |s.state| == NUM_IDS
  {
    if s.queue == [] || s.queue[0] >= NUM_IDS then s
    else s.(state := s.state[s.queue[0] := Run], cur := s.queue[0], queue := s.queue[1..])
  }

  /** One turn of thread_wakeup's loop. */
  function WakeAt(s: Sched, ch: nat, pid: nat): (r: Sched)
    requires |s.state| == |s.chan| == NUM_IDS && pid < NUM_IDS
    ensures |r.state| == |r.chan| == NUM_IDS && r.cur == s.cur
  {
    if s.chan[pid] == ch && s.state[pid].Sleep?
    then s.(state := s.state[pid := Ready], chan := s.chan[pid := 0], queue := s.queue + [pid])
    else s
  }

  /** thread_wakeup's loop from `pid` on. */
  function WakeFrom(s: Sched, ch: nat, pid: nat): (r: Sched)
    requires |s.state| == |s.chan| == NUM_IDS
    ensures |r.state| == |r.chan| == NUM_IDS && r.cur == s.cur
    decreases NUM_IDS - pid
  {
    if pid >= NUM_IDS then s
    else WakeFrom(WakeAt(s, ch, pid), ch, pid + 1)
  }

  /** sys_kill with SIGKILL on any pid. */
  ghost function Killed(s: Sched, pid: nat): Sched
    requires |s.state| == NUM_IDS && pid < NUM_IDS
  {
    s.(state := s.state[pid := Dead], queue := Without(s.queue, pid))
  }

  ghost function Next(s: Sched, step: Step): (r: Sched)
    requires Shape(s) && Enabled(s, step)
  {
    match step
    case Spawn(pid) => s.(state := s.state[pid := Ready], queue := s.queue + [pid])
    case Yield => Dispatch(s.(state := s.state[s.cur := Ready], queue := s.queue + [s.cur]))
    case SleepOn(ch) => Dispatch(s.(state := s.state[s.cur := Sleep], chan := s.chan[s.cur := ch]))
    case Wakeup(ch) => WakeFrom(s, ch, 1)
    case Exit => Dispatch(s.(state := s.state[s.cur := Dead]))
    case Kill(pid) => Killed(s, pid)
  }

  /** When another thread runs, idle is in the queue: thread_sleep's dequeue always finds a thread, and
      thread_exit's fallback for an empty queue is dead code. */
  lemma IdleIsQueued(s: Sched)
    requires Ok(s) && s.cur != IDLE
    ensures IDLE in s.queue && s.queue != []
  {
  }

  lemma {:induction false} WakeKeepsOk(s: Sched, ch: nat, pid: nat)
    requires Ok(s) && pid >= 1
    ensures Ok(WakeFrom(s, ch, pid))
    decreases NUM_IDS - pid
  {
    if pid < NUM_IDS {
      WakeAtOk(s, ch, pid);
      hide Ok, WakeAt;
      WakeKeepsOk(WakeAt(s, ch, pid), ch, pid + 1);
    }
  }

  lemma WakeAtOk(s: Sched, ch: nat, pid: nat)
    requires Ok(s) && 1 <= pid < NUM_IDS
    ensures Ok(WakeAt(s, ch, pid)) && (s.state[pid].Sleep? ==> pid !in s.queue)
  {
  }

  /** The instant between taking the CPU from one thread and giving it to the next. */
  ghost predicate CpuFree(s: Sched) {
    && |s.state| == |s.chan| == NUM_IDS && s.queue != []
    && (forall k :: 0 <= k < |s.queue| ==> 1 <= s.queue[k] < NUM_IDS)
    && (forall j, k :: 0 <= j < k < |s.queue| ==> s.queue[j] != s.queue[k])
    && (forall pid: nat :: 1 <= pid < NUM_IDS ==> (pid in s.queue <==> s.state[pid].Ready?) && !s.state[pid].Run?)
    && s.state[IDLE].Ready?
  }

  lemma DispatchOk(s: Sched)
    requires CpuFree(s)
    ensures Ok(Dispatch(s))
  {
  }

  lemma YieldFrees(s: Sched)
    requires Ok(s)
    ensures CpuFree(s.(state := s.state[s.cur := Ready], queue := s.queue + [s.cur]))
  {
    assert s.cur !in s.queue;
  }

  lemma SleepFrees(s: Sched, ch: nat)
    requires Ok(s) && s.cur != IDLE
    ensures CpuFree(s.(state := s.state[s.cur := Sleep], chan := s.chan[s.cur := ch]))
  {
  }

  lemma ExitFrees(s: Sched)
    requires Ok(s) && s.cur != IDLE
    ensures CpuFree(s.(state := s.state[s.cur := Dead]))
  {
  }

  lemma SpawnOk(s: Sched, pid: nat)
    requires Ok(s) && Enabled(s, Spawn(pid))
    ensures Ok(s.(state := s.state[pid := Ready], queue := s.queue + [pid]))
  {
  }

  lemma KillOk(s: Sched, pid: nat)
    requires Ok(s) && Enabled(s, Kill(pid))
    ensures Ok(Killed(s, pid))
  {
    hide Without;
    WithoutMembers(s.queue, pid);
    var q := Without(s.queue, pid);
    forall k | 0 <= k < |q| ensures 1 <= q[k] < NUM_IDS {
      assert q[k] in q;
    }
  }

  /** Every scheduler operation keeps the invariant. */
  lemma StepKeepsOk(s: Sched, step: Step)
    requires Ok(s) && Enabled(s, step)
    ensures Ok(Next(s, step))
  {
    match step {
      case Wakeup(ch) => WakeKeepsOk(s, ch, 1);
      case Kill(pid) => KillOk(s, pid);
      case Spawn(pid) => SpawnOk(s, pid);
      case Yield =>
        YieldFrees(s);
        DispatchOk(s.(state := s.state[s.cur := Ready], queue := s.queue + [s.cur]));
      case SleepOn(ch) =>
        SleepFrees(s, ch);
        DispatchOk(s.(state := s.state[s.cur := Sleep], chan := s.chan[s.cur := ch]));
      case Exit =>
        ExitFrees(s);
        DispatchOk(s.(state := s.state[s.cur := Dead]));
    }
  }

  /** Killing any pid that sys_kill accepts, pid 0 included, keeps the invariant exactly when the target is neither
      the caller nor idle. */
  lemma KillKeepsOkExactly(s: Sched, pid: nat)
    requires Ok(s) && pid < NUM_IDS && !s.state[pid].Dead?
    ensures Ok(Killed(s, pid)) <==> pid != s.cur && pid != IDLE
  {
    if pid != s.cur && pid != IDLE {
      KillOk(s, pid);
    }
  }

  /** A process that kills itself is marked DEAD and stays current, and its next yield does what it would have done
      without the kill: the process is queued again and gets its turn. */
  lemma SelfKillIsUndone(s: Sched)
    requires Ok(s)
    ensures Killed(s, s.cur).state[s.cur].Dead? && Shape(Killed(s, s.cur))
    ensures Next(Killed(s, s.cur), Yield) == Next(s, Yield)
  {
    hide Dispatch;
    assert s.state[s.cur := Dead][s.cur := Ready] == s.state[s.cur := Ready];
  }

  /** The CPU has gone from the current thread, which is now in state `st` with channel `ch`, to the head of the queue.
      A thread that is READY has gone to the end of the queue. No other thread has changed. */
  ghost predicate HandedOver(s: Sched, r: Sched, st: TState, ch: nat) {
    && Shape(s) && Shape(r) && s.queue != [] && r.cur == s.queue[0] != s.cur
    && r.queue == s.queue[1..] + (if st.Ready? then [s.cur] else [])
    && r.state[s.cur] == st && r.chan[s.cur] == ch && r.state[r.cur].Run? && r.chan[r.cur] == s.chan[r.cur]
    && forall pid :: 0 <= pid < NUM_IDS && pid != s.cur && pid != r.cur ==>
         r.state[pid] == s.state[pid] && r.chan[pid] == s.chan[pid]
  }

  /** thread_yield: the thread goes to the end of the queue, or runs on if nobody else is READY. */
  lemma YieldHandsOver(s: Sched)
    requires Ok(s)
    ensures if s.queue == [] then Next(s, Yield) == s else HandedOver(s, Next(s, Yield), Ready, s.chan[s.cur])
  {
    CurrentThread(s);
    if s.queue == [] {
      assert s.state[s.cur := Ready][s.cur := Run] == s.state;
    }
  }

  /** thread_sleep: the thread is asleep on the channel, and in no queue. */
  lemma SleepHandsOver(s: Sched, ch: nat)
    requires Ok(s) && s.cur != IDLE
    ensures HandedOver(s, Next(s, SleepOn(ch)), Sleep, ch) && s.cur !in Next(s, SleepOn(ch)).queue
  {
    CurrentThread(s);
  }

  lemma ExitHandsOver(s: Sched)
    requires Ok(s) && s.cur != IDLE
    ensures HandedOver(s, Next(s, Exit), Dead, s.chan[s.cur]) && s.cur !in Next(s, Exit).queue
  {
    CurrentThread(s);
  }

  /** The threads asleep on `ch`, and no others, are READY, and are at the end of the queue in the order of their
      ids. */
  ghost predicate WokeUp(s: Sched, r: Sched, ch: nat, from: nat) {
    && Shape(s) && Shape(r) && r.cur == s.cur && s.queue <= r.queue
    && (forall pid: nat :: pid < NUM_IDS ==>
          var woken := from <= pid && s.state[pid].Sleep? && s.chan[pid] == ch;
          && (pid in r.queue[|s.queue|..] <==> woken)
          && r.state[pid] == (if woken then Ready else s.state[pid])
          && r.chan[pid] == (if woken then 0 else s.chan[pid]))
    && (forall j, k :: |s.queue| <= j < k < |r.queue| ==> r.queue[j] < r.queue[k])
    && (forall k :: |s.queue| <= k < |r.queue| ==> from <= r.queue[k] < NUM_IDS)
  }

  /** thread_wakeup wakes exactly the threads asleep on the channel. */
  lemma {:induction false} WakesExactly(s: Sched, ch: nat, from: nat)
    requires Shape(s)
    ensures WokeUp(s, WakeFrom(s, ch, from), ch, from)
    decreases NUM_IDS - from
  {
    if from < NUM_IDS {
      WakesExactly(WakeAt(s, ch, from), ch, from + 1);
      WakeOneMore(s, WakeAt(s, ch, from), WakeFrom(s, ch, from), ch, from);
    }
  }

  lemma WakeOneMore(s: Sched, m: Sched, r: Sched, ch: nat, from: nat)
    requires Shape(s) && from < NUM_IDS && m == WakeAt(s, ch, from) && WokeUp(m, r, ch, from + 1)
    ensures WokeUp(s, r, ch, from)
  {
    var tail := r.queue[|s.queue|..];
    if s.chan[from] == ch && s.state[from].Sleep? {
      assert tail == [from] + r.queue[|m.queue|..];
    }
  }

  ghost predicate IsRun(trace: seq<Sched>, steps: seq<Step>) {
    && |trace| == |steps| + 1
    && forall k :: 0 <= k < |steps| ==>
         Shape(trace[k]) && Enabled(trace[k], steps[k]) && trace[k + 1] == Next(trace[k], steps[k])
  }

  /** The invariant holds at every point of every run. */
  lemma {:induction false} RunKeepsOk(trace: seq<Sched>, steps: seq<Step>, k: nat)
    requires IsRun(trace, steps) && Ok(trace[0]) && k < |trace|
    ensures Ok(trace[k])
  {
    hide Next;
    if k > 0 {
      RunKeepsOk(trace, steps, k - 1);
      StepKeepsOk(trace[k - 1], steps[k - 1]);
    }
  }

  predicate Switches(step: Step) {
    step.Yield? || step.SleepOn? || step.Exit?
  }

  function SwitchCount(steps: seq<Step>): nat {
    if steps == [] then 0 else (if Switches(steps[0]) then 1 else 0) + SwitchCount(steps[1..])
  }

  lemma KillMovesUp(q: seq<nat>, pid: nat, k: nat) returns (k': nat)
    requires (forall i, j :: 0 <= i < j < |q| ==> q[i] != q[j]) && k < |q| && q[k] != pid
    ensures k' < |Without(q, pid)| && Without(q, pid)[k'] == q[k] && k' <= k
  {
    hide Without;
    k' := k;
    if pid in q {
      var j :| 0 <= j < |q| && q[j] == pid;
      WithoutAt(q, j);
      k' := if j < k then k - 1 else k;
    }
  }

  /** A queued thread never falls back, and every context switch moves it up by one or runs it. */
  lemma StepMovesUp(s: Sched, step: Step, k: nat) returns (k': nat)
    requires Ok(s) && Enabled(s, step) && k < |s.queue| && step != Kill(s.queue[k])
    ensures var r := Next(s, step);
            if Switches(step) && k == 0 then r.cur == s.queue[0]
            else k' < |r.queue| && r.queue[k'] == s.queue[k] && k' <= k && (Switches(step) ==> k' == k - 1)
  {
    hide Without, WakeFrom;
    match step {
      case Wakeup(ch) =>
        WakesExactly(s, ch, 1);
        k' := k;
      case Kill(pid) => k' := KillMovesUp(s.queue, pid, k);
      case Spawn(_) => k' := k;
      case Yield => k' := if k == 0 then 0 else k - 1;
      case SleepOn(_) => k' := if k == 0 then 0 else k - 1;
      case Exit => k' := if k == 0 then 0 else k - 1;
    }
  }

  /** Round robin: a READY thread with `k` threads ahead of it runs within `k + 1` context switches, whatever
      else is spawned, woken or killed meanwhile. */
  lemma {:induction false} TurnComes(trace: seq<Sched>, steps: seq<Step>, k: nat) returns (t: nat)
    requires IsRun(trace, steps) && Ok(trace[0]) && k < |trace[0].queue| && SwitchCount(steps) > k
    requires forall j :: 0 <= j < |steps| ==> steps[j] != Kill(trace[0].queue[k])
    ensures t < |trace| && trace[t].cur == trace[0].queue[k]
    decreases |steps|
  {
    hide Ok, Next, Enabled;
    var k' := StepMovesUp(trace[0], steps[0], k);
    if Switches(steps[0]) && k == 0 {
      t := 1;
    } else {
      var trace', steps' := trace[1..], steps[1..];
      forall j | 0 <= j < |steps'|
        ensures Shape(trace'[j]) && Enabled(trace'[j], steps'[j]) && trace'[j + 1] == Next(trace'[j], steps'[j])
      {
        assert trace'[j] == trace[j + 1] && steps'[j] == steps[j + 1] && trace'[j + 1] == trace[j + 1 + 1];
      }
      StepKeepsOk(trace[0], steps[0]);
      t := TurnComes(trace', steps', k');
      t := t + 1;
    }
  }

  /** TCB states and channels, the current id, and the ready queue. */
  class Threads {
    const rq: Queue
    const state: array<TState>
    const chan: array<nat>
    var cur: nat

    ghost predicate Valid()
      reads this, rq, rq.prev, rq.next, state, chan
    {
      && rq.Valid() && state.Length == chan.Length == NUM_IDS && cur < NUM_IDS
      && chan != rq.prev && chan != rq.next
    }

    ghost function View(): (s: Sched)
      reads this, rq, rq.prev, rq.next, state, chan
    {
      Sched(state[..], chan[..], cur, rq.q)
    }

    /** thread_init followed by kern_main: idle and the shell are created, and the shell takes the CPU. */
    constructor ()
      ensures Valid() && Ok(View()) && cur == 2 && rq.q == [IDLE]
      ensures forall pid :: 0 <= pid < NUM_IDS ==> chan[pid] == 0 && state[pid] == AtBoot(pid)
      ensures fresh(rq) && fresh(rq.prev) && fresh(rq.next) && fresh(state) && fresh(chan)
    {
      rq := new Queue();
      state := new TState[NUM_IDS](_ => Dead);
      chan := new nat[NUM_IDS](_ => 0);
      cur := 0;
      new;
      Boot();
    }

    /** What thread_init and kern_main do once the tables are empty. */
    method Boot()
      requires Valid() && rq.q == [] && forall pid :: 0 <= pid < NUM_IDS ==> state[pid] == Dead
      modifies this`cur, state, rq, rq.prev, rq.next
      ensures Valid() && Ok(View()) && cur == 2 && rq.q == [IDLE]
      ensures forall pid :: 0 <= pid < NUM_IDS ==> state[pid] == AtBoot(pid)
    {
      hide Chain, Ok, Without;
      BootQueue();
      state[0] := Run;
      state[IDLE] := Ready;
      rq.Enqueue(IDLE);
      state[2] := Ready;
      rq.Enqueue(2);
      rq.Remove(2);
      state[2] := Run;
      cur := 2;
      Booted(View());
    }

    /** thread_spawn, for the pid that kctx_new hands out. */
    method ThreadSpawn(pid: nat)
      requires Valid() && Ok(View()) && Enabled(View(), Spawn(pid))
      modifies state, rq, rq.prev, rq.next
      ensures Valid() && View() == Next(old(View()), Spawn(pid)) && Ok(View())
      ensures rq.q == old(rq.q) + [pid] && state[..] == old(state[..])[pid := Ready]
    {
      hide Chain, Ok, Without;
      CurrentThread(View());
      StepKeepsOk(View(), Spawn(pid));
      state[pid] := Ready;
      rq.Enqueue(pid);
    }

    method Switch()
      requires Valid() && rq.q != [] && rq.q[0] < NUM_IDS
      modifies this`cur, state, rq, rq.prev, rq.next
      ensures Valid() && View() == Dispatch(old(View()))
    {
      hide Chain;
      var pid := rq.Dequeue();
      state[pid] := Run;
      cur := pid;
    }

    /** thread_yield, which sys_pause also amounts to. */
    method ThreadYield()
      requires Valid() && Ok(View())
      modifies this`cur, state, rq, rq.prev, rq.next
      ensures Valid() && View() == Next(old(View()), Yield) && Ok(View())
      ensures if old(rq.q) == [] then View() == old(View())
              else cur < NUM_IDS && HandedOver(old(View()), View(), Ready, old(chan[cur]))
    {
      hide Chain, Ok, Without, HandedOver;
      YieldHandsOver(View());
      CurrentThread(View());
      StepKeepsOk(View(), Yield);
      state[cur] := Ready;
      rq.Enqueue(cur);
      Switch();
    }

    /** thread_sleep up to the context switch. */
    method ThreadSleep(ch: nat)
      requires Valid() && Ok(View()) && Enabled(View(), SleepOn(ch))
      modifies this`cur, state, chan, rq, rq.prev, rq.next
      ensures Valid() && View() == Next(old(View()), SleepOn(ch)) && Ok(View())
      ensures HandedOver(old(View()), View(), Sleep, ch)
    {
      hide Chain, Ok, Without, HandedOver;
      SleepHandsOver(View(), ch);
      CurrentThread(View());
      StepKeepsOk(View(), SleepOn(ch));
      state[cur] := Sleep;
      chan[cur] := ch;
      Switch();
    }

    /** One turn of thread_wakeup's loop. */
    method WakePid(ch: nat, pid: nat)
      requires Valid() && Ok(View()) && 1 <= pid < NUM_IDS
      modifies state, chan, rq, rq.prev, rq.next
      ensures Valid() && View() == WakeAt(old(View()), ch, pid) && Ok(View())
    {
      hide Chain, Ok;
      WakeAtOk(View(), ch, pid);
      if chan[pid] == ch && state[pid] == Sleep {
        state[pid] := Ready;
        chan[pid] := 0;
        rq.Enqueue(pid);
      }
    }

    /** thread_wakeup. */
    method ThreadWakeup(ch: nat)
      requires Valid() && Ok(View())
      modifies state, chan, rq, rq.prev, rq.next
      ensures Valid() && View() == Next(old(View()), Wakeup(ch)) && Ok(View())
      ensures WokeUp(old(View()), View(), ch, 1)
    {
      hide Chain, Ok, WakeAt, WokeUp;
      WakesExactly(View(), ch, 1);
      StepKeepsOk(View(), Wakeup(ch));
      var pid := 1;
      while pid < NUM_IDS
        invariant 1 <= pid <= NUM_IDS && Valid() && Ok(View()) && cur == old(cur)
        invariant WakeFrom(View(), ch, pid) == WakeFrom(old(View()), ch, 1)
      {
        WakePid(ch, pid);
        pid := pid + 1;
      }
    }

    /** The end of sys_exit, and thread_exit. */
    method SysExit()
      requires Valid() && Ok(View()) && Enabled(View(), Exit)
      modifies this`cur, state, rq, rq.prev, rq.next
      ensures Valid() && View() == Next(old(View()), Exit) && Ok(View())
      ensures cur < NUM_IDS && HandedOver(old(View()), View(), Dead, old(chan[cur]))
    {
      hide Chain, Ok, Without, HandedOver;
      ExitHandsOver(View());
      CurrentThread(View());
      StepKeepsOk(View(), Exit);
      state[cur] := Dead;
      rq.Remove(cur);
      var pid := rq.Dequeue();
      if pid == NUM_IDS {
        pid := 1;
      }
      state[pid] := Run;
      cur := pid;
    }

    /** sys_kill with SIGKILL, for any argument. */
    method SysKill(pid: int) returns (ok: bool)
      requires Valid() && Ok(View())
      modifies state, rq, rq.prev, rq.next
      ensures Valid() && ok == (0 <= pid < NUM_IDS && !old(state[..])[pid].Dead?)
      ensures View() == if ok then Killed(old(View()), pid) else old(View())
      ensures ok ==> pid !in rq.q && state[..] == old(state[..])[pid := Dead]
      ensures Ok(View()) <==> !ok || (pid != cur && pid != IDLE)
    {
      hide Chain, Ok, Without;
      CurrentThread(View());
      if pid < 0 || pid >= NUM_IDS || state[pid] == Dead {
        return false;
      }
      KillKeepsOkExactly(View(), pid);
      Unqueued(View(), pid);
      state[pid] := Dead;
      rq.Remove(pid);
      ok := true;
    }
  }

  /** What the operations use of the invariant. */
  lemma CurrentThread(s: Sched)
    requires Ok(s)
    ensures s.cur < NUM_IDS && s.cur !in s.queue && (s.cur != IDLE ==> s.queue != [])
    ensures forall k :: 0 <= k < |s.queue| ==> s.queue[k] < NUM_IDS
    ensures forall pid: nat :: 1 <= pid < NUM_IDS && s.state[pid].Dead? ==> pid !in s.queue
  {
  }

  lemma Unqueued(s: Sched, pid: nat)
    requires Ok(s)
    ensures pid !in Without(s.queue, pid)
  {
    WithoutMembers(s.queue, pid);
  }

  lemma BootQueue()
    ensures Without([] + [IDLE] + [2], 2) == [IDLE]
  {
    WithoutAt([] + [IDLE] + [2], 1);
  }

  /** The states after boot: the boot thread 0 counts as running for ever, idle waits, and the shell runs. */
  function AtBoot(pid: nat): TState {
    if pid == IDLE then Ready else if pid == 0 || pid == 2 then Run else Dead
  }

  lemma Booted(s: Sched)
    requires |s.state| == |s.chan| == NUM_IDS && s.cur == 2 && s.queue == [IDLE]
    requires forall pid: nat :: 1 <= pid < NUM_IDS ==> s.state[pid] == AtBoot(pid)
    ensures Ok(s)
  {
  }
}
