/** What becomes of a thread over whole runs of the scheduler: who yields, is woken or is spawned runs again, who sleeps
    stays asleep until it is woken, and who is dead stays dead. */
module Turns {
  import opened Params
  import opened Sequences
  import opened Scheduler

  /** The steps never kill `pid`. */
  predicate Spared(steps: seq<Step>, pid: nat) {
    forall j :: 0 <= j < |steps| ==> steps[j] != Kill(pid)
  }

  lemma Rest(trace: seq<Sched>, steps: seq<Step>, k: nat)
    requires IsRun(trace, steps) && Ok(trace[0]) && k < |trace|
    ensures IsRun(trace[k..], steps[k..]) && Ok(trace[k])
  {
    hide Ok, Next, Enabled;
    RunKeepsOk(trace, steps, k);
    var trace', steps' := trace[k..], steps[k..];
    forall j | 0 <= j < |steps'|
      ensures Shape(trace'[j]) && Enabled(trace'[j], steps'[j]) && trace'[j + 1] == Next(trace'[j], steps'[j])
    {
      assert trace'[j] == trace[j + k] && steps'[j] == steps[j + k] && trace'[j + 1] == trace[j + k + 1];
    }
  }

  /** A thread that is in the queue at moment `i` runs, within as many context switches as the queue is long. */
  lemma QueuedRuns(trace: seq<Sched>, steps: seq<Step>, i: nat, pid: nat) returns (t: nat)
    requires IsRun(trace, steps) && Ok(trace[0]) && i < |trace| && pid in trace[i].queue && Spared(steps[i..], pid)
    requires SwitchCount(steps[i..]) >= |trace[i].queue|
    ensures i < t < |trace| && trace[t].cur == pid
  {
    hide Ok, IsRun, SwitchCount;
    Rest(trace, steps, i);
    var k :| 0 <= k < |trace[i].queue| && trace[i].queue[k] == pid;
    RunLength(trace, steps);
    t := TurnComes(trace[i..], steps[i..], k);
    NotCurrent(trace[i], k);
    t := i + t;
  }

  lemma RunLength(trace: seq<Sched>, steps: seq<Step>)
    requires IsRun(trace, steps)
    ensures |trace| == |steps| + 1
  {
  }

  lemma NotCurrent(s: Sched, k: nat)
    requires Ok(s) && k < |s.queue|
    ensures s.queue[k] != s.cur
  {
    assert s.queue[k] in s.queue;
  }

  /** thread_yield is fair: a thread that yields at step `i` runs again, at once if nobody else is READY, and otherwise
      within as many further context switches as there were threads in the queue. */
  lemma YieldComesBack(trace: seq<Sched>, steps: seq<Step>, i: nat) returns (t: nat)
    requires IsRun(trace, steps) && Ok(trace[0]) && i < |steps| && steps[i] == Yield && Spared(steps[i..], trace[i].cur)
    requires SwitchCount(steps[i + 1..]) >= |trace[i].queue|
    ensures i < t < |trace| && trace[t].cur == trace[i].cur
  {
    hide Ok, SwitchCount, Next, HandedOver, Enabled;
    RunKeepsOk(trace, steps, i);
    YieldHandsOver(trace[i]);
    if trace[i].queue == [] {
      return i + 1;
    }
    LastInQueue(trace[i], trace[i + 1]);
    assert steps[i + 1..] == steps[i..][1..];
    t := QueuedRuns(trace, steps, i + 1, trace[i].cur);
  }

  lemma LastInQueue(s: Sched, r: Sched)
    requires s.cur < |s.chan| && HandedOver(s, r, Ready, s.chan[s.cur])
    ensures |r.queue| == |s.queue| && r.queue[|r.queue| - 1] == s.cur && s.cur in r.queue
  {
  }

  /** `pid` is asleep on `ch`. */
  predicate AsleepOn(s: Sched, pid: nat, ch: nat) {
    pid < |s.state| == |s.chan| && s.state[pid].Sleep? && s.chan[pid] == ch
  }

  /** Only a wakeup of its channel wakes a thread, and it puts it in the queue. */
  lemma WakesOnlyByChannel(s: Sched, step: Step, pid: nat, ch: nat)
    requires Ok(s) && Enabled(s, step) && 1 <= pid < NUM_IDS && AsleepOn(s, pid, ch) && step != Kill(pid)
    ensures var r := Next(s, step);
            if step == Wakeup(ch) then pid in r.queue && Shape(r) && r.state[pid].Ready? else AsleepOn(r, pid, ch)
  {
    hide Without, WakeFrom;
    match step
    case Wakeup(c) => WakesExactly(s, c, 1);
    case Spawn(_) =>
    case Kill(_) =>
    case Yield => YieldHandsOver(s);
    case SleepOn(c) => SleepHandsOver(s, c);
    case Exit => ExitHandsOver(s);
  }

  /** A thread that sleeps at step `i` is asleep on that channel at every moment until the channel is woken. */
  lemma {:induction false} SleepsUntilWoken(trace: seq<Sched>, steps: seq<Step>, i: nat, j: nat, ch: nat)
    requires IsRun(trace, steps) && Ok(trace[0]) && i < j <= |steps| && steps[i] == SleepOn(ch)
    requires forall k :: i < k < j ==> steps[k] != Wakeup(ch) && steps[k] != Kill(trace[i].cur)
    ensures AsleepOn(trace[j], trace[i].cur, ch)
    decreases j
  {
    hide Next, AsleepOn, HandedOver;
    RunKeepsOk(trace, steps, j - 1);
    if i + 1 < j {
      SleepsUntilWoken(trace, steps, i, j - 1, ch);
      CurrentInRange(trace, steps, i);
      WakesOnlyByChannel(trace[j - 1], steps[j - 1], trace[i].cur, ch);
    } else {
      SleepHandsOver(trace[i], ch);
      NowAsleep(trace[i], trace[j], ch);
    }
  }

  lemma CurrentInRange(trace: seq<Sched>, steps: seq<Step>, i: nat)
    requires IsRun(trace, steps) && Ok(trace[0]) && i < |trace|
    ensures 1 <= trace[i].cur < NUM_IDS
  {
    hide Next, Enabled;
    RunKeepsOk(trace, steps, i);
  }

  lemma NowAsleep(s: Sched, r: Sched, ch: nat)
    requires HandedOver(s, r, Sleep, ch)
    ensures AsleepOn(r, s.cur, ch)
  {
  }

  /** A thread that sleeps at step `i`, and whose channel is woken first at step `j`, is in the queue then, and runs
      within as many context switches as the queue is long. */
  lemma SleeperRuns(trace: seq<Sched>, steps: seq<Step>, i: nat, j: nat, ch: nat) returns (t: nat)
    requires IsRun(trace, steps) && Ok(trace[0]) && i < j < |steps| && steps[i] == SleepOn(ch) && steps[j] == Wakeup(ch)
    requires Spared(steps, trace[i].cur) && forall k :: i < k < j ==> steps[k] != Wakeup(ch)
    requires SwitchCount(steps[j + 1..]) >= |trace[j + 1].queue|
    ensures trace[i].cur in trace[j + 1].queue && j + 1 < t < |trace| && trace[t].cur == trace[i].cur
  {
    hide Ok, Next, AsleepOn, SwitchCount;
    SleepsUntilWoken(trace, steps, i, j, ch);
    CurrentInRange(trace, steps, i);
    RunKeepsOk(trace, steps, j);
    WakesOnlyByChannel(trace[j], steps[j], trace[i].cur, ch);
    t := QueuedRuns(trace, steps, j + 1, trace[i].cur);
  }

  /** A spawned thread is last in the queue, and runs. */
  lemma SpawnedRuns(trace: seq<Sched>, steps: seq<Step>, i: nat, pid: nat) returns (t: nat)
    requires IsRun(trace, steps) && Ok(trace[0]) && i < |steps| && steps[i] == Spawn(pid) && Spared(steps, pid)
    requires SwitchCount(steps[i + 1..]) >= |trace[i + 1].queue|
    ensures trace[i + 1].queue == trace[i].queue + [pid] && i + 1 < t < |trace| && trace[t].cur == pid
  {
    hide Ok, SwitchCount;
    t := QueuedRuns(trace, steps, i + 1, pid);
  }

  predicate IsDead(s: Sched, pid: nat) {
    pid < |s.state| && s.state[pid].Dead? && pid != s.cur && pid !in s.queue
  }

  lemma StaysDead(s: Sched, step: Step, pid: nat)
    requires Ok(s) && Enabled(s, step) && 1 <= pid < NUM_IDS && IsDead(s, pid) && step != Spawn(pid)
    ensures IsDead(Next(s, step), pid)
  {
    hide Without, WakeFrom;
    match step
    case Wakeup(c) => DeadInWakeup(s, c, pid);
    case Spawn(_) =>
    case Kill(p) => WithoutMembers(s.queue, p);
    case Yield => YieldHandsOver(s);
    case SleepOn(c) => SleepHandsOver(s, c);
    case Exit => ExitHandsOver(s);
  }

  lemma DeadInWakeup(s: Sched, ch: nat, pid: nat)
    requires Ok(s) && 1 <= pid < NUM_IDS && IsDead(s, pid)
    ensures IsDead(WakeFrom(s, ch, 1), pid)
  {
    hide WakeFrom;
    WakesExactly(s, ch, 1);
    WakeKeepsOk(s, ch, 1);
  }

  /** A thread that exits or is killed at step `i` is dead, is in no queue and does not run, until its id is spawned
      again. */
  lemma {:induction false} DeadUntilSpawned(trace: seq<Sched>, steps: seq<Step>, i: nat, j: nat, pid: nat)
    requires IsRun(trace, steps) && Ok(trace[0]) && i < j <= |steps| && 1 <= pid
    requires steps[i] == Kill(pid) || (steps[i] == Exit && pid == trace[i].cur)
    requires forall k :: i < k < j ==> steps[k] != Spawn(pid)
    ensures IsDead(trace[j], pid)
    decreases j
  {
    hide Next, IsDead;
    RunKeepsOk(trace, steps, j - 1);
    if i + 1 < j {
      DeadUntilSpawned(trace, steps, i, j - 1, pid);
      RunKeepsOk(trace, steps, i);
      StaysDead(trace[j - 1], steps[j - 1], pid);
    } else {
      NowDead(trace[i], steps[i], pid);
    }
  }

  lemma NowDead(s: Sched, step: Step, pid: nat)
    requires Ok(s) && Enabled(s, step) && 1 <= pid && (step == Kill(pid) || (step == Exit && pid == s.cur))
    ensures IsDead(Next(s, step), pid)
  {
    hide Without;
    if step.Exit? {
      ExitHandsOver(s);
    } else {
      WithoutMembers(s.queue, pid);
    }
  }
}
