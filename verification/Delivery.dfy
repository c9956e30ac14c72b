/** What a message carries, over whole runs and in terms of the processes' memories and the arguments of their calls. */
module Delivery {
  import opened Bytes
  import opened Params
  import opened Sequences
  import opened Rendezvous

  /** The first `n` bytes at `src` of `from` are now at `dst` in the memory of `to`, and no other byte of any process
      has changed. */
  ghost predicate Carried(from: seq<byte>, src: nat, mem: seq<seq<byte>>, mem': seq<seq<byte>>, to: nat, dst: nat,
                          n: nat)
  {
    && to < |mem| == |mem'| && |mem'[to]| == |mem[to]| && src + n <= |from| && dst + n <= |mem[to]|
    && mem'[to][dst..dst + n] == from[src..src + n]
    && (forall x :: 0 <= x < |mem[to]| && !(dst <= x < dst + n) ==> mem'[to][x] == mem[to][x])
    && (forall q :: 0 <= q < |mem| && q != to ==> mem'[q] == mem[q])
  }

  /** Step `j` ends a receive by `to` from `p` of `len` bytes into `addr`: it is the call, or resumes the call that
      `to` made at step `r` and has been in since. */
  ghost predicate Receives(states: seq<State>, steps: seq<Step>, r: nat, j: nat, to: nat, p: nat, addr: nat, len: nat) {
    && |states| == |steps| + 1 && r <= j < |steps| && steps[r] == Recv(to, p, addr, len)
    && (r < j ==> steps[j] == Resume(to) && forall k :: r < k <= j ==> IsReceiving(states[k], to))
  }

  ghost predicate IsReceiving(s: State, p: nat) {
    p < |s.pcs| && s.pcs[p].Receiving?
  }

  /** The memory and the block of a process inside sys_sync_send do not change. */
  lemma SenderHolds(s: State, step: Step, p: nat)
    requires Inv(s) && Enabled(s, step) && p < NUM_IDS && s.pcs[p].Sending?
    ensures Shaped(Next(s, step)) && Next(s, step).mem[p] == s.mem[p] && Next(s, step).blocks[p] == s.blocks[p]
  {
    StepKeepsInv(s, step);
    hide Inv, Without, Splice, Ready, Woken;
  }

  lemma {:induction false} HoldsWhileQueued(states: seq<State>, steps: seq<Step>, i: nat, j: nat, p: nat)
    requires IsRun(states, steps) && i <= j < |states| && p < NUM_IDS
    requires forall k :: i <= k <= j ==> p in states[k].queue
    ensures Shaped(states[i]) && Shaped(states[j])
    ensures states[j].mem[p] == states[i].mem[p] && states[j].blocks[p] == states[i].blocks[p]
    decreases j
  {
    hide Next, Enabled;
    InvAt(states, steps, i);
    InvAt(states, steps, j);
    if i < j {
      HoldsWhileQueued(states, steps, i, j - 1, p);
      InvAt(states, steps, j - 1);
      assert Pending(states[j - 1], p);
      SenderHolds(states[j - 1], steps[j - 1], p);
    }
  }

  /** The invariant holds at every moment of a run. */
  lemma InvAt(states: seq<State>, steps: seq<Step>, k: nat)
    requires IsRun(states, steps) && k < |states|
    ensures Inv(states[k])
  {
    hide Inv, Next, Enabled;
    RunKeepsInv(states[..k + 1], steps[..k]);
  }

  /** `p` waits in sys_sync_recv with these arguments. */
  ghost predicate Asks(s: State, p: nat, from: nat, addr: nat, len: nat) {
    IsReceiving(s, p) && s.pcs[p].from == from && s.pcs[p].addr == addr && s.pcs[p].len == len
  }

  lemma AsksForTheSame(s: State, step: Step, p: nat, from: nat, addr: nat, len: nat)
    requires Inv(s) && Enabled(s, step) && Asks(s, p, from, addr, len) && p < NUM_IDS && IsReceiving(Next(s, step), p)
    ensures Asks(Next(s, step), p, from, addr, len)
  {
    hide Inv, Without, Splice, Ready;
  }

  lemma RecvAsks(s: State, p: nat, from: nat, addr: nat, len: nat)
    requires Enabled(s, Recv(p, from, addr, len)) && IsReceiving(Next(s, Recv(p, from, addr, len)), p)
    ensures Asks(Next(s, Recv(p, from, addr, len)), p, from, addr, len)
  {
    hide Ready;
  }

  lemma {:induction false} AsksWhatItCalledFor(states: seq<State>, steps: seq<Step>, r: nat, j: nat, to: nat, p: nat,
                                               addr: nat, len: nat)
    requires IsRun(states, steps) && r < j < |states| && steps[r] == Recv(to, p, addr, len)
    requires forall k :: r < k <= j ==> IsReceiving(states[k], to)
    ensures Asks(states[j], to, p, addr, len)
    decreases j
  {
    hide Next, Enabled, Inv, Asks;
    assert IsReceiving(states[j], to);
    if r + 1 < j {
      InvAt(states, steps, j - 1);
      AsksWhatItCalledFor(states, steps, r, j - 1, to, p, addr, len);
      assert IsReceiving(states[j - 1], to);
      ReceiverInRange(states[j - 1], to);
      AsksForTheSame(states[j - 1], steps[j - 1], to, p, addr, len);
    } else {
      RecvAsks(states[r], to, p, addr, len);
    }
  }

  lemma ReceiverInRange(s: State, p: nat)
    requires Inv(s) && IsReceiving(s, p)
    ensures p < NUM_IDS
  {
  }

  /** What a receive that finds its message does to the memories. */
  lemma TakeCarries(s: State, p: nat, from: nat, addr: nat, len: nat)
    requires CanTry(s, p, from, addr, len) && Ready(s, p, from) && p != from
    ensures var b, t := s.blocks[from], TryRecv(s, p, from, addr, len);
            && Carried(s.mem[from], b.addr, s.mem, t.mem, p, addr, Min(b.len, len))
            && from !in t.queue && p < |t.pcs| && t.pcs[p].Running?
  {
    hide Min;
    WithoutMembers(s.queue, from);
  }

  /** A message sent at step `i` that stays queued until the receive of step `j` arrives: the shorter of the two
      lengths of what the sender's memory held when it sent, at the address the receiver gave, and nothing else. */
  lemma Delivered(states: seq<State>, steps: seq<Step>, i: nat, r: nat, j: nat, p: nat, to: nat, addr: nat, len: nat,
                  addr': nat, len': nat)
    requires IsRun(states, steps) && i < j < |steps| && steps[i] == Send(p, to, addr, len)
    requires (forall k :: i < k <= j ==> p in states[k].queue) && Receives(states, steps, r, j, to, p, addr', len')
    ensures p < |states[i].mem|
    ensures Carried(states[i].mem[p], addr, states[j].mem, states[j + 1].mem, to, addr', Min(len, len'))
    ensures p !in states[j + 1].queue && to < |states[j + 1].pcs| && states[j + 1].pcs[to].Running?
  {
    hide Inv, Carried, Min, Next, Enabled, TryRecv, CanTry, Asks, Ready;
    var s := states[j];
    assert Enabled(states[i], steps[i]) && Enabled(s, steps[j]);
    SentBlock(states[i], p, to, addr, len);
    HoldsWhileQueued(states, steps, i + 1, j, p);
    InvAt(states, steps, j);
    if r < j {
      AsksWhatItCalledFor(states, steps, r, j, to, p, addr', len');
    }
    ReceiveTries(s, steps[j], to, p, addr', len');
    QueuedSends(s, p, to);
    TakeCarries(s, to, p, addr', len');
  }

  /** The call and its resumption do the same. */
  lemma ReceiveTries(s: State, step: Step, to: nat, p: nat, addr: nat, len: nat)
    requires Enabled(s, step) && (step == Recv(to, p, addr, len) || (step == Resume(to) && Asks(s, to, p, addr, len)))
    ensures CanTry(s, to, p, addr, len) && Next(s, step) == TryRecv(s, to, p, addr, len) && to < |s.pcs|
    ensures !s.pcs[to].Sending?
  {
    hide TryRecv;
  }

  lemma QueuedSends(s: State, p: nat, to: nat)
    requires Inv(s) && p < NUM_IDS && p in s.queue
    ensures s.pcs[p].Sending? && p < |s.blocks| && (s.blocks[p].to == to ==> Ready(s, to, p))
  {
    assert Pending(s, p);
  }

  lemma SentBlock(s: State, p: nat, to: nat, addr: nat, len: nat)
    requires Enabled(s, Send(p, to, addr, len))
    ensures var t := Next(s, Send(p, to, addr, len));
            && p < |t.blocks| == |t.mem| == NUM_IDS && t.blocks[p] == MsgBlock(to, addr, len) && t.mem == s.mem
  {
    hide Woken;
  }

  /** The step is `p` receiving from `from`, in the call or resumed in it. */
  predicate IsReceive(s: State, step: Step, p: nat, from: nat) {
    match step
    case Recv(q, f, _, _) => q == p && f == from
    case Resume(q) => q == p && p < |s.pcs| && s.pcs[p].Receiving? && s.pcs[p].from == from
    case _ => false
  }

  /** A message leaves the queue only when the process it names receives from its sender, and then it does. */
  lemma LeavesOnlyTaken(s: State, step: Step, p: nat)
    requires Inv(s) && Enabled(s, step) && p < NUM_IDS && p in s.queue
    ensures p !in Next(s, step).queue <==> IsReceive(s, step, s.blocks[p].to, p)
  {
    assert Pending(s, p);
    hide Inv, Splice, Without;
    forall from: nat | from < NUM_IDS && from in s.queue ensures p in Without(s.queue, from) <==> p != from {
      WithoutMembers(s.queue, from);
    }
  }

  /** The memory of a process changes only when it computes, to what it computes, or when it receives a message that
      names it. */
  lemma ChangesOnlyBy(s: State, step: Step, p: nat)
    requires Enabled(s, step) && p < NUM_IDS && |Next(s, step).mem| == NUM_IDS
    ensures || Next(s, step).mem[p] == s.mem[p] || step == Compute(p, Next(s, step).mem[p])
            || exists from :: IsReceive(s, step, p, from) && Ready(s, p, from)
  {
    hide Splice, Without, Ready, Woken;
    if Next(s, step).mem[p] != s.mem[p] && !step.Compute? {
      var from := if step.Recv? then step.from else s.pcs[p].from;
      assert IsReceive(s, step, p, from) && Ready(s, p, from);
    }
  }

  /** A receive that finds no message sleeps with its arguments and changes nothing else. */
  lemma WaitsFor(s: State, p: nat, from: nat, addr: nat, len: nat)
    requires Enabled(s, Recv(p, from, addr, len)) && !Ready(s, p, from)
    ensures var t := Next(s, Recv(p, from, addr, len));
            Asks(t, p, from, addr, len) && t.pcs[p].life.Asleep? && t == s.(pcs := t.pcs) &&
              t.pcs == s.pcs[p := t.pcs[p]]
  {
  }

  /** A send wakes every process that sleeps in a receive from this sender. */
  lemma SendWakes(s: State, p: nat, to: nat, addr: nat, len: nat, q: nat)
    requires Enabled(s, Send(p, to, addr, len)) && q < NUM_IDS && q != p
    ensures var t := Next(s, Send(p, to, addr, len));
            && |t.pcs| == NUM_IDS && t.queue == s.queue + [p] && t.pcs[p].Sending?
            && if s.pcs[q].Receiving? && s.pcs[q].from == p && s.pcs[q].life.Asleep?
               then Asks(t, q, p, s.pcs[q].addr, s.pcs[q].len) && t.pcs[q].life.Awake?
               else t.pcs[q] == s.pcs[q]
  {
  }

  /** Whoever a signal is sent to does not sleep afterwards. */
  lemma SignalWakes(s: State, p: nat)
    requires Enabled(s, Signal(p))
    ensures var t := Next(s, Signal(p));
            && |t.pcs| == NUM_IDS && t == s.(pcs := t.pcs) && !Sleeps(t.pcs[p])
            && (!Sleeps(s.pcs[p]) ==> t.pcs == s.pcs)
            && forall q :: 0 <= q < NUM_IDS ==> t.pcs[q] == s.pcs[q] || t.pcs[q] == Roused(s.pcs[q])
  {
  }

  predicate Sleeps(pc: Pc) {
    (pc.Sending? || pc.Receiving?) && pc.life.Asleep?
  }

  predicate IsKilled(pc: Pc) {
    pc.Gone? || ((pc.Sending? || pc.Receiving?) && pc.life.Killed?)
  }

  /** A process that is killed never takes another step, and its memory stays as it is. */
  lemma {:induction false} KilledForGood(states: seq<State>, steps: seq<Step>, i: nat, j: nat, p: nat)
    requires IsRun(states, steps) && i < j < |states| && steps[i] == Kill(p)
    ensures Shaped(states[i]) && Shaped(states[j]) && p < NUM_IDS
    ensures IsKilled(states[j].pcs[p]) && states[j].mem[p] == states[i].mem[p]
    decreases j
  {
    hide Inv, Enabled, Next;
    InvAt(states, steps, j - 1);
    InvAt(states, steps, j);
    ShapedAt(states[j - 1]);
    ShapedAt(states[j]);
    if i + 1 < j {
      KilledForGood(states, steps, i, j - 1, p);
      StaysKilled(states[j - 1], steps[j - 1], p);
    } else {
      KillEnds(states[i], p);
    }
  }

  lemma ShapedAt(s: State)
    requires Inv(s)
    ensures Shaped(s)
  {
  }

  lemma KillEnds(s: State, p: nat)
    requires Enabled(s, Kill(p))
    ensures var t := Next(s, Kill(p));
            p < NUM_IDS == |s.pcs| && IsKilled(t.pcs[p]) && t == s.(pcs := s.pcs[p := t.pcs[p]])
  {
  }

  lemma StaysKilled(s: State, step: Step, p: nat)
    requires Inv(s) && Enabled(s, step) && p < NUM_IDS && IsKilled(s.pcs[p])
    ensures Shaped(Next(s, step)) && IsKilled(Next(s, step).pcs[p]) && Next(s, step).mem[p] == s.mem[p]
  {
    StepKeepsInv(s, step);
    hide Inv, Without, Splice, Ready;
  }
}
