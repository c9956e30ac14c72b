/** Synchronous send and receive between processes, as a step system. A step is one critical section under the
    message lock: from taking the lock to sleeping or returning. */
module Rendezvous {
  import opened Bytes
  import opened Params
  import opened Sequences

  /** Whether a process inside a call can run, sleeps on its condition variable, or has been killed there. */
  datatype Life = Awake | Asleep | Killed

  /** Where a process is: outside the two calls, killed there, in sys_sync_send, or in sys_sync_recv. */
  datatype Pc =
    | Running
    | Gone
    | Sending(id: nat, life: Life)
    | Receiving(from: nat, addr: nat, len: nat, life: Life)

  /** The part of a message block that sys_sync_send fills in. */
  datatype MsgBlock = MsgBlock(to: nat, addr: nat, len: nat)

  /** A message as it was when it was sent, and a receipt written when it is taken. */
  datatype Message = Message(sender: nat, to: nat, data: seq<byte>)
  datatype Receipt = Receipt(id: nat, taker: nat, asked: nat, data: seq<byte>)

  /** `sent` and `receipts` are the history; the kernel does not store them. */
  datatype State = State(pcs: seq<Pc>, mem: seq<seq<byte>>, queue: seq<nat>, blocks: seq<MsgBlock>,
                         sent: seq<Message>, receipts: seq<Receipt>)

  datatype Step =
    | Send(p: nat, to: nat, addr: nat, len: nat)
    | Recv(p: nat, from: nat, addr: nat, len: nat)
    | Resume(p: nat)
    | Compute(p: nat, mem: seq<byte>)
    | Signal(p: nat)
    | Kill(p: nat)

  ghost predicate Shaped(s: State) {
    && |s.pcs| == |s.mem| == |s.blocks| == NUM_IDS
    && (forall k :: 0 <= k < |s.queue| ==> s.queue[k] < NUM_IDS)
    && (forall j, k :: 0 <= j < k < |s.queue| ==> s.queue[j] != s.queue[k])
  }

  /** memcpy into a process's memory. */
  function Splice(m: seq<byte>, at: nat, data: seq<byte>): (r: seq<byte>)
    requires at + |data| <= |m|
    ensures |r| == |m|
  {
    m[..at] + data + m[at + |data|..]
  }

  /** thread_wakeup reaches a process that sleeps, and no other. */
  function Roused(pc: Pc): Pc {
    match pc
    case Sending(id, Asleep) => Sending(id, Awake)
    case Receiving(from, addr, len, Asleep) => Receiving(from, addr, len, Awake)
    case _ => pc
  }

  /** thread_wakeup on the send channel of `from`. */
  function Woken(pcs: seq<Pc>, from: nat): (r: seq<Pc>)
    ensures |r| == |pcs|
    ensures forall i :: 0 <= i < |pcs| ==>
              r[i] == if pcs[i].Receiving? && pcs[i].from == from then Roused(pcs[i]) else pcs[i]
  {
    if pcs == [] then [] else
      Woken(pcs[..|pcs| - 1], from) +
      [var pc := pcs[|pcs| - 1]; if pc.Receiving? && pc.from == from then Roused(pc) else pc]
  }

  /** A message from `from` is queued, and it names `p`. */
  predicate Ready(s: State, p: nat, from: nat) {
    from < |s.blocks| && from in s.queue && s.blocks[from].to == p
  }

  predicate InBounds(s: State, p: nat, addr: nat, len: nat) {
    p < |s.mem| && addr + len <= |s.mem[p]|
  }

  /** The end of sys_sync_recv: copy, unlink the message, wake its sender. */
  ghost function Take(s: State, p: nat, from: nat, addr: nat, len: nat): State
    requires Shaped(s) && p < NUM_IDS && Ready(s, p, from) && s.pcs[from].Sending?
    requires InBounds(s, p, addr, len) && InBounds(s, from, s.blocks[from].addr, s.blocks[from].len)
  {
    var n, src := Min(s.blocks[from].len, len), s.blocks[from].addr;
    var data := s.mem[from][src..src + n];
    s.(mem := s.mem[p := Splice(s.mem[p], addr, data)],
       queue := Without(s.queue, from),
       pcs := s.pcs[from := Roused(s.pcs[from])][p := Running],
       receipts := s.receipts + [Receipt(s.pcs[from].id, p, len, data)])
  }

  ghost predicate CanTry(s: State, p: nat, from: nat, addr: nat, len: nat) {
    && Shaped(s) && p < NUM_IDS && InBounds(s, p, addr, len)
    && (Ready(s, p, from) ==> s.pcs[from].Sending? && InBounds(s, from, s.blocks[from].addr, s.blocks[from].len))
  }

  /** The loop test of sys_sync_recv, and what follows it. */
  ghost function TryRecv(s: State, p: nat, from: nat, addr: nat, len: nat): State
    requires CanTry(s, p, from, addr, len)
  {
    if Ready(s, p, from) then Take(s, p, from, addr, len)
    else s.(pcs := s.pcs[p := Receiving(from, addr, len, Asleep)])
  }

  ghost predicate Enabled(s: State, step: Step) {
    Shaped(s) &&
    match step
    case Send(p, to, addr, len) => p < NUM_IDS && s.pcs[p].Running? && InBounds(s, p, addr, len)
    case Recv(p, from, addr, len) => p < NUM_IDS && s.pcs[p].Running? && CanTry(s, p, from, addr, len)
    case Resume(p) =>
      && p < NUM_IDS && (s.pcs[p].Sending? || s.pcs[p].Receiving?) && s.pcs[p].life.Awake?
      && (s.pcs[p].Receiving? ==> CanTry(s, p, s.pcs[p].from, s.pcs[p].addr, s.pcs[p].len))
    case Compute(p, mem) => p < NUM_IDS && s.pcs[p].Running? && |mem| == |s.mem[p]|
    case Signal(p) => p < NUM_IDS
    case Kill(p) => p < NUM_IDS
  }

  ghost function Next(s: State, step: Step): State
    requires Enabled(s, step)
  {
    match step
    case Send(p, to, addr, len) =>
      s.(blocks := s.blocks[p := MsgBlock(to, addr, len)],
         queue := s.queue + [p],
         sent := s.sent + [Message(p, to, s.mem[p][addr..addr + len])],
         pcs := Woken(s.pcs, p)[p := Sending(|s.sent|, Asleep)])
    case Recv(p, from, addr, len) => TryRecv(s, p, from, addr, len)
    case Resume(p) =>
      var pc := s.pcs[p];
      if pc.Sending? then s.(pcs := s.pcs[p := if p in s.queue then Sending(pc.id, Asleep) else Running])
      else TryRecv(s, p, pc.from, pc.addr, pc.len)
    case Compute(p, mem) => s.(mem := s.mem[p := mem])
    case Signal(p) => s.(pcs := Signalled(s.pcs, p))
    case Kill(p) => s.(pcs := s.pcs[p := Ended(s.pcs[p])])
  }

  /** sys_kill with a signal other than SIGKILL: thread_wakeup on the channel that `p` sleeps on. */
  function Signalled(pcs: seq<Pc>, p: nat): (r: seq<Pc>)
    requires p < |pcs|
    ensures |r| == |pcs|
  {
    match pcs[p]
    case Sending(_, _) => pcs[p := Roused(pcs[p])]
    case Receiving(from, _, _, life) => if life.Asleep? then Woken(pcs, from) else pcs
    case _ => pcs
  }

  /** sys_kill with SIGKILL on another process. Its message stays in the queue. */
  function Ended(pc: Pc): Pc {
    match pc
    case Sending(id, _) => Sending(id, Killed)
    case Receiving(from, addr, len, _) => Receiving(from, addr, len, Killed)
    case _ => Gone
  }

  /** Message `id` has been taken. */
  ghost predicate Taken(receipts: seq<Receipt>, id: nat) {
    exists k :: 0 <= k < |receipts| && receipts[k].id == id
  }

  /** A queued message is still exactly what was sent, and its sender is still inside the call. */
  ghost predicate Pending(s: State, from: nat)
    requires Shaped(s) && from < NUM_IDS
  {
    && s.pcs[from].Sending? && s.pcs[from].id < |s.sent| && !Taken(s.receipts, s.pcs[from].id)
    && InBounds(s, from, s.blocks[from].addr, s.blocks[from].len)
    && s.sent[s.pcs[from].id] ==
         Message(from, s.blocks[from].to, s.mem[from][s.blocks[from].addr..s.blocks[from].addr + s.blocks[from].len])
  }

  /** Nobody sleeps when there is something to do; a sender is asleep only while its message is queued. */
  ghost predicate Alert(s: State, p: nat)
    requires Shaped(s) && p < NUM_IDS
  {
    match s.pcs[p]
    case Sending(id, life) =>
      && id < |s.sent| && s.sent[id].sender == p && (life.Asleep? ==> p in s.queue)
      && (p !in s.queue ==> Taken(s.receipts, id))
    case Receiving(from, addr, len, life) => InBounds(s, p, addr, len) && (life.Asleep? ==> !Ready(s, p, from))
    case _ => true
  }

  /** Receipt `r` is right: the process that the message named took the shorter of the two lengths from its start. */
  ghost predicate Honest(sent: seq<Message>, r: Receipt) {
    && r.id < |sent| && r.taker == sent[r.id].to
    && |r.data| == Min(|sent[r.id].data|, r.asked) && r.data == sent[r.id].data[..|r.data|]
  }

  /** Message `id` is taken already, or queued. */
  ghost predicate Accounted(s: State, id: nat)
    requires Shaped(s) && id < |s.sent|
  {
    var from := s.sent[id].sender;
    from < NUM_IDS && (Taken(s.receipts, id) || (from in s.queue && s.pcs[from].Sending? && s.pcs[from].id == id))
  }

  ghost predicate Inv(s: State) {
    && Shaped(s)
    && (forall p: nat :: p < NUM_IDS && p in s.queue ==> Pending(s, p))
    && (forall p: nat :: p < NUM_IDS ==> Alert(s, p))
    && (forall k :: 0 <= k < |s.receipts| ==> Honest(s.sent, s.receipts[k]))
    && (forall j, k :: 0 <= j < k < |s.receipts| ==> s.receipts[j].id != s.receipts[k].id)
    && (forall id: nat :: id < |s.sent| ==> Accounted(s, id))
  }

  lemma TakenMore(receipts: seq<Receipt>, r: Receipt, id: nat)
    ensures Taken(receipts + [r], id) <==> Taken(receipts, id) || id == r.id
  {
    if Taken(receipts, id) {
      var k :| 0 <= k < |receipts| && receipts[k].id == id;
      assert (receipts + [r])[k].id == id;
    } else if id == r.id {
      assert (receipts + [r])[|receipts|].id == id;
    }
  }

  /** The receipt that is written is right. */
  lemma TakesWhatWasSent(s: State, p: nat, from: nat, addr: nat, len: nat)
    requires CanTry(s, p, from, addr, len) && Ready(s, p, from) && Pending(s, from)
    ensures var n, src := Min(s.blocks[from].len, len), s.blocks[from].addr;
            Honest(s.sent, Receipt(s.pcs[from].id, p, len, s.mem[from][src..src + n]))
  {
    SlicePrefix(s.mem[from], s.blocks[from].addr, s.blocks[from].len, Min(s.blocks[from].len, len));
  }

  /** What a take leaves: another process's queued message, a process's alertness, and a message's account. */
  lemma TakeKeepsEach(s: State, p: nat, from: nat, addr: nat, len: nat, x: nat)
    requires Inv(s) && CanTry(s, p, from, addr, len) && Ready(s, p, from) && !s.pcs[p].Sending?
    ensures Shaped(Take(s, p, from, addr, len))
    ensures x < NUM_IDS && x in Take(s, p, from, addr, len).queue ==> Pending(Take(s, p, from, addr, len), x)
    ensures x < NUM_IDS ==> Alert(Take(s, p, from, addr, len), x)
    ensures x < |s.sent| ==> Accounted(Take(s, p, from, addr, len), x)
  {
    hide Honest, Taken, Splice, Min, Without;
    var t := Take(s, p, from, addr, len);
    WithoutMembers(s.queue, from);
    assert Pending(s, from);
    var r := t.receipts[|s.receipts|];
    if x < |s.sent| {
      assert Accounted(s, x);
      TakenMore(s.receipts, r, x);
    }
    if x < NUM_IDS {
      assert Alert(s, x);
      if s.pcs[x].Sending? {
        TakenMore(s.receipts, r, s.pcs[x].id);
        if x in s.queue {
          assert Pending(s, x);
          if x != from && s.pcs[x].id == r.id {
            assert false;
          }
        }
      }
    }
  }

  lemma TakeKeeps(s: State, p: nat, from: nat, addr: nat, len: nat)
    requires Inv(s) && CanTry(s, p, from, addr, len) && Ready(s, p, from) && !s.pcs[p].Sending?
    ensures Inv(Take(s, p, from, addr, len))
  {
    hide Alert, Accounted, Splice, Honest, Min, Without;
    assert Pending(s, from);
    TakesWhatWasSent(s, p, from, addr, len);
    TakeKeepsEach(s, p, from, addr, len, 0);
    forall x: nat | x < NUM_IDS ensures Alert(Take(s, p, from, addr, len), x) {
      TakeKeepsEach(s, p, from, addr, len, x);
    }
    forall x: nat | x < NUM_IDS && x in Take(s, p, from, addr, len).queue
      ensures Pending(Take(s, p, from, addr, len), x)
    {
      TakeKeepsEach(s, p, from, addr, len, x);
    }
    forall id: nat | id < |s.sent| ensures Accounted(Take(s, p, from, addr, len), id) {
      TakeKeepsEach(s, p, from, addr, len, id);
    }
  }

  lemma SendKeepsEach(s: State, p: nat, to: nat, addr: nat, len: nat, x: nat)
    requires Inv(s) && Enabled(s, Send(p, to, addr, len))
    ensures var t := Next(s, Send(p, to, addr, len));
            && Shaped(t) && t.receipts == s.receipts && s.sent <= t.sent
            && (x < NUM_IDS && x in t.queue ==> Pending(t, x)) && (x < NUM_IDS ==> Alert(t, x))
            && (x < |t.sent| ==> Accounted(t, x))
  {
    var t := Next(s, Send(p, to, addr, len));
    assert p !in s.queue by {
      assert Alert(s, p);
    }
    assert Shaped(t);
    if x < NUM_IDS {
      assert Alert(s, x);
      assert x in s.queue ==> Pending(s, x);
    }
    if x < |s.sent| {
      assert Accounted(s, x);
    }
  }

  lemma SendKeeps(s: State, p: nat, to: nat, addr: nat, len: nat)
    requires Inv(s) && Enabled(s, Send(p, to, addr, len))
    ensures Inv(Next(s, Send(p, to, addr, len)))
  {
    hide Next, Pending, Alert, Accounted, Enabled;
    var t := Next(s, Send(p, to, addr, len));
    forall x: nat
      ensures Shaped(t) && t.receipts == s.receipts && s.sent <= t.sent
      ensures x < NUM_IDS && x in t.queue ==> Pending(t, x)
      ensures x < NUM_IDS ==> Alert(t, x)
      ensures x < |t.sent| ==> Accounted(t, x)
    {
      SendKeepsEach(s, p, to, addr, len, x);
    }
    SendKeepsEach(s, p, to, addr, len, 0);
  }

  /** Steps that touch neither queue nor history: the process goes to sleep, or a sender finds its message gone. */
  lemma PcKeeps(s: State, p: nat, pc: Pc)
    requires Inv(s) && p < NUM_IDS && Alert(s.(pcs := s.pcs[p := pc]), p)
    requires p in s.queue ==> pc.Sending? && s.pcs[p].Sending? && pc.id == s.pcs[p].id
    ensures Inv(s.(pcs := s.pcs[p := pc]))
  {
    var t := s.(pcs := s.pcs[p := pc]);
    forall x: nat | x < NUM_IDS && x in t.queue ensures Pending(t, x) {
      assert Pending(s, x);
    }
    forall x: nat | x < NUM_IDS ensures Alert(t, x) {
      assert Alert(s, x);
    }
    forall id: nat | id < |t.sent| ensures Accounted(t, id) {
      assert Accounted(s, id);
    }
  }

  lemma TryKeeps(s: State, p: nat, from: nat, addr: nat, len: nat)
    requires Inv(s) && CanTry(s, p, from, addr, len) && !s.pcs[p].Sending?
    ensures Inv(TryRecv(s, p, from, addr, len))
  {
    if Ready(s, p, from) {
      TakeKeeps(s, p, from, addr, len);
    } else {
      assert Pending(s, p) || p !in s.queue;
      PcKeeps(s, p, Receiving(from, addr, len, Asleep));
    }
  }

  lemma StepKeepsInv(s: State, step: Step)
    requires Inv(s) && Enabled(s, step)
    ensures Inv(Next(s, step))
  {
    match step
    case Send(p, to, addr, len) => SendKeeps(s, p, to, addr, len);
    case Recv(p, from, addr, len) => TryKeeps(s, p, from, addr, len);
    case Resume(p) =>
      assert Alert(s, p);
      if s.pcs[p].Sending? {
        PcKeeps(s, p, if p in s.queue then Sending(s.pcs[p].id, Asleep) else Running);
      } else {
        TryKeeps(s, p, s.pcs[p].from, s.pcs[p].addr, s.pcs[p].len);
      }
    case Compute(p, mem) => ComputeKeeps(s, p, mem);
    case Signal(p) => SignalKeeps(s, p);
    case Kill(p) =>
      assert Alert(s, p);
      assert p in s.queue ==> Pending(s, p);
      PcKeeps(s, p, Ended(s.pcs[p]));
  }

  lemma SignalKeeps(s: State, p: nat)
    requires Inv(s) && Enabled(s, Signal(p))
    ensures Inv(Next(s, Signal(p)))
  {
    assert Alert(s, p);
    if s.pcs[p].Sending? {
      PcKeeps(s, p, Roused(s.pcs[p]));
    } else if s.pcs[p].Receiving? && s.pcs[p].life.Asleep? {
      WokenKeeps(s, s.pcs[p].from);
    }
  }

  lemma WokenKeeps(s: State, from: nat)
    requires Inv(s)
    ensures Inv(s.(pcs := Woken(s.pcs, from)))
  {
    var t := s.(pcs := Woken(s.pcs, from));
    forall x: nat | x < NUM_IDS && x in t.queue ensures Pending(t, x) {
      assert Pending(s, x);
    }
    forall x: nat | x < NUM_IDS ensures Alert(t, x) {
      assert Alert(s, x);
    }
    forall id: nat | id < |t.sent| ensures Accounted(t, id) {
      assert Accounted(s, id);
    }
  }

  lemma ComputeKeeps(s: State, p: nat, mem: seq<byte>)
    requires Inv(s) && Enabled(s, Compute(p, mem))
    ensures Inv(Next(s, Compute(p, mem)))
  {
    var t := Next(s, Compute(p, mem));
    forall x: nat | x < NUM_IDS && x in t.queue ensures Pending(t, x) {
      assert Pending(s, x) && x != p;
    }
    forall x: nat | x < NUM_IDS ensures Alert(t, x) {
      assert Alert(s, x);
    }
    forall id: nat | id < |t.sent| ensures Accounted(t, id) {
      assert Accounted(s, id);
    }
  }

  /** ipc_init, with every process outside the calls. */
  ghost predicate Init(s: State) {
    && Shaped(s) && s.queue == [] && s.sent == [] && s.receipts == []
    && forall p :: 0 <= p < NUM_IDS ==> s.pcs[p].Running?
  }

  ghost predicate IsRun(states: seq<State>, steps: seq<Step>) {
    && |states| == |steps| + 1 && Init(states[0])
    && forall i :: 0 <= i < |steps| ==> Enabled(states[i], steps[i]) && states[i + 1] == Next(states[i], steps[i])
  }

  lemma {:induction false} RunKeepsInv(states: seq<State>, steps: seq<Step>)
    requires IsRun(states, steps)
    ensures Inv(states[|steps|])
  {
    if |steps| > 0 {
      RunKeepsInv(states[..|steps|], steps[..|steps| - 1]);
      StepKeepsInv(states[|steps| - 1], steps[|steps| - 1]);
    }
  }

  /** In every interleaving, a sender returns only when exactly one receipt exists for its message, written by the
      process it named, for the shorter of the two lengths of the bytes that were in its buffer when it sent. */
  lemma SenderReturns(states: seq<State>, steps: seq<Step>, p: nat)
    requires IsRun(states, steps)
    requires var s := states[|steps|]; Enabled(s, Resume(p)) && s.pcs[p].Sending? && Next(s, Resume(p)).pcs[p].Running?
    ensures var s := states[|steps|];
            && s.pcs[p].id < |s.sent| && s.sent[s.pcs[p].id].sender == p
            && exists k :: 0 <= k < |s.receipts| && s.receipts[k].id == s.pcs[p].id && Honest(s.sent, s.receipts[k])
                 && forall j :: 0 <= j < |s.receipts| && s.receipts[j].id == s.pcs[p].id ==> j == k
  {
    RunKeepsInv(states, steps);
    var s := states[|steps|];
    assert Alert(s, p);
    var k :| 0 <= k < |s.receipts| && s.receipts[k].id == s.pcs[p].id;
    assert Honest(s.sent, s.receipts[k]);
    forall j | 0 <= j < |s.receipts| && s.receipts[j].id == s.pcs[p].id ensures j == k {
    }
  }

  /** No message is lost or taken twice: each is either queued, with its sender still in the call, or has its one
      receipt. */
  lemma TakenOnce(states: seq<State>, steps: seq<Step>, id: nat)
    requires IsRun(states, steps) && id < |states[|steps|].sent|
    ensures var s := states[|steps|];
            var from := s.sent[id].sender;
            Inv(s) && from < NUM_IDS &&
              (Taken(s.receipts, id) <==> !(from in s.queue && s.pcs[from].Sending? && s.pcs[from].id == id))
  {
    RunKeepsInv(states, steps);
    var s := states[|steps|];
    assert Accounted(s, id);
    if s.sent[id].sender in s.queue {
      assert Pending(s, s.sent[id].sender);
    }
  }

  /** A process that could be served is never asleep. */
  lemma NoLostWakeup(states: seq<State>, steps: seq<Step>, p: nat)
    requires IsRun(states, steps) && p < NUM_IDS && Shaped(states[|steps|])
    ensures var s := states[|steps|];
            && (s.pcs[p].Receiving? && Ready(s, p, s.pcs[p].from) ==> !s.pcs[p].life.Asleep?)
            && (s.pcs[p].Sending? && p !in s.queue ==> !s.pcs[p].life.Asleep?)
  {
    RunKeepsInv(states, steps);
    assert Alert(states[|steps|], p);
  }

  /** The enabling conditions ask nothing of the caller beyond its own buffer. */
  lemma RecvAlwaysEnabled(s: State, p: nat, from: nat, addr: nat, len: nat)
    requires Inv(s) && p < NUM_IDS && InBounds(s, p, addr, len)
    ensures s.pcs[p].Running? ==> Enabled(s, Recv(p, from, addr, len))
    ensures (s.pcs[p].Sending? || s.pcs[p].Receiving?) && s.pcs[p].life.Awake? ==> Enabled(s, Resume(p))
  {
    assert Alert(s, p);
    forall f: nat | f < NUM_IDS && Ready(s, p, f)
      ensures s.pcs[f].Sending? && InBounds(s, f, s.blocks[f].addr, s.blocks[f].len)
    {
      assert Pending(s, f);
    }
  }

  /** Once a sender and the receiver it named wait for each other, two steps complete both calls, and the
      receiver's buffer holds what was sent. */
  lemma PairCompletes(states: seq<State>, steps: seq<Step>, p: nat, from: nat)
    requires IsRun(states, steps) && p < NUM_IDS && from < NUM_IDS && Shaped(states[|steps|])
    requires var s := states[|steps|]; s.pcs[p].Receiving? && s.pcs[p].from == from && Ready(s, p, from)
    requires var s := states[|steps|]; !s.pcs[p].life.Killed? && !(s.pcs[from].Sending? && s.pcs[from].life.Killed?)
    ensures var s := states[|steps|];
            && Enabled(s, Resume(p)) && s.pcs[from].Sending? && Enabled(Next(s, Resume(p)), Resume(from))
            && var t := Next(Next(s, Resume(p)), Resume(from));
            && t.pcs[p].Running? && t.pcs[from].Running? && s.pcs[from].id < |s.sent|
            && var data := s.sent[s.pcs[from].id].data[..Min(|s.sent[s.pcs[from].id].data|, s.pcs[p].len)];
            && s.pcs[p].addr + |data| <= |s.mem[p]| && t.mem == s.mem[p := Splice(s.mem[p], s.pcs[p].addr, data)]
  {
    var s := states[|steps|];
    RunKeepsInv(states, steps);
    assert Alert(s, p);
    RecvAlwaysEnabled(s, p, from, s.pcs[p].addr, s.pcs[p].len);
    TakeDelivers(s, p, from);
  }

  lemma TakeDelivers(s: State, p: nat, from: nat)
    requires Inv(s) && p < NUM_IDS && from < NUM_IDS && s.pcs[p].Receiving? && s.pcs[p].from == from
    requires CanTry(s, p, from, s.pcs[p].addr, s.pcs[p].len) && Ready(s, p, from)
    ensures Pending(s, from)
    ensures var t := Take(s, p, from, s.pcs[p].addr, s.pcs[p].len);
            var all := s.sent[s.pcs[from].id].data;
            && Shaped(t) && from !in t.queue && t.pcs == s.pcs[from := Roused(s.pcs[from])][p := Running]
            && t.mem == s.mem[p := Splice(s.mem[p], s.pcs[p].addr, all[..Min(|all|, s.pcs[p].len)])]
  {
    assert Pending(s, from);
    hide Alert, Accounted, Honest, Taken;
    WithoutMembers(s.queue, from);
    var src, all := s.blocks[from].addr, s.sent[s.pcs[from].id].data;
    var n := Min(|all|, s.pcs[p].len);
    SlicePrefix(s.mem[from], src, |all|, n);
  }

  lemma SlicePrefix(m: seq<byte>, src: nat, len: nat, n: nat)
    requires src + len <= |m| && n <= len
    ensures m[src..src + len][..n] == m[src..src + n]
  {
  }
}
