/** The queue of unread messages: a list threaded through the message blocks. It is linked like the ready queue, but
    msg_remove lacks tqueue_remove's test for a block that is not in the list. */
module MessageQueue {
  import opened Params
  import opened Sequences
  import opened ReadyQueue
  import Rendezvous

  datatype Links = Links(prev: seq<nat>, next: seq<nat>, head: nat, tail: nat)

  ghost predicate Linked(l: Links, q: seq<nat>) {
    Chain(l.prev, l.next, l.head, l.tail, q)
  }

  /** msg_remove. */
  ghost function Unlinked(l: Links, pid: nat): (r: Links)
    requires |l.prev| == |l.next| == NUM_IDS && pid < NUM_IDS
  {
    var p, n := l.prev[pid], l.next[pid];
    Links(Stored(Stored(l.prev, n, p), pid, NUM_IDS), Stored(Stored(l.next, p, n), pid, NUM_IDS),
          if p == NUM_IDS then n else l.head, if n == NUM_IDS then p else l.tail)
  }

  /** msg_remove takes a message out of the list, and nothing else, exactly if it was in the list or the list was
      empty. Of a nonempty list it otherwise forgets every message. */
  lemma UnlinkExactly(l: Links, q: seq<nat>, pid: nat)
    requires Linked(l, q) && pid < NUM_IDS
    ensures Linked(Unlinked(l, pid), Without(q, pid)) <==> pid in q || q == []
    ensures pid !in q ==> Unlinked(l, pid).head == Unlinked(l, pid).tail == NUM_IDS
  {
    hide Stored, Without;
    if pid in q {
      var k :| 0 <= k < |q| && q[k] == pid;
      Removed(l.prev, l.next, l.head, l.tail, q, k);
      WithoutAt(q, k);
    } else {
      WithoutMembers(q, pid);
      if q == [] {
        UnlinkNothing(l, pid);
      }
    }
  }

  lemma UnlinkNothing(l: Links, pid: nat)
    requires Linked(l, []) && pid < NUM_IDS
    ensures Linked(Unlinked(l, pid), [])
  {
  }

  /** With the message of process 3 alone in the list, removing that of process 5 loses it. */
  lemma UnlinkLosesMessage(l: Links)
    requires Linked(l, [3])
    ensures Unlinked(l, 5).head == NUM_IDS && !Linked(Unlinked(l, 5), Without([3], 5))
  {
    UnlinkExactly(l, [3], 5);
  }

  /** A process outside the calls has no message in the queue. */
  lemma NotQueued(s: Rendezvous.State, p: nat)
    requires Rendezvous.Inv(s) && p < NUM_IDS && s.pcs[p].Running?
    ensures p !in s.queue
  {
    assert p in s.queue ==> Rendezvous.Pending(s, p);
  }

  /** The links, and the fields of each block that sys_sync_send fills in. The field `send_pid` of a
      block is its index. */
  class MsgQueue {
    const prev: array<nat>
    const next: array<nat>
    const blocks: array<Rendezvous.MsgBlock>
    var head: nat
    var tail: nat
    ghost var q: seq<nat>

    ghost predicate Shaped()
      reads this
    {
      prev != next && prev.Length == next.Length == blocks.Length == NUM_IDS
    }

    ghost function Words(): (l: Links)
      reads this, prev, next
    {
      Links(prev[..], next[..], head, tail)
    }

    ghost predicate Valid()
      reads this, prev, next
    {
      Shaped() && Linked(Words(), q)
    }

    /** ipc_init */
    constructor ()
      ensures Valid() && q == [] && fresh(prev) && fresh(next) && fresh(blocks)
    {
      prev := new nat[NUM_IDS](_ => NUM_IDS);
      next := new nat[NUM_IDS](_ => NUM_IDS);
      blocks := new Rendezvous.MsgBlock[NUM_IDS](_ => Rendezvous.MsgBlock(NUM_IDS, 0, 0));
      head, tail := NUM_IDS, NUM_IDS;
      q := [];
    }

    /** msg_enqueue */
    method Enqueue(pid: nat)
      requires Valid() && pid < NUM_IDS && pid !in q
      modifies this, prev, next
      ensures Valid() && q == old(q) + [pid]
    {
      hide Chain;
      ChainEnds(prev[..], next[..], head, tail, q);
      Appended(prev[..], next[..], head, tail, q, pid);
      ghost var p, n := prev[..], next[..];
      if tail == NUM_IDS {
        prev[pid] := NUM_IDS;
        next[pid] := NUM_IDS;
        tail := pid;
        head := pid;
      } else {
        next[tail] := pid;
        prev[pid] := tail;
        next[pid] := NUM_IDS;
        tail := pid;
      }
      assert prev[..] == Stored(p, pid, old(tail)) && next[..] == Stored(Stored(n, old(tail), pid), pid, NUM_IDS);
      q := q + [pid];
    }

    /** msg_remove, on any block. */
    method Remove(pid: nat)
      requires Valid() && pid < NUM_IDS
      modifies this, prev, next
      ensures Shaped() && q == Without(old(q), pid) && Words() == Unlinked(old(Words()), pid)
      ensures Valid() <==> pid in old(q) || old(q) == []
      ensures pid !in old(q) ==> head == NUM_IDS
    {
      hide Chain, Without;
      UnlinkExactly(Words(), q, pid);
      LinkBounds(Words(), q, pid);
      var pv, nx := prev[pid], next[pid];
      ghost var p, n := prev[..], next[..];
      if pv == NUM_IDS {
        if nx == NUM_IDS {
          head := NUM_IDS;
          tail := NUM_IDS;
        } else {
          head := nx;
          prev[nx] := NUM_IDS;
        }
      } else {
        if nx == NUM_IDS {
          tail := pv;
          next[pv] := NUM_IDS;
        } else {
          next[pv] := nx;
          prev[nx] := pv;
        }
      }
      prev[pid] := NUM_IDS;
      next[pid] := NUM_IDS;
      assert next[..] == Stored(Stored(n, pv, nx), pid, NUM_IDS) && prev[..] == Stored(Stored(p, nx, pv), pid, NUM_IDS);
      q := Without(q, pid);
    }

    /** msg_getBlockBySendID. The list is acyclic, so the walk ends. */
    method GetBlockBySendID(sender: nat) returns (r: nat)
      requires Valid()
      ensures r == if sender in q then sender else NUM_IDS
    {
      var pid := head;
      ghost var k := 0;
      while pid != NUM_IDS
        invariant 0 <= k <= |q| && sender !in q[..k]
        invariant pid == if k < |q| then q[k] else NUM_IDS
        decreases |q| - k
      {
        if pid == sender {
          return sender;
        }
        Neighbours(prev[..], next[..], head, tail, q, k);
        pid := next[pid];
        k := k + 1;
      }
      return NUM_IDS;
    }

    /** The list and the blocks are those of the protocol state `s`. */
    ghost predicate Represents(s: Rendezvous.State)
      reads this, prev, next, blocks
    {
      Valid() && q == s.queue && blocks[..] == s.blocks
    }

    /** What sys_sync_send does before it waits. The sender's block is not in the list, so that the list stays one. */
    method Send(ghost s: Rendezvous.State, p: nat, to: nat, addr: nat, len: nat)
      requires Rendezvous.Inv(s) && Represents(s) && Rendezvous.Enabled(s, Rendezvous.Send(p, to, addr, len))
      modifies this, prev, next, blocks
      ensures q == old(q) + [p] && blocks[..] == old(blocks[..])[p := Rendezvous.MsgBlock(to, addr, len)]
      ensures Represents(Rendezvous.Next(s, Rendezvous.Send(p, to, addr, len)))
    {
      hide Chain;
      NotQueued(s, p);
      hide Rendezvous.Inv;
      blocks[p] := Rendezvous.MsgBlock(to, addr, len);
      Enqueue(p);
    }

    /** The loop test of sys_sync_recv and, if it is passed, msg_remove. The test finds the message in the list, which
        is what msg_remove needs. */
    method Recv(ghost s: Rendezvous.State, p: nat, from: nat, addr: nat, len: nat) returns (ok: bool)
      requires Represents(s) && Rendezvous.CanTry(s, p, from, addr, len)
      modifies this, prev, next
      ensures ok == (from in old(q) && from < blocks.Length && blocks[from].to == p)
      ensures q == if ok then Without(old(q), from) else old(q)
      ensures ok == Rendezvous.Ready(s, p, from)
      ensures Represents(Rendezvous.TryRecv(s, p, from, addr, len))
    {
      hide Chain, Without;
      QueueBounds(Words(), q);
      var b := GetBlockBySendID(from);
      if b == NUM_IDS || blocks[from].to != p {
        return false;
      }
      Remove(from);
      return true;
    }
  }

  lemma LinkBounds(l: Links, q: seq<nat>, pid: nat)
    requires Linked(l, q) && pid < NUM_IDS
    ensures l.prev[pid] <= NUM_IDS && l.next[pid] <= NUM_IDS
  {
    if pid in q {
      var k :| 0 <= k < |q| && q[k] == pid;
      Neighbours(l.prev, l.next, l.head, l.tail, q, k);
    }
  }

  lemma QueueBounds(l: Links, q: seq<nat>)
    requires Linked(l, q)
    ensures forall x :: x in q ==> x < NUM_IDS
  {
  }
}
