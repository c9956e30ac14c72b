/** The ready queue: a doubly linked list threaded through the `prev` and `next` words of the TCBs. */
module ReadyQueue {
  import opened Params
  import opened Sequences

  /** The words represent the duplicate-free sequence `q`; a pid outside it is detached. */
  ghost predicate Chain(prev: seq<nat>, next: seq<nat>, head: nat, tail: nat, q: seq<nat>) {
    && |prev| == |next| == NUM_IDS
    && (forall k :: 0 <= k < |q| ==> q[k] < NUM_IDS)
    && (forall j, k :: 0 <= j < k < |q| ==> q[j] != q[k])
    && head == (if q == [] then NUM_IDS else q[0])
    && tail == (if q == [] then NUM_IDS else q[|q| - 1])
    && (forall j, k :: 0 <= j < k == j + 1 < |q| ==> next[q[j]] == q[k] && prev[q[k]] == q[j])
    && (q != [] ==> prev[q[0]] == NUM_IDS && next[q[|q| - 1]] == NUM_IDS)
    && (forall x: nat :: x < NUM_IDS && x !in q ==> prev[x] == NUM_IDS && next[x] == NUM_IDS)
  }

  /** Store `v` at index `i`; a store through the null index NUM_IDS does not happen. */
  ghost function Stored(words: seq<nat>, i: nat, v: nat): (r: seq<nat>) {
    if i < |words| then words[i := v] else words
  }

  lemma Appended(prev: seq<nat>, next: seq<nat>, head: nat, tail: nat, q: seq<nat>, pid: nat)
    requires Chain(prev, next, head, tail, q) && pid < NUM_IDS && pid !in q
    ensures Chain(Stored(prev, pid, tail), Stored(Stored(next, tail, pid), pid, NUM_IDS), if q == [] then pid else head,
                  pid, q + [pid])
  {
  }

  lemma Removed(prev: seq<nat>, next: seq<nat>, head: nat, tail: nat, q: seq<nat>, k: nat)
    requires Chain(prev, next, head, tail, q) && k < |q|
    ensures var pid, p, n := q[k], prev[q[k]], next[q[k]];
            && p <= NUM_IDS && n <= NUM_IDS && (p == NUM_IDS <==> k == 0) && (n == NUM_IDS <==> k == |q| - 1)
            && (k > 0 ==> p == q[k - 1]) && (k < |q| - 1 ==> n == q[k + 1])
            && Chain(Stored(Stored(prev, n, p), pid, NUM_IDS), Stored(Stored(next, p, n), pid, NUM_IDS),
                     if p == NUM_IDS then n else head, if n == NUM_IDS then p else tail, q[..k] + q[k + 1..])
  {
    Neighbours(prev, next, head, tail, q, k);
    LinksAfter(prev, next, head, tail, q, k);
    DetachedAfter(prev, next, head, tail, q, k);
    CutDistinct(q, k);
    hide Stored;
    EndsAfter(prev, next, head, tail, q, k);
  }

  lemma EndsAfter(prev: seq<nat>, next: seq<nat>, head: nat, tail: nat, q: seq<nat>, k: nat)
    requires Chain(prev, next, head, tail, q) && k < |q|
    ensures var pid, p, n, q' := q[k], prev[q[k]], next[q[k]], q[..k] + q[k + 1..];
            var prev', next' := Stored(Stored(prev, n, p), pid, NUM_IDS), Stored(Stored(next, p, n), pid, NUM_IDS);
            && |prev'| == |next'| == NUM_IDS
            && (if p == NUM_IDS then n else head) == (if q' == [] then NUM_IDS else q'[0])
            && (if n == NUM_IDS then p else tail) == (if q' == [] then NUM_IDS else q'[|q'| - 1])
            && (q' != [] ==> q'[0] < NUM_IDS && q'[|q'| - 1] < NUM_IDS && prev'[q'[0]] == NUM_IDS &&
                             next'[q'[|q'| - 1]] == NUM_IDS)
  {
    Neighbours(prev, next, head, tail, q, k);
  }

  lemma LinksAfter(prev: seq<nat>, next: seq<nat>, head: nat, tail: nat, q: seq<nat>, k: nat)
    requires Chain(prev, next, head, tail, q) && k < |q|
    ensures var pid, p, n, q' := q[k], prev[q[k]], next[q[k]], q[..k] + q[k + 1..];
            var prev', next' := Stored(Stored(prev, n, p), pid, NUM_IDS), Stored(Stored(next, p, n), pid, NUM_IDS);
            && (forall i :: 0 <= i < |q'| ==> q'[i] < NUM_IDS)
            && forall i, j :: 0 <= i < j == i + 1 < |q'| ==> next'[q'[i]] == q'[j] && prev'[q'[j]] == q'[i]
  {
    hide Chain, Stored;
    ChainShape(prev, next, head, tail, q);
    var q' := q[..k] + q[k + 1..];
    forall i, j | 0 <= i < j == i + 1 < |q'|
      ensures var pid, p, n := q[k], prev[q[k]], next[q[k]];
              && Stored(Stored(next, p, n), pid, NUM_IDS)[q'[i]] == q'[j]
              && Stored(Stored(prev, n, p), pid, NUM_IDS)[q'[j]] == q'[i]
    {
      LinkAfter(prev, next, head, tail, q, k, i);
    }
  }

  lemma ChainShape(prev: seq<nat>, next: seq<nat>, head: nat, tail: nat, q: seq<nat>)
    requires Chain(prev, next, head, tail, q)
    ensures |prev| == |next| == NUM_IDS && forall i :: 0 <= i < |q| ==> q[i] < NUM_IDS
    ensures forall w: seq<nat>, i: nat, v: nat :: |Stored(w, i, v)| == |w|
  {
  }

  /** One link of the list without `q[k]`. */
  lemma LinkAfter(prev: seq<nat>, next: seq<nat>, head: nat, tail: nat, q: seq<nat>, k: nat, i: nat)
    requires Chain(prev, next, head, tail, q) && k < |q| && i + 2 < |q|
    ensures var pid, p, n, q' := q[k], prev[q[k]], next[q[k]], q[..k] + q[k + 1..];
            var prev', next' := Stored(Stored(prev, n, p), pid, NUM_IDS), Stored(Stored(next, p, n), pid, NUM_IDS);
            && q'[i] < NUM_IDS && q'[i + 1] < NUM_IDS && |prev'| == |next'| == NUM_IDS
            && next'[q'[i]] == q'[i + 1] && prev'[q'[i + 1]] == q'[i]
  {
    hide Chain;
    ChainShape(prev, next, head, tail, q);
    Neighbours(prev, next, head, tail, q, k);
    Neighbours(prev, next, head, tail, q, i);
    Neighbours(prev, next, head, tail, q, i + 1);
    Neighbours(prev, next, head, tail, q, i + 2);
    Different(prev, next, head, tail, q, k, i);
    Different(prev, next, head, tail, q, k, i + 1);
    Different(prev, next, head, tail, q, k, i + 2);
    Different(prev, next, head, tail, q, i, i + 1);
    Different(prev, next, head, tail, q, i, i + 2);
    Different(prev, next, head, tail, q, i + 1, i + 2);
    if k > 0 {
      Different(prev, next, head, tail, q, k - 1, i);
      Different(prev, next, head, tail, q, k - 1, i + 1);
    }
    if k + 1 < |q| {
      Different(prev, next, head, tail, q, k + 1, i + 1);
      Different(prev, next, head, tail, q, k + 1, i + 2);
    }
  }

  lemma Different(prev: seq<nat>, next: seq<nat>, head: nat, tail: nat, q: seq<nat>, i: nat, j: nat)
    requires Chain(prev, next, head, tail, q) && i < |q| && j < |q|
    ensures q[i] < NUM_IDS && q[j] < NUM_IDS && (q[i] == q[j] <==> i == j)
  {
  }

  lemma DetachedAfter(prev: seq<nat>, next: seq<nat>, head: nat, tail: nat, q: seq<nat>, k: nat)
    requires Chain(prev, next, head, tail, q) && k < |q|
    ensures var pid, p, n, q' := q[k], prev[q[k]], next[q[k]], q[..k] + q[k + 1..];
            var prev', next' := Stored(Stored(prev, n, p), pid, NUM_IDS), Stored(Stored(next, p, n), pid, NUM_IDS);
            forall x: nat :: x < NUM_IDS && x !in q' ==> prev'[x] == NUM_IDS && next'[x] == NUM_IDS
  {
    hide Chain;
    Neighbours(prev, next, head, tail, q, k);
    ChainDistinct(prev, next, head, tail, q);
    CutMembers(q, k);
    var pid, p, n, q' := q[k], prev[q[k]], next[q[k]], q[..k] + q[k + 1..];
    assert k > 0 ==> q[k - 1] in q;
    assert k < |q| - 1 ==> q[k + 1] in q;
  }

  lemma ChainDistinct(prev: seq<nat>, next: seq<nat>, head: nat, tail: nat, q: seq<nat>)
    requires Chain(prev, next, head, tail, q)
    ensures |prev| == |next| == NUM_IDS && (forall i :: 0 <= i < |q| ==> q[i] < NUM_IDS)
    ensures forall j, k :: 0 <= j < k < |q| ==> q[j] != q[k]
    ensures forall x: nat :: x < NUM_IDS && x !in q ==> prev[x] == NUM_IDS && next[x] == NUM_IDS
  {
  }

  lemma Neighbours(prev: seq<nat>, next: seq<nat>, head: nat, tail: nat, q: seq<nat>, k: nat)
    requires Chain(prev, next, head, tail, q) && k < |q|
    ensures prev[q[k]] == if k == 0 then NUM_IDS else q[k - 1]
    ensures next[q[k]] == if k == |q| - 1 then NUM_IDS else q[k + 1]
  {
  }

  lemma ChainEnds(prev: seq<nat>, next: seq<nat>, head: nat, tail: nat, q: seq<nat>)
    requires Chain(prev, next, head, tail, q)
    ensures head <= NUM_IDS && tail <= NUM_IDS && (head == NUM_IDS <==> q == []) && (tail == NUM_IDS <==> q == [])
    ensures q != [] ==> head == q[0]
  {
  }

  /** The test with which tqueue_remove tells whether a pid is in the queue. */
  lemma ListedExactly(prev: seq<nat>, next: seq<nat>, head: nat, tail: nat, q: seq<nat>, pid: nat)
    requires Chain(prev, next, head, tail, q) && pid < NUM_IDS
    ensures pid !in q <==> prev[pid] == NUM_IDS && next[pid] == NUM_IDS && head != pid
    ensures forall j, k :: 0 <= j < k < |q| ==> q[j] != q[k]
  {
    if pid in q {
      var k :| 0 <= k < |q| && q[k] == pid;
      Neighbours(prev, next, head, tail, q, k);
    }
  }

  class Queue {
    const prev: array<nat>
    const next: array<nat>
    var head: nat
    var tail: nat
    ghost var q: seq<nat>

    ghost predicate Valid()
      reads this, prev, next
    {
      && prev != next && prev.Length == next.Length == NUM_IDS
      && Chain(prev[..], next[..], head, tail, q)
    }

    constructor ()
      ensures Valid() && q == [] && fresh(prev) && fresh(next)
    {
      prev := new nat[NUM_IDS](_ => NUM_IDS);
      next := new nat[NUM_IDS](_ => NUM_IDS);
      head, tail := NUM_IDS, NUM_IDS;
      q := [];
    }

    /** tqueue_enqueue */
    method Enqueue(pid: nat)
      requires Valid() && pid < NUM_IDS && pid !in q
      modifies this, prev, next
      ensures Valid() && q == old(q) + [pid]
    {
      hide Chain;
      ChainEnds(prev[..], next[..], head, tail, q);
      Appended(prev[..], next[..], head, tail, q, pid);
      ghost var p, n := prev[..], next[..];
      if tail == NUM_IDS {
        prev[pid] := NUM_IDS;
        next[pid] := NUM_IDS;
        head := pid;
        tail := pid;
      } else {
        next[tail] := pid;
        prev[pid] := tail;
        next[pid] := NUM_IDS;
        tail := pid;
      }
      assert prev[..] == Stored(p, pid, old(tail)) && next[..] == Stored(Stored(n, old(tail), pid), pid, NUM_IDS);
      q := q + [pid];
    }

    /** tqueue_dequeue: the head, or NUM_IDS if the queue is empty. */
    method Dequeue() returns (pid: nat)
      requires Valid()
      modifies this, prev, next
      ensures Valid()
      ensures pid == if old(q) == [] then NUM_IDS else old(q)[0]
      ensures q == if old(q) == [] then [] else old(q)[1..]
    {
      hide Chain;
      ChainEnds(prev[..], next[..], head, tail, q);
      pid := NUM_IDS;
      if head != NUM_IDS {
        Removed(prev[..], next[..], head, tail, q, 0);
        ghost var p, n := prev[..], next[..];
        pid := head;
        var nx := next[head];
        if nx == NUM_IDS {
          head := NUM_IDS;
          tail := NUM_IDS;
        } else {
          prev[nx] := NUM_IDS;
          head := nx;
        }
        prev[pid] := NUM_IDS;
        next[pid] := NUM_IDS;
        assert next[..] == Stored(Stored(n, NUM_IDS, nx), pid, NUM_IDS) &&
                 prev[..] == Stored(Stored(p, nx, NUM_IDS), pid, NUM_IDS);
        assert q[..0] + q[1..] == q[1..];
        q := q[1..];
      }
    }

    /** tqueue_remove: take `pid` out, wherever it is; nothing happens if it is not in the queue. */
    method Remove(pid: nat)
      requires Valid() && pid < NUM_IDS
      modifies this, prev, next
      ensures Valid() && q == Without(old(q), pid)
    {
      hide Chain, Without;
      ListedExactly(prev[..], next[..], head, tail, q, pid);
      var pv, nx := prev[pid], next[pid];
      if pv == NUM_IDS && nx == NUM_IDS && head != pid {
        return;
      }
      ghost var k :| 0 <= k < |q| && q[k] == pid;
      Removed(prev[..], next[..], head, tail, q, k);
      WithoutAt(q, k);
      ghost var p, n := prev[..], next[..];
      if pv == NUM_IDS {
        if nx == NUM_IDS {
          head := NUM_IDS;
          tail := NUM_IDS;
        } else {
          prev[nx] := NUM_IDS;
          head := nx;
        }
      } else {
        if nx == NUM_IDS {
          next[pv] := NUM_IDS;
          tail := pv;
        } else {
          next[pv] := nx;
          prev[nx] := pv;
        }
      }
      prev[pid] := NUM_IDS;
      next[pid] := NUM_IDS;
      assert next[..] == Stored(Stored(n, pv, nx), pid, NUM_IDS) && prev[..] == Stored(Stored(p, nx, pv), pid, NUM_IDS);
      q := q[..k] + q[k + 1..];
    }
  }
}
