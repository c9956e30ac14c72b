/** A pipe: a 512-byte ring with 32-bit counters that wrap, and the two lock-protected regions that run
    between the sleeping points of pipe_write and pipe_read. */
module Pipe {
  import opened Bytes
  import opened Sequences

  const PIPESIZE: nat := 512

  /** How a region of pipe_write ends: all bytes in, asleep on nwrite, or -1 because nobody can read. */
  datatype WriteEnd = Wrote | MustSleep | Broken

  /** What a region of pipe_write does to the bytes in flight, starting at byte `i` of `addr`. */
  datatype WriteResult = WriteResult(inFlight: seq<byte>, i: nat, end: WriteEnd)

  function WriteRegion(inFlight: seq<byte>, readopen: bool, addr: seq<byte>, i: nat): (r: WriteResult)
    requires |inFlight| <= PIPESIZE && i <= |addr|
    ensures |r.inFlight| <= PIPESIZE && i <= r.i <= |addr| && r.inFlight == inFlight + addr[i..r.i]
    ensures r.end.Wrote? <==> r.i == |addr|
    ensures !r.end.Wrote? ==> |r.inFlight| == PIPESIZE && (r.end.MustSleep? <==> readopen)
  {
    var m := Min(|addr| - i, PIPESIZE - |inFlight|);
    WriteResult(inFlight + addr[i..i + m], i + m,
                if i + m == |addr| then Wrote else if readopen then MustSleep else Broken)
  }

  /** What a region of pipe_read does: sleep on nread, or return the bytes it takes. */
  datatype ReadResult = ReadResult(inFlight: seq<byte>, bytes: seq<byte>, sleeps: bool)

  function ReadRegion(inFlight: seq<byte>, writeopen: bool, n: nat): (r: ReadResult)
    ensures r.bytes + r.inFlight == inFlight && |r.bytes| <= n
    ensures r.sleeps <==> inFlight == [] && writeopen
    ensures !r.sleeps ==> |r.bytes| == Min(n, |inFlight|)
  {
    if inFlight == [] && writeopen then ReadResult(inFlight, [], true)
    else var m := Min(n, |inFlight|); ReadResult(inFlight[m..], inFlight[..m], false)
  }

  /** Ring index and fullness tests on the wrapped counters agree with the unwrapped ones: this is where
      512 divides 2^32. */
  lemma WrappedCounters(r: nat, w: nat)
    requires r <= w <= r + PIPESIZE
    ensures w % U32 % PIPESIZE == w % PIPESIZE && r % U32 % PIPESIZE == r % PIPESIZE
    ensures r % U32 == w % U32 <==> r == w
    ensures (r % U32 + PIPESIZE) % U32 == w % U32 <==> w == r + PIPESIZE
    ensures (w % U32 + 1) % U32 == (w + 1) % U32 && (r % U32 + 1) % U32 == (r + 1) % U32
  {
    RingIndex(r);
    RingIndex(w);
    WrapNext(r);
    WrapNext(w);
    WrapFull(r, w - r);
  }

  lemma WrapNext(x: nat)
    ensures (x % U32 + 1) % U32 == (x + 1) % U32
  {
    WrapAdd(x, 1);
    var r := x % U32;
    if r + 1 < U32 {
      DivMod(r + 1, 0, r + 1);
    } else {
      DivMod(r + 1, 1, 0);
    }
  }

  lemma WrapFull(x: nat, d: nat)
    requires d <= PIPESIZE
    ensures x % U32 == (x + d) % U32 <==> d == 0
    ensures (x % U32 + PIPESIZE) % U32 == (x + d) % U32 <==> d == PIPESIZE
  {
    WrapAdd(x, d);
    var r := x % U32;
    if r + PIPESIZE < U32 {
      DivMod(r + PIPESIZE, 0, r + PIPESIZE);
    } else {
      DivMod(r + PIPESIZE, 1, r + PIPESIZE - U32);
    }
  }

  lemma WrapAdd(x: nat, d: nat)
    requires d <= PIPESIZE
    ensures (x + d) % U32 == if x % U32 + d < U32 then x % U32 + d else x % U32 + d - U32
  {
    var q, r := x / U32, x % U32;
    assert x + d == q * U32 + (r + d);
    if r + d < U32 {
      DivMod(x + d, q, r + d);
    } else {
      DivMod(x + d, q + 1, r + d - U32);
    }
  }

  lemma DivMod(x: nat, q: nat, r: nat)
    requires x == q * U32 + r && r < U32
    ensures x % U32 == r
  {
  }

  lemma RingIndex(x: nat)
    ensures x % U32 % PIPESIZE == x % PIPESIZE
  {
  }

  /** Slots of the ring that hold different bytes in flight are different. */
  lemma DistinctSlots(a: nat, b: nat)
    requires a < b < a + PIPESIZE
    ensures a % PIPESIZE != b % PIPESIZE
  {
  }

  class PipeBuf {
    const data: array<byte>
    var nread: nat
    var nwrite: nat
    var readopen: bool
    var writeopen: bool
    /** Every byte ever written, and how many of them have been read. */
    ghost var written: seq<byte>
    ghost var taken: nat

    ghost predicate Valid()
      reads this, data
    {
      && data.Length == PIPESIZE
      && taken <= |written| <= taken + PIPESIZE
      && nread == taken % U32 && nwrite == |written| % U32
      && forall k :: taken <= k < |written| ==> data[k % PIPESIZE] == written[k]
    }

    ghost function InFlight(): (s: seq<byte>)
      requires Valid()
      reads this, data
    {
      written[taken..]
    }

    /** pipe_alloc's initial state. */
    constructor ()
      ensures Valid() && fresh(data) && written == [] && taken == 0 && readopen && writeopen
    {
      data := new byte[PIPESIZE](_ => 0);
      nread, nwrite := 0, 0;
      readopen, writeopen := true, true;
      written, taken := [], 0;
    }

    /** `p->data[p->nwrite++ % PIPESIZE] = c` */
    method Put(c: byte)
      requires Valid() && |written| < taken + PIPESIZE
      modifies this`nwrite, this`written, data
      ensures Valid() && written == old(written) + [c]
    {
      WrappedCounters(taken, |written|);
      forall k | taken <= k < |written| ensures k % PIPESIZE != |written| % PIPESIZE {
        DistinctSlots(k, |written|);
      }
      data[nwrite % PIPESIZE] := c;
      nwrite := (nwrite + 1) % U32;
      written := written + [c];
    }

    /** `addr[i] = p->data[p->nread++ % PIPESIZE]` */
    method Take() returns (c: byte)
      requires Valid() && taken < |written|
      modifies this`nread, this`taken
      ensures Valid() && taken == old(taken) + 1 && c == written[old(taken)]
    {
      WrappedCounters(taken, |written|);
      c := data[nread % PIPESIZE];
      nread := (nread + 1) % U32;
      taken := taken + 1;
    }

    /** pipe_write from byte `i0` up to its return or its next sleep. */
    method Write(addr: seq<byte>, i0: nat) returns (i: nat, end: WriteEnd)
      requires Valid() && i0 <= |addr|
      modifies this`nwrite, this`written, data
      ensures Valid()
      ensures var r := WriteRegion(old(InFlight()), readopen, addr, i0);
              i == r.i && end == r.end && InFlight() == r.inFlight && written == old(written) + addr[i0..i]
    {
      i := i0;
      while i < |addr|
        invariant i0 <= i <= |addr| && Valid() && written == old(written) + addr[i0..i]
      {
        WrappedCounters(taken, |written|);
        if nwrite == (nread + PIPESIZE) % U32 {
          if !readopen {
            return i, Broken;
          }
          return i, MustSleep;
        }
        Put(addr[i]);
        i := i + 1;
      }
      return i, Wrote;
    }

    /** pipe_read from its start, or from a wakeup, up to its return or its next sleep. */
    method Read(n: nat) returns (bytes: seq<byte>, sleeps: bool)
      requires Valid()
      modifies this`nread, this`taken
      ensures Valid()
      ensures var r := ReadRegion(old(InFlight()), writeopen, n);
              bytes == r.bytes && sleeps == r.sleeps && InFlight() == r.inFlight && taken == old(taken) + |bytes|
    {
      bytes := [];
      WrappedCounters(taken, |written|);
      if nread == nwrite && writeopen {
        return bytes, true;
      }
      sleeps := false;
      var i := 0;
      while i < n
        invariant 0 <= i <= n && Valid() && i == |bytes| && taken == old(taken) + i
        invariant bytes == written[old(taken)..taken]
      {
        WrappedCounters(taken, |written|);
        if nread == nwrite {
          break;
        }
        var c := Take();
        bytes := bytes + [c];
        i := i + 1;
      }
    }
  }
}
