/** The ring of a pipe together with the descriptors that point at it: when a read is at end of file, a write fails and
    a close wakes the other side, in terms of who still holds a descriptor. */
module PipeFiles {
  import opened Bytes
  import opened Sequences
  import opened Params
  import opened Pipe
  import opened Descriptors

  /** `ring` is pipe `p` of the table: the two have the same flags. No system call is in progress. */
  ghost predicate Joined(ft: FileTable, ring: PipeBuf, p: nat)
    reads ft, ring, ring.data
  {
    && ft.AtRest() && ring.Valid() && p < NPIPE
    && ring.readopen == ft.pipes[p].readopen && ring.writeopen == ft.pipes[p].writeopen
  }

  /** The flags, which only counting sets and clears, tell who holds a descriptor. */
  lemma FlagsTell(ft: FileTable, ring: PipeBuf, p: nat)
    requires Joined(ft, ring, p)
    ensures ring.readopen <==> Held(ft.kinds, ft.slots, p, false)
    ensures ring.writeopen <==> Held(ft.kinds, ft.slots, p, true)
  {
    hide Counted, EndsMatch, Held;
    OpenIffHeld(ft.refs, ft.kinds, ft.pipes, ft.slots, ft.loose, p, false);
    OpenIffHeld(ft.refs, ft.kinds, ft.pipes, ft.slots, ft.loose, p, true);
  }

  /** pipe_read up to its return or its next sleep. It is at end of file exactly if the ring is drained and no thread
      has a descriptor to write with, and sleeps exactly if the ring is drained and some thread has one. Otherwise it
      takes what it asked for, or all there is. */
  method ReadPipe(ft: FileTable, ring: PipeBuf, ghost p: nat, n: nat) returns (bytes: seq<byte>, sleeps: bool)
    requires Joined(ft, ring, p)
    modifies ring
    ensures Joined(ft, ring, p) && ring.written == old(ring.written) && ring.taken == old(ring.taken) + |bytes|
    ensures ring.taken <= |ring.written| && bytes == ring.written[old(ring.taken)..ring.taken]
    ensures |bytes| == Min(n, |ring.written| - old(ring.taken))
    ensures sleeps <==> old(ring.taken) == |ring.written| && Held(ft.kinds, ft.slots, p, true)
    ensures n > 0 ==> (bytes == [] && !sleeps <==>
                      old(ring.taken) == |ring.written| && !Held(ft.kinds, ft.slots, p, true))
  {
    hide Counted, EndsMatch, Held;
    FlagsTell(ft, ring, p);
    bytes, sleeps := ring.Read(n);
  }

  /** pipe_write up to its return or its next sleep. It writes what fits. If that is not all it sleeps exactly if some
      thread has a descriptor to read with, and else fails. */
  method WritePipe(ft: FileTable, ring: PipeBuf, ghost p: nat, addr: seq<byte>, i0: nat) returns (i: nat, end: WriteEnd)
    requires Joined(ft, ring, p) && i0 <= |addr|
    modifies ring, ring.data
    ensures Joined(ft, ring, p) && i0 <= i <= |addr| && ring.written == old(ring.written) + addr[i0..i]
    ensures ring.taken == old(ring.taken)
    ensures var room := PIPESIZE - (|old(ring.written)| - ring.taken);
            && 0 <= room && i - i0 == Min(|addr| - i0, room)
            && (end.Broken? <==> |addr| - i0 > room && !Held(ft.kinds, ft.slots, p, false))
            && (end.MustSleep? <==> |addr| - i0 > room && Held(ft.kinds, ft.slots, p, false))
  {
    hide Counted, EndsMatch, Held;
    FlagsTell(ft, ring, p);
    i, end := ring.Write(addr, i0);
  }

  /** sys_close, down to pipe_close of the ring: the slot is emptied, and nobody else's descriptors change. The readers
      are woken exactly when the last descriptor to write with goes, and the writers exactly when the last one to read
      with goes. */
  method CloseDescriptor(ft: FileTable, ring: PipeBuf, p: nat, t: nat, fd: nat)
    returns (ok: bool, wakeReaders: bool, wakeWriters: bool)
    requires Joined(ft, ring, p) && t < NUM_IDS
    modifies ft, ring
    ensures Joined(ft, ring, p) && ring.written == old(ring.written) && ring.taken == old(ring.taken)
    ensures SlotsShaped(old(ft.slots)) && (ok <==> fd < NOFILE && old(ft.slots)[t][fd] != NFILE)
    ensures ft.slots == if ok then WithSlot(old(ft.slots), t, fd, NFILE) else old(ft.slots)
    ensures |ft.kinds| == |old(ft.kinds)| && forall f :: 0 <= f < |ft.kinds| ==>
              ft.kinds[f] == old(ft.kinds)[f] || (ok && f == old(ft.slots)[t][fd] && ft.kinds[f] == FdNone)
    ensures wakeReaders <==> old(Held(ft.kinds, ft.slots, p, true)) && !Held(ft.kinds, ft.slots, p, true)
    ensures wakeWriters <==> old(Held(ft.kinds, ft.slots, p, false)) && !Held(ft.kinds, ft.slots, p, false)
  {
    hide Counted, EndsMatch, Held, First;
    FlagsTell(ft, ring, p);
    Shapes(ft.refs, ft.kinds, ft.pipes, ft.slots, ft.loose);
    FileOpen(ft, t, fd);
    var last;
    ok, last := ft.SysClose(t, fd);
    wakeReaders, wakeWriters := false, false;
    if ok && last == FdPipe(p, true) {
      ring.writeopen := false;
      wakeReaders := true;
    } else if ok && last == FdPipe(p, false) {
      ring.readopen := false;
      wakeWriters := true;
    }
    FlagsTell(ft, ring, p);
  }

  /** A descriptor of a pipe's end finds that end open. */
  lemma FileOpen(ft: FileTable, t: nat, fd: nat)
    requires ft.AtRest() && t < NUM_IDS && SlotsShaped(ft.slots)
    ensures |ft.kinds| == NFILE
    ensures fd < NOFILE && ft.slots[t][fd] < NFILE && ft.kinds[ft.slots[t][fd]].FdPipe? ==>
              var k := ft.kinds[ft.slots[t][fd]]; k.pipe < |ft.pipes| && Open(ft.pipes[k.pipe], k.writable)
  {
    hide Counted;
  }
}
