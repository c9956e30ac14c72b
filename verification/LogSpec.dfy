/** What the on-disk redo log means, independently of the code that maintains it: the home contents a
    disk stands for, the disks recovery and commit pass through, and why a crash at any of them is safe. */
module LogSpec {
  import opened Bytes

  const LOGSIZE: nat := 10

  function HeaderCount(h: Block): (n: nat) {
    GetU32(h, 0)
  }

  function HeaderSector(h: Block, i: nat): (s: nat)
    requires i < LOGSIZE
  {
    GetU32(h, 4 + 4 * i)
  }

  /** The first `k` stores of write_head: the count, then the sector numbers. */
  function EncodeHeader(h: Block, sectors: seq<nat>, k: nat): (r: Block)
    requires k <= |sectors| <= LOGSIZE && forall i :: 0 <= i < |sectors| ==> sectors[i] < U32
  {
    if k == 0 then PutU32(h, 0, |sectors|) else PutU32(EncodeHeader(h, sectors, k - 1), 4 * k, sectors[k - 1])
  }

  lemma {:induction false} HeaderRoundTrip(h: Block, sectors: seq<nat>, k: nat)
    requires k <= |sectors| <= LOGSIZE && forall i :: 0 <= i < |sectors| ==> sectors[i] < U32
    ensures HeaderCount(EncodeHeader(h, sectors, k)) == |sectors|
    ensures forall i: nat :: i < k ==> HeaderSector(EncodeHeader(h, sectors, k), i) == sectors[i]
    ensures forall i: nat :: k <= i < LOGSIZE ==> HeaderSector(EncodeHeader(h, sectors, k), i) == HeaderSector(h, i)
  {
    hide GetU32, PutU32;
    if k == 0 {
      PutThenGet(h, 0, |sectors|);
    } else {
      HeaderRoundTrip(h, sectors, k - 1);
      PutThenGet(EncodeHeader(h, sectors, k - 1), 4 * k, sectors[k - 1]);
    }
  }

  /** Log entry `i` of disk `d` is for home sector `s`. */
  ghost predicate Logs(d: seq<Block>, start: nat, i: nat, s: nat)
    requires start < |d|
  {
    i < LOGSIZE && i < HeaderCount(d[start]) && HeaderSector(d[start], i) == s
  }

  /** The header names distinct home sectors, and every entry has its block in the log. */
  ghost predicate WellFormed(d: seq<Block>, start: nat) {
    && start < |d| < U32
    && HeaderCount(d[start]) <= LOGSIZE
    && start + HeaderCount(d[start]) < |d|
    && (forall i: nat :: i < HeaderCount(d[start]) ==> HeaderSector(d[start], i) < start)
    && (forall i: nat, j: nat :: i < j < HeaderCount(d[start]) ==>
         HeaderSector(d[start], i) != HeaderSector(d[start], j))
  }

  /** The contents of home sector `s` that disk `d` stands for. */
  ghost function CommittedAt(d: seq<Block>, start: nat, s: nat): Block
    requires WellFormed(d, start) && s < start
  {
    if exists i: nat :: Logs(d, start, i, s) then var i: nat :| Logs(d, start, i, s); d[start + 1 + i] else d[s]
  }

  ghost function Committed(d: seq<Block>, start: nat): (home: seq<Block>)
    requires WellFormed(d, start)
    ensures |home| == start && forall s :: 0 <= s < start ==> home[s] == CommittedAt(d, start, s)
  {
    seq(start, s requires 0 <= s < start => CommittedAt(d, start, s))
  }

  /** The disk after `k` iterations of install_trans. */
  ghost function Installed(d: seq<Block>, start: nat, k: nat): (r: seq<Block>)
    requires WellFormed(d, start) && k <= HeaderCount(d[start])
    ensures |r| == |d| && r[start..] == d[start..]
    ensures forall s: nat :: s < start && (forall i: nat :: i < k ==> !Logs(d, start, i, s)) ==> r[s] == d[s]
    ensures forall s: nat, i: nat :: s < start && i < k && Logs(d, start, i, s) ==> r[s] == d[start + 1 + i]
  {
    if k == 0 then d
    else
      var p := Installed(d, start, k - 1);
      assert Logs(d, start, k - 1, HeaderSector(d[start], k - 1));
      p[HeaderSector(d[start], k - 1) := p[start + k]]
  }

  lemma InstalledNext(d: seq<Block>, start: nat, k: nat)
    requires WellFormed(d, start) && k < HeaderCount(d[start])
    ensures var p := Installed(d, start, k);
            && HeaderSector(d[start], k) < start && start + 1 + k < |p| == |d| && p[start] == d[start]
            && Installed(d, start, k + 1) == p[HeaderSector(d[start], k) := p[start + 1 + k]]
  {
  }

  /** write_head with an empty in-memory header. */
  ghost function Cleared(d: seq<Block>, start: nat): (r: seq<Block>)
    requires start < |d|
  {
    d[start := EncodeHeader(d[start], [], 0)]
  }

  ghost function InstallTrace(d: seq<Block>, start: nat): (t: seq<seq<Block>>)
    requires WellFormed(d, start)
    ensures |t| == HeaderCount(d[start])
  {
    var n := HeaderCount(d[start]);
    seq(n, k requires 0 <= k < n => Installed(d, start, k + 1))
  }

  /** Every disk that install_trans followed by clearing the header passes through, in order. */
  ghost function RecoveryTrace(d: seq<Block>, start: nat): (t: seq<seq<Block>>)
    requires WellFormed(d, start)
  {
    InstallTrace(d, start) + [Cleared(Installed(d, start, HeaderCount(d[start])), start)]
  }

  /** Installing any number of entries leaves a well-formed disk that stands for the same contents. */
  lemma InstalledStandsForSame(d: seq<Block>, start: nat, k: nat)
    requires WellFormed(d, start) && k <= HeaderCount(d[start])
    ensures WellFormed(Installed(d, start, k), start)
    ensures Committed(Installed(d, start, k), start) == Committed(d, start)
  {
    var r := Installed(d, start, k);
    assert r[start] == r[start..][0] == d[start..][0] == d[start];
    assert forall i: nat :: start + i < |d| ==> r[start + i] == r[start..][i] == d[start..][i] == d[start + i];
    forall s: nat | s < start ensures CommittedAt(r, start, s) == CommittedAt(d, start, s) {
      if i: nat :| Logs(d, start, i, s) {
        assert Logs(r, start, i, s);
      } else {
        assert forall i: nat :: Logs(r, start, i, s) ==> Logs(d, start, i, s);
      }
    }
  }

  /** A disk with every entry installed may drop its header; it then is the contents it stood for. */
  lemma ClearedStandsForSame(d: seq<Block>, start: nat)
    requires WellFormed(d, start)
    ensures var r := Cleared(Installed(d, start, HeaderCount(d[start])), start);
            && WellFormed(r, start) && HeaderCount(r[start]) == 0
            && r[..start] == Committed(d, start) == Committed(r, start)
  {
  }

  /** A crash anywhere inside recovery leaves a disk that stands for the same contents, and recovery that
      runs to its end leaves exactly those contents in place with an empty log. */
  lemma RecoveryCrashSafe(d: seq<Block>, start: nat)
    requires WellFormed(d, start)
    ensures forall r :: r in RecoveryTrace(d, start) ==>
              WellFormed(r, start) && Committed(r, start) == Committed(d, start)
    ensures var t := RecoveryTrace(d, start);
            var r := t[|t| - 1];
            WellFormed(r, start) && HeaderCount(r[start]) == 0 && r[..start] == Committed(d, start)
  {
    hide Committed, Installed, Cleared, HeaderCount;
    var n := HeaderCount(d[start]);
    hide WellFormed;
    ClearedStandsForSame(d, start);
    forall r | r in RecoveryTrace(d, start)
      ensures WellFormed(r, start) && Committed(r, start) == Committed(d, start)
    {
      var k :| 0 <= k <= n && r == RecoveryTrace(d, start)[k];
      if k < n {
        InstalledStandsForSame(d, start, k + 1);
      }
    }
  }

  /** `ds` is a history of crashes: each disk is the previous one untouched, or a disk that a recovery
      begun on the previous one passes through. */
  ghost predicate CrashHistory(ds: seq<seq<Block>>, start: nat)
    requires |ds| > 0
  {
    && WellFormed(ds[0], start)
    && forall i :: 0 < i < |ds| ==>
         ds[i] == ds[i - 1] || (WellFormed(ds[i - 1], start) && ds[i] in RecoveryTrace(ds[i - 1], start))
  }

  /** Any number of crashes during recovery: the contents stood for never change. */
  lemma {:induction false} RepeatedCrashesSafe(ds: seq<seq<Block>>, start: nat)
    requires |ds| > 0 && CrashHistory(ds, start)
    ensures WellFormed(ds[|ds| - 1], start)
    ensures Committed(ds[|ds| - 1], start) == Committed(ds[0], start)
    decreases |ds|
  {
    if |ds| > 1 {
      var before := ds[..|ds| - 1];
      RepeatedCrashesSafe(before, start);
      RecoveryCrashSafe(before[|before| - 1], start);
    }
  }

  /** Every disk commit_trans passes through: the header write, then the same steps as recovery. */
  ghost function CommitTrace(d: seq<Block>, start: nat, sectors: seq<nat>): (t: seq<seq<Block>>)
    requires LogReady(d, start, sectors)
  {
    HeaderWritten(d, start, sectors);
    var h := d[start := EncodeHeader(d[start], sectors, |sectors|)];
    [h] + RecoveryTrace(h, start)
  }

  /** A transaction on `sectors` is fully in the log of `d`, and the header on disk is still empty. */
  ghost predicate LogReady(d: seq<Block>, start: nat, sectors: seq<nat>) {
    && start + |sectors| < |d| < U32 && |sectors| <= LOGSIZE
    && HeaderCount(d[start]) == 0
    && (forall i :: 0 <= i < |sectors| ==> sectors[i] < start)
    && (forall i, j :: 0 <= i < j < |sectors| ==> sectors[i] != sectors[j])
  }

  /** The home contents the transaction is to produce. */
  ghost function After(d: seq<Block>, start: nat, sectors: seq<nat>, k: nat): (home: seq<Block>)
    requires LogReady(d, start, sectors) && k <= |sectors|
    ensures |home| == start
    ensures forall s :: 0 <= s < start && s !in sectors[..k] ==> home[s] == d[s]
    ensures forall i :: 0 <= i < k ==> home[sectors[i]] == d[start + 1 + i]
  {
    if k == 0 then d[..start]
    else
      assert sectors[..k] == sectors[..k - 1] + [sectors[k - 1]];
      After(d, start, sectors, k - 1)[sectors[k - 1] := d[start + k]]
  }

  /** The header write is the commit point: before it the disk stands for the old contents, after it for
      the new ones. */
  lemma HeaderWritten(d: seq<Block>, start: nat, sectors: seq<nat>)
    requires LogReady(d, start, sectors)
    ensures WellFormed(d, start) && Committed(d, start) == d[..start]
    ensures var h := d[start := EncodeHeader(d[start], sectors, |sectors|)];
            WellFormed(h, start) && Committed(h, start) == After(d, start, sectors, |sectors|)
  {
    hide EncodeHeader, After, Committed;
    var h := d[start := EncodeHeader(d[start], sectors, |sectors|)];
    HeaderRoundTrip(d[start], sectors, |sectors|);
    forall s: nat | s < start
      ensures CommittedAt(d, start, s) == d[s]
      ensures CommittedAt(h, start, s) == After(d, start, sectors, |sectors|)[s]
    {
      assert sectors[..|sectors|] == sectors;
      if s in sectors {
        var i: nat :| i < |sectors| && sectors[i] == s;
        assert Logs(h, start, i, s);
      } else {
        assert forall i: nat :: !Logs(h, start, i, s);
      }
    }
  }

  /** Before the commit point, whatever log_write has put into the log area shows nowhere. */
  lemma UncommittedInvisible(d: seq<Block>, d': seq<Block>, start: nat)
    requires start < |d| == |d'| < U32 && HeaderCount(d[start]) == 0 && d'[..start + 1] == d[..start + 1]
    ensures WellFormed(d, start) && WellFormed(d', start)
    ensures Committed(d', start) == Committed(d, start) == d[..start]
  {
  }

  /** Crash atomicity of a commit: a crash before its first sector write leaves the old contents, a crash
      after any later one leaves the new contents, and nothing in between. */
  lemma CommitCrashSafe(d: seq<Block>, start: nat, sectors: seq<nat>)
    requires LogReady(d, start, sectors)
    ensures WellFormed(d, start) && Committed(d, start) == d[..start]
    ensures forall r :: r in CommitTrace(d, start, sectors) ==>
              WellFormed(r, start) && Committed(r, start) == After(d, start, sectors, |sectors|)
  {
    HeaderWritten(d, start, sectors);
    RecoveryCrashSafe(d[start := EncodeHeader(d[start], sectors, |sectors|)], start);
  }

  /** The commit disks, spelled out. */
  lemma CommitTraceIs(d: seq<Block>, start: nat, sectors: seq<nat>)
    requires LogReady(d, start, sectors)
    ensures var h := d[start := EncodeHeader(d[start], sectors, |sectors|)];
            && WellFormed(h, start) && HeaderCount(h[start]) == |sectors|
            && (forall k: nat :: k < |sectors| ==> HeaderSector(h[start], k) == sectors[k])
            && var r := Cleared(Installed(h, start, |sectors|), start);
               && CommitTrace(d, start, sectors) == [h] + (InstallTrace(h, start) + [r])
               && |r| == |d| && HeaderCount(r[start]) == 0
               && r[..start] == After(d, start, sectors, |sectors|)
  {
    HeaderWritten(d, start, sectors);
    HeaderRoundTrip(d[start], sectors, |sectors|);
    ClearedStandsForSame(d[start := EncodeHeader(d[start], sectors, |sectors|)], start);
  }

  /** Crash atomicity, end to end: whichever disk of a commit the machine stops at, and however often
      recovery is cut short after that, a recovery that completes installs all of the transaction or
      none of it. */
  lemma CrashAtomicity(d: seq<Block>, start: nat, sectors: seq<nat>, ds: seq<seq<Block>>)
    requires LogReady(d, start, sectors)
    requires |ds| > 0 && (ds[0] == d || ds[0] in CommitTrace(d, start, sectors)) && CrashHistory(ds, start)
    ensures var last := ds[|ds| - 1];
            && WellFormed(last, start)
            && var t := RecoveryTrace(last, start);
               t[|t| - 1][..start] == if ds[0] == d then d[..start] else After(d, start, sectors, |sectors|)
  {
    CommitCrashSafe(d, start, sectors);
    RepeatedCrashesSafe(ds, start);
    RecoveryCrashSafe(ds[|ds| - 1], start);
  }
}
