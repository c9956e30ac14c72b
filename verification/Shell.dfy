/** run_pipeline and launch_process_stage of the shell, as far as descriptors go. */
module Shell {
  import opened Params
  import opened Sequences
  import opened Descriptors
  import opened Wiring

  /** A parsed stage: refused before anything is opened, or launched with or without a file name. */
  datatype Stage = Refused | Plain | WithFile

  /** What the rest of the system answers: the new pid of a stage, or -1 if the spawn fails, and whether its file
      can be found, and at which inode. */
  datatype Answer = Answer(pid: int, found: bool, ip: nat)

  /** The stage is one that the shell knows, and everything outside it is there. */
  predicate Good(stage: Stage, answer: Answer) {
    !stage.Refused? && answer.pid >= 0 && (stage.WithFile? ==> answer.found)
  }

  /** Enough files, pipes and descriptors for the pipe and the open of one stage. */
  predicate RoomFor(stage: Stage, last: bool, files: nat, pipes: nat, fds: nat) {
    && (!last ==> files >= 2 && pipes >= 1 && fds >= 2)
    && (stage.WithFile? ==> var n := if last then 1 else 3; files >= n && fds >= n)
  }

  /** A pid that sys_spawn may hand out: not the shell's, and with no descriptors yet. */
  ghost predicate FreshPid(slots: seq<seq<nat>>, shell: nat, pid: int) {
    pid == -1 || (0 <= pid < NUM_IDS == |slots| && pid != shell && forall d :: 0 <= d < |slots[pid]| ==>
      slots[pid][d] == NFILE)
  }

  /** Only the slots of the shell and of the child may differ. */
  ghost predicate OthersSame(slots: seq<seq<nat>>, slots': seq<seq<nat>>, shell: nat, pid: int) {
    |slots'| == |slots| && forall t :: 0 <= t < |slots| && t != shell && t != pid ==> slots'[t] == slots[t]
  }

  /** What the threads other than the shell have open is of the same kind as before. */
  ghost predicate FilesKept(kinds: seq<Kind>, slots: seq<seq<nat>>, kinds': seq<Kind>, shell: nat) {
    && SlotsShaped(slots) && |kinds| == |kinds'| == NFILE
    && forall t: nat, d: nat :: t < NUM_IDS && d < NOFILE && t != shell && slots[t][d] < NFILE ==>
         kinds'[slots[t][d]] == kinds[slots[t][d]]
  }

  lemma KeptFiles(kinds: seq<Kind>, slots: seq<seq<nat>>, kinds': seq<Kind>, shell: nat, d: nat)
    requires KindsKept(kinds, kinds', slots, shell, d)
    ensures FilesKept(kinds, slots, kinds', shell)
  {
  }

  /** Two changes in a row, of which the first may give descriptors to a new child. */
  lemma KeptTwice(kinds: seq<Kind>, slots: seq<seq<nat>>, kinds1: seq<Kind>, slots1: seq<seq<nat>>, kinds2: seq<Kind>,
                  shell: nat, pid: int)
    requires FilesKept(kinds, slots, kinds1, shell) && FilesKept(kinds1, slots1, kinds2, shell)
    requires OthersSame(slots, slots1, shell, pid) && FreshPid(slots, shell, pid)
    ensures FilesKept(kinds, slots, kinds2, shell)
  {
  }

  /** A new child had nothing open. */
  lemma KeptByChild(kinds: seq<Kind>, slots: seq<seq<nat>>, kinds': seq<Kind>, shell: nat, pid: nat)
    requires FilesKept(kinds, slots, kinds', pid) && FreshPid(slots, shell, pid)
    ensures FilesKept(kinds, slots, kinds', shell)
  {
  }

  /** What is open for a thread other than the shell stays open. */
  lemma KeptOpen(kinds: seq<Kind>, slots: seq<seq<nat>>, kinds': seq<Kind>, shell: nat, t: nat, d: nat, kind: Kind)
    requires FilesKept(kinds, slots, kinds', shell) && t < NUM_IDS && d < NOFILE && t != shell
    requires IsOpen(kinds, slots[t][d], kind)
    ensures IsOpen(kinds', slots[t][d], kind)
  {
  }

  lemma LaunchedStill(kinds: seq<Kind>, slots: seq<seq<nat>>, kinds': seq<Kind>, shell: nat, pid: nat,
                      parent: seq<nat>, stage: Stage, ip: nat, stdin: int, stdout: int, files: nat)
    requires FilesKept(kinds, slots, kinds', shell) && pid < NUM_IDS && pid != shell
    requires Launched(kinds, slots[pid], parent, stage, ip, stdin, stdout, files)
    ensures Launched(kinds', slots[pid], parent, stage, ip, stdin, stdout, files)
  {
  }

  /** A child that is passed the file which its stage names. */
  lemma LaunchedWithFile(kinds: seq<Kind>, fds: seq<nat>, parent: seq<nat>, parent0: seq<nat>, inputFd: int, ip: nat,
                         stdin: int, stdout: int, files: nat)
    requires files > 0 && Launched(kinds, fds, parent, Plain, 0, inputFd, stdout, files - 1)
    requires 0 <= inputFd < |parent| == |parent0| == NOFILE && IsOpen(kinds, parent[inputFd], FdInode(ip))
    requires parent == parent0[inputFd := parent[inputFd]]
    ensures |fds| == NOFILE && fds[0] == parent[inputFd]
    ensures stdout != inputFd ==> Launched(kinds, fds, parent0, WithFile, ip, stdin, stdout, files)
  {
  }

  /** File `f` is open, and is a `kind`. */
  predicate IsOpen(kinds: seq<Kind>, f: nat, kind: Kind) {
    f < |kinds| == NFILE && kinds[f] == kind
  }

  /** A descriptor of a child: console, if there was a file for it, or what the parent passes. */
  predicate Standard(kinds: seq<Kind>, f: nat, parent: seq<nat>, fd: int, console: Kind, room: bool) {
    if fd == -1 then if room then IsOpen(kinds, f, console) else f == NFILE
    else f == if Passes(parent, fd) then parent[fd] else NFILE
  }

  /** The descriptors of a child that a parent with descriptors `parent` launches while `files` files are free. Its
      input is the file it names, or else what it is passed, or the console; its output is what it is passed, or the
      console. It has nothing else but, with the console for both, the console as its standard error. */
  predicate Launched(kinds: seq<Kind>, fds: seq<nat>, parent: seq<nat>, stage: Stage, ip: nat, stdin: int, stdout: int,
                     files: nat) {
    && |fds| == NOFILE
    && (if stage.WithFile? then IsOpen(kinds, fds[0], FdInode(ip))
        else Standard(kinds, fds[0], parent, stdin, FdConsoleIn, files > 0))
    && Standard(kinds, fds[1], parent, stdout, FdConsoleOut, files > if stage.WithFile? || stdin == -1 then 1 else 0)
    && (forall d :: 2 <= d < NOFILE ==>
          if d == 2 && stage.Plain? && stdin == stdout == -1 && files > 2 then IsOpen(kinds, fds[d], FdConsoleOut)
          else fds[d] == NFILE)
  }

  /** The descriptors of a stage in its place in the pipeline, apart from those for pipes. `rich`: there were files
      enough. */
  predicate ChildFds(kinds: seq<Kind>, fds: seq<nat>, stage: Stage, ip: nat, first: bool, last: bool, rich: bool) {
    && |fds| == NOFILE && |kinds| == NFILE
    && (stage.WithFile? ==> IsOpen(kinds, fds[0], FdInode(ip)))
    && (stage.Plain? && first ==> IsOpen(kinds, fds[0], FdConsoleIn) || (!rich && fds[0] == NFILE))
    && (last ==> IsOpen(kinds, fds[1], FdConsoleOut) || (!rich && fds[1] == NFILE))
    && (forall d :: 2 <= d < NOFILE ==>
          fds[d] == NFILE || (d == 2 && stage.Plain? && first && last && IsOpen(kinds, fds[d], FdConsoleOut)))
  }

  /** No descriptor for a pipe has come or gone. */
  ghost predicate SameEnds(kinds: seq<Kind>, slots: seq<seq<nat>>, kinds': seq<Kind>, slots': seq<seq<nat>>) {
    && SlotsShaped(slots) && SlotsShaped(slots') && |kinds| == |kinds'| == NFILE
    && forall q: nat, w: bool :: Ends(kinds', slots', q, w) == Ends(kinds, slots, q, w)
  }

  /** A child has the ends that its parent passes it, and no other descriptor for a pipe has come or gone. */
  ghost predicate PassedEnds(kinds: seq<Kind>, slots: seq<seq<nat>>, kinds': seq<Kind>, slots': seq<seq<nat>>,
                             parent: nat, child: nat, stdin: int, stdout: int) {
    && SlotsShaped(slots) && SlotsShaped(slots') && |kinds| == |kinds'| == NFILE
    && forall q: nat, w: bool ::
         Ends(kinds', slots', q, w) == Ends(kinds, slots, q, w)
           + (if (parent, stdin) in Ends(kinds, slots, q, w) then {(child, 0)} else {})
           + (if (parent, stdout) in Ends(kinds, slots, q, w) then {(child, 1)} else {})
  }

  /** sys_open in terms of the ends. */
  method OpenFile(ft: FileTable, shell: nat, ip: nat) returns (fd: int)
    requires ft.AtRest() && shell < NUM_IDS
    modifies ft
    ensures ft.AtRest() && SameEnds(old(ft.kinds), old(ft.slots), ft.kinds, ft.slots)
    ensures -1 <= fd < NOFILE && (fd == -1 ==> ft.slots == old(ft.slots))
    ensures fd == -1 <==> FreeFiles(old(ft.refs)) == 0 || FreeFds(old(ft.slots)[shell]) == 0
    ensures ft.pipes == old(ft.pipes) && FreeFiles(ft.refs) + (if fd == -1 then 0 else 1) == FreeFiles(old(ft.refs))
    ensures fd != -1 ==> old(ft.slots)[shell][fd] == NFILE && ft.slots[shell][fd] < NFILE
                         && ft.slots == WithSlot(old(ft.slots), shell, fd, ft.slots[shell][fd])
    ensures fd != -1 ==> forall q: nat, w: bool :: (shell, fd) !in Ends(ft.kinds, ft.slots, q, w)
    ensures FilesKept(old(ft.kinds), old(ft.slots), ft.kinds, shell)
    ensures fd != -1 ==> |old(ft.refs)| == NFILE && old(ft.refs)[ft.slots[shell][fd]] == 0
                         && IsOpen(ft.kinds, ft.slots[shell][fd], FdInode(ip))
  {
    hide Counted, EndsMatch, Ends, FreeFiles, FreeFds;
    Shapes(ft.refs, ft.kinds, ft.pipes, ft.slots, ft.loose);
    CanPipeExactly(ft.refs, ft.pipes, ft.slots[shell]);
    fd := ft.SysOpen(shell, ip);
    if fd != -1 {
      ghost var f: nat :| f < NFILE && First(old(ft.refs), 0, f) && ft.kinds == old(ft.kinds)[f := FdInode(ip)]
                          && ft.slots == WithSlot(old(ft.slots), shell, fd, f);
      forall q: nat, w: bool ensures Ends(ft.kinds, ft.slots, q, w) == Ends(old(ft.kinds), old(ft.slots), q, w) {
        OpenEnds(old(ft.refs), old(ft.kinds), old(ft.slots), old(ft.loose), shell, fd, f, ip, q, w);
      }
      OpenedIsFile(ft.kinds, ft.slots, shell, fd);
      FreshKinds(old(ft.refs), old(ft.kinds), old(ft.slots), old(ft.loose), ft.kinds, shell, fd);
      KeptFiles(old(ft.kinds), old(ft.slots), ft.kinds, shell, fd);
    }
    Shapes(ft.refs, ft.kinds, ft.pipes, ft.slots, ft.loose);
  }

  lemma OpenedIsFile(kinds: seq<Kind>, slots: seq<seq<nat>>, t: nat, d: nat)
    requires SlotsShaped(slots) && |kinds| == NFILE && t < NUM_IDS && d < NOFILE && slots[t][d] < NFILE
    requires !kinds[slots[t][d]].FdPipe?
    ensures forall q: nat, w: bool :: (t, d as int) !in Ends(kinds, slots, q, w)
  {
  }

  /** The descriptors of a new child in terms of the ends. */
  method SpawnChild(ft: FileTable, shell: nat, pid: nat, stdin: int, stdout: int)
    requires ft.AtRest() && shell < NUM_IDS && pid < NUM_IDS && pid != shell
    requires forall d :: 0 <= d < NOFILE ==> ft.slots[pid][d] == NFILE
    modifies ft
    ensures ft.AtRest() && |ft.slots| == |old(ft.slots)| && ft.slots == old(ft.slots)[pid := ft.slots[pid]]
    ensures PassedEnds(old(ft.kinds), old(ft.slots), ft.kinds, ft.slots, shell, pid, stdin, stdout)
    ensures ft.pipes == old(ft.pipes) && FreeFiles(ft.refs) + Consoles(stdin, stdout) >= FreeFiles(old(ft.refs))
    ensures FilesKept(old(ft.kinds), old(ft.slots), ft.kinds, pid)
    ensures forall ip :: Launched(ft.kinds, ft.slots[pid], old(ft.slots)[shell], Plain, ip, stdin, stdout,
                           FreeFiles(old(ft.refs)))
  {
    hide Counted, EndsMatch, Ends, FreeFiles, Consoles;
    Shapes(ft.refs, ft.kinds, ft.pipes, ft.slots, ft.loose);
    ft.SpawnFds(shell, pid, stdin, stdout);
    Shapes(ft.refs, ft.kinds, ft.pipes, ft.slots, ft.loose);
    FreshKinds(old(ft.refs), old(ft.kinds), old(ft.slots), old(ft.loose), ft.kinds, pid, 0);
    KeptFiles(old(ft.kinds), old(ft.slots), ft.kinds, pid, 0);
    forall q: nat, w: bool
      ensures Ends(ft.kinds, ft.slots, q, w) == Ends(old(ft.kinds), old(ft.slots), q, w)
                + (if (shell, stdin) in Ends(old(ft.kinds), old(ft.slots), q, w) then {(pid, 0)} else {})
                + (if (shell, stdout) in Ends(old(ft.kinds), old(ft.slots), q, w) then {(pid, 1)} else {})
    {
      SpawnEnds(old(ft.refs), old(ft.kinds), old(ft.slots), old(ft.loose), ft.kinds, ft.slots, shell, pid, stdin,
        stdout, q, w);
    }
  }

  /** sys_close in terms of the ends. */
  method CloseFd(ft: FileTable, shell: nat, fd: nat)
    requires ft.AtRest() && shell < NUM_IDS
    modifies ft
    ensures ft.AtRest() && SlotsShaped(old(ft.slots)) && SlotsShaped(ft.slots) && |ft.kinds| == |old(ft.kinds)| == NFILE
    ensures ft.slots == if fd < NOFILE then WithSlot(old(ft.slots), shell, fd, NFILE) else old(ft.slots)
    ensures forall q: nat, w: bool ::
              Ends(ft.kinds, ft.slots, q, w) == Ends(old(ft.kinds), old(ft.slots), q, w) - {(shell, fd as int)}
    ensures FreeFiles(ft.refs) >= FreeFiles(old(ft.refs)) && FreePipes(ft.pipes) >= FreePipes(old(ft.pipes))
    ensures FilesKept(old(ft.kinds), old(ft.slots), ft.kinds, shell)
  {
    hide Counted, EndsMatch, Ends, FreeFiles, FreePipes;
    Shapes(ft.refs, ft.kinds, ft.pipes, ft.slots, ft.loose);
    var ok, last := ft.SysClose(shell, fd);
    Shapes(ft.refs, ft.kinds, ft.pipes, ft.slots, ft.loose);
    forall q: nat, w: bool
      ensures Ends(ft.kinds, ft.slots, q, w) == Ends(old(ft.kinds), old(ft.slots), q, w) - {(shell, fd as int)}
    {
      if ok {
        CloseEnds(old(ft.refs), old(ft.kinds), old(ft.slots), old(ft.loose), shell, fd, q, w);
      } else {
        ClosedAlready(ft.kinds, ft.slots, shell, fd, q, w);
      }
    }
    if ok {
      ClosedKept(old(ft.refs), old(ft.kinds), old(ft.slots), old(ft.loose), shell, fd);
      KeptFiles(old(ft.kinds), old(ft.slots), ft.kinds, shell, fd);
    }
    if !ok && fd < NOFILE {
      assert ft.slots[shell] == WithSlot(ft.slots, shell, fd, NFILE)[shell];
    }
  }

  lemma ClosedAlready(kinds: seq<Kind>, slots: seq<seq<nat>>, t: nat, d: nat, q: nat, w: bool)
    requires SlotsShaped(slots) && |kinds| == NFILE && t < NUM_IDS && (d < NOFILE ==> slots[t][d] == NFILE)
    ensures (t, d as int) !in Ends(kinds, slots, q, w)
  {
  }

  /** sys_pipe in terms of the ends. */
  method MakePipe(ft: FileTable, shell: nat) returns (ok: bool, r: int, w: int, ghost p: nat)
    requires ft.AtRest() && shell < NUM_IDS
    modifies ft
    ensures ft.AtRest() && SlotsShaped(old(ft.slots)) && SlotsShaped(ft.slots) && |ft.kinds| == |old(ft.kinds)| == NFILE
    ensures !ok ==> ft.slots == old(ft.slots) && ft.kinds == old(ft.kinds)
    ensures ok <==> && FreeFiles(old(ft.refs)) >= 2 && FreePipes(old(ft.pipes)) >= 1
                    && FreeFds(old(ft.slots)[shell]) >= 2
    ensures ok ==> FreeFiles(ft.refs) + 2 == FreeFiles(old(ft.refs))
    ensures ok ==> FreePipes(ft.pipes) + 1 == FreePipes(old(ft.pipes))
    ensures ok ==> FreeFds(ft.slots[shell]) + 2 == FreeFds(old(ft.slots)[shell])
    ensures ok ==> 0 <= r < NOFILE && 0 <= w < NOFILE && r != w
    ensures ok ==> old(ft.slots)[shell][r] == old(ft.slots)[shell][w] == NFILE
    ensures ok ==> ft.slots[shell][r] < NFILE && ft.slots[shell][w] < NFILE
                   && ft.slots == WithSlot(WithSlot(old(ft.slots), shell, r, ft.slots[shell][r]), shell, w,
                        ft.slots[shell][w])
    ensures ok ==> forall e: bool :: Ends(old(ft.kinds), old(ft.slots), p, e) == {}
    ensures ok ==> forall q: nat, e: bool :: Ends(ft.kinds, ft.slots, q, e) ==
                     if q == p then {(shell, if e then w else r)} else Ends(old(ft.kinds), old(ft.slots), q, e)
    ensures FilesKept(old(ft.kinds), old(ft.slots), ft.kinds, shell)
  {
    hide Counted, EndsMatch, Ends, CanPipe, TwoSlots, FreeFiles, FreePipes, FreeFds;
    Shapes(ft.refs, ft.kinds, ft.pipes, ft.slots, ft.loose);
    CanPipeExactly(ft.refs, ft.pipes, ft.slots[shell]);
    ok, r, w, p := ft.SysPipe(shell);
    Shapes(ft.refs, ft.kinds, ft.pipes, ft.slots, ft.loose);
    if ok {
      ghost var rf: nat, wf: nat :| rf < NFILE && wf < NFILE && old(ft.refs)[rf] == 0 && old(ft.refs)[wf] == 0
                                    && rf != wf
                                    && ft.kinds == old(ft.kinds)[rf := FdPipe(p, false)][wf := FdPipe(p, true)]
                                    && ft.slots == WithSlot(WithSlot(old(ft.slots), shell, r, rf), shell, w, wf);
      forall q: nat, e: bool
        ensures Ends(ft.kinds, ft.slots, q, e) ==
                if q == p then {(shell, if e then w else r)} else Ends(old(ft.kinds), old(ft.slots), q, e)
      {
        PipeEnds(old(ft.refs), old(ft.kinds), old(ft.pipes), old(ft.slots), old(ft.loose), shell, r, w, rf, wf, p, q,
          e);
      }
      FreePipe(old(ft.refs), old(ft.kinds), old(ft.pipes), old(ft.slots), old(ft.loose), p, false);
      FreePipe(old(ft.refs), old(ft.kinds), old(ft.pipes), old(ft.slots), old(ft.loose), p, true);
      TwoTaken(old(ft.slots)[shell], r, w, rf, wf);
      FreshKinds(old(ft.refs), old(ft.kinds), old(ft.slots), old(ft.loose), ft.kinds, shell, r);
      KeptFiles(old(ft.kinds), old(ft.slots), ft.kinds, shell, r);
    }
  }

  lemma TwoTaken(fds: seq<nat>, r: nat, w: nat, rf: nat, wf: nat)
    requires r < |fds| && w < |fds| && r != w && fds[r] == fds[w] == NFILE && rf < NFILE && wf < NFILE
    ensures FreeFds(fds[r := rf][w := wf]) + 2 == FreeFds(fds)
  {
    hide Count;
    CountSet(fds, r, rf, NFILE);
    CountSet(fds[r := rf], w, wf, NFILE);
  }

  /** The part of launch_process_stage for a stage with a file: open, spawn, close. */
  method LaunchWithFile(ft: FileTable, shell: nat, ghost stdin: int, stdout: int, answer: Answer) returns (pid: int)
    requires ft.AtRest() && shell < NUM_IDS && FreshPid(ft.slots, shell, answer.pid) && -1 <= stdout
    modifies ft
    ensures ft.AtRest() && |ft.slots| == |old(ft.slots)| == NUM_IDS && ft.slots[shell] == old(ft.slots)[shell]
    ensures pid == -1 || (pid == answer.pid && pid >= 0)
    ensures pid != -1 <==> && answer.pid >= 0 && FreeFiles(old(ft.refs)) >= 1 && FreeFds(old(ft.slots)[shell]) >= 1
    ensures FreeFiles(ft.refs) + (if stdout >= 0 then 1 else 3) >= FreeFiles(old(ft.refs))
    ensures FreePipes(ft.pipes) >= FreePipes(old(ft.pipes))
    ensures OthersSame(old(ft.slots), ft.slots, shell, pid)
    ensures pid == -1 ==> SameEnds(old(ft.kinds), old(ft.slots), ft.kinds, ft.slots)
    ensures pid != -1 ==> PassedEnds(old(ft.kinds), old(ft.slots), ft.kinds, ft.slots, shell, pid, -1, stdout)
    ensures FilesKept(old(ft.kinds), old(ft.slots), ft.kinds, shell)
    ensures pid != -1 && (0 <= stdout < NOFILE ==> old(ft.slots)[shell][stdout] != NFILE) ==>
              Launched(ft.kinds, ft.slots[pid], old(ft.slots)[shell], WithFile, answer.ip, stdin, stdout,
                FreeFiles(old(ft.refs)))
    ensures pid != -1 ==>
              |old(ft.refs)| == NFILE && IsOpen(ft.kinds, ft.slots[pid][0], FdInode(answer.ip))
              && old(ft.refs)[ft.slots[pid][0]] == 0
  {
    hide Counted, EndsMatch, Ends, FreeFiles, FreePipes, FreeFds, FilesKept, Launched, SlotsShaped, IsOpen;
    Shapes(ft.refs, ft.kinds, ft.pipes, ft.slots, ft.loose);
    ShapedSlots(ft.slots, shell);
    var inputFd := OpenFile(ft, shell, answer.ip);
    if inputFd < 0 {
      return -1;
    }
    ghost var kinds1, slots1 := ft.kinds, ft.slots;
    pid := -1;
    if answer.pid >= 0 {
      pid := answer.pid;
      SpawnChild(ft, shell, pid, inputFd, stdout);
      KeptOpen(kinds1, slots1, ft.kinds, pid, shell, inputFd, FdInode(answer.ip));
      KeptByChild(kinds1, slots1, ft.kinds, shell, pid);
      LaunchedWithFile(ft.kinds, ft.slots[pid], slots1[shell], old(ft.slots)[shell], inputFd, answer.ip, stdin, stdout,
        FreeFiles(old(ft.refs)));
    }
    ghost var kinds2, slots2 := ft.kinds, ft.slots;
    CloseFd(ft, shell, inputFd);
    assert ft.slots[shell] == old(ft.slots)[shell];
    NoNegative(old(ft.kinds), old(ft.slots), shell);
    KeptTwice(old(ft.kinds), old(ft.slots), kinds1, slots1, kinds2, shell, -1);
    KeptTwice(old(ft.kinds), old(ft.slots), kinds2, slots2, ft.kinds, shell, pid);
    if pid != -1 {
      KeptOpen(kinds2, slots2, ft.kinds, shell, pid, 0, FdInode(answer.ip));
      if stdout != inputFd {
        LaunchedStill(kinds2, slots2, ft.kinds, shell, pid, old(ft.slots)[shell], WithFile, answer.ip, stdin, stdout,
          FreeFiles(old(ft.refs)));
      }
    }
  }

  /** launch_process_stage: the child gets the given ends of pipes, its input only if the stage names no file. */
  method LaunchStage(ft: FileTable, shell: nat, stage: Stage, stdin: int, stdout: int, answer: Answer)
    returns (pid: int)
    requires ft.AtRest() && shell < NUM_IDS && FreshPid(ft.slots, shell, answer.pid) && -1 <= stdout
    modifies ft
    ensures ft.AtRest() && |ft.slots| == |old(ft.slots)| == NUM_IDS && ft.slots[shell] == old(ft.slots)[shell]
    ensures pid != -1 <==> && Good(stage, answer)
                           && RoomFor(stage, true, FreeFiles(old(ft.refs)), 0, FreeFds(old(ft.slots)[shell]))
    ensures FreeFiles(ft.refs) + (if stdout >= 0 then 1 else 3) >= FreeFiles(old(ft.refs))
    ensures FreePipes(ft.pipes) >= FreePipes(old(ft.pipes))
    ensures pid == -1 || (pid == answer.pid && pid >= 0 && !stage.Refused?)
    ensures OthersSame(old(ft.slots), ft.slots, shell, pid)
    ensures pid == -1 ==> SameEnds(old(ft.kinds), old(ft.slots), ft.kinds, ft.slots)
    ensures pid != -1 ==> PassedEnds(old(ft.kinds), old(ft.slots), ft.kinds, ft.slots, shell, pid,
                                     if stage.WithFile? then -1 else stdin, stdout)
    ensures FilesKept(old(ft.kinds), old(ft.slots), ft.kinds, shell)
    ensures pid != -1 && (0 <= stdout < NOFILE ==> old(ft.slots)[shell][stdout] != NFILE) ==>
              Launched(ft.kinds, ft.slots[pid], old(ft.slots)[shell], stage, answer.ip, stdin, stdout,
                FreeFiles(old(ft.refs)))
    ensures pid != -1 && stage.WithFile? ==>
              |old(ft.refs)| == NFILE && IsOpen(ft.kinds, ft.slots[pid][0], FdInode(answer.ip))
              && old(ft.refs)[ft.slots[pid][0]] == 0
  {
    hide Counted, EndsMatch, Ends, FreeFiles, FreePipes, FreeFds, FilesKept, Launched, SlotsShaped, IsOpen;
    Shapes(ft.refs, ft.kinds, ft.pipes, ft.slots, ft.loose);
    ShapedSlots(ft.slots, shell);
    NothingLost(ft.kinds, ft.slots, shell);
    if stage.Refused? {
      return -1;
    }
    if !stage.WithFile? {
      pid := -1;
      if answer.pid >= 0 {
        pid := answer.pid;
        SpawnChild(ft, shell, pid, stdin, stdout);
        KeptByChild(old(ft.kinds), old(ft.slots), ft.kinds, shell, pid);
      }
      return;
    }
    if !answer.found {
      return -1;
    }
    pid := LaunchWithFile(ft, shell, stdin, stdout, answer);
    NoNegative(old(ft.kinds), old(ft.slots), shell);
  }

  lemma NothingLost(kinds: seq<Kind>, slots: seq<seq<nat>>, shell: nat)
    requires SlotsShaped(slots) && |kinds| == NFILE
    ensures FilesKept(kinds, slots, kinds, shell)
  {
  }

  lemma ShapedSlots(slots: seq<seq<nat>>, t: nat)
    requires SlotsShaped(slots) && t < NUM_IDS
    ensures |slots| == NUM_IDS && |slots[t]| == NOFILE
  {
  }

  lemma NoNegative(kinds: seq<Kind>, slots: seq<seq<nat>>, t: nat)
    requires SlotsShaped(slots) && |kinds| == NFILE
    ensures forall q: nat, w: bool :: (t, -1) !in Ends(kinds, slots, q, w)
  {
  }

  /** The descriptors in `extra`, free in `fds`, hold files now; the others are as in `fds`. */
  ghost predicate Extra(fds: seq<nat>, fds': seq<nat>, extra: set<int>) {
    && |fds'| == |fds|
    && forall d :: 0 <= d < |fds| ==> if d in extra then fds[d] == NFILE && fds'[d] != NFILE else fds'[d] == fds[d]
  }

  /** `if (fd >= 0) close(fd)`; closing a descriptor that is not open changes nothing. */
  method CloseIf(ft: FileTable, shell: nat, fd: int, ghost fds: seq<nat>, ghost extra: set<int>)
    requires ft.AtRest() && shell < NUM_IDS && |ft.slots| == NUM_IDS && Extra(fds, ft.slots[shell], extra)
    requires 0 <= fd < |fds| && fd !in extra ==> fds[fd] == NFILE
    modifies ft
    ensures ft.AtRest() && |ft.slots| == NUM_IDS && Extra(fds, ft.slots[shell], extra - {fd})
    ensures OthersSame(old(ft.slots), ft.slots, shell, -1)
    ensures SlotsShaped(old(ft.slots)) && SlotsShaped(ft.slots) && |ft.kinds| == |old(ft.kinds)| == NFILE
    ensures forall q: nat, w: bool ::
              Ends(ft.kinds, ft.slots, q, w) == Ends(old(ft.kinds), old(ft.slots), q, w) - {(shell, fd)}
    ensures FreeFiles(ft.refs) >= FreeFiles(old(ft.refs)) && FreePipes(ft.pipes) >= FreePipes(old(ft.pipes))
    ensures FilesKept(old(ft.kinds), old(ft.slots), ft.kinds, shell)
  {
    hide Counted, EndsMatch, Ends, FreeFiles, FreePipes, FilesKept;
    Shapes(ft.refs, ft.kinds, ft.pipes, ft.slots, ft.loose);
    NothingLost(ft.kinds, ft.slots, shell);
    if fd >= 0 {
      CloseFd(ft, shell, fd);
    } else {
      NegativeNotThere(ft.kinds, ft.slots, shell, fd);
    }
  }

  lemma NegativeNotThere(kinds: seq<Kind>, slots: seq<seq<nat>>, t: nat, fd: int)
    requires SlotsShaped(slots) && |kinds| == NFILE && fd < 0
    ensures forall q: nat, w: bool :: (t, fd) !in Ends(kinds, slots, q, w)
  {
  }

  /** The input that a stage was handed: the read end of pipe `pin`, held by the shell alone; or none. */
  ghost predicate HandedOver(kinds: seq<Kind>, slots: seq<seq<nat>>, shell: nat, inFd: int, pin: nat) {
    SlotsShaped(slots) && |kinds| == NFILE && (inFd >= 0 ==> Ends(kinds, slots, pin, false) == {(shell, inFd)})
  }

  /** A stage is in place. It alone reads pipe `pin`, unless it reads a file, and it alone writes pipe `pout`, whose
      read end the shell alone has. Nothing has changed about any other end. */
  ghost predicate StageWired(kinds: seq<Kind>, slots: seq<seq<nat>>, kinds': seq<Kind>, slots': seq<seq<nat>>,
                             shell: nat, pid: nat, plain: bool, inFd: int, pin: nat, last: bool, nextFd: int,
                             pout: nat) {
    && SlotsShaped(slots) && SlotsShaped(slots') && |kinds| == |kinds'| == NFILE
    && (inFd >= 0 ==> Ends(kinds', slots', pin, false) == if plain then {(pid, 0)} else {})
    && (!last ==> Ends(kinds, slots, pout, true) == Ends(kinds, slots, pout, false) == {}
                  && Ends(kinds', slots', pout, true) == {(pid, 1)}
                  && Ends(kinds', slots', pout, false) == {(shell, nextFd)})
    && forall q: nat, w: bool :: !(inFd >= 0 && q == pin && !w) && !(!last && q == pout) ==>
         Ends(kinds', slots', q, w) == Ends(kinds, slots, q, w)
  }

  /** A descriptor is for one end at most. */
  lemma OneEnd(kinds: seq<Kind>, slots: seq<seq<nat>>, x: (nat, int), p: nat, w: bool, q: nat, v: bool)
    requires SlotsShaped(slots) && |kinds| == NFILE && x in Ends(kinds, slots, p, w) && x in Ends(kinds, slots, q, v)
    ensures p == q && w == v
  {
  }

  /** The closes after a stage: its input, and the write end of the new pipe, or both ends if it was not launched. */
  method CloseAfter(ft: FileTable, shell: nat, ok: bool, last: bool, inFd: int, r: int, outFd: int, ghost fds: seq<nat>,
                    ghost extra: set<int>)
    requires ft.AtRest() && shell < NUM_IDS && |ft.slots| == NUM_IDS && Extra(fds, ft.slots[shell], extra)
    requires extra == if last then {inFd} else {inFd, r, outFd}
    requires !last ==> inFd != r && inFd != outFd && r != outFd
    modifies ft
    ensures ft.AtRest() && |ft.slots| == NUM_IDS && OthersSame(old(ft.slots), ft.slots, shell, -1)
    ensures Extra(fds, ft.slots[shell], if ok && !last then extra - {inFd} - {outFd} else {})
    ensures SlotsShaped(ft.slots) && |ft.kinds| == NFILE
    ensures ok ==> forall q: nat, w: bool :: Ends(ft.kinds, ft.slots, q, w) ==
                     Ends(old(ft.kinds), old(ft.slots), q, w) - {(shell, inFd)}
                     - (if last then {} else {(shell, outFd)})
    ensures FreeFiles(ft.refs) >= FreeFiles(old(ft.refs)) && FreePipes(ft.pipes) >= FreePipes(old(ft.pipes))
    ensures FilesKept(old(ft.kinds), old(ft.slots), ft.kinds, shell)
  {
    hide Counted, EndsMatch, Ends, SlotsShaped, FreeFiles, FreePipes, Extra, FilesKept;
    CloseIf(ft, shell, inFd, fds, extra);
    if last {
      assert extra - {inFd} == {};
    } else if ok {
      ghost var kinds1, slots1 := ft.kinds, ft.slots;
      CloseIf(ft, shell, outFd, fds, extra - {inFd});
      KeptTwice(old(ft.kinds), old(ft.slots), kinds1, slots1, ft.kinds, shell, -1);
    } else {
      ghost var kinds1, slots1 := ft.kinds, ft.slots;
      CloseIf(ft, shell, r, fds, extra - {inFd});
      KeptTwice(old(ft.kinds), old(ft.slots), kinds1, slots1, ft.kinds, shell, -1);
      ghost var kinds2, slots2 := ft.kinds, ft.slots;
      CloseIf(ft, shell, outFd, fds, extra - {inFd} - {r});
      KeptTwice(old(ft.kinds), old(ft.slots), kinds2, slots2, ft.kinds, shell, -1);
      assert extra - {inFd} - {r} - {outFd} == {};
    }
  }

  /** One turn of the loop of run_pipeline: a pipe to the next stage unless it is the last, the stage itself, and
      the closes that follow. */
  method RunStage(ft: FileTable, shell: nat, stage: Stage, answer: Answer, last: bool, inFd: int, ghost fds: seq<nat>,
                  ghost pin: nat)
    returns (ok: bool, nextFd: int, ghost pout: nat)
    requires ft.AtRest() && shell < NUM_IDS && SlotsShaped(ft.slots) && -1 <= inFd < NOFILE
    requires FreshPid(ft.slots, shell, answer.pid)
    requires Extra(fds, ft.slots[shell], {inFd}) && HandedOver(ft.kinds, ft.slots, shell, inFd, pin)
    modifies ft
    ensures ft.AtRest() && SlotsShaped(ft.slots) && OthersSame(old(ft.slots), ft.slots, shell, answer.pid)
    ensures !ok ==> ft.slots[shell] == fds
    ensures ok && last ==> ft.slots[shell] == fds && nextFd == inFd
    ensures ok && !last ==> 0 <= nextFd < NOFILE && Extra(fds, ft.slots[shell], {nextFd})
    ensures ok <==> && Good(stage, answer)
                    && RoomFor(stage, last, FreeFiles(old(ft.refs)), FreePipes(old(ft.pipes)),
                               FreeFds(old(ft.slots)[shell]))
    ensures ok ==> FreeFiles(ft.refs) + 3 >= FreeFiles(old(ft.refs))
    ensures ok ==> FreePipes(ft.pipes) + (if last then 0 else 1) >= FreePipes(old(ft.pipes))
    ensures ok ==> StageWired(old(ft.kinds), old(ft.slots), ft.kinds, ft.slots, shell, answer.pid, stage.Plain?, inFd,
                   pin, last, nextFd, pout)
    ensures FilesKept(old(ft.kinds), old(ft.slots), ft.kinds, shell)
    ensures ok ==> 0 <= answer.pid < |ft.slots| &&
                   ChildFds(ft.kinds, ft.slots[answer.pid], stage, answer.ip, inFd == -1,
                     last, FreeFiles(old(ft.refs)) >= 3)
  {
    hide Counted, EndsMatch, Ends, HandedOver, SameEnds, PassedEnds, StageWired, SlotsShaped, FreeFiles, FreePipes,
         FreeFds, Good, FilesKept, Launched, ChildFds, IsOpen;
    Shapes(ft.refs, ft.kinds, ft.pipes, ft.slots, ft.loose);
    ShapedSlots(ft.slots, shell);
    NothingLost(ft.kinds, ft.slots, shell);
    ghost var extra := {inFd};
    var outFd, r := -1, -1;
    nextFd, pout := inFd, 0;
    if !last {
      var w;
      ok, r, w, pout := MakePipe(ft, shell);
      if !ok {
        CloseIf(ft, shell, inFd, fds, extra);
        return;
      }
      extra := extra + {r, w};
      assert Extra(fds, ft.slots[shell], extra);
      outFd := w;
    }
    ghost var kinds1, slots1, files1 := ft.kinds, ft.slots, FreeFiles(ft.refs);
    var pid := LaunchStage(ft, shell, stage, inFd, outFd, answer);
    ghost var kinds2, slots2 := ft.kinds, ft.slots;
    ok := pid >= 0;
    CloseAfter(ft, shell, ok, last, inFd, r, outFd, fds, extra);
    KeptTwice(old(ft.kinds), old(ft.slots), kinds1, slots1, kinds2, shell, -1);
    KeptTwice(old(ft.kinds), old(ft.slots), kinds2, slots2, ft.kinds, shell, pid);
    if ok && !last {
      nextFd := r;
    }
    if ok {
      LaunchedStill(kinds2, slots2, ft.kinds, shell, pid, slots1[shell], stage, answer.ip, inFd, outFd, files1);
      InPipeline(ft.kinds, ft.slots[pid], slots1[shell], stage, answer.ip, inFd, outFd, last, files1,
        FreeFiles(old(ft.refs)));
      StageInPlace(old(ft.kinds), old(ft.slots), kinds1, slots1, kinds2, slots2, ft.kinds, ft.slots, shell, pid, stage,
                   inFd, pin, last, r, outFd, pout);
    }
  }

  lemma InPipeline(kinds: seq<Kind>, fds: seq<nat>, parent: seq<nat>, stage: Stage, ip: nat, inFd: int, outFd: int,
                   last: bool, files: nat, files0: nat)
    requires Launched(kinds, fds, parent, stage, ip, inFd, outFd, files) && |kinds| == NFILE && !stage.Refused?
    requires -1 <= inFd && (last <==> outFd == -1) && -1 <= outFd && files0 == files + if last then 0 else 2
    ensures ChildFds(kinds, fds, stage, ip, inFd == -1, last, files0 >= 3)
  {
  }

  /** The four changes of a successful turn, put together: the new pipe, the child, and the two closes. */
  lemma StageInPlace(kinds: seq<Kind>, slots: seq<seq<nat>>, kinds1: seq<Kind>, slots1: seq<seq<nat>>,
                     kinds2: seq<Kind>, slots2: seq<seq<nat>>, kinds3: seq<Kind>, slots3: seq<seq<nat>>,
                     shell: nat, pid: nat, stage: Stage, inFd: int, pin: nat, last: bool, r: int, outFd: int, pout: nat)
    requires HandedOver(kinds, slots, shell, inFd, pin) && pid != shell
    requires (inFd >= 0 && !last ==> inFd != r && inFd != outFd && r != outFd)
    requires SlotsShaped(slots1) && |kinds1| == NFILE && SlotsShaped(slots3) && |kinds3| == NFILE
    requires if last then kinds1 == kinds && slots1 == slots && outFd == -1
             else && (forall e: bool :: Ends(kinds, slots, pout, e) == {}) && r != outFd
                  && forall q: nat, e: bool :: Ends(kinds1, slots1, q, e) ==
                       if q == pout then {(shell, if e then outFd else r)} else Ends(kinds, slots, q, e)
    requires PassedEnds(kinds1, slots1, kinds2, slots2, shell, pid, if stage.WithFile? then -1 else inFd, outFd)
    requires -1 <= inFd && (stage.Plain? || stage.WithFile?)
    requires forall q: nat, w: bool :: Ends(kinds3, slots3, q, w) ==
               Ends(kinds2, slots2, q, w) - {(shell, inFd)} - (if last then {} else {(shell, outFd)})
    ensures StageWired(kinds, slots, kinds3, slots3, shell, pid, stage.Plain?, inFd, pin, last,
              if last then inFd else r, pout)
  {
    hide Ends, SlotsShaped;
    NoNegative(kinds1, slots1, shell);
    forall q: nat, w: bool
      ensures (shell, inFd) in Ends(kinds1, slots1, q, w) ==> inFd >= 0 && q == pin && !w
      ensures !last && (shell, outFd) in Ends(kinds1, slots1, q, w) ==> q == pout && w
    {
      if (shell, inFd) in Ends(kinds1, slots1, q, w) {
        OneEnd(kinds1, slots1, (shell, inFd), q, w, pin, false);
      }
      if !last && (shell, outFd) in Ends(kinds1, slots1, q, w) {
        OneEnd(kinds1, slots1, (shell, outFd), q, w, pout, true);
      }
    }
  }

  /** The stages before `n` are in place: pipe `ps[k]` is written by stage `k` alone, and read by stage `k + 1` alone
      unless that reads a file. */
  ghost predicate Wired(kinds: seq<Kind>, slots: seq<seq<nat>>, stages: seq<Stage>, answers: seq<Answer>, ps: seq<nat>,
                        n: nat) {
    && SlotsShaped(slots) && |kinds| == NFILE && |stages| == |answers| && n <= |stages| && |ps| <= n
    && (forall k :: 0 <= k < n ==> answers[k].pid >= 0)
    && (forall k :: 0 <= k < |ps| ==> Ends(kinds, slots, ps[k], true) == {(answers[k].pid, 1)})
    && forall k, j :: 0 <= k < j == k + 1 < n && k < |ps| ==>
         Ends(kinds, slots, ps[k], false) == if stages[j].Plain? then {(answers[j].pid, 0)} else {}
  }

  /** The stages before `n` have their files and the console. */
  ghost predicate Children(kinds: seq<Kind>, slots: seq<seq<nat>>, shell: nat, stages: seq<Stage>,
                           answers: seq<Answer>, n: nat, rich: bool) {
    && SlotsShaped(slots) && n <= |stages| == |answers|
    && forall k :: 0 <= k < n ==>
         && 0 <= answers[k].pid < NUM_IDS && answers[k].pid != shell
         && ChildFds(kinds, slots[answers[k].pid], stages[k], answers[k].ip, k == 0, k == |stages| - 1, rich)
  }

  lemma ChildFdsStill(kinds: seq<Kind>, slots: seq<seq<nat>>, kinds': seq<Kind>, shell: nat, pid: nat, stage: Stage,
                      ip: nat, first: bool, last: bool, rich: bool)
    requires FilesKept(kinds, slots, kinds', shell) && pid < NUM_IDS && pid != shell
    requires ChildFds(kinds, slots[pid], stage, ip, first, last, rich)
    ensures ChildFds(kinds', slots[pid], stage, ip, first, last, rich)
  {
  }

  lemma ChildrenStill(kinds: seq<Kind>, slots: seq<seq<nat>>, kinds': seq<Kind>, slots': seq<seq<nat>>, shell: nat,
                      stages: seq<Stage>, answers: seq<Answer>, n: nat, rich: bool, pid: int)
    requires Children(kinds, slots, shell, stages, answers, n, rich) && FilesKept(kinds, slots, kinds', shell)
    requires OthersSame(slots, slots', shell, pid) && SlotsShaped(slots')
    requires forall k :: 0 <= k < n ==> answers[k].pid != pid
    ensures Children(kinds', slots', shell, stages, answers, n, rich)
  {
    hide FilesKept, ChildFds;
    forall k | 0 <= k < n
      ensures ChildFds(kinds', slots'[answers[k].pid], stages[k], answers[k].ip, k == 0, k == |stages| - 1, rich)
    {
      ChildFdsStill(kinds, slots, kinds', shell, answers[k].pid, stages[k], answers[k].ip, k == 0, k == |stages| - 1,
        rich);
    }
  }

  /** Stage `i` is launched with as many files as there were, or enough. */
  lemma ChildrenMore(kinds: seq<Kind>, slots: seq<seq<nat>>, shell: nat, stages: seq<Stage>, answers: seq<Answer>,
                     i: nat, rich: bool, rich': bool)
    requires Children(kinds, slots, shell, stages, answers, i, rich) && i < |stages| && 0 <= answers[i].pid < NUM_IDS
    requires answers[i].pid != shell && (rich ==> rich')
    requires ChildFds(kinds, slots[answers[i].pid], stages[i], answers[i].ip, i == 0, i == |stages| - 1, rich')
    ensures Children(kinds, slots, shell, stages, answers, i + 1, rich)
  {
  }

  predicate AllGood(stages: seq<Stage>, answers: seq<Answer>)
    requires |answers| == |stages|
  {
    forall i :: 0 <= i < |stages| ==> Good(stages[i], answers[i])
  }

  /** Files, pipes and descriptors that are enough for `n` stages, whatever they are. */
  ghost predicate Enough(n: nat, refs: seq<nat>, pipes: seq<PipeSlot>, fds: seq<nat>) {
    FreeFiles(refs) >= 3 * n && FreePipes(pipes) + 1 >= n && FreeFds(fds) >= 4
  }

  lemma OneExtra(fds: seq<nat>, fds': seq<nat>, fd: int)
    requires Extra(fds, fds', {fd})
    ensures FreeFds(fds') + 1 >= FreeFds(fds)
  {
    hide Count;
    if 0 <= fd < |fds| {
      CountSet(fds, fd, fds'[fd], NFILE);
      assert fds' == fds[fd := fds'[fd]];
    } else {
      assert fds' == fds;
    }
  }

  /** run_pipeline. It launches every stage if the stages are good and there is enough of everything, and only if they
      are good. If every stage is launched, each pipe joins one stage to the next and nobody else holds its ends.
      Whatever fails, and wherever, the shell ends with exactly the descriptors it started with. The last close of the
      input descriptor comes twice; the second finds it closed already. */
  method RunPipeline(ft: FileTable, shell: nat, stages: seq<Stage>, answers: seq<Answer>)
    returns (ok: bool, ghost ps: seq<nat>)
    requires ft.AtRest() && shell < NUM_IDS && |answers| == |stages|
    requires forall i :: 0 <= i < |stages| ==> FreshPid(ft.slots, shell, answers[i].pid)
    requires forall i, j :: 0 <= i < j < |stages| && answers[i].pid != -1 ==> answers[i].pid != answers[j].pid
    modifies ft
    ensures ft.AtRest() && |ft.slots| == |old(ft.slots)| == NUM_IDS && ft.slots[shell] == old(ft.slots)[shell]
    ensures ok && stages != [] ==> |ps| == |stages| - 1 && Wired(ft.kinds, ft.slots, stages, answers, ps, |stages|)
    ensures ok ==> Children(ft.kinds, ft.slots, shell, stages, answers, |stages|,
                     Enough(|stages|, old(ft.refs), old(ft.pipes), old(ft.slots)[shell]))
    ensures ok ==> AllGood(stages, answers)
    ensures AllGood(stages, answers) && Enough(|stages|, old(ft.refs), old(ft.pipes), old(ft.slots)[shell]) ==> ok
  {
    hide Counted, EndsMatch, Ends, FreeFiles, FreePipes, FreeFds, Wired, HandedOver, StageWired, FreshPid, Good,
         RoomFor, Enough, SlotsShaped, Extra, FilesKept, Children, ChildFds;
    Shapes(ft.refs, ft.kinds, ft.pipes, ft.slots, ft.loose);
    ShapedSlots(ft.slots, shell);
    ghost var fds := ft.slots[shell];
    ghost var rich := Enough(|stages|, ft.refs, ft.pipes, fds);
    NothingWired(ft.kinds, ft.slots, stages, answers, shell);
    ps := [];
    var inFd, i := -1, 0;
    while i < |stages|
      invariant 0 <= i <= |stages| && ft.AtRest() && SlotsShaped(ft.slots) && -1 <= inFd < NOFILE
      invariant |ft.slots| == NUM_IDS && |ft.slots[shell]| == |fds| == NOFILE
      invariant i < |stages| ==> Extra(fds, ft.slots[shell], {inFd}) && |ps| == i && (inFd >= 0 <==> i > 0)
      invariant i < |stages| ==> HandedOver(ft.kinds, ft.slots, shell, inFd, if i > 0 then ps[i - 1] else 0)
      invariant i == |stages| ==> ft.slots[shell] == fds && (inFd >= 0 ==> fds[inFd] == NFILE)
      invariant i == |stages| ==> (i > 0 ==> |ps| == i - 1)
      invariant Wired(ft.kinds, ft.slots, stages, answers, ps, i)
      invariant forall k :: i <= k < |stages| ==> FreshPid(ft.slots, shell, answers[k].pid)
      invariant forall k :: 0 <= k < i ==> Good(stages[k], answers[k])
      invariant Children(ft.kinds, ft.slots, shell, stages, answers, i, rich)
      invariant FreeFiles(ft.refs) + 3 * i >= FreeFiles(old(ft.refs))
      invariant i < |stages| ==> FreePipes(ft.pipes) + i >= FreePipes(old(ft.pipes))
    {
      ghost var kinds1, slots1, files1 := ft.kinds, ft.slots, FreeFiles(ft.refs);
      ShapedSlots(ft.slots, shell);
      OneExtra(fds, ft.slots[shell], inFd);
      EnoughFor(stages, answers, i, old(ft.refs), old(ft.pipes), fds, FreeFiles(ft.refs), FreePipes(ft.pipes),
                FreeFds(ft.slots[shell]));
      var launched, nextFd;
      ghost var pout;
      launched, nextFd, pout := RunStage(ft, shell, stages[i], answers[i], i == |stages| - 1, inFd, fds,
        if i > 0 then ps[i - 1] else 0);
      if !launched {
        return false, ps;
      }
      GoodPid(stages[i], answers[i]);
      StillFresh(slots1, ft.slots, shell, answers, i);
      FreshIsOther(slots1, shell, answers[i].pid);
      ChildrenStill(kinds1, slots1, ft.kinds, ft.slots, shell, stages, answers, i, rich, answers[i].pid);
      EnoughFiles(|stages|, i, old(ft.refs), old(ft.pipes), fds, files1);
      ChildrenMore(ft.kinds, ft.slots, shell, stages, answers, i, rich, files1 >= 3);
      ShapedSlots(ft.slots, shell);
      WiredMore(kinds1, slots1, ft.kinds, ft.slots, shell, stages, answers, ps, i, inFd, nextFd, pout);
      if i == |stages| - 1 {
        ExtraWasFree(fds, slots1[shell], inFd);
      }
      if i < |stages| - 1 {
        ps := ps + [pout];
      }
      inFd := nextFd;
      i := i + 1;
    }
    ghost var kinds1, slots1 := ft.kinds, ft.slots;
    NoExtra(fds, ft.slots[shell]);
    CloseIf(ft, shell, inFd, fds, {});
    ShapedSlots(ft.slots, shell);
    OnlyExtra(fds, ft.slots[shell], {} - {inFd});
    WiredStill(kinds1, slots1, ft.kinds, ft.slots, shell, stages, answers, ps, inFd);
    ChildrenArePids(kinds1, slots1, shell, stages, answers, |stages|, rich);
    ChildrenStill(kinds1, slots1, ft.kinds, ft.slots, shell, stages, answers, |stages|, rich, -1);
    ok := true;
  }

  lemma ChildrenArePids(kinds: seq<Kind>, slots: seq<seq<nat>>, shell: nat, stages: seq<Stage>, answers: seq<Answer>,
                        n: nat, rich: bool)
    requires Children(kinds, slots, shell, stages, answers, n, rich)
    ensures forall k :: 0 <= k < n ==> answers[k].pid != -1
  {
    hide ChildFds;
  }

  lemma FreshIsOther(slots: seq<seq<nat>>, shell: nat, pid: int)
    requires FreshPid(slots, shell, pid) && pid != -1
    ensures 0 <= pid < NUM_IDS && pid != shell
  {
  }

  lemma EnoughFiles(n: nat, i: nat, refs: seq<nat>, pipes: seq<PipeSlot>, fds: seq<nat>, files: nat)
    requires i < n && files + 3 * i >= FreeFiles(refs)
    ensures Enough(n, refs, pipes, fds) ==> files >= 3
  {
    hide FreeFiles, FreePipes, FreeFds;
  }

  lemma NothingWired(kinds: seq<Kind>, slots: seq<seq<nat>>, stages: seq<Stage>, answers: seq<Answer>, shell: nat)
    requires SlotsShaped(slots) && |kinds| == NFILE && |answers| == |stages| && shell < NUM_IDS
    ensures Wired(kinds, slots, stages, answers, [], 0) && HandedOver(kinds, slots, shell, -1, 0)
    ensures forall rich :: Children(kinds, slots, shell, stages, answers, 0, rich)
    ensures Extra(slots[shell], slots[shell], {-1})
  {
  }

  lemma NoExtra(fds: seq<nat>, fds': seq<nat>)
    ensures fds' == fds ==> Extra(fds, fds', {})
  {
  }

  lemma OnlyExtra(fds: seq<nat>, fds': seq<nat>, extra: set<int>)
    requires Extra(fds, fds', extra) && extra == {}
    ensures fds' == fds
  {
  }

  lemma ExtraWasFree(fds: seq<nat>, fds': seq<nat>, fd: int)
    requires Extra(fds, fds', {fd})
    ensures 0 <= fd < |fds| ==> fds[fd] == NFILE
  {
  }

  lemma GoodPid(stage: Stage, answer: Answer)
    requires Good(stage, answer)
    ensures answer.pid >= 0
  {
  }

  /** The pids still to come have no descriptors. */
  lemma StillFresh(slots: seq<seq<nat>>, slots': seq<seq<nat>>, shell: nat, answers: seq<Answer>, i: nat)
    requires i < |answers| && OthersSame(slots, slots', shell, answers[i].pid)
    requires forall k :: i <= k < |answers| ==> FreshPid(slots, shell, answers[k].pid)
    requires forall k, j :: 0 <= k < j < |answers| && answers[k].pid != -1 ==> answers[k].pid != answers[j].pid
    ensures forall k :: i + 1 <= k < |answers| ==> FreshPid(slots', shell, answers[k].pid)
  {
  }

  /** While there was enough at the start, there is room for stage `i`. */
  lemma EnoughFor(stages: seq<Stage>, answers: seq<Answer>, i: nat, refs: seq<nat>, pipes: seq<PipeSlot>, fds: seq<nat>,
                  nfiles: nat, npipes: nat, nfds: nat)
    requires i < |stages| == |answers| && nfds + 1 >= FreeFds(fds)
    requires nfiles + 3 * i >= FreeFiles(refs) && npipes + i >= FreePipes(pipes)
    ensures AllGood(stages, answers) && Enough(|stages|, refs, pipes, fds) ==>
              Good(stages[i], answers[i]) && RoomFor(stages[i], i == |stages| - 1, nfiles, npipes, nfds)
  {
    hide FreeFiles, FreePipes, FreeFds;
  }

  /** One more stage is in place. */
  lemma WiredMore(kinds: seq<Kind>, slots: seq<seq<nat>>, kinds': seq<Kind>, slots': seq<seq<nat>>, shell: nat,
                  stages: seq<Stage>, answers: seq<Answer>, ps: seq<nat>, i: nat, inFd: int, nextFd: int, pout: nat)
    requires Wired(kinds, slots, stages, answers, ps, i) && i < |stages| && |ps| == i && answers[i].pid >= 0
    requires (inFd >= 0 <==> i > 0)
    requires forall k, j :: 0 <= k < j < |stages| && answers[k].pid != -1 ==> answers[k].pid != answers[j].pid
    requires StageWired(kinds, slots, kinds', slots', shell, answers[i].pid, stages[i].Plain?, inFd,
                        if i > 0 then ps[i - 1] else 0, i == |stages| - 1, nextFd, pout)
    ensures Wired(kinds', slots', stages, answers, if i < |stages| - 1 then ps + [pout] else ps, i + 1)
    ensures i < |stages| - 1 ==> HandedOver(kinds', slots', shell, nextFd, pout)
  {
    hide Ends;
    var last := i == |stages| - 1;
    forall k | 0 <= k < i ensures !last ==> ps[k] != pout {
      assert (answers[k].pid, 1) in Ends(kinds, slots, ps[k], true);
    }
    forall k | 0 <= k < i - 1 ensures ps[k] != ps[i - 1] {
      assert (answers[k].pid, 1) in Ends(kinds, slots, ps[k], true);
    }
  }

  /** A close of a descriptor that is not open changes no wiring. */
  lemma WiredStill(kinds: seq<Kind>, slots: seq<seq<nat>>, kinds': seq<Kind>, slots': seq<seq<nat>>, shell: nat,
                   stages: seq<Stage>, answers: seq<Answer>, ps: seq<nat>, inFd: int)
    requires Wired(kinds, slots, stages, answers, ps, |stages|) && SlotsShaped(slots') && |kinds'| == NFILE
    requires shell < NUM_IDS
    requires 0 <= inFd < NOFILE ==> slots[shell][inFd] == NFILE
    requires inFd < NOFILE
    requires forall q: nat, w: bool :: Ends(kinds', slots', q, w) == Ends(kinds, slots, q, w) - {(shell, inFd)}
    ensures Wired(kinds', slots', stages, answers, ps, |stages|)
  {
    forall q: nat, w: bool ensures (shell, inFd) !in Ends(kinds, slots, q, w) {
    }
  }
}
