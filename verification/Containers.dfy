/** Memory quotas: the tree of containers, what each has used, and what it has promised its children. */
module Containers {
  import opened Bytes
  import opened Params

  const MAX_CHILDREN: nat := 255

  /** The fields of a container are C `int`s. */
  const INT_MAX: nat := 0x8000_0000

  /** `CONTAINER[id]`, with two facts the kernel does not store: the pages charged to the container itself,
      and whether its process has not yet terminated. */
  datatype Container = Container(used: bool, quota: nat, usage: nat, parent: nat, nchildren: nat, own: nat, live: bool)

  /** The quotas of the live children of `id` among the first `n` containers. */
  ghost function Promised(cs: seq<Container>, id: nat, n: nat): (q: nat)
    requires n <= |cs|
  {
    if n == 0 then 0
    else Promised(cs, id, n - 1) + if IsLiveChild(cs, id, n - 1) then cs[n - 1].quota else 0
  }

  predicate IsLiveChild(cs: seq<Container>, id: nat, c: nat)
    requires c < |cs|
  {
    c > 0 && cs[c].used && cs[c].live && cs[c].parent == id
  }

  /** Where the children of a container live in the table. */
  function ChildIndex(id: nat, n: nat): nat {
    id * MAX_CHILDREN + 1 + n
  }

  /** A container in use is one of the first `nchildren` children of a container in use. */
  predicate Placed(cs: seq<Container>, c: nat)
    requires c < |cs|
  {
    && cs[c].nchildren <= (if cs[c].used then MAX_CHILDREN else 0)
    && (0 < c && cs[c].used ==>
          && cs[c].parent == (c - 1) / MAX_CHILDREN && cs[cs[c].parent].used
          && (c - 1) % MAX_CHILDREN < cs[cs[c].parent].nchildren)
  }

  ghost predicate TreeShaped(cs: seq<Container>) {
    && |cs| == NUM_IDS && cs[0].used && cs[0].parent == 0
    && forall c: nat :: c < NUM_IDS ==> Placed(cs, c)
  }

  /** Usage is exactly what was charged and what was promised, and never exceeds the quota. */
  ghost predicate Balanced(cs: seq<Container>) {
    forall id: nat :: id < |cs| && cs[id].used ==>
      cs[id].usage == cs[id].own + Promised(cs, id, |cs|) && cs[id].usage <= cs[id].quota < INT_MAX
  }

  /** container_can_consume: the sum is computed modulo 2^32. */
  predicate CanConsume(c: Container, n: nat)
    requires n < U32
  {
    (c.usage + n) % U32 <= c.quota
  }

  /** The check is right exactly when the sum does not wrap around into the quota. */
  lemma CanConsumeExactly(c: Container, n: nat)
    requires n < U32 && c.usage <= c.quota < U32
    ensures (CanConsume(c, n) <==> c.usage + n <= c.quota) <==> !(U32 <= c.usage + n <= c.quota + U32)
  {
  }

  /** A request it gets wrong: almost 2^32 pages, from a container with one page used. */
  lemma CanConsumeWraps()
    ensures CanConsume(Container(true, 1, 1, 0, 0, 1, true), U32 - 1) && !(1 + (U32 - 1) <= 1)
  {
  }

  /** container_refund_usage, which clamps at zero. */
  function Refunded(usage: nat, quota: nat): (r: nat) {
    if usage >= quota then usage - quota else 0
  }

  /** The refund in sys_exit and sys_kill when process `c` terminates. */
  function RefundOf(cs: seq<Container>, c: nat): (r: seq<Container>)
    requires c < |cs| && cs[c].parent < |cs|
    ensures |r| == |cs|
  {
    var p := cs[c].parent;
    var cs' := cs[p := cs[p].(usage := Refunded(cs[p].usage, cs[c].quota))];
    cs'[c := cs'[c].(live := false)]
  }

  /** container_split: a fresh child in the next place, and its quota added to the parent's usage modulo 2^32. */
  function SplitOf(cs: seq<Container>, id: nat, quota: nat): (r: seq<Container>)
    requires id < |cs| && ChildIndex(id, cs[id].nchildren) < |cs|
    ensures |r| == |cs|
  {
    var cs' := cs[ChildIndex(id, cs[id].nchildren) := Container(true, quota, 0, id, 0, 0, true)];
    cs'[id := cs'[id].(usage := (cs[id].usage + quota) % U32, nchildren := cs[id].nchildren + 1)]
  }

  /** `child` is new, empty and has the quota, which counts as used by its parent `id`; all else is as before. */
  ghost predicate Granted(cs: seq<Container>, cs': seq<Container>, id: nat, child: nat, quota: nat) {
    && id < |cs| == |cs'| && child < |cs| && child != id
    && cs'[child].used && cs'[child].quota == quota && cs'[child].usage == 0 && cs'[child].parent == id
    && cs'[child].nchildren == 0
    && cs'[id].usage == (cs[id].usage + quota) % U32 && cs'[id].nchildren == cs[id].nchildren + 1
    && cs'[id].used == cs[id].used && cs'[id].quota == cs[id].quota && cs'[id].parent == cs[id].parent
    && forall x :: 0 <= x < |cs| && x != id && x != child ==> cs'[x] == cs[x]
  }

  /** Only the usage of the parent `p` of `c` has changed, and what has gone from it is the quota of `c`, or all of it
      if that is less. */
  ghost predicate TakenBack(cs: seq<Container>, cs': seq<Container>, c: nat, p: nat) {
    && c < |cs| == |cs'| && p < |cs| && cs'[p].usage <= cs[p].usage
    && (cs[p].usage - cs'[p].usage == cs[c].quota || (cs'[p].usage == 0 && cs[p].usage < cs[c].quota))
    && forall x :: 0 <= x < |cs| ==>
         && cs'[x].used == cs[x].used && cs'[x].quota == cs[x].quota && cs'[x].parent == cs[x].parent
         && cs'[x].nchildren == cs[x].nchildren && (x != p ==> cs'[x].usage == cs[x].usage)
  }

  /** container_init, for the number of free normal pages. */
  function InitTable(pages: nat): (cs: seq<Container>)
    ensures |cs| == NUM_IDS && cs[0] == Container(true, pages, 0, 0, 0, 0, true)
    ensures forall id: nat :: 0 < id < NUM_IDS ==> cs[id] == Container(false, 0, 0, 0, 0, 0, false)
  {
    [Container(true, pages, 0, 0, 0, 0, true)] + seq(NUM_IDS - 1, _ => Container(false, 0, 0, 0, 0, 0, false))
  }

  const IDLE_QUOTA: nat := 1000
  const SHELL_QUOTA: nat := 200000

  /** The table when kern_main has created idle and the shell, neither of which it checks against the quota. */
  function Booted(pages: nat): (cs: seq<Container>)
    ensures |cs| == NUM_IDS
  {
    SplitOf(SplitOf(InitTable(pages), 0, IDLE_QUOTA), 0, SHELL_QUOTA)
  }

  /** Distinct (parent, child number) pairs have distinct places, none of them the root's. */
  lemma ChildIndexInjective(id: nat, n: nat)
    requires n < MAX_CHILDREN
    ensures var c := ChildIndex(id, n); c > 0 && (c - 1) / MAX_CHILDREN == id && (c - 1) % MAX_CHILDREN == n && c > id
  {
  }

  /** A change to one container that keeps its quota, parenthood and liveness changes no promise. */
  lemma {:induction false} PromisedKept(cs: seq<Container>, cs': seq<Container>, id: nat, n: nat)
    requires n <= |cs| == |cs'|
    requires forall c: nat :: c < n ==> IsLiveChild(cs', id, c) == IsLiveChild(cs, id, c) &&
                                        (IsLiveChild(cs, id, c) ==> cs'[c].quota == cs[c].quota)
    ensures Promised(cs', id, n) == Promised(cs, id, n)
  {
    if n > 0 {
      PromisedKept(cs, cs', id, n - 1);
    }
  }

  /** One child appears or disappears. */
  lemma {:induction false} PromisedChanged(cs: seq<Container>, cs': seq<Container>, id: nat, n: nat, c: nat)
    requires n <= |cs| == |cs'| && c < |cs| && !IsLiveChild(cs, id, c) && IsLiveChild(cs', id, c)
    requires forall x: nat :: x < |cs| && x != c ==>
               IsLiveChild(cs', id, x) == IsLiveChild(cs, id, x) &&
                 (IsLiveChild(cs, id, x) ==> cs'[x].quota == cs[x].quota)
    ensures Promised(cs', id, n) == Promised(cs, id, n) + if c < n then cs'[c].quota else 0
  {
    if n > 0 {
      PromisedChanged(cs, cs', id, n - 1, c);
    }
  }

  lemma TableSize(cs: seq<Container>)
    requires TreeShaped(cs)
    ensures |cs| == NUM_IDS
  {
  }

  class ContainerTable {
    var cs: seq<Container>

    ghost predicate Valid()
      reads this
    {
      TreeShaped(cs) && Balanced(cs)
    }

    /** container_init. */
    constructor (pages: nat)
      requires pages < INT_MAX
      ensures Valid() && cs == InitTable(pages)
    {
      cs := InitTable(pages);
      new;
      InitOk(pages);
    }

    /** container_split, which checks nothing: the books stay balanced exactly if the parent could afford it. */
    method Split(id: nat, quota: nat) returns (child: nat)
      requires Valid() && id < NUM_IDS && cs[id].used && quota < U32
      requires ChildIndex(id, MAX_CHILDREN) <= NUM_IDS && cs[id].nchildren < MAX_CHILDREN
      modifies this
      ensures child == ChildIndex(id, old(cs)[id].nchildren) < NUM_IDS && child != id && !old(cs)[child].used
      ensures cs == SplitOf(old(cs), id, quota) && TreeShaped(cs)
      ensures Granted(old(cs), cs, id, child, quota)
      ensures Valid() <==> old(cs)[id].usage + quota <= old(cs)[id].quota
    {
      hide Balanced, TreeShaped;
      TableSize(cs);
      var nc := cs[id].nchildren;
      child := ChildIndex(id, nc);
      SplitExactly(cs, id, quota);
      cs := cs[child := Container(true, quota, 0, id, 0, 0, true)];
      cs := cs[id := cs[id].(usage := (cs[id].usage + quota) % U32, nchildren := nc + 1)];
    }

    /** The quota and child checks of sys_spawn, then container_split. NUM_IDS is the failure value. The checks
        protect the books exactly if the 32-bit sum in container_can_consume does not wrap around. */
    method SysSpawn(id: nat, quota: nat) returns (child: nat)
      requires Valid() && id < NUM_IDS && cs[id].used && quota < U32
      modifies this
      ensures child == NUM_IDS <==> !CanConsume(old(cs)[id], quota) || NUM_IDS < ChildIndex(id, MAX_CHILDREN)
                                    || old(cs)[id].nchildren == MAX_CHILDREN
      ensures child == NUM_IDS ==> cs == old(cs)
      ensures child != NUM_IDS ==>
                child == ChildIndex(id, old(cs)[id].nchildren) < NUM_IDS && cs == SplitOf(old(cs), id, quota)
      ensures child != NUM_IDS ==> Granted(old(cs), cs, id, child, quota)
      ensures child != NUM_IDS ==> (Valid() <==> old(cs)[id].usage + quota < U32)
    {
      hide Balanced, TreeShaped;
      Affordable(cs, id);
      if !CanConsume(cs[id], quota) || NUM_IDS < ChildIndex(id, MAX_CHILDREN) || cs[id].nchildren == MAX_CHILDREN {
        return NUM_IDS;
      }
      child := Split(id, quota);
    }

    /** The accounting of container_alloc: one page more, unless the quota is used up. */
    method Charge(id: nat) returns (ok: bool)
      requires Valid() && id < NUM_IDS && cs[id].used
      modifies this
      ensures Valid() && ok == (old(cs)[id].usage != old(cs)[id].quota)
      ensures !ok ==> cs == old(cs)
      ensures ok ==> cs == old(cs)[id := old(cs)[id].(usage := old(cs)[id].usage + 1, own := old(cs)[id].own + 1)]
    {
      if cs[id].usage == cs[id].quota {
        return false;
      }
      ghost var was := cs;
      cs := cs[id := cs[id].(usage := cs[id].usage + 1, own := cs[id].own + 1)];
      RecountKeeps(was, id, cs);
      return true;
    }

    /** The accounting of container_free, for a page charged to `id`. */
    method Uncharge(id: nat)
      requires Valid() && id < NUM_IDS && cs[id].used && cs[id].own > 0
      modifies this
      ensures Valid()
      ensures cs == old(cs)[id := old(cs)[id].(usage := old(cs)[id].usage - 1, own := old(cs)[id].own - 1)]
    {
      ghost var was := cs;
      if cs[id].usage > 0 {
        cs := cs[id := cs[id].(usage := cs[id].usage - 1, own := cs[id].own - 1)];
      }
      RecountKeeps(was, id, cs);
    }

    /** The refund in sys_exit and sys_kill, for any process sys_kill accepts: pid 0, and a process that has killed
        itself before, included. The books stay balanced exactly if this is the first end of a process other than
        the root, or there is nothing to take back. Then the clamp at zero is not taken. */
    method Refund(c: nat)
      requires Valid() && c < NUM_IDS && cs[c].used
      modifies this
      ensures old(cs)[c].parent < NUM_IDS && cs == RefundOf(old(cs), c) && TreeShaped(cs)
      ensures TakenBack(old(cs), cs, c, old(cs)[c].parent)
      ensures var p := old(cs)[c].parent;
              Valid() <==> (0 < c && old(cs)[c].live) || old(cs)[c].quota == 0 || old(cs)[p].usage == 0
      ensures var p := old(cs)[c].parent;
              0 < c && old(cs)[c].live ==> p != c && cs[p].usage + old(cs)[c].quota == old(cs)[p].usage
    {
      hide Balanced, TreeShaped;
      TableSize(cs);
      RefundExactly(cs, c);
      var p, quota := cs[c].parent, cs[c].quota;
      cs := cs[p := cs[p].(usage := Refunded(cs[p].usage, quota))];
      cs := cs[c := cs[c].(live := false)];
    }
  }

  lemma InitOk(pages: nat)
    requires pages < INT_MAX
    ensures TreeShaped(InitTable(pages)) && Balanced(InitTable(pages))
  {
    NothingPromised(InitTable(pages), NUM_IDS);
  }

  lemma Affordable(cs: seq<Container>, id: nat)
    requires TreeShaped(cs) && Balanced(cs) && id < NUM_IDS && cs[id].used
    ensures |cs| == NUM_IDS && cs[id].usage <= cs[id].quota < INT_MAX && cs[id].nchildren <= MAX_CHILDREN
  {
    assert Placed(cs, id);
  }

  lemma OverQuota(cs: seq<Container>)
    requires |cs| > 0 && cs[0].used && cs[0].usage > cs[0].quota
    ensures !Balanced(cs)
  {
  }

  /** Kern_main's two unguarded splits keep the books balanced exactly if there are pages enough for both quotas. */
  lemma BootExactly(pages: nat)
    requires pages < INT_MAX
    ensures TreeShaped(Booted(pages))
    ensures Balanced(Booted(pages)) <==> IDLE_QUOTA + SHELL_QUOTA <= pages
  {
    hide Balanced, TreeShaped;
    var init := InitTable(pages);
    InitOk(pages);
    SplitExactly(init, 0, IDLE_QUOTA);
    var idle := SplitOf(init, 0, IDLE_QUOTA);
    SplitShape(idle, 0, SHELL_QUOTA, 2, Booted(pages));
    if IDLE_QUOTA <= pages {
      SplitExactly(idle, 0, SHELL_QUOTA);
    } else {
      OverQuota(Booted(pages));
    }
  }

  /** SIGKILL to pid 0 right after boot: the root gets back its own quota, which it never gave away. */
  lemma KillRootUnbalances(pages: nat)
    requires IDLE_QUOTA + SHELL_QUOTA <= pages < INT_MAX
    ensures Balanced(Booted(pages)) && Booted(pages)[0].usage == IDLE_QUOTA + SHELL_QUOTA
    ensures Booted(pages)[0].parent == 0
    ensures RefundOf(Booted(pages), 0)[0].usage == 0 && !Balanced(RefundOf(Booted(pages), 0))
  {
    hide Balanced, TreeShaped;
    BootExactly(pages);
    RefundExactly(Booted(pages), 0);
  }

  lemma {:induction false} NothingPromised(cs: seq<Container>, n: nat)
    requires n <= |cs| && forall c: nat :: 0 < c < |cs| ==> !cs[c].used
    ensures forall id: nat :: Promised(cs, id, n) == 0
  {
    if n > 0 {
      NothingPromised(cs, n - 1);
    }
  }

  /** A live child's quota is part of what its parent has promised. */
  lemma {:induction false} PromiseCovers(cs: seq<Container>, id: nat, c: nat, n: nat)
    requires c < n <= |cs| && IsLiveChild(cs, id, c)
    ensures Promised(cs, id, n) >= cs[c].quota
  {
    if c < n - 1 {
      PromiseCovers(cs, id, c, n - 1);
    }
  }

  /** What a split does to every container's books. */
  lemma SplitPromised(cs: seq<Container>, id: nat, quota: nat, x: nat)
    requires TreeShaped(cs) && id < NUM_IDS && cs[id].used && x < NUM_IDS
    requires cs[id].nchildren < MAX_CHILDREN && ChildIndex(id, cs[id].nchildren) < NUM_IDS
    ensures Promised(SplitOf(cs, id, quota), x, NUM_IDS) ==
            if x == ChildIndex(id, cs[id].nchildren) then 0
            else Promised(cs, x, NUM_IDS) + if x == id then quota else 0
  {
    hide TreeShaped, Promised;
    TableSize(cs);
    var child, cs' := ChildIndex(id, cs[id].nchildren), SplitOf(cs, id, quota);
    ChildIndexInjective(id, cs[id].nchildren);
    SplitShape(cs, id, quota, child, cs');
    if x == id {
      PromisedChanged(cs, cs', id, NUM_IDS, child);
    } else if x == child {
      NoChildrenYet(cs', child, NUM_IDS);
    } else {
      PromisedKept(cs, cs', x, NUM_IDS);
    }
  }

  /** container_split keeps the books balanced exactly if the parent's quota covers the child's. */
  lemma SplitExactly(cs: seq<Container>, id: nat, quota: nat)
    requires TreeShaped(cs) && Balanced(cs) && id < NUM_IDS && cs[id].used && quota < U32
    requires cs[id].nchildren < MAX_CHILDREN && ChildIndex(id, cs[id].nchildren) < NUM_IDS
    ensures var child := ChildIndex(id, cs[id].nchildren);
            !cs[child].used && child != id && TreeShaped(SplitOf(cs, id, quota))
    ensures Balanced(SplitOf(cs, id, quota)) <==> cs[id].usage + quota <= cs[id].quota
  {
    hide TreeShaped, Promised;
    TableSize(cs);
    var child, cs' := ChildIndex(id, cs[id].nchildren), SplitOf(cs, id, quota);
    ChildIndexInjective(id, cs[id].nchildren);
    SplitShape(cs, id, quota, child, cs');
    forall x: nat | x < NUM_IDS
      ensures Promised(cs', x, NUM_IDS) ==
              if x == child then 0 else Promised(cs, x, NUM_IDS) + if x == id then quota else 0
    {
      SplitPromised(cs, id, quota, x);
    }
  }

  lemma SplitShape(cs: seq<Container>, id: nat, quota: nat, child: nat, cs': seq<Container>)
    requires TreeShaped(cs) && id < NUM_IDS && cs[id].used
    requires cs[id].nchildren < MAX_CHILDREN && child == ChildIndex(id, cs[id].nchildren) < NUM_IDS
    requires cs' == SplitOf(cs, id, quota)
    ensures !cs[child].used && child != id && child > 0 && TreeShaped(cs')
    ensures forall c: nat :: c < NUM_IDS ==> !IsLiveChild(cs', child, c)
  {
    hide ChildIndex;
    ChildIndexInjective(id, cs[id].nchildren);
    assert Placed(cs, child) && Placed(cs, id);
    forall c: nat | c < NUM_IDS ensures Placed(cs', c) && !IsLiveChild(cs', child, c) {
      assert Placed(cs, c);
    }
  }

  lemma {:induction false} NoChildrenYet(cs: seq<Container>, id: nat, n: nat)
    requires n <= |cs| && forall c: nat :: c < |cs| ==> !IsLiveChild(cs, id, c)
    ensures Promised(cs, id, n) == 0
  {
    if n > 0 {
      NoChildrenYet(cs, id, n - 1);
    }
  }

  lemma RecountKeeps(cs: seq<Container>, id: nat, cs': seq<Container>)
    requires TreeShaped(cs) && Balanced(cs) && id < NUM_IDS && cs[id].used && |cs'| == NUM_IDS
    requires cs' == cs[id := cs[id].(usage := cs'[id].usage, own := cs'[id].own)]
    requires cs'[id].usage as int - cs[id].usage == cs'[id].own as int - cs[id].own && cs'[id].usage <= cs[id].quota
    ensures TreeShaped(cs') && Balanced(cs')
  {
    forall x: nat | x < NUM_IDS ensures Placed(cs', x) && Promised(cs', x, NUM_IDS) == Promised(cs, x, NUM_IDS) {
      assert Placed(cs, x);
      PromisedKept(cs, cs', x, NUM_IDS);
    }
  }

  /** What a refund does to the promises: those of the parent lose the child's quota, if it was still live. */
  lemma RefundPromised(cs: seq<Container>, c: nat, x: nat)
    requires TreeShaped(cs) && c < NUM_IDS && cs[c].used && x < NUM_IDS
    ensures cs[c].parent < NUM_IDS
    ensures Promised(RefundOf(cs, c), x, NUM_IDS)
            + (if x == cs[c].parent && 0 < c && cs[c].live then cs[c].quota else 0) == Promised(cs, x, NUM_IDS)
  {
    hide TreeShaped, Promised;
    RefundShape(cs, c);
    if x == cs[c].parent && 0 < c && cs[c].live {
      PromisedChanged(RefundOf(cs, c), cs, x, NUM_IDS, c);
    } else {
      PromisedKept(cs, RefundOf(cs, c), x, NUM_IDS);
    }
  }

  /** Exactly when a refund keeps the books balanced. */
  lemma RefundExactly(cs: seq<Container>, c: nat)
    requires TreeShaped(cs) && Balanced(cs) && c < NUM_IDS && cs[c].used
    ensures cs[c].parent < NUM_IDS && TreeShaped(RefundOf(cs, c))
    ensures var p := cs[c].parent;
            Balanced(RefundOf(cs, c)) <==> (0 < c && cs[c].live) || cs[c].quota == 0 || cs[p].usage == 0
    ensures 0 < c && cs[c].live ==> cs[c].parent != c && cs[cs[c].parent].usage >= cs[c].quota
  {
    hide TreeShaped, Promised;
    RefundShape(cs, c);
    forall x: nat | x < NUM_IDS
      ensures Promised(RefundOf(cs, c), x, NUM_IDS)
              + (if x == cs[c].parent && 0 < c && cs[c].live then cs[c].quota else 0) == Promised(cs, x, NUM_IDS)
    {
      RefundPromised(cs, c, x);
    }
  }

  lemma RefundShape(cs: seq<Container>, c: nat)
    requires TreeShaped(cs) && c < NUM_IDS && cs[c].used
    ensures |cs| == NUM_IDS && cs[c].parent < NUM_IDS && (0 < c ==> cs[c].parent != c) && cs[cs[c].parent].used
    ensures c == 0 ==> cs[c].parent == 0
    ensures TreeShaped(RefundOf(cs, c))
  {
    assert Placed(cs, c);
    forall x: nat | x < NUM_IDS ensures Placed(RefundOf(cs, c), x) {
      assert Placed(cs, x);
    }
  }
}
