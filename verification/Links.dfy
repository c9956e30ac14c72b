/** Directories and link counts: create, link and unlink on the tree of inodes. */
module Links {
  import opened Dirents
  import opened Params

  const NINODES: nat := 200

  datatype Kind = Free | File | Dir

  /** An inode, with its directory entries read out of its content. */
  datatype Node = Node(kind: Kind, nlink: nat, entries: seq<Dirent>)

  predicate IsLinkedDir(nodes: seq<Node>, d: nat) {
    0 < d < |nodes| && nodes[d].kind.Dir? && nodes[d].nlink > 0
  }

  /** Entry `k` of linked directory `d` is one that counts for inode `i`. */
  predicate Counts(nodes: seq<Node>, d: nat, k: nat, i: nat) {
    IsLinkedDir(nodes, d) && k < |nodes[d].entries| && nodes[d].entries[k].inum == i && nodes[d].entries[k].name != "."
  }

  /** All entries other than "." in linked directories that name inode `i`. */
  ghost function Names(nodes: seq<Node>, i: nat): (s: set<(nat, nat)>) {
    set d: nat, k: nat | d < |nodes| && k < |nodes[d].entries| && Counts(nodes, d, k, i) :: (d, k)
  }

  /** The names of an inode depend on the entries of the linked directories only. */
  lemma SameNames(nodes: seq<Node>, nodes': seq<Node>, i: nat)
    requires |nodes'| == |nodes| && forall d: nat :: d < |nodes| ==> IsLinkedDir(nodes', d) == IsLinkedDir(nodes, d)
    requires forall d: nat :: d < |nodes| && IsLinkedDir(nodes, d) ==> nodes'[d].entries == nodes[d].entries
    ensures Names(nodes', i) == Names(nodes, i)
  {
    forall d: nat, k: nat ensures Counts(nodes', d, k, i) <==> Counts(nodes, d, k, i) {
      assert d < |nodes| ==> IsLinkedDir(nodes', d) == IsLinkedDir(nodes, d);
    }
  }

  /** Every link count is the number of entries that name the inode. */
  ghost predicate Conserved(nodes: seq<Node>) {
    forall i :: 0 < i < |nodes| ==> nodes[i].nlink == |Names(nodes, i)|
  }

  /** No directory has two entries with the same name. */
  ghost predicate NoDuplicates(nodes: seq<Node>) {
    forall d, j, k :: 0 < d < |nodes| && 0 <= j < k < |nodes[d].entries| && nodes[d].entries[j].inum != 0 &&
                      nodes[d].entries[k].inum != 0 ==>
      nodes[d].entries[j].name != nodes[d].entries[k].name
  }

  /** A node by itself: a free inode is empty, a directory starts with "." and ".." and has no more entries once it is
      no longer linked. */
  predicate NodeOk(node: Node, i: nat) {
    match node.kind
    case Free => node.nlink == 0 && node.entries == []
    case File => node.entries == []
    case Dir =>
      && |node.entries| >= 2 && node.entries[0] == Dirent(i, ".") && node.entries[1].name == ".."
      && 0 < node.entries[1].inum < NINODES && (node.nlink == 0 ==> IsEmpty(node.entries))
  }

  /** isdirempty: nothing beyond the first two entries. */
  predicate IsEmpty(entries: seq<Dirent>) {
    forall k :: 2 <= k < |entries| ==> entries[k].inum == 0
  }

  /** Entry `k >= 2` of linked directory `d`: it names an existing inode, and if that is a directory then one whose
      ".." leads back to `d` and whose only other name is this one. `home` records where that name is. */
  ghost predicate EntryOk(nodes: seq<Node>, home: map<nat, nat>, d: nat, k: nat)
    requires d < |nodes| && k < |nodes[d].entries|
  {
    var i := nodes[d].entries[k].inum;
    i != 0 ==> i < |nodes| && i != ROOTINO && !nodes[i].kind.Free? &&
               (nodes[i].kind.Dir? ==>
                 |nodes[i].entries| >= 2 && nodes[i].entries[1].inum == d && i in home && home[i] == k)
  }

  /** The parent of linked directory `c` is linked and has an entry for it. */
  ghost predicate ParentOk(nodes: seq<Node>, home: map<nat, nat>, c: nat)
    requires c < |nodes|
  {
    && |nodes[c].entries| >= 2 && c in home
    && var p := nodes[c].entries[1].inum;
       IsLinkedDir(nodes, p) && 2 <= home[c] < |nodes[p].entries| && nodes[p].entries[home[c]].inum == c
  }

  ghost predicate Tree(nodes: seq<Node>, home: map<nat, nat>) {
    && |nodes| == NINODES && IsLinkedDir(nodes, ROOTINO) && |nodes[ROOTINO].entries| >= 2
    && nodes[ROOTINO].entries[1].inum == ROOTINO
    && (forall i :: 0 < i < |nodes| ==> NodeOk(nodes[i], i))
    && (forall d: nat, k: nat :: IsLinkedDir(nodes, d) && 2 <= k < |nodes[d].entries| ==> EntryOk(nodes, home, d, k))
    && (forall c: nat :: IsLinkedDir(nodes, c) && c != ROOTINO ==> ParentOk(nodes, home, c))
  }

  ghost predicate Ok(nodes: seq<Node>, home: map<nat, nat>) {
    Tree(nodes, home) && Conserved(nodes) && NoDuplicates(nodes)
  }

  /** One entry of a linked directory is written: the counts of the old and the new target change by one. */
  ghost predicate EntryWritten(nodes: seq<Node>, nodes': seq<Node>, d: nat, k: nat, e: Dirent) {
    && |nodes'| == |nodes| && IsLinkedDir(nodes, d) && IsLinkedDir(nodes', d) && k <= |nodes[d].entries|
    && nodes'[d].entries == Put(nodes[d].entries, k, e)
    && (forall x :: 0 <= x < |nodes| && x != d ==> nodes'[x].entries == nodes[x].entries)
    && (forall x: nat :: x < |nodes| ==> IsLinkedDir(nodes', x) == IsLinkedDir(nodes, x))
  }

  lemma LinkWritten(nodes: seq<Node>, nodes': seq<Node>, d: nat, k: nat, e: Dirent)
    requires EntryWritten(nodes, nodes', d, k, e) && e.inum != 0 && e.name != "."
    requires (k < |nodes[d].entries| ==> nodes[d].entries[k].inum == 0)
    ensures |Names(nodes', e.inum)| == |Names(nodes, e.inum)| + 1
    ensures forall i: nat :: i != 0 && i != e.inum ==> |Names(nodes', i)| == |Names(nodes, i)|
  {
    assert Names(nodes', e.inum) == Names(nodes, e.inum) + {(d, k)};
    forall i: nat | i != 0 && i != e.inum ensures |Names(nodes', i)| == |Names(nodes, i)| {
      assert Names(nodes', i) == Names(nodes, i);
    }
  }

  lemma LinkCleared(nodes: seq<Node>, nodes': seq<Node>, d: nat, k: nat, e: Dirent)
    requires EntryWritten(nodes, nodes', d, k, e) && e.inum == 0 && k < |nodes[d].entries|
    requires nodes[d].entries[k].inum != 0 && nodes[d].entries[k].name != "."
    ensures |Names(nodes', nodes[d].entries[k].inum)| == |Names(nodes, nodes[d].entries[k].inum)| - 1
    ensures forall i: nat :: i != 0 && i != nodes[d].entries[k].inum ==> |Names(nodes', i)| == |Names(nodes, i)|
  {
    var was := nodes[d].entries[k].inum;
    assert (d, k) in Names(nodes, was);
    assert Names(nodes', was) == Names(nodes, was) - {(d, k)};
    forall i: nat | i != 0 && i != was ensures |Names(nodes', i)| == |Names(nodes, i)| {
      assert Names(nodes', i) == Names(nodes, i);
    }
  }

  /** An inode that was no linked directory becomes one with the given parent, or the other way round. */
  ghost predicate DirChanged(nodes: seq<Node>, nodes': seq<Node>, ip: nat, dp: nat) {
    && |nodes'| == |nodes| && !IsLinkedDir(nodes, ip) && IsLinkedDir(nodes', ip) && ip < |nodes|
    && |nodes'[ip].entries| >= 2 && nodes'[ip].entries[0].name == "." && nodes'[ip].entries[1] == Dirent(dp, "..")
    && (forall k :: 2 <= k < |nodes'[ip].entries| ==> nodes'[ip].entries[k].inum == 0)
    && (forall x :: 0 <= x < |nodes| && x != ip ==> nodes'[x].entries == nodes[x].entries)
    && (forall x: nat :: x < |nodes| && x != ip ==> IsLinkedDir(nodes', x) == IsLinkedDir(nodes, x))
  }

  lemma DirCounted(nodes: seq<Node>, nodes': seq<Node>, ip: nat, dp: nat)
    requires DirChanged(nodes, nodes', ip, dp) && dp != 0
    ensures |Names(nodes', dp)| == |Names(nodes, dp)| + 1
    ensures forall i: nat :: i != 0 && i != dp ==> |Names(nodes', i)| == |Names(nodes, i)|
  {
    assert Names(nodes', dp) == Names(nodes, dp) + {(ip, 1)};
    forall i: nat | i != 0 && i != dp ensures |Names(nodes', i)| == |Names(nodes, i)| {
      assert Names(nodes', i) == Names(nodes, i);
    }
  }

  /** Names that differ from "." and ".." can be added where they are not yet. */
  lemma NewNameNotDot(nodes: seq<Node>, home: map<nat, nat>, dp: nat, name: string)
    requires Tree(nodes, home) && IsLinkedDir(nodes, dp) && !HasName(nodes[dp].entries, name)
    ensures name != "." && name != ".." && |nodes[dp].entries| >= 2
  {
  }

  /** create, for a file. */
  function WithFile(nodes: seq<Node>, dp: nat, name: string, k: nat, ip: nat): (r: seq<Node>)
    requires dp < |nodes| && ip < |nodes| && k <= |nodes[dp].entries|
  {
    nodes[ip := Node(File, 1, [])][dp := nodes[dp].(entries := Put(nodes[dp].entries, k, Dirent(ip, name)))]
  }

  lemma FileMade(nodes: seq<Node>, home: map<nat, nat>, dp: nat, name: string, k: nat, ip: nat)
    requires Ok(nodes, home) && IsLinkedDir(nodes, dp) && !HasName(nodes[dp].entries, name)
    requires IsSlot(nodes[dp].entries, k)
    requires 0 < ip < NINODES && nodes[ip].kind.Free?
    ensures Ok(WithFile(nodes, dp, name, k, ip), home)
  {
    hide Tree, Conserved, NoDuplicates, Put;
    NodesOk(nodes, home);
    FileShape(nodes, dp, name, k, ip);
    LinkAdded(nodes, home, WithFile(nodes, dp, name, k, ip), dp, k, Dirent(ip, name));
  }

  lemma NodesOk(nodes: seq<Node>, home: map<nat, nat>)
    requires Tree(nodes, home)
    ensures |nodes| == NINODES && forall x :: 0 < x < NINODES ==> NodeOk(nodes[x], x)
  {
  }

  lemma FileShape(nodes: seq<Node>, dp: nat, name: string, k: nat, ip: nat)
    requires |nodes| == NINODES && (forall x :: 0 < x < NINODES ==> NodeOk(nodes[x], x)) && IsLinkedDir(nodes, dp)
    requires IsSlot(nodes[dp].entries, k)
    requires 0 < ip < NINODES && nodes[ip].kind.Free?
    ensures var nodes' := WithFile(nodes, dp, name, k, ip);
            && EntryWritten(nodes, nodes', dp, k, Dirent(ip, name)) && nodes'[ip].kind.File?
            && (forall x :: 0 < x < NINODES ==> NodeOk(nodes'[x], x))
            && (forall x :: 0 < x < NINODES ==>
                 nodes'[x].kind.Dir? == nodes[x].kind.Dir? && (nodes'[x].kind.Free? ==> nodes[x].kind.Free?))
            && (forall x :: 0 < x < NINODES ==> nodes'[x].nlink == nodes[x].nlink + if x == ip then 1 else 0)
  {
  }

  /** An entry for a file is written into a linked directory, and the file's link count is raised. */
  lemma LinkAdded(nodes: seq<Node>, home: map<nat, nat>, nodes': seq<Node>, dp: nat, k: nat, e: Dirent)
    requires Ok(nodes, home) && EntryWritten(nodes, nodes', dp, k, e) && IsSlot(nodes[dp].entries, k)
    requires !HasName(nodes[dp].entries, e.name)
    requires 0 < e.inum < NINODES && nodes'[e.inum].kind.File?
    requires forall x :: 0 < x < NINODES ==> NodeOk(nodes'[x], x)
    requires forall x :: 0 < x < NINODES ==>
               nodes'[x].kind.Dir? == nodes[x].kind.Dir? && (nodes'[x].kind.Free? ==> nodes[x].kind.Free?)
    requires forall x :: 0 < x < NINODES ==> nodes'[x].nlink == nodes[x].nlink + if x == e.inum then 1 else 0
    ensures Ok(nodes', home)
  {
    hide Names, EntryOk, ParentOk;
    NewNameNotDot(nodes, home, dp, e.name);
    LinkWritten(nodes, nodes', dp, k, e);
    NamesStayDistinct(nodes, nodes', dp, k, e);
    TreeLinked(nodes, home, nodes', dp, k, e);
  }

  /** The tree after an entry for a file is written. */
  lemma TreeLinked(nodes: seq<Node>, home: map<nat, nat>, nodes': seq<Node>, dp: nat, k: nat, e: Dirent)
    requires Tree(nodes, home) && EntryWritten(nodes, nodes', dp, k, e) && IsSlot(nodes[dp].entries, k)
    requires 0 < e.inum < NINODES && e.inum != ROOTINO && nodes'[e.inum].kind.File?
    requires forall x :: 0 < x < NINODES ==> NodeOk(nodes'[x], x)
    requires forall x :: 0 < x < NINODES ==>
               nodes'[x].kind.Dir? == nodes[x].kind.Dir? && (nodes'[x].kind.Free? ==> nodes[x].kind.Free?)
    ensures Tree(nodes', home)
  {
    hide EntryOk, ParentOk, NodeOk;
    SlotBeyondDots(nodes[dp], dp, k);
    forall d: nat, j: nat | IsLinkedDir(nodes', d) && 2 <= j < |nodes'[d].entries| ensures EntryOk(nodes', home, d, j) {
      if (d, j) == (dp, k) {
        FileEntry(nodes', home, dp, k);
      } else {
        EntryKept(nodes, home, nodes', home, dp, k, e, d, j);
      }
    }
    forall c: nat | IsLinkedDir(nodes', c) && c != ROOTINO ensures ParentOk(nodes', home, c) {
      assert IsLinkedDir(nodes, c);
      ParentIs(nodes, home, c);
      ParentKept(nodes, home, nodes', home, dp, k, e, c);
    }
  }

  /** The free entry of a linked directory is not one of the first two. */
  lemma SlotBeyondDots(node: Node, d: nat, k: nat)
    requires NodeOk(node, d) && node.kind.Dir? && IsSlot(node.entries, k) && d > 0
    ensures 2 <= k
  {
  }

  lemma FileEntry(nodes: seq<Node>, home: map<nat, nat>, d: nat, k: nat)
    requires d < |nodes| && k < |nodes[d].entries|
    requires var i := nodes[d].entries[k].inum; 0 < i < |nodes| && i != ROOTINO && nodes[i].kind.File?
    ensures EntryOk(nodes, home, d, k)
  {
  }

  /** Entry `k` of `dp` is written; another entry keeps its meaning. */
  lemma EntryKept(nodes: seq<Node>, home: map<nat, nat>, nodes': seq<Node>, home': map<nat, nat>, dp: nat, k: nat,
                  e: Dirent, d: nat, j: nat)
    requires dp < |nodes| == |nodes'| && 2 <= k <= |nodes[dp].entries|
    requires nodes'[dp].entries == Put(nodes[dp].entries, k, e)
    requires (forall i :: i in home ==> i in home' && (home'[i] == home[i] || (i < |nodes| && nodes[i].kind.Free?)))
    requires forall x: nat :: 0 < x < |nodes| && !nodes[x].kind.Free? ==>
               && nodes'[x].kind == nodes[x].kind && |nodes'[x].entries| >= |nodes[x].entries|
               && (|nodes[x].entries| >= 2 ==> nodes'[x].entries[1] == nodes[x].entries[1])
    requires d < |nodes| && (d, j) != (dp, k) && j < |nodes'[d].entries|
    requires (d != dp ==> nodes'[d].entries == nodes[d].entries)
    requires j < |nodes[d].entries| && EntryOk(nodes, home, d, j)
    ensures EntryOk(nodes', home', d, j)
  {
  }

  /** And so does the parent of a directory. */
  lemma ParentKept(nodes: seq<Node>, home: map<nat, nat>, nodes': seq<Node>, home': map<nat, nat>, dp: nat, k: nat,
                   e: Dirent, c: nat)
    requires dp < |nodes| == |nodes'| && IsSlot(nodes[dp].entries, k) && 2 <= k
    requires nodes'[dp].entries == Put(nodes[dp].entries, k, e)
    requires c in home ==> c in home' && home'[c] == home[c]
    requires 0 < c < |nodes| && ParentOk(nodes, home, c) && |nodes'[c].entries| >= 2
    requires nodes'[c].entries[1] == nodes[c].entries[1]
    requires forall x: nat :: 0 < x < |nodes| && IsLinkedDir(nodes, x) ==>
               IsLinkedDir(nodes', x) && (x != dp ==> nodes'[x].entries == nodes[x].entries)
    ensures ParentOk(nodes', home', c)
  {
  }

  lemma NamesStayDistinct(nodes: seq<Node>, nodes': seq<Node>, d: nat, k: nat, e: Dirent)
    requires NoDuplicates(nodes) && EntryWritten(nodes, nodes', d, k, e) && !HasName(nodes[d].entries, e.name)
    ensures NoDuplicates(nodes')
  {
  }

  /** sys_link, once the new name is entered. */
  function WithLink(nodes: seq<Node>, dp: nat, name: string, k: nat, ip: nat): (r: seq<Node>)
    requires dp < |nodes| && ip < |nodes| && k <= |nodes[dp].entries|
  {
    nodes[ip := nodes[ip].(nlink := nodes[ip].nlink + 1)][dp := nodes[dp].(entries := Put(nodes[dp].entries, k,
      Dirent(ip, name)))]
  }

  lemma LinkMade(nodes: seq<Node>, home: map<nat, nat>, dp: nat, name: string, k: nat, ip: nat)
    requires Ok(nodes, home) && IsLinkedDir(nodes, dp) && !HasName(nodes[dp].entries, name)
    requires IsSlot(nodes[dp].entries, k)
    requires 0 < ip < NINODES && nodes[ip].kind.File?
    ensures Ok(WithLink(nodes, dp, name, k, ip), home)
  {
    hide Tree, Conserved, NoDuplicates, Put;
    NodesOk(nodes, home);
    LinkShape(nodes, dp, name, k, ip);
    LinkAdded(nodes, home, WithLink(nodes, dp, name, k, ip), dp, k, Dirent(ip, name));
  }

  lemma LinkShape(nodes: seq<Node>, dp: nat, name: string, k: nat, ip: nat)
    requires |nodes| == NINODES && (forall x :: 0 < x < NINODES ==> NodeOk(nodes[x], x)) && IsLinkedDir(nodes, dp)
    requires IsSlot(nodes[dp].entries, k)
    requires 0 < ip < NINODES && nodes[ip].kind.File?
    ensures var nodes' := WithLink(nodes, dp, name, k, ip);
            && EntryWritten(nodes, nodes', dp, k, Dirent(ip, name)) && nodes'[ip].kind.File?
            && (forall x :: 0 < x < NINODES ==> NodeOk(nodes'[x], x))
            && (forall x :: 0 < x < NINODES ==> nodes'[x].kind == nodes[x].kind)
            && (forall x :: 0 < x < NINODES ==> nodes'[x].nlink == nodes[x].nlink + if x == ip then 1 else 0)
  {
  }

  /** create, for a directory: the inode with its first two entries, and then its name in the parent. */
  function WithNewDir(nodes: seq<Node>, dp: nat, ip: nat): (r: seq<Node>)
    requires ip < |nodes|
  {
    nodes[ip := Node(Dir, 1, [Dirent(ip, "."), Dirent(dp, "..")])]
  }

  function WithDirName(nodes: seq<Node>, dp: nat, name: string, k: nat, ip: nat): (r: seq<Node>)
    requires dp < |nodes| && k <= |nodes[dp].entries|
  {
    nodes[dp := nodes[dp].(nlink := nodes[dp].nlink + 1, entries := Put(nodes[dp].entries, k, Dirent(ip, name)))]
  }

  lemma DirMade(nodes: seq<Node>, home: map<nat, nat>, dp: nat, name: string, k: nat, ip: nat)
    requires Ok(nodes, home) && IsLinkedDir(nodes, dp) && !HasName(nodes[dp].entries, name)
    requires IsSlot(nodes[dp].entries, k)
    requires 0 < ip < NINODES && nodes[ip].kind.Free?
    ensures ip != dp && k <= |WithNewDir(nodes, dp, ip)[dp].entries|
    ensures Ok(WithDirName(WithNewDir(nodes, dp, ip), dp, name, k, ip), home[ip := k])
  {
    hide Names, EntryOk, ParentOk;
    var nodes1 := WithNewDir(nodes, dp, ip);
    var nodes' := WithDirName(nodes1, dp, name, k, ip);
    NewNameNotDot(nodes, home, dp, name);
    assert NodeOk(nodes[ip], ip);
    DirShape(nodes, dp, name, k, ip);
    DirCounted(nodes, nodes1, ip, dp);
    LinkWritten(nodes1, nodes', dp, k, Dirent(ip, name));
    NamesStayDistinct(nodes1, nodes', dp, k, Dirent(ip, name));
    TreeDir(nodes, home, dp, name, k, ip);
  }

  lemma DirShape(nodes: seq<Node>, dp: nat, name: string, k: nat, ip: nat)
    requires |nodes| == NINODES && IsLinkedDir(nodes, dp) && IsSlot(nodes[dp].entries, k) && 0 < ip < NINODES
    requires nodes[ip].kind.Free? && NoDuplicates(nodes)
    ensures var nodes1 := WithNewDir(nodes, dp, ip);
            var nodes' := WithDirName(nodes1, dp, name, k, ip);
            && DirChanged(nodes, nodes1, ip, dp) && EntryWritten(nodes1, nodes', dp, k, Dirent(ip, name))
            && NoDuplicates(nodes1)
            && (forall x :: 0 < x < NINODES ==> nodes'[x].nlink == nodes[x].nlink + (if x == dp then 1 else 0) +
                                                (if x == ip then 1 - nodes[ip].nlink else 0))
  {
  }

  lemma TreeDir(nodes: seq<Node>, home: map<nat, nat>, dp: nat, name: string, k: nat, ip: nat)
    requires Tree(nodes, home) && IsLinkedDir(nodes, dp) && IsSlot(nodes[dp].entries, k) && 0 < ip < NINODES
    requires nodes[ip].kind.Free?
    ensures Tree(WithDirName(WithNewDir(nodes, dp, ip), dp, name, k, ip), home[ip := k])
  {
    hide Tree;
    NodesOk(nodes, home);
    assert NodeOk(nodes[dp], dp) && 2 <= k;
    DirNodesOk(nodes, dp, name, k, ip);
    hide Put;
    var nodes1 := WithNewDir(nodes, dp, ip);
    assert nodes1[dp] == nodes[dp];
    TreeGrown(nodes, home, WithDirName(nodes1, dp, name, k, ip), dp, k, ip, name);
  }

  /** The tree with one more, empty, directory. */
  lemma TreeGrown(nodes: seq<Node>, home: map<nat, nat>, nodes': seq<Node>, dp: nat, k: nat, ip: nat, name: string)
    requires Tree(nodes, home) && IsLinkedDir(nodes, dp) && IsSlot(nodes[dp].entries, k) && 2 <= k && 0 < ip < NINODES
    requires nodes[ip].kind.Free?
    requires |nodes'| == |nodes| && (forall x :: 0 < x < NINODES ==> NodeOk(nodes'[x], x))
    requires nodes'[dp].entries == Put(nodes[dp].entries, k, Dirent(ip, name))
    requires nodes'[ip].entries == [Dirent(ip, "."), Dirent(dp, "..")] && nodes'[ip].kind.Dir? && nodes'[ip].nlink == 1
    requires forall x: nat :: 0 < x < NINODES && x != ip ==>
               nodes'[x].kind == nodes[x].kind && (x != dp ==> nodes'[x].entries == nodes[x].entries)
    requires forall x: nat :: 0 < x < NINODES && x != ip ==> IsLinkedDir(nodes', x) == IsLinkedDir(nodes, x)
    ensures Tree(nodes', home[ip := k])
  {
    hide EntryOk, ParentOk, NodeOk;
    var home', e := home[ip := k], Dirent(ip, name);
    forall d: nat, j: nat | IsLinkedDir(nodes', d) && 2 <= j < |nodes'[d].entries|
      ensures EntryOk(nodes', home', d, j)
    {
      if (d, j) == (dp, k) {
        NewDirEntry(nodes', home', dp, k);
      } else {
        EntryKept(nodes, home, nodes', home', dp, k, e, d, j);
      }
    }
    forall c: nat | IsLinkedDir(nodes', c) && c != ROOTINO ensures ParentOk(nodes', home', c) {
      if c == ip {
        NewDirParent(nodes', home', dp, k, ip);
      } else {
        assert IsLinkedDir(nodes, c);
        ParentIs(nodes, home, c);
        ParentKept(nodes, home, nodes', home', dp, k, e, c);
      }
    }
  }

  lemma NewDirEntry(nodes: seq<Node>, home: map<nat, nat>, d: nat, k: nat)
    requires d < |nodes| && k < |nodes[d].entries|
    requires var i := nodes[d].entries[k].inum;
             && 0 < i < |nodes| && i != ROOTINO && nodes[i].kind.Dir? && |nodes[i].entries| >= 2
             && nodes[i].entries[1].inum == d
             && i in home && home[i] == k
    ensures EntryOk(nodes, home, d, k)
  {
  }

  lemma NewDirParent(nodes: seq<Node>, home: map<nat, nat>, dp: nat, k: nat, ip: nat)
    requires ip < |nodes| && |nodes[ip].entries| >= 2 && nodes[ip].entries[1].inum == dp && ip in home && home[ip] == k
    requires IsLinkedDir(nodes, dp) && 2 <= k < |nodes[dp].entries| && nodes[dp].entries[k].inum == ip
    ensures ParentOk(nodes, home, ip)
  {
  }

  lemma DirNodesOk(nodes: seq<Node>, dp: nat, name: string, k: nat, ip: nat)
    requires |nodes| == NINODES && (forall x :: 0 < x < NINODES ==> NodeOk(nodes[x], x))
    requires IsLinkedDir(nodes, dp) && IsSlot(nodes[dp].entries, k) && 0 < ip < NINODES && nodes[ip].kind.Free?
    ensures var nodes' := WithDirName(WithNewDir(nodes, dp, ip), dp, name, k, ip);
            forall x :: 0 < x < NINODES ==> NodeOk(nodes'[x], x)
  {
  }

  /** Entry `k` of `dp` is cleared. */
  function WithoutName(nodes: seq<Node>, dp: nat, k: nat): (r: seq<Node>)
    requires dp < |nodes| && k < |nodes[dp].entries|
  {
    nodes[dp := nodes[dp].(entries := nodes[dp].entries[k := Dirent(0, "")])]
  }

  /** One link less. */
  function Fewer(nodes: seq<Node>, i: nat): (r: seq<Node>)
    requires i < |nodes| && nodes[i].nlink > 0
  {
    nodes[i := nodes[i].(nlink := nodes[i].nlink - 1)]
  }

  /** An entry that can be unlinked: not one of the first two, and in use. */
  ghost predicate Removable(nodes: seq<Node>, home: map<nat, nat>, dp: nat, k: nat) {
    Ok(nodes, home) && IsLinkedDir(nodes, dp) && 2 <= k < |nodes[dp].entries| && nodes[dp].entries[k].inum != 0
  }

  lemma RemovableTarget(nodes: seq<Node>, home: map<nat, nat>, dp: nat, k: nat)
    requires Removable(nodes, home, dp, k)
    ensures var ip := nodes[dp].entries[k].inum;
            && 0 < ip < NINODES && ip != ROOTINO && !nodes[ip].kind.Free? && nodes[dp].entries[k].name != "."
            && nodes[ip].nlink > 0 && (dp, k) in Names(nodes, ip)
            && (nodes[ip].kind.Dir? ==> |nodes[ip].entries| >= 2 && nodes[ip].entries[1] == Dirent(dp, "..") &&
                                        nodes[ip].entries[0].name == ".")
  {
    hide Tree, NoDuplicates, Conserved, Names;
    TargetExists(nodes, home, dp, k);
    NamedIsLinked(nodes, dp, k, nodes[dp].entries[k].inum);
  }

  lemma NamedIsLinked(nodes: seq<Node>, d: nat, k: nat, i: nat)
    requires Conserved(nodes) && 0 < i < |nodes| && Counts(nodes, d, k, i)
    ensures (d, k) in Names(nodes, i) && nodes[i].nlink > 0
  {
  }

  lemma TargetExists(nodes: seq<Node>, home: map<nat, nat>, dp: nat, k: nat)
    requires Tree(nodes, home) && NoDuplicates(nodes) && IsLinkedDir(nodes, dp) && 2 <= k < |nodes[dp].entries|
    requires nodes[dp].entries[k].inum != 0
    ensures var ip := nodes[dp].entries[k].inum;
            && 0 < ip < NINODES && ip != ROOTINO && !nodes[ip].kind.Free? && nodes[dp].entries[k].name != "."
            && |nodes| == NINODES
            && (nodes[ip].kind.Dir? ==> |nodes[ip].entries| >= 2 && nodes[ip].entries[1] == Dirent(dp, "..") &&
                                        nodes[ip].entries[0].name == ".")
  {
    assert NodeOk(nodes[dp], dp) && EntryOk(nodes, home, dp, k);
    var ip := nodes[dp].entries[k].inum;
    assert NodeOk(nodes[ip], ip);
    assert nodes[dp].entries[0].name != nodes[dp].entries[k].name;
  }

  /** sys_unlink of entry `k` of `dp`: also the parent loses a link if the entry names a directory. */
  function Unlinked(nodes: seq<Node>, dp: nat, k: nat): (r: seq<Node>)
    requires dp < |nodes| && k < |nodes[dp].entries| && nodes[dp].entries[k].inum < |nodes|
    requires var ip := nodes[dp].entries[k].inum;
             nodes[ip].nlink > 0 && (nodes[ip].kind.Dir? ==> nodes[dp].nlink > 0 && ip != dp)
  {
    var ip := nodes[dp].entries[k].inum;
    if nodes[ip].kind.Dir? then Fewer(Fewer(WithoutName(nodes, dp, k), dp), ip)
      else Fewer(WithoutName(nodes, dp, k), ip)
  }

  /** The tree is in order after entry `k` of `dp` is unlinked. */
  ghost predicate UnlinkedOk(nodes: seq<Node>, home: map<nat, nat>, dp: nat, k: nat) {
    && dp < |nodes| && k < |nodes[dp].entries| && nodes[dp].entries[k].inum < |nodes|
    && var ip := nodes[dp].entries[k].inum;
       nodes[ip].nlink > 0 && (nodes[ip].kind.Dir? ==> nodes[dp].nlink > 0 && ip != dp) &&
         Ok(Unlinked(nodes, dp, k), home)
  }

  /** unlink of a file. */
  lemma FileUnlinked(nodes: seq<Node>, home: map<nat, nat>, dp: nat, k: nat)
    requires Removable(nodes, home, dp, k)
    requires var ip := nodes[dp].entries[k].inum; ip < |nodes| && nodes[ip].kind.File?
    ensures UnlinkedOk(nodes, home, dp, k)
  {
    hide Tree, NoDuplicates, Conserved, Names;
    NodesOk(nodes, home);
    RemovableTarget(nodes, home, dp, k);
    var nodes' := Fewer(WithoutName(nodes, dp, k), nodes[dp].entries[k].inum);
    ClearedShape(nodes, dp, k);
    ClearedConserved(nodes, nodes', dp, k);
    FewerNames(nodes, nodes', dp, k);
    TreeCleared(nodes, home, nodes', dp, k);
  }

  lemma ClearedShape(nodes: seq<Node>, dp: nat, k: nat)
    requires |nodes| == NINODES && (forall x :: 0 < x < NINODES ==> NodeOk(nodes[x], x)) && IsLinkedDir(nodes, dp)
    requires k < |nodes[dp].entries|
    requires var ip := nodes[dp].entries[k].inum; 0 < ip < NINODES && nodes[ip].kind.File? && nodes[ip].nlink > 0
    ensures var nodes' := Fewer(WithoutName(nodes, dp, k), nodes[dp].entries[k].inum);
            && EntryWritten(nodes, nodes', dp, k, Dirent(0, ""))
            && (forall x :: 0 < x < NINODES ==>
                 nodes'[x].kind == nodes[x].kind && (nodes[x].kind.Free? ==> nodes'[x].nlink == 0))
            && (forall x :: 0 < x < NINODES ==>
                 nodes'[x].nlink == nodes[x].nlink - if x == nodes[dp].entries[k].inum then 1 else 0)
  {
  }

  lemma ClearedConserved(nodes: seq<Node>, nodes': seq<Node>, dp: nat, k: nat)
    requires Conserved(nodes) && EntryWritten(nodes, nodes', dp, k, Dirent(0, "")) && k < |nodes[dp].entries|
    requires |nodes| == NINODES
    requires nodes[dp].entries[k].inum != 0 && nodes[dp].entries[k].name != "."
    requires forall x :: 0 < x < NINODES ==>
               nodes'[x].nlink == nodes[x].nlink - if x == nodes[dp].entries[k].inum then 1 else 0
    ensures Conserved(nodes')
  {
    hide Names;
    LinkCleared(nodes, nodes', dp, k, Dirent(0, ""));
  }

  lemma FewerNames(nodes: seq<Node>, nodes': seq<Node>, d: nat, k: nat)
    requires NoDuplicates(nodes) && EntryWritten(nodes, nodes', d, k, Dirent(0, "")) && k < |nodes[d].entries|
    ensures NoDuplicates(nodes')
  {
  }

  /** A node keeps its shape if an entry beyond the first two is cleared and it stays empty once it is not linked. */
  lemma NodeStays(node: Node, node': Node, i: nat)
    requires NodeOk(node, i) && node'.kind == node.kind && (node.kind.Free? ==> node'.nlink == 0)
    requires |node'.entries| == |node.entries|
    requires forall k :: 0 <= k < |node.entries| ==>
               node'.entries[k] == node.entries[k] || (k >= 2 && node'.entries[k].inum == 0)
    requires node.kind.Dir? && node'.nlink == 0 ==> IsEmpty(node.entries)
    ensures NodeOk(node', i)
  {
  }

  /** An entry is as before, or cleared, and so is the directory it names. */
  lemma EntryStays(nodes: seq<Node>, home: map<nat, nat>, nodes': seq<Node>, d: nat, j: nat)
    requires d < |nodes| == |nodes'| && j < |nodes[d].entries| && EntryOk(nodes, home, d, j) && j < |nodes'[d].entries|
    requires nodes'[d].entries[j] == nodes[d].entries[j] || nodes'[d].entries[j].inum == 0
    requires forall x :: 0 < x < |nodes| ==>
               nodes'[x].kind == nodes[x].kind && |nodes'[x].entries| == |nodes[x].entries|
                                             && (|nodes[x].entries| >= 2 ==>
                                                  nodes'[x].entries[1] == nodes[x].entries[1])
    ensures EntryOk(nodes', home, d, j)
  {
  }

  /** The parent of a directory keeps its entry for it. */
  lemma ParentStays(nodes: seq<Node>, home: map<nat, nat>, nodes': seq<Node>, dp: nat, k: nat, c: nat)
    requires c < |nodes| == |nodes'| && ParentOk(nodes, home, c) && dp < |nodes| && 2 <= k < |nodes[dp].entries|
    requires nodes[dp].entries[k].inum != c
    requires |nodes[c].entries| >= 2 && |nodes'[c].entries| >= 2 && nodes'[c].entries[1] == nodes[c].entries[1]
    requires forall x :: 0 <= x < |nodes| && x != dp ==> nodes'[x].entries == nodes[x].entries
    requires nodes'[dp].entries == nodes[dp].entries[k := Dirent(0, "")]
    requires IsLinkedDir(nodes', nodes[c].entries[1].inum)
    ensures ParentOk(nodes', home, c)
  {
  }

  /** The tree after an entry for a file is cleared. */
  lemma TreeCleared(nodes: seq<Node>, home: map<nat, nat>, nodes': seq<Node>, dp: nat, k: nat)
    requires Tree(nodes, home) && EntryWritten(nodes, nodes', dp, k, Dirent(0, "")) && 2 <= k < |nodes[dp].entries|
    requires var ip := nodes[dp].entries[k].inum; 0 < ip < NINODES && nodes[ip].kind.File?
    requires forall x :: 0 < x < NINODES ==>
               nodes'[x].kind == nodes[x].kind && (nodes[x].kind.Free? ==> nodes'[x].nlink == 0)
    ensures Tree(nodes', home)
  {
    hide NodeOk, EntryOk, ParentOk;
    forall x | 0 < x < NINODES ensures NodeOk(nodes'[x], x) {
      assert IsLinkedDir(nodes', x) == IsLinkedDir(nodes, x);
      UnlinkedIsEmpty(nodes[x], x);
      NodeStays(nodes[x], nodes'[x], x);
    }
    forall d: nat, j: nat | IsLinkedDir(nodes', d) && 2 <= j < |nodes'[d].entries| ensures EntryOk(nodes', home, d, j) {
      EntryStays(nodes, home, nodes', d, j);
    }
    forall c: nat | IsLinkedDir(nodes', c) && c != ROOTINO ensures ParentOk(nodes', home, c) {
      ParentIs(nodes, home, c);
      ParentStays(nodes, home, nodes', dp, k, c);
    }
  }

  lemma UnlinkedIsEmpty(node: Node, i: nat)
    requires NodeOk(node, i)
    ensures node.kind.Dir? && node.nlink == 0 ==> IsEmpty(node.entries)
    ensures node.kind.Dir? ==> |node.entries| >= 2
  {
  }

  lemma ParentIs(nodes: seq<Node>, home: map<nat, nat>, c: nat)
    requires c < |nodes| && ParentOk(nodes, home, c)
    ensures |nodes[c].entries| >= 2 && IsLinkedDir(nodes, nodes[c].entries[1].inum)
  {
  }

  /** An empty directory has exactly one name. */
  lemma EmptyDirOnce(nodes: seq<Node>, home: map<nat, nat>, dp: nat, k: nat)
    requires Tree(nodes, home) && IsLinkedDir(nodes, dp) && 2 <= k < |nodes[dp].entries|
    requires var ip := nodes[dp].entries[k].inum; 0 < ip < |nodes| && nodes[ip].kind.Dir? && IsEmpty(nodes[ip].entries)
    requires nodes[dp].entries[k].name != "."
    ensures Names(nodes, nodes[dp].entries[k].inum) == {(dp, k)} && nodes[dp].entries[k].inum != dp
  {
    var ip := nodes[dp].entries[k].inum;
    assert EntryOk(nodes, home, dp, k);
    forall d: nat, j: nat | Counts(nodes, d, j, ip) ensures (d, j) == (dp, k) {
      assert NodeOk(nodes[d], d);
      if j >= 2 {
        assert EntryOk(nodes, home, d, j);
      }
    }
  }

  /** A linked directory with a subdirectory has at least two names. */
  lemma ParentTwice(nodes: seq<Node>, home: map<nat, nat>, dp: nat, ip: nat)
    requires Tree(nodes, home) && NoDuplicates(nodes) && IsLinkedDir(nodes, dp) && IsLinkedDir(nodes, ip)
    requires ip != ROOTINO
    requires |nodes[ip].entries| >= 2 && nodes[ip].entries[1] == Dirent(dp, "..")
    ensures |Names(nodes, dp)| >= 2
  {
    var other := (ROOTINO, 1);
    if dp == ROOTINO {
      assert NodeOk(nodes[ROOTINO], ROOTINO);
    } else {
      assert ParentOk(nodes, home, dp);
      other := (nodes[dp].entries[1].inum, home[dp]);
      TargetExists(nodes, home, other.0, other.1);
    }
    assert (ip, 1) in Names(nodes, dp) && other in Names(nodes, dp);
    hide Names;
    TwoElements(Names(nodes, dp), (ip, 1), other);
  }

  lemma TwoElements(s: set<(nat, nat)>, a: (nat, nat), b: (nat, nat))
    requires a in s && b in s && a != b
    ensures |s| >= 2
  {
    assert b in s - {a} && |s - {a}| == |s| - 1;
  }

  /** unlink of an empty directory: its name goes, and with it the link that its ".." was to the parent. */
  lemma DirUnlinked(nodes: seq<Node>, home: map<nat, nat>, dp: nat, k: nat)
    requires Removable(nodes, home, dp, k)
    requires var ip := nodes[dp].entries[k].inum; ip < |nodes| && nodes[ip].kind.Dir? && IsEmpty(nodes[ip].entries)
    ensures UnlinkedOk(nodes, home, dp, k)
    ensures nodes[nodes[dp].entries[k].inum].nlink == 1 && nodes[dp].nlink >= 2
  {
    hide Tree, NoDuplicates, Conserved, Names;
    var ip := nodes[dp].entries[k].inum;
    NodesOk(nodes, home);
    RemovableTarget(nodes, home, dp, k);
    EmptyDirOnce(nodes, home, dp, k);
    ParentTwice(nodes, home, dp, ip);
    NlinkIs(nodes, ip);
    NlinkIs(nodes, dp);
    var mid := WithoutName(nodes, dp, k);
    var nodes' := Fewer(Fewer(mid, dp), ip);
    assert EntryWritten(nodes, mid, dp, k, Dirent(0, "")) && DirChanged(nodes', mid, ip, dp);
    DroppedConserved(nodes, mid, nodes', dp, k);
    FewerNames(nodes, mid, dp, k);
    SameEntriesDistinct(mid, nodes');
    TreeDropped(nodes, home, nodes', dp, k);
  }

  lemma NlinkIs(nodes: seq<Node>, i: nat)
    requires Conserved(nodes) && 0 < i < |nodes|
    ensures nodes[i].nlink == |Names(nodes, i)|
  {
  }

  lemma SameEntriesDistinct(nodes: seq<Node>, nodes': seq<Node>)
    requires NoDuplicates(nodes) && |nodes'| == |nodes|
    requires forall x :: 0 <= x < |nodes| ==> nodes'[x].entries == nodes[x].entries
    ensures NoDuplicates(nodes')
  {
  }

  lemma DroppedConserved(nodes: seq<Node>, mid: seq<Node>, nodes': seq<Node>, dp: nat, k: nat)
    requires Conserved(nodes) && EntryWritten(nodes, mid, dp, k, Dirent(0, "")) && k < |nodes[dp].entries|
    requires nodes[dp].entries[k].inum != 0 && nodes[dp].entries[k].inum != dp && nodes[dp].entries[k].name != "."
    requires DirChanged(nodes', mid, nodes[dp].entries[k].inum, dp)
    requires forall x :: 0 < x < |nodes| ==>
               nodes'[x].nlink == nodes[x].nlink - if x == nodes[dp].entries[k].inum || x == dp then 1 else 0
    ensures Conserved(nodes')
  {
    hide Names;
    LinkCleared(nodes, mid, dp, k, Dirent(0, ""));
    DirCounted(nodes', mid, nodes[dp].entries[k].inum, dp);
  }

  /** The tree without an empty directory. */
  lemma TreeDropped(nodes: seq<Node>, home: map<nat, nat>, nodes': seq<Node>, dp: nat, k: nat)
    requires Tree(nodes, home) && IsLinkedDir(nodes, dp) && 2 <= k < |nodes[dp].entries| && |nodes'| == |nodes|
    requires var ip := nodes[dp].entries[k].inum;
             && 0 < ip < NINODES && ip != dp && ip != ROOTINO && nodes[ip].kind.Dir? && IsEmpty(nodes[ip].entries)
             && IsLinkedDir(nodes, ip)
             && (forall x: nat :: x < NINODES ==> IsLinkedDir(nodes', x) == (x != ip && IsLinkedDir(nodes, x)))
             && (forall x: nat :: 0 < x < NINODES ==>
                  nodes'[x].kind == nodes[x].kind && (nodes[x].kind.Free? ==> nodes'[x].nlink == 0))
             && (forall x: nat :: x < NINODES && x != dp ==> nodes'[x].entries == nodes[x].entries)
             && nodes'[dp].entries == nodes[dp].entries[k := Dirent(0, "")]
    ensures Tree(nodes', home)
  {
    hide NodeOk, EntryOk, ParentOk;
    var ip := nodes[dp].entries[k].inum;
    forall x | 0 < x < NINODES ensures NodeOk(nodes'[x], x) {
      assert IsLinkedDir(nodes', x) == (x != ip && IsLinkedDir(nodes, x));
      UnlinkedIsEmpty(nodes[x], x);
      NodeStays(nodes[x], nodes'[x], x);
    }
    forall d: nat, j: nat | IsLinkedDir(nodes', d) && 2 <= j < |nodes'[d].entries| ensures EntryOk(nodes', home, d, j) {
      EntryStays(nodes, home, nodes', d, j);
    }
    forall c: nat | IsLinkedDir(nodes', c) && c != ROOTINO ensures ParentOk(nodes', home, c) {
      ParentIs(nodes, home, c);
      NotInside(nodes, home, ip, c);
      ParentStays(nodes, home, nodes', dp, k, c);
    }
  }

  /** An empty directory is nobody's parent. */
  lemma NotInside(nodes: seq<Node>, home: map<nat, nat>, ip: nat, c: nat)
    requires c < |nodes| && ParentOk(nodes, home, c) && ip < |nodes| && IsEmpty(nodes[ip].entries) && c != 0
    ensures |nodes[c].entries| >= 2 && nodes[c].entries[1].inum != ip
  {
  }

  /** inode_put of the last reference to an inode without links. */
  function Freed(nodes: seq<Node>, ip: nat): (r: seq<Node>)
    requires ip < |nodes|
  {
    nodes[ip := Node(Free, 0, [])]
  }

  lemma FreedKeeps(nodes: seq<Node>, home: map<nat, nat>, ip: nat)
    requires Ok(nodes, home) && 0 < ip < |nodes| && nodes[ip].nlink == 0
    ensures Ok(Freed(nodes, ip), home)
  {
    hide Tree, NoDuplicates, Names;
    var nodes' := Freed(nodes, ip);
    forall i: nat | 0 < i < |nodes| ensures Names(nodes', i) == Names(nodes, i) && nodes'[i].nlink == nodes[i].nlink {
      SameNames(nodes, nodes', i);
    }
    NoNames(nodes, ip);
    FreedDistinct(nodes, ip);
    TreeFreed(nodes, home, ip);
  }

  lemma NoNames(nodes: seq<Node>, i: nat)
    requires Conserved(nodes) && 0 < i < |nodes| && nodes[i].nlink == 0
    ensures Names(nodes, i) == {}
  {
    hide Names;
    assert |Names(nodes, i)| == 0;
  }

  lemma FreedDistinct(nodes: seq<Node>, ip: nat)
    requires NoDuplicates(nodes) && ip < |nodes|
    ensures NoDuplicates(Freed(nodes, ip))
  {
  }

  lemma NotNamed(nodes: seq<Node>, i: nat, d: nat, k: nat)
    requires Names(nodes, i) == {}
    ensures !Counts(nodes, d, k, i)
  {
    assert (d, k) !in Names(nodes, i);
  }

  lemma TreeFreed(nodes: seq<Node>, home: map<nat, nat>, ip: nat)
    requires Tree(nodes, home) && NoDuplicates(nodes) && 0 < ip < |nodes| && nodes[ip].nlink == 0
    requires Names(nodes, ip) == {}
    ensures Tree(Freed(nodes, ip), home)
  {
    var nodes' := Freed(nodes, ip);
    forall x | 0 < x < NINODES ensures NodeOk(nodes'[x], x) {
      assert NodeOk(nodes[x], x);
    }
    forall d: nat, j: nat | IsLinkedDir(nodes', d) && 2 <= j < |nodes'[d].entries| ensures EntryOk(nodes', home, d, j) {
      assert EntryOk(nodes, home, d, j);
      if nodes[d].entries[j].inum == ip {
        TargetExists(nodes, home, d, j);
        NotNamed(nodes, ip, d, j);
        assert false;
      }
    }
    forall c: nat | IsLinkedDir(nodes', c) && c != ROOTINO ensures ParentOk(nodes', home, c) {
      assert ParentOk(nodes, home, c);
    }
  }

  lemma TargetInRange(nodes: seq<Node>, home: map<nat, nat>, dp: nat, k: nat)
    requires Tree(nodes, home) && IsLinkedDir(nodes, dp) && k < |nodes[dp].entries| && nodes[dp].entries[k].inum != 0
    ensures nodes[dp].entries[k].inum < |nodes|
  {
    assert NodeOk(nodes[dp], dp);
    if k >= 2 {
      assert EntryOk(nodes, home, dp, k);
    } else if dp != ROOTINO {
      assert ParentOk(nodes, home, dp);
    }
  }

  /** A name in use leads to an inode. */
  lemma AnyTarget(nodes: seq<Node>, home: map<nat, nat>, dp: nat, k: nat)
    requires Ok(nodes, home) && 0 < dp < |nodes| && nodes[dp].kind.Dir? && k < |nodes[dp].entries|
    requires nodes[dp].entries[k].inum != 0
    ensures nodes[dp].entries[k].inum < |nodes|
  {
    hide Conserved, NoDuplicates;
    assert NodeOk(nodes[dp], dp);
    if IsLinkedDir(nodes, dp) {
      TargetInRange(nodes, home, dp, k);
    }
  }

  /** `refs[i]` references to inode `i` are held in memory. A free inode has none, and an inode in use has a name or
      somebody who holds it: none is leaked. */
  ghost predicate Held(nodes: seq<Node>, refs: seq<nat>) {
    |refs| == |nodes| && forall i :: 0 < i < |nodes| ==>
      if nodes[i].kind.Free? then refs[i] == 0 else nodes[i].nlink > 0 || refs[i] > 0
  }

  /** A file made in a directory that is no longer linked has a link count of one and no name. */
  lemma FileMadeNowhere(nodes: seq<Node>, home: map<nat, nat>, dp: nat, name: string, k: nat, ip: nat)
    requires Ok(nodes, home) && 0 < dp < NINODES && nodes[dp].kind.Dir? && !IsLinkedDir(nodes, dp)
    requires IsSlot(nodes[dp].entries, k)
    requires 0 < ip < NINODES && nodes[ip].kind.Free?
    ensures !Conserved(WithFile(nodes, dp, name, k, ip))
  {
    hide Tree, NoDuplicates, Names, Put;
    NodesOk(nodes, home);
    assert NodeOk(nodes[ip], ip);
    NoNames(nodes, ip);
    SameNames(nodes, WithFile(nodes, dp, name, k, ip), ip);
    assert WithFile(nodes, dp, name, k, ip)[ip].nlink == 1;
  }

  /** So has a link made there. */
  lemma LinkMadeNowhere(nodes: seq<Node>, home: map<nat, nat>, dp: nat, name: string, k: nat, ip: nat)
    requires Ok(nodes, home) && 0 < dp < NINODES && nodes[dp].kind.Dir? && !IsLinkedDir(nodes, dp)
    requires IsSlot(nodes[dp].entries, k)
    requires 0 < ip < NINODES && nodes[ip].kind.File?
    ensures !Conserved(WithLink(nodes, dp, name, k, ip))
  {
    hide Tree, NoDuplicates, Names, Put;
    NodesOk(nodes, home);
    NlinkIs(nodes, ip);
    SameNames(nodes, WithLink(nodes, dp, name, k, ip), ip);
    assert WithLink(nodes, dp, name, k, ip)[ip].nlink == nodes[ip].nlink + 1;
  }

  /** A directory made there turns its parent into one that is linked, by "..", but has no name. */
  lemma DirMadeNowhere(nodes: seq<Node>, home: map<nat, nat>, dp: nat, name: string, k: nat, ip: nat,
                       home': map<nat, nat>)
    requires Ok(nodes, home) && 0 < dp < NINODES && nodes[dp].kind.Dir? && !IsLinkedDir(nodes, dp)
    requires IsSlot(nodes[dp].entries, k)
    requires 0 < ip < NINODES && nodes[ip].kind.Free?
    ensures ip != dp && !Tree(WithDirName(WithNewDir(nodes, dp, ip), dp, name, k, ip), home')
  {
    hide Conserved;
    assert NodeOk(nodes[dp], dp) && dp != ROOTINO;
    var nodes' := WithDirName(WithNewDir(nodes, dp, ip), dp, name, k, ip);
    NlinkIs(nodes, dp);
    assert IsLinkedDir(nodes', dp);
    forall p: nat, j: nat | IsLinkedDir(nodes', p) && 2 <= j < |nodes'[p].entries|
      ensures nodes'[p].entries[j].inum != dp
    {
      if p != dp && p != ip && nodes[p].entries[j].inum == dp {
        TargetExists(nodes, home, p, j);
        NotNamed(nodes, dp, p, j);
        assert false;
      }
    }
    assert !ParentOk(nodes', home', dp);
  }

  class FsTree {
    var nodes: seq<Node>
    /** How many references to each inode are held in memory. */
    var refs: seq<nat>
    ghost var home: map<nat, nat>

    ghost predicate Valid()
      reads this
    {
      Ok(nodes, home) && Held(nodes, refs)
    }

    /** The tree that mkfs makes of no files: a root directory whose two first entries name itself. */
    constructor ()
      ensures Valid() && nodes[ROOTINO] == Node(Dir, 1, [Dirent(ROOTINO, "."), Dirent(ROOTINO, "..")])
      ensures forall i :: 0 < i < NINODES && i != ROOTINO ==> nodes[i].kind.Free?
    {
      nodes := seq(NINODES,
        i => if i == ROOTINO then Node(Dir, 1, [Dirent(ROOTINO, "."), Dirent(ROOTINO, "..")]) else Node(Free, 0, []));
      refs := seq(NINODES, _ => 0);
      home := map[];
      new;
      forall i: nat | i != 0 ensures Names(nodes, i) == if i == ROOTINO then {(ROOTINO, 1)} else {} {
      }
    }

    /** dir_lookup: the index of the entry, or -1. */
    method DirLookup(dp: nat, name: string) returns (k: int)
      requires dp < |nodes|
      ensures k == -1 <==> !HasName(nodes[dp].entries, name)
      ensures k != -1 ==> 0 <= k < |nodes[dp].entries| && nodes[dp].entries[k].inum != 0
      ensures k != -1 ==> nodes[dp].entries[k].name == name
    {
      var i := 0;
      while i < |nodes[dp].entries|
        invariant 0 <= i <= |nodes[dp].entries|
        invariant forall j :: 0 <= j < i ==> nodes[dp].entries[j].inum == 0 || nodes[dp].entries[j].name != name
      {
        var de := nodes[dp].entries[i];
        if de.inum != 0 && de.name == name {
          return i;
        }
        i := i + 1;
      }
      return -1;
    }

    /** The second loop of dir_link. */
    method FreeEntry(dp: nat) returns (k: nat)
      requires dp < |nodes|
      ensures IsSlot(nodes[dp].entries, k)
    {
      k := 0;
      while k < |nodes[dp].entries|
        invariant 0 <= k <= |nodes[dp].entries|
        invariant forall j :: 0 <= j < k ==> nodes[dp].entries[j].inum != 0
      {
        if nodes[dp].entries[k].inum == 0 {
          return;
        }
        k := k + 1;
      }
    }

    /** inode_alloc: the first free inode, or 0 where the kernel panics. */
    method InodeAlloc() returns (ip: nat)
      ensures ip == 0 ==> forall i :: 0 < i < |nodes| ==> !nodes[i].kind.Free?
      ensures ip != 0 ==> ip < |nodes| && nodes[ip].kind.Free? && forall i :: 0 < i < ip ==> !nodes[i].kind.Free?
    {
      ip := 1;
      while ip < |nodes|
        invariant 0 < ip && forall i :: 0 < i < ip && i < |nodes| ==> !nodes[i].kind.Free?
      {
        if nodes[ip].kind.Free? {
          return;
        }
        ip := ip + 1;
      }
      ip := 0;
    }

    /** create, in any directory. An existing name is left alone, and led to if it and the request are both for a file.
        A new name keeps the tree in order exactly if the directory still is linked. The caller gets a reference. Not
        `ok`: no inode is free, and the kernel panics. */
    method Create(dp: nat, name: string, dir: bool) returns (ip: nat, ok: bool)
      requires Valid() && 0 < dp < |nodes| && nodes[dp].kind.Dir?
      modifies this
      ensures ok <==> HasName(old(nodes)[dp].entries, name) || exists i ::
                0 < i < |old(nodes)| && old(nodes)[i].kind.Free?
      ensures !ok || HasName(old(nodes)[dp].entries, name) ==> Valid() && nodes == old(nodes)
      ensures ok ==> |old(refs)| == |nodes| && ip < |nodes| &&
                     refs == if ip == 0 then old(refs) else old(refs)[ip := old(refs)[ip] + 1]
      ensures HasName(old(nodes)[dp].entries, name) ==>
                exists k :: 0 <= k < |nodes[dp].entries| && nodes[dp].entries[k].name == name &&
                            0 < nodes[dp].entries[k].inum < |nodes| &&
                  ip == if !dir && nodes[nodes[dp].entries[k].inum].kind.File? then nodes[dp].entries[k].inum else 0
      ensures ok && !HasName(old(nodes)[dp].entries, name) ==>
                && 0 < ip < |old(nodes)| == |nodes| && old(nodes)[ip].kind.Free?
                && nodes[ip].kind == (if dir then Dir else File)
                && nodes[ip].nlink == 1
                && (exists k: nat :: IsSlot(old(nodes)[dp].entries, k) &&
                                     nodes[dp].entries == Put(old(nodes)[dp].entries, k, Dirent(ip, name)))
                && (forall x :: 0 < x < |nodes| && x != dp && x != ip ==> nodes[x] == old(nodes)[x])
      ensures ok && !HasName(old(nodes)[dp].entries, name) ==> (Valid() <==> IsLinkedDir(old(nodes), dp))
    {
      hide Tree, NoDuplicates, Conserved, Put, Names, NodeOk;
      NodesOk(nodes, home);
      ok := true;
      var found := DirLookup(dp, name);
      if found != -1 {
        AnyTarget(nodes, home, dp, found);
        ip := nodes[dp].entries[found].inum;
        if dir || !nodes[ip].kind.File? {
          ip := 0;
        } else {
          refs := refs[ip := refs[ip] + 1];
        }
        return;
      }
      ip := InodeAlloc();
      if ip == 0 {
        return 0, false;
      }
      var k := FreeEntry(dp);
      MakeNode(dp, name, dir, k, ip);
      refs := refs[ip := refs[ip] + 1];
    }

    /** The rest of create: inode `ip` becomes a file or a directory, and free entry `k` of `dp` names it. */
    method MakeNode(dp: nat, name: string, dir: bool, k: nat, ip: nat)
      requires Ok(nodes, home) && 0 < dp < |nodes| && nodes[dp].kind.Dir? && !HasName(nodes[dp].entries, name)
      requires IsSlot(nodes[dp].entries, k)
      requires 0 < ip < |nodes| && nodes[ip].kind.Free?
      modifies this`nodes, this`home
      ensures |nodes| == |old(nodes)| && ip != dp && nodes[ip].kind == (if dir then Dir else File)
      ensures nodes[ip].nlink == 1
      ensures nodes[dp].kind.Dir? && nodes[dp].nlink >= old(nodes)[dp].nlink
      ensures nodes[dp].entries == Put(old(nodes)[dp].entries, k, Dirent(ip, name))
      ensures forall x :: 0 < x < |nodes| && x != dp && x != ip ==> nodes[x] == old(nodes)[x]
      ensures Ok(nodes, home) <==> IsLinkedDir(old(nodes), dp)
    {
      hide Tree, NoDuplicates, Conserved, Put, Names;
      NodesOk(nodes, home);
      if dir {
        if IsLinkedDir(nodes, dp) {
          DirMade(nodes, home, dp, name, k, ip);
        } else {
          DirMadeNowhere(nodes, home, dp, name, k, ip, home[ip := k]);
        }
        nodes := WithNewDir(nodes, dp, ip);
        nodes := WithDirName(nodes, dp, name, k, ip);
        home := home[ip := k];
      } else {
        if IsLinkedDir(nodes, dp) {
          FileMade(nodes, home, dp, name, k, ip);
        } else {
          FileMadeNowhere(nodes, home, dp, name, k, ip);
        }
        nodes := WithFile(nodes, dp, name, k, ip);
      }
    }

    /** sys_link, for an inode that the old path led to and the directory of the new path, if there is one. The
        link count is raised first and lowered again when the name cannot be entered. The link keeps the tree in order
        exactly if the directory still is linked. */
    method SysLink(ip: nat, found: bool, dp: nat, name: string) returns (ok: bool)
      requires Valid() && 0 < ip < |nodes| && !nodes[ip].kind.Free?
      requires (found ==> 0 < dp < |nodes| && nodes[dp].kind.Dir?)
      modifies this`nodes
      ensures ok <==> old(nodes)[ip].kind.File? && found && !HasName(old(nodes)[dp].entries, name)
      ensures !ok ==> nodes == old(nodes)
      ensures ok ==> exists k: nat ::
                IsSlot(old(nodes)[dp].entries, k) && nodes == WithLink(old(nodes), dp, name, k, ip)
      ensures Valid() <==> !ok || IsLinkedDir(old(nodes), dp)
    {
      hide Tree, NoDuplicates, Conserved, Put, Names;
      NodesOk(nodes, home);
      if nodes[ip].kind.Dir? {
        return false;
      }
      nodes := nodes[ip := nodes[ip].(nlink := nodes[ip].nlink + 1)];
      if found {
        var k := DirLookup(dp, name);
        if k == -1 {
          var slot := FreeEntry(dp);
          if IsLinkedDir(old(nodes), dp) {
            LinkMade(old(nodes), home, dp, name, slot, ip);
          } else {
            LinkMadeNowhere(old(nodes), home, dp, name, slot, ip);
          }
          nodes := nodes[dp := nodes[dp].(entries := Put(nodes[dp].entries, slot, Dirent(ip, name)))];
          assert nodes == WithLink(old(nodes), dp, name, slot, ip);
          return true;
        }
      }
      nodes := nodes[ip := nodes[ip].(nlink := nodes[ip].nlink - 1)];
      assert nodes == old(nodes);
      return false;
    }

    /** isdirempty */
    method IsDirEmpty(dp: nat) returns (empty: bool)
      requires dp < |nodes|
      ensures empty == IsEmpty(nodes[dp].entries)
    {
      var off := 2;
      while off < |nodes[dp].entries|
        invariant forall k :: 2 <= k < off && k < |nodes[dp].entries| ==> nodes[dp].entries[k].inum == 0
      {
        if nodes[dp].entries[off].inum != 0 {
          return false;
        }
        off := off + 1;
      }
      return true;
    }

    /** sys_unlink, in any directory. The inode is freed at once if this was its last link and nobody holds it. */
    method SysUnlink(dp: nat, name: string) returns (ok: bool, ghost k: nat)
      requires Valid() && 0 < dp < |nodes| && nodes[dp].kind.Dir?
      modifies this`nodes
      ensures Valid() && (ok <==> MayUnlink(old(nodes), dp, name))
      ensures !ok ==> nodes == old(nodes)
      ensures ok ==> IsUnlinked(old(nodes), nodes, dp, name, refs, k)
    {
      hide Tree, NoDuplicates, Conserved, Names;
      k := 0;
      if name == "." || name == ".." {
        return false, 0;
      }
      NodesOk(nodes, home);
      assert NodeOk(nodes[dp], dp);
      var off := DirLookup(dp, name);
      if off == -1 {
        return false, 0;
      }
      k := off;
      assert IsLinkedDir(nodes, dp);
      RemovableTarget(nodes, home, dp, off);
      SameEntry(nodes, dp, off);
      var ip := nodes[dp].entries[off].inum;
      if nodes[ip].kind.Dir? {
        var empty := IsDirEmpty(ip);
        if !empty {
          return false, k;
        }
      }
      RemoveEntry(dp, off);
      ok := true;
    }

    /** The rest of sys_unlink, for entry `k` of a linked directory. */
    method RemoveEntry(dp: nat, k: nat)
      requires Valid() && Removable(nodes, home, dp, k) && nodes[dp].entries[k].inum < |nodes|
      requires var ip := nodes[dp].entries[k].inum; nodes[ip].kind.Dir? ==> IsEmpty(nodes[ip].entries)
      modifies this`nodes
      ensures Valid() && IsUnlinked(old(nodes), nodes, dp, old(nodes)[dp].entries[k].name, refs, k)
    {
      hide Tree, NoDuplicates, Conserved, Names, NodeOk;
      RemovableTarget(nodes, home, dp, k);
      var ip := nodes[dp].entries[k].inum;
      var dir := nodes[ip].kind.Dir?;
      if dir {
        DirUnlinked(nodes, home, dp, k);
      } else {
        FileUnlinked(nodes, home, dp, k);
      }
      nodes := WithoutName(nodes, dp, k);
      if dir {
        nodes := Fewer(nodes, dp);
      }
      nodes := Fewer(nodes, ip);
      if refs[ip] == 0 && nodes[ip].nlink == 0 {
        FreedKeeps(nodes, home, ip);
        nodes := Freed(nodes, ip);
      }
    }

    /** inode_put: one reference less, and an inode without links is freed with its last one. */
    method InodePut(ip: nat)
      requires Valid() && 0 < ip < |nodes| && refs[ip] > 0
      modifies this`nodes, this`refs
      ensures Valid() && |old(refs)| == |old(nodes)| && refs == old(refs)[ip := old(refs)[ip] - 1]
      ensures nodes == if old(refs)[ip] == 1 && old(nodes)[ip].nlink == 0 then Freed(old(nodes), ip) else old(nodes)
    {
      hide Tree, NoDuplicates, Conserved;
      if refs[ip] == 1 && nodes[ip].nlink == 0 {
        FreedKeeps(nodes, home, ip);
        nodes := Freed(nodes, ip);
      }
      refs := refs[ip := refs[ip] - 1];
    }

    /** inode_get and inode_dup of an inode in use. */
    method InodeGet(ip: nat)
      requires Valid() && 0 < ip < |nodes| && !nodes[ip].kind.Free?
      modifies this`refs
      ensures Valid() && |old(refs)| == |nodes| && refs == old(refs)[ip := old(refs)[ip] + 1]
    {
      hide Tree, NoDuplicates, Conserved;
      refs := refs[ip := refs[ip] + 1];
    }
  }

  /** What sys_unlink removes: a name other than "." and ".." that is there, unless it leads to a directory with
      more than its first two entries. */
  ghost predicate MayUnlink(nodes: seq<Node>, dp: nat, name: string) {
    && name != "." && name != ".." && dp < |nodes|
    && exists k :: 0 <= k < |nodes[dp].entries| && nodes[dp].entries[k].name == name &&
                   0 < nodes[dp].entries[k].inum < |nodes| &&
         !(nodes[nodes[dp].entries[k].inum].kind.Dir? && !IsEmpty(nodes[nodes[dp].entries[k].inum].entries))
  }

  /** The state after unlinking entry `k`, with the inode freed if that was its last link and nobody else holds it. */
  ghost predicate IsUnlinked(nodes: seq<Node>, nodes': seq<Node>, dp: nat, name: string, refs: seq<nat>, k: nat) {
    && dp < |nodes| && 2 <= k < |nodes[dp].entries| && nodes[dp].entries[k].name == name
    && 0 < nodes[dp].entries[k].inum < |nodes|
    && var ip := nodes[dp].entries[k].inum;
    && nodes[ip].nlink > 0 && (nodes[ip].kind.Dir? ==> nodes[dp].nlink > 0 && ip != dp)
    && var after := Unlinked(nodes, dp, k);
       ip < |refs| && nodes' == if after[ip].nlink == 0 && refs[ip] == 0 then Freed(after, ip) else after
  }

  /** A name leads to one entry only. */
  lemma SameEntry(nodes: seq<Node>, dp: nat, k: nat)
    requires NoDuplicates(nodes) && 0 < dp < |nodes| && k < |nodes[dp].entries| && nodes[dp].entries[k].inum != 0
    ensures var es := nodes[dp].entries;
            forall j :: 0 <= j < |es| && es[j].inum != 0 && es[j].name == es[k].name ==> j == k
  {
  }
}
