/** The tree that mkfs leaves: what is mounted after it is in order. */
module FreshTree {
  import opened Bytes
  import opened Bitmap
  import opened Inodes
  import opened Dinodes
  import opened Dirents
  import opened FileSystem
  import opened Directories
  import opened Mkfs
  import opened DirTree
  import opened Params
  import M = MakeDisk
  import L = Links

  /** No two files get the same name, and none that of the directory itself or its parent. */
  predicate Distinct(files: seq<M.File>) {
    && (forall j, k :: 0 <= j < k < |files| ==> M.EntryName(files[j].name) != M.EntryName(files[k].name))
    && forall k :: 0 <= k < |files| ==> M.EntryName(files[k].name) != "." && M.EntryName(files[k].name) != ".."
  }

  /** The nodes that mkfs makes: the root with its entries, and files with one link each. */
  ghost predicate Fresh(nodes: seq<L.Node>, files: seq<M.File>) {
    && |nodes| == L.NINODES && |files| + 2 <= |nodes| && nodes[0].kind.Free? && nodes[0].entries == []
    && (exists free: nat ::
          nodes[ROOTINO] == L.Node(L.Dir, 1, M.Listing(files, |files|) + FreeSlots(free)))
    && forall j :: 2 <= j < |nodes| ==>
         nodes[j] == if j < |files| + 2 then L.Node(L.File, 1, []) else L.Node(L.Free, 0, [])
  }

  lemma FreshNodes(s: seq<Block>, t: seq<Inode>, files: seq<M.File>)
    requires M.HoldsFiles(s, t, files) && |t| == L.NINODES
    ensures Tidy(t) && Fresh(Nodes(s, t), files)
  {
    hide Content, Parse, M.Listing;
    forall j | 0 <= j < |t| ensures TidyInode(t[j]) {
      assert j < 2 || j < |files| + 2 || t[j] == FreeInode();
    }
    NodesAt(s, t);
  }

  /** The root is named by its own ".." and a file by its one entry. */
  lemma FreshNames(nodes: seq<L.Node>, files: seq<M.File>, free: nat, i: nat)
    requires Fresh(nodes, files) && Distinct(files) && 0 < i < |nodes|
    requires nodes[ROOTINO].entries == M.Listing(files, |files|) + FreeSlots(free)
    ensures L.Names(nodes, i) == if i == ROOTINO then {(1, 1)} else if i < |files| + 2 then {(1, i)} else {}
  {
    var es := nodes[ROOTINO].entries;
    assert forall k :: 2 <= k < |files| + 2 ==> es[k] == Dirent(k, M.EntryName(files[k - 2].name));
    forall d: nat, k: nat ensures L.Counts(nodes, d, k, i) ==> d == 1 && k == if i == ROOTINO then 1 else i {
    }
  }

  /** Entry `k` of the root. */
  lemma RootEntry(nodes: seq<L.Node>, files: seq<M.File>, free: nat, k: nat)
    requires Fresh(nodes, files) && nodes[ROOTINO].entries == M.Listing(files, |files|) + FreeSlots(free)
    requires k < |nodes[ROOTINO].entries|
    ensures nodes[ROOTINO].entries[k] ==
            if k == 0 then Dirent(1, ".") else if k == 1 then Dirent(1, "..")
            else if k < |files| + 2 then Dirent(k, M.EntryName(files[k - 2].name)) else Dirent(0, "")
  {
  }

  lemma FreshShape(nodes: seq<L.Node>, files: seq<M.File>, free: nat)
    requires Fresh(nodes, files) && nodes[ROOTINO].entries == M.Listing(files, |files|) + FreeSlots(free)
    ensures L.Tree(nodes, map[])
  {
    hide M.Listing, FreeSlots;
    assert |nodes[ROOTINO].entries| == |files| + 2 + free;
    forall k: nat | k < |nodes[ROOTINO].entries| ensures k >= 2 ==> L.EntryOk(nodes, map[], ROOTINO, k) {
      RootEntry(nodes, files, free, k);
    }
    RootEntry(nodes, files, free, 0);
    RootEntry(nodes, files, free, 1);
  }

  lemma FreshDistinct(nodes: seq<L.Node>, files: seq<M.File>, free: nat)
    requires Fresh(nodes, files) && Distinct(files)
    requires nodes[ROOTINO].entries == M.Listing(files, |files|) + FreeSlots(free)
    ensures L.NoDuplicates(nodes)
  {
    hide M.Listing, FreeSlots, M.EntryName;
    var es := nodes[ROOTINO].entries;
    forall j: nat, k: nat | j < k < |es| && es[j].inum != 0 && es[k].inum != 0 ensures es[j].name != es[k].name {
      RootEntry(nodes, files, free, j);
      RootEntry(nodes, files, free, k);
    }
  }

  lemma FreshTreeOk(nodes: seq<L.Node>, files: seq<M.File>)
    requires Fresh(nodes, files) && Distinct(files)
    ensures L.Ok(nodes, map[])
  {
    hide L.Tree, L.NoDuplicates, L.Names, M.Listing, FreeSlots;
    var free: nat :| nodes[ROOTINO] == L.Node(L.Dir, 1, M.Listing(files, |files|) + FreeSlots(free));
    FreshShape(nodes, files, free);
    FreshDistinct(nodes, files, free);
    forall i | 0 < i < |nodes| ensures nodes[i].nlink == |L.Names(nodes, i)| {
      FreshNames(nodes, files, free, i);
    }
  }

  /** A name that is taken twice breaks the order of any tree made of it. */
  lemma SameNameTwice(nodes: seq<L.Node>, files: seq<M.File>)
    requires Fresh(nodes, files) && !Distinct(files)
    ensures !L.NoDuplicates(nodes)
  {
    hide M.Listing, FreeSlots, M.EntryName, L.NoDuplicates;
    var free: nat :| nodes[ROOTINO] == L.Node(L.Dir, 1, M.Listing(files, |files|) + FreeSlots(free));
    assert |nodes[ROOTINO].entries| == |files| + 2 + free;
    if j, k :| 0 <= j < k < |files| && M.EntryName(files[j].name) == M.EntryName(files[k].name) {
      RootEntry(nodes, files, free, j + 2);
      RootEntry(nodes, files, free, k + 2);
      Twice(nodes, ROOTINO, j + 2, k + 2);
    } else {
      var k :| 0 <= k < |files| && (M.EntryName(files[k].name) == "." || M.EntryName(files[k].name) == "..");
      var j := if M.EntryName(files[k].name) == "." then 0 else 1;
      RootEntry(nodes, files, free, j);
      RootEntry(nodes, files, free, k + 2);
      Twice(nodes, ROOTINO, j, k + 2);
    }
  }

  lemma Twice(nodes: seq<L.Node>, d: nat, j: nat, k: nat)
    requires 0 < d < |nodes| && j < k < |nodes[d].entries| && nodes[d].entries[j].name == nodes[d].entries[k].name
    requires nodes[d].entries[j].inum != 0 && nodes[d].entries[k].inum != 0
    ensures !L.NoDuplicates(nodes)
  {
  }

  /** mkfs and a mount. If the files fit and the root does not fill whole blocks, what is mounted is in order exactly if
      the names are distinct. */
  method MakeAndMount(g: Geometry, super: Block, files: seq<M.File>) returns (fs: FileSys?, ok: bool)
    requires g.Valid() && g.size <= BPB && g.ninodes == L.NINODES
    requires forall k :: 0 <= k < |files| ==> M.IsText(files[k].name)
    ensures ok <==> M.Fits(g, files) && !M.FillsBlocks(files)
    ensures ok ==> fs != null && fresh(fs) && fs.Valid() && M.HoldsFiles(fs.store, fs.inodes, files)
    ensures ok ==> (InOrder(fs, map[]) <==> Distinct(files))
  {
    hide M.Fits, M.HoldsFiles, Owns, OnDisk, Sized, L.Ok, Distinct, Fresh, Nodes;
    fs := null;
    var m;
    m, ok := M.Make(g, super, files);
    ok := ok && !M.FillsBlocks(files);
    if ok {
      fs := new FileSys(g, m.image, m.owner);
      FreshNodes(fs.store, fs.inodes, files);
      if Distinct(files) {
        FreshTreeOk(Nodes(fs.store, fs.inodes), files);
      } else {
        SameNameTwice(Nodes(fs.store, fs.inodes), files);
        NotOk(Nodes(fs.store, fs.inodes));
      }
    }
  }

  lemma NotOk(nodes: seq<L.Node>)
    requires !L.NoDuplicates(nodes)
    ensures !L.Ok(nodes, map[])
  {
  }
}
