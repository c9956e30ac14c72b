/** Directory entries: what a directory's content means, and the comparison and copying of names. */
module Dirents {
  import opened Bytes
  import opened Dinodes

  const DIRSIZ: nat := 14
  const DIRENT: nat := 16

  /** A directory entry; inode number 0 marks a free one. */
  datatype Dirent = Dirent(inum: nat, name: string)

  /** What fits an entry: no NUL, and at most DIRSIZ characters. */
  predicate GoodName(name: string) {
    |name| <= DIRSIZ && forall k :: 0 <= k < |name| ==> 0 < name[k] as int < 256
  }

  /** The free entry that dir_link fills: the first one, or a new one at the end. */
  predicate IsSlot(entries: seq<Dirent>, k: nat) {
    && k <= |entries| && (k < |entries| ==> entries[k].inum == 0)
    && forall j :: 0 <= j < k ==> entries[j].inum != 0
  }

  function Put(entries: seq<Dirent>, k: nat, e: Dirent): (r: seq<Dirent>)
    requires k <= |entries|
    ensures |r| == (if k < |entries| then |entries| else |entries| + 1) && r[k] == e
    ensures forall j :: 0 <= j < |entries| && j != k ==> r[j] == entries[j]
  {
    if k < |entries| then entries[k := e] else entries + [e]
  }

  predicate HasName(entries: seq<Dirent>, name: string) {
    exists k :: 0 <= k < |entries| && entries[k].inum != 0 && entries[k].name == name
  }

  /** Free entries. */
  function FreeSlots(n: nat): (es: seq<Dirent>)
    ensures |es| == n
  {
    seq(n, _ => Dirent(0, ""))
  }

  /** strncpy(dst, name, DIRSIZ): padded with NULs. */
  function NameBytes(name: string): (b: seq<byte>)
    requires GoodName(name)
    ensures |b| == DIRSIZ && forall k :: 0 <= k < DIRSIZ ==> b[k] == if k < |name| then name[k] as int else 0
  {
    seq(DIRSIZ, k requires 0 <= k < DIRSIZ => if k < |name| then name[k] as int else 0)
  }

  /** The characters of a name field, up to a NUL or its end. */
  function FieldName(b: seq<byte>): (name: string)
    ensures |name| <= |b| && (|name| < |b| ==> b[|name|] == 0)
    ensures forall k :: 0 <= k < |name| ==> b[k] != 0 && name[k] as int == b[k]
  {
    if b == [] || b[0] == 0 then "" else [b[0] as char] + FieldName(b[1..])
  }

  /** strncmp on two fields of `n` bytes: where its loop stops. */
  method StrNCmp(p: seq<byte>, q: seq<byte>, n: nat) returns (r: int)
    requires n <= |p| && n <= |q|
    ensures r == 0 <==> FieldName(p[..n]) == FieldName(q[..n])
  {
    var i := 0;
    while i < n && p[i] != 0 && p[i] == q[i]
      invariant 0 <= i <= n && forall k :: 0 <= k < i ==> p[k] == q[k] != 0
    {
      i := i + 1;
    }
    SameFieldName(p[..n], q[..n], i);
    if i == n {
      return 0;
    }
    return p[i] as int - q[i] as int;
  }

  /** Fields that agree up to a common end have the same name, and fields that differ before it do not. */
  lemma SameFieldName(p: seq<byte>, q: seq<byte>, i: nat)
    requires |p| == |q| && i <= |p| && forall k :: 0 <= k < i ==> p[k] == q[k] != 0
    requires i < |p| ==> p[i] == 0 || p[i] != q[i]
    ensures FieldName(p) == FieldName(q) <==> i == |p| || p[i] == q[i]
  {
    var a, b := FieldName(p), FieldName(q);
    assert |a| >= i && |b| >= i;
    if i == |p| || p[i] == q[i] {
      assert |a| == |b| == i;
      forall k | 0 <= k < i ensures a[k] == b[k] {
        assert a[k] as int == b[k] as int;
      }
    }
  }

  /** A name that fits reads back as it was stored. */
  lemma NameRoundTrip(name: string)
    requires GoodName(name)
    ensures FieldName(NameBytes(name)) == name
  {
    var b := NameBytes(name);
    var a := FieldName(b);
    assert forall k :: 0 <= k < DIRSIZ ==> (b[k] == 0 <==> k >= |name|);
    if |name| < DIRSIZ {
      assert b[|name|] == 0;
    }
    assert |a| == |name|;
    forall k | 0 <= k < |name| ensures a[k] == name[k] {
      assert a[k] as int == name[k] as int;
    }
  }

  function Encode(e: Dirent): (b: seq<byte>)
    requires e.inum < 0x1_0000 && GoodName(e.name)
    ensures |b| == DIRENT && b[0] as int + 0x100 * b[1] as int == e.inum
    ensures forall k :: 0 <= k < DIRSIZ ==> b[2 + k] == if k < |e.name| then e.name[k] as int else 0
  {
    [e.inum % 0x100, e.inum / 0x100] + NameBytes(e.name)
  }

  function Decode(b: seq<byte>): (e: Dirent)
    requires |b| == DIRENT
  {
    Dirent(GetU16(b, 0), FieldName(b[2..]))
  }

  lemma DirentRoundTrip(e: Dirent)
    requires e.inum < 0x1_0000 && GoodName(e.name)
    ensures Decode(Encode(e)) == e
  {
    assert Encode(e)[2..] == NameBytes(e.name);
    NameRoundTrip(e.name);
  }

  /** The entries that a directory's content holds. */
  function Parse(content: seq<byte>): (entries: seq<Dirent>)
    ensures |entries| == |content| / DIRENT
    ensures forall k :: 0 <= k < |entries| ==> entries[k] == Decode(content[DIRENT * k..DIRENT * k + DIRENT])
  {
    seq(|content| / DIRENT, k requires 0 <= k < |content| / DIRENT => Decode(content[DIRENT * k..DIRENT * k + DIRENT]))
  }

  /** Writing one encoded entry at its place, which may be the end, is putting it among the entries. */
  lemma ParseWrite(content: seq<byte>, k: nat, e: Dirent, content': seq<byte>)
    requires |content| % DIRENT == 0 && DIRENT * k <= |content| && e.inum < 0x1_0000 && GoodName(e.name)
    requires |content'| == (if DIRENT * k < |content| then |content| else |content| + DIRENT)
    requires forall x :: 0 <= x < |content'| ==>
               content'[x] == if DIRENT * k <= x < DIRENT * k + DIRENT then Encode(e)[x - DIRENT * k] else content[x]
    ensures k <= |Parse(content)| && Parse(content') == Put(Parse(content), k, e) && |content'| % DIRENT == 0
  {
    hide Decode, Encode;
    var a, b := Parse(content), Parse(content');
    DirentRoundTrip(e);
    assert content'[DIRENT * k..DIRENT * k + DIRENT] == Encode(e);
    forall j | 0 <= j < |b| && j != k ensures b[j] == a[j] {
      assert content'[DIRENT * j..DIRENT * j + DIRENT] == content[DIRENT * j..DIRENT * j + DIRENT];
    }
  }
}
