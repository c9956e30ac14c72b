/** Taking an element out of a sequence, which is what unlinking a node does to the list it is in, sizes of sets, and
    counting. */
module Sequences {
  function Min(a: nat, b: nat): (m: nat)
    ensures m <= a && m <= b && (m == a || m == b)
  {
    if a < b then a else b
  }

  /** `q` without the first `x`. */
  ghost function Without(q: seq<nat>, x: nat): (r: seq<nat>)
    ensures x !in q ==> r == q
    ensures |r| <= |q|
  {
    if q == [] then [] else if q[0] == x then q[1..] else [q[0]] + Without(q[1..], x)
  }

  lemma {:induction false} WithoutAt(q: seq<nat>, k: nat)
    requires k < |q| && forall j :: 0 <= j < k ==> q[j] != q[k]
    ensures Without(q, q[k]) == q[..k] + q[k + 1..]
  {
    if k > 0 {
      WithoutAt(q[1..], k - 1);
      assert [q[0]] + (q[1..][..k - 1] + q[1..][k..]) == q[..k] + q[k + 1..];
    }
  }

  /** Cutting out position `k` of a duplicate-free sequence removes just that element. */
  lemma CutMembers(q: seq<nat>, k: nat)
    requires k < |q| && forall i, j :: 0 <= i < j < |q| ==> q[i] != q[j]
    ensures forall y :: y in q[..k] + q[k + 1..] <==> y in q && y != q[k]
  {
  }

  lemma CutDistinct(q: seq<nat>, k: nat)
    requires k < |q| && forall i, j :: 0 <= i < j < |q| ==> q[i] != q[j]
    ensures var r := q[..k] + q[k + 1..]; forall i, j :: 0 <= i < j < |r| ==> r[i] != r[j]
  {
  }

  lemma WithoutMembers(q: seq<nat>, x: nat)
    requires forall j, k :: 0 <= j < k < |q| ==> q[j] != q[k]
    ensures forall y :: y in Without(q, x) <==> y in q && y != x
    ensures forall k :: 0 <= k < |Without(q, x)| ==> Without(q, x)[k] in q
    ensures forall j, k :: 0 <= j < k < |Without(q, x)| ==> Without(q, x)[j] != Without(q, x)[k]
  {
  }

  lemma {:induction false} SubsetSize<T>(a: set<T>, b: set<T>)
    requires a <= b
    ensures |a| <= |b|
  {
    if a != {} {
      var x :| x in a;
      SubsetSize(a - {x}, b - {x});
    }
  }

  /** How often `x` stands in `s`. */
  function Count(s: seq<nat>, x: nat): nat {
    if s == [] then 0 else Count(s[..|s| - 1], x) + if s[|s| - 1] == x then 1 else 0
  }

  lemma {:induction false} CountSet(s: seq<nat>, i: nat, v: nat, x: nat)
    requires i < |s|
    ensures Count(s[i := v], x) + (if s[i] == x then 1 else 0) == Count(s, x) + (if v == x then 1 else 0)
  {
    var n := |s| - 1;
    if i == n {
      assert s[i := v][..n] == s[..n];
    } else {
      CountSet(s[..n], i, v, x);
      assert s[i := v][..n] == s[..n][i := v];
    }
  }

  lemma {:induction false} CountSome(s: seq<nat>, x: nat)
    ensures Count(s, x) > 0 <==> x in s
  {
    if s != [] {
      CountSome(s[..|s| - 1], x);
      assert s == s[..|s| - 1] + [s[|s| - 1]];
    }
  }

  lemma CountTwo(s: seq<nat>, x: nat)
    ensures Count(s, x) >= 2 <==> exists i, j :: 0 <= i < j < |s| && s[i] == x && s[j] == x
  {
    if i, j :| 0 <= i < j < |s| && s[i] == x && s[j] == x {
      CountSet(s, i, x + 1, x);
      CountSome(s[i := x + 1], x);
      assert s[i := x + 1][j] == x;
    } else if Count(s, x) >= 1 {
      CountSome(s, x);
      var i :| 0 <= i < |s| && s[i] == x;
      CountSet(s, i, x + 1, x);
      CountSome(s[i := x + 1], x);
    }
  }
}
