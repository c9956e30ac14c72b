/** The physical page allocator: next fit over the allocation table. */
module PageAlloc {
  predicate IsFree(norm: seq<bool>, taken: seq<bool>, i: nat) {
    i < |norm| && i < |taken| && norm[i] && !taken[i]
  }

  /** The lowest free page above `last`, or 0. */
  function NextFree(norm: seq<bool>, taken: seq<bool>, last: nat): (i: nat)
    ensures i == 0 ==> forall x: nat :: x > last ==> !IsFree(norm, taken, x)
    ensures i != 0 ==> i > last && IsFree(norm, taken, i) && forall x: nat :: last < x < i ==> !IsFree(norm, taken, x)
    decreases |norm| - last
  {
    if last + 1 >= |norm| then 0
    else if IsFree(norm, taken, last + 1) then last + 1
    else NextFree(norm, taken, last + 1)
  }

  /** The scan does not wrap: it can fail while free pages remain below its starting point. The failure
      resets it, so of two attempts in a row one succeeds exactly when any page is free. */
  lemma SecondAttempt(norm: seq<bool>, taken: seq<bool>, last: nat)
    requires NextFree(norm, taken, last) == 0
    ensures NextFree(norm, taken, 0) != 0 <==> exists i: nat :: i > 0 && IsFree(norm, taken, i)
  {
  }

  /** A miss with a page free: page 1 is free, and the memo is past it. */
  lemma PallocMisses()
    ensures var norm, taken := [false, true, true], [false, false, true];
            IsFree(norm, taken, 1) && NextFree(norm, taken, 1) == 0
  {
    assert NextFree([false, true, true], [false, false, true], 2) == 0;
  }

  /** How many pages above `last` are free. */
  function FreeAbove(norm: seq<bool>, taken: seq<bool>, last: nat): (n: nat)
    decreases |norm| - last
  {
    if last + 1 >= |norm| then 0
    else FreeAbove(norm, taken, last + 1) + if IsFree(norm, taken, last + 1) then 1 else 0
  }

  lemma {:induction false} FreeAboveSame(norm: seq<bool>, taken: seq<bool>, taken': seq<bool>, last: nat)
    requires |taken'| == |taken| && forall i :: last < i < |taken| ==> taken'[i] == taken[i]
    ensures FreeAbove(norm, taken', last) == FreeAbove(norm, taken, last)
    decreases |norm| - last
  {
    if last + 1 < |norm| {
      FreeAboveSame(norm, taken, taken', last + 1);
    }
  }

  /** palloc succeeds exactly while pages above the memo are free, and each success uses up one of them. */
  lemma {:induction false} ScanUsesOne(norm: seq<bool>, taken: seq<bool>, last: nat)
    requires |taken| == |norm|
    ensures NextFree(norm, taken, last) == 0 <==> FreeAbove(norm, taken, last) == 0
    ensures var t := NextFree(norm, taken, last);
            t != 0 ==> t < |taken| && FreeAbove(norm, taken[t := true], t) + 1 == FreeAbove(norm, taken, last)
    decreases |norm| - last
  {
    if last + 1 < |norm| {
      if IsFree(norm, taken, last + 1) {
        FreeAboveSame(norm, taken, taken[last + 1 := true], last + 1);
      } else {
        ScanUsesOne(norm, taken, last + 1);
      }
    }
  }

  lemma SmallMod(i: nat, n: nat)
    requires i < n
    ensures i % n == i
  {
  }

  class AllocTable {
    var norm: seq<bool>
    var taken: seq<bool>
    var last: nat

    constructor (n: seq<bool>, start: nat)
      ensures norm == n && last == start && |taken| == |n| && forall i :: 0 <= i < |n| ==> !taken[i]
    {
      norm, last := n, start;
      taken := seq(|n|, _ => false);
    }

    /** palloc */
    method Palloc() returns (i: nat)
      requires |norm| == |taken| > 0
      modifies this`taken, this`last
      ensures i == NextFree(norm, old(taken), old(last)) && last == i
      ensures taken == if i == 0 then old(taken) else old(taken)[i := true]
    {
      var tnps := |norm|;
      var index := last + 1;
      i := tnps;
      while index < tnps && i == tnps
        invariant last < index && taken == old(taken) && last == old(last)
        invariant i == tnps ==> NextFree(norm, taken, last) == NextFree(norm, taken, index - 1)
        invariant i != tnps ==> i < tnps && i == NextFree(norm, taken, last) && i != 0
      {
        if norm[index] {
          if !taken[index] {
            i := index;
          }
        }
        index := index + 1;
      }
      if i == tnps {
        i := 0;
      } else {
        taken := taken[i := true];
      }
      SmallMod(i, tnps);
      last := i % tnps;
    }

    /** pfree */
    method Pfree(i: nat)
      requires i < |taken|
      modifies this`taken
      ensures taken == old(taken)[i := false]
    {
      taken := taken[i := false];
    }
  }
}
