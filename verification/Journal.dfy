/** The block writes of one transaction, in order. */
module Journal {
  import opened Bytes

  /** The blocks after the writes. */
  ghost function Replay(base: seq<Block>, journal: seq<(nat, Block)>): (r: seq<Block>)
    ensures |r| == |base|
  {
    if journal == [] then base
    else
      var before, (s, blk) := Replay(base, journal[..|journal| - 1]), journal[|journal| - 1];
      if s < |base| then before[s := blk] else before
  }

  ghost function Sectors(journal: seq<(nat, Block)>): set<nat> {
    set k | 0 <= k < |journal| :: journal[k].0
  }

  lemma Appended(base: seq<Block>, journal: seq<(nat, Block)>, s: nat, blk: Block)
    requires s < |base|
    ensures Replay(base, journal + [(s, blk)]) == Replay(base, journal)[s := blk]
    ensures Sectors(journal + [(s, blk)]) == Sectors(journal) + {s}
  {
    var j := journal + [(s, blk)];
    assert j[..|j| - 1] == journal;
    forall x | x in Sectors(journal) ensures x in Sectors(j) {
      var k :| 0 <= k < |journal| && journal[k].0 == x;
      assert j[k].0 == x;
    }
    assert j[|journal|].0 == s;
  }
}
