/** Bytes, disk blocks and the little-endian 32-bit words the kernel reads out of them. */
module Bytes {
  type byte = x: int | 0 <= x < 256

  const BSIZE: nat := 512
  const U32: nat := 0x1_0000_0000

  type Block = b: seq<byte> | |b| == BSIZE witness seq(BSIZE, _ => 0)

  function ZeroBlock(): (b: Block)
    ensures forall k :: 0 <= k < BSIZE ==> b[k] == 0
  {
    seq(BSIZE, _ => 0)
  }

  /** The word `*(uint32_t *)(b + off)`. */
  function GetU32(b: seq<byte>, off: nat): (v: nat)
    requires off + 4 <= |b|
    ensures v < U32
  {
    b[off] as int + 0x100 * (b[off + 1] as int) + 0x1_0000 * (b[off + 2] as int) + 0x100_0000 * (b[off + 3] as int)
  }

  /** `*(uint32_t *)(b + off) = v`. */
  function PutU32(b: seq<byte>, off: nat, v: nat): (r: seq<byte>)
    requires off + 4 <= |b| && v < U32
    ensures |r| == |b|
  {
    b[off := v % 0x100]
     [off + 1 := v / 0x100 % 0x100]
     [off + 2 := v / 0x1_0000 % 0x100]
     [off + 3 := v / 0x100_0000]
  }

  /** A stored word is read back, and words that do not overlap it keep their value. */
  lemma PutThenGet(b: seq<byte>, off: nat, v: nat)
    requires off + 4 <= |b| && v < U32
    ensures GetU32(PutU32(b, off, v), off) == v
    ensures forall o: nat :: o + 4 <= |b| && (o + 4 <= off || off + 4 <= o) ==>
              GetU32(PutU32(b, off, v), o) == GetU32(b, o)
    ensures forall k :: 0 <= k < |b| && !(off <= k < off + 4) ==> PutU32(b, off, v)[k] == b[k]
  {
    var r := PutU32(b, off, v);
    assert r[off] == v % 0x100 && r[off + 1] == v / 0x100 % 0x100;
    assert r[off + 2] == v / 0x1_0000 % 0x100 && r[off + 3] == v / 0x100_0000;
    assert v / 0x100 == v / 0x1_0000 * 0x100 + v / 0x100 % 0x100;
    assert v / 0x1_0000 == v / 0x100_0000 * 0x100 + v / 0x1_0000 % 0x100;
  }
}
