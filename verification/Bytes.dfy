// Big-endian fields inside byte buffers, as Go's encoding/binary reads and writes them.
module Bytes {

  type byte = x: int | 0 <= x < 256
  type u16 = x: int | 0 <= x < 0x1_0000
  type u32 = x: int | 0 <= x < 0x1_0000_0000

  const TWO_TO_THE_32: int := 0x1_0000_0000

  function U16At(p: seq<byte>, off: nat): (v: u16)
    requires off + 2 <= |p|
  {
    p[off] as int * 0x100 + p[off + 1]
  }

  function PutU16(p: seq<byte>, off: nat, v: u16): (q: seq<byte>)
    requires off + 2 <= |p|
    ensures |q| == |p| && U16At(q, off) == v
    ensures forall i :: 0 <= i < |p| && (i < off || off + 2 <= i) ==> q[i] == p[i]
  {
    p[off := v / 0x100][off + 1 := v % 0x100]
  }

  function U32At(p: seq<byte>, off: nat): (v: u32)
    requires off + 4 <= |p|
  {
    U16At(p, off) as int * 0x1_0000 + U16At(p, off + 2)
  }

  function PutU32(p: seq<byte>, off: nat, v: u32): (q: seq<byte>)
    requires off + 4 <= |p|
    ensures |q| == |p| && U32At(q, off) == v
    ensures forall i :: 0 <= i < |p| && (i < off || off + 4 <= i) ==> q[i] == p[i]
  {
    PutU16(PutU16(p, off, v / 0x1_0000), off + 2, v % 0x1_0000)
  }

  // vs written one after the other from off on.
  function PutU32s(p: seq<byte>, off: nat, vs: seq<u32>): (q: seq<byte>)
    requires off + 4 * |vs| <= |p|
    ensures |q| == |p|
    ensures forall i :: 0 <= i < |p| && (i < off || off + 4 * |vs| <= i) ==> q[i] == p[i]
    ensures forall j :: 0 <= j < |vs| ==> U32At(q, off + 4 * j) == vs[j]
  {
    if vs == [] then p
    else
      var n := |vs| - 1;
      var r := PutU32s(p, off, vs[..n]);
      var q := PutU32(r, off + 4 * n, vs[n]);
      assert forall j :: 0 <= j < n ==> U32At(q, off + 4 * j) == U32At(r, off + 4 * j);
      q
  }
}
