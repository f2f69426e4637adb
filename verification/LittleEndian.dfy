/** Little-endian words in a sequence of bytes, as bit vectors. */
module LittleEndian {
  import opened BitFacts

  type Data = seq<bv8>

  function Read16(d: Data, p: nat): bv32
    requires p + 2 <= |d|
  {
    (d[p] as bv32) | ((d[p + 1] as bv32) << 8)
  }

  function Read32(d: Data, p: nat): bv32
    requires p + 4 <= |d|
  {
    (d[p] as bv32) | ((d[p + 1] as bv32) << 8) | ((d[p + 2] as bv32) << 16) | ((d[p + 3] as bv32) << 24)
  }

  function Byte0(w: bv32): bv8 { (w & 0xff) as bv8 }
  function Byte1(w: bv32): bv8 { ((w >> 8) & 0xff) as bv8 }
  function Byte2(w: bv32): bv8 { ((w >> 16) & 0xff) as bv8 }
  function Byte3(w: bv32): bv8 { (w >> 24) as bv8 }

  function Write16(d: Data, p: nat, w: bv32): (r: Data)
    requires p + 2 <= |d|
    ensures |r| == |d|
  {
    d[p := Byte0(w)][p + 1 := Byte1(w)]
  }

  function Write32(d: Data, p: nat, w: bv32): (r: Data)
    requires p + 4 <= |d|
    ensures |r| == |d|
  {
    d[p := Byte0(w)][p + 1 := Byte1(w)][p + 2 := Byte2(w)][p + 3 := Byte3(w)]
  }

  lemma JoinBytes(w: bv32)
    ensures Diff32((Byte0(w) as bv32) | ((Byte1(w) as bv32) << 8) | ((Byte2(w) as bv32) << 16)
                   | ((Byte3(w) as bv32) << 24), w) == 0
  {
  }

  lemma JoinHalf(w: bv32)
    requires w < 0x1_0000
    ensures Diff32((Byte0(w) as bv32) | ((Byte1(w) as bv32) << 8), w) == 0
  {
  }

  lemma ReadBack(d: Data, p: nat, w: bv32)
    requires p + 4 <= |d|
    ensures Read32(Write32(d, p, w), p) == w
  {
    var r := Write32(d, p, w);
    assert r[p] == Byte0(w) && r[p + 1] == Byte1(w) && r[p + 2] == Byte2(w) && r[p + 3] == Byte3(w);
    JoinBytes(w);
    hide Write32, Byte0, Byte1, Byte2, Byte3;
    Same32((Byte0(w) as bv32) | ((Byte1(w) as bv32) << 8) | ((Byte2(w) as bv32) << 16) | ((Byte3(w) as bv32) << 24), w);
  }

  lemma ReadBack16(d: Data, p: nat, w: bv32)
    requires p + 2 <= |d| && w < 0x1_0000
    ensures Read16(Write16(d, p, w), p) == w
  {
    var r := Write16(d, p, w);
    assert r[p] == Byte0(w) && r[p + 1] == Byte1(w);
    JoinHalf(w);
    hide Write16, Byte0, Byte1;
    Same32((Byte0(w) as bv32) | ((Byte1(w) as bv32) << 8), w);
  }

  /** The same bytes at p give the same words. */
  predicate SameBytes(d: Data, e: Data, p: nat, n: nat) {
    |d| == |e| && p + n <= |d| && forall b :: p <= b < p + n ==> d[b] == e[b]
  }

  lemma SameWords(d: Data, e: Data, p: nat, n: nat)
    requires SameBytes(d, e, p, n)
    ensures n >= 2 ==> Read16(d, p) == Read16(e, p)
    ensures n >= 4 ==> Read32(d, p) == Read32(e, p)
    ensures n >= 8 ==> Read32(d, p + 4) == Read32(e, p + 4)
  {
  }

  lemma HalfBelow(d: Data, p: nat)
    requires p + 2 <= |d|
    ensures Read16(d, p) < 0x1_0000
  {
    HalfSum(d[p], d[p + 1]);
  }

  lemma HalfSum(a: bv8, b: bv8)
    ensures (a as bv32) | ((b as bv32) << 8) < 0x1_0000
  {
  }

  lemma WrittenElsewhere(d: Data, p: nat, w: bv32, q: nat)
    requires p + 4 <= |d| && q + 4 <= |d| && (q + 4 <= p || p + 4 <= q)
    ensures Read32(Write32(d, p, w), q) == Read32(d, q)
  {
    hide Byte0, Byte1, Byte2, Byte3, Read32, Read16;
    SameWords(Write32(d, p, w), d, q, 4);
  }

  method Write16le(data: array<bv8>, p: nat, w: bv32)
    requires p + 2 <= data.Length
    modifies data
    ensures data[..] == Write16(old(data[..]), p, w)
  {
    data[p] := Byte0(w);
    data[p + 1] := Byte1(w);
  }

  method Write32le(data: array<bv8>, p: nat, w: bv32)
    requires p + 4 <= data.Length
    modifies data
    ensures data[..] == Write32(old(data[..]), p, w)
  {
    data[p] := Byte0(w);
    data[p + 1] := Byte1(w);
    data[p + 2] := Byte2(w);
    data[p + 3] := Byte3(w);
  }
}
