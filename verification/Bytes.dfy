/** Little-endian words inside a sequence of bytes. */
module Bytes {
  type byte = b: nat | b < 256

  const M8: nat := 0x100
  const M16: nat := 0x1_0000
  const M24: nat := 0x100_0000
  const M32: nat := 0x1_0000_0000

  function Word(d: seq<byte>, p: nat): (w: nat)
    requires p + 4 <= |d|
    ensures w < M32
  {
    d[p] + M8 * d[p + 1] + M16 * d[p + 2] + M24 * d[p + 3]
  }

  function Byte(w: nat, k: nat): byte
    requires k < 4
  {
    if k == 0 then w % M8 else if k == 1 then w / M8 % M8 else if k == 2 then w / M16 % M8 else w / M24 % M8
  }

  function Bytes4(w: nat): (b: seq<byte>)
    ensures |b| == 4
  {
    [Byte(w, 0), Byte(w, 1), Byte(w, 2), Byte(w, 3)]
  }

  /** d with the word at p replaced. */
  function Put(d: seq<byte>, p: nat, w: nat): (r: seq<byte>)
    requires p + 4 <= |d|
    ensures |r| == |d| && forall i :: 0 <= i < |d| && !(p <= i < p + 4) ==> r[i] == d[i]
  {
    d[..p] + Bytes4(w) + d[p + 4..]
  }

  lemma By16(w: nat)
    ensures w / M16 == w / M8 / M8
  {
  }

  lemma By24(w: nat)
    ensures w / M24 == w / M16 / M8
  {
  }

  lemma BytesAgain(w: nat)
    requires w < M32
    ensures Byte(w, 0) + M8 * Byte(w, 1) + M16 * Byte(w, 2) + M24 * Byte(w, 3) == w
  {
    var b, c, e := w / M8, w / M16, w / M24;
    By16(w);
    By24(w);
    assert w == M8 * b + w % M8;
    assert b == M8 * c + b % M8;
    assert c == M8 * e + c % M8;
    assert e < M8;
  }

  lemma WordPut(d: seq<byte>, p: nat, w: nat)
    requires p + 4 <= |d| && w < M32
    ensures Word(Put(d, p, w), p) == w
  {
    BytesAgain(w);
    hide Byte;
  }

  lemma WordElsewhere(d: seq<byte>, p: nat, w: nat, q: nat)
    requires p + 4 <= |d| && q + 4 <= |d| && (q + 4 <= p || p + 4 <= q)
    ensures Word(Put(d, p, w), q) == Word(d, q)
  {
  }
}
