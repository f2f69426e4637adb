/** The words that allocate an AArch64 stack frame, written over two nops once its size is known. */
module A64Frame {
  import opened Binary

  const NOP: nat := 0xd503_201f
  const SUB_SP: nat := 0xd100_03ff // sub sp, sp, #imm
  const SUB_SP_LSL12: nat := 0xd140_03ff // sub sp, sp, #imm, lsl #12
  const SUB_SP_X16: nat := 0xcb30_63ff // sub sp, sp, x16, lsl #amount
  const MOVZ_X16: nat := 0xd280_0010 // mov x16, #imm, lsl #(16 * hw)

  /** How far sp has gone down, and x16. */
  datatype Frame = Frame(down: nat, x16: nat)

  /** w is base with a number below limit in the bits from unit up. */
  predicate Has(w: nat, base: nat, unit: nat, limit: nat)
    requires unit > 0
  {
    w >= base && (w - base) % unit == 0 && (w - base) / unit < limit
  }

  function Exec(w: nat, f: Frame): Option<Frame> {
    if w == NOP then Some(f)
    else if Has(w, SUB_SP, 0x400, 0x1000) then Some(f.(down := f.down + (w - SUB_SP) / 0x400))
    else if Has(w, SUB_SP_LSL12, 0x400, 0x1000) then Some(f.(down := f.down + (w - SUB_SP_LSL12) / 0x400 * 0x1000))
    else if Has(w, SUB_SP_X16, 0x400, 5) then Some(f.(down := f.down + f.x16 * P((w - SUB_SP_X16) / 0x400)))
    else if Has(w, MOVZ_X16, 0x20, 0x4_0000) then
      var n := (w - MOVZ_X16) / 0x20;
      Some(f.(x16 := n % 0x1_0000 * P(16 * (n / 0x1_0000))))
    else None
  }

  /** How far the two words move sp down. */
  function Down(w0: nat, w1: nat): Option<nat> {
    match Exec(w0, Frame(0, 0))
    case None => None
    case Some(f) =>
      match Exec(w1, f)
      case None => None
      case Some(g) => Some(g.down)
  }

  /** diff units of s are d rounded up. */
  predicate Covers(d: nat, diff: nat, s: nat) {
    diff > 0 && (diff - 1) * s < d <= diff * s
  }

  /** Less than 17/16 of d. */
  predicate Tight(d: nat, diff: nat, s: nat) {
    16 * (diff * s) < 17 * d
  }

  function CeilDiv(v: nat, k: nat): nat
    requires k > 0
  {
    (v + (k - 1)) / k
  }

  lemma CeilDivIs(v: nat, k: nat)
    requires k > 0 && v > 0
    ensures var q := CeilDiv(v, k); q > 0 && v <= q * k < v + k
  {
    var q, r := (v + (k - 1)) / k, (v + (k - 1)) % k;
    assert v + (k - 1) == k * q + r;
    assert q == 0 ==> k * q == 0;
  }

  lemma MulLe(a: nat, b: nat, s: nat)
    requires a <= b
    ensures a * s <= b * s
  {
  }

  /** Rounding again to k units. */
  lemma Again(d: nat, v: nat, s: nat, k: nat)
    requires Covers(d, v, s) && k > 0
    ensures Covers(d, CeilDiv(v, k), k * s)
  {
    var q := CeilDiv(v, k);
    CeilDivIs(v, k);
    assert (q - 1) * k == q * k - k;
    MulLe((q - 1) * k, v - 1, s);
    MulLe(v, q * k, s);
    assert (q - 1) * (k * s) == ((q - 1) * k) * s && q * (k * s) == (q * k) * s;
  }

  /** Rounding a large v up by less than a sixteenth. */
  lemma StaysTight(d: nat, v: nat, s: nat, k: nat)
    requires Covers(d, v, s) && k > 0
    requires 16 * (CeilDiv(v, k) * k - v + 1) <= v - 1
    ensures Tight(d, CeilDiv(v, k), k * s)
  {
    var q := CeilDiv(v, k);
    CeilDivIs(v, k);
    var e := q * k - v;
    MulLe(16 * (e + 1), v - 1, s);
    assert q * (k * s) == (q * k) * s == (v - 1) * s + (e + 1) * s by {
      assert q * k == (v - 1) + (e + 1);
    }
    assert 16 * (e + 1) * s == 16 * ((e + 1) * s);
  }

  lemma PNext(n: nat)
    ensures P(n + 1) == 2 * P(n) && P(n + 16) == 0x1_0000 * P(n)
  {
    PAdd(16, n);
    assert P(4) == 16;
    assert P(8) == 256 by {
      PAdd(4, 4);
    }
    PAdd(8, 8);
  }

  /** What is left at most after i steps of 16 bits, and after j steps of one bit. */
  function Cap16(i: nat): nat {
    if i == 0 then 0x7fff_ffff_ffff_ffff
    else if i == 1 then 0x8000_0000_0000 else if i == 2 then 0x8000_0000 else 0x8000
  }

  function Cap1(j: nat): nat {
    if j == 0 then 0xf_ffff else if j == 1 then 0x8_0000 else if j == 2 then 0x4_0000 else if j == 3 then 0x2_0000
    else if j == 4 then 0x1_0000 else 0x8000
  }

  /** A frame of 2 to the power 24 bytes or more as diff units of 16 * i + j bits; loc has 32 bits, so one step of 16
    * bits is enough. */
  method RoundFrame(d: nat) returns (diff: nat, i: nat, j: nat)
    requires 0x100_0000 <= d < 0x8000_0000_0000_0000
    ensures 0 < diff < 0x1_0000 && 1 <= i <= 3 && j <= 5
    ensures Covers(d, diff, P(16 * i + j)) && Tight(d, diff, P(16 * i + j))
    ensures d <= 0x8000_0000 ==> i == 1 && j == 0
  {
    hide P, Covers, Tight, CeilDiv, Cap16, Cap1;
    diff, i, j := d, 0, 0;
    Start(d);
    while diff >= 0x10_0000
      invariant Covers(d, diff, P(16 * i)) && i <= 3 && diff <= Cap16(i)
      invariant i == 0 ==> diff == d
      invariant d <= 0x8000_0000 && i > 0 ==> i == 1 && diff <= 0x8000
      invariant i > 0 ==> Tight(d, diff, P(16 * i))
      decreases diff
    {
      ghost var s := P(16 * i);
      PNext(16 * i);
      SixteenBits(diff, i);
      Again(d, diff, s, 0x1_0000);
      StaysTight(d, diff, s, 0x1_0000);
      diff := CeilDiv(diff, 0x1_0000);
      i := i + 1;
    }
    SmallNow(diff);
    while diff >= 0x1_0000
      invariant Covers(d, diff, P(16 * i + j)) && Tight(d, diff, P(16 * i + j)) && j <= 5 && diff <= Cap1(j)
      invariant j > 0 ==> d > 0x8000_0000
      decreases diff
    {
      ghost var s := P(16 * i + j);
      PNext(16 * i + j);
      OneBit(diff, j);
      Again(d, diff, s, 2);
      StaysTight(d, diff, s, 2);
      diff := CeilDiv(diff, 2);
      j := j + 1;
    }
    CoversPositive(d, diff, P(16 * i + j));
  }

  lemma SmallNow(diff: nat)
    requires diff < 0x10_0000
    ensures diff <= Cap1(0)
  {
  }

  lemma Start(d: nat)
    requires 0 < d < 0x8000_0000_0000_0000
    ensures Covers(d, d, P(0)) && d <= Cap16(0)
  {
    assert P(0) == 1;
  }

  lemma CoversPositive(d: nat, diff: nat, s: nat)
    requires Covers(d, diff, s)
    ensures diff > 0 && d <= diff * s
  {
  }

  lemma SixteenBits(v: nat, i: nat)
    requires v >= 0x10_0000 && v <= Cap16(i)
    ensures var q := CeilDiv(v, 0x1_0000); 16 * (q * 0x1_0000 - v + 1) <= v - 1 && q < v && i < 3 && q <= Cap16(i + 1)
    ensures v <= 0x8000_0000 ==> CeilDiv(v, 0x1_0000) <= 0x8000
  {
    CeilDivIs(v, 0x1_0000);
    hide CeilDiv;
  }

  lemma OneBit(v: nat, j: nat)
    requires v >= 0x1_0000 && v <= Cap1(j)
    ensures var q := CeilDiv(v, 2); 16 * (q * 2 - v + 1) <= v - 1 && q < v && j < 5 && q <= Cap1(j + 1)
  {
    CeilDivIs(v, 2);
    hide CeilDiv;
  }

  /** The frame size: loc is negative, and sp stays a multiple of 16. */
  function FrameSize(loc: int): nat
    requires loc <= 0
  {
    (15 - loc) / 16 * 16
  }

  /** One word with number n. */
  lemma HasIt(base: nat, unit: nat, n: nat, limit: nat)
    requires unit > 0 && n < limit
    ensures Has(base + n * unit, base, unit, limit) && (base + n * unit - base) / unit == n
  {
    assert n * unit == unit * n + 0;
    DivUnique(unit, n, 0, n * unit);
  }

  lemma NotHas(w: nat, base: nat, unit: nat, limit: nat)
    requires unit > 0 && w >= base + limit * unit
    ensures !Has(w, base, unit, limit)
  {
    var q, r := (w - base) / unit, (w - base) % unit;
    assert w - base == unit * q + r;
    assert q < limit ==> unit * q <= unit * (limit - 1);
  }

  lemma SubWord(n: nat, f: Frame)
    requires n < 0x1000
    ensures Exec(SUB_SP + n * 0x400, f) == Some(f.(down := f.down + n))
    ensures Exec(SUB_SP_LSL12 + n * 0x400, f) == Some(f.(down := f.down + n * 0x1000))
    ensures Exec(NOP, f) == Some(f)
  {
    HasIt(SUB_SP, 0x400, n, 0x1000);
    HasIt(SUB_SP_LSL12, 0x400, n, 0x1000);
  }

  lemma MovWord(diff: nat, i: nat, f: Frame)
    requires diff < 0x1_0000 && i <= 3
    ensures Exec(MOVZ_X16 + diff * 0x20 + i * 0x20_0000, f) == Some(f.(x16 := diff * P(16 * i)))
  {
    var n := diff + i * 0x1_0000;
    hide P, Has;
    var w := MOVZ_X16 + diff * 0x20 + i * 0x20_0000;
    assert w == MOVZ_X16 + n * 0x20;
    HasIt(MOVZ_X16, 0x20, n, 0x4_0000);
    NotHas(w, SUB_SP, 0x400, 0x1000);
    NotHas(w, SUB_SP_LSL12, 0x400, 0x1000);
    NotHas(w, SUB_SP_X16, 0x400, 5);
    DivUnique(0x1_0000, i, diff, n);
  }

  lemma SubX16(j: nat, f: Frame)
    requires j < 5
    ensures Exec(SUB_SP_X16 + j * 0x400, f) == Some(f.(down := f.down + f.x16 * P(j)))
  {
    hide P;
    HasIt(SUB_SP_X16, 0x400, j, 5);
    assert SUB_SP_X16 + j * 0x400 < SUB_SP;
  }

  /** Writes the frame allocation over the two nops at ptr: exact below 2 to the power 24, else less than 17/16 of
    * it. */
  method AllocateFrame(code: array<nat>, ptr: nat, loc: int)
    requires ptr + 1 < code.Length && code[ptr] == code[ptr + 1] == NOP && -0x7fff_fff0 <= loc <= 0
    modifies code
    ensures forall k :: 0 <= k < code.Length && k != ptr && k != ptr + 1 ==> code[k] == old(code[k])
    ensures var d := FrameSize(loc);
      && Down(code[ptr], code[ptr + 1]).Some?
      && var down := Down(code[ptr], code[ptr + 1]).value;
      down % 16 == 0 && d <= down && (if d < 0x100_0000 then down == d else 16 * down < 17 * d)
  {
    hide Exec, P, Covers, Tight, FrameSize;
    SizeIs(loc);
    SubWord(0, Frame(0, 0));
    if loc != 0 {
      var diff: nat := FrameSize(loc);
      if diff < 0x100_0000 {
        var lo, hi := diff % 0x1000, diff / 0x1000;
        SubWord(lo, Frame(0, 0));
        SubWord(hi, Frame(lo, 0));
        if lo != 0 {
          code[ptr] := SUB_SP + lo * 0x400;
        }
        if hi != 0 {
          code[ptr + 1] := SUB_SP_LSL12 + hi * 0x400;
        }
      } else {
        var i, j;
        diff, i, j := RoundFrame(diff);
        MovWord(diff, i, Frame(0, 0));
        SubX16(j, Frame(0, diff * P(16 * i)));
        RoundedBy(FrameSize(loc), diff, i, j);
        code[ptr] := MOVZ_X16 + diff * 0x20 + i * 0x20_0000;
        code[ptr + 1] := SUB_SP_X16 + j * 0x400;
      }
    }
  }

  lemma SizeIs(loc: int)
    requires -0x7fff_fff0 <= loc <= 0
    ensures FrameSize(loc) % 16 == 0 && -loc <= FrameSize(loc) < -loc + 16 && FrameSize(loc) <= 0x7fff_fff0
    ensures loc == 0 ==> FrameSize(loc) == 0
  {
  }

  lemma Assoc(a: nat, b: nat, c: nat)
    ensures a * b * c == a * (b * c) && a * (16 * c) == 16 * (a * c)
  {
  }

  lemma RoundedBy(d: nat, diff: nat, i: nat, j: nat)
    requires Covers(d, diff, P(16 * i + j)) && Tight(d, diff, P(16 * i + j)) && i >= 1
    ensures var down := diff * P(16 * i) * P(j); d <= down && 16 * down < 17 * d && down % 16 == 0
  {
    hide P;
    PAdd(16 * i, j);
    var t: nat := 16 * i + j - 4;
    PAdd(4, t);
    SmallPowers();
    Assoc(diff, P(16 * i), P(j));
    Assoc(diff, 16, P(t));
    var x := diff * P(t);
    assert diff * P(16 * i) * P(j) == 16 * x;
  }
}
