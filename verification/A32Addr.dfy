/** Folding the part of an offset that a load or store cannot hold into its base register. */
module A32Addr {
  import opened Binary
  import opened A32Machine
  import opened A32Const
  import opened A32Add
  import opened TextSection

  function LowMask(shift: bv32): bv32
    requires shift < 32
  {
    (1 << shift) - 1
  }

  /** The offset fields of the three kinds of load and store: ldc, ldrh and ldr. */
  predicate Shape(maxoff: bv32, shift: bv32) {
    (maxoff == 1020 && shift == 2) || (maxoff == 255 && shift == 0) || (maxoff == 4095 && shift == 0)
  }

  predicate Fits(off: bv32, maxoff: bv32, shift: bv32)
    requires shift < 32
  {
    off <= maxoff && off & LowMask(shift) == 0
  }

  /** The address that base, off and sgn describe. */
  function Address(m: Regs, base: bv32, off: bv32, sgn: bool): bv32 {
    if sgn then Sub(R(m, Ix(base)), off) else Add(R(m, Ix(base)), off)
  }

  /** ws turns the first address into the second and writes no register but lr. */
  ghost predicate Moves(ws: seq<bv32>, base: bv32, off: bv32, sgn: bool, base2: bv32, off2: bv32, sgn2: bool) {
    forall m: Regs :: RunCode(ws, m).Some? && (
      var n := RunCode(ws, m).value;
      Address(n, base2, off2, sgn2) == Address(m, base, off, sgn) && forall r: nat | r != 14 :: R(n, r) == R(m, r))
  }

  /** add or sub lr, base, #0 */
  function BaseWord(base: bv32, sgn: bool): bv32 {
    (if sgn then 0xe240_e000 else 0xe280_e000) | (base << 16)
  }

  lemma BaseFields(base: bv32, sgn: bool)
    requires base < 16
    ensures var x := BaseWord(base, sgn);
      AddOrSub(x) && ImmForm(x) && Rn(x) == Ix(base) && Rd(x) == 14 && Opcode(x) == (if sgn then 2 else 4)
  {
  }

  lemma ShapeMasks(maxoff: bv32, shift: bv32)
    requires Shape(maxoff, shift)
    ensures shift < 32 && LowMask(shift) == (if maxoff == 1020 then 3 else 0)
  {
    assert LowMask(2) == 3 && LowMask(0) == 0;
  }

  lemma AllBits(v: bv32, m: bv32)
    ensures And(v, Or(Not(m), m)) == v && And(Not(m), m) == 0
  {
  }

  lemma LowFits(off: bv32)
    ensures off & 1020 <= 1020 && (off & 1020) & 3 == 0 && off & 255 <= 255 && off & 4095 <= 4095
  {
  }

  lemma HighPart(off: bv32, maxoff: bv32, shift: bv32)
    requires Shape(maxoff, shift)
    ensures shift < 32 && Add(And(off, Not(maxoff)), And(off, maxoff)) == off
    ensures Fits(And(off, maxoff), maxoff, shift)
  {
    AllBits(off, maxoff);
    LowFits(off);
    ShapeMasks(maxoff, shift);
    assert And(off, maxoff) == off & maxoff && (off & maxoff) & 0 == 0;
    hide And, Or, Not, Add, LowMask;
    DisjointSum(off, Not(maxoff), maxoff);
  }

  /** off + maxoff is a non-negative int. */
  predicate InRange(off: bv32, maxoff: bv32) {
    off <= 0x7fff_ffff - maxoff
  }

  lemma Up1020(off: bv32)
    requires off <= 0x7fff_ffff - 1020
    ensures Sub(And(Add(off, 1020), Not(1020)), off) <= 1020 && Sub(And(Add(off, 1020), Not(1020)), off) & 3 == 0
  {
  }

  lemma Up255(off: bv32)
    requires off <= 0x7fff_ffff - 255
    ensures Sub(And(Add(off, 255), Not(255)), off) <= 255
  {
  }

  lemma Up4095(off: bv32)
    requires off <= 0x7fff_ffff - 4095
    ensures Sub(And(Add(off, 4095), Not(4095)), off) <= 4095
  {
  }

  lemma RoundUp(off: bv32, maxoff: bv32, shift: bv32)
    requires Shape(maxoff, shift) && InRange(off, maxoff)
    ensures shift < 32 && Fits(Sub(And(Add(off, maxoff), Not(maxoff)), off), maxoff, shift)
  {
    ShapeMasks(maxoff, shift);
    var x := Sub(And(Add(off, maxoff), Not(maxoff)), off);
    assert x & 0 == 0;
    hide And, Not, Add, Sub, LowMask;
    if maxoff == 1020 {
      Up1020(off);
    } else if maxoff == 255 {
      Up255(off);
    } else {
      Up4095(off);
    }
  }

  lemma Reach(a: bv32, v: bv32, w: bv32)
    ensures Add(Add(a, v), w) == Add(a, Add(v, w)) && Sub(Sub(a, v), w) == Sub(a, Add(v, w))
  {
    AddSum(a, v, w);
    SubSum(a, v, w);
  }

  lemma BackAdd(a: bv32, v: bv32, off: bv32)
    ensures Sub(a + v, v - off) == Add(a, off)
  {
  }

  lemma BackSub(a: bv32, v: bv32, off: bv32)
    ensures Add(a - v, v - off) == Sub(a, off)
  {
  }

  lemma Back(a: bv32, v: bv32, off: bv32)
    ensures Sub(Add(a, v), Sub(v, off)) == Add(a, off) && Add(Sub(a, v), Sub(v, off)) == Sub(a, off)
  {
    assert Add(a, v) == a + v && Sub(a, v) == a - v && Sub(v, off) == v - off;
    hide Add, Sub;
    BackAdd(a, v, off);
    BackSub(a, v, off);
  }

  /** Code that adds v to or subtracts it from the base moves off to off2 if off is v + off2, or v - off2 with the
    * sign turned. */
  lemma MovesBy(ws: seq<bv32>, base: bv32, sgn: bool, v: bv32, off: bv32, off2: bv32, sgn2: bool)
    requires base < 16 && Adds(ws, BaseWord(base, sgn), v)
    requires if sgn2 == sgn then off == Add(v, off2) else off2 == Sub(v, off)
    ensures Moves(ws, base, off, sgn, 14, off2, sgn2)
  {
    var x := BaseWord(base, sgn);
    BaseFields(base, sgn);
    assert Ix(14) == 14;
    forall m: Regs
      ensures RunCode(ws, m).Some? && Address(RunCode(ws, m).value, 14, off2, sgn2) == Address(m, base, off, sgn)
      ensures forall r: nat | r != 14 :: R(RunCode(ws, m).value, r) == R(m, r)
    {
      hide RunCode, BaseWord, Opcode, Rn, Rd, Add, Sub, R, Ix, AddOrSub, ImmForm;
      var a := R(m, Ix(base));
      assert RunCode(ws, m) == ExecWith(x, v, m);
      Reach(a, v, off2);
      Back(a, v, off);
      var p := if sgn then Sub(a, v) else Add(a, v);
      assert Alu(Opcode(x), a, v) == Some(p);
      ReadBack(m, 14, p);
    }
  }

  lemma Stays(base: bv32, off: bv32, sgn: bool)
    ensures Moves([], base, off, sgn, base, off, sgn)
  {
  }

  /** before was extended with code that moves the address. */
  ghost predicate Moved(before: seq<bv32>, after: seq<bv32>, base: bv32, off: bv32, sgn: bool, base2: bv32, off2: bv32,
                        sgn2: bool) {
    |before| <= |after| && after[..|before|] == before && Moves(after[|before|..], base, off, sgn, base2, off2, sgn2)
  }

  lemma MovedBy(before: seq<bv32>, after: seq<bv32>, n: nat, base: bv32, sgn: bool, v: bv32, off: bv32, off2: bv32,
                sgn2: bool)
    requires base < 16 && Emitted(before, after, n, BaseWord(base, sgn), v)
    requires if sgn2 == sgn then off == Add(v, off2) else off2 == Sub(v, off)
    ensures Moved(before, after, base, off, sgn, 14, off2, sgn2)
  {
    hide Moves, Adds, BaseWord, Add, Sub;
    MovesBy(after[|before|..], base, sgn, v, off, off2, sgn2);
  }

  lemma MovedNot(before: seq<bv32>, base: bv32, off: bv32, sgn: bool)
    ensures Moved(before, before, base, off, sgn, base, off, sgn)
  {
    assert before[|before|..] == [];
    Stays(base, off, sgn);
  }

  /** Makes off fit its field without changing the address. */
  method CalcAddr(text: Text<bv32>, base0: bv32, off0: bv32, sgn0: bool, maxoff: bv32, shift: bv32)
    returns (base: bv32, off: bv32, sgn: bool)
    requires base0 < 16 && shift < 32 && Shape(maxoff, shift) && InRange(off0, maxoff)
    modifies text
    ensures Moved(old(text.code), text.code, base0, off0, sgn0, base, off, sgn)
    ensures Fits(off, maxoff, shift)
    ensures |text.code| == |old(text.code)| <==> Fits(off0, maxoff, shift)
    ensures |text.code| <= |old(text.code)| + 4
    ensures var x := BaseWord(base0, sgn0);
      var low, up := OneInstruction(x, And(off0, Not(maxoff))), OneInstruction(x, And(Add(off0, maxoff), Not(maxoff)));
      !Fits(off0, maxoff, shift) ==>
        (|text.code| == |old(text.code)| + 1 <==> low || up) && (sgn != sgn0 <==> !low && up)
  {
    hide And, Not, Add, Sub, Moved, Does, Emitted, AddOrSub, ImmForm, BaseWord, Fits, Shape, InRange, OneInstruction,
      TwoSuffice, ThreeSuffice;
    base, off, sgn := base0, off0, sgn0;
    ghost var before := text.code;
    if !Fits(off, maxoff, shift) {
      var x := BaseWord(base, sgn);
      BaseFields(base, sgn);
      base := 14; // lr
      HighPart(off, maxoff, shift);
      var y := StuffConst(x, And(off, Not(maxoff)));
      if y != 0 {
        text.O(y);
        EmitFirst(before, y, x, And(off, Not(maxoff)));
        off := And(off, maxoff);
        MovedBy(before, text.code, 1, base0, sgn0, And(off0, Not(maxoff)), off0, off, sgn);
        return;
      }
      y := StuffConst(x, And(Add(off, maxoff), Not(maxoff)));
      if y != 0 {
        text.O(y);
        EmitFirst(before, y, x, And(Add(off, maxoff), Not(maxoff)));
        RoundUp(off, maxoff, shift);
        sgn := !sgn;
        off := Sub(And(Add(off, maxoff), Not(maxoff)), off);
        MovedBy(before, text.code, 1, base0, sgn0, And(Add(off0, maxoff), Not(maxoff)), off0, off, sgn);
        return;
      }
      StuffConstHarder(text, x, And(off, Not(maxoff)));
      off := And(off, maxoff);
      MovedBy(before, text.code, |text.code| - |before|, base0, sgn0, And(off0, Not(maxoff)), off0, off, sgn);
    } else {
      MovedNot(before, base, off, sgn);
    }
  }
}
