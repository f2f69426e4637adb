/** Loading a 64-bit constant: one instruction when one is enough, otherwise a move and up to three inserts. */
module A64Constant {
  import opened Binary
  import opened A64BitMask
  import opened A64Encoder
  import opened A64Machine
  import opened A64Words

  /** Only the 16 bits of x from bit 16 * k up can be ones. */
  predicate OnlyHalf(x: nat, k: nat)
    requires k < 4
  {
    x == Half(x, k) * Unit(k)
  }

  /** Running w sets register r to x and changes nothing else. */
  ghost predicate Loads(w: nat, r: nat, x: Value) {
    forall m: Regs :: Exec(w, m) == Some(Set(m, r, x))
  }

  /** The words that set a register in one step from an immediate: MOVZ, MOVN and ORR from the zero register. */
  predicate IsMove(w: nat) {
    var opc, group := Field(w, 0x2000_0000, 4), Field(w, 0x80_0000, 64);
    (group == 37 && (opc == 0 || opc == 2)) || (group == 36 && opc == 1 && Field(w, 32, 32) == 31)
  }

  lemma WideIsMove(wide: bool, zeros: bool, hw: nat, imm: nat, r: nat, w: nat)
    requires hw < 4 && imm < HALF && r < 32
    requires w == Sf(wide) * 0x8000_0000 + (if zeros then 0x5280_0000 else 0x1280_0000) + hw * 0x20_0000 + imm * 32 + r
    ensures IsMove(w)
  {
    var rest := hw * 0x20_0000 + imm * 32 + r;
    var q := Sf(wide) * 256 + if zeros then 0xa5 else 0x25;
    DivUnique(0x80_0000, q, rest, w);
    DivUnique(0x2000_0000, Sf(wide) * 4 + if zeros then 2 else 0, 0x1280_0000 + rest, w);
  }

  lemma OrrIsMove(wide: bool, e: nat, r: nat, w: nat)
    requires e < 0x2000 && r < 32 && w == Sf(wide) * 0x8000_0000 + 0x3200_03e0 + e * 0x400 + r
    ensures IsMove(w)
  {
    DivUnique(0x80_0000, Sf(wide) * 256 + 0x64, 0x3e0 + e * 0x400 + r, w);
    DivUnique(0x2000_0000, Sf(wide) * 4 + 1, 0x1200_03e0 + e * 0x400 + r, w);
    DivUnique(32, Sf(wide) * 0x400_0000 + 0x190_001f + e * 32, r, w);
  }

  /** w is one instruction that sets register r to x. */
  ghost predicate Moves(w: nat, r: nat, x: Value) {
    IsMove(w) && Loads(w, r, x)
  }

  lemma LoadsMovz(wide: bool, hw: nat, imm: nat, r: nat, x: Value, w: nat)
    requires hw < 4 && (wide || hw < 2) && imm < HALF && r < 32 && x == imm * Unit(hw)
    requires w == Sf(wide) * 0x8000_0000 + 0x5280_0000 + hw * 0x20_0000 + imm * 32 + r
    ensures Moves(w, r, x)
  {
    WideIsMove(wide, true, hw, imm, r, w);
    hide IsMove;
    forall m: Regs ensures Exec(w, m) == Some(Set(m, r, x)) {
      WordWide(wide, 2, hw, imm, r, w, m);
      hide Exec, Unit;
    }
  }

  lemma LoadsMovn(wide: bool, hw: nat, imm: nat, r: nat, x: Value, w: nat)
    requires hw < 4 && (wide || hw < 2) && imm < HALF && r < 32 && x == Modulus(wide) - 1 - imm * Unit(hw)
    requires w == Sf(wide) * 0x8000_0000 + 0x1280_0000 + hw * 0x20_0000 + imm * 32 + r
    ensures Moves(w, r, x)
  {
    WideIsMove(wide, false, hw, imm, r, w);
    hide IsMove;
    forall m: Regs ensures Exec(w, m) == Some(Set(m, r, x)) {
      WordWide(wide, 0, hw, imm, r, w, m);
      hide Exec, Unit;
    }
  }

  lemma {:induction false} OrZero(b: nat)
    ensures Logic(Or, 0, b) == b
  {
    if b > 0 {
      OrZero(b / 2);
    }
  }

  lemma LoadsOrr(wide: bool, e: nat, v: nat, r: nat, x: Value, w: nat)
    requires e < 0x2000 && (wide || e < 0x1000) && r < 31
    requires DecodeBitMasks(e) == Some(v) && x == Trim(v, wide)
    requires w == Sf(wide) * 0x8000_0000 + 0x3200_03e0 + e * 0x400 + r
    ensures Moves(w, r, x)
  {
    OrZero(x);
    TrimZero(wide);
    OrrIsMove(wide, e, r, w);
    hide IsMove;
    forall m: Regs ensures Exec(w, m) == Some(Set(m, r, x)) {
      WordLogicImm(wide, 1, e, 31, r, w, m);
      hide Exec, DecodeBitMasks, Trim;
    }
  }

  lemma TrimZero(wide: bool)
    ensures Trim(0, wide) == 0
  {
  }

  /** Shifting a lone half word down to bit 5 leaves it as the immediate of a move. */
  lemma LoneHalf(x: nat, k: nat)
    requires k < 4 && OnlyHalf(x, k)
    ensures k == 0 ==> x * 32 == Half(x, k) * 32
    ensures k == 1 ==> x / 0x800 == Half(x, k) * 32
    ensures k == 2 ==> x / 0x800_0000 == Half(x, k) * 32
    ensures k == 3 ==> x / 0x800_0000_0000 == Half(x, k) * 32
  {
    var h := Half(x, k);
    assert x == h * Unit(k);
    hide Half;
  }

  lemma Movz0(r: nat, x: Value, w: nat)
    requires r < 31 && OnlyHalf(x, 0) && w == 0x5280_0000 + r + x * 32
    ensures w != 0 && Moves(w, r, x)
  {
    LoneHalf(x, 0);
    LoadsMovz(false, 0, Half(x, 0), r, x, w);
  }

  lemma Movz1(r: nat, x: Value, w: nat)
    requires r < 31 && OnlyHalf(x, 1) && w == 0x52a0_0000 + r + x / 0x800
    ensures w != 0 && Moves(w, r, x)
  {
    LoneHalf(x, 1);
    LoadsMovz(false, 1, Half(x, 1), r, x, w);
  }

  lemma Movz2(r: nat, x: Value, w: nat)
    requires r < 31 && OnlyHalf(x, 2) && w == 0xd2c0_0000 + r + x / 0x800_0000
    ensures w != 0 && Moves(w, r, x)
  {
    LoneHalf(x, 2);
    LoadsMovz(true, 2, Half(x, 2), r, x, w);
  }

  lemma Movz3(r: nat, x: Value, w: nat)
    requires r < 31 && OnlyHalf(x, 3) && w == 0xd2e0_0000 + r + x / 0x800_0000_0000
    ensures w != 0 && Moves(w, r, x)
  {
    LoneHalf(x, 3);
    LoadsMovz(true, 3, Half(x, 3), r, x, w);
  }

  /** The upper half of a 32-bit value is all ones. */
  predicate OnesAbove(x: nat) {
    x - x % HALF == 0xffff_0000
  }

  /** The lower half of a 32-bit value is all ones. */
  predicate OnesBelow(x: nat) {
    x - Half(x, 1) * HALF == 0xffff
  }

  lemma MovnNarrow(k: nat, r: nat, x: Value, w: nat)
    requires r < 31 && k < 2
    requires if k == 0 then OnesAbove(x) else OnesBelow(x)
    requires w == 0x1280_0000 + k * 0x20_0000 + r + Half(WORD - 1 - x, k) * 32
    ensures w != 0 && Moves(w, r, x)
  {
    var n := WORD - 1 - x;
    if k == 0 {
      HalfIs(n, 0, 0, 0xffff - x % HALF, 0xffff_ffff_0000);
    } else {
      HalfIs(n, 1, 0, 0xffff - Half(x, 1), 0xffff_ffff);
    }
    hide Half, Moves;
    LoadsMovn(false, k, Half(n, k), r, x, w);
  }

  lemma MovnWide(k: nat, r: nat, x: Value, w: nat)
    requires r < 31 && k < 4 && OnlyHalf(WORD - 1 - x, k)
    requires w == 0x9280_0000 + k * 0x20_0000 + r + Half(WORD - 1 - x, k) * 32
    ensures w != 0 && Moves(w, r, x)
  {
    LoadsMovn(true, k, Half(WORD - 1 - x, k), r, x, w);
  }

  lemma OrrNarrow(e: nat, r: nat, x: Value, w: nat)
    requires r < 31 && x < NARROW && e < 0x1000 && DecodeBitMasks(e) == Some(x + x * NARROW)
    requires w == 0x3200_03e0 + r + e * 0x400
    ensures w != 0 && Moves(w, r, x)
  {
    hide DecodeBitMasks, Moves;
    LoadsOrr(false, e, x + x * NARROW, r, x, w);
  }

  lemma OrrWide(e: nat, r: nat, x: Value, w: nat)
    requires r < 31 && e < 0x2000 && DecodeBitMasks(e) == Some(x)
    requires w == 0xb200_03e0 + r + e * 0x400
    ensures w != 0 && Moves(w, r, x)
  {
    hide DecodeBitMasks, Moves;
    LoadsOrr(true, e, x, r, x, w);
  }

  predicate MovzFits(x: Value) {
    OnlyHalf(x, 0) || OnlyHalf(x, 1) || OnlyHalf(x, 2) || OnlyHalf(x, 3)
  }

  predicate MovnFits(x: Value) {
    MovzFits(WORD - 1 - x) || OnesAbove(x) || OnesBelow(x)
  }

  lemma DoubledPeriod(x: nat)
    requires x < NARROW
    ensures x + x * NARROW < WORD && Periodic(x + x * NARROW, 32)
  {
    RepPeriodic(x, 32);
  }

  /** A single instruction that sets register r to x, or 0 exactly if no MOVZ, MOVN or ORR immediate does. */
  method MovI(r: nat, x: Value) returns (w: nat)
    requires r < 31
    ensures w != 0 ==> Moves(w, r, x)
    ensures w == 0 ==> 0 < x < WORD - 1 && forall v: nat :: !Moves(v, r, x)
  {
    hide *;
    w := 0;
    var n := WORD - 1 - x;
    if OnlyHalf(x, 0) {
      w := 0x5280_0000 + r + x * 32; // movz w(r), x
      Movz0(r, x, w);
    } else if OnlyHalf(x, 1) {
      w := 0x52a0_0000 + r + x / 0x800; // movz w(r), x >> 16, lsl 16
      Movz1(r, x, w);
    } else if OnlyHalf(x, 2) {
      w := 0xd2c0_0000 + r + x / 0x800_0000; // movz x(r), x >> 32, lsl 32
      Movz2(r, x, w);
    } else if OnlyHalf(x, 3) {
      w := 0xd2e0_0000 + r + x / 0x800_0000_0000; // movz x(r), x >> 48, lsl 48
      Movz3(r, x, w);
    } else if OnesAbove(x) {
      w := 0x1280_0000 + r + Half(n, 0) * 32; // movn w(r), ~x
      MovnNarrow(0, r, x, w);
    } else if OnesBelow(x) {
      w := 0x12a0_0000 + r + Half(n, 1) * 32; // movn w(r), ~x >> 16, lsl 16
      MovnNarrow(1, r, x, w);
    } else if OnlyHalf(n, 0) {
      w := 0x9280_0000 + r + Half(n, 0) * 32; // movn x(r), ~x
      MovnWide(0, r, x, w);
    } else if OnlyHalf(n, 1) {
      w := 0x92a0_0000 + r + Half(n, 1) * 32;
      MovnWide(1, r, x, w);
    } else if OnlyHalf(n, 2) {
      w := 0x92c0_0000 + r + Half(n, 2) * 32;
      MovnWide(2, r, x, w);
    } else if OnlyHalf(n, 3) {
      w := 0x92e0_0000 + r + Half(n, 3) * 32;
      MovnWide(3, r, x, w);
    } else {
      NoWideFits(x);
      var e: Option<nat> := None;
      if x < NARROW {
        DoubledPeriod(x);
        e := EncodeBimm64(x + x * NARROW);
      }
      if e.Some? {
        w := 0x3200_03e0 + r + e.value * 0x400; // orr w(r), wzr, x
        OrrNarrow(e.value, r, x, w);
      } else {
        e := EncodeBimm64(x);
        if e.Some? {
          w := 0xb200_03e0 + r + e.value * 0x400; // orr x(r), xzr, x
          OrrWide(e.value, r, x, w);
        } else {
          NoSingleMove(r, x);
        }
      }
    }
  }

  lemma NoWideFits(x: Value)
    requires !OnlyHalf(x, 0) && !OnlyHalf(x, 1) && !OnlyHalf(x, 2) && !OnlyHalf(x, 3)
    requires var n := WORD - 1 - x; !OnlyHalf(n, 0) && !OnlyHalf(n, 1) && !OnlyHalf(n, 2) && !OnlyHalf(n, 3)
    requires !OnesAbove(x) && !OnesBelow(x)
    ensures !MovzFits(x) && !MovnFits(x) && 0 < x < WORD - 1
  {
  }

  /** If every test of MovI fails, no single move instruction will do. */
  lemma NoSingleMove(r: nat, x: Value)
    requires r < 31 && !MovzFits(x) && !MovnFits(x)
    requires forall e: nat | e < 0x2000 :: DecodeBitMasks(e) != Some(x)
    requires x < NARROW ==> forall e: nat | e < 0x2000 :: DecodeBitMasks(e) != Some(x + x * NARROW)
    ensures forall v: nat :: !Moves(v, r, x)
  {
    hide MovzFits, MovnFits, DecodeBitMasks, IsMove, Loads;
    forall v: nat
      ensures !Moves(v, r, x)
    {
      if Moves(v, r, x) {
        MoveGivesUp(v, r, x);
      }
    }
  }

  lemma MoveGivesUp(v: nat, r: nat, x: Value)
    requires r < 31 && IsMove(v) && Loads(v, r, x)
    ensures MovzFits(x) || MovnFits(x) ||
            (exists e: nat | e < 0x2000 :: DecodeBitMasks(e) == Some(x)) ||
            (x < NARROW && exists e: nat | e < 0x2000 :: DecodeBitMasks(e) == Some(x + x * NARROW))
  {
    hide Field, MovzFits, MovnFits, DecodeBitMasks;
    var m: Regs := map[];
    assert Exec(v, m) == Some(Set(m, r, x));
    var wide, opc := Field(v, 0x8000_0000, 2) == 1, Field(v, 0x2000_0000, 4);
    var group, rd := Field(v, 0x80_0000, 64), Field(v, 1, 32);
    if group == 37 {
      var hw, imm := Field(v, 0x20_0000, 4), Field(v, 32, HALF);
      SetInjective(rd, if opc == 2 then imm * Unit(hw) else Modulus(wide) - 1 - imm * Unit(hw), r, x);
      WideFits(wide, opc == 2, hw, imm, x);
    } else {
      var e := Field(v, 0x400, 0x2000);
      var y := DecodeBitMasks(e).value;
      OrZero(Trim(y, wide));
      TrimZero(wide);
      SetInjective(rd, Trim(y, wide), r, x);
      hide Trim;
      OrrFits(wide, e, y, x);
    }
  }

  lemma SetInjective(rd: nat, v: Value, r: nat, x: Value)
    requires r != 31 && Set(map[], rd, v) == Set(map[], r, x)
    ensures v == x
  {
    assert r in Set(map[], r, x);
  }

  lemma WideFits(wide: bool, zeros: bool, hw: nat, imm: nat, x: Value)
    requires hw < 4 && imm < HALF && (wide || hw < 2)
    requires x == if zeros then imm * Unit(hw) else Modulus(wide) - 1 - imm * Unit(hw)
    ensures MovzFits(x) || MovnFits(x)
  {
    HalfOfUnit(imm, hw);
    if !wide && !zeros {
      if hw == 0 {
        assert OnesAbove(x);
      } else {
        assert Half(x, 1) == 0xffff - imm;
        assert OnesBelow(x);
      }
    }
    hide Half, Unit;
  }

  lemma HalfOfUnit(imm: nat, hw: nat)
    requires hw < 4 && imm < HALF
    ensures OnlyHalf(imm * Unit(hw), hw)
  {
    HalfIs(imm * Unit(hw), hw, 0, imm, 0);
    hide Half, Unit;
  }

  lemma OrrFits(wide: bool, e: nat, y: nat, x: Value)
    requires e < 0x2000 && (wide || e < 0x1000) && DecodeBitMasks(e) == Some(y) && x == Trim(y, wide)
    ensures x == y || (x < NARROW && y == x + x * NARROW)
  {
    DecodeNarrow(e);
    hide DecodeBitMasks;
    if !wide {
      DoubledIs(y, x);
    }
  }

  lemma DoubledIs(y: nat, x: nat)
    requires y < WORD && Periodic(y, 32) && x == y % NARROW
    ensures y == x + x * NARROW
  {
  }

  lemma DecodeNarrow(e: nat)
    requires e < 0x2000 && DecodeBitMasks(e).Some?
    ensures DecodeBitMasks(e).value < WORD
    ensures e < 0x1000 ==> Periodic(DecodeBitMasks(e).value, 32)
  {
    var esize, ones, rot := DecodeLegal(e);
    RunFits(ones, 0, esize);
    RunFromZero(ones);
    RepRor(P(ones) - 1, esize, rot);
    RepStep(RorIn(P(ones) - 1, esize, rot), esize);
    hide DecodeBitMasks, Periodic, Replicate, RorIn, P, Run, Ror;
    if esize != 64 {
      RepNarrow(RorIn(P(ones) - 1, esize, rot), esize);
    }
  }

  lemma RepNarrow(y: nat, e: nat)
    requires Esize(e) && e <= 32 && y < Size(e)
    ensures Periodic(Replicate(y, e), 32)
  {
    var d := if e == 2 then 0x5555_5555 else if e == 4 then 0x1111_1111 else if e == 8 then 0x0101_0101
             else if e == 16 then 0x0001_0001 else 1;
    assert Replicate(y, e) == Replicate(d * y, 32) && d * y < Size(32);
    RepPeriodic(d * y, 32);
  }
}
