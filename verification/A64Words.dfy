/** What each word the generator emits does, from its fields. */
module A64Words {
  import opened Binary
  import opened A64Machine

  function Sf(wide: bool): nat { if wide then 1 else 0 }

  lemma FieldIs(w: nat, base: nat, size: nat, low: nat, f: nat, high: nat)
    requires low < base && f < size && w == base * (size * high + f) + low
    ensures Field(w, base, size) == f
  {
    DivUnique(base, size * high + f, low, w);
    DivUnique(size, high, f, size * high + f);
  }

  lemma HalfIs(v: nat, k: nat, low: nat, h: nat, high: nat)
    requires k < 4 && low < Unit(k) && h < HALF && v == Unit(k) * (HALF * high + h) + low
    ensures Half(v, k) == h
  {
    FieldIs(v, Unit(k), HALF, low, h, high);
  }

  /** Bits 31 and 30..29, and the group in bits 28..23. */
  lemma TopFields(w: nat, wide: bool, opc: nat, group: nat, low: nat)
    requires opc < 4 && group < 64 && low < 0x80_0000
    requires w == Sf(wide) * 0x8000_0000 + opc * 0x2000_0000 + group * 0x80_0000 + low
    ensures (Field(w, 0x8000_0000, 2) == 1) == wide && Field(w, 0x2000_0000, 4) == opc
    ensures Field(w, 0x80_0000, 64) == group
  {
    var s := Sf(wide);
    FieldIs(w, 0x8000_0000, 2, opc * 0x2000_0000 + group * 0x80_0000 + low, s, 0);
    FieldIs(w, 0x2000_0000, 4, group * 0x80_0000 + low, opc, s);
    FieldIs(w, 0x80_0000, 64, low, group, s * 4 + opc);
    hide Field;
  }

  /** The register fields Rd and Rn. */
  lemma LowFields(w: nat, rn: nat, rd: nat, high: nat)
    requires rn < 32 && rd < 32 && w == high * 0x400 + rn * 32 + rd
    ensures Field(w, 1, 32) == rd && Field(w, 32, 32) == rn
  {
    FieldIs(w, 1, 32, 0, rd, high * 32 + rn);
    FieldIs(w, 32, 32, rd, rn, high);
  }

  lemma WordWide(wide: bool, opc: nat, hw: nat, imm: nat, rd: nat, w: nat, m: Regs)
    requires opc < 4 && hw < 4 && imm < HALF && rd < 32
    requires w == Sf(wide) * 0x8000_0000 + opc * 0x2000_0000 + 0x1280_0000 + hw * 0x20_0000 + imm * 32 + rd
    ensures Exec(w, m) == ExecWide(m, wide, opc, hw, imm, rd)
  {
    hide ExecWide, Field, Sf;
    var t := Sf(wide) * 256 + opc * 64 + 37;
    TopFields(w, wide, opc, 37, hw * 0x20_0000 + imm * 32 + rd);
    FieldIs(w, 0x20_0000, 4, imm * 32 + rd, hw, t);
    FieldIs(w, 32, HALF, rd, imm, t * 4 + hw);
    FieldIs(w, 1, 32, 0, rd, (t * 4 + hw) * HALF + imm);
  }

  lemma WordLogicImm(wide: bool, opc: nat, e: nat, rn: nat, rd: nat, w: nat, m: Regs)
    requires opc < 4 && e < 0x2000 && rn < 32 && rd < 32
    requires w == Sf(wide) * 0x8000_0000 + opc * 0x2000_0000 + 0x1200_0000 + e * 0x400 + rn * 32 + rd
    ensures Exec(w, m) == ExecLogicImm(m, wide, opc, e, rn, rd)
  {
    hide ExecLogicImm, Field, Sf;
    var t := Sf(wide) * 256 + opc * 64 + 36;
    TopFields(w, wide, opc, 36, e * 0x400 + rn * 32 + rd);
    FieldIs(w, 0x400, 0x2000, rn * 32 + rd, e, t);
    LowFields(w, rn, rd, t * 0x2000 + e);
  }

  lemma WordAddImm(wide: bool, op: nat, sh: nat, imm: nat, rn: nat, rd: nat, w: nat, m: Regs)
    requires op < 2 && sh < 2 && imm < 0x1000 && rn < 31 && rd < 31
    requires w == Sf(wide) * 0x8000_0000 + op * 0x4000_0000 + 0x1100_0000 + sh * 0x40_0000 + imm * 0x400 + rn * 32 + rd
    ensures Exec(w, m) == Some(ExecAdd(m, wide, op, X(m, rn), imm * (if sh == 1 then 0x1000 else 1), rd))
  {
    hide ExecAdd, Field, Sf;
    var t := Sf(wide) * 256 + op * 128 + 34;
    TopFields(w, wide, 2 * op, 34, sh * 0x40_0000 + imm * 0x400 + rn * 32 + rd);
    FieldIs(w, 0x40_0000, 2, imm * 0x400 + rn * 32 + rd, sh, t);
    FieldIs(w, 0x400, 0x1000, rn * 32 + rd, imm, t * 2 + sh);
    LowFields(w, rn, rd, (t * 2 + sh) * 0x1000 + imm);
  }

  /** ADD, SUB, ORR and ORN of registers: bits 28 to 21 are code. */
  lemma WordReg(wide: bool, opc: nat, code: nat, rm: nat, rn: nat, rd: nat, w: nat, m: Regs)
    requires (opc % 2 == 0 && opc < 4 && code == 88) || (opc == 1 && (code == 80 || code == 81))
    requires rm < 32 && rn < 32 && rd < 32
    requires w == Sf(wide) * 0x8000_0000 + opc * 0x2000_0000 + code * 0x20_0000 + rm * 0x1_0000 + rn * 32 + rd
    ensures code == 88 ==> Exec(w, m) == Some(ExecAdd(m, wide, opc / 2, X(m, rn), X(m, rm), rd))
    ensures code != 88 ==> Exec(w, m) == Some(Set(m, rd, LogicMod(Or, Trim(X(m, rn), wide),
      if code == 80 then Trim(X(m, rm), wide) else Not(X(m, rm), wide), wide)))
  {
    hide ExecAdd, LogicMod, X, Set, Modulus, Trim, Not, Field, Sf;
    var t := Sf(wide) * 0x400 + opc * 256 + code;
    var g, c := code / 4, code % 4;
    TopFields(w, wide, opc, g, c * 0x20_0000 + rm * 0x1_0000 + rn * 32 + rd);
    FieldIs(w, 0x20_0000, 256, rm * 0x1_0000 + rn * 32 + rd, code, Sf(wide) * 4 + opc);
    FieldIs(w, 0x1_0000, 32, rn * 32 + rd, rm, t);
    FieldIs(w, 0x400, 64, rn * 32 + rd, 0, t * 32 + rm);
    LowFields(w, rn, rd, (t * 32 + rm) * 64);
  }

  lemma WordBitfield(wide: bool, opc: nat, immr: nat, imms: nat, rn: nat, rd: nat, w: nat, m: Regs)
    requires opc < 4 && immr < 64 && imms < 64 && rn < 32 && rd < 32
    requires w == Sf(wide) * 0x8000_0000 + opc * 0x2000_0000 + 0x1300_0000 + Sf(wide) * 0x40_0000
                  + immr * 0x1_0000 + imms * 0x400 + rn * 32 + rd
    ensures Exec(w, m) == ExecBitfield(m, wide, opc, immr, imms, rn, rd)
  {
    SfSmall(wide);
    hide ExecBitfield, Field, Sf;
    var s := Sf(wide);
    var t := (s * 256 + opc * 64 + 38) * 2 + s;
    TopFields(w, wide, opc, 38, s * 0x40_0000 + immr * 0x1_0000 + imms * 0x400 + rn * 32 + rd);
    FieldIs(w, 0x40_0000, 2, immr * 0x1_0000 + imms * 0x400 + rn * 32 + rd, s, s * 256 + opc * 64 + 38);
    FieldIs(w, 0x1_0000, 64, imms * 0x400 + rn * 32 + rd, immr, t);
    FieldIs(w, 0x400, 64, rn * 32 + rd, imms, t * 64 + immr);
    LowFields(w, rn, rd, (t * 64 + immr) * 64 + imms);
  }

  lemma SfSmall(wide: bool)
    ensures Sf(wide) < 2 && (Sf(wide) == 1) == wide
  {
  }
}
