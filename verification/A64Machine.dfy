/** The A64 instructions that the generator emits for constants, as an interpreter over words. */
module A64Machine {
  import opened Binary
  import opened A64BitMask

  const HALF: nat := 0x1_0000
  const NARROW: nat := 0x1_0000_0000

  type Value = v: nat | v < WORD
  /** X0 to X30; a register that is absent holds 0. Number 31 reads as zero and ignores writes. */
  type Regs = map<nat, Value>

  function X(m: Regs, r: nat): Value {
    if r != 31 && r in m then m[r] else 0
  }

  function Set(m: Regs, r: nat, v: Value): Regs {
    if r == 31 then m else m[r := v]
  }

  /** 2 to the power 16 * k. */
  function Unit(k: nat): (u: nat)
    requires k < 4
    ensures 0 < u && u * 0xffff < WORD
  {
    if k == 0 then 1 else if k == 1 then 0x1_0000 else if k == 2 then 0x1_0000_0000 else 0x1_0000_0000_0000
  }

  /** The 16 bits of x from bit 16 * k up. */
  function Half(x: nat, k: nat): (h: nat)
    requires k < 4
    ensures h < HALF
  {
    x / Unit(k) % HALF
  }

  datatype LogOp = And | Or | Xor

  function Bit(op: LogOp, a: nat, b: nat): nat
    requires a < 2 && b < 2
  {
    match op
    case And => if a == 1 && b == 1 then 1 else 0
    case Or => if a == 1 || b == 1 then 1 else 0
    case Xor => if a != b then 1 else 0
  }

  function Logic(op: LogOp, a: nat, b: nat): nat
    decreases a + b
  {
    if a == 0 && b == 0 then 0 else Bit(op, a % 2, b % 2) + 2 * Logic(op, a / 2, b / 2)
  }

  /** The modulus of a 32-bit or a 64-bit operation. */
  function Modulus(wide: bool): (n: nat)
    ensures 0 < n <= WORD
  {
    if wide then WORD else NARROW
  }

  /** a modulo 2 to the power 32 or 64. */
  function Trim(a: int, wide: bool): (v: nat)
    ensures v < Modulus(wide)
  {
    if wide then a % WORD else a % NARROW
  }

  /** The complement of the low 32 or 64 bits of a. */
  function Not(a: int, wide: bool): (v: nat)
    ensures v < Modulus(wide)
  {
    Modulus(wide) - 1 - Trim(a, wide)
  }

  lemma {:induction false} LogicBound(op: LogOp, a: nat, b: nat, n: nat)
    requires a < P(n) && b < P(n)
    ensures Logic(op, a, b) < P(n)
    decreases n
  {
    if n > 0 {
      LogicBound(op, a / 2, b / 2, n - 1);
    }
  }

  lemma LogicFits(op: LogOp, a: nat, b: nat, wide: bool)
    requires a < Modulus(wide) && b < Modulus(wide)
    ensures Logic(op, a, b) < Modulus(wide)
  {
    SizeIsP(if wide then 64 else 32);
    LogicBound(op, a, b, if wide then 64 else 32);
  }

  function LogicMod(op: LogOp, a: nat, b: nat, wide: bool): (v: nat)
    requires a < Modulus(wide) && b < Modulus(wide)
    ensures v < Modulus(wide)
  {
    LogicFits(op, a, b, wide);
    Logic(op, a, b)
  }

  /** m with the 16 bits of x from bit 16 * k up replaced. */
  function Insert(x: Value, k: nat, h: nat): (v: Value)
    requires k < 4 && h < HALF
  {
    InsertFits(x, k, h);
    x - Half(x, k) * Unit(k) + h * Unit(k)
  }

  lemma InsertFits(x: Value, k: nat, h: nat)
    requires k < 4 && h < HALF
    ensures 0 <= x - Half(x, k) * Unit(k) && x - Half(x, k) * Unit(k) + h * Unit(k) < WORD
  {
    if k == 0 {
      InsertAt0(x, h);
    } else if k == 1 {
      InsertAt1(x, h);
    } else if k == 2 {
      InsertAt2(x, h);
    } else {
      InsertAt3(x, h);
    }
  }

  lemma Replaced(u: nat, top: nat, p: nat, low: nat, h: nat)
    requires low < u && h < HALF && top + HALF * u <= WORD
    ensures var y := top + u * p + low - p * u; 0 <= y && y + h * u < WORD
  {
    MulAtLeast(u, 0xffff - h + 1);
    assert h * u + (0xffff - h) * u == 0xffff * u;
  }

  lemma InsertAt0(x: Value, h: nat)
    requires h < HALF
    ensures var y := x - x / 1 % HALF * 1; 0 <= y && y + h * 1 < WORD
  {
    Split(x, 1, 0x1_0000);
    Replaced(1, 0x1_0000 * (x / 0x1_0000), x / 1 % HALF, x % 1, h);
  }

  lemma InsertAt1(x: Value, h: nat)
    requires h < HALF
    ensures var y := x - x / 0x1_0000 % HALF * 0x1_0000; 0 <= y && y + h * 0x1_0000 < WORD
  {
    Split(x, 0x1_0000, 0x1_0000_0000);
    Replaced(0x1_0000, 0x1_0000_0000 * (x / 0x1_0000_0000), x / 0x1_0000 % HALF, x % 0x1_0000, h);
  }

  lemma InsertAt2(x: Value, h: nat)
    requires h < HALF
    ensures var y := x - x / 0x1_0000_0000 % HALF * 0x1_0000_0000; 0 <= y && y + h * 0x1_0000_0000 < WORD
  {
    Split(x, 0x1_0000_0000, 0x1_0000_0000_0000);
    Replaced(0x1_0000_0000, 0x1_0000_0000_0000 * (x / 0x1_0000_0000_0000), x / 0x1_0000_0000 % HALF,
             x % 0x1_0000_0000, h);
  }

  lemma InsertAt3(x: Value, h: nat)
    requires h < HALF
    ensures var y := x - x / 0x1_0000_0000_0000 % HALF * 0x1_0000_0000_0000; 0 <= y && y + h * 0x1_0000_0000_0000 < WORD
  {
    Split(x, 0x1_0000_0000_0000, WORD);
    Replaced(0x1_0000_0000_0000, WORD * (x / WORD), x / 0x1_0000_0000_0000 % HALF, x % 0x1_0000_0000_0000, h);
  }

  /** x in three parts: above v, between u and v, below u. */
  lemma Split(x: nat, u: nat, v: nat)
    requires u > 0 && v == HALF * u
    ensures x == v * (x / v) + u * (x / u % HALF) + x % u
  {
    var q := x / u;
    DivUnique(v, q / HALF, u * (q % HALF) + x % u, x);
  }

  /** The move-wide group: MOVN, MOVZ, MOVK. */
  function ExecWide(m: Regs, wide: bool, opc: nat, hw: nat, imm: nat, rd: nat): Option<Regs>
    requires hw < 4 && imm < HALF
  {
    if !wide && hw >= 2 then None
    else if opc == 0 then Some(Set(m, rd, Modulus(wide) - 1 - imm * Unit(hw)))
    else if opc == 2 then Some(Set(m, rd, imm * Unit(hw)))
    else if opc == 3 && wide then Some(Set(m, rd, Insert(X(m, rd), hw, imm)))
    else None
  }

  function LogOpOf(opc: nat): LogOp {
    if opc == 0 then And else if opc == 1 then Or else Xor
  }

  /** AND, ORR and EOR with an immediate. With Rd = 31 they write the stack pointer, which is not modelled. */
  function ExecLogicImm(m: Regs, wide: bool, opc: nat, e: nat, rn: nat, rd: nat): Option<Regs>
    requires e < 0x2000
  {
    if opc == 3 || rd == 31 || (!wide && e >= 0x1000) then None else
      match DecodeBitMasks(e)
      case None => None
      case Some(v) =>
        Some(Set(m, rd, LogicMod(LogOpOf(opc), Trim(X(m, rn), wide), Trim(v, wide), wide)))
  }

  /** ADD and SUB; op tells which. */
  function ExecAdd(m: Regs, wide: bool, op: nat, a: nat, b: nat, rd: nat): Regs {
    Set(m, rd, Trim(if op == 0 then a + b else a - b, wide))
  }

  /** LSL, LSR and ASR, the forms of UBFM and SBFM that shift by a constant. */
  function ExecBitfield(m: Regs, wide: bool, opc: nat, immr: nat, imms: nat, rn: nat, rd: nat): Option<Regs> {
    var bits := if wide then 64 else 32;
    var a := Trim(X(m, rn), wide);
    if immr >= bits || imms >= bits then None
    else if opc == 2 && imms == bits - 1 then Some(Set(m, rd, Trim(a / P(immr), wide)))
    else if opc == 2 && imms + 1 == immr then Some(Set(m, rd, Trim(a * P(bits - immr), wide)))
    else if opc == 0 && imms == bits - 1 then Some(Set(m, rd, Trim(Signed(a, wide) / P(immr), wide)))
    else None
  }

  /** The two's complement reading of a. */
  function Signed(a: nat, wide: bool): int {
    if a < Modulus(wide) / 2 then a else a - Modulus(wide)
  }

  /** The field of w that starts at the power of two base and holds size values. */
  function Field(w: nat, base: nat, size: nat): (f: nat)
    requires base > 0 && size > 0
    ensures f < size
  {
    DivRange(w / base, size);
    w / base % size
  }

  lemma DivRange(x: nat, m: nat)
    requires m > 0
    ensures x % m < m
  {
  }

  function Exec(w: nat, m: Regs): Option<Regs> {
    var wide, opc, group := Field(w, 0x8000_0000, 2) == 1, Field(w, 0x2000_0000, 4), Field(w, 0x80_0000, 64);
    var rd, rn, rm := Field(w, 1, 32), Field(w, 32, 32), Field(w, 0x1_0000, 32);
    var code, imm6 := Field(w, 0x20_0000, 256), Field(w, 0x400, 64);
    if group == 37 then ExecWide(m, wide, opc, Field(w, 0x20_0000, 4), Field(w, 32, HALF), rd)
    else if group == 36 then ExecLogicImm(m, wide, opc, Field(w, 0x400, 0x2000), rn, rd)
    else if group == 34 then
      // an odd opc would set the flags; register 31 is the stack pointer here
      if opc % 2 == 1 || rn == 31 || rd == 31 then None else
        var imm := Field(w, 0x400, 0x1000) * (if Field(w, 0x40_0000, 2) == 1 then 0x1000 else 1);
        Some(ExecAdd(m, wide, opc / 2, X(m, rn), imm, rd))
    else if group == 38 && (Field(w, 0x40_0000, 2) == 1) == wide then
      ExecBitfield(m, wide, opc, Field(w, 0x1_0000, 64), imm6, rn, rd)
    else if code == 88 && opc % 2 == 0 && imm6 == 0 then
      Some(ExecAdd(m, wide, opc / 2, X(m, rn), X(m, rm), rd))
    else if code == 80 && opc == 1 && imm6 == 0 then // ORR
      Some(Set(m, rd, LogicMod(Or, Trim(X(m, rn), wide), Trim(X(m, rm), wide), wide)))
    else if code == 81 && opc == 1 && imm6 == 0 then // ORN
      Some(Set(m, rd, LogicMod(Or, Trim(X(m, rn), wide), Not(X(m, rm), wide), wide)))
    else None
  }

  function RunCode(ws: seq<nat>, m: Regs): Option<Regs> {
    if ws == [] then Some(m) else
      match Exec(ws[0], m)
      case None => None
      case Some(n) => RunCode(ws[1..], n)
  }

  lemma {:induction false} RunAppend(ws: seq<nat>, w: nat, m: Regs)
    ensures RunCode(ws + [w], m) == match RunCode(ws, m) case None => None case Some(n) => Exec(w, n)
    decreases ws
  {
    hide Exec;
    if ws == [] {
      assert [] + [w] == [w];
      assert [w][1..] == [];
      if Exec(w, m).Some? {
        assert RunCode([w], m) == RunCode([], Exec(w, m).value);
      }
    } else {
      assert (ws + [w])[1..] == ws[1..] + [w];
      if Exec(ws[0], m).Some? {
        RunAppend(ws[1..], w, Exec(ws[0], m).value);
      }
    }
  }
}
