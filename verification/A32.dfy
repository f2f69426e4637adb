/** The A32 data-processing instructions with an immediate operand. */
module A32Machine {
  import opened Binary

  function Ror1(x: bv32): bv32 { (x >> 1) | (x << 31) }

  function Rol1(x: bv32): bv32 { (x << 1) | (x >> 31) }

  function RotR(x: bv32, n: nat): bv32
    decreases n
  {
    if n == 0 then x else RotR(Ror1(x), n - 1)
  }

  function RotL(x: bv32, n: nat): bv32
    decreases n
  {
    if n == 0 then x else Rol1(RotL(x, n - 1))
  }

  /** Registers by number; an absent one holds 0. */
  type Regs = map<nat, bv32>

  function R(m: Regs, r: nat): bv32 {
    if r in m then m[r] else 0
  }

  function Opcode(w: bv32): bv32 { (w >> 21) & 15 }
  function Rn(w: bv32): nat { ((w >> 16) & 15) as nat }
  function Rd(w: bv32): nat { ((w >> 12) & 15) as nat }

  /** The constant that an immediate operand stands for. */
  function Operand(w: bv32): bv32 {
    RotR(w & 0xff, 2 * (((w >> 8) & 15) as nat))
  }

  function Add(a: bv32, b: bv32): bv32 { a + b }

  function Sub(a: bv32, b: bv32): bv32 { a - b }

  /** The result of an operation, for the opcodes that compute one without the carry. */
  function Alu(opcode: bv32, a: bv32, b: bv32): Option<bv32> {
    if opcode == 0 then Some(a & b)
    else if opcode == 1 then Some(a ^ b)
    else if opcode == 2 then Some(Sub(a, b))
    else if opcode == 3 then Some(Sub(b, a))
    else if opcode == 4 then Some(Add(a, b))
    else if opcode == 12 then Some(a | b)
    else if opcode == 13 then Some(b)
    else if opcode == 14 then Some(a & !b)
    else if opcode == 15 then Some(!b)
    else None
  }

  /** The operation of w with operand b instead of its own. */
  function ExecWith(w: bv32, b: bv32, m: Regs): Option<Regs> {
    match Alu(Opcode(w), R(m, Rn(w)), b)
    case None => None
    case Some(v) => Some(m[Rd(w) := v])
  }

  function Exec(w: bv32, m: Regs): Option<Regs> {
    if w & 0x0e00_0000 == 0x0200_0000 then ExecWith(w, Operand(w), m)
    else if w & 0x0e00_0ff0 == 0 then ExecWith(w, R(m, (w & 15) as nat), m)
    else None
  }

  function RunCode(ws: seq<bv32>, m: Regs): Option<Regs> {
    if ws == [] then Some(m) else
      match Exec(ws[0], m)
      case None => None
      case Some(n) => RunCode(ws[1..], n)
  }
}

module A32Const {
  import opened Binary
  import opened BitFacts
  import opened A32Machine

  predicate ImmForm(op: bv32) {
    op & 0x0e00_0fff == 0x0200_0000
  }

  /** w does what op would do if it could hold the constant c. */
  ghost predicate Does(w: bv32, op: bv32, c: bv32) {
    forall m: Regs :: Exec(w, m) == ExecWith(op, c, m)
  }

  /** op with the immediate x rotated right by i. */
  function ImmWord(op: bv32, i: bv32, x: bv32): bv32 {
    op | (i << 7) | x
  }

  predicate HasImm(w: bv32, i: bv32, x: bv32) {
    w & 0xff == x && (w >> 8) & 15 == i >> 1
  }

  /** w and op agree on the operation and its registers, and w has an immediate operand. */
  predicate SameOp(w: bv32, op: bv32) {
    Opcode(w) == Opcode(op) && Rn(w) == Rn(op) && Rd(w) == Rd(op) && w & 0x0e00_0000 == 0x0200_0000 && w != 0
  }

  lemma FieldsOf(op: bv32, i: bv32, x: bv32)
    requires ImmForm(op) && IsRotation(i) && i != 32 && x < 256
    ensures HasImm(ImmWord(op, i, x), i, x) && SameOp(ImmWord(op, i, x), op)
  {
  }

  lemma Halve(i: bv32)
    requires i < 32 && i & 1 == 0
    ensures 2 * ((i >> 1) as nat) == i as nat
  {
  }

  lemma UnrotateOne(x: bv32)
    ensures Ror1(Rol1(x)) == x && Rol1(Ror1(x)) == x
  {
  }

  lemma {:induction false} RotBack(x: bv32, n: nat)
    ensures RotR(RotL(x, n), n) == x
  {
    hide Ror1, Rol1;
    if n > 0 {
      RotBack(x, n - 1);
      UnrotateOne(RotL(x, n - 1));
    }
  }

  lemma {:induction false} RotForth(x: bv32, n: nat)
    ensures RotL(RotR(x, n), n) == x
    decreases n
  {
    hide Ror1, Rol1;
    if n > 0 {
      RotForth(Ror1(x), n - 1);
      UnrotateOne(x);
    }
  }

  function And(a: bv32, b: bv32): bv32 { a & b }

  function Not(a: bv32): bv32 { !a }

  lemma Rol1AndBits(a: bv32, b: bv32)
    ensures Rol1(a & b) ^ (Rol1(a) & Rol1(b)) == 0
  {
  }

  lemma Rol1And(a: bv32, b: bv32)
    ensures Rol1(And(a, b)) == And(Rol1(a), Rol1(b))
  {
    Rol1AndBits(a, b);
    hide Rol1;
    Same32(Rol1(a & b), Rol1(a) & Rol1(b));
  }

  lemma Rol1Not(a: bv32)
    ensures Rol1(Not(a)) == Not(Rol1(a))
  {
    Same32(Rol1(Not(a)), Not(Rol1(a)));
  }

  lemma {:induction false} RotAnd(a: bv32, b: bv32, n: nat)
    ensures RotL(And(a, b), n) == And(RotL(a, n), RotL(b, n))
  {
    hide Rol1, And;
    if n > 0 {
      RotAnd(a, b, n - 1);
      Rol1And(RotL(a, n - 1), RotL(b, n - 1));
    }
  }

  lemma {:induction false} RotNot(a: bv32, n: nat)
    ensures RotL(Not(a), n) == Not(RotL(a, n))
  {
    hide Rol1, Not;
    if n > 0 {
      RotNot(a, n - 1);
      Rol1Not(RotL(a, n - 1));
    }
  }

  /** A bit position as a number. */
  function Ix(i: bv32): nat { i as nat }

  /** The window of eight ones that a rotation by i moves to the low byte. */
  function Window(i: nat): bv32 { RotR(0xff, i) }

  /** Rotated left by i, c fits in a byte: the code tests this as c & ~m == 0. */
  predicate InWindow(c: bv32, i: nat) {
    And(c, Not(Window(i))) == 0
  }

  lemma {:induction false} RotZero(n: nat)
    ensures RotL(0, n) == 0 && RotR(0, n) == 0
  {
    if n > 0 {
      RotZero(n - 1);
    }
  }

  lemma WindowByte(c: bv32, i: nat)
    ensures InWindow(c, i) <==> RotL(c, i) < 256
  {
    var x := And(c, Not(Window(i)));
    RotAnd(c, Not(Window(i)), i);
    RotNot(Window(i), i);
    RotForth(0xff, i);
    RotZero(i);
    RotBack(x, i);
    ByteTest(RotL(c, i));
    hide And, Not, RotL, RotR;
  }

  lemma ByteTest(y: bv32)
    ensures And(y, Not(0xff)) == 0 <==> y < 256
  {
  }

  /** Some 12-bit immediate field stands for c. */
  ghost predicate Encodable(c: bv32) {
    exists imm: bv32 | imm < 0x1000 :: Operand(imm) == c
  }

  /** The word for a constant in the window of rotation i. */
  lemma StuffWord(op: bv32, c: bv32, i: bv32)
    requires ImmForm(op) && IsRotation(i) && i != 32 && RotL(c, Ix(i)) < 256
    ensures var w := ImmWord(op, i, RotL(c, Ix(i))); Does(w, op, c) && HasConst(w, op, c) && w != 0 && Encodable(c)
  {
    var x := RotL(c, Ix(i));
    FieldsOf(op, i, x);
    FormKept(op, i, x);
    ImmField(i, x);
    var w := ImmWord(op, i, x);
    assert w != 0;
    assert HasConst(w, op, c) <==> Operand(w) == c;
    hide *;
    OperandIs(c, i, x, w);
    OperandIs(c, i, x, ImmWord(0, i, x));
    DoesIt(w, op, c);
    Encodes(ImmWord(0, i, x), c);
  }

  /** w is op with an immediate that stands for c: whatever op computes, w computes it with c. */
  predicate HasConst(w: bv32, op: bv32, c: bv32) {
    w & 0xffff_f000 == op && Operand(w) == c
  }

  /** The condition of w is that of op, and so is its S bit. */
  predicate SameCond(w: bv32, op: bv32) {
    w & 0xf010_0000 == op & 0xf010_0000
  }

  lemma FormKept(op: bv32, i: bv32, x: bv32)
    requires ImmForm(op) && IsRotation(i) && i != 32 && x < 256
    ensures ImmWord(op, i, x) & 0xffff_f000 == op
  {
  }

  lemma DoesIt(w: bv32, op: bv32, c: bv32)
    requires SameOp(w, op) && Operand(w) == c
    ensures Does(w, op, c)
  {
    hide Operand, Opcode, Rn, Rd, Alu;
  }

  lemma Encodes(imm: bv32, c: bv32)
    requires imm < 0x1000 && Operand(imm) == c
    ensures Encodable(c)
  {
  }

  lemma OperandIs(c: bv32, i: bv32, x: bv32, w: bv32)
    requires IsRotation(i) && i != 32 && x == RotL(c, Ix(i)) && HasImm(w, i, x)
    ensures Operand(w) == c
  {
    Halve(i);
    RotBack(c, Ix(i));
    hide RotL, RotR;
  }

  /** The rotations the search tries, and 32 where it stops. */
  predicate IsRotation(i: bv32) {
    i <= 32 && i & 1 == 0
  }

  lemma ImmField(i: bv32, x: bv32)
    requires IsRotation(i) && i != 32 && x < 256
    ensures var imm := ImmWord(0, i, x); imm < 0x1000 && HasImm(imm, i, x)
  {
  }

  lemma NotEncodable(c: bv32)
    requires forall j: nat | j < 16 :: RotL(c, 2 * j) >= 256
    ensures !Encodable(c)
  {
    hide RotL, RotR;
    forall imm: bv32 | imm < 0x1000
      ensures Operand(imm) != c
    {
      var b, k := imm & 0xff, ((imm >> 8) & 15) as nat;
      RotForth(b, 2 * k);
    }
  }

  lemma IxSteps(i: bv32)
    ensures Ix(0) == 0 && Ix(2) == 2
    ensures i < 32 ==> Ix(i + 2) == Ix(i) + 2
    ensures i <= 32 ==> Ix(i) <= 32 && (Ix(i) < 32 <==> i < 32)
    ensures IsRotation(0) && IsRotation(2) && (IsRotation(i) && i < 32 ==> IsRotation(i + 2))
    ensures IsRotation(i) ==> i <= 32
  {
  }

  /** Rotated left by 2 * k, and by no smaller even number, c fits in a byte. */
  ghost predicate IsLeast(c: bv32, k: nat) {
    k < 16 && RotL(c, 2 * k) < 256 && forall j: nat | j < k :: RotL(c, 2 * j) >= 256
  }

  /** op with c as the immediate field of rotation k. */
  function LeastWord(op: bv32, c: bv32, k: nat): bv32
    requires k < 16
  {
    op | (Bits4(k) << 8) | RotL(c, 2 * k)
  }

  function Bits4(k: nat): bv32
    requires k < 16
  {
    k as bv32
  }

  lemma LeastIs(op: bv32, c: bv32, i: bv32, k: nat)
    requires IsRotation(i) && i != 32 && Ix(i) == 2 * k && k < 16 && RotL(c, 2 * k) < 256
    requires forall j: nat | j < k :: RotL(c, 2 * j) >= 256
    ensures IsLeast(c, k) && ImmWord(op, i, RotL(c, Ix(i))) == LeastWord(op, c, k)
  {
    hide RotL;
    Halved(i, k);
  }

  lemma Halved(i: bv32, k: nat)
    requires IsRotation(i) && i != 32 && Ix(i) == 2 * k && k < 16
    ensures i << 7 == Bits4(k) << 8
  {
    assert i == 2 * Bits4(k);
  }

  /** The search over rotations: the do-while body of the encoder. */
  method TryRotations(op: bv32, c: bv32) returns (w: bv32)
    requires ImmForm(op)
    ensures w != 0 ==> Does(w, op, c) && HasConst(w, op, c)
    ensures w == 0 <==> !Encodable(c)
    ensures w != 0 ==> exists k: nat :: IsLeast(c, k) && w == LeastWord(op, c, k)
  {
    hide RotL, RotR, IsLeast, LeastWord, Does, HasConst, Encodable, Ix, InWindow, IsRotation, ImmForm, ImmWord;
    IxSteps(0);
    assert RotL(c, 0) == c by {
      RotNone(c);
    }
    if c < 256 { // catch undefined <<32
      w := ImmWord(op, 0, c);
      StuffWord(op, c, 0);
      LeastIs(op, c, 0, 0);
      return w;
    }
    var i: bv32 := 2;
    ghost var k := 1;
    while i < 32
      invariant IsRotation(i) && i <= 32 && 1 <= k <= 16 && Ix(i) == 2 * k
      invariant forall j: nat | j < k :: RotL(c, 2 * j) >= 256
      decreases 16 - k
    {
      IxSteps(i);
      WindowByte(c, Ix(i));
      if InWindow(c, Ix(i)) {
        w := ImmWord(op, i, RotL(c, Ix(i)));
        StuffWord(op, c, i);
        LeastIs(op, c, i, k);
        return w;
      }
      i := i + 2;
      k := k + 1;
    }
    IxSteps(i);
    NotEncodable(c);
    w := 0;
  }

  lemma RotNone(c: bv32)
    ensures RotL(c, 0) == c
  {
  }

  const ONES: bv32 := 0xffff_ffff

  /** The operation that has the same effect with the complementary constant: add and sub, mov and mvn, and and bic. */
  function Opposite(op: bv32): Option<bv32> {
    var k := op & 0x1f0_0000;
    if k == 0x80_0000 || k == 0x40_0000 then Some(op ^ 0xc0_0000)
    else if k == 0x1a0_0000 || k == 0x1e0_0000 then Some(op ^ 0x40_0000)
    else if k == 0 || k == 0x1c0_0000 then Some(op ^ 0x1c0_0000)
    else None
  }

  function Complement(op: bv32, c: bv32): bv32 {
    var k := op & 0x1f0_0000;
    if k == 0x80_0000 || k == 0x40_0000 then 0 - c else !c
  }

  /** The operations that need no constant to combine with all ones: eor, and, orr. */
  predicate AllOnesForm(op: bv32) {
    var k := op & 0x1f0_0000;
    k == 0x20_0000 || k == 0 || k == 0x180_0000
  }

  /** One instruction can do op with the constant c. */
  ghost predicate OneInstruction(op: bv32, c: bv32) {
    Encodable(c) || (Opposite(op).Some? && Encodable(Complement(op, c))) || (AllOnesForm(op) && c == ONES)
  }

  lemma OppositeSame(op: bv32, c: bv32, m: Regs)
    requires Opposite(op).Some?
    ensures ExecWith(Opposite(op).value, Complement(op, c), m) == ExecWith(op, c, m)
    ensures ImmForm(op) ==> ImmForm(Opposite(op).value)
  {
    OppositeFields(op);
    OppositeAlu(op, R(m, Rn(op)), c);
    hide Opposite, Complement, Alu, Opcode, Rn, Rd, ImmForm;
  }

  lemma OppositeFields(op: bv32)
    requires Opposite(op).Some?
    ensures Rn(Opposite(op).value) == Rn(op) && Rd(Opposite(op).value) == Rd(op)
    ensures ImmForm(op) ==> ImmForm(Opposite(op).value)
  {
  }

  lemma OppositeOpcodes(op: bv32)
    requires Opposite(op).Some?
    ensures var k, o, n := op & 0x1f0_0000, Opcode(op), Opcode(Opposite(op).value);
      (o == 4 && n == 2 && k == 0x80_0000) || (o == 2 && n == 4 && k == 0x40_0000) ||
      (o == 13 && n == 15 && k == 0x1a0_0000) || (o == 15 && n == 13 && k == 0x1e0_0000) ||
      (o == 0 && n == 14 && k == 0) || (o == 14 && n == 0 && k == 0x1c0_0000)
  {
  }

  lemma AddSubAlu(a: bv32, c: bv32)
    ensures Alu(2, a, 0 - c) == Alu(4, a, c) && Alu(4, a, 0 - c) == Alu(2, a, c)
  {
  }

  lemma NotAlu(a: bv32, c: bv32)
    ensures Alu(15, a, !c) == Alu(13, a, c) && Alu(13, a, !c) == Alu(15, a, c)
    ensures Alu(14, a, !c) == Alu(0, a, c) && Alu(0, a, !c) == Alu(14, a, c)
  {
  }

  lemma OppositeAlu(op: bv32, a: bv32, c: bv32)
    requires Opposite(op).Some?
    ensures Alu(Opcode(Opposite(op).value), a, Complement(op, c)) == Alu(Opcode(op), a, c)
  {
    OppositeOpcodes(op);
    AddSubAlu(a, c);
    NotAlu(a, c);
    hide Opcode, Opposite, Alu;
  }

  lemma EorOnes(op: bv32)
    requires ImmForm(op) && op & 0x1f0_0000 == 0x20_0000
    ensures var w := (op & 0xf010_f000) | ((op >> 16) & 0xf) | 0x1e0_0000;
      w != 0 && Does(w, op, ONES) && SameCond(w, op)
  {
  }

  lemma AndOnes(op: bv32)
    requires ImmForm(op) && op & 0x1f0_0000 == 0
    ensures var w := (op & 0xf010_f000) | ((op >> 16) & 0xf) | 0x1a0_0000;
      w != 0 && Does(w, op, ONES) && SameCond(w, op)
  {
  }

  lemma OrrOnes(op: bv32)
    requires ImmForm(op) && op & 0x1f0_0000 == 0x180_0000
    ensures var w := (op & 0xfff0_ffff) | 0x1e0_0000; w != 0 && Does(w, op, ONES) && SameCond(w, op)
  {
    var w := (op & 0xfff0_ffff) | 0x1e0_0000;
    assert Opcode(w) == 15 && Rd(w) == Rd(op) && Opcode(op) == 12;
    assert RotR(0, 0) == 0;
    assert Operand(w) == 0;
  }

  /** An instruction that does op with the constant c, or 0 if there is none. */
  method StuffConst(op0: bv32, c0: bv32) returns (w: bv32)
    requires ImmForm(op0)
    ensures w != 0 ==> Does(w, op0, c0) && SameCond(w, op0)
    ensures w == 0 <==> !OneInstruction(op0, c0)
    ensures Encodable(c0) && !(AllOnesForm(op0) && c0 == ONES) ==> HasConst(w, op0, c0)
    ensures !Encodable(c0) && !(AllOnesForm(op0) && c0 == ONES) && Opposite(op0).Some? && w != 0 ==>
      HasConst(w, Opposite(op0).value, Complement(op0, c0))
  {
    hide Does, HasConst, SameCond, Encodable, ImmForm;
    var op, c := op0, c0;
    var tryNeg, negop, nc: bv32 := false, 0, 0;
    var k := op & 0x1f0_0000;
    if k == 0x80_0000 || k == 0x40_0000 { // add, sub
      tryNeg, negop, nc := true, op ^ 0xc0_0000, 0 - c;
    } else if k == 0x1a0_0000 || k == 0x1e0_0000 { // mov, mvn
      tryNeg, negop, nc := true, op ^ 0x40_0000, !c;
    } else if k == 0x20_0000 { // xor
      if c == ONES {
        EorOnes(op);
        return (op & 0xf010_f000) | ((op >> 16) & 0xf) | 0x1e0_0000;
      }
    } else if k == 0 || k == 0x1c0_0000 { // and falls through to bic
      if k == 0 && c == ONES {
        AndOnes(op);
        return (op & 0xf010_f000) | ((op >> 16) & 0xf) | 0x1a0_0000;
      }
      tryNeg, negop, nc := true, op ^ 0x1c0_0000, !c;
    } else if k == 0x180_0000 { // orr
      if c == ONES {
        OrrOnes(op);
        return (op & 0xfff0_ffff) | 0x1e0_0000;
      }
    }
    w := TryRotations(op, c);
    if w != 0 {
      ConstCond(w, op, c);
    } else if tryNeg {
      OppositeDoes(op, c);
      w := TryRotations(negop, nc);
      if w != 0 {
        ConstCond(w, negop, nc);
      }
    }
  }

  lemma ConstCond(w: bv32, op: bv32, c: bv32)
    requires ImmForm(op) && HasConst(w, op, c)
    ensures SameCond(w, op)
    ensures forall op0: bv32 :: Opposite(op0) == Some(op) ==> SameCond(w, op0)
  {
    hide Operand;
  }

  lemma OppositeDoes(op: bv32, c: bv32)
    requires ImmForm(op) && Opposite(op).Some?
    ensures ImmForm(Opposite(op).value)
    ensures forall w: bv32 :: Does(w, Opposite(op).value, Complement(op, c)) ==> Does(w, op, c)
  {
    OppositeFields(op);
    hide Opposite, Complement, Exec, ExecWith;
    forall w: bv32 | Does(w, Opposite(op).value, Complement(op, c))
      ensures Does(w, op, c)
    {
      forall m: Regs ensures Exec(w, m) == ExecWith(op, c, m) {
        OppositeSame(op, c, m);
      }
    }
  }
}
