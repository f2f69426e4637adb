/** When the conditional jumps are taken: the condition codes after a comparison, and the words with which AArch64
  * tests a value. */
module JumpMeaning {
  import opened Binary
  import opened Bytes
  import opened JumpLists
  import opened JumpCode
  import A64Machine

  type Word32 = x: nat | x < M32

  function SInt(x: Word32): int { if x < 0x8000_0000 then x else x - M32 }

  datatype Flags = Flags(n: bool, z: bool, c: bool, v: bool)

  /** The flags of a sum: a carry if the unsigned sum does not fit, an overflow if the signed one does not. */
  function AddWithCarry(x: Word32, y: Word32, carry: nat): Flags {
    var unsigned, signed := x + y + carry, SInt(x) + SInt(y) + carry;
    var r := unsigned % M32;
    Flags(r >= 0x8000_0000, r == 0, r != unsigned, SInt(r) != signed)
  }

  /** The flags of comparing a with b, which adds the complement of b and one. */
  function Compare(a: Word32, b: Word32): Flags { AddWithCarry(a, M32 - 1 - b, 1) }

  /** The condition field of an ARM instruction. */
  predicate ArmHolds(cond: nat, f: Flags) {
    match cond
    case 0 => f.z
    case 1 => !f.z
    case 2 => f.c
    case 3 => !f.c
    case 4 => f.n
    case 5 => !f.n
    case 6 => f.v
    case 7 => !f.v
    case 8 => f.c && !f.z
    case 9 => !f.c || f.z
    case 10 => f.n == f.v
    case 11 => f.n != f.v
    case 12 => !f.z && f.n == f.v
    case 13 => f.z || f.n != f.v
    case _ => true
  }

  /** What a comparison token asks of the operands. */
  predicate Asks(cc: CC, a: Word32, b: Word32) {
    match cc
    case ULT => a < b
    case UGE => a >= b
    case EQ => a == b
    case NE => a != b
    case ULE => a <= b
    case UGT => a > b
    case Nset => (a - b) % M32 >= 0x8000_0000
    case Nclear => (a - b) % M32 < 0x8000_0000
    case LT => SInt(a) < SInt(b)
    case GE => SInt(a) >= SInt(b)
    case LE => SInt(a) <= SInt(b)
    case GT => SInt(a) > SInt(b)
    case Unexpected => false
  }

  lemma CompareIs(a: Word32, b: Word32)
    ensures var f := Compare(a, b);
      && (f.c <==> a >= b) && (f.z <==> a == b) && (f.n <==> (a - b) % M32 >= 0x8000_0000)
      && (f.n != f.v <==> SInt(a) < SInt(b))
  {
  }

  /** After a comparison, the condition that a token is mapped to holds exactly if what the token asks is true; tokens
    * without a condition are rejected. */
  lemma CondMeans(cc: CC, a: Word32, b: Word32)
    ensures MapCC(cc).None? <==> cc == Unexpected
    ensures cc != Unexpected ==> (ArmHolds(MapCC(cc).value, Compare(a, b)) <==> Asks(cc, a, b))
    ensures ArmHolds(14, Compare(a, b))
  {
    CompareIs(a, b);
    hide Compare;
  }

  /** The condition codes of i386; its carry flag is the borrow of the comparison. */
  predicate X86Holds(code: nat, f: Flags) {
    match code
    case 0 => f.v
    case 1 => !f.v
    case 2 => !f.c
    case 3 => f.c
    case 4 => f.z
    case 5 => !f.z
    case 6 => !f.c || f.z
    case 7 => f.c && !f.z
    case 8 => f.n
    case 9 => !f.n
    case 12 => f.n != f.v
    case 13 => f.n == f.v
    case 14 => f.z || f.n != f.v
    case 15 => !f.z && f.n == f.v
    case _ => false
  }

  /** The opcode bytes of an i386 jump make it jump: e9 always, 0f 8x on condition x. */
  predicate X86Jumps(code: seq<byte>, f: Flags) {
    if |code| == 1 then code[0] == 0xe9
    else |code| == 2 && code[0] == 0x0f && code[1] / 16 == 8 && X86Holds(code[1] % 16, f)
  }

  /** The number of a comparison token. */
  function Token(cc: CC): nat
    requires cc != Unexpected
  {
    match cc
    case ULT => 0x92
    case UGE => 0x93
    case EQ => 0x94
    case NE => 0x95
    case ULE => 0x96
    case UGT => 0x97
    case Nset => 0x98
    case Nclear => 0x99
    case LT => 0x9c
    case GE => 0x9d
    case LE => 0x9e
    case GT => 0x9f
  }

  /** The bytes that the i386 generator puts in front of a jump's field, and when they jump after a comparison. */
  lemma JccMeans(cc: CC, a: Word32, b: Word32)
    requires cc != Unexpected
    ensures 0x90 <= Token(cc) <= 0x9f
    ensures X86Jumps([0x0f, Token(cc) - 16], Compare(a, b)) <==> Asks(cc, a, b)
    ensures X86Jumps([0xe9], Compare(a, b))
  {
    CompareIs(a, b);
    hide Compare;
  }

  // AArch64: the words in front of a conditional jump.

  const M64: nat := M32 * M32

  type Word64 = x: nat | x < M64

  /** Integer registers, vector registers as low and high halves, and the zero flag. */
  datatype State = State(x: map<nat, Word64>, lo: map<nat, Word64>, hi: map<nat, Word64>, z: bool)

  function At(m: map<nat, Word64>, r: nat): Word64 { if r in m then m[r] else 0 }

  lemma OrFits(a: Word64, b: Word64)
    ensures A64Machine.Logic(A64Machine.Or, a, b) < M64
  {
    A64Machine.LogicFits(A64Machine.Or, a, b, true);
  }

  /** x with the bits of y moved up by one joined in. */
  function OrDouble(x: Word64, y: Word64): Word64 {
    OrFits(x, 2 * y % M64);
    A64Machine.Logic(A64Machine.Or, x, 2 * y % M64)
  }

  /** mov of half a vector register, orr with a register shifted by one, and fcmp with zero, which sets the zero flag
    * for either sign. */
  function Exec(w: nat, s: State): Option<State> {
    var d, n, m := w % 32, w / 0x20 % 32, w / 0x1_0000 % 32;
    if w / 0x400 == 0x13_820f then Some(s.(x := s.x[d := At(s.lo, n)]))
    else if w / 0x400 == 0x13_860f then Some(s.(x := s.x[d := At(s.hi, n)]))
    else if w / 0x20_0000 == 0x550 && w / 0x400 % 64 == 1 then Some(s.(x := s.x[d := OrDouble(At(s.x, n), At(s.x, m))]))
    else if w / 0x400 == 0x7_8808 && d == 8 then Some(s.(z := At(s.lo, n) % 0x8000_0000 == 0))
    else if w / 0x400 == 0x7_9808 && d == 8 then Some(s.(z := At(s.lo, n) % 0x8000_0000_0000_0000 == 0))
    else None
  }

  predicate Taken(b: Branch, s: State) {
    match b
    case Cbz(wide, nonzero, r, _) => (if wide then At(s.x, r) == 0 else At(s.x, r) % M32 == 0) != nonzero
    case BCond(cond, _) => if cond == 0 then s.z else cond == 1 && !s.z
  }

  /** The words run, and the last of them is a branch that is taken. */
  predicate Skips(ws: seq<nat>, s: State)
    decreases |ws|
  {
    if |ws| == 0 then false
    else if |ws| == 1 then BranchOf(ws[0]).Some? && Taken(BranchOf(ws[0]).value, s)
    else
      match Exec(ws[0], s)
      case None => false
      case Some(t) => Skips(ws[1..], t)
  }

  /** The value is zero; a floating one of either sign. */
  predicate IsZero(v: Compared, s: State) {
    match v
    case Whole(a, wide) => if wide then At(s.x, a) == 0 else At(s.x, a) % M32 == 0
    case Floating(f, wide) => At(s.lo, f) % (if wide then 0x8000_0000_0000_0000 else 0x8000_0000) == 0
    case LongDouble(f, _, _) => At(s.lo, f) == 0 && At(s.hi, f) % 0x8000_0000_0000_0000 == 0
  }

  lemma {:induction false} OrIsZero(a: nat, b: nat)
    ensures A64Machine.Logic(A64Machine.Or, a, b) == 0 <==> a == 0 && b == 0
    decreases a + b
  {
    if a != 0 || b != 0 {
      OrIsZero(a / 2, b / 2);
    }
  }

  lemma DoubleIsZero(y: Word64)
    ensures 2 * y % M64 == 0 <==> y % 0x8000_0000_0000_0000 == 0
  {
  }

  lemma MovLow(a: Register, f: Register, s: State)
    ensures Exec(0x4e08_3c00 + a + f * 0x20, s) == Some(s.(x := s.x[a := At(s.lo, f)]))
  {
    var w := 0x4e08_3c00 + a + f * 0x20;
    DivUnique(0x400, 0x13_820f, a + f * 0x20, w);
    DivUnique(0x20, 0x13_820f * 32 + f, a, w);
    DivUnique(32, 0x13_820f, f, w / 0x20);
  }

  lemma MovHigh(b: Register, f: Register, s: State)
    ensures Exec(0x4e18_3c00 + b + f * 0x20, s) == Some(s.(x := s.x[b := At(s.hi, f)]))
  {
    var w := 0x4e18_3c00 + b + f * 0x20;
    DivUnique(0x400, 0x13_860f, b + f * 0x20, w);
    DivUnique(0x20, 0x13_860f * 32 + f, b, w);
    DivUnique(32, 0x13_860f, f, w / 0x20);
  }

  lemma OrShifted(a: Register, b: Register, s: State)
    ensures Exec(0xaa00_0400 + a + a * 0x20 + b * 0x1_0000, s) ==
      Some(s.(x := s.x[a := OrDouble(At(s.x, a), At(s.x, b))]))
  {
    hide OrDouble;
    var w := 0xaa00_0400 + a + a * 0x20 + b * 0x1_0000;
    DivUnique(0x20_0000, 0x550, b * 0x1_0000 + 0x400 + a * 0x20 + a, w);
    DivUnique(0x400, (0x550 * 32 + b) * 64 + 1, a * 0x20 + a, w);
    DivUnique(64, 0x550 * 32 + b, 1, w / 0x400);
    DivUnique(0x1_0000, 0x550 * 32 + b, 0x400 + a * 0x20 + a, w);
    DivUnique(32, 0x550, b, w / 0x1_0000);
    DivUnique(0x20, ((0x550 * 32 + b) * 64 + 1) * 32 + a, a, w);
    DivUnique(32, (0x550 * 32 + b) * 64 + 1, a, w / 0x20);
  }

  lemma CompareZero(f: Register, wide: bool, s: State)
    ensures Exec(0x1e20_2008 + f * 0x20 + Bit(wide) * 0x40_0000, s) ==
      Some(s.(z := At(s.lo, f) % (if wide then 0x8000_0000_0000_0000 else 0x8000_0000) == 0))
  {
    var w := 0x1e20_2008 + f * 0x20 + Bit(wide) * 0x40_0000;
    var top := if wide then 0x7_9808 else 0x7_8808;
    DivUnique(0x400, top, 8 + f * 0x20, w);
    DivUnique(0x20, top * 32 + f, 8, w);
    DivUnique(32, top, f, w / 0x20);
  }

  /** The words in front of a conditional jump skip it exactly if the value is zero, or with inv if it is not. */
  lemma SkipMeans(v: Compared, inv: bool, s: State)
    requires v.LongDouble? ==> v.a != v.b
    ensures Skips(SkipWords(v, inv), s) <==> IsZero(v, s) != inv
  {
    SkipSkips(v, inv);
    match v {
      case Whole(a, wide) =>
      case Floating(f, wide) =>
        CompareZero(f, wide, s);
        hide Exec, BranchOf;
        var ws := SkipWords(v, inv);
        assert ws[1..] == [ws[1]];
      case LongDouble(f, a, b) =>
        LongDoubleSkips(f, a, b, inv, s);
    }
  }

  lemma LongDoubleSkips(f: Register, a: Register, b: Register, inv: bool, s: State)
    requires a != b
    ensures Skips(SkipWords(LongDouble(f, a, b), inv), s) <==> IsZero(LongDouble(f, a, b), s) != inv
  {
    var ws := SkipWords(LongDouble(f, a, b), inv);
    SkipSkips(LongDouble(f, a, b), inv);
    MovLow(a, f, s);
    var s1 := s.(x := s.x[a := At(s.lo, f)]);
    MovHigh(b, f, s1);
    var s2 := s1.(x := s1.x[b := At(s.hi, f)]);
    OrShifted(a, b, s2);
    var s3 := s2.(x := s2.x[a := OrDouble(At(s2.x, a), At(s2.x, b))]);
    assert At(s2.x, a) == At(s.lo, f) && At(s2.x, b) == At(s.hi, f);
    OrIsZero(At(s.lo, f), 2 * At(s.hi, f) % M64);
    DoubleIsZero(At(s.hi, f));
    assert At(s3.x, a) == OrDouble(At(s.lo, f), At(s.hi, f));
    hide Exec, BranchOf;
    assert ws[1..] == [ws[1], ws[2], ws[3]] && ws[1..][1..] == [ws[2], ws[3]] && ws[1..][1..][1..] == [ws[3]];
    assert Skips([ws[3]], s3) <==> Taken(Cbz(true, inv, a, 8), s3);
    assert Skips([ws[2], ws[3]], s2) <==> Skips([ws[3]], s3);
    assert Skips([ws[1], ws[2], ws[3]], s1) <==> Skips([ws[2], ws[3]], s2);
  }
}
