/** The assembler's own encoder of A32 immediates, against the code generator's. */
module A32Asm {
  import opened Binary
  import opened BitFacts
  import opened A32Machine
  import opened A32Const
  import A32Add

  function RotateLeft2(x: bv32): bv32 {
    ((x & 0x3fff_ffff) << 2) | ((x & 0xc000_0000) >> 30)
  }

  lemma TwoLefts(x: bv32)
    ensures RotateLeft2(x) == Rol1(Rol1(x))
  {
    TwoLeftsXor(x);
    Same32(RotateLeft2(x), Rol1(Rol1(x)));
  }

  lemma TwoLeftsXor(x: bv32)
    ensures Diff32(RotateLeft2(x), Rol1(Rol1(x))) == 0
  {
  }

  /** The twelve bits for x with half rotation r. */
  function Packed(r: nat, x: bv32): bv32
    requires r < 16
  {
    (Bits4(r) << 8) | x
  }

  /** The loop over half rotations: the least one that fits, or 16. */
  method HalfRotation(c: bv32) returns (r: nat, x: bv32)
    ensures r <= 16 && (r < 16 ==> IsLeast(c, r) && x == RotL(c, 2 * r))
    ensures r < 16 <==> Encodable(c)
  {
    hide Encodable, Rol1, RotateLeft2;
    x := c;
    r := 0;
    while r < 16 && x >= 0x100
      invariant r <= 16 && x == RotL(c, 2 * r) && forall j: nat | j < r :: RotL(c, 2 * j) >= 256
    {
      TwoLefts(x);
      assert RotL(c, 2 * r + 2) == Rol1(RotL(c, 2 * r + 1)) == Rol1(Rol1(RotL(c, 2 * r)));
      x := RotateLeft2(x);
      r := r + 1;
    }
    hide RotL;
    if r == 16 {
      NotEncodable(c);
    } else {
      LeastEncodable(c, r);
    }
  }

  lemma LeastEncodable(c: bv32, r: nat)
    requires r < 16 && RotL(c, 2 * r) < 256
    ensures Encodable(c) && Operand(Packed(r, RotL(c, 2 * r))) == c
  {
    hide RotL, RotR, Ix, IsRotation, ImmWord, HasImm, Packed, Operand;
    var i := A32Add.RotationAt(r);
    var x := RotL(c, 2 * r);
    RotationBelow(i);
    ImmField(i, x);
    OperandIs(c, i, x, ImmWord(0, i, x));
    WordForm(i, x, r);
    Encodes(ImmWord(0, i, x), c);
  }

  lemma RotationBelow(i: bv32)
    requires i < 32
    ensures i != 32
  {
  }

  lemma WordForm(i: bv32, x: bv32, r: nat)
    requires IsRotation(i) && i != 32 && Ix(i) == 2 * r && r < 16
    ensures ImmWord(0, i, x) == Packed(r, x)
  {
    Halved(i, r);
    hide Bits4, Ix;
    SameShift(i, x, Bits4(r));
  }

  lemma SameShift(i: bv32, x: bv32, k: bv32)
    requires i << 7 == k << 8
    ensures ImmWord(0, i, x) == (k << 8) | x
  {
  }

  /** The operation the assembler changes to when it complements the constant: by sign for sub, add, cmp and cmn, by
    * bits for the rest. */
  function Swapped(nos: bv32): Option<bv32> {
    if nos == 0 then Some(14) else if nos == 2 then Some(4) else if nos == 4 then Some(2) else if nos == 5 then Some(6)
    else if nos == 6 then Some(5) else if nos == 10 then Some(11)
    else if nos == 11 then Some(10) else if nos == 13 then Some(15)
    else if nos == 14 then Some(0) else if nos == 15 then Some(13) else None
  }

  function Neg(c: bv32): bv32 { 0 - c }

  function Complemented(nos: bv32, c: bv32): bv32 {
    if nos == 2 || nos == 4 || nos == 10 || nos == 11 then Neg(c) else Not(c)
  }

  /** An operation number and the twelve bits of its immediate. */
  datatype Immediate = Immediate(nos: bv32, field: bv32)

  /** negative is the parser's OP_IM8N, which goes straight to the complement. */
  method EncodeImmediate(nos: bv32, c: bv32, negative: bool) returns (r: Option<Immediate>)
    ensures r.None? <==> !(!negative && Encodable(c)) && !(Swapped(nos).Some? && Encodable(Complemented(nos, c)))
    ensures r.Some? ==> if !negative && Encodable(c) then r.value.nos == nos && Operand(r.value.field) == c
                        else Swapped(nos) == Some(r.value.nos) && Operand(r.value.field) == Complemented(nos, c)
    ensures r.Some? && !negative && Encodable(c) ==>
      exists k: nat :: IsLeast(c, k) && r.value.field == LeastWord(0, c, k)
  {
    hide Encodable, Swapped, Complemented, Operand, IsLeast, LeastWord, Packed, RotL;
    if !negative {
      var half, x := HalfRotation(c);
      if half < 16 {
        LeastFacts(c, half);
        return Some(Immediate(nos, Packed(half, x)));
      }
    }
    var swapped := Swapped(nos);
    if swapped.None? {
      return None;
    }
    var half, x := HalfRotation(Complemented(nos, c));
    if half < 16 {
      LeastFacts(Complemented(nos, c), half);
      return Some(Immediate(swapped.value, Packed(half, x)));
    }
    r := None;
  }

  lemma LeastFacts(c: bv32, r: nat)
    requires r < 16 && IsLeast(c, r)
    ensures Operand(Packed(r, RotL(c, 2 * r))) == c && LeastWord(0, c, r) == Packed(r, RotL(c, 2 * r))
  {
    LeastEncodable(c, r);
    hide RotL;
  }

  /** There is only one least rotation. */
  lemma LeastUnique(c: bv32, j: nat, k: nat)
    requires IsLeast(c, j) && IsLeast(c, k)
    ensures j == k
  {
    hide RotL;
  }

  /** The two encoders choose the same twelve bits: a code generator's word is its operation joined with the
    * assembler's field. */
  lemma SameField(op: bv32, c: bv32, w: bv32, field: bv32, j: nat, k: nat)
    requires IsLeast(c, j) && w == LeastWord(op, c, j) && IsLeast(c, k) && field == LeastWord(0, c, k)
    ensures w == op | field
  {
    LeastUnique(c, j, k);
    OrZero(op, Bits4(j) << 8, RotL(c, 2 * j));
    hide RotL, Bits4;
  }

  lemma OrZero(op: bv32, a: bv32, b: bv32)
    ensures op | a | b == op | (0 | a | b)
  {
  }

  /** The result of an operation where the carry flag is known; cmp and cmn have none. */
  function AluCarry(nos: bv32, a: bv32, b: bv32, carry: bool): Option<bv32> {
    if nos == 5 then Some(AddWithCarry(a, b, carry).sum)
    else if nos == 6 then Some(AddWithCarry(a, Not(b), carry).sum)
    else if nos == 7 then Some(AddWithCarry(b, Not(a), carry).sum)
    else Alu(nos, a, b)
  }

  const SIGN: bv32 := 0x8000_0000

  /** A 32-bit sum, the carry out of its top bit, and its signed overflow. */
  datatype Sum = Sum(sum: bv32, carry: bool, overflow: bool)

  function AddWithCarry(x: bv32, y: bv32, carry: bool): Sum {
    var r := Add(Add(x, y), if carry then 1 else 0);
    Sum(r, TopCarry(x, y, r), TopOverflow(x, y, r))
  }

  /** The top bits of x and y are ones, or one of them is and the sum r has none there. */
  predicate TopCarry(x: bv32, y: bv32, r: bv32) { ((x & y) | ((x | y) & !r)) & SIGN != 0 }

  /** The top bits of x and y differ from that of the sum r. */
  predicate TopOverflow(x: bv32, y: bv32, r: bv32) { (x ^ r) & (y ^ r) & SIGN != 0 }

  /** The sum that sets the flags of an arithmetic operation or comparison. */
  function FlagSum(nos: bv32, a: bv32, b: bv32, carry: bool): Option<Sum> {
    if nos == 2 || nos == 10 then Some(AddWithCarry(a, Not(b), true))
    else if nos == 4 || nos == 11 then Some(AddWithCarry(a, b, false))
    else if nos == 5 then Some(AddWithCarry(a, b, carry))
    else if nos == 6 then Some(AddWithCarry(a, Not(b), carry))
    else None
  }

  lemma TwiceNot(c: bv32)
    ensures Not(Not(c)) == c
  {
  }

  /** Complementing the constant and swapping the operation does not change the result. */
  lemma SwappedSame(nos: bv32, a: bv32, c: bv32, carry: bool)
    requires Swapped(nos).Some?
    ensures AluCarry(Swapped(nos).value, a, Complemented(nos, c), carry) == AluCarry(nos, a, c, carry)
    ensures AluCarry(nos, a, c, carry).None? <==> nos == 10 || nos == 11
  {
    AddSubAlu(a, c);
    NotAlu(a, c);
    TwiceNot(c);
    assert Neg(c) == 0 - c && Not(c) == !c;
    NoResult(nos, a, c);
    hide Alu, AddWithCarry, Neg, Not;
  }

  lemma NoResult(nos: bv32, a: bv32, c: bv32)
    requires Swapped(nos).Some?
    ensures Alu(nos, a, c).None? <==> nos == 5 || nos == 6 || nos == 10 || nos == 11
    ensures forall b: bv32 :: Alu(10, a, b).None? && Alu(11, a, b).None?
  {
  }

  lemma NotPlusOne(c: bv32)
    ensures Diff32(!c + 1, 0 - c) == 0
  {
  }

  lemma NotIsNeg(a: bv32, c: bv32)
    ensures Add(Add(a, Not(c)), 1) == Add(a, Neg(c))
  {
    NotPlusOne(c);
    Same32(!c + 1, 0 - c);
    assert Add(Not(c), 1) == !c + 1 && Neg(c) == 0 - c;
    A32Add.AddSum(a, Not(c), 1);
    hide Add, Not, Neg;
  }

  predicate TopSame(x: bv32, y: bv32) { (x ^ y) & SIGN == 0 }

  /** Outside two constants, the complement and the negation of c have the same top bit. */
  lemma SameTop(c: bv32)
    requires c != 0 && c != SIGN
    ensures TopSame(Not(c), Neg(c))
  {
  }

  lemma TopOnly(x: bv32, p: bv32, q: bv32, r: bv32)
    requires TopSame(p, q)
    ensures (TopCarry(x, p, r) <==> TopCarry(x, q, r)) && (TopOverflow(x, p, r) <==> TopOverflow(x, q, r))
  {
  }

  lemma TopAtZero(a: bv32)
    ensures TopCarry(a, 0xffff_ffff, a) && !TopCarry(a, 0, a)
    ensures !TopOverflow(a, 0xffff_ffff, a) && !TopOverflow(a, 0, a)
  {
  }

  lemma TopAtSign(a: bv32)
    ensures var r := Add(a, SIGN);
      && (TopCarry(a, 0x7fff_ffff, r) <==> TopCarry(a, SIGN, r))
      && (TopOverflow(a, 0x7fff_ffff, r) <==> !TopOverflow(a, SIGN, r))
  {
  }

  /** Subtracting c and adding -c. */
  lemma NegatedSum(a: bv32, c: bv32)
    ensures var s, t := AddWithCarry(a, Not(c), true), AddWithCarry(a, Neg(c), false);
      s.sum == t.sum && (s.carry == t.carry <==> c != 0) && (s.overflow == t.overflow <==> c != SIGN)
  {
    NotIsNeg(a, c);
    NegPoints();
    AddZero(a);
    AddZero(Add(a, Neg(c)));
    if c == 0 {
      TopAtZero(a);
    } else if c == SIGN {
      TopAtSign(a);
    } else {
      SameTop(c);
      TopOnly(a, Not(c), Neg(c), Add(a, Neg(c)));
    }
    hide Add, Not, Neg, TopCarry, TopOverflow, TopSame;
  }

  lemma AddZero(a: bv32)
    ensures Add(a, 0) == a
  {
  }

  lemma NegPoints()
    ensures Neg(0) == 0 && Not(0) == 0xffff_ffff && Neg(SIGN) == SIGN && Not(SIGN) == 0x7fff_ffff && SIGN != 0
  {
  }

  lemma Negations(c: bv32)
    ensures Neg(Neg(c)) == c && (Neg(c) != 0 <==> c != 0) && (Neg(c) != SIGN <==> c != SIGN)
  {
  }

  /** It sets the same flags, except the carry for an added or subtracted 0 and the overflow for 2 to the power 31. */
  lemma SwappedFlags(nos: bv32, a: bv32, c: bv32, carry: bool)
    requires Swapped(nos).Some? && FlagSum(nos, a, c, carry).Some?
    ensures FlagSum(Swapped(nos).value, a, Complemented(nos, c), carry).Some?
    ensures var s := FlagSum(nos, a, c, carry).value;
      var t := FlagSum(Swapped(nos).value, a, Complemented(nos, c), carry).value;
      && s.sum == t.sum
      && (s.carry == t.carry <==> c != 0 || nos == 5 || nos == 6)
      && (s.overflow == t.overflow <==> c != SIGN || nos == 5 || nos == 6)
  {
    TwiceNot(c);
    Negations(c);
    NegatedSum(a, c);
    NegatedSum(a, Neg(c));
    hide AddWithCarry, Neg, Not;
  }

  /** Those two constants are encodable themselves. */
  lemma PointsEncodable()
    ensures Encodable(0) && Encodable(SIGN)
  {
    assert RotR(0, 0) == 0;
    assert Operand(0) == 0;
    assert RotR(2, 2) == RotR(1, 1) == RotR(0x8000_0000, 0) == 0x8000_0000;
    assert Operand(0x102) == 0x8000_0000;
  }

  /** So the flags are the same whenever the assembler complements because the constant is not encodable. */
  lemma SwappedUnseen(nos: bv32, a: bv32, c: bv32, carry: bool)
    requires Swapped(nos).Some? && !Encodable(c)
    ensures FlagSum(Swapped(nos).value, a, Complemented(nos, c), carry) == FlagSum(nos, a, c, carry)
  {
    PointsEncodable();
    if FlagSum(nos, a, c, carry).Some? {
      SwappedFlags(nos, a, c, carry);
    }
    hide Encodable, AddWithCarry, Neg, Not;
  }

  /** What an operation leaves without the S bit, or for tst, teq, cmp and cmn the negative and zero flags. */
  datatype Effect = Value(v: bv32) | Test(n: bool, z: bool)

  function EffectOf(nos: bv32, a: bv32, b: bv32, carry: bool): Effect {
    if nos == 8 then TestOf(And(a, b))
    else if nos == 9 then TestOf(Diff32(a, b))
    else if nos == 10 then TestOf(Sub(a, b))
    else if nos == 11 then TestOf(Add(a, b))
    else
      match AluCarry(nos, a, b, carry)
      case Some(v) => Value(v)
      case None => Test(false, false)
  }

  function TestOf(x: bv32): Effect { Test(x & SIGN != 0, x == 0) }

  /** Operands that tell an operation without a swap from every operation on a complemented constant. */
  function Witness(nos: bv32): (bv32, bv32) {
    if nos == 1 || nos == 3 then (2, 3)
    else if nos == 7 then (1, 5)
    else if nos == 12 then (3, 2)
    else if nos == 8 then (2, 5)
    else (2, 0xffff_fffe)
  }

  lemma NoSwapEor(n: bv32)
    requires n < 16
    ensures EffectOf(n, 2, 0xffff_fffd, false) != EffectOf(1, 2, 3, false)
    ensures EffectOf(n, 2, 0xffff_fffc, false) != EffectOf(1, 2, 3, false)
  {
  }

  lemma NoSwapRsb(n: bv32)
    requires n < 16
    ensures EffectOf(n, 2, 0xffff_fffd, false) != EffectOf(3, 2, 3, false)
    ensures EffectOf(n, 2, 0xffff_fffc, false) != EffectOf(3, 2, 3, false)
  {
  }

  lemma NoSwapRsc(n: bv32)
    requires n < 16
    ensures EffectOf(n, 1, 0xffff_fffb, false) != EffectOf(7, 1, 5, false)
    ensures EffectOf(n, 1, 0xffff_fffa, false) != EffectOf(7, 1, 5, false)
  {
  }

  lemma NoSwapOrr(n: bv32)
    requires n < 16
    ensures EffectOf(n, 3, 0xffff_fffe, false) != EffectOf(12, 3, 2, false)
    ensures EffectOf(n, 3, 0xffff_fffd, false) != EffectOf(12, 3, 2, false)
  {
  }

  lemma NoSwapTst(n: bv32)
    requires n < 16
    ensures EffectOf(n, 2, 0xffff_fffb, false) != EffectOf(8, 2, 5, false)
    ensures EffectOf(n, 2, 0xffff_fffa, false) != EffectOf(8, 2, 5, false)
  {
  }

  lemma NoSwapTeq(n: bv32)
    requires n < 16
    ensures EffectOf(n, 2, 2, false) != EffectOf(9, 2, 0xffff_fffe, false)
    ensures EffectOf(n, 2, 1, false) != EffectOf(9, 2, 0xffff_fffe, false)
  {
  }

  /** The witness tells nos from operation n with the constant complemented by sign or by bits. */
  predicate Tells(nos: bv32, n: bv32) {
    var (a, c) := Witness(nos);
    && EffectOf(n, a, Neg(c), false) != EffectOf(nos, a, c, false)
    && EffectOf(n, a, Not(c), false) != EffectOf(nos, a, c, false)
  }

  /** The assembler swaps an operation exactly if there is one to swap it for. */
  lemma SwapIfAny(nos: bv32)
    requires nos < 16
    ensures Swapped(nos).None? <==> forall n: bv32 | n < 16 :: Tells(nos, n)
  {
    hide Tells, Swapped;
    if Swapped(nos).None? {
      forall n: bv32 | n < 16
        ensures Tells(nos, n)
      {
        NoSwapAt(nos, n);
      }
    } else {
      SwapWorks(nos);
    }
  }

  lemma NoSwapAt(nos: bv32, n: bv32)
    requires nos < 16 && Swapped(nos).None? && n < 16
    ensures Tells(nos, n)
  {
    hide *;
    NoSwapEor(n);
    NoSwapRsb(n);
    NoSwapRsc(n);
    NoSwapOrr(n);
    NoSwapTst(n);
    NoSwapTeq(n);
    NoSwapDomain(nos);
    Literals();
    TellsIs(nos, n);
  }

  lemma NoSwapDomain(nos: bv32)
    requires nos < 16 && Swapped(nos).None?
    ensures nos == 1 || nos == 3 || nos == 7 || nos == 8 || nos == 9 || nos == 12
    ensures nos == 1 || nos == 3 ==> Witness(nos) == (2, 3)
    ensures nos == 7 ==> Witness(nos) == (1, 5)
    ensures nos == 12 ==> Witness(nos) == (3, 2)
    ensures nos == 8 ==> Witness(nos) == (2, 5)
    ensures nos == 9 ==> Witness(nos) == (2, 0xffff_fffe)
  {
  }

  lemma Literals()
    ensures Neg(3) == 0xffff_fffd && Not(3) == 0xffff_fffc && Neg(5) == 0xffff_fffb && Not(5) == 0xffff_fffa
    ensures Neg(2) == 0xffff_fffe && Not(2) == 0xffff_fffd && Neg(0xffff_fffe) == 2 && Not(0xffff_fffe) == 1
  {
  }

  lemma TellsIs(nos: bv32, n: bv32)
    ensures var w := Witness(nos);
      Tells(nos, n) <==>
        EffectOf(n, w.0, Neg(w.1), false) != EffectOf(nos, w.0, w.1, false) &&
        EffectOf(n, w.0, Not(w.1), false) != EffectOf(nos, w.0, w.1, false)
  {
    hide EffectOf, Neg, Not, Witness;
  }

  lemma SubIsAdd(a: bv32, c: bv32)
    ensures Sub(a, c) == Add(a, Neg(c)) && Add(a, c) == Sub(a, Neg(c))
  {
  }

  /** The swapped operation on the complemented constant has the same effect. */
  lemma EffectSame(nos: bv32, a: bv32, c: bv32, carry: bool)
    requires Swapped(nos).Some?
    ensures EffectOf(Swapped(nos).value, a, Complemented(nos, c), carry) == EffectOf(nos, a, c, carry)
  {
    hide AluCarry, TestOf, Sub, Add, And, Diff32, Neg, Not;
    SwappedSame(nos, a, c, carry);
    SubIsAdd(a, c);
  }

  lemma SwapWorks(nos: bv32)
    requires nos < 16 && Swapped(nos).Some?
    ensures Swapped(nos).value < 16 && !Tells(nos, Swapped(nos).value)
  {
    hide *;
    var w := Witness(nos);
    EffectSame(nos, w.0, w.1, false);
    SwappedBelow(nos);
    TellsIs(nos, Swapped(nos).value);
  }

  lemma SwappedBelow(nos: bv32)
    requires Swapped(nos).Some?
    ensures Swapped(nos).value < 16
    ensures forall c: bv32 :: Complemented(nos, c) == Neg(c) || Complemented(nos, c) == Not(c)
  {
    hide Neg, Not;
  }
}
