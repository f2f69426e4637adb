/** Integer operations with one constant operand. */
module A64Opic {
  import opened Binary
  import opened A64BitMask
  import opened A64Encoder
  import opened A64Machine
  import opened A64Words
  import opened A64Constant
  import opened A64MovImm
  import opened TextSection

  datatype Op = Plus | Minus | Hat | Amp | Bar | Shl | Shr | Sar | Other

  predicate IsShift(op: Op) {
    op.Shl? || op.Shr? || op.Sar?
  }

  /** A shift count as the hardware takes it: modulo the width. */
  function Count(wide: bool, b: nat): (c: nat)
    ensures c < if wide then 64 else 32
  {
    if wide then b % 64 else b % 32
  }

  /** What the C operator means on 32-bit or 64-bit operands. */
  function Result(op: Op, wide: bool, a: Value, b: Value): Value {
    var u := Trim(a, wide);
    match op
    case Plus => Trim(a + b, wide)
    case Minus => Trim(a - b, wide)
    case Hat => LogicMod(Xor, u, Trim(b, wide), wide)
    case Amp => LogicMod(And, u, Trim(b, wide), wide)
    case Bar => LogicMod(Or, u, Trim(b, wide), wide)
    case Shl => Trim(u * P(Count(wide, b)), wide)
    case Shr => Trim(u / P(Count(wide, b)), wide)
    case Sar => Trim(Signed(u, wide) / P(Count(wide, b)), wide)
    case Other => 0
  }

  /** The operands in source order: rev puts the constant first. */
  function Wanted(op: Op, wide: bool, rev: bool, val: Value, v: Value): Value {
    if rev then Result(op, wide, val, v) else Result(op, wide, v, val)
  }

  /** ws leaves the result for operand register a in register x and disturbs at most register 30 besides. */
  ghost predicate Computes(ws: seq<nat>, op: Op, wide: bool, rev: bool, val: Value, x: nat, a: nat) {
    forall m: Regs :: Delivers(ws, m, x, Wanted(op, wide, rev, val, X(m, a)))
  }

  ghost predicate Delivers(ws: seq<nat>, m: Regs, x: nat, v: Value) {
    RunCode(ws, m).Some? && X(RunCode(ws, m).value, x) == v &&
    forall r: nat | r != x && r != 30 :: X(RunCode(ws, m).value, r) == X(m, r)
  }

  /** One instruction that writes v to x delivers it. */
  lemma OneWord(w: nat, m: Regs, x: nat, v: Value)
    requires x < 31 && Exec(w, m) == Some(Set(m, x, v))
    ensures Delivers([w], m, x, v) && Alone([w], m, x, v)
  {
    hide Exec;
    assert [w][1..] == [];
    assert RunCode([w], m) == RunCode([], Set(m, x, v)) == Some(Set(m, x, v));
  }

  /** An instruction after a constant has been put into register 30. */
  lemma AfterLoad(ws: seq<nat>, c: Value, w: nat, m: Regs, x: nat, v: Value)
    requires x < 31 && LoadsAll(ws, 30, c) && Exec(w, Set(m, 30, c)) == Some(Set(Set(m, 30, c), x, v))
    ensures Delivers(ws + [w], m, x, v)
  {
    hide Exec, RunCode;
    assert RunCode(ws, m) == Some(Set(m, 30, c));
    RunAppend(ws, w, m);
  }

  function Neg(neg: bool): nat { if neg then 1 else 0 }

  function Delta(neg: bool, mag: int): int { if neg then -mag else mag }

  /** ADD or SUB of a 12-bit immediate, in place or shifted by 12. */
  lemma AddImm(wide: bool, neg: bool, sh: nat, imm: nat, val: int, x: nat, a: nat, w: nat, m: Regs)
    requires x < 31 && a < 31 && sh < 2 && imm < 0x1000
    requires Trim(Delta(neg, if sh == 1 then imm * 0x1000 else imm), wide) == Trim(val, wide)
    requires w == 0x1100_0000 + Sf(wide) * 0x8000_0000 + Neg(neg) * 0x4000_0000 + sh * 0x40_0000
                  + x + a * 32 + imm * 0x400
    ensures Exec(w, m) == Some(Set(m, x, Trim(X(m, a) + val, wide)))
  {
    TrimSum(X(m, a), Delta(neg, if sh == 1 then imm * 0x1000 else imm), val, wide);
    WordAddImm(wide, Neg(neg), sh, imm, a, x, w, m);
    hide Exec, Trim, X, Set;
  }

  /** ADD or SUB of register 30. */
  lemma AddLoaded(wide: bool, neg: bool, mag: Value, val: int, x: nat, a: nat, w: nat, m: Regs)
    requires x < 31 && a < 30 && Trim(Delta(neg, mag), wide) == Trim(val, wide)
    requires w == 0x0b1e_0000 + Sf(wide) * 0x8000_0000 + Neg(neg) * 0x4000_0000 + x + a * 32
    ensures var m1 := Set(m, 30, mag); Exec(w, m1) == Some(Set(m1, x, Trim(X(m, a) + val, wide)))
  {
    TrimSum(X(m, a), Delta(neg, mag), val, wide);
    WordReg(wide, 2 * Neg(neg), 88, 30, a, x, w, Set(m, 30, mag));
    hide Exec, Trim;
  }

  lemma TrimSum(a: int, b: int, c: int, wide: bool)
    requires Trim(b, wide) == Trim(c, wide)
    ensures Trim(a + b, wide) == Trim(a + c, wide)
  {
  }

  /** SUB of register a from the zero register or from register 30. */
  lemma SubFrom(wide: bool, rn: nat, c: Value, x: nat, a: nat, w: nat, m: Regs)
    requires x < 31 && a < 31 && rn < 32 && X(m, rn) == c
    requires w == 0x4b00_0000 + Sf(wide) * 0x8000_0000 + rn * 32 + x + a * 0x1_0000
    ensures Exec(w, m) == Some(Set(m, x, Trim(c - X(m, a), wide)))
  {
    WordReg(wide, 2, 88, a, rn, x, w, m);
    hide Exec, Trim, X, Set;
  }

  /** MVN: ORN from the zero register. */
  lemma Mvn(wide: bool, x: nat, a: nat, w: nat, m: Regs)
    requires x < 31 && a < 31
    requires w == 0x2a20_03e0 + Sf(wide) * 0x8000_0000 + x + a * 0x1_0000
    ensures Exec(w, m) == Some(Set(m, x, Not(X(m, a), wide)))
  {
    WordReg(wide, 1, 81, a, 31, x, w, m);
    OrZero(Not(X(m, a), wide));
    TrimZero(wide);
    hide Exec, Trim, Not, Set;
  }

  /** MOV between registers: ORR from the zero register. */
  lemma Mov(wide: bool, a: nat, w: nat, m: Regs)
    requires a < 31 && w == 0x2a00_03e0 + Sf(wide) * 0x8000_0000 + a * 0x1_0000
    ensures Exec(w, m) == Some(Set(m, 0, Trim(X(m, a), wide)))
  {
    WordReg(wide, 1, 80, a, 31, 0, w, m);
    OrZero(Trim(X(m, a), wide));
    TrimZero(wide);
    hide Exec, Trim, Set;
  }

  lemma {:induction false} XorOnes(a: nat, n: nat)
    requires a < P(n)
    ensures Logic(Xor, a, P(n) - 1) == P(n) - 1 - a
    decreases n
  {
    if n > 0 {
      XorOnes(a / 2, n - 1);
    }
  }

  lemma LogicSym(op: LogOp, a: nat, b: nat)
    ensures Logic(op, a, b) == Logic(op, b, a)
  {
  }

  /** MVN is the exclusive or with all ones and the difference from minus one. */
  lemma NotIsXor(a: Value, b: Value, wide: bool)
    requires Trim(b, wide) == Modulus(wide) - 1
    ensures Not(a, wide) == LogicMod(Xor, Trim(a, wide), Trim(b, wide), wide)
  {
    var n := if wide then 64 else 32;
    SizeIsP(n);
    assert Modulus(wide) == P(n);
    hide P, Trim;
    XorOnes(Trim(a, wide), n);
  }

  lemma NotIsDifference(a: Value, b: Value, wide: bool)
    requires Trim(b, wide) == Modulus(wide) - 1
    ensures Not(a, wide) == Trim(b - a, wide)
  {
    TrimSum(-(a as int), b, Modulus(wide) - 1, wide);
    TrimComplement(a, wide);
  }

  lemma TrimComplement(a: Value, wide: bool)
    ensures Trim(Modulus(wide) - 1 - a, wide) == Modulus(wide) - 1 - Trim(a, wide)
  {
  }

  lemma LogicImm(op: Op, wide: bool, e: nat, y: nat, val: Value, x: nat, a: nat, w: nat, m: Regs)
    requires x < 31 && a < 31 && e < 0x2000 && (wide || e < 0x1000) && (op.Amp? || op.Bar? || op.Hat?)
    requires DecodeBitMasks(e) == Some(y) && Trim(y, wide) == Trim(val, wide)
    requires w == (if op.Amp? then 0x1200_0000 else if op.Bar? then 0x3200_0000 else 0x5200_0000)
                  + Sf(wide) * 0x8000_0000 + x + a * 32 + e * 0x400
    ensures Exec(w, m) == Some(Set(m, x, Result(op, wide, X(m, a), val)))
    ensures Exec(w, m) == Some(Set(m, x, Result(op, wide, val, X(m, a))))
  {
    WordLogicImm(wide, if op.Amp? then 0 else if op.Bar? then 1 else 2, e, a, x, w, m);
    hide Exec, Trim, DecodeBitMasks, X, Set, Logic;
    LogicSym(if op.Amp? then And else if op.Bar? then Or else Xor, Trim(X(m, a), wide), Trim(val, wide));
  }

  lemma Shift(op: Op, wide: bool, c: nat, val: Value, x: nat, a: nat, w: nat, m: Regs)
    requires x < 31 && a < 31 && IsShift(op) && c == Count(wide, val) && c > 0
    requires var n := if wide then 64 else 32;
      w == (if op.Shl? then 0x5300_0000 + (n - c) * 0x1_0000 + (n - 1 - c) * 0x400
            else 0x1300_0000 + (if op.Shr? then 0x4000_0000 else 0) + c * 0x1_0000 + (n - 1) * 0x400)
           + Sf(wide) * 0x8000_0000 + Sf(wide) * 0x40_0000 + x + a * 32
    ensures Exec(w, m) == Some(Set(m, x, Result(op, wide, X(m, a), val)))
  {
    var n := if wide then 64 else 32;
    if op.Shl? {
      WordBitfield(wide, 2, n - c, n - 1 - c, a, x, w, m);
    } else {
      WordBitfield(wide, if op.Shr? then 2 else 0, c, n - 1, a, x, w, m);
    }
    hide Exec, Trim, Count, X, Set, P, Signed;
  }

  /** Some logical immediate stands for v. */
  ghost predicate Encodable(wide: bool, v: nat) {
    exists e: nat | e < 0x2000 && (wide || e < 0x1000) ::
      DecodeBitMasks(e).Some? && Trim(DecodeBitMasks(e).value, wide) == v
  }

  /** The operations the generator takes on; for the others it emits nothing. */
  ghost predicate Supported(op: Op, wide: bool, rev: bool, val: Value) {
    match op
    case Plus => true
    case Minus => true
    case Hat => Trim(val, wide) == Modulus(wide) - 1 || Encodable(wide, Trim(val, wide))
    case Amp => Encodable(wide, Trim(val, wide))
    case Bar => Encodable(wide, Trim(val, wide))
    case Shl => !rev
    case Shr => !rev
    case Sar => !rev
    case Other => false
  }

  /** ws is one word, and writes nothing but v to x. */
  ghost predicate Alone(ws: seq<nat>, m: Regs, x: nat, v: Value) {
    |ws| == 1 && RunCode(ws, m) == Some(Set(m, x, v))
  }

  /** The constant or its negative fits the 12-bit immediate of an addition, shifted by 12 or not. */
  predicate AddsInOne(val: nat, wide: bool)
    requires val < Modulus(wide)
  {
    var mag := if val >= Modulus(wide) / 2 then Modulus(wide) - val else val;
    mag < 0x1000 || (mag % 0x1000 == 0 && mag < 0x100_0000)
  }

  /** Adds the constant tgt, as val or as its negative, whichever is smaller. */
  method GenAdd(text: Text<nat>, wide: bool, val: nat, tgt: int, x: nat, a: nat) returns (ghost ws: seq<nat>)
    requires x < 31 && a < 30 && val < Modulus(wide) && val == Trim(tgt, wide)
    modifies text
    ensures text.code == old(text.code) + ws
    ensures forall m: Regs :: Delivers(ws, m, x, Trim(X(m, a) + tgt, wide))
    ensures |ws| == 1 <==> AddsInOne(val, wide)
    ensures AddsInOne(val, wide) ==> forall m: Regs :: Alone(ws, m, x, Trim(X(m, a) + tgt, wide))
  {
    hide Trim, Delivers, Alone, Exec, LoadsAll, X, Set;
    var s := val >= Modulus(wide) / 2;
    var mag := if s then Modulus(wide) - val else val;
    SignSplit(val, tgt, s, mag, wide);
    var base := Sf(wide) * 0x8000_0000 + Neg(s) * 0x4000_0000 + x + a * 32;
    if mag < 0x1000 {
      var w := 0x1100_0000 + base + mag * 0x400;
      text.O(w);
      ws := [w];
      forall m: Regs ensures Delivers(ws, m, x, Trim(X(m, a) + tgt, wide))
        ensures Alone(ws, m, x, Trim(X(m, a) + tgt, wide))
      {
        AddImm(wide, s, 0, mag, tgt, x, a, w, m);
        OneWord(w, m, x, Trim(X(m, a) + tgt, wide));
      }
    } else if mag % 0x1000 == 0 && mag < 0x100_0000 {
      var w := 0x1140_0000 + base + mag / 0x1000 * 0x400;
      text.O(w);
      ws := [w];
      forall m: Regs ensures Delivers(ws, m, x, Trim(X(m, a) + tgt, wide))
        ensures Alone(ws, m, x, Trim(X(m, a) + tgt, wide))
      {
        AddImm(wide, s, 1, mag / 0x1000, tgt, x, a, w, m);
        OneWord(w, m, x, Trim(X(m, a) + tgt, wide));
      }
    } else {
      ws := MovImm(text, 30, mag); // use x30
      var w := 0x0b1e_0000 + base;
      text.O(w);
      ghost var load := ws;
      ws := ws + [w];
      forall m: Regs ensures Delivers(ws, m, x, Trim(X(m, a) + tgt, wide)) {
        AddLoaded(wide, s, mag, tgt, x, a, w, m);
        AfterLoad(load, mag, w, m, x, Trim(X(m, a) + tgt, wide));
      }
    }
  }

  lemma SignSplit(val: nat, tgt: int, s: bool, mag: nat, wide: bool)
    requires val < Modulus(wide) && val == Trim(tgt, wide)
    requires mag == if s then Modulus(wide) - val else val
    ensures mag <= Modulus(wide) && Trim(Delta(s, mag), wide) == Trim(tgt, wide)
    ensures s && val > 0 ==> mag < Modulus(wide)
  {
  }

  /** Subtracts register a from the constant. */
  method GenSub(text: Text<nat>, wide: bool, val: Value, x: nat, a: nat) returns (ghost ws: seq<nat>)
    requires x < 31 && a < 30
    modifies text
    ensures text.code == old(text.code) + ws
    ensures forall m: Regs :: Delivers(ws, m, x, Trim(val - X(m, a), wide))
    ensures |ws| == 1 <==> Trim(val, wide) == 0 || Trim(val, wide) == Modulus(wide) - 1
    ensures |ws| == 1 ==> forall m: Regs :: Alone(ws, m, x, Trim(val - X(m, a), wide))
  {
    hide Trim, Delivers, Alone, Exec, LoadsAll, Set, Not;
    var c := Trim(val, wide);
    TrimTwice(val, wide);
    if c == 0 {
      var w := 0x4b00_03e0 + Sf(wide) * 0x8000_0000 + x + a * 0x1_0000; // neg
      text.O(w);
      ws := [w];
      forall m: Regs ensures Delivers(ws, m, x, Trim(val - X(m, a), wide))
        ensures Alone(ws, m, x, Trim(val - X(m, a), wide))
      {
        SubFrom(wide, 31, 0, x, a, w, m);
        TrimSum(-(X(m, a) as int), 0, val, wide);
        OneWord(w, m, x, Trim(val - X(m, a), wide));
      }
    } else if c == Modulus(wide) - 1 {
      var w := 0x2a20_03e0 + Sf(wide) * 0x8000_0000 + x + a * 0x1_0000; // mvn
      text.O(w);
      ws := [w];
      forall m: Regs ensures Delivers(ws, m, x, Trim(val - X(m, a), wide))
        ensures Alone(ws, m, x, Trim(val - X(m, a), wide))
      {
        Mvn(wide, x, a, w, m);
        NotIsDifference(X(m, a), val, wide);
        OneWord(w, m, x, Trim(val - X(m, a), wide));
      }
    } else {
      ws := MovImm(text, 30, c); // use x30
      var w := 0x4b00_03c0 + Sf(wide) * 0x8000_0000 + x + a * 0x1_0000; // sub
      text.O(w);
      ghost var load := ws;
      ws := ws + [w];
      forall m: Regs ensures Delivers(ws, m, x, Trim(val - X(m, a), wide)) {
        ReadSet(m, 30, c, a);
        SubFrom(wide, 30, c, x, a, w, Set(m, 30, c));
        TrimSum(-(X(m, a) as int), c, val, wide);
        AfterLoad(load, c, w, m, x, Trim(val - X(m, a), wide));
      }
    }
  }

  lemma TrimTwice(a: int, wide: bool)
    ensures Trim(Trim(a, wide), wide) == Trim(a, wide) && Trim(0, wide) == 0
  {
  }

  lemma ReadSet(m: Regs, r: nat, c: Value, a: nat)
    requires r < 31 && a != r
    ensures X(Set(m, r, c), r) == c && X(Set(m, r, c), a) == X(m, a)
  {
  }

  /** Exclusive or, and, or: by the all-zero and all-one cases and by a logical immediate. */
  method GenLogic(text: Text<nat>, op: Op, wide: bool, val: Value, x: nat, a: nat)
    returns (done: bool, ghost ws: seq<nat>)
    requires x < 31 && a < 30 && (op.Hat? || op.Amp? || op.Bar?)
    modifies text
    ensures text.code == old(text.code) + ws
    ensures done <==> Supported(op, wide, false, val)
    ensures !done ==> ws == []
    ensures done ==> forall m: Regs :: Delivers(ws, m, x, Result(op, wide, X(m, a), val))
    ensures done ==> forall m: Regs :: Delivers(ws, m, x, Result(op, wide, val, X(m, a)))
    ensures done ==> |ws| == 1 && forall m: Regs :: Alone(ws, m, x, Result(op, wide, X(m, a), val))
  {
    hide Trim, Delivers, Alone, Exec, X, Set, DecodeBitMasks, Not, Logic, Encodable;
    var c := Trim(val, wide);
    TrimTwice(val, wide);
    if op.Hat? && c == Modulus(wide) - 1 {
      var w := 0x2a20_03e0 + Sf(wide) * 0x8000_0000 + x + a * 0x1_0000; // mvn
      text.O(w);
      ws := [w];
      forall m: Regs
        ensures Delivers(ws, m, x, Result(op, wide, X(m, a), val)) && Delivers(ws, m, x, Result(op, wide, val, X(m, a)))
        ensures Alone(ws, m, x, Result(op, wide, X(m, a), val))
      {
        Mvn(wide, x, a, w, m);
        NotIsXor(X(m, a), val, wide);
        LogicSym(Xor, Trim(X(m, a), wide), c);
        OneWord(w, m, x, Result(op, wide, X(m, a), val));
      }
      return true, ws;
    }
    var e: Option<nat>;
    if wide {
      e := EncodeBimm64(c);
    } else {
      DoubledPeriod(c);
      e := EncodeBimm64(c + c * NARROW);
    }
    ws := [];
    if e == None {
      NotEncodable(wide, c);
      return false, ws;
    }
    var y := if wide then c else c + c * NARROW;
    TrimDoubled(wide, c, y);
    IsEncodable(wide, c, e.value, y);
    var w := (if op.Amp? then 0x1200_0000 else if op.Bar? then 0x3200_0000 else 0x5200_0000)
             + Sf(wide) * 0x8000_0000 + x + a * 32 + e.value * 0x400;
    text.O(w);
    ws := [w];
    forall m: Regs
      ensures Delivers(ws, m, x, Result(op, wide, X(m, a), val)) && Delivers(ws, m, x, Result(op, wide, val, X(m, a)))
      ensures Alone(ws, m, x, Result(op, wide, X(m, a), val))
    {
      LogicImm(op, wide, e.value, y, val, x, a, w, m);
      OneWord(w, m, x, Result(op, wide, X(m, a), val));
      OneWord(w, m, x, Result(op, wide, val, X(m, a)));
    }
    done := true;
  }

  lemma TrimDoubled(wide: bool, c: nat, y: nat)
    requires c < Modulus(wide) && y == if wide then c else c + c * NARROW
    ensures Trim(y, wide) == c
  {
  }

  lemma IsEncodable(wide: bool, c: nat, e: nat, y: nat)
    requires e < 0x2000 && (wide || e < 0x1000) && DecodeBitMasks(e) == Some(y) && Trim(y, wide) == c
    ensures Encodable(wide, c)
  {
  }

  lemma NotEncodable(wide: bool, c: nat)
    requires c < Modulus(wide)
    requires forall e: nat | e < 0x2000 :: DecodeBitMasks(e) != Some(if wide then c else c + c * NARROW)
    ensures !Encodable(wide, c)
  {
    hide DecodeBitMasks, Trim;
    if Encodable(wide, c) {
      var e: nat :| e < 0x2000 && (wide || e < 0x1000) &&
                    DecodeBitMasks(e).Some? && Trim(DecodeBitMasks(e).value, wide) == c;
      OrrFits(wide, e, DecodeBitMasks(e).value, c);
      DecodeNarrow(e);
      TrimWhole(DecodeBitMasks(e).value, wide, c);
    }
  }

  lemma TrimWhole(y: Value, wide: bool, c: nat)
    requires Trim(y, wide) == c
    ensures wide ==> y == c
  {
  }

  /** A shift by 0 modulo the width: the case that names the wrong destination. */
  predicate ZeroShift(op: Op, wide: bool, val: Value) {
    IsShift(op) && Count(wide, val) == 0
  }

  /** The shifts; a count of 0 writes register 0 instead of x. */
  method GenShift(text: Text<nat>, op: Op, wide: bool, rev: bool, val: Value, x: nat, a: nat)
    returns (done: bool, ghost ws: seq<nat>)
    requires x < 31 && a < 30 && IsShift(op)
    modifies text
    ensures text.code == old(text.code) + ws
    ensures done <==> !rev
    ensures !done ==> ws == []
    ensures done && !ZeroShift(op, wide, val) ==>
      forall m: Regs :: Delivers(ws, m, x, Result(op, wide, X(m, a), val))
    ensures done ==> |ws| == 1
    ensures done && ZeroShift(op, wide, val) ==>
      forall m: Regs :: RunCode(ws, m) == Some(Set(m, 0, Trim(X(m, a), wide)))
  {
    hide Trim, Delivers, Exec, X, Set, Count;
    var n := if wide then 64 else 32;
    var c := Count(wide, val);
    ws := [];
    if rev {
      return false, ws;
    }
    var base := Sf(wide) * 0x8000_0000;
    var w: nat;
    if c == 0 {
      w := 0x2a00_03e0 + base + a * 0x1_0000; // mov, into register 0
    } else if op.Shl? {
      w := 0x5300_0000 + base + Sf(wide) * 0x40_0000 + x + a * 32 + (n - c) * 0x1_0000 + (n - 1 - c) * 0x400; // lsl
    } else {
      w := 0x1300_0000 + (if op.Shr? then 0x4000_0000 else 0) + base + Sf(wide) * 0x40_0000
           + x + a * 32 + c * 0x1_0000 + (n - 1) * 0x400; // lsr, asr
    }
    text.O(w);
    ws := [w];
    done := true;
    if c == 0 {
      forall m: Regs ensures RunCode(ws, m) == Some(Set(m, 0, Trim(X(m, a), wide))) {
        Mov(wide, a, w, m);
        assert [w][1..] == [];
      }
    } else {
      forall m: Regs ensures Delivers(ws, m, x, Result(op, wide, X(m, a), val)) {
        Shift(op, wide, c, val, x, a, w, m);
        OneWord(w, m, x, Result(op, wide, X(m, a), val));
      }
    }
  }

  /** The operations that take one word; the others load the constant into x30 first. */
  predicate InOneWord(op: Op, wide: bool, rev: bool, val: Value) {
    match op
    case Plus => AddsInOne(Trim(val, wide), wide)
    case Minus =>
      if rev then Trim(val, wide) == 0 || Trim(val, wide) == Modulus(wide) - 1
      else AddsInOne(Trim(-(val as int), wide), wide)
    case _ => true
  }

  /** The whole generator. It computes the operation except that a shift by zero does so only for x = 0. */
  method GenOpic(text: Text<nat>, op: Op, wide: bool, rev: bool, val: Value, x: nat, a: nat)
    returns (done: bool, ghost ws: seq<nat>)
    requires x < 31 && a < 30
    modifies text
    ensures text.code == old(text.code) + ws
    ensures done <==> Supported(op, wide, rev, val)
    ensures !done ==> ws == []
    ensures done ==> (Computes(ws, op, wide, rev, val, x, a) <==> !ZeroShift(op, wide, val) || x == 0)
    ensures done ==> (|ws| == 1 <==> InOneWord(op, wide, rev, val))
  {
    hide AddsInOne, Alone;
    hide Trim, Delivers, Exec, X, Set, Count, LogicMod, Encodable, Signed, P;
    match op
    case Plus =>
      ws := GenAdd(text, wide, Trim(val, wide), val, x, a);
      done := true;
    case Minus =>
      if rev {
        ws := GenSub(text, wide, val, x, a);
      } else {
        var neg := if val == 0 then 0 else WORD - val;
        TrimNegative(val, neg, wide);
        ws := GenAdd(text, wide, Trim(neg, wide), -(val as int), x, a);
      }
      done := true;
    case Hat =>
      done, ws := GenLogic(text, op, wide, val, x, a);
    case Amp =>
      done, ws := GenLogic(text, op, wide, val, x, a);
    case Bar =>
      done, ws := GenLogic(text, op, wide, val, x, a);
    case Shl =>
      done, ws := GenShift(text, op, wide, rev, val, x, a);
      ShiftOutcome(ws, done, op, wide, rev, val, x, a);
    case Shr =>
      done, ws := GenShift(text, op, wide, rev, val, x, a);
      ShiftOutcome(ws, done, op, wide, rev, val, x, a);
    case Sar =>
      done, ws := GenShift(text, op, wide, rev, val, x, a);
      ShiftOutcome(ws, done, op, wide, rev, val, x, a);
    case Other =>
      done, ws := false, [];
  }

  lemma TrimNegative(val: Value, neg: nat, wide: bool)
    requires neg == if val == 0 then 0 else WORD - val
    ensures Trim(neg, wide) == Trim(-(val as int), wide)
  {
  }

  lemma ShiftOutcome(ws: seq<nat>, done: bool, op: Op, wide: bool, rev: bool, val: Value, x: nat, a: nat)
    requires x < 31 && a < 30 && IsShift(op) && (done <==> !rev)
    requires done && !ZeroShift(op, wide, val) ==>
      forall m: Regs :: Delivers(ws, m, x, Result(op, wide, X(m, a), val))
    requires done && ZeroShift(op, wide, val) ==>
      forall m: Regs :: RunCode(ws, m) == Some(Set(m, 0, Trim(X(m, a), wide)))
    ensures done ==> (Computes(ws, op, wide, rev, val, x, a) <==> !ZeroShift(op, wide, val) || x == 0)
  {
    if done && ZeroShift(op, wide, val) {
      if x == 0 {
        forall m: Regs ensures Delivers(ws, m, x, Wanted(op, wide, rev, val, X(m, a))) {
          ShiftByZero(op, wide, X(m, a), val);
          hide Result, Exec, Trim;
          assert RunCode(ws, m) == Some(Set(m, 0, Trim(X(m, a), wide)));
        }
      } else {
        WrongRegister(ws, op, wide, rev, val, x, a);
      }
    }
  }

  lemma ShiftByZero(op: Op, wide: bool, a: Value, b: Value)
    requires ZeroShift(op, wide, b)
    ensures Result(op, wide, a, b) == Trim(a, wide)
  {
  }

  /** The shift by zero, run from a state that holds 1 in register a and 0 elsewhere. */
  lemma WrongRegister(ws: seq<nat>, op: Op, wide: bool, rev: bool, val: Value, x: nat, a: nat)
    requires 0 < x < 31 && a < 30 && !rev && ZeroShift(op, wide, val)
    requires forall m: Regs :: RunCode(ws, m) == Some(Set(m, 0, Trim(X(m, a), wide)))
    ensures !Computes(ws, op, wide, rev, val, x, a)
  {
    var m: Regs := map[a := 1];
    ShiftByZero(op, wide, 1, val);
    TrimOne(wide);
    hide Result, Exec, Trim;
    var after := RunCode(ws, m).value;
    assert after == Set(m, 0, 1);
    if x == a {
      assert X(after, 0) != X(m, 0);
    } else {
      assert X(after, x) != 1;
    }
    assert !Delivers(ws, m, x, Wanted(op, wide, rev, val, X(m, a)));
  }

  lemma TrimOne(wide: bool)
    ensures Trim(1, wide) == 1
  {
  }
}
