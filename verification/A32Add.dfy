/** Adding any 32-bit constant with one to four instructions, and folding an offset into a base register. */
module A32Add {
  import opened Binary
  import opened A32Machine
  import opened A32Const
  import opened TextSection

  /** An add or sub of an immediate that leaves the flags alone. */
  predicate AddOrSub(op: bv32) {
    ImmForm(op) && (op & 0x1f0_0000 == 0x80_0000 || op & 0x1f0_0000 == 0x40_0000)
  }

  /** op with its destination as the source too. */
  function Again(op: bv32): bv32 {
    (op & 0xfff0_ffff) | ((op & 0xf000) << 4)
  }

  function Flip(op: bv32): bv32 {
    op ^ 0xc0_0000
  }

  /** ws does what op would do with the constant v. */
  ghost predicate Adds(ws: seq<bv32>, op: bv32, v: bv32) {
    forall m: Regs :: RunCode(ws, m) == ExecWith(op, v, m)
  }

  lemma AgainFields(op: bv32)
    requires AddOrSub(op)
    ensures AddOrSub(Again(op)) && Opcode(Again(op)) == Opcode(op)
    ensures Rn(Again(op)) == Rd(op) && Rd(Again(op)) == Rd(op)
    ensures (Opcode(op) == 4 || Opcode(op) == 2) && ImmForm(op)
  {
  }

  lemma FlipFields(op: bv32)
    requires AddOrSub(op)
    ensures AddOrSub(Flip(op)) && Rn(Flip(op)) == Rn(op) && Rd(Flip(op)) == Rd(op)
    ensures Again(Flip(op)) == Flip(Again(op))
    ensures forall m: Regs, v: bv32 :: ExecWith(Flip(op), Sub(0, v), m) == ExecWith(op, v, m)
  {
  }

  lemma Twice(op: bv32, x: bv32, y: bv32, m: Regs)
    requires AddOrSub(op)
    ensures ExecWith(op, x, m).Some?
    ensures ExecWith(Again(op), y, ExecWith(op, x, m).value) == ExecWith(op, Add(x, y), m)
  {
    AgainFields(op);
    var a, d := R(m, Rn(op)), Rd(op);
    AluTwice(Opcode(op), a, x, y);
    var p := Alu(Opcode(op), a, x).value;
    ReadBack(m, d, p);
    hide Opcode, Rn, Rd, Again, AddOrSub, Alu, Add, Sub, R;
    var q := Alu(Opcode(op), p, y).value;
    assert m[d := p][d := q] == m[d := q];
  }

  lemma AluTwice(o: bv32, a: bv32, x: bv32, y: bv32)
    requires o == 4 || o == 2
    ensures Alu(o, a, x).Some? && Alu(o, Alu(o, a, x).value, y) == Alu(o, a, Add(x, y)) && Alu(o, a, Add(x, y)).Some?
  {
    AddSum(a, x, y);
    SubSum(a, x, y);
    hide Add, Sub;
  }

  lemma ReadBack(m: Regs, d: nat, p: bv32)
    ensures R(m[d := p], d) == p && forall r: nat | r != d :: R(m[d := p], r) == R(m, r)
  {
    var n := m[d := p];
    assert d in n && n[d] == p;
  }

  lemma AddAssoc(a: bv32, x: bv32, y: bv32)
    ensures Add(a + x, y) == Add(a, x + y)
  {
  }

  lemma SubAssoc(a: bv32, x: bv32, y: bv32)
    ensures Sub(a - x, y) == Sub(a, x + y)
  {
  }

  lemma AddSum(a: bv32, x: bv32, y: bv32)
    ensures Add(Add(a, x), y) == Add(a, Add(x, y))
  {
    assert Add(a, x) == a + x && Add(x, y) == x + y;
    hide Add;
    AddAssoc(a, x, y);
  }

  lemma SubSum(a: bv32, x: bv32, y: bv32)
    ensures Sub(Sub(a, x), y) == Sub(a, Add(x, y))
  {
    assert Sub(a, x) == a - x && Add(x, y) == x + y;
    hide Add, Sub;
    SubAssoc(a, x, y);
  }

  function Or(a: bv32, b: bv32): bv32 { a | b }

  /** Parts of v under masks that share no bit add up to v if the masks cover it. */
  lemma DisjointSum(v: bv32, a: bv32, b: bv32)
    requires And(v, Or(a, b)) == v && And(a, b) == 0
    ensures Add(And(v, a), And(v, b)) == v
  {
  }

  lemma DisjointSum3(v: bv32, a: bv32, b: bv32, c: bv32)
    requires And(v, Or(Or(a, b), c)) == v && And(a, b) == 0 && And(a, c) == 0 && And(b, c) == 0
    ensures Add(Add(And(v, a), And(v, b)), And(v, c)) == v
  {
    var u := And(v, Or(a, b));
    Absorb(v, a, b);
    Apart(a, b, c);
    hide *;
    DisjointSum(u, a, b);
    DisjointSum(v, Or(a, b), c);
  }

  lemma Absorb(v: bv32, a: bv32, b: bv32)
    ensures var u := And(v, Or(a, b)); And(u, a) == And(v, a) && And(u, b) == And(v, b) && And(u, Or(a, b)) == u
  {
    AbsorbMask(v, Or(a, b), a);
    AbsorbMask(v, Or(a, b), b);
    AbsorbMask(v, Or(a, b), Or(a, b));
    assert And(Or(a, b), a) == a && And(Or(a, b), b) == b && And(Or(a, b), Or(a, b)) == Or(a, b);
    hide And, Or;
  }

  lemma AbsorbMask(v: bv32, m: bv32, a: bv32)
    requires And(m, a) == a
    ensures And(And(v, m), a) == And(v, a)
  {
    MaskBits(v, m, a);
    assert And(v, m) == v & m && And(m, a) == m & a;
    hide And;
  }

  lemma MaskBits(v: bv32, m: bv32, a: bv32)
    ensures And(v & m, a) == And(v, m & a)
  {
  }

  lemma Apart(a: bv32, b: bv32, c: bv32)
    requires And(a, c) == 0 && And(b, c) == 0
    ensures And(Or(a, b), c) == 0
  {
  }

  lemma QuarterSum(v: bv32)
    ensures (v & 0xff) + (v & 0xff00_0000) + (v & 0xff_0000) + (v & 0xff00) == v
  {
  }

  lemma {:induction false} RotRAdd(x: bv32, a: nat, b: nat)
    ensures RotR(x, a + b) == RotR(RotR(x, a), b)
    decreases a
  {
    hide Ror1;
    if a > 0 {
      RotRAdd(Ror1(x), a - 1, b);
    }
  }

  /** The windows at rotations 2 * i and 2 * j share no bit when they are at least four steps apart, both ways round. */
  lemma WindowsApart(i: nat, j: nat)
    requires i < j && 4 <= j - i <= 12
    ensures And(Window(2 * i), Window(2 * j)) == 0
  {
    var d := j - i;
    RotRAdd(0xff, 2 * d, 2 * i);
    var x := And(Window(2 * i), Window(2 * j));
    RotAnd(Window(2 * i), Window(2 * j), 2 * i);
    RotForth(0xff, 2 * i);
    RotForth(RotR(0xff, 2 * d), 2 * i);
    FarWindow(d);
    RotBack(x, 2 * i);
    RotZero(2 * i);
    hide And, RotL, RotR;
  }

  lemma WindowStep(a: nat, x: bv32)
    requires RotR(0xff, a) == x
    ensures RotR(0xff, a + 2) == Ror1(Ror1(x))
  {
    RotRAdd(0xff, a, 2);
    hide Ror1;
    assert RotR(x, 2) == RotR(Ror1(x), 1) == RotR(Ror1(Ror1(x)), 0);
  }

  /** The windows that share no bit with the low byte. */
  lemma FarWindow(d: nat)
    requires 4 <= d <= 12
    ensures And(0xff, RotR(0xff, 2 * d)) == 0
  {
    FarWindows();
    hide *;
    var n := 2 * d;
    assert n == 8 || n == 10 || n == 12 || n == 14 || n == 16 || n == 18 || n == 20 || n == 22 || n == 24;
    FarBytes();
  }

  lemma FarBytes()
    ensures And(0xff, 0xff00_0000) == 0 && And(0xff, 0x3fc0_0000) == 0 && And(0xff, 0x0ff0_0000) == 0
    ensures And(0xff, 0x03fc_0000) == 0 && And(0xff, 0x00ff_0000) == 0 && And(0xff, 0x003f_c000) == 0
    ensures And(0xff, 0x000f_f000) == 0 && And(0xff, 0x0003_fc00) == 0 && And(0xff, 0x0000_ff00) == 0
  {
  }

  lemma FarWindows()
    ensures RotR(0xff, 8) == 0xff00_0000 && RotR(0xff, 10) == 0x3fc0_0000 && RotR(0xff, 12) == 0x0ff0_0000
    ensures RotR(0xff, 14) == 0x03fc_0000 && RotR(0xff, 16) == 0x00ff_0000 && RotR(0xff, 18) == 0x003f_c000
    ensures RotR(0xff, 20) == 0x000f_f000 && RotR(0xff, 22) == 0x0003_fc00 && RotR(0xff, 24) == 0x0000_ff00
  {
    FirstWindow();
    hide RotR;
    WindowStep(8, 0xff00_0000);
    WindowStep(10, 0x3fc0_0000);
    WindowStep(12, 0x0ff0_0000);
    WindowStep(14, 0x03fc_0000);
    WindowStep(16, 0x00ff_0000);
    WindowStep(18, 0x003f_c000);
    WindowStep(20, 0x000f_f000);
    WindowStep(22, 0x0003_fc00);
  }

  lemma FirstWindow()
    ensures RotR(0xff, 8) == 0xff00_0000
  {
    assert RotR(0xff, 0) == 0xff;
    WindowStep(0, 0xff);
    WindowStep(2, 0xc000_003f);
    WindowStep(4, 0xf000_000f);
    WindowStep(6, 0xfc00_0003);
  }

  /** The part of v under a window can be encoded. */
  lemma PartEncodable(v: bv32, k: nat)
    requires k < 16
    ensures Encodable(And(v, Window(2 * k)))
  {
    var c := And(v, Window(2 * k));
    MaskedOut(v, Window(2 * k));
    WindowByte(c, 2 * k);
    var i := RotationAt(k);
    StuffWord(0x0200_0000, c, i);
  }

  lemma MaskedOut(v: bv32, m: bv32)
    ensures And(And(v, m), Not(m)) == 0
  {
  }

  lemma {:induction false} RotationAt(k: nat) returns (i: bv32)
    requires k <= 16
    ensures IsRotation(i) && Ix(i) == 2 * k && (i < 32 <==> k < 16)
  {
    hide Ix, IsRotation;
    IxSteps(0);
    i := 0;
    if k > 0 {
      i := RotationAt(k - 1);
      IxSteps(i);
      IxSteps(i + 2);
      i := i + 2;
    }
  }

  lemma {:induction false} RunAppend(xs: seq<bv32>, w: bv32, m: Regs)
    ensures RunCode(xs + [w], m) == (match RunCode(xs, m) case None => None case Some(n) => Exec(w, n))
  {
    hide Exec;
    if xs == [] {
      assert [] + [w] == [w] && [w][1..] == [];
    } else {
      assert (xs + [w])[0] == xs[0] && (xs + [w])[1..] == xs[1..] + [w];
      if Exec(xs[0], m).Some? {
        RunAppend(xs[1..], w, Exec(xs[0], m).value);
      }
    }
  }

  lemma FirstWord(w: bv32, op: bv32, x: bv32)
    requires Does(w, op, x)
    ensures Adds([w], op, x)
  {
    hide Exec, ExecWith;
    forall m: Regs ensures RunCode([w], m) == ExecWith(op, x, m) {
      assert [] + [w] == [w];
      RunAppend([], w, m);
      assert Exec(w, m) == ExecWith(op, x, m);
    }
  }

  lemma NextWord(ws: seq<bv32>, w: bv32, op: bv32, x: bv32, y: bv32)
    requires AddOrSub(op) && Adds(ws, op, x) && Does(w, Again(op), y)
    ensures Adds(ws + [w], op, Add(x, y))
  {
    hide Exec, ExecWith, RunCode, Add, Again, AddOrSub;
    forall m: Regs ensures RunCode(ws + [w], m) == ExecWith(op, Add(x, y), m) {
      RunAppend(ws, w, m);
      Twice(op, x, y, m);
    }
  }

  lemma Flipped(ws: seq<bv32>, op: bv32, v: bv32)
    requires AddOrSub(op) && Adds(ws, Flip(op), Sub(0, v))
    ensures Adds(ws, op, v)
  {
    FlipFields(op);
    hide ExecWith, RunCode, Flip, Sub;
  }

  /** Windows i and j are at least four steps apart on both sides of the circle, and v has no bit outside them. */
  predicate Covers2(v: bv32, i: nat, j: nat) {
    i + 4 <= j < 16 && j - i <= 12 && And(v, Or(Window(2 * i), Window(2 * j))) == v
  }

  predicate Covers3(v: bv32, i: nat, j: nat, k: nat) {
    i + 4 <= j && j + 4 <= k < 16 && k - i <= 12 && And(v, Or(Or(Window(2 * i), Window(2 * j)), Window(2 * k))) == v
  }

  ghost predicate Covered2(v: bv32) {
    exists i: nat, j: nat :: Covers2(v, i, j)
  }

  ghost predicate Covered3(v: bv32) {
    exists i: nat, j: nat, k: nat :: Covers3(v, i, j, k)
  }

  ghost predicate Windows(a: seq<bv32>) {
    |a| == 16 && forall i :: 0 <= i < 16 ==> a[i] == Window(2 * i)
  }

  /** The first pair of windows that covers v. */
  method TwoWindows(a: array<bv32>, v: bv32) returns (found: bool, x: nat, y: nat)
    requires Windows(a[..])
    ensures found <==> Covered2(v)
    ensures found ==> Covers2(v, x, y)
  {
    hide And, Or, RotR;
    var i := 0;
    while i < 12
      invariant 0 <= i <= 12
      invariant forall p: nat, q: nat | p < i :: !Covers2(v, p, q)
    {
      var last := if i < 4 then i + 12 else 15;
      var j := last;
      while j >= i + 4
        invariant i + 3 <= j <= last
        invariant forall q: nat | q > j :: !Covers2(v, i, q)
      {
        if And(v, Or(a[i], a[j])) == v {
          assert Covers2(v, i, j);
          return true, i, j;
        }
        j := j - 1;
      }
      i := i + 1;
    }
    return false, 0, 0;
  }

  /** The first triple of windows that covers v. */
  method ThreeWindows(a: array<bv32>, v: bv32) returns (found: bool, x: nat, y: nat, z: nat)
    requires Windows(a[..])
    ensures found <==> Covered3(v)
    ensures found ==> Covers3(v, x, y, z)
  {
    hide And, Or, RotR;
    var i := 0;
    while i < 8
      invariant 0 <= i <= 8
      invariant forall p: nat, q: nat, r: nat | p < i :: !Covers3(v, p, q, r)
    {
      var last := if i < 4 then i + 12 else 15;
      var j := i + 4;
      while j < 12
        invariant i + 4 <= j <= 12
        invariant forall q: nat, r: nat | q < j :: !Covers3(v, i, q, r)
      {
        var k := last;
        while k >= j + 4
          invariant k <= last && (k >= j + 3 || k == last)
          invariant forall r: nat | r > k :: !Covers3(v, i, j, r)
        {
          if And(v, Or(Or(a[i], a[j]), a[k])) == v {
            assert Covers3(v, i, j, k);
            return true, i, j, k;
          }
          k := k - 1;
        }
        j := j + 1;
      }
      i := i + 1;
    }
    return false, 0, 0, 0;
  }

  /** Emits op with the part of v in window k. */
  method OPart(text: Text<bv32>, op: bv32, v: bv32, ghost k: nat, a: bv32) returns (w: bv32)
    requires AddOrSub(op) && k < 16 && a == Window(2 * k)
    modifies text
    ensures Does(w, op, And(v, a)) && text.code == old(text.code) + [w]
  {
    PartEncodable(v, k);
    hide Does, RotR, And;
    w := StuffConst(op, And(v, a));
    text.O(w);
  }

  /** Fills the array with the sixteen windows. */
  method FillWindows() returns (a: array<bv32>)
    ensures fresh(a) && a.Length == 16 && Windows(a[..])
  {
    a := new bv32[16];
    a[0] := 0xff;
    assert Window(0) == 0xff;
    var i := 1;
    while i < 16
      invariant 1 <= i <= 16
      invariant forall j :: 0 <= j < i ==> a[j] == Window(2 * j)
    {
      a[i] := (a[i - 1] >> 2) | (a[i - 1] << 30);
      WindowStep(2 * i - 2, a[i - 1]);
      TwoBits(a[i - 1]);
      hide RotR, Ror1;
      i := i + 1;
    }
  }

  lemma TwoBits(x: bv32)
    ensures (x >> 2) | (x << 30) == Ror1(Ror1(x))
  {
  }

  /** The parts of v in two disjoint windows that cover it add up to it. */
  lemma TwoParts(v: bv32, i: nat, j: nat)
    requires Covers2(v, i, j)
    ensures i < j < 16 && Add(And(v, Window(2 * i)), And(v, Window(2 * j))) == v
  {
    WindowsApart(i, j);
    DisjointSum(v, Window(2 * i), Window(2 * j));
    hide *;
  }

  lemma ThreeParts(v: bv32, i: nat, j: nat, k: nat)
    requires Covers3(v, i, j, k)
    ensures i < j < k < 16 && Add(Add(And(v, Window(2 * i)), And(v, Window(2 * j))), And(v, Window(2 * k))) == v
  {
    hide RotR, And, Or, Add;
    WindowsApart(i, j);
    WindowsApart(j, k);
    WindowsApart(i, k);
    DisjointSum3(v, Window(2 * i), Window(2 * j), Window(2 * k));
  }

  lemma FourParts(v: bv32)
    ensures Add(Add(Add(And(v, Window(0)), And(v, Window(8))), And(v, Window(16))), And(v, Window(24))) == v
  {
    FarWindows();
    assert Window(0) == 0xff;
    QuarterSum(v);
  }

  /** n words were appended, and they do what op would do with the constant v. */
  ghost predicate Emitted(before: seq<bv32>, after: seq<bv32>, n: nat, op: bv32, v: bv32) {
    |after| == |before| + n && after[..|before|] == before && Adds(after[|before|..], op, v)
  }

  lemma EmitFirst(before: seq<bv32>, w: bv32, op: bv32, x: bv32)
    requires Does(w, op, x)
    ensures Emitted(before, before + [w], 1, op, x)
  {
    FirstWord(w, op, x);
    assert (before + [w])[|before|..] == [w];
  }

  lemma EmitNext(before: seq<bv32>, after: seq<bv32>, n: nat, w: bv32, op: bv32, x: bv32, y: bv32)
    requires AddOrSub(op) && Emitted(before, after, n, op, x) && Does(w, Again(op), y)
    ensures Emitted(before, after + [w], n + 1, op, Add(x, y))
  {
    hide Does, Adds, Again, Add, AddOrSub;
    NextWord(after[|before|..], w, op, x, y);
    assert (after + [w])[|before|..] == after[|before|..] + [w];
  }

  /** Two words for v if two windows cover it. */
  method TwoWords(text: Text<bv32>, op: bv32, o2: bv32, v: bv32, a: array<bv32>) returns (done: bool)
    requires AddOrSub(op) && o2 == Again(op) && Windows(a[..])
    modifies text
    ensures done <==> Covered2(v)
    ensures done ==> Emitted(old(text.code), text.code, 2, op, v)
    ensures !done ==> text.code == old(text.code)
  {
    hide And, Add, RotR, Does, Adds, Again, AddOrSub, Emitted, Covers2, Covered2;
    ghost var before := text.code;
    AgainFields(op);
    var i, j;
    done, i, j := TwoWindows(a, v);
    if done {
      TwoParts(v, i, j);
      var w := OPart(text, op, v, i, a[i]);
      EmitFirst(before, w, op, And(v, a[i]));
      ghost var mid := text.code;
      w := OPart(text, o2, v, j, a[j]);
      EmitNext(before, mid, 1, w, op, And(v, a[i]), And(v, a[j]));
    }
  }

  /** Three words for v if three windows cover it. */
  method ThreeWords(text: Text<bv32>, op: bv32, o2: bv32, v: bv32, a: array<bv32>) returns (done: bool)
    requires AddOrSub(op) && o2 == Again(op) && Windows(a[..])
    modifies text
    ensures done <==> Covered3(v)
    ensures done ==> Emitted(old(text.code), text.code, 3, op, v)
    ensures !done ==> text.code == old(text.code)
  {
    hide And, Add, RotR, Does, Adds, Again, AddOrSub, Emitted, Covers3, Covered3;
    ghost var before := text.code;
    AgainFields(op);
    var i, j, k;
    done, i, j, k := ThreeWindows(a, v);
    if done {
      ThreeParts(v, i, j, k);
      EmitThree(text, op, o2, v, i, j, k, a[i], a[j], a[k]);
    }
  }

  /** Three words add the parts of v in windows i, j and k. */
  method EmitThree(text: Text<bv32>, op: bv32, o2: bv32, v: bv32, ghost i: nat, ghost j: nat, ghost k: nat, x: bv32,
                   y: bv32, z: bv32)
    requires AddOrSub(op) && o2 == Again(op) && i < 16 && j < 16 && k < 16
    requires x == Window(2 * i) && y == Window(2 * j) && z == Window(2 * k)
    modifies text
    ensures Emitted(old(text.code), text.code, 3, op, Add(Add(And(v, x), And(v, y)), And(v, z)))
  {
    hide And, Add, RotR, Does, Adds, Again, AddOrSub, Emitted;
    ghost var before := text.code;
    AgainFields(op);
    var w := OPart(text, op, v, i, x);
    EmitFirst(before, w, op, And(v, x));
    ghost var mid := text.code;
    w := OPart(text, o2, v, j, y);
    EmitNext(before, mid, 1, w, op, And(v, x), And(v, y));
    mid := text.code;
    w := OPart(text, o2, v, k, z);
    EmitNext(before, mid, 2, w, op, Add(And(v, x), And(v, y)), And(v, z));
  }

  lemma EmitFlipped(before: seq<bv32>, after: seq<bv32>, n: nat, op: bv32, v: bv32)
    requires AddOrSub(op) && Emitted(before, after, n, Flip(op), Sub(0, v))
    ensures Emitted(before, after, n, op, v)
  {
    hide Adds, Flip, AddOrSub, Sub;
    Flipped(after[|before|..], op, v);
  }

  /** Two words suffice for one of the signs of v. */
  ghost predicate TwoSuffice(v: bv32) {
    Covered2(v) || Covered2(Sub(0, v))
  }

  ghost predicate ThreeSuffice(v: bv32) {
    Covered3(v) || Covered3(Sub(0, v))
  }

  /** Adds or subtracts v with one word if possible, else as the parts of v or -v in the fewest windows that cover
    * it. */
  method StuffConstHarder(text: Text<bv32>, op: bv32, v: bv32)
    requires AddOrSub(op)
    modifies text
    ensures var n := |text.code| - |old(text.code)|; 1 <= n <= 4 && Emitted(old(text.code), text.code, n, op, v)
    ensures |text.code| == |old(text.code)| + 1 <==> OneInstruction(op, v)
    ensures |text.code| <= |old(text.code)| + 2 <==> OneInstruction(op, v) || TwoSuffice(v)
    ensures |text.code| <= |old(text.code)| + 3 <==> OneInstruction(op, v) || TwoSuffice(v) || ThreeSuffice(v)
  {
    hide And, Or, Add, RotR, Does, Adds, OneInstruction, Covers2, Covers3, Covered2, Covered3, Again, Flip, AddOrSub,
      Sub, Windows;
    ghost var before := text.code;
    AgainFields(op);
    FlipFields(op);
    var x := StuffConst(op, v);
    if x != 0 {
      text.O(x);
      EmitFirst(before, x, op, v);
      return;
    }
    var o2 := Again(op);
    var a := FillWindows();
    var no, n2, nv := Flip(op), Flip(o2), Sub(0, v);
    var done := TwoWords(text, op, o2, v, a);
    if done {
      return;
    }
    done := TwoWords(text, no, n2, nv, a);
    if done {
      EmitFlipped(before, text.code, 2, op, v);
      return;
    }
    done := ThreeWords(text, op, o2, v, a);
    if done {
      return;
    }
    done := ThreeWords(text, no, n2, nv, a);
    if done {
      EmitFlipped(before, text.code, 3, op, v);
      return;
    }
    WindowsAt(a[..]);
    FourParts(v);
    EmitThree(text, op, o2, v, 0, 4, 8, a[0], a[4], a[8]);
    ghost var mid := text.code;
    var w := OPart(text, o2, v, 12, a[12]);
    EmitNext(before, mid, 3, w, op, Add(Add(And(v, a[0]), And(v, a[4])), And(v, a[8])), And(v, a[12]));
  }

  lemma WindowsAt(a: seq<bv32>)
    requires Windows(a)
    ensures |a| == 16 && forall i :: 0 <= i < 16 ==> a[i] == Window(2 * i)
  {
  }
}
