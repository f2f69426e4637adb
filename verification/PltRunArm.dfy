/** Running the code of the ARM procedure linkage table. */
module PltRunArm {
  import opened Binary
  import opened BitFacts
  import opened PltBits
  import A32Machine

  /** Registers by number, and memory as words; what is absent holds 0. */
  datatype Machine = Machine(regs: map<nat, bv32>, mem: map<Address, bv32>, pc: bv32)

  datatype Address = Cell(a: bv32)

  function Plus32(a: bv32, b: bv32): bv32 { a + b }

  /** Register 15 reads as the address of the instruction after the next. */
  function R(m: Machine, r: nat): bv32 { if r == 15 then Plus32(m.pc, 8) else if r in m.regs then m.regs[r] else 0 }

  function Load(m: Machine, a: bv32): bv32 { if Cell(a) in m.mem then m.mem[Cell(a)] else 0 }

  /** The next instruction, with r set to v; setting register 15 is a jump. */
  function Set(m: Machine, r: nat, v: bv32): Machine {
    if r == 15 then m.(pc := v) else m.(regs := m.regs[r := v], pc := Plus32(m.pc, 4))
  }

  function Number(r: bv32): nat { r as nat }

  function First(w: bv32): nat { Number((w >> 16) & 15) }

  function Dest(w: bv32): nat { Number((w >> 12) & 15) }

  function Second(w: bv32): nat { Number(w & 15) }

  predicate IsAddImm(w: bv32) { w & 0xfff0_0000 == 0xe280_0000 }

  predicate IsAddReg(w: bv32) { w & 0xfff0_0ff0 == 0xe080_0000 }

  /** ldr with a positive offset, with or without writeback. */
  predicate IsLdr(w: bv32) { w & 0xffd0_0000 == 0xe590_0000 }

  predicate WritesBack(w: bv32) { w & 0x20_0000 != 0 }

  /** str with a negative offset and writeback. */
  predicate IsPush(w: bv32) { w & 0xfff0_0000 == 0xe520_0000 }

  function Exec(w: bv32, m: Machine): Option<Machine> {
    var n, d := First(w), Dest(w);
    if IsAddImm(w) then Some(Set(m, d, Plus32(R(m, n), A32Machine.Operand(w))))
    else if IsAddReg(w) then Some(Set(m, d, Plus32(R(m, n), R(m, Second(w)))))
    else if IsLdr(w) then
      var a := Plus32(R(m, n), Bits(w, 0xfff));
      var after := if WritesBack(w) then m.(regs := m.regs[n := a]) else m;
      Some(Set(after, d, Load(m, a)))
    else if IsPush(w) then
      var a := R(m, n) - Bits(w, 0xfff);
      Some(m.(mem := m.mem[Cell(a) := R(m, d)], regs := m.regs[n := a], pc := Plus32(m.pc, 4)))
    else None
  }

  function Run(ws: seq<bv32>, m: Machine): Option<Machine> {
    if ws == [] then Some(m) else
      match Exec(ws[0], m)
      case None => None
      case Some(n) => Run(ws[1..], n)
  }

  lemma Numbers()
    ensures Number(12) == 12 && Number(13) == 13 && Number(14) == 14 && Number(15) == 15
  {
  }

  lemma EntryKinds(off: bv32)
    ensures IsAddImm(Arm0(off)) && (Arm0(off) >> 16) & 15 == 15 && (Arm0(off) >> 12) & 15 == 12
    ensures IsAddImm(Arm1(off)) && (Arm1(off) >> 16) & 15 == 12 && (Arm1(off) >> 12) & 15 == 12
    ensures IsAddImm(Arm2(off)) && (Arm2(off) >> 16) & 15 == 12 && (Arm2(off) >> 12) & 15 == 12
    ensures IsLdr(Arm3(off)) && (Arm3(off) >> 16) & 15 == 12 && (Arm3(off) >> 12) & 15 == 15 && WritesBack(Arm3(off))
  {
  }

  lemma EntryWords(off: bv32)
    ensures IsAddImm(Arm0(off)) && First(Arm0(off)) == 15 && Dest(Arm0(off)) == 12
    ensures IsAddImm(Arm1(off)) && First(Arm1(off)) == 12 && Dest(Arm1(off)) == 12
    ensures IsAddImm(Arm2(off)) && First(Arm2(off)) == 12 && Dest(Arm2(off)) == 12
    ensures IsLdr(Arm3(off)) && First(Arm3(off)) == 12 && Dest(Arm3(off)) == 15 && WritesBack(Arm3(off))
  {
    EntryKinds(off);
    Numbers();
    hide Number, Arm0, Arm1, Arm2, Arm3;
  }

  lemma OnlyOne(w: bv32)
    ensures IsAddImm(w) ==> !IsAddReg(w) && !IsLdr(w) && !IsPush(w)
    ensures IsAddReg(w) ==> !IsLdr(w) && !IsPush(w)
    ensures IsLdr(w) ==> !IsPush(w)
  {
    OnlyLdr(w);
    OnlyAdd(w);
    hide *;
  }

  lemma OnlyLdr(w: bv32)
    ensures IsLdr(w) ==> !IsPush(w) && !IsAddImm(w) && !IsAddReg(w)
  {
  }

  lemma OnlyAdd(w: bv32)
    ensures IsAddImm(w) ==> !IsAddReg(w) && !IsPush(w)
    ensures IsAddReg(w) ==> !IsPush(w)
  {
  }

  lemma DoAddImm(w: bv32, m: Machine, d: nat, n: nat)
    requires IsAddImm(w) && Dest(w) == d && First(w) == n
    ensures Exec(w, m) == Some(Set(m, d, Plus32(R(m, n), A32Machine.Operand(w))))
  {
    hide IsAddImm, IsAddReg, IsLdr, IsPush, WritesBack, First, Dest, Second, Plus32, R, Load, Set, A32Machine.Operand,
      Bits;
  }

  lemma DoAddReg(w: bv32, m: Machine, d: nat, n: nat, k: nat)
    requires IsAddReg(w) && Dest(w) == d && First(w) == n && Second(w) == k
    ensures Exec(w, m) == Some(Set(m, d, Plus32(R(m, n), R(m, k))))
  {
    OnlyOne(w);
    hide IsAddImm, IsAddReg, IsLdr, IsPush, WritesBack, First, Dest, Second, Plus32, R, Load, Set, A32Machine.Operand,
      Bits;
  }

  lemma DoLdr(w: bv32, m: Machine, d: nat, n: nat)
    requires IsLdr(w) && Dest(w) == d && First(w) == n
    ensures var a := Plus32(R(m, n), Bits(w, 0xfff));
      Exec(w, m) == Some(Set(if WritesBack(w) then m.(regs := m.regs[n := a]) else m, d, Load(m, a)))
  {
    OnlyOne(w);
    hide IsAddImm, IsAddReg, IsLdr, IsPush, WritesBack, First, Dest, Second, Plus32, R, Load, Set, A32Machine.Operand,
      Bits;
  }

  lemma RSet(m: Machine, r: nat, v: bv32)
    requires r != 15
    ensures R(Set(m, r, v), r) == v && Set(m, r, v).mem == m.mem && Set(m, r, v).regs == m.regs[r := v]
    ensures Set(m, r, v).pc == Plus32(m.pc, 4)
  {
    hide Plus32;
  }

  lemma SameLoad(m: Machine, n: Machine, a: bv32)
    requires m.mem == n.mem
    ensures Load(m, a) == Load(n, a)
  {
  }

  /** m after a jump to what the slot holds, with the slot's address in ip. */
  function Jumped(m: Machine, slot: bv32): Machine { Machine(m.regs[12 := slot], m.mem, Load(m, slot)) }

  lemma PlusAssocInline(x: bv32, y: bv32, z: bv32)
    ensures Plus32(x + y, z) == Plus32(x, y + z)
  {
  }

  lemma PlusAssoc(x: bv32, y: bv32, z: bv32)
    ensures Plus32(Plus32(x, y), z) == Plus32(x, Plus32(y, z))
  {
    PlusAssocInline(x, y, z);
    assert Plus32(x, y) == x + y && Plus32(y, z) == y + z;
    hide Plus32;
  }

  lemma AddIs(x: bv32, y: bv32)
    ensures A32Machine.Add(x, y) == Plus32(x, y)
  {
  }

  lemma Sum4Is(a: bv32, b: bv32, c: bv32, d: bv32)
    ensures Sum4(a, b, c, d) == Plus32(Plus32(Plus32(a, b), c), d)
  {
    AddIs(a, b);
    AddIs(Plus32(a, b), c);
    AddIs(Plus32(Plus32(a, b), c), d);
    hide Plus32, A32Machine.Add;
  }

  lemma SumsUp(pc: bv32, a: bv32, b: bv32, c: bv32, d: bv32)
    ensures Plus32(Plus32(Plus32(Plus32(Plus32(pc, 8), a), b), c), d) ==
      A32Machine.Add(A32Machine.Add(pc, 8), Sum4(a, b, c, d))
  {
    hide *;
    AddIs(pc, 8);
    var x := Plus32(pc, 8);
    AddIs(x, Sum4(a, b, c, d));
    Sum4Is(a, b, c, d);
    PlusAssoc(x, a, b);
    PlusAssoc(x, Plus32(a, b), c);
    PlusAssoc(x, Plus32(Plus32(a, b), c), d);
  }

  /** The entry jumps to what its slot holds, for every distance. */
  lemma EntryRuns(off: bv32, m: Machine)
    ensures var slot := ArmSlot(Arm0(off), Arm1(off), Arm2(off), Arm3(off), m.pc);
      Run([Arm0(off), Arm1(off), Arm2(off), Arm3(off)], m) == Some(Jumped(m, slot))
  {
    EntryWords(off);
    var w0, w1, w2, w3 := Arm0(off), Arm1(off), Arm2(off), Arm3(off);
    SumsUp(m.pc, A32Machine.Operand(w0), A32Machine.Operand(w1), A32Machine.Operand(w2), Bits(w3, 0xfff));
    assert R(m, 15) == Plus32(m.pc, 8);
    hide IsAddImm, IsAddReg, IsLdr, IsPush, WritesBack, First, Dest, Second, Plus32, R, Load, Set, A32Machine.Operand,
      A32Machine.Add, Bits, Sum4, Arm0, Arm1, Arm2, Arm3, Exec, Run;
    var x := Plus32(R(m, 15), A32Machine.Operand(w0));
    var y := Plus32(x, A32Machine.Operand(w1));
    var z := Plus32(y, A32Machine.Operand(w2));
    var a := Set(m, 12, x);
    var b := Set(a, 12, y);
    var c := Set(b, 12, z);
    RSet(m, 12, x);
    RSet(a, 12, y);
    RSet(b, 12, z);
    DoAddImm(w0, m, 12, 15);
    DoAddImm(w1, a, 12, 12);
    DoAddImm(w2, b, 12, 12);
    DoLdr(w3, c, 15, 12);
    var slot := Plus32(z, Bits(w3, 0xfff));
    SameLoad(c, m, slot);
    var e := c.(regs := c.regs[12 := slot], pc := Load(m, slot));
    SetPc(c.(regs := c.regs[12 := slot]), Load(m, slot));
    FourSteps(w0, w1, w2, w3, m, a, b, c, e);
    OverAndOver(m.regs, x, y, z, slot);
  }

  lemma SetPc(m: Machine, v: bv32)
    ensures Set(m, 15, v) == m.(pc := v)
  {
  }

  lemma OverAndOver(regs: map<nat, bv32>, x: bv32, y: bv32, z: bv32, v: bv32)
    ensures regs[12 := x][12 := y][12 := z][12 := v] == regs[12 := v]
  {
  }

  lemma FourSteps(w0: bv32, w1: bv32, w2: bv32, w3: bv32, m: Machine, a: Machine, b: Machine, c: Machine, e: Machine)
    requires Exec(w0, m) == Some(a) && Exec(w1, a) == Some(b) && Exec(w2, b) == Some(c) && Exec(w3, c) == Some(e)
    ensures Run([w0, w1, w2, w3], m) == Some(e)
  {
    hide Exec;
    assert [w0, w1, w2, w3][1..] == [w1, w2, w3] && [w1, w2, w3][1..] == [w2, w3];
    assert [w2, w3][1..] == [w3] && [w3][1..] == [];
    assert Run([w3], c) == Some(e);
    assert Run([w2, w3], b) == Some(e);
    assert Run([w1, w2, w3], a) == Some(e);
  }

  const PUSH_LR: bv32 := 0xe52d_e004
  const LDR_LR: bv32 := 0xe59f_e004
  const ADD_LR: bv32 := 0xe08f_e00e
  const LDR_PC: bv32 := 0xe5be_f008

  lemma HeaderKinds()
    ensures IsPush(PUSH_LR) && (PUSH_LR >> 16) & 15 == 13 && (PUSH_LR >> 12) & 15 == 14
    ensures IsLdr(LDR_LR) && (LDR_LR >> 16) & 15 == 15 && (LDR_LR >> 12) & 15 == 14 && !WritesBack(LDR_LR)
    ensures IsAddReg(ADD_LR) && (ADD_LR >> 16) & 15 == 15 && (ADD_LR >> 12) & 15 == 14 && ADD_LR & 15 == 14
    ensures IsLdr(LDR_PC) && (LDR_PC >> 16) & 15 == 14 && (LDR_PC >> 12) & 15 == 15 && WritesBack(LDR_PC)
    ensures Bits(PUSH_LR, 0xfff) == 4 && Bits(LDR_LR, 0xfff) == 4 && Bits(LDR_PC, 0xfff) == 8
  {
  }

  lemma HeaderWords()
    ensures IsPush(PUSH_LR) && First(PUSH_LR) == 13 && Dest(PUSH_LR) == 14
    ensures IsLdr(LDR_LR) && First(LDR_LR) == 15 && Dest(LDR_LR) == 14 && !WritesBack(LDR_LR)
    ensures IsAddReg(ADD_LR) && First(ADD_LR) == 15 && Dest(ADD_LR) == 14 && Second(ADD_LR) == 14
    ensures IsLdr(LDR_PC) && First(LDR_PC) == 14 && Dest(LDR_PC) == 15 && WritesBack(LDR_PC)
    ensures Bits(PUSH_LR, 0xfff) == 4 && Bits(LDR_LR, 0xfff) == 4 && Bits(LDR_PC, 0xfff) == 8
  {
    HeaderKinds();
    Numbers();
    hide Number;
  }

  /** m with lr pushed. */
  function Pushed(m: Machine): Machine {
    var a := R(m, 13) - 4;
    m.(mem := m.mem[Cell(a) := R(m, 14)], regs := m.regs[13 := a], pc := Plus32(m.pc, 4))
  }

  lemma DoPush(m: Machine)
    ensures Exec(PUSH_LR, m) == Some(Pushed(m))
  {
    HeaderWords();
    OnlyOne(PUSH_LR);
    hide IsAddImm, IsAddReg, IsLdr, IsPush, First, Dest, Second, Plus32, R, Load, Set, A32Machine.Operand, Bits;
  }

  lemma PushKeeps(m: Machine, a: bv32)
    requires a != R(m, 13) - 4
    ensures Load(Pushed(m), a) == Load(m, a)
  {
    hide Plus32;
  }

  lemma Steps(plt: bv32)
    ensures Plus32(Plus32(Plus32(plt, 4), 8), 4) == Plus32(plt, 16)
    ensures Plus32(Plus32(Plus32(plt, 4), 4), 8) == Plus32(plt, 16)
  {
  }

  lemma Difference(x: bv32, got: bv32)
    ensures Plus32(x, Minus32(got, x)) == got
  {
    DifferenceInline(x, got);
    assert Minus32(got, x) == got - x;
    hide Plus32, Minus32;
  }

  lemma DifferenceInline(x: bv32, got: bv32)
    ensures Plus32(x, got - x) == got
  {
  }

  function Minus32(a: bv32, b: bv32): bv32 { a - b }

  /** The header, with the distance from itself to the GOT in its fifth word: it pushes lr and jumps to what the third
    * word of the GOT holds, with the address of that word in lr. */
  lemma HeaderRuns(got: bv32, m: Machine) returns (n: Machine)
    requires Load(m, Plus32(m.pc, 16)) == Minus32(got, Plus32(m.pc, 16))
    requires R(m, 13) - 4 != Plus32(m.pc, 16) && R(m, 13) - 4 != Plus32(got, 8)
    ensures Run([PUSH_LR, LDR_LR, ADD_LR, LDR_PC], m) == Some(n) && n.mem == Pushed(m).mem
    ensures n.pc == Load(m, Plus32(got, 8)) && R(n, 14) == Plus32(got, 8) && R(n, 12) == R(m, 12)
  {
    hide *;
    HeaderWords();
    DoPush(m);
    PushKeeps(m, Plus32(m.pc, 16));
    PushKeeps(m, Plus32(got, 8));
    Steps(m.pc);
    Difference(Plus32(m.pc, 16), got);
    PushedIs(m);
    var a := Pushed(m);
    var b := Set(a, 14, Minus32(got, Plus32(m.pc, 16)));
    Kept(a, 14, Minus32(got, Plus32(m.pc, 16)));
    DoLdr(LDR_LR, a, 14, 15);
    var c := Set(b, 14, got);
    Kept(b, 14, got);
    DoAddReg(ADD_LR, b, 14, 15, 14);
    var slot := Plus32(got, 8);
    n := c.(regs := c.regs[14 := slot], pc := Load(m, slot));
    AfterJump(c, slot, Load(m, slot));
    SameLoad(c, a, slot);
    DoLdr(LDR_PC, c, 15, 14);
    SetPc(c.(regs := c.regs[14 := slot]), Load(m, slot));
    FourSteps(PUSH_LR, LDR_LR, ADD_LR, LDR_PC, m, a, b, c, n);
  }

  lemma PushedIs(m: Machine)
    ensures Pushed(m).pc == Plus32(m.pc, 4) && R(Pushed(m), 12) == R(m, 12)
    ensures R(Pushed(m), 15) == Plus32(Plus32(m.pc, 4), 8)
  {
    hide Plus32;
  }

  lemma AfterJump(c: Machine, slot: bv32, v: bv32)
    ensures var n := c.(regs := c.regs[14 := slot], pc := v); R(n, 14) == slot && R(n, 12) == R(c, 12) && n.mem == c.mem
  {
  }

  lemma Kept(m: Machine, r: nat, v: bv32)
    requires r == 14
    ensures R(Set(m, r, v), 14) == v && R(Set(m, r, v), 12) == R(m, 12) && Set(m, r, v).mem == m.mem
    ensures Set(m, r, v).pc == Plus32(m.pc, 4) && R(Set(m, r, v), 15) == Plus32(Plus32(m.pc, 4), 8)
  {
    hide Plus32;
  }

  /** The first call through an entry whose slot still holds the address of the header: the entry jumps to the header,
    * and that to the resolver in the third word of the GOT, with the slot's address in ip. */
  lemma FirstCall(plt: bv32, got: bv32, off: bv32, slot: bv32, m: Machine) returns (n: Machine)
    requires slot == ArmSlot(Arm0(off), Arm1(off), Arm2(off), Arm3(off), m.pc) && Load(m, slot) == plt
    requires Load(m, Plus32(plt, 16)) == Minus32(got, Plus32(plt, 16))
    requires R(m, 13) - 4 != Plus32(plt, 16) && R(m, 13) - 4 != Plus32(got, 8)
    ensures Run([Arm0(off), Arm1(off), Arm2(off), Arm3(off)], m) == Some(Jumped(m, slot)) && Jumped(m, slot).pc == plt
    ensures Run([PUSH_LR, LDR_LR, ADD_LR, LDR_PC], Jumped(m, slot)) == Some(n)
    ensures n.pc == Load(m, Plus32(got, 8)) && R(n, 12) == slot
  {
    EntryRuns(off, m);
    JumpedIs(m, slot);
    hide *;
    SameLoad(Jumped(m, slot), m, Plus32(plt, 16));
    SameLoad(Jumped(m, slot), m, Plus32(got, 8));
    n := HeaderRuns(got, Jumped(m, slot));
  }

  lemma JumpedIs(m: Machine, slot: bv32)
    ensures var j := Jumped(m, slot);
      j.mem == m.mem && j.pc == Load(m, slot) && R(j, 12) == slot && R(j, 13) == R(m, 13)
  {
  }
}
