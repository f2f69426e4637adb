/** The code of one PLT entry on RISC-V, AArch64 and ARM, and the address of the GOT slot it reads. */
module PltBits {
  import opened BitFacts
  import opened RiscvBits
  import opened A32Machine
  import A32Add

  // RISC-V: auipc t3; ld t3, lo(t3)

  function RiscvUpper(d: bv64): bv32 { Low32(0xe17 | (((d + 0x800) >> 12) << 12)) }

  function RiscvLower(d: bv64): bv32 { Low32(0x000e_3e03 | ((d & 0xfff) << 20)) }

  predicate RiscvOk(d: bv64) { (((d + 0x800) >> 12) + 0x10_0000) >> 21 == 0 }

  /** The slot that the entry at pc reads. */
  function RiscvSlot(w0: bv32, w1: bv32, pc: bv64): bv64 { Plus(pc, Plus(UImm(w0), IImm(w1))) }

  lemma RiscvUpperXor(d: bv64)
    ensures Diff32(RiscvUpper(d), CallWord(0xe17, d)) == 0
  {
  }

  lemma RiscvLowerXor(d: bv64)
    ensures Diff32(RiscvLower(d), LoWord(0x000e_3e03, d)) == 0
  {
  }

  lemma RiscvPair(d: bv64)
    ensures Plus(UImm(RiscvUpper(d)), IImm(RiscvLower(d))) == d <==> PairFits(d)
  {
    hide *;
    RiscvUpperXor(d);
    Same32(RiscvUpper(d), CallWord(0xe17, d));
    RiscvLowerXor(d);
    Same32(RiscvLower(d), LoWord(0x000e_3e03, d));
    PairReaches(0xe17, 0x000e_3e03, 0, d);
  }

  // The words of the RISC-V header that depend on the distance to the GOT.

  function Header0(d: bv64): bv32 { Low32(0x397 | (((d + 0x800) >> 12) << 12)) }

  function Header2(d: bv64): bv32 { Low32(0x0003_be03 | ((d & 0xfff) << 20)) }

  function Header4(d: bv64): bv32 { Low32(0x0003_8293 | ((d & 0xfff) << 20)) }

  lemma Header0Xor(d: bv64)
    ensures Diff32(Header0(d), CallWord(0x397, d)) == 0
  {
  }

  lemma Header2Xor(d: bv64)
    ensures Diff32(Header2(d), LoWord(0x0003_be03, d)) == 0
  {
  }

  lemma Header4Xor(d: bv64)
    ensures Diff32(Header4(d), LoWord(0x0003_8293, d)) == 0
  {
  }

  lemma HeaderPair(d: bv64)
    ensures Plus(UImm(Header0(d)), IImm(Header2(d))) == d <==> PairFits(d)
    ensures Plus(UImm(Header0(d)), IImm(Header4(d))) == d <==> PairFits(d)
  {
    hide *;
    Header0Xor(d);
    Header2Xor(d);
    Header4Xor(d);
    Same32(Header0(d), CallWord(0x397, d));
    Same32(Header2(d), LoWord(0x0003_be03, d));
    Same32(Header4(d), LoWord(0x0003_8293, d));
    PairReaches(0x397, 0x0003_be03, 0, d);
    PairReaches(0x397, 0x0003_8293, 0, d);
  }

  /** A sum is reached exactly when its second part is the distance. */
  lemma SumReached(pc: bv64, r: bv64, slot: bv64)
    ensures Plus(pc, r) == slot <==> r == Minus(slot, pc)
  {
    SumBack(pc, r, slot);
    hide Plus, Minus;
  }

  lemma SumBack(pc: bv64, r: bv64, slot: bv64)
    ensures Minus(Plus(pc, r), pc) == r && Plus(pc, Minus(slot, pc)) == slot
  {
    SumBackInline(pc, r, slot);
    assert Plus(pc, r) == pc + r && Minus(slot, pc) == slot - pc;
    hide Plus, Minus;
  }

  lemma SumBackInline(pc: bv64, r: bv64, slot: bv64)
    ensures Minus(pc + r, pc) == r && Plus(pc, slot - pc) == slot
  {
  }

  /** The entry reads the slot exactly when it is within 2 GiB. */
  lemma RiscvReads(pc: bv64, slot: bv64)
    ensures var d := Minus(slot, pc); RiscvSlot(RiscvUpper(d), RiscvLower(d), pc) == slot <==> PairFits(d)
  {
    hide UImm, IImm, RiscvUpper, RiscvLower, PairFits, Plus, Minus;
    var d := Minus(slot, pc);
    RiscvPair(d);
    SumReached(pc, Plus(UImm(RiscvUpper(d)), IImm(RiscvLower(d))), slot);
  }

  /** The header computes the address of the GOT twice. */
  lemma HeaderReads(pc: bv64, got: bv64)
    requires PairFits(Minus(got, pc))
    ensures var d := Minus(got, pc);
      && Plus(Plus(pc, UImm(Header0(d))), IImm(Header2(d))) == got
      && Plus(Plus(pc, UImm(Header0(d))), IImm(Header4(d))) == got
  {
    hide UImm, IImm, Header0, Header2, Header4, PairFits, Plus, Minus;
    var d := Minus(got, pc);
    HeaderPair(d);
    SumReached(pc, Plus(UImm(Header0(d)), IImm(Header2(d))), got);
    SumReached(pc, Plus(UImm(Header0(d)), IImm(Header4(d))), got);
    PlusAssoc(pc, UImm(Header0(d)), IImm(Header2(d)));
    PlusAssoc(pc, UImm(Header0(d)), IImm(Header4(d)));
  }

  lemma PlusAssoc(x: bv64, y: bv64, z: bv64)
    ensures Plus(Plus(x, y), z) == Plus(x, Plus(y, z))
  {
    PlusAssocInline(x, y, z);
    assert Plus(x, y) == x + y && Plus(y, z) == y + z;
    hide Plus;
  }

  lemma PlusAssocInline(x: bv64, y: bv64, z: bv64)
    ensures Plus(x + y, z) == Plus(x, y + z)
  {
  }

  // AArch64: adrp x16; ldr x17, [x16, #lo]; add x16, x16, #lo

  /** The distance in pages. */
  function PageNo(x: bv64): bv64 { x >> 12 }

  function Pages(slot: bv64, pc: bv64): bv64 { Minus(PageNo(slot), PageNo(pc)) }

  predicate A64Ok(off: bv64) { (off + 0x10_0000) >> 21 == 0 }

  function AdrpWord(off: bv64): bv32 { Low32(0x9000_0010 | ((off & 0x1f_fffc) << 3) | ((off & 3) << 29)) }

  function LdrWord(slot: bv64): bv32 { Low32(0xf940_0211 | ((slot & 0xff8) << 7)) }

  function AddWord(slot: bv64): bv32 { Low32(0x9100_0210 | ((slot & 0xfff) << 10)) }

  function AdrpRaw(w: bv32): bv32 { (((w >> 5) & 0x7_ffff) << 2) | ((w >> 29) & 3) }

  function Page(x: bv64): bv64 { x & !0xfff }

  /** imm:Zeros(12) */
  function Zeros12(x: bv64): bv64 { x * 0x1000 }

  /** What adrp at pc puts in its register. */
  function AdrpValue(w: bv32, pc: bv64): bv64 { Plus(Page(pc), Zeros12(Sext(Wide(AdrpRaw(w)), 0x10_0000))) }

  /** The scaled offset of ldr. */
  function LdrImm(w: bv32): bv64 { Wide((w >> 10) & 0xfff) << 3 }

  function AddImm(w: bv32): bv64 { Wide((w >> 10) & 0xfff) }

  lemma AdrpXor(off: bv64)
    ensures Diff(Wide(AdrpRaw(AdrpWord(off))), Field(off, 0x1f_ffff)) == 0
  {
  }

  lemma LdrXor(slot: bv64)
    ensures Diff(LdrImm(LdrWord(slot)), Field(slot, 0xff8)) == 0
  {
  }

  lemma AddXor(slot: bv64)
    ensures Diff(AddImm(AddWord(slot)), Field(slot, 0xfff)) == 0
  {
  }

  /** The page distance is within the 21 signed bits of adrp. */
  predicate PagesFit(off: bv64) { (Zeros12(off) + 0x1_0000_0000) & !0x1_ffff_ffff == 0 }

  lemma FitXor(off: bv64)
    requires PagesFit(off)
    ensures Diff(Zeros12(Sext(Field(off, 0x1f_ffff), 0x10_0000)), Zeros12(off)) == 0
  {
  }

  lemma FitRange(off: bv64)
    requires Diff(Zeros12(Sext(Field(off, 0x1f_ffff), 0x10_0000)), Zeros12(off)) == 0
    ensures PagesFit(off)
  {
  }

  /** An accepted distance fits. */
  lemma OkFits(off: bv64)
    requires A64Ok(off)
    ensures PagesFit(off)
  {
  }

  /** The check accepts exactly the page distances of 21 signed bits; of the distances of 52 signed bits that is all
    * that can be reached. */
  lemma OkRange(off: bv64)
    ensures A64Ok(off) <==> off + 0x10_0000 < 0x20_0000
    ensures off + 0x8_0000_0000_0000 < 0x10_0000_0000_0000 && PagesFit(off) ==> A64Ok(off)
  {
    hide A64Ok, PagesFit;
    OkIs(off);
    FitIsOk(off);
  }

  lemma OkIs(off: bv64)
    ensures A64Ok(off) <==> off + 0x10_0000 < 0x20_0000
  {
  }

  lemma FitIsOk(off: bv64)
    ensures off + 0x8_0000_0000_0000 < 0x10_0000_0000_0000 && PagesFit(off) ==> A64Ok(off)
  {
  }

  lemma PageXor(x: bv64)
    ensures Diff(Zeros12(PageNo(x)), Page(x)) == 0
  {
  }

  lemma ZerosMinusInline(x: bv64, y: bv64)
    ensures Zeros12(x - y) == Minus(x * 0x1000, y * 0x1000)
  {
  }

  lemma ZerosMinus(x: bv64, y: bv64)
    ensures Zeros12(Minus(x, y)) == Minus(Zeros12(x), Zeros12(y))
  {
    ZerosMinusInline(x, y);
    assert Minus(x, y) == x - y && Zeros12(x) == x * 0x1000 && Zeros12(y) == y * 0x1000;
    hide Minus, Zeros12;
  }

  lemma PagesReached(slot: bv64, pc: bv64)
    ensures Plus(Page(pc), Zeros12(Pages(slot, pc))) == Page(slot)
  {
    hide PageNo, Page, Zeros12, Plus, Minus, Diff;
    PageXor(slot);
    PageXor(pc);
    Same(Zeros12(PageNo(slot)), Page(slot));
    Same(Zeros12(PageNo(pc)), Page(pc));
    ZerosMinus(PageNo(slot), PageNo(pc));
    SumBack(Page(pc), 0, Page(slot));
  }

  /** adrp reaches the page of the slot exactly when the page distance fits. */
  lemma AdrpReaches(slot: bv64, pc: bv64)
    ensures AdrpValue(AdrpWord(Pages(slot, pc)), pc) == Page(slot) <==> PagesFit(Pages(slot, pc))
  {
    hide Page, Zeros12, Sext, Wide, AdrpRaw, AdrpWord, Pages, PagesFit, Field, Plus, Minus, Diff;
    var off := Pages(slot, pc);
    AdrpXor(off);
    Same(Wide(AdrpRaw(AdrpWord(off))), Field(off, 0x1f_ffff));
    PagesReached(slot, pc);
    var z := Zeros12(Sext(Field(off, 0x1f_ffff), 0x10_0000));
    SumReached(Page(pc), z, Page(slot));
    SumReached(Page(pc), Zeros12(off), Page(slot));
    if PagesFit(off) {
      FitXor(off);
      Same(z, Zeros12(off));
    } else if z == Zeros12(off) {
      NoDiff(z);
      FitRange(off);
    }
  }

  /** The slot that the entry at pc loads, and the address it leaves in x16. */
  function A64Slot(w0: bv32, w1: bv32, pc: bv64): bv64 { Plus(AdrpValue(w0, pc), LdrImm(w1)) }

  function A64Address(w0: bv32, w2: bv32, pc: bv64): bv64 { Plus(AdrpValue(w0, pc), AddImm(w2)) }

  predicate Paged(x: bv64) { x & 0xfff == 0 }

  lemma AdrpPaged(w: bv32, pc: bv64)
    ensures Paged(AdrpValue(w, pc))
  {
    hide Sext, Wide, AdrpRaw;
    SumPaged(pc, Sext(Wide(AdrpRaw(w)), 0x10_0000));
  }

  lemma SumPaged(pc: bv64, x: bv64)
    ensures Paged(Plus(Page(pc), Zeros12(x)))
  {
  }

  lemma LowBits(x: bv64, slot: bv64)
    requires Paged(x)
    ensures Diff(Page(Plus(x, Field(slot, 0xfff))), x) == 0 && Diff(Page(Plus(x, Field(slot, 0xff8))), x) == 0
  {
  }

  predicate Aligned8(x: bv64) { x & 7 == 0 }

  lemma SlotXor(slot: bv64)
    ensures Diff(Plus(Page(slot), Field(slot, 0xfff)), slot) == 0
    ensures Aligned8(slot) <==> Diff(Plus(Page(slot), Field(slot, 0xff8)), slot) == 0
  {
  }

  /** The entry loads the slot exactly when its pages fit and it is aligned to 8 bytes. */
  lemma A64Reads(slot: bv64, pc: bv64)
    ensures var off := Pages(slot, pc);
      && (A64Address(AdrpWord(off), AddWord(slot), pc) == slot <==> PagesFit(off))
      && (A64Slot(AdrpWord(off), LdrWord(slot), pc) == slot <==> PagesFit(off) && Aligned8(slot))
  {
    hide Page, AdrpValue, AdrpWord, AddWord, LdrWord, LdrImm, AddImm, Pages, PagesFit, Aligned8, Field, Plus, Diff,
      Paged;
    var off := Pages(slot, pc);
    var x := AdrpValue(AdrpWord(off), pc);
    AdrpReaches(slot, pc);
    AdrpPaged(AdrpWord(off), pc);
    LdrXor(slot);
    AddXor(slot);
    Same(LdrImm(LdrWord(slot)), Field(slot, 0xff8));
    Same(AddImm(AddWord(slot)), Field(slot, 0xfff));
    LowBits(x, slot);
    Same(Page(Plus(x, Field(slot, 0xfff))), x);
    Same(Page(Plus(x, Field(slot, 0xff8))), x);
    SlotXor(slot);
    Same(Plus(Page(slot), Field(slot, 0xfff)), slot);
    if Aligned8(slot) {
      Same(Plus(Page(slot), Field(slot, 0xff8)), slot);
    }
    NoDiff(slot);
  }

  // ARM: add ip, pc, #; add ip, ip, #; add ip, ip, #; ldr pc, [ip, #]!

  function Arm0(off: bv32): bv32 { 0xe28f_c200 | ((off >> 28) & 0xf) }

  function Arm1(off: bv32): bv32 { 0xe28c_c600 | ((off >> 20) & 0xff) }

  function Arm2(off: bv32): bv32 { 0xe28c_ca00 | ((off >> 12) & 0xff) }

  function Arm3(off: bv32): bv32 { 0xe5bc_f000 | (off & 0xfff) }

  function Sum4(a: bv32, b: bv32, c: bv32, d: bv32): bv32 { Add(Add(Add(a, b), c), d) }

  /** The low bits under the mask of one add. */
  function Bits(x: bv32, m: bv32): bv32 { x & m }

  /** What the three adds and the load add up to. */
  function ArmReach(w0: bv32, w1: bv32, w2: bv32, w3: bv32): bv32 {
    Sum4(Operand(w0), Operand(w1), Operand(w2), Bits(w3, 0xfff))
  }

  /** The slot that the entry at pc loads from; pc reads as two words ahead. */
  function ArmSlot(w0: bv32, w1: bv32, w2: bv32, w3: bv32, pc: bv32): bv32 {
    Add(Add(pc, 8), ArmReach(w0, w1, w2, w3))
  }

  function Ror4(x: bv32): bv32 { (x >> 4) | (x << 28) }

  lemma FourSteps(x: bv32)
    ensures RotR(x, 4) == Ror4(x)
  {
    assert RotR(x, 4) == Ror1(Ror1(Ror1(Ror1(x))));
    FourXor(x);
    Same32(Ror1(Ror1(Ror1(Ror1(x)))), Ror4(x));
  }

  lemma FourXor(x: bv32)
    ensures Diff32(Ror1(Ror1(Ror1(Ror1(x)))), Ror4(x)) == 0
  {
  }

  lemma FourMore(x: bv32, n: nat)
    ensures RotR(x, n + 4) == Ror4(RotR(x, n))
  {
    hide Ror4, RotR;
    A32Add.RotRAdd(x, n, 4);
    FourSteps(RotR(x, n));
  }

  lemma ArmOperands(off: bv32)
    ensures Operand(Arm0(off)) == Ror4(Bits(off >> 28, 0xf))
    ensures Operand(Arm1(off)) == Ror4(Ror4(Ror4(Bits(off >> 20, 0xff))))
    ensures Operand(Arm2(off)) == Ror4(Ror4(Ror4(Ror4(Ror4(Bits(off >> 12, 0xff))))))
  {
    ArmFields(off);
    var a, b, c := Bits(off >> 28, 0xf), Bits(off >> 20, 0xff), Bits(off >> 12, 0xff);
    Turns(a);
    Turns(b);
    Turns(c);
    OperandIs(Arm0(off), a, 4);
    OperandIs(Arm1(off), b, 12);
    OperandIs(Arm2(off), c, 20);
    hide *;
  }

  lemma Turns(x: bv32)
    ensures RotR(x, 4) == Ror4(x) && RotR(x, 12) == Ror4(Ror4(Ror4(x)))
    ensures RotR(x, 20) == Ror4(Ror4(Ror4(Ror4(Ror4(x)))))
  {
    hide Ror4, RotR;
    FourSteps(x);
    FourMore(x, 4);
    FourMore(x, 8);
    FourMore(x, 12);
    FourMore(x, 16);
  }

  predicate RotatedBy(w: bv32, x: bv32, n: bv32) { w & 0xff == x && (w >> 8) & 15 == n }

  lemma ArmFields(off: bv32)
    ensures RotatedBy(Arm0(off), Bits(off >> 28, 0xf), 2) && RotatedBy(Arm1(off), Bits(off >> 20, 0xff), 6)
    ensures RotatedBy(Arm2(off), Bits(off >> 12, 0xff), 10)
  {
  }

  lemma OperandIs(w: bv32, x: bv32, n: nat)
    requires (n == 4 && RotatedBy(w, x, 2)) || (n == 12 && RotatedBy(w, x, 6)) || (n == 20 && RotatedBy(w, x, 10))
    ensures Operand(w) == RotR(x, n)
  {
    hide RotR;
    assert 2 as bv32 as nat == 2 && 6 as bv32 as nat == 6 && 10 as bv32 as nat == 10;
  }

  lemma ArmSum(off: bv32)
    ensures Diff32(Sum4(Ror4(Bits(off >> 28, 0xf)), Ror4(Ror4(Ror4(Bits(off >> 20, 0xff)))),
      Ror4(Ror4(Ror4(Ror4(Ror4(Bits(off >> 12, 0xff)))))), Bits(Arm3(off), 0xfff)), off) == 0
  {
  }

  /** The four instructions reach every 32-bit distance. */
  lemma ArmReads(off: bv32)
    ensures ArmReach(Arm0(off), Arm1(off), Arm2(off), Arm3(off)) == off
  {
    hide Operand, Ror4, Bits, Arm0, Arm1, Arm2, Arm3, Diff32, Sum4;
    ArmOperands(off);
    ArmSum(off);
    Same32(ArmReach(Arm0(off), Arm1(off), Arm2(off), Arm3(off)), off);
  }

  /** The distance that the loop computes for the entry at q. */
  function ArmOff(plt: bv32, got: bv32, q: bv32, gotOffset: bv32): bv32 {
    got - plt - 12 + gotOffset + (0 - q) + 4
  }

  lemma ArmDistance(plt: bv32, got: bv32, q: bv32, gotOffset: bv32)
    ensures Add(plt + q + 8, got - plt - 12 + gotOffset + (0 - q) + 4) == Add(got, gotOffset)
  {
  }

  /** The entry at q of the PLT loads the GOT slot at gotOffset. */
  lemma ArmEntryReads(plt: bv32, got: bv32, q: bv32, gotOffset: bv32)
    ensures var off := ArmOff(plt, got, q, gotOffset);
      ArmSlot(Arm0(off), Arm1(off), Arm2(off), Arm3(off), Add(plt, q)) == Add(got, gotOffset)
  {
    ArmDistance(plt, got, q, gotOffset);
    ArmReads(ArmOff(plt, got, q, gotOffset));
    assert Add(Add(plt, q), 8) == plt + q + 8;
    hide Add, ArmReach, Arm0, Arm1, Arm2, Arm3;
  }

  /** The check accepts exactly the distances from -2 KiB on and below 4 GiB - 2 KiB. */
  lemma RiscvAccepts(d: bv64)
    ensures RiscvOk(d) <==> d + 0x800 < 0x1_0000_0000
  {
  }

  lemma UpperHalf(d: bv64)
    ensures d + 0x800 < 0x1_0000_0000 ==> (d + 0x8000_0800 < 0x1_0000_0000 <==> d + 0x800 < 0x8000_0000)
  {
  }

  lemma LowerHalf(d: bv64)
    ensures d + 0x8000_0800 < 0x1_0000_0000 && !(d + 0x800 < 0x1_0000_0000) <==> d + 0x800 >= 0xffff_ffff_8000_0000
  {
  }

  /** Of the accepted distances the code reaches exactly those below 2 GiB - 2 KiB, and it could reach exactly those
    * rejected ones that are at least -2 GiB - 2 KiB and below -2 KiB. */
  lemma RiscvRange(d: bv64)
    ensures RiscvOk(d) <==> d + 0x800 < 0x1_0000_0000
    ensures RiscvOk(d) ==> (PairFits(d) <==> d + 0x800 < 0x8000_0000)
    ensures PairFits(d) && !RiscvOk(d) <==> d + 0x800 >= 0xffff_ffff_8000_0000
  {
    hide RiscvOk, PairFits;
    RiscvAccepts(d);
    PairRange(d);
    UpperHalf(d);
    LowerHalf(d);
  }

  /** 2 GiB is accepted and not reached; -4 KiB would be reached and is turned down. */
  lemma RiscvRangePoints()
    ensures RiscvOk(0x8000_0000) && !PairFits(0x8000_0000)
    ensures !RiscvOk(0xffff_ffff_ffff_f000) && PairFits(0xffff_ffff_ffff_f000)
  {
  }
}
