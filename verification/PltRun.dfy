/** Running the code of procedure linkage tables on AArch64, RISC-V and ARM. */
module PltRun {
  import opened Binary
  import opened BitFacts
  import opened RiscvBits
  import opened PltBits

  /** Registers by number, and memory as cells of eight bytes; what is absent holds 0. */
  datatype Machine = Machine(regs: map<nat, bv64>, mem: map<Address, bv64>, pc: bv64)

  datatype Address = Cell(a: bv64)

  function X(m: Machine, r: nat): bv64 { if r in m.regs then m.regs[r] else 0 }

  function Load(m: Machine, a: bv64): bv64 { if Cell(a) in m.mem then m.mem[Cell(a)] else 0 }

  /** The next instruction, with r set to v. */
  function Set(m: Machine, r: nat, v: bv64): Machine { m.(regs := m.regs[r := v], pc := Plus(m.pc, 4)) }

  lemma XSet(m: Machine, r: nat, v: bv64)
    ensures X(Set(m, r, v), r) == v && forall k: nat :: k != r ==> X(Set(m, r, v), k) == X(m, k)
    ensures Set(m, r, v).mem == m.mem && Set(m, r, v).pc == Plus(m.pc, 4) && Set(m, r, v).regs == m.regs[r := v]
    ensures forall a: bv64 :: Load(Set(m, r, v), a) == Load(m, a)
  {
    hide Plus;
  }

  /** The register number in the five bits of w from bit at on. */
  function Field5(w: bv32, at: nat): bv32 {
    match at
    case 0 => w & 31
    case 5 => (w >> 5) & 31
    case 7 => (w >> 7) & 31
    case 10 => (w >> 10) & 31
    case 15 => (w >> 15) & 31
    case _ => (w >> 20) & 31
  }

  function Number(r: bv32): nat { r as nat }

  function Bits5(w: bv32, at: nat): nat { Number(Field5(w, at)) }

  lemma Numbers()
    ensures Number(0) == 0 && Number(5) == 5 && Number(6) == 6 && Number(7) == 7 && Number(16) == 16
    ensures Number(17) == 17 && Number(28) == 28 && Number(30) == 30 && Number(31) == 31
  {
  }

  // AArch64

  predicate IsAdrp(w: bv32) { w & 0x9f00_0000 == 0x9000_0000 }

  predicate IsLdr(w: bv32) { w & 0xffc0_0000 == 0xf940_0000 }

  predicate IsAdd(w: bv32) { w & 0xffc0_0000 == 0x9100_0000 }

  predicate IsBr(w: bv32) { w & 0xffff_fc1f == 0xd61f_0000 }

  /** stp of two x registers with writeback. */
  predicate IsPush(w: bv32) { w & 0xffc0_0000 == 0xa980_0000 }

  /** The signed offset of stp, in units of eight bytes. */
  function PairOffset(w: bv32): bv64 { Sext(Wide((w >> 15) & 0x7f), 0x40) << 3 }

  function Exec64(w: bv32, m: Machine): Option<Machine> {
    var d, n := Bits5(w, 0), Bits5(w, 5);
    if IsAdrp(w) then Some(Set(m, d, AdrpValue(w, m.pc)))
    else if IsLdr(w) then Some(Set(m, d, Load(m, Plus(X(m, n), LdrImm(w)))))
    else if IsAdd(w) then Some(Set(m, d, Plus(X(m, n), AddImm(w))))
    else if IsBr(w) then Some(m.(pc := X(m, n)))
    else if IsPush(w) then
      var a := Plus(X(m, n), PairOffset(w));
      Some(Set(m.(mem := m.mem[Cell(a) := X(m, d)][Cell(Plus(a, 8)) := X(m, Bits5(w, 10))]), n, a))
    else None
  }

  lemma EntryFields64(off: bv64, slot: bv64)
    ensures IsAdrp(AdrpWord(off)) && Field5(AdrpWord(off), 0) == 16
    ensures IsLdr(LdrWord(slot)) && Field5(LdrWord(slot), 0) == 17 && Field5(LdrWord(slot), 5) == 16
    ensures IsAdd(AddWord(slot)) && Field5(AddWord(slot), 0) == 16 && Field5(AddWord(slot), 5) == 16
  {
  }

  lemma EntryWords64(off: bv64, slot: bv64)
    ensures IsAdrp(AdrpWord(off)) && Bits5(AdrpWord(off), 0) == 16
    ensures IsLdr(LdrWord(slot)) && Bits5(LdrWord(slot), 0) == 17 && Bits5(LdrWord(slot), 5) == 16
    ensures IsAdd(AddWord(slot)) && Bits5(AddWord(slot), 0) == 16 && Bits5(AddWord(slot), 5) == 16
  {
    EntryFields64(off, slot);
    Numbers();
    hide Field5, Number, AdrpWord, LdrWord, AddWord;
  }

  /** Three words that load x17 from the slot they compute and leave the slot's address in x16, and a branch to x17. */
  predicate LoadsAndJumps(w0: bv32, w1: bv32, w2: bv32, w3: bv32) {
    && IsAdrp(w0) && Bits5(w0, 0) == 16
    && IsLdr(w1) && Bits5(w1, 0) == 17 && Bits5(w1, 5) == 16
    && IsAdd(w2) && Bits5(w2, 0) == 16 && Bits5(w2, 5) == 16
    && w3 == 0xd61f_0220
  }

  function Run64(ws: seq<bv32>, m: Machine): Option<Machine> {
    if ws == [] then Some(m) else
      match Exec64(ws[0], m)
      case None => None
      case Some(n) => Run64(ws[1..], n)
  }

  /** m after a jump to what the cell at from holds, with address in x16. */
  function Jumped64(m: Machine, address: bv64, from: bv64): Machine {
    Machine(m.regs[16 := address][17 := Load(m, from)], m.mem, Load(m, from))
  }

  lemma OneByOne(w0: bv32, w1: bv32, w2: bv32, w3: bv32)
    ensures [w0, w1, w2, w3][1..] == [w1, w2, w3] && [w1, w2, w3][1..] == [w2, w3] && [w2, w3][1..] == [w3]
    ensures [w3][1..] == []
  {
  }

  lemma BrWord()
    ensures IsBr(0xd61f_0220) && Bits5(0xd61f_0220, 5) == 17
  {
    Numbers();
    assert Field5(0xd61f_0220, 5) == 17;
    hide Number;
  }

  lemma OnlyOne(w: bv32)
    ensures IsAdrp(w) ==> !IsLdr(w) && !IsAdd(w) && !IsBr(w) && !IsPush(w)
    ensures IsLdr(w) ==> !IsAdd(w) && !IsBr(w) && !IsPush(w)
    ensures IsAdd(w) ==> !IsBr(w) && !IsPush(w)
    ensures IsBr(w) ==> !IsPush(w)
  {
  }

  lemma Overwritten(regs: map<nat, bv64>, r: nat, q: nat, x: bv64, y: bv64, z: bv64)
    requires r != q
    ensures regs[r := x][q := y][r := z] == regs[r := z][q := y]
  {
  }

  lemma SetTwice(regs: map<nat, bv64>, r: nat, x: bv64, y: bv64)
    ensures regs[r := x][r := y] == regs[r := y]
  {
  }

  lemma DoAdrp(w: bv32, m: Machine, d: nat)
    requires IsAdrp(w) && Bits5(w, 0) == d
    ensures Exec64(w, m) == Some(Set(m, d, AdrpValue(w, m.pc)))
  {
    hide IsAdrp, IsLdr, IsAdd, IsBr, IsPush, Bits5, AdrpValue, LdrImm, AddImm, PairOffset, Set, X, Load;
  }

  lemma DoLdr(w: bv32, m: Machine, d: nat, n: nat)
    requires IsLdr(w) && Bits5(w, 0) == d && Bits5(w, 5) == n
    ensures Exec64(w, m) == Some(Set(m, d, Load(m, Plus(X(m, n), LdrImm(w)))))
  {
    OnlyOne(w);
    hide IsAdrp, IsLdr, IsAdd, IsBr, IsPush, Bits5, AdrpValue, LdrImm, AddImm, PairOffset, Set, X, Load;
  }

  lemma DoAdd(w: bv32, m: Machine, d: nat, n: nat)
    requires IsAdd(w) && Bits5(w, 0) == d && Bits5(w, 5) == n
    ensures Exec64(w, m) == Some(Set(m, d, Plus(X(m, n), AddImm(w))))
  {
    OnlyOne(w);
    hide IsAdrp, IsLdr, IsAdd, IsBr, IsPush, Bits5, AdrpValue, LdrImm, AddImm, PairOffset, Set, X, Load;
  }

  lemma DoBr(w: bv32, m: Machine, n: nat)
    requires IsBr(w) && Bits5(w, 5) == n
    ensures Exec64(w, m) == Some(m.(pc := X(m, n)))
  {
    OnlyOne(w);
    hide IsAdrp, IsLdr, IsAdd, IsBr, IsPush, Bits5, AdrpValue, LdrImm, AddImm, PairOffset, Set, X, Load;
  }

  lemma FourSteps64(w0: bv32, w1: bv32, w2: bv32, w3: bv32, m: Machine, a: Machine, b: Machine, c: Machine, e: Machine)
    requires Exec64(w0, m) == Some(a) && Exec64(w1, a) == Some(b) && Exec64(w2, b) == Some(c)
    requires Exec64(w3, c) == Some(e)
    ensures Run64([w0, w1, w2, w3], m) == Some(e)
  {
    hide Exec64;
    OneByOne(w0, w1, w2, w3);
    assert Run64([w3], c) == Some(e);
    assert Run64([w2, w3], b) == Some(e);
    assert Run64([w1, w2, w3], a) == Some(e);
  }

  lemma Runs64(w0: bv32, w1: bv32, w2: bv32, w3: bv32, m: Machine)
    requires LoadsAndJumps(w0, w1, w2, w3)
    ensures Run64([w0, w1, w2, w3], m) == Some(Jumped64(m, A64Address(w0, w2, m.pc), A64Slot(w0, w1, m.pc)))
  {
    BrWord();
    hide IsAdrp, IsLdr, IsAdd, IsBr, Bits5, AdrpValue, LdrImm, AddImm, Plus, Exec64, X, Load, Set, Run64;
    var page, address := AdrpValue(w0, m.pc), A64Address(w0, w2, m.pc);
    var v := Load(m, A64Slot(w0, w1, m.pc));
    var a := Set(m, 16, page);
    var b := Set(a, 17, v);
    var c := Set(b, 16, address);
    XSet(m, 16, page);
    XSet(a, 17, v);
    XSet(b, 16, address);
    DoAdrp(w0, m, 16);
    DoLdr(w1, a, 17, 16);
    DoAdd(w2, b, 16, 16);
    DoBr(w3, c, 17);
    FourSteps64(w0, w1, w2, w3, m, a, b, c, c.(pc := v));
    Overwritten(m.regs, 16, 17, page, v, address);
  }

  /** The entry for a slot within reach jumps to what the slot holds, with the slot's address in x16. */
  lemma Entry64(slot: bv64, m: Machine)
    requires PagesFit(Pages(slot, m.pc)) && Aligned8(slot)
    ensures var off := Pages(slot, m.pc);
      Run64([AdrpWord(off), LdrWord(slot), AddWord(slot), 0xd61f_0220], m) == Some(Jumped64(m, slot, slot))
  {
    var off := Pages(slot, m.pc);
    EntryWords64(off, slot);
    assert LoadsAndJumps(AdrpWord(off), LdrWord(slot), AddWord(slot), 0xd61f_0220);
    A64Reads(slot, m.pc);
    hide LoadsAndJumps, AdrpWord, LdrWord, AddWord, Pages, PagesFit, Aligned8, A64Slot, A64Address;
    Runs64(AdrpWord(off), LdrWord(slot), AddWord(slot), 0xd61f_0220, m);
  }

  /** m with x16 and x30 pushed. */
  function Pushed64(m: Machine): Machine {
    var a := Plus(X(m, 31), 0xffff_ffff_ffff_fff0);
    Set(m.(mem := m.mem[Cell(a) := X(m, 16)][Cell(Plus(a, 8)) := X(m, 30)]), 31, a)
  }

  lemma PushWord()
    ensures var w := 0xa9bf_7bf0; IsPush(w) && Bits5(w, 0) == 16 && Bits5(w, 5) == 31 && Bits5(w, 10) == 30
    ensures PairOffset(0xa9bf_7bf0) == 0xffff_ffff_ffff_fff0
  {
    Numbers();
    assert Field5(0xa9bf_7bf0, 0) == 16 && Field5(0xa9bf_7bf0, 5) == 31 && Field5(0xa9bf_7bf0, 10) == 30;
    hide Number;
  }

  predicate SamePage(pc: bv64) { Page(Plus(pc, 4)) == Page(pc) }

  lemma NextPage(slot: bv64, pc: bv64)
    requires SamePage(pc)
    ensures Pages(slot, Plus(pc, 4)) == Pages(slot, pc)
  {
    PageNoIs(pc);
    hide Minus, Plus;
  }

  lemma PageNoIs(pc: bv64)
    ensures SamePage(pc) ==> Diff(PageNo(Plus(pc, 4)), PageNo(pc)) == 0
    ensures SamePage(pc) ==> PageNo(Plus(pc, 4)) == PageNo(pc)
  {
  }

  /** The header pushes the address of the entry's slot and the return address, and jumps to what the third cell of
    * the GOT holds, with that cell's address in x16. */
  lemma Header64(slot: bv64, m: Machine)
    requires SamePage(m.pc) && PagesFit(Pages(slot, m.pc)) && Aligned8(slot)
    ensures var off := Pages(slot, m.pc);
      Run64([0xa9bf_7bf0, AdrpWord(off), LdrWord(slot), AddWord(slot), 0xd61f_0220], m) ==
      Some(Jumped64(Pushed64(m), slot, slot))
  {
    var off := Pages(slot, m.pc);
    PushWord();
    OnlyOne(0xa9bf_7bf0);
    NextPage(slot, m.pc);
    var ws := [AdrpWord(off), LdrWord(slot), AddWord(slot), 0xd61f_0220];
    hide IsAdrp, IsLdr, IsAdd, IsBr, IsPush, Bits5, AdrpWord, LdrWord, AddWord, Pages, PagesFit, Aligned8, Jumped64,
      PairOffset,
      SamePage;
    assert ([0xa9bf_7bf0] + ws)[1..] == ws;
    assert [0xa9bf_7bf0] + ws == [0xa9bf_7bf0, AdrpWord(off), LdrWord(slot), AddWord(slot), 0xd61f_0220];
    assert Exec64(0xa9bf_7bf0, m) == Some(Pushed64(m));
    assert Pushed64(m).pc == Plus(m.pc, 4);
    Entry64(slot, Pushed64(m));
  }

  // RISC-V

  predicate IsAuipc(w: bv32) { w & 0x7f == 0x17 }

  predicate IsLd(w: bv32) { w & 0x707f == 0x3003 }

  predicate IsAddi(w: bv32) { w & 0x707f == 0x13 }

  predicate IsSub(w: bv32) { w & 0xfe00_707f == 0x4000_0033 }

  predicate IsSrli(w: bv32) { w & 0xfc00_707f == 0x5013 }

  predicate IsJalr(w: bv32) { w & 0x707f == 0x67 }

  /** Register 0 is always 0. */
  function XR(m: Machine, r: nat): bv64 { if r == 0 then 0 else X(m, r) }

  function SetR(m: Machine, r: nat, v: bv64): Machine {
    if r == 0 then m.(pc := Plus(m.pc, 4)) else Set(m, r, v)
  }

  function Half(x: bv64): bv64 { x >> 1 }

  function Srl(x: bv64, n: nat): bv64 {
    if n == 0 then x else Srl(Half(x), n - 1)
  }

  function Amount(w: bv32): nat { ((w >> 20) & 63) as nat }

  function Even(x: bv64): bv64 { x & !1 }

  function ExecR(w: bv32, m: Machine): Option<Machine> {
    var d, a, b := Bits5(w, 7), Bits5(w, 15), Bits5(w, 20);
    if IsAuipc(w) then Some(SetR(m, d, Plus(m.pc, UImm(w))))
    else if IsLd(w) then Some(SetR(m, d, Load(m, Plus(XR(m, a), IImm(w)))))
    else if IsAddi(w) then Some(SetR(m, d, Plus(XR(m, a), IImm(w))))
    else if IsSub(w) then Some(SetR(m, d, Minus(XR(m, a), XR(m, b))))
    else if IsSrli(w) then Some(SetR(m, d, Srl(XR(m, a), Amount(w))))
    else if IsJalr(w) then
      var to := Even(Plus(XR(m, a), IImm(w)));
      Some(SetR(m, d, Plus(m.pc, 4)).(pc := to))
    else None
  }

  function RunR(ws: seq<bv32>, m: Machine): Option<Machine> {
    if ws == [] then Some(m) else
      match ExecR(ws[0], m)
      case None => None
      case Some(n) => RunR(ws[1..], n)
  }

  const T0: nat := 5
  const T1: nat := 6
  const T2: nat := 7
  const T3: nat := 28

  lemma EntryFieldsR(d: bv64)
    ensures IsAuipc(RiscvUpper(d)) && Field5(RiscvUpper(d), 7) == 28
    ensures IsLd(RiscvLower(d)) && Field5(RiscvLower(d), 7) == 28 && Field5(RiscvLower(d), 15) == 28
  {
  }

  lemma EntryWordsR(d: bv64)
    ensures IsAuipc(RiscvUpper(d)) && Bits5(RiscvUpper(d), 7) == T3
    ensures IsLd(RiscvLower(d)) && Bits5(RiscvLower(d), 7) == T3 && Bits5(RiscvLower(d), 15) == T3
  {
    EntryFieldsR(d);
    Numbers();
    hide Field5, Number, RiscvUpper, RiscvLower;
  }

  lemma JalrWord()
    ensures var w := 0x000e_0367; IsJalr(w) && Bits5(w, 7) == T1 && Bits5(w, 15) == T3 && IImm(w) == 0
    ensures var w := 0x000e_0067; IsJalr(w) && Bits5(w, 7) == 0 && Bits5(w, 15) == T3 && IImm(w) == 0
  {
    Numbers();
    assert Field5(0x000e_0367, 7) == 6 && Field5(0x000e_0367, 15) == 28;
    assert Field5(0x000e_0067, 7) == 0 && Field5(0x000e_0067, 15) == 28;
    hide Number;
  }

  lemma OnlyOneR(w: bv32)
    ensures IsAuipc(w) ==> !IsLd(w) && !IsAddi(w) && !IsSub(w) && !IsSrli(w) && !IsJalr(w)
    ensures IsLd(w) ==> !IsAddi(w) && !IsSub(w) && !IsSrli(w) && !IsJalr(w)
    ensures IsAddi(w) ==> !IsSub(w) && !IsSrli(w) && !IsJalr(w)
    ensures IsSub(w) ==> !IsSrli(w) && !IsJalr(w)
    ensures IsSrli(w) ==> !IsJalr(w)
  {
  }

  /** m after a jump to what the cell at slot holds, which t3 has too, with the address behind the jump in t1. */
  function JumpedR(m: Machine, slot: bv64): Machine {
    Machine(m.regs[T3 := Load(m, slot)][T1 := Plus(m.pc, 12)], m.mem, Even(Load(m, slot)))
  }

  lemma PlusTwelve(pc: bv64)
    ensures Plus(Plus(Plus(pc, 4), 4), 4) == Plus(pc, 12)
  {
  }

  lemma PlusZero(x: bv64)
    ensures Plus(x, 0) == x
  {
  }

  lemma DoAuipc(w: bv32, m: Machine, d: nat)
    requires IsAuipc(w) && Bits5(w, 7) == d && d != 0
    ensures ExecR(w, m) == Some(Set(m, d, Plus(m.pc, UImm(w))))
  {
    hide IsAuipc, IsLd, IsAddi, IsSub, IsSrli, IsJalr, Bits5, UImm, IImm, Plus, Minus, Srl, Amount, Even, Set, X, Load;
  }

  lemma DoLd(w: bv32, m: Machine, d: nat, n: nat)
    requires IsLd(w) && Bits5(w, 7) == d && d != 0 && Bits5(w, 15) == n && n != 0
    ensures ExecR(w, m) == Some(Set(m, d, Load(m, Plus(X(m, n), IImm(w)))))
  {
    OnlyOneR(w);
    hide IsAuipc, IsLd, IsAddi, IsSub, IsSrli, IsJalr, Bits5, UImm, IImm, Plus, Minus, Srl, Amount, Even, Set, X, Load;
  }

  lemma DoAddi(w: bv32, m: Machine, d: nat, n: nat)
    requires IsAddi(w) && Bits5(w, 7) == d && d != 0 && Bits5(w, 15) == n && n != 0
    ensures ExecR(w, m) == Some(Set(m, d, Plus(X(m, n), IImm(w))))
  {
    OnlyOneR(w);
    hide IsAuipc, IsLd, IsAddi, IsSub, IsSrli, IsJalr, Bits5, UImm, IImm, Plus, Minus, Srl, Amount, Even, Set, X, Load;
  }

  lemma DoSub(w: bv32, m: Machine, d: nat, n: nat, k: nat)
    requires IsSub(w) && Bits5(w, 7) == d && d != 0 && Bits5(w, 15) == n && n != 0 && Bits5(w, 20) == k && k != 0
    ensures ExecR(w, m) == Some(Set(m, d, Minus(X(m, n), X(m, k))))
  {
    OnlyOneR(w);
    hide IsAuipc, IsLd, IsAddi, IsSub, IsSrli, IsJalr, Bits5, UImm, IImm, Plus, Minus, Srl, Amount, Even, Set, X, Load;
  }

  lemma DoSrli(w: bv32, m: Machine, d: nat, n: nat)
    requires IsSrli(w) && Bits5(w, 7) == d && d != 0 && Bits5(w, 15) == n && n != 0
    ensures ExecR(w, m) == Some(Set(m, d, Srl(X(m, n), Amount(w))))
  {
    OnlyOneR(w);
    hide IsAuipc, IsLd, IsAddi, IsSub, IsSrli, IsJalr, Bits5, UImm, IImm, Plus, Minus, Srl, Amount, Even, Set, X, Load;
  }

  lemma DoJalr(w: bv32, m: Machine, d: nat, n: nat)
    requires IsJalr(w) && Bits5(w, 7) == d && Bits5(w, 15) == n && n != 0 && IImm(w) == 0
    ensures ExecR(w, m) ==
      Some(if d == 0 then m.(pc := Even(X(m, n))) else Set(m, d, Plus(m.pc, 4)).(pc := Even(X(m, n))))
  {
    OnlyOneR(w);
    PlusZero(X(m, n));
    hide IsAuipc, IsLd, IsAddi, IsSub, IsSrli, IsJalr, Bits5, UImm, IImm, Plus, Minus, Srl, Amount, Even, X, Load;
  }

  /** The entry for a slot within reach jumps to what the slot holds. */
  lemma EntryR(slot: bv64, m: Machine)
    requires PairFits(Minus(slot, m.pc))
    ensures var d := Minus(slot, m.pc); RunR([RiscvUpper(d), RiscvLower(d), 0x000e_0367], m) == Some(JumpedR(m, slot))
  {
    var d := Minus(slot, m.pc);
    EntryWordsR(d);
    JalrWord();
    RiscvReads(m.pc, slot);
    PlusTwelve(m.pc);
    PlusAssoc(m.pc, UImm(RiscvUpper(d)), IImm(RiscvLower(d)));
    hide IsAuipc, IsLd, IsJalr, Bits5, RiscvUpper, RiscvLower, UImm, IImm, Plus, Minus, PairFits, Even, ExecR, X, Load,
      Set;
    var w0, w1, w2 := RiscvUpper(d), RiscvLower(d), 0x000e_0367;
    var upper, v := Plus(m.pc, UImm(w0)), Load(m, slot);
    var a := Set(m, T3, upper);
    var b := Set(a, T3, v);
    XSet(m, T3, upper);
    XSet(a, T3, v);
    XSet(b, T1, Plus(b.pc, 4));
    DoAuipc(w0, m, T3);
    DoLd(w1, a, T3, T3);
    DoJalr(w2, b, T1, T3);
    var c := Set(b, T1, Plus(b.pc, 4)).(pc := Even(v));
    ThreeStepsR(w0, w1, w2, m, a, b, c);
    SetTwice(m.regs, T3, upper, v);
  }

  lemma ThreeStepsR(w0: bv32, w1: bv32, w2: bv32, m: Machine, a: Machine, b: Machine, c: Machine)
    requires ExecR(w0, m) == Some(a) && ExecR(w1, a) == Some(b) && ExecR(w2, b) == Some(c)
    ensures RunR([w0, w1, w2], m) == Some(c)
  {
    hide ExecR;
    assert [w0, w1, w2][1..] == [w1, w2] && [w1, w2][1..] == [w2] && [w2][1..] == [];
    assert RunR([w2], b) == Some(c);
    assert RunR([w1, w2], a) == Some(c);
  }

  lemma TSet(m: Machine, r: nat, v: bv64)
    ensures X(Set(m, r, v), r) == v && Set(m, r, v).mem == m.mem && Set(m, r, v).pc == Plus(m.pc, 4)
    ensures r != T0 ==> X(Set(m, r, v), T0) == X(m, T0)
    ensures r != T1 ==> X(Set(m, r, v), T1) == X(m, T1)
    ensures r != T2 ==> X(Set(m, r, v), T2) == X(m, T2)
    ensures r != T3 ==> X(Set(m, r, v), T3) == X(m, T3)
  {
    XSet(m, r, v);
    hide X, Set, Plus;
  }

  lemma SameLoad(m: Machine, n: Machine, a: bv64)
    requires m.mem == n.mem
    ensures Load(m, a) == Load(n, a)
  {
  }

  lemma HeaderFieldsR(d: bv64)
    ensures IsAuipc(Header0(d)) && Field5(Header0(d), 7) == 7
    ensures IsLd(Header2(d)) && Field5(Header2(d), 7) == 28 && Field5(Header2(d), 15) == 7
    ensures IsAddi(Header4(d)) && Field5(Header4(d), 7) == 5 && Field5(Header4(d), 15) == 7
  {
  }

  lemma HeaderWordsR(d: bv64)
    ensures IsAuipc(Header0(d)) && Bits5(Header0(d), 7) == T2
    ensures IsLd(Header2(d)) && Bits5(Header2(d), 7) == T3 && Bits5(Header2(d), 15) == T2
    ensures IsAddi(Header4(d)) && Bits5(Header4(d), 7) == T0 && Bits5(Header4(d), 15) == T2
  {
    HeaderFieldsR(d);
    Numbers();
    hide Field5, Number, Header0, Header2, Header4;
  }

  const SUB_T1_T3: bv32 := 0x41c3_0333
  const ADDI_T1: bv32 := 0xfd43_0313
  const SRLI_T1: bv32 := 0x0013_5313
  const LD_T0: bv32 := 0x0082_b283
  const JR_T3: bv32 := 0x000e_0067

  lemma FixedFieldsR()
    ensures IsSub(SUB_T1_T3) && Field5(SUB_T1_T3, 7) == 6 && Field5(SUB_T1_T3, 15) == 6 && Field5(SUB_T1_T3, 20) == 28
    ensures IsAddi(ADDI_T1) && Field5(ADDI_T1, 7) == 6 && Field5(ADDI_T1, 15) == 6
    ensures IsSrli(SRLI_T1) && Field5(SRLI_T1, 7) == 6 && Field5(SRLI_T1, 15) == 6
    ensures IsLd(LD_T0) && Field5(LD_T0, 7) == 5 && Field5(LD_T0, 15) == 5
    ensures IImm(ADDI_T1) == 0xffff_ffff_ffff_ffd4 && IImm(LD_T0) == 8
  {
  }

  lemma FixedWordsR()
    ensures IsSub(SUB_T1_T3) && Bits5(SUB_T1_T3, 7) == T1 && Bits5(SUB_T1_T3, 15) == T1 && Bits5(SUB_T1_T3, 20) == T3
    ensures IsAddi(ADDI_T1) && Bits5(ADDI_T1, 7) == T1 && Bits5(ADDI_T1, 15) == T1
    ensures IsSrli(SRLI_T1) && Bits5(SRLI_T1, 7) == T1 && Bits5(SRLI_T1, 15) == T1
    ensures IsLd(LD_T0) && Bits5(LD_T0, 7) == T0 && Bits5(LD_T0, 15) == T0
    ensures IImm(ADDI_T1) == 0xffff_ffff_ffff_ffd4 && IImm(LD_T0) == 8
  {
    FixedFieldsR();
    Numbers();
    hide Field5, Number, IImm;
  }

  lemma OneBit(x: bv64)
    ensures Srl(x, Amount(SRLI_T1)) == Half(x)
  {
    assert ((SRLI_T1 >> 20) & 63) as nat == 1;
    assert Srl(x, 1) == Srl(Half(x), 0) == Half(x);
  }

  function HeaderR(d: bv64): seq<bv32> {
    [Header0(d), SUB_T1_T3, Header2(d), ADDI_T1, Header4(d), SRLI_T1, LD_T0, JR_T3]
  }

  lemma RunConsR(w: bv32, ws: seq<bv32>, m: Machine, n: Machine)
    requires ExecR(w, m) == Some(n)
    ensures RunR([w] + ws, m) == RunR(ws, n)
  {
    hide ExecR;
    assert ([w] + ws)[1..] == ws;
  }

  /** The first four words of the header. */
  lemma HeaderFirst(got: bv64, m: Machine) returns (a: Machine, b: Machine, c: Machine, e: Machine)
    requires PairFits(Minus(got, m.pc))
    ensures var d := Minus(got, m.pc);
      && ExecR(Header0(d), m) == Some(a) && ExecR(SUB_T1_T3, a) == Some(b) && ExecR(Header2(d), b) == Some(c)
      && ExecR(ADDI_T1, c) == Some(e) && X(e, T2) == Plus(m.pc, UImm(Header0(d)))
    ensures e.mem == m.mem && X(e, T3) == Load(m, got)
    ensures X(e, T1) == Plus(Minus(X(m, T1), X(m, T3)), 0xffff_ffff_ffff_ffd4)
  {
    var d := Minus(got, m.pc);
    HeaderWordsR(d);
    FixedWordsR();
    HeaderReads(m.pc, got);
    hide IsAuipc, IsLd, IsAddi, IsSub, IsSrli, IsJalr, Bits5, Header0, Header2, Header4, UImm, IImm, Plus, Minus,
      PairFits, ExecR, X, Load, Set;
    var page := Plus(m.pc, UImm(Header0(d)));
    a := Set(m, T2, page);
    TSet(m, T2, page);
    DoAuipc(Header0(d), m, T2);
    var x := Minus(X(m, T1), X(m, T3));
    b := Set(a, T1, x);
    TSet(a, T1, x);
    DoSub(SUB_T1_T3, a, T1, T1, T3);
    c := Set(b, T3, Load(m, got));
    TSet(b, T3, Load(m, got));
    SameLoad(b, m, got);
    DoLd(Header2(d), b, T3, T2);
    var y := Plus(x, 0xffff_ffff_ffff_ffd4);
    e := Set(c, T1, y);
    TSet(c, T1, y);
    DoAddi(ADDI_T1, c, T1, T1);
  }

  /** The last four. */
  lemma HeaderLast(d: bv64, got: bv64, e: Machine) returns (f: Machine, g: Machine, h: Machine, n: Machine)
    requires Plus(X(e, T2), IImm(Header4(d))) == got
    ensures ExecR(Header4(d), e) == Some(f) && ExecR(SRLI_T1, f) == Some(g)
    ensures ExecR(LD_T0, g) == Some(h) && ExecR(JR_T3, h) == Some(n)
    ensures n.mem == e.mem && n.pc == Even(X(e, T3)) && X(n, T3) == X(e, T3)
    ensures X(n, T0) == Load(e, Plus(got, 8)) && X(n, T1) == Half(X(e, T1))
  {
    HeaderWordsR(d);
    FixedWordsR();
    JalrWord();
    hide IsAuipc, IsLd, IsAddi, IsSub, IsSrli, IsJalr, Bits5, Header0, Header2, Header4, UImm, IImm, Plus, Minus,
      Even, Half, Srl, Amount, ExecR, X, Load, Set;
    f := Set(e, T0, got);
    TSet(e, T0, got);
    DoAddi(Header4(d), e, T0, T2);
    var y := Half(X(e, T1));
    g := Set(f, T1, y);
    TSet(f, T1, y);
    DoSrli(SRLI_T1, f, T1, T1);
    OneBit(X(e, T1));
    var v := Load(e, Plus(got, 8));
    h := Set(g, T0, v);
    TSet(g, T0, v);
    SameLoad(g, e, Plus(got, 8));
    DoLd(LD_T0, g, T0, T0);
    n := h.(pc := Even(X(e, T3)));
    DoJalr(JR_T3, h, 0, T3);
    SamePc(h, n.pc);
  }

  /** The header, from the address t3 of the header and the address t1 behind an entry's jump: it jumps to what the
    * first cell of the GOT holds, with the second cell in t0 and half the entry's offset in t1. */
  lemma HeaderRuns(got: bv64, m: Machine) returns (n: Machine)
    requires PairFits(Minus(got, m.pc))
    ensures RunR(HeaderR(Minus(got, m.pc)), m) == Some(n) && n.mem == m.mem && n.pc == Even(Load(m, got))
    ensures X(n, T0) == Load(m, Plus(got, 8)) && X(n, T3) == Load(m, got)
    ensures X(n, T1) == Half(Plus(Minus(X(m, T1), X(m, T3)), 0xffff_ffff_ffff_ffd4))
  {
    var d := Minus(got, m.pc);
    var a, b, c, e := HeaderFirst(got, m);
    HeaderReads(m.pc, got);
    hide Header0, Header2, Header4, UImm, IImm, Plus, Minus, PairFits, Even, Half, ExecR, X, RunR;
    var f, g, h;
    f, g, h, n := HeaderLast(d, got, e);
    EightSteps(d, m, a, b, c, e, f, g, h, n);
  }

  lemma SamePc(m: Machine, pc: bv64)
    ensures forall r: nat :: X(m.(pc := pc), r) == X(m, r)
  {
  }

  lemma EightSteps(d: bv64, m: Machine, a: Machine, b: Machine, c: Machine, e: Machine, f: Machine, g: Machine,
                   h: Machine, n: Machine)
    requires ExecR(Header0(d), m) == Some(a) && ExecR(SUB_T1_T3, a) == Some(b) && ExecR(Header2(d), b) == Some(c)
    requires ExecR(ADDI_T1, c) == Some(e) && ExecR(Header4(d), e) == Some(f) && ExecR(SRLI_T1, f) == Some(g)
    requires ExecR(LD_T0, g) == Some(h) && ExecR(JR_T3, h) == Some(n)
    ensures RunR(HeaderR(d), m) == Some(n)
  {
    hide ExecR, Header0, Header2, Header4, RunR;
    RunConsR(JR_T3, [], h, n);
    assert RunR([], n) == Some(n) by {
      NothingR(n);
    }
    assert [JR_T3] + [] == [JR_T3];
    RunConsR(LD_T0, [JR_T3], g, h);
    RunConsR(SRLI_T1, [LD_T0] + [JR_T3], f, g);
    RunConsR(Header4(d), [SRLI_T1] + ([LD_T0] + [JR_T3]), e, f);
    RunConsR(ADDI_T1, [Header4(d)] + ([SRLI_T1] + ([LD_T0] + [JR_T3])), c, e);
    RunConsR(Header2(d), [ADDI_T1] + ([Header4(d)] + ([SRLI_T1] + ([LD_T0] + [JR_T3]))), b, c);
    RunConsR(SUB_T1_T3, [Header2(d)] + ([ADDI_T1] + ([Header4(d)] + ([SRLI_T1] + ([LD_T0] + [JR_T3])))), a, b);
    RunConsR(Header0(d),
             [SUB_T1_T3] + ([Header2(d)] + ([ADDI_T1] + ([Header4(d)] + ([SRLI_T1] + ([LD_T0] + [JR_T3]))))), m, a);
    assert HeaderR(d) ==
      [Header0(d)] + ([SUB_T1_T3] + ([Header2(d)] + ([ADDI_T1] + ([Header4(d)] + ([SRLI_T1] + ([LD_T0] + [JR_T3]))))));
  }

  lemma NothingR(m: Machine)
    ensures RunR([], m) == Some(m)
  {
  }

  lemma Behind(plt: bv64, q: bv64)
    ensures Plus(Minus(Plus(Plus(plt, q), 12), plt), 0xffff_ffff_ffff_ffd4) == Minus(q, 32)
  {
    hide *;
    PlusAssoc(plt, q, 12);
    SumBack(plt, Plus(q, 12), 0);
    TwelveBack(q);
  }

  lemma TwelveBack(q: bv64)
    ensures Plus(Plus(q, 12), 0xffff_ffff_ffff_ffd4) == Minus(q, 32)
  {
  }

  /** The first call through the entry q bytes into the table, while its slot still holds the address of the header:
    * the entry jumps to the header, and that to the resolver in the first cell of the GOT, with the second cell in t0
    * and half the entry's distance from the first entry in t1. */
  lemma FirstCallR(plt: bv64, q: bv64, slot: bv64, got: bv64, m: Machine) returns (n: Machine)
    requires m.pc == Plus(plt, q) && PairFits(Minus(slot, m.pc)) && PairFits(Minus(got, plt))
    requires Load(m, slot) == plt && Even(plt) == plt
    ensures var d := Minus(slot, m.pc);
      && RunR([RiscvUpper(d), RiscvLower(d), 0x000e_0367], m) == Some(JumpedR(m, slot)) && JumpedR(m, slot).pc == plt
      && RunR(HeaderR(Minus(got, plt)), JumpedR(m, slot)) == Some(n)
    ensures n.pc == Even(Load(m, got)) && X(n, T0) == Load(m, Plus(got, 8)) && X(n, T1) == Half(Minus(q, 32))
  {
    EntryR(slot, m);
    hide Plus, Minus, PairFits, Even, Half, RiscvUpper, RiscvLower, HeaderR, RunR;
    var j := JumpedR(m, slot);
    n := HeaderRuns(got, j);
    assert X(j, T3) == plt && X(j, T1) == Plus(m.pc, 12);
    SameLoad(j, m, got);
    SameLoad(j, m, Plus(got, 8));
    Behind(plt, q);
  }
}
