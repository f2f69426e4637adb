/** RISC-V immediates: how the relocations scatter a distance over an instruction, and how the processor gathers it
  * (sections 2.3 and 16.2 of the Unprivileged ISA). */
module RiscvBits {
  import opened BitFacts

  function Low32(x: bv64): bv32 { (x & 0xffff_ffff) as bv32 }

  function Wide(w: bv32): bv64 { w as bv64 }

  /** The number whose low bits are x and whose sign bit is s. */
  function Sext(x: bv64, s: bv64): bv64 { (x ^ s) - s }

  function Field(x: bv64, m: bv64): bv64 { x & m }

  // The immediates as the processor reads them.

  function BRaw(w: bv32): bv32 {
    (((w >> 31) & 1) << 12) | (((w >> 7) & 1) << 11) | (((w >> 25) & 0x3f) << 5) | (((w >> 8) & 15) << 1)
  }

  function JRaw(w: bv32): bv32 {
    (((w >> 31) & 1) << 20) | (((w >> 12) & 0xff) << 12) | (((w >> 20) & 1) << 11) | (((w >> 21) & 0x3ff) << 1)
  }

  function URaw(w: bv32): bv32 { w & 0xffff_f000 }

  function IRaw(w: bv32): bv32 { w >> 20 }

  function SRaw(w: bv32): bv32 {
    ((w >> 25) << 5) | ((w >> 7) & 31)
  }

  function CbRaw(h: bv32): bv32 {
    (((h >> 12) & 1) << 8) | (((h >> 5) & 3) << 6) | (((h >> 2) & 1) << 5) | (((h >> 10) & 3) << 3)
    | (((h >> 3) & 3) << 1)
  }

  function CjRaw(h: bv32): bv32 {
    (((h >> 12) & 1) << 11) | (((h >> 8) & 1) << 10) | (((h >> 9) & 3) << 8) | (((h >> 6) & 1) << 7) |
    (((h >> 7) & 1) << 6) | (((h >> 2) & 1) << 5) | (((h >> 11) & 1) << 4) | (((h >> 3) & 7) << 1)
  }

  function BImm(w: bv32): bv64 { Sext(Wide(BRaw(w)), 0x1000) }

  function JImm(w: bv32): bv64 { Sext(Wide(JRaw(w)), 0x10_0000) }

  function UImm(w: bv32): bv64 { Sext(Wide(URaw(w)), 0x8000_0000) }

  function IImm(w: bv32): bv64 { Sext(Wide(IRaw(w)), 0x800) }

  function SImm(w: bv32): bv64 { Sext(Wide(SRaw(w)), 0x800) }

  function CbImm(h: bv32): bv64 { Sext(Wide(CbRaw(h)), 0x100) }

  function CjImm(h: bv32): bv64 { Sext(Wide(CjRaw(h)), 0x800) }

  // The words that the relocations write for distance d.

  function BranchWord(w: bv32, d: bv64): bv32 {
    var o := Low32(d >> 1);
    (w & !0xfe00_0f80) | ((o & 0x800) << 20) | ((o & 0x3f0) << 21) | ((o & 0x00f) << 8) | ((o & 0x400) >> 3)
  }

  function JalWord(w: bv32, d: bv64): bv32 {
    var o := Low32(d);
    (w & 0xfff) | (((o >> 12) & 0xff) << 12) | (((o >> 11) & 1) << 20) | (((o >> 1) & 0x3ff) << 21)
    | (((o >> 20) & 1) << 31)
  }

  /** The upper part of a call: the sum is cut off at 32 bits. */
  function CutWord(w: bv32, y: bv64): bv32 {
    Low32(Wide(w & 0xfff) | (y & !0xfff))
  }

  function CallWord(w: bv32, d: bv64): bv32 { CutWord(w, d + 0x800) }

  function Sar12(x: bv64): bv64 {
    (x >> 12) | (if x & 0x8000_0000_0000_0000 != 0 then 0xfff0_0000_0000_0000 else 0)
  }

  function Join(w: bv32, f: bv64): bv32 { (w & 0xfff) | (Low32(f) << 12) }

  /** The upper part of a pc-relative address. */
  function HiWord(w: bv32, d: bv64): bv32 { Join(w, Field(Sar12(d + 0x800), 0xf_ffff)) }

  function LoWord(w: bv32, d: bv64): bv32 {
    (w & 0xf_ffff) | (Low32(d & 0xfff) << 20)
  }

  function StoreWord(w: bv32, d: bv64): bv32 {
    var o := Low32(d);
    (w & !0xfe00_0f80) | ((o & 0xfe0) << 20) | ((o & 0x01f) << 7)
  }

  function RvcBranchWord(h: bv32, d: bv64): bv32 {
    var o := Low32(d);
    (h & 0xe383) | (((o >> 5) & 1) << 2) | (((o >> 1) & 3) << 3) | (((o >> 6) & 3) << 5) | (((o >> 3) & 3) << 10)
    | (((o >> 8) & 1) << 12)
  }

  function RvcJumpWord(h: bv32, d: bv64): bv32 {
    var o := Low32(d);
    (h & 0xe003) | (((o >> 5) & 1) << 2) | (((o >> 1) & 7) << 3) | (((o >> 7) & 1) << 6) | (((o >> 6) & 1) << 7) |
    (((o >> 10) & 1) << 8) | (((o >> 8) & 3) << 9) | (((o >> 4) & 1) << 11) | (((o >> 11) & 1) << 12)
  }

  // The distances that are accepted without an error, and those that fit.

  predicate BranchOk(d: bv64) { (d + 0x1000) & !0x1ffe == 0 }

  predicate JalOk(d: bv64) { (d + 0x20_0000) & !0x3f_fffe == 0 }

  predicate JalFits(d: bv64) { (d + 0x10_0000) & !0x1f_fffe == 0 }

  predicate HiOk(d: bv64) { (Sar12(d + 0x800) + 0x10_0000) >> 21 == 0 }

  /** Upper and lower part reach every distance up to 2 GiB, rounded. */
  predicate PairFits(d: bv64) { (d + 0x8000_0800) & !0xffff_ffff == 0 }

  predicate RvcBranchOk(d: bv64) { (d + 0x100) & !0x1fe == 0 }

  predicate RvcJumpOk(d: bv64) { (d + 0x800) & !0xffe == 0 }

  // Scattering and gathering gives back the bits of the field.

  lemma BranchXor(w: bv32, d: bv64)
    ensures Diff(Wide(BRaw(BranchWord(w, d))), Field(d, 0x1ffe)) == 0
  {
  }

  lemma BranchBits(w: bv32, d: bv64)
    ensures Wide(BRaw(BranchWord(w, d))) == Field(d, 0x1ffe)
  {
    hide BRaw, BranchWord, Wide, Field, Diff;
    BranchXor(w, d);
    Same(Wide(BRaw(BranchWord(w, d))), Field(d, 0x1ffe));
  }

  lemma JalXor(w: bv32, d: bv64)
    ensures Diff(Wide(JRaw(JalWord(w, d))), Field(d, 0x1f_fffe)) == 0
  {
  }

  lemma JalBits(w: bv32, d: bv64)
    ensures Wide(JRaw(JalWord(w, d))) == Field(d, 0x1f_fffe)
  {
    hide JRaw, JalWord, Wide, Field, Diff;
    JalXor(w, d);
    Same(Wide(JRaw(JalWord(w, d))), Field(d, 0x1f_fffe));
  }

  lemma CbXor(h: bv32, d: bv64)
    ensures Diff(Wide(CbRaw(RvcBranchWord(h, d))), Field(d, 0x1fe)) == 0
  {
  }

  lemma CbBits(h: bv32, d: bv64)
    ensures Wide(CbRaw(RvcBranchWord(h, d))) == Field(d, 0x1fe)
  {
    hide CbRaw, RvcBranchWord, Wide, Field, Diff;
    CbXor(h, d);
    Same(Wide(CbRaw(RvcBranchWord(h, d))), Field(d, 0x1fe));
  }

  lemma CjXor(h: bv32, d: bv64)
    ensures Diff(Wide(CjRaw(RvcJumpWord(h, d))), Field(d, 0xffe)) == 0
  {
  }

  lemma CjBits(h: bv32, d: bv64)
    ensures Wide(CjRaw(RvcJumpWord(h, d))) == Field(d, 0xffe)
  {
    hide CjRaw, RvcJumpWord, Wide, Field, Diff;
    CjXor(h, d);
    Same(Wide(CjRaw(RvcJumpWord(h, d))), Field(d, 0xffe));
  }

  lemma CallXor(w: bv32, d: bv64)
    ensures Diff(Wide(URaw(CallWord(w, d))), Field(d + 0x800, 0xffff_f000)) == 0
  {
  }

  lemma CallBits(w: bv32, d: bv64)
    ensures Wide(URaw(CallWord(w, d))) == Field(d + 0x800, 0xffff_f000)
  {
    hide URaw, CallWord, Wide, Field, Diff;
    CallXor(w, d);
    Same(Wide(URaw(CallWord(w, d))), Field(d + 0x800, 0xffff_f000));
  }

  lemma LoXor(w: bv32, d: bv64)
    ensures Diff(Wide(IRaw(LoWord(w, d))), Field(d, 0xfff)) == 0
  {
  }

  lemma LoBits(w: bv32, d: bv64)
    ensures Wide(IRaw(LoWord(w, d))) == Field(d, 0xfff)
  {
    hide IRaw, LoWord, Wide, Field, Diff;
    LoXor(w, d);
    Same(Wide(IRaw(LoWord(w, d))), Field(d, 0xfff));
  }

  lemma StoreXor(w: bv32, d: bv64)
    ensures Diff(Wide(SRaw(StoreWord(w, d))), Field(d, 0xfff)) == 0
  {
  }

  lemma StoreBits(w: bv32, d: bv64)
    ensures Wide(SRaw(StoreWord(w, d))) == Field(d, 0xfff)
  {
    hide SRaw, StoreWord, Wide, Field, Diff;
    StoreXor(w, d);
    Same(Wide(SRaw(StoreWord(w, d))), Field(d, 0xfff));
  }

  lemma SarLow(x: bv64, c: bv64)
    requires c & 0xf_ffff == 0
    ensures Diff(((x >> 12) | c) & 0xf_ffff, (x >> 12) & 0xf_ffff) == 0
  {
  }

  lemma SarField(x: bv64)
    ensures Field(Sar12(x), 0xf_ffff) == Field(x >> 12, 0xf_ffff)
  {
    var c: bv64 := if x & 0x8000_0000_0000_0000 != 0 then 0xfff0_0000_0000_0000 else 0;
    SarLow(x, c);
    Same(((x >> 12) | c) & 0xf_ffff, (x >> 12) & 0xf_ffff);
  }

  lemma JoinXor(w: bv32, y: bv64)
    ensures Diff32(Join(w, Field(y >> 12, 0xf_ffff)), CutWord(w, y)) == 0
  {
  }

  lemma JoinCut(w: bv32, y: bv64)
    ensures Join(w, Field(Sar12(y), 0xf_ffff)) == CutWord(w, y)
  {
    hide *;
    SarField(y);
    JoinXor(w, y);
    Same32(Join(w, Field(y >> 12, 0xf_ffff)), CutWord(w, y));
  }

  /** Upper parts of calls and of addresses are the same. */
  lemma HiSame(w: bv32, d: bv64)
    ensures HiWord(w, d) == CallWord(w, d)
  {
    hide Join, Field, Sar12, CutWord;
    JoinCut(w, d + 0x800);
  }

  // Extending the sign gives back the distance exactly when it fits.

  lemma BranchSignXor(d: bv64)
    requires BranchOk(d)
    ensures Diff(Sext(Field(d, 0x1ffe), 0x1000), d) == 0
  {
  }

  lemma BranchRange(x: bv64)
    ensures BranchOk(Sext(Field(x, 0x1ffe), 0x1000))
  {
  }

  lemma BranchSign(d: bv64)
    ensures Sext(Field(d, 0x1ffe), 0x1000) == d <==> BranchOk(d)
  {
    hide Sext, Field, Diff, BranchOk;
    BranchRange(d);
    if BranchOk(d) {
      BranchSignXor(d);
      Same(Sext(Field(d, 0x1ffe), 0x1000), d);
    }
  }

  lemma JalSignXor(d: bv64)
    requires JalFits(d)
    ensures Diff(Sext(Field(d, 0x1f_fffe), 0x10_0000), d) == 0
  {
  }

  lemma JalRange(x: bv64)
    ensures JalFits(Sext(Field(x, 0x1f_fffe), 0x10_0000))
  {
  }

  lemma JalSign(d: bv64)
    ensures Sext(Field(d, 0x1f_fffe), 0x10_0000) == d <==> JalFits(d)
  {
    hide Sext, Field, Diff, JalFits;
    JalRange(d);
    if JalFits(d) {
      JalSignXor(d);
      Same(Sext(Field(d, 0x1f_fffe), 0x10_0000), d);
    }
  }

  lemma CbSignXor(d: bv64)
    requires RvcBranchOk(d)
    ensures Diff(Sext(Field(d, 0x1fe), 0x100), d) == 0
  {
  }

  lemma CbRange(x: bv64)
    ensures RvcBranchOk(Sext(Field(x, 0x1fe), 0x100))
  {
  }

  lemma CbSign(d: bv64)
    ensures Sext(Field(d, 0x1fe), 0x100) == d <==> RvcBranchOk(d)
  {
    hide Sext, Field, Diff, RvcBranchOk;
    CbRange(d);
    if RvcBranchOk(d) {
      CbSignXor(d);
      Same(Sext(Field(d, 0x1fe), 0x100), d);
    }
  }

  lemma CjSignXor(d: bv64)
    requires RvcJumpOk(d)
    ensures Diff(Sext(Field(d, 0xffe), 0x800), d) == 0
  {
  }

  lemma CjRange(x: bv64)
    ensures RvcJumpOk(Sext(Field(x, 0xffe), 0x800))
  {
  }

  lemma CjSign(d: bv64)
    ensures Sext(Field(d, 0xffe), 0x800) == d <==> RvcJumpOk(d)
  {
    hide Sext, Field, Diff, RvcJumpOk;
    CjRange(d);
    if RvcJumpOk(d) {
      CjSignXor(d);
      Same(Sext(Field(d, 0xffe), 0x800), d);
    }
  }

  /** A patched conditional branch goes to its target exactly when no error was reported. */
  lemma BranchReaches(w: bv32, d: bv64)
    ensures BImm(BranchWord(w, d)) == d <==> BranchOk(d)
  {
    hide BRaw, BranchWord, Wide, Field, Sext, BranchOk;
    BranchBits(w, d);
    BranchSign(d);
  }

  /** A patched jal goes to its target exactly within 1 MiB. */
  lemma JalReaches(w: bv32, d: bv64)
    ensures JImm(JalWord(w, d)) == d <==> JalFits(d)
  {
    hide JRaw, JalWord, Wide, Field, Sext, JalFits;
    JalBits(w, d);
    JalSign(d);
  }

  lemma JalAccepts(d: bv64)
    ensures JalOk(d) <==> d & 1 == 0 && d + 0x20_0000 < 0x40_0000
  {
  }

  lemma JalFitRange(d: bv64)
    ensures JalFits(d) <==> d & 1 == 0 && d + 0x10_0000 < 0x20_0000
  {
  }

  lemma JalFitsOk(d: bv64)
    ensures JalFits(d) ==> JalOk(d)
  {
  }

  /** The range check of jal accepts twice what the field holds: 2 MiB both ways for 1 MiB. */
  lemma JalTooWide(d: bv64)
    ensures JalOk(d) <==> d & 1 == 0 && d + 0x20_0000 < 0x40_0000
    ensures JalFits(d) <==> d & 1 == 0 && d + 0x10_0000 < 0x20_0000
    ensures JalFits(d) ==> JalOk(d)
    ensures JalOk(0x10_0000) && !JalFits(0x10_0000)
  {
    assert JalOk(0x10_0000) && !JalFits(0x10_0000);
    hide JalOk, JalFits;
    JalAccepts(d);
    JalFitRange(d);
    JalFitsOk(d);
  }

  lemma RvcBranchReaches(h: bv32, d: bv64)
    ensures CbImm(RvcBranchWord(h, d)) == d <==> RvcBranchOk(d)
  {
    hide CbRaw, RvcBranchWord, Wide, Field, Sext, RvcBranchOk;
    CbBits(h, d);
    CbSign(d);
  }

  lemma RvcJumpReaches(h: bv32, d: bv64)
    ensures CjImm(RvcJumpWord(h, d)) == d <==> RvcJumpOk(d)
  {
    hide CjRaw, RvcJumpWord, Wide, Field, Sext, RvcJumpOk;
    CjBits(h, d);
    CjSign(d);
  }

  /** What the upper part must supply: the distance rounded to 4 KiB. */
  function Upper(d: bv64): bv64 { Field(d + 0x800, !0xfff) }

  function Plus(a: bv64, b: bv64): bv64 { a + b }

  function Minus(a: bv64, b: bv64): bv64 { a - b }

  lemma LowerXor(d: bv64)
    ensures Diff(Sext(Field(d, 0xfff), 0x800), Minus(d, Upper(d))) == 0
  {
  }

  lemma UpperSignXor(d: bv64)
    requires PairFits(d)
    ensures Diff(Sext(Field(d + 0x800, 0xffff_f000), 0x8000_0000), Upper(d)) == 0
  {
  }

  lemma UpperRange(d: bv64)
    requires Diff(Sext(Field(d + 0x800, 0xffff_f000), 0x8000_0000), Upper(d)) == 0
    ensures PairFits(d)
  {
  }

  lemma NoDiff(a: bv64)
    ensures Diff(a, a) == 0
  {
  }

  lemma UpperSign(d: bv64)
    ensures Sext(Field(d + 0x800, 0xffff_f000), 0x8000_0000) == Upper(d) <==> PairFits(d)
  {
    hide Sext, Field, PairFits, Upper, Diff;
    var u := Sext(Field(d + 0x800, 0xffff_f000), 0x8000_0000);
    if PairFits(d) {
      UpperSignXor(d);
      Same(u, Upper(d));
    } else if u == Upper(d) {
      NoDiff(u);
      UpperRange(d);
    }
  }

  lemma Undo(u: bv64, d: bv64, v: bv64)
    ensures Plus(u + (d - v), v - d) == u && Plus(d, v - d) == v && Plus(v, d - v) == d
  {
  }

  lemma Split(d: bv64, u: bv64, v: bv64)
    ensures Plus(u, Minus(d, v)) == d <==> u == v
  {
    Undo(u, d, v);
    Inline(u, d, v);
    hide Plus, Minus;
  }

  lemma Inline(u: bv64, d: bv64, v: bv64)
    ensures Plus(u, Minus(d, v)) == u + (d - v) && Minus(d, v) == d - v
  {
  }

  /** The lower part is what the upper part leaves. */
  lemma Lower(d: bv64)
    ensures Sext(Field(d, 0xfff), 0x800) == Minus(d, Upper(d))
  {
    hide Sext, Field, Upper, Diff, Minus;
    LowerXor(d);
    Same(Sext(Field(d, 0xfff), 0x800), Minus(d, Upper(d)));
  }

  /** Upper and lower part of d, read back and added, give d exactly when d is within 2 GiB. */
  lemma PairReaches(w: bv32, x: bv32, y: bv32, d: bv64)
    ensures Plus(UImm(HiWord(w, d)), IImm(LoWord(x, d))) == d <==> PairFits(d)
    ensures Plus(UImm(HiWord(w, d)), SImm(StoreWord(y, d))) == d <==> PairFits(d)
    ensures Plus(UImm(CallWord(w, d)), IImm(LoWord(x, d))) == d <==> PairFits(d)
  {
    hide URaw, IRaw, SRaw, HiWord, CallWord, LoWord, StoreWord, Wide, Field, Sext, PairFits, Plus, Minus, Upper;
    HiSame(w, d);
    CallBits(w, d);
    LoBits(x, d);
    StoreBits(y, d);
    Lower(d);
    UpperSign(d);
    Split(d, UImm(CallWord(w, d)), Upper(d));
  }

  /** The check of the upper part accepts exactly the distances from -4 GiB - 2 KiB on and below 4 GiB - 2 KiB. */
  lemma HiRange(d: bv64)
    ensures HiOk(d) <==> d + 0x1_0000_0800 < 0x2_0000_0000
  {
  }

  lemma PairRange(d: bv64)
    ensures PairFits(d) <==> d + 0x8000_0800 < 0x1_0000_0000
  {
  }

  lemma PairOk(d: bv64)
    ensures PairFits(d) ==> HiOk(d)
  {
  }

  /** That is twice what its field holds: everything that fits, and 2 GiB for one, which does not. */
  lemma HiTooWide(d: bv64)
    ensures HiOk(d) <==> d + 0x1_0000_0800 < 0x2_0000_0000
    ensures PairFits(d) <==> d + 0x8000_0800 < 0x1_0000_0000
    ensures PairFits(d) ==> HiOk(d)
    ensures HiOk(0x8000_0000) && !PairFits(0x8000_0000)
  {
    assert HiOk(0x8000_0000) && !PairFits(0x8000_0000);
    hide HiOk, PairFits;
    HiRange(d);
    PairRange(d);
    PairOk(d);
  }

  // No other bit of the instruction changes.

  /** The bits under m in which w and v differ. */
  function Changed(w: bv32, v: bv32, m: bv32): bv32 { (w ^ v) & m }

  lemma BranchKeeps(w: bv32, d: bv64)
    ensures Changed(BranchWord(w, d), w, !0xfe00_0f80) == 0 && Changed(StoreWord(w, d), w, !0xfe00_0f80) == 0
  {
  }

  lemma JalKeeps(w: bv32, d: bv64)
    ensures Changed(JalWord(w, d), w, 0xfff) == 0
  {
  }

  lemma HiKeeps(w: bv32, d: bv64)
    ensures Changed(HiWord(w, d), w, 0xfff) == 0
  {
    hide Low32, Sar12, Field;
    JoinKeeps(w, Low32(Field(Sar12(d + 0x800), 0xf_ffff)));
  }

  lemma JoinKeeps(w: bv32, f: bv32)
    ensures Changed((w & 0xfff) | (f << 12), w, 0xfff) == 0
  {
  }

  lemma CallKeeps(w: bv32, d: bv64)
    ensures Changed(CallWord(w, d), w, 0xfff) == 0
  {
  }

  lemma LoKeeps(w: bv32, d: bv64)
    ensures Changed(LoWord(w, d), w, 0xf_ffff) == 0
  {
  }

  lemma RvcBranchKeeps(h: bv32, d: bv64)
    requires h < 0x1_0000
    ensures Changed(RvcBranchWord(h, d), h, 0xe383) == 0 && RvcBranchWord(h, d) < 0x1_0000
  {
  }

  lemma RvcJumpKeeps(h: bv32, d: bv64)
    requires h < 0x1_0000
    ensures Changed(RvcJumpWord(h, d), h, 0xe003) == 0 && RvcJumpWord(h, d) < 0x1_0000
  {
  }
}
