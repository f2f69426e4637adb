/** Relocating RISC-V code: a run of relocations over the bytes of a section, with the pairing of upper and lower
  * parts. */
module RiscvLink {
  import opened LittleEndian
  import opened RiscvBits

  /** The relocations of this model. */
  datatype Kind = Branch | Jal | Call | PcrelHi20 | GotHi20 | Lo12I | Lo12S | RvcBranch | RvcJump

  /** One relocation of the bytes at p, which will be at addr, against val; for GotHi20 val is the GOT slot. */
  datatype Reloc = Reloc(kind: Kind, p: nat, addr: bv64, val: bv64)

  function Size(k: Kind): nat {
    match k
    case Call => 8
    case RvcBranch => 2
    case RvcJump => 2
    case _ => 4
  }

  predicate IsHi(k: Kind) { k.PcrelHi20? || k.GotHi20? }

  predicate IsLo(k: Kind) { k.Lo12I? || k.Lo12S? }

  function Distance(r: Reloc): bv64 { Minus(r.val, r.addr) }

  /** The section and the last upper part seen. */
  datatype State = State(data: Data, hiAddr: bv64, hiVal: bv64)

  predicate Inside(r: Reloc, n: nat) { r.p + Size(r.kind) <= n }

  /** No error is reported. */
  predicate Accepted(s: State, r: Reloc) {
    match r.kind
    case Branch => BranchOk(Distance(r))
    case Jal => JalOk(Distance(r))
    case Call => true
    case PcrelHi20 => HiOk(Distance(r))
    case GotHi20 => HiOk(Distance(r))
    case Lo12I => r.val == s.hiAddr
    case Lo12S => r.val == s.hiAddr
    case RvcBranch => RvcBranchOk(Distance(r))
    case RvcJump => RvcJumpOk(Distance(r))
  }

  /** The new word, or the first one of a call, for distance d. */
  function Patch(k: Kind, w: bv32, d: bv64): bv32 {
    match k
    case Branch => BranchWord(w, d)
    case Jal => JalWord(w, d)
    case Call => CallWord(w, d)
    case PcrelHi20 => HiWord(w, d)
    case GotHi20 => HiWord(w, d)
    case Lo12I => LoWord(w, d)
    case Lo12S => StoreWord(w, d)
    case RvcBranch => RvcBranchWord(w, d)
    case RvcJump => RvcJumpWord(w, d)
  }

  function NewData(d: Data, k: Kind, p: nat, distance: bv64): (r: Data)
    requires p + Size(k) <= |d|
    ensures |r| == |d|
  {
    if Size(k) == 2 then Write16(d, p, Patch(k, Read16(d, p), distance))
    else
      var one := Write32(d, p, Patch(k, Read32(d, p), distance));
      if k.Call? then Write32(one, p + 4, LoWord(Read32(one, p + 4), distance)) else one
  }

  /** The distance a relocation is patched with: the lower parts take that of the last upper part. */
  function Used(s: State, r: Reloc): bv64 {
    if IsLo(r.kind) then Minus(s.hiVal, s.hiAddr) else Distance(r)
  }

  /** The state after a relocation; where an error is reported the word is patched all the same. */
  function Apply(s: State, r: Reloc): (t: State)
    requires Inside(r, |s.data|)
    ensures |t.data| == |s.data|
  {
    var data := NewData(s.data, r.kind, r.p, Used(s, r));
    if IsHi(r.kind) then State(data, r.addr, r.val) else State(data, s.hiAddr, s.hiVal)
  }

  class Linker {
    const data: array<bv8>
    var hiAddr: bv64
    var hiVal: bv64
    var errors: nat

    constructor (data: array<bv8>)
      ensures this.data == data && errors == 0 && hiAddr == 0 && hiVal == 0
    {
      this.data := data;
      hiAddr, hiVal, errors := 0, 0, 0;
    }

    ghost function Contents(): State
      reads this, data
    {
      State(data[..], hiAddr, hiVal)
    }

    /** The error reports of all the cases. */
    method Check(r: Reloc)
      modifies this`errors
      ensures errors == old(errors) + if Accepted(Contents(), r) then 0 else 1
    {
      hide Distance, BranchOk, JalOk, HiOk, RvcBranchOk, RvcJumpOk;
      var off := Distance(r);
      var ok := true;
      match r.kind {
        case Branch => ok := BranchOk(off);
        case Jal => ok := JalOk(off);
        case Call =>
        case PcrelHi20 | GotHi20 => ok := HiOk(off);
        case Lo12I | Lo12S => ok := r.val == hiAddr;
        case RvcBranch => ok := RvcBranchOk(off);
        case RvcJump => ok := RvcJumpOk(off);
      }
      if !ok {
        errors := errors + 1;
      }
    }

    method Relocate(r: Reloc)
      requires Inside(r, data.Length)
      modifies this, data
      ensures Contents() == Apply(old(Contents()), r)
      ensures errors == old(errors) + if Accepted(old(Contents()), r) then 0 else 1
    {
      hide Read32, Read16, Write32, Write16, Distance, Minus, BranchWord, JalWord, CallWord, HiWord, LoWord, StoreWord,
        RvcBranchWord, RvcJumpWord, Accepted;
      Check(r);
      var p, off := r.p, Distance(r);
      match r.kind {
        case Branch => Write32le(data, p, BranchWord(Read32(data[..], p), off));
        case Jal => Write32le(data, p, JalWord(Read32(data[..], p), off));
        case Call =>
          Write32le(data, p, CallWord(Read32(data[..], p), off));
          Write32le(data, p + 4, LoWord(Read32(data[..], p + 4), off));
        case PcrelHi20 | GotHi20 =>
          Write32le(data, p, HiWord(Read32(data[..], p), off));
          hiAddr := r.addr;
          hiVal := r.val;
        case Lo12I => Write32le(data, p, LoWord(Read32(data[..], p), Minus(hiVal, hiAddr)));
        case Lo12S => Write32le(data, p, StoreWord(Read32(data[..], p), Minus(hiVal, hiAddr)));
        case RvcBranch => Write16le(data, p, RvcBranchWord(Read16(data[..], p), off));
        case RvcJump => Write16le(data, p, RvcJumpWord(Read16(data[..], p), off));
      }
    }
  }

  /** The loop over the relocations of a section. */
  method RelocateAll(linker: Linker, rs: seq<Reloc>)
    requires forall i :: 0 <= i < |rs| ==> Inside(rs[i], linker.data.Length)
    modifies linker, linker.data
    ensures linker.Contents() == Run(old(linker.Contents()), rs)
    ensures linker.errors == old(linker.errors) + Rejected(old(linker.Contents()), rs)
  {
    hide Run, Apply, Accepted, Rejected;
    ghost var s := linker.Contents();
    NoRelocs(s);
    assert rs[..0] == [];
    var i := 0;
    while i < |rs|
      invariant 0 <= i <= |rs| && linker.Contents() == Run(s, rs[..i])
      invariant linker.errors == old(linker.errors) + Rejected(s, rs[..i])
    {
      RunNext(s, rs, i);
      RejectedNext(s, rs, i);
      linker.Relocate(rs[i]);
      i := i + 1;
    }
    assert rs[..i] == rs;
  }

  /** All inside n bytes, and no two relocations on a common byte. */
  ghost predicate Disjoint(rs: seq<Reloc>, n: nat) {
    && (forall i :: 0 <= i < |rs| ==> Inside(rs[i], n))
    && (forall i, j :: 0 <= i < |rs| && 0 <= j < |rs| && i != j ==> Apart(rs[i], rs[j]))
  }

  predicate Apart(a: Reloc, b: Reloc) {
    a.p + Size(a.kind) <= b.p || b.p + Size(b.kind) <= a.p
  }

  /** The state after a list of relocations. */
  ghost function Run(s: State, rs: seq<Reloc>): (t: State)
    requires forall i :: 0 <= i < |rs| ==> Inside(rs[i], |s.data|)
    ensures |t.data| == |s.data|
  {
    if rs == [] then s else
      var last := |rs| - 1;
      Apply(Run(s, rs[..last]), rs[last])
  }

  lemma RunNext(s: State, rs: seq<Reloc>, i: nat)
    requires i < |rs| && forall j :: 0 <= j < |rs| ==> Inside(rs[j], |s.data|)
    ensures Run(s, rs[..i + 1]) == Apply(Run(s, rs[..i]), rs[i])
  {
    assert rs[..i + 1][..i] == rs[..i];
  }

  /** Bytes that no relocation between i and j covers stay as they are. */
  lemma {:induction false} Untouched(s: State, rs: seq<Reloc>, i: nat, j: nat, b: nat)
    requires i <= j <= |rs| && b < |s.data| && (forall k :: 0 <= k < |rs| ==> Inside(rs[k], |s.data|))
    requires forall k :: i <= k < j ==> !(rs[k].p <= b < rs[k].p + Size(rs[k].kind))
    ensures Run(s, rs[..j]).data[b] == Run(s, rs[..i]).data[b]
    decreases j
  {
    hide Apply, Run;
    if i < j {
      RunNext(s, rs, j - 1);
      ApplyElsewhere(Run(s, rs[..j - 1]), rs[j - 1], b);
      Untouched(s, rs, i, j - 1, b);
    }
  }

  lemma ApplyElsewhere(s: State, r: Reloc, b: nat)
    requires Inside(r, |s.data|) && b < |s.data| && !(r.p <= b < r.p + Size(r.kind))
    ensures Apply(s, r).data[b] == s.data[b]
  {
    hide Patch, Used, Read32, Read16, Byte0, Byte1, Byte2, Byte3;
  }

  /** What the patched words are. */
  lemma NewWords(d: Data, k: Kind, p: nat, distance: bv64)
    requires p + Size(k) <= |d|
    ensures var n := NewData(d, k, p, distance);
      if Size(k) == 2 then Read16(n, p) == Patch(k, Read16(d, p), distance)
      else
        Read32(n, p) == Patch(k, Read32(d, p), distance) &&
        (k.Call? ==> Read32(n, p + 4) == LoWord(Read32(d, p + 4), distance))
  {
    hide Read16, Read32, Write16, Write32, BranchWord, JalWord, CallWord, HiWord, LoWord, StoreWord, RvcBranchWord,
      RvcJumpWord;
    if Size(k) == 2 {
      HalfBelow(d, p);
      RvcBranchKeeps(Read16(d, p), distance);
      RvcJumpKeeps(Read16(d, p), distance);
      ReadBack16(d, p, Patch(k, Read16(d, p), distance));
    } else {
      var w := Patch(k, Read32(d, p), distance);
      ReadBack(d, p, w);
      if k.Call? {
        var one := Write32(d, p, w);
        var x := LoWord(Read32(one, p + 4), distance);
        WrittenElsewhere(d, p, w, p + 4);
        ReadBack(one, p + 4, x);
        WrittenElsewhere(one, p + 4, x, p);
      }
    }
  }

  lemma FinalByte(s: State, rs: seq<Reloc>, j: nat, b: nat)
    requires j < |rs| && Disjoint(rs, |s.data|) && rs[j].p <= b < rs[j].p + Size(rs[j].kind)
    ensures b < |s.data| && Run(s, rs[..j]).data[b] == s.data[b] && Run(s, rs).data[b] == Run(s, rs[..j + 1]).data[b]
  {
    hide Run;
    assert rs[..|rs|] == rs && rs[..0] == [];
    NoRelocs(s);
    forall k | 0 <= k < |rs| && k != j
      ensures !(rs[k].p <= b < rs[k].p + Size(rs[k].kind))
    {
      assert Apart(rs[k], rs[j]);
    }
    Untouched(s, rs, 0, j, b);
    Untouched(s, rs, j + 1, |rs|, b);
  }

  /** Relocation j finds its bytes as they were, and what it leaves there stays to the end. */
  lemma FinalBytes(s: State, rs: seq<Reloc>, j: nat)
    requires j < |rs| && Disjoint(rs, |s.data|)
    ensures var r := rs[j]; var before, after := Run(s, rs[..j]), Run(s, rs);
      Inside(r, |s.data|) && SameBytes(before.data, s.data, r.p, Size(r.kind)) &&
      SameBytes(after.data, Apply(before, r).data, r.p, Size(r.kind))
  {
    var r := rs[j];
    hide Run, Apply, Size;
    RunNext(s, rs, j);
    forall b: nat | r.p <= b < r.p + Size(r.kind)
      ensures Run(s, rs[..j]).data[b] == s.data[b] && Run(s, rs).data[b] == Run(s, rs[..j + 1]).data[b]
    {
      FinalByte(s, rs, j, b);
    }
  }

  lemma NoRelocs(s: State)
    ensures Run(s, []) == s && Rejected(s, []) == 0
  {
  }

  /** The final words of relocation j. */
  lemma FinalWords(s: State, rs: seq<Reloc>, j: nat)
    requires j < |rs| && Disjoint(rs, |s.data|)
    ensures var r, d, e := rs[j], s.data, Run(s, rs).data;
      var used := Used(Run(s, rs[..j]), r);
      Inside(r, |d|) &&
      if Size(r.kind) == 2 then Read16(e, r.p) == Patch(r.kind, Read16(d, r.p), used)
      else
        Read32(e, r.p) == Patch(r.kind, Read32(d, r.p), used) &&
        (r.kind.Call? ==> Read32(e, r.p + 4) == LoWord(Read32(d, r.p + 4), used))
  {
    hide Run, Read16, Read32, NewData, Patch, Used, SameBytes;
    FinalBytes(s, rs, j);
    var r, before := rs[j], Run(s, rs[..j]);
    SameWords(before.data, s.data, r.p, Size(r.kind));
    SameWords(Run(s, rs).data, Apply(before, r).data, r.p, Size(r.kind));
    NewWords(before.data, r.kind, r.p, Used(before, r));
  }

  /** How far the patched jump or call at r goes. */
  function Reach(d: Data, r: Reloc): bv64
    requires Inside(r, |d|)
  {
    match r.kind
    case Branch => BImm(Read32(d, r.p))
    case Jal => JImm(Read32(d, r.p))
    case Call => Plus(UImm(Read32(d, r.p)), IImm(Read32(d, r.p + 4)))
    case RvcBranch => CbImm(Read16(d, r.p))
    case RvcJump => CjImm(Read16(d, r.p))
    case _ => 0
  }

  predicate IsJump(k: Kind) { !IsHi(k) && !IsLo(k) }

  /** The distances a jump or call can be made to go. */
  predicate Fits(k: Kind, d: bv64) {
    match k
    case Branch => BranchOk(d)
    case Jal => JalFits(d)
    case Call => PairFits(d)
    case RvcBranch => RvcBranchOk(d)
    case RvcJump => RvcJumpOk(d)
    case _ => true
  }

  /** After any run, a relocated jump goes to its target exactly if its distance fits. */
  lemma JumpReaches(s: State, rs: seq<Reloc>, j: nat)
    requires j < |rs| && Disjoint(rs, |s.data|) && IsJump(rs[j].kind)
    ensures Inside(rs[j], |s.data|)
    ensures Reach(Run(s, rs).data, rs[j]) == Distance(rs[j]) <==> Fits(rs[j].kind, Distance(rs[j]))
  {
    hide Run, Read16, Read32, BImm, JImm, UImm, IImm, CbImm, CjImm, Plus, BranchWord, JalWord, CallWord, LoWord,
      RvcBranchWord, RvcJumpWord, BranchOk, JalFits, PairFits, RvcBranchOk, RvcJumpOk, Distance;
    FinalWords(s, rs, j);
    var r, d := rs[j], Distance(rs[j]);
    if Size(r.kind) == 2 {
      RvcBranchReaches(Read16(s.data, r.p), d);
      RvcJumpReaches(Read16(s.data, r.p), d);
    } else {
      var w := Read32(s.data, r.p);
      BranchReaches(w, d);
      JalReaches(w, d);
      if r.kind.Call? {
        PairReaches(w, Read32(s.data, r.p + 4), 0, d);
      }
    }
  }

  lemma JalFitsOk(d: bv64)
    ensures JalFits(d) ==> JalOk(d)
  {
    JalTooWide(d);
    hide JalFits, JalOk;
  }

  lemma PairFitsOk(d: bv64)
    ensures PairFits(d) ==> HiOk(d)
  {
    HiTooWide(d);
    hide PairFits, HiOk;
  }

  /** After any run, a branch or compressed jump goes to its target exactly if no error was reported for it; a jal
    * that goes to its target was accepted. */
  lemma AcceptedReaches(s: State, rs: seq<Reloc>, j: nat)
    requires j < |rs| && Disjoint(rs, |s.data|)
    ensures Inside(rs[j], |s.data|)
    ensures rs[j].kind in {Branch, RvcBranch, RvcJump} ==>
      (Accepted(Run(s, rs[..j]), rs[j]) <==> Reach(Run(s, rs).data, rs[j]) == Distance(rs[j]))
    ensures rs[j].kind.Jal? && Reach(Run(s, rs).data, rs[j]) == Distance(rs[j]) ==> Accepted(Run(s, rs[..j]), rs[j])
  {
    if IsJump(rs[j].kind) {
      JumpReaches(s, rs, j);
      JalFitsOk(Distance(rs[j]));
    }
    hide Run, Reach, Distance, BranchOk, JalOk, JalFits, PairFits, RvcBranchOk, RvcJumpOk;
  }

  /** The distances for which no error is reported where the field is narrower than the check: jal within 2 MiB, an
    * upper part within 4 GiB, a call always. */
  lemma AcceptedRange(s: State, r: Reloc)
    ensures r.kind.Jal? ==> (Accepted(s, r) <==> Distance(r) & 1 == 0 && Distance(r) + 0x20_0000 < 0x40_0000)
    ensures IsHi(r.kind) ==> (Accepted(s, r) <==> Distance(r) + 0x1_0000_0800 < 0x2_0000_0000)
    ensures r.kind.Call? ==> Accepted(s, r)
  {
    hide *;
    AcceptedIs(s, r);
    JalTooWide(Distance(r));
    HiTooWide(Distance(r));
  }

  lemma AcceptedIs(s: State, r: Reloc)
    ensures r.kind.Jal? ==> (Accepted(s, r) <==> JalOk(Distance(r)))
    ensures IsHi(r.kind) ==> (Accepted(s, r) <==> HiOk(Distance(r)))
    ensures r.kind.Call? ==> Accepted(s, r)
  {
    hide Distance, JalOk, HiOk;
  }

  /** How many relocations an error is reported for. */
  ghost function Rejected(s: State, rs: seq<Reloc>): nat
    requires forall i :: 0 <= i < |rs| ==> Inside(rs[i], |s.data|)
  {
    if rs == [] then 0
    else
      var last := |rs| - 1;
      Rejected(s, rs[..last]) + if Accepted(Run(s, rs[..last]), rs[last]) then 0 else 1
  }

  lemma RejectedNext(s: State, rs: seq<Reloc>, i: nat)
    requires i < |rs| && forall j :: 0 <= j < |rs| ==> Inside(rs[j], |s.data|)
    ensures Rejected(s, rs[..i + 1]) == Rejected(s, rs[..i]) + if Accepted(Run(s, rs[..i]), rs[i]) then 0 else 1
  {
    hide Accepted, Run;
    assert rs[..i + 1][..i] == rs[..i];
  }

  lemma {:induction false} NoneRejected(s: State, rs: seq<Reloc>, j: nat)
    requires j < |rs| && (forall i :: 0 <= i < |rs| ==> Inside(rs[i], |s.data|)) && Rejected(s, rs) == 0
    ensures Accepted(Run(s, rs[..j]), rs[j])
    decreases |rs|
  {
    hide Accepted, Run;
    var last := |rs| - 1;
    if j < last {
      assert rs[..last][..j] == rs[..j];
      NoneRejected(s, rs[..last], j);
    }
  }

  /** A run without an error: every branch and compressed jump goes to its target, and every lower part belongs to the
    * last upper part before it. */
  lemma CleanRun(s: State, rs: seq<Reloc>)
    requires Disjoint(rs, |s.data|) && Rejected(s, rs) == 0
    ensures forall j :: 0 <= j < |rs| && rs[j].kind in {Branch, RvcBranch, RvcJump} ==>
      Reach(Run(s, rs).data, rs[j]) == Distance(rs[j])
    ensures forall h, i :: LastHi(rs, h, i) ==> rs[i].val == rs[h].addr
  {
    hide Run, Reach, Distance, Accepted, Rejected;
    forall j | 0 <= j < |rs| && rs[j].kind in {Branch, RvcBranch, RvcJump}
      ensures Reach(Run(s, rs).data, rs[j]) == Distance(rs[j])
    {
      NoneRejected(s, rs, j);
      AcceptedReaches(s, rs, j);
    }
    forall h, i | LastHi(rs, h, i)
      ensures rs[i].val == rs[h].addr
    {
      NoneRejected(s, rs, i);
      PairsReach(s, rs, h, i);
    }
  }

  /** Relocation i is a lower part, and h is the last upper part before it. */
  ghost predicate LastHi(rs: seq<Reloc>, h: int, i: int) {
    0 <= h < i < |rs| && IsHi(rs[h].kind) && IsLo(rs[i].kind) && forall k :: h < k < i ==> !IsHi(rs[k].kind)
  }

  /** An upper part that reaches its target with a lower part was accepted. */
  lemma ReachedHiAccepted(s: State, rs: seq<Reloc>, h: nat, i: nat)
    requires LastHi(rs, h, i) && Disjoint(rs, |s.data|)
    ensures Inside(rs[h], |s.data|) && Inside(rs[i], |s.data|)
    ensures var d := Run(s, rs).data;
      Plus(UImm(Read32(d, rs[h].p)), LowPart(d, rs[i])) == Distance(rs[h]) ==> Accepted(Run(s, rs[..h]), rs[h])
  {
    PairsReach(s, rs, h, i);
    PairFitsOk(Distance(rs[h]));
    hide Run, Read32, LowPart, UImm, Plus, PairFits, HiOk, Distance;
  }

  /** The last upper part is remembered until the next one. */
  lemma {:induction false} HiStays(s: State, rs: seq<Reloc>, h: nat, i: nat)
    requires h < i <= |rs| && (forall k :: 0 <= k < |rs| ==> Inside(rs[k], |s.data|))
    requires IsHi(rs[h].kind) && forall k :: h < k < i ==> !IsHi(rs[k].kind)
    ensures var t := Run(s, rs[..i]); t.hiAddr == rs[h].addr && t.hiVal == rs[h].val
    decreases i
  {
    hide Run, NewData, Used;
    RunNext(s, rs, i - 1);
    if h < i - 1 {
      HiStays(s, rs, h, i - 1);
    }
  }

  /** What the lower part at r adds. */
  function LowPart(d: Data, r: Reloc): bv64
    requires Inside(r, |d|) && IsLo(r.kind)
  {
    if r.kind.Lo12I? then IImm(Read32(d, r.p)) else SImm(Read32(d, r.p))
  }

  /** A lower part without an error belongs to the last upper part before it, and in the end the two reach that part's
    * target exactly within 2 GiB. */
  lemma PairsReach(s: State, rs: seq<Reloc>, h: nat, i: nat)
    requires h < i < |rs| && Disjoint(rs, |s.data|)
    requires IsHi(rs[h].kind) && IsLo(rs[i].kind) && forall k :: h < k < i ==> !IsHi(rs[k].kind)
    ensures Inside(rs[h], |s.data|) && Inside(rs[i], |s.data|)
    ensures Accepted(Run(s, rs[..i]), rs[i]) <==> rs[i].val == rs[h].addr
    ensures var d := Run(s, rs).data;
      Plus(UImm(Read32(d, rs[h].p)), LowPart(d, rs[i])) == Distance(rs[h]) <==> PairFits(Distance(rs[h]))
  {
    hide Run, Read16, Read32, UImm, IImm, SImm, Plus, HiWord, LoWord, StoreWord, PairFits, Minus;
    HiStays(s, rs, h, i);
    FinalWords(s, rs, h);
    FinalWords(s, rs, i);
    var d, w := Distance(rs[h]), Read32(s.data, rs[i].p);
    PairReaches(Read32(s.data, rs[h].p), w, w, d);
  }

  /** The bits of an instruction that hold no immediate. */
  function OtherBits(k: Kind): bv32 {
    match k
    case Branch => !0xfe00_0f80
    case Lo12S => !0xfe00_0f80
    case Lo12I => 0xf_ffff
    case RvcBranch => 0xe383
    case RvcJump => 0xe003
    case _ => 0xfff
  }

  lemma PatchKeeps(k: Kind, w: bv32, d: bv64)
    requires Size(k) == 2 ==> w < 0x1_0000
    ensures Changed(Patch(k, w, d), w, OtherBits(k)) == 0
  {
    hide BranchWord, JalWord, CallWord, HiWord, LoWord, StoreWord, RvcBranchWord, RvcJumpWord, Changed;
    match k {
      case Branch | Lo12S => BranchKeeps(w, d);
      case Jal => JalKeeps(w, d);
      case Call => CallKeeps(w, d);
      case PcrelHi20 | GotHi20 => HiKeeps(w, d);
      case Lo12I => LoKeeps(w, d);
      case RvcBranch => RvcBranchKeeps(w, d);
      case RvcJump => RvcJumpKeeps(w, d);
    }
  }

  /** Only immediates change in a relocated word, and in the second word of a call. */
  lemma OnlyImmediates(s: State, rs: seq<Reloc>, j: nat)
    requires j < |rs| && Disjoint(rs, |s.data|)
    ensures var r, d, e := rs[j], s.data, Run(s, rs).data;
      Inside(r, |d|) && (if Size(r.kind) == 2 then Changed(Read16(e, r.p), Read16(d, r.p), OtherBits(r.kind)) == 0
                         else Changed(Read32(e, r.p), Read32(d, r.p), OtherBits(r.kind)) == 0)
    ensures var r, d, e := rs[j], s.data, Run(s, rs).data;
      r.kind.Call? ==> r.p + 8 <= |d| && Changed(Read32(e, r.p + 4), Read32(d, r.p + 4), 0xf_ffff) == 0
  {
    hide Run, Read16, Read32, Patch, OtherBits, Used, LoWord, Changed;
    FinalWords(s, rs, j);
    var r, before := rs[j], Run(s, rs[..j]);
    if Size(r.kind) == 2 {
      HalfBelow(s.data, r.p);
      PatchKeeps(r.kind, Read16(s.data, r.p), Used(before, r));
    } else {
      PatchKeeps(r.kind, Read32(s.data, r.p), Used(before, r));
    }
    if r.kind.Call? {
      LoKeeps(Read32(s.data, r.p + 4), Used(before, r));
    }
  }

  /** A byte that no relocation covers does not change. */
  lemma OtherBytes(s: State, rs: seq<Reloc>, b: nat)
    requires Disjoint(rs, |s.data|) && b < |s.data|
    requires forall k :: 0 <= k < |rs| ==> !(rs[k].p <= b < rs[k].p + Size(rs[k].kind))
    ensures Run(s, rs).data[b] == s.data[b]
  {
    hide Run;
    assert rs[..|rs|] == rs && rs[..0] == [];
    NoRelocs(s);
    Untouched(s, rs, 0, |rs|, b);
  }
}
