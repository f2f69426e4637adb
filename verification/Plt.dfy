/** The procedure linkage table: entries are created with their GOT offset and later overwritten by code that reads
  * that slot. */
module Plt {
  import opened Binary
  import opened LittleEndian
  import opened RiscvBits
  import opened PltBits
  import opened A32Machine
  import opened PltRun
  import ArmRun = PltRunArm

  datatype Target = Riscv | A64 | Arm

  /** The size of the first entry, which resolves a symbol. */
  function Header(t: Target): nat { if t.Arm? then 20 else 32 }

  /** Where entry k starts. */
  function At(t: Target, k: nat): nat { Header(t) + 16 * k }

  function Bv64(n: nat): bv64
    requires n < 0x8000_0000
  {
    n as bv64
  }

  function Bv32(n: nat): bv32
    requires n < 0x8000_0000
  {
    n as bv32
  }

  /** The words of an entry before relocation. */
  predicate Stored(t: Target, d: Data, p: nat, o: bv32)
    requires p + 16 <= |d|
  {
    if t.Arm? then Read32(d, p) == 0 && Read32(d, p + 4) == o else Read32(d, p) == o && Read32(d, p + 4) == 0
  }

  /** The four words at p. */
  function Words4(d: Data, p: nat): seq<bv32>
    requires p + 16 <= |d|
  {
    [Read32(d, p), Read32(d, p + 4), Read32(d, p + 8), Read32(d, p + 12)]
  }

  /** The code of the first entry on ARM; its fifth word is the distance from itself to the GOT. */
  predicate ArmHeader(d: Data) {
    |d| >= 20 && HasWords(d, 0, ArmRun.PUSH_LR, ArmRun.LDR_LR, ArmRun.ADD_LR, ArmRun.LDR_PC)
  }

  predicate ArmHeaderDone(d: Data, plt: bv32, got: bv32) {
    ArmHeader(d) && Read32(d, 16) == got - plt - 12 - 4
  }

  predicate HasWords(d: Data, p: nat, w0: bv32, w1: bv32, w2: bv32, w3: bv32)
    requires p + 16 <= |d|
  {
    Read32(d, p) == w0 && Read32(d, p + 4) == w1 && Read32(d, p + 8) == w2 && Read32(d, p + 12) == w3
  }

  /** Sixteen bytes that are the same hold the same words. */
  lemma SameEntry(d: Data, e: Data, p: nat)
    requires SameBytes(d, e, p, 16)
    ensures Read32(d, p) == Read32(e, p) && Read32(d, p + 4) == Read32(e, p + 4)
    ensures Read32(d, p + 8) == Read32(e, p + 8) && Read32(d, p + 12) == Read32(e, p + 12)
  {
    SameWords(d, e, p, 8);
    SameWords(d, e, p + 8, 8);
  }

  function Zeros(n: nat): (z: Data)
    ensures |z| == n && forall i :: 0 <= i < n ==> z[i] == 0
  {
    seq(n, i => 0)
  }

  lemma ZeroWord(d: Data, p: nat)
    requires p + 4 <= |d| && forall i :: p <= i < p + 4 ==> d[i] == 0
    ensures Read32(d, p) == 0
  {
  }

  class PltSection {
    const target: Target
    var data: Data
    ghost var offs: seq<bv32>

    /** Every entry still holds its GOT offset. */
    ghost predicate Valid()
      reads this
    {
      && |data| == (if offs == [] then 0 else At(target, |offs|))
      && (forall k :: 0 <= k < |offs| ==> Stored(target, data, At(target, k), offs[k]))
      && (target.Arm? && offs != [] ==> ArmHeader(data))
    }

    constructor (target: Target)
      ensures Valid() && this.target == target && offs == []
    {
      this.target := target;
      data, offs := [], [];
    }

    method Write(p: nat, w: bv32)
      requires p + 4 <= |data|
      modifies this`data
      ensures data == Write32(old(data), p, w)
    {
      data := data[p := Byte0(w)][p + 1 := Byte1(w)][p + 2 := Byte2(w)][p + 3 := Byte3(w)];
    }

    /** Four words at p; nothing else changes. */
    method WriteEntry(p: nat, w0: bv32, w1: bv32, w2: bv32, w3: bv32)
      requires p + 16 <= |data|
      modifies this`data
      ensures |data| == |old(data)| && HasWords(data, p, w0, w1, w2, w3)
      ensures forall i :: 0 <= i < |data| && !(p <= i < p + 16) ==> data[i] == old(data)[i]
    {
      hide Read32, Write32;
      ghost var d0 := data;
      Write(p, w0);
      ghost var d1 := data;
      Write(p + 4, w1);
      ghost var d2 := data;
      Write(p + 8, w2);
      ghost var d3 := data;
      Write(p + 12, w3);
      ReadBack(d0, p, w0);
      ReadBack(d1, p + 4, w1);
      ReadBack(d2, p + 8, w2);
      ReadBack(d3, p + 12, w3);
      WrittenElsewhere(d1, p + 4, w1, p);
      WrittenElsewhere(d2, p + 8, w2, p);
      WrittenElsewhere(d2, p + 8, w2, p + 4);
      WrittenElsewhere(d3, p + 12, w3, p);
      WrittenElsewhere(d3, p + 12, w3, p + 4);
      WrittenElsewhere(d3, p + 12, w3, p + 8);
      FourFrame(d0, p, w0, w1, w2, w3);
    }

    /** A new entry with its GOT offset; the first one comes after the header. */
    method CreatePltEntry(gotOffset: bv32) returns (pltOffset: nat)
      requires Valid()
      modifies this
      ensures Valid() && offs == old(offs) + [gotOffset] && pltOffset == At(target, |old(offs)|)
    {
      hide Read32, Write32;
      assert target.Arm? && |data| != 0 ==> ArmHeader(data);
      ghost var d0 := data;
      if |data| == 0 {
        data := data + Zeros(Header(target));
        if target.Arm? {
          // push {lr}; ldr lr, [pc, #4]; add lr, pc, lr; ldr pc, [lr, #8]!
          WriteEntry(0, 0xe52d_e004, 0xe59f_e004, 0xe08f_e00e, 0xe5be_f008);
        }
      }
      pltOffset := |data|;
      ghost var d1 := data;
      data := data + Zeros(16);
      ghost var d2 := data;
      if target.Arm? {
        ArmHeaderAppend(d1, Zeros(16));
      }
      if target.Arm? {
        Write(pltOffset + 4, gotOffset);
        ReadBack(d2, pltOffset + 4, gotOffset);
        ZeroWord(d2, pltOffset);
        WrittenElsewhere(d2, pltOffset + 4, gotOffset, pltOffset);
        WriteFrame(d2, pltOffset + 4, gotOffset);
        ArmHeaderStays(d2, data);
      } else {
        Write(pltOffset, gotOffset);
        ReadBack(d2, pltOffset, gotOffset);
        ZeroWord(d2, pltOffset + 4);
        WrittenElsewhere(d2, pltOffset, gotOffset, pltOffset + 4);
      }
      if offs != [] {
        WriteFrame(d2, if target.Arm? then pltOffset + 4 else pltOffset, gotOffset);
        forall k | 0 <= k < |offs|
          ensures Stored(target, data, At(target, k), offs[k])
        {
          StoredStays(target, d0, data, At(target, k), offs[k]);
        }
      }
      offs := offs + [gotOffset];
    }

    /** The header of the RISC-V table; the entries stay as they are. */
    method RiscvHeaderWords(plt: bv64, got: bv64)
      requires target == Riscv && |data| == At(target, |offs|)
      requires forall k :: 0 <= k < |offs| ==> Stored(target, data, At(target, k), offs[k])
      modifies this`data
      ensures |data| == |old(data)| && RiscvHeaderDone(data, plt, got)
      ensures forall k :: 0 <= k < |offs| ==> Stored(target, data, At(target, k), offs[k])
    {
      hide Read32, Stored, Minus, RiscvHeaderDone;
      var off := Minus(got, plt);
      ghost var d := data;
      WriteEntry(0, Header0(off), 0x41c3_0333, Header2(off), 0xfd43_0313);
      ghost var d1 := data;
      WriteEntry(16, Header4(off), 0x0013_5313, 0x0082_b283, 0x000e_0067);
      HeaderWritten(target, d, data, offs);
      FirstWordsKept(d1, data);
      RiscvHeaderWritten(data, plt, got);
    }

    /** The header of the AArch64 table; the entries stay as they are. */
    method A64HeaderWords(plt: bv64, got0: bv64)
      requires target == A64 && |data| == At(target, |offs|)
      requires forall k :: 0 <= k < |offs| ==> Stored(target, data, At(target, k), offs[k])
      modifies this`data
      ensures |data| == |old(data)| && A64HeaderDone(data, plt, got0)
      ensures forall k :: 0 <= k < |offs| ==> Stored(target, data, At(target, k), offs[k])
    {
      hide Read32, Stored, Pages, Plus, AdrpWord, LdrWord, AddWord, A64HeaderDone;
      var got := Plus(got0, 16);
      var off := Pages(got, plt);
      ghost var d := data;
      WriteEntry(0, 0xa9bf_7bf0, AdrpWord(off), LdrWord(got), AddWord(got));
      ghost var d1 := data;
      WriteEntry(16, 0xd61f_0220, 0xd503_201f, 0xd503_201f, 0xd503_201f);
      HeaderWritten(target, d, data, offs);
      FirstWordsKept(d1, data);
      A64HeaderRuns(data, plt, got0);
    }

    /** RISC-V: the header, then every entry; ok means that no range error was reported. */
    method RelocateRiscv(plt: bv64, got: bv64) returns (ok: bool)
      requires target == Riscv && Valid() && |data| < 0x8000_0000
      modifies this`data
      ensures |data| == |old(data)| && (offs != [] ==> RiscvHeaderDone(data, plt, got))
      ensures forall k :: 0 <= k < |offs| ==> RiscvDone(data, At(target, k), plt, got, offs[k])
      ensures ok <==>
        offs == [] || (RiscvOk(Minus(got, plt)) && forall k :: 0 <= k < |offs| ==>
          RiscvOk(RiscvDistance(At(target, k), plt, got, offs[k])))
    {
      hide Read32, Stored, RiscvDone, RiscvOk, Minus, Plus, Wide, Bv64, RiscvUpper, RiscvLower, RiscvDistance,
        SameBytes, RiscvHeaderDone, HasWords;
      ok := true;
      if |data| != 0 {
        var off := Minus(got, plt);
        if !RiscvOk(off) {
          ok := false;
        }
        RiscvHeaderWords(plt, got);
        var p: nat := 32;
        ghost var i: nat := 0;
        while p < |data|
          invariant i <= |offs| && p == At(target, i) && |data| == At(target, |offs|) == |old(data)|
          invariant RiscvHeaderDone(data, plt, got)
          invariant forall k :: i <= k < |offs| ==> Stored(target, data, At(target, k), offs[k])
          invariant forall k :: 0 <= k < i ==> RiscvDone(data, At(target, k), plt, got, offs[k])
          invariant ok <==>
            RiscvOk(off) && forall k :: 0 <= k < i ==> RiscvOk(RiscvDistance(At(target, k), plt, got, offs[k]))
        {
          StoredIs(target, data, p, offs[i]);
          var pc := Plus(plt, Bv64(p));
          var addr := Plus(got, Read64(data, p));
          RiscvDistanceIs(p, plt, got, offs[i]);
          if !RiscvOk(Minus(addr, pc)) {
            ok := false;
          }
          ghost var d := data;
          WriteEntry(p, RiscvUpper(Minus(addr, pc)), RiscvLower(Minus(addr, pc)), 0x000e_0367, 0x0000_0013);
          RiscvEntryDone(data, p, plt, got, offs[i]);
          RiscvStep(d, data, i, offs, plt, got);
          i := i + 1;
          p := p + 16;
        }
      }
    }

    /** AArch64: the header, then every entry; ok means that no range error was reported. */
    method RelocateA64(plt: bv64, got0: bv64) returns (ok: bool)
      requires target == A64 && Valid() && |data| < 0x8000_0000
      modifies this`data
      ensures |data| == |old(data)| && (offs != [] ==> A64HeaderDone(data, plt, got0))
      ensures forall k :: 0 <= k < |offs| ==> A64Done(data, At(target, k), plt, got0, offs[k])
      ensures ok <==>
        offs == [] || (A64Ok(Pages(Plus(got0, 16), plt)) && forall k :: 0 <= k < |offs| ==>
          A64Ok(A64Pages(At(target, k), plt, got0, offs[k])))
    {
      hide Read32, Stored, A64Done, A64Ok, Pages, Plus, Wide, Bv64, AdrpWord, LdrWord, AddWord, A64Pages, SameBytes,
        A64HeaderDone, HasWords;
      ok := true;
      if |data| != 0 {
        var got := Plus(got0, 16);
        var off := Pages(got, plt);
        if !A64Ok(off) {
          ok := false;
        }
        A64HeaderWords(plt, got0);
        var p: nat := 32;
        got := got0;
        ghost var i: nat := 0;
        while p < |data|
          invariant i <= |offs| && p == At(target, i) && |data| == At(target, |offs|) == |old(data)|
          invariant forall k :: i <= k < |offs| ==> Stored(target, data, At(target, k), offs[k])
          invariant A64HeaderDone(data, plt, got)
          invariant forall k :: 0 <= k < i ==> A64Done(data, At(target, k), plt, got, offs[k])
          invariant ok <==> A64Ok(off) && forall k :: 0 <= k < i ==> A64Ok(A64Pages(At(target, k), plt, got, offs[k]))
        {
          StoredIs(target, data, p, offs[i]);
          var pc := Plus(plt, Bv64(p));
          var addr := Plus(got, Read64(data, p));
          A64PagesIs(p, plt, got, offs[i]);
          if !A64Ok(Pages(addr, pc)) {
            ok := false;
          }
          ghost var d := data;
          WriteEntry(p, AdrpWord(Pages(addr, pc)), LdrWord(addr), AddWord(addr), 0xd61f_0220);
          A64EntryDone(data, p, plt, got, offs[i]);
          A64Step(d, data, i, offs, plt, got);
          i := i + 1;
          p := p + 16;
        }
      }
    }

    /** ARM, entries without a Thumb stub: the distance in the header, then every entry. */
    method RelocateArm(plt: bv32, got: bv32)
      requires target == Arm && Valid() && |data| < 0x8000_0000
      modifies this`data
      ensures |data| == |old(data)| && (offs != [] ==> ArmHeaderDone(data, plt, got))
      ensures forall k :: 0 <= k < |offs| ==> ArmDone(data, At(target, k), plt, got, offs[k])
    {
      hide Read32, Stored, ArmDone, Bv32, ArmOff, Arm0, Arm1, Arm2, Arm3, SameBytes, Write32, ArmHeader, ArmHeaderDone;
      if |data| != 0 {
        ghost var d := data;
        Write(16, got - plt - 12 - 4);
        WriteFrame(d, 16, got - plt - 12 - 4);
        ReadBack(d, 16, got - plt - 12 - 4);
        ArmHeaderWritten(d, data, plt, got);
        HeaderWritten(target, d, data, offs);
        var p: nat := 20;
        ghost var i: nat := 0;
        while p < |data|
          invariant i <= |offs| && p == At(target, i) && |data| == At(target, |offs|) == |old(data)|
          invariant forall k :: i <= k < |offs| ==> Stored(target, data, At(target, k), offs[k])
          invariant ArmHeaderDone(data, plt, got)
          invariant forall k :: 0 <= k < i ==> ArmDone(data, At(target, k), plt, got, offs[k])
        {
          StoredIs(target, data, p, offs[i]);
          var off := ArmOff(plt, got, Bv32(p), Read32(data, p + 4));
          d := data;
          WriteEntry(p, Arm0(off), Arm1(off), Arm2(off), Arm3(off));
          ArmEntryDone(data, p, plt, got, offs[i]);
          ArmStep(d, data, i, offs, plt, got);
          i := i + 1;
          p := p + 16;
        }
      }
    }
  }

  function A64Pages(p: nat, plt: bv64, got: bv64, o: bv32): bv64
    requires p < 0x8000_0000
  {
    Pages(Plus(got, Wide(o)), Plus(plt, Bv64(p)))
  }

  lemma A64PagesIs(p: nat, plt: bv64, got: bv64, o: bv32)
    requires p < 0x8000_0000
    ensures A64Pages(p, plt, got, o) == Pages(Plus(got, Wide(o)), Plus(plt, Bv64(p)))
  {
    hide Pages, Plus, Wide, Bv64;
  }

  /** The entry at p computes the slot at offset o exactly when its page is in reach and it is aligned, and then jumps
    * to what the slot holds, with the slot's address in x16. */
  ghost predicate A64Done(d: Data, p: nat, plt: bv64, got: bv64, o: bv32)
    requires p + 16 <= |d| < 0x8000_0000
  {
    var pc, slot := Plus(plt, Bv64(p)), Plus(got, Wide(o));
    var fits := PagesFit(A64Pages(p, plt, got, o)) && Aligned8(slot);
    && (A64Slot(Read32(d, p), Read32(d, p + 4), pc) == slot <==> fits)
    && (fits ==> forall m: Machine :: m.pc == pc ==> Run64(Words4(d, p), m) == Some(Jumped64(m, slot, slot)))
  }

  lemma A64Jumps(ws: seq<bv32>, pc: bv64, slot: bv64)
    requires var off := Pages(slot, pc);
      PagesFit(off) && Aligned8(slot) && ws == [AdrpWord(off), LdrWord(slot), AddWord(slot), 0xd61f_0220]
    ensures forall m: Machine :: m.pc == pc ==> Run64(ws, m) == Some(Jumped64(m, slot, slot))
  {
    hide *;
    forall m: Machine | m.pc == pc
      ensures Run64(ws, m) == Some(Jumped64(m, slot, slot))
    {
      Entry64(slot, m);
    }
  }

  lemma A64EntryDone(d: Data, p: nat, plt: bv64, got: bv64, o: bv32)
    requires p + 16 <= |d| < 0x8000_0000
    requires var slot := Plus(got, Wide(o));
      HasWords(d, p, AdrpWord(A64Pages(p, plt, got, o)), LdrWord(slot), AddWord(slot), 0xd61f_0220)
    ensures A64Done(d, p, plt, got, o)
  {
    hide Read32, AdrpWord, LdrWord, AddWord, A64Slot, PagesFit, Aligned8, Plus, Pages, Wide, Bv64, A64Pages, Run64,
      Jumped64;
    A64PagesIs(p, plt, got, o);
    var slot := Plus(got, Wide(o));
    A64Reads(slot, Plus(plt, Bv64(p)));
    if PagesFit(A64Pages(p, plt, got, o)) && Aligned8(slot) {
      A64Jumps(Words4(d, p), Plus(plt, Bv64(p)), slot);
    }
  }

  lemma A64Stays(d: Data, e: Data, p: nat, plt: bv64, got: bv64, o: bv32)
    requires SameBytes(d, e, p, 16) && |d| < 0x8000_0000 && A64Done(d, p, plt, got, o)
    ensures A64Done(e, p, plt, got, o)
  {
    hide Read32, A64Slot, PagesFit, Aligned8, Plus, A64Pages, Wide, Bv64, Run64, Jumped64;
    SameEntry(d, e, p);
    assert Words4(d, p) == Words4(e, p);
  }

  /** The entry at p jumps to what the slot at offset o holds, with the slot's address in ip. */
  ghost predicate ArmDone(d: Data, p: nat, plt: bv32, got: bv32, o: bv32)
    requires p + 16 <= |d| < 0x8000_0000
  {
    forall m: ArmRun.Machine :: m.pc == Add(plt, Bv32(p)) ==>
      ArmRun.Run(Words4(d, p), m) == Some(ArmRun.Jumped(m, Add(got, o)))
  }

  lemma ArmEntryDone(d: Data, p: nat, plt: bv32, got: bv32, o: bv32)
    requires p + 16 <= |d| < 0x8000_0000
    requires var off := ArmOff(plt, got, Bv32(p), o); HasWords(d, p, Arm0(off), Arm1(off), Arm2(off), Arm3(off))
    ensures ArmDone(d, p, plt, got, o)
  {
    hide Read32, Arm0, Arm1, Arm2, Arm3, ArmSlot, ArmOff, Add, Bv32, ArmRun.Run, ArmRun.Jumped;
    ArmEntryReads(plt, got, Bv32(p), o);
    var off := ArmOff(plt, got, Bv32(p), o);
    assert Words4(d, p) == [Arm0(off), Arm1(off), Arm2(off), Arm3(off)];
    forall m: ArmRun.Machine | m.pc == Add(plt, Bv32(p))
      ensures ArmRun.Run(Words4(d, p), m) == Some(ArmRun.Jumped(m, Add(got, o)))
    {
      ArmRun.EntryRuns(off, m);
    }
  }

  lemma ArmStays(d: Data, e: Data, p: nat, plt: bv32, got: bv32, o: bv32)
    requires SameBytes(d, e, p, 16) && |d| < 0x8000_0000 && ArmDone(d, p, plt, got, o)
    ensures ArmDone(e, p, plt, got, o)
  {
    hide Read32, Add, Bv32, ArmRun.Run, ArmRun.Jumped;
    SameEntry(d, e, p);
    assert Words4(d, p) == Words4(e, p);
  }

  /** The entries after the header are not touched by writing it. */
  lemma HeaderWritten(t: Target, d: Data, e: Data, offs: seq<bv32>)
    requires |d| == |e| && |d| == At(t, |offs|) && forall i :: Header(t) <= i < |d| ==> d[i] == e[i]
    requires forall k :: 0 <= k < |offs| ==> Stored(t, d, At(t, k), offs[k])
    ensures forall k :: 0 <= k < |offs| ==> Stored(t, e, At(t, k), offs[k])
  {
    hide Stored;
    forall k | 0 <= k < |offs|
      ensures Stored(t, e, At(t, k), offs[k])
    {
      StoredStays(t, d, e, At(t, k), offs[k]);
    }
  }

  /** Only entry i is touched by writing it. */
  lemma EntryWritten(t: Target, d: Data, e: Data, i: nat, offs: seq<bv32>)
    requires i < |offs| && |d| == |e| == At(t, |offs|)
    requires forall b :: 0 <= b < |d| && !(At(t, i) <= b < At(t, i) + 16) ==> d[b] == e[b]
    requires forall k :: i <= k < |offs| ==> Stored(t, d, At(t, k), offs[k])
    ensures forall k :: i < k < |offs| ==> Stored(t, e, At(t, k), offs[k])
    ensures forall k :: 0 <= k < i ==> SameBytes(d, e, At(t, k), 16)
  {
    hide Stored;
    forall k | i < k < |offs|
      ensures Stored(t, e, At(t, k), offs[k])
    {
      StoredStays(t, d, e, At(t, k), offs[k]);
    }
  }

  function RiscvDistance(p: nat, plt: bv64, got: bv64, o: bv32): bv64
    requires p < 0x8000_0000
  {
    Minus(Plus(got, Wide(o)), Plus(plt, Bv64(p)))
  }

  lemma RiscvDistanceIs(p: nat, plt: bv64, got: bv64, o: bv32)
    requires p < 0x8000_0000
    ensures RiscvDistance(p, plt, got, o) == Minus(Plus(got, Wide(o)), Plus(plt, Bv64(p)))
  {
    hide Minus, Plus, Wide, Bv64;
  }

  /** The entry at p computes the slot at offset o exactly when it is in reach, and then jumps to what the slot
    * holds. */
  ghost predicate RiscvDone(d: Data, p: nat, plt: bv64, got: bv64, o: bv32)
    requires p + 16 <= |d| < 0x8000_0000
  {
    var pc, slot := Plus(plt, Bv64(p)), Plus(got, Wide(o));
    && (RiscvSlot(Read32(d, p), Read32(d, p + 4), pc) == slot <==> PairFits(RiscvDistance(p, plt, got, o)))
    && (PairFits(RiscvDistance(p, plt, got, o)) ==>
        forall m: Machine :: m.pc == pc ==> RunR(Words4(d, p)[..3], m) == Some(JumpedR(m, slot)))
  }

  lemma RiscvJumps(ws: seq<bv32>, pc: bv64, slot: bv64)
    requires var off := Minus(slot, pc); PairFits(off) && ws == [RiscvUpper(off), RiscvLower(off), 0x000e_0367]
    ensures forall m: Machine :: m.pc == pc ==> RunR(ws, m) == Some(JumpedR(m, slot))
  {
    hide *;
    forall m: Machine | m.pc == pc
      ensures RunR(ws, m) == Some(JumpedR(m, slot))
    {
      EntryR(slot, m);
    }
  }

  lemma RiscvEntryDone(d: Data, p: nat, plt: bv64, got: bv64, o: bv32)
    requires p + 16 <= |d| < 0x8000_0000
    requires var off := RiscvDistance(p, plt, got, o);
      HasWords(d, p, RiscvUpper(off), RiscvLower(off), 0x000e_0367, 0x0000_0013)
    ensures RiscvDone(d, p, plt, got, o)
  {
    hide Read32, RiscvUpper, RiscvLower, RiscvSlot, PairFits, Plus, Minus, Wide, Bv64, RunR, JumpedR, RiscvDistance;
    RiscvDistanceIs(p, plt, got, o);
    RiscvReads(Plus(plt, Bv64(p)), Plus(got, Wide(o)));
    if PairFits(RiscvDistance(p, plt, got, o)) {
      RiscvJumps(Words4(d, p)[..3], Plus(plt, Bv64(p)), Plus(got, Wide(o)));
    }
  }

  lemma RiscvStays(d: Data, e: Data, p: nat, plt: bv64, got: bv64, o: bv32)
    requires SameBytes(d, e, p, 16) && |d| < 0x8000_0000 && RiscvDone(d, p, plt, got, o)
    ensures RiscvDone(e, p, plt, got, o)
  {
    hide Read32, RiscvSlot, PairFits, Plus, RiscvDistance, Wide, Bv64, RunR, JumpedR;
    SameEntry(d, e, p);
    assert Words4(d, p) == Words4(e, p);
  }

  /** The first entry is the header for the distance to the GOT. */
  ghost predicate RiscvHeaderDone(d: Data, plt: bv64, got: bv64) {
    |d| >= 32 && Words4(d, 0) + Words4(d, 16) == HeaderR(Minus(got, plt))
  }

  /** Running the first entry pushes and jumps through the third cell of the GOT. */
  ghost predicate A64HeaderDone(d: Data, plt: bv64, got: bv64) {
    |d| >= 32 && (SamePage(plt) && PagesFit(Pages(Plus(got, 16), plt)) && Aligned8(Plus(got, 16)) ==>
      forall m: Machine :: m.pc == plt ==>
        Run64(Words4(d, 0) + [Read32(d, 16)], m) == Some(Jumped64(Pushed64(m), Plus(got, 16), Plus(got, 16))))
  }

  lemma A64HeaderRuns(d: Data, plt: bv64, got: bv64)
    requires |d| >= 32
    requires var off := Pages(Plus(got, 16), plt);
      HasWords(d, 0, 0xa9bf_7bf0, AdrpWord(off), LdrWord(Plus(got, 16)), AddWord(Plus(got, 16)))
    requires Read32(d, 16) == 0xd61f_0220
    ensures A64HeaderDone(d, plt, got)
  {
    hide Read32, AdrpWord, LdrWord, AddWord, Pages, PagesFit, Aligned8, Plus, SamePage, Run64, Jumped64, Pushed64;
    var slot := Plus(got, 16);
    var off := Pages(slot, plt);
    assert Words4(d, 0) + [Read32(d, 16)] == [0xa9bf_7bf0, AdrpWord(off), LdrWord(slot), AddWord(slot), 0xd61f_0220];
    if SamePage(plt) && PagesFit(off) && Aligned8(slot) {
      forall m: Machine | m.pc == plt
        ensures Run64(Words4(d, 0) + [Read32(d, 16)], m) == Some(Jumped64(Pushed64(m), slot, slot))
      {
        Header64(slot, m);
      }
    }
  }

  lemma HeaderKept(d: Data, e: Data, p: nat)
    requires |d| == |e| && 32 <= p && p + 16 <= |d|
    requires forall i :: 0 <= i < |d| && !(p <= i < p + 16) ==> e[i] == d[i]
    ensures SameBytes(d, e, 0, 32)
  {
  }

  lemma FirstWordsKept(d: Data, e: Data)
    requires |d| == |e| && 32 <= |d| && forall i :: 0 <= i < |d| && !(16 <= i < 32) ==> e[i] == d[i]
    ensures Read32(e, 0) == Read32(d, 0) && Read32(e, 4) == Read32(d, 4)
    ensures Read32(e, 8) == Read32(d, 8) && Read32(e, 12) == Read32(d, 12)
  {
    SameEntry(d, e, 0);
    hide Read32;
  }

  lemma RiscvHeaderWritten(d: Data, plt: bv64, got: bv64)
    requires |d| >= 32
    requires var off := Minus(got, plt);
      && HasWords(d, 0, Header0(off), 0x41c3_0333, Header2(off), 0xfd43_0313)
      && HasWords(d, 16, Header4(off), 0x0013_5313, 0x0082_b283, 0x000e_0067)
    ensures RiscvHeaderDone(d, plt, got)
  {
    hide Read32, Header0, Header2, Header4, Minus;
  }

  lemma ArmHeaderAppend(d: Data, z: Data)
    requires ArmHeader(d)
    ensures ArmHeader(d + z)
  {
    WordStays(d, d + z, 0);
    WordStays(d, d + z, 4);
    WordStays(d, d + z, 8);
    WordStays(d, d + z, 12);
    hide Read32;
  }

  lemma ArmHeaderWritten(d: Data, e: Data, plt: bv32, got: bv32)
    requires ArmHeader(d) && |e| == |d| && Read32(e, 16) == got - plt - 12 - 4
    requires forall i :: 0 <= i < |d| && !(16 <= i < 20) ==> e[i] == d[i]
    ensures ArmHeaderDone(e, plt, got)
  {
    SameEntry(d, e, 0);
    hide Read32;
  }

  lemma ArmHeaderKept(d: Data, e: Data, p: nat)
    requires |d| == |e| && 20 <= p && p + 16 <= |d|
    requires forall i :: 0 <= i < |d| && !(p <= i < p + 16) ==> e[i] == d[i]
    ensures forall plt: bv32, got: bv32 :: ArmHeaderDone(d, plt, got) ==> ArmHeaderDone(e, plt, got)
  {
    ArmHeaderStays(d, e);
    hide ArmHeaderDone;
  }

  /** The words of the first entry stay where its bytes do. */
  lemma HeaderStays(d: Data, e: Data, n: nat)
    requires SameBytes(d, e, 0, n)
    ensures n >= 20 ==> Words4(d, 0) == Words4(e, 0) && Read32(d, 16) == Read32(e, 16)
    ensures n >= 32 ==> Words4(d, 16) == Words4(e, 16)
  {
    hide Read32;
    if n >= 20 {
      SameEntry(d, e, 0);
      SameWords(d, e, 16, 4);
    }
    if n >= 32 {
      SameEntry(d, e, 16);
    }
  }

  lemma HeadersStay(d: Data, e: Data, n: nat, plt: bv64, got: bv64)
    requires SameBytes(d, e, 0, n) && n >= 32
    ensures RiscvHeaderDone(d, plt, got) ==> RiscvHeaderDone(e, plt, got)
    ensures A64HeaderDone(d, plt, got) ==> A64HeaderDone(e, plt, got)
  {
    HeaderStays(d, e, n);
    hide Words4, Read32, HeaderR, Run64, Jumped64, Pushed64, PagesFit, Pages, Plus, Minus, Aligned8, SamePage;
  }

  lemma ArmHeaderStays(d: Data, e: Data)
    requires SameBytes(d, e, 0, 20)
    ensures ArmHeader(d) ==> ArmHeader(e)
    ensures forall plt: bv32, got: bv32 :: ArmHeaderDone(d, plt, got) ==> ArmHeaderDone(e, plt, got)
  {
    HeaderStays(d, e, 20);
    hide Read32;
    assert Words4(d, 0)[0] == Read32(d, 0) && Words4(d, 0)[1] == Read32(d, 4) && Words4(d, 0)[2] == Read32(d, 8);
    assert Words4(d, 0)[3] == Read32(d, 12);
  }

  /** Writing entry i leaves the header and the entries before it done, and those after it as they were. */
  lemma RiscvStep(d: Data, e: Data, i: nat, offs: seq<bv32>, plt: bv64, got: bv64)
    requires i < |offs| && |d| == |e| == At(Riscv, |offs|) && |d| < 0x8000_0000
    requires forall b :: 0 <= b < |d| && !(At(Riscv, i) <= b < At(Riscv, i) + 16) ==> e[b] == d[b]
    requires RiscvHeaderDone(d, plt, got)
    requires forall k :: i <= k < |offs| ==> Stored(Riscv, d, At(Riscv, k), offs[k])
    requires forall k :: 0 <= k < i ==> RiscvDone(d, At(Riscv, k), plt, got, offs[k])
    ensures RiscvHeaderDone(e, plt, got)
    ensures forall k :: i < k < |offs| ==> Stored(Riscv, e, At(Riscv, k), offs[k])
    ensures forall k :: 0 <= k < i ==> RiscvDone(e, At(Riscv, k), plt, got, offs[k])
  {
    hide Stored, RiscvDone, RiscvHeaderDone, SameBytes;
    HeaderKept(d, e, At(Riscv, i));
    HeadersStay(d, e, 32, plt, got);
    EntryWritten(Riscv, d, e, i, offs);
    forall k | 0 <= k < i
      ensures RiscvDone(e, At(Riscv, k), plt, got, offs[k])
    {
      RiscvStays(d, e, At(Riscv, k), plt, got, offs[k]);
    }
  }

  /** Writing entry i leaves the header and the entries before it done, and those after it as they were. */
  lemma A64Step(d: Data, e: Data, i: nat, offs: seq<bv32>, plt: bv64, got: bv64)
    requires i < |offs| && |d| == |e| == At(A64, |offs|) && |d| < 0x8000_0000
    requires forall b :: 0 <= b < |d| && !(At(A64, i) <= b < At(A64, i) + 16) ==> e[b] == d[b]
    requires A64HeaderDone(d, plt, got)
    requires forall k :: i <= k < |offs| ==> Stored(A64, d, At(A64, k), offs[k])
    requires forall k :: 0 <= k < i ==> A64Done(d, At(A64, k), plt, got, offs[k])
    ensures A64HeaderDone(e, plt, got)
    ensures forall k :: i < k < |offs| ==> Stored(A64, e, At(A64, k), offs[k])
    ensures forall k :: 0 <= k < i ==> A64Done(e, At(A64, k), plt, got, offs[k])
  {
    hide Stored, A64Done, A64HeaderDone, SameBytes;
    HeaderKept(d, e, At(A64, i));
    HeadersStay(d, e, 32, plt, got);
    EntryWritten(A64, d, e, i, offs);
    forall k | 0 <= k < i
      ensures A64Done(e, At(A64, k), plt, got, offs[k])
    {
      A64Stays(d, e, At(A64, k), plt, got, offs[k]);
    }
  }

  /** Writing entry i leaves the header and the entries before it done, and those after it as they were. */
  lemma ArmStep(d: Data, e: Data, i: nat, offs: seq<bv32>, plt: bv32, got: bv32)
    requires i < |offs| && |d| == |e| == At(Arm, |offs|) && |d| < 0x8000_0000
    requires forall b :: 0 <= b < |d| && !(At(Arm, i) <= b < At(Arm, i) + 16) ==> e[b] == d[b]
    requires ArmHeaderDone(d, plt, got)
    requires forall k :: i <= k < |offs| ==> Stored(Arm, d, At(Arm, k), offs[k])
    requires forall k :: 0 <= k < i ==> ArmDone(d, At(Arm, k), plt, got, offs[k])
    ensures ArmHeaderDone(e, plt, got)
    ensures forall k :: i < k < |offs| ==> Stored(Arm, e, At(Arm, k), offs[k])
    ensures forall k :: 0 <= k < i ==> ArmDone(e, At(Arm, k), plt, got, offs[k])
  {
    hide Stored, ArmDone, ArmHeaderDone, SameBytes;
    ArmHeaderKept(d, e, At(Arm, i));
    EntryWritten(Arm, d, e, i, offs);
    forall k | 0 <= k < i
      ensures ArmDone(e, At(Arm, k), plt, got, offs[k])
    {
      ArmStays(d, e, At(Arm, k), plt, got, offs[k]);
    }
  }

  function Read64(d: Data, p: nat): bv64
    requires p + 8 <= |d|
  {
    Join64(Read32(d, p), Read32(d, p + 4))
  }

  function Join64(lo: bv32, hi: bv32): bv64 { (lo as bv64) | ((hi as bv64) << 32) }

  lemma JoinZero(lo: bv32)
    ensures Join64(lo, 0) == Wide(lo)
  {
  }

  lemma StoredIs(t: Target, d: Data, p: nat, o: bv32)
    requires p + 16 <= |d| && Stored(t, d, p, o)
    ensures if t.Arm? then Read32(d, p + 4) == o else Read64(d, p) == Wide(o)
  {
    JoinZero(o);
    hide Join64;
  }

  lemma WordStays(d: Data, e: Data, p: nat)
    requires p + 4 <= |d| <= |e| && forall i :: p <= i < p + 4 ==> d[i] == e[i]
    ensures Read32(d, p) == Read32(e, p)
  {
  }

  lemma StoredStays(t: Target, d: Data, e: Data, p: nat, o: bv32)
    requires p + 16 <= |d| <= |e| && Stored(t, d, p, o) && forall i :: p <= i < p + 16 ==> d[i] == e[i]
    ensures Stored(t, e, p, o)
  {
    hide Read32;
    WordStays(d, e, p);
    WordStays(d, e, p + 4);
  }

  lemma WriteFrame(d: Data, p: nat, w: bv32)
    requires p + 4 <= |d|
    ensures forall i :: 0 <= i < |d| && !(p <= i < p + 4) ==> Write32(d, p, w)[i] == d[i]
  {
    hide Byte0, Byte1, Byte2, Byte3;
  }

  lemma FourFrame(d: Data, p: nat, w0: bv32, w1: bv32, w2: bv32, w3: bv32)
    requires p + 16 <= |d|
    ensures var e := Write32(Write32(Write32(Write32(d, p, w0), p + 4, w1), p + 8, w2), p + 12, w3);
      forall i :: 0 <= i < |d| && !(p <= i < p + 16) ==> e[i] == d[i]
  {
    hide Byte0, Byte1, Byte2, Byte3;
  }
}
