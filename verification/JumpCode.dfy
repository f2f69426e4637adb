/** The three encodings of a jump field and the generators' operations on the code buffer. */
module JumpCode {
  import opened Binary
  import opened Bytes
  import opened JumpLists

  /** The positive range of the generators' int. */
  const INT: nat := 0x8000_0000

  /** C's division by 4, which rounds toward zero. */
  function Quarter(x: int): int {
    if x >= 0 then x / 4 else -((-x) / 4)
  }

  /** The ARM branch at pos to addr, or nothing where the generator reports that the function is too big. */
  function EncBranch(pos: int, addr: int): Option<nat> {
    var x := Quarter(addr - (pos + 8));
    if x >= 0x100_0000 || x < -0x100_0000 then None else Some(0x0a00_0000 + x % M24)
  }

  /** What remains of w under the mask 0xff000000, joined with the branch e: bits 25 and 27 are forced to one. */
  function MergeBranch(w: nat, e: nat): nat {
    var top := w / M24;
    M24 * (top + (if top % 4 < 2 then 2 else 0) + (if top % 16 < 8 then 8 else 0)) + e % M24
  }

  /** The signed 24-bit word range of an ARM branch. */
  predicate InField(p: int, a: int) {
    (a - p) % 4 == 0 && -0x80_0000 <= (a - p - 8) / 4 < 0x80_0000
  }

  /** Where the patched ARM jump at p goes when it is resolved to a. */
  function ArmLanding(p: int, a: int): int {
    if a == p + 4 then a else SignExtend(Quarter(a - (p + 8)) % M24, 0x80_0000) * 4 + p + 8
  }

  /** The branch field is wide enough exactly for the targets within 2 to the power 23 words. */
  lemma ArmExact(p: int, a: int)
    ensures ArmLanding(p, a) == a <==> a == p + 4 || InField(p, a)
  {
  }

  /** The range check of encbranch accepts twice what the field holds. */
  lemma ArmTooWide(p: int, a: int)
    requires (a - p) % 4 == 0
    ensures EncBranch(p, a).Some? <==> -0x100_0000 <= (a - p - 8) / 4 < 0x100_0000
    ensures InField(p, a) ==> EncBranch(p, a).Some?
  {
  }

  /** A branch at 8 to the first word too far forward is accepted, and lands 2 to the power 26 bytes too low. */
  lemma ArmMisses()
    ensures var a := 16 + 4 * 0x80_0000; EncBranch(8, a).Some? && ArmLanding(8, a) == a - 0x400_0000
  {
  }

  /** The word that resolving an ARM jump w at p to a leaves, unless the branch cannot be encoded. */
  function ArmPatch(w: nat, p: int, a: int): Option<nat> {
    if a == p + 4 then Some(0xe1a0_0000) else
      match EncBranch(p, a)
      case None => None
      case Some(e) => Some(MergeBranch(w, e))
  }

  lemma ArmPatchReaches(w: nat, p: int, a: int)
    requires w < M32 && w / M24 % 16 == 10 && ArmPatch(w, p, a).Some?
    ensures var v := ArmPatch(w, p, a).value;
      v < M32 && Reaches(Arm, v, p, ArmLanding(p, a)) && (a != p + 4 ==> v / M24 == w / M24)
  {
    if a != p + 4 {
      var e := EncBranch(p, a).value;
      assert MergeBranch(w, e) == M24 * (w / M24) + e % M24;
      DivUnique(M24, w / M24, e % M24, MergeBranch(w, e));
    }
  }

  /** The A64 branch, or nothing where the generator reports that it is out of range. */
  function A64Patch(p: int, a: int): Option<nat> {
    if (a - p + 0x800_0000) % M32 >= 0x1000_0000 then None
    else if a - p == 4 then Some(0xd503_201f)
    else Some(0x1400_0000 + (a - p) % M32 / 4 % M26)
  }

  lemma A64PatchReaches(p: int, a: int)
    requires 0 <= p < INT && 0 <= a < INT && p % 4 == 0 && a % 4 == 0 && A64Patch(p, a).Some?
    ensures A64Patch(p, a).value < M32 && Reaches(A64, A64Patch(p, a).value, p, a)
  {
  }

  function I386Patch(p: int, a: int): nat {
    (a - p - 4) % M32
  }

  lemma I386PatchReaches(p: int, a: int)
    ensures I386Patch(p, a) < M32 && Reaches(I386, I386Patch(p, a), p, a)
  {
  }

  /** The text section of one target. The bytes below ind are data; nothing is kept above ind. */
  class Code {
    const target: Target
    var data: seq<byte>
    ghost var jumps: Jumps

    ghost predicate Valid()
      reads this
    {
      Inv(target, data, jumps) && |data| < INT && (target != I386 ==> |data| % 4 == 0)
    }

    constructor (target: Target)
      ensures Valid() && this.target == target && data == [] && jumps == NO_JUMPS
    {
      this.target := target;
      data := [];
      jumps := NO_JUMPS;
    }

    /** A word appended at ind. */
    method O(w: nat)
      modifies this`data
      ensures data == old(data) + Bytes4(w)
    {
      data := data + Bytes4(w);
    }

    /** ARM: resolve every jump of list t to a. */
    method GsymAddrArm(t0: int, a: int) returns (ok: bool)
      requires Valid() && target == Arm && IsHead(jumps, t0) && a % 4 == 0
      modifies this
      ensures var ps := old(ListOf(jumps, t0));
        ok <==> forall i :: 0 <= i < |ps| ==> ps[i] + 4 == a || EncBranch(ps[i], a).Some?
      ensures ok ==> Valid() && jumps == old(Resolve(jumps, t0, p => ArmLanding(p, a)))
      ensures ok ==> Step(Arm, Patch(t0, p => ArmLanding(p, a)), old(data), old(jumps), data, jumps)
      ensures ok ==> SameOutside(old(data), data, old(ListOf(jumps, t0)))
      ensures ok ==> PatchedArm(old(data), data, old(ListOf(jumps, t0)), |old(ListOf(jumps, t0))|, a)
    {
      hide Inv, Chain, Reaches, ListOk, Resolve, SameOutside, Word, Put, Partly, EncBranch, MergeBranch, ArmLanding;
      ghost var d, s, ps, k := data, jumps, ListOf(jumps, t0), 0;
      ghost var landing := p => ArmLanding(p, a);
      var t := t0;
      PartlyStart(Arm, d, s, t0, landing);
      HeadInside(Arm, d, s, t0);
      while t != 0
        invariant 0 <= k <= |ps| && t == (if k < |ps| then ps[k] else 0)
        invariant Partly(Arm, d, data, ps, k, landing) && PatchedArm(d, data, ps, k, a)
        invariant forall i :: 0 <= i < k ==> ps[i] + 4 == a || EncBranch(ps[i], a).Some?
        decreases |ps| - k
      {
        PartlyLink(Arm, d, data, s, t0, k, landing);
        var lt := t;
        var w := Word(data, lt);
        t := Link(Arm, w, lt);
        match ArmPatch(w, lt, a)
        case None =>
          return false; // function bigger than 32MB
        case Some(v) =>
          ArmPatchReaches(w, lt, a);
          PartlyPut(Arm, d, data, s, t0, k, v, landing);
          data := Put(data, lt, v);
          k := k + 1;
      }
      jumps := Resolve(s, t0, landing);
      PartlyEnd(Arm, d, data, s, t0, landing);
      ok := true;
    }

    /** A64: resolve every jump of list t to a. */
    method GsymAddrA64(t0: int, a: int) returns (ok: bool)
      requires Valid() && target == A64 && IsHead(jumps, t0) && a % 4 == 0 && 0 <= a < INT
      modifies this
      ensures var ps := old(ListOf(jumps, t0));
        ok <==> forall i :: 0 <= i < |ps| ==> -0x800_0000 <= a - ps[i] < 0x800_0000
      ensures ok ==> Valid() && jumps == old(Resolve(jumps, t0, _ => a))
      ensures ok ==> Step(A64, Patch(t0, _ => a), old(data), old(jumps), data, jumps)
      ensures ok ==> SameOutside(old(data), data, old(ListOf(jumps, t0)))
    {
      hide Inv, Chain, Reaches, ListOk, Resolve, SameOutside, Word, Put, Partly, A64Patch;
      ghost var d, s, ps, k := data, jumps, ListOf(jumps, t0), 0;
      ghost var landing := (_: int) => a;
      var t := t0;
      PartlyStart(A64, d, s, t0, landing);
      HeadInside(A64, d, s, t0);
      while t != 0
        invariant 0 <= k <= |ps| && t == (if k < |ps| then ps[k] else 0)
        invariant Partly(A64, d, data, ps, k, landing) && |data| == |d|
        invariant forall i :: 0 <= i < k ==> -0x800_0000 <= a - ps[i] < 0x800_0000
        decreases |ps| - k
      {
        PartlyLink(A64, d, data, s, t0, k, landing);
        A64InRange(t, a);
        match A64Patch(t, a)
        case None =>
          return false; // branch out of range
        case Some(v) =>
          A64PatchReaches(t, a);
          PartlyPut(A64, d, data, s, t0, k, v, landing);
          var next := Link(A64, Word(data, t), t);
          data := Put(data, t, v);
          t := next;
          k := k + 1;
      }
      jumps := Resolve(s, t0, landing);
      PartlyEnd(A64, d, data, s, t0, landing);
      ok := true;
    }

    /** i386: resolve every jump of list t to a. */
    method GsymAddrI386(t0: int, a: int)
      requires Valid() && target == I386 && IsHead(jumps, t0)
      modifies this
      ensures Valid() && jumps == old(Resolve(jumps, t0, _ => a))
      ensures Step(I386, Patch(t0, _ => a), old(data), old(jumps), data, jumps)
      ensures SameOutside(old(data), data, old(ListOf(jumps, t0)))
    {
      hide Inv, Chain, Reaches, ListOk, Resolve, SameOutside, Word, Put, Partly, I386Patch;
      ghost var d, s, ps, k := data, jumps, ListOf(jumps, t0), 0;
      ghost var landing := (_: int) => a;
      var t := t0;
      PartlyStart(I386, d, s, t0, landing);
      while t != 0
        invariant 0 <= k <= |ps| && t == (if k < |ps| then ps[k] else 0)
        invariant Partly(I386, d, data, ps, k, landing)
        decreases |ps| - k
      {
        PartlyLink(I386, d, data, s, t0, k, landing);
        var n := Link(I386, Word(data, t), t);
        I386PatchReaches(t, a);
        PartlyPut(I386, d, data, s, t0, k, I386Patch(t, a), landing);
        data := Put(data, t, I386Patch(t, a));
        t := n;
        k := k + 1;
      }
      jumps := Resolve(s, t0, landing);
      PartlyEnd(I386, d, data, s, t0, landing);
    }

    /** ARM: a new jump in front of list t. cond is the condition nibble of the branch, 14 for an unconditional one. */
    method JumpArm(cond: nat, t: int) returns (ok: bool, r: int)
      requires Valid() && target == Arm && IsHead(jumps, t) && 0 < |data| < INT - 4 && cond < 16
      modifies this
      ensures Valid() && r == old(|data|)
      ensures ok <==> EncBranch(r, t).Some?
      ensures !ok ==> data == old(data) && jumps == old(jumps)
      ensures ok ==> data == old(data) + Bytes4(cond * 0x1000_0000 + EncBranch(r, t).value)
      ensures ok ==> jumps == if InField(r, t) then old(Push(jumps, |data|, t)) else old(jumps)
      ensures ok ==> Step(Arm, if InField(r, t) then NewJump(r, t) else Plain, old(data), old(jumps), data, jumps)
    {
      hide Inv, Push, Word, EncBranch, Bytes4, InField;
      ghost var d, s := data, jumps;
      r := |data|;
      var e := EncBranch(r, t);
      if e == None {
        return false, r; // function bigger than 32MB
      }
      var w := cond * 0x1000_0000 + e.value;
      O(w);
      ArmJumpWord(cond, r, t, w);
      Appended(d, [], w);
      assert d + [] == d;
      HeadInside(Arm, d, s, t);
      if InField(r, t) {
        jumps := Push(s, r, t);
        PushKeeps(Arm, d, data, s, r, t);
      } else {
        PlainKeeps(Arm, d, data, s);
      }
      ok := true;
    }

    method GjmpArm(t: int) returns (ok: bool, r: int)
      requires Valid() && target == Arm && IsHead(jumps, t) && 0 < |data| < INT - 4
      modifies this
      ensures Valid() && r == old(|data|)
      ensures ok <==> EncBranch(r, t).Some?
      ensures !ok ==> data == old(data) && jumps == old(jumps)
      ensures ok ==> data == old(data) + Bytes4(0xe000_0000 + EncBranch(r, t).value)
      ensures ok ==> jumps == if InField(r, t) then old(Push(jumps, |data|, t)) else old(jumps)
      ensures ok ==> Step(Arm, if InField(r, t) then NewJump(r, t) else Plain, old(data), old(jumps), data, jumps)
    {
      hide Step, Push, EncBranch, InField, Bytes4;
      ok, r := JumpArm(14, t);
    }

    method GjmpCondArm(cc: CC, t: int) returns (ok: bool, r: int)
      requires Valid() && target == Arm && IsHead(jumps, t) && 0 < |data| < INT - 4
      modifies this
      ensures Valid() && r == old(|data|)
      ensures ok <==> MapCC(cc).Some? && EncBranch(r, t).Some?
      ensures !ok ==> data == old(data) && jumps == old(jumps)
      ensures ok ==> data == old(data) + Bytes4(MapCC(cc).value * 0x1000_0000 + EncBranch(r, t).value)
      ensures ok ==> jumps == if InField(r, t) then old(Push(jumps, |data|, t)) else old(jumps)
      ensures ok ==> Step(Arm, if InField(r, t) then NewJump(r, t) else Plain, old(data), old(jumps), data, jumps)
    {
      hide Step, Push, EncBranch, InField, Bytes4, MapCC;
      r := |data|;
      match MapCC(cc)
      case None =>
        ok := false; // unexpected condition code
      case Some(cond) =>
        ok, r := JumpArm(cond, t);
    }

    method GjmpA64(t: int) returns (r: int)
      requires Valid() && target == A64 && IsHead(jumps, t) && 0 < |data| < INT - 4
      modifies this
      ensures Valid() && r == old(|data|) && data == old(data) + Bytes4(t)
      ensures jumps == old(Push(jumps, |data|, t)) && Step(A64, NewJump(r, t), old(data), old(jumps), data, jumps)
    {
      hide Inv, Push, Word, Bytes4;
      ghost var d, s := data, jumps;
      HeadInside(A64, d, s, t);
      r := |data|;
      O(t);
      Appended(d, [], t);
      assert d + [] == d;
      jumps := Push(s, r, t);
      PushKeeps(A64, d, data, s, r, t);
    }

    /** Words appended at ind. */
    method Words(ws: seq<nat>)
      modifies this`data
      ensures data == old(data) + Code4(ws)
    {
      var i := 0;
      while i < |ws|
        invariant 0 <= i <= |ws| && data == old(data) + Code4(ws[..i])
      {
        assert ws[..i + 1][..i] == ws[..i];
        O(ws[i]);
        i := i + 1;
      }
      assert ws[..i] == ws;
    }

    /** A64: the words that compare and skip, then the jump that they skip. */
    method GjmpCondA64(v: Compared, inv: bool, t: int) returns (r: int)
      requires Valid() && target == A64 && IsHead(jumps, t) && |data| < INT - 20
      modifies this
      ensures Valid() && data == old(data) + Code4(SkipWords(v, inv)) + Bytes4(t)
      ensures r == old(|data|) + 4 * |SkipWords(v, inv)|
      ensures jumps == old(Push(jumps, |data| + 4 * |SkipWords(v, inv)|, t))
      ensures Step(A64, NewJump(r, t), old(data), old(jumps), data, jumps)
    {
      hide Inv, Push, SkipWords, Bytes4, LinkedAt;
      ghost var d, s := data, jumps;
      SkipCount(v, inv);
      Code4Length(SkipWords(v, inv));
      Words(SkipWords(v, inv));
      PlainKeeps(A64, d, data, s);
      r := GjmpA64(t);
    }

    /** i386: the bytes of an opcode and the field that holds the link. */
    method Oad(code: seq<byte>, t: int) returns (r: int)
      requires Valid() && target == I386 && IsHead(jumps, t) && 0 < |code| <= 2 && |data| < INT - 6
      modifies this
      ensures Valid() && r == old(|data|) + |code| && data == old(data) + code + Bytes4(t)
      ensures jumps == old(Push(jumps, |data| + |code|, t))
      ensures Step(I386, NewJump(r, t), old(data), old(jumps), data, jumps)
    {
      hide Inv, Push, Word, Bytes4;
      ghost var d, s := data, jumps;
      HeadInside(I386, d, s, t);
      data := data + code;
      r := |data|;
      O(t);
      Appended(d, code, t);
      jumps := Push(s, r, t);
      PushKeeps(I386, d, data, s, r, t);
    }

    method GjmpI386(t: int) returns (r: int)
      requires Valid() && target == I386 && IsHead(jumps, t) && |data| < INT - 6
      modifies this
      ensures Valid() && r == old(|data|) + 1 && data == old(data) + [0xe9] + Bytes4(t)
      ensures jumps == old(Push(jumps, |data| + 1, t)) && Step(I386, NewJump(r, t), old(data), old(jumps), data, jumps)
    {
      r := Oad([0xe9], t);
    }

    /** i386: op is one of the condition tokens 0x90 to 0x9f. */
    method GjmpCondI386(op: nat, t: int) returns (r: int)
      requires Valid() && target == I386 && IsHead(jumps, t) && 0x90 <= op <= 0x9f && |data| < INT - 6
      modifies this
      ensures Valid() && r == old(|data|) + 2 && data == old(data) + [0x0f, op - 16] + Bytes4(t)
      ensures jumps == old(Push(jumps, |data| + 2, t)) && Step(I386, NewJump(r, t), old(data), old(jumps), data, jumps)
    {
      r := Oad([0x0f, op - 16], t);
    }

    /** ARM: list t behind list n. The last link is relative, so it can fail to fit its field. */
    method GjmpAppendArm(n: int, t: int) returns (ok: bool, r: int)
      requires Valid() && target == Arm && IsHead(jumps, n) && IsHead(jumps, t) && (n != 0 ==> n != t)
      modifies this
      ensures r == if n == 0 then t else n
      ensures n == 0 ==> ok && data == old(data) && jumps == old(jumps) && Valid()
      ensures n != 0 ==> var last := old(Last(ListOf(jumps, n)));
        (ok <==> EncBranch(last, t).Some?) && (ok ==> SameOutside(old(data), data, [last])) &&
        (ok && InField(last, t) ==>
          Valid() && jumps == old(Join(jumps, n, t)) && Step(Arm, Append(n, t), old(data), old(jumps), data, jumps))
    {
      hide Inv, Join, Word, Put, EncBranch, InField, MergeBranch, SameOutside, Link, Chain;
      ok, r := true, t;
      if n != 0 {
        ghost var d, s, ps, k := data, jumps, ListOf(jumps, n), 0;
        HeadInside(Arm, d, s, n);
        HeadInside(Arm, d, s, t);
        var p := n;
        var lp := p;
        p := Link(Arm, Word(data, lp), lp);
        while p != 0
          invariant 0 <= k < |ps| && lp == ps[k] && p == Next(ps, k)
          decreases |ps| - k
        {
          k := k + 1;
          lp := p;
          p := Link(Arm, Word(data, lp), lp);
        }
        var e := EncBranch(lp, t);
        r := n;
        if e == None {
          return false, r; // function bigger than 32MB
        }
        var v := MergeBranch(Word(data, lp), e.value);
        ArmLinkWord(Word(data, lp), lp, t, v);
        WordPut(data, lp, v);
        SameOutsideOne(data, lp, v);
        data := Put(data, lp, v);
        if InField(lp, t) {
          jumps := Join(s, n, t);
          JoinKeeps(Arm, d, data, s, n, t, lp);
        }
      }
    }

    /** A64 and i386: list t behind list n. */
    method GjmpAppend(n: int, t: int) returns (r: int)
      requires Valid() && target != Arm && IsHead(jumps, n) && IsHead(jumps, t) && (n != 0 ==> n != t)
      modifies this
      ensures Valid() && r == if n == 0 then t else n
      ensures n == 0 ==> data == old(data) && jumps == old(jumps)
      ensures n != 0 ==> jumps == old(Join(jumps, n, t)) && SameOutside(old(data), data, [old(Last(ListOf(jumps, n)))])
      ensures n != 0 ==> Step(target, Append(n, t), old(data), old(jumps), data, jumps)
    {
      hide Inv, Join, Word, Put, SameOutside, Chain;
      r := t;
      if n != 0 {
        ghost var d, s, ps, k := data, jumps, ListOf(jumps, n), 0;
        HeadInside(target, d, s, n);
        HeadInside(target, d, s, t);
        var n1 := n;
        var n2: int := Word(data, n1);
        while n2 != 0
          invariant 0 <= k < |ps| && n1 == ps[k] && n2 == Next(ps, k)
          decreases |ps| - k
        {
          k := k + 1;
          n1 := n2;
          n2 := Word(data, n1);
        }
        WordPut(data, n1, t);
        SameOutsideOne(data, n1, t);
        data := Put(data, n1, t);
        jumps := Join(s, n, t);
        JoinKeeps(target, d, data, s, n, t, n1);
        r := n;
      }
    }
  }

  /** The first k jumps of ps carry exactly the patched words. */
  ghost predicate PatchedArm(d: seq<byte>, e: seq<byte>, ps: seq<int>, k: nat, a: int) {
    k <= |ps| && forall i :: 0 <= i < k ==>
      Slot(Arm, d, ps[i]) && Slot(Arm, e, ps[i]) && ArmPatch(Word(d, ps[i]), ps[i], a) == Some(Word(e, ps[i]))
  }

  lemma A64InRange(p: int, a: int)
    requires 0 <= p < INT && 0 <= a < INT
    ensures A64Patch(p, a).Some? <==> -0x800_0000 <= a - p < 0x800_0000
  {
  }

  function Code4(ws: seq<nat>): seq<byte> {
    if ws == [] then [] else Code4(ws[..|ws| - 1]) + Bytes4(ws[|ws| - 1])
  }

  lemma {:induction false} Code4Length(ws: seq<nat>)
    ensures |Code4(ws)| == 4 * |ws|
  {
    if ws != [] {
      Code4Length(ws[..|ws| - 1]);
    }
  }

  type Register = r: nat | r < 31

  /** What an A64 conditional jump tests: a vector register of a float or double, one of a long double with the two
    * integer registers it is moved to, or an integer register. */
  datatype Compared = Floating(f: Register, wide: bool) | LongDouble(f: Register, a: Register, b: Register)
                    | Whole(a: Register, wide: bool)

  function Bit(b: bool): nat { if b then 1 else 0 }

  /** The words in front of the jump. */
  function SkipWords(v: Compared, inv: bool): seq<nat> {
    match v
    case LongDouble(f, a, b) =>
      [0x4e08_3c00 + a + f * 0x20, 0x4e18_3c00 + b + f * 0x20, 0xaa00_0400 + a + a * 0x20 + b * 0x1_0000,
       0xb400_0040 + a + Bit(inv) * 0x100_0000]
    case Floating(f, wide) => [0x1e20_2008 + f * 0x20 + Bit(wide) * 0x40_0000, 0x5400_0040 + Bit(inv)]
    case Whole(a, wide) => [0x3400_0040 + a + Bit(inv) * 0x100_0000 + Bit(wide) * 0x8000_0000]
  }

  lemma SkipCount(v: Compared, inv: bool)
    ensures 1 <= |SkipWords(v, inv)| <= 4
  {
  }

  const M19: nat := 0x8_0000

  /** A conditional branch of AArch64: on a register being zero or not, or on the flags being equal or not. */
  datatype Branch = Cbz(wide: bool, nonzero: bool, r: nat, offset: int) | BCond(cond: nat, offset: int)

  function BranchOf(w: nat): Option<Branch> {
    var offset := 4 * SignExtend(w / 0x20 % M19, 0x4_0000);
    if w / 0x200_0000 % 0x40 == 0x1a && w < M32 then
      Some(Cbz(w / 0x8000_0000 == 1, w / 0x100_0000 % 2 == 1, w % 0x20, offset))
    else if w / 0x100_0000 == 0x54 && w / 0x10 % 2 == 0 then Some(BCond(w % 0x10, offset))
    else None
  }

  /** The last word skips the jump behind it: on zero, or if inv is set on anything else. */
  lemma SkipSkips(v: Compared, inv: bool)
    ensures |SkipWords(v, inv)| > 0
    ensures BranchOf(SkipWords(v, inv)[|SkipWords(v, inv)| - 1]) ==
      Some(match v
           case LongDouble(_, a, _) => Cbz(true, inv, a, 8)
           case Floating(_, _) => BCond(Bit(inv), 8)
           case Whole(a, wide) => Cbz(wide, inv, a, 8))
  {
    match v {
      case LongDouble(_, a, _) => SkipCbz(a, inv, true);
      case Floating(_, _) =>
      case Whole(a, wide) => SkipCbz(a, inv, wide);
    }
  }

  lemma SkipCbz(a: Register, inv: bool, wide: bool)
    ensures BranchOf(0x3400_0040 + a + Bit(inv) * 0x100_0000 + Bit(wide) * 0x8000_0000) == Some(Cbz(wide, inv, a, 8))
  {
  }

  datatype CC = ULT | UGE | EQ | NE | ULE | UGT | Nset | Nclear | LT | GE | LE | GT | Unexpected

  /** The condition nibble of an ARM instruction. */
  function MapCC(cc: CC): (c: Option<nat>)
    ensures c.Some? ==> c.value < 14
  {
    match cc
    case ULT => Some(3)
    case UGE => Some(2)
    case EQ => Some(0)
    case NE => Some(1)
    case ULE => Some(9)
    case UGT => Some(8)
    case Nset => Some(4)
    case Nclear => Some(5)
    case LT => Some(11)
    case GE => Some(10)
    case LE => Some(13)
    case GT => Some(12)
    case Unexpected => None
  }

  function Last(ps: seq<int>): int {
    if |ps| == 0 then 0 else ps[|ps| - 1]
  }

  lemma ArmJumpWord(cond: nat, r: int, t: int, w: nat)
    requires cond < 16 && EncBranch(r, t).Some? && w == cond * 0x1000_0000 + EncBranch(r, t).value
    ensures w < M32 && (InField(r, t) ==> LinksTo(Arm, w, r, t))
  {
    var x := Quarter(t - (r + 8)) % M24;
    DivUnique(M24, cond * 16 + 10, x, w);
  }

  lemma ArmLinkWord(w: nat, r: int, t: int, v: nat)
    requires w < M32 && w / M24 % 16 == 10 && EncBranch(r, t).Some? && v == MergeBranch(w, EncBranch(r, t).value)
    ensures v < M32 && (InField(r, t) ==> LinksTo(Arm, v, r, t))
  {
    var x := Quarter(t - (r + 8)) % M24;
    DivUnique(M24, w / M24, x, v);
  }

  lemma SameOutsideOne(d: seq<byte>, p: int, v: nat)
    requires 0 <= p && p + 4 <= |d|
    ensures SameOutside(d, Put(d, p, v), [p])
  {
    forall i | 0 <= i < |d| && Outside([p], i) ensures Put(d, p, v)[i] == d[i] {
      assert i < [p][0] || [p][0] + 4 <= i;
    }
  }
}
