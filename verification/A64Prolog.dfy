/** The stores of the AArch64 prologue: where the callee finds the parameters that came in registers. */
module A64Prolog {
  import opened Binary
  import opened TextSection
  import opened A64Pcs

  /** One byte of an integer or vector register. */
  datatype Cell = Cell(vector: bool, reg: nat, index: nat)

  /** The low bytes of a register, as many as size, stored at an offset from sp. */
  datatype Store = Store(vector: bool, reg: nat, offset: nat, size: nat)

  function Pair(vector: bool, w: nat, offset: nat, size: nat): seq<Store> {
    [Store(vector, w % 32, offset, size), Store(vector, w / 0x400 % 32, offset + size, size)]
  }

  function SevenBits(w: nat): nat { w / 0x8000 % 128 }

  function TwelveBits(w: nat): nat { w / 0x400 % 0x1000 }

  /** What a word stores relative to sp, which a store with writeback has moved already. */
  function Decode(w: nat): seq<Store> {
    var kind := w / 0x40_0000;
    if w / 0x20 % 32 != 31 then []
    else if kind == 0x2a6 then Pair(false, w, 0, 8) // stp xt1, xt2, [sp, #imm]!
    else if kind == 0x2a4 && SevenBits(w) < 64 then Pair(false, w, SevenBits(w) * 8, 8) // stp xt1, xt2, [sp, #imm]
    else if kind == 0x2b4 && SevenBits(w) < 64 then Pair(true, w, SevenBits(w) * 16, 16) // stp qt1, qt2, [sp, #imm]
    else if kind == 0x2f4 then [Store(true, w % 32, TwelveBits(w) * 4, 4)] // str st, [sp, #imm]
    else if kind == 0x3f4 then [Store(true, w % 32, TwelveBits(w) * 8, 8)] // str dt, [sp, #imm]
    else []
  }

  function Executed(ws: seq<nat>): seq<Store> {
    if ws == [] then [] else Executed(ws[..|ws| - 1]) + Decode(ws[|ws| - 1])
  }

  /** What the byte at an offset from sp holds after the stores, if they reach it. */
  function ByteAt(ss: seq<Store>, o: nat): Option<Cell> {
    if ss == [] then None
    else
      var s := ss[|ss| - 1];
      if s.offset <= o < s.offset + s.size then Some(Cell(s.vector, s.reg, o - s.offset)) else ByteAt(ss[..|ss| - 1], o)
  }

  lemma ExecutedNext(ws: seq<nat>, w: nat)
    ensures Executed(ws + [w]) == Executed(ws) + Decode(w)
  {
    assert (ws + [w])[..|ws|] == ws;
  }

  lemma ExecutedAfter(us: seq<nat>, ws: seq<nat>, w: nat)
    ensures Executed(us + (ws + [w])) == Executed(us + ws) + Decode(w)
  {
    ExecutedNext(us + ws, w);
    assert us + ws + [w] == us + (ws + [w]);
  }

  lemma ByteNext(ss: seq<Store>, s: Store, o: nat)
    ensures ByteAt(ss + [s], o) ==
      if s.offset <= o < s.offset + s.size then Some(Cell(s.vector, s.reg, o - s.offset)) else ByteAt(ss, o)
  {
    assert (ss + [s])[..|ss|] == ss;
  }

  /** The bytes from offset on hold the low bytes of the register. */
  ghost predicate Holds(ss: seq<Store>, vector: bool, reg: nat, offset: nat, size: nat) {
    forall o :: offset <= o < offset + size ==> ByteAt(ss, o) == Some(Cell(vector, reg, o - offset))
  }

  /** Register first + w is w widths behind base. */
  ghost predicate PartAt(ss: seq<Store>, vector: bool, first: nat, w: nat, base: nat, width: nat) {
    Holds(ss, vector, first + w, base + width * w, width)
  }

  ghost predicate PartsAt(ss: seq<Store>, vector: bool, first: nat, count: nat, base: nat, width: nat) {
    forall w: nat :: w < count ==> PartAt(ss, vector, first, w, base, width)
  }

  lemma HoldsNew(ss: seq<Store>, s: Store)
    ensures Holds(ss + [s], s.vector, s.reg, s.offset, s.size)
  {
    forall o: nat | s.offset <= o < s.offset + s.size
      ensures ByteAt(ss + [s], o) == Some(Cell(s.vector, s.reg, o - s.offset))
    {
      ByteNext(ss, s, o);
    }
  }

  predicate Clear(s: Store, lo: nat, hi: nat) { s.offset + s.size <= lo || hi <= s.offset }

  lemma HoldsStill(ss: seq<Store>, s: Store, vector: bool, reg: nat, offset: nat, size: nat)
    requires Holds(ss, vector, reg, offset, size) && Clear(s, offset, offset + size)
    ensures Holds(ss + [s], vector, reg, offset, size)
  {
    forall o: nat | offset <= o < offset + size
      ensures ByteAt(ss + [s], o) == Some(Cell(vector, reg, o - offset))
    {
      ByteNext(ss, s, o);
    }
  }

  /** Part w lies inside the parts of any greater width. */
  lemma PartInside(width: nat, most: nat, w: nat, count: nat)
    requires width <= most && w < count
    ensures width * w + width <= most * count
  {
    assert width * w + width == width * (w + 1);
    assert width * (w + 1) <= most * (w + 1) <= most * count;
  }

  /** A store outside the room for the parts leaves them. */
  lemma PartsStill(ss: seq<Store>, s: Store, vector: bool, first: nat, count: nat, base: nat, width: nat, most: nat)
    requires PartsAt(ss, vector, first, count, base, width) && width <= most && Clear(s, base, base + most * count)
    ensures PartsAt(ss + [s], vector, first, count, base, width)
  {
    forall w: nat | w < count
      ensures PartAt(ss + [s], vector, first, w, base, width)
    {
      assert PartAt(ss, vector, first, w, base, width);
      PartInside(width, most, w, count);
      HoldsStill(ss, s, vector, first + w, base + width * w, width);
    }
  }

  /** The store of the next part. */
  function PartStore(vector: bool, first: nat, w: nat, base: nat, width: nat): Store {
    Store(vector, first + w, base + width * w, width)
  }

  lemma PartsNext(ss: seq<Store>, vector: bool, first: nat, w: nat, base: nat, width: nat)
    requires PartsAt(ss, vector, first, w, base, width)
    ensures PartsAt(ss + [PartStore(vector, first, w, base, width)], vector, first, w + 1, base, width)
  {
    var s := PartStore(vector, first, w, base, width);
    PartsStill(ss, s, vector, first, w, base, width, width);
    HoldsNew(ss, s);
    hide Holds;
    assert PartAt(ss + [s], vector, first, w, base, width);
  }

  // The words of the prologue.

  const PUSH_FRAME: nat := 0xa9b2_7bfd
  const SAVE_X8: nat := 0xa909_23e8

  function StpX(i: nat): nat { 0xa90a_07e0 + i * 0x1_0000 + i * 0x800 + i * 2 }

  function StpQ(i: nat): nat { 0xad00_87e0 + i * 0x1_0000 + i * 0x800 + i * 2 }

  /** str of an s or d register at imm units of its size. */
  function StrWord(size: nat, imm: nat, reg: nat): nat {
    (if size == 8 then 0xfd00_03e0 else 0xbd00_03e0) + reg + imm * 0x400
  }

  lemma PushStores()
    ensures Decode(PUSH_FRAME) == [Store(false, 29, 0, 8), Store(false, 30, 8, 8)]
    ensures (SevenBits(PUSH_FRAME) - 128) * 8 == -224
  {
  }

  lemma X8Stores()
    ensures Decode(SAVE_X8) == [Store(false, 8, 144, 8), Store(false, 8, 152, 8)]
  {
  }

  lemma PairFields(top: nat, imm7: nat, r: nat, w: nat)
    requires imm7 < 64 && r < 31 && w == top * 0x40_0000 + imm7 * 0x8000 + (r + 1) * 0x400 + 0x3e0 + r
    ensures w / 0x40_0000 == top && SevenBits(w) == imm7 && w / 0x400 % 32 == r + 1 && w / 0x20 % 32 == 31
    ensures w % 32 == r
  {
    DivUnique(0x40_0000, top, imm7 * 0x8000 + (r + 1) * 0x400 + 0x3e0 + r, w);
    DivUnique(0x8000, top * 128 + imm7, (r + 1) * 0x400 + 0x3e0 + r, w);
    DivUnique(128, top, imm7, w / 0x8000);
    DivUnique(0x400, (top * 128 + imm7) * 32 + r + 1, 0x3e0 + r, w);
    DivUnique(32, top * 128 + imm7, r + 1, w / 0x400);
    DivUnique(0x20, ((top * 128 + imm7) * 32 + r + 1) * 32 + 31, r, w);
    DivUnique(32, (top * 128 + imm7) * 32 + r + 1, 31, w / 0x20);
  }

  lemma PairStores(i: nat)
    requires i < 4
    ensures Decode(StpX(i)) == [PartStore(false, 0, 2 * i, 160, 8), PartStore(false, 0, 2 * i + 1, 160, 8)]
    ensures Decode(StpQ(i)) == [PartStore(true, 0, 2 * i, 16, 16), PartStore(true, 0, 2 * i + 1, 16, 16)]
  {
    PairFields(0x2a4, 20 + 2 * i, 2 * i, StpX(i));
    PairFields(0x2b4, 1 + 2 * i, 2 * i, StpQ(i));
    hide StpX, StpQ, SevenBits;
  }

  lemma StrStores(size: nat, imm: nat, reg: nat)
    requires (size == 4 || size == 8) && imm < 0x1000 && reg < 32
    ensures Decode(StrWord(size, imm, reg)) == [Store(true, reg, imm * size, size)]
  {
    var w := StrWord(size, imm, reg);
    var top := if size == 8 then 0x3f4 else 0x2f4;
    DivUnique(0x40_0000, top, 0x3e0 + reg + imm * 0x400, w);
    DivUnique(0x20, top * 0x2_0000 + imm * 32 + 31, reg, w);
    DivUnique(0x400, top * 0x1000 + imm, 0x3e0 + reg, w);
  }

  // Where the parameters are.

  /** The offset of a parameter from sp. */
  function FrameOffset(a: nat): nat {
    if a < 16 then 160 + a / 2 * 8 else if a < 32 then 16 + (a - 16) / 2 * 16 else 224 + (a - 32) / 2 * 2
  }

  /** The bytes from one register of a parameter in vector registers to the next. */
  function Width(t: Type): nat { if t.hfa > 0 then t.member else t.size }

  /** Every register of the parameter is where the callee reads that part of it: words 8 bytes apart, the members of a
    * float aggregate their own size apart. */
  ghost predicate Found(ss: seq<Store>, t: Type, a: nat) {
    match SlotOf(t, a)
    case Gpr(f, c) => PartsAt(ss, false, f, c, FrameOffset(a), 8)
    case Vec(f, c) => PartsAt(ss, true, f, c, FrameOffset(a), Width(t))
    case Mem(o, _) => FrameOffset(a) == 224 + o
  }

  /** The same before the members of aggregates are stored again: whole vector registers are 16 bytes apart. */
  ghost predicate Saved(ss: seq<Store>, t: Type, a: nat) {
    match SlotOf(t, a)
    case Gpr(f, c) => PartsAt(ss, false, f, c, FrameOffset(a), 8)
    case Vec(f, c) => PartsAt(ss, true, f, c, FrameOffset(a), 16)
    case Mem(o, _) => FrameOffset(a) == 224 + o
  }

  /** The registers behind the frame record and x8, and nothing at the arguments on the stack. */
  ghost predicate Frame(ss: seq<Store>, x8: bool) {
    && Holds(ss, false, 29, 0, 8) && Holds(ss, false, 30, 8, 8) && (x8 ==> Holds(ss, false, 8, 144, 8))
    && forall o :: o >= 224 ==> ByteAt(ss, o) == None
  }

  lemma FrameStill(ss: seq<Store>, s: Store, x8: bool)
    requires Frame(ss, x8) && s.offset >= 16 && s.offset + s.size <= 224 && Clear(s, 144, 152)
    ensures Frame(ss + [s], x8)
  {
    HoldsStill(ss, s, false, 29, 0, 8);
    HoldsStill(ss, s, false, 30, 8, 8);
    if x8 {
      HoldsStill(ss, s, false, 8, 144, 8);
    }
    hide Holds;
    forall o: nat | o >= 224
      ensures ByteAt(ss + [s], o) == None
    {
      ByteNext(ss, s, o);
    }
  }

  /** The first registers of each kind are saved in order. */
  ghost predicate Raw(ss: seq<Store>, lastFloat: nat, lastInt: nat) {
    PartsAt(ss, true, 0, 2 * lastFloat, 16, 16) && PartsAt(ss, false, 0, 2 * lastInt, 160, 8)
  }

  lemma SubParts(ss: seq<Store>, vector: bool, all: nat, base: nat, width: nat, first: nat, count: nat)
    requires PartsAt(ss, vector, 0, all, base, width) && first + count <= all
    ensures PartsAt(ss, vector, first, count, base + width * first, width)
  {
    hide Holds;
    var start := base + width * first;
    forall w: nat | w < count
      ensures PartAt(ss, vector, first, w, start, width)
    {
      assert PartAt(ss, vector, 0, first + w, base, width);
      assert width * (first + w) == width * first + width * w;
    }
  }

  lemma OffsetOf(ts: seq<Type>, i: nat)
    requires AllLegal(ts) && AllAligned(ts) && i < |ts|
    ensures var a := Location(ts, i);
      match SlotOf(ts[i], a)
      case Gpr(f, c) => FrameOffset(a) == 160 + 8 * f && f + c <= 8
      case Vec(f, c) => FrameOffset(a) == 16 + 16 * f && f + c <= 8 && 16 <= a < 32
      case Mem(o, _) => FrameOffset(a) == 224 + o
  {
    ArgumentInside(ts, i);
    hide Location, Legal;
  }

  lemma SavedFirst(ss: seq<Store>, ts: seq<Type>, i: nat, lastInt: nat, lastFloat: nat)
    requires AllLegal(ts) && AllAligned(ts) && i < |ts| && Raw(ss, lastFloat, lastInt)
    requires Saves(SlotOf(ts[i], Location(ts, i)), lastInt, lastFloat)
    ensures Saved(ss, ts[i], Location(ts, i))
  {
    OffsetOf(ts, i);
    hide PartsAt, Location, Legal, SlotOf, FrameOffset;
    match SlotOf(ts[i], Location(ts, i)) {
      case Gpr(f, c) => SubParts(ss, false, 2 * lastInt, 160, 8, f, c);
      case Vec(f, c) => SubParts(ss, true, 2 * lastFloat, 16, 16, f, c);
      case Mem(_, _) =>
    }
  }

  /** A parameter in vector registers with members of less than 16 bytes, which are stored again. */
  predicate StoredAgain(t: Type, a: nat) { 16 <= a < 32 && t.kind.Struct? && t.member < 16 }

  lemma WidthFits(ts: seq<Type>, i: nat)
    requires AllLegal(ts) && AllAligned(ts) && i < |ts| && SlotOf(ts[i], Location(ts, i)).Vec?
    ensures Width(ts[i]) <= 16 && (ts[i].kind.Struct? <==> ts[i].hfa > 0)
    ensures SlotOf(ts[i], Location(ts, i)).count == if ts[i].hfa > 0 then ts[i].hfa else 1
    ensures ts[i].hfa > 0 ==> Width(ts[i]) == 4 || Width(ts[i]) == 8 || Width(ts[i]) == 16
  {
    ArgumentBetween(ts, i);
    assert Legal(ts[i]);
    hide Location, After, Legal;
    KindOf(ts[i]);
  }

  lemma KindOf(t: Type)
    requires Legal(t)
    ensures InVectors(t) ==> (t.kind.Struct? <==> t.hfa > 0) && Width(t) <= 16
    ensures t.hfa > 0 ==> Width(t) == 4 || Width(t) == 8 || Width(t) == 16
  {
  }

  /** Where nothing is stored again, what is saved is found: the low bytes of a vector register come first. */
  lemma SavedFound(ss: seq<Store>, ts: seq<Type>, i: nat)
    requires AllLegal(ts) && AllAligned(ts) && i < |ts|
    requires Saved(ss, ts[i], Location(ts, i)) && !StoredAgain(ts[i], Location(ts, i))
    ensures Found(ss, ts[i], Location(ts, i))
  {
    OffsetOf(ts, i);
    if SlotOf(ts[i], Location(ts, i)).Vec? {
      WidthFits(ts, i);
    }
    hide Location, Legal, FrameOffset, Holds;
    match SlotOf(ts[i], Location(ts, i)) {
      case Vec(f, c) =>
        if c == 1 && Width(ts[i]) < 16 {
          LowBytes(ss, f, FrameOffset(Location(ts, i)), Width(ts[i]));
        }
      case _ =>
    }
  }

  lemma LowBytes(ss: seq<Store>, f: nat, base: nat, width: nat)
    requires PartsAt(ss, true, f, 1, base, 16) && width < 16
    ensures PartsAt(ss, true, f, 1, base, width)
  {
    assert PartAt(ss, true, f, 0, base, 16);
    assert Holds(ss, true, f, base, width);
  }

  /** The store lies in the room of a parameter's vector registers. */
  predicate InRoom(s: Store, t: Type, a: nat) {
    match SlotOf(t, a)
    case Vec(_, c) => FrameOffset(a) <= s.offset && s.offset + s.size <= FrameOffset(a) + 16 * c
    case _ => false
  }

  /** A store that is clear of a parameter's registers leaves them. */
  lemma ClearStill(ss: seq<Store>, s: Store, t: Type, a: nat)
    requires match SlotOf(t, a)
      case Gpr(_, c) => Clear(s, FrameOffset(a), FrameOffset(a) + 8 * c)
      case Vec(_, c) => Clear(s, FrameOffset(a), FrameOffset(a) + 16 * c) && Width(t) <= 16
      case Mem(_, _) => true
    ensures Found(ss, t, a) ==> Found(ss + [s], t, a)
    ensures Saved(ss, t, a) ==> Saved(ss + [s], t, a)
  {
    hide PartsAt, SlotOf, FrameOffset, Clear, Width;
    match SlotOf(t, a) {
      case Gpr(f, c) =>
        if PartsAt(ss, false, f, c, FrameOffset(a), 8) {
          PartsStill(ss, s, false, f, c, FrameOffset(a), 8, 8);
        }
      case Vec(f, c) =>
        if PartsAt(ss, true, f, c, FrameOffset(a), Width(t)) {
          PartsStill(ss, s, true, f, c, FrameOffset(a), Width(t), 16);
        }
        if PartsAt(ss, true, f, c, FrameOffset(a), 16) {
          PartsStill(ss, s, true, f, c, FrameOffset(a), 16, 16);
        }
      case Mem(_, _) =>
    }
  }

  /** A store in the room of parameter m leaves every other parameter as it was. */
  lemma OtherStill(ss: seq<Store>, s: Store, ts: seq<Type>, m: nat, k: nat)
    requires AllLegal(ts) && AllAligned(ts) && m < |ts| && k < |ts| && m != k && InRoom(s, ts[m], Location(ts, m))
    ensures Found(ss, ts[k], Location(ts, k)) ==> Found(ss + [s], ts[k], Location(ts, k))
    ensures Saved(ss, ts[k], Location(ts, k)) ==> Saved(ss + [s], ts[k], Location(ts, k))
  {
    hide Found, Saved, Location, Legal, SlotOf, FrameOffset, Width;
    OffsetOf(ts, m);
    OffsetOf(ts, k);
    if m < k {
      ArgumentsApart(ts, m, k);
    } else {
      ArgumentsApart(ts, k, m);
    }
    if SlotOf(ts[k], Location(ts, k)).Vec? {
      WidthFits(ts, k);
    }
    ClearStill(ss, s, ts[k], Location(ts, k));
  }

  /** Parameters before i are found, parameters from n on are saved. */
  ghost predicate Stage(ss: seq<Store>, ts: seq<Type>, i: nat, n: nat)
    requires AllAligned(ts)
  {
    && (forall k: nat :: k < i && k < |ts| ==> Found(ss, ts[k], Location(ts, k)))
    && (forall k: nat :: n <= k < |ts| ==> Saved(ss, ts[k], Location(ts, k)))
  }

  lemma StageStill(ss: seq<Store>, s: Store, ts: seq<Type>, m: nat)
    requires AllLegal(ts) && AllAligned(ts) && m < |ts| && Stage(ss, ts, m, m + 1) && InRoom(s, ts[m], Location(ts, m))
    ensures Stage(ss + [s], ts, m, m + 1)
  {
    hide Found, Saved, Location, Legal, InRoom;
    forall k: nat | k < |ts| && k != m
      ensures Found(ss, ts[k], Location(ts, k)) ==> Found(ss + [s], ts[k], Location(ts, k))
      ensures Saved(ss, ts[k], Location(ts, k)) ==> Saved(ss + [s], ts[k], Location(ts, k))
    {
      OtherStill(ss, s, ts, m, k);
    }
  }

  lemma Exact(off: nat, size: nat)
    requires (size == 4 || size == 8) && off % 16 == 0
    ensures off / size * size == off && off / size <= off
  {
    var q := off / 16;
    DivUnique(4, 4 * q, 0, off);
    DivUnique(8, 2 * q, 0, off);
  }

  lemma Distribute(u: nat, j: nat, size: nat)
    ensures (u + j) * size == u * size + size * j
  {
  }

  /** The str of member j of a parameter at off. */
  function StrOf(t: Type, a: nat, off: nat, j: nat): nat
    requires t.member > 0 && a >= 16
  {
    StrWord(t.member, off / t.member + j, (a - 16) / 2 + j)
  }

  /** If rest is at most 8: it is behind the parameters' vector registers, and those from it on are still where they
    * were saved, as are all integer registers. This is what variadic arguments are read from. */
  ghost predicate Rest(ss: seq<Store>, ts: seq<Type>, rest: nat)
    requires AllAligned(ts)
  {
    rest <= 8 ==>
      && After(ts).nv <= rest && PartsAt(ss, false, 0, 8, 160, 8)
      && forall r: nat :: rest <= r < 8 ==> PartAt(ss, true, 0, r, 16, 16)
  }

  lemma RestStill(ss: seq<Store>, s: Store, ts: seq<Type>, rest: nat)
    requires AllAligned(ts) && Rest(ss, ts, rest) && s.offset + s.size <= 144
    requires rest <= 8 ==> s.offset + s.size <= 16 + 16 * rest
    ensures Rest(ss + [s], ts, rest)
  {
    hide After;
    if rest <= 8 {
      PartsStill(ss, s, false, 0, 8, 160, 8, 8);
      forall r: nat | rest <= r < 8
        ensures PartAt(ss + [s], true, 0, r, 16, 16)
      {
        assert PartAt(ss, true, 0, r, 16, 16);
        HoldsStill(ss, s, true, r, 16 + 16 * r, 16);
      }
    }
  }

  lemma RestBounds(ss: seq<Store>, ts: seq<Type>, rest: nat)
    requires AllAligned(ts) && Rest(ss, ts, rest)
    ensures rest <= 8 ==> After(ts).nv <= rest
  {
  }

  lemma RestStarts(ss: seq<Store>, ts: seq<Type>, lastFloat: nat, lastInt: nat, rest: nat)
    requires AllAligned(ts) && Raw(ss, lastFloat, lastInt)
    requires rest <= 8 ==> rest == After(ts).nv && lastFloat == lastInt == 4
    ensures Rest(ss, ts, rest)
  {
    hide After, PartAt;
  }

  /** The vector registers of parameter m end where those of all parameters do, or before. */
  lemma RoomBelow(ts: seq<Type>, m: nat)
    requires AllLegal(ts) && AllAligned(ts) && m < |ts| && SlotOf(ts[m], Location(ts, m)).Vec?
    ensures var slot := SlotOf(ts[m], Location(ts, m)); slot.first + slot.count <= After(ts).nv
  {
    ArgumentBetween(ts, m);
    AfterGrows(ts, m + 1, |ts|);
    assert ts[..|ts|] == ts;
    hide Legal, Location, After;
  }

  /** The first j members of parameter m are stored; the other parameters are as they were. */
  ghost predicate Storing(ss: seq<Store>, ts: seq<Type>, m: nat, j: nat, x8: bool, rest: nat)
    requires AllAligned(ts) && m < |ts|
  {
    var a := Location(ts, m);
    && Stage(ss, ts, m, m + 1) && Frame(ss, x8) && Rest(ss, ts, rest)
    && SlotOf(ts[m], a).Vec? && PartsAt(ss, true, SlotOf(ts[m], a).first, j, FrameOffset(a), Width(ts[m]))
  }

  /** The store of member j of parameter m. */
  function MemberStore(t: Type, a: nat, j: nat): Store
    requires SlotOf(t, a).Vec?
  {
    PartStore(true, SlotOf(t, a).first, j, FrameOffset(a), Width(t))
  }

  lemma MemberInRoom(ts: seq<Type>, m: nat, j: nat)
    requires AllLegal(ts) && AllAligned(ts) && m < |ts| && SlotOf(ts[m], Location(ts, m)).Vec?
    requires j < SlotOf(ts[m], Location(ts, m)).count
    ensures var s := MemberStore(ts[m], Location(ts, m), j);
      InRoom(s, ts[m], Location(ts, m)) && 16 <= s.offset && s.offset + s.size <= 144
    ensures var s := MemberStore(ts[m], Location(ts, m), j); s.offset + s.size <= 16 + 16 * After(ts).nv
  {
    RoomBelow(ts, m);
    OffsetOf(ts, m);
    WidthFits(ts, m);
    var slot := SlotOf(ts[m], Location(ts, m));
    hide Legal, Location, FrameOffset, SlotOf, Width, After;
    PartInside(Width(ts[m]), 16, j, slot.count);
  }

  lemma StoringNext(ss: seq<Store>, ts: seq<Type>, m: nat, j: nat, x8: bool, rest: nat)
    requires AllLegal(ts) && AllAligned(ts) && m < |ts| && Storing(ss, ts, m, j, x8, rest)
    requires j < SlotOf(ts[m], Location(ts, m)).count
    ensures Storing(ss + [MemberStore(ts[m], Location(ts, m), j)], ts, m, j + 1, x8, rest)
  {
    hide Legal, Location, Stage, Frame, PartsAt, FrameOffset, SlotOf, Width, InRoom, After;
    RestBounds(ss, ts, rest);
    hide Rest;
    var a := Location(ts, m);
    var s := MemberStore(ts[m], a, j);
    MemberInRoom(ts, m, j);
    StageStill(ss, s, ts, m);
    FrameStill(ss, s, x8);
    RestStill(ss, s, ts, rest);
    PartsNext(ss, true, SlotOf(ts[m], a).first, j, FrameOffset(a), Width(ts[m]));
  }

  lemma StrOfStores(t: Type, a: nat, off: nat, j: nat)
    requires (t.member == 4 || t.member == 8) && off % 16 == 0 && off < 256 && j < 4 && 16 <= a < 32
    ensures Decode(StrOf(t, a, off, j)) == [PartStore(true, (a - 16) / 2, j, off, t.member)]
  {
    Exact(off, t.member);
    var u := off / t.member;
    Distribute(u, j, t.member);
    hide Decode, StrWord;
    StrStores(t.member, u + j, (a - 16) / 2 + j);
  }

  lemma MemberWord(ts: seq<Type>, m: nat, j: nat)
    requires AllLegal(ts) && AllAligned(ts) && m < |ts| && StoredAgain(ts[m], Location(ts, m)) && j < ts[m].hfa
    ensures var a := Location(ts, m);
      && ts[m].member > 0 && SlotOf(ts[m], a).Vec? && j < SlotOf(ts[m], a).count
      && Decode(StrOf(ts[m], a, FrameOffset(a), j)) == [MemberStore(ts[m], a, j)]
  {
    var a := Location(ts, m);
    SlotKind(ts[m], a);
    OffsetOf(ts, m);
    WidthFits(ts, m);
    assert SlotOf(ts[m], a).first == (a - 16) / 2;
    assert Width(ts[m]) == ts[m].member && (ts[m].member == 4 || ts[m].member == 8) && ts[m].hfa <= 4;
    assert FrameOffset(a) % 16 == 0 && FrameOffset(a) < 256;
    hide *;
    StrOfStores(ts[m], a, FrameOffset(a), j);
    MemberStoreIs(ts[m], a, j);
  }

  lemma MemberStoreIs(t: Type, a: nat, j: nat)
    requires SlotOf(t, a).Vec? && 16 <= a
    ensures MemberStore(t, a, j) == PartStore(true, SlotOf(t, a).first, j, FrameOffset(a), Width(t))
  {
  }

  /** The member loop for parameter m. */
  method StoreMembers(text: Text<nat>, ts: seq<Type>, m: nat, a: nat, off: nat, ghost ws0: seq<nat>, ghost x8: bool,
                      ghost rest: nat)
    returns (ghost ws: seq<nat>)
    requires AllLegal(ts) && AllAligned(ts) && m < |ts| && a == Location(ts, m) && off == FrameOffset(a)
    requires StoredAgain(ts[m], a) && Storing(Executed(ws0), ts, m, 0, x8, rest)
    modifies text
    ensures text.code == old(text.code) + ws
    ensures Storing(Executed(ws0 + ws), ts, m, SlotOf(ts[m], a).count, x8, rest)
  {
    SlotKind(ts[m], a);
    WidthFits(ts, m);
    hide Legal, Location, Storing, Decode, Executed, StrOf, FrameOffset, SlotOf, Width, AllAligned, AllLegal,
      MemberStore, StoredAgain;
    var k := ts[m].hfa;
    ws := [];
    assert ws0 + [] == ws0;
    var j := 0;
    while j < k
      invariant 0 <= j <= k && text.code == old(text.code) + ws && Storing(Executed(ws0 + ws), ts, m, j, x8, rest)
    {
      MemberWord(ts, m, j);
      StoringNext(Executed(ws0 + ws), ts, m, j, x8, rest);
      var w := StrOf(ts[m], a, off, j);
      text.O(w);
      ExecutedAfter(ws0, ws, w);
      ws := ws + [w];
      j := j + 1;
    }
  }

  lemma NoParts(ss: seq<Store>, vector: bool, f: nat, base: nat, width: nat)
    ensures PartsAt(ss, vector, f, 0, base, width)
  {
  }

  lemma StageNext(ss: seq<Store>, ts: seq<Type>, m: nat)
    requires AllAligned(ts) && m < |ts| && Stage(ss, ts, m, m + 1) && Found(ss, ts[m], Location(ts, m))
    ensures Stage(ss, ts, m + 1, m + 1)
  {
    hide Found, Saved, Location;
  }

  /** What the prologue's stores leave of all parameters. */
  ghost predicate AllFound(ss: seq<Store>, ts: seq<Type>)
    requires AllAligned(ts)
  {
    forall i: nat :: i < |ts| ==> Found(ss, ts[i], Location(ts, i))
  }

  lemma StageEnds(ss: seq<Store>, ts: seq<Type>)
    requires AllAligned(ts)
    ensures Stage(ss, ts, |ts|, |ts|) ==> AllFound(ss, ts)
  {
    hide Found, Location;
  }

  /** A parameter that needs no second store. */
  lemma StageSkip(ss: seq<Store>, ts: seq<Type>, m: nat)
    requires AllLegal(ts) && AllAligned(ts) && m < |ts| && Stage(ss, ts, m, m) && !StoredAgain(ts[m], Location(ts, m))
    ensures Stage(ss, ts, m + 1, m + 1)
  {
    hide Found, Saved, Location, Legal, StoredAgain;
    SavedFound(ss, ts, m);
  }

  lemma StoringStarts(ss: seq<Store>, ts: seq<Type>, m: nat, x8: bool, rest: nat)
    requires AllLegal(ts) && AllAligned(ts) && m < |ts| && Stage(ss, ts, m, m) && Frame(ss, x8) && Rest(ss, ts, rest)
    requires StoredAgain(ts[m], Location(ts, m))
    ensures Storing(ss, ts, m, 0, x8, rest)
  {
    SlotKind(ts[m], Location(ts, m));
    hide Found, Saved, Location, Legal, Frame, SlotOf;
    NoParts(ss, true, SlotOf(ts[m], Location(ts, m)).first, FrameOffset(Location(ts, m)), Width(ts[m]));
  }

  lemma StoringEnds(ss: seq<Store>, ts: seq<Type>, m: nat, x8: bool, rest: nat)
    requires AllAligned(ts) && m < |ts| && SlotOf(ts[m], Location(ts, m)).Vec?
    requires Storing(ss, ts, m, SlotOf(ts[m], Location(ts, m)).count, x8, rest)
    ensures Stage(ss, ts, m + 1, m + 1) && Frame(ss, x8) && Rest(ss, ts, rest)
  {
    assert Found(ss, ts[m], Location(ts, m));
    StageNext(ss, ts, m);
    hide *;
  }

  /** The registers saved so far, and the frame record. */
  ghost predicate Saving(ss: seq<Store>, lastFloat: nat, lastInt: nat, x8: bool) {
    Raw(ss, lastFloat, lastInt) && Frame(ss, x8)
  }

  lemma ExecutedOne(w: nat)
    ensures Executed([w]) == Decode(w)
  {
    hide Decode;
    ExecutedNext([], w);
    assert [] + [w] == [w] && [] + Decode(w) == Decode(w);
  }

  lemma FrameRecord(s: Store, t: Store)
    requires s == Store(false, 29, 0, 8) && t == Store(false, 30, 8, 8)
    ensures Saving([s, t], 0, 0, false)
  {
    assert [] + [s] == [s] && [s] + [t] == [s, t];
    HoldsNew([], s);
    HoldsStill([s], t, false, 29, 0, 8);
    HoldsNew([s], t);
    hide Holds;
    forall o: nat | o >= 224
      ensures ByteAt([s, t], o) == None
    {
      ByteNext([s], t, o);
      ByteNext([], s, o);
    }
  }

  lemma SavingStarts()
    ensures Saving(Executed([PUSH_FRAME]), 0, 0, false)
  {
    PushStores();
    ExecutedOne(PUSH_FRAME);
    hide Decode, Executed, Saving;
    FrameRecord(Store(false, 29, 0, 8), Store(false, 30, 8, 8));
  }

  lemma TwoMore(ss: seq<Store>, s: Store, t: Store)
    ensures ss + [s, t] == ss + [s] + [t]
  {
  }

  lemma SaveFloats(ss: seq<Store>, i: nat, x8: bool)
    requires Saving(ss, i, 0, x8) && i < 4
    ensures Saving(ss + Decode(StpQ(i)), i + 1, 0, x8)
  {
    PairStores(i);
    var s, t := PartStore(true, 0, 2 * i, 16, 16), PartStore(true, 0, 2 * i + 1, 16, 16);
    TwoMore(ss, s, t);
    hide PartsAt, Frame, Decode, StpQ;
    PartsNext(ss, true, 0, 2 * i, 16, 16);
    PartsNext(ss + [s], true, 0, 2 * i + 1, 16, 16);
    FrameStill(ss, s, x8);
    FrameStill(ss + [s], t, x8);
    NoParts(ss + [s] + [t], false, 0, 160, 8);
  }

  lemma SaveX8(ss: seq<Store>, lastFloat: nat)
    requires Saving(ss, lastFloat, 0, false) && lastFloat <= 4
    ensures Saving(ss + Decode(SAVE_X8), lastFloat, 0, true)
  {
    X8Stores();
    var s, t := Store(false, 8, 144, 8), Store(false, 8, 152, 8);
    TwoMore(ss, s, t);
    PartsStill(ss, s, true, 0, 2 * lastFloat, 16, 16, 16);
    PartsStill(ss + [s], t, true, 0, 2 * lastFloat, 16, 16, 16);
    HoldsStill(ss, s, false, 29, 0, 8);
    HoldsStill(ss, s, false, 30, 8, 8);
    HoldsNew(ss, s);
    hide PartsAt, Holds, Decode;
    assert Frame(ss + [s], true) by {
      forall o: nat | o >= 224 ensures ByteAt(ss + [s], o) == None {
        ByteNext(ss, s, o);
      }
    }
    FrameStill(ss + [s], t, true);
    NoParts(ss + [s] + [t], false, 0, 160, 8);
  }

  lemma SaveInts(ss: seq<Store>, lastFloat: nat, i: nat, x8: bool)
    requires Saving(ss, lastFloat, i, x8) && i < 4 && lastFloat <= 4
    ensures Saving(ss + Decode(StpX(i)), lastFloat, i + 1, x8)
  {
    PairStores(i);
    var s, t := PartStore(false, 0, 2 * i, 160, 8), PartStore(false, 0, 2 * i + 1, 160, 8);
    TwoMore(ss, s, t);
    hide PartsAt, Frame, Decode, StpX;
    PartsNext(ss, false, 0, 2 * i, 160, 8);
    PartsNext(ss + [s], false, 0, 2 * i + 1, 160, 8);
    PartsStill(ss, s, true, 0, 2 * lastFloat, 16, 16, 16);
    PartsStill(ss + [s], t, true, 0, 2 * lastFloat, 16, 16, 16);
    FrameStill(ss, s, x8);
    FrameStill(ss + [s], t, x8);
  }

  lemma StageStarts(ss: seq<Store>, ts: seq<Type>, lastInt: nat, lastFloat: nat)
    requires AllLegal(ts) && AllAligned(ts) && Raw(ss, lastFloat, lastInt)
    requires forall i: nat :: i < |ts| ==> Saves(SlotOf(ts[i], Location(ts, i)), lastInt, lastFloat)
    ensures Stage(ss, ts, 0, 0)
  {
    hide Saved, Location, Legal, Raw, Saves, SlotOf;
    forall i: nat | i < |ts|
      ensures Saved(ss, ts[i], Location(ts, i))
    {
      SavedFirst(ss, ts, i, lastInt, lastFloat);
    }
  }

  /** The stores of register pairs: the frame record, the vector registers, x8 and the integer registers. */
  method SaveRegisters(text: Text<nat>, lastInt: nat, lastFloat: nat, useX8: bool) returns (ghost ws: seq<nat>)
    requires lastInt <= 4 && lastFloat <= 4
    modifies text
    ensures text.code == old(text.code) + ws
    ensures Raw(Executed(ws), lastFloat, lastInt) && Frame(Executed(ws), useX8)
  {
    hide Saving, Decode, Executed, Frame, Raw, StpQ, StpX;
    text.O(PUSH_FRAME);
    ws := [PUSH_FRAME];
    SavingStarts();
    var i := 0;
    while i < lastFloat
      invariant 0 <= i <= lastFloat && text.code == old(text.code) + ws && Saving(Executed(ws), i, 0, false)
    {
      SaveFloats(Executed(ws), i, false);
      ExecutedNext(ws, StpQ(i));
      text.O(StpQ(i));
      ws := ws + [StpQ(i)];
      i := i + 1;
    }
    if useX8 {
      SaveX8(Executed(ws), lastFloat);
      ExecutedNext(ws, SAVE_X8);
      text.O(SAVE_X8);
      ws := ws + [SAVE_X8];
    }
    i := 0;
    while i < lastInt
      invariant 0 <= i <= lastInt && text.code == old(text.code) + ws && Saving(Executed(ws), lastFloat, i, useX8)
    {
      SaveInts(Executed(ws), lastFloat, i, useX8);
      ExecutedNext(ws, StpX(i));
      text.O(StpX(i));
      ws := ws + [StpX(i)];
      i := i + 1;
    }
    SavingIs(Executed(ws), lastFloat, lastInt, useX8);
  }

  lemma VectorsFit(ts: seq<Type>)
    requires AllLegal(ts) && AllAligned(ts)
    ensures After(ts).nv <= 8
  {
    AfterTidy(ts, |ts|);
    assert ts[..|ts|] == ts;
    hide After, Legal;
  }

  /** The prologue up to the stores of the parameters. indirect says that the result is returned through x8. */
  method GfuncProlog(text: Text<nat>, ts: seq<Type>, a: seq<nat>, variadic: bool, indirect: bool)
    returns (ghost ws: seq<nat>)
    requires AllLegal(ts) && AllAligned(ts) && |a| == |ts| && forall i :: 0 <= i < |ts| ==> a[i] == Location(ts, i)
    modifies text
    ensures text.code == old(text.code) + ws
    ensures AllFound(Executed(ws), ts) && Frame(Executed(ws), variadic || indirect)
    ensures variadic ==> After(ts).nv <= 8 && Rest(Executed(ws), ts, After(ts).nv)
  {
    hide Legal, Location, Stage, Storing, Executed, SlotOf, Saves, AllFound, Frame, Raw, After, Rest, FrameOffset,
      StoredAgain;
    VectorsFit(ts);
    ghost var rest := if variadic then After(ts).nv else 9;
    var useX8 := variadic || indirect;
    var most := if variadic then 4 else 0;
    var lastInt, lastFloat := CountSaved(ts, a, most, most);
    ws := SaveRegisters(text, lastInt, lastFloat, useX8);
    StageStarts(Executed(ws), ts, lastInt, lastFloat);
    RestStarts(Executed(ws), ts, lastFloat, lastInt, rest);
    var i := 0;
    while i < |ts|
      invariant 0 <= i <= |ts| && text.code == old(text.code) + ws
      invariant Stage(Executed(ws), ts, i, i) && Frame(Executed(ws), useX8) && Rest(Executed(ws), ts, rest)
    {
      var off := FrameOffset(a[i]);
      if StoredAgain(ts[i], a[i]) {
        StoringStarts(Executed(ws), ts, i, useX8, rest);
        InVectorsAgain(ts[i], a[i]);
        ghost var more := StoreMembers(text, ts, i, a[i], off, ws, useX8, rest);
        ws := ws + more;
        StoringEnds(Executed(ws), ts, i, useX8, rest);
      } else {
        StageSkip(Executed(ws), ts, i);
      }
      i := i + 1;
    }
    StageEnds(Executed(ws), ts);
  }

  lemma InVectorsAgain(t: Type, a: nat)
    requires StoredAgain(t, a)
    ensures SlotOf(t, a).Vec?
  {
    SlotKind(t, a);
    hide SlotOf;
  }

  lemma SavingIs(ss: seq<Store>, lastFloat: nat, lastInt: nat, x8: bool)
    requires Saving(ss, lastFloat, lastInt, x8)
    ensures Raw(ss, lastFloat, lastInt) && Frame(ss, x8)
  {
  }
}
