/** Placing the arguments of an AArch64 call, and the registers that the callee saves for them. */
module A64Pcs {
  import opened Binary
  import opened Rounding

  datatype Kind = Struct | Float | Double | LDouble | Int

  /** hfa is the number of members of a homogeneous float aggregate, else 0; member is their size. */
  datatype Type = Type(kind: Kind, size: nat, align: nat, hfa: nat, member: nat)

  predicate IsFloat(t: Type) { t.kind.Float? || t.kind.Double? || t.kind.LDouble? }

  ghost predicate Legal(t: Type) {
    && t.size > 0 && (exists k: nat :: t.align == P(k)) && t.hfa <= 4
    && (t.hfa > 0 ==> t.kind.Struct? && t.size == t.hfa * t.member)
    && (t.hfa > 0 ==> t.member == 4 || t.member == 8 || t.member == 16)
    && (t.kind.Float? ==> t.size == 4 && t.align == 4)
    && (t.kind.Double? ==> t.size == 8 && t.align == 8)
    && (t.kind.LDouble? ==> t.size == 16 && t.align == 16)
    && (t.kind.Int? ==> (t.size <= 8 && t.align <= 8) || (t.size == 16 && t.align == 16))
  }

  ghost predicate AllLegal(ts: seq<Type>) {
    forall i :: 0 <= i < |ts| ==> Legal(ts[i])
  }

  /** Next integer register, next vector register, next stack offset. */
  datatype Next = Next(nx: nat, nv: nat, ns: nat)

  /** B.3: a large argument that is no float aggregate is passed by pointer. */
  predicate ByPointer(t: Type) { t.hfa == 0 && t.size > 16 }

  function Up8(x: nat): nat { RoundUp(x, 8) }

  /** The offset for an argument that is aligned on the stack. */
  function Aligned(ns: nat, align: nat): nat
    requires align > 0
  {
    RoundUp(Up8(ns), align)
  }

  /** The location of one argument: below 16 an integer register, below 32 a vector register, else an offset; bit 0
    * for a pointer. */
  function Place(s: Next, t: Type): (Next, nat)
    requires t.align > 0
  {
    if ByPointer(t) then
      if s.nx < 8 then (s.(nx := s.nx + 1), 2 * s.nx + 1)
      else (s.(ns := Up8(s.ns) + 8), Up8(s.ns) + 1)
    else if IsFloat(t) && s.nv < 8 then (s.(nv := s.nv + 1), 16 + 2 * s.nv)
    else if t.hfa > 0 && s.nv + t.hfa <= 8 then (s.(nv := s.nv + t.hfa), 16 + 2 * s.nv)
    else if t.hfa > 0 then
      var ns := Aligned(s.ns, t.align);
      (Next(s.nx, 8, ns + Up8(t.size)), ns)
    else if IsFloat(t) then
      var ns := if t.kind.LDouble? then Aligned(s.ns, t.align) else s.ns;
      (s.(ns := ns + if t.kind.Float? then 8 else t.size), ns)
    else if t.kind.Int? && t.size <= 8 && s.nx < 8 then (s.(nx := s.nx + 1), 2 * s.nx)
    else
      var nx := if t.align == 16 then RoundUp(s.nx, 2) else s.nx;
      var size := if t.kind.Struct? then Up8(t.size) else t.size;
      if t.kind.Int? && size == 16 && nx < 7 then (s.(nx := nx + 2), 2 * nx)
      else if t.kind.Struct? && size + 8 * nx <= 64 then (s.(nx := nx + (size + 7) / 8), 2 * nx)
      else
        var ns := Aligned(s.ns, t.align);
        (Next(8, s.nv, ns + if t.kind.Int? && size < 8 then 8 else size), ns)
  }

  ghost predicate AllAligned(ts: seq<Type>) {
    forall i :: 0 <= i < |ts| ==> ts[i].align > 0
  }

  ghost function After(ts: seq<Type>): Next
    requires AllAligned(ts)
  {
    if ts == [] then Next(0, 0, 32) else Place(After(ts[..|ts| - 1]), ts[|ts| - 1]).0
  }

  /** The location of argument i. */
  ghost function Location(ts: seq<Type>, i: nat): nat
    requires AllAligned(ts) && i < |ts|
  {
    Place(After(ts[..i]), ts[i]).1
  }

  /** The body of the loop over the arguments. */
  method PlaceOne(t: Type, nx0: nat, nv0: nat, ns0: nat) returns (nx: nat, nv: nat, ns: nat, a: nat)
    requires t.align > 0 && nx0 <= 8 && (t.hfa > 0 ==> t.kind.Struct?)
    ensures Place(Next(nx0, nv0, ns0), t) == (Next(nx, nv, ns), a)
  {
    hide RoundUp;
    nx, nv, ns := nx0, nv0, ns0;
    var size := t.size;
    if t.hfa != 0 {
      // B.2
    } else if size > 16 {
      // B.3: replace with pointer
      if nx < 8 {
        a := 2 * nx + 1;
        nx := nx + 1;
      } else {
        ns := Up8(ns);
        a := ns + 1;
        ns := ns + 8;
      }
      return;
    } else if t.kind.Struct? {
      // B.4
      size := Up8(size);
    }
    // C.1
    if IsFloat(t) && nv < 8 {
      a := 16 + 2 * nv;
      nv := nv + 1;
      return;
    }
    // C.2
    if t.hfa != 0 && nv + t.hfa <= 8 {
      a := 16 + 2 * nv;
      nv := nv + t.hfa;
      return;
    }
    // C.3
    if t.hfa != 0 {
      nv := 8;
      size := Up8(size);
    }
    // C.4
    if t.hfa != 0 || t.kind.LDouble? {
      ns := Up8(ns);
      ns := RoundUp(ns, t.align);
    }
    // C.5
    if t.kind.Float? {
      size := 8;
    }
    // C.6
    if t.hfa != 0 || IsFloat(t) {
      a := ns;
      ns := ns + size;
      return;
    }
    // C.7
    if !t.kind.Struct? && size <= 8 && nx < 8 {
      a := 2 * nx;
      nx := nx + 1;
      return;
    }
    // C.8
    if t.align == 16 {
      nx := RoundUp(nx, 2);
    }
    // C.9
    if !t.kind.Struct? && size == 16 && nx < 7 {
      a := 2 * nx;
      nx := nx + 2;
      return;
    }
    // C.10
    if t.kind.Struct? && size + 8 * nx <= 64 {
      a := 2 * nx;
      nx := nx + (size + 7) / 8;
      return;
    }
    // C.11
    nx := 8;
    // C.12
    ns := Up8(ns);
    ns := RoundUp(ns, t.align);
    // C.13
    if t.kind.Struct? {
      a := ns;
      ns := ns + size;
      return;
    }
    // C.14
    if size < 8 {
      size := 8;
    }
    // C.15
    a := ns;
    ns := ns + size;
  }

  lemma AlignValues(t: Type)
    requires Legal(t)
    ensures t.align in {1, 2, 4, 8, 16, 32} || t.align >= 64
    ensures t.align >= 8 ==> t.align % 8 == 0
  {
    var k: nat :| t.align == P(k);
    SmallPowers();
    hide P;
    if k >= 6 {
      PMono(6, k);
      PAdd(3, k - 3);
    }
  }

  lemma Up8Facts(x: nat)
    ensures Up8(x) >= x && Up8(x) % 8 == 0 && Up8(x) < x + 8 && (x % 8 == 0 ==> Up8(x) == x)
  {
  }

  /** Aligning keeps the offset a multiple of 8 and does not move it back. */
  lemma AlignedFacts(ns: nat, t: Type)
    requires Legal(t) && ns % 8 == 0
    ensures t.align > 0
    ensures var r := Aligned(ns, t.align); r >= ns && r % 8 == 0 && r % t.align == 0
  {
    AlignValues(t);
    Up8Facts(ns);
    hide RoundUp, Up8, Legal;
    var r := RoundUp(ns, t.align);
    RoundUpFacts(ns, t.align);
    RoundUpMultiple(ns, t.align);
    if t.align >= 8 {
      Multiple8(r, t.align);
    } else {
      Unmoved(ns, t.align);
    }
  }

  lemma Multiple8(r: nat, a: nat)
    requires a > 0 && a % 8 == 0 && r % a == 0
    ensures r % 8 == 0
  {
    var q, b := r / a, a / 8;
    assert r == a * q && a == 8 * b;
    assert r == 8 * (b * q);
  }

  lemma Unmoved(ns: nat, a: nat)
    requires ns % 8 == 0 && (a == 1 || a == 2 || a == 4)
    ensures RoundUp(ns, a) == ns
  {
  }

  /** What an argument takes: integer registers, vector registers or bytes of the argument area. */
  datatype Slot = Gpr(first: nat, count: nat) | Vec(first: nat, count: nat) | Mem(offset: nat, size: nat)

  /** The bytes an argument takes on the stack. */
  function StackSize(t: Type): nat {
    if ByPointer(t) || t.size < 8 then 8 else Up8(t.size)
  }

  function SlotOf(t: Type, a: nat): Slot {
    if a < 16 then Gpr(a / 2, if ByPointer(t) then 1 else (t.size + 7) / 8)
    else if a < 32 then Vec((a - 16) / 2, if t.hfa > 0 then t.hfa else 1)
    else Mem((a - 32) / 2 * 2, StackSize(t))
  }

  /** Vector registers are for floats and float aggregates. */
  predicate InVectors(t: Type) { IsFloat(t) || t.hfa > 0 }

  predicate Tidy(s: Next) { s.nx <= 8 && s.nv <= 8 && s.ns >= 32 && s.ns % 8 == 0 }

  /** The slot lies between the counters before and after, and only in the registers of its class. */
  predicate SlotBetween(s: Next, n: Next, t: Type, slot: Slot) {
    match slot
    case Gpr(f, c) => !InVectors(t) && s.nx <= f && f + c == n.nx && c > 0 && s.nv == n.nv && s.ns == n.ns
    case Vec(f, c) => InVectors(t) && s.nv <= f && f + c == n.nv && c > 0 && s.nx == n.nx && s.ns == n.ns
    case Mem(o, z) =>
      && s.ns <= o + 32 && o + 32 + z == n.ns && o % 8 == 0 && z % 8 == 0 && z > 0
      && (if InVectors(t) then n.nv == 8 && n.nx == s.nx else n.nx == 8 && n.nv == s.nv)
  }

  predicate Between(s: Next, n: Next, t: Type, a: nat) {
    && Tidy(n) && s.nx <= n.nx && s.nv <= n.nv && s.ns <= n.ns
    && (a % 2 == 1 <==> ByPointer(t))
    && SlotBetween(s, n, t, SlotOf(t, a))
  }

  lemma BetweenGpr(s: Next, t: Type, f: nat, c: nat)
    requires Tidy(s) && !InVectors(t) && s.nx <= f < 8 && c > 0 && f + c <= 8
    requires c == if ByPointer(t) then 1 else (t.size + 7) / 8
    ensures Between(s, s.(nx := f + c), t, if ByPointer(t) then 2 * f + 1 else 2 * f)
  {
    hide InVectors, ByPointer;
  }

  lemma BetweenVec(s: Next, t: Type)
    requires Tidy(s) && InVectors(t) && !ByPointer(t)
    requires var c := if t.hfa > 0 then t.hfa else 1; s.nv + c <= 8
    ensures Between(s, s.(nv := s.nv + if t.hfa > 0 then t.hfa else 1), t, 16 + 2 * s.nv)
  {
    hide InVectors, ByPointer;
  }

  lemma Halves(q: nat)
    requires q >= 4
    ensures (8 * q - 32) / 2 * 2 == 8 * q - 32 && (8 * q + 1 - 32) / 2 * 2 == 8 * q - 32
    ensures 8 * q % 2 == 0 && (8 * q + 1) % 2 == 1 && (8 * q - 32) % 8 == 0
  {
    DivUnique(2, 4 * q - 16, 1, 8 * q + 1 - 32);
    DivUnique(2, 4 * q, 1, 8 * q + 1);
  }

  lemma MemSlot(t: Type, o: nat)
    requires o >= 32 && o % 8 == 0
    ensures SlotOf(t, o) == Mem(o - 32, StackSize(t)) && SlotOf(t, o + 1) == Mem(o - 32, StackSize(t))
    ensures o % 2 == 0 && (o + 1) % 2 == 1 && (o - 32) % 8 == 0
  {
    hide StackSize, ByPointer;
    Halves(o / 8);
    assert 8 * (o / 8) == o;
  }

  lemma Sum8(o: nat, z: nat)
    requires o % 8 == 0 && z % 8 == 0
    ensures (o + z) % 8 == 0
  {
  }

  lemma BetweenMem(s: Next, t: Type, o: nat, z: nat)
    requires Tidy(s) && o % 8 == 0 && s.ns <= o && z == StackSize(t) && z % 8 == 0 && z > 0
    ensures var n := if InVectors(t) then Next(s.nx, 8, o + z) else Next(8, s.nv, o + z);
      Between(s, n, t, if ByPointer(t) then o + 1 else o)
  {
    hide InVectors, ByPointer, StackSize, SlotOf;
    MemSlot(t, o);
    Sum8(o, z);
  }

  lemma StackSizes(t: Type)
    requires Legal(t)
    ensures StackSize(t) % 8 == 0 && StackSize(t) > 0
    ensures !ByPointer(t) ==>
        StackSize(t) == (if t.kind.Float? || (t.kind.Int? && t.size < 8) then 8
                         else if t.kind.Struct? then Up8(t.size) else t.size)
    ensures !ByPointer(t) && t.hfa > 0 ==> StackSize(t) == Up8(t.size)
  {
    Up8Facts(t.size);
    Up8Facts(8);
    assert t.size == 16 ==> Up8(t.size) == 16;
    assert t.kind.Int? ==> t.size <= 8 || t.size == 16;
    hide Up8;
    if t.size < 8 {
      assert Up8(t.size) == 8;
    }
  }

  lemma PlacePointer(s: Next, t: Type)
    requires Legal(t) && t.align > 0 && Tidy(s) && ByPointer(t)
    ensures var (n, a) := Place(s, t); Between(s, n, t, a)
  {
    KindFacts(t);
    StackSizes(t);
    hide Up8, StackSize, Legal, Between, Tidy;
    TidyFacts(s);
    Up8Facts(s.ns);
    PointerSize(t);
    if s.nx < 8 {
      BetweenGpr(s, t, s.nx, 1);
    } else {
      BetweenMem(s, t, Up8(s.ns), 8);
    }
  }

  lemma TidyFacts(s: Next)
    requires Tidy(s)
    ensures s.nx <= 8 && s.nv <= 8 && s.ns % 8 == 0 && s.ns >= 32
  {
  }

  lemma KindFacts(t: Type)
    requires Legal(t)
    ensures t.hfa > 0 ==> t.kind.Struct?
    ensures ByPointer(t) ==> t.kind.Struct? && !InVectors(t)
    ensures t.kind.Int? ==> t.size <= 8 || t.size == 16
    ensures t.size > 0 && t.hfa <= 4
  {
  }

  lemma PointerSize(t: Type)
    requires ByPointer(t)
    ensures StackSize(t) == 8
  {
  }

  lemma PlaceVector(s: Next, t: Type)
    requires Legal(t) && t.align > 0 && Tidy(s) && !ByPointer(t) && InVectors(t)
    ensures var (n, a) := Place(s, t); Between(s, n, t, a)
  {
    hide Up8, StackSize, Aligned, Legal, Between, Tidy, ByPointer;
    KindFacts(t);
    TidyFacts(s);
    AlignedFacts(s.ns, t);
    StackSizes(t);
    var c := if t.hfa > 0 then t.hfa else 1;
    if s.nv + c <= 8 {
      BetweenVec(s, t);
    } else {
      BetweenMem(s, t, s.ns, StackSize(t));
      BetweenMem(s, t, Aligned(s.ns, t.align), StackSize(t));
    }
  }

  lemma PlaceInteger(s: Next, t: Type)
    requires Legal(t) && t.align > 0 && Tidy(s) && !ByPointer(t) && !InVectors(t)
    ensures var (n, a) := Place(s, t); Between(s, n, t, a)
  {
    hide Up8, StackSize, Aligned, RoundUp, Legal, Between, Tidy, ByPointer;
    KindFacts(t);
    TidyFacts(s);
    AlignedFacts(s.ns, t);
    StackSizes(t);
    EvenUp(s.nx);
    Up8Facts(t.size);
    BetweenMem(s, t, Aligned(s.ns, t.align), StackSize(t));
    var c := (t.size + 7) / 8;
    Eighths(t.size);
    if t.kind.Int? && t.size <= 8 && s.nx < 8 {
      BetweenGpr(s, t, s.nx, 1);
    } else {
      var nx := if t.align == 16 then RoundUp(s.nx, 2) else s.nx;
      if c > 0 && nx + c <= 8 {
        BetweenGpr(s, t, nx, c);
      }
    }
  }

  lemma Eighths(size: nat)
    ensures 0 < size <= 8 ==> (size + 7) / 8 == 1
    ensures size == 16 ==> (size + 7) / 8 == 2
    ensures Up8(size) == 8 * ((size + 7) / 8) && (Up8(size) + 7) / 8 == (size + 7) / 8
    ensures size > 0 ==> (size + 7) / 8 > 0
  {
  }

  lemma PlaceBetween(s: Next, t: Type)
    requires Legal(t) && Tidy(s)
    ensures t.align > 0
    ensures var (n, a) := Place(s, t); Between(s, n, t, a)
  {
    hide Place, Between;
    AlignValues(t);
    if ByPointer(t) {
      PlacePointer(s, t);
    } else if InVectors(t) {
      PlaceVector(s, t);
    } else {
      PlaceInteger(s, t);
    }
  }

  lemma EvenUp(nx: nat)
    ensures var r := RoundUp(nx, 2); r % 2 == 0 && nx <= r <= nx + 1
  {
    hide RoundUp;
    var q, r := RoundUpForm(nx, 2);
  }

  lemma LegalAligned(ts: seq<Type>)
    requires AllLegal(ts)
    ensures AllAligned(ts)
  {
    forall i | 0 <= i < |ts| ensures ts[i].align > 0 {
      AlignValues(ts[i]);
    }
  }

  lemma AfterNext(ts: seq<Type>, i: nat)
    requires AllAligned(ts) && i < |ts|
    ensures After(ts[..i + 1]) == Place(After(ts[..i]), ts[i]).0
  {
    hide Place;
    assert ts[..i + 1][..i] == ts[..i];
  }

  lemma AfterNone()
    ensures After([]) == Next(0, 0, 32)
  {
  }

  lemma {:induction false} AfterTidy(ts: seq<Type>, i: nat)
    requires AllLegal(ts) && AllAligned(ts) && i <= |ts|
    ensures Tidy(After(ts[..i]))
    decreases i
  {
    hide Place, Legal, Between, After;
    if i == 0 {
      AfterNone();
      assert ts[..0] == [];
    } else {
      AfterTidy(ts, i - 1);
      AfterNext(ts, i - 1);
      PlaceBetween(After(ts[..i - 1]), ts[i - 1]);
      BetweenTidy(After(ts[..i - 1]), ts[i - 1]);
    }
  }

  lemma BetweenTidy(s: Next, t: Type)
    requires t.align > 0
    ensures var (n, a) := Place(s, t); Between(s, n, t, a) ==> Tidy(n) && s.nx <= n.nx && s.nv <= n.nv && s.ns <= n.ns
  {
    hide Place;
  }

  /** Counters only grow. */
  lemma {:induction false} AfterGrows(ts: seq<Type>, i: nat, j: nat)
    requires AllLegal(ts) && AllAligned(ts) && i <= j <= |ts|
    ensures var s, n := After(ts[..i]), After(ts[..j]); s.nx <= n.nx <= 8 && s.nv <= n.nv <= 8 && s.ns <= n.ns
    decreases j
  {
    hide Place, Legal, Between, After;
    AfterTidy(ts, j);
    if i < j {
      AfterGrows(ts, i, j - 1);
      AfterTidy(ts, j - 1);
      AfterNext(ts, j - 1);
      PlaceBetween(After(ts[..j - 1]), ts[j - 1]);
      BetweenTidy(After(ts[..j - 1]), ts[j - 1]);
    }
  }

  /** Argument i takes what lies between the counters around it. */
  lemma ArgumentBetween(ts: seq<Type>, i: nat)
    requires AllLegal(ts) && AllAligned(ts) && i < |ts|
    ensures Tidy(After(ts[..i])) && Between(After(ts[..i]), After(ts[..i + 1]), ts[i], Location(ts, i))
  {
    hide Place, Legal, Between, After;
    AfterTidy(ts, i);
    AfterNext(ts, i);
    PlaceBetween(After(ts[..i]), ts[i]);
  }

  predicate Apart(a: Slot, b: Slot) {
    match a
    case Gpr(f, c) => b.Gpr? ==> f + c <= b.first || b.first + b.count <= f
    case Vec(f, c) => b.Vec? ==> f + c <= b.first || b.first + b.count <= f
    case Mem(o, z) => b.Mem? ==> o + z <= b.offset || b.offset + b.size <= o
  }

  /** No two arguments share a register or a byte, and once one of a class is on the stack the later ones are too. */
  lemma ArgumentsApart(ts: seq<Type>, i: nat, j: nat)
    requires AllLegal(ts) && AllAligned(ts) && i < j < |ts|
    ensures var a, b := SlotOf(ts[i], Location(ts, i)), SlotOf(ts[j], Location(ts, j));
      Apart(a, b) && (InVectors(ts[i]) == InVectors(ts[j]) && a.Mem? ==> b.Mem?)
  {
    hide Place, Legal, After, Location, SlotOf, InVectors, ByPointer;
    ArgumentBetween(ts, i);
    ArgumentBetween(ts, j);
    AfterGrows(ts, i + 1, j);
  }

  /** Registers exist, stack slots are multiples of 8 inside the area, and bit 0 marks the arguments passed by
    * pointer. */
  lemma ArgumentInside(ts: seq<Type>, i: nat)
    requires AllLegal(ts) && AllAligned(ts) && i < |ts|
    ensures Location(ts, i) % 2 == 1 <==> ByPointer(ts[i])
    ensures After(ts).ns >= 32
    ensures match SlotOf(ts[i], Location(ts, i))
      case Gpr(f, c) => c > 0 && f + c <= 8
      case Vec(f, c) => c > 0 && f + c <= 8
      case Mem(o, z) => z > 0 && o % 8 == 0 && o + z <= After(ts).ns - 32
  {
    hide Place, Legal, After, Location, SlotOf, InVectors, ByPointer;
    ArgumentBetween(ts, i);
    AfterGrows(ts, i + 1, |ts|);
    AfterTidy(ts, i + 1);
    assert ts[..|ts|] == ts;
  }

  /** The location of a stacked argument is a multiple of its alignment. But locations count from 32, so its offset in
    * the area, which is what the callee sees, is a multiple exactly up to an alignment of 32. */
  lemma ArgumentAligned(ts: seq<Type>, i: nat)
    requires AllLegal(ts) && AllAligned(ts) && i < |ts| && Location(ts, i) >= 32 && !ByPointer(ts[i])
    ensures Location(ts, i) % ts[i].align == 0
    ensures (Location(ts, i) - 32) % ts[i].align == 0 <==> ts[i].align <= 32
  {
    hide After, Place, Legal, Tidy, ByPointer;
    AfterTidy(ts, i);
    PlaceAligned(After(ts[..i]), ts[i]);
    AlignValues(ts[i]);
    Less32(Location(ts, i), ts[i].align);
    Over32(Location(ts, i), ts[i].align);
  }

  lemma Less32(x: nat, a: nat)
    requires x >= 32 && a > 0 && x % a == 0
    ensures a == 1 || a == 2 || a == 4 || a == 8 || a == 16 || a == 32 ==> (x - 32) % a == 0
  {
  }

  lemma Over32(x: nat, a: nat)
    requires x >= 32 && a > 0 && x % a == 0
    ensures a > 32 ==> (x - 32) % a == a - 32
  {
    if a > 32 {
      var q := x / a;
      assert x == a * q && q > 0;
      assert x - 32 == a * (q - 1) + (a - 32);
      DivUnique(a, q - 1, a - 32, x - 32);
    }
  }

  /** Four long doubles, aligned to 64. */
  const WIDE := Type(Struct, 64, 64, 4, 16)

  lemma WideLegal()
    ensures Legal(WIDE)
  {
    SmallPowers();
    assert WIDE.align == P(6);
    hide P;
  }

  lemma AggregatePlace(s: Next, t: Type)
    requires t.align > 0 && t.hfa > 0 && t.kind.Struct?
    ensures Place(s, t) ==
      if s.nv + t.hfa <= 8 then (s.(nv := s.nv + t.hfa), 16 + 2 * s.nv)
      else (Next(s.nx, 8, Aligned(s.ns, t.align) + Up8(t.size)), Aligned(s.ns, t.align))
  {
    hide Aligned, Up8;
  }

  lemma WidePlaces()
    ensures Place(Next(0, 0, 32), WIDE) == (Next(0, 4, 32), 16) && Place(Next(0, 4, 32), WIDE) == (Next(0, 8, 32), 24)
    ensures Place(Next(0, 8, 32), WIDE) == (Next(0, 8, 128), 64)
  {
    WideRounds();
    hide Aligned, Up8, Place;
    AggregatePlace(Next(0, 0, 32), WIDE);
    AggregatePlace(Next(0, 4, 32), WIDE);
    AggregatePlace(Next(0, 8, 32), WIDE);
  }

  lemma WideRounds()
    ensures Aligned(32, 64) == 64 && Up8(64) == 64
  {
    Up8Facts(32);
    Up8Facts(64);
    DivUnique(64, 1, 31, 95);
    hide Up8;
  }

  /** Two of them fill the vector registers; the third is 32 bytes into the area of the arguments. */
  lemma MisalignedArgument()
    ensures var ts := [WIDE, WIDE, WIDE];
      && AllLegal(ts) && AllAligned(ts) && Location(ts, 2) == 64
      && SlotOf(WIDE, Location(ts, 2)) == Mem(32, 64) && (Location(ts, 2) - 32) % WIDE.align == 32
  {
    WideLegal();
    WidePlaces();
    AfterNone();
    hide Place, Legal;
    var ts := [WIDE, WIDE, WIDE];
    assert ts[..0] == [];
    AfterNext(ts, 0);
    AfterNext(ts, 1);
    assert SlotOf(WIDE, 64) == Mem(32, 64);
  }

  lemma PlaceAligned(s: Next, t: Type)
    requires Legal(t) && t.align > 0 && Tidy(s) && !ByPointer(t)
    ensures var (_, a) := Place(s, t); a >= 32 ==> a % t.align == 0
  {
    TidyFacts(s);
    AlignedFacts(s.ns, t);
    EvenUp(s.nx);
    FloatAligned(s.ns, t);
    Up8Facts(t.size);
    hide Aligned, Up8, RoundUp, Legal, Tidy, ByPointer;
  }

  lemma FloatAligned(ns: nat, t: Type)
    requires Legal(t) && ns % 8 == 0 && t.align > 0
    ensures t.kind.Float? || t.kind.Double? ==> ns % t.align == 0
    ensures t.hfa > 0 ==> t.kind.Struct?
  {
  }

  /** The area of the arguments on the stack, and where every argument is. */
  method ArmPcsAux(ts: seq<Type>) returns (a: seq<nat>, stack: nat)
    requires AllLegal(ts)
    ensures AllAligned(ts) && |a| == |ts| && forall i :: 0 <= i < |ts| ==> a[i] == Location(ts, i)
    ensures After(ts).ns >= 32 && stack == After(ts).ns - 32
  {
    hide Place, Legal, After, Location;
    LegalAligned(ts);
    var nx: nat, nv: nat, ns: nat := 0, 0, 32;
    AfterNone();
    assert ts[..0] == [];
    a := [];
    var i := 0;
    while i < |ts|
      invariant 0 <= i <= |ts| && |a| == i
      invariant After(ts[..i]) == Next(nx, nv, ns)
      invariant forall k :: 0 <= k < i ==> a[k] == Location(ts, k)
    {
      AfterTidy(ts, i);
      AfterNext(ts, i);
      KindFacts(ts[i]);
      LocationIs(ts, i);
      var l;
      nx, nv, ns, l := PlaceOne(ts[i], nx, nv, ns);
      a := a + [l];
      i := i + 1;
    }
    AfterTidy(ts, |ts|);
    assert ts[..|ts|] == ts;
    stack := ns - 32;
  }

  lemma LocationIs(ts: seq<Type>, i: nat)
    requires AllAligned(ts) && i < |ts|
    ensures Location(ts, i) == Place(After(ts[..i]), ts[i]).1
  {
    hide Place, After;
  }

  /** The register pairs the callee stores: the first lastInt of x0 to x7 and the first lastFloat of q0 to q7. */
  predicate Saves(slot: Slot, lastInt: nat, lastFloat: nat) {
    match slot
    case Gpr(f, c) => f + c <= 2 * lastInt
    case Vec(f, c) => f + c <= 2 * lastFloat
    case Mem(_, _) => true
  }

  /** How many pairs one parameter needs by the prologue's count. */
  function IntPairs(t: Type, a: nat): nat
    requires t.size > 0
  {
    a / 4 + 1 + (t.size - 1) / 8
  }

  function FloatPairs(t: Type, a: nat): int {
    a / 4 - 3 + (if t.hfa > 0 then t.hfa - 1 else 0)
  }

  lemma IntPairsEnough(t: Type, a: nat)
    requires t.size > 0 && a < 16
    ensures Saves(SlotOf(t, a), IntPairs(t, a), 0)
  {
    var c := (t.size + 7) / 8;
    assert c == (t.size - 1) / 8 + 1;
  }

  lemma FloatPairsEnough(t: Type, a: nat)
    requires 16 <= a < 32
    ensures FloatPairs(t, a) > 0 && Saves(SlotOf(t, a), 0, FloatPairs(t, a))
  {
  }

  /** No more pairs than half the first register and one for each eight bytes of the type, pointer or not. */
  predicate NeedsInts(t: Type, slot: Slot, pairs: nat) { slot.Gpr? && pairs <= slot.first / 2 + (t.size + 7) / 8 }

  predicate NeedsFloats(slot: Slot, pairs: nat) { slot.Vec? && pairs <= slot.first / 2 + slot.count }

  lemma IntPairsNeeded(t: Type, a: nat)
    requires t.size > 0 && a < 16
    ensures NeedsInts(t, SlotOf(t, a), IntPairs(t, a))
  {
    assert (t.size + 7) / 8 == (t.size - 1) / 8 + 1;
    assert a / 4 == a / 2 / 2;
  }

  lemma FloatPairsNeeded(t: Type, a: nat)
    requires 16 <= a < 32
    ensures FloatPairs(t, a) > 0 && NeedsFloats(SlotOf(t, a), FloatPairs(t, a))
  {
    assert a / 4 - 4 == (a - 16) / 2 / 2;
  }

  /** The prologue's loop: enough pairs for every parameter, at most all eight registers of each kind. */
  method CountSaved(ts: seq<Type>, a: seq<nat>, int0: nat, float0: nat) returns (lastInt: nat, lastFloat: nat)
    requires AllLegal(ts) && AllAligned(ts) && |a| == |ts| && forall i :: 0 <= i < |ts| ==> a[i] == Location(ts, i)
    ensures lastInt <= 4 && lastFloat <= 4
    ensures forall i :: 0 <= i < |ts| ==> Saves(SlotOf(ts[i], a[i]), lastInt, lastFloat)
    ensures (int0 >= 4 ==> lastInt == 4) && (float0 >= 4 ==> lastFloat == 4)
    ensures lastInt > int0 ==> exists i :: 0 <= i < |ts| && NeedsInts(ts[i], SlotOf(ts[i], a[i]), lastInt)
    ensures lastFloat > float0 ==> exists i :: 0 <= i < |ts| && NeedsFloats(SlotOf(ts[i], a[i]), lastFloat)
  {
    hide Legal, Location, SlotOf, IntPairs, FloatPairs;
    lastInt, lastFloat := int0, float0;
    var i := 0;
    while i < |ts|
      invariant 0 <= i <= |ts| && lastInt >= int0 && lastFloat >= float0
      invariant forall k :: 0 <= k < i ==> Saves(SlotOf(ts[k], a[k]), lastInt, lastFloat)
      invariant lastInt > int0 ==> exists k :: 0 <= k < i && NeedsInts(ts[k], SlotOf(ts[k], a[k]), lastInt)
      invariant lastFloat > float0 ==> exists k :: 0 <= k < i && NeedsFloats(SlotOf(ts[k], a[k]), lastFloat)
    {
      KindFacts(ts[i]);
      SlotKind(ts[i], a[i]);
      if a[i] < 16 {
        IntPairsEnough(ts[i], a[i]);
        IntPairsNeeded(ts[i], a[i]);
        var last := IntPairs(ts[i], a[i]);
        lastInt := if last > lastInt then last else lastInt;
      } else if a[i] < 32 {
        FloatPairsEnough(ts[i], a[i]);
        FloatPairsNeeded(ts[i], a[i]);
        var last := FloatPairs(ts[i], a[i]);
        lastFloat := if last > lastFloat then last else lastFloat;
      }
      i := i + 1;
    }
    forall k | 0 <= k < |ts|
      ensures SlotFits(SlotOf(ts[k], a[k]))
    {
      ArgumentInside(ts, k);
    }
    lastInt := if lastInt > 4 then 4 else lastInt;
    lastFloat := if lastFloat > 4 then 4 else lastFloat;
  }

  /** The slot is within the eight registers of its kind. */
  predicate SlotFits(slot: Slot) {
    match slot
    case Gpr(f, c) => f + c <= 8
    case Vec(f, c) => f + c <= 8
    case Mem(_, _) => true
  }

  lemma SlotKind(t: Type, a: nat)
    ensures SlotOf(t, a).Gpr? <==> a < 16
    ensures SlotOf(t, a).Vec? <==> 16 <= a < 32
  {
  }
}
