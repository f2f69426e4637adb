/** The rules of the AArch64 procedure call standard, stated on the locations alone: which registers an argument gets,
  * when it goes to the stack, and where. */
module A64PcsRules {
  import opened Binary
  import opened Rounding
  import opened A64Pcs

  /** B.3: passed by a pointer to a copy. */
  predicate Indirect(t: Type) { t.kind.Struct? && t.hfa == 0 && t.size > 16 }

  /** Floats and homogeneous float aggregates use the vector registers. */
  predicate ForVectors(t: Type) { t.kind in {Float, Double, LDouble} || t.hfa > 0 }

  /** How many registers the argument fills. */
  function Needs(t: Type): nat {
    if Indirect(t) then 1
    else if t.hfa > 0 then t.hfa
    else if ForVectors(t) then 1
    else (t.size + 7) / 8
  }

  /** The alignment of the argument's place on the stack. */
  function StackAlign(t: Type): (a: nat)
    ensures a >= 8
  {
    if Indirect(t) || t.align < 8 then 8 else t.align
  }

  /** The bytes it takes there. */
  function StackBytes(t: Type): nat {
    if Indirect(t) then 8 else RoundUp(t.size, 8)
  }

  /** C.8: two-register arguments with an alignment of 16 start at an even register. */
  predicate StartsEven(t: Type) {
    !Indirect(t) && !ForVectors(t) && t.align == 16 && (t.kind.Struct? || t.size > 8)
  }

  function Start(t: Type, free: nat): nat {
    if StartsEven(t) && free % 2 == 1 then free + 1 else free
  }

  /** The register number of a location below 32. */
  function RegisterOf(a: nat): nat { a % 16 / 2 }

  /** The first register of a class behind those of the first i arguments; none is left once one of the class is on
    * the stack. */
  ghost function FreeRegister(ts: seq<Type>, i: nat, vector: bool): nat
    requires AllAligned(ts) && i <= |ts|
  {
    if i == 0 then 0
    else if ForVectors(ts[i - 1]) != vector then FreeRegister(ts, i - 1, vector)
    else if Location(ts, i - 1) >= 32 then 8
    else RegisterOf(Location(ts, i - 1)) + Needs(ts[i - 1])
  }

  /** The end of the last of the first i arguments that is on the stack. */
  ghost function StackEnd(ts: seq<Type>, i: nat): nat
    requires AllAligned(ts) && i <= |ts|
  {
    if i == 0 then 32
    else if Location(ts, i - 1) < 32 then StackEnd(ts, i - 1)
    else Location(ts, i - 1) / 8 * 8 + StackBytes(ts[i - 1])
  }

  function PointerBit(t: Type): nat { if Indirect(t) then 1 else 0 }

  /** Argument i is at the free registers of its class, if they suffice, else at the next aligned place on the stack. */
  ghost predicate ByTheRules(ts: seq<Type>, i: nat)
    requires AllAligned(ts) && i < |ts|
  {
    var t, a := ts[i], Location(ts, i);
    var start := Start(t, FreeRegister(ts, i, ForVectors(t)));
    if start + Needs(t) <= 8 then
      a == (if ForVectors(t) then 16 else 0) + 2 * start + PointerBit(t)
    else
      a == RoundUp(StackEnd(ts, i), StackAlign(t)) + PointerBit(t)
  }

  /** What one argument does to the counters, by the rules. */
  predicate StepRule(s: Next, t: Type, n: Next, a: nat) {
    var v := ForVectors(t);
    var start := Start(t, if v then s.nv else s.nx);
    if start + Needs(t) <= 8 then
      && a == (if v then 16 else 0) + 2 * start + PointerBit(t)
      && n == if v then s.(nv := start + Needs(t)) else s.(nx := start + Needs(t))
    else
      var o := RoundUp(s.ns, StackAlign(t));
      && a == o + PointerBit(t)
      && n == (if v then Next(s.nx, 8, o + StackBytes(t)) else Next(8, s.nv, o + StackBytes(t)))
  }

  lemma SameNames(t: Type)
    requires Legal(t)
    ensures ByPointer(t) <==> Indirect(t)
    ensures InVectors(t) <==> ForVectors(t)
    ensures ByPointer(t) ==> !InVectors(t)
  {
  }

  lemma StackPlace(ns: nat, t: Type)
    requires Legal(t) && ns % 8 == 0 && t.align > 0
    ensures !Indirect(t) ==> RoundUp(ns, StackAlign(t)) == Aligned(ns, t.align)
    ensures Indirect(t) ==> RoundUp(ns, StackAlign(t)) == Up8(ns) == ns
    ensures t.align <= 8 ==> Aligned(ns, t.align) == ns
  {
    AlignValues(t);
    Up8Facts(ns);
    if t.align < 8 {
      Unmoved(ns, t.align);
    }
    hide Legal, RoundUp;
  }

  lemma EvenRound(x: nat)
    ensures RoundUp(x, 2) == if x % 2 == 1 then x + 1 else x
  {
  }

  lemma RulePointer(s: Next, t: Type)
    requires Legal(t) && t.align > 0 && Tidy(s) && Indirect(t)
    ensures var (n, a) := Place(s, t); StepRule(s, t, n, a)
  {
    SameNames(t);
    TidyFacts(s);
    StackPlace(s.ns, t);
    hide RoundUp, Legal, Up8, Aligned, StackAlign;
  }

  lemma RuleAggregate(s: Next, t: Type)
    requires Legal(t) && t.align > 0 && Tidy(s) && t.hfa > 0
    ensures var (n, a) := Place(s, t); StepRule(s, t, n, a)
  {
    SameNames(t);
    KindFacts(t);
    TidyFacts(s);
    StackPlace(s.ns, t);
    AggregatePlace(s, t);
    assert Needs(t) == t.hfa && ForVectors(t) && !Indirect(t) && StackBytes(t) == Up8(t.size);
    hide RoundUp, Legal, Up8, Aligned, StackAlign, StackBytes, Place, Needs, ForVectors, Indirect, Tidy;
  }

  /** What Place does with a plain float. */
  lemma PlaceFloat(s: Next, t: Type)
    requires Legal(t) && t.align > 0 && IsFloat(t)
    ensures t.hfa == 0 && !ByPointer(t)
    ensures Place(s, t) ==
      if s.nv < 8 then (s.(nv := s.nv + 1), 16 + 2 * s.nv)
      else
        var ns := if t.kind.LDouble? then Aligned(s.ns, t.align) else s.ns;
        (s.(ns := ns + if t.kind.Float? then 8 else t.size), ns)
  {
    hide Aligned, Up8;
  }

  lemma FloatFacts(t: Type)
    requires Legal(t) && IsFloat(t)
    ensures Needs(t) == 1 && ForVectors(t) && !Indirect(t) && t.align > 0 && (!t.kind.LDouble? ==> t.align <= 8)
    ensures StackBytes(t) == if t.kind.Float? then 8 else t.size
  {
    Up8Facts(t.size);
    hide RoundUp;
  }

  lemma RuleFloat(s: Next, t: Type)
    requires Legal(t) && t.align > 0 && Tidy(s) && IsFloat(t)
    ensures var (n, a) := Place(s, t); StepRule(s, t, n, a)
  {
    TidyFacts(s);
    StackPlace(s.ns, t);
    PlaceFloat(s, t);
    FloatFacts(t);
    hide RoundUp, Legal, Up8, Aligned, StackAlign, StackBytes, Place, Needs, ForVectors, Indirect, Tidy;
  }

  lemma RuleVector(s: Next, t: Type)
    requires Legal(t) && t.align > 0 && Tidy(s) && ForVectors(t)
    ensures var (n, a) := Place(s, t); StepRule(s, t, n, a)
  {
    assert t.hfa > 0 || IsFloat(t);
    hide Place, StepRule, Legal, Tidy;
    if t.hfa > 0 {
      RuleAggregate(s, t);
    } else {
      RuleFloat(s, t);
    }
  }

  lemma SizesAre(t: Type)
    requires Legal(t)
    ensures StackBytes(t) == StackSize(t)
    ensures IsFloat(t) ==> t.align <= 16 && (!t.kind.LDouble? ==> t.align <= 8)
  {
    SameNames(t);
    Up8Facts(t.size);
    assert t.size > 0;
    hide Legal;
  }

  /** What Place does with a plain integer, and with a struct of up to 16 bytes. */
  lemma PlaceInt(s: Next, t: Type)
    requires Legal(t) && t.align > 0 && Tidy(s) && t.kind.Int?
    ensures var nx := if t.align == 16 then RoundUp(s.nx, 2) else s.nx; var ns := Aligned(s.ns, t.align);
      Place(s, t) == if t.size <= 8 && s.nx < 8 then (s.(nx := s.nx + 1), 2 * s.nx)
                     else if t.size > 8 && nx < 7 then (s.(nx := nx + 2), 2 * nx)
                     else (Next(8, s.nv, ns + if t.size < 8 then 8 else t.size), ns)
  {
    AlignOfInt(t);
    assert !ByPointer(t) && !IsFloat(t) && t.hfa == 0;
    hide RoundUp, Legal, Up8, Aligned, ByPointer, IsFloat;
  }

  lemma PlaceStruct(s: Next, t: Type, c: nat)
    requires Legal(t) && t.align > 0 && Tidy(s) && t.kind.Struct? && t.hfa == 0 && !ByPointer(t)
    requires c == (t.size + 7) / 8
    ensures var nx := if t.align == 16 then RoundUp(s.nx, 2) else s.nx; var ns := Aligned(s.ns, t.align);
      Place(s, t) == if c + nx <= 8 then (s.(nx := nx + c), 2 * nx) else (Next(8, s.nv, ns + Up8(t.size)), ns)
  {
    Eighths(t.size);
    assert !IsFloat(t);
    hide RoundUp, Legal, Up8, Aligned, ByPointer, IsFloat;
  }

  lemma RuleInt(s: Next, t: Type)
    requires Legal(t) && t.align > 0 && Tidy(s) && t.kind.Int?
    ensures var (n, a) := Place(s, t); StepRule(s, t, n, a)
  {
    SameNames(t);
    KindFacts(t);
    TidyFacts(s);
    StackPlace(s.ns, t);
    StackSizes(t);
    SizesAre(t);
    EvenRound(s.nx);
    AlignOfInt(t);
    PlaceInt(s, t);
    NeedsInt(t);
    hide RoundUp, Legal, Up8, Aligned, StackAlign, StackSize, StackBytes, Place, Needs, Tidy;
  }

  lemma NeedsInt(t: Type)
    requires Legal(t) && t.kind.Int?
    ensures Needs(t) == (if t.size <= 8 then 1 else 2) && !Indirect(t) && !ForVectors(t) && !ByPointer(t)
    ensures StackBytes(t) == (if t.size < 8 then 8 else t.size)
  {
    Eighths(t.size);
    StackSizes(t);
    SizesAre(t);
    SameNames(t);
    hide RoundUp, StackSize, StackBytes;
  }

  lemma RuleStruct(s: Next, t: Type)
    requires Legal(t) && t.align > 0 && Tidy(s) && t.kind.Struct? && t.hfa == 0 && !Indirect(t)
    ensures var (n, a) := Place(s, t); StepRule(s, t, n, a)
  {
    SameNames(t);
    TidyFacts(s);
    StackPlace(s.ns, t);
    EvenRound(s.nx);
    var c := (t.size + 7) / 8;
    PlaceStruct(s, t, c);
    assert Needs(t) == c && StackBytes(t) == Up8(t.size) && !ForVectors(t);
    hide RoundUp, Legal, Up8, Aligned, StackAlign, StackBytes, Place, Needs, Tidy;
  }

  lemma RuleInteger(s: Next, t: Type)
    requires Legal(t) && t.align > 0 && Tidy(s) && !ForVectors(t) && !Indirect(t)
    ensures var (n, a) := Place(s, t); StepRule(s, t, n, a)
  {
    assert t.kind.Int? || (t.kind.Struct? && t.hfa == 0);
    hide Place, StepRule, Legal, Tidy;
    if t.kind.Int? {
      RuleInt(s, t);
    } else {
      RuleStruct(s, t);
    }
  }

  lemma AlignOfInt(t: Type)
    requires Legal(t) && t.kind.Int?
    ensures t.size <= 8 ==> t.align <= 8
    ensures t.size > 8 ==> t.size == 16 && t.align == 16
  {
  }

  lemma StepFollows(s: Next, t: Type)
    requires Legal(t) && t.align > 0 && Tidy(s)
    ensures var (n, a) := Place(s, t); StepRule(s, t, n, a)
  {
    hide Place, StepRule, Legal, Tidy;
    if Indirect(t) {
      RulePointer(s, t);
    } else if ForVectors(t) {
      RuleVector(s, t);
    } else {
      RuleInteger(s, t);
    }
  }

  lemma Octets(o: nat)
    requires o % 8 == 0 && o >= 32
    ensures (o + 1) / 8 * 8 == o && o / 8 * 8 == o
  {
    DivUnique(8, o / 8, 1, o + 1);
  }

  lemma RoundedUp8(ns: nat, t: Type)
    requires Legal(t) && t.align > 0 && ns % 8 == 0
    ensures RoundUp(ns, StackAlign(t)) % 8 == 0 && RoundUp(ns, StackAlign(t)) >= ns
  {
    StackPlace(ns, t);
    AlignedFacts(ns, t);
    hide RoundUp, Legal, Aligned, Up8, StackAlign;
  }

  lemma FreeNext(ts: seq<Type>, i: nat, v: bool)
    requires AllAligned(ts) && i < |ts|
    ensures FreeRegister(ts, 0, v) == 0 && StackEnd(ts, 0) == 32
    ensures var a := Location(ts, i);
      && FreeRegister(ts, i + 1, v) == (if ForVectors(ts[i]) != v then FreeRegister(ts, i, v)
                                        else if a >= 32 then 8 else RegisterOf(a) + Needs(ts[i]))
      && StackEnd(ts, i + 1) == if a < 32 then StackEnd(ts, i) else a / 8 * 8 + StackBytes(ts[i])
  {
    hide Location, Needs, StackBytes, RegisterOf, ForVectors;
  }

  /** The counters of the loop are the free registers and the end of the stack arguments. */
  lemma {:induction false} CountersAre(ts: seq<Type>, i: nat)
    requires AllLegal(ts) && AllAligned(ts) && i <= |ts|
    ensures After(ts[..i]) == Next(FreeRegister(ts, i, false), FreeRegister(ts, i, true), StackEnd(ts, i))
    decreases i
  {
    hide Place, Legal, After, Location, StepRule;
    if i == 0 {
      AfterNone();
      assert ts[..0] == [];
    } else {
      CountersAre(ts, i - 1);
      AfterTidy(ts, i - 1);
      AfterNext(ts, i - 1);
      LocationIs(ts, i - 1);
      StepFollows(After(ts[..i - 1]), ts[i - 1]);
      FreeNext(ts, i - 1, true);
      FreeNext(ts, i - 1, false);
      RuleCounters(After(ts[..i - 1]), ts[i - 1]);
    }
  }

  lemma RuleCounters(s: Next, t: Type)
    requires Legal(t) && t.align > 0 && Tidy(s)
    ensures var (n, a) := Place(s, t); var v := ForVectors(t);
      && n.nx == (if v then s.nx else if a >= 32 then 8 else RegisterOf(a) + Needs(t))
      && n.nv == (if !v then s.nv else if a >= 32 then 8 else RegisterOf(a) + Needs(t))
      && n.ns == if a < 32 then s.ns else a / 8 * 8 + StackBytes(t)
  {
    StepFollows(s, t);
    TidyFacts(s);
    RoundedUp8(s.ns, t);
    NeedsSome(t);
    var start, o := Start(t, if ForVectors(t) then s.nv else s.nx), RoundUp(s.ns, StackAlign(t));
    BitIs(t);
    if start + Needs(t) <= 8 {
      RegisterIs(ForVectors(t), start, PointerBit(t));
    } else {
      Octets(o);
    }
    hide Place, Legal, Tidy, RoundUp, StackAlign, StackBytes, Needs, ForVectors, Start, PointerBit, RegisterOf;
  }

  lemma BitIs(t: Type)
    ensures PointerBit(t) == 0 || PointerBit(t) == 1
  {
  }

  lemma RegisterIs(v: bool, start: nat, bit: nat)
    requires start < 8 && bit <= 1
    ensures var a := (if v then 16 else 0) + 2 * start + bit; a < 32 && RegisterOf(a) == start
  {
    var r := 2 * start + bit;
    DivUnique(16, if v then 1 else 0, r, (if v then 16 else 0) + r);
    DivUnique(2, start, bit, r);
  }

  lemma NeedsSome(t: Type)
    requires Legal(t)
    ensures Needs(t) > 0
  {
    Eighths(t.size);
  }

  /** Bit 0 is set exactly for the arguments passed by pointer; every argument is where the rules say; and the size of
    * the argument area is where the last stacked one ends. */
  lemma FollowsRules(ts: seq<Type>, i: nat)
    requires AllLegal(ts) && AllAligned(ts) && i < |ts|
    ensures ByTheRules(ts, i)
    ensures Location(ts, i) % 2 == 1 <==> ts[i].kind.Struct? && ts[i].hfa == 0 && ts[i].size > 16
    ensures After(ts).ns == StackEnd(ts, |ts|)
  {
    hide Place, Legal, After, Location, StepRule;
    CountersAre(ts, i);
    CountersAre(ts, |ts|);
    assert ts[..|ts|] == ts;
    AfterTidy(ts, i);
    LocationIs(ts, i);
    StepFollows(After(ts[..i]), ts[i]);
    ArgumentInside(ts, i);
    SameNames(ts[i]);
    RuleLocation(After(ts[..i]), ts[i]);
  }

  lemma RuleLocation(s: Next, t: Type)
    requires Legal(t) && t.align > 0 && Tidy(s)
    ensures var (_, a) := Place(s, t); var start := Start(t, if ForVectors(t) then s.nv else s.nx);
      a == if start + Needs(t) <= 8 then (if ForVectors(t) then 16 else 0) + 2 * start + PointerBit(t)
           else RoundUp(s.ns, StackAlign(t)) + PointerBit(t)
  {
    StepFollows(s, t);
    hide Place, Legal, Tidy, RoundUp, StackAlign, StackBytes, Needs, ForVectors, Start, PointerBit;
  }
}
