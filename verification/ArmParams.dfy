/** Where the caller of an ARM function puts its arguments and where the callee looks for them, in core registers and
  * on the stack. */
module ArmParams {
  import opened Binary
  import opened Rounding

  /** Core covers integers and pointers of at most four bytes; Aggregate is every struct, and float and double passed
    * in core registers. */
  datatype Kind = Core | LLong | Aggregate

  datatype Param = Param(kind: Kind, size: nat, align: nat)

  ghost predicate Legal(p: Param) {
    && p.size > 0
    && (exists k: nat :: p.align == P(k))
    && p.size % p.align == 0
    && (p.kind.Core? ==> p.size <= 4)
    && (p.kind.LLong? ==> p.size == 8 && p.align == 8)
  }

  ghost predicate AllLegal(ps: seq<Param>) {
    forall i :: 0 <= i < |ps| ==> Legal(ps[i])
  }

  function Words(p: Param): nat { (p.size + 3) / 4 }

  function WordAlign(p: Param): (a: nat)
    ensures p.align > 0 ==> a > 0
  {
    (p.align + 3) / 4
  }

  datatype Class = StackClass | CoreStructClass | CoreClass

  /** Registers start to end for the core classes, bytes of the argument area for StackClass. */
  datatype Plan = Plan(cls: Class, start: nat, end: nat)

  /** One 32-bit place for a word of an argument. */
  datatype Place = Reg(r: nat) | Stack(word: nat)

  /** Word w of an argument with the given plan; a struct runs on from r3 to the bottom of the argument area. */
  function PlaceOf(plan: Plan, w: nat): Place {
    match plan.cls
    case StackClass => Stack(plan.start / 4 + w)
    case _ => if plan.start + w < 4 then Reg(plan.start + w) else Stack(plan.start + w - 4)
  }

  /** Word k above the callee's saved fp, ip and lr when it pushed the first n registers. */
  function FrameWord(k: nat, n: nat): Place {
    if k < n then Reg(k) else Stack(k - n)
  }

  function Range(lo: nat, hi: nat): (s: set<nat>)
    ensures forall x :: x in s <==> lo <= x < hi
  {
    if hi <= lo then {} else Range(lo, hi - 1) + {hi - 1}
  }

  datatype Caller = Caller(ncrn: nat, nsaa: nat, plans: seq<Plan>, todo: set<nat>)

  function OnStack(c: Caller, p: Param): Caller
    requires p.align > 0
  {
    var start := RoundUp(c.nsaa, 4 * WordAlign(p));
    c.(nsaa := start + 4 * Words(p), plans := c.plans + [Plan(StackClass, start, start + 4 * Words(p))])
  }

  /** The effect of one argument on the caller's counters. */
  function Place1(c: Caller, p: Param): Caller
    requires p.align > 0
  {
    match p.kind
    case Aggregate =>
      var r := RoundUp(c.ncrn, WordAlign(p));
      if r + Words(p) <= 4 || r < 4 then
        var next := r + Words(p);
        var end := if next < 4 then next else 4;
        Caller(next, if next > 4 then (next - 4) * 4 else c.nsaa, c.plans + [Plan(CoreStructClass, r, end)],
               c.todo + Range(r, end))
      else
        OnStack(c.(ncrn := 4), p)
    case Core =>
      if c.ncrn < 4 then c.(ncrn := c.ncrn + 1, plans := c.plans + [Plan(CoreClass, c.ncrn, c.ncrn)])
      else OnStack(c, p)
    case LLong =>
      var r := RoundUp(c.ncrn, 2);
      if c.ncrn < 4 && r != 4 then c.(ncrn := r + 2, plans := c.plans + [Plan(CoreClass, r, r + 1)])
      else if c.ncrn < 4 then OnStack(c.(ncrn := 4), p)
      else OnStack(c, p)
  }

  ghost predicate Aligned(ps: seq<Param>) {
    forall i :: 0 <= i < |ps| ==> ps[i].align > 0
  }

  /** The caller's state after all arguments. */
  ghost function CallerAfter(ps: seq<Param>): (c: Caller)
    requires Aligned(ps)
    ensures |c.plans| == |ps|
  {
    if ps == [] then Caller(0, 0, [], {}) else
      var last := |ps| - 1;
      Place1(CallerAfter(ps[..last]), ps[last])
  }

  lemma CallerNext(ps: seq<Param>, i: nat)
    requires Aligned(ps) && i < |ps|
    ensures CallerAfter(ps[..i + 1]) == Place1(CallerAfter(ps[..i]), ps[i])
  {
    hide Place1;
    assert ps[..i + 1][..i] == ps[..i];
  }

  /** Marks the registers that hold the first words of a struct. */
  method MarkRegs(todo0: set<nat>, ncrn: nat, size: nat) returns (todo: set<nat>, j: nat)
    requires ncrn < 4 || ncrn + size <= 4
    ensures j == (if ncrn + size < 4 then ncrn + size else 4) && todo == todo0 + Range(ncrn, j)
  {
    todo, j := todo0, ncrn;
    while j < 4 && j < ncrn + size
      invariant ncrn <= j <= ncrn + size && j <= 4
      invariant todo == todo0 + Range(ncrn, j)
    {
      todo := todo + {j};
      j := j + 1;
    }
  }

  /** The body of the caller's loop; size and align count words. */
  method AssignOne(p: Param, ncrn0: nat, nsaa0: nat, plans0: seq<Plan>, todo0: set<nat>)
    returns (ncrn: nat, nsaa: nat, plans: seq<Plan>, todo: set<nat>)
    requires p.align > 0
    ensures Caller(ncrn, nsaa, plans, todo) == Place1(Caller(ncrn0, nsaa0, plans0, todo0), p)
  {
    hide RoundUp, Words, WordAlign, Range;
    ncrn, nsaa, plans, todo := ncrn0, nsaa0, plans0, todo0;
    var size, align := Words(p), WordAlign(p);
    if p.kind.Aggregate? {
      ncrn := RoundUp(ncrn, align);
      if ncrn + size <= 4 || ncrn < 4 {
        var j;
        todo, j := MarkRegs(todo, ncrn, size);
        plans := plans + [Plan(CoreStructClass, ncrn, j)];
        ncrn := ncrn + size;
        if ncrn > 4 {
          nsaa := (ncrn - 4) * 4;
        }
        return;
      } else {
        ncrn := 4;
      }
    } else if ncrn < 4 {
      var isLong := p.kind.LLong?;
      if isLong {
        ncrn := RoundUp(ncrn, 2);
      }
      if !isLong || ncrn != 4 {
        plans := plans + [Plan(CoreClass, ncrn, if isLong then ncrn + 1 else ncrn)];
        ncrn := ncrn + if isLong then 2 else 1;
        return;
      }
    }
    nsaa := RoundUp(nsaa, 4 * align);
    plans := plans + [Plan(StackClass, nsaa, nsaa + 4 * size)];
    nsaa := nsaa + 4 * size;
  }

  method AssignRegs(args: seq<Param>) returns (plans: seq<Plan>, todo: set<nat>, nsaa: nat)
    requires Aligned(args)
    ensures var c := CallerAfter(args); plans == c.plans && todo == c.todo && nsaa == c.nsaa
  {
    hide CallerAfter, Place1;
    var ncrn: nat := 0;
    nsaa, todo, plans := 0, {}, [];
    EmptyCaller();
    var i := 0;
    while i < |args|
      invariant 0 <= i <= |args|
      invariant CallerAfter(args[..i]) == Caller(ncrn, nsaa, plans, todo)
    {
      CallerNext(args, i);
      ncrn, nsaa, plans, todo := AssignOne(args[i], ncrn, nsaa, plans, todo);
      i := i + 1;
    }
    assert args[..i] == args;
  }

  lemma EmptyCaller()
    ensures CallerAfter([]) == Caller(0, 0, [], {})
  {
  }

  datatype Callee = Callee(pn: nat, sn: nat, addrs: seq<nat>)

  /** The effect of one parameter on the callee's counters; n registers were saved. */
  function Read1(c: Callee, n: nat, p: Param): Callee
    requires p.align > 0
  {
    if c.pn < 4 then
      var pn := RoundUp(c.pn, WordAlign(p));
      var next := pn + Words(p);
      Callee(next, if c.sn == 0 && next > 4 then next - 4 else c.sn, c.addrs + [pn * 4])
    else
      var sn := RoundUp(c.sn, WordAlign(p));
      Callee(c.pn, sn + Words(p), c.addrs + [(n + sn) * 4])
  }

  ghost function CalleeAfter(ps: seq<Param>, n: nat, structRet: bool): (c: Callee)
    requires Aligned(ps)
    ensures |c.addrs| == |ps|
  {
    if ps == [] then Callee(if structRet then 1 else 0, 0, []) else
      var last := |ps| - 1;
      Read1(CalleeAfter(ps[..last], n, structRet), n, ps[last])
  }

  /** The words of the parameters, counted until they fill the registers. */
  ghost function CoreWords(ps: seq<Param>, structRet: bool): nat {
    if ps == [] then if structRet then 1 else 0 else
      var last := |ps| - 1;
      var n := CoreWords(ps[..last], structRet);
      if n < 4 then n + Words(ps[last]) else n
  }

  /** The number of registers the callee pushes. */
  ghost function Saved(ps: seq<Param>, structRet: bool, variadic: bool): nat {
    var n := CoreWords(ps, structRet);
    if variadic || n > 4 then 4 else RoundUp(n, 2)
  }

  lemma CalleeNext(ps: seq<Param>, i: nat, n: nat, structRet: bool)
    requires Aligned(ps) && i < |ps|
    ensures CalleeAfter(ps[..i + 1], n, structRet) == Read1(CalleeAfter(ps[..i], n, structRet), n, ps[i])
    ensures CoreWords(ps[..i + 1], structRet) ==
      var t := CoreWords(ps[..i], structRet); if t < 4 then t + Words(ps[i]) else t
  {
    hide Read1, Words;
    assert ps[..i + 1][..i] == ps[..i];
  }

  /** How many registers the callee saves, and the frame offset it gives to each parameter. */
  method GfuncProlog(params: seq<Param>, structRet: bool, variadic: bool) returns (n: nat, addrs: seq<nat>)
    requires Aligned(params)
    ensures n == Saved(params, structRet, variadic)
    ensures addrs == CalleeAfter(params, n, structRet).addrs
  {
    hide RoundUp, Words, CoreWords, CalleeAfter;
    n := if structRet then 1 else 0;
    EmptyCallee(structRet);
    var i := 0;
    while i < |params|
      invariant 0 <= i <= |params|
      invariant n == CoreWords(params[..i], structRet)
    {
      CalleeNext(params, i, 0, structRet);
      if n < 4 {
        n := n + Words(params[i]);
      }
      i := i + 1;
    }
    assert params[..i] == params;
    if variadic {
      n := 4;
    }
    RoundUpSmall();
    if n != 0 {
      if n > 4 {
        n := 4;
      }
      n := RoundUp(n, 2);
    }
    var pn: nat, sn: nat := if structRet then 1 else 0, 0;
    addrs := [];
    i := 0;
    EmptyFrame(n, structRet);
    while i < |params|
      invariant 0 <= i <= |params|
      invariant CalleeAfter(params[..i], n, structRet) == Callee(pn, sn, addrs)
    {
      CalleeNext(params, i, n, structRet);
      var size, align := Words(params[i]), WordAlign(params[i]);
      if pn < 4 {
        pn := RoundUp(pn, align);
        addrs := addrs + [pn * 4];
        pn := pn + size;
        if sn == 0 && pn > 4 {
          sn := pn - 4;
        }
      } else {
        sn := RoundUp(sn, align);
        addrs := addrs + [(n + sn) * 4];
        sn := sn + size;
      }
      i := i + 1;
    }
    assert params[..i] == params;
  }

  lemma EmptyCallee(structRet: bool)
    ensures CoreWords([], structRet) == if structRet then 1 else 0
  {
  }

  lemma EmptyFrame(n: nat, structRet: bool)
    ensures CalleeAfter([], n, structRet) == Callee(if structRet then 1 else 0, 0, [])
  {
  }

  lemma RoundUpSmall()
    ensures RoundUp(0, 2) == 0 && RoundUp(1, 2) == RoundUp(2, 2) == 2 && RoundUp(3, 2) == RoundUp(4, 2) == 4
  {
  }

  lemma AlignValues(p: Param)
    requires Legal(p)
    ensures p.align == 1 || p.align == 2 || p.align == 4 || p.align == 8 || p.align == 16 || p.align >= 32
    ensures p.size >= p.align
  {
    hide P;
    var k: nat :| p.align == P(k);
    SmallPowers();
    if k >= 5 {
      PMono(5, k);
    }
    SizeMultiple(p);
  }

  lemma SizeMultiple(p: Param)
    requires p.size > 0 && p.align > 0 && p.size % p.align == 0
    ensures p.size >= p.align
  {
  }

  /** The alignments in words are 1, 2, 4, and 8 or more; no parameter is smaller than its alignment. */
  lemma AlignCases(p: Param)
    requires Legal(p)
    ensures p.align > 0
    ensures var a := WordAlign(p); Words(p) >= a > 0 && (a == 1 || a == 2 || a == 4 || a >= 8)
    ensures p.kind.Core? ==> WordAlign(p) == 1 && Words(p) == 1
    ensures p.kind.LLong? ==> WordAlign(p) == 2 && Words(p) == 2
    ensures WordAlign(p) >= 8 <==> p.align > 16
  {
    AlignValues(p);
    assert (p.kind.Core? ==> p.size <= 4) && (p.kind.LLong? ==> p.size == 8 && p.align == 8);
    hide Legal;
  }

  /** An over-aligned struct that would start among the registers after the first. */
  predicate Misread(c: Caller, p: Param) {
    p.align > 16 && 0 < c.ncrn < 4
  }

  /** Caller and callee have consumed the same words; t is the callee's count of them. */
  predicate InStep(c: Caller, e: Callee, t: nat) {
    && (c.ncrn < 4 || e.pn < 4 ==> c.ncrn == e.pn == t && c.nsaa == 0 && e.sn == 0)
    && (c.ncrn >= 4 ==> c.nsaa == 4 * e.sn && t >= 3)
  }

  /** The n saved registers are enough for everything read so far. */
  predicate Enough(n: nat, e: Callee) {
    n <= 4 && (e.pn < 4 ==> e.pn <= n) && (e.pn >= 4 ==> n == 4)
  }

  /** The next multiple of a, for a register number. */
  function NextEven(x: nat): nat {
    if x == 0 then 0 else if x <= 2 then 2 else 4
  }

  lemma SmallRounding(x: nat, a: nat)
    requires x < 4 && (a == 1 || a == 2 || a == 4 || a >= 8)
    ensures RoundUp(x, a) == if a == 1 then x else if a == 2 then NextEven(x) else if x == 0 then 0 else a
  {
    hide RoundUp;
    RoundUpSmall();
    RoundUpFacts(x, a);
    assert x == 0 || x == 1 || x == 2 || x == 3;
  }

  /** The callee reads every word of p where the caller put it. */
  predicate Found(plan: Plan, addr: nat, n: nat, p: Param) {
    forall w :: 0 <= w < Words(p) ==> PlaceOf(plan, w) == FrameWord(addr / 4 + w, n)
  }

  /** What one parameter does to the two sides. */
  predicate Step(c: Caller, e: Callee, t: nat, n: nat, p: Param, c2: Caller, e2: Callee) {
    && |c2.plans| == |c.plans| + 1 && |e2.addrs| == |e.addrs| + 1
    && (!Misread(c, p) ==> InStep(c2, e2, if t < 4 then t + Words(p) else t))
    && (Enough(n, e2) ==> (Found(c2.plans[|c.plans|], e2.addrs[|e.addrs|], n, p) <==> !Misread(c, p)))
  }

  lemma AllOnStack(start: nat, addr: nat, n: nat, p: Param)
    requires addr / 4 == n + start
    ensures Found(Plan(StackClass, 4 * start, 4 * start + 4 * Words(p)), addr, n, p)
  {
    hide Words;
  }

  lemma InRegisters(cls: Class, r: nat, end: nat, addr: nat, n: nat, p: Param)
    requires cls != StackClass && addr / 4 == r < 4 && n <= 4
    requires (if r + Words(p) < 4 then r + Words(p) <= n else n == 4)
    ensures Found(Plan(cls, r, end), addr, n, p)
  {
    hide Words;
  }

  /** One parameter when both sides are out of registers. */
  lemma StepStacked(c: Caller, e: Callee, t: nat, n: nat, p: Param)
    requires Legal(p) && InStep(c, e, t) && c.ncrn >= 4
    ensures Step(c, e, t, n, p, Place1(c, p), Read1(e, n, p))
  {
    hide RoundUp, Words, WordAlign, Legal, Found;
    AlignCases(p);
    var a := WordAlign(p);
    RoundUpFacts(c.ncrn, a);
    RoundUpBytes(e.sn, a);
    var s := RoundUp(e.sn, a);
    AllOnStack(s, (n + s) * 4, n, p);
    assert Place1(c, p).plans == c.plans + [Plan(StackClass, 4 * s, 4 * s + 4 * Words(p))];
  }

  /** One integer or pointer while registers are left. */
  lemma StepCore(c: Caller, e: Callee, t: nat, n: nat, p: Param)
    requires Legal(p) && InStep(c, e, t) && c.ncrn < 4 && !p.kind.Aggregate?
    ensures Step(c, e, t, n, p, Place1(c, p), Read1(e, n, p))
  {
    hide RoundUp, Words, WordAlign, Legal, Found;
    AlignCases(p);
    SmallRounding(c.ncrn, WordAlign(p));
    RoundUpFacts(0, 4 * WordAlign(p));
    var r := RoundUp(c.ncrn, WordAlign(p));
    if r < 4 {
      if Enough(n, Read1(e, n, p)) {
        InRegisters(CoreClass, r, r + Words(p) - 1, r * 4, n, p);
      }
    } else {
      AllOnStack(0, 16, 4, p);
    }
  }

  /** One struct, or one float passed like a struct, while registers are left. */
  lemma StepAggregate(c: Caller, e: Callee, t: nat, n: nat, p: Param)
    requires Legal(p) && InStep(c, e, t) && c.ncrn < 4 && p.kind.Aggregate?
    ensures Step(c, e, t, n, p, Place1(c, p), Read1(e, n, p))
  {
    hide RoundUp, Words, WordAlign, Legal, Found;
    AlignCases(p);
    var a := WordAlign(p);
    SmallRounding(c.ncrn, a);
    RoundUpFacts(0, 4 * a);
    var r := RoundUp(c.ncrn, a);
    if r < 4 {
      if Enough(n, Read1(e, n, p)) {
        InRegisters(CoreStructClass, r, if r + Words(p) < 4 then r + Words(p) else 4, r * 4, n, p);
      }
    } else if a == 2 || a == 4 {
      AllOnStack(0, 16, 4, p);
    } else if n <= 4 {
      NotFound(Plan(StackClass, 0, 4 * Words(p)), r * 4, n, p);
    }
  }

  /** The first word of an over-aligned struct is read above the bottom of the argument area. */
  lemma NotFound(plan: Plan, addr: nat, n: nat, p: Param)
    requires plan.cls == StackClass && plan.start == 0 && addr / 4 > n && Words(p) > 0
    ensures !Found(plan, addr, n, p)
  {
    hide Words;
    assert PlaceOf(plan, 0) != FrameWord(addr / 4 + 0, n);
  }

  lemma StepAgrees(c: Caller, e: Callee, t: nat, n: nat, p: Param)
    requires Legal(p) && InStep(c, e, t)
    ensures p.align > 0 && Step(c, e, t, n, p, Place1(c, p), Read1(e, n, p))
  {
    hide *;
    AlignCases(p);
    if c.ncrn >= 4 {
      StepStacked(c, e, t, n, p);
    } else if p.kind.Aggregate? {
      StepAggregate(c, e, t, n, p);
    } else {
      StepCore(c, e, t, n, p);
    }
  }

  /** The hidden first argument: where to store the result. */
  function SretArg(structRet: bool): (r: seq<Param>)
    ensures |r| == if structRet then 1 else 0
  {
    if structRet then [Param(Core, 4, 4)] else []
  }

  lemma LegalAligned(ps: seq<Param>)
    requires AllLegal(ps)
    ensures Aligned(ps)
  {
    forall i | 0 <= i < |ps| ensures ps[i].align > 0 {
      AlignCases(ps[i]);
    }
  }

  lemma SretLegal(structRet: bool)
    ensures AllLegal(SretArg(structRet))
  {
    assert P(2) == 4;
  }

  /** The caller's state before argument i, counted without the hidden one. */
  ghost function CallerBefore(ps: seq<Param>, i: nat, structRet: bool): Caller
    requires AllLegal(ps) && i <= |ps|
  {
    SretLegal(structRet);
    LegalAligned(SretArg(structRet) + ps[..i]);
    CallerAfter(SretArg(structRet) + ps[..i])
  }

  lemma CallerBeforeNext(ps: seq<Param>, i: nat, structRet: bool)
    requires AllLegal(ps) && i < |ps|
    ensures ps[i].align > 0 && CallerBefore(ps, i + 1, structRet) == Place1(CallerBefore(ps, i, structRet), ps[i])
  {
    SretLegal(structRet);
    var h := SretArg(structRet);
    LegalAligned(h + ps[..i + 1]);
    assert (h + ps[..i + 1])[..|h| + i] == h + ps[..i];
    assert (h + ps[..i + 1])[..|h| + i + 1] == h + ps[..i + 1];
    CallerNext(h + ps[..i + 1], |h| + i);
  }

  /** No parameter is an over-aligned struct that starts after the first register. */
  ghost predicate NoneMisread(ps: seq<Param>, structRet: bool)
    requires AllLegal(ps)
  {
    forall i :: 0 <= i < |ps| ==> !Misread(CallerBefore(ps, i, structRet), ps[i])
  }

  lemma {:induction false} StaysInStep(ps: seq<Param>, i: nat, n: nat, structRet: bool)
    requires AllLegal(ps) && i <= |ps| && Aligned(ps)
    requires forall j :: 0 <= j < i ==> !Misread(CallerBefore(ps, j, structRet), ps[j])
    ensures InStep(CallerBefore(ps, i, structRet), CalleeAfter(ps[..i], n, structRet), CoreWords(ps[..i], structRet))
  {
    hide CallerBefore, CalleeAfter, CoreWords, Legal, Misread, InStep, Place1, Read1, Words;
    if i == 0 {
      Start(ps, n, structRet);
    } else {
      StaysInStep(ps, i - 1, n, structRet);
      CallerBeforeNext(ps, i - 1, structRet);
      CalleeNext(ps, i - 1, n, structRet);
      StepAgrees(CallerBefore(ps, i - 1, structRet), CalleeAfter(ps[..i - 1], n, structRet),
                 CoreWords(ps[..i - 1], structRet), n, ps[i - 1]);
    }
  }

  lemma Start(ps: seq<Param>, n: nat, structRet: bool)
    requires AllLegal(ps)
    ensures InStep(CallerBefore(ps, 0, structRet), CalleeAfter(ps[..0], n, structRet), CoreWords(ps[..0], structRet))
  {
    var h := SretArg(structRet);
    SretLegal(structRet);
    LegalAligned(h);
    assert h + ps[..0] == h && ps[..0] == [];
    if structRet {
      assert h[..0] == [];
      CallerNext(h, 0);
      assert h[..1] == h;
    }
  }

  lemma StepEnough(c: Caller, e: Callee, t: nat, n: nat, p: Param)
    requires Legal(p) && p.align > 0 && InStep(c, e, t) && n <= 4
    requires var t2 := if t < 4 then t + Words(p) else t; (t2 >= 3 ==> n == 4) && (t2 < 4 ==> t2 <= n)
    ensures Enough(n, Read1(e, n, p))
  {
    hide RoundUp, Words, WordAlign, Legal;
    AlignCases(p);
    if e.pn < 4 {
      SmallRounding(e.pn, WordAlign(p));
    }
  }

  lemma {:induction false} CountGrows(ps: seq<Param>, i: nat, structRet: bool)
    requires i <= |ps|
    ensures CoreWords(ps[..i], structRet) <= CoreWords(ps, structRet)
    decreases |ps|
  {
    if i == |ps| {
      assert ps[..i] == ps;
    } else {
      var last := |ps| - 1;
      assert ps[..last][..i] == ps[..i];
      CountGrows(ps[..last], i, structRet);
    }
  }

  lemma SavedEnough(ps: seq<Param>, i: nat, structRet: bool, variadic: bool)
    requires i <= |ps|
    ensures var n, t := Saved(ps, structRet, variadic), CoreWords(ps[..i], structRet);
      n <= 4 && (t >= 3 ==> n == 4) && (t < 4 ==> t <= n)
  {
    hide RoundUp, CoreWords;
    CountGrows(ps, i, structRet);
    RoundUpSmall();
    var t := CoreWords(ps, structRet);
    assert t == 0 || t == 1 || t == 2 || t == 3 || t == 4 || t > 4;
  }

  lemma {:induction false} PlansStay(ps: seq<Param>, k: nat)
    requires Aligned(ps) && k < |ps|
    ensures CallerAfter(ps).plans[k] == CallerAfter(ps[..k + 1]).plans[k]
    decreases |ps|
  {
    if k + 1 == |ps| {
      assert ps[..k + 1] == ps;
    } else {
      var last := |ps| - 1;
      assert ps[..last][..k + 1] == ps[..k + 1];
      PlansStay(ps[..last], k);
    }
  }

  lemma {:induction false} AddrsStay(ps: seq<Param>, n: nat, structRet: bool, k: nat)
    requires Aligned(ps) && k < |ps|
    ensures CalleeAfter(ps, n, structRet).addrs[k] == CalleeAfter(ps[..k + 1], n, structRet).addrs[k]
    decreases |ps|
  {
    if k + 1 == |ps| {
      assert ps[..k + 1] == ps;
    } else {
      var last := |ps| - 1;
      assert ps[..last][..k + 1] == ps[..k + 1];
      AddrsStay(ps[..last], n, structRet, k);
    }
  }

  /** The callee reads the parameters where a caller that passes them, and perhaps more, put them. */
  ghost predicate Agree(ps: seq<Param>, extra: seq<Param>, structRet: bool, variadic: bool)
    requires AllLegal(ps) && AllLegal(extra)
  {
    SretLegal(structRet);
    var h := SretArg(structRet);
    var args := h + ps + extra;
    LegalAligned(args);
    LegalAligned(ps);
    var n := Saved(ps, structRet, variadic);
    forall i {:trigger ps[i]} :: 0 <= i < |ps| ==>
      Found(CallerAfter(args).plans[|h| + i], CalleeAfter(ps, n, structRet).addrs[i], n, ps[i])
  }

  /** Parameter i as both sides see it after a prefix read in step. */
  lemma OneAgrees(ps: seq<Param>, extra: seq<Param>, i: nat, structRet: bool, variadic: bool)
    requires AllLegal(ps) && AllLegal(extra) && i < |ps|
    requires forall j :: 0 <= j < i ==> !Misread(CallerBefore(ps, j, structRet), ps[j])
    ensures AllLegal(SretArg(structRet)) && Aligned(ps) && Aligned(SretArg(structRet) + ps + extra)
    ensures var h, n := SretArg(structRet), Saved(ps, structRet, variadic);
      !Misread(CallerBefore(ps, i, structRet), ps[i]) <==>
      Found(CallerAfter(h + ps + extra).plans[|h| + i], CalleeAfter(ps, n, structRet).addrs[i], n, ps[i])
  {
    hide CallerAfter, CalleeAfter, CoreWords, Legal, Misread, InStep, Place1, Read1, Words, Saved, Found, Enough;
    SretLegal(structRet);
    var h, n := SretArg(structRet), Saved(ps, structRet, variadic);
    var args := h + ps + extra;
    LegalAligned(args);
    LegalAligned(ps);
    StaysInStep(ps, i, n, structRet);
    SavedEnough(ps, i + 1, structRet, variadic);
    CalleeNext(ps, i, n, structRet);
    CallerBeforeNext(ps, i, structRet);
    var c, e, t := CallerBefore(ps, i, structRet), CalleeAfter(ps[..i], n, structRet), CoreWords(ps[..i], structRet);
    StepEnough(c, e, t, n, ps[i]);
    StepAgrees(c, e, t, n, ps[i]);
    PlansStay(args, |h| + i);
    assert args[..|h| + i + 1] == h + ps[..i + 1];
    AddrsStay(ps, n, structRet, i);
  }

  /** Caller and callee agree on every parameter list except those with a misread struct. */
  lemma Agreement(ps: seq<Param>, extra: seq<Param>, structRet: bool, variadic: bool)
    requires AllLegal(ps) && AllLegal(extra)
    ensures Agree(ps, extra, structRet, variadic) <==> NoneMisread(ps, structRet)
  {
    hide CallerBefore, CallerAfter, CalleeAfter, Legal, Misread, Found, Saved;
    if NoneMisread(ps, structRet) {
      forall i | 0 <= i < |ps|
        ensures var h, n := SretArg(structRet), Saved(ps, structRet, variadic);
          AllLegal(h) && Aligned(ps) && Aligned(h + ps + extra) &&
          Found(CallerAfter(h + ps + extra).plans[|h| + i], CalleeAfter(ps, n, structRet).addrs[i], n, ps[i])
      {
        OneAgrees(ps, extra, i, structRet, variadic);
      }
    } else {
      var i := FirstMisread(ps, structRet);
      OneAgrees(ps, extra, i, structRet, variadic);
    }
  }

  lemma FirstMisread(ps: seq<Param>, structRet: bool) returns (i: nat)
    requires AllLegal(ps) && !NoneMisread(ps, structRet)
    ensures i < |ps| && Misread(CallerBefore(ps, i, structRet), ps[i])
    ensures forall j :: 0 <= j < i ==> !Misread(CallerBefore(ps, j, structRet), ps[j])
  {
    hide CallerBefore, Misread;
    i := 0;
    while !Misread(CallerBefore(ps, i, structRet), ps[i])
      invariant i < |ps|
      invariant forall j :: 0 <= j < i ==> !Misread(CallerBefore(ps, j, structRet), ps[j])
      decreases |ps| - i
    {
      assert i + 1 < |ps|;
      i := i + 1;
    }
  }

  /** Up to 16-byte alignment nothing is misread. */
  lemma SixteenAgrees(ps: seq<Param>, extra: seq<Param>, structRet: bool, variadic: bool)
    requires AllLegal(ps) && AllLegal(extra) && forall i :: 0 <= i < |ps| ==> ps[i].align <= 16
    ensures Agree(ps, extra, structRet, variadic)
  {
    hide CallerBefore, Agree;
    Agreement(ps, extra, structRet, variadic);
  }

  /** An int followed by a struct aligned to 32 bytes: passed on the stack, read past its end. */
  lemma OverAligned()
    ensures var ps := [Param(Core, 4, 4), Param(Aggregate, 32, 32)]; AllLegal(ps) && !Agree(ps, [], false, false)
  {
    var ps := [Param(Core, 4, 4), Param(Aggregate, 32, 32)];
    assert P(2) == 4;
    assert P(3) == 8;
    assert P(5) == 32;
    Agreement(ps, [], false, false);
    assert SretArg(false) + ps[..1] == [ps[0]] && [ps[0]][..0] == [];
    assert CallerBefore(ps, 1, false).ncrn == 1;
    hide Agree, CallerBefore;
    assert Misread(CallerBefore(ps, 1, false), ps[1]);
  }

  /** Registers and argument area as one row of words. */
  function Ord(x: Place): nat {
    match x
    case Reg(r) => r
    case Stack(k) => 4 + k
  }

  /** The first word of the row that is still free. */
  function Pos(c: Caller): nat {
    if c.ncrn < 4 then c.ncrn else 4 + c.nsaa / 4
  }

  predicate Tidy(c: Caller) {
    c.nsaa % 4 == 0 && (c.ncrn < 4 ==> c.nsaa == 0)
  }

  /** Register number or byte offset is a multiple of the alignment. */
  predicate OnBoundary(plan: Plan, p: Param)
    requires p.align > 0
  {
    if plan.cls == StackClass then plan.start % (4 * WordAlign(p)) == 0 else plan.start % WordAlign(p) == 0
  }

  /** d is c after one more argument, whose words lie between the free position before it and the one after it. */
  predicate PlacesNext(c: Caller, p: Param, d: Caller)
    requires p.align > 0
  {
    && Tidy(d) && Pos(c) <= Pos(d) && |d.plans| == |c.plans| + 1 && d.plans[..|c.plans|] == c.plans
    && OnBoundary(d.plans[|c.plans|], p)
    && forall w :: 0 <= w < Words(p) ==> Pos(c) <= Ord(PlaceOf(d.plans[|c.plans|], w)) < Pos(d)
  }

  lemma Quarter(x: nat)
    ensures 4 * x / 4 == x && 4 * x % 4 == 0
  {
  }

  lemma StackPlaces(c: Caller, p: Param)
    requires p.align > 0 && Tidy(c) && c.ncrn >= 4
    ensures PlacesNext(c, p, OnStack(c, p))
  {
    hide RoundUp, Words, WordAlign;
    var a, m := WordAlign(p), c.nsaa / 4;
    assert c.nsaa == 4 * m;
    var s := RoundUp(m, a);
    RoundUpFacts(m, a);
    RoundUpBytes(m, a);
    RoundUpMultiple(4 * m, 4 * a);
    Quarter(s);
    Quarter(s + Words(p));
  }

  lemma StepPlaces(c: Caller, p: Param)
    requires Legal(p) && Tidy(c)
    ensures p.align > 0 && PlacesNext(c, p, Place1(c, p))
  {
    hide RoundUp, Words, WordAlign, Legal, OnStack;
    AlignCases(p);
    var a := WordAlign(p);
    RoundUpFacts(c.ncrn, a);
    RoundUpMultiple(c.ncrn, a);
    RoundUpSmall();
    if c.ncrn >= 4 {
      StackPlaces(c, p);
    }
    StackPlaces(c.(ncrn := 4), p);
  }

  /** The words of arguments placed so far stay below the free position and follow one another; todo is the registers
    * of structs. */
  ghost predicate Placed(ps: seq<Param>, c: Caller)
    requires Aligned(ps)
  {
    && Tidy(c) && |c.plans| == |ps|
    && (forall i, w :: 0 <= i < |ps| && 0 <= w < Words(ps[i]) ==> Ord(PlaceOf(c.plans[i], w)) < Pos(c))
    && (forall i, w, j, v :: 0 <= i < j < |ps| && 0 <= w < Words(ps[i]) && 0 <= v < Words(ps[j]) ==>
          Ord(PlaceOf(c.plans[i], w)) < Ord(PlaceOf(c.plans[j], v)))
    && (forall i :: 0 <= i < |ps| ==> OnBoundary(c.plans[i], ps[i]))
  }

  /** No two words of the arguments share a place, all stack words lie in the nsaa bytes, and every argument is
    * aligned. */
  lemma {:induction false} AllPlaced(ps: seq<Param>)
    requires AllLegal(ps)
    ensures Aligned(ps) && Placed(ps, CallerAfter(ps))
    decreases |ps|
  {
    LegalAligned(ps);
    hide Place1, Legal, Placed, PlacesNext;
    if ps == [] {
      NonePlaced();
    } else {
      var last := |ps| - 1;
      var c := CallerAfter(ps[..last]);
      AllPlaced(ps[..last]);
      PlacedTidy(ps[..last], c);
      StepPlaces(c, ps[last]);
      PlacedNext(ps, c, Place1(c, ps[last]));
    }
  }

  lemma NonePlaced()
    ensures Placed([], CallerAfter([]))
  {
  }

  lemma PlacedTidy(ps: seq<Param>, c: Caller)
    requires Aligned(ps) && Placed(ps, c)
    ensures Tidy(c)
  {
  }

  lemma PlacedNext(ps: seq<Param>, c: Caller, d: Caller)
    requires Aligned(ps) && ps != [] && Placed(ps[..|ps| - 1], c) && PlacesNext(c, ps[|ps| - 1], d)
    ensures Placed(ps, d)
  {
    hide Words, WordAlign, PlaceOf, OnBoundary, Ord, Pos, Tidy;
    assert forall i :: 0 <= i < |c.plans| ==> d.plans[i] == c.plans[i];
  }

  lemma StepKeeps(c: Caller, p: Param)
    requires p.align > 0
    ensures |Place1(c, p).plans| == |c.plans| + 1 && Place1(c, p).plans[..|c.plans|] == c.plans
  {
    hide RoundUp, Words, WordAlign;
  }

  /** The registers marked to be loaded from the stack are those of the structs. */
  lemma {:induction false} TodoRegisters(ps: seq<Param>, r: nat)
    requires Aligned(ps)
    ensures r in CallerAfter(ps).todo <==>
      exists plan :: plan in CallerAfter(ps).plans && plan.cls == CoreStructClass && plan.start <= r < plan.end
    decreases |ps|
  {
    if ps != [] {
      var last := |ps| - 1;
      var c := CallerAfter(ps[..last]);
      TodoRegisters(ps[..last], r);
      hide RoundUp, Words, WordAlign, CallerAfter;
      assert CallerAfter(ps) == Place1(c, ps[last]) by {
        CallerNext(ps, last);
        assert ps[..last + 1] == ps;
      }
      StepKeeps(c, ps[last]);
      StepTodo(c, ps[last], r);
      var d := Place1(c, ps[last]);
      assert d.plans == c.plans + [d.plans[|c.plans|]];
    }
  }

  lemma StepTodo(c: Caller, p: Param, r: nat)
    requires p.align > 0
    ensures var d := Place1(c, p);
      |d.plans| == |c.plans| + 1 && var plan := d.plans[|c.plans|];
      r in d.todo <==> (r in c.todo || (plan.cls == CoreStructClass && plan.start <= r < plan.end))
  {
    hide RoundUp, Words, WordAlign;
  }
}
