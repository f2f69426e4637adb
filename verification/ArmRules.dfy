/** The rules of the ARM procedure call standard for core registers, stated on the plans alone: which registers an
  * argument gets, when it is split or goes to the stack, and where. */
module ArmRules {
  import opened Binary
  import opened Rounding
  import opened ArmParams

  function Least(a: nat, b: nat): nat { if a < b then a else b }

  /** The plans of the caller. */
  ghost function Plans(ps: seq<Param>): (r: seq<Plan>)
    requires Aligned(ps)
    ensures |r| == |ps|
  {
    CallerAfter(ps).plans
  }

  /** C.2 to C.5: the first register behind the first i arguments, 4 if none is left; after a stacked argument none
    * is. */
  ghost function FreeRegister(ps: seq<Param>, i: nat): nat
    requires Aligned(ps) && i <= |ps|
  {
    if i == 0 then 0
    else
      var plan := Plans(ps)[i - 1];
      if plan.cls == StackClass then 4 else Least(4, plan.start + Words(ps[i - 1]))
  }

  /** The bytes of the argument area that the first i arguments take: those of a struct that run on from r3, and those
    * of stacked arguments. */
  ghost function AreaEnd(ps: seq<Param>, i: nat): nat
    requires Aligned(ps) && i <= |ps|
  {
    if i == 0 then 0
    else
      var plan, p := Plans(ps)[i - 1], ps[i - 1];
      if plan.cls == StackClass then plan.start + 4 * Words(p)
      else if plan.start + Words(p) > 4 then 4 * (plan.start + Words(p) - 4)
      else AreaEnd(ps, i - 1)
  }

  /** C.3: arguments aligned to more than a word start at a multiple of their alignment; a single word needs none. */
  function Start(p: Param, free: nat): nat
    requires p.align > 0
  {
    RoundUp(free, WordAlign(p))
  }

  /** What the rules say about the plan of argument i. */
  ghost predicate ByTheRules(ps: seq<Param>, i: nat)
    requires Aligned(ps) && i < |ps|
  {
    var p, plan := ps[i], Plans(ps)[i];
    var free := FreeRegister(ps, i);
    var start := Start(p, free);
    if free < 4 && start < 4 then
      && plan.start == start
      && plan.cls == (if p.kind.Aggregate? then CoreStructClass else CoreClass)
      && plan.end == match p.kind
         case Aggregate => Least(4, start + Words(p)) // one behind the last register
         case Core => start // the register itself
         case LLong => start + 1 // the second of the two
    else
      && plan.cls == StackClass
      && plan.start == RoundUp(AreaEnd(ps, i), 4 * WordAlign(p))
      && plan.end == plan.start + 4 * Words(p)
  }

  /** The caller's counters, as far as they matter. */
  ghost predicate Counted(c: Caller, free: nat, area: nat) {
    Least(4, c.ncrn) == free && c.nsaa == area && (c.ncrn < 4 ==> c.nsaa == 0)
  }

  /** One argument, by the rules. */
  ghost predicate StepRule(c: Caller, p: Param, d: Caller)
    requires p.align > 0
  {
    && |d.plans| == |c.plans| + 1
    && var plan := d.plans[|c.plans|];
       var start := Start(p, Least(4, c.ncrn));
       if c.ncrn < 4 && start < 4 then
         && plan.start == start && plan.cls == (if p.kind.Aggregate? then CoreStructClass else CoreClass)
         && plan.end == (if p.kind.Aggregate? then Least(4, start + Words(p))
                         else if p.kind.LLong? then start + 1 else start)
         && Least(4, d.ncrn) == Least(4, start + Words(p))
         && d.nsaa == (if start + Words(p) > 4 then 4 * (start + Words(p) - 4) else c.nsaa)
         && (d.ncrn < 4 ==> d.nsaa == 0)
       else
         && plan.cls == StackClass && plan.start == RoundUp(c.nsaa, 4 * WordAlign(p))
         && plan.end == plan.start + 4 * Words(p) && d.ncrn >= 4 && d.nsaa == plan.end
  }

  /** No register is left. */
  lemma StepStack(c: Caller, p: Param)
    requires Legal(p) && p.align > 0 && c.ncrn >= 4
    ensures StepRule(c, p, Place1(c, p))
  {
    hide RoundUp, Words, WordAlign, Legal;
    AlignCases(p);
    RoundUpFacts(c.ncrn, WordAlign(p));
  }

  lemma StepCoreRule(c: Caller, p: Param)
    requires Legal(p) && p.align > 0 && c.ncrn < 4 && c.nsaa == 0 && !p.kind.Aggregate?
    ensures StepRule(c, p, Place1(c, p))
  {
    hide RoundUp, Words, WordAlign, Legal;
    AlignCases(p);
    SmallRounding(c.ncrn, WordAlign(p));
  }

  lemma StepAggregateRule(c: Caller, p: Param)
    requires Legal(p) && p.align > 0 && c.ncrn < 4 && c.nsaa == 0 && p.kind.Aggregate?
    ensures StepRule(c, p, Place1(c, p))
  {
    hide RoundUp, Words, WordAlign, Legal;
    AlignCases(p);
    SmallRounding(c.ncrn, WordAlign(p));
  }

  lemma StepFollows(c: Caller, p: Param)
    requires Legal(p) && p.align > 0 && (c.ncrn < 4 ==> c.nsaa == 0)
    ensures StepRule(c, p, Place1(c, p))
  {
    hide StepRule, Place1, Legal;
    if c.ncrn >= 4 {
      StepStack(c, p);
    } else if p.kind.Aggregate? {
      StepAggregateRule(c, p);
    } else {
      StepCoreRule(c, p);
    }
  }

  lemma NextIs(ps: seq<Param>, i: nat)
    requires Aligned(ps) && i < |ps|
    ensures var plan, p := Plans(ps)[i], ps[i];
      && FreeRegister(ps, i + 1) == (if plan.cls == StackClass then 4 else Least(4, plan.start + Words(p)))
      && AreaEnd(ps, i + 1) == (if plan.cls == StackClass then plan.start + 4 * Words(p)
                                else if plan.start + Words(p) > 4 then 4 * (plan.start + Words(p) - 4)
                                else AreaEnd(ps, i))
    ensures FreeRegister(ps, 0) == 0 && AreaEnd(ps, 0) == 0
  {
    hide Plans, Words;
  }

  /** Plan i is settled when argument i is placed. */
  lemma PlanIs(ps: seq<Param>, i: nat)
    requires Aligned(ps) && i < |ps|
    ensures |CallerAfter(ps[..i]).plans| == i
    ensures var d := Place1(CallerAfter(ps[..i]), ps[i]); |d.plans| == i + 1 && Plans(ps)[i] == d.plans[i]
  {
    hide Place1;
    PlansStay(ps, i);
    CallerNext(ps, i);
    assert ps[..i + 1][..i] == ps[..i];
  }

  lemma {:induction false} CountersAre(ps: seq<Param>, i: nat)
    requires AllLegal(ps) && Aligned(ps) && i <= |ps|
    ensures Counted(CallerAfter(ps[..i]), FreeRegister(ps, i), AreaEnd(ps, i))
    decreases i
  {
    hide Place1, Legal, CallerAfter, Plans, Words, WordAlign, Start;
    if i == 0 {
      assert ps[..0] == [];
      EmptyCaller();
      Nothing(ps);
    } else {
      CountersAre(ps, i - 1);
      PlanIs(ps, i - 1);
      CallerNext(ps, i - 1);
      NextIs(ps, i - 1);
      StepFollows(CallerAfter(ps[..i - 1]), ps[i - 1]);
    }
  }

  lemma Nothing(ps: seq<Param>)
    requires Aligned(ps)
    ensures FreeRegister(ps, 0) == 0 && AreaEnd(ps, 0) == 0
  {
  }

  /** Every argument is planned as the rules say, and the argument area ends where the last of them does. */
  lemma FollowsRules(ps: seq<Param>, i: nat)
    requires AllLegal(ps) && Aligned(ps) && i < |ps|
    ensures ByTheRules(ps, i)
    ensures CallerAfter(ps).nsaa == AreaEnd(ps, |ps|)
  {
    hide Place1, Legal, CallerAfter, Plans, Words, WordAlign, Start, FreeRegister, AreaEnd;
    CountersAre(ps, i);
    CountersAre(ps, |ps|);
    assert ps[..|ps|] == ps;
    PlanIs(ps, i);
    StepFollows(CallerAfter(ps[..i]), ps[i]);
  }

  /** The registers that the callee saves: an even number, four for a variadic function, and else no pair of registers
    * more than its parameters' words reach. */
  lemma SavedTight(ps: seq<Param>, structRet: bool, variadic: bool)
    ensures var n, t := Saved(ps, structRet, variadic), CoreWords(ps, structRet);
      && (n == 0 || n == 2 || n == 4) && (variadic ==> n == 4)
      && n >= Least(4, t) && (!variadic ==> n < Least(4, t) + 2)
  {
    hide RoundUp, CoreWords;
    RoundUpSmall();
    var t := CoreWords(ps, structRet);
    assert t == 0 || t == 1 || t == 2 || t == 3 || t == 4 || t > 4;
  }
}
