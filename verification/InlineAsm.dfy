/** Choosing registers for the operands of inline assembly, on i386 and on ARM. */
module InlineAsm {
  import opened Binary

  /** Where the C value of an operand is: an address kept in memory, a constant with or without a symbol, or anywhere
    * else but a register variable. */
  datatype Value = LLocal | Const(sym: bool) | Other

  datatype Operand = Operand(id: Option<string>, constraint: string, value: Value, refIndex: int, inputIndex: int,
                             priority: int, reg: int, isLlong: bool, isMemory: bool, isRw: bool)

  datatype Cpu = I386 | Arm

  /** The registers that inline assembly can name. */
  function RegisterCount(cpu: Cpu): (n: nat)
    ensures n >= 8
  {
    if cpu.I386? then 8 else 16
  }

  /** How many of them, from the first on, are tried for an operand. */
  function GeneralCount(cpu: Cpu): (n: nat)
    ensures 8 <= n <= RegisterCount(cpu)
  {
    if cpu.I386? then 8 else 9
  }

  /** The stack and frame registers: esp and ebp, or sp and fp. */
  predicate Reserved(cpu: Cpu, r: nat) {
    if cpu.I386? then r == 4 || r == 5 else r == 13 || r == 11
  }

  datatype Error = InvalidReference | ReferencedTwice | UnknownConstraint | OutputsOnly | Unsatisfied | NoOutReg

  /** An error of the first pass over the operands, before any register is looked for. */
  predicate LinkError(e: Error) { e in {InvalidReference, ReferencedTwice, UnknownConstraint} }

  predicate IsNum(c: char) { '0' <= c <= '9' }

  function SkipModifiers(s: string): string {
    if s != "" && s[0] in {'=', '&', '+', '%'} then SkipModifiers(s[1..]) else s
  }

  function Number(s: string, acc: nat): nat {
    if s != "" && IsNum(s[0]) then Number(s[1..], acc * 10 + (s[0] as nat - '0' as nat)) else acc
  }

  function NameLength(s: string): Option<nat> {
    if s == "" then None
    else if s[0] == ']' then Some(0)
    else match NameLength(s[1..]) case None => None case Some(n) => Some(n + 1)
  }

  function ById(ids: seq<Option<string>>, name: string, i: nat): Option<nat>
    decreases |ids| - i
  {
    if i >= |ids| then None else if ids[i] == Some(name) then Some(i) else ById(ids, name, i + 1)
  }

  lemma {:induction false} NameFits(s: string)
    ensures NameLength(s).Some? ==> NameLength(s).value <= |s|
  {
    if s != "" && s[0] != ']' {
      NameFits(s[1..]);
    }
  }

  predicate IsRef(s: string) { s != "" && (IsNum(s[0]) || s[0] == '[') }

  /** The operand that "3" or "[name]" means. */
  function FindConstraint(ids: seq<Option<string>>, s: string): Option<nat>
    requires IsRef(s)
  {
    if IsNum(s[0]) then
      var n := Number(s, 0);
      if n < |ids| then Some(n) else None
    else
      match NameLength(s[1..])
      case None => None
      case Some(n) =>
        NameFits(s[1..]);
        ById(ids, s[1..1 + n], 0)
  }

  /** The priority of one constraint letter. */
  function LetterPriority(cpu: Cpu, c: char): Option<int> {
    match cpu
    case I386 =>
      if c == 'A' then Some(0)
      else if c in {'a', 'b', 'c', 'd', 'S', 'D'} then Some(1)
      else if c == 'q' then Some(2)
      else if c in {'r', 'R', 'p'} then Some(3)
      else if c in {'N', 'M', 'I', 'e', 'i', 'm', 'g'} then Some(4)
      else None
    case Arm =>
      if c in {'l', 'r', 'p'} then Some(3)
      else if c in {'M', 'I', 'J', 'i', 'm', 'g'} then Some(4)
      else None
  }

  predicate Known(cpu: Cpu, s: string) { forall i :: 0 <= i < |s| ==> LetterPriority(cpu, s[i]).Some? }

  /** p is the highest number among the letters, 0 if there are none. */
  ghost predicate IsPriority(cpu: Cpu, s: string, p: int) {
    && Known(cpu, s) && 0 <= p <= 4
    && (forall i :: 0 <= i < |s| ==> LetterPriority(cpu, s[i]).value <= p)
    && (if s == "" then p == 0 else exists i :: 0 <= i < |s| && LetterPriority(cpu, s[i]).value == p)
  }

  method ConstraintPriority(cpu: Cpu, s: string) returns (ok: bool, priority: int)
    ensures if ok then IsPriority(cpu, s, priority) else !Known(cpu, s)
  {
    priority := 0;
    var i := 0;
    while i < |s|
      invariant 0 <= i <= |s| && 0 <= priority <= 4
      invariant forall j :: 0 <= j < i ==>
        LetterPriority(cpu, s[j]).Some? && LetterPriority(cpu, s[j]).value <= priority
      invariant if i == 0 then priority == 0 else exists j :: 0 <= j < i && LetterPriority(cpu, s[j]).value == priority
    {
      match LetterPriority(cpu, s[i]) {
        case None =>
          return false, 0;
        case Some(pr) =>
          if pr > priority {
            priority := pr;
          }
      }
      i := i + 1;
    }
    return true, priority;
  }

  /** The part of the constraint that says what is wanted. */
  function Wanted(op: Operand): string { SkipModifiers(op.constraint) }

  function Ids(ops: seq<Operand>): (r: seq<Option<string>>)
    ensures |r| == |ops|
  {
    seq(|ops|, i requires 0 <= i < |ops| => ops[i].id)
  }

  /** The operand that operand i refers to. */
  function Target(ops: seq<Operand>, i: nat): Option<nat>
    requires i < |ops|
  {
    if IsRef(Wanted(ops[i])) then FindConstraint(Ids(ops), Wanted(ops[i])) else None
  }

  /** Operand i is an input that refers to an earlier operand, or has only known letters. */
  predicate OperandOk(cpu: Cpu, ops: seq<Operand>, nbOutputs: nat, i: nat)
    requires i < |ops|
  {
    if IsRef(Wanted(ops[i])) then Target(ops, i).Some? && Target(ops, i).value < i && i >= nbOutputs
    else Known(cpu, Wanted(ops[i]))
  }

  ghost predicate Accepted(cpu: Cpu, ops: seq<Operand>, nbOutputs: nat, n: nat)
    requires n <= |ops|
  {
    && (forall i :: 0 <= i < n ==> OperandOk(cpu, ops, nbOutputs, i))
    && (forall i, j :: 0 <= i < j < n && Target(ops, i).Some? ==> Target(ops, i) != Target(ops, j))
  }

  predicate SameSource(a: Operand, b: Operand) {
    a.id == b.id && a.constraint == b.constraint && a.value == b.value
  }

  predicate Fresh(op: Operand) { op.reg == -1 && !op.isMemory && !op.isRw }

  predicate Kept(ops0: seq<Operand>, ops: seq<Operand>)
    requires |ops| == |ops0|
  {
    forall i :: 0 <= i < |ops| ==> SameSource(ops0[i], ops[i]) && Fresh(ops[i])
  }

  function RefIndex(ops0: seq<Operand>, i: nat): int
    requires i < |ops0|
  {
    match Target(ops0, i)
    case None => -1
    case Some(k) => k
  }

  predicate RefsSet(ops0: seq<Operand>, ops: seq<Operand>, n: nat)
    requires n <= |ops| == |ops0|
  {
    forall i :: 0 <= i < |ops| ==> ops[i].refIndex == if i < n then RefIndex(ops0, i) else -1
  }

  predicate InputsSet(ops0: seq<Operand>, ops: seq<Operand>, n: nat)
    requires n <= |ops| == |ops0|
  {
    && (forall k :: 0 <= k < |ops| ==> -1 <= ops[k].inputIndex < n)
    && (forall i, k :: 0 <= i < n && 0 <= k < |ops| ==> (ops[k].inputIndex == i <==> RefIndex(ops0, i) == k))
  }

  ghost predicate PrioritySet(cpu: Cpu, op0: Operand, op: Operand) {
    if IsRef(Wanted(op0)) then op.priority == 5 else IsPriority(cpu, Wanted(op0), op.priority)
  }

  ghost predicate PrioritiesSet(cpu: Cpu, ops0: seq<Operand>, ops: seq<Operand>, n: nat)
    requires n <= |ops| == |ops0|
  {
    forall i :: 0 <= i < n ==> PrioritySet(cpu, ops0[i], ops[i])
  }

  /** The links and priorities of the first n operands are those of the constraints. */
  ghost predicate Linked(cpu: Cpu, ops0: seq<Operand>, ops: seq<Operand>, n: nat)
    requires n <= |ops| == |ops0|
  {
    Kept(ops0, ops) && RefsSet(ops0, ops, n) && InputsSet(ops0, ops, n) && PrioritiesSet(cpu, ops0, ops, n)
  }

  method Reset(cpu: Cpu, ops: array<Operand>)
    modifies ops
    ensures Linked(cpu, old(ops[..]), ops[..], 0)
  {
    ghost var ops0 := ops[..];
    var i := 0;
    while i < ops.Length
      invariant 0 <= i <= ops.Length
      invariant forall j :: 0 <= j < ops.Length ==> SameSource(ops0[j], ops[j])
      invariant forall j :: 0 <= j < i ==> Fresh(ops[j]) && ops[j].inputIndex == -1 && ops[j].refIndex == -1
    {
      ops[i] := ops[i].(inputIndex := -1, refIndex := -1, reg := -1, isMemory := false, isRw := false);
      i := i + 1;
    }
  }

  lemma SameIds(cpu: Cpu, ops0: seq<Operand>, ops: seq<Operand>, n: nat)
    requires n <= |ops| == |ops0| && Linked(cpu, ops0, ops, n)
    ensures Ids(ops0) == Ids(ops)
    ensures forall i :: 0 <= i < |ops| ==> Wanted(ops[i]) == Wanted(ops0[i])
  {
    hide RefsSet, InputsSet, PrioritiesSet, SkipModifiers;
  }

  lemma AcceptRef(cpu: Cpu, ops0: seq<Operand>, ops: seq<Operand>, nbOutputs: nat, i: nat, k: nat)
    requires i < |ops| == |ops0| && Accepted(cpu, ops0, nbOutputs, i) && InputsSet(ops0, ops, i)
    requires IsRef(Wanted(ops0[i])) && Target(ops0, i) == Some(k) && k < i && i >= nbOutputs && ops[k].inputIndex < 0
    ensures Accepted(cpu, ops0, nbOutputs, i + 1)
  {
    hide Wanted, IsRef, Known, Target;
    forall j | 0 <= j < i ensures Target(ops0, j) != Some(k) {
      assert ops[k].inputIndex == j <==> RefIndex(ops0, j) == k;
    }
  }

  /** The operands after operand i was found to refer to operand k. */
  function WithRef(ops: seq<Operand>, i: nat, k: nat): (r: seq<Operand>)
    requires k < i < |ops|
    ensures |r| == |ops|
  {
    ops[i := ops[i].(refIndex := k, priority := 5)][k := ops[k].(inputIndex := i)]
  }

  lemma RefInputs(ops0: seq<Operand>, ops: seq<Operand>, i: nat, k: nat)
    requires k < i < |ops| == |ops0| && InputsSet(ops0, ops, i) && RefIndex(ops0, i) == k && ops[k].inputIndex < 0
    ensures InputsSet(ops0, WithRef(ops, i, k), i + 1)
  {
    hide RefIndex;
  }

  lemma RefRest(cpu: Cpu, ops0: seq<Operand>, ops: seq<Operand>, i: nat, k: nat)
    requires k < i < |ops| == |ops0| && RefIndex(ops0, i) == k && IsRef(Wanted(ops0[i]))
    requires Kept(ops0, ops) && RefsSet(ops0, ops, i) && PrioritiesSet(cpu, ops0, ops, i)
    ensures var r := WithRef(ops, i, k); Kept(ops0, r) && RefsSet(ops0, r, i + 1) && PrioritiesSet(cpu, ops0, r, i + 1)
  {
    hide RefIndex, IsRef, Wanted, IsPriority;
  }

  lemma LettersInputs(ops0: seq<Operand>, ops: seq<Operand>, i: nat, p: int)
    requires i < |ops| == |ops0| && InputsSet(ops0, ops, i) && RefIndex(ops0, i) == -1
    ensures InputsSet(ops0, ops[i := ops[i].(priority := p)], i + 1)
  {
    hide RefIndex;
  }

  lemma LettersRest(cpu: Cpu, ops0: seq<Operand>, ops: seq<Operand>, i: nat, p: int)
    requires i < |ops| == |ops0| && RefIndex(ops0, i) == -1 && !IsRef(Wanted(ops0[i]))
    requires IsPriority(cpu, Wanted(ops0[i]), p)
    requires Kept(ops0, ops) && RefsSet(ops0, ops, i) && PrioritiesSet(cpu, ops0, ops, i)
    ensures var r := ops[i := ops[i].(priority := p)];
      Kept(ops0, r) && RefsSet(ops0, r, i + 1) && PrioritiesSet(cpu, ops0, r, i + 1)
  {
    hide RefIndex, IsRef, Wanted, IsPriority;
  }

  lemma AcceptLetters(cpu: Cpu, ops0: seq<Operand>, nbOutputs: nat, i: nat)
    requires i < |ops0| && Accepted(cpu, ops0, nbOutputs, i) && !IsRef(Wanted(ops0[i])) && Known(cpu, Wanted(ops0[i]))
    ensures Accepted(cpu, ops0, nbOutputs, i + 1) && RefIndex(ops0, i) == -1
  {
    assert Target(ops0, i) == None;
    hide Wanted, IsRef, Known, Target;
  }

  /** The second loop: priorities, and references to outputs or earlier inputs. */
  method Link(cpu: Cpu, ops: array<Operand>, nbOutputs: nat) returns (err: Option<Error>)
    requires nbOutputs <= ops.Length
    modifies ops
    ensures err.None? <==> Accepted(cpu, old(ops[..]), nbOutputs, ops.Length)
    ensures err.None? ==> Linked(cpu, old(ops[..]), ops[..], ops.Length)
    ensures err.Some? ==> LinkError(err.value)
  {
    hide Wanted, IsRef, Known, Target, IsPriority, Kept, RefsSet, InputsSet, PrioritiesSet, Accepted, Ids,
      FindConstraint;
    ghost var ops0 := ops[..];
    Reset(cpu, ops);
    NoneAccepted(cpu, ops0, nbOutputs);
    var i: nat := 0;
    while i < ops.Length
      invariant 0 <= i <= ops.Length
      invariant Accepted(cpu, ops0, nbOutputs, i) && Linked(cpu, ops0, ops[..], i)
    {
      ghost var was := ops[..];
      SameIds(cpu, ops0, was, i);
      var str := Wanted(ops[i]);
      if IsRef(str) {
        TargetIs(ops0, i);
        var target := FindConstraint(Ids(ops[..]), str);
        if target.None? || target.value >= i || i < nbOutputs {
          NotOk(cpu, ops0, nbOutputs, i);
          return Some(InvalidReference);
        }
        var k := target.value;
        ops[i] := ops[i].(refIndex := k);
        assert ops[..] == was[i := ops[i]];
        if ops[k].inputIndex >= 0 {
          SecondRef(cpu, ops0, was, nbOutputs, i, k);
          return Some(ReferencedTwice);
        }
        AcceptRef(cpu, ops0, was, nbOutputs, i, k);
        RefInputs(ops0, was, i, k);
        RefRest(cpu, ops0, was, i, k);
        ops[k] := ops[k].(inputIndex := i);
        ops[i] := ops[i].(priority := 5);
        assert ops[..] == WithRef(was, i, k);
      } else {
        var ok, pr := ConstraintPriority(cpu, str);
        if !ok {
          NotOk(cpu, ops0, nbOutputs, i);
          return Some(UnknownConstraint);
        }
        PriorityKnown(cpu, str, pr);
        AcceptLetters(cpu, ops0, nbOutputs, i);
        LettersInputs(ops0, was, i, pr);
        LettersRest(cpu, ops0, was, i, pr);
        ops[i] := ops[i].(priority := pr);
        assert ops[..] == was[i := ops[i]];
      }
      i := i + 1;
    }
    err := None;
  }

  lemma PriorityKnown(cpu: Cpu, s: string, p: int)
    requires IsPriority(cpu, s, p)
    ensures Known(cpu, s)
  {
  }

  lemma NoneAccepted(cpu: Cpu, ops: seq<Operand>, nbOutputs: nat)
    ensures Accepted(cpu, ops, nbOutputs, 0)
  {
  }

  lemma TargetIs(ops: seq<Operand>, i: nat)
    requires i < |ops| && IsRef(Wanted(ops[i]))
    ensures Target(ops, i) == FindConstraint(Ids(ops), Wanted(ops[i]))
  {
  }

  lemma NotOk(cpu: Cpu, ops: seq<Operand>, nbOutputs: nat, i: nat)
    requires i < |ops| && !OperandOk(cpu, ops, nbOutputs, i)
    ensures !Accepted(cpu, ops, nbOutputs, |ops|)
  {
    hide OperandOk;
  }

  /** Operand k already has an input, so two operands refer to it. */
  lemma SecondRef(cpu: Cpu, ops0: seq<Operand>, ops: seq<Operand>, nbOutputs: nat, i: nat, k: nat)
    requires i < |ops| == |ops0| && Linked(cpu, ops0, ops, i) && Target(ops0, i) == Some(k) && k < |ops|
    requires ops[k].inputIndex >= 0
    ensures !Accepted(cpu, ops0, nbOutputs, |ops0|)
  {
    hide Wanted, IsRef, Known, Target, Kept, RefsSet, PrioritiesSet;
    var j := ops[k].inputIndex;
    assert 0 <= j < i && RefIndex(ops0, j) == k;
  }

  /** s holds each number below |s| once. */
  predicate Permutation(s: seq<nat>) {
    (forall i :: 0 <= i < |s| ==> s[i] < |s|) && forall i, j :: 0 <= i < j < |s| ==> s[i] != s[j]
  }

  predicate Ordered(ops: seq<Operand>, s: seq<nat>)
    requires |s| == |ops| && Permutation(s)
  {
    forall i, j :: 0 <= i < j < |s| ==> ops[s[i]].priority <= ops[s[j]].priority
  }

  /** The first i places are final, and place i holds the least of those up to j. */
  predicate Selecting(ops: seq<Operand>, s: seq<nat>, i: nat, j: nat) {
    && |s| == |ops| && Permutation(s)
    && (forall p, q :: 0 <= p < i && p < q < |s| ==> ops[s[p]].priority <= ops[s[q]].priority)
    && (forall q :: i < q < j && q < |s| ==> ops[s[i]].priority <= ops[s[q]].priority)
  }

  lemma SelectSwap(ops: seq<Operand>, s: seq<nat>, i: nat, j: nat)
    requires i < j < |s| && Selecting(ops, s, i, j) && ops[s[j]].priority < ops[s[i]].priority
    ensures Selecting(ops, s[i := s[j]][j := s[i]], i, j + 1)
  {
  }

  lemma SelectKeep(ops: seq<Operand>, s: seq<nat>, i: nat, j: nat)
    requires i < j < |s| && Selecting(ops, s, i, j) && ops[s[j]].priority >= ops[s[i]].priority
    ensures Selecting(ops, s, i, j + 1)
  {
  }

  lemma SelectNext(ops: seq<Operand>, s: seq<nat>, i: nat)
    requires i < |s| && Selecting(ops, s, i, |s|)
    ensures Selecting(ops, s, i + 1, i + 2)
  {
  }

  lemma SelectFirst(ops: seq<Operand>, s: seq<nat>)
    requires |s| == |ops| && forall k :: 0 <= k < |s| ==> s[k] == k
    ensures Selecting(ops, s, 0, 1)
  {
  }

  lemma SelectLast(ops: seq<Operand>, s: seq<nat>, i: nat, j: nat)
    requires Selecting(ops, s, i, j) && i + 1 >= |s|
    ensures Permutation(s) && Ordered(ops, s)
  {
  }

  lemma SelectBounds(ops: seq<Operand>, s: seq<nat>, i: nat, j: nat)
    requires Selecting(ops, s, i, j)
    ensures |s| == |ops| && forall k :: 0 <= k < |s| ==> s[k] < |ops|
  {
  }

  /** The third loop: operand numbers by priority. */
  method SortByPriority(ops: array<Operand>) returns (sorted: array<nat>)
    ensures fresh(sorted) && sorted.Length == ops.Length && Permutation(sorted[..]) && Ordered(ops[..], sorted[..])
  {
    hide Selecting, Permutation, Ordered;
    sorted := new nat[ops.Length];
    var i: nat := 0;
    while i < ops.Length
      invariant 0 <= i <= ops.Length
      invariant forall k :: 0 <= k < i ==> sorted[k] == k
    {
      sorted[i] := i;
      i := i + 1;
    }
    SelectFirst(ops[..], sorted[..]);
    i := 0;
    while i < ops.Length - 1
      invariant i == 0 || i < ops.Length
      invariant Selecting(ops[..], sorted[..], i, i + 1)
    {
      var j: nat := i + 1;
      while j < ops.Length
        invariant i < j <= ops.Length
        invariant Selecting(ops[..], sorted[..], i, j)
      {
        ghost var was := sorted[..];
        SelectBounds(ops[..], was, i, j);
        assert was[i] < ops.Length && was[j] < ops.Length;
        if ops[sorted[j]].priority < ops[sorted[i]].priority {
          SelectSwap(ops[..], was, i, j);
          sorted[i], sorted[j] := sorted[j], sorted[i];
          assert sorted[..] == was[i := was[j]][j := was[i]];
        } else {
          SelectKeep(ops[..], was, i, j);
        }
        j := j + 1;
      }
      SelectNext(ops[..], sorted[..], i);
      i := i + 1;
    }
    SelectLast(ops[..], sorted[..], i, i + 1);
  }

  /** The REG_IN_MASK and REG_OUT_MASK bits. */
  datatype Mask = Mask(isIn: bool, isOut: bool)

  const BOTH := Mask(true, true)
  const IN := Mask(true, false)
  const OUT := Mask(false, true)

  function Union(a: Mask, b: Mask): Mask { Mask(a.isIn || b.isIn, a.isOut || b.isOut) }

  predicate Overlap(a: Mask, b: Mask) { (a.isIn && b.isIn) || (a.isOut && b.isOut) }

  /** What an operand got: nothing, one register, eax and edx, or a register for the address of its memory. */
  datatype Place = Nothing | Register(r: nat) | EaxEdx | Address(r: nat)

  datatype Choice = Chosen(place: Place, mask: Mask, rw: bool) | Rejected(error: Error)

  /** What a constraint letter asks for: a modifier, eax and edx, one register, one of the first n, or a kind of
    * value. */
  datatype Rule = Modifier | ReadWrite | Early | Pair | Fixed(r: nat) | OneOf(n: nat) | Constant | PlainNumber
                | InMemory | Invalid

  function LetterRule(cpu: Cpu, c: char): (rule: Rule)
    ensures rule.Fixed? ==> rule.r < 8
    ensures rule.OneOf? ==> 0 < rule.n <= GeneralCount(cpu)
    ensures rule.Pair? ==> cpu.I386?
  {
    if c == '=' then Modifier
    else if c == '+' then ReadWrite
    else if c == '&' then Early
    else if c == 'm' || c == 'g' then InMemory
    else
      match cpu
      case I386 =>
        if c == 'A' then Pair
        else if c == 'a' then Fixed(0)
        else if c == 'b' then Fixed(3)
        else if c == 'c' then Fixed(1)
        else if c == 'd' then Fixed(2)
        else if c == 'S' then Fixed(6)
        else if c == 'D' then Fixed(7)
        else if c == 'q' then OneOf(4)
        else if c in {'r', 'R', 'p'} then OneOf(8)
        else if c in {'e', 'i'} then Constant
        else if c in {'I', 'N', 'M'} then PlainNumber
        else Invalid
      case Arm =>
        if c in {'l', 'r', 'p'} then OneOf(9)
        else if c in {'I', 'J', 'K', 'L', 'i'} then Constant
        else if c == 'M' then PlainNumber
        else Invalid
  }

  /** A letter that has a priority is one the allocator knows; on ARM it also knows K and L, which have none. */
  lemma KnownLetters(cpu: Cpu, c: char)
    ensures LetterPriority(cpu, c).Some? ==> LetterRule(cpu, c) !in {Modifier, ReadWrite, Early, Invalid}
    ensures LetterPriority(cpu, c).None? && LetterRule(cpu, c) !in {Modifier, ReadWrite, Early, Invalid} <==>
      cpu.Arm? && (c == 'K' || c == 'L')
  {
  }

  /** The lowest register from r to n - 1 that does not clash with mask, or n. */
  function Lowest(t: seq<Mask>, mask: Mask, r: nat, n: nat): (f: nat)
    requires r <= n <= |t|
    ensures r <= f <= n && (f < n ==> !Overlap(t[f], mask)) && forall q :: r <= q < f ==> Overlap(t[q], mask)
    decreases n - r
  {
    if r == n || !Overlap(t[r], mask) then r else Lowest(t, mask, r + 1, n)
  }

  /** The first letter of s that can be satisfied decides. */
  function Choose(cpu: Cpu, s: string, value: Value, isOutput: bool, mask: Mask, rw: bool, t: seq<Mask>): Choice
    requires |t| == RegisterCount(cpu)
    decreases |s|
  {
    if s == "" then Rejected(Unsatisfied)
    else
      var c, rest := s[0], s[1..];
      match LetterRule(cpu, c)
      case Modifier => Choose(cpu, rest, value, isOutput, mask, rw, t)
      case ReadWrite => if !isOutput then Rejected(OutputsOnly) else Choose(cpu, rest, value, isOutput, BOTH, true, t)
      case Early => if !isOutput then Rejected(OutputsOnly) else Choose(cpu, rest, value, isOutput, BOTH, rw, t)
      case Pair =>
        if Overlap(t[0], mask) || Overlap(t[2], mask) then Choose(cpu, rest, value, isOutput, mask, rw, t)
        else Chosen(EaxEdx, mask, rw)
      case Fixed(r) =>
        if Overlap(t[r], mask) then Choose(cpu, rest, value, isOutput, mask, rw, t) else Chosen(Register(r), mask, rw)
      case OneOf(n) =>
        var r := Lowest(t, mask, 0, n);
        if r == n then Choose(cpu, rest, value, isOutput, mask, rw, t) else Chosen(Register(r), mask, rw)
      case Constant =>
        if value.Const? then Chosen(Nothing, mask, rw) else Choose(cpu, rest, value, isOutput, mask, rw, t)
      case PlainNumber =>
        if value.Const? && !value.sym then Chosen(Nothing, mask, rw)
        else Choose(cpu, rest, value, isOutput, mask, rw, t)
      case InMemory =>
        if (isOutput || c == 'm') && value.LLocal? then
          var r := Lowest(t, IN, 0, GeneralCount(cpu));
          if r == GeneralCount(cpu) then Choose(cpu, rest, value, isOutput, mask, rw, t)
          else Chosen(Address(r), mask, rw)
        else Chosen(Nothing, mask, rw)
      case Invalid => Rejected(Unsatisfied)
  }

  method FirstFree(t: array<Mask>, mask: Mask, n: nat) returns (r: nat)
    requires n <= t.Length
    ensures r == Lowest(t[..], mask, 0, n)
  {
    r := 0;
    while r < n && Overlap(t[r], mask)
      invariant r <= n && Lowest(t[..], mask, 0, n) == Lowest(t[..], mask, r, n)
    {
      r := r + 1;
    }
  }

  /** The scan of one constraint string. */
  method Scan(cpu: Cpu, op: Operand, isOutput: bool, mask0: Mask, t: array<Mask>) returns (choice: Choice)
    requires t.Length == RegisterCount(cpu)
    ensures choice == Choose(cpu, op.constraint, op.value, isOutput, mask0, op.isRw, t[..])
  {
    hide LetterRule, GeneralCount, RegisterCount, Overlap;
    var str := op.constraint;
    var mask, rw := mask0, op.isRw;
    while str != ""
      invariant Choose(cpu, op.constraint, op.value, isOutput, mask0, op.isRw, t[..]) ==
                Choose(cpu, str, op.value, isOutput, mask, rw, t[..])
      decreases |str|
    {
      var c := str[0];
      match LetterRule(cpu, c) {
        case Modifier =>
        case ReadWrite =>
          if !isOutput {
            return Rejected(OutputsOnly);
          }
          rw, mask := true, BOTH;
        case Early =>
          if !isOutput {
            return Rejected(OutputsOnly);
          }
          mask := BOTH;
        case Pair =>
          if !Overlap(t[0], mask) && !Overlap(t[2], mask) {
            return Chosen(EaxEdx, mask, rw);
          }
        case Fixed(r) =>
          if !Overlap(t[r], mask) {
            return Chosen(Register(r), mask, rw);
          }
        case OneOf(n) =>
          var r := FirstFree(t, mask, n);
          if r < n {
            return Chosen(Register(r), mask, rw);
          }
        case Constant =>
          if op.value.Const? {
            return Chosen(Nothing, mask, rw);
          }
        case PlainNumber =>
          if op.value.Const? && !op.value.sym {
            return Chosen(Nothing, mask, rw);
          }
        case InMemory =>
          if (isOutput || c == 'm') && op.value.LLocal? {
            var r := FirstFree(t, IN, GeneralCount(cpu));
            if r < GeneralCount(cpu) {
              return Chosen(Address(r), mask, rw);
            }
          } else {
            return Chosen(Nothing, mask, rw);
          }
        case Invalid =>
          return Rejected(Unsatisfied);
      }
      str := str[1..];
    }
    choice := Rejected(Unsatisfied);
  }

  /** The registers a place takes. */
  function Regs(p: Place): set<nat> {
    match p
    case Nothing => {}
    case Register(r) => {r}
    case EaxEdx => {0, 2}
    case Address(r) => {r}
  }

  /** The bits that are recorded for them. */
  function Recorded(p: Place, mask: Mask): Mask {
    if p.Address? then IN else mask
  }

  /** A place clashes with nothing recorded before. */
  predicate Fits(p: Place, mask: Mask, t: seq<Mask>)
  {
    match p
    case Nothing => true
    case Register(r) => r < |t| && !Overlap(t[r], mask)
    case EaxEdx => |t| > 2 && !Overlap(t[0], mask) && !Overlap(t[2], mask)
    case Address(r) => r < |t| && !Overlap(t[r], IN)
  }

  lemma {:induction false} ChosenFits(cpu: Cpu, s: string, value: Value, isOutput: bool, mask: Mask, rw: bool,
                                      t: seq<Mask>)
    requires |t| == RegisterCount(cpu)
    ensures var c := Choose(cpu, s, value, isOutput, mask, rw, t);
      if c.Chosen? then Fits(c.place, c.mask, t) else c.error in {OutputsOnly, Unsatisfied}
    decreases |s|
  {
    hide Overlap, LetterRule, RegisterCount, GeneralCount;
    if s != "" {
      ChosenFits(cpu, s[1..], value, isOutput, mask, rw, t);
      ChosenFits(cpu, s[1..], value, isOutput, BOTH, rw, t);
      ChosenFits(cpu, s[1..], value, isOutput, BOTH, true, t);
    }
  }

  /** A place among the registers that are tried for operands. */
  predicate General(cpu: Cpu, p: Place) { forall r :: r in Regs(p) ==> r < GeneralCount(cpu) }

  lemma {:induction false} ChosenGeneral(cpu: Cpu, s: string, value: Value, isOutput: bool, mask: Mask, rw: bool,
                                         t: seq<Mask>)
    requires |t| == RegisterCount(cpu)
    ensures var c := Choose(cpu, s, value, isOutput, mask, rw, t); c.Chosen? ==> General(cpu, c.place)
    decreases |s|
  {
    hide Overlap, LetterRule, RegisterCount, GeneralCount;
    if s != "" {
      ChosenGeneral(cpu, s[1..], value, isOutput, mask, rw, t);
      ChosenGeneral(cpu, s[1..], value, isOutput, BOTH, rw, t);
      ChosenGeneral(cpu, s[1..], value, isOutput, BOTH, true, t);
    }
  }

  lemma FitsRegs(p: Place, mask: Mask, t: seq<Mask>)
    requires Fits(p, mask, t)
    ensures forall r :: r in Regs(p) ==> r < |t| && !Overlap(t[r], Recorded(p, mask))
  {
  }

  /** A constraint that starts with modifiers, + or & among them: the operand must not share a register. */
  predicate Exclusive(s: string) {
    s != "" && (s[0] == '+' || s[0] == '&' || (s[0] == '=' && Exclusive(s[1..])))
  }

  lemma ModifierRules(cpu: Cpu)
    ensures LetterRule(cpu, '=') == Modifier && LetterRule(cpu, '+') == ReadWrite && LetterRule(cpu, '&') == Early
  {
  }

  /** The mask only grows, and an operand that is read and written, or written early, is recorded as both. */
  lemma {:induction false} ChosenMask(cpu: Cpu, s: string, value: Value, isOutput: bool, mask: Mask, rw: bool,
                                      t: seq<Mask>)
    requires |t| == RegisterCount(cpu)
    ensures var c := Choose(cpu, s, value, isOutput, mask, rw, t);
      c.Chosen? ==> (c.mask == BOTH || c.mask == mask) && (rw ==> c.rw) && (c.rw && !rw ==> c.mask == BOTH)
    ensures var c := Choose(cpu, s, value, isOutput, mask, rw, t); c.Chosen? && Exclusive(s) ==> c.mask == BOTH
    decreases |s|
  {
    ModifierRules(cpu);
    hide Overlap, LetterRule, Lowest, RegisterCount, GeneralCount;
    if s != "" {
      ChosenMask(cpu, s[1..], value, isOutput, mask, rw, t);
      ChosenMask(cpu, s[1..], value, isOutput, BOTH, rw, t);
      ChosenMask(cpu, s[1..], value, isOutput, BOTH, true, t);
    }
  }

  /** What an operand was given and the bits recorded for it. */
  datatype Grant = Grant(place: Place, mask: Mask)

  type Grants = seq<Option<Grant>>

  /** Register r is recorded for operand j with these bits. */
  predicate Holds(grants: Grants, j: nat, r: nat, mask: Mask) {
    j < |grants| && grants[j].Some? && r in Regs(grants[j].value.place)
    && mask == Recorded(grants[j].value.place, grants[j].value.mask)
  }

  /** Earlier indexes only, one input per operand, and the two directions agree. */
  ghost predicate Links(ops: seq<Operand>) {
    && (forall i :: 0 <= i < |ops| ==> -1 <= ops[i].refIndex < |ops| && -1 <= ops[i].inputIndex < |ops|)
    && (forall i, k :: 0 <= i < |ops| && 0 <= k < |ops| ==> (ops[k].inputIndex == i <==> ops[i].refIndex == k))
  }

  /** The fields of an operand say what it was given. */
  predicate Filled(op: Operand, isOutput: bool, g: Grant) {
    && op.refIndex < 0
    && (if g.place.Nothing? then op.reg == -1
        else if g.place.EaxEdx? then op.reg == 0 && op.isLlong
        else op.reg == g.place.r && (g.place.Register? ==> !op.isLlong))
    && (op.isMemory <==> g.place.Address?)
    && (op.inputIndex >= 0 || op.isRw || Exclusive(op.constraint) ==> g.mask == BOTH)
    && (if isOutput then g.mask.isOut else g.mask.isIn)
  }

  ghost predicate Given(ops: seq<Operand>, nbOutputs: nat, grants: Grants)
    requires |grants| == |ops|
  {
    forall j :: 0 <= j < |ops| && grants[j].Some? ==> Filled(ops[j], j < nbOutputs, grants[j].value)
  }

  ghost predicate Untouched(ops: seq<Operand>, grants: Grants)
    requires |grants| == |ops|
  {
    forall j :: 0 <= j < |ops| && grants[j].None? && ops[j].refIndex < 0 ==> Fresh(ops[j])
  }

  /** An input that refers to operand k has k's register once k has one. */
  ghost predicate Matched(ops: seq<Operand>, grants: Grants)
    requires |grants| == |ops| && Links(ops)
  {
    forall x :: 0 <= x < |ops| && ops[x].refIndex >= 0 ==> var k := ops[x].refIndex;
      if grants[k].Some? then ops[x].reg == ops[k].reg && ops[x].isLlong == ops[k].isLlong else ops[x].reg == -1
  }

  /** Operands not yet given anything are untouched, and the rest are as granted. */
  ghost predicate Consistent(ops: seq<Operand>, nbOutputs: nat, grants: Grants)
    requires Links(ops)
  {
    |grants| == |ops| && Given(ops, nbOutputs, grants) && Untouched(ops, grants) && Matched(ops, grants)
  }

  /** No two operands hold a register with a common bit, nor one that was not free to start with. */
  ghost predicate ConflictFree(t0: seq<Mask>, grants: Grants)
  {
    && (forall j: nat, r: nat, m: Mask :: Holds(grants, j, r, m) ==> r < |t0| && !Overlap(t0[r], m))
    && (forall i: nat, j: nat, r: nat, m: Mask, n: Mask ::
          i != j && Holds(grants, i, r, m) && Holds(grants, j, r, n) ==> !Overlap(m, n))
  }

  predicate Covers(a: Mask, b: Mask) { Union(a, b) == a }

  /** The table has every bit that is held. */
  ghost predicate Tallied(t0: seq<Mask>, t: seq<Mask>, grants: Grants)
    requires |t0| == |t|
  {
    && (forall r :: 0 <= r < |t| ==> Covers(t[r], t0[r]))
    && (forall j: nat, r: nat, m: Mask :: Holds(grants, j, r, m) && r < |t| ==> Covers(t[r], m))
  }

  ghost predicate HeldIn(grants: Grants, r: nat) { exists j: nat, m: Mask :: Holds(grants, j, r, m) && m.isIn }

  ghost predicate HeldOut(grants: Grants, r: nat) { exists j: nat, m: Mask :: Holds(grants, j, r, m) && m.isOut }

  /** The table has no bit that is not held. */
  ghost predicate Exact(t0: seq<Mask>, t: seq<Mask>, grants: Grants)
    requires |t0| == |t|
  {
    && (forall r: nat :: r < |t| && t[r].isIn ==> t0[r].isIn || HeldIn(grants, r))
    && (forall r: nat :: r < |t| && t[r].isOut ==> t0[r].isOut || HeldOut(grants, r))
  }

  /** The table after recording a place. */
  function Record(t: seq<Mask>, p: Place, mask: Mask): (u: seq<Mask>)
    requires Fits(p, mask, t)
    ensures |u| == |t|
  {
    match p
    case Nothing => t
    case Register(r) => t[r := Union(t[r], mask)]
    case EaxEdx => t[0 := Union(t[0], mask)][2 := Union(t[2], mask)]
    case Address(r) => t[r := Union(t[r], IN)]
  }

  lemma RecordAt(t: seq<Mask>, p: Place, mask: Mask)
    requires Fits(p, mask, t)
    ensures forall r :: 0 <= r < |t| ==>
      Record(t, p, mask)[r] == if r in Regs(p) then Union(t[r], Recorded(p, mask)) else t[r]
  {
  }

  lemma HoldsNext(grants: Grants, j: nat, g: Grant, next: Grants)
    requires j < |grants| && grants[j].None? && next == grants[j := Some(g)]
    ensures forall i: nat, r: nat, m: Mask :: Holds(grants, i, r, m) ==> Holds(next, i, r, m)
    ensures forall i: nat, r: nat, m: Mask :: Holds(next, i, r, m) ==>
      Holds(grants, i, r, m) || (i == j && r in Regs(g.place) && m == Recorded(g.place, g.mask))
    ensures forall r: nat :: r in Regs(g.place) ==> Holds(next, j, r, Recorded(g.place, g.mask))
  {
    forall i: nat, r: nat, m: Mask
      ensures Holds(next, i, r, m) <==>
        Holds(grants, i, r, m) || (i == j && r in Regs(g.place) && m == Recorded(g.place, g.mask))
    {
      assert i < |grants| && i != j ==> next[i] == grants[i];
    }
  }

  lemma NoClash(a: Mask, m: Mask, n: Mask)
    requires Covers(a, m) && !Overlap(a, n)
    ensures !Overlap(m, n) && !Overlap(n, m)
  {
  }

  lemma GrantConflictFree(t0: seq<Mask>, t: seq<Mask>, grants: Grants, j: nat, g: Grant)
    requires |t0| == |t| && j < |grants| && grants[j].None?
    requires ConflictFree(t0, grants) && Tallied(t0, t, grants) && Fits(g.place, g.mask, t)
    ensures ConflictFree(t0, grants[j := Some(g)])
  {
    hide Holds, Fits, Regs, Recorded, Overlap, Covers;
    FitsRegs(g.place, g.mask, t);
    var next, n := grants[j := Some(g)], Recorded(g.place, g.mask);
    HoldsNext(grants, j, g, next);
    forall r: nat | r in Regs(g.place)
      ensures r < |t0| && !Overlap(t0[r], n)
      ensures forall i: nat, m: Mask :: Holds(grants, i, r, m) ==> !Overlap(m, n) && !Overlap(n, m)
    {
      NoClash(t[r], t0[r], n);
      forall i: nat, m: Mask | Holds(grants, i, r, m)
        ensures !Overlap(m, n) && !Overlap(n, m)
      {
        NoClash(t[r], m, n);
      }
    }
  }

  lemma UnionCovers(a: Mask, b: Mask, c: Mask)
    requires Covers(a, c)
    ensures Covers(Union(a, b), c) && Covers(Union(a, b), b)
  {
  }

  lemma GrantTallied(t0: seq<Mask>, t: seq<Mask>, grants: Grants, j: nat, g: Grant)
    requires |t0| == |t| && j < |grants| && grants[j].None?
    requires Tallied(t0, t, grants) && Fits(g.place, g.mask, t)
    ensures Tallied(t0, Record(t, g.place, g.mask), grants[j := Some(g)])
  {
    hide Holds, Fits, Regs, Recorded, Record, Covers, Union;
    HoldsNext(grants, j, g, grants[j := Some(g)]);
    RecordAt(t, g.place, g.mask);
    var u, n := Record(t, g.place, g.mask), Recorded(g.place, g.mask);
    forall r: nat | r < |t|
      ensures Covers(u[r], t0[r]) && (r in Regs(g.place) ==> Covers(u[r], n))
      ensures forall m: Mask :: Covers(t[r], m) ==> Covers(u[r], m)
    {
      UnionCovers(t[r], n, t0[r]);
      forall m: Mask | Covers(t[r], m)
        ensures Covers(u[r], m)
      {
        UnionCovers(t[r], n, m);
      }
    }
  }

  lemma GrantExact(t0: seq<Mask>, t: seq<Mask>, grants: Grants, j: nat, g: Grant)
    requires |t0| == |t| && j < |grants| && grants[j].None?
    requires Exact(t0, t, grants) && Fits(g.place, g.mask, t)
    ensures Exact(t0, Record(t, g.place, g.mask), grants[j := Some(g)])
  {
    hide Holds, Fits, Regs, Recorded, Record;
    var next, n := grants[j := Some(g)], Recorded(g.place, g.mask);
    HoldsNext(grants, j, g, next);
    RecordAt(t, g.place, g.mask);
    forall r: nat | r < |t|
      ensures (HeldIn(grants, r) ==> HeldIn(next, r)) && (HeldOut(grants, r) ==> HeldOut(next, r))
      ensures r in Regs(g.place) ==> (n.isIn ==> HeldIn(next, r)) && (n.isOut ==> HeldOut(next, r))
    {
      assert r in Regs(g.place) ==> Holds(next, j, r, n);
    }
  }

  /** The operand with its new fields. */
  function Put(op: Operand, p: Place, rw: bool): Operand {
    match p
    case Nothing => op.(isRw := rw)
    case Register(r) => op.(isRw := rw, isLlong := false, reg := r)
    case EaxEdx => op.(isRw := rw, isLlong := true, reg := 0)
    case Address(r) => op.(isRw := rw, reg := r, isMemory := true)
  }

  /** The operands after operand j got place p, with the input that refers to it. */
  function Assign(ops: seq<Operand>, j: nat, p: Place, rw: bool): (r: seq<Operand>)
    requires j < |ops| && ops[j].inputIndex < |ops|
    ensures |r| == |ops|
  {
    var a := ops[j := Put(ops[j], p, rw)];
    var x := a[j].inputIndex;
    if x >= 0 then a[x := a[x].(reg := a[j].reg, isLlong := a[j].isLlong)] else a
  }

  predicate SameRest(a: Operand, b: Operand) {
    SameSource(a, b) && a.refIndex == b.refIndex && a.inputIndex == b.inputIndex && a.priority == b.priority
  }

  lemma PutRest(op: Operand, p: Place, rw: bool)
    ensures SameRest(Put(op, p, rw), op)
  {
  }

  lemma LinksSame(a: seq<Operand>, b: seq<Operand>)
    requires |a| == |b| && Links(a) && forall i :: 0 <= i < |a| ==> SameRest(b[i], a[i])
    ensures Links(b)
  {
    hide SameSource;
  }

  /** Only operand j and the input that refers to it change. */
  lemma Assigned(ops: seq<Operand>, j: nat, p: Place, rw: bool)
    requires Links(ops) && j < |ops| && ops[j].refIndex < 0
    ensures var a, x := Assign(ops, j, p, rw), ops[j].inputIndex;
      && Links(a) && x != j && a[j] == Put(ops[j], p, rw)
      && (forall i :: 0 <= i < |ops| ==> SameRest(a[i], ops[i]))
      && (forall i :: 0 <= i < |ops| && i != j && i != x ==> a[i] == ops[i])
      && (x >= 0 ==> ops[x].refIndex == j && a[x].reg == a[j].reg && a[x].isLlong == a[j].isLlong)
  {
    hide Put;
    PutRest(ops[j], p, rw);
    var a, x := Assign(ops, j, p, rw), ops[j].inputIndex;
    if x >= 0 {
      assert ops[j].inputIndex == x <==> ops[x].refIndex == j;
    }
    LinksSame(ops, a);
  }

  /** The bits an operand starts with: both if an input refers to it, else its direction. */
  function StartMask(op: Operand, isOutput: bool): Mask {
    if op.inputIndex >= 0 then BOTH else if isOutput then OUT else IN
  }

  lemma FilledNext(op: Operand, isOutput: bool, p: Place, mask: Mask, rw: bool)
    requires op.refIndex < 0 && Fresh(op) && (mask == BOTH || mask == StartMask(op, isOutput))
    requires (rw || Exclusive(op.constraint) ==> mask == BOTH)
    ensures Filled(Put(op, p, rw), isOutput, Grant(p, mask))
  {
  }

  lemma ConsistentNext(ops: seq<Operand>, nbOutputs: nat, grants: Grants, j: nat, g: Grant, rw: bool)
    requires Links(ops) && Consistent(ops, nbOutputs, grants) && j < |ops| && ops[j].refIndex < 0 && grants[j].None?
    requires (g.mask == BOTH || g.mask == StartMask(ops[j], j < nbOutputs))
    requires (rw || Exclusive(ops[j].constraint) ==> g.mask == BOTH)
    ensures var a := Assign(ops, j, g.place, rw); Links(a) && Consistent(a, nbOutputs, grants[j := Some(g)])
  {
    Assigned(ops, j, g.place, rw);
    FilledNext(ops[j], j < nbOutputs, g.place, g.mask, rw);
    NotGiven(ops, nbOutputs, grants);
    MatchedNext(ops, grants, j, g, rw);
    hide Put, StartMask, Assign, Matched, SameSource;
    var a, x := Assign(ops, j, g.place, rw), ops[j].inputIndex;
  }

  /** Nothing is granted to an operand that refers to another. */
  lemma NotGiven(ops: seq<Operand>, nbOutputs: nat, grants: Grants)
    requires |grants| == |ops| && Given(ops, nbOutputs, grants)
    ensures forall x :: 0 <= x < |ops| && ops[x].refIndex >= 0 ==> grants[x].None?
  {
  }

  lemma MatchedNext(ops: seq<Operand>, grants: Grants, j: nat, g: Grant, rw: bool)
    requires Links(ops) && |grants| == |ops| && Matched(ops, grants) && j < |ops| && ops[j].refIndex < 0
    requires grants[j].None?
    requires forall x :: 0 <= x < |ops| && ops[x].refIndex >= 0 ==> grants[x].None?
    ensures var a := Assign(ops, j, g.place, rw); Links(a) && Matched(a, grants[j := Some(g)])
  {
    hide Put, Assign, SameSource;
    Assigned(ops, j, g.place, rw);
    var a, next := Assign(ops, j, g.place, rw), grants[j := Some(g)];
    forall x | 0 <= x < |a| && a[x].refIndex >= 0
      ensures var k := a[x].refIndex;
        if next[k].Some? then a[x].reg == a[k].reg && a[x].isLlong == a[k].isLlong else a[x].reg == -1
    {
      assert SameRest(a[x], ops[x]);
      var k := ops[x].refIndex;
      assert ops[k].inputIndex == x;
      if k != j {
        assert x != j && x != ops[j].inputIndex && a[x] == ops[x];
        if grants[k].Some? {
          assert ops[k].refIndex < 0;
          assert a[k] == ops[k];
        }
      }
    }
  }

  function Below(n: nat): (s: set<nat>)
    ensures |s| == n && forall x :: x in s <==> 0 <= x < n
  {
    if n == 0 then {} else Below(n - 1) + {n - 1}
  }

  function Elements(s: seq<nat>): (r: set<nat>)
    ensures forall x :: x in r <==> x in s
  {
    set x | x in s
  }

  lemma {:induction false} DistinctCount(s: seq<nat>)
    requires forall i, j :: 0 <= i < j < |s| ==> s[i] != s[j]
    ensures |Elements(s)| == |s|
  {
    if s != [] {
      var last := |s| - 1;
      DistinctCount(s[..last]);
      assert Elements(s) == Elements(s[..last]) + {s[last]};
    }
  }

  /** Every operand is somewhere in the sorted list. */
  lemma AllListed(s: seq<nat>, j: nat)
    requires Permutation(s) && j < |s|
    ensures exists p :: 0 <= p < |s| && s[p] == j
  {
    DistinctCount(s);
    if j !in s {
      assert Elements(s) <= Below(|s|) - {j};
      Smaller(Elements(s), Below(|s|) - {j});
    }
  }

  lemma {:induction false} Smaller(a: set<nat>, b: set<nat>)
    requires a <= b
    ensures |a| <= |b|
  {
    assert b == a + (b - a);
  }

  /** Every operand that refers to no other has been given something. */
  ghost predicate AllGranted(ops: seq<Operand>, grants: Grants) {
    |grants| == |ops| && forall j :: 0 <= j < |ops| && ops[j].refIndex < 0 ==> grants[j].Some?
  }

  ghost predicate Progress(ops: seq<Operand>, sorted: seq<nat>, i: nat, grants: Grants)
    requires |sorted| == |ops| == |grants| && Permutation(sorted)
  {
    && (forall p :: 0 <= p < i && p < |sorted| && ops[sorted[p]].refIndex < 0 ==> grants[sorted[p]].Some?)
    && (forall p :: i <= p < |sorted| ==> grants[sorted[p]].None?)
  }

  lemma ProgressEnd(ops: seq<Operand>, sorted: seq<nat>, grants: Grants)
    requires |sorted| == |ops| == |grants| && Permutation(sorted) && Progress(ops, sorted, |sorted|, grants)
    ensures AllGranted(ops, grants)
  {
    forall j: nat | j < |ops| && ops[j].refIndex < 0
      ensures grants[j].Some?
    {
      AllListed(sorted, j);
    }
  }

  lemma ProgressNext(ops: seq<Operand>, a: seq<Operand>, sorted: seq<nat>, i: nat, grants: Grants, g: Grant)
    requires |sorted| == |ops| == |a| == |grants| && Permutation(sorted) && Progress(ops, sorted, i, grants)
    requires i < |sorted|
    requires forall k :: 0 <= k < |ops| ==> a[k].refIndex == ops[k].refIndex
    ensures Progress(a, sorted, i + 1, grants[sorted[i] := Some(g)])
    ensures ops[sorted[i]].refIndex >= 0 ==> Progress(ops, sorted, i + 1, grants)
  {
  }

  ghost predicate AllGeneral(cpu: Cpu, grants: Grants) {
    forall j :: 0 <= j < |grants| && grants[j].Some? ==> General(cpu, grants[j].value.place)
  }

  lemma GrantGeneral(cpu: Cpu, grants: Grants, j: nat, g: Grant)
    requires j < |grants| && AllGeneral(cpu, grants) && General(cpu, g.place)
    ensures AllGeneral(cpu, grants[j := Some(g)])
  {
    hide General;
  }

  /** Everything the allocation loop keeps. */
  ghost predicate Allocated(cpu: Cpu, ops: seq<Operand>, nbOutputs: nat, t0: seq<Mask>, t: seq<Mask>, grants: Grants) {
    && Links(ops) && Consistent(ops, nbOutputs, grants)
    && |t0| == |t| && ConflictFree(t0, grants) && Tallied(t0, t, grants) && Exact(t0, t, grants)
    && AllGeneral(cpu, grants)
  }

  lemma AllocateNext(cpu: Cpu, ops: seq<Operand>, nbOutputs: nat, t0: seq<Mask>, t: seq<Mask>, grants: Grants, j: nat,
                     g: Grant, rw: bool)
    requires Allocated(cpu, ops, nbOutputs, t0, t, grants) && j < |ops| && ops[j].refIndex < 0 && grants[j].None?
    requires Fits(g.place, g.mask, t)
    requires (g.mask == BOTH || g.mask == StartMask(ops[j], j < nbOutputs))
    requires (rw || Exclusive(ops[j].constraint) ==> g.mask == BOTH) && General(cpu, g.place)
    ensures Links(ops) && ops[j].inputIndex < |ops|
    ensures Allocated(cpu, Assign(ops, j, g.place, rw), nbOutputs, t0, Record(t, g.place, g.mask), grants[j := Some(g)])
    ensures forall i :: 0 <= i < |ops| ==> SameRest(Assign(ops, j, g.place, rw)[i], ops[i])
  {
    ConsistentNext(ops, nbOutputs, grants, j, g, rw);
    GrantConflictFree(t0, t, grants, j, g);
    GrantTallied(t0, t, grants, j, g);
    GrantExact(t0, t, grants, j, g);
    GrantGeneral(cpu, grants, j, g);
    Assigned(ops, j, g.place, rw);
    hide *;
  }

  lemma NothingAllocated(cpu: Cpu, ops: seq<Operand>, nbOutputs: nat, t0: seq<Mask>)
    requires Links(ops) && forall i :: 0 <= i < |ops| ==> Fresh(ops[i])
    ensures Allocated(cpu, ops, nbOutputs, t0, t0, seq(|ops|, i => None))
  {
  }

  /** Writes the chosen place into operand j, its input, and the table. */
  method Commit(ops: array<Operand>, j: nat, t: array<Mask>, place: Place, mask: Mask, rw: bool)
    requires j < ops.Length && ops[j].inputIndex < ops.Length && Fits(place, mask, t[..])
    modifies ops, t
    ensures ops[..] == Assign(old(ops[..]), j, place, rw)
    ensures t[..] == Record(old(t[..]), place, mask)
  {
    ghost var was, tw := ops[..], t[..];
    ops[j] := ops[j].(isRw := rw);
    match place {
      case Nothing =>
      case Register(r) =>
        ops[j] := ops[j].(isLlong := false, reg := r);
        t[r] := Union(t[r], mask);
      case EaxEdx =>
        ops[j] := ops[j].(isLlong := true, reg := 0);
        t[0] := Union(t[0], mask);
        t[2] := Union(t[2], mask);
      case Address(r) =>
        t[r] := Union(t[r], IN);
        ops[j] := ops[j].(reg := r, isMemory := true);
    }
    assert ops[..] == was[j := Put(was[j], place, rw)];
    var x := ops[j].inputIndex;
    if x >= 0 {
      ops[x] := ops[x].(reg := ops[j].reg, isLlong := ops[j].isLlong);
    }
  }

  datatype Allocation = Allocation(ops: seq<Operand>, t: seq<Mask>)

  /** What taking the operands in the given order leads to, if every one can be satisfied. */
  ghost function RunAll(cpu: Cpu, ops: seq<Operand>, nbOutputs: nat, t: seq<Mask>, order: seq<nat>): Option<Allocation>
    requires |t| == RegisterCount(cpu) && Links(ops) && forall p :: 0 <= p < |order| ==> order[p] < |ops|
    decreases |order|
  {
    if order == [] then Some(Allocation(ops, t)) else
      var j := order[0];
      if ops[j].refIndex >= 0 then RunAll(cpu, ops, nbOutputs, t, order[1..])
      else
        var mask := StartMask(ops[j], j < nbOutputs);
        ChosenFits(cpu, ops[j].constraint, ops[j].value, j < nbOutputs, mask, ops[j].isRw, t);
        match Choose(cpu, ops[j].constraint, ops[j].value, j < nbOutputs, mask, ops[j].isRw, t)
        case Rejected(_) => None
        case Chosen(place, m, rw) =>
          Assigned(ops, j, place, rw);
          RunAll(cpu, Assign(ops, j, place, rw), nbOutputs, Record(t, place, m), order[1..])
  }

  lemma RunStep(cpu: Cpu, ops: seq<Operand>, nbOutputs: nat, t: seq<Mask>, order: seq<nat>, i: nat)
    requires |t| == RegisterCount(cpu) && Links(ops) && (forall p :: 0 <= p < |order| ==> order[p] < |ops|)
    requires i < |order|
    ensures var j := order[i];
      if ops[j].refIndex >= 0 then
        RunAll(cpu, ops, nbOutputs, t, order[i..]) == RunAll(cpu, ops, nbOutputs, t, order[i + 1..])
      else
        var out := j < nbOutputs;
        var c := Choose(cpu, ops[j].constraint, ops[j].value, out, StartMask(ops[j], out), ops[j].isRw, t);
        if c.Rejected? then RunAll(cpu, ops, nbOutputs, t, order[i..]) == None
        else
          Fits(c.place, c.mask, t) && Links(Assign(ops, j, c.place, c.rw)) &&
          RunAll(cpu, ops, nbOutputs, t, order[i..]) ==
          RunAll(cpu, Assign(ops, j, c.place, c.rw), nbOutputs, Record(t, c.place, c.mask), order[i + 1..])
  {
    hide Choose, Fits, Assign, Record, StartMask, Links;
    var j := order[i];
    assert order[i..][0] == j && order[i..][1..] == order[i + 1..];
    if ops[j].refIndex < 0 {
      var mask := StartMask(ops[j], j < nbOutputs);
      ChosenFits(cpu, ops[j].constraint, ops[j].value, j < nbOutputs, mask, ops[j].isRw, t);
      var c := Choose(cpu, ops[j].constraint, ops[j].value, j < nbOutputs, mask, ops[j].isRw, t);
      if c.Chosen? {
        Assigned(ops, j, c.place, c.rw);
      }
    }
  }

  /** The allocation loop: operands in order of priority, each by the first letter that can be satisfied. */
  method Allocate(cpu: Cpu, ops: array<Operand>, sorted: array<nat>, nbOutputs: nat, t: array<Mask>)
    returns (err: Option<Error>, ghost grants: Grants)
    requires sorted.Length == ops.Length && Permutation(sorted[..]) && t.Length == RegisterCount(cpu)
    requires Links(ops[..]) && (forall i :: 0 <= i < ops.Length ==> Fresh(ops[i]))
    requires forall p :: 0 <= p < sorted.Length ==> sorted[p] < ops.Length
    modifies ops, t
    ensures err.None? ==> Allocated(cpu, ops[..], nbOutputs, old(t[..]), t[..], grants) && AllGranted(ops[..], grants)
    ensures err.Some? ==> err.value in {OutputsOnly, Unsatisfied}
    ensures RunAll(cpu, old(ops[..]), nbOutputs, old(t[..]), sorted[..]) ==
      if err.None? then Some(Allocation(ops[..], t[..])) else None
    ensures forall i :: 0 <= i < ops.Length ==> SameRest(ops[i], old(ops[i]))
  {
    hide Links, Fresh, Permutation, Allocated, Progress, AllGranted, General, Choose, Fits, Assign, Record, RunAll;
    ghost var ops0, t0, order := ops[..], t[..], sorted[..];
    grants := seq(ops.Length, i => None);
    NothingAllocated(cpu, ops0, nbOutputs, t0);
    NoProgress(ops0, order, grants);
    assert order[0..] == order;
    var i: nat := 0;
    while i < sorted.Length
      invariant i <= sorted.Length && sorted[..] == order && |grants| == ops.Length && Links(ops[..])
      invariant RunAll(cpu, ops0, nbOutputs, t0, order) == RunAll(cpu, ops[..], nbOutputs, t[..], order[i..])
      invariant Allocated(cpu, ops[..], nbOutputs, t0, t[..], grants) && Progress(ops[..], order, i, grants)
      invariant forall k :: 0 <= k < ops.Length ==> SameRest(ops[k], ops0[k])
    {
      ghost var was, tw := ops[..], t[..];
      RunStep(cpu, was, nbOutputs, tw, order, i);
      var j := sorted[i];
      if ops[j].refIndex < 0 {
        ProgressNone(was, order, i, grants);
        FreshAt(cpu, was, nbOutputs, t0, tw, grants, j);
        var mask := if ops[j].inputIndex >= 0 then BOTH else if j < nbOutputs then OUT else IN;
        var choice := Scan(cpu, ops[j], j < nbOutputs, mask, t);
        ChosenFits(cpu, ops[j].constraint, ops[j].value, j < nbOutputs, mask, false, tw);
        if choice.Rejected? {
          return Some(choice.error), grants;
        }
        ChosenGeneral(cpu, ops[j].constraint, ops[j].value, j < nbOutputs, mask, false, tw);
        ChosenMask(cpu, ops[j].constraint, ops[j].value, j < nbOutputs, mask, false, tw);
        ghost var g := Grant(choice.place, choice.mask);
        AllocateNext(cpu, was, nbOutputs, t0, tw, grants, j, g, choice.rw);
        Commit(ops, j, t, choice.place, choice.mask, choice.rw);
        ProgressNext(was, ops[..], order, i, grants, g);
        grants := grants[j := Some(g)];
      } else {
        ProgressNext(was, was, order, i, grants, Grant(Nothing, IN));
      }
      i := i + 1;
    }
    ProgressEnd(ops[..], order, grants);
    RunEnd(cpu, ops[..], nbOutputs, t[..], order);
    err := None;
  }

  lemma NoProgress(ops: seq<Operand>, sorted: seq<nat>, grants: Grants)
    requires |sorted| == |ops| == |grants| && Permutation(sorted) && forall i :: 0 <= i < |grants| ==> grants[i].None?
    ensures Progress(ops, sorted, 0, grants)
  {
  }

  lemma RunEnd(cpu: Cpu, ops: seq<Operand>, nbOutputs: nat, t: seq<Mask>, order: seq<nat>)
    requires |t| == RegisterCount(cpu) && Links(ops) && forall p :: 0 <= p < |order| ==> order[p] < |ops|
    ensures RunAll(cpu, ops, nbOutputs, t, order[|order|..]) == Some(Allocation(ops, t))
  {
  }

  lemma ProgressNone(ops: seq<Operand>, sorted: seq<nat>, i: nat, grants: Grants)
    requires |sorted| == |ops| == |grants| && Permutation(sorted) && Progress(ops, sorted, i, grants) && i < |sorted|
    ensures grants[sorted[i]].None?
  {
  }

  lemma FreshAt(cpu: Cpu, ops: seq<Operand>, nbOutputs: nat, t0: seq<Mask>, t: seq<Mask>, grants: Grants, j: nat)
    requires Allocated(cpu, ops, nbOutputs, t0, t, grants) && j < |ops| && j < |grants| && grants[j].None?
    requires ops[j].refIndex < 0
    ensures !ops[j].isRw && ops[j].inputIndex < |ops|
  {
  }

  /** An operand whose result must be stored through a pointer that is itself in memory. */
  predicate NeedsOutReg(op: Operand) { op.reg >= 0 && op.value.LLocal? && !op.isMemory }

  /** The last loop: a register to store such results with. */
  method FindOutReg(cpu: Cpu, ops: array<Operand>, t: array<Mask>) returns (err: Option<Error>, outReg: int)
    requires t.Length == RegisterCount(cpu)
    ensures outReg == -1 || 0 <= outReg < GeneralCount(cpu)
    ensures err.Some? || outReg >= 0 <==> exists i :: 0 <= i < ops.Length && NeedsOutReg(ops[i])
    ensures outReg >= 0 ==> !t[outReg].isOut && forall r :: 0 <= r < outReg ==> t[r].isOut
    ensures err.Some? ==> err == Some(NoOutReg) && forall r :: 0 <= r < GeneralCount(cpu) ==> t[r].isOut
  {
    outReg := -1;
    var i := 0;
    while i < ops.Length
      invariant 0 <= i <= ops.Length && outReg == -1
      invariant forall k :: 0 <= k < i ==> !NeedsOutReg(ops[k])
    {
      if NeedsOutReg(ops[i]) {
        var r := 0;
        while r < GeneralCount(cpu) && t[r].isOut
          invariant 0 <= r <= GeneralCount(cpu) && forall q :: 0 <= q < r ==> t[q].isOut
        {
          r := r + 1;
        }
        if r == GeneralCount(cpu) {
          return Some(NoOutReg), -1;
        }
        return None, r;
      }
      i := i + 1;
    }
    err := None;
  }

  /** The table before any operand: clobbered registers, esp and ebp cannot be used. */
  function StartTable(cpu: Cpu, clobbers: seq<bool>): (t: seq<Mask>)
    requires |clobbers| == RegisterCount(cpu)
    ensures |t| == RegisterCount(cpu)
  {
    seq(RegisterCount(cpu), r requires 0 <= r < RegisterCount(cpu) =>
      if clobbers[r] || Reserved(cpu, r) then BOTH else Mask(false, false))
  }

  method InitTable(cpu: Cpu, clobbers: seq<bool>) returns (t: array<Mask>)
    requires |clobbers| == RegisterCount(cpu)
    ensures fresh(t) && t[..] == StartTable(cpu, clobbers)
  {
    t := new Mask[RegisterCount(cpu)](_ => Mask(false, false));
    var i := 0;
    while i < RegisterCount(cpu)
      invariant 0 <= i <= RegisterCount(cpu)
      invariant forall r :: 0 <= r < i ==> t[r] == if clobbers[r] then BOTH else Mask(false, false)
    {
      t[i] := if clobbers[i] then BOTH else Mask(false, false);
      i := i + 1;
    }
    match cpu {
      case I386 =>
        t[4], t[5] := BOTH, BOTH; // esp and ebp
      case Arm =>
        t[13], t[11] := BOTH, BOTH; // sp and fp
    }
  }

  /** How a result came about: the operands with links and priorities, their order, what was granted, and the final
    * table. */
  datatype Trace = Trace(linked: seq<Operand>, order: seq<nat>, grants: Grants, table: seq<Mask>)

  /** Linked operands, in order of priority. */
  ghost predicate Prepared(cpu: Cpu, tr: Trace, ops0: seq<Operand>) {
    && |tr.linked| == |tr.order| == |ops0|
    && Linked(cpu, ops0, tr.linked, |ops0|) && Links(tr.linked)
    && Permutation(tr.order) && Ordered(tr.linked, tr.order)
  }

  /** What taking the operands by priority leads to. */
  ghost function Outcome(cpu: Cpu, tr: Trace, ops0: seq<Operand>, nbOutputs: nat,
                         clobbers: seq<bool>): Option<Allocation>
    requires |clobbers| == RegisterCount(cpu) && Prepared(cpu, tr, ops0)
  {
    RunAll(cpu, tr.linked, nbOutputs, StartTable(cpu, clobbers), tr.order)
  }

  /** Links as written, no conflicting registers, and matching inputs in the register of their operand. */
  ghost predicate Sound(cpu: Cpu, tr: Trace, nbOutputs: nat, clobbers: seq<bool>, ops: seq<Operand>)
    requires |clobbers| == RegisterCount(cpu)
  {
    && Links(ops) && Consistent(ops, nbOutputs, tr.grants) && AllGranted(ops, tr.grants)
    && ConflictFree(StartTable(cpu, clobbers), tr.grants) && AllGeneral(cpu, tr.grants)
  }

  method AsmComputeConstraints(cpu: Cpu, ops: array<Operand>, nbOutputs: nat, clobbers: seq<bool>)
    returns (err: Option<Error>, outReg: int, ghost tr: Trace)
    requires nbOutputs <= ops.Length && |clobbers| == RegisterCount(cpu)
    modifies ops
    ensures Accepted(cpu, old(ops[..]), nbOutputs, ops.Length) <==> err.None? || !LinkError(err.value)
    ensures err.None? || !LinkError(err.value) ==>
        && Prepared(cpu, tr, old(ops[..]))
        && Outcome(cpu, tr, old(ops[..]), nbOutputs, clobbers) ==
           if err.None? || err.value == NoOutReg then Some(Allocation(ops[..], tr.table)) else None
    ensures err.None? ==> Sound(cpu, tr, nbOutputs, clobbers, ops[..])
    ensures err.None? || !LinkError(err.value) ==> forall i :: 0 <= i < ops.Length ==>
      ops[i].refIndex == RefIndex(old(ops[..]), i) && SameSource(ops[i], old(ops[i]))
    ensures err.None? ==> (outReg >= 0 <==> exists i :: 0 <= i < ops.Length && NeedsOutReg(ops[i]))
    ensures err == Some(NoOutReg) ==> exists i :: 0 <= i < ops.Length && NeedsOutReg(ops[i])
    ensures err.None? && outReg >= 0 ==>
      outReg < GeneralCount(cpu) && !StartTable(cpu, clobbers)[outReg].isOut && !HeldOut(tr.grants, outReg)
    ensures err == Some(NoOutReg) ==>
      forall r :: 0 <= r < GeneralCount(cpu) ==> StartTable(cpu, clobbers)[r].isOut || HeldOut(tr.grants, r)
  {
    hide Accepted, Linked, Links, Consistent, AllGranted, ConflictFree, Tallied, Exact, AllGeneral, HeldOut,
      Permutation,
      Ordered, NeedsOutReg, StartTable, RunAll, RefIndex;
    ghost var ops0 := ops[..];
    outReg, tr := -1, Trace([], [], [], []);
    err := Link(cpu, ops, nbOutputs);
    if err.Some? {
      return;
    }
    ghost var linked := ops[..];
    LinkedLinks(cpu, ops0, linked, nbOutputs);
    LinkedRefs(cpu, ops0, linked);
    var sorted := SortByPriority(ops);
    PermutationBelow(sorted[..]);
    var t := InitTable(cpu, clobbers);
    ghost var grants;
    err, grants := Allocate(cpu, ops, sorted, nbOutputs, t);
    tr := Trace(linked, sorted[..], grants, t[..]);
    if err.Some? {
      return;
    }
    err, outReg := FindOutReg(cpu, ops, t);
    OutBits(StartTable(cpu, clobbers), t[..], grants);
  }

  lemma PermutationBelow(s: seq<nat>)
    requires Permutation(s)
    ensures forall p :: 0 <= p < |s| ==> s[p] < |s|
  {
  }

  /** The registers that an operand has: eax and edx for a long long, else one or none. */
  function Taken(op: Operand): set<nat> {
    if op.reg < 0 then {} else if op.isLlong && !op.isMemory then {0, 2} else {op.reg}
  }

  /** An operand that shares with no other: its output is read as an input too, or written before the inputs are
    * read. */
  predicate Unshared(op: Operand) {
    !op.isMemory && (op.inputIndex >= 0 || op.isRw || Exclusive(op.constraint))
  }

  /** Two operands whose bits overlap have no register in common, and neither has the stack, frame or a clobbered
    * one. */
  lemma DifferentRegisters(cpu: Cpu, tr: Trace, nbOutputs: nat, clobbers: seq<bool>, ops: seq<Operand>, a: nat, b: nat)
    requires |clobbers| == RegisterCount(cpu) && Sound(cpu, tr, nbOutputs, clobbers, ops) && a < |ops| && b < |ops|
    requires a != b
    requires ops[a].refIndex < 0 && ops[b].refIndex < 0
    ensures forall r :: r in Taken(ops[a]) ==> r < GeneralCount(cpu) && !Reserved(cpu, r) && !clobbers[r]
    ensures a >= nbOutputs && b >= nbOutputs ==> Taken(ops[a]) !! Taken(ops[b])
    ensures a < nbOutputs && b < nbOutputs && !ops[a].isMemory && !ops[b].isMemory ==> Taken(ops[a]) !! Taken(ops[b])
    ensures Unshared(ops[a]) ==> Taken(ops[a]) !! Taken(ops[b])
  {
    HeldBy(cpu, tr, nbOutputs, clobbers, ops, a);
    HeldBy(cpu, tr, nbOutputs, clobbers, ops, b);
    var g, h := tr.grants[a].value, tr.grants[b].value;
    var m, n := Recorded(g.place, g.mask), Recorded(h.place, h.mask);
    hide Holds, Filled, Consistent, AllGranted, StartTable, Recorded, Taken, Exclusive;
    forall r | r in Taken(ops[a]) && r in Taken(ops[b])
      ensures !Overlap(m, n)
    {
      assert Holds(tr.grants, a, r, m) && Holds(tr.grants, b, r, n);
    }
  }

  /** An operand holds its registers, with a bit for each direction it is used in. */
  lemma HeldBy(cpu: Cpu, tr: Trace, nbOutputs: nat, clobbers: seq<bool>, ops: seq<Operand>, a: nat)
    requires |clobbers| == RegisterCount(cpu) && Sound(cpu, tr, nbOutputs, clobbers, ops) && a < |ops|
    requires ops[a].refIndex < 0
    ensures |tr.grants| == |ops| && tr.grants[a].Some?
    ensures var m := Recorded(tr.grants[a].value.place, tr.grants[a].value.mask);
      && (forall r :: r in Taken(ops[a]) ==> Holds(tr.grants, a, r, m))
      && (forall r :: r in Taken(ops[a]) ==> r < GeneralCount(cpu) && !clobbers[r] && !Reserved(cpu, r))
      && (a >= nbOutputs ==> m.isIn) && (a < nbOutputs && !ops[a].isMemory ==> m.isOut) && (m.isIn || m.isOut)
      && (Unshared(ops[a]) ==> m == BOTH)
  {
    hide Links, Untouched, Matched, Exclusive;
    assert tr.grants[a].Some? && Filled(ops[a], a < nbOutputs, tr.grants[a].value);
    var g := tr.grants[a].value;
    var m := Recorded(g.place, g.mask);
    assert Taken(ops[a]) == Regs(g.place);
    assert General(cpu, g.place);
    forall r | r in Taken(ops[a])
      ensures Holds(tr.grants, a, r, m) && !Overlap(StartTable(cpu, clobbers)[r], m)
    {
      assert Holds(tr.grants, a, r, m);
    }
  }

  /** An input that matches operand k shares its register, unless k itself matches another operand. */
  lemma MatchingInput(cpu: Cpu, tr: Trace, nbOutputs: nat, clobbers: seq<bool>, ops: seq<Operand>, x: nat)
    requires |clobbers| == RegisterCount(cpu) && Sound(cpu, tr, nbOutputs, clobbers, ops) && x < |ops|
    requires ops[x].refIndex >= 0
    ensures ops[x].refIndex < |ops|
    ensures var k := ops[x].refIndex; ops[x].reg == if ops[k].refIndex < 0 then ops[k].reg else -1
  {
    hide ConflictFree, Untouched, Filled;
    NotGiven(ops, nbOutputs, tr.grants);
  }

  lemma LinkedLinks(cpu: Cpu, ops0: seq<Operand>, ops: seq<Operand>, nbOutputs: nat)
    requires |ops| == |ops0| && Linked(cpu, ops0, ops, |ops|) && Accepted(cpu, ops0, nbOutputs, |ops|)
    ensures Links(ops) && forall i :: 0 <= i < |ops| ==> Fresh(ops[i])
  {
    hide PrioritiesSet, SameSource;
    RefsBelow(cpu, ops0, nbOutputs);
    hide RefIndex;
  }

  lemma LinkedRefs(cpu: Cpu, ops0: seq<Operand>, ops: seq<Operand>)
    requires |ops| == |ops0| && Linked(cpu, ops0, ops, |ops|)
    ensures forall i :: 0 <= i < |ops| ==> ops[i].refIndex == RefIndex(ops0, i) && SameSource(ops[i], ops0[i])
  {
    hide InputsSet, PrioritiesSet, RefIndex;
  }

  lemma RefsBelow(cpu: Cpu, ops: seq<Operand>, nbOutputs: nat)
    requires Accepted(cpu, ops, nbOutputs, |ops|)
    ensures forall i :: 0 <= i < |ops| ==> -1 <= RefIndex(ops, i) < |ops|
  {
    hide Wanted, IsRef, Known, FindConstraint;
    forall i: nat | i < |ops|
      ensures -1 <= RefIndex(ops, i) < |ops|
    {
      assert OperandOk(cpu, ops, nbOutputs, i);
    }
  }

  lemma OutBits(t0: seq<Mask>, t: seq<Mask>, grants: Grants)
    requires |t0| == |t| && Tallied(t0, t, grants) && Exact(t0, t, grants)
    ensures forall r: nat :: r < |t| ==> (t[r].isOut <==> t0[r].isOut || HeldOut(grants, r))
  {
    hide Holds;
    forall r: nat | r < |t| && (t0[r].isOut || HeldOut(grants, r))
      ensures t[r].isOut
    {
      assert Covers(t[r], t0[r]);
    }
  }

  /** An operand as the parser leaves it, without a name. */
  function Parsed(constraint: string): Operand {
    Operand(None, constraint, Other, -1, -1, 0, -1, false, false, false)
  }

  function Chained(): (ops: seq<Operand>)
    ensures |ops| == 3
  {
    [Parsed("=r"), Parsed("0"), Parsed("1")]
  }

  lemma ChainedWanted()
    ensures Wanted(Parsed("=r")) == "r" && Wanted(Parsed("0")) == "0" && Wanted(Parsed("1")) == "1"
  {
    assert "=r"[1..] == "r";
  }

  lemma ChainedTargets()
    ensures var ops := Chained(); Target(ops, 0) == None && Target(ops, 1) == Some(0) && Target(ops, 2) == Some(1)
  {
    ChainedWanted();
    assert Number("0", 0) == Number("", 0) == 0;
    assert "1"[1..] == "";
    assert Number("1", 0) == Number("", 1) == 1;
  }

  lemma ChainedAccepted(cpu: Cpu)
    ensures Accepted(cpu, Chained(), 1, 3)
  {
    ChainedWanted();
    ChainedTargets();
    hide Target, Wanted;
    var ops := Chained();
    assert OperandOk(cpu, ops, 1, 0) && OperandOk(cpu, ops, 1, 1) && OperandOk(cpu, ops, 1, 2);
  }

  function NoClobbers(cpu: Cpu): (c: seq<bool>)
    ensures |c| == RegisterCount(cpu) && forall r :: 0 <= r < |c| ==> !c[r]
  {
    seq(RegisterCount(cpu), _ => false)
  }

  /** The output comes first, before the two references. */
  lemma ChainedFirst(cpu: Cpu, linked: seq<Operand>, order: seq<nat>)
    requires |linked| == |order| == 3 && Linked(cpu, Chained(), linked, 3) && Permutation(order)
    requires Ordered(linked, order)
    ensures order[0] == 0 && order[1] != 0 && order[2] != 0
    ensures linked[0].refIndex < 0 && linked[1].refIndex >= 0 && linked[2].refIndex >= 0
  {
    ChainedWanted();
    ChainedTargets();
    hide Wanted, Target;
    assert PrioritySet(cpu, Chained()[0], linked[0]) && PrioritySet(cpu, Chained()[1], linked[1]);
    assert PrioritySet(cpu, Chained()[2], linked[2]);
    assert linked[0].priority <= 4 && linked[1].priority == 5 && linked[2].priority == 5;
    AllListed(order, 0);
  }

  lemma FirstRegister(cpu: Cpu, mask: Mask, t: seq<Mask>)
    requires |t| == RegisterCount(cpu) && !Overlap(t[0], mask)
    ensures Choose(cpu, "=r", Other, true, mask, false, t) == Chosen(Register(0), mask, false)
  {
    assert "=r"[1..] == "r";
    assert Choose(cpu, "r", Other, true, mask, false, t) == Chosen(Register(0), mask, false);
  }

  /** References need no register. */
  lemma {:induction false} RunRefs(cpu: Cpu, ops: seq<Operand>, nbOutputs: nat, t: seq<Mask>, order: seq<nat>)
    requires |t| == RegisterCount(cpu) && Links(ops)
    requires forall p :: 0 <= p < |order| ==> order[p] < |ops| && ops[order[p]].refIndex >= 0
    ensures RunAll(cpu, ops, nbOutputs, t, order) == Some(Allocation(ops, t))
    decreases |order|
  {
    hide Links;
    if order != [] {
      RunRefs(cpu, ops, nbOutputs, t, order[1..]);
    }
  }

  /** One operand with a place, then references. */
  lemma RunOne(cpu: Cpu, ops: seq<Operand>, nbOutputs: nat, t: seq<Mask>, order: seq<nat>)
    requires |t| == RegisterCount(cpu) && Links(ops) && order != [] && forall p :: 0 <= p < |order| ==> order[p] < |ops|
    requires ops[order[0]].refIndex < 0 && forall p :: 0 < p < |order| ==> ops[order[p]].refIndex >= 0
    requires var op, out := ops[order[0]], order[0] < nbOutputs;
      Choose(cpu, op.constraint, op.value, out, StartMask(op, out), op.isRw, t).Chosen?
    ensures RunAll(cpu, ops, nbOutputs, t, order).Some?
  {
    hide Choose, StartMask, Assign, Record, RunAll, Fits, RegisterCount;
    var j := order[0];
    var out := j < nbOutputs;
    var c := Choose(cpu, ops[j].constraint, ops[j].value, out, StartMask(ops[j], out), ops[j].isRw, t);
    assert order[0..] == order;
    RunStep(cpu, ops, nbOutputs, t, order, 0);
    Assigned(ops, j, c.place, c.rw);
    hide SameRest, Links;
    RunRefs(cpu, Assign(ops, j, c.place, c.rw), nbOutputs, Record(t, c.place, c.mask), order[1..]);
  }

  lemma ChainedRuns(cpu: Cpu, tr: Trace)
    requires Prepared(cpu, tr, Chained())
    ensures Outcome(cpu, tr, Chained(), 1, NoClobbers(cpu)).Some?
  {
    var ops, order, t := tr.linked, tr.order, StartTable(cpu, NoClobbers(cpu));
    ChainedFirst(cpu, ops, order);
    ChainedChoice(cpu, ops[0], t);
    hide Choose, StartMask, RunAll, Links, RegisterCount, Ordered, Linked, StartTable;
    RunOne(cpu, ops, 1, t, order);
  }

  lemma ChainedChoice(cpu: Cpu, op: Operand, t: seq<Mask>)
    requires SameSource(op, Parsed("=r")) && Fresh(op) && t == StartTable(cpu, NoClobbers(cpu))
    ensures Choose(cpu, op.constraint, op.value, true, StartMask(op, true), op.isRw, t).Chosen?
  {
    FirstRegister(cpu, StartMask(op, true), t);
  }

  /** An input that matches an input that matches the output: it ends without a register, and no error is reported. */
  method ChainedInput(cpu: Cpu) returns (err: Option<Error>, reg: int)
    ensures err == None && reg == -1
  {
    hide Accepted, Prepared, Outcome, Sound, RefIndex;
    var ops := new Operand[3](i requires 0 <= i < 3 => Chained()[i]);
    assert ops[..] == Chained();
    ChainedAccepted(cpu);
    ChainedRefs();
    var outReg;
    ghost var tr;
    err, outReg, tr := AsmComputeConstraints(cpu, ops, 1, NoClobbers(cpu));
    ChainedRuns(cpu, tr);
    assert forall i :: 0 <= i < 3 ==> SameSource(ops[i], Chained()[i]);
    MatchingInput(cpu, tr, 1, NoClobbers(cpu), ops[..], 2);
    reg := ops[2].reg;
  }

  lemma ChainedRefs()
    ensures RefIndex(Chained(), 1) == 0 && RefIndex(Chained(), 2) == 1
  {
    ChainedTargets();
    hide Target;
  }
}
