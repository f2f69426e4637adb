/** What the constraint letters of inline assembly mean, on the registers by name, and that the allocator gives every
  * operand what its first satisfiable letter asks for. */
module AsmLetters {
  import opened Binary
  import opened InlineAsm

  const I386_NAMES := ["eax", "ecx", "edx", "ebx", "esp", "ebp", "esi", "edi"]

  const ARM_NAMES := ["r0", "r1", "r2", "r3", "r4", "r5", "r6", "r7", "r8", "r9", "r10", "fp", "ip", "sp", "lr", "pc"]

  function Name(cpu: Cpu, r: nat): string {
    var names := if cpu.I386? then I386_NAMES else ARM_NAMES;
    if r < |names| then names[r] else ""
  }

  /** The registers that a register letter may use. */
  function LetterNames(cpu: Cpu, c: char): set<string> {
    match cpu
    case I386 =>
      if c == 'a' then {"eax"} else if c == 'b' then {"ebx"} else if c == 'c' then {"ecx"} else if c == 'd' then {"edx"}
      else if c == 'S' then {"esi"} else if c == 'D' then {"edi"}
      else if c == 'q' then {"eax", "ebx", "ecx", "edx"}
      else if c == 'r' || c == 'R' || c == 'p' then {"eax", "ebx", "ecx", "edx", "esi", "edi", "esp", "ebp"}
      else {}
    case Arm =>
      if c == 'l' || c == 'r' || c == 'p' then {"r0", "r1", "r2", "r3", "r4", "r5", "r6", "r7", "r8"} else {}
  }

  /** The letters that a constant satisfies, and among them those for one without a symbol. */
  predicate IsConstantLetter(cpu: Cpu, c: char) {
    if cpu.I386? then c in {'e', 'i', 'I', 'N', 'M'} else c in {'i', 'I', 'J', 'K', 'L', 'M'}
  }

  predicate IsNumberLetter(cpu: Cpu, c: char) {
    if cpu.I386? then c in {'I', 'N', 'M'} else c == 'M'
  }

  predicate IsLetter(cpu: Cpu, c: char) {
    LetterNames(cpu, c) != {} || IsConstantLetter(cpu, c) || c == 'm' || c == 'g' || (cpu.I386? && c == 'A')
  }

  /** A register that can hold the address of an operand in memory: the same ones as for the letter r. */
  predicate HoldsAddress(cpu: Cpu, r: nat) { Name(cpu, r) in LetterNames(cpu, 'r') }

  /** Letter c is satisfied by place p. */
  predicate Allows(cpu: Cpu, c: char, value: Value, isOutput: bool, p: Place) {
    match p
    case Register(r) => Name(cpu, r) in LetterNames(cpu, c)
    case EaxEdx => cpu.I386? && c == 'A'
    case Address(r) => value.LLocal? && (c == 'm' || (c == 'g' && isOutput)) && HoldsAddress(cpu, r)
    case Nothing =>
      || (IsConstantLetter(cpu, c) && value.Const? && (IsNumberLetter(cpu, c) ==> !value.sym))
      || ((c == 'm' || c == 'g') && !(value.LLocal? && (isOutput || c == 'm')))
  }

  /** The bits in force at letter i: both behind a + or &. */
  function MaskAt(s: string, i: nat, mask: Mask): Mask
    requires i <= |s|
  {
    if i == 0 then mask else if s[i - 1] == '+' || s[i - 1] == '&' then BOTH else MaskAt(s, i - 1, mask)
  }

  /** The scan goes on behind letter i: a known letter, or a modifier in its place. */
  predicate Readable(cpu: Cpu, s: string, isOutput: bool, i: nat)
    requires i < |s|
  {
    IsLetter(cpu, s[i]) || s[i] == '=' || (isOutput && (s[i] == '+' || s[i] == '&'))
  }

  /** Letter i is satisfied by place p, which clashes with nothing in the table. */
  predicate Satisfies(cpu: Cpu, s: string, value: Value, isOutput: bool, mask: Mask, t: seq<Mask>, i: nat, p: Place) {
    i < |s| && Allows(cpu, s[i], value, isOutput, p) && Fits(p, MaskAt(s, i, mask), t)
  }

  /** The scan goes on behind letter i because nothing satisfies it. */
  ghost predicate Skipped(cpu: Cpu, s: string, value: Value, isOutput: bool, mask: Mask, t: seq<Mask>, i: nat) {
    && i < |s| && Readable(cpu, s, isOutput, i)
    && forall q :: !Satisfies(cpu, s, value, isOutput, mask, t, i, q)
  }

  function Lowness(p: Place): nat { if p.Register? || p.Address? then p.r else 0 }

  /** Of the places that satisfy letter i, p has the lowest register. */
  ghost predicate Lowest1(cpu: Cpu, s: string, value: Value, isOutput: bool, mask: Mask, t: seq<Mask>, i: nat,
                          p: Place) {
    && Satisfies(cpu, s, value, isOutput, mask, t, i, p)
    && forall q :: Satisfies(cpu, s, value, isOutput, mask, t, i, q) ==> Lowness(p) <= Lowness(q)
  }

  /** Letter i is the first that is satisfied, and p the lowest place that satisfies it. */
  ghost predicate First(cpu: Cpu, s: string, value: Value, isOutput: bool, mask: Mask, t: seq<Mask>, i: nat, p: Place) {
    && Lowest1(cpu, s, value, isOutput, mask, t, i, p)
    && forall k: nat :: k < i ==> Skipped(cpu, s, value, isOutput, mask, t, k)
  }

  /** The registers by name are those by number. */
  lemma NamesAre(cpu: Cpu, c: char, r: nat)
    ensures Name(cpu, r) in LetterNames(cpu, c) <==>
      match LetterRule(cpu, c)
      case Fixed(x) => r == x
      case OneOf(n) => r < n
      case _ => false
  {
    NameValues(cpu, r);
  }

  lemma NameValues(cpu: Cpu, r: nat)
    ensures Name(cpu, r) == "" <==> r >= RegisterCount(cpu)
  {
  }

  lemma LettersAre(cpu: Cpu, c: char)
    ensures IsLetter(cpu, c) <==> LetterRule(cpu, c) !in {Modifier, ReadWrite, Early, Invalid}
    ensures LetterNames(cpu, c) != {} <==> LetterRule(cpu, c).Fixed? || LetterRule(cpu, c).OneOf?
    ensures c == '=' <==> LetterRule(cpu, c) == Modifier
    ensures c == '+' <==> LetterRule(cpu, c) == ReadWrite
    ensures c == '&' <==> LetterRule(cpu, c) == Early
  {
    NamesAre(cpu, c, 0);
  }

  /** What the rule of a letter allows. */
  predicate RuleAllows(cpu: Cpu, c: char, value: Value, isOutput: bool, p: Place) {
    match LetterRule(cpu, c)
    case Pair => p.EaxEdx?
    case Fixed(x) => p.Register? && p.r == x
    case OneOf(n) => p.Register? && p.r < n
    case Constant => p.Nothing? && value.Const?
    case PlainNumber => p.Nothing? && value.Const? && !value.sym
    case InMemory =>
      if (isOutput || c == 'm') && value.LLocal? then p.Address? && p.r < GeneralCount(cpu) else p.Nothing?
    case _ => false
  }

  lemma AllowsIs(cpu: Cpu, c: char, value: Value, isOutput: bool, p: Place)
    ensures Allows(cpu, c, value, isOutput, p) <==> RuleAllows(cpu, c, value, isOutput, p)
  {
    if p.Register? || p.Address? {
      NamesAre(cpu, c, p.r);
      NamesAre(cpu, 'r', p.r);
    }
    hide LetterNames, Name;
  }

  /** Behind the first letter, a string is read like the rest of it. */
  lemma MaskNext(s: string, i: nat, mask: Mask)
    requires i < |s|
    ensures MaskAt(s, i + 1, mask) == MaskAt(s[1..], i, MaskAt(s, 1, mask))
    decreases i
  {
    if i > 0 {
      MaskNext(s, i - 1, mask);
      assert s[1..][i - 1] == s[i];
    }
  }

  lemma SatisfiesNext(cpu: Cpu, s: string, value: Value, isOutput: bool, mask: Mask, t: seq<Mask>, i: nat, p: Place)
    requires s != ""
    ensures Satisfies(cpu, s, value, isOutput, mask, t, i + 1, p) <==>
      Satisfies(cpu, s[1..], value, isOutput, MaskAt(s, 1, mask), t, i, p)
  {
    hide Allows, Fits, MaskAt;
    if i + 1 < |s| {
      MaskNext(s, i, mask);
    }
  }

  lemma SkippedNext(cpu: Cpu, s: string, value: Value, isOutput: bool, mask: Mask, t: seq<Mask>, i: nat)
    requires s != ""
    ensures Skipped(cpu, s, value, isOutput, mask, t, i + 1) <==>
      Skipped(cpu, s[1..], value, isOutput, MaskAt(s, 1, mask), t, i)
  {
    hide Satisfies, MaskAt, Readable;
    var k, rest, m := i + 1, s[1..], MaskAt(s, 1, mask);
    forall q
      ensures Satisfies(cpu, s, value, isOutput, mask, t, k, q) <==> Satisfies(cpu, rest, value, isOutput, m, t, i, q)
    {
      SatisfiesNext(cpu, s, value, isOutput, mask, t, i, q);
    }
    if i < |s[1..]| {
      ReadableNext(cpu, s, isOutput, i);
    }
  }

  lemma LowestNext(cpu: Cpu, s: string, value: Value, isOutput: bool, mask: Mask, t: seq<Mask>, i: nat, p: Place)
    requires s != ""
    ensures Lowest1(cpu, s, value, isOutput, mask, t, i + 1, p) <==>
      Lowest1(cpu, s[1..], value, isOutput, MaskAt(s, 1, mask), t, i, p)
  {
    hide Satisfies, MaskAt;
    var k, rest, m := i + 1, s[1..], MaskAt(s, 1, mask);
    forall q
      ensures Satisfies(cpu, s, value, isOutput, mask, t, k, q) <==> Satisfies(cpu, rest, value, isOutput, m, t, i, q)
    {
      SatisfiesNext(cpu, s, value, isOutput, mask, t, i, q);
    }
  }

  lemma FirstNext(cpu: Cpu, s: string, value: Value, isOutput: bool, mask: Mask, t: seq<Mask>, i: nat, p: Place)
    requires s != "" && Skipped(cpu, s, value, isOutput, mask, t, 0)
    ensures First(cpu, s, value, isOutput, mask, t, i + 1, p) <==>
      First(cpu, s[1..], value, isOutput, MaskAt(s, 1, mask), t, i, p)
  {
    hide Skipped, Lowest1, MaskAt;
    LowestNext(cpu, s, value, isOutput, mask, t, i, p);
    var rest, m := s[1..], MaskAt(s, 1, mask);
    forall k: nat | k < i
      ensures Skipped(cpu, s, value, isOutput, mask, t, k + 1) <==> Skipped(cpu, rest, value, isOutput, m, t, k)
    {
      SkippedNext(cpu, s, value, isOutput, mask, t, k);
    }
    if First(cpu, rest, value, isOutput, m, t, i, p) {
      forall k: nat | k < i + 1
        ensures Skipped(cpu, s, value, isOutput, mask, t, k)
      {
        if k > 0 {
          assert Skipped(cpu, rest, value, isOutput, m, t, k - 1);
        }
      }
    }
  }

  lemma ReadableNext(cpu: Cpu, s: string, isOutput: bool, k: nat)
    requires s != "" && k < |s[1..]|
    ensures Readable(cpu, s, isOutput, k + 1) <==> Readable(cpu, s[1..], isOutput, k)
  {
    hide IsLetter;
  }

  /** Only the first readable letter can decide. */
  lemma FirstAt(cpu: Cpu, s: string, value: Value, isOutput: bool, mask: Mask, t: seq<Mask>, i: nat, p: Place)
    requires First(cpu, s, value, isOutput, mask, t, i, p)
    ensures i == 0 || Skipped(cpu, s, value, isOutput, mask, t, 0)
  {
    hide Skipped, Lowest1;
  }

  /** What the first letter does: it is skipped, decides, or ends the scan with an error. */
  ghost predicate HeadDoes(cpu: Cpu, s: string, value: Value, isOutput: bool, mask: Mask, rw: bool, t: seq<Mask>)
    requires |t| == RegisterCount(cpu) && s != ""
  {
    var c := Choose(cpu, s, value, isOutput, mask, rw, t);
    if Skipped(cpu, s, value, isOutput, mask, t, 0) then
      c == Choose(cpu, s[1..], value, isOutput, MaskAt(s, 1, mask), rw || s[0] == '+', t)
    else if c.Chosen? then
      Lowest1(cpu, s, value, isOutput, mask, t, 0, c.place) && c.mask == mask && c.rw == rw
    else
      forall p :: !Satisfies(cpu, s, value, isOutput, mask, t, 0, p)
  }

  lemma SatisfiesHead(cpu: Cpu, s: string, value: Value, isOutput: bool, mask: Mask, t: seq<Mask>)
    requires s != ""
    ensures forall p :: Satisfies(cpu, s, value, isOutput, mask, t, 0, p) <==>
      RuleAllows(cpu, s[0], value, isOutput, p) && Fits(p, mask, t)
    ensures MaskAt(s, 1, mask) == if s[0] == '+' || s[0] == '&' then BOTH else mask
  {
    hide Allows, RuleAllows, Fits;
    assert MaskAt(s, 0, mask) == mask;
    forall p
      ensures Satisfies(cpu, s, value, isOutput, mask, t, 0, p) <==>
        RuleAllows(cpu, s[0], value, isOutput, p) && Fits(p, mask, t)
    {
      AllowsIs(cpu, s[0], value, isOutput, p);
    }
  }

  /** A modifier or an unknown letter. */
  lemma HeadModifier(cpu: Cpu, s: string, value: Value, isOutput: bool, mask: Mask, rw: bool, t: seq<Mask>)
    requires |t| == RegisterCount(cpu) && s != "" && !IsLetter(cpu, s[0])
    ensures HeadDoes(cpu, s, value, isOutput, mask, rw, t)
  {
    LettersAre(cpu, s[0]);
    SatisfiesHead(cpu, s, value, isOutput, mask, t);
    hide Satisfies, Fits, LetterRule, IsLetter, MaskAt, RegisterCount, GeneralCount;
  }

  lemma HeadChosen(cpu: Cpu, s: string, value: Value, isOutput: bool, mask: Mask, rw: bool, t: seq<Mask>, p: Place)
    requires |t| == RegisterCount(cpu) && s != "" && Lowest1(cpu, s, value, isOutput, mask, t, 0, p)
    requires Choose(cpu, s, value, isOutput, mask, rw, t) == Chosen(p, mask, rw)
    ensures HeadDoes(cpu, s, value, isOutput, mask, rw, t)
  {
    hide Satisfies, Choose, Readable;
  }

  lemma HeadSkipped(cpu: Cpu, s: string, value: Value, isOutput: bool, mask: Mask, rw: bool, t: seq<Mask>)
    requires |t| == RegisterCount(cpu) && s != "" && IsLetter(cpu, s[0])
    requires forall p :: !Satisfies(cpu, s, value, isOutput, mask, t, 0, p)
    requires Choose(cpu, s, value, isOutput, mask, rw, t) == Choose(cpu, s[1..], value, isOutput, mask, rw, t)
    ensures HeadDoes(cpu, s, value, isOutput, mask, rw, t)
  {
    SatisfiesHead(cpu, s, value, isOutput, mask, t);
    LettersAre(cpu, s[0]);
    hide Satisfies, Choose, IsLetter, LetterRule, MaskAt;
  }

  /** A letter that asks for one of the first n registers. */
  lemma HeadOneOf(cpu: Cpu, s: string, value: Value, isOutput: bool, mask: Mask, rw: bool, t: seq<Mask>)
    requires |t| == RegisterCount(cpu) && s != "" && LetterRule(cpu, s[0]).OneOf?
    ensures HeadDoes(cpu, s, value, isOutput, mask, rw, t)
  {
    LettersAre(cpu, s[0]);
    SatisfiesHead(cpu, s, value, isOutput, mask, t);
    hide Satisfies, LetterRule, IsLetter, MaskAt, RegisterCount, GeneralCount, Overlap, HeadDoes;
    var n := LetterRule(cpu, s[0]).n;
    var r := Lowest(t, mask, 0, n);
    assert forall x: nat :: x < n && Fits(Register(x), mask, t) ==> r <= x;
    if r < n {
      assert Fits(Register(r), mask, t);
      HeadChosen(cpu, s, value, isOutput, mask, rw, t, Register(r));
    } else {
      HeadSkipped(cpu, s, value, isOutput, mask, rw, t);
    }
  }

  /** A letter that asks for one register, or for eax and edx. */
  lemma HeadFixed(cpu: Cpu, s: string, value: Value, isOutput: bool, mask: Mask, rw: bool, t: seq<Mask>)
    requires |t| == RegisterCount(cpu) && s != "" && (LetterRule(cpu, s[0]).Pair? || LetterRule(cpu, s[0]).Fixed?)
    ensures HeadDoes(cpu, s, value, isOutput, mask, rw, t)
  {
    LettersAre(cpu, s[0]);
    SatisfiesHead(cpu, s, value, isOutput, mask, t);
    hide Satisfies, LetterRule, IsLetter, MaskAt, RegisterCount, GeneralCount, Overlap, HeadDoes;
    var rule := LetterRule(cpu, s[0]);
    var p := if rule.Fixed? then Register(rule.r) else EaxEdx;
    if Fits(p, mask, t) {
      HeadChosen(cpu, s, value, isOutput, mask, rw, t, p);
    } else {
      HeadSkipped(cpu, s, value, isOutput, mask, rw, t);
    }
  }

  /** A letter that asks for an address that is itself in memory to be loaded. */
  lemma HeadAddress(cpu: Cpu, s: string, value: Value, isOutput: bool, mask: Mask, rw: bool, t: seq<Mask>)
    requires |t| == RegisterCount(cpu) && s != "" && LetterRule(cpu, s[0]).InMemory?
    requires (isOutput || s[0] == 'm') && value.LLocal?
    ensures HeadDoes(cpu, s, value, isOutput, mask, rw, t)
  {
    LettersAre(cpu, s[0]);
    SatisfiesHead(cpu, s, value, isOutput, mask, t);
    hide Satisfies, LetterRule, IsLetter, MaskAt, RegisterCount, GeneralCount, Overlap, HeadDoes;
    var n := GeneralCount(cpu);
    var r := Lowest(t, IN, 0, n);
    assert forall x: nat :: x < n && Fits(Address(x), mask, t) ==> r <= x;
    if r < n {
      assert Fits(Address(r), mask, t);
      HeadChosen(cpu, s, value, isOutput, mask, rw, t, Address(r));
    } else {
      HeadSkipped(cpu, s, value, isOutput, mask, rw, t);
    }
  }

  /** A letter that asks for a constant, or for memory where nothing needs to be loaded. */
  lemma HeadValue(cpu: Cpu, s: string, value: Value, isOutput: bool, mask: Mask, rw: bool, t: seq<Mask>)
    requires |t| == RegisterCount(cpu) && s != "" && IsLetter(cpu, s[0])
    requires LetterRule(cpu, s[0]).InMemory? ==> !((isOutput || s[0] == 'm') && value.LLocal?)
    requires !LetterRule(cpu, s[0]).Pair? && !LetterRule(cpu, s[0]).Fixed? && !LetterRule(cpu, s[0]).OneOf?
    ensures HeadDoes(cpu, s, value, isOutput, mask, rw, t)
  {
    LettersAre(cpu, s[0]);
    SatisfiesHead(cpu, s, value, isOutput, mask, t);
    hide Satisfies, LetterRule, IsLetter, MaskAt, RegisterCount, GeneralCount, Overlap, HeadDoes, Lowest;
    if RuleAllows(cpu, s[0], value, isOutput, Nothing) {
      HeadChosen(cpu, s, value, isOutput, mask, rw, t, Nothing);
    } else {
      HeadSkipped(cpu, s, value, isOutput, mask, rw, t);
    }
  }

  lemma HeadCase(cpu: Cpu, s: string, value: Value, isOutput: bool, mask: Mask, rw: bool, t: seq<Mask>)
    requires |t| == RegisterCount(cpu) && s != ""
    ensures HeadDoes(cpu, s, value, isOutput, mask, rw, t)
  {
    LettersAre(cpu, s[0]);
    hide HeadDoes, LetterRule, IsLetter;
    if !IsLetter(cpu, s[0]) {
      HeadModifier(cpu, s, value, isOutput, mask, rw, t);
    } else if LetterRule(cpu, s[0]).OneOf? {
      HeadOneOf(cpu, s, value, isOutput, mask, rw, t);
    } else if LetterRule(cpu, s[0]).Pair? || LetterRule(cpu, s[0]).Fixed? {
      HeadFixed(cpu, s, value, isOutput, mask, rw, t);
    } else if LetterRule(cpu, s[0]).InMemory? && (isOutput || s[0] == 'm') && value.LLocal? {
      HeadAddress(cpu, s, value, isOutput, mask, rw, t);
    } else {
      HeadValue(cpu, s, value, isOutput, mask, rw, t);
    }
  }

  /** The scan ends with the first letter that can be satisfied, which is letter i, and its lowest place; it is
    * rejected exactly if there is none. */
  ghost predicate Chooses(cpu: Cpu, s: string, value: Value, isOutput: bool, mask: Mask, rw: bool, t: seq<Mask>, i: nat)
    requires |t| == RegisterCount(cpu)
  {
    var c := Choose(cpu, s, value, isOutput, mask, rw, t);
    && i <= |s|
    && if c.Chosen? then First(cpu, s, value, isOutput, mask, t, i, c.place) && c.mask == MaskAt(s, i, mask)
       else forall k: nat, p :: !First(cpu, s, value, isOutput, mask, t, k, p)
  }

  lemma EmptyChooses(cpu: Cpu, value: Value, isOutput: bool, mask: Mask, rw: bool, t: seq<Mask>)
    requires |t| == RegisterCount(cpu)
    ensures Chooses(cpu, "", value, isOutput, mask, rw, t, 0)
  {
    hide Skipped, MaskAt;
  }

  lemma DecideHead(cpu: Cpu, s: string, value: Value, isOutput: bool, mask: Mask, rw: bool, t: seq<Mask>)
    requires |t| == RegisterCount(cpu) && s != "" && HeadDoes(cpu, s, value, isOutput, mask, rw, t)
    requires !Skipped(cpu, s, value, isOutput, mask, t, 0)
    ensures Chooses(cpu, s, value, isOutput, mask, rw, t, 0)
  {
    hide Skipped, Satisfies, Choose;
    forall k: nat, p | First(cpu, s, value, isOutput, mask, t, k, p)
      ensures k == 0
    {
      FirstAt(cpu, s, value, isOutput, mask, t, k, p);
    }
  }

  lemma SkipHead(cpu: Cpu, s: string, value: Value, isOutput: bool, mask: Mask, rw: bool, t: seq<Mask>, i: nat)
    requires |t| == RegisterCount(cpu) && s != "" && HeadDoes(cpu, s, value, isOutput, mask, rw, t)
    requires Skipped(cpu, s, value, isOutput, mask, t, 0)
    requires Chooses(cpu, s[1..], value, isOutput, MaskAt(s, 1, mask), rw || s[0] == '+', t, i)
    ensures Chooses(cpu, s, value, isOutput, mask, rw, t, i + 1)
  {
    hide Skipped, First, Choose, MaskAt;
    var rest, m := s[1..], MaskAt(s, 1, mask);
    var c := Choose(cpu, s, value, isOutput, mask, rw, t);
    if c.Chosen? {
      MaskNext(s, i, mask);
      FirstNext(cpu, s, value, isOutput, mask, t, i, c.place);
    } else {
      forall k: nat, p
        ensures !First(cpu, s, value, isOutput, mask, t, k, p)
      {
        if First(cpu, s, value, isOutput, mask, t, k, p) {
          SkippedNotFirst(cpu, s, value, isOutput, mask, t, k, p);
          FirstNext(cpu, s, value, isOutput, mask, t, k - 1, p);
        }
      }
    }
  }

  lemma SkippedNotFirst(cpu: Cpu, s: string, value: Value, isOutput: bool, mask: Mask, t: seq<Mask>, k: nat, p: Place)
    requires Skipped(cpu, s, value, isOutput, mask, t, 0) && First(cpu, s, value, isOutput, mask, t, k, p)
    ensures k > 0
  {
    hide Satisfies, Readable;
  }

  lemma {:induction false} ChooseIs(cpu: Cpu, s: string, value: Value, isOutput: bool, mask: Mask, rw: bool,
                                    t: seq<Mask>)
    returns (i: nat)
    requires |t| == RegisterCount(cpu)
    ensures Chooses(cpu, s, value, isOutput, mask, rw, t, i)
    decreases |s|
  {
    hide Skipped, MaskAt, HeadDoes, Chooses;
    i := 0;
    if s == "" {
      EmptyChooses(cpu, value, isOutput, mask, rw, t);
    } else {
      HeadCase(cpu, s, value, isOutput, mask, rw, t);
      if Skipped(cpu, s, value, isOutput, mask, t, 0) {
        i := ChooseIs(cpu, s[1..], value, isOutput, MaskAt(s, 1, mask), rw || s[0] == '+', t);
        SkipHead(cpu, s, value, isOutput, mask, rw, t, i);
        i := i + 1;
      } else {
        DecideHead(cpu, s, value, isOutput, mask, rw, t);
      }
    }
  }

  // The whole run.

  ghost predicate Runnable(cpu: Cpu, ops: seq<Operand>, t: seq<Mask>, order: seq<nat>) {
    |t| == RegisterCount(cpu) && Links(ops) && forall p :: 0 <= p < |order| ==> order[p] < |ops|
  }

  /** Same operands with the same links, and a table of the same size. */
  ghost predicate Follows(ops: seq<Operand>, t: seq<Mask>, a: Allocation) {
    && Links(a.ops) && |a.ops| == |ops| && |a.t| == |t|
    && forall i :: 0 <= i < |ops| ==> SameRest(a.ops[i], ops[i])
  }

  /** One step of a run: an operand is given the place that is chosen for it. */
  ghost function Advance(cpu: Cpu, a: Allocation, nbOutputs: nat, j: nat): Option<Allocation>
    requires |a.t| == RegisterCount(cpu) && Links(a.ops) && j < |a.ops|
  {
    if a.ops[j].refIndex >= 0 then Some(a)
    else
      var op, out := a.ops[j], j < nbOutputs;
      var c := Choose(cpu, op.constraint, op.value, out, StartMask(op, out), op.isRw, a.t);
      if c.Rejected? then None
      else
        ChosenFits(cpu, op.constraint, op.value, out, StartMask(op, out), op.isRw, a.t);
        Some(Allocation(Assign(a.ops, j, c.place, c.rw), Record(a.t, c.place, c.mask)))
  }

  lemma AdvanceFollows(cpu: Cpu, a: Allocation, nbOutputs: nat, j: nat)
    requires |a.t| == RegisterCount(cpu) && Links(a.ops) && j < |a.ops|
    ensures Advance(cpu, a, nbOutputs, j).Some? ==> Follows(a.ops, a.t, Advance(cpu, a, nbOutputs, j).value)
    ensures Advance(cpu, a, nbOutputs, j).Some? ==>
      forall k :: 0 <= k < |a.ops| && k != j && a.ops[k].refIndex < 0 ==>
        Advance(cpu, a, nbOutputs, j).value.ops[k] == a.ops[k]
  {
    if a.ops[j].refIndex < 0 {
      var op, out := a.ops[j], j < nbOutputs;
      var c := Choose(cpu, op.constraint, op.value, out, StartMask(op, out), op.isRw, a.t);
      if c.Chosen? {
        ChosenFits(cpu, op.constraint, op.value, out, StartMask(op, out), op.isRw, a.t);
        Assigned(a.ops, j, c.place, c.rw);
      }
      hide Choose, Assign, Record, StartMask, Links, SameRest, Put, RegisterCount;
    }
  }

  /** A run, step by step from the front. */
  lemma RunAdvance(cpu: Cpu, ops: seq<Operand>, nbOutputs: nat, t: seq<Mask>, order: seq<nat>)
    requires Runnable(cpu, ops, t, order) && order != []
    ensures var next := Advance(cpu, Allocation(ops, t), nbOutputs, order[0]);
      if next.None? then RunAll(cpu, ops, nbOutputs, t, order) == None
      else
        && Follows(ops, t, next.value)
        && RunAll(cpu, ops, nbOutputs, t, order) == RunAll(cpu, next.value.ops, nbOutputs, next.value.t, order[1..])
  {
    AdvanceFollows(cpu, Allocation(ops, t), nbOutputs, order[0]);
    var j := order[0];
    if ops[j].refIndex < 0 {
      var op, out := ops[j], j < nbOutputs;
      ChosenFits(cpu, op.constraint, op.value, out, StartMask(op, out), op.isRw, t);
    }
    hide Choose, Assign, Record, StartMask, Links, SameRest, RegisterCount;
  }

  lemma FollowsSelf(ops: seq<Operand>, t: seq<Mask>)
    requires Links(ops)
    ensures Follows(ops, t, Allocation(ops, t))
  {
  }

  lemma FollowsTrans(ops: seq<Operand>, t: seq<Mask>, a: Allocation, b: Allocation)
    requires Follows(ops, t, a) && Follows(a.ops, a.t, b)
    ensures Follows(ops, t, b)
  {
  }

  lemma {:induction false} RunFollows(cpu: Cpu, ops: seq<Operand>, nbOutputs: nat, t: seq<Mask>, order: seq<nat>)
    requires Runnable(cpu, ops, t, order)
    ensures var r := RunAll(cpu, ops, nbOutputs, t, order); r.Some? ==> Follows(ops, t, r.value)
    ensures var r := RunAll(cpu, ops, nbOutputs, t, order); r.Some? ==>
      forall k :: 0 <= k < |ops| && k !in order && ops[k].refIndex < 0 ==> r.value.ops[k] == ops[k]
    decreases |order|
  {
    hide Advance, Links, RegisterCount, SameRest;
    if order == [] {
      FollowsSelf(ops, t);
    } else {
      RunAdvance(cpu, ops, nbOutputs, t, order);
      AdvanceFollows(cpu, Allocation(ops, t), nbOutputs, order[0]);
      var next := Advance(cpu, Allocation(ops, t), nbOutputs, order[0]);
      if next.Some? {
        var r := RunAll(cpu, ops, nbOutputs, t, order);
        RunFollows(cpu, next.value.ops, nbOutputs, next.value.t, order[1..]);
        hide RunAll;
        if r.Some? {
          FollowsTrans(ops, t, next.value, r.value);
          forall k | 0 <= k < |ops| && k !in order && ops[k].refIndex < 0
            ensures r.value.ops[k] == ops[k]
          {
            assert k != order[0] && k !in order[1..];
          }
        }
      }
    }
  }

  /** A run in two parts. */
  lemma {:induction false} RunSplit(cpu: Cpu, ops: seq<Operand>, nbOutputs: nat, t: seq<Mask>, order: seq<nat>, i: nat)
    requires Runnable(cpu, ops, t, order) && i <= |order|
    ensures var first := RunAll(cpu, ops, nbOutputs, t, order[..i]);
      if first.None? then RunAll(cpu, ops, nbOutputs, t, order) == None
      else
        && Follows(ops, t, first.value)
        && RunAll(cpu, ops, nbOutputs, t, order) == RunAll(cpu, first.value.ops, nbOutputs, first.value.t, order[i..])
    decreases i
  {
    hide Advance, Links, RegisterCount, SameRest, RunAll;
    if i == 0 {
      assert order[..0] == [] && order[0..] == order;
      RunNothing(cpu, ops, nbOutputs, t);
      FollowsSelf(ops, t);
    } else {
      RunAdvance(cpu, ops, nbOutputs, t, order);
      RunAdvance(cpu, ops, nbOutputs, t, order[..i]);
      assert order[..i][1..] == order[1..][..i - 1] && order[1..][i - 1..] == order[i..];
      var next := Advance(cpu, Allocation(ops, t), nbOutputs, order[0]);
      if next.Some? {
        RunSplit(cpu, next.value.ops, nbOutputs, next.value.t, order[1..], i - 1);
        var first := RunAll(cpu, ops, nbOutputs, t, order[..i]);
        if first.Some? {
          FollowsTrans(ops, t, next.value, first.value);
        }
      }
    }
  }

  lemma RunNothing(cpu: Cpu, ops: seq<Operand>, nbOutputs: nat, t: seq<Mask>)
    requires Runnable(cpu, ops, t, [])
    ensures RunAll(cpu, ops, nbOutputs, t, []) == Some(Allocation(ops, t))
  {
  }

  /** The fields of the operand say that it has place p. */
  predicate HasPlace(cpu: Cpu, op: Operand, p: Place) {
    match p
    case Nothing => op.reg == -1 && !op.isMemory
    case Register(r) => op.reg == r && !op.isLlong && !op.isMemory
    case EaxEdx => op.reg >= 0 && Name(cpu, op.reg) == "eax" && op.isLlong && !op.isMemory
    case Address(r) => op.reg == r && op.isMemory
  }

  /** What the operands before place p in the order leave. */
  ghost function Before(cpu: Cpu, tr: Trace, ops0: seq<Operand>, nbOutputs: nat, clobbers: seq<bool>, p: nat)
    : Option<Allocation>
    requires |clobbers| == RegisterCount(cpu) && Prepared(cpu, tr, ops0) && p <= |tr.order|
  {
    PermutationBelow(tr.order);
    RunAll(cpu, tr.linked, nbOutputs, StartTable(cpu, clobbers), tr.order[..p])
  }

  /** Letter i of its constraint decides for the operand at place p in the order, and gives it a place. */
  ghost predicate Decides(cpu: Cpu, tr: Trace, ops0: seq<Operand>, nbOutputs: nat, clobbers: seq<bool>, p: nat, i: nat,
                          place: Place)
    requires |clobbers| == RegisterCount(cpu) && Prepared(cpu, tr, ops0) && p < |tr.order|
  {
    && Before(cpu, tr, ops0, nbOutputs, clobbers, p).Some?
    && var j := tr.order[p];
       First(cpu, ops0[j].constraint, ops0[j].value, j < nbOutputs, StartMask(tr.linked[j], j < nbOutputs),
             Before(cpu, tr, ops0, nbOutputs, clobbers, p).value.t, i, place)
  }

  lemma NotYet(order: seq<nat>, p: nat)
    requires Permutation(order) && p < |order|
    ensures order[p] !in order[..p] && order[p] !in order[p + 1..]
  {
  }

  lemma PutHasPlace(cpu: Cpu, op: Operand, p: Place, rw: bool)
    requires Fresh(op) && (p.EaxEdx? ==> cpu.I386?)
    ensures HasPlace(cpu, Put(op, p, rw), p)
  {
    EaxIsFirst();
    hide Name;
  }

  lemma EaxIsFirst()
    ensures Name(I386, 0) == "eax" && Name(I386, 2) == "edx"
  {
  }

  /** The step of the operand at place p in the order of a run that succeeds. */
  lemma StepAt(cpu: Cpu, ops: seq<Operand>, nbOutputs: nat, t: seq<Mask>, order: seq<nat>, p: nat, last: Allocation)
    returns (first: Allocation, next: Allocation)
    requires Runnable(cpu, ops, t, order) && p < |order| && Permutation(order) && ops[order[p]].refIndex < 0
    requires RunAll(cpu, ops, nbOutputs, t, order) == Some(last)
    ensures RunAll(cpu, ops, nbOutputs, t, order[..p]) == Some(first)
    ensures Follows(ops, t, first) && first.ops[order[p]] == ops[order[p]]
    ensures Advance(cpu, first, nbOutputs, order[p]) == Some(next)
    ensures Follows(ops, t, last) && |next.ops| == |ops| && last.ops[order[p]] == next.ops[order[p]]
  {
    hide Advance, Links, RegisterCount, SameRest, RunAll;
    NotYet(order, p);
    RunSplit(cpu, ops, nbOutputs, t, order, p);
    RunFollows(cpu, ops, nbOutputs, t, order);
    RunFollows(cpu, ops, nbOutputs, t, order[..p]);
    first := RunAll(cpu, ops, nbOutputs, t, order[..p]).value;
    assert order[p..][0] == order[p] && order[p..][1..] == order[p + 1..];
    RunAdvance(cpu, first.ops, nbOutputs, first.t, order[p..]);
    AdvanceFollows(cpu, first, nbOutputs, order[p]);
    next := Advance(cpu, first, nbOutputs, order[p]).value;
    StillNoRef(ops, first, next, order[p]);
    RunFollows(cpu, next.ops, nbOutputs, next.t, order[p + 1..]);
  }

  lemma StillNoRef(ops: seq<Operand>, a: Allocation, b: Allocation, j: nat)
    requires j < |ops| == |a.ops| == |b.ops| && SameRest(a.ops[j], ops[j]) && SameRest(b.ops[j], a.ops[j])
    requires ops[j].refIndex < 0
    ensures b.ops[j].refIndex < 0
  {
  }

  /** Every operand that refers to no other ends with the place that the first satisfiable letter of its constraint
    * asks for, by the names of the registers. */
  lemma OperandGets(cpu: Cpu, tr: Trace, ops0: seq<Operand>, nbOutputs: nat, clobbers: seq<bool>, last: Allocation,
                    p: nat)
    returns (i: nat, place: Place)
    requires |clobbers| == RegisterCount(cpu) && Prepared(cpu, tr, ops0) && p < |tr.order|
    requires Outcome(cpu, tr, ops0, nbOutputs, clobbers) == Some(last) && tr.linked[tr.order[p]].refIndex < 0
    ensures Decides(cpu, tr, ops0, nbOutputs, clobbers, p, i, place)
    ensures |last.ops| == |ops0| && HasPlace(cpu, last.ops[tr.order[p]], place)
    ensures var c := ops0[tr.order[p]].constraint;
      i < |c| && Allows(cpu, c[i], ops0[tr.order[p]].value, tr.order[p] < nbOutputs, place)
  {
    hide Links, RegisterCount, StartTable, Permutation, Ordered;
    PermutationBelow(tr.order);
    LinkedSame(cpu, ops0, tr.linked);
    var ops, t, j := tr.linked, StartTable(cpu, clobbers), tr.order[p];
    var first, next := StepAt(cpu, ops, nbOutputs, t, tr.order, p, last);
    hide Linked, RunAll;
    var out := j < nbOutputs;
    var mask := StartMask(ops[j], out);
    i := ChooseIs(cpu, ops[j].constraint, ops[j].value, out, mask, ops[j].isRw, first.t);
    var c := Choose(cpu, ops[j].constraint, ops[j].value, out, mask, ops[j].isRw, first.t);
    AdvanceIs(cpu, first, nbOutputs, j);
    place := c.place;
    hide Choose, First, StartMask, Put, HasPlace;
    FirstAllows(cpu, ops[j].constraint, ops[j].value, out, mask, first.t, i, place);
    PutHasPlace(cpu, ops[j], place, c.rw);
  }

  lemma FirstAllows(cpu: Cpu, s: string, value: Value, isOutput: bool, mask: Mask, t: seq<Mask>, i: nat, p: Place)
    requires First(cpu, s, value, isOutput, mask, t, i, p)
    ensures i < |s| && Allows(cpu, s[i], value, isOutput, p)
  {
    hide Allows, Fits, Skipped;
  }

  lemma LinkedSame(cpu: Cpu, ops0: seq<Operand>, ops: seq<Operand>)
    requires |ops| == |ops0| && Linked(cpu, ops0, ops, |ops|)
    ensures forall i :: 0 <= i < |ops| ==> SameSource(ops0[i], ops[i]) && Fresh(ops[i])
  {
    hide RefsSet, InputsSet, PrioritiesSet;
  }

  lemma AdvanceIs(cpu: Cpu, a: Allocation, nbOutputs: nat, j: nat)
    requires |a.t| == RegisterCount(cpu) && Links(a.ops) && j < |a.ops| && a.ops[j].refIndex < 0
    ensures var op, out := a.ops[j], j < nbOutputs;
      var c := Choose(cpu, op.constraint, op.value, out, StartMask(op, out), op.isRw, a.t);
      if c.Rejected? then Advance(cpu, a, nbOutputs, j) == None
      else Advance(cpu, a, nbOutputs, j).Some? && Advance(cpu, a, nbOutputs, j).value.ops[j] == Put(op, c.place, c.rw)
  {
    var op, out := a.ops[j], j < nbOutputs;
    var c := Choose(cpu, op.constraint, op.value, out, StartMask(op, out), op.isRw, a.t);
    if c.Chosen? {
      ChosenFits(cpu, op.constraint, op.value, out, StartMask(op, out), op.isRw, a.t);
      Assigned(a.ops, j, c.place, c.rw);
    }
    hide Choose, Assign, Record, StartMask, Links, RegisterCount;
  }

  /** Where a run fails: an operand none of whose letters can be satisfied when its turn comes. */
  lemma StuckAt(cpu: Cpu, tr: Trace, ops0: seq<Operand>, nbOutputs: nat, clobbers: seq<bool>) returns (p: nat)
    requires |clobbers| == RegisterCount(cpu) && Prepared(cpu, tr, ops0)
    requires Outcome(cpu, tr, ops0, nbOutputs, clobbers) == None
    ensures p < |tr.order| && tr.linked[tr.order[p]].refIndex < 0
    ensures Before(cpu, tr, ops0, nbOutputs, clobbers, p).Some?
    ensures forall i: nat, place :: !Decides(cpu, tr, ops0, nbOutputs, clobbers, p, i, place)
  {
    hide Links, RegisterCount, StartTable, Permutation, Ordered, RunAll, Linked;
    PermutationBelow(tr.order);
    var ops, t := tr.linked, StartTable(cpu, clobbers);
    p := 0;
    assert tr.order[..0] == [] && tr.order[..|tr.order|] == tr.order;
    RunNothing(cpu, ops, nbOutputs, t);
    while RunAll(cpu, ops, nbOutputs, t, tr.order[..p + 1]).Some?
      invariant p < |tr.order| && RunAll(cpu, ops, nbOutputs, t, tr.order[..p]).Some?
      decreases |tr.order| - p
    {
      p := p + 1;
    }
    RunLast(cpu, ops, nbOutputs, t, tr.order, p);
    var first := RunAll(cpu, ops, nbOutputs, t, tr.order[..p]).value;
    StuckStep(cpu, tr, ops0, nbOutputs, clobbers, p, first);
  }

  lemma StuckStep(cpu: Cpu, tr: Trace, ops0: seq<Operand>, nbOutputs: nat, clobbers: seq<bool>, p: nat,
                  first: Allocation)
    requires |clobbers| == RegisterCount(cpu) && Prepared(cpu, tr, ops0) && p < |tr.order|
    requires Before(cpu, tr, ops0, nbOutputs, clobbers, p) == Some(first)
    requires Follows(tr.linked, StartTable(cpu, clobbers), first) && first.ops[tr.order[p]] == tr.linked[tr.order[p]]
    requires Advance(cpu, first, nbOutputs, tr.order[p]) == None
    ensures tr.linked[tr.order[p]].refIndex < 0
    ensures forall i: nat, place :: !Decides(cpu, tr, ops0, nbOutputs, clobbers, p, i, place)
  {
    LinkedSame(cpu, ops0, tr.linked);
    var j := tr.order[p];
    var op, out := first.ops[j], j < nbOutputs;
    AdvanceIs(cpu, first, nbOutputs, j);
    hide Links, RegisterCount, StartTable, Permutation, Ordered, RunAll, Linked, Choose, First;
    var i := ChooseIs(cpu, op.constraint, op.value, out, StartMask(op, out), op.isRw, first.t);
  }

  lemma RunLast(cpu: Cpu, ops: seq<Operand>, nbOutputs: nat, t: seq<Mask>, order: seq<nat>, p: nat)
    requires Runnable(cpu, ops, t, order) && p < |order| && Permutation(order)
    requires RunAll(cpu, ops, nbOutputs, t, order[..p]).Some?
    ensures var first := RunAll(cpu, ops, nbOutputs, t, order[..p]).value;
      && Follows(ops, t, first) && (ops[order[p]].refIndex < 0 ==> first.ops[order[p]] == ops[order[p]])
      && (RunAll(cpu, ops, nbOutputs, t, order[..p + 1]) == None ==> Advance(cpu, first, nbOutputs, order[p]) == None)
  {
    hide Advance, Links, RegisterCount, SameRest, RunAll;
    NotYet(order, p);
    RunFollows(cpu, ops, nbOutputs, t, order[..p]);
    var first := RunAll(cpu, ops, nbOutputs, t, order[..p]).value;
    assert order[..p + 1][..p] == order[..p] && order[..p + 1][p..] == [order[p]] && [order[p]][1..] == [];
    RunSplit(cpu, ops, nbOutputs, t, order[..p + 1], p);
    RunAdvance(cpu, first.ops, nbOutputs, first.t, [order[p]]);
    AdvanceFollows(cpu, first, nbOutputs, order[p]);
    var next := Advance(cpu, first, nbOutputs, order[p]);
    if next.Some? {
      RunNothing(cpu, next.value.ops, nbOutputs, next.value.t);
    }
  }

  /** The registers that are never given: the stack pointer and the frame pointer. */
  lemma ReservedAre(cpu: Cpu, r: nat)
    ensures Reserved(cpu, r) <==> Name(cpu, r) in (if cpu.I386? then {"esp", "ebp"} else {"sp", "fp"})
  {
  }

  /** Operands with less choice come first: A, which takes two registers, before all; a letter with a part of
    * another's registers before that one; letters for one register alike; and letters that need no register last. */
  lemma PriorityOrder(cpu: Cpu, c: char, d: char)
    requires LetterPriority(cpu, c).Some? && LetterPriority(cpu, d).Some?
    ensures var m, n := LetterPriority(cpu, c).value, LetterPriority(cpu, d).value;
      var a, b := LetterNames(cpu, c), LetterNames(cpu, d);
      && (a == b ==> m == n || (cpu.I386? && (c == 'A' || d == 'A')))
      && (a != {} && a < b ==> m < n)
      && ((exists x, y :: a == {x} && b == {y}) ==> m == n)
      && (a != {} && b == {} && d != 'A' ==> m < n)
      && (cpu.I386? && c == 'A' && d != 'A' ==> m < n)
  {
    Singles(cpu, c);
    Singles(cpu, d);
  }

  lemma Singles(cpu: Cpu, c: char)
    ensures cpu.I386? ==> ((exists x :: LetterNames(cpu, c) == {x}) <==> c in {'a', 'b', 'c', 'd', 'S', 'D'})
    ensures cpu.Arm? ==> !(exists x :: LetterNames(cpu, c) == {x})
  {
    var s := LetterNames(cpu, c);
    if c in {'q', 'r', 'R', 'p'} && cpu.I386? {
      assert "eax" in s && "ebx" in s && "eax" != "ebx";
    } else if c in {'l', 'r', 'p'} && cpu.Arm? {
      assert "r0" in s && "r1" in s && "r0" != "r1";
    } else if s == {} {
      forall x: string
        ensures s != {x}
      {
        assert x in {x};
      }
    }
  }

  // References to other operands.

  predicate IsModifier(c: char) { c in {'=', '&', '+', '%'} }

  /** What is wanted is the constraint behind its n leading modifiers. */
  lemma {:induction false} WantedIs(s: string) returns (n: nat)
    ensures n <= |s| && SkipModifiers(s) == s[n..] && (n < |s| ==> !IsModifier(s[n]))
    ensures forall i :: 0 <= i < n ==> IsModifier(s[i])
  {
    assert s != "" ==> (SkipModifiers(s) == if IsModifier(s[0]) then SkipModifiers(s[1..]) else s);
    hide SkipModifiers, IsModifier;
    n := 0;
    if s == "" {
      NoModifiers();
    } else if IsModifier(s[0]) {
      var k := WantedIs(s[1..]);
      n := k + 1;
      assert s[1..][k..] == s[n..];
      forall i | 0 <= i < n
        ensures IsModifier(s[i])
      {
        assert i > 0 ==> s[i] == s[1..][i - 1];
      }
    } else {
      assert s[0..] == s;
    }
  }

  lemma NoModifiers()
    ensures SkipModifiers("") == ""
  {
  }

  function Digit(d: nat): char
    requires d < 10
  {
    '0' + d as char
  }

  function Decimal(n: nat): string {
    if n < 10 then [Digit(n)] else Decimal(n / 10) + [Digit(n % 10)]
  }

  lemma DigitIs(d: nat)
    requires d < 10
    ensures IsNum(Digit(d)) && Digit(d) as nat - '0' as nat == d
  {
  }

  lemma {:induction false} NumberOf(n: nat, rest: string)
    ensures Decimal(n) != "" && IsNum(Decimal(n)[0])
    ensures Number(Decimal(n) + rest, 0) == Number(rest, n)
  {
    hide IsNum, Digit;
    if n < 10 {
      DigitIs(n);
      assert ([Digit(n)] + rest)[1..] == rest;
    } else {
      var d := n % 10;
      DigitIs(d);
      NumberOf(n / 10, [Digit(d)] + rest);
      assert Decimal(n) + rest == Decimal(n / 10) + ([Digit(d)] + rest);
      assert ([Digit(d)] + rest)[1..] == rest;
    }
  }

  /** A reference by number, written in decimal, means the operand with that number. */
  lemma FindByNumber(ids: seq<Option<string>>, n: nat, rest: string)
    requires rest == "" || !IsNum(rest[0])
    ensures IsRef(Decimal(n) + rest) && FindConstraint(ids, Decimal(n) + rest) == if n < |ids| then Some(n) else None
  {
    NumberOf(n, rest);
    assert (Decimal(n) + rest)[0] == Decimal(n)[0];
    hide IsNum, Decimal;
    assert Number(rest, n) == n;
  }

  lemma {:induction false} NameEnds(name: string, rest: string)
    requires forall i :: 0 <= i < |name| ==> name[i] != ']'
    ensures NameLength(name + "]" + rest) == Some(|name|)
  {
    var s := name + "]" + rest;
    if name != "" {
      NameEnds(name[1..], rest);
      assert s[1..] == name[1..] + "]" + rest;
    }
  }

  lemma {:induction false} FirstId(ids: seq<Option<string>>, name: string, i: nat)
    requires i <= |ids|
    ensures match ById(ids, name, i)
      case None => forall k :: i <= k < |ids| ==> ids[k] != Some(name)
      case Some(j) => i <= j < |ids| && ids[j] == Some(name) && forall k :: i <= k < j ==> ids[k] != Some(name)
    decreases |ids| - i
  {
    if i < |ids| && ids[i] != Some(name) {
      FirstId(ids, name, i + 1);
    }
  }

  /** A reference by name means the first operand of that name. */
  lemma FindByName(ids: seq<Option<string>>, name: string, rest: string)
    requires forall i :: 0 <= i < |name| ==> name[i] != ']'
    ensures var s := "[" + name + "]" + rest;
      IsRef(s) && match FindConstraint(ids, s)
      case None => forall k :: 0 <= k < |ids| ==> ids[k] != Some(name)
      case Some(j) => j < |ids| && ids[j] == Some(name) && forall k :: 0 <= k < j ==> ids[k] != Some(name)
  {
    var s := "[" + name + "]" + rest;
    assert s[0] == '[' && s[1..] == name + "]" + rest;
    NameEnds(name, rest);
    assert s[1..1 + |name|] == name;
    FirstId(ids, name, 0);
    hide NameLength, ById;
  }
}
