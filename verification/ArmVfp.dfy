/** Assigning the VFP registers s0 to s15 to float and double arguments: a counter and a queue of holes find what a
  * search would. */
module ArmVfp {
  import opened Binary

  /** A float, a double or an array of either. */
  datatype Request = Request(align: nat, size: nat)

  predicate Legal(q: Request) {
    (q.align == 4 || q.align == 8) && q.size > 0 && q.size % q.align == 0
  }

  function Regs(q: Request): nat { q.size / 4 }

  /** Registers r to r + n - 1 are free and r is aligned. */
  predicate Free(used: set<nat>, align: nat, n: nat, r: nat) {
    (align == 8 ==> r % 2 == 0) && r + n <= 16 && forall k :: r <= k < r + n ==> k !in used
  }

  /** The first suitable register from r on. */
  function Lowest(used: set<nat>, align: nat, n: nat, r: nat): Option<nat>
    decreases 16 - r
  {
    if r + n > 16 || r >= 16 then None
    else if Free(used, align, n, r) then Some(r)
    else Lowest(used, align, n, r + 1)
  }

  lemma {:induction false} LowestIs(used: set<nat>, align: nat, n: nat, r: nat)
    requires n > 0
    ensures Lowest(used, align, n, r).None? ==> forall k: nat :: k >= r ==> !Free(used, align, n, k)
    ensures var x := Lowest(used, align, n, r); x.Some? ==>
      x.value >= r && Free(used, align, n, x.value) && forall k: nat :: r <= k < x.value ==> !Free(used, align, n, k)
    decreases 16 - r
  {
    if r + n > 16 {
    } else if !Free(used, align, n, r) {
      LowestIs(used, align, n, r + 1);
    }
  }

  function Block(r: nat, n: nat): (s: set<nat>)
    ensures forall x :: x in s <==> r <= x < r + n
  {
    if n == 0 then {} else Block(r, n - 1) + {r + n - 1}
  }

  /** The registers handed out, and whether an argument has gone to the stack. */
  datatype State = State(used: set<nat>, spilled: bool)

  function Answer(s: State, q: Request): Option<nat> {
    if s.spilled then None else Lowest(s.used, q.align, Regs(q), 0)
  }

  function After(s: State, q: Request): State {
    match Answer(s, q)
    case None => s.(spilled := true)
    case Some(r) => s.(used := s.used + Block(r, Regs(q)))
  }

  /** Register x is one of the recorded holes. */
  ghost predicate Hole(avail: seq<int>, lo: nat, hi: nat, x: nat) {
    exists k :: lo <= k < hi <= |avail| && avail[k] == x
  }

  /** The holes are odd, increasing and followed by a double. */
  ghost predicate HolesOk(avail: seq<int>, lo: nat, hi: nat, ff: int)
    requires hi <= |avail|
  {
    && (forall k :: lo <= k < hi ==> 0 < avail[k] && avail[k] + 1 < ff && avail[k] % 2 == 1)
    && (forall j, k :: lo <= j < k < hi ==> avail[j] < avail[k])
  }

  /** Everything below ff is used but the holes. */
  ghost predicate Filled(avail: seq<int>, lo: nat, hi: nat, ff: int, used: set<nat>) {
    forall x: nat :: x in used <==> x < ff && !Hole(avail, lo, hi, x)
  }

  ghost predicate Counted(avail: seq<int>, lo: nat, hi: nat, ff: int, used: set<nat>) {
    |avail| == 4 && hi <= 4 && 4 * hi + ff % 2 <= ff && HolesOk(avail, lo, hi, ff) && Filled(avail, lo, hi, ff, used)
  }

  lemma Spilled(s: State, q: Request)
    requires s.spilled
    ensures Answer(s, q).None? && After(s, q) == s
  {
  }

  lemma FoundAt(s: State, q: Request, r: nat)
    requires Legal(q) && !s.spilled && Free(s.used, q.align, Regs(q), r)
    requires forall k: nat :: k < r ==> !Free(s.used, q.align, Regs(q), k)
    ensures Answer(s, q) == Some(r) && After(s, q) == State(s.used + Block(r, Regs(q)), false)
  {
    hide Free, Lowest;
    LowestIs(s.used, q.align, Regs(q), 0);
  }

  lemma NotFound(s: State, q: Request)
    requires Legal(q) && !s.spilled && forall k: nat :: !Free(s.used, q.align, Regs(q), k)
    ensures Answer(s, q) == None && After(s, q) == State(s.used, true)
  {
    hide Free, Lowest;
    LowestIs(s.used, q.align, Regs(q), 0);
  }

  /** Below the counter only holes are free, and only one at a time. */
  lemma NoneBelow(avail: seq<int>, lo: nat, hi: nat, ff: int, used: set<nat>, q: Request, r: nat)
    requires Counted(avail, lo, hi, ff, used) && Legal(q) && r < ff
    ensures Free(used, q.align, Regs(q), r) ==> q.align == 4 && Regs(q) == 1 && Hole(avail, lo, hi, r)
  {
    if Free(used, q.align, Regs(q), r) {
      assert r !in used;
      assert Regs(q) > 1 ==> r + 1 !in used;
    }
  }

  /** A double goes to the counter, rounded up; an odd counter becomes a hole. */
  lemma DoubleNext(avail: seq<int>, lo: nat, hi: nat, ff: int, s: State, q: Request)
    requires Counted(avail, lo, hi, ff, s.used) && Legal(q) && q.align == 8 && !s.spilled && lo <= hi && ff <= 16
    ensures ff % 2 == 1 ==> hi < 4
    ensures var av, h, fr := if ff % 2 == 1 then avail[hi := ff] else avail, hi + ff % 2, ff + ff % 2;
      if fr + Regs(q) <= 16 then
        Answer(s, q) == Some(fr) && !After(s, q).spilled && Counted(av, lo, h, fr + Regs(q), After(s, q).used)
      else
        Answer(s, q) == None && After(s, q).spilled
  {
    hide Answer, After;
    assert Regs(q) >= 2 && Regs(q) % 2 == 0;
    var fr: nat := ff + ff % 2;
    forall k: nat | k < fr ensures !Free(s.used, 8, Regs(q), k) {
      if k < ff {
        NoneBelow(avail, lo, hi, ff, s.used, q, k);
      }
    }
    if fr + Regs(q) <= 16 {
      assert Free(s.used, 8, Regs(q), fr);
      FoundAt(s, q, fr);
      HoleCounted(avail, lo, hi, ff, s.used, Regs(q));
    } else {
      NotFound(s, q);
    }
  }

  lemma HoleCounted(avail: seq<int>, lo: nat, hi: nat, ff: int, used: set<nat>, n: nat)
    requires Counted(avail, lo, hi, ff, used) && lo <= hi && n >= 2 && n % 2 == 0 && ff + ff % 2 + n <= 16
    ensures var fr: nat := ff + ff % 2;
      if ff % 2 == 1 then hi < 4 && Counted(avail[hi := ff], lo, hi + 1, fr + n, used + Block(fr, n))
      else Counted(avail, lo, hi, fr + n, used + Block(fr, n))
  {
    hide Hole, HolesOk, Filled;
    var fr: nat := ff + ff % 2;
    assert (fr + n) % 2 == 0;
    if ff % 2 == 1 {
      HolesOkNext(avail, lo, hi, ff, fr + n);
      FilledHole(avail, lo, hi, ff, used, n);
    } else {
      HolesOkMore(avail, lo, hi, ff, fr + n);
      FilledMore(avail, lo, hi, ff, used, n);
    }
  }

  lemma HolesOkMore(avail: seq<int>, lo: nat, hi: nat, ff: int, more: int)
    requires hi <= |avail| && HolesOk(avail, lo, hi, ff) && ff <= more
    ensures HolesOk(avail, lo, hi, more)
  {
  }

  lemma HolesOkNext(avail: seq<int>, lo: nat, hi: nat, ff: int, more: int)
    requires lo <= hi < |avail| && HolesOk(avail, lo, hi, ff) && ff % 2 == 1 && 0 < ff && ff + 1 < more
    ensures HolesOk(avail[hi := ff], lo, hi + 1, more)
  {
  }

  lemma FilledMore(avail: seq<int>, lo: nat, hi: nat, ff: nat, used: set<nat>, n: nat)
    requires hi <= |avail| && Filled(avail, lo, hi, ff, used) && HolesOk(avail, lo, hi, ff)
    ensures Filled(avail, lo, hi, ff + n, used + Block(ff, n))
  {
    HolesBelow(avail, lo, hi, ff);
    hide Hole, HolesOk;
  }

  lemma FilledHole(avail: seq<int>, lo: nat, hi: nat, ff: nat, used: set<nat>, n: nat)
    requires lo <= hi < |avail| && Filled(avail, lo, hi, ff, used) && HolesOk(avail, lo, hi, ff)
    ensures Filled(avail[hi := ff], lo, hi + 1, ff + 1 + n, used + Block(ff + 1, n))
  {
    hide Hole, HolesOk;
    HolesBelow(avail, lo, hi, ff);
    OneMoreHole(avail, lo, hi, ff);
    var av, u := avail[hi := ff], used + Block(ff + 1, n);
    forall x: nat
      ensures x in u <==> x < ff + 1 + n && !Hole(av, lo, hi + 1, x)
    {
      assert Hole(av, lo, hi + 1, x) <==> Hole(avail, lo, hi, x) || x == ff;
      assert x in used <==> x < ff && !Hole(avail, lo, hi, x);
    }
  }

  lemma HolesBelow(avail: seq<int>, lo: nat, hi: nat, ff: int)
    requires hi <= |avail| && HolesOk(avail, lo, hi, ff)
    ensures forall x: nat :: Hole(avail, lo, hi, x) ==> x < ff
  {
  }

  lemma OneMoreHole(avail: seq<int>, lo: nat, hi: nat, ff: int)
    requires lo <= hi < |avail|
    ensures forall x: nat :: Hole(avail[hi := ff], lo, hi + 1, x) <==> Hole(avail, lo, hi, x) || x == ff
  {
    var av := avail[hi := ff];
    forall x: nat
      ensures Hole(av, lo, hi + 1, x) <==> Hole(avail, lo, hi, x) || x == ff
    {
      if Hole(avail, lo, hi, x) {
        var k :| lo <= k < hi <= |avail| && avail[k] == x;
        assert av[k] == x;
      }
      if x == ff {
        assert av[hi] == x;
      }
      if Hole(av, lo, hi + 1, x) && x != ff {
        var k :| lo <= k < hi + 1 <= |av| && av[k] == x;
        assert avail[k] == x;
      }
    }
  }

  lemma HoleNext(avail: seq<int>, lo: nat, hi: nat, ff: int, s: State, q: Request)
    requires Counted(avail, lo, hi, ff, s.used) && Legal(q) && q.align == 4 && q.size == 4 && !s.spilled && lo < hi
    requires ff <= 16
    ensures avail[lo] >= 0 && Answer(s, q) == Some(avail[lo]) && !After(s, q).spilled && avail[lo] < ff
    ensures Counted(avail, lo + 1, hi, ff, After(s, q).used)
  {
    var r := avail[lo];
    forall k: nat | k < r ensures !Free(s.used, 4, 1, k) {
      NoneBelow(avail, lo, hi, ff, s.used, q, k);
    }
    assert Hole(avail, lo, hi, r);
    FoundAt(s, q, r);
    assert Block(r, 1) == {r};
    hide Answer, After, Legal;
    forall x: nat ensures x in After(s, q).used <==> x < ff && !Hole(avail, lo + 1, hi, x) {
    }
  }

  /** A float with no hole to take, or a longer array of floats, goes to the counter. */
  lemma RunNext(avail: seq<int>, lo: nat, hi: nat, ff: int, s: State, q: Request)
    requires Counted(avail, lo, hi, ff, s.used) && Legal(q) && q.align == 4 && (q.size != 4 || lo == hi) && !s.spilled
    requires ff <= 16
    ensures if ff + Regs(q) <= 16 then
        Answer(s, q) == Some(ff) && !After(s, q).spilled && Counted(avail, lo, hi, ff + Regs(q), After(s, q).used)
      else
        Answer(s, q) == None && After(s, q).spilled
  {
    hide Answer, After;
    assert q.size == 4 * Regs(q);
    forall k: nat | k < ff ensures !Free(s.used, 4, Regs(q), k) {
      NoneBelow(avail, lo, hi, ff, s.used, q, k);
    }
    if ff + Regs(q) <= 16 {
      assert Free(s.used, 4, Regs(q), ff);
      FoundAt(s, q, ff);
    } else {
      NotFound(s, q);
    }
  }

  /** The places in the hole queue and the next register, -1 after a spill. */
  datatype Counters = Counters(first: nat, last: nat, ff: int)

  /** The request is aligned to 8 and the next register is odd. */
  predicate SkipsOne(c: Counters, q: Request) { c.ff != -1 && c.ff % 2 == 1 && q.align == 8 }

  /** What a request does to the counters. */
  function Count(c: Counters, q: Request): Counters {
    if c.ff == -1 then c
    else if q.align == 4 && q.size == 4 && c.first != c.last then c.(first := c.first + 1)
    else
      var odd := if SkipsOne(c, q) then 1 else 0;
      var next := c.ff + odd + Regs(q);
      Counters(c.first, c.last + odd, if next <= 16 then next else -1)
  }

  class AvailRegs {
    var avail: array<int>
    var firstHole: nat
    var lastHole: nat
    var firstFreeReg: int
    ghost var state: State
    /** The requests so far. */
    ghost var requests: seq<Request>

    ghost predicate Valid()
      reads this, avail
    {
      && avail.Length == 4 && firstHole <= lastHole <= 4
      && -1 <= firstFreeReg <= 16
      && (firstFreeReg == -1 <==> state.spilled)
      && (firstFreeReg != -1 ==> Counted(avail[..], firstHole, lastHole, firstFreeReg, state.used))
      && state == StateAfter(requests) && Counters(firstHole, lastHole, firstFreeReg) == CountersAfter(requests)
    }

    constructor ()
      ensures Valid() && requests == [] && fresh(avail)
    {
      avail := new int[4](_ => 0);
      firstHole, lastHole, firstFreeReg := 0, 0, 0;
      state, requests := State({}, false), [];
    }

    /** The register for a request, or -1 for the stack. */
    method AssignVfpReg(align: nat, size: nat) returns (r: int)
      requires Valid() && Legal(Request(align, size))
      modifies this, avail
      ensures Valid() && avail == old(avail)
      ensures requests == old(requests) + [Request(align, size)]
      ensures r == match AnswerAt(requests, |requests| - 1) case None => -1 case Some(x) => x
    {
      ghost var q := Request(align, size);
      hide Counted, Answer, Block, StateAfter, CountersAfter;
      HistoryNext(requests, q);
      requests := requests + [q];
      if firstFreeReg == -1 {
        Spilled(state, q);
        return -1;
      }
      var firstReg := firstFreeReg;
      ghost var next := After(state, q);
      if align / 8 != 0 {
        DoubleNext(avail[..], firstHole, lastHole, firstFreeReg, state, q);
        if firstReg % 2 == 1 {
          avail[lastHole] := firstReg;
          lastHole := lastHole + 1;
          firstReg := firstReg + 1;
        }
      } else if size == 4 && firstHole != lastHole {
        HoleNext(avail[..], firstHole, lastHole, firstFreeReg, state, q);
        r := avail[firstHole];
        firstHole := firstHole + 1;
        state := next;
        return;
      } else {
        RunNext(avail[..], firstHole, lastHole, firstFreeReg, state, q);
      }
      if firstReg + size / 4 <= 16 {
        firstFreeReg := firstReg + size / 4;
        state := next;
        return firstReg;
      }
      state := next;
      firstFreeReg := -1;
      return -1;
    }
  }

  /** What the search answers to a list of requests. */
  ghost function StateAfter(qs: seq<Request>): State {
    if qs == [] then State({}, false) else After(StateAfter(qs[..|qs| - 1]), qs[|qs| - 1])
  }

  ghost function CountersAfter(qs: seq<Request>): Counters {
    if qs == [] then Counters(0, 0, 0) else Count(CountersAfter(qs[..|qs| - 1]), qs[|qs| - 1])
  }

  lemma HistoryNext(qs: seq<Request>, q: Request)
    ensures StateAfter(qs + [q]) == After(StateAfter(qs), q) && CountersAfter(qs + [q]) == Count(CountersAfter(qs), q)
    ensures AnswerAt(qs + [q], |qs|) == Answer(StateAfter(qs), q)
  {
    assert (qs + [q])[..|qs|] == qs;
  }

  ghost function AnswerAt(qs: seq<Request>, i: nat): Option<nat>
    requires i < |qs|
  {
    Answer(StateAfter(qs[..i]), qs[i])
  }

  /** The registers that request i got. */
  ghost function Got(qs: seq<Request>, i: nat): set<nat>
    requires i < |qs|
  {
    match AnswerAt(qs, i)
    case None => {}
    case Some(r) => Block(r, Regs(qs[i]))
  }

  lemma StateNext(qs: seq<Request>, i: nat)
    requires i < |qs|
    ensures StateAfter(qs[..i + 1]) == After(StateAfter(qs[..i]), qs[i])
  {
    assert qs[..i + 1][..i] == qs[..i];
  }

  lemma {:induction false} UsedGrows(qs: seq<Request>, i: nat, j: nat)
    requires i < j <= |qs|
    ensures var s, t := StateAfter(qs[..i]), StateAfter(qs[..j]);
      t.used >= s.used + Got(qs, i) && (s.spilled || AnswerAt(qs, i).None? ==> t.spilled)
    decreases j
  {
    hide Answer;
    StateNext(qs, j - 1);
    if i < j - 1 {
      UsedGrows(qs, i, j - 1);
    }
    hide StateAfter;
  }

  /** What a request gets are the registers of four bytes that its size fills. */
  lemma GotIs(qs: seq<Request>, j: nat, x: nat)
    requires j < |qs| && Legal(qs[j])
    ensures x in Got(qs, j) <==>
      AnswerAt(qs, j).Some? && AnswerAt(qs, j).value <= x && 4 * (x - AnswerAt(qs, j).value) < qs[j].size
  {
    hide AnswerAt;
    assert 4 * Regs(qs[j]) == qs[j].size;
    hide Regs, Legal;
  }

  /** No register is handed out twice, every block is aligned and within s0 to s15, and after one spill there are only
    * spills. */
  lemma Exclusive(qs: seq<Request>, i: nat, j: nat)
    requires i < j < |qs| && forall k :: 0 <= k < |qs| ==> Legal(qs[k])
    ensures Got(qs, i) !! Got(qs, j)
    ensures AnswerAt(qs, i).None? ==> AnswerAt(qs, j).None?
    ensures AnswerAt(qs, j).Some? ==>
      var r := AnswerAt(qs, j).value; r + Regs(qs[j]) <= 16 && (qs[j].align == 8 ==> r % 2 == 0)
  {
    UsedGrows(qs, i, j);
    LowestIs(StateAfter(qs[..j]).used, qs[j].align, Regs(qs[j]), 0);
    hide StateAfter;
  }

  /** Register pairs are counted four registers to a hole. */
  predicate Bounded(c: Counters) {
    c.last <= 4 && -1 <= c.ff <= 16 && (c.ff != -1 ==> 4 * c.last + c.ff % 2 <= c.ff)
  }

  lemma CountBounded(c: Counters, q: Request)
    requires Bounded(c) && Legal(q)
    ensures Bounded(Count(c, q)) && Count(c, q).last == c.last + if SkipsOne(c, q) then 1 else 0
  {
    assert q.align == 8 ==> Regs(q) >= 2 && Regs(q) % 2 == 0;
  }

  /** How many requests aligned to 8 came at an odd register. */
  ghost function Skips(qs: seq<Request>): nat {
    if qs == [] then 0
    else
      var was := qs[..|qs| - 1];
      Skips(was) + if SkipsOne(CountersAfter(was), qs[|qs| - 1]) then 1 else 0
  }

  /** As many holes are recorded as requests skip a register, and never a fifth. */
  lemma {:induction false} HolesAre(qs: seq<Request>)
    requires forall k :: 0 <= k < |qs| ==> Legal(qs[k])
    ensures CountersAfter(qs).last == Skips(qs) && Bounded(CountersAfter(qs))
  {
    assert Bounded(Counters(0, 0, 0));
    hide Count, SkipsOne, Bounded;
    if qs != [] {
      var was := qs[..|qs| - 1];
      HolesAre(was);
      CountBounded(CountersAfter(was), qs[|qs| - 1]);
    }
  }

  /** A request records the fourth hole exactly if it is aligned to 8 and comes at an odd register behind three holes;
    * over a list there is a fourth hole exactly if four requests skipped a register. */
  lemma FourthHole(qs: seq<Request>, q: Request)
    requires Legal(q) && forall k :: 0 <= k < |qs| ==> Legal(qs[k])
    ensures var c := CountersAfter(qs);
      && c.last <= 4
      && (CountersAfter(qs + [q]).last == 4 <==>
          c.last == 4 || (c.last == 3 && c.ff != -1 && c.ff % 2 == 1 && q.align == 8))
    ensures CountersAfter(qs).last == 4 <==> Skips(qs) == 4
  {
    HolesAre(qs);
    HistoryNext(qs, q);
    CountBounded(CountersAfter(qs), q);
    hide CountersAfter, Count;
  }

  lemma NoRequests()
    ensures CountersAfter([]) == Counters(0, 0, 0)
  {
  }

  /** One more request, in terms of the counters. */
  method Next(v: AvailRegs, align: nat, size: nat) returns (r: int)
    requires v.Valid() && Legal(Request(align, size))
    modifies v, v.avail
    ensures v.Valid() && v.avail == old(v.avail)
    ensures CountersAfter(v.requests) == Count(old(CountersAfter(v.requests)), Request(align, size))
  {
    HistoryNext(v.requests, Request(align, size));
    r := v.AssignVfpReg(align, size);
  }

  /** A float, a double, and three times two floats and a double: the queue needs a fourth entry. */
  method FourHoles() returns (holes: nat)
    ensures holes == 4
  {
    hide Answer, After, Lowest, StateAfter, CountersAfter, Counted, AnswerAt;
    NoRequests();
    var v := new AvailRegs();
    var r := Next(v, 4, 4);
    r := Next(v, 8, 8);
    var i := 0;
    while i < 3
      invariant 0 <= i <= 3 && fresh(v) && fresh(v.avail) && v.Valid()
      invariant CountersAfter(v.requests) == Counters(i, i + 1, 4 * i + 4)
    {
      r := Next(v, 4, 4);
      r := Next(v, 4, 4);
      r := Next(v, 8, 8);
      i := i + 1;
    }
    holes := v.lastHole;
  }
}
