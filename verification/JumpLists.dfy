/** Lists of unresolved jumps that are threaded through the fields of the jumps themselves. */
module JumpLists {
  import opened Bytes

  datatype Target = Arm | A64 | I386

  const M26: nat := 0x400_0000

  /** x as a two's complement number of half * 2 values. */
  function SignExtend(x: nat, half: nat): int
    requires x < 2 * half
  {
    if x < half then x else x - 2 * half
  }

  /** The link that the field w at p holds: relative on ARM, the number itself elsewhere. */
  function Link(tgt: Target, w: nat, p: int): int {
    if tgt.Arm? then SignExtend(w % M24, 0x80_0000) * 4 + p + 8 else w
  }

  /** The word or field w at p transfers control to a. */
  predicate Reaches(tgt: Target, w: nat, p: int, a: int) {
    match tgt
    case Arm =>
      (w == 0xe1a0_0000 && a == p + 4) ||
      (w / M24 % 16 == 10 && a == SignExtend(w % M24, 0x80_0000) * 4 + p + 8)
    case A64 =>
      (w == 0xd503_201f && a == p + 4) || (w / M26 == 5 && a == p + 4 * SignExtend(w % M26, 0x200_0000))
    case I386 => (p + 4 + w) % M32 == a % M32
  }

  /** p can hold a jump field of d. */
  predicate Slot(tgt: Target, d: seq<byte>, p: int) {
    0 < p && p + 4 <= |d| && (tgt != I386 ==> p % 4 == 0)
  }

  predicate Distinct(ps: seq<int>) {
    forall i, j :: 0 <= i < j < |ps| ==> ps[i] != ps[j]
  }

  /** The fields at ps link one to the next and the last one to 0. */
  predicate Chain(tgt: Target, d: seq<byte>, ps: seq<int>) {
    forall i :: 0 <= i < |ps| ==>
      LinkedAt(tgt, d, ps[i], Next(ps, i))
  }

  predicate LinkedAt(tgt: Target, d: seq<byte>, p: int, next: int) {
    Slot(tgt, d, p) && LinksTo(tgt, Word(d, p), p, next)
  }

  function Next(ps: seq<int>, i: nat): int {
    if i + 1 < |ps| then ps[i + 1] else 0
  }

  /** An unresolved jump word: on ARM it is a branch already. */
  predicate LinksTo(tgt: Target, w: nat, p: int, next: int) {
    Link(tgt, w, p) == next && (tgt.Arm? ==> w / M24 % 16 == 10)
  }

  /** Where a jump is: in the list with that head, or resolved to that address. */
  datatype Place = InList(head: int) | Goes(to: int)

  datatype Jumps = Jumps(lists: map<int, seq<int>>, place: map<int, Place>)

  const NO_JUMPS := Jumps(map[], map[])

  /** The list that starts at t; 0 is the empty list. */
  function ListOf(s: Jumps, t: int): seq<int> {
    if t in s.lists then s.lists[t] else []
  }

  predicate IsHead(s: Jumps, t: int) {
    t == 0 || t in s.lists
  }

  /** ps is a proper list whose jumps know its head. */
  ghost predicate ListOk(tgt: Target, d: seq<byte>, s: Jumps, h: int, ps: seq<int>) {
    |ps| > 0 && ps[0] == h && Distinct(ps) && Chain(tgt, d, ps) &&
    forall i :: 0 <= i < |ps| ==> ps[i] in s.place && s.place[ps[i]] == InList(h)
  }

  ghost predicate ListsOk(tgt: Target, d: seq<byte>, s: Jumps) {
    forall h :: h in s.lists ==> ListOk(tgt, d, s, h, s.lists[h])
  }

  ghost predicate PlaceOk(tgt: Target, d: seq<byte>, s: Jumps, p: int, at: Place) {
    Slot(tgt, d, p) &&
    (at.InList? ==> at.head in s.lists && p in s.lists[at.head]) &&
    (at.Goes? ==> Reaches(tgt, Word(d, p), p, at.to))
  }

  ghost predicate PlacesOk(tgt: Target, d: seq<byte>, s: Jumps) {
    forall p :: p in s.place ==> PlaceOk(tgt, d, s, p, s.place[p])
  }

  ghost predicate Spaced(s: Jumps) {
    forall p, q :: p in s.place && q in s.place && p < q ==> p + 4 <= q
  }

  /** Every jump is in exactly one well-formed list or transfers to the address it was resolved to. */
  ghost predicate Inv(tgt: Target, d: seq<byte>, s: Jumps) {
    ListsOk(tgt, d, s) && PlacesOk(tgt, d, s) && Spaced(s)
  }

  lemma AtList(tgt: Target, d: seq<byte>, s: Jumps, h: int)
    requires Inv(tgt, d, s) && h in s.lists
    ensures ListOk(tgt, d, s, h, s.lists[h])
  {
    hide ListOk, PlacesOk, Spaced;
  }

  lemma AtPlace(tgt: Target, d: seq<byte>, s: Jumps, p: int)
    requires Inv(tgt, d, s) && p in s.place
    ensures PlaceOk(tgt, d, s, p, s.place[p])
  {
    hide PlaceOk, ListsOk, Spaced;
  }

  /** A new jump at r in front of list t. */
  function Push(s: Jumps, r: int, t: int): Jumps {
    Jumps((map h | h in s.lists && h != t :: s.lists[h])[r := [r] + ListOf(s, t)],
          (map p | p in s.place :: if s.place[p] == InList(t) then InList(r) else s.place[p])[r := InList(r)])
  }

  /** List t behind list n. */
  function Join(s: Jumps, n: int, t: int): Jumps {
    Jumps((map h | h in s.lists && h != t :: s.lists[h])[n := ListOf(s, n) + ListOf(s, t)],
          map p | p in s.place :: if s.place[p] == InList(t) then InList(n) else s.place[p])
  }

  /** All jumps of list t resolved, each to the address that its patched word reaches. */
  function Resolve(s: Jumps, t: int, landing: int -> int): Jumps {
    Jumps(map h | h in s.lists && h != t :: s.lists[h],
          map p | p in s.place :: if s.place[p] == InList(t) then Goes(landing(p)) else s.place[p])
  }

  /** e is d except inside the fields at ps. */
  ghost predicate SameOutside(d: seq<byte>, e: seq<byte>, ps: seq<int>) {
    |e| == |d| && forall i :: 0 <= i < |d| && Outside(ps, i) ==> e[i] == d[i]
  }

  predicate Outside(ps: seq<int>, i: int) {
    forall k :: 0 <= k < |ps| ==> i < ps[k] || ps[k] + 4 <= i
  }

  lemma SameWord(d: seq<byte>, e: seq<byte>, ps: seq<int>, q: int)
    requires SameOutside(d, e, ps) && 0 <= q && q + 4 <= |d|
    requires forall k :: 0 <= k < |ps| ==> q + 4 <= ps[k] || ps[k] + 4 <= q
    ensures Word(e, q) == Word(d, q)
  {
    forall j | q <= j < q + 4
      ensures e[j] == d[j]
    {
      assert Outside(ps, j);
    }
  }

  /** A list survives a change of the buffer that spares its words. */
  lemma ChainFrame(tgt: Target, d: seq<byte>, e: seq<byte>, ps: seq<int>)
    requires Chain(tgt, d, ps)
    requires forall i :: 0 <= i < |ps| ==> Slot(tgt, e, ps[i]) && Word(e, ps[i]) == Word(d, ps[i])
    ensures Chain(tgt, e, ps)
  {
  }

  lemma PrefixFrame(tgt: Target, d: seq<byte>, e: seq<byte>, p: int)
    requires d <= e && Slot(tgt, d, p)
    ensures Slot(tgt, e, p) && Word(e, p) == Word(d, p)
  {
  }

  lemma PushKeeps(tgt: Target, d: seq<byte>, e: seq<byte>, s: Jumps, r: int, t: int)
    requires Inv(tgt, d, s) && IsHead(s, t)
    requires d <= e && |d| <= r && LinkedAt(tgt, e, r, t)
    ensures Inv(tgt, e, Push(s, r, t))
  {
    var s' := Push(s, r, t);
    forall h | h in s'.lists ensures ListOk(tgt, e, s', h, s'.lists[h]) {
      if h == r {
        PushList(tgt, d, e, s, r, t);
      } else {
        PushOther(tgt, d, e, s, r, t, h);
      }
    }
    forall p | p in s'.place ensures PlaceOk(tgt, e, s', p, s'.place[p]) {
      PushPlace(tgt, d, e, s, r, t, p);
    }
  }

  lemma ChainCons(tgt: Target, e: seq<byte>, r: int, ps: seq<int>, t: int)
    requires Chain(tgt, e, ps) && LinkedAt(tgt, e, r, t)
    requires t == if |ps| > 0 then ps[0] else 0
    ensures Chain(tgt, e, [r] + ps)
  {
    hide Word, LinksTo;
    var qs := [r] + ps;
    forall i | 0 <= i < |qs| ensures LinkedAt(tgt, e, qs[i], Next(qs, i)) {
      if i > 0 {
        assert qs[i] == ps[i - 1] && Next(qs, i) == Next(ps, i - 1);
      }
    }
  }

  lemma PushList(tgt: Target, d: seq<byte>, e: seq<byte>, s: Jumps, r: int, t: int)
    requires Inv(tgt, d, s) && IsHead(s, t)
    requires d <= e && |d| <= r && LinkedAt(tgt, e, r, t)
    ensures ListOk(tgt, e, Push(s, r, t), r, [r] + ListOf(s, t))
  {
    hide Word, LinksTo, Reaches;
    var ps := ListOf(s, t);
    if t in s.lists {
      assert ListOk(tgt, d, s, t, ps);
    }
    forall i | 0 <= i < |ps| ensures Slot(tgt, e, ps[i]) && Word(e, ps[i]) == Word(d, ps[i]) && ps[i] < r {
      PrefixFrame(tgt, d, e, ps[i]);
    }
    ChainFrame(tgt, d, e, ps);
    HeadsPositive(tgt, d, s);
    ChainCons(tgt, e, r, ps, t);
    hide Chain;
  }

  lemma HeadsPositive(tgt: Target, d: seq<byte>, s: Jumps)
    requires Inv(tgt, d, s)
    ensures forall h :: h in s.lists ==> h > 0
  {
    forall h | h in s.lists ensures h > 0 {
      assert ListOk(tgt, d, s, h, s.lists[h]);
    }
  }

  lemma PushOther(tgt: Target, d: seq<byte>, e: seq<byte>, s: Jumps, r: int, t: int, h: int)
    requires Inv(tgt, d, s) && IsHead(s, t) && d <= e && |d| <= r && h in s.lists && h != t
    ensures ListOk(tgt, e, Push(s, r, t), h, s.lists[h])
  {
    hide Word, LinksTo, Reaches;
    var ps := s.lists[h];
    assert ListOk(tgt, d, s, h, ps);
    forall i | 0 <= i < |ps| ensures Slot(tgt, e, ps[i]) && Word(e, ps[i]) == Word(d, ps[i]) {
      PrefixFrame(tgt, d, e, ps[i]);
    }
    ChainFrame(tgt, d, e, ps);
  }

  lemma PushPlace(tgt: Target, d: seq<byte>, e: seq<byte>, s: Jumps, r: int, t: int, p: int)
    requires Inv(tgt, d, s) && IsHead(s, t)
    requires d <= e && |d| <= r && Slot(tgt, e, r)
    requires p in Push(s, r, t).place
    ensures PlaceOk(tgt, e, Push(s, r, t), p, Push(s, r, t).place[p])
  {
    hide Word, LinksTo, Reaches, ListsOk, PlacesOk, Spaced;
    if p in s.place {
      AtPlace(tgt, d, s, p);
      PrefixFrame(tgt, d, e, p);
      if s.place[p].InList? {
        AtList(tgt, d, s, s.place[p].head);
      }
    }
  }

  /** Writing inside the fields at ps leaves every other jump alone. */
  lemma OtherWord(tgt: Target, d: seq<byte>, e: seq<byte>, s: Jumps, ps: seq<int>, q: int)
    requires Inv(tgt, d, s) && SameOutside(d, e, ps) && q in s.place && q !in ps
    requires forall i :: 0 <= i < |ps| ==> ps[i] in s.place
    ensures Slot(tgt, d, q) && Slot(tgt, e, q) && Word(e, q) == Word(d, q)
  {
    assert PlaceOk(tgt, d, s, q, s.place[q]);
    forall i | 0 <= i < |ps| ensures q + 4 <= ps[i] || ps[i] + 4 <= q {
      assert ps[i] in s.place && q != ps[i];
    }
    SameWord(d, e, ps, q);
  }

  lemma ChainJoin(tgt: Target, e: seq<byte>, xs: seq<int>, ys: seq<int>)
    requires |xs| > 0 && Chain(tgt, e, ys)
    requires forall i :: 0 <= i < |xs| - 1 ==> LinkedAt(tgt, e, xs[i], Next(xs, i))
    requires LinkedAt(tgt, e, xs[|xs| - 1], if |ys| > 0 then ys[0] else 0)
    ensures Chain(tgt, e, xs + ys)
  {
    hide Word, LinksTo;
    var qs := xs + ys;
    forall i | 0 <= i < |qs| ensures LinkedAt(tgt, e, qs[i], Next(qs, i)) {
      if i >= |xs| {
        assert qs[i] == ys[i - |xs|] && Next(qs, i) == Next(ys, i - |xs|);
      } else if i < |xs| - 1 {
        assert Next(qs, i) == xs[i + 1];
      }
    }
  }

  lemma JoinKeeps(tgt: Target, d: seq<byte>, e: seq<byte>, s: Jumps, n: int, t: int, last: int)
    requires Inv(tgt, d, s) && IsHead(s, t) && n in s.lists && n != t
    requires |s.lists[n]| > 0 && last == s.lists[n][|s.lists[n]| - 1]
    requires SameOutside(d, e, [last]) && LinkedAt(tgt, e, last, t)
    ensures Inv(tgt, e, Join(s, n, t))
  {
    var s' := Join(s, n, t);
    assert ListOk(tgt, d, s, n, s.lists[n]);
    HeadsPositive(tgt, d, s);
    forall h | h in s'.lists ensures ListOk(tgt, e, s', h, s'.lists[h]) {
      if h == n {
        JoinList(tgt, d, e, s, n, t, last);
      } else {
        JoinOther(tgt, d, e, s, n, t, last, h);
      }
    }
    forall p | p in s'.place ensures PlaceOk(tgt, e, s', p, s'.place[p]) {
      JoinPlace(tgt, d, e, s, n, t, last, p);
    }
  }

  lemma JoinList(tgt: Target, d: seq<byte>, e: seq<byte>, s: Jumps, n: int, t: int, last: int)
    requires Inv(tgt, d, s) && IsHead(s, t) && n in s.lists && n != t
    requires |s.lists[n]| > 0 && last == s.lists[n][|s.lists[n]| - 1]
    requires SameOutside(d, e, [last]) && LinkedAt(tgt, e, last, t)
    ensures ListOk(tgt, e, Join(s, n, t), n, s.lists[n] + ListOf(s, t))
  {
    JoinChain(tgt, d, e, s, n, t, last);
    hide Word, LinksTo, Reaches, Chain;
    var xs, ys := s.lists[n], ListOf(s, t);
    assert ListOk(tgt, d, s, n, xs);
    if t in s.lists {
      assert ListOk(tgt, d, s, t, ys);
    }
  }

  lemma JoinChain(tgt: Target, d: seq<byte>, e: seq<byte>, s: Jumps, n: int, t: int, last: int)
    requires Inv(tgt, d, s) && IsHead(s, t) && n in s.lists && n != t
    requires |s.lists[n]| > 0 && last == s.lists[n][|s.lists[n]| - 1]
    requires SameOutside(d, e, [last]) && LinkedAt(tgt, e, last, t)
    ensures Chain(tgt, e, s.lists[n] + ListOf(s, t))
  {
    hide Word, LinksTo, Reaches, ListsOk, PlacesOk, Spaced, SameOutside;
    var xs, ys := s.lists[n], ListOf(s, t);
    AtList(tgt, d, s, n);
    if t in s.lists {
      AtList(tgt, d, s, t);
    }
    HeadsPositive(tgt, d, s);
    forall i | 0 <= i < |xs| - 1 ensures LinkedAt(tgt, e, xs[i], Next(xs, i)) {
      OtherWord(tgt, d, e, s, [last], xs[i]);
    }
    forall i | 0 <= i < |ys| ensures Slot(tgt, e, ys[i]) && Word(e, ys[i]) == Word(d, ys[i]) {
      assert ys[i] in s.place && s.place[ys[i]] == InList(t);
      OtherWord(tgt, d, e, s, [last], ys[i]);
    }
    ChainFrame(tgt, d, e, ys);
    ChainJoin(tgt, e, xs, ys);
  }

  lemma JoinOther(tgt: Target, d: seq<byte>, e: seq<byte>, s: Jumps, n: int, t: int, last: int, h: int)
    requires Inv(tgt, d, s) && IsHead(s, t) && n in s.lists && n != t && h in s.lists && h != n && h != t
    requires |s.lists[n]| > 0 && last == s.lists[n][|s.lists[n]| - 1]
    requires SameOutside(d, e, [last])
    ensures ListOk(tgt, e, Join(s, n, t), h, s.lists[h])
  {
    hide Word, LinksTo, Reaches;
    var ps := s.lists[h];
    assert ListOk(tgt, d, s, n, s.lists[n]) && ListOk(tgt, d, s, h, ps);
    forall i | 0 <= i < |ps| ensures Slot(tgt, e, ps[i]) && Word(e, ps[i]) == Word(d, ps[i]) {
      OtherWord(tgt, d, e, s, [last], ps[i]);
    }
    ChainFrame(tgt, d, e, ps);
    hide Chain;
  }

  lemma JoinPlace(tgt: Target, d: seq<byte>, e: seq<byte>, s: Jumps, n: int, t: int, last: int, p: int)
    requires Inv(tgt, d, s) && IsHead(s, t) && n in s.lists && n != t && p in s.place
    requires |s.lists[n]| > 0 && last == s.lists[n][|s.lists[n]| - 1]
    requires SameOutside(d, e, [last]) && Slot(tgt, e, last)
    ensures PlaceOk(tgt, e, Join(s, n, t), p, Join(s, n, t).place[p])
  {
    hide Word, LinksTo, Reaches, ListsOk, PlacesOk, Spaced, Chain, SameOutside;
    AtList(tgt, d, s, n);
    AtPlace(tgt, d, s, p);
    if p != last {
      OtherWord(tgt, d, e, s, [last], p);
    }
  }

  lemma ResolveKeeps(tgt: Target, d: seq<byte>, e: seq<byte>, s: Jumps, t: int, landing: int -> int)
    requires Inv(tgt, d, s) && t in s.lists && SameOutside(d, e, s.lists[t])
    requires forall i :: 0 <= i < |s.lists[t]| ==>
      var p := s.lists[t][i]; Slot(tgt, d, p) && Reaches(tgt, Word(e, p), p, landing(p))
    ensures Inv(tgt, e, Resolve(s, t, landing))
  {
    hide Word, LinksTo, Reaches, Inv, ListOk, PlaceOk;
    var s' := Resolve(s, t, landing);
    forall h | h in s'.lists ensures ListOk(tgt, e, s', h, s'.lists[h]) {
      ResolveList(tgt, d, e, s, t, landing, h);
    }
    forall p | p in s'.place ensures PlaceOk(tgt, e, s', p, s'.place[p]) {
      ResolvePlace(tgt, d, e, s, t, landing, p);
    }
    SpacedResolve(tgt, d, e, s, t, landing);
  }

  lemma SpacedResolve(tgt: Target, d: seq<byte>, e: seq<byte>, s: Jumps, t: int, landing: int -> int)
    requires Inv(tgt, d, s)
    requires ListsOk(tgt, e, Resolve(s, t, landing)) && PlacesOk(tgt, e, Resolve(s, t, landing))
    ensures Inv(tgt, e, Resolve(s, t, landing))
  {
    hide ListsOk, PlacesOk;
  }

  lemma ResolveList(tgt: Target, d: seq<byte>, e: seq<byte>, s: Jumps, t: int, landing: int -> int, h: int)
    requires Inv(tgt, d, s) && t in s.lists && SameOutside(d, e, s.lists[t]) && h in s.lists && h != t
    ensures ListOk(tgt, e, Resolve(s, t, landing), h, s.lists[h])
  {
    hide Word, LinksTo, Reaches, ListsOk, PlacesOk, Spaced, SameOutside;
    AtList(tgt, d, s, t);
    AtList(tgt, d, s, h);
    var ps, ts := s.lists[h], s.lists[t];
    forall i | 0 <= i < |ps| ensures Slot(tgt, e, ps[i]) && Word(e, ps[i]) == Word(d, ps[i]) {
      OtherWord(tgt, d, e, s, ts, ps[i]);
    }
    ChainFrame(tgt, d, e, ps);
  }

  lemma ResolvePlace(tgt: Target, d: seq<byte>, e: seq<byte>, s: Jumps, t: int, landing: int -> int, p: int)
    requires Inv(tgt, d, s) && t in s.lists && SameOutside(d, e, s.lists[t]) && p in s.place
    requires forall i :: 0 <= i < |s.lists[t]| ==>
      var q := s.lists[t][i]; Slot(tgt, d, q) && Reaches(tgt, Word(e, q), q, landing(q))
    ensures var s' := Resolve(s, t, landing); PlaceOk(tgt, e, s', p, s'.place[p])
  {
    var ts := s.lists[t];
    hide Word, LinksTo, Reaches, ListsOk, PlacesOk, Spaced, SameOutside, Chain;
    SameLength(d, e, ts);
    AtList(tgt, d, s, t);
    AtPlace(tgt, d, s, p);
    if p !in ts {
      OtherWord(tgt, d, e, s, ts, p);
    }
  }

  lemma SameLength(d: seq<byte>, e: seq<byte>, ps: seq<int>)
    requires SameOutside(d, e, ps)
    ensures |d| == |e|
  {
  }

  /** e is d with the first k jumps of ps resolved. */
  ghost predicate Partly(tgt: Target, d: seq<byte>, e: seq<byte>, ps: seq<int>, k: nat, landing: int -> int) {
    SameOutside(d, e, ps) && k <= |ps| &&
    (forall i :: 0 <= i < |ps| ==> Slot(tgt, e, ps[i])) &&
    (forall i :: 0 <= i < k ==> Reaches(tgt, Word(e, ps[i]), ps[i], landing(ps[i]))) &&
    (forall i :: k <= i < |ps| ==> Word(e, ps[i]) == Word(d, ps[i]))
  }

  lemma PartlyStart(tgt: Target, d: seq<byte>, s: Jumps, t: int, landing: int -> int)
    requires Inv(tgt, d, s) && IsHead(s, t)
    ensures Partly(tgt, d, d, ListOf(s, t), 0, landing)
    ensures t == if |ListOf(s, t)| > 0 then ListOf(s, t)[0] else 0
    ensures t != 0 ==> t in s.lists
    ensures forall i :: 0 <= i < |ListOf(s, t)| ==> ListOf(s, t)[i] > 0
  {
    HeadsPositive(tgt, d, s);
    if t in s.lists {
      assert ListOk(tgt, d, s, t, s.lists[t]);
    }
    hide Word, Reaches, LinksTo;
  }

  /** The walk finds the next link: jumps not yet resolved are as they were. */
  lemma PartlyLink(tgt: Target, d: seq<byte>, e: seq<byte>, s: Jumps, t: int, k: nat, landing: int -> int)
    requires Inv(tgt, d, s) && t in s.lists && k < |s.lists[t]|
    requires Partly(tgt, d, e, s.lists[t], k, landing)
    ensures var ps := s.lists[t];
      LinkedAt(tgt, e, ps[k], Next(ps, k)) && Word(e, ps[k]) == Word(d, ps[k])
  {
    var ps := s.lists[t];
    assert ListOk(tgt, d, s, t, ps) && LinkedAt(tgt, d, ps[k], Next(ps, k));
    hide Word, Reaches, LinksTo;
  }

  /** Patching the next jump resolves one more. */
  lemma PartlyPut(tgt: Target, d: seq<byte>, e: seq<byte>, s: Jumps, t: int, k: nat, v: nat, landing: int -> int)
    requires Inv(tgt, d, s) && t in s.lists && k < |s.lists[t]|
    requires Partly(tgt, d, e, s.lists[t], k, landing)
    requires v < M32 && Reaches(tgt, v, s.lists[t][k], landing(s.lists[t][k]))
    ensures Slot(tgt, e, s.lists[t][k]) && Partly(tgt, d, Put(e, s.lists[t][k], v), s.lists[t], k + 1, landing)
    ensures var ps := s.lists[t];
      forall i :: 0 <= i < |ps| ==>
        Slot(tgt, e, ps[i]) && Word(Put(e, ps[k], v), ps[i]) == if i == k then v else Word(e, ps[i])
  {
    hide Reaches, Word, Put, Chain, SameOutside;
    var ps := s.lists[t];
    assert ListOk(tgt, d, s, t, ps);
    WordPut(e, ps[k], v);
    forall i | 0 <= i < |ps| && i != k ensures Word(Put(e, ps[k], v), ps[i]) == Word(e, ps[i]) {
      assert ps[i] in s.place && ps[k] in s.place && ps[i] != ps[k];
      WordElsewhere(e, ps[k], v, ps[i]);
    }
    PutInside(d, e, ps, k, v);
  }

  lemma PutInside(d: seq<byte>, e: seq<byte>, ps: seq<int>, k: nat, v: nat)
    requires SameOutside(d, e, ps) && k < |ps| && 0 <= ps[k] && ps[k] + 4 <= |e|
    ensures SameOutside(d, Put(e, ps[k], v), ps)
  {
  }

  lemma PartlyEnd(tgt: Target, d: seq<byte>, e: seq<byte>, s: Jumps, t: int, landing: int -> int)
    requires Inv(tgt, d, s) && IsHead(s, t)
    requires Partly(tgt, d, e, ListOf(s, t), |ListOf(s, t)|, landing)
    ensures Inv(tgt, e, Resolve(s, t, landing)) && SameOutside(d, e, ListOf(s, t)) && |e| == |d|
  {
    HeadsPositive(tgt, d, s);
    if t in s.lists {
      ResolveKeeps(tgt, d, e, s, t, landing);
    } else {
      assert d == e by {
        assert forall i :: 0 <= i < |d| ==> Outside([], i);
      }
      ResolveNothing(tgt, d, s, t, landing);
    }
  }

  lemma ResolveNothing(tgt: Target, d: seq<byte>, s: Jumps, t: int, landing: int -> int)
    requires Inv(tgt, d, s) && t !in s.lists
    ensures Resolve(s, t, landing) == s
  {
    assert Resolve(s, t, landing).lists == s.lists;
    forall p | p in s.place ensures s.place[p] != InList(t) {
      assert PlaceOk(tgt, d, s, p, s.place[p]);
    }
    assert Resolve(s, t, landing).place == s.place;
  }

  /** A word appended to the buffer is found where the buffer ended. */
  lemma Appended(d: seq<byte>, x: seq<byte>, w: nat)
    requires w < M32
    ensures Word(d + x + Bytes4(w), |d| + |x|) == w && d <= d + x + Bytes4(w)
  {
    var e := d + x + Bytes4(w);
    BytesAgain(w);
    hide Byte;
    assert e[|d| + |x|] == Byte(w, 0) && e[|d| + |x| + 1] == Byte(w, 1);
    assert e[|d| + |x| + 2] == Byte(w, 2) && e[|d| + |x| + 3] == Byte(w, 3);
  }

  /** Bytes that hold no jump may be appended freely. */
  lemma PlainKeeps(tgt: Target, d: seq<byte>, e: seq<byte>, s: Jumps)
    requires Inv(tgt, d, s) && d <= e
    ensures Inv(tgt, e, s)
  {
    hide Word, LinksTo, Reaches;
    forall h | h in s.lists ensures ListOk(tgt, e, s, h, s.lists[h]) {
      var ps := s.lists[h];
      assert ListOk(tgt, d, s, h, ps);
      forall i | 0 <= i < |ps| ensures Slot(tgt, e, ps[i]) && Word(e, ps[i]) == Word(d, ps[i]) {
        PrefixFrame(tgt, d, e, ps[i]);
      }
      ChainFrame(tgt, d, e, ps);
    }
    forall p | p in s.place ensures PlaceOk(tgt, e, s, p, s.place[p]) {
      assert PlaceOk(tgt, d, s, p, s.place[p]);
      PrefixFrame(tgt, d, e, p);
    }
  }

  /** Heads lie inside the buffer, and the walk from a head stays on jump fields. */
  lemma HeadInside(tgt: Target, d: seq<byte>, s: Jumps, t: int)
    requires Inv(tgt, d, s) && IsHead(s, t)
    ensures 0 <= t < |d| || t == 0
    ensures tgt != I386 ==> t % 4 == 0
    ensures t in s.lists ==> |s.lists[t]| > 0 && s.lists[t][0] == t
    ensures forall i :: 0 <= i < |ListOf(s, t)| ==>
      ListOf(s, t)[i] > 0 && LinkedAt(tgt, d, ListOf(s, t)[i], Next(ListOf(s, t), i))
  {
    HeadsPositive(tgt, d, s);
    if t in s.lists {
      assert ListOk(tgt, d, s, t, s.lists[t]);
      assert LinkedAt(tgt, d, s.lists[t][0], Next(s.lists[t], 0));
    }
    hide Word, Reaches, LinksTo;
  }

  /** The buffer alone determines a list: two chains with the same head are equal. */
  lemma ChainUnique(tgt: Target, d: seq<byte>, ps: seq<int>, qs: seq<int>)
    requires Chain(tgt, d, ps) && Chain(tgt, d, qs) && |ps| > 0 && |qs| > 0 && ps[0] == qs[0]
    ensures ps == qs
  {
    hide Word, LinksTo;
    var k := 0;
    while k + 1 < |ps| && k + 1 < |qs|
      invariant k < |ps| && k < |qs| && forall i :: 0 <= i <= k ==> ps[i] == qs[i]
    {
      ChainStep(tgt, d, ps, qs, k);
      k := k + 1;
    }
    ChainStep(tgt, d, ps, qs, k);
  }

  lemma ChainStep(tgt: Target, d: seq<byte>, ps: seq<int>, qs: seq<int>, k: nat)
    requires Chain(tgt, d, ps) && Chain(tgt, d, qs) && k < |ps| && k < |qs| && ps[k] == qs[k]
    ensures Next(ps, k) == Next(qs, k)
    ensures k + 1 < |ps| <==> k + 1 < |qs|
  {
    assert LinkedAt(tgt, d, ps[k], Next(ps, k)) && LinkedAt(tgt, d, qs[k], Next(qs, k));
    if k + 1 < |ps| {
      assert LinkedAt(tgt, d, ps[k + 1], Next(ps, k + 1));
    }
    if k + 1 < |qs| {
      assert LinkedAt(tgt, d, qs[k + 1], Next(qs, k + 1));
    }
  }

  /** What the generators do between two states of a buffer. */
  datatype Op = Plain | NewJump(r: int, t: int) | Append(n: int, t: int) | Patch(t: int, landing: int -> int)

  ghost predicate Step(tgt: Target, op: Op, d: seq<byte>, s: Jumps, e: seq<byte>, s2: Jumps) {
    match op
    case Plain => d <= e && s2 == s
    case NewJump(r, t) =>
      IsHead(s, t) && d <= e && |d| <= r && LinkedAt(tgt, e, r, t) && s2 == Push(s, r, t)
    case Append(n, t) =>
      n in s.lists && IsHead(s, t) && n != t && |s.lists[n]| > 0 && s2 == Join(s, n, t) &&
      SameOutside(d, e, [s.lists[n][|s.lists[n]| - 1]]) && LinkedAt(tgt, e, s.lists[n][|s.lists[n]| - 1], t)
    case Patch(t, landing) =>
      IsHead(s, t) && s2 == Resolve(s, t, landing) && Partly(tgt, d, e, ListOf(s, t), |ListOf(s, t)|, landing)
  }

  lemma StepKeeps(tgt: Target, op: Op, d: seq<byte>, s: Jumps, e: seq<byte>, s2: Jumps)
    requires Inv(tgt, d, s) && Step(tgt, op, d, s, e, s2)
    ensures Inv(tgt, e, s2)
    ensures forall p :: p in s.place ==> p in s2.place && (s.place[p].Goes? ==> s2.place[p] == s.place[p])
  {
    hide Chain, ListOk, Reaches, Word, SameOutside;
    match op
    case Plain => PlainKeeps(tgt, d, e, s);
    case NewJump(r, t) => PushKeeps(tgt, d, e, s, r, t);
    case Append(n, t) => JoinKeeps(tgt, d, e, s, n, t, s.lists[n][|s.lists[n]| - 1]);
    case Patch(t, landing) => PartlyEnd(tgt, d, e, s, t, landing);
    hide Inv;
  }

  /** Over any run, no jump is lost, every list stays proper, and a resolved jump keeps reaching its target. */
  lemma {:induction false} RunKeeps(tgt: Target, ops: seq<Op>, ds: seq<seq<byte>>, ss: seq<Jumps>, k: nat)
    requires |ds| == |ss| == |ops| + 1 && k <= |ops| && Inv(tgt, ds[0], ss[0])
    requires forall i :: 0 <= i < |ops| ==> Step(tgt, ops[i], ds[i], ss[i], ds[i + 1], ss[i + 1])
    ensures Inv(tgt, ds[k], ss[k])
    ensures forall p :: p in ss[0].place ==>
      p in ss[k].place && (ss[0].place[p].Goes? ==> ss[k].place[p] == ss[0].place[p])
  {
    hide Inv, Step;
    if k > 0 {
      RunKeeps(tgt, ops, ds, ss, k - 1);
      assert Step(tgt, ops[k - 1], ds[k - 1], ss[k - 1], ds[k - 1 + 1], ss[k - 1 + 1]);
      StepKeeps(tgt, ops[k - 1], ds[k - 1], ss[k - 1], ds[k], ss[k]);
    }
  }
}
