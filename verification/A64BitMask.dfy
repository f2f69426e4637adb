/** AArch64 logical immediates: what an encoding denotes, DecodeBitMasks of section J1.1 of the Armv8-A Architecture
  * Reference Manual, and the shape of the values that have one. */
module A64BitMask {
  import opened Binary

  const WORD: nat := 0x1_0000_0000_0000_0000

  predicate Esize(e: nat) { e == 2 || e == 4 || e == 8 || e == 16 || e == 32 || e == 64 }

  function Size(e: nat): (r: nat)
    requires Esize(e)
    ensures r > 0
  {
    if e == 2 then 4 else if e == 4 then 16 else if e == 8 then 256
    else if e == 16 then 0x1_0000 else if e == 32 then 0x1_0000_0000 else WORD
  }

  function Copies(e: nat): nat
    requires Esize(e)
  {
    if e == 2 then 0x5555_5555_5555_5555 else if e == 4 then 0x1111_1111_1111_1111
    else if e == 8 then 0x0101_0101_0101_0101 else if e == 16 then 0x0001_0001_0001_0001
    else if e == 32 then 0x0000_0001_0000_0001 else 1
  }

  function Ror1In(x: nat, e: nat): nat
    requires Esize(e)
  {
    x / 2 + x % 2 * (Size(e) / 2)
  }

  function RorIn(x: nat, e: nat, n: nat): nat
    requires Esize(e)
    decreases n
  {
    if n == 0 then x else RorIn(Ror1In(x, e), e, n - 1)
  }

  function Replicate(x: nat, e: nat): nat
    requires Esize(e)
  {
    Copies(e) * x
  }

  function Ror1(x: nat): nat { x / 2 + x % 2 * (WORD / 2) }

  function Ror(x: nat, n: nat): nat
    decreases n
  {
    if n == 0 then x else Ror(Ror1(x), n - 1)
  }

  lemma RepStep(x: nat, e: nat)
    requires Esize(e) && x < Size(e)
    ensures Ror1In(x, e) < Size(e)
    ensures Replicate(Ror1In(x, e), e) == Ror1(Replicate(x, e))
    ensures Replicate(x, e) < WORD && Replicate(x, e) % 2 == x % 2
  {
    var q, b := x / 2, x % 2;
    assert x == 2 * q + b;
    assert Copies(e) % 2 == 1;
  }

  lemma {:induction false} RepRor(x: nat, e: nat, n: nat)
    requires Esize(e) && x < Size(e)
    ensures RorIn(x, e, n) < Size(e)
    ensures Replicate(RorIn(x, e, n), e) == Ror(Replicate(x, e), n)
    decreases n
  {
    if n > 0 {
      hide Esize, Size, Copies, Replicate, Ror1, Ror1In;
      RepStep(x, e);
      RepRor(Ror1In(x, e), e, n - 1);
    }
  }

  lemma {:induction false} RorAdd(x: nat, a: nat, b: nat)
    ensures Ror(x, a + b) == Ror(Ror(x, a), b)
    decreases a
  {
    if a > 0 {
      RorAdd(Ror1(x), a - 1, b);
    }
  }

  lemma Ror2(a: nat, b: nat)
    requires a < 0x4000_0000_0000_0000 && b < 4
    ensures Ror(4 * a + b, 2) == a + 0x4000_0000_0000_0000 * b
  {
    var x := 4 * a + b;
    assert Ror1(x) == 2 * a + b / 2 + b % 2 * (WORD / 2);
    assert Ror(x, 2) == Ror(Ror1(x), 1) == Ror(Ror1(Ror1(x)), 0);
  }

  lemma Ror4(a: nat, b: nat)
    requires a < 0x1000_0000_0000_0000 && b < 16
    ensures Ror(16 * a + b, 4) == a + 0x1000_0000_0000_0000 * b
  {
    hide *;
    var hi, lo := b / 4, b % 4;
    RorAdd(16 * a + b, 2, 2);
    Ror2(4 * a + hi, lo);
    Ror2(a + 0x1000_0000_0000_0000 * lo, hi);
  }

  lemma Ror8(a: nat, b: nat)
    requires a < 0x100_0000_0000_0000 && b < 256
    ensures Ror(256 * a + b, 8) == a + 0x100_0000_0000_0000 * b
  {
    hide *;
    var hi, lo := b / 16, b % 16;
    RorAdd(256 * a + b, 4, 4);
    Ror4(16 * a + hi, lo);
    Ror4(a + 0x100_0000_0000_0000 * lo, hi);
  }

  lemma Ror16(a: nat, b: nat)
    requires a < 0x1_0000_0000_0000 && b < 0x1_0000
    ensures Ror(0x1_0000 * a + b, 16) == a + 0x1_0000_0000_0000 * b
  {
    hide *;
    var hi, lo := b / 256, b % 256;
    RorAdd(0x1_0000 * a + b, 8, 8);
    Ror8(256 * a + hi, lo);
    Ror8(a + 0x1_0000_0000_0000 * lo, hi);
  }

  lemma Ror32(a: nat, b: nat)
    requires a < 0x1_0000_0000 && b < 0x1_0000_0000
    ensures Ror(0x1_0000_0000 * a + b, 32) == a + 0x1_0000_0000 * b
  {
    hide *;
    var hi, lo := b / 0x1_0000, b % 0x1_0000;
    RorAdd(0x1_0000_0000 * a + b, 16, 16);
    Ror16(0x1_0000 * a + hi, lo);
    Ror16(a + 0x1_0000_0000 * lo, hi);
  }

  /** A replicated element is unchanged by rotating the word through one element. */
  lemma RepPeriod(x: nat, e: nat)
    requires Esize(e) && x < Size(e)
    ensures Ror(Replicate(x, e), e) == Replicate(x, e)
  {
    hide Ror;
    if e == 2 {
      Ror2(x * 0x1555_5555_5555_5555, x);
    } else if e == 4 {
      Ror4(x * 0x0111_1111_1111_1111, x);
    } else if e == 8 {
      Ror8(x * 0x0001_0101_0101_0101, x);
    } else if e == 16 {
      Ror16(x * 0x0001_0001_0001, x);
    } else if e == 32 {
      Ror32(x, x);
    } else {
      var hi, lo := x / 0x1_0000_0000, x % 0x1_0000_0000;
      RorAdd(x, 32, 32);
      Ror32(hi, lo);
      Ror32(lo, hi);
    }
  }

  lemma PTwo()
    ensures P(2) == 4
  {
  }

  lemma SizeIsP(e: nat)
    requires Esize(e)
    ensures Size(e) == P(e)
  {
    hide P;
    PTwo();
    PAdd(2, 2);
    PAdd(4, 4);
    PAdd(8, 8);
    PAdd(16, 16);
    PAdd(32, 32);
  }

  /** The element size: 2 to the highest set bit of N : NOT(imms). */
  function ElementSize(e: nat): (r: Option<nat>)
    requires e < 0x2000
    ensures r.Some? ==> Esize(r.value) && (e < 0x1000 ==> r.value <= 32)
  {
    var t := e / 0x1000 * 64 + (63 - e % 64);
    if t >= 64 then Some(64) else if t >= 32 then Some(32) else if t >= 16 then Some(16)
    else if t >= 8 then Some(8) else if t >= 4 then Some(4) else if t >= 2 then Some(2) else None
  }

  /** The bits of x that index into an element of size e. */
  function Index(x: nat, e: nat): (i: nat)
    requires Esize(e)
    ensures i < e
  {
    if e == 2 then x % 2 else if e == 4 then x % 4 else if e == 8 then x % 8
    else if e == 16 then x % 16 else if e == 32 then x % 32 else x % 64
  }

  /** The value of the 13 bits N:immr:imms, unless they are reserved. */
  function DecodeBitMasks(e: nat): Option<nat>
    requires e < 0x2000
  {
    match ElementSize(e)
    case None => None
    case Some(esize) =>
      var s, r := Index(e % 64, esize), Index(e / 64 % 64, esize);
      if s == esize - 1 then None
      else Some(Replicate(RorIn(P(s + 1) - 1, esize, r), esize))
  }

  /** The 13 bits for len ones rotated right by r in elements of size rep. */
  function Pack(rep: nat, r: nat, len: nat): nat
    requires Esize(rep) && r < rep && 1 <= len < rep
  {
    (if rep == 64 then 0x1000 else 64 - 2 * rep) + r * 64 + (len - 1)
  }

  lemma PackDecode(rep: nat, r: nat, len: nat)
    requires Esize(rep) && r < rep && 1 <= len < rep
    ensures Pack(rep, r, len) < 0x2000 && (rep != 64 ==> Pack(rep, r, len) < 0x1000)
    ensures DecodeBitMasks(Pack(rep, r, len)) == Some(Replicate(RorIn(P(len) - 1, rep, r), rep))
  {
    hide P, RorIn, Replicate;
    PackFields(rep, r, len);
    hide Pack;
  }

  lemma FieldSplit(n: nat, r: nat, imms: nat)
    requires n < 2 && r < 64 && imms < 64
    ensures var e := n * 0x1000 + r * 64 + imms;
      e % 64 == imms && e / 64 % 64 == r && e / 0x1000 == n
  {
    var e := n * 0x1000 + r * 64 + imms;
    DivUnique(64, n * 64 + r, imms, e);
    DivUnique(64, n, r, n * 64 + r);
    DivUnique(0x1000, n, r * 64 + imms, e);
  }

  lemma PackFields(rep: nat, r: nat, len: nat)
    requires Esize(rep) && r < rep && 1 <= len < rep
    ensures var e := Pack(rep, r, len);
      e < 0x2000 && (rep != 64 ==> e < 0x1000) && ElementSize(e) == Some(rep) &&
      Index(e % 64, rep) == len - 1 && Index(e / 64 % 64, rep) == r
  {
    var e, s := Pack(rep, r, len), len - 1;
    var imms := (if rep == 64 then 0 else 64 - 2 * rep) + s;
    assert imms < 64 && e == (if rep == 64 then 0x1000 else 0) + r * 64 + imms;
    FieldSplit(if rep == 64 then 1 else 0, r, imms);
    hide Pack;
  }

  /** What a legal encoding says: an element size, a count of ones and a rotation. */
  lemma DecodeLegal(e: nat) returns (esize: nat, ones: nat, r: nat)
    requires e < 0x2000 && DecodeBitMasks(e).Some?
    ensures Esize(esize) && 1 <= ones < esize && r < esize && (e < 0x1000 ==> esize <= 32)
    ensures DecodeBitMasks(e).value == Replicate(RorIn(P(ones) - 1, esize, r), esize)
  {
    hide P, RorIn, Replicate, ElementSize, Index;
    esize := ElementSize(e).value;
    ones, r := Index(e % 64, esize) + 1, Index(e / 64 % 64, esize);
  }

  lemma RunFits(len: nat, pos: nat, e: nat)
    requires Esize(e) && len + pos <= e
    ensures Run(len, pos) < Size(e)
  {
    SizeIsP(e);
    PMono(len + pos, e);
  }

  lemma RunFromZero(len: nat)
    ensures P(len) - 1 == Run(len, 0)
  {
  }

  lemma RunHalf(len: nat, pos: nat, e: nat)
    requires Esize(e) && len + pos <= e && pos > 0
    ensures Run(len, pos) < Size(e) && Ror1In(Run(len, pos), e) == Run(len, pos - 1)
  {
    RunFits(len, pos, e);
    assert Run(len, pos) == 2 * Run(len, pos - 1);
    hide P, Run, Size, Ror1In;
    Ror1Even(Run(len, pos - 1), e);
  }

  lemma Ror1Even(x: nat, e: nat)
    requires Esize(e)
    ensures Ror1In(2 * x, e) == x
  {
    assert 2 * x / 2 == x && 2 * x % 2 == 0;
  }

  /** Rotating a replicated run right by k moves the run down by k bits. */
  lemma {:induction false} RunRor(len: nat, pos: nat, k: nat, e: nat)
    requires Esize(e) && len + pos <= e && k <= pos
    ensures Ror(Replicate(Run(len, pos), e), k) == Replicate(Run(len, pos - k), e)
    decreases k
  {
    if k > 0 {
      hide Esize, Size, Copies, Replicate, Ror1, Ror1In, Run;
      RunHalf(len, pos, e);
      RepStep(Run(len, pos), e);
      RunRor(len, pos - 1, k - 1, e);
    }
  }

  lemma Ror1Complement(x: nat, y: nat)
    requires x + y == WORD - 1
    ensures Ror1(x) + Ror1(y) == WORD - 1
  {
    var q, b := x / 2, x % 2;
    assert y / 2 == WORD / 2 - 1 - q && y % 2 == 1 - b;
  }

  lemma {:induction false} RorComplement(x: nat, y: nat, n: nat)
    requires x + y == WORD - 1
    ensures Ror(x, n) + Ror(y, n) == WORD - 1
    decreases n
  {
    if n > 0 {
      hide Ror1;
      Ror1Complement(x, y);
      RorComplement(Ror1(x), Ror1(y), n - 1);
    }
  }

  lemma RepComplement(ones: nat, zeros: nat, e: nat)
    requires Esize(e) && ones + zeros == e
    ensures Replicate(P(ones) - 1, e) + Replicate(Run(zeros, ones), e) == WORD - 1
  {
    SizeIsP(e);
    PMono(ones, e);
    CopiesFill(e);
    hide P, Copies, Size;
    Distribute(Copies(e), P(e) - 1, P(ones) - 1);
  }

  lemma CopiesFill(e: nat)
    requires Esize(e)
    ensures Copies(e) * (Size(e) - 1) == WORD - 1
  {
  }

  lemma Distribute(c: nat, x: nat, y: nat)
    requires y <= x
    ensures c * x == c * (x - y) + c * y
  {
  }

  lemma SoundRun(len: nat, pos: nat, e: nat)
    requires Esize(e) && len + pos <= e
    ensures Replicate(RorIn(P(len) - 1, e, e - pos), e) == Replicate(Run(len, pos), e)
  {
    hide *;
    RunFits(len, 0, e);
    RunFromZero(len);
    RunFits(len, pos, e);
    RepRor(P(len) - 1, e, e - pos);
    RunRor(len, pos, pos, e);
    RorAdd(Replicate(Run(len, pos), e), pos, e - pos);
    RepPeriod(Run(len, pos), e);
  }

  lemma SoundComplement(len: nat, pos: nat, e: nat)
    requires Esize(e) && len + pos <= e
    ensures Replicate(RorIn(P(e - len) - 1, e, e - pos - len), e) + Replicate(Run(len, pos), e) == WORD - 1
  {
    hide *;
    var r, ones := e - pos - len, e - len;
    RunFits(ones, 0, e);
    RunFromZero(ones);
    RepRor(P(ones) - 1, e, r);
    RepComplement(ones, len, e);
    RorComplement(Replicate(P(ones) - 1, e), Replicate(Run(len, ones), e), r);
    RunRor(len, ones, r, e);
  }

  /** The values with a legal encoding: a replicated run that avoids bit 0, or the complement of one. */
  lemma LegalRun(e: nat) returns (esize: nat, len: nat, pos: nat)
    requires e < 0x2000 && DecodeBitMasks(e).Some?
    ensures Esize(esize) && len > 0 && pos > 0 && len + pos <= esize
    ensures var x := DecodeBitMasks(e).value;
      x < WORD && (if x % 2 == 0 then x else WORD - 1 - x) == Replicate(Run(len, pos), esize)
  {
    hide P, Run, Size, Copies, Replicate, RorIn, DecodeBitMasks, Esize;
    var ones, r;
    esize, ones, r := DecodeLegal(e);
    if r >= ones {
      len, pos := ones, esize - r;
      SoundRun(len, pos, esize);
    } else {
      len, pos := esize - ones, ones - r;
      SoundComplement(len, pos, esize);
    }
    RunEven(len, pos);
    RunFits(len, pos, esize);
    RepStep(Run(len, pos), esize);
  }

  lemma RunEven(len: nat, pos: nat)
    requires pos > 0
    ensures Run(len, pos) % 2 == 0
  {
    assert Run(len, pos) == 2 * Run(len, pos - 1);
  }

  predicate Periodic(x: nat, e: nat)
    requires Esize(e)
  {
    x / Size(e) == x % (WORD / Size(e))
  }

  lemma PeriodicRep(x: nat, e: nat)
    requires Esize(e) && e != 64 && x < WORD && Periodic(x, e)
    ensures x == Replicate(x % Size(e), e)
  {
    if e == 2 {
      PeriodicRep2(x);
    } else if e == 4 {
      PeriodicRep4(x);
    } else if e == 8 {
      PeriodicRep8(x);
    } else if e == 16 {
      PeriodicRep16(x);
    } else if e == 32 {
      PeriodicRep32(x);
    }
  }

  lemma PeriodicRep2(x: nat)
    requires x < WORD && x / 4 == x % 0x4000_0000_0000_0000
    ensures x == 0x5555_5555_5555_5555 * (x % 4)
  {
    var t, r := x / 0x4000_0000_0000_0000, x % 4;
    assert 3 * (x - 0x5555_5555_5555_5555 * t) == t - r;
  }

  lemma PeriodicRep4(x: nat)
    requires x < WORD && x / 16 == x % 0x1000_0000_0000_0000
    ensures x == 0x1111_1111_1111_1111 * (x % 16)
  {
    var t, r := x / 0x1000_0000_0000_0000, x % 16;
    assert 15 * (x - 0x1111_1111_1111_1111 * t) == t - r;
  }

  lemma PeriodicRep8(x: nat)
    requires x < WORD && x / 256 == x % 0x100_0000_0000_0000
    ensures x == 0x101_0101_0101_0101 * (x % 256)
  {
    var t, r := x / 0x100_0000_0000_0000, x % 256;
    assert 255 * (x - 0x101_0101_0101_0101 * t) == t - r;
  }

  lemma PeriodicRep16(x: nat)
    requires x < WORD && x / 0x1_0000 == x % 0x1_0000_0000_0000
    ensures x == 0x1_0001_0001_0001 * (x % 0x1_0000)
  {
    var t, r := x / 0x1_0000_0000_0000, x % 0x1_0000;
    assert 0xffff * (x - 0x1_0001_0001_0001 * t) == t - r;
  }

  lemma PeriodicRep32(x: nat)
    requires x < WORD && x / 0x1_0000_0000 == x % 0x1_0000_0000
    ensures x == 0x1_0000_0001 * (x % 0x1_0000_0000)
  {
    var t, r := x / 0x1_0000_0000, x % 0x1_0000_0000;
    assert 0xffff_ffff * (x - 0x1_0000_0001 * t) == t - r;
  }

  lemma RepPeriodic(y: nat, e: nat)
    requires Esize(e) && y < Size(e)
    ensures Periodic(Replicate(y, e), e) && Replicate(y, e) % Size(e) == y
  {
    if e == 2 {
      RepPeriodic2(y);
    } else if e == 4 {
      RepPeriodic4(y);
    } else if e == 8 {
      RepPeriodic8(y);
    } else if e == 16 {
      RepPeriodic16(y);
    } else if e == 32 {
      RepPeriodic32(y);
    }
  }

  lemma RepPeriodic2(y: nat)
    requires y < 4
    ensures var x := 0x5555_5555_5555_5555 * y; x / 4 == x % 0x4000_0000_0000_0000 && x % 4 == y
  {
    DivUnique(4, 0x1555_5555_5555_5555 * y, y, 0x5555_5555_5555_5555 * y);
    DivUnique(0x4000_0000_0000_0000, y, 0x1555_5555_5555_5555 * y, 0x5555_5555_5555_5555 * y);
  }

  lemma RepPeriodic4(y: nat)
    requires y < 16
    ensures var x := 0x1111_1111_1111_1111 * y; x / 16 == x % 0x1000_0000_0000_0000 && x % 16 == y
  {
    DivUnique(16, 0x111_1111_1111_1111 * y, y, 0x1111_1111_1111_1111 * y);
    DivUnique(0x1000_0000_0000_0000, y, 0x111_1111_1111_1111 * y, 0x1111_1111_1111_1111 * y);
  }

  lemma RepPeriodic8(y: nat)
    requires y < 256
    ensures var x := 0x101_0101_0101_0101 * y; x / 256 == x % 0x100_0000_0000_0000 && x % 256 == y
  {
    DivUnique(256, 0x1_0101_0101_0101 * y, y, 0x101_0101_0101_0101 * y);
    DivUnique(0x100_0000_0000_0000, y, 0x1_0101_0101_0101 * y, 0x101_0101_0101_0101 * y);
  }

  lemma RepPeriodic16(y: nat)
    requires y < 0x1_0000
    ensures var x := 0x1_0001_0001_0001 * y; x / 0x1_0000 == x % 0x1_0000_0000_0000 && x % 0x1_0000 == y
  {
    DivUnique(0x1_0000, 0x1_0001_0001 * y, y, 0x1_0001_0001_0001 * y);
    DivUnique(0x1_0000_0000_0000, y, 0x1_0001_0001 * y, 0x1_0001_0001_0001 * y);
  }

  lemma RepPeriodic32(y: nat)
    requires y < 0x1_0000_0000
    ensures var x := 0x1_0000_0001 * y; x / 0x1_0000_0000 == x % 0x1_0000_0000 && x % 0x1_0000_0000 == y
  {
    DivUnique(0x1_0000_0000, 1 * y, y, 0x1_0000_0001 * y);
    DivUnique(0x1_0000_0000, y, 1 * y, 0x1_0000_0001 * y);
  }

  lemma CopiesMod(e: nat, rep: nat)
    requires Esize(e) && Esize(rep) && rep <= e
    ensures (Copies(e) - 1) % Size(rep) == 0
  {
  }

  lemma ModDrop(m: nat, t: nat, y: nat)
    requires m > 0
    ensures (m * t + y) % m == y % m
  {
    var q, r := y / m, y % m;
    assert m * t + y == m * (t + q) + r;
    DivUnique(m, t + q, r, m * t + y);
  }

  /** Reducing a replicated element to a smaller element size keeps the low bits of the element. */
  lemma RepMod(y: nat, e: nat, rep: nat)
    requires Esize(e) && Esize(rep) && rep <= e
    ensures Replicate(y, e) % Size(rep) == y % Size(rep)
  {
    CopiesMod(e, rep);
    var m, c := Size(rep), Copies(e);
    var k := (c - 1) / m;
    hide Size, Copies;
    assert c == m * k + 1;
    MulAssoc(m, k, y);
    ModDrop(m, k * y, y);
  }

  lemma MulAssoc(m: nat, k: nat, y: nat)
    ensures (m * k + 1) * y == m * (k * y) + y
  {
  }

  lemma RunHigh(len: nat, pos: nat, rep: nat)
    requires pos >= rep
    ensures Run(len, pos) % P(rep) == 0
  {
    hide P;
    PAdd(rep, pos - rep);
    PAdd(pos, len);
    Multiple(P(rep), P(pos - rep), P(len), P(pos), Run(len, pos));
  }

  lemma Multiple(m: nat, k: nat, n: nat, mk: nat, x: nat)
    requires m > 0 && n > 0 && mk == m * k && x == mk * n - mk
    ensures x % m == 0
  {
    var j := k * (n - 1);
    assert x == mk * (n - 1) == m * j;
    DivUnique(m, j, 0, x);
  }

  lemma RunCut(len: nat, pos: nat, rep: nat)
    requires pos < rep < len + pos
    ensures Run(len, pos) % P(rep) == Run(rep - pos, pos)
  {
    hide P;
    PAdd(rep, len + pos - rep);
    PMono(pos, rep);
    PAtLeast(pos);
    CutMultiple(P(rep), P(len + pos - rep), P(pos), Run(len, pos));
  }

  lemma CutMultiple(m: nat, k: nat, p: nat, x: nat)
    requires 0 < p <= m && k > 0 && x == m * k - p
    ensures x % m == m - p
  {
    assert x == m * (k - 1) + (m - p);
    DivUnique(m, k - 1, m - p, x);
  }

  lemma PAtLeast(n: nat)
    ensures P(n) >= 1
  {
  }

  /** The low bits of a run are nothing or a run that starts where it does. */
  lemma RunMod(len: nat, pos: nat, rep: nat) returns (short: nat)
    requires len > 0
    ensures Run(len, pos) % P(rep) != 0 ==>
      short > 0 && short + pos <= rep && Run(len, pos) % P(rep) == Run(short, pos)
  {
    short := 0;
    if pos >= rep {
      RunHigh(len, pos, rep);
    } else if len + pos > rep {
      short := rep - pos;
      RunCut(len, pos, rep);
    } else {
      short := len;
      PMono(len + pos, rep);
      PAtLeast(pos);
      hide P;
      DivUnique(P(rep), 0, Run(len, pos), Run(len, pos));
    }
  }

  /** The shortest period among the element sizes. */
  function Period(x: nat): (rep: nat)
    requires x < WORD
    ensures Esize(rep)
  {
    if Periodic(x, 2) then 2 else if Periodic(x, 4) then 4 else if Periodic(x, 8) then 8
    else if Periodic(x, 16) then 16 else if Periodic(x, 32) then 32 else 64
  }

  function Element(x: nat): nat
    requires x < WORD
  {
    x % Size(Period(x))
  }

  lemma PeriodHolds(x: nat)
    requires x < WORD
    ensures Period(x) != 64 ==> Periodic(x, Period(x))
  {
    hide Periodic;
  }

  lemma WholeWord(x: nat)
    requires x < WORD
    ensures x == Replicate(x % Size(64), 64)
  {
  }

  lemma PeriodElement(x: nat)
    requires x < WORD
    ensures x == Replicate(Element(x), Period(x)) && Element(x) < Size(Period(x)) && Element(x) % 2 == x % 2
  {
    hide Periodic, Period, Replicate, Size;
    var rep := Period(x);
    PeriodHolds(x);
    if rep != 64 {
      PeriodicRep(x, rep);
    } else {
      WholeWord(x);
    }
    RepStep(Element(x), rep);
  }

  /** What makes the encoder succeed on x: one element is a single run of ones. */
  predicate SingleRun(x: nat)
    requires x < WORD
  {
    Element(x) != 0 && PastOnes(OddPart(Element(x))) == 0
  }

  lemma SingleRunIsRun(x: nat) returns (len: nat, pos: nat)
    requires x < WORD && x % 2 == 0 && SingleRun(x)
    ensures len == Cto(OddPart(Element(x))) && pos == Ctz(Element(x))
    ensures len > 0 && pos > 0 && len + pos <= Period(x) && x == Replicate(Run(len, pos), Period(x))
  {
    hide Period, Periodic, Element, Replicate, Size;
    var y := Element(x);
    PeriodElement(x);
    CtzSplit(y);
    CtoSplit(OddPart(y));
    len, pos := Cto(OddPart(y)), Ctz(y);
    OddRun(y, len, pos);
    if len + pos > Period(x) {
      SizeIsP(Period(x));
      RunAtLeast(len, pos, Period(x));
    }
  }

  lemma PZero()
    ensures P(0) == 1
  {
  }

  lemma OddRun(y: nat, len: nat, pos: nat)
    requires y != 0 && y == OddPart(y) * P(pos) && OddPart(y) + 1 == P(len) && OddPart(y) % 2 == 1
    ensures y == Run(len, pos) && len > 0 && (y % 2 == 0 ==> pos > 0)
  {
    hide OddPart, P;
    PAdd(len, pos);
    PZero();
    TimesNext(OddPart(y), P(pos));
  }

  lemma TimesNext(a: nat, p: nat)
    ensures (a + 1) * p == a * p + p
  {
  }

  lemma RunAtLeast(len: nat, pos: nat, rep: nat)
    requires len > 0 && len + pos > rep
    ensures Run(len, pos) >= P(rep)
  {
    PMono(rep, len + pos - 1);
    PMono(pos, len + pos - 1);
  }

  lemma PeriodShortest(y: nat, e: nat)
    requires Esize(e) && y < Size(e) && Replicate(y, e) < WORD
    ensures Period(Replicate(y, e)) <= e
  {
    RepPeriodic(y, e);
    hide Periodic, Replicate, Size;
  }

  lemma RunIsSingleRun(len: nat, pos: nat, e: nat)
    requires Esize(e) && len > 0 && pos > 0 && len + pos <= e
    ensures var x := Replicate(Run(len, pos), e); 0 < x < WORD && SingleRun(x)
  {
    hide Period, Periodic, Replicate, Size, Esize, Run;
    var x := Replicate(Run(len, pos), e);
    RunFits(len, pos, e);
    CtzRun(len, pos);
    RepStep(Run(len, pos), e);
    RepPositive(Run(len, pos), e);
    PeriodShortest(Run(len, pos), e);
    RepMod(Run(len, pos), e, Period(x));
    SizeIsP(Period(x));
    PeriodElement(x);
    RepPositive(Element(x), Period(x));
    var short := RunMod(len, pos, Period(x));
    CtzRun(short, pos);
    CtoOnes(short);
  }

  lemma RepPositive(y: nat, e: nat)
    requires Esize(e)
    ensures Replicate(y, e) == 0 <==> y == 0
  {
  }
}
