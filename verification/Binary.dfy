/** Powers of two, runs of ones and the number of trailing zeros or ones of a natural number. */
module Binary {
  datatype Option<+T> = None | Some(value: T)

  function P(n: nat): (r: nat)
    ensures r >= 1
  {
    if n == 0 then 1 else 2 * P(n - 1)
  }

  /** len ones starting at bit pos */
  function Run(len: nat, pos: nat): (r: nat)
  {
    PMono(pos, len + pos);
    P(len + pos) - P(pos)
  }

  lemma {:induction false} PAdd(a: nat, b: nat)
    ensures P(a + b) == P(a) * P(b)
    decreases a
  {
    if a > 0 {
      PAdd(a - 1, b);
      MulDouble(P(b), P(a - 1));
    }
  }

  lemma {:induction false} PMono(a: nat, b: nat)
    requires a <= b
    ensures P(a) <= P(b)
    decreases b - a
  {
    if a < b {
      PMono(a, b - 1);
    }
  }

  lemma SmallPowers()
    ensures P(0) == 1 && P(1) == 2 && P(2) == 4 && P(3) == 8 && P(4) == 16 && P(5) == 32 && P(6) == 64
  {
    assert P(2) == 4;
    assert P(4) == 16;
  }

  lemma MulDouble(y: nat, p: nat)
    ensures 2 * (y * p) == y * (2 * p)
  {
  }

  function Ctz(x: nat): nat
    requires x != 0
  {
    if x % 2 == 1 then 0 else 1 + Ctz(x / 2)
  }

  function OddPart(x: nat): (y: nat)
    requires x != 0
  {
    if x % 2 == 1 then x else OddPart(x / 2)
  }

  function Cto(x: nat): nat {
    if x % 2 == 0 then 0 else 1 + Cto(x / 2)
  }

  function PastOnes(x: nat): nat {
    if x % 2 == 0 then x else PastOnes(x / 2)
  }

  lemma {:induction false} CtzSplit(x: nat)
    requires x != 0
    ensures OddPart(x) % 2 == 1 && x == OddPart(x) * P(Ctz(x))
  {
    if x % 2 == 0 {
      CtzSplit(x / 2);
      MulDouble(OddPart(x), P(Ctz(x / 2)));
    }
  }

  lemma {:induction false} CtoSplit(x: nat)
    ensures PastOnes(x) % 2 == 0 && x + 1 == (PastOnes(x) + 1) * P(Cto(x))
  {
    if x % 2 == 1 {
      CtoSplit(x / 2);
      MulDouble(PastOnes(x) + 1, P(Cto(x / 2)));
    }
  }

  lemma RunDouble(len: nat, pos: nat)
    requires pos > 0
    ensures Run(len, pos) == 2 * Run(len, pos - 1)
  {
  }

  lemma RunOdd(len: nat)
    requires len > 0
    ensures Run(len, 0) == P(len) - 1 && Run(len, 0) % 2 == 1
  {
    var p := P(len - 1);
    assert Run(len, 0) == 2 * (p - 1) + 1;
    hide P, Run;
    DivUnique(2, p - 1, 1, Run(len, 0));
  }

  lemma {:induction false} CtzRun(len: nat, pos: nat)
    requires len > 0
    ensures Run(len, pos) > 0 && Ctz(Run(len, pos)) == pos && OddPart(Run(len, pos)) == P(len) - 1
    decreases pos
  {
    hide P, Run;
    if pos == 0 {
      RunOdd(len);
    } else {
      RunDouble(len, pos);
      CtzRun(len, pos - 1);
      hide Ctz, OddPart;
      Ctz1(Run(len, pos - 1));
    }
  }

  lemma {:induction false} CtoOnes(len: nat)
    ensures Cto(P(len) - 1) == len && PastOnes(P(len) - 1) == 0
  {
    if len > 0 {
      CtoOnes(len - 1);
      assert (P(len) - 1) / 2 == P(len - 1) - 1;
    }
  }

  lemma Ctz1(q: nat)
    requires q != 0
    ensures Ctz(2 * q) == 1 + Ctz(q) && OddPart(2 * q) == OddPart(q)
  {
    assert 2 * q / 2 == q;
  }

  lemma Ctz2(q: nat)
    requires q != 0
    ensures Ctz(4 * q) == 2 + Ctz(q) && OddPart(4 * q) == OddPart(q)
  {
    hide *;
    Ctz1(q);
    Ctz1(2 * q);
  }

  lemma Ctz4(q: nat)
    requires q != 0
    ensures Ctz(16 * q) == 4 + Ctz(q) && OddPart(16 * q) == OddPart(q)
  {
    hide *;
    Ctz2(q);
    Ctz2(4 * q);
  }

  lemma Ctz8(q: nat)
    requires q != 0
    ensures Ctz(256 * q) == 8 + Ctz(q) && OddPart(256 * q) == OddPart(q)
  {
    hide *;
    Ctz4(q);
    Ctz4(16 * q);
  }

  lemma Ctz16(q: nat)
    requires q != 0
    ensures Ctz(0x1_0000 * q) == 16 + Ctz(q) && OddPart(0x1_0000 * q) == OddPart(q)
  {
    hide *;
    Ctz8(q);
    Ctz8(256 * q);
  }

  lemma Ctz32(q: nat)
    requires q != 0
    ensures Ctz(0x1_0000_0000 * q) == 32 + Ctz(q) && OddPart(0x1_0000_0000 * q) == OddPart(q)
  {
    hide *;
    Ctz16(q);
    Ctz16(0x1_0000 * q);
  }

  lemma Cto1(q: nat)
    ensures Cto(2 * q + 1) == 1 + Cto(q) && PastOnes(2 * q + 1) == PastOnes(q)
  {
    assert (2 * q + 1) / 2 == q;
  }

  lemma Cto2(q: nat)
    ensures Cto(4 * q + 3) == 2 + Cto(q) && PastOnes(4 * q + 3) == PastOnes(q)
  {
    hide *;
    Cto1(q);
    Cto1(2 * q + 1);
  }

  lemma Cto4(q: nat)
    ensures Cto(16 * q + 15) == 4 + Cto(q) && PastOnes(16 * q + 15) == PastOnes(q)
  {
    hide *;
    Cto2(q);
    Cto2(4 * q + 3);
  }

  lemma Cto8(q: nat)
    ensures Cto(256 * q + 255) == 8 + Cto(q) && PastOnes(256 * q + 255) == PastOnes(q)
  {
    hide *;
    Cto4(q);
    Cto4(16 * q + 15);
  }

  lemma Cto16(q: nat)
    ensures Cto(0x1_0000 * q + 0xffff) == 16 + Cto(q) && PastOnes(0x1_0000 * q + 0xffff) == PastOnes(q)
  {
    hide *;
    Cto8(q);
    Cto8(256 * q + 255);
  }

  lemma Cto32(q: nat)
    ensures Cto(0x1_0000_0000 * q + 0xffff_ffff) == 32 + Cto(q)
    ensures PastOnes(0x1_0000_0000 * q + 0xffff_ffff) == PastOnes(q)
  {
    hide *;
    Cto16(q);
    Cto16(0x1_0000 * q + 0xffff);
  }

  /** Quotient and remainder are the only pair of their kind. */
  lemma DivUnique(m: nat, q: nat, r: nat, x: nat)
    requires r < m && x == m * q + r
    ensures x / m == q && x % m == r
  {
    var q2, r2 := x / m, x % m;
    assert x == m * q2 + r2;
    assert m * (q - q2) == r2 - r;
    if q > q2 {
      MulAtLeast(m, q - q2);
    } else if q < q2 {
      MulAtLeast(m, q2 - q);
    }
  }

  lemma MulAtLeast(m: nat, k: nat)
    requires k >= 1
    ensures m * k >= m
  {
  }
}
