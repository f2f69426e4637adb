/** Turning a 64-bit value into the 13-bit immediate of an AArch64 logical instruction. */
module A64Encoder {
  import opened Binary
  import opened A64BitMask

  /** The bits of x below the power of two m are all zeros, or all ones. */
  predicate LowZeros(x: nat, m: nat)
    requires m > 0
  {
    x % m == 0
  }

  /** The bits of x from the power of two m up. */
  function Above(x: nat, m: nat): nat
    requires m > 0
  {
    x / m
  }

  predicate LowOnes(x: nat, m: nat)
    requires m > 0
  {
    x % m == m - 1
  }

  // One link of a chain: the half that is skipped holds only zeros, or only ones.

  lemma ZeroHalf32(x: nat)
    requires !LowZeros(x, WORD)
    ensures var y := if LowZeros(x, 0x1_0000_0000) then Above(x, 0x1_0000_0000) else x;
      y != 0 && !LowZeros(y, 0x1_0000_0000) && OddPart(x) == OddPart(y) &&
      Ctz(x) == (if LowZeros(x, 0x1_0000_0000) then 32 else 0) + Ctz(y)
  {
    hide Ctz, OddPart;
    if x % 0x1_0000_0000 == 0 {
      Ctz32(x / 0x1_0000_0000);
    }
  }

  lemma ZeroHalf16(x: nat)
    requires !LowZeros(x, 0x1_0000_0000)
    ensures var y := if LowZeros(x, 0x1_0000) then Above(x, 0x1_0000) else x;
      y != 0 && !LowZeros(y, 0x1_0000) && OddPart(x) == OddPart(y) &&
      Ctz(x) == (if LowZeros(x, 0x1_0000) then 16 else 0) + Ctz(y)
  {
    hide Ctz, OddPart;
    if x % 0x1_0000 == 0 {
      Ctz16(x / 0x1_0000);
    }
  }

  lemma ZeroHalf8(x: nat)
    requires !LowZeros(x, 0x1_0000)
    ensures var y := if LowZeros(x, 256) then Above(x, 256) else x;
      y != 0 && !LowZeros(y, 256) && OddPart(x) == OddPart(y) &&
      Ctz(x) == (if LowZeros(x, 256) then 8 else 0) + Ctz(y)
  {
    hide Ctz, OddPart;
    if x % 256 == 0 {
      Ctz8(x / 256);
    }
  }

  lemma ZeroHalf4(x: nat)
    requires !LowZeros(x, 256)
    ensures var y := if LowZeros(x, 16) then Above(x, 16) else x;
      y != 0 && !LowZeros(y, 16) && OddPart(x) == OddPart(y) &&
      Ctz(x) == (if LowZeros(x, 16) then 4 else 0) + Ctz(y)
  {
    hide Ctz, OddPart;
    if x % 16 == 0 {
      Ctz4(x / 16);
    }
  }

  lemma ZeroHalf2(x: nat)
    requires !LowZeros(x, 16)
    ensures var y := if LowZeros(x, 4) then Above(x, 4) else x;
      y != 0 && !LowZeros(y, 4) && OddPart(x) == OddPart(y) &&
      Ctz(x) == (if LowZeros(x, 4) then 2 else 0) + Ctz(y)
  {
    hide Ctz, OddPart;
    if x % 4 == 0 {
      Ctz2(x / 4);
    }
  }

  lemma ZeroHalf1(x: nat)
    requires !LowZeros(x, 4)
    ensures var y := if LowZeros(x, 2) then Above(x, 2) else x;
      y != 0 && !LowZeros(y, 2) && OddPart(x) == OddPart(y) &&
      Ctz(x) == (if LowZeros(x, 2) then 1 else 0) + Ctz(y)
  {
    hide Ctz, OddPart;
    if x % 2 == 0 {
      Ctz1(x / 2);
    }
  }

  lemma OneHalf32(x: nat)
    requires !LowOnes(x, WORD)
    ensures var y := if LowOnes(x, 0x1_0000_0000) then Above(x, 0x1_0000_0000) else x;
      !LowOnes(y, 0x1_0000_0000) && PastOnes(x) == PastOnes(y) &&
      Cto(x) == (if LowOnes(x, 0x1_0000_0000) then 32 else 0) + Cto(y)
  {
    hide Cto, PastOnes;
    if x % 0x1_0000_0000 == 0xffff_ffff {
      Cto32(x / 0x1_0000_0000);
    }
  }

  lemma OneHalf16(x: nat)
    requires !LowOnes(x, 0x1_0000_0000)
    ensures var y := if LowOnes(x, 0x1_0000) then Above(x, 0x1_0000) else x;
      !LowOnes(y, 0x1_0000) && PastOnes(x) == PastOnes(y) &&
      Cto(x) == (if LowOnes(x, 0x1_0000) then 16 else 0) + Cto(y)
  {
    hide Cto, PastOnes;
    if x % 0x1_0000 == 0xffff {
      Cto16(x / 0x1_0000);
    }
  }

  lemma OneHalf8(x: nat)
    requires !LowOnes(x, 0x1_0000)
    ensures var y := if LowOnes(x, 256) then Above(x, 256) else x;
      !LowOnes(y, 256) && PastOnes(x) == PastOnes(y) &&
      Cto(x) == (if LowOnes(x, 256) then 8 else 0) + Cto(y)
  {
    hide Cto, PastOnes;
    if x % 256 == 255 {
      Cto8(x / 256);
    }
  }

  lemma OneHalf4(x: nat)
    requires !LowOnes(x, 256)
    ensures var y := if LowOnes(x, 16) then Above(x, 16) else x;
      !LowOnes(y, 16) && PastOnes(x) == PastOnes(y) &&
      Cto(x) == (if LowOnes(x, 16) then 4 else 0) + Cto(y)
  {
    hide Cto, PastOnes;
    if x % 16 == 15 {
      Cto4(x / 16);
    }
  }

  lemma OneHalf2(x: nat)
    requires !LowOnes(x, 16)
    ensures var y := if LowOnes(x, 4) then Above(x, 4) else x;
      !LowOnes(y, 4) && PastOnes(x) == PastOnes(y) &&
      Cto(x) == (if LowOnes(x, 4) then 2 else 0) + Cto(y)
  {
    hide Cto, PastOnes;
    if x % 4 == 3 {
      Cto2(x / 4);
    }
  }

  lemma OneHalf1(x: nat)
    requires !LowOnes(x, 4)
    ensures var y := if LowOnes(x, 2) then Above(x, 2) else x;
      !LowOnes(y, 2) && PastOnes(x) == PastOnes(y) &&
      Cto(x) == (if LowOnes(x, 2) then 1 else 0) + Cto(y)
  {
    hide Cto, PastOnes;
    if x % 2 == 1 {
      Cto1(x / 2);
    }
  }

  /** The chain that counts and removes trailing zeros. */
  method StripZeros(x0: nat) returns (x: nat, pos: nat)
    requires 0 < x0 < WORD
    ensures x == OddPart(x0) && pos == Ctz(x0) && pos < 64
  {
    hide *;
    x, pos := x0, 0;
    NotAllZeros(x0);
    ZeroHalf32(x);
    if LowZeros(x, 0x1_0000_0000) {
      x, pos := Above(x, 0x1_0000_0000), pos + 32;
    }
    assert pos <= 32;
    ZeroHalf16(x);
    if LowZeros(x, 0x1_0000) {
      x, pos := Above(x, 0x1_0000), pos + 16;
    }
    assert pos <= 48;
    ZeroHalf8(x);
    if LowZeros(x, 256) {
      x, pos := Above(x, 256), pos + 8;
    }
    assert pos <= 56;
    ZeroHalf4(x);
    if LowZeros(x, 16) {
      x, pos := Above(x, 16), pos + 4;
    }
    assert pos <= 60;
    ZeroHalf2(x);
    if LowZeros(x, 4) {
      x, pos := Above(x, 4), pos + 2;
    }
    assert pos <= 62;
    ZeroHalf1(x);
    if LowZeros(x, 2) {
      x, pos := Above(x, 2), pos + 1;
    }
    assert pos <= 63;
    CtzOdd(x);
  }

  lemma NotAllZeros(x: nat)
    requires 0 < x < WORD
    ensures !LowZeros(x, WORD)
  {
  }

  lemma NotAllOnes(x: nat)
    requires x < WORD - 1
    ensures !LowOnes(x, WORD)
  {
  }

  lemma CtzOdd(x: nat)
    requires !LowZeros(x, 2)
    ensures Ctz(x) == 0 && OddPart(x) == x
  {
  }

  /** The chain that counts and removes trailing ones. */
  method StripOnes(x0: nat) returns (x: nat, len: nat)
    requires x0 < WORD - 1
    ensures x == PastOnes(x0) && len == Cto(x0) && len < 64
  {
    hide *;
    x, len := x0, 0;
    NotAllOnes(x0);
    OneHalf32(x);
    if LowOnes(x, 0x1_0000_0000) {
      x, len := Above(x, 0x1_0000_0000), len + 32;
    }
    assert len <= 32;
    OneHalf16(x);
    if LowOnes(x, 0x1_0000) {
      x, len := Above(x, 0x1_0000), len + 16;
    }
    assert len <= 48;
    OneHalf8(x);
    if LowOnes(x, 256) {
      x, len := Above(x, 256), len + 8;
    }
    assert len <= 56;
    OneHalf4(x);
    if LowOnes(x, 16) {
      x, len := Above(x, 16), len + 4;
    }
    assert len <= 60;
    OneHalf2(x);
    if LowOnes(x, 4) {
      x, len := Above(x, 4), len + 2;
    }
    assert len <= 62;
    OneHalf1(x);
    if LowOnes(x, 2) {
      x, len := Above(x, 2), len + 1;
    }
    assert len <= 63;
    CtoEven(x);
  }

  lemma CtoEven(x: nat)
    requires !LowOnes(x, 2)
    ensures Cto(x) == 0 && PastOnes(x) == x
  {
  }

  /** The encoding of x0, or None exactly if no legal encoding denotes x0; the 32-bit form where x0 repeats after 32
    * bits. */
  method EncodeBimm64(x0: nat) returns (r: Option<nat>)
    requires x0 < WORD
    ensures r.Some? ==> r.value < 0x2000 && DecodeBitMasks(r.value) == Some(x0)
    ensures r.Some? && Periodic(x0, 32) ==> r.value < 0x1000
    ensures r == None ==> forall e: nat | e < 0x2000 :: DecodeBitMasks(e) != Some(x0)
  {
    hide Size, Periodic, Period, Element, SingleRun, Replicate, Run, RorIn, P, DecodeBitMasks, Pack;
    hide OddPart, PastOnes, Ctz, Cto, Folded, LowZeros, LowOnes, Above;
    var x := x0;
    var neg := x % 2 == 1;
    if neg {
      x := WORD - 1 - x;
    }
    FoldedIs(x0, x);
    ghost var w := x;
    if x == 0 {
      NoRun(x);
      OnlyRuns(x0);
      return None;
    }
    var rep: nat;
    if Periodic(x, 2) {
      rep := 2;
    } else if Periodic(x, 4) {
      rep := 4;
    } else if Periodic(x, 8) {
      rep := 8;
    } else if Periodic(x, 16) {
      rep := 16;
    } else if Periodic(x, 32) {
      rep := 32;
    } else {
      rep := 64;
    }
    PeriodIs(x, rep);
    ElementBounds(x);
    x := x % Size(rep);
    var pos, len;
    x, pos := StripZeros(x);
    x, len := StripOnes(x);
    IsSingleRun(w);
    if x != 0 {
      OnlyRuns(x0);
      return None;
    }
    ghost var l, p := SingleRunIsRun(w);
    PeriodNarrow(x0);
    if neg {
      SoundComplement(len, pos, rep);
      pos := if pos + len == rep then 0 else pos + len;
      len := rep - len;
    } else {
      SoundRun(len, pos, rep);
    }
    var rot := if pos == 0 then 0 else rep - pos;
    PackDecode(rep, rot, len);
    r := Some(Pack(rep, rot, len));
  }

  /** x or its complement, whichever has bit 0 clear. */
  function Folded(x: nat): nat
    requires x < WORD
  {
    if x % 2 == 0 then x else WORD - 1 - x
  }

  lemma FoldedIs(x: nat, w: nat)
    requires x < WORD && w == if x % 2 == 1 then WORD - 1 - x else x
    ensures w == Folded(x) && w < WORD && w % 2 == 0 && (x % 2 == 1 ==> x + w == WORD - 1)
  {
  }

  lemma PeriodIs(x: nat, rep: nat)
    requires x < WORD
    requires rep == if Periodic(x, 2) then 2 else if Periodic(x, 4) then 4 else if Periodic(x, 8) then 8
                    else if Periodic(x, 16) then 16 else if Periodic(x, 32) then 32 else 64
    ensures rep == Period(x) && Esize(rep) && x % Size(rep) == Element(x)
  {
  }

  lemma NoRun(x: nat)
    requires x == 0
    ensures x < WORD && !SingleRun(x)
  {
  }

  lemma IsSingleRun(x: nat)
    requires x < WORD && Element(x) != 0
    ensures SingleRun(x) <==> PastOnes(OddPart(Element(x))) == 0
  {
  }

  lemma ElementBounds(x: nat)
    requires 0 < x < WORD && x % 2 == 0
    ensures 0 < Element(x) < WORD && OddPart(Element(x)) < WORD - 1
  {
    PeriodElement(x);
    RepPositive(Element(x), Period(x));
    hide Period, Element;
    OddPartHalf(Element(x));
  }

  lemma OddPartHalf(x: nat)
    requires x != 0 && x % 2 == 0
    ensures OddPart(x) <= x / 2
  {
    OddPartBelow(x / 2);
  }

  lemma {:induction false} OddPartBelow(x: nat)
    requires x != 0
    ensures OddPart(x) <= x
  {
    if x % 2 == 0 {
      OddPartBelow(x / 2);
    }
  }

  lemma PeriodNarrow(x: nat)
    requires x < WORD
    ensures Periodic(x, 32) ==> Period(Folded(x)) != 64
  {
    PeriodicComplement(x);
    hide Periodic;
  }

  lemma PeriodicComplement(x: nat)
    requires x < WORD
    ensures Periodic(x, 32) ==> Periodic(WORD - 1 - x, 32)
  {
    var t, q := x / 0x1_0000_0000, x % 0x1_0000_0000;
    DivUnique(0x1_0000_0000, 0xffff_ffff - t, 0xffff_ffff - q, WORD - 1 - x);
  }

  /** No legal encoding denotes a value that the encoder turns down. */
  lemma OnlyRuns(x: nat)
    requires x < WORD && !SingleRun(Folded(x))
    ensures forall e: nat | e < 0x2000 :: DecodeBitMasks(e) != Some(x)
  {
    hide SingleRun, DecodeBitMasks;
    forall e: nat | e < 0x2000
      ensures DecodeBitMasks(e) != Some(x)
    {
      if DecodeBitMasks(e) == Some(x) {
        var esize, len, pos := LegalRun(e);
        RunIsSingleRun(len, pos, esize);
      }
    }
  }
}
