/** Loading any 64-bit constant into a register. */
module A64MovImm {
  import opened Binary
  import opened A64BitMask
  import opened A64Machine
  import opened A64Words
  import opened A64Constant
  import opened TextSection

  /** Running ws sets register r to x and changes nothing else. */
  ghost predicate LoadsAll(ws: seq<nat>, r: nat, x: Value) {
    forall m: Regs :: RunCode(ws, m) == Some(Set(m, r, x))
  }

  /** The number of 16-bit parts of x from part k on that are zero. */
  function Zeros(x: nat, k: nat): nat
    requires k <= 4
    decreases 4 - k
  {
    if k == 4 then 0 else (if Half(x, k) == 0 then 1 else 0) + Zeros(x, k + 1)
  }

  function Max(a: nat, b: nat): nat { if a < b then b else a }

  /** 2 to the power 16 * k, up to the whole word. */
  function Bound(k: nat): nat
    requires k <= 4
  {
    if k == 4 then WORD else Unit(k)
  }

  /** The low k parts of x. */
  function LowParts(x: nat, k: nat): (v: nat)
    requires k <= 4
    ensures v < Bound(k)
  {
    if k == 0 then 0 else
      hide Half;
      var v := LowParts(x, k - 1);
      Room(v, Half(x, k - 1), k);
      v + Half(x, k - 1) * Unit(k - 1)
  }

  lemma Room(v: nat, h: nat, k: nat)
    requires 1 <= k <= 4 && v < Bound(k - 1) && h < 0x1_0000
    ensures v + h * Unit(k - 1) < Bound(k)
  {
    assert k == 1 || k == 2 || k == 3 || k == 4;
  }

  /** The low k parts of x below ones or zeros. */
  function Blend(x: nat, ones: bool, k: nat): (v: Value)
    requires k <= 4
  {
    LowParts(x, k) + if ones then WORD - Bound(k) else 0
  }

  lemma LowAll(x: Value)
    ensures LowParts(x, 4) == x
  {
    assert Half(x, 0) + Half(x, 1) * 0x1_0000 + Half(x, 2) * 0x1_0000_0000 + Half(x, 3) * 0x1_0000_0000_0000 == x;
    hide Half;
    assert LowParts(x, 1) == Half(x, 0);
    assert LowParts(x, 2) == Half(x, 0) + Half(x, 1) * 0x1_0000;
    assert LowParts(x, 3) == LowParts(x, 2) + Half(x, 2) * 0x1_0000_0000;
  }

  lemma BlendHalf(x: nat, ones: bool, k: nat)
    requires k < 4
    ensures Half(Blend(x, ones, k), k) == if ones then 0xffff else 0
  {
    hide Half;
    HalfIs(Blend(x, ones, k), k, LowParts(x, k), if ones then 0xffff else 0, if ones then Unit(3 - k) - 1 else 0);
  }

  /** Inserting part k extends the blend; so does doing nothing when the part is already there. */
  lemma BlendStep(x: nat, ones: bool, k: nat)
    requires k < 4
    ensures Insert(Blend(x, ones, k), k, Half(x, k)) == Blend(x, ones, k + 1)
    ensures Half(x, k) == (if ones then 0xffff else 0) ==> Blend(x, ones, k + 1) == Blend(x, ones, k)
  {
    BlendHalf(x, ones, k);
    hide Half;
  }

  lemma HalfComplement(x: Value, k: nat)
    requires k < 4
    ensures Half(WORD - 1 - x, k) == 0xffff - Half(x, k)
  {
    if k == 0 {
      Split(x, 1, 0x1_0000);
      HalfIs(WORD - 1 - x, k, 1 - 1 - x % 1, 0xffff - Half(x, k),
             WORD / 0x1_0000 - 1 - x / 0x1_0000);
    } else if k == 1 {
      Split(x, 0x1_0000, 0x1_0000_0000);
      HalfIs(WORD - 1 - x, k, 0x1_0000 - 1 - x % 0x1_0000, 0xffff - Half(x, k),
             WORD / 0x1_0000_0000 - 1 - x / 0x1_0000_0000);
    } else if k == 2 {
      Split(x, 0x1_0000_0000, 0x1_0000_0000_0000);
      HalfIs(WORD - 1 - x, k, 0x1_0000_0000 - 1 - x % 0x1_0000_0000, 0xffff - Half(x, k),
             WORD / 0x1_0000_0000_0000 - 1 - x / 0x1_0000_0000_0000);
    } else if k == 3 {
      Split(x, 0x1_0000_0000_0000, WORD);
      HalfIs(WORD - 1 - x, k, 0x1_0000_0000_0000 - 1 - x % 0x1_0000_0000_0000, 0xffff - Half(x, k),
             WORD / WORD - 1 - x / WORD);
    }
  }

  lemma MovesLoads(w: nat, r: nat, x: Value)
    requires Moves(w, r, x)
    ensures Loads(w, r, x)
  {
  }

  lemma LoadsOne(w: nat, r: nat, x: Value)
    requires Loads(w, r, x)
    ensures LoadsAll([w], r, x)
  {
    forall m: Regs ensures RunCode([w], m) == Some(Set(m, r, x)) {
      hide Exec, Set;
      assert [w][1..] == [];
      assert Exec(w, m) == Some(Set(m, r, x));
    }
  }

  /** A MOVK after code that leaves v in r. */
  lemma LoadsInsert(ws: seq<nat>, r: nat, v: Value, k: nat, h: nat, w: nat)
    requires r < 31 && k < 4 && h < HALF && LoadsAll(ws, r, v)
    requires w == 0xf280_0000 + r + h * 32 + k * 0x20_0000
    ensures LoadsAll(ws + [w], r, Insert(v, k, h))
  {
    forall m: Regs ensures RunCode(ws + [w], m) == Some(Set(m, r, Insert(v, k, h))) {
      hide Exec, Insert, RunCode;
      assert RunCode(ws, m) == Some(Set(m, r, v));
      RunAppend(ws, w, m);
      WordWide(true, 3, k, h, r, w, Set(m, r, v));
      assert Set(Set(m, r, v), r, Insert(v, k, h)) == Set(m, r, Insert(v, k, h));
    }
  }

  lemma FirstIs(ones: bool, x: Value, k: nat)
    requires k < 4
    ensures Insert(Blend(x, ones, 0), k, Half(x, k)) ==
            if ones then WORD - 1 - (0xffff - Half(x, k)) * Unit(k) else Half(x, k) * Unit(k)
  {
    var h := Half(x, k);
    if ones {
      HalfIs(WORD - 1, k, Unit(k) - 1, 0xffff, Unit(3 - k) - 1);
    } else {
      HalfIs(0, k, 0, 0, 0);
    }
    hide Half;
  }

  /** The first word: MOVZ or MOVN of part k of x or of its complement, above parts that are all blank. */
  lemma LoadsFirst(ones: bool, r: nat, x: Value, k: nat, w: nat)
    requires r < 31 && k < 4 && Blend(x, ones, k) == Blend(x, ones, 0)
    requires w == (if ones then 0x9280_0000 else 0xd280_0000) + r
                  + Half(if ones then WORD - 1 - x else x, k) * 32 + k * 0x20_0000
    ensures LoadsAll([w], r, Blend(x, ones, k + 1))
  {
    BlendStep(x, ones, k);
    HalfComplement(x, k);
    FirstIs(ones, x, k);
    hide Half, Unit, Blend, Insert, Loads, LoadsAll;
    if ones {
      LoadsMovn(true, k, 0xffff - Half(x, k), r, Blend(x, ones, k + 1), w);
    } else {
      LoadsMovz(true, k, Half(x, k), r, Blend(x, ones, k + 1), w);
    }
    LoadsOne(w, r, Blend(x, ones, k + 1));
  }

  /** One instruction if that is enough, else one for each 16-bit part that is not blank, blanks being zeros or ones,
    * whichever are more. */
  method MovImm(text: Text<nat>, r: nat, x: Value) returns (ghost ws: seq<nat>)
    requires r < 31
    modifies text
    ensures text.code == old(text.code) + ws && LoadsAll(ws, r, x) && ws != []
    ensures (exists v: nat :: Moves(v, r, x)) ==> |ws| == 1
    ensures (forall v: nat :: !Moves(v, r, x)) ==> |ws| == 4 - Max(Zeros(x, 0), Zeros(WORD - 1 - x, 0))
  {
    hide Half, Unit, LoadsAll, Loads, Blend, Insert, Moves;
    var i := MovI(r, x);
    if i != 0 {
      text.O(i); // a single move
      MovesLoads(i, r, x);
      LoadsOne(i, r, x);
      ws := [i];
      return;
    }
    ws := [];
    var z, n, k := 0, 0, 0;
    while k < 4
      invariant k <= 4
      invariant z + Zeros(x, k) == Zeros(x, 0) && n + Zeros(WORD - 1 - x, k) == Zeros(WORD - 1 - x, 0)
    {
      z := z + if Half(x, k) == 0 then 1 else 0;
      n := n + if Half(WORD - 1 - x, k) == 0 then 1 else 0;
      k := k + 1;
    }
    var mov1, x1 := 0xd280_0000, x; // movz
    ghost var ones := n > z;
    if n > z {
      x1 := WORD - 1 - x;
      mov1 := 0x9280_0000; // movn
    }
    k := 0;
    while k < 4
      invariant k <= 4 && ws == [] && text.code == old(text.code)
      invariant Blend(x, ones, k) == Blend(x, ones, 0)
      invariant Zeros(x1, 0) == k + Zeros(x1, k)
    {
      if Half(x1, k) != 0 {
        text.O(mov1 + r + Half(x1, k) * 32 + k * 0x20_0000);
        LoadsFirst(ones, r, x, k, mov1 + r + Half(x1, k) * 32 + k * 0x20_0000);
        ws := [mov1 + r + Half(x1, k) * 32 + k * 0x20_0000];
        break;
      }
      HalfComplement(x, k);
      BlendStep(x, ones, k);
      k := k + 1;
    }
    if k == 4 {
      BlendEnds(x, ones);
      assert false;
    }
    BlendStep(x, ones, k);
    HalfComplement(x, k);
    k := k + 1;
    while k < 4
      invariant k <= 4
      invariant text.code == old(text.code) + ws && LoadsAll(ws, r, Blend(x, ones, k))
      invariant |ws| + Zeros(x1, 0) == k + Zeros(x1, k) && ws != []
    {
      BlendStep(x, ones, k);
      HalfComplement(x, k);
      if Half(x1, k) != 0 {
        var w := 0xf280_0000 + r + Half(x, k) * 32 + k * 0x20_0000;
        text.O(w); // movk
        LoadsInsert(ws, r, Blend(x, ones, k), k, Half(x, k), w);
        ws := ws + [w];
      }
      k := k + 1;
    }
    BlendEnds(x, ones);
  }

  lemma BlendEnds(x: Value, ones: bool)
    ensures Blend(x, ones, 0) == (if ones then WORD - 1 else 0) && Blend(x, ones, 4) == x
  {
    LowAll(x);
  }
}
