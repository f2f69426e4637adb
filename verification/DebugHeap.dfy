/** The debug allocator: a doubly linked list of the live blocks, their total size, and its peak. The system allocator
  * is the choice of addresses. */
module DebugHeap {
  const WORD: nat := 0x1_0000_0000

  function Sum(sizes: seq<nat>): nat {
    if sizes == [] then 0 else sizes[0] + Sum(sizes[1..])
  }

  lemma {:induction false} SumAppend(a: seq<nat>, b: seq<nat>)
    ensures Sum(a + b) == Sum(a) + Sum(b)
  {
    if a == [] {
      assert a + b == b;
    } else {
      assert (a + b)[1..] == a[1..] + b;
      SumAppend(a[1..], b);
    }
  }

  /** The sizes without the one at i. */
  function Drop<T>(s: seq<T>, i: nat): (r: seq<T>)
    requires i < |s|
    ensures |r| == |s| - 1 && forall k :: 0 <= k < |r| ==> r[k] == if k < i then s[k] else s[k + 1]
  {
    s[..i] + s[i + 1..]
  }

  lemma SumDrop(s: seq<nat>, i: nat)
    requires i < |s|
    ensures Sum(Drop(s, i)) == Sum(s) - s[i]
  {
    assert s == s[..i] + s[i..];
    SumAppend(s[..i], s[i..]);
    SumAppend(s[..i], s[i + 1..]);
    assert s[i..][1..] == s[i + 1..];
  }

  lemma SumUpdate(s: seq<nat>, i: nat, x: nat)
    requires i < |s|
    ensures Sum(s[i := x]) == Sum(s) - s[i] + x
  {
    SumDrop(s, i);
    SumDrop(s[i := x], i);
    assert Drop(s[i := x], i) == Drop(s, i);
  }

  /** The unsigned total wraps around at 32 bits. */
  function Add32(a: nat, b: nat): nat { (a + b) % WORD }

  function Sub32(a: nat, b: nat): int { (a - b) % WORD }

  lemma Wrap(total: nat, x: nat, y: nat)
    requires x <= total
    ensures 0 <= Sub32(total % WORD, x) && Sub32(total % WORD, x) == (total - x) % WORD
    ensures Add32((total - x) % WORD, y) == (total - x + y) % WORD
  {
  }

  /** The header of a block; links are addresses, 0 is NULL. */
  datatype Header = Header(size: nat, prev: nat, next: nat)

  /** The allocated headers by address. */
  type Memory = map<nat, Header>

  /** The size that marks a freed block. */
  const FREED: nat := 0xffff_ffff

  function After(blocks: seq<nat>, i: nat): nat { if i + 1 < |blocks| then blocks[i + 1] else 0 }

  function Before(blocks: seq<nat>, i: nat): nat { if 0 < i <= |blocks| then blocks[i - 1] else 0 }

  predicate Distinct(blocks: seq<nat>) { forall i, j :: 0 <= i < j < |blocks| ==> blocks[i] != blocks[j] }

  /** Block i is allocated and its links are its neighbours. */
  predicate NodeOk(mem: Memory, blocks: seq<nat>, i: nat)
    requires i < |blocks|
  {
    blocks[i] != 0 && blocks[i] in mem && mem[blocks[i]].next == After(blocks, i)
    && mem[blocks[i]].prev == Before(blocks, i)
  }

  /** The blocks are exactly the allocated headers, in a consistent list. */
  ghost predicate Linked(mem: Memory, blocks: seq<nat>) {
    && Distinct(blocks)
    && (forall a :: a in mem <==> a in blocks)
    && (forall i :: 0 <= i < |blocks| ==> NodeOk(mem, blocks, i))
  }

  ghost predicate Sized(mem: Memory, blocks: seq<nat>, sizes: seq<nat>) {
    |sizes| == |blocks| && forall i :: 0 <= i < |blocks| ==> blocks[i] in mem && mem[blocks[i]].size == sizes[i] < WORD
  }

  /** m is the largest of the totals reached. */
  predicate IsPeak(m: nat, totals: seq<nat>) {
    (forall i :: 0 <= i < |totals| ==> totals[i] <= m) && (if totals == [] then m == 0 else m in totals)
  }

  /** The memory after the neighbours of a header have been pointed elsewhere. */
  function Relinked(mem: Memory, prev: nat, next: nat, newNext: nat, newPrev: nat): Memory
    requires (prev != 0 ==> prev in mem) && (next != 0 ==> next in mem)
  {
    var a := if next != 0 then mem[next := mem[next].(prev := newPrev)] else mem;
    if prev != 0 then a[prev := a[prev].(next := newNext)] else a
  }

  function Head(blocks: seq<nat>): nat { if blocks == [] then 0 else blocks[0] }

  lemma RelinkedAt(mem: Memory, prev: nat, next: nat, newNext: nat, newPrev: nat)
    requires (prev != 0 ==> prev in mem) && (next != 0 ==> next in mem) && 0 !in mem
    ensures var r := Relinked(mem, prev, next, newNext, newPrev);
      && (forall x :: x in r <==> x in mem)
      && (forall x :: x in mem ==>
        r[x] == Header(mem[x].size, if x == next then newPrev else mem[x].prev,
                       if x == prev then newNext else mem[x].next))
  {
  }

  lemma NoNull(mem: Memory, blocks: seq<nat>)
    requires Linked(mem, blocks)
    ensures 0 !in mem && 0 !in blocks
  {
    forall i | 0 <= i < |blocks|
      ensures blocks[i] != 0
    {
      assert NodeOk(mem, blocks, i);
    }
  }

  /** A block is another one's neighbour only at the next index. */
  lemma Neighbours(blocks: seq<nat>, i: nat, k: nat)
    requires Distinct(blocks) && 0 !in blocks && i < |blocks| && k < |blocks|
    ensures blocks[k] == After(blocks, i) <==> k == i + 1
    ensures blocks[k] == Before(blocks, i) <==> k + 1 == i
    ensures blocks[k] == blocks[i] <==> k == i
  {
    assert blocks[k] in blocks;
  }

  lemma LinkFirst(mem: Memory, blocks: seq<nat>, a: nat, size: nat)
    requires Linked(mem, blocks) && a != 0 && a !in mem
    ensures var h := Head(blocks);
      var m := mem[a := Header(size, 0, h)];
      (h != 0 ==> h in m) && Linked(Relinked(m, 0, h, 0, a), [a] + blocks)
  {
    hide Relinked;
    NoNull(mem, blocks);
    var h, all := Head(blocks), [a] + blocks;
    var m := mem[a := Header(size, 0, h)];
    assert h != 0 ==> h in blocks;
    RelinkedAt(m, 0, h, 0, a);
    var r := Relinked(m, 0, h, 0, a);
    forall k | 0 <= k < |all|
      ensures NodeOk(r, all, k)
    {
      if k > 0 {
        assert NodeOk(mem, blocks, k - 1) && all[k] == blocks[k - 1];
      }
    }
    forall x
      ensures x in r <==> x in all
    {
      assert x in all <==> x == a || x in blocks;
    }
  }

  lemma SizedFirst(mem: Memory, blocks: seq<nat>, sizes: seq<nat>, a: nat, size: nat, r: Memory)
    requires Sized(mem, blocks, sizes) && size < WORD && a in r && r[a].size == size && a !in mem
    requires forall x :: x in mem ==> x in r && r[x].size == mem[x].size
    ensures Sized(r, [a] + blocks, [size] + sizes)
  {
  }

  lemma LinksAt(mem: Memory, blocks: seq<nat>, sizes: seq<nat>, i: nat)
    requires Linked(mem, blocks) && Sized(mem, blocks, sizes) && i < |blocks|
    ensures blocks[i] in mem && mem[blocks[i]].next == After(blocks, i) && mem[blocks[i]].prev == Before(blocks, i)
    ensures (After(blocks, i) != 0 ==> After(blocks, i) in mem) && (Before(blocks, i) != 0 ==> Before(blocks, i) in mem)
    ensures |sizes| == |blocks| && mem[blocks[i]].size == sizes[i] <= Sum(sizes) && sizes[i] < WORD
    ensures Head(blocks) == blocks[i] <==> i == 0
  {
    SumDrop(sizes, i);
    assert NodeOk(mem, blocks, i);
  }

  lemma UnlinkNode(mem: Memory, blocks: seq<nat>, i: nat, k: nat, r: Memory)
    requires Distinct(blocks) && 0 !in blocks && i < |blocks| && k + 1 < |blocks|
    requires NodeOk(mem, blocks, if k < i then k else k + 1)
    requires var n, p := After(blocks, i), Before(blocks, i);
      forall x :: x in mem ==>
        x in r && r[x] == Header(mem[x].size, if x == n then p else mem[x].prev,
                                 if x == p then n else mem[x].next)
    ensures NodeOk(r - {blocks[i]}, Drop(blocks, i), k)
  {
    var j := if k < i then k else k + 1;
    Neighbours(blocks, i, j);
    hide Distinct;
    assert Drop(blocks, i)[k] == blocks[j];
  }

  lemma Unlink(mem: Memory, blocks: seq<nat>, i: nat)
    requires Linked(mem, blocks) && i < |blocks|
    requires var n, p := After(blocks, i), Before(blocks, i); (n != 0 ==> n in mem) && (p != 0 ==> p in mem)
    ensures var n, p := After(blocks, i), Before(blocks, i);
      Linked(Relinked(mem, p, n, n, p) - {blocks[i]}, Drop(blocks, i))
    ensures Head(Drop(blocks, i)) == if i == 0 then After(blocks, i) else Head(blocks)
  {
    hide Relinked;
    NoNull(mem, blocks);
    var n, p, rest := After(blocks, i), Before(blocks, i), Drop(blocks, i);
    RelinkedAt(mem, p, n, n, p);
    var r := Relinked(mem, p, n, n, p) - {blocks[i]};
    forall k | 0 <= k < |rest|
      ensures NodeOk(r, rest, k)
    {
      UnlinkNode(mem, blocks, i, k, Relinked(mem, p, n, n, p));
    }
    InDrop(blocks, i);
  }

  lemma InDrop(blocks: seq<nat>, i: nat)
    requires i < |blocks| && Distinct(blocks)
    ensures forall x :: x in Drop(blocks, i) <==> x in blocks && x != blocks[i]
    ensures Distinct(Drop(blocks, i))
  {
    var rest := Drop(blocks, i);
    forall x | x in blocks && x != blocks[i]
      ensures x in rest
    {
      var k :| 0 <= k < |blocks| && blocks[k] == x;
      assert rest[if k < i then k else k - 1] == x;
    }
  }

  lemma SizedDrop(mem: Memory, blocks: seq<nat>, sizes: seq<nat>, i: nat, r: Memory)
    requires Sized(mem, blocks, sizes) && Distinct(blocks) && i < |blocks|
    requires forall x :: x in mem && x != blocks[i] ==> x in r && r[x].size == mem[x].size
    ensures i < |sizes| && Sized(r, Drop(blocks, i), Drop(sizes, i))
  {
  }

  lemma ReplaceNode(mem: Memory, blocks: seq<nat>, i: nat, a: nat, size: nat, k: nat, r: Memory)
    requires Distinct(blocks) && 0 !in blocks && i < |blocks| && k < |blocks| && a != 0 && NodeOk(mem, blocks, k)
    requires a == blocks[i] || a !in mem
    requires var n, p := After(blocks, i), Before(blocks, i);
      var m := (mem - {blocks[i]})[a := Header(size, p, n)];
      forall x :: x in m ==>
        x in r && r[x] == Header(m[x].size, if x == n then a else m[x].prev,
                                 if x == p then a else m[x].next)
    requires a != After(blocks, i) && a != Before(blocks, i)
    ensures NodeOk(r, blocks[i := a], k)
  {
    Neighbours(blocks, i, k);
    hide Distinct;
    var n, p := After(blocks, i), Before(blocks, i);
    var m := (mem - {blocks[i]})[a := Header(size, p, n)];
    if k == i {
      assert a in m;
    } else {
      assert blocks[k] in m && m[blocks[k]] == mem[blocks[k]];
    }
  }

  /** Header i moves to address a with a new size, and its neighbours are told. */
  lemma Replace(mem: Memory, blocks: seq<nat>, i: nat, a: nat, size: nat)
    requires Linked(mem, blocks) && i < |blocks| && a != 0 && (a == blocks[i] || a !in mem)
    requires blocks[i] in mem && mem[blocks[i]].next == After(blocks, i) && mem[blocks[i]].prev == Before(blocks, i)
    ensures var n, p := After(blocks, i), Before(blocks, i);
      var m := (mem - {blocks[i]})[a := Header(size, p, n)];
      (n != 0 ==> n in m) && (p != 0 ==> p in m) && Linked(Relinked(m, p, n, a, a), blocks[i := a])
    ensures Head(blocks[i := a]) == if i == 0 then a else Head(blocks)
  {
    hide Relinked;
    NoNull(mem, blocks);
    var n, p, now := After(blocks, i), Before(blocks, i), blocks[i := a];
    var m := (mem - {blocks[i]})[a := Header(size, p, n)];
    assert n != 0 ==> NodeOk(mem, blocks, i + 1);
    assert p != 0 ==> NodeOk(mem, blocks, i - 1);
    if i + 1 < |blocks| {
      Neighbours(blocks, i, i + 1);
    }
    if i > 0 {
      Neighbours(blocks, i, i - 1);
    }
    RelinkedAt(m, p, n, a, a);
    var r := Relinked(m, p, n, a, a);
    forall k | 0 <= k < |now|
      ensures NodeOk(r, now, k)
    {
      assert NodeOk(mem, blocks, k);
      ReplaceNode(mem, blocks, i, a, size, k, r);
    }
    InReplaced(blocks, i, a);
  }

  lemma InReplaced(blocks: seq<nat>, i: nat, a: nat)
    requires i < |blocks| && Distinct(blocks) && (a == blocks[i] || a !in blocks)
    ensures forall x :: x in blocks[i := a] <==> x == a || (x in blocks && x != blocks[i])
    ensures Distinct(blocks[i := a])
  {
    var now := blocks[i := a];
    assert now[i] == a;
    forall x | x in blocks && x != blocks[i]
      ensures x in now
    {
      var k :| 0 <= k < |blocks| && blocks[k] == x;
      assert now[k] == x;
    }
  }

  lemma SizedReplaced(mem: Memory, blocks: seq<nat>, sizes: seq<nat>, i: nat, a: nat, size: nat, r: Memory)
    requires Sized(mem, blocks, sizes) && Distinct(blocks) && i < |blocks| && size < WORD && a in r && r[a].size == size
    requires forall x :: x in mem && x != blocks[i] ==> x in r && r[x].size == mem[x].size
    ensures i < |sizes| && Sized(r, blocks[i := a], sizes[i := size])
  {
  }

  /** Everything that moving block i keeps. */
  lemma MoveKeeps(mem: Memory, blocks: seq<nat>, sizes: seq<nat>, i: nat, b: nat, size: nat)
    requires Linked(mem, blocks) && Sized(mem, blocks, sizes) && i < |blocks| && size < WORD
    requires b != 0 && (b == blocks[i] || b !in mem)
    ensures var p, n := Before(blocks, i), After(blocks, i);
      var m := (mem - {blocks[i]})[b := Header(size, p, n)];
      && (n != 0 ==> n in m) && (p != 0 ==> p in m) && Linked(Relinked(m, p, n, b, b), blocks[i := b])
      && i < |sizes| && Sized(Relinked(m, p, n, b, b), blocks[i := b], sizes[i := size])
      && Sum(sizes[i := size]) == Sum(sizes) - sizes[i] + size && sizes[i] <= Sum(sizes)
    ensures Head(blocks[i := b]) == if i == 0 then b else Head(blocks)
  {
    hide Sum, Linked, Sized, Relinked, Head;
    LinksAt(mem, blocks, sizes, i);
    SumUpdate(sizes, i, size);
    Replace(mem, blocks, i, b, size);
    NoNull(mem, blocks);
    LinkedDistinct(mem, blocks);
    var p, n := Before(blocks, i), After(blocks, i);
    var m := (mem - {blocks[i]})[b := Header(size, p, n)];
    RelinkedAt(m, p, n, b, b);
    SizedReplaced(mem, blocks, sizes, i, b, size, Relinked(m, p, n, b, b));
  }

  /** Everything that removing block i keeps. */
  lemma RemoveKeeps(mem: Memory, blocks: seq<nat>, sizes: seq<nat>, i: nat)
    requires Linked(mem, blocks) && Sized(mem, blocks, sizes) && i < |blocks|
    ensures var p, n := Before(blocks, i), After(blocks, i);
      && (n != 0 ==> n in mem) && (p != 0 ==> p in mem)
      && Linked(Relinked(mem, p, n, n, p) - {blocks[i]}, Drop(blocks, i))
      && i < |sizes| && Sized(Relinked(mem, p, n, n, p) - {blocks[i]}, Drop(blocks, i), Drop(sizes, i))
      && Sum(Drop(sizes, i)) == Sum(sizes) - sizes[i] && sizes[i] <= Sum(sizes)
    ensures Head(Drop(blocks, i)) == if i == 0 then After(blocks, i) else Head(blocks)
  {
    hide Sum, Linked, Sized, Relinked, Head, Drop;
    LinksAt(mem, blocks, sizes, i);
    SumDrop(sizes, i);
    Unlink(mem, blocks, i);
    NoNull(mem, blocks);
    LinkedDistinct(mem, blocks);
    var p, n := Before(blocks, i), After(blocks, i);
    RelinkedAt(mem, p, n, n, p);
    SizedDrop(mem, blocks, sizes, i, Relinked(mem, p, n, n, p) - {blocks[i]});
  }

  lemma SumFirst(x: nat, s: seq<nat>)
    ensures Sum([x] + s) == x + Sum(s)
  {
    assert ([x] + s)[1..] == s;
  }

  lemma PeakNext(m: nat, totals: seq<nat>, x: nat)
    requires IsPeak(m, totals)
    ensures IsPeak(if x > m then x else m, totals + [x])
  {
  }

  class Heap {
    var mem: Memory
    var chain: nat
    var curSize: nat
    var maxSize: nat
    /** The live blocks from the chain on, their sizes, and the totals after each allocation. */
    ghost var blocks: seq<nat>
    ghost var sizes: seq<nat>
    ghost var totals: seq<nat>

    ghost predicate Valid()
      reads this
    {
      && chain == Head(blocks) && Linked(mem, blocks) && Sized(mem, blocks, sizes)
      && curSize == Sum(sizes) % WORD && IsPeak(maxSize, totals)
    }

    constructor ()
      ensures Valid() && blocks == [] && totals == []
    {
      mem, chain, curSize, maxSize := map[], 0, 0, 0;
      blocks, sizes, totals := [], [], [];
    }

    /** mem_cur_size += size, and the new peak. */
    method Count(size: nat, ghost total: nat)
      requires curSize == total % WORD && IsPeak(maxSize, totals)
      modifies this`curSize, this`maxSize
      ensures curSize == (total + size) % WORD && IsPeak(maxSize, totals + [curSize])
    {
      hide IsPeak;
      Wrap(total, 0, size);
      curSize := Add32(curSize, size);
      PeakNext(maxSize, totals, curSize);
      if curSize > maxSize {
        maxSize := curSize;
      }
    }

    /** mem_cur_size -= size */
    method Discount(size: nat, ghost total: nat)
      requires curSize == total % WORD && size <= total
      modifies this`curSize
      ensures curSize == (total - size) % WORD
    {
      Wrap(total, size, 0);
      curSize := Sub32(curSize, size);
    }

    /** Points the neighbours of a header at newPrev and newNext. */
    method Relink(prev: nat, next: nat, newNext: nat, newPrev: nat)
      requires (prev != 0 ==> prev in mem) && (next != 0 ==> next in mem)
      modifies this`mem
      ensures mem == Relinked(old(mem), prev, next, newNext, newPrev)
    {
      if next != 0 {
        mem := mem[next := mem[next].(prev := newPrev)];
      }
      if prev != 0 {
        mem := mem[prev := mem[prev].(next := newNext)];
      }
    }

    /** A new block, at an address a that the system allocator chose. */
    method Malloc(size: nat, a: nat)
      requires Valid() && size < WORD && a != 0 && a !in mem
      modifies this
      ensures Valid() && blocks == [a] + old(blocks) && sizes == [size] + old(sizes)
      ensures totals == old(totals) + [curSize]
    {
      hide Sum, IsPeak, Linked, Sized, Relinked, Head;
      LinkFirst(mem, blocks, a, size);
      ghost var mem0 := mem;
      NoNull(mem, blocks);
      mem := mem[a := Header(size, 0, chain)];
      RelinkedAt(mem, 0, chain, 0, a);
      Relink(0, chain, 0, a);
      SizedFirst(mem0, blocks, sizes, a, size, mem);
      chain := a;
      SumFirst(size, sizes);
      Count(size, Sum(sizes));
      blocks, sizes, totals := [a] + blocks, [size] + sizes, totals + [curSize];
      HeadFirst(a, old(blocks));
    }

    /** The check of a block, which ends the program where it fails. */
    method MallocCheck(a: nat) returns (ok: bool)
      requires a in mem
      ensures ok <==> mem[a].size != FREED
    {
      ok := mem[a].size != FREED;
    }

    /** Frees the live block at a; i is its place in the chain. */
    method Free(a: nat, ghost i: nat) returns (ok: bool)
      requires Valid() && (a != 0 ==> i < |blocks| && blocks[i] == a)
      modifies this
      ensures Valid() && totals == old(totals)
      ensures ok <==> a == 0 || old(sizes[i]) != FREED
      ensures if a != 0 && ok then blocks == Drop(old(blocks), i) && sizes == Drop(old(sizes), i)
              else blocks == old(blocks) && sizes == old(sizes)
    {
      hide Sum, IsPeak, Linked, Sized, Relinked, Head, Drop, Before, After;
      if a == 0 {
        return true;
      }
      LinksAt(mem, blocks, sizes, i);
      ok := MallocCheck(a);
      if ok {
        RemoveKeeps(mem, blocks, sizes, i);
        var p, n := mem[a].prev, mem[a].next;
        Discount(mem[a].size, Sum(sizes));
        Relink(p, n, n, p);
        mem := mem - {a};
        if a == chain {
          chain := n;
        }
        blocks, sizes := Drop(blocks, i), Drop(sizes, i);
      }
    }

    /** Resizes the live block at a, which the system allocator moves to b, or allocates if a is NULL. */
    method Realloc(a: nat, size: nat, b: nat, ghost i: nat) returns (ok: bool)
      requires Valid() && size < WORD && b != 0 && (b == a || b !in mem) && (a != 0 ==> i < |blocks| && blocks[i] == a)
      modifies this
      ensures Valid()
      ensures ok <==> a == 0 || old(sizes[i]) != FREED
      ensures ok ==> totals == old(totals) + [curSize]
      ensures ok && a == 0 ==> blocks == [b] + old(blocks) && sizes == [size] + old(sizes)
      ensures ok && a != 0 ==>
        blocks == old(blocks)[i := b] && |sizes| == |old(sizes)| && sizes == old(sizes)[i := size]
      ensures !ok ==> blocks == old(blocks) && sizes == old(sizes) && totals == old(totals)
    {
      hide Sum, IsPeak, Linked, Sized, Relinked, Head, Before, After, Distinct, Add32, Sub32;
      if a == 0 {
        Malloc(size, b);
        return true;
      }
      LinksAt(mem, blocks, sizes, i);
      ok := MallocCheck(a);
      if ok {
        MoveKeeps(mem, blocks, sizes, i, b, size);
        var p, n := mem[a].prev, mem[a].next;
        Discount(mem[a].size, Sum(sizes));
        mem := (mem - {a})[b := Header(size, p, n)];
        Relink(p, n, b, b);
        if a == chain {
          chain := b;
        }
        Count(size, Sum(sizes) - sizes[i]);
        blocks, sizes, totals := blocks[i := b], sizes[i := size], totals + [curSize];
      }
    }
  }

  lemma HeadFirst(a: nat, blocks: seq<nat>)
    ensures Head([a] + blocks) == a
  {
  }

  lemma LinkedDistinct(mem: Memory, blocks: seq<nat>)
    requires Linked(mem, blocks)
    ensures Distinct(blocks)
  {
  }
}
