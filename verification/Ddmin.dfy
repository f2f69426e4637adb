/** Delta debugging by lines, the fixpoint loop around it, and the trimming of each line; the oracle is any
  * deterministic predicate on texts. */
module Ddmin {
  type Line = string

  function Join(lines: seq<Line>): string {
    if lines == [] then ""
    else if |lines| == 1 then lines[0]
    else lines[0] + "\n" + Join(lines[1..])
  }

  /** The file that a list of lines is written to. */
  function Render(lines: seq<Line>): string { Join(lines) + "\n" }

  /** The lines without the chunk at i; the last chunk may be short. */
  function Without(lines: seq<Line>, i: nat, chunk: nat): seq<Line>
    requires i <= |lines|
  {
    lines[..i] + if i + chunk >= |lines| then [] else lines[i + chunk..]
  }

  /** at lists the increasing positions in b of the elements of a. */
  ghost predicate Picks(at: seq<nat>, a: seq<Line>, b: seq<Line>) {
    && |at| == |a|
    && (forall k :: 0 <= k < |a| ==> at[k] < |b| && a[k] == b[at[k]])
    && (forall j, k :: 0 <= j < k < |a| ==> at[j] < at[k])
  }

  ghost predicate Subsequence(a: seq<Line>, b: seq<Line>) {
    exists at: seq<nat> :: Picks(at, a, b)
  }

  lemma SubsequenceSelf(a: seq<Line>)
    ensures Subsequence(a, a)
  {
    var at: seq<nat> := seq(|a|, k => k);
    assert Picks(at, a, a);
  }

  lemma SubsequenceTrans(a: seq<Line>, b: seq<Line>, c: seq<Line>)
    requires Subsequence(a, b) && Subsequence(b, c)
    ensures Subsequence(a, c)
  {
    var f: seq<nat> :| Picks(f, a, b);
    var g: seq<nat> :| Picks(g, b, c);
    var at: seq<nat> := seq(|a|, k requires 0 <= k < |a| => g[f[k]]);
    assert Picks(at, a, c);
  }

  lemma WithoutSubsequence(lines: seq<Line>, i: nat, chunk: nat)
    requires i <= |lines|
    ensures Subsequence(Without(lines, i, chunk), lines)
  {
    var at: seq<nat> := seq(|Without(lines, i, chunk)|, k => if k < i then k else k + chunk);
    assert Picks(at, Without(lines, i, chunk), lines);
  }

  lemma {:induction false} AtLeast(at: seq<nat>, a: seq<Line>, b: seq<Line>, k: nat)
    requires Picks(at, a, b) && k < |a|
    ensures k <= at[k]
  {
    if k > 0 {
      AtLeast(at, a, b, k - 1);
    }
  }

  lemma {:induction false} AtMost(at: seq<nat>, a: seq<Line>, b: seq<Line>, k: nat)
    requires Picks(at, a, b) && k < |a|
    ensures at[k] + (|a| - k) <= |b|
    decreases |a| - k
  {
    if k + 1 < |a| {
      AtMost(at, a, b, k + 1);
    }
  }

  lemma SubsequenceLength(a: seq<Line>, b: seq<Line>)
    requires Subsequence(a, b)
    ensures |a| <= |b| && (|a| == |b| ==> a == b)
  {
    var at: seq<nat> :| Picks(at, a, b);
    forall k | 0 <= k < |a| ensures k <= at[k] <= |b| - |a| + k {
      AtLeast(at, a, b, k);
      AtMost(at, a, b, k);
    }
    if a != [] {
      AtMost(at, a, b, 0);
    }
  }

  /** Calls still to be paid for: one reducing pass per line count, doubling passes until n reaches the line count,
    * and a last pass. */
  function Budget(len: nat, n: nat): nat {
    len * (len + 1) / 2 + (if n < len then 2 * (len - n) + len else 0) + len
  }

  lemma BudgetReduced(len: nat, n: nat, less: nat, calls: nat)
    requires less < len && calls <= len && n >= 2
    ensures calls + Budget(less, if n - 1 > 2 then n - 1 else 2) <= Budget(len, n)
  {
    Triangle(len, less);
  }

  lemma Triangle(len: nat, less: nat)
    requires less < len
    ensures less * (less + 1) / 2 + len <= len * (len + 1) / 2
  {
    assert less * (less + 1) <= (len - 1) * len;
    assert (len - 1) * len + 2 * len == len * (len + 1);
  }

  function Times(k: nat, chunk: nat): nat { k * chunk }

  lemma TimesNext(k: nat, chunk: nat)
    ensures Times(0, chunk) == 0 && Times(k + 1, chunk) == Times(k, chunk) + chunk
  {
  }

  lemma TimesMono(a: nat, b: nat, chunk: nat)
    requires a <= b
    ensures Times(a, chunk) <= Times(b, chunk) && (chunk > 0 ==> a <= Times(a, chunk))
  {
  }

  /** The chunk size of a pass. */
  function Chunk(len: nat, n: nat): (chunk: nat)
    requires n > 0
    ensures chunk > 0
  {
    if len / n > 1 then len / n else 1
  }

  lemma ChunkSize(len: nat, n: nat)
    requires n > 0
    ensures n >= len ==> Chunk(len, n) == 1
    ensures n <= len ==> len < 2 * Times(n, Chunk(len, n))
  {
    var q, r := len / n, len % n;
    assert len == n * q + r;
    if n <= len {
      assert q >= 1;
      assert n * q >= n;
    } else {
      assert q == 0;
    }
  }

  /** The granularities that ddmin tries while nothing can be removed: 2, 4, 8 and so on, up to one chunk for each
    * line. */
  function Granularity(len: nat, j: nat): (n: nat)
    ensures len >= 2 ==> 2 <= n <= len
  {
    if j == 0 then 2
    else
      var n := 2 * Granularity(len, j - 1);
      if n < len then n else len
  }

  lemma GranularityFirst(len: nat)
    ensures Granularity(len, 0) == 2
  {
  }

  lemma GranularityNext(len: nat, j: nat)
    ensures Granularity(len, j + 1) == if 2 * Granularity(len, j) < len then 2 * Granularity(len, j) else len
  {
  }

  lemma {:induction false} GranularityEnds(len: nat, i: nat, j: nat)
    requires len >= 2 && Granularity(len, i) >= len && i <= j
    ensures Granularity(len, j) == len
    decreases j - i
  {
    if i < j {
      GranularityEnds(len, i, j - 1);
    }
  }

  /** A pass that removes nothing asks once a chunk. */
  lemma PassCost(len: nat, n: nat, calls: nat)
    requires n >= 1 && (calls > 0 ==> Times(calls - 1, Chunk(len, n)) < len)
    ensures calls <= len && (n <= len ==> calls <= 2 * n)
  {
    hide Times, Chunk;
    ChunkSize(len, n);
    if calls > 0 {
      TimesMono(calls - 1, calls - 1, Chunk(len, n));
      if calls - 1 >= 2 * n {
        TimesMono(2 * n, calls - 1, Chunk(len, n));
        TimesTwice(n, Chunk(len, n));
      }
    }
  }

  lemma TimesTwice(n: nat, chunk: nat)
    ensures Times(2 * n, chunk) == 2 * Times(n, chunk)
  {
  }

  lemma BudgetDoubled(len: nat, n: nat, calls: nat)
    requires 2 <= n < len && calls <= len && calls <= 2 * n
    ensures calls + Budget(len, if 2 * n < len then 2 * n else len) <= Budget(len, n)
  {
  }

  /** The bound in the number of lines alone. */
  lemma BudgetBound(len: nat)
    ensures len >= 2 ==> Budget(len, 2) <= 3 * len * len
  {
  }

  datatype Outcome = NotInteresting | CheckFailed | Done(text: string)

  /** The line boundaries of str.splitlines. */
  predicate IsBreak(c: char) {
    c in {'\n', '\r', '\U{0b}', '\U{0c}', '\U{1c}', '\U{1d}', '\U{1e}', '\U{85}', '\U{2028}', '\U{2029}'}
  }

  /** The first boundary at or after i. */
  function LineEnd(text: string, i: nat): (k: nat)
    requires i <= |text|
    ensures i <= k <= |text| && (k < |text| ==> IsBreak(text[k]))
    decreases |text| - i
  {
    if i == |text| || IsBreak(text[i]) then i else LineEnd(text, i + 1)
  }

  function SplitLines(text: string): (lines: seq<Line>)
    decreases |text|
  {
    if text == "" then [] else
      var k := LineEnd(text, 0);
      if k == |text| then [text]
      else if text[k] == '\r' && k + 1 < |text| && text[k + 1] == '\n' then [text[..k]] + SplitLines(text[k + 2..])
      else [text[..k]] + SplitLines(text[k + 1..])
  }

  predicate Unbroken(lines: seq<Line>) {
    forall i, j :: 0 <= i < |lines| && 0 <= j < |lines[i]| ==> !IsBreak(lines[i][j])
  }

  lemma {:induction false} LineEndAt(text: string, i: nat, k: nat)
    requires i <= k < |text| && IsBreak(text[k]) && forall j :: i <= j < k ==> !IsBreak(text[j])
    ensures LineEnd(text, i) == k
    decreases k - i
  {
    hide IsBreak;
    if i < k {
      LineEndAt(text, i + 1, k);
    }
  }

  lemma NewlineBreaks()
    ensures IsBreak('\n')
  {
  }

  lemma SplitFirst(first: Line, rest: string)
    requires forall j :: 0 <= j < |first| ==> !IsBreak(first[j])
    ensures SplitLines(first + "\n" + rest) == [first] + SplitLines(rest)
  {
    NewlineBreaks();
    hide IsBreak;
    var text := first + "\n" + rest;
    LineEndAt(text, 0, |first|);
    assert text[..|first|] == first && text[|first|] == '\n' && text[|first| + 1..] == rest;
  }

  lemma RenderFirst(lines: seq<Line>)
    requires lines != []
    ensures Render(lines) == lines[0] + "\n" + if |lines| == 1 then "" else Render(lines[1..])
  {
  }

  /** Reading back a file of lines gives the lines. */
  lemma {:induction false} SplitRender(lines: seq<Line>)
    requires lines != [] && Unbroken(lines)
    ensures SplitLines(Render(lines)) == lines
  {
    hide IsBreak, Render, LineEnd;
    RenderFirst(lines);
    SplitFirst(lines[0], if |lines| == 1 then "" else Render(lines[1..]));
    assert lines == [lines[0]] + lines[1..];
    if |lines| > 1 {
      SplitRender(lines[1..]);
    }
  }

  lemma {:induction false} NoBreakBefore(text: string, i: nat)
    requires i <= |text|
    ensures forall j :: i <= j < LineEnd(text, i) ==> !IsBreak(text[j])
    decreases |text| - i
  {
    hide IsBreak;
    if i < |text| && !IsBreak(text[i]) {
      NoBreakBefore(text, i + 1);
    }
  }

  lemma UnbrokenCons(first: Line, lines: seq<Line>)
    requires (forall j :: 0 <= j < |first| ==> !IsBreak(first[j])) && Unbroken(lines)
    ensures Unbroken([first] + lines)
  {
    hide IsBreak;
  }

  lemma {:induction false} SplitUnbroken(text: string)
    ensures Unbroken(SplitLines(text))
    decreases |text|
  {
    hide IsBreak, Unbroken;
    if text == "" {
      NoLines();
    } else {
      var k := LineEnd(text, 0);
      NoBreakBefore(text, 0);
      NoLines();
      if k == |text| {
        UnbrokenCons(text, []);
        assert [text] + [] == [text];
      } else {
        SplitUnbroken(text[k + 1..]);
        UnbrokenCons(text[..k], SplitLines(text[k + 1..]));
        if k + 1 < |text| {
          SplitUnbroken(text[k + 2..]);
          UnbrokenCons(text[..k], SplitLines(text[k + 2..]));
        }
      }
    }
  }

  lemma NoLines()
    ensures Unbroken([])
  {
  }

  /** A text that ends in a newline and has no other kind of boundary. */
  predicate LinesOfFile(text: string) {
    text != "" && text[|text| - 1] == '\n' && forall i :: 0 <= i < |text| && IsBreak(text[i]) ==> text[i] == '\n'
  }

  lemma {:induction false} RenderedLines(lines: seq<Line>)
    requires Unbroken(lines)
    ensures LinesOfFile(Render(lines))
  {
    NewlineBreaks();
    hide IsBreak;
    if |lines| <= 1 {
      assert Render(lines) == (if lines == [] then "" else lines[0]) + "\n";
    } else {
      hide Render;
      RenderFirst(lines);
      RenderedLines(lines[1..]);
    }
  }

  lemma CutAt(text: string, k: nat)
    requires k < |text| && text[k] == '\n'
    ensures text == text[..k] + "\n" + text[k + 1..]
  {
  }

  lemma TailOfFile(text: string, k: nat)
    requires LinesOfFile(text) && k < |text|
    ensures text[k + 1..] == "" || LinesOfFile(text[k + 1..])
  {
    hide IsBreak;
    var rest := text[k + 1..];
    forall i | 0 <= i < |rest| && IsBreak(rest[i])
      ensures rest[i] == '\n'
    {
      assert rest[i] == text[k + 1 + i];
    }
  }

  lemma FirstEnd(text: string)
    requires LinesOfFile(text)
    ensures var k := LineEnd(text, 0); k < |text| && text[k] == '\n' && forall j :: 0 <= j < k ==> !IsBreak(text[j])
  {
    NewlineBreaks();
    NoBreakBefore(text, 0);
    hide IsBreak, LineEnd;
  }

  /** The first line of a file, and the rest, which is a file too unless it is empty. */
  lemma FirstLine(text: string) returns (first: Line, rest: string)
    requires LinesOfFile(text)
    ensures text == first + "\n" + rest && SplitLines(text) == [first] + SplitLines(rest)
    ensures rest == "" || LinesOfFile(rest)
  {
    FirstEnd(text);
    hide IsBreak, SplitLines, LineEnd, LinesOfFile;
    var k := LineEnd(text, 0);
    CutAt(text, k);
    TailOfFile(text, k);
    first, rest := text[..k], text[k + 1..];
    SplitFirst(first, rest);
  }

  lemma {:induction false} RenderSplit(text: string)
    requires LinesOfFile(text)
    ensures Render(SplitLines(text)) == text
    decreases |text|
  {
    var first, rest := FirstLine(text);
    hide Render, LinesOfFile;
    RenderFirst(SplitLines(text));
    if rest != "" {
      RenderSplit(rest);
    }
  }

  /** Exactly such a text is read back as itself once it is split into lines and written. */
  lemma ReadBack(text: string)
    ensures Render(SplitLines(text)) == text <==> LinesOfFile(text)
  {
    if LinesOfFile(text) {
      RenderSplit(text);
    }
    SplitUnbroken(text);
    RenderedLines(SplitLines(text));
    hide *;
  }

  /** Picking lines and cutting them short leaves no boundary inside a line. */
  lemma StillUnbroken(lines: seq<Line>, kept: seq<Line>, all: seq<Line>)
    requires TrimmedFrom(lines, kept) && Subsequence(kept, all) && Unbroken(all)
    ensures Unbroken(lines)
  {
    hide IsBreak;
    var at: seq<nat> :| Picks(at, kept, all);
    forall i, j | 0 <= i < |lines| && 0 <= j < |lines[i]|
      ensures !IsBreak(lines[i][j])
    {
      assert lines[i] <= kept[i] && kept[i] == all[at[i]];
      assert lines[i][j] == all[at[i]][j];
    }
  }

  class Oracle {
    const accepts: string -> bool
    var calls: nat

    constructor (accepts: string -> bool)
      ensures this.accepts == accepts && calls == 0
    {
      this.accepts := accepts;
      calls := 0;
    }

    method Interesting(text: string) returns (b: bool)
      modifies this`calls
      ensures b == accepts(text) && calls == old(calls) + 1
    {
      calls := calls + 1;
      b := accepts(text);
    }

    /** The lines, written to a file, trigger the bug. */
    predicate Triggers(lines: seq<Line>) { accepts(Render(lines)) }

    /** Removing any one line loses the bug. */
    predicate OneMinimal(lines: seq<Line>) {
      forall k :: 0 <= k < |lines| ==> !Triggers(Without(lines, k, 1))
    }

    /** Removing chunk k loses the bug or leaves nothing. */
    predicate Needed(lines: seq<Line>, k: nat, chunk: nat) {
      var i := Times(k, chunk);
      i < |lines| && Without(lines, i, chunk) != [] ==> !Triggers(Without(lines, i, chunk))
    }

    /** No chunk of this size can be removed. */
    ghost predicate NoChunk(lines: seq<Line>, chunk: nat) {
      forall k: nat :: Needed(lines, k, chunk)
    }

    lemma AllNeeded(lines: seq<Line>, k: nat, chunk: nat)
      requires Times(k, chunk) >= |lines| && forall j: nat :: j < k ==> Needed(lines, j, chunk)
      ensures NoChunk(lines, chunk)
    {
      hide Triggers, Times;
      forall j: nat
        ensures Needed(lines, j, chunk)
      {
        if j >= k {
          TimesMono(k, j, chunk);
        }
      }
    }

    /** No chunk of any size that ddmin tries can be removed. */
    ghost predicate Unreducible(lines: seq<Line>) {
      |lines| >= 2 ==> forall j: nat :: NoChunk(lines, Chunk(|lines|, Granularity(|lines|, j)))
    }

    lemma AllTried(lines: seq<Line>, j: nat)
      requires |lines| >= 2 && Granularity(|lines|, j) >= |lines|
      requires forall i: nat :: i <= j ==> NoChunk(lines, Chunk(|lines|, Granularity(|lines|, i)))
      ensures Unreducible(lines)
    {
      hide NoChunk, Granularity, Chunk;
      forall i: nat
        ensures NoChunk(lines, Chunk(|lines|, Granularity(|lines|, i)))
      {
        if i > j {
          GranularityEnds(|lines|, j, i);
          GranularityEnds(|lines|, j, j);
        }
      }
    }

    /** One pass over the lines at one chunk size. */
    method Pass(lines0: seq<Line>, chunk: nat) returns (lines: seq<Line>, reduced: bool)
      requires chunk > 0 && lines0 != []
      modifies this`calls
      ensures Subsequence(lines, lines0) && lines != []
      ensures if reduced then |lines| < |lines0| && Triggers(lines) else lines == lines0
      ensures !reduced && chunk == 1 && |lines| >= 2 ==> OneMinimal(lines)
      ensures !reduced ==> NoChunk(lines, chunk)
      ensures old(calls) <= calls <= old(calls) + |lines0|
      ensures !reduced && calls > old(calls) ==> Times(calls - old(calls) - 1, chunk) < |lines0|
    {
      hide Subsequence, Render, Times;
      TimesNext(0, chunk);
      lines, reduced := lines0, false;
      SubsequenceSelf(lines);
      var i: nat := 0;
      ghost var k: nat := 0;
      while i < |lines|
        invariant Subsequence(lines, lines0) && lines != []
        invariant if reduced then |lines| < |lines0| && Triggers(lines) else lines == lines0
        invariant !reduced && chunk == 1 && |lines| >= 2 ==>
          forall j :: 0 <= j < i && j < |lines| ==> !Triggers(Without(lines, j, 1))
        invariant !reduced ==> forall j: nat :: j < k ==> Needed(lines, j, chunk)
        invariant old(calls) <= calls && (i < |lines| ==> calls - old(calls) + |lines| - i <= |lines0|)
        invariant i >= |lines| ==> calls - old(calls) <= |lines0|
        invariant !reduced ==>
          calls <= old(calls) + k && i == Times(k, chunk) && (k > 0 ==> Times(k - 1, chunk) < |lines0|)
        decreases |lines| - i
      {
        var candidate := Without(lines, i, chunk);
        var b := false;
        if candidate != [] {
          b := Interesting(Render(candidate));
        }
        if b {
          WithoutSubsequence(lines, i, chunk);
          SubsequenceTrans(candidate, lines, lines0);
          lines := candidate;
          reduced := true;
        } else {
          TimesNext(k, chunk);
          i := i + chunk;
          k := k + 1;
        }
      }
      if !reduced {
        AllNeeded(lines, k, chunk);
      }
      if !reduced && calls > old(calls) {
        TimesMono(calls - old(calls) - 1, k - 1, chunk);
      }
    }

    /** Zeller's ddmin on lines: passes at ever finer granularity until no single line can go. */
    method DdminLines(lines0: seq<Line>) returns (lines: seq<Line>)
      modifies this`calls
      ensures Subsequence(lines, lines0) && (lines0 != [] ==> lines != [])
      ensures lines == lines0 || Triggers(lines)
      ensures |lines| >= 2 ==> OneMinimal(lines)
      ensures lines == lines0 ==> Unreducible(lines)
      ensures old(calls) <= calls <= old(calls) + 3 * |lines0| * |lines0|
    {
      hide Subsequence, Render, Budget, Times, Chunk, NoChunk, Granularity;
      GranularityFirst(|lines0|);
      lines := lines0;
      SubsequenceSelf(lines);
      BudgetBound(|lines0|);
      Square(|lines0|);
      var n: nat := 2;
      ghost var j: nat := 0;
      while |lines| >= 2
        invariant lines == lines0 ==> n == Granularity(|lines|, j)
        invariant lines == lines0 ==>
          forall i: nat :: i < j ==> |lines| >= 2 && NoChunk(lines, Chunk(|lines|, Granularity(|lines|, i)))
        invariant n >= 2 && Subsequence(lines, lines0) && (lines0 != [] ==> lines != [])
        invariant lines == lines0 || Triggers(lines)
        invariant old(calls) <= calls
        invariant (|lines0| >= 2 ==> calls - old(calls) + Budget(|lines|, n) <= Budget(|lines0|, 2))
        invariant |lines0| < 2 ==> lines == lines0 && calls == old(calls)
        decreases |lines|, if n < |lines| then |lines| - n else 0
      {
        ghost var before, len := calls, |lines|;
        var chunk := Chunk(|lines|, n);
        var next, reduced := Pass(lines, chunk);
        SubsequenceTrans(next, lines, lines0);
        SubsequenceLength(lines, lines0);
        lines := next;
        if reduced {
          BudgetReduced(len, n, |lines|, calls - before);
          n := if n - 1 > 2 then n - 1 else 2;
        } else if n >= |lines| {
          ChunkSize(len, n);
          BudgetLast(len, n);
          if lines == lines0 {
            AllTried(lines, j);
          }
          break;
        } else {
          PassCost(len, n, calls - before);
          BudgetDoubled(len, n, calls - before);
          GranularityNext(len, j);
          j := j + 1;
          n := if n * 2 < |lines| then n * 2 else |lines|;
        }
      }
    }

    /** The loop in main: ddmin until it changes nothing. */
    method Fixpoint(lines0: seq<Line>) returns (lines: seq<Line>)
      modifies this`calls
      ensures Subsequence(lines, lines0) && (lines0 != [] ==> lines != [])
      ensures lines == lines0 || Triggers(lines)
      ensures |lines| >= 2 ==> OneMinimal(lines)
      ensures Unreducible(lines)
    {
      hide Subsequence, Render, Unreducible;
      lines := lines0;
      SubsequenceSelf(lines);
      var prev, first := [], true;
      while first || prev != lines
        invariant Subsequence(lines, lines0) && (lines0 != [] ==> lines != [])
        invariant lines == lines0 || Triggers(lines)
        invariant !first && |lines| >= 2 ==> OneMinimal(lines)
        invariant !first && prev == lines ==> Unreducible(lines)
        decreases |lines|, if first || prev != lines then 1 else 0
      {
        prev, first := lines, false;
        lines := DdminLines(lines);
        SubsequenceLength(lines, prev);
        SubsequenceTrans(lines, prev, lines0);
      }
    }

    /** Line i truncated to its first k characters. */
    function Truncated(lines: seq<Line>, i: nat, k: nat): seq<Line>
      requires i < |lines| && k <= |lines[i]|
    {
      lines[i := lines[i][..k]]
    }

    /** If a truncation of line i triggers the bug, so does every longer one. */
    predicate Monotone(lines: seq<Line>, i: nat)
      requires i < |lines|
    {
      forall a, b :: 0 <= a <= b <= |lines[i]| && Triggers(Truncated(lines, i, a)) ==> Triggers(Truncated(lines, i, b))
    }

    lemma MonotoneBelow(lines: seq<Line>, i: nat, mid: nat)
      requires i < |lines| && mid <= |lines[i]| && Monotone(lines, i) && !Triggers(Truncated(lines, i, mid))
      ensures forall k :: 0 <= k <= mid ==> !Triggers(Truncated(lines, i, k))
    {
      hide Triggers, Truncated;
    }

    /** The binary search for the shortest truncation of line i. */
    method ShortestPrefix(lines: seq<Line>, i: nat) returns (hi: nat)
      requires i < |lines|
      modifies this`calls
      ensures hi <= |lines[i]| && (hi < |lines[i]| ==> Triggers(Truncated(lines, i, hi)))
      ensures hi > 0 ==> !Triggers(Truncated(lines, i, hi - 1))
      ensures Monotone(lines, i) ==> forall k :: 0 <= k < hi ==> !Triggers(Truncated(lines, i, k))
      ensures old(calls) <= calls <= old(calls) + Halvings(|lines[i]|)
    {
      hide Render, Truncated, Halvings, Monotone;
      var lo: nat := 0;
      hi := |lines[i]|;
      while lo < hi
        invariant lo <= hi <= |lines[i]|
        invariant hi < |lines[i]| ==> Triggers(Truncated(lines, i, hi))
        invariant lo > 0 ==> !Triggers(Truncated(lines, i, lo - 1))
        invariant Monotone(lines, i) ==> forall k :: 0 <= k < lo ==> !Triggers(Truncated(lines, i, k))
        invariant old(calls) <= calls && calls - old(calls) + Halvings(hi - lo) <= Halvings(|lines[i]|)
      {
        var mid := (lo + hi) / 2;
        HalvingsStep(hi - lo);
        HalvingsMono(hi - mid - 1, (hi - lo) / 2);
        var b := Interesting(Render(Truncated(lines, i, mid)));
        if b {
          hi := mid;
        } else {
          if Monotone(lines, i) {
            MonotoneBelow(lines, i, mid);
          }
          lo := mid + 1;
        }
      }
    }

    /** The truncation of line i that is one character shorter loses the bug, and so does every shorter one if
      * truncating is monotone there; lines before i are already cut, later ones are not. */
    predicate ShortestAt(lines: seq<Line>, lines0: seq<Line>, i: nat)
      requires i < |lines| == |lines0|
    {
      var now, size := lines[..i] + lines0[i..], |lines[i]|;
      && size <= |now[i]|
      && (size > 0 ==> !Triggers(Truncated(now, i, size - 1)))
      && (Monotone(now, i) ==> forall k :: 0 <= k < size ==> !Triggers(Truncated(now, i, k)))
    }

    lemma ShortestHere(was: seq<Line>, lines: seq<Line>, lines0: seq<Line>, i: nat)
      requires i < |was| == |lines| == |lines0| && was[i..] == lines0[i..] && lines[..i] == was[..i]
      requires |lines[i]| <= |was[i]| && (|lines[i]| > 0 ==> !Triggers(Truncated(was, i, |lines[i]| - 1)))
      requires Monotone(was, i) ==> forall k :: 0 <= k < |lines[i]| ==> !Triggers(Truncated(was, i, k))
      ensures ShortestAt(lines, lines0, i)
    {
      hide Monotone, Triggers;
      assert lines[..i] + lines0[i..] == was;
    }

    lemma ShortestStays(was: seq<Line>, lines: seq<Line>, lines0: seq<Line>, j: nat)
      requires j < |was| == |lines| == |lines0| && was[..j + 1] == lines[..j + 1] && ShortestAt(was, lines0, j)
      ensures ShortestAt(lines, lines0, j)
    {
      hide Monotone, Triggers, Truncated;
      assert was[..j] == was[..j + 1][..j] && lines[..j] == lines[..j + 1][..j];
      assert was[j] == was[..j + 1][j] && lines[j] == lines[..j + 1][j];
    }

    /** Truncates every line in turn. */
    method TrimLineChars(lines0: seq<Line>) returns (lines: seq<Line>)
      modifies this`calls
      ensures TrimmedFrom(lines, lines0) && |lines| == |lines0|
      ensures lines == lines0 || Triggers(lines)
      ensures forall i :: 0 <= i < |lines| ==> ShortestAt(lines, lines0, i)
      ensures old(calls) <= calls <= old(calls) + AllHalvings(lines0)
    {
      hide Render, Halvings, AllHalvings, Monotone, ShortestAt;
      lines := lines0;
      var i: nat := 0;
      ghost var before := calls;
      NoHalvings();
      while i < |lines|
        invariant |lines| == |lines0| && i <= |lines| && lines[i..] == lines0[i..]
        invariant forall j :: 0 <= j < i ==> lines[j] <= lines0[j]
        invariant lines == lines0 || Triggers(lines)
        invariant forall j :: 0 <= j < i ==> ShortestAt(lines, lines0, j)
        invariant old(calls) <= calls <= old(calls) + AllHalvings(lines0[..i])
      {
        var line := lines[i];
        assert line == lines0[i];
        assert lines[..i] + lines0[i..] == lines;
        HalvingsNext(lines0, i);
        var hi := ShortestPrefix(lines, i);
        ghost var was := lines;
        if hi < |line| {
          lines := lines[i := line[..hi]];
        }
        ShortestHere(was, lines, lines0, i);
        forall j | 0 <= j < i
          ensures ShortestAt(lines, lines0, j)
        {
          ShortestStays(was, lines, lines0, j);
        }
        i := i + 1;
      }
      assert lines0[..i] == lines0;
    }

    /** The whole run: the oracle on the input, ddmin to a fixpoint, trimming, and the final check. */
    method Minimize(text: string) returns (r: Outcome, ghost kept: seq<Line>, ghost lines: seq<Line>)
      modifies this`calls
      ensures r.NotInteresting? <==> !accepts(text)
      ensures r.CheckFailed? ==> lines == SplitLines(text) && !Triggers(lines)
      ensures r.CheckFailed? ==> !LinesOfFile(text)
      ensures r.Done? ==> accepts(r.text) && r.text == Render(lines) && TrimmedFrom(lines, kept)
      ensures r.Done? ==> Subsequence(kept, SplitLines(text)) && (|kept| >= 2 ==> OneMinimal(kept)) && Unreducible(kept)
      ensures r.Done? ==> |lines| == |kept| && forall i :: 0 <= i < |lines| ==> ShortestAt(lines, kept, i)
    {
      hide Render, Subsequence, SplitLines, OneMinimal, Unreducible, ShortestAt, TrimmedFrom, LinesOfFile;
      hide Monotone, Truncated;
      ReadBack(text);
      kept, lines := [], [];
      var b := Interesting(text);
      if !b {
        return NotInteresting, [], [];
      }
      var found := Fixpoint(SplitLines(text));
      var trimmed := TrimLineChars(found);
      kept, lines := found, trimmed;
      var out := Render(trimmed);
      b := Interesting(out);
      r := if b then Done(out) else CheckFailed;
    }
  }

  /** The final check of a run fails for some oracle that accepts the text, namely the one that accepts nothing else,
    * exactly if the text is not a file of lines; for a file of lines no oracle makes it fail. */
  method OnlyItself(text: string) returns (r: Outcome)
    ensures r.CheckFailed? <==> !LinesOfFile(text)
    ensures r.CheckFailed? <==> Render(SplitLines(text)) != text
  {
    hide Render, Subsequence, SplitLines, TrimmedFrom, Unbroken, LinesOfFile;
    var oracle := new Oracle(s => s == text);
    ghost var kept, lines;
    r, kept, lines := oracle.Minimize(text);
    ReadBack(text);
    SplitUnbroken(text);
    if r.Done? {
      StillUnbroken(lines, kept, SplitLines(text));
      RenderedLines(lines);
    }
  }

  /** One line without its newline. */
  method UnterminatedLine() returns (r: Outcome)
    ensures r == CheckFailed
  {
    assert !LinesOfFile("a");
    hide LinesOfFile;
    r := OnlyItself("a");
  }

  /** Each line is a prefix of the one it was cut from. */
  ghost predicate TrimmedFrom(lines: seq<Line>, kept: seq<Line>) {
    |lines| == |kept| && forall i :: 0 <= i < |lines| ==> lines[i] <= kept[i]
  }

  lemma Square(len: nat)
    ensures 3 * len * len >= 0
  {
  }

  lemma BudgetLast(len: nat, n: nat)
    ensures Budget(len, n) >= len
  {
  }

  /** How often a length can be halved before it is 0. */
  function Halvings(len: nat): nat {
    if len == 0 then 0 else 1 + Halvings(len / 2)
  }

  lemma HalvingsStep(len: nat)
    requires len > 0
    ensures Halvings(len) == 1 + Halvings(len / 2)
  {
  }

  lemma {:induction false} HalvingsMono(a: nat, b: nat)
    requires a <= b
    ensures Halvings(a) <= Halvings(b)
  {
    if a > 0 {
      HalvingsMono(a / 2, b / 2);
    }
  }

  ghost function AllHalvings(lines: seq<Line>): nat {
    if lines == [] then 0 else AllHalvings(lines[..|lines| - 1]) + Halvings(|lines[|lines| - 1]|)
  }

  lemma NoHalvings()
    ensures AllHalvings([]) == 0
  {
  }

  lemma HalvingsNext(lines: seq<Line>, i: nat)
    requires i < |lines|
    ensures AllHalvings(lines[..i + 1]) == AllHalvings(lines[..i]) + Halvings(|lines[i]|)
  {
    assert lines[..i + 1][..i] == lines[..i];
  }
}
