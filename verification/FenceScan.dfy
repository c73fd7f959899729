/** Finding every labelled fence of a text, with absolute character offsets. */
module FenceScan {
  import opened Wrappers
  import opened Text
  import opened Seqs
  import opened FencePatterns

  datatype Fence = Fence(
    open: OpenMatch,
    openingFenceStart: nat,
    openingFenceEnd: nat,
    closingFenceStart: nat)

  datatype ScanError = NoClosingFence(filePath: string, examplePath: string, regionName: Option<string>)

  /** The character index at which line `i` starts. */
  function Offset(lines: seq<string>, i: nat): nat
    requires i <= |lines|
  {
    if i == 0 then 0 else Offset(lines, i - 1) + |lines[i - 1]| + 1
  }

  /** The first closing line at or after line `i`; the number of lines when there is none. */
  function FirstCloser(lines: seq<string>, p: Patterns, i: nat): (r: nat)
    requires i <= |lines|
    ensures i <= r <= |lines|
    ensures forall j :: i <= j < r ==> !p.close(lines[j])
    ensures r < |lines| ==> p.close(lines[r])
    decreases |lines| - i
  {
    if i == |lines| || p.close(lines[i]) then i else FirstCloser(lines, p, i + 1)
  }

  /** Line `i` opens a fence that some later line closes. */
  predicate OpensClosed(lines: seq<string>, p: Patterns, i: nat)
    requires i < |lines|
  {
    p.open(lines[i]).Some? && FirstCloser(lines, p, i + 1) < |lines|
  }

  /** Every opener among the first `n` lines is closed somewhere. */
  predicate AllClosed(lines: seq<string>, p: Patterns, n: nat)
    requires n <= |lines|
  {
    forall i :: 0 <= i < n && p.open(lines[i]).Some? ==> FirstCloser(lines, p, i + 1) < |lines|
  }

  function FenceAt(lines: seq<string>, p: Patterns, i: nat): Fence
    requires i < |lines| && OpensClosed(lines, p, i)
  {
    Fence(p.open(lines[i]).value, Offset(lines, i), Offset(lines, i + 1),
          Offset(lines, FirstCloser(lines, p, i + 1)))
  }

  /** The fences opened by the first `n` lines, in order. */
  function FencesUpTo(lines: seq<string>, p: Patterns, n: nat): seq<Fence>
    requires n <= |lines| && AllClosed(lines, p, n)
  {
    if n == 0 then []
    else if p.open(lines[n - 1]).Some? then FencesUpTo(lines, p, n - 1) + [FenceAt(lines, p, n - 1)]
    else FencesUpTo(lines, p, n - 1)
  }

  // ----- offsets

  lemma {:induction false} OffsetIsLength(lines: seq<string>, i: nat)
    requires i <= |lines|
    ensures Offset(lines, i) == |Flat(lines[..i], NL)|
  {
    if i == 0 {
    } else {
      OffsetIsLength(lines, i - 1);
      assert lines[..i] == lines[..i - 1] + [lines[i - 1]];
      FlatAppend(lines[..i - 1], [lines[i - 1]], NL);
      assert Flat([lines[i - 1]], NL) == lines[i - 1] + [NL];
    }
  }

  lemma {:induction false} OffsetMonotone(lines: seq<string>, i: nat, j: nat)
    requires i <= j <= |lines|
    ensures Offset(lines, i) + (j - i) <= Offset(lines, j)
  {
    if i < j {
      OffsetMonotone(lines, i, j - 1);
    }
  }

  // ----- the scan

  /** The first opener at or after line `i` that is never closed. */
  function UnclosedLine(lines: seq<string>, p: Patterns, i: nat): (r: nat)
    requires i <= |lines| && AllClosed(lines, p, i) && !AllClosed(lines, p, |lines|)
    ensures r < |lines| && FirstUnclosed(lines, p, r)
    decreases |lines| - i
  {
    if p.open(lines[i]).Some? && FirstCloser(lines, p, i + 1) == |lines| then i else UnclosedLine(lines, p, i + 1)
  }

  /** What the scan returns: every fence, or the first opener that is never closed. */
  function ScanOf(lines: seq<string>, p: Patterns, filePath: string): Result<seq<Fence>, ScanError> {
    if AllClosed(lines, p, |lines|) then Success(FencesUpTo(lines, p, |lines|))
    else Failure(UnclosedError(lines, p, filePath, UnclosedLine(lines, p, 0)))
  }

  /** There is only one first unclosed opener. */
  lemma {:induction false} UnclosedIsUnique(lines: seq<string>, p: Patterns, i: nat)
    requires i < |lines| && FirstUnclosed(lines, p, i)
    ensures !AllClosed(lines, p, |lines|) && UnclosedLine(lines, p, 0) == i
  {
    var r := UnclosedLine(lines, p, 0);
    assert p.open(lines[r]).Some? && p.open(lines[i]).Some?;
  }

  predicate FirstUnclosed(lines: seq<string>, p: Patterns, i: nat)
    requires i < |lines|
  {
    AllClosed(lines, p, i) && p.open(lines[i]).Some? && FirstCloser(lines, p, i + 1) == |lines|
  }

  function UnclosedError(lines: seq<string>, p: Patterns, filePath: string, i: nat): ScanError
    requires i < |lines| && p.open(lines[i]).Some?
  {
    var open := p.open(lines[i]).value;
    NoClosingFence(filePath, open.examplePath, open.regionName)
  }

  method FindLabeledCodeFences(content: string, filePath: string, mode: FileMode)
    returns (r: Result<seq<Fence>, ScanError>)
    ensures r == ScanOf(Split(content, NL), PatternsFor(mode), filePath)
  {
    r := ScanLines(Split(content, NL), PatternsFor(mode), filePath);
  }

  /** The offset of the first closing line at or after line `first`, or -1. */
  method FindClosing(lines: seq<string>, p: Patterns, first: nat, start: nat) returns (closingFenceStart: int)
    requires first <= |lines| && start == Offset(lines, first)
    ensures var c := FirstCloser(lines, p, first);
            closingFenceStart == if c == |lines| then -1 else Offset(lines, c)
  {
    var searchIndex := start;
    for j := first to |lines|
      invariant searchIndex == Offset(lines, j)
      invariant FirstCloser(lines, p, first) == FirstCloser(lines, p, j)
    {
      if p.close(lines[j]) {
        return searchIndex;
      }
      searchIndex := searchIndex + |lines[j]| + 1;
    }
    return -1;
  }

  /** One more line, unfolded. */
  lemma {:induction false} ScanStep(lines: seq<string>, p: Patterns, i: nat)
    requires i < |lines| && AllClosed(lines, p, i)
    requires p.open(lines[i]).Some? ==> FirstCloser(lines, p, i + 1) < |lines|
    ensures AllClosed(lines, p, i + 1)
    ensures FencesUpTo(lines, p, i + 1)
         == FencesUpTo(lines, p, i) + if p.open(lines[i]).Some? then [FenceAt(lines, p, i)] else []
  {
    hide FenceAt, FirstCloser;
  }

  method ScanLines(lines: seq<string>, p: Patterns, filePath: string) returns (r: Result<seq<Fence>, ScanError>)
    ensures r == ScanOf(lines, p, filePath)
  {
    var results: seq<Fence> := [];
    var charIndex := 0;
    for i := 0 to |lines|
      invariant charIndex == Offset(lines, i)
      invariant AllClosed(lines, p, i)
      invariant results == FencesUpTo(lines, p, i)
    {
      hide FencesUpTo, AllClosed, FirstCloser;
      var line := lines[i];
      var openMatch := p.open(line);
      if openMatch.Some? {
        var openingFenceStart := charIndex;
        var openingFenceEnd := charIndex + |line| + 1;
        var closingFenceStart := FindClosing(lines, p, i + 1, openingFenceEnd);
        if closingFenceStart == -1 {
          UnclosedIsUnique(lines, p, i);
          return Failure(NoClosingFence(filePath, openMatch.value.examplePath, openMatch.value.regionName));
        }
        ScanStep(lines, p, i);
        results := results + [Fence(openMatch.value, openingFenceStart, openingFenceEnd, closingFenceStart)];
      } else {
        ScanStep(lines, p, i);
      }
      charIndex := charIndex + |line| + 1;
    }
    return Success(results);
  }

  // ----- how fences lie to each other

  predicate Disjoint(a: Fence, b: Fence) {
    a.closingFenceStart < b.openingFenceStart
  }

  predicate Nested(a: Fence, b: Fence) {
    a.openingFenceEnd <= b.openingFenceStart && b.closingFenceStart == a.closingFenceStart
  }

  lemma {:induction false} ScanIsOrdered(lines: seq<string>, p: Patterns, i: nat, k: nat)
    requires Exclusive(p)
    requires i < k < |lines| && OpensClosed(lines, p, i) && OpensClosed(lines, p, k)
    ensures var a, b := FenceAt(lines, p, i), FenceAt(lines, p, k);
            && a.openingFenceStart < a.openingFenceEnd <= a.closingFenceStart
            && (Disjoint(a, b) || Nested(a, b))
            && (Disjoint(a, b) <==> FirstCloser(lines, p, i + 1) < k)
  {
    var close, close' := FirstCloser(lines, p, i + 1), FirstCloser(lines, p, k + 1);
    OffsetMonotone(lines, i, i + 1);
    OffsetMonotone(lines, i + 1, close);
    OffsetMonotone(lines, i + 1, k);
    if close < k {
      OffsetMonotone(lines, close, k);
    } else {
      assert close == close';
      OffsetMonotone(lines, k, close);
    }
  }

  /** The line on which the `x`-th fence opens. */
  lemma {:induction false} FenceLine(lines: seq<string>, p: Patterns, n: nat, x: nat) returns (i: nat)
    requires n <= |lines| && AllClosed(lines, p, n)
    requires x < |FencesUpTo(lines, p, n)|
    ensures i < n && OpensClosed(lines, p, i)
    ensures FencesUpTo(lines, p, n)[x] == FenceAt(lines, p, i)
    ensures x == |FencesUpTo(lines, p, i)|
  {
    if p.open(lines[n - 1]).Some? && x == |FencesUpTo(lines, p, n - 1)| {
      i := n - 1;
    } else {
      i := FenceLine(lines, p, n - 1, x);
    }
  }

  lemma {:induction false} FencesGrow(lines: seq<string>, p: Patterns, m: nat, n: nat)
    requires m <= n <= |lines| && AllClosed(lines, p, n)
    ensures FencesUpTo(lines, p, m) <= FencesUpTo(lines, p, n)
  {
    if m < n {
      FencesGrow(lines, p, m, n - 1);
    }
  }

  /**
   Of any two fences the scan returns, either the first closes before the second opens, or the
   second opens inside the first one's body and the two share their closing line.
   */
  lemma {:induction false} FencesDisjointOrNested(lines: seq<string>, p: Patterns, x: nat, y: nat)
    requires Exclusive(p) && AllClosed(lines, p, |lines|)
    requires x < y < |FencesUpTo(lines, p, |lines|)|
    ensures var fences := FencesUpTo(lines, p, |lines|);
            Disjoint(fences[x], fences[y]) != Nested(fences[x], fences[y])
  {
    var i, k := FencePairLines(lines, p, x, y);
    ScanIsOrdered(lines, p, i, k);
    OffsetMonotone(lines, k, FirstCloser(lines, p, k + 1));
  }

  /** No opener lies between an opener and its closing line. */
  ghost predicate NoNesting(lines: seq<string>, p: Patterns) {
    forall i, k :: 0 <= i < k < |lines| && p.open(lines[i]).Some? && p.open(lines[k]).Some?
                   ==> FirstCloser(lines, p, i + 1) < k
  }

  ghost predicate PairwiseDisjoint(fences: seq<Fence>) {
    forall x, y :: 0 <= x < y < |fences| ==> Disjoint(fences[x], fences[y])
  }

  lemma {:induction false} PairDisjoint(lines: seq<string>, p: Patterns, i: nat, k: nat)
    requires Exclusive(p) && AllClosed(lines, p, |lines|)
    requires i < k < |lines| && p.open(lines[i]).Some? && p.open(lines[k]).Some?
    ensures var fences := FencesUpTo(lines, p, |lines|);
            var x, y := |FencesUpTo(lines, p, i)|, |FencesUpTo(lines, p, k)|;
            x < y < |fences| && (Disjoint(fences[x], fences[y]) <==> FirstCloser(lines, p, i + 1) < k)
  {
    FencesGrow(lines, p, i + 1, k);
    FencesGrow(lines, p, k + 1, |lines|);
    ScanIsOrdered(lines, p, i, k);
  }

  /** Pairwise disjoint offsets say exactly that no fence opens inside another one's body. */
  lemma {:induction false} DisjointIffNoNesting(lines: seq<string>, p: Patterns)
    requires Exclusive(p) && AllClosed(lines, p, |lines|)
    ensures PairwiseDisjoint(FencesUpTo(lines, p, |lines|)) <==> NoNesting(lines, p)
  {
    var fences := FencesUpTo(lines, p, |lines|);
    forall i, k | 0 <= i < k < |lines| && p.open(lines[i]).Some? && p.open(lines[k]).Some?
      ensures PairwiseDisjoint(fences) ==> FirstCloser(lines, p, i + 1) < k
    {
      PairDisjoint(lines, p, i, k);
    }
    forall x, y | 0 <= x < y < |fences|
      ensures NoNesting(lines, p) ==> Disjoint(fences[x], fences[y])
    {
      var i, k := FencePairLines(lines, p, x, y);
      ScanIsOrdered(lines, p, i, k);
    }
  }

  lemma {:induction false} FencePairLines(lines: seq<string>, p: Patterns, x: nat, y: nat) returns (i: nat, k: nat)
    requires Exclusive(p) && AllClosed(lines, p, |lines|)
    requires x < y < |FencesUpTo(lines, p, |lines|)|
    ensures i < k < |lines| && OpensClosed(lines, p, i) && OpensClosed(lines, p, k)
    ensures FencesUpTo(lines, p, |lines|)[x] == FenceAt(lines, p, i)
    ensures FencesUpTo(lines, p, |lines|)[y] == FenceAt(lines, p, k)
  {
    i := FenceLine(lines, p, |lines|, x);
    k := FenceLine(lines, p, |lines|, y);
    if k <= i {
      FencesGrow(lines, p, k, i);
      assert false;
    }
  }

  // ----- the scan, read forwards

  /** The fences opened at or behind line `i`. */
  function FencesFrom(lines: seq<string>, p: Patterns, i: nat): seq<Fence>
    requires i <= |lines| && AllClosed(lines, p, |lines|)
    decreases |lines| - i
  {
    if i == |lines| then []
    else if p.open(lines[i]).Some? then [FenceAt(lines, p, i)] + FencesFrom(lines, p, i + 1)
    else FencesFrom(lines, p, i + 1)
  }

  lemma {:induction false} FencesMeet(lines: seq<string>, p: Patterns, n: nat)
    requires n <= |lines| && AllClosed(lines, p, |lines|)
    ensures FencesUpTo(lines, p, n) + FencesFrom(lines, p, n) == FencesFrom(lines, p, 0)
  {
    hide FenceAt;
    if n == 0 {
    } else {
      FencesMeet(lines, p, n - 1);
      if p.open(lines[n - 1]).Some? {
        Assoc(FencesUpTo(lines, p, n - 1), [FenceAt(lines, p, n - 1)], FencesFrom(lines, p, n));
      }
    }
  }

  /** The scan finds the fences from the first line on. */
  lemma {:induction false} ScanIsFencesFrom(lines: seq<string>, p: Patterns)
    requires AllClosed(lines, p, |lines|)
    ensures FencesUpTo(lines, p, |lines|) == FencesFrom(lines, p, 0)
  {
    FencesMeet(lines, p, |lines|);
  }

  lemma {:induction false} SkipLines(lines: seq<string>, p: Patterns, i: nat, j: nat)
    requires i <= j <= |lines| && AllClosed(lines, p, |lines|)
    requires forall k :: i <= k < j ==> p.open(lines[k]).None?
    ensures FencesFrom(lines, p, i) == FencesFrom(lines, p, j)
    decreases j - i
  {
    if i < j {
      SkipLines(lines, p, i + 1, j);
    }
  }
}
