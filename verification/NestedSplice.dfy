/**
 The splice in reverse order is the replacement of all bodies exactly when no fence opens inside
 another one.  With nested fences one long snippet for all of them tells the two apart: the splice
 puts it in once a fence, the replacement once an outermost fence.
 */
module NestedSplice {
  import opened Text
  import opened Seqs
  import opened FencePatterns
  import opened FenceScan
  import opened SyncLines

  function Formatting(snippets: Snippets): OpenMatch -> string {
    (open: OpenMatch) => Join(snippets(open), NL)
  }

  ghost predicate SplicesRight(lines: seq<string>, p: Patterns, snippets: Snippets)
    requires AllClosed(lines, p, |lines|)
  {
    ReverseSplice(Join(lines, NL), FencesUpTo(lines, p, |lines|), Formatting(snippets))
      == Join(Sync(lines, p, snippets), NL)
  }

  /** Whatever the snippets, splicing is replacing. */
  ghost predicate AlwaysSplicesRight(lines: seq<string>, p: Patterns)
    requires AllClosed(lines, p, |lines|)
  {
    forall snippets: Snippets :: SnippetsAreLines(lines, p, snippets) ==> SplicesRight(lines, p, snippets)
  }

  // ----- how many fences

  function OpenerCount(lines: seq<string>, p: Patterns): nat {
    if lines == [] then 0 else (if p.open(lines[0]).Some? then 1 else 0) + OpenerCount(lines[1..], p)
  }

  lemma {:induction false} OpenerCountSplit(a: seq<string>, b: seq<string>, p: Patterns)
    ensures OpenerCount(a + b, p) == OpenerCount(a, p) + OpenerCount(b, p)
  {
    if a == [] {
      assert a + b == b;
    } else {
      assert (a + b)[1..] == a[1..] + b;
      OpenerCountSplit(a[1..], b, p);
    }
  }

  lemma {:induction false} OpenerCounted(lines: seq<string>, p: Patterns, i: nat)
    requires i < |lines| && p.open(lines[i]).Some?
    ensures OpenerCount(lines, p) >= 1
  {
    if i == 0 {
    } else {
      OpenerCounted(lines[1..], p, i - 1);
    }
  }

  lemma {:induction false} FenceCount(lines: seq<string>, p: Patterns, i: nat)
    requires i <= |lines| && AllClosed(lines, p, |lines|)
    ensures |FencesFrom(lines, p, i)| == OpenerCount(lines[i..], p)
    decreases |lines| - i
  {
    hide FenceAt;
    if i == |lines| {
    } else {
      FenceCount(lines, p, i + 1);
      assert lines[i..][1..] == lines[i + 1..];
    }
  }

  /** How many bodies the replacement puts in. */
  function SyncCount(lines: seq<string>, p: Patterns): nat
    decreases |lines|
  {
    if lines == [] then 0
    else
      var close := FirstCloser(lines, p, 1);
      if p.open(lines[0]).Some? && close < |lines| then 1 + SyncCount(lines[close..], p) else SyncCount(lines[1..], p)
  }

  /** Some opener stands between an opener and its closing line. */
  ghost predicate NestedAt(lines: seq<string>, p: Patterns, i: nat, k: nat) {
    i < k < |lines| && p.open(lines[i]).Some? && p.open(lines[k]).Some? && k <= FirstCloser(lines, p, i + 1)
  }

  lemma {:induction false} AllClosedSuffix(lines: seq<string>, p: Patterns, from: nat)
    requires from <= |lines| && AllClosed(lines, p, |lines|)
    ensures AllClosed(lines[from..], p, |lines| - from)
  {
    var rest := lines[from..];
    forall i | 0 <= i < |rest| && p.open(rest[i]).Some? ensures FirstCloser(rest, p, i + 1) < |rest| {
      assert rest[i] == lines[from + i];
      FirstCloserOfSuffix(lines, p, from, i + 1);
    }
  }

  lemma {:induction false} NestedInSuffix(lines: seq<string>, p: Patterns, from: nat, i: nat, k: nat)
    requires from <= i && NestedAt(lines, p, i, k)
    ensures NestedAt(lines[from..], p, i - from, k - from)
  {
    FirstCloserOfSuffix(lines, p, from, i - from + 1);
  }

  lemma {:induction false} CountAtOpener(lines: seq<string>, p: Patterns)
    requires lines != [] && p.open(lines[0]).Some? && FirstCloser(lines, p, 1) < |lines|
    ensures var close := FirstCloser(lines, p, 1);
            OpenerCount(lines, p) == 1 + OpenerCount(lines[1..close], p) + OpenerCount(lines[close..], p)
  {
    var close := FirstCloser(lines, p, 1);
    CutTwice(lines, 1, close);
    OpenerCountSplit(lines[1..close], lines[close..], p);
  }

  lemma {:induction false} SyncCountAtMost(lines: seq<string>, p: Patterns)
    requires AllClosed(lines, p, |lines|)
    ensures SyncCount(lines, p) <= OpenerCount(lines, p)
    decreases |lines|
  {
    if lines == [] {
    } else {
      var from := if p.open(lines[0]).Some? then FirstCloser(lines, p, 1) else 1;
      AllClosedSuffix(lines, p, from);
      SyncCountAtMost(lines[from..], p);
      if p.open(lines[0]).Some? {
        CountAtOpener(lines, p);
      }
    }
  }

  lemma FirstOpenerCloses(lines: seq<string>, p: Patterns)
    requires AllClosed(lines, p, |lines|) && lines != [] && p.open(lines[0]).Some?
    ensures FirstCloser(lines, p, 1) < |lines|
  {
  }

  lemma CountAtPlain(lines: seq<string>, p: Patterns)
    requires lines != [] && p.open(lines[0]).None?
    ensures OpenerCount(lines, p) == OpenerCount(lines[1..], p)
  {
  }

  /** With nested fences the replacement puts in fewer bodies than there are fences. */
  lemma {:induction false} NestingIsSkipped(lines: seq<string>, p: Patterns, i: nat, k: nat)
    requires Exclusive(p) && AllClosed(lines, p, |lines|) && NestedAt(lines, p, i, k)
    ensures SyncCount(lines, p) < OpenerCount(lines, p)
    decreases |lines|
  {
    hide FirstCloser, AllClosed, Exclusive, OpenerCount;
    var opens := p.open(lines[0]).Some?;
    var from := if opens then FirstCloser(lines, p, 1) else 1;
    if opens {
      FirstOpenerCloses(lines, p);
    } else {
      CountAtPlain(lines, p);
    }
    AllClosedSuffix(lines, p, from);
    if opens {
      CountAtOpener(lines, p);
    }
    if i >= from {
      NestedInSuffix(lines, p, from, i, k);
      NestingIsSkipped(lines[from..], p, i - from, k - from);
    } else {
      SyncCountAtMost(lines[from..], p);
      OpenerInBody(lines, p, i, k, from);
    }
  }

  lemma {:induction false} OpenerInBody(lines: seq<string>, p: Patterns, i: nat, k: nat, close: nat)
    requires Exclusive(p) && NestedAt(lines, p, i, k) && i < close == FirstCloser(lines, p, 1) < |lines|
    ensures OpenerCount(lines[1..close], p) >= 1
  {
    hide OpenerCount;
    var inner := if i == 0 then k else i;
    assert lines[1..close][inner - 1] == lines[inner];
    OpenerCounted(lines[1..close], p, inner - 1);
  }

  // ----- how long

  /** `x` taken `n` times. */
  function Times(n: nat, x: nat): nat {
    if n == 0 then 0 else Times(n - 1, x) + x
  }

  lemma {:induction false} TimesMinus(n: nat, x: nat, b: nat)
    requires b <= x
    ensures Times(n, x - b) + Times(n, b) == Times(n, x)
  {
    if n == 0 {
    } else {
      TimesMinus(n - 1, x, b);
    }
  }

  lemma {:induction false} TimesLess(m: nat, n: nat, x: nat)
    requires m < n
    ensures Times(m, x) + x <= Times(n, x)
  {
    if m == n - 1 {
    } else {
      TimesLess(m, n - 1, x);
    }
  }

  lemma {:induction false} TimesGrows(n: nat, x: nat, y: nat)
    requires x <= y
    ensures Times(n, x) <= Times(n, y)
  {
    if n == 0 {
    } else {
      TimesGrows(n - 1, x, y);
    }
  }

  /** The same one-line snippet for every fence. */
  function Same(line: string): Snippets {
    (open: OpenMatch) => [line]
  }

  function Line(length: nat): (line: string)
    ensures |line| == length && NL !in line
  {
    seq(length, _ => 'a')
  }

  lemma {:induction false} FlatOne(line: string)
    ensures Flat([line], NL) == line + [NL]
  {
    assert [line][1..] == [];
  }

  /** The replacement adds at most one snippet for each body it puts in. */
  lemma {:induction false} SyncIsShort(lines: seq<string>, p: Patterns, line: string)
    ensures |Flat(Sync(lines, p, Same(line)), NL)| <= |Flat(lines, NL)| + Times(SyncCount(lines, p), |line| + 1)
    decreases |lines|
  {
    hide Flat, Sync, Same;
    if lines == [] {
      SyncOfEmpty(p, line);
    } else {
      var close := FirstCloser(lines, p, 1);
      var opens := p.open(lines[0]).Some? && close < |lines|;
      var from := if opens then close else 1;
      SyncIsShort(lines[from..], p, line);
      SuffixIsShort(lines, from);
      SyncLength(lines, p, line, from);
    }
  }

  lemma SyncOfEmpty(p: Patterns, line: string)
    ensures Sync([], p, Same(line)) == []
  {
  }

  lemma {:induction false} SuffixIsShort(lines: seq<string>, from: nat)
    requires 0 < from <= |lines|
    ensures |Flat(lines[from..], NL)| + |lines[0]| + 1 <= |Flat(lines, NL)|
  {
    CutTwice(lines, 0, from);
    assert lines[0..from] == [lines[0]] + lines[1..from];
    FlatAppend([lines[0]], lines[1..from], NL);
    FlatAppend(lines[..from], lines[from..], NL);
    FlatOne(lines[0]);
    assert lines[..from] == lines[0..from] && lines == lines[..from] + lines[from..];
  }

  lemma {:induction false} SyncLength(lines: seq<string>, p: Patterns, line: string, from: nat)
    requires lines != []
    requires var close := FirstCloser(lines, p, 1);
             from == if p.open(lines[0]).Some? && close < |lines| then close else 1
    ensures |Flat(Sync(lines, p, Same(line)), NL)|
         == |lines[0]| + 1 + |Flat(Sync(lines[from..], p, Same(line)), NL)|
            + if p.open(lines[0]).Some? && FirstCloser(lines, p, 1) < |lines| then |line| + 1 else 0
  {
    var rest := Sync(lines[from..], p, Same(line));
    FlatOne(lines[0]);
    FlatOne(line);
    FlatAppend([lines[0]], rest, NL);
    FlatAppend([lines[0]] + [line], rest, NL);
    FlatAppend([lines[0]], [line], NL);
  }

  /** Where a fence lies in a text of some length. */
  predicate Within(fence: Fence, bound: nat) {
    fence.openingFenceEnd <= fence.closingFenceStart <= bound
  }

  lemma SpliceLength(content: string, fence: Fence, formatted: string)
    requires Within(fence, |content|)
    ensures |Splice(content, fence, formatted)|
         == |content| + |formatted| + 1 - (fence.closingFenceStart - fence.openingFenceEnd)
  {
  }

  lemma {:induction false} FormatsSame(line: string, open: OpenMatch)
    ensures Formatting(Same(line))(open) == line
  {
    JoinOne(line);
  }

  /** The splice puts in every snippet, and takes out no more than a body each time. */
  lemma {:induction false} SpliceIsLong(content: string, fences: seq<Fence>, line: string, bound: nat)
    requires bound <= |content| && bound <= |line| + 1
    requires forall fence :: fence in fences ==> Within(fence, bound)
    ensures |ReverseSplice(content, fences, Formatting(Same(line)))|
         >= |content| + Times(|fences|, |line| + 1 - bound)
    decreases |fences|
  {
    hide Splice, Formatting, Same;
    if fences == [] {
    } else {
      var n := |fences| - 1;
      var last := fences[n];
      assert last in fences;
      FormatsSame(line, last.open);
      SpliceLength(content, last, line);
      SpliceIsLong(Splice(content, last, line), fences[..n], line, bound);
    }
  }

  lemma {:induction false} FencesWithin(lines: seq<string>, p: Patterns)
    requires lines != [] && AllClosed(lines, p, |lines|)
    ensures forall fence :: fence in FencesUpTo(lines, p, |lines|) ==> Within(fence, |Join(lines, NL)|)
  {
    hide FirstCloser, AllClosed, Join, Flat;
    var fences := FencesUpTo(lines, p, |lines|);
    forall x | 0 <= x < |fences| ensures Within(fences[x], |Join(lines, NL)|) {
      var i := FenceLine(lines, p, |lines|, x);
      var close := FirstCloser(lines, p, i + 1);
      OffsetMonotone(lines, i + 1, close);
      JoinCut(lines, close);
    }
  }

  lemma {:induction false} TextLength(lines: seq<string>)
    requires lines != []
    ensures |Flat(lines, NL)| == |Join(lines, NL)| + 1
  {
    FlatJoin(lines, NL);
  }

  lemma SyncNotEmpty(lines: seq<string>, p: Patterns, snippets: Snippets)
    requires lines != []
    ensures Sync(lines, p, snippets) != []
  {
  }

  /** The number of fences found is the number of openers. */
  lemma {:induction false} FencesAreOpeners(lines: seq<string>, p: Patterns)
    requires AllClosed(lines, p, |lines|)
    ensures |FencesUpTo(lines, p, |lines|)| == OpenerCount(lines, p)
  {
    ScanIsFencesFrom(lines, p);
    FenceCount(lines, p, 0);
    assert lines[0..] == lines;
  }

  lemma SameIsLines(lines: seq<string>, p: Patterns, line: string)
    requires NL !in line
    ensures SnippetsAreLines(lines, p, Same(line))
  {
  }

  /** With nested fences some snippets come out wrong. */
  lemma {:induction false} NestingSplicesWrong(lines: seq<string>, p: Patterns, i: nat, k: nat)
      returns (snippets: Snippets)
    requires Exclusive(p) && AllClosed(lines, p, |lines|) && NestedAt(lines, p, i, k)
    ensures SnippetsAreLines(lines, p, snippets) && !SplicesRight(lines, p, snippets)
  {
    hide Exclusive, AllClosed, Times, Flat, Join, Sync, SyncCount, OpenerCount, FencesUpTo, ReverseSplice, Same,
      Formatting, SnippetsAreLines;
    var content, fences := Join(lines, NL), FencesUpTo(lines, p, |lines|);
    var n, bound := |fences|, |content|;
    var line := Line(Times(n + 1, bound + 1));
    snippets := Same(line);
    SameIsLines(lines, p, line);
    FencesAreOpeners(lines, p);
    NestingIsSkipped(lines, p, i, k);
    SyncIsShort(lines, p, line);
    SyncNotEmpty(lines, p, snippets);
    TextLength(lines);
    TextLength(Sync(lines, p, snippets));
    FencesWithin(lines, p);
    LongEnough(n, SyncCount(lines, p), bound);
    SpliceIsLong(content, fences, line, bound);
  }

  lemma {:induction false} LongEnough(n: nat, m: nat, bound: nat)
    requires m < n
    ensures var length := Times(n + 1, bound + 1) + 1;
            bound <= length && Times(m, length) < Times(n, length - bound)
  {
    var length := Times(n + 1, bound + 1) + 1;
    TimesGrows(n, bound, bound + 1);
    assert length == Times(n, bound + 1) + bound + 2;
    TimesMinus(n, length, bound);
    TimesLess(m, n, length);
  }

  /** Splicing in reverse order is replacing all bodies, whatever the snippets, exactly when no fence nests. */
  lemma {:induction false} SplicesRightIff(lines: seq<string>, p: Patterns)
    requires Exclusive(p) && AllClosed(lines, p, |lines|)
    ensures AlwaysSplicesRight(lines, p) <==> NoNesting(lines, p)
  {
    if NoNesting(lines, p) {
      forall snippets: Snippets | SnippetsAreLines(lines, p, snippets) ensures SplicesRight(lines, p, snippets) {
        ReverseSpliceIsSync(lines, p, snippets, Formatting(snippets));
      }
    } else {
      var i, k :| 0 <= i < k < |lines| && p.open(lines[i]).Some? && p.open(lines[k]).Some?
                  && FirstCloser(lines, p, i + 1) >= k;
      assert NestedAt(lines, p, i, k);
      var snippets := NestingSplicesWrong(lines, p, i, k);
    }
  }
}
