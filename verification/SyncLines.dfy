/**
 What syncing means, on lines: every fence body is replaced by the snippet its opener names,
 and every other line stays.  Splicing characters in reverse order is proved equal to it, and
 the condition under which syncing is a fixpoint is proved exact.
 */
module SyncLines {
  import opened Text
  import opened Seqs
  import opened FencePatterns
  import opened FenceScan

  type Snippets = OpenMatch -> seq<string>

  function Sync(lines: seq<string>, p: Patterns, snippets: Snippets): seq<string>
    decreases |lines|
  {
    if lines == [] then []
    else
      var close := FirstCloser(lines, p, 1);
      if p.open(lines[0]).Some? && close < |lines| then
        [lines[0]] + snippets(p.open(lines[0]).value) + Sync(lines[close..], p, snippets)
      else
        [lines[0]] + Sync(lines[1..], p, snippets)
  }

  ghost predicate OpenerFree(lines: seq<string>, p: Patterns) {
    forall i :: 0 <= i < |lines| ==> p.open(lines[i]).None?
  }

  ghost predicate CloserFree(lines: seq<string>, p: Patterns) {
    forall i :: 0 <= i < |lines| ==> !p.close(lines[i])
  }

  /** The snippet of every opener among the lines is a non-empty list of newline-free lines. */
  ghost predicate SnippetsAreLines(lines: seq<string>, p: Patterns, snippets: Snippets) {
    forall i :: 0 <= i < |lines| && p.open(lines[i]).Some? ==> Separated(snippets(p.open(lines[i]).value), NL)
  }

  ghost predicate SnippetsOpenerFree(lines: seq<string>, p: Patterns, snippets: Snippets) {
    forall i :: 0 <= i < |lines| && p.open(lines[i]).Some? ==> OpenerFree(snippets(p.open(lines[i]).value), p)
  }

  ghost predicate SnippetsCloserFree(lines: seq<string>, p: Patterns, snippets: Snippets) {
    forall i :: 0 <= i < |lines| && p.open(lines[i]).Some? ==> CloserFree(snippets(p.open(lines[i]).value), p)
  }

  // ----- suffixes and skipped lines

  lemma {:induction false} FirstCloserOfSuffix(lines: seq<string>, p: Patterns, from: nat, i: nat)
    requires from + i <= |lines|
    ensures FirstCloser(lines[from..], p, i) == FirstCloser(lines, p, from + i) - from
    decreases |lines| - i
  {
    if from + i < |lines| && !p.close(lines[from + i]) {
      FirstCloserOfSuffix(lines, p, from, i + 1);
    }
  }

  lemma FirstCloserAtMost(lines: seq<string>, p: Patterns, i: nat, c: nat)
    requires i <= c < |lines| && p.close(lines[c])
    ensures FirstCloser(lines, p, i) <= c
  {
  }

  lemma {:induction false} SkipOpenerFree(a: seq<string>, b: seq<string>, p: Patterns, snippets: Snippets)
    requires OpenerFree(a, p)
    ensures Sync(a + b, p, snippets) == a + Sync(b, p, snippets)
  {
    if a == [] {
      assert a + b == b;
    } else {
      assert (a + b)[0] == a[0] && (a + b)[1..] == a[1..] + b;
      SkipOpenerFree(a[1..], b, p, snippets);
    }
  }

  lemma {:induction false} SuffixFacts(lines: seq<string>, p: Patterns, from: nat)
    requires from <= |lines|
    requires AllClosed(lines, p, |lines|) && NoNesting(lines, p)
    ensures AllClosed(lines[from..], p, |lines| - from) && NoNesting(lines[from..], p)
  {
    var rest := lines[from..];
    forall i | 0 <= i < |rest| && p.open(rest[i]).Some?
      ensures FirstCloser(rest, p, i + 1) == FirstCloser(lines, p, from + i + 1) - from
      ensures FirstCloser(rest, p, i + 1) < |rest|
    {
      assert rest[i] == lines[from + i];
      FirstCloserOfSuffix(lines, p, from, i + 1);
    }
  }

  // ----- the reverse splice

  /** `content` with one fence's body replaced, bounds clamped as `slice` does. */
  function Splice(content: string, fence: Fence, formatted: string): string {
    SliceTo(content, fence.openingFenceEnd) + formatted + [NL] + SliceFrom(content, fence.closingFenceStart)
  }

  /** The bodies replaced one at a time, last fence first, always at the offsets of the scan. */
  function ReverseSplice(content: string, fences: seq<Fence>, format: OpenMatch -> string): string
    decreases |fences|
  {
    if fences == [] then content
    else
      var last := fences[|fences| - 1];
      ReverseSplice(Splice(content, last, format(last.open)), fences[..|fences| - 1], format)
  }

  lemma {:induction false} FlatSplice(before: seq<string>, body: seq<string>, after: seq<string>)
    ensures Flat(before + body + after, NL) == Flat(before, NL) + Flat(body, NL) + Flat(after, NL)
  {
    FlatAppend(before + body, after, NL);
    FlatAppend(before, body, NL);
  }

  /** Cutting the joined text at two line starts: all but the final newline of the flat form. */
  lemma {:induction false} JoinCut(lines: seq<string>, i: nat)
    requires i < |lines|
    ensures Offset(lines, i) <= |Join(lines, NL)|
    ensures Join(lines, NL)[..Offset(lines, i)] == Flat(lines[..i], NL)
    ensures Join(lines, NL)[Offset(lines, i)..] == Join(lines[i..], NL)
  {
    var before, after := lines[..i], lines[i..];
    FlatJoin(lines, NL);
    FlatJoin(after, NL);
    OffsetIsLength(lines, i);
    Cut(lines, i);
    FlatAppend(before, after, NL);
    CutBeforeLast(Join(lines, NL), Flat(before, NL), Join(after, NL));
  }

  lemma {:induction false} CutBeforeLast(content: string, left: string, right: string)
    requires content + [NL] == left + (right + [NL])
    ensures |left| <= |content| && content[..|left|] == left && content[|left|..] == right
  {
    var whole := content + [NL];
    assert |content| == |left| + |right|;
    Assoc(left, right, [NL]);
    assert whole[..|content|] == content && (left + right + [NL])[..|content|] == left + right;
  }

  lemma {:induction false} SpliceLines(lines: seq<string>, a: nat, b: nat, body: seq<string>)
    requires a <= b < |lines| && body != []
    ensures Offset(lines, a) <= |Join(lines, NL)| && Offset(lines, b) <= |Join(lines, NL)|
    ensures Join(lines, NL)[..Offset(lines, a)] + Join(body, NL) + [NL] + Join(lines, NL)[Offset(lines, b)..]
         == Join(lines[..a] + body + lines[b..], NL)
  {
    JoinCut(lines, a);
    JoinCut(lines, b);
    JoinGlue(lines[..a], body, lines[b..]);
  }

  lemma {:induction false} JoinGlue(before: seq<string>, body: seq<string>, after: seq<string>)
    requires body != [] && after != []
    ensures Flat(before, NL) + Join(body, NL) + [NL] + Join(after, NL) == Join(before + body + after, NL)
  {
    FlatJoin(body, NL);
    FlatJoin(after, NL);
    FlatJoin(before + body + after, NL);
    FlatSplice(before, body, after);
    var left := Flat(before, NL) + Join(body, NL) + [NL];
    Assoc(Flat(before, NL), Join(body, NL), [NL]);
    Assoc(left, Join(after, NL), [NL]);
    CutBeforeLast(Join(before + body + after, NL), left, Join(after, NL));
    Cut(Join(before + body + after, NL), |left|);
  }

  lemma {:induction false} SpliceFence(lines: seq<string>, fence: Fence, a: nat, b: nat, body: seq<string>)
    requires a <= b < |lines| && body != []
    requires fence.openingFenceEnd == Offset(lines, a) && fence.closingFenceStart == Offset(lines, b)
    ensures Splice(Join(lines, NL), fence, Join(body, NL)) == Join(lines[..a] + body + lines[b..], NL)
  {
    SpliceLines(lines, a, b, body);
  }

  lemma {:induction false} OffsetOfPrefix(lines: seq<string>, lines': seq<string>, i: nat)
    requires i <= |lines| && i <= |lines'| && lines[..i] == lines'[..i]
    ensures Offset(lines, i) == Offset(lines', i)
  {
    OffsetIsLength(lines, i);
    OffsetIsLength(lines', i);
  }

  /** The body of a fence that nests no other is left alone by what is synced behind its opener. */
  lemma {:induction false} BodyUntouched(lines: seq<string>, p: Patterns, i: nat, snippets: Snippets)
    requires NoNesting(lines, p)
    requires i < |lines| && OpensClosed(lines, p, i)
    ensures var close := FirstCloser(lines, p, i + 1);
            lines[..i + 1] + Sync(lines[i + 1..], p, snippets) == lines[..close] + Sync(lines[close..], p, snippets)
  {
    var close := FirstCloser(lines, p, i + 1);
    var body, after := lines[i + 1..close], lines[close..];
    forall k | i + 1 <= k < close ensures p.open(lines[k]).None? {
      assert p.open(lines[k]).Some? ==> close < k;
    }
    SkipOpenerFree(body, after, p, snippets);
    CutTwice(lines, i + 1, close);
    Assoc(lines[..i + 1], body, Sync(after, p, snippets));
  }

  lemma {:induction false} SyncAtOpener(lines: seq<string>, p: Patterns, i: nat, snippets: Snippets)
    requires i < |lines| && OpensClosed(lines, p, i)
    ensures var close := FirstCloser(lines, p, i + 1);
            Sync(lines[i..], p, snippets)
              == [lines[i]] + snippets(p.open(lines[i]).value) + Sync(lines[close..], p, snippets)
  {
    FirstCloserOfSuffix(lines, p, i, 1);
    CutTwice(lines, i, FirstCloser(lines, p, i + 1));
  }

  lemma {:induction false} SpliceBefore(lines: seq<string>, fence: Fence, i: nat, close: nat, body: seq<string>,
                                        after: seq<string>)
    requires i < close <= |lines| && body != [] && after != []
    requires fence.openingFenceEnd == Offset(lines, i + 1) && fence.closingFenceStart == Offset(lines, close)
    ensures Splice(Join(lines[..close] + after, NL), fence, Join(body, NL))
         == Join(lines[..i] + ([lines[i]] + body + after), NL)
  {
    var whole := lines[..close] + after;
    CutConcat(lines[..close], after, i + 1);
    assert lines[..close][..i + 1] == lines[..i + 1];
    OffsetOfPrefix(lines, whole, i + 1);
    OffsetOfPrefix(lines, whole, close);
    SpliceFence(whole, fence, i + 1, close, body);
    Assoc(lines[..i + 1], body, after);
    Assoc([lines[i]], body, after);
    Assoc(lines[..i], [lines[i]], body + after);
    assert lines[..i + 1] == lines[..i] + [lines[i]];
  }

  /** One step of the splice: line `i` opens a fence and everything behind it is already synced. */
  lemma {:induction false} SpliceStep(lines: seq<string>, p: Patterns, i: nat, snippets: Snippets)
    requires Exclusive(p) && NoNesting(lines, p)
    requires i < |lines| && OpensClosed(lines, p, i)
    requires snippets(p.open(lines[i]).value) != []
    ensures Splice(PartlySynced(lines, p, i + 1, snippets), FenceAt(lines, p, i),
                   Join(snippets(p.open(lines[i]).value), NL))
            == PartlySynced(lines, p, i, snippets)
  {
    var close := FirstCloser(lines, p, i + 1);
    var body := snippets(p.open(lines[i]).value);
    var after := Sync(lines[close..], p, snippets);
    BodyUntouched(lines, p, i, snippets);
    SyncAtOpener(lines, p, i, snippets);
    SyncIsNotEmpty(lines, p, close, snippets);
    SpliceBefore(lines, FenceAt(lines, p, i), i, close, body, after);
  }

  lemma SyncIsNotEmpty(lines: seq<string>, p: Patterns, i: nat, snippets: Snippets)
    requires i < |lines|
    ensures Sync(lines[i..], p, snippets) != []
  {
  }

  /** The text when every fence opening at or behind line `n` has been spliced. */
  function PartlySynced(lines: seq<string>, p: Patterns, n: nat, snippets: Snippets): string
    requires n <= |lines|
  {
    Join(lines[..n] + Sync(lines[n..], p, snippets), NL)
  }

  lemma {:induction false} PartlySyncedStep(lines: seq<string>, p: Patterns, n: nat, snippets: Snippets)
    requires n < |lines| && p.open(lines[n]).None?
    ensures PartlySynced(lines, p, n, snippets) == PartlySynced(lines, p, n + 1, snippets)
  {
    assert lines[n..][1..] == lines[n + 1..];
    Assoc(lines[..n], [lines[n]], Sync(lines[n + 1..], p, snippets));
    assert lines[..n + 1] == lines[..n] + [lines[n]];
  }

  lemma {:induction false} ReverseSpliceFrom(
    lines: seq<string>, p: Patterns, n: nat, snippets: Snippets, format: OpenMatch -> string)
    requires Exclusive(p) && AllClosed(lines, p, |lines|) && NoNesting(lines, p)
    requires n <= |lines|
    requires SnippetsAreLines(lines, p, snippets)
    requires forall open :: format(open) == Join(snippets(open), NL)
    ensures ReverseSplice(PartlySynced(lines, p, n, snippets), FencesUpTo(lines, p, n), format)
         == PartlySynced(lines, p, 0, snippets)
  {
    hide PartlySynced, FenceAt, ReverseSplice, Join, Exclusive, NoNesting;
    if n == 0 {
      ReverseSpliceNone(PartlySynced(lines, p, 0, snippets), format);
    } else {
      ReverseSpliceFrom(lines, p, n - 1, snippets, format);
      ScanStep(lines, p, n - 1);
      if p.open(lines[n - 1]).Some? {
        SpliceStep(lines, p, n - 1, snippets);
        OpenOfFence(lines, p, n - 1);
        ReverseSpliceLast(PartlySynced(lines, p, n, snippets), FencesUpTo(lines, p, n - 1),
                          FenceAt(lines, p, n - 1), format);
      } else {
        PartlySyncedStep(lines, p, n - 1, snippets);
      }
    }
  }

  lemma OpenOfFence(lines: seq<string>, p: Patterns, i: nat)
    requires i < |lines| && OpensClosed(lines, p, i)
    ensures FenceAt(lines, p, i).open == p.open(lines[i]).value
  {
  }

  lemma ReverseSpliceNone(content: string, format: OpenMatch -> string)
    ensures ReverseSplice(content, [], format) == content
  {
  }

  lemma {:induction false} ReverseSpliceLast(content: string, fences: seq<Fence>, last: Fence,
                                             format: OpenMatch -> string)
    ensures ReverseSplice(content, fences + [last], format)
         == ReverseSplice(Splice(content, last, format(last.open)), fences, format)
  {
    assert (fences + [last])[..|fences|] == fences;
  }

  /** For disjoint fences, splicing in reverse order is replacing every body at once. */
  lemma {:induction false} ReverseSpliceIsSync(lines: seq<string>, p: Patterns, snippets: Snippets,
                                               format: OpenMatch -> string)
    requires Exclusive(p) && AllClosed(lines, p, |lines|) && NoNesting(lines, p)
    requires SnippetsAreLines(lines, p, snippets)
    requires forall open :: format(open) == Join(snippets(open), NL)
    ensures ReverseSplice(Join(lines, NL), FencesUpTo(lines, p, |lines|), format) == Join(Sync(lines, p, snippets), NL)
  {
    ReverseSpliceFrom(lines, p, |lines|, snippets, format);
    assert lines[..|lines|] + Sync(lines[|lines|..], p, snippets) == lines;
    assert lines[..0] + Sync(lines[0..], p, snippets) == Sync(lines, p, snippets);
  }

  /**
   With one fence opening inside another the splice is not that: the inner splice moves the
   closing line, the outer one still cuts at the scanned offset and leaves the inner snippet in.
   */
  lemma {:induction false} NestedFencesLeaveInnerSnippet(p: Patterns, outer: string, inner: string, closer: string,
                                      format: OpenMatch -> string)
    requires Exclusive(p) && p.open(outer).Some? && p.open(inner).Some? && p.close(closer)
    ensures var lines, a, b := [outer, inner, closer], format(p.open(outer).value), format(p.open(inner).value);
            && AllClosed(lines, p, 3)
            && ReverseSplice(Join(lines, NL), FencesUpTo(lines, p, 3), format) == Join([outer, a, b, closer], NL)
            && Sync(lines, p, OneLine(format)) == [outer, a, closer]
  {
    var lines := [outer, inner, closer];
    NestedScan(p, outer, inner, closer);
    NestedSync(p, outer, inner, closer, format);
    var f, g := FenceAt(lines, p, 0), FenceAt(lines, p, 1);
    hide Join, Splice, Offset, Sync, FencesUpTo, FenceAt, FirstCloser;
    ReverseSpliceLast(Join(lines, NL), [f], g, format);
    assert [f] + [g] == [f, g] && [] + [f] == [f];
    ReverseSpliceLast(Splice(Join(lines, NL), g, format(g.open)), [], f, format);
    SpliceNested(outer, inner, closer, f, g, format(f.open), format(g.open));
  }

  lemma {:induction false} NestedScan(p: Patterns, outer: string, inner: string, closer: string)
    requires Exclusive(p) && p.open(outer).Some? && p.open(inner).Some? && p.close(closer)
    ensures var lines := [outer, inner, closer];
            && AllClosed(lines, p, 3)
            && FencesUpTo(lines, p, 3) == [FenceAt(lines, p, 0), FenceAt(lines, p, 1)]
            && FenceAt(lines, p, 0).open == p.open(outer).value && FenceAt(lines, p, 1).open == p.open(inner).value
            && FenceAt(lines, p, 0).openingFenceEnd == Offset(lines, 1)
            && FenceAt(lines, p, 0).closingFenceStart == Offset(lines, 2)
            && FenceAt(lines, p, 1).openingFenceEnd == Offset(lines, 2)
            && FenceAt(lines, p, 1).closingFenceStart == Offset(lines, 2)
  {
    hide Offset;
    var lines := [outer, inner, closer];
    assert FirstCloser(lines, p, 2) == 2;
    assert FirstCloser(lines, p, 1) == 2;
    assert FencesUpTo(lines, p, 0) == [];
    assert FencesUpTo(lines, p, 1) == [FenceAt(lines, p, 0)];
    assert FencesUpTo(lines, p, 2) == [FenceAt(lines, p, 0), FenceAt(lines, p, 1)];
    assert lines[2] == closer;
  }

  lemma {:induction false} NestedSync(p: Patterns, outer: string, inner: string, closer: string,
                                      format: OpenMatch -> string)
    requires Exclusive(p) && p.open(outer).Some? && p.open(inner).Some? && p.close(closer)
    ensures Sync([outer, inner, closer], p, OneLine(format)) == [outer, format(p.open(outer).value), closer]
  {
    var lines := [outer, inner, closer];
    assert FirstCloser(lines, p, 2) == 2;
    assert FirstCloser(lines, p, 1) == 2;
    assert lines[2..] == [closer] && [closer] == [closer] + [];
    SkipOpenerFree([closer], [], p, OneLine(format));
  }

  /** Snippets of a single line. */
  function OneLine(format: OpenMatch -> string): Snippets {
    (open: OpenMatch) => [format(open)]
  }

  lemma {:induction false} SpliceNested(outer: string, inner: string, closer: string, f: Fence, g: Fence, a: string,
                                        b: string)
    requires var lines := [outer, inner, closer];
             && f.openingFenceEnd == Offset(lines, 1) && f.closingFenceStart == Offset(lines, 2)
             && g.openingFenceEnd == Offset(lines, 2) && g.closingFenceStart == Offset(lines, 2)
    ensures Splice(Splice(Join([outer, inner, closer], NL), g, b), f, a) == Join([outer, a, b, closer], NL)
  {
    hide Join, Splice, Offset;
    var lines, between := [outer, inner, closer], [outer, inner, b, closer];
    JoinOne(a);
    JoinOne(b);
    SpliceFence(lines, g, 2, 2, [b]);
    assert lines[..2] + [b] + lines[2..] == between;
    assert between[..1] == lines[..1] && between[..2] == lines[..2];
    OffsetOfPrefix(lines, between, 1);
    OffsetOfPrefix(lines, between, 2);
    SpliceFence(between, f, 1, 2, [a]);
    assert between[..1] + [a] + between[2..] == [outer, a, b, closer];
  }

  lemma JoinOne(line: string)
    ensures Join([line], NL) == line
  {
  }

  // ----- syncing twice

  /** A synced text has the same openers, each closed, none nested, if no snippet line opens. */
  lemma {:induction false} SyncedOpeners(lines: seq<string>, p: Patterns, snippets: Snippets)
    requires Exclusive(p) && AllClosed(lines, p, |lines|) && NoNesting(lines, p)
    requires SnippetsOpenerFree(lines, p, snippets)
    ensures var out := Sync(lines, p, snippets);
            && AllClosed(out, p, |out|)
            && NoNesting(out, p)
            && (lines != [] ==> out != [] && out[0] == lines[0])
    decreases |lines|
  {
    if lines == [] {
    } else {
      var opens := p.open(lines[0]).Some?;
      var from := if opens then FirstCloser(lines, p, 1) else 1;
      var body := if opens then snippets(p.open(lines[0]).value) else [];
      SuffixFacts(lines, p, from);
      SyncedOpeners(lines[from..], p, snippets);
      SyncedOpenersStep(lines[0], body, Sync(lines[from..], p, snippets), p);
      assert Sync(lines, p, snippets) == [lines[0]] + body + Sync(lines[from..], p, snippets);
    }
  }

  ghost predicate OpenersWithin(out: seq<string>, p: Patterns, lines: seq<string>) {
    forall line :: line in out && p.open(line).Some? ==> line in lines
  }

  /** Syncing brings no new opener in. */
  lemma {:induction false} SyncedOpenersKept(lines: seq<string>, p: Patterns, snippets: Snippets)
    requires AllClosed(lines, p, |lines|) && NoNesting(lines, p)
    requires SnippetsOpenerFree(lines, p, snippets)
    ensures OpenersWithin(Sync(lines, p, snippets), p, lines)
    decreases |lines|
  {
    if lines == [] {
    } else {
      var opens := p.open(lines[0]).Some?;
      var from := if opens then FirstCloser(lines, p, 1) else 1;
      var body := if opens then snippets(p.open(lines[0]).value) else [];
      SuffixFacts(lines, p, from);
      SyncedOpenersKept(lines[from..], p, snippets);
      OpenersWithinStep(lines, p, from, body, Sync(lines[from..], p, snippets));
    }
  }

  lemma {:induction false} OpenersWithinStep(lines: seq<string>, p: Patterns, from: nat, body: seq<string>,
                                             rest: seq<string>)
    requires 0 < from <= |lines| && OpenerFree(body, p) && OpenersWithin(rest, p, lines[from..])
    ensures OpenersWithin([lines[0]] + body + rest, p, lines)
  {
    forall line | line in [lines[0]] + body + rest && p.open(line).Some? ensures line in lines {
      if line in rest {
        InSuffix(lines, from, line);
      }
    }
  }

  /** Syncing only asks for the snippets of the openers in the text. */
  lemma {:induction false} SyncAgrees(lines: seq<string>, p: Patterns, s: Snippets, s': Snippets)
    requires forall i :: 0 <= i < |lines| && p.open(lines[i]).Some? ==>
        s(p.open(lines[i]).value) == s'(p.open(lines[i]).value)
    ensures Sync(lines, p, s) == Sync(lines, p, s')
    decreases |lines|
  {
    if lines == [] {
    } else {
      var close := FirstCloser(lines, p, 1);
      var from := if p.open(lines[0]).Some? && close < |lines| then close else 1;
      SyncAgrees(lines[from..], p, s, s');
    }
  }

  lemma {:induction false} SyncedOpenersStep(first: string, body: seq<string>, rest: seq<string>, p: Patterns)
    requires Exclusive(p) && OpenerFree(body, p)
    requires AllClosed(rest, p, |rest|) && NoNesting(rest, p)
    requires p.open(first).Some? ==> rest != [] && p.close(rest[0])
    ensures var out := [first] + body + rest; AllClosed(out, p, |out|) && NoNesting(out, p)
  {
    hide FirstCloser, Exclusive, AllClosed, NoNesting, OpenerFree;
    var out := [first] + body + rest;
    forall i | 0 <= i < |out| && p.open(out[i]).Some?
      ensures FirstCloser(out, p, i + 1) < |out|
      ensures forall k :: i < k < |out| && p.open(out[k]).Some? ==> FirstCloser(out, p, i + 1) < k
    {
      OpenersStand(first, body, rest, p, i);
      if i == 0 {
        FirstStaysClosed(first, body, rest, p);
      } else {
        RestStaysClosed(first, body, rest, p, i);
      }
    }
    hide *;
    ClosedAndApart(out, p);
  }

  /** Openers of the new text are the first line or stand in the rest. */
  lemma {:induction false} OpenersStand(first: string, body: seq<string>, rest: seq<string>, p: Patterns, i: nat)
    requires OpenerFree(body, p)
    requires var out := [first] + body + rest; i < |out| && p.open(out[i]).Some?
    ensures i == 0 || i >= 1 + |body|
  {
    var out := [first] + body + rest;
    forall k | 0 < k < 1 + |body| ensures p.open(out[k]).None? {
      assert out[k] == body[k - 1];
    }
  }

  lemma {:induction false} FirstStaysClosed(first: string, body: seq<string>, rest: seq<string>, p: Patterns)
    requires Exclusive(p) && OpenerFree(body, p) && rest != [] && p.close(rest[0])
    ensures var out := [first] + body + rest;
            && FirstCloser(out, p, 1) < |out|
            && forall k :: 0 < k < |out| && p.open(out[k]).Some? ==> FirstCloser(out, p, 1) < k
  {
    var out, shift := [first] + body + rest, 1 + |body|;
    assert out[shift] == rest[0];
    FirstCloserAtMost(out, p, 1, shift);
    hide FirstCloser;
    forall k | 0 < k < |out| && p.open(out[k]).Some? ensures shift < k {
      OpenersStand(first, body, rest, p, k);
    }
  }

  lemma {:induction false} RestStaysClosed(first: string, body: seq<string>, rest: seq<string>, p: Patterns, i: nat)
    requires AllClosed(rest, p, |rest|) && NoNesting(rest, p)
    requires var out := [first] + body + rest; 1 + |body| <= i < |out| && p.open(out[i]).Some?
    ensures var out := [first] + body + rest;
            && FirstCloser(out, p, i + 1) < |out|
            && forall k :: i < k < |out| && p.open(out[k]).Some? ==> FirstCloser(out, p, i + 1) < k
  {
    hide *;
    CutConcat([first] + body, rest, 0);
    SuffixStaysClosed([first] + body + rest, 1 + |body|, p, i);
  }

  lemma {:induction false} SuffixStaysClosed(out: seq<string>, shift: nat, p: Patterns, i: nat)
    requires shift <= i < |out| && p.open(out[i]).Some?
    requires AllClosed(out[shift..], p, |out| - shift) && NoNesting(out[shift..], p)
    ensures FirstCloser(out, p, i + 1) < |out|
    ensures forall k :: i < k < |out| && p.open(out[k]).Some? ==> FirstCloser(out, p, i + 1) < k
  {
    hide FirstCloser;
    var rest := out[shift..];
    FirstCloserOfSuffix(out, p, shift, i - shift + 1);
    assert rest[i - shift] == out[i];
    forall k | i < k < |out| && p.open(out[k]).Some? ensures FirstCloser(out, p, i + 1) < k {
      assert rest[k - shift] == out[k];
    }
  }

  lemma {:induction false} ClosedAndApart(out: seq<string>, p: Patterns)
    requires forall i :: 0 <= i < |out| && p.open(out[i]).Some? ==>
               FirstCloser(out, p, i + 1) < |out|
               && forall k :: i < k < |out| && p.open(out[k]).Some? ==> FirstCloser(out, p, i + 1) < k
    ensures AllClosed(out, p, |out|) && NoNesting(out, p)
  {
    hide FirstCloser;
  }

  /** Syncing never loses lines, and keeps the text exactly when no snippet line closes a fence. */
  lemma {:induction false} SyncTwice(lines: seq<string>, p: Patterns, snippets: Snippets)
    requires Exclusive(p) && AllClosed(lines, p, |lines|) && NoNesting(lines, p)
    requires SnippetsOpenerFree(lines, p, snippets)
    ensures var once := Sync(lines, p, snippets);
            var twice := Sync(once, p, snippets);
            && |twice| >= |once|
            && (SnippetsCloserFree(lines, p, snippets) ==> twice == once)
            && (!SnippetsCloserFree(lines, p, snippets) ==> |twice| > |once|)
    decreases |lines|
  {
    if lines == [] {
    } else {
      var from := if p.open(lines[0]).Some? then FirstCloser(lines, p, 1) else 1;
      SuffixFacts(lines, p, from);
      SyncTwice(lines[from..], p, snippets);
      SnippetsOfRest(lines, p, snippets, from);
      if p.open(lines[0]).Some? {
        assert Sync(lines[from..], p, snippets)[0] == lines[from];
        SyncTwiceStep(lines[0], snippets(p.open(lines[0]).value), Sync(lines[from..], p, snippets), p, snippets);
      } else {
        var once := Sync(lines, p, snippets);
        assert once[1..] == Sync(lines[1..], p, snippets);
      }
    }
  }

  /** The snippets of the lines are that of the first line's fence and those of the rest. */
  lemma {:induction false} SnippetsOfRest(lines: seq<string>, p: Patterns, snippets: Snippets, from: nat)
    requires AllClosed(lines, p, |lines|) && NoNesting(lines, p)
    requires lines != [] && from == if p.open(lines[0]).Some? then FirstCloser(lines, p, 1) else 1
    ensures SnippetsCloserFree(lines, p, snippets) <==>
              && SnippetsCloserFree(lines[from..], p, snippets)
              && (p.open(lines[0]).Some? ==> CloserFree(snippets(p.open(lines[0]).value), p))
  {
    var rest := lines[from..];
    forall i | 0 <= i < |rest| ensures rest[i] == lines[from + i] {
    }
    forall i | 0 <= i < |lines| && p.open(lines[i]).Some? ensures i == 0 || (i >= from && rest[i - from] == lines[i]) {
    }
  }

  /** Syncing a freshly synced fence finds its first closing line, which may be a snippet line. */
  lemma {:induction false} SyncTwiceStep(first: string, body: seq<string>, rest: seq<string>, p: Patterns,
                                         snippets: Snippets)
    requires p.open(first).Some? && body == snippets(p.open(first).value) && OpenerFree(body, p)
    requires rest != [] && p.close(rest[0])
    ensures var once := [first] + body + rest;
            var twice := Sync(once, p, snippets);
            var tail := Sync(rest, p, snippets);
            && (CloserFree(body, p) ==> twice == [first] + body + tail)
            && (!CloserFree(body, p) ==> |twice| > 1 + |body| + |tail|)
  {
    var once := [first] + body + rest;
    var close := FirstCloser(once, p, 1);
    CloserInBody(first, body, rest, p);
    var dropped := body[close - 1..];
    assert once[close..] == dropped + rest;
    SkipOpenerFree(dropped, rest, p, snippets);
  }

  lemma {:induction false} CloserInBody(first: string, body: seq<string>, rest: seq<string>, p: Patterns)
    requires rest != [] && p.close(rest[0])
    ensures FirstCloser([first] + body + rest, p, 1) <= 1 + |body|
    ensures FirstCloser([first] + body + rest, p, 1) == 1 + |body| <==> CloserFree(body, p)
  {
    var once := [first] + body + rest;
    FirstCloserAtMost(once, p, 1, 1 + |body|);
    assert forall j :: 0 <= j < |body| ==> once[j + 1] == body[j];
    if !CloserFree(body, p) {
      var j :| 0 <= j < |body| && p.close(body[j]);
      FirstCloserAtMost(once, p, 1, 1 + j);
    }
  }
}
