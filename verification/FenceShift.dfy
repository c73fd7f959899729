/**
 Where the fences of a synced text stand: the same ones in the same order, each moved by what the
 bodies before it grew or shrank.
 */
module FenceShift {
  import opened Text
  import opened FencePatterns
  import opened FenceScan
  import opened SyncLines

  // ----- the shift

  /** By how much a body grows when the snippet of its opener is put in. */
  function Growth(fence: Fence, snippets: Snippets): int {
    |Flat(snippets(fence.open), NL)| - (fence.closingFenceStart - fence.openingFenceEnd)
  }

  /** The same fence, moved by `shift`, its body grown by `growth`. */
  predicate Moved(fence': Fence, fence: Fence, shift: int, growth: int) {
    && fence'.open == fence.open
    && fence'.openingFenceStart == fence.openingFenceStart + shift
    && fence'.openingFenceEnd == fence.openingFenceEnd + shift
    && fence'.closingFenceStart == fence.closingFenceStart + shift + growth
  }

  /** Fence by fence, each moved by `shift` and the growth of those before it. */
  ghost predicate AllMoved(fences': seq<Fence>, fences: seq<Fence>, snippets: Snippets, shift: int)
    decreases |fences|
  {
    && |fences'| == |fences|
    && (fences != [] ==>
          var growth := Growth(fences[0], snippets);
          Moved(fences'[0], fences[0], shift, growth) && AllMoved(fences'[1..], fences[1..], snippets, shift + growth))
  }

  /** The growth of the first `x` fences. */
  function Shift(fences: seq<Fence>, snippets: Snippets, x: nat): int
    requires x <= |fences|
  {
    if x == 0 then 0 else Shift(fences, snippets, x - 1) + Growth(fences[x - 1], snippets)
  }

  lemma {:induction false} ShiftOfRest(fences: seq<Fence>, snippets: Snippets, x: nat)
    requires x < |fences|
    ensures Shift(fences, snippets, x + 1) == Growth(fences[0], snippets) + Shift(fences[1..], snippets, x)
  {
    hide Growth;
    if x == 0 {
    } else {
      ShiftOfRest(fences, snippets, x - 1);
    }
  }

  lemma {:induction false} MovedAt(fences': seq<Fence>, fences: seq<Fence>, snippets: Snippets, shift: int, x: nat)
    requires AllMoved(fences', fences, snippets, shift) && x < |fences|
    ensures Moved(fences'[x], fences[x], shift + Shift(fences, snippets, x), Growth(fences[x], snippets))
    decreases x
  {
    hide Moved, Growth;
    if x == 0 {
    } else {
      var growth := Growth(fences[0], snippets);
      MovedAt(fences'[1..], fences[1..], snippets, shift + growth, x - 1);
      ShiftOfRest(fences, snippets, x - 1);
    }
  }

  ghost predicate FencesMove(fences': seq<Fence>, fences: seq<Fence>, snippets: Snippets) {
    && |fences'| == |fences|
    && forall x :: 0 <= x < |fences| ==>
         Moved(fences'[x], fences[x], Shift(fences, snippets, x), Growth(fences[x], snippets))
  }

  lemma {:induction false} EachMoved(fences': seq<Fence>, fences: seq<Fence>, snippets: Snippets)
    requires AllMoved(fences', fences, snippets, 0)
    ensures FencesMove(fences', fences, snippets)
  {
    hide Moved, Growth, Shift;
    forall x | 0 <= x < |fences|
      ensures Moved(fences'[x], fences[x], Shift(fences, snippets, x), Growth(fences[x], snippets))
    {
      MovedAt(fences', fences, snippets, 0, x);
    }
  }

  /** A text that agrees with the synced one from line `o` on, where the old text is at line `i`. */
  ghost predicate SyncedFrom(out: seq<string>, o: nat, lines: seq<string>, p: Patterns, i: nat, snippets: Snippets) {
    i <= |lines| && o <= |out| && out[o..] == Sync(lines[i..], p, snippets)
  }

  lemma {:induction false} ShiftFrom(out: seq<string>, o: nat, lines: seq<string>, p: Patterns, i: nat,
                                     snippets: Snippets)
    requires Exclusive(p) && NoNesting(lines, p) && AllClosed(lines, p, |lines|) && AllClosed(out, p, |out|)
    requires SnippetsOpenerFree(lines, p, snippets) && SnippetsCloserFree(lines, p, snippets)
    requires SyncedFrom(out, o, lines, p, i, snippets)
    ensures AllMoved(FencesFrom(out, p, o), FencesFrom(lines, p, i), snippets, Offset(out, o) - Offset(lines, i))
    decreases |lines| - i
  {
    hide Sync, Exclusive, NoNesting, AllClosed, SnippetsOpenerFree, SnippetsCloserFree, Offset;
    if i == |lines| {
      SyncOfNothing(out, o, lines, p, i, snippets);
    } else if p.open(lines[i]).None? {
      PlainStep(out, o, lines, p, i, snippets);
      ShiftFrom(out, o + 1, lines, p, i + 1, snippets);
    } else {
      var close, close' := FenceStep(out, o, lines, p, i, snippets);
      ShiftFrom(out, close', lines, p, close, snippets);
      FenceMoved(out, o, lines, p, i, snippets, close, close');
    }
  }

  lemma {:induction false} SyncOfNothing(out: seq<string>, o: nat, lines: seq<string>, p: Patterns, i: nat,
                                         snippets: Snippets)
    requires SyncedFrom(out, o, lines, p, i, snippets) && i == |lines|
    ensures o == |out|
  {
    assert lines[i..] == [] && |out[o..]| == |out| - o;
  }

  lemma {:induction false} PlainStep(out: seq<string>, o: nat, lines: seq<string>, p: Patterns, i: nat,
                                     snippets: Snippets)
    requires SyncedFrom(out, o, lines, p, i, snippets) && i < |lines| && p.open(lines[i]).None?
    ensures o < |out| && out[o] == lines[i] && SyncedFrom(out, o + 1, lines, p, i + 1, snippets)
    ensures Offset(out, o + 1) - Offset(lines, i + 1) == Offset(out, o) - Offset(lines, i)
  {
    assert lines[i..][1..] == lines[i + 1..];
    assert out[o..] == [lines[i]] + Sync(lines[i + 1..], p, snippets);
    assert out[o] == out[o..][0] && out[o + 1..] == out[o..][1..];
  }

  /** An opener: the fence closes behind its snippet, where the old one closes behind its body. */
  lemma {:induction false} FenceStep(out: seq<string>, o: nat, lines: seq<string>, p: Patterns, i: nat,
                                     snippets: Snippets)
    returns (close: nat, close': nat)
    requires Exclusive(p) && NoNesting(lines, p) && AllClosed(lines, p, |lines|) && AllClosed(out, p, |out|)
    requires SnippetsOpenerFree(lines, p, snippets) && SnippetsCloserFree(lines, p, snippets)
    requires SyncedFrom(out, o, lines, p, i, snippets) && i < |lines| && p.open(lines[i]).Some?
    ensures i < close < |lines| && o < close' < |out| && out[o] == lines[i]
    ensures close == FirstCloser(lines, p, i + 1) && close' == FirstCloser(out, p, o + 1)
    ensures SyncedFrom(out, close', lines, p, close, snippets)
    ensures FencesFrom(lines, p, i + 1) == FencesFrom(lines, p, close)
    ensures FencesFrom(out, p, o + 1) == FencesFrom(out, p, close')
    ensures Offset(out, close') == Offset(out, o + 1) + |Flat(snippets(p.open(lines[i]).value), NL)|
  {
    hide Sync, Flat, Offset, FencesFrom, FenceAt;
    var body := snippets(p.open(lines[i]).value);
    close := FirstCloser(lines, p, i + 1);
    close' := o + 1 + |body|;
    SyncAtOpener(lines, p, i, snippets);
    PartsOf(out, o, lines[i], body, Sync(lines[close..], p, snippets));
    SkipLines(lines, p, i + 1, close);
    ClosesBehind(out, p, o, body, lines, close, snippets);
    SkipLines(out, p, o + 1, close');
    OffsetBehind(out, o + 1, body);
  }

  lemma {:induction false} PartsOf(out: seq<string>, o: nat, first: string, body: seq<string>, rest: seq<string>)
    requires o <= |out| && out[o..] == [first] + body + rest
    ensures o + 1 + |body| <= |out| && out[o] == first
    ensures out[o + 1..o + 1 + |body|] == body && out[o + 1 + |body|..] == rest
  {
    var tail := out[o..];
    assert |tail| == |out| - o && tail[0] == first;
    assert out[o + 1..o + 1 + |body|] == tail[1..1 + |body|] == body;
    assert out[o + 1 + |body|..] == tail[1 + |body|..] == rest;
  }

  lemma {:induction false} ClosesBehind(out: seq<string>, p: Patterns, o: nat, body: seq<string>, lines: seq<string>,
                                        close: nat, snippets: Snippets)
    requires o + 1 + |body| <= |out| && out[o + 1..o + 1 + |body|] == body && OpenerFree(body, p) && CloserFree(body, p)
    requires close < |lines| && p.close(lines[close])
    requires out[o + 1 + |body|..] == Sync(lines[close..], p, snippets)
    ensures o + 1 + |body| < |out| && FirstCloser(out, p, o + 1) == o + 1 + |body|
    ensures forall k :: o + 1 <= k < o + 1 + |body| ==> p.open(out[k]).None?
  {
    var end := o + 1 + |body|;
    SyncStarts(lines, p, close, snippets);
    assert out[end] == out[end..][0];
    forall k | o + 1 <= k < end ensures p.open(out[k]).None? && !p.close(out[k]) {
      assert out[k] == out[o + 1..end][k - o - 1];
    }
    FirstCloserAtMost(out, p, o + 1, end);
  }

  lemma SyncStarts(lines: seq<string>, p: Patterns, i: nat, snippets: Snippets)
    requires i < |lines|
    ensures Sync(lines[i..], p, snippets) != [] && Sync(lines[i..], p, snippets)[0] == lines[i]
  {
  }

  lemma {:induction false} OffsetBehind(out: seq<string>, o: nat, body: seq<string>)
    requires o + |body| <= |out| && out[o..o + |body|] == body
    ensures Offset(out, o + |body|) == Offset(out, o) + |Flat(body, NL)|
  {
    var end := o + |body|;
    OffsetIsLength(out, o);
    OffsetIsLength(out, end);
    assert out[..end] == out[..o] + body;
    FlatAppend(out[..o], body, NL);
  }

  lemma {:induction false} FenceMoved(out: seq<string>, o: nat, lines: seq<string>, p: Patterns, i: nat,
                                      snippets: Snippets, close: nat, close': nat)
    requires AllClosed(lines, p, |lines|) && AllClosed(out, p, |out|)
    requires i < close < |lines| && o < close' < |out| && p.open(lines[i]).Some? && out[o] == lines[i]
    requires close == FirstCloser(lines, p, i + 1) && close' == FirstCloser(out, p, o + 1)
    requires FencesFrom(lines, p, i + 1) == FencesFrom(lines, p, close)
    requires FencesFrom(out, p, o + 1) == FencesFrom(out, p, close')
    requires Offset(out, close') == Offset(out, o + 1) + |Flat(snippets(p.open(lines[i]).value), NL)|
    requires AllMoved(FencesFrom(out, p, close'), FencesFrom(lines, p, close), snippets,
                      Offset(out, close') - Offset(lines, close))
    ensures AllMoved(FencesFrom(out, p, o), FencesFrom(lines, p, i), snippets, Offset(out, o) - Offset(lines, i))
  {
    hide Flat, FirstCloser;
    var fence, fence' := FenceAt(lines, p, i), FenceAt(out, p, o);
    var shift := Offset(out, o) - Offset(lines, i);
    assert Moved(fence', fence, shift, Growth(fence, snippets));
    assert ([fence] + FencesFrom(lines, p, close))[1..] == FencesFrom(lines, p, close);
    assert ([fence'] + FencesFrom(out, p, close'))[1..] == FencesFrom(out, p, close');
  }

  /**
   Scanning a synced text finds the same fences in the same order, each moved by what the earlier
   bodies grew, its own body grown to its snippet, when no snippet line opens or closes a fence.
   */
  lemma {:induction false} SyncedFencesMove(lines: seq<string>, p: Patterns, snippets: Snippets)
    requires Exclusive(p) && AllClosed(lines, p, |lines|) && NoNesting(lines, p)
    requires SnippetsOpenerFree(lines, p, snippets) && SnippetsCloserFree(lines, p, snippets)
    ensures AllClosed(Sync(lines, p, snippets), p, |Sync(lines, p, snippets)|)
    ensures FencesMove(FencesUpTo(Sync(lines, p, snippets), p, |Sync(lines, p, snippets)|),
                       FencesUpTo(lines, p, |lines|), snippets)
  {
    hide Exclusive, NoNesting, SnippetsOpenerFree, SnippetsCloserFree, Sync, FencesFrom, FencesUpTo, AllMoved,
      FencesMove;
    var out := Sync(lines, p, snippets);
    SyncedOpeners(lines, p, snippets);
    assert lines[0..] == lines && out[0..] == out;
    ShiftFrom(out, 0, lines, p, 0, snippets);
    ScanIsFencesFrom(lines, p);
    ScanIsFencesFrom(out, p);
    EachMoved(FencesUpTo(out, p, |out|), FencesUpTo(lines, p, |lines|), snippets);
  }
}
