/**
 Stripping terminal escape sequences and stray controls from untrusted text.  The sequences are
 those of ECMA-48: control sequences (section 5.4), operating system commands (section 5.6) and
 the other sequences an escape character introduces.
 */
module TerminalText {
  import opened Wrappers
  import opened Text
  import opened Seqs

  const ESC: char := '\U{1B}'
  const CSI: char := '\U{9B}'
  const BEL: char := '\U{07}'

  predicate IsParameter(c: char) {
    0x30 <= c as int <= 0x3F
  }

  predicate IsIntermediate(c: char) {
    0x20 <= c as int <= 0x2F
  }

  predicate IsFinal(c: char) {
    0x40 <= c as int <= 0x7E
  }

  predicate InCommand(c: char) {
    c != BEL && c != ESC
  }

  /** The C0 controls but for tab, newline and carriage return, and DEL. */
  predicate IsStrayControl(c: char) {
    var n := c as int;
    n <= 0x08 || 0x0B <= n <= 0x0C || 0x0E <= n <= 0x1F || n == 0x7F
  }

  /** The end of a control sequence whose introducer ends at `i`; `i` itself when it is incomplete. */
  function ControlSequenceEnd(s: string, i: nat): (end: nat)
    requires i <= |s|
    ensures i <= end <= |s|
  {
    var final := Span(s, Span(s, i, IsParameter), IsIntermediate);
    if final < |s| && IsFinal(s[final]) then final + 1 else i
  }

  /** The end of an operating system command whose introducer ends at `i`, terminated or not. */
  function CommandEnd(s: string, i: nat): (end: nat)
    requires i <= |s|
    ensures i <= end <= |s|
  {
    var end := Span(s, i, InCommand);
    if end < |s| && s[end] == BEL then end + 1
    else if end + 1 < |s| && s[end] == ESC && s[end + 1] == '\\' then end + 2
    else end
  }

  /** The end of what is removed at `i`; `i` itself when the character stays. */
  function MatchEnd(s: string, i: nat): (end: nat)
    requires i < |s|
    ensures i <= end <= |s|
  {
    var next := if i + 1 < |s| then Some(s[i + 1]) else None;
    if s[i] == ESC && next == Some('[') && ControlSequenceEnd(s, i + 2) > i + 2 then ControlSequenceEnd(s, i + 2)
    else if s[i] == CSI && ControlSequenceEnd(s, i + 1) > i + 1 then ControlSequenceEnd(s, i + 1)
    else if s[i] == ESC && next == Some(']') then CommandEnd(s, i + 2)
    else if s[i] == ESC && next.Some? && IsSingle(next.value) then i + 2
    else if IsStrayControl(s[i]) then i + 1
    else i
  }

  /** The characters that make a two-character sequence with an escape. */
  predicate IsSingle(c: char) {
    '@' <= c <= 'Z' || c == '\\' || c == '^' || c == '_'
  }

  /** The text from `i` on without what is removed. */
  function StripFrom(s: string, i: nat): string
    requires i <= |s|
    decreases |s| - i
  {
    if i == |s| then ""
    else
      var end := MatchEnd(s, i);
      if end > i then StripFrom(s, end) else [s[i]] + StripFrom(s, i + 1)
  }

  function StripAnsi(text: string): string {
    StripFrom(text, 0)
  }

  // ----- what is kept and what is removed

  lemma {:induction false} MatchEndShift(s: string, from: nat, i: nat)
    requires from + i < |s|
    ensures MatchEnd(s, from + i) == from + MatchEnd(s[from..], i)
  {
    hide ControlSequenceEnd, CommandEnd, IsSingle, IsStrayControl;
    var t := s[from..];
    ControlSequenceShift(s, from, i + 1);
    assert s[from + i] == t[i];
    if i + 1 < |t| {
      assert s[from + i + 1] == t[i + 1];
      ControlSequenceShift(s, from, i + 2);
      CommandShift(s, from, i + 2);
    }
  }

  lemma {:induction false} CommandShift(s: string, from: nat, i: nat)
    requires from + i <= |s|
    ensures CommandEnd(s, from + i) == from + CommandEnd(s[from..], i)
  {
    hide InCommand;
    SpanShift(s, from, i, InCommand);
    var end := Span(s[from..], i, InCommand);
    assert end < |s[from..]| ==> s[from..][end] == s[from + end];
    assert end + 1 < |s[from..]| ==> s[from..][end + 1] == s[from + end + 1];
  }

  lemma {:induction false} ControlSequenceShift(s: string, from: nat, i: nat)
    requires from + i <= |s|
    ensures ControlSequenceEnd(s, from + i) == from + ControlSequenceEnd(s[from..], i)
  {
    SpanShift(s, from, i, IsParameter);
    SpanShift(s, from, Span(s[from..], i, IsParameter), IsIntermediate);
  }

  lemma {:induction false} StripSuffix(s: string, from: nat, i: nat)
    requires from + i <= |s|
    ensures StripFrom(s, from + i) == StripFrom(s[from..], i)
    decreases |s| - i
  {
    hide MatchEnd;
    if from + i < |s| {
      MatchEndShift(s, from, i);
      var end := MatchEnd(s[from..], i);
      StripSuffix(s, from, if end > i then end else i + 1);
    }
  }

  /** Text without controls is kept, whatever follows it. */
  lemma {:induction false} PlainTextKept(plain: string, rest: string)
    requires forall i :: 0 <= i < |plain| ==> !IsStrayControl(plain[i]) && plain[i] != CSI
    ensures StripAnsi(plain + rest) == plain + StripAnsi(rest)
  {
    hide MatchEnd;
    var s := plain + rest;
    if plain == "" {
      assert s == rest;
    } else {
      KeptIsClean(s, 0);
      StripSuffix(s, 1, 0);
      assert s[1..] == plain[1..] + rest;
      PlainTextKept(plain[1..], rest);
      assert [plain[0]] + (plain[1..] + StripAnsi(rest)) == plain + StripAnsi(rest);
    }
  }

  /** A complete control sequence is removed as a whole, in its two-character and its one-byte form. */
  lemma {:induction false} ControlSequenceRemoved(introducer: string, parameters: string, intermediates: string,
                                                  final: char, rest: string)
    requires introducer == [ESC, '['] || introducer == [CSI]
    requires forall i :: 0 <= i < |parameters| ==> '0' <= parameters[i] <= '?'
    requires forall i :: 0 <= i < |intermediates| ==> ' ' <= intermediates[i] <= '/'
    requires '@' <= final <= '~'
    ensures StripAnsi(introducer + parameters + intermediates + [final] + rest) == StripAnsi(rest)
  {
    hide *;
    var body := parameters + intermediates;
    var tail := body + [final] + rest;
    BodyRead(parameters, intermediates, final);
    ControlSequenceRead(body, final, rest);
    IntroducedRemoved(introducer, tail);
    assert introducer + tail == introducer + parameters + intermediates + [final] + rest;
    assert tail[|body| + 1..] == rest;
  }

  lemma {:induction false} BodyRead(parameters: string, intermediates: string, final: char)
    requires forall i :: 0 <= i < |parameters| ==> '0' <= parameters[i] <= '?'
    requires forall i :: 0 <= i < |intermediates| ==> ' ' <= intermediates[i] <= '/'
    requires '@' <= final <= '~'
    ensures var body := parameters + intermediates;
            Span(body, Span(body, 0, IsParameter), IsIntermediate) == |body| && IsFinal(final)
  {
    var body := parameters + intermediates;
    SpanIs(body, 0, IsParameter, |parameters|);
    SpanIs(body, |parameters|, IsIntermediate, |body|);
  }

  lemma {:induction false} IntroducedRemoved(introducer: string, tail: string)
    requires introducer == [ESC, '['] || introducer == [CSI]
    requires ControlSequenceEnd(tail, 0) > 0
    ensures StripAnsi(introducer + tail) == StripAnsi(tail[ControlSequenceEnd(tail, 0)..])
  {
    hide MatchEnd, ControlSequenceEnd;
    var s, n, e := introducer + tail, |introducer|, ControlSequenceEnd(tail, 0);
    IntroducedMatch(introducer, tail);
    CutTwice(s, n, n + e);
    CutConcat(introducer, tail, 0);
    StripSuffix(s, n + e, 0);
  }

  lemma {:induction false} IntroducedMatch(introducer: string, tail: string)
    requires introducer == [ESC, '['] || introducer == [CSI]
    requires ControlSequenceEnd(tail, 0) > 0
    ensures MatchEnd(introducer + tail, 0) == |introducer| + ControlSequenceEnd(tail, 0)
  {
    hide ControlSequenceEnd, CommandEnd, IsStrayControl;
    var s, n := introducer + tail, |introducer|;
    CutConcat(introducer, tail, 0);
    ControlSequenceShift(s, n, 0);
    assert s[0] == introducer[0];
    if n == 2 {
      assert s[1] == introducer[1];
    }
  }

  lemma {:induction false} ControlSequenceRead(body: string, final: char, rest: string)
    requires Span(body, Span(body, 0, IsParameter), IsIntermediate) == |body| && IsFinal(final)
    ensures ControlSequenceEnd(body + [final] + rest, 0) == |body| + 1
  {
    var s := body + [final] + rest;
    var params := Span(body, 0, IsParameter);
    assert s[..|body|] == body && s[|body|] == final;
    forall j | 0 <= j < params ensures IsParameter(s[j]) {
      SpanAll(body, 0, IsParameter, j);
    }
    forall j | params <= j < |body| ensures IsIntermediate(s[j]) {
      SpanAll(body, params, IsIntermediate, j);
    }
    SpanIs(s, 0, IsParameter, params);
    SpanIs(s, params, IsIntermediate, |body|);
  }

  // ----- what the result is

  ghost predicate NoStrayControl(s: string) {
    forall i :: 0 <= i < |s| ==>
      s[i] == '\t' || s[i] == '\n' || s[i] == '\r' || (s[i] as int >= 0x20 && s[i] as int != 0x7F)
  }

  /** A text that stripping leaves alone: no stray control, and no complete one-byte control sequence. */
  ghost predicate Clean(s: string) {
    && NoStrayControl(s)
    && forall i :: 0 <= i < |s| && s[i] == CSI ==> ControlSequenceEnd(s, i + 1) == i + 1
  }

  lemma {:induction false} KeptIsClean(s: string, i: nat)
    requires i < |s|
    ensures MatchEnd(s, i) == i <==> !IsStrayControl(s[i]) && (s[i] == CSI ==> ControlSequenceEnd(s, i + 1) == i + 1)
  {
    hide ControlSequenceEnd, CommandEnd;
  }

  /** Whatever the server sent, the result is part of the input, in order, without stray controls. */
  lemma {:induction false} StripIsSafe(s: string, i: nat)
    requires i <= |s|
    ensures NoStrayControl(StripFrom(s, i)) && Subsequence(StripFrom(s, i), s[i..])
    decreases |s| - i
  {
    hide MatchEnd;
    if i == |s| {
    } else {
      var end := MatchEnd(s, i);
      KeptIsClean(s, i);
      if end > i {
        StripIsSafe(s, end);
        SubsequenceLater(StripFrom(s, end), s, i, end);
      } else {
        StripIsSafe(s, i + 1);
        var rest := StripFrom(s, i + 1);
        assert ([s[i]] + rest)[1..] == rest && s[i..][1..] == s[i + 1..];
      }
    }
  }

  lemma {:induction false} SubsequenceLater(a: string, s: string, i: nat, j: nat)
    requires i <= j <= |s| && Subsequence(a, s[j..])
    ensures Subsequence(a, s[i..])
    decreases j - i
  {
    if i < j {
      assert s[i..][1..] == s[i + 1..];
      SubsequenceLater(a, s, i + 1, j);
    }
  }

  lemma {:induction false} StripKeepsClean(s: string, i: nat)
    requires i <= |s|
    requires forall k :: i <= k < |s| ==> MatchEnd(s, k) == k
    ensures StripFrom(s, i) == s[i..]
    decreases |s| - i
  {
    hide MatchEnd;
    if i == |s| {
    } else {
      StripKeepsClean(s, i + 1);
    }
  }

  lemma {:induction false} StripShrinks(s: string, i: nat)
    requires i <= |s|
    ensures |StripFrom(s, i)| <= |s| - i
    ensures |StripFrom(s, i)| == |s| - i ==> forall k :: i <= k < |s| ==> MatchEnd(s, k) == k
    decreases |s| - i
  {
    hide MatchEnd;
    if i == |s| {
    } else {
      var end := MatchEnd(s, i);
      StripShrinks(s, if end > i then end else i + 1);
    }
  }

  /** Stripping leaves a text unchanged exactly when it is clean. */
  lemma {:induction false} UnchangedIffClean(s: string)
    ensures StripAnsi(s) == s <==> Clean(s)
  {
    hide MatchEnd, ControlSequenceEnd;
    forall k | 0 <= k < |s|
      ensures MatchEnd(s, k) == k <==> !IsStrayControl(s[k]) && (s[k] == CSI ==> ControlSequenceEnd(s, k + 1) == k + 1)
    {
      KeptIsClean(s, k);
    }
    StripShrinks(s, 0);
    if Clean(s) {
      StripKeepsClean(s, 0);
    }
  }

  // ----- stripping twice

  /**
   What the scan keeps from position `i` on starts with the rest of a control sequence: parameters
   unless `intermediates` were read, then intermediates, then a final character.
   */
  predicate Completes(s: string, i: nat, intermediates: bool)
    requires i <= |s|
    decreases |s| - i
  {
    if i == |s| then false
    else
      var end := MatchEnd(s, i);
      if end > i then Completes(s, end, intermediates)
      else if IsIntermediate(s[i]) then Completes(s, i + 1, true)
      else if IsParameter(s[i]) then !intermediates && Completes(s, i + 1, false)
      else IsFinal(s[i])
  }

  /** From position `i` on the scan keeps a U+009B, and behind it the rest of a control sequence. */
  predicate LeavesSequence(s: string, i: nat)
    requires i <= |s|
    decreases |s| - i
  {
    if i == |s| then false
    else
      var end := MatchEnd(s, i);
      if end > i then LeavesSequence(s, end)
      else (s[i] == CSI && Completes(s, i + 1, false)) || LeavesSequence(s, i + 1)
  }

  /** A text starts with the rest of a control sequence. */
  predicate Ends(t: string, intermediates: bool) {
    var from := if intermediates then 0 else Span(t, 0, IsParameter);
    var final := Span(t, from, IsIntermediate);
    final < |t| && IsFinal(t[final])
  }

  lemma {:induction false} EndsCons(c: char, rest: string, intermediates: bool)
    ensures Ends([c] + rest, intermediates)
       <==> if IsIntermediate(c) then Ends(rest, true)
            else if IsParameter(c) then !intermediates && Ends(rest, false)
            else IsFinal(c)
  {
    hide Span;
    var t, p := [c] + rest, Span(rest, 0, IsParameter);
    SpanCons(c, rest, IsParameter);
    SpanCons(c, rest, IsIntermediate);
    SpanBehind(c, rest, p, IsIntermediate);
    var final, final' := Span(rest, 0, IsIntermediate), Span(rest, p, IsIntermediate);
    assert final < |rest| ==> t[1 + final] == rest[final];
    assert final' < |rest| ==> t[1 + final'] == rest[final'];
  }

  lemma {:induction false} SpanCons(c: char, rest: string, p: char -> bool)
    ensures Span([c] + rest, 0, p) == if p(c) then 1 + Span(rest, 0, p) else 0
  {
    SpanBehind(c, rest, 0, p);
  }

  lemma {:induction false} SpanBehind(c: char, rest: string, i: nat, p: char -> bool)
    requires i <= |rest|
    ensures Span([c] + rest, 1 + i, p) == 1 + Span(rest, i, p)
  {
    assert ([c] + rest)[1..] == rest;
    SpanShift([c] + rest, 1, i, p);
  }

  lemma {:induction false} CompletesIff(s: string, i: nat, intermediates: bool)
    requires i <= |s|
    ensures Completes(s, i, intermediates) <==> Ends(StripFrom(s, i), intermediates)
    decreases |s| - i
  {
    hide MatchEnd, Ends, IsIntermediate, IsParameter, IsFinal;
    if i == |s| {
      NothingEnds(intermediates);
    } else {
      var end := MatchEnd(s, i);
      if end > i {
        CompletesIff(s, end, intermediates);
      } else {
        CompletesIff(s, i + 1, true);
        CompletesIff(s, i + 1, false);
        EndsCons(s[i], StripFrom(s, i + 1), intermediates);
      }
    }
  }

  lemma NothingEnds(intermediates: bool)
    ensures !Ends("", intermediates)
  {
  }

  /** A one-byte control sequence stands somewhere in a text. */
  ghost predicate HoldsSequence(t: string) {
    exists i :: SequenceAt(t, i)
  }

  predicate SequenceAt(t: string, i: int) {
    0 <= i < |t| && t[i] == CSI && Ends(t[i + 1..], false)
  }

  lemma {:induction false} HoldsSequenceCons(c: char, rest: string)
    ensures HoldsSequence([c] + rest) <==> (c == CSI && Ends(rest, false)) || HoldsSequence(rest)
  {
    hide Ends;
    var t := [c] + rest;
    assert t[1..] == rest;
    forall i | 0 <= i < |rest| ensures SequenceAt(t, i + 1) <==> SequenceAt(rest, i) {
      assert t[i + 2..] == rest[i + 1..];
    }
    if i :| SequenceAt(rest, i) {
      assert SequenceAt(t, i + 1);
    }
    if i :| SequenceAt(t, i) {
      assert i == 0 || SequenceAt(rest, i - 1);
    }
    assert SequenceAt(t, 0) <==> c == CSI && Ends(rest, false);
  }

  lemma {:induction false} LeavesSequenceIff(s: string, i: nat)
    requires i <= |s|
    ensures LeavesSequence(s, i) <==> HoldsSequence(StripFrom(s, i))
    decreases |s| - i
  {
    hide MatchEnd, Ends, Completes, HoldsSequence;
    if i == |s| {
      NothingHeld();
    } else {
      var end := MatchEnd(s, i);
      if end > i {
        LeavesSequenceIff(s, end);
      } else {
        LeavesSequenceIff(s, i + 1);
        CompletesIff(s, i + 1, false);
        HoldsSequenceCons(s[i], StripFrom(s, i + 1));
      }
    }
  }

  lemma NothingHeld()
    ensures !HoldsSequence("")
  {
  }

  lemma {:induction false} CleanIffNoSequence(t: string)
    ensures Clean(t) <==> NoStrayControl(t) && !HoldsSequence(t)
  {
    hide Ends, ControlSequenceEnd, NoStrayControl;
    forall i | 0 <= i < |t| && t[i] == CSI ensures ControlSequenceEnd(t, i + 1) == i + 1 <==> !SequenceAt(t, i) {
      SequenceEnds(t, i + 1);
    }
  }

  lemma {:induction false} SequenceEnds(t: string, i: nat)
    requires i <= |t|
    ensures ControlSequenceEnd(t, i) == i <==> !Ends(t[i..], false)
  {
    ControlSequenceShift(t, i, 0);
  }

  /**
   Stripping twice is stripping once exactly when the scan keeps no U+009B behind which the kept
   characters go on as a control sequence.
   */
  lemma {:induction false} IdempotentIff(s: string)
    ensures StripAnsi(StripAnsi(s)) == StripAnsi(s) <==> !LeavesSequence(s, 0)
  {
    hide LeavesSequence, HoldsSequence, Clean, NoStrayControl, StripFrom;
    StripIsSafe(s, 0);
    UnchangedIffClean(StripAnsi(s));
    CleanIffNoSequence(StripAnsi(s));
    LeavesSequenceIff(s, 0);
  }

  lemma {:induction false} NothingLeft(s: string, i: nat)
    requires i <= |s| && CSI !in s
    ensures !LeavesSequence(s, i)
    decreases |s| - i
  {
    hide MatchEnd, Completes;
    if i == |s| {
    } else {
      var end := MatchEnd(s, i);
      NothingLeft(s, if end > i then end else i + 1);
    }
  }

  /** On text without U+009B stripping is idempotent. */
  lemma {:induction false} IdempotentWithoutCsi(s: string)
    requires CSI !in s
    ensures StripAnsi(StripAnsi(s)) == StripAnsi(s)
  {
    NothingLeft(s, 0);
    IdempotentIff(s);
  }

  /** With U+009B it need not be: removing a control inside a broken sequence completes it. */
  lemma {:induction false} NotIdempotentWithCsi()
    ensures var s := [CSI, '\U{00}', 'm'];
            StripAnsi(s) == [CSI, 'm'] && StripAnsi(StripAnsi(s)) == ""
  {
    var s, t := [CSI, '\U{00}', 'm'], [CSI, 'm'];
    assert ControlSequenceEnd(s, 1) == 1 && MatchEnd(s, 0) == 0;
    assert MatchEnd(s, 1) == 2 && MatchEnd(s, 2) == 2;
    assert StripFrom(s, 3) == "" && StripFrom(s, 2) == "m" && StripFrom(s, 1) == "m";
    assert [CSI] + "m" == t;
    assert ControlSequenceEnd(t, 1) == 2 && MatchEnd(t, 0) == 2;
    assert StripFrom(t, 2) == "";
  }

  // ----- the other sequences

  /** An operating system command with its terminator, a bell or a string terminator, is removed as a whole. */
  lemma {:induction false} CommandRemoved(body: string, terminator: string, rest: string)
    requires forall i :: 0 <= i < |body| ==> body[i] != BEL && body[i] != ESC
    requires terminator == [BEL] || terminator == [ESC, '\\']
    ensures StripAnsi([ESC, ']'] + (body + (terminator + rest))) == StripAnsi(rest)
  {
    hide MatchEnd, CommandEnd;
    var tail := body + (terminator + rest);
    CommandRead(body, terminator, rest);
    CommandMatch(tail);
    CutConcat([ESC, ']'], tail, 0);
    CutConcat(body, terminator + rest, 0);
    CutConcat(terminator, rest, 0);
    var s, n := [ESC, ']'] + tail, 2 + |body| + |terminator|;
    assert s[n..] == rest;
    StripSuffix(s, n, 0);
  }

  /** One that is not terminated is removed up to the next escape character or the end. */
  lemma {:induction false} OpenCommandRemoved(body: string, rest: string)
    requires forall i :: 0 <= i < |body| ==> body[i] != BEL && body[i] != ESC
    requires rest == "" || (rest[0] == ESC && !(|rest| > 1 && rest[1] == '\\'))
    ensures StripAnsi([ESC, ']'] + (body + rest)) == StripAnsi(rest)
  {
    hide MatchEnd, CommandEnd;
    var tail := body + rest;
    OpenCommandRead(body, rest);
    CommandMatch(tail);
    CutConcat([ESC, ']'], tail, 0);
    CutConcat(body, rest, 0);
    var s, n := [ESC, ']'] + tail, 2 + |body|;
    assert s[n..] == rest;
    StripSuffix(s, n, 0);
  }

  lemma {:induction false} CommandRead(body: string, terminator: string, rest: string)
    requires forall i :: 0 <= i < |body| ==> body[i] != BEL && body[i] != ESC
    requires terminator == [BEL] || terminator == [ESC, '\\']
    ensures CommandEnd(body + (terminator + rest), 0) == |body| + |terminator|
  {
    var s := body + (terminator + rest);
    assert s[|body|] == terminator[0];
    assert |terminator| == 2 ==> s[|body| + 1] == terminator[1];
    SpanIs(s, 0, InCommand, |body|);
  }

  lemma {:induction false} OpenCommandRead(body: string, rest: string)
    requires forall i :: 0 <= i < |body| ==> body[i] != BEL && body[i] != ESC
    requires rest == "" || (rest[0] == ESC && !(|rest| > 1 && rest[1] == '\\'))
    ensures CommandEnd(body + rest, 0) == |body|
  {
    var s := body + rest;
    assert rest != "" ==> s[|body|] == rest[0];
    assert |rest| > 1 ==> s[|body| + 1] == rest[1];
    SpanIs(s, 0, InCommand, |body|);
  }

  lemma {:induction false} CommandMatch(tail: string)
    ensures MatchEnd([ESC, ']'] + tail, 0) == 2 + CommandEnd(tail, 0)
  {
    hide CommandEnd, ControlSequenceEnd;
    var s := [ESC, ']'] + tail;
    CutConcat([ESC, ']'], tail, 0);
    CommandShift(s, 2, 0);
  }

  /**
   An escape character goes with the character that makes a sequence with it, else alone; a stray
   control goes alone.
  */
  lemma {:induction false} ControlRemoved(c: char, rest: string)
    requires IsStrayControl(c)
    requires c == ESC && rest != "" && rest[0] == '[' ==> ControlSequenceEnd(rest, 1) == 1
    requires c == ESC && rest != "" ==> rest[0] != ']'
    ensures StripAnsi([c] + rest)
         == if c == ESC && rest != "" && ('@' <= rest[0] <= 'Z' || rest[0] in "\\^_") then StripAnsi(rest[1..])
            else StripAnsi(rest)
  {
    hide ControlSequenceEnd, CommandEnd;
    var s := [c] + rest;
    assert s[1..] == rest;
    assert s[0] == c;
    if rest != "" {
      assert s[1] == rest[0];
      ControlSequenceShift(s, 1, 1);
      StripSuffix(s, 2, 0);
      assert s[2..] == rest[1..];
    }
    StripSuffix(s, 1, 0);
  }
}
