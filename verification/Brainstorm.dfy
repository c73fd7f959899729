/** The brainstorm_tasks handler: a chain of questions that ends by adding tasks to the board. */
module Brainstorm {
  import opened Wrappers
  import opened Text
  import opened Seqs
  import opened SealedRounds

  datatype BrainstormState =
    | AwaitingCount
    | AwaitingCustomCount(topic: string)
    | AwaitingIdeas(topic: string, count: nat)

  /** The accepted content of the count form: both fields are optional strings. */
  datatype CountForm = CountForm(count: Option<string>, theme: Option<string>)

  /**
   One call: the theme argument, the presented state, and what came back for each question.
   `count` and `customCount` are the accepted contents, the custom count as `String` shows it;
   `action` is the raw action of the answer, `ideas` the sampled text.
   */
  datatype Request = Request(
    theme: Option<string>,
    state: Option<BrainstormState>,
    count: Option<CountForm>,
    customCount: Option<string>,
    action: Action,
    ideas: string)

  datatype Outcome =
    | Ask(state: BrainstormState)
    | NothingAdded(action: Action)
    | NoIdeas
    | Added(titles: seq<string>, topic: string)

  // ----- counts

  predicate IsDigit(c: char) {
    '0' <= c <= '9'
  }

  lemma {:induction false} SpanDigits(s: string, i: nat)
    requires i <= |s|
    ensures forall k :: 0 <= k < Span(s, i, IsDigit) - i ==> '0' <= s[i..Span(s, i, IsDigit)][k] <= '9'
    decreases |s| - i
  {
    forall k | 0 <= k < Span(s, i, IsDigit) - i ensures IsDigit(s[i..Span(s, i, IsDigit)][k]) {
      SpanAll(s, i, IsDigit, i + k);
    }
  }

  /** `Number.parseInt(s, 10)`: white space, a sign, then as many digits as there are. */
  function ParseInt(s: string): Option<int> {
    var start := Span(s, 0, IsSpace);
    var signed := start < |s| && (s[start] == '-' || s[start] == '+');
    var first := if signed then start + 1 else start;
    var end := Span(s, first, IsDigit);
    if end == first then None
    else
      SpanDigits(s, first);
      var value: int := DecimalValue(s[first..end]);
      Some(if signed && s[start] == '-' then -value else value)
  }

  /** The usable counts: what `parseInt` reads, when it lies between 1 and 100. */
  function ParseBrainstormCount(raw: string): (r: Option<nat>)
    ensures r.Some? ==> 1 <= r.value <= 100
  {
    var count := ParseInt(raw);
    if count.None? || count.value < 1 || count.value > 100 then None else Some(count.value)
  }

  /** A number written in decimal is read back, and accepted exactly from 1 to 100. */
  lemma {:induction false} CountRoundTrip(n: nat)
    ensures ParseBrainstormCount(Decimal(n)) == if 1 <= n <= 100 then Some(n) else None
  {
    var s := Decimal(n);
    SpanIs(s, 0, IsSpace, 0);
    SpanIs(s, 0, IsDigit, |s|);
    assert s[0..|s|] == s;
    DecimalRoundTrip(n);
  }

  // ----- titles

  predicate IsBullet(c: char) {
    c == '-' || c == '*' || c == '.' || IsDigit(c) || IsSpace(c)
  }

  function CleanTitle(line: string): string {
    Trim(line[Span(line, 0, IsBullet)..])
  }

  /** The cleaned lines that are not empty. */
  function CleanTitles(lines: seq<string>): seq<string> {
    if lines == [] then []
    else (if CleanTitle(lines[0]) == "" then [] else [CleanTitle(lines[0])]) + CleanTitles(lines[1..])
  }

  /** The titles the model's text gives, at most `wanted`. */
  function Titles(ideas: string, wanted: nat): seq<string> {
    var titles := CleanTitles(Split(ideas, NL));
    if wanted < |titles| then titles[..wanted] else titles
  }

  lemma {:induction false} TitlesAreNotEmpty(lines: seq<string>)
    ensures "" !in CleanTitles(lines)
  {
    if lines == [] {
    } else {
      TitlesAreNotEmpty(lines[1..]);
    }
  }

  // ----- the handler

  const DEFAULT_TOPIC: string := "an engineer's week in hell"

  function ResolveTopic(theme: Option<string>, raw: Option<string>): string {
    if raw.Some? && Trim(raw.value) != "" then Trim(raw.value)
    else if theme.Some? then theme.value
    else DEFAULT_TOPIC
  }

  function AskForIdeas(count: nat, topic: string): Outcome {
    Ask(AwaitingIdeas(topic, count))
  }

  function Handle(q: Request): Outcome {
    if q.state.None? then Ask(AwaitingCount)
    else
      match q.state.value
      case AwaitingCount =>
        if q.count.None? then NothingAdded(q.action)
        else
          var topic := ResolveTopic(q.theme, q.count.value.theme);
          if q.count.value.count == Some("custom") then Ask(AwaitingCustomCount(topic))
          else
            var raw := if q.count.value.count.Some? then q.count.value.count.value else "undefined";
            var wanted := ParseBrainstormCount(raw);
            if wanted.None? then NothingAdded(Cancel) else AskForIdeas(wanted.value, topic)
      case AwaitingCustomCount(topic) =>
        var wanted := ParseBrainstormCount(if q.customCount.Some? then q.customCount.value else "undefined");
        if wanted.None? then NothingAdded(q.action) else AskForIdeas(wanted.value, topic)
      case AwaitingIdeas(topic, count) =>
        var titles := Titles(q.ideas, count);
        if titles == [] then NoIdeas else Added(titles, topic)
  }

  function BrainstormHandler(): Handler<Request, Outcome, BrainstormState> {
    Handler(Handle, (q: Request) => q.state, (o: Outcome) => if o.Ask? then Some(o.state) else None)
  }

  /** The request accepted the count, as a preset or as a custom amount. */
  predicate AcceptedCount(q: Request, count: nat) {
    || (q.count.Some? && q.count.value.count.Some? && ParseBrainstormCount(q.count.value.count.value) == Some(count))
    || (q.customCount.Some? && ParseBrainstormCount(q.customCount.value) == Some(count))
  }

  lemma {:induction false} UndefinedIsNoCount()
    ensures ParseBrainstormCount("undefined") == None
  {
    assert Span("undefined", 0, IsSpace) == 0 && Span("undefined", 0, IsDigit) == 0;
  }

  /** The round accepted the count and handed out the state that carries it. */
  predicate CarriesCount(q: Request, count: nat) {
    && AcceptedCount(q, count)
    && Handle(q).Ask? && Handle(q).state.AwaitingIdeas? && Handle(q).state.count == count
  }

  /** A round that asks for ideas carries a count it accepted. */
  lemma {:induction false} IdeasCarryCount(q: Request)
    ensures Handle(q).Ask? && Handle(q).state.AwaitingIdeas? ==>
              CarriesCount(q, Handle(q).state.count) && 1 <= Handle(q).state.count <= 100
  {
    hide ParseBrainstormCount, ResolveTopic, Titles;
    UndefinedIsNoCount();
  }

  lemma {:induction false} AddedAreFew(q: Request)
    requires Handle(q).Added?
    ensures q.state.Some? && q.state.value.AwaitingIdeas?
    ensures 1 <= |Handle(q).titles| <= q.state.value.count && "" !in Handle(q).titles
  {
    hide ParseBrainstormCount, ResolveTopic, CleanTitles, Split;
    TitlesAreNotEmpty(Split(q.ideas, NL));
  }

  /**
   Over every run, tasks are added for a count that an earlier round accepted and handed out, that
   count is from 1 to 100, and no more tasks are added than it says, none with an empty title.
   */
  lemma {:induction false} AddsAtMostAccepted(run: seq<Request>, i: nat)
    requires Sealed(BrainstormHandler(), run) && i < |run| && Handle(run[i]).Added?
    ensures exists j: nat, count: nat ::
              && j < i && CarriesCount(run[j], count) && 1 <= count <= 100
              && 1 <= |Handle(run[i]).titles| <= count && "" !in Handle(run[i]).titles
  {
    hide Handle, CarriesCount;
    AddedAreFew(run[i]);
    assert BrainstormHandler().presented(run[i]).Some?;
    var j: nat :| j < i && BrainstormHandler().minted(BrainstormHandler().handle(run[j])) == run[i].state;
    IdeasCarryCount(run[j]);
    assert CarriesCount(run[j], run[i].state.value.count);
  }

  // ----- one conversation

  /** How many more questions can follow. */
  function Rank(state: Option<BrainstormState>): nat {
    match state
    case None => 3
    case Some(AwaitingCount) => 2
    case Some(AwaitingCustomCount(_)) => 1
    case Some(AwaitingIdeas(_, _)) => 0
  }

  lemma {:induction false} AskingLowersRank(q: Request)
    ensures Handle(q).Ask? ==> Rank(Some(Handle(q).state)) < Rank(q.state)
  {
    hide ParseBrainstormCount, Trim;
  }

  /** A conversation with a client that hands every state back: `answers` gives the rest of each call. */
  function Conversation(state: Option<BrainstormState>, answers: nat -> Request, call: nat): seq<Outcome>
    decreases Rank(state)
  {
    var q := answers(call).(state := state);
    AskingLowersRank(q);
    if Handle(q).Ask? then [Handle(q)] + Conversation(Some(Handle(q).state), answers, call + 1) else [Handle(q)]
  }

  /** A conversation ends within four calls, and only its last call can touch the board. */
  lemma {:induction false} ConversationEnds(state: Option<BrainstormState>, answers: nat -> Request, call: nat)
    ensures var outcomes := Conversation(state, answers, call);
            && 1 <= |outcomes| <= Rank(state) + 1
            && !outcomes[|outcomes| - 1].Ask?
            && forall i :: 0 <= i < |outcomes| - 1 ==> outcomes[i].Ask?
    decreases Rank(state)
  {
    hide Handle;
    var q := answers(call).(state := state);
    AskingLowersRank(q);
    if Handle(q).Ask? {
      ConversationEnds(Some(Handle(q).state), answers, call + 1);
    }
  }

  // ----- what the texts are read as

  /** White space, a sign or none, digits, and something else: the number of the digits, signed. */
  lemma {:induction false} ParseIntIs(space: string, sign: string, digits: string, rest: string)
    requires AllSpace(space) && (sign == "" || sign == "-" || sign == "+")
    requires digits != "" && forall i :: 0 <= i < |digits| ==> '0' <= digits[i] <= '9' && IsDigit(digits[i])
    requires rest != "" ==> !IsDigit(rest[0])
    ensures ParseInt(space + (sign + (digits + rest)))
         == Some(if sign == "-" then -(DecimalValue(digits) as int) else DecimalValue(digits))
  {
    hide *;
    var s, first := space + (sign + (digits + rest)), |space| + |sign|;
    BehindTwo(space, sign, digits + rest);
    SignAt(space, sign, digits, rest);
    DigitsAt(s, first, digits, rest);
    ParseIntReads(s, |space|, sign, digits);
  }

  lemma {:induction false} BehindTwo(a: string, b: string, c: string)
    ensures var s := a + (b + c); |a| + |b| <= |s| && s[|a| + |b|..] == c
  {
    Assoc(a, b, c);
    CutConcat(a + b, c, 0);
  }

  lemma {:induction false} ParseIntReads(s: string, start: nat, sign: string, digits: string)
    requires (sign == "" || sign == "-" || sign == "+") && digits != "" && forall i :: 0 <= i < |digits| ==>
        '0' <= digits[i] <= '9'
    requires Span(s, 0, IsSpace) == start < |s| && start + |sign| + |digits| <= |s|
    requires if sign == "" then s[start] != '-' && s[start] != '+' else s[start] == sign[0]
    requires var first := start + |sign|;
             Span(s, first, IsDigit) == first + |digits| && s[first..first + |digits|] == digits
    ensures ParseInt(s) == Some(if sign == "-" then -(DecimalValue(digits) as int) else DecimalValue(digits))
  {
    hide DecimalValue, IsDigit, IsSpace, Span;
  }

  /** Behind the white space stands the sign or the first digit. */
  lemma {:induction false} SignAt(space: string, sign: string, digits: string, rest: string)
    requires AllSpace(space) && (sign == "" || sign == "-" || sign == "+") && digits != "" && IsDigit(digits[0])
    ensures var s := space + (sign + (digits + rest));
            && Span(s, 0, IsSpace) == |space| < |s|
            && (sign == "" ==> s[|space|] != '-' && s[|space|] != '+')
            && (sign != "" ==> s[|space|] == sign[0])
  {
    var tail := sign + (digits + rest);
    var s := space + tail;
    CutConcat(space, tail, 0);
    assert s[|space|] == tail[0];
    assert tail[0] == if sign == "" then digits[0] else sign[0];
    SpanIs(s, 0, IsSpace, |space|);
  }

  lemma {:induction false} DigitsAt(s: string, first: nat, digits: string, rest: string)
    requires first <= |s| && s[first..] == digits + rest
    requires forall i :: 0 <= i < |digits| ==> IsDigit(digits[i])
    requires rest != "" ==> !IsDigit(rest[0])
    ensures Span(s, first, IsDigit) == first + |digits| <= |s|
    ensures s[first..first + |digits|] == digits
  {
    hide IsDigit;
    var end := first + |digits|;
    assert |s| - first == |digits| + |rest|;
    forall k | first <= k < end ensures IsDigit(s[k]) {
      assert s[k] == s[first..][k - first];
    }
    assert rest != "" ==> s[end] == s[first..][|digits|];
    SpanIs(s, first, IsDigit, end);
    CutTwice(s, first, end);
    CutConcat(digits, rest, 0);
    assert s[first..end] == s[first..][..|digits|];
  }

  /** Without a digit there is no number. */
  lemma {:induction false} ParseIntNeedsDigit(s: string)
    requires forall i :: 0 <= i < |s| ==> !('0' <= s[i] <= '9')
    ensures ParseInt(s) == None
  {
  }

  const BULLETS: string := "-*.0123456789"

  /** A line is bullets, a title and white space; the title has neither a bullet in front nor white space behind. */
  ghost predicate TitleIn(line: string, bullets: string, title: string, space: string) {
    && (forall i :: 0 <= i < |bullets| ==> bullets[i] in BULLETS || IsSpace(bullets[i]))
    && (title != "" ==> title[0] !in BULLETS && !IsSpace(title[0]) && !IsSpace(title[|title| - 1]))
    && AllSpace(space) && line == bullets + (title + space)
  }

  /** Cleaning a line gives exactly its title. */
  lemma {:induction false} CleanTitleIff(line: string, title: string)
    ensures CleanTitle(line) == title <==> exists bullets, space :: TitleIn(line, bullets, title, space)
  {
    hide Trim;
    if CleanTitle(line) == title {
      var bullets, space := TitleParts(line);
    }
    if bullets, space :| TitleIn(line, bullets, title, space) {
      TitleRead(line, bullets, title, space);
    }
  }

  lemma {:induction false} TitleRead(line: string, bullets: string, title: string, space: string)
    requires TitleIn(line, bullets, title, space)
    ensures CleanTitle(line) == title
  {
    hide Trim;
    if title == "" {
      forall k | 0 <= k < |line| ensures IsBullet(line[k]) {
        assert line[k] == if k < |bullets| then bullets[k] else space[k - |bullets|];
      }
      SpanIs(line, 0, IsBullet, |line|);
      assert line[|line|..] == "";
      TrimEmptyIff("");
    } else {
      assert line[|bullets|] == title[0];
      SpanIs(line, 0, IsBullet, |bullets|);
      assert line[|bullets|..] == title + space == "" + (title + space);
      TrimSurrounded(title + space, "", title, space);
    }
  }

  lemma {:induction false} TitleParts(line: string) returns (bullets: string, space: string)
    ensures TitleIn(line, bullets, CleanTitle(line), space)
  {
    hide Trim;
    var end := Span(line, 0, IsBullet);
    var rest := line[end..];
    bullets := line[..end];
    forall k | 0 <= k < end ensures IsBullet(line[k]) {
      SpanAll(line, 0, IsBullet, k);
    }
    var front: string;
    front, space := TrimParts(rest);
    assert rest != "" ==> rest[0] == line[end];
    assert front == "";
    assert "" + (Trim(rest) + space) == Trim(rest) + space;
    assert line == bullets + rest;
  }

  /** The titles are those of the lines, in order, the empty ones left out. */
  lemma {:induction false} CleanTitlesAre(lines: seq<string>, line: string)
    ensures CleanTitles([]) == []
    ensures CleanTitles(lines + [line])
         == CleanTitles(lines) + if CleanTitle(line) == "" then [] else [CleanTitle(line)]
  {
    hide CleanTitle;
    if lines == [] {
      assert lines + [line] == [line] && [line][1..] == [];
    } else {
      assert (lines + [line])[1..] == lines[1..] + [line];
      CleanTitlesAre(lines[1..], line);
    }
  }

  /** The topic: what was answered without white space around it, unless blank, else the theme, else the default. */
  lemma {:induction false} ResolvedTopicIs(theme: Option<string>, raw: Option<string>)
    ensures var topic := ResolveTopic(theme, raw);
            if raw.Some? && !AllSpace(raw.value) then exists a, b :: Surrounded(raw.value, a, topic, b)
            else topic == if theme.Some? then theme.value else "an engineer's week in hell"
  {
    hide Trim, Surrounded;
    if raw.Some? {
      TrimEmptyIff(raw.value);
      var a, b := TrimParts(raw.value);
      assert !AllSpace(raw.value) ==> Surrounded(raw.value, a, ResolveTopic(theme, raw), b);
    }
  }

  // ----- what each round answers

  /**
   The first call asks for a count; an accepted one leads on to the ideas, a custom one by way of
   another question.
  */
  lemma {:induction false} CountRounds(q: Request, n: nat)
    ensures q.state.None? ==> Handle(q) == Ask(AwaitingCount)
    ensures q.state == Some(AwaitingCount) && q.count.None? ==> Handle(q) == NothingAdded(q.action)
    ensures q.state == Some(AwaitingCount) && q.count.Some? && q.count.value.count == Some("custom") ==>
              Handle(q) == Ask(AwaitingCustomCount(ResolveTopic(q.theme, q.count.value.theme)))
    ensures q.state == Some(AwaitingCount) && q.count.Some? && q.count.value.count == Some(Decimal(n)) ==>
              Handle(q) == if 1 <= n <= 100 then Ask(AwaitingIdeas(ResolveTopic(q.theme, q.count.value.theme), n))
                           else NothingAdded(Cancel)
    ensures q.state.Some? && q.state.value.AwaitingCustomCount? && q.customCount == Some(Decimal(n)) ==>
              Handle(q) == if 1 <= n <= 100 then Ask(AwaitingIdeas(q.state.value.topic, n)) else NothingAdded(q.action)
  {
    hide ParseBrainstormCount, ResolveTopic, Titles;
    CountRoundTrip(n);
    assert Decimal(n)[0] != "custom"[0];
  }

  /**
   The ideas are added under the topic carried, the first ones up to the count carried; without any
   nothing is added.
  */
  lemma {:induction false} IdeasRound(q: Request)
    requires q.state.Some? && q.state.value.AwaitingIdeas?
    ensures var titles, wanted := CleanTitles(Split(q.ideas, NL)), q.state.value.count;
            if titles == [] || wanted == 0 then Handle(q) == NoIdeas
            else
              && Handle(q).Added? && Handle(q).topic == q.state.value.topic
              && Handle(q).titles <= titles
              && |Handle(q).titles| == if wanted < |titles| then wanted else |titles|
  {
    hide CleanTitles, Split;
  }
}
