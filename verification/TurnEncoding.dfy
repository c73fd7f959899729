/**
 Encoding a conversation as turns of blocks, as the Anthropic and Gemini APIs want it: tool
 calls become blocks of the assistant's turn, tool results become blocks of a user turn, and a
 result joins the user turn before it when the provider's rule says so.
 */
module TurnEncoding {
  import opened Wrappers
  import opened Seqs
  import opened Conversation

  datatype Role = User | Model

  datatype TurnOf<B> = TurnOf(role: Role, blocks: seq<B>)

  /** A provider's encoding: its blocks, and which user turns a further result joins. */
  datatype Rules<!B> = Rules(
    content: seq<ContentPart> -> seq<B>,
    call: ToolCall -> B,
    result: ChatMessage -> B,
    joins: seq<B> -> bool)

  function Calls<B>(rules: Rules<B>, calls: seq<ToolCall>): (r: seq<B>)
    ensures |r| == |calls|
  {
    seq(|calls|, i requires 0 <= i < |calls| => rules.call(calls[i]))
  }

  function Results<B>(rules: Rules<B>, messages: History): (r: seq<B>)
    ensures |r| == |messages|
  {
    seq(|messages|, i requires 0 <= i < |messages| => rules.result(messages[i]))
  }

  /** The blocks a message stands for, and the role that says them. */
  function MessageTurn<B>(rules: Rules<B>, message: ChatMessage): TurnOf<B> {
    match message
    case UserMessage(content) => TurnOf(User, rules.content(content))
    case AssistantMessage(content, calls) => TurnOf(Model, rules.content(content) + Calls(rules, calls))
    case ToolMessage(_, _, _, _) => TurnOf(User, [rules.result(message)])
  }

  /** One step of the encoding: join the last turn, push a new one, or drop an empty message. */
  function Push<B>(rules: Rules<B>, turns: seq<TurnOf<B>>, message: ChatMessage): seq<TurnOf<B>> {
    var turn := MessageTurn(rules, message);
    if message.ToolMessage? then
      if turns != [] && turns[|turns| - 1].role == User && rules.joins(turns[|turns| - 1].blocks) then
        turns[..|turns| - 1] + [TurnOf(User, turns[|turns| - 1].blocks + turn.blocks)]
      else turns + [turn]
    else if turn.blocks == [] then turns
    else turns + [turn]
  }

  /** A result joins the last turn. */
  lemma PushJoins<B>(rules: Rules<B>, turns: seq<TurnOf<B>>, message: ChatMessage)
    requires message.ToolMessage? && turns != []
    requires turns[|turns| - 1].role == User && rules.joins(turns[|turns| - 1].blocks)
    ensures var n := |turns| - 1;
            Push(rules, turns, message) == turns[n := TurnOf(User, turns[n].blocks + [rules.result(message)])]
  {
  }

  /** A message that joins no turn is a turn of its own, unless empty. */
  lemma PushAlone<B>(rules: Rules<B>, turns: seq<TurnOf<B>>, message: ChatMessage)
    requires message.ToolMessage? && turns != [] ==>
               !(turns[|turns| - 1].role == User && rules.joins(turns[|turns| - 1].blocks))
    ensures var turn := MessageTurn(rules, message);
            Push(rules, turns, message) == if turn.blocks == [] then turns else turns + [turn]
  {
  }

  function Encode<B>(rules: Rules<B>, turns: seq<TurnOf<B>>, h: History): seq<TurnOf<B>>
    decreases |h|
  {
    if h == [] then turns else Encode(rules, Push(rules, turns, h[0]), h[1..])
  }

  lemma {:induction false} EncodeAppend<B>(rules: Rules<B>, turns: seq<TurnOf<B>>, a: History, b: History)
    ensures Encode(rules, turns, a + b) == Encode(rules, Encode(rules, turns, a), b)
    decreases |a|
  {
    hide Push;
    if a == [] {
      assert a + b == b;
    } else {
      assert (a + b)[1..] == a[1..] + b && (a + b)[0] == a[0];
      EncodeAppend(rules, Push(rules, turns, a[0]), a[1..], b);
    }
  }

  // ----- nothing is lost, added or reordered

  /** The blocks of the turns in order, each with the role that says it. */
  function Spoken<B>(turns: seq<TurnOf<B>>): seq<(Role, B)> {
    if turns == [] then []
    else Spoken(turns[..|turns| - 1]) + Said(turns[|turns| - 1])
  }

  function Said<B>(turn: TurnOf<B>): seq<(Role, B)> {
    seq(|turn.blocks|, i requires 0 <= i < |turn.blocks| => (turn.role, turn.blocks[i]))
  }

  /** The blocks of the history's own messages in order. */
  function SpokenIn<B>(rules: Rules<B>, h: History): seq<(Role, B)> {
    if h == [] then [] else SpokenIn(rules, h[..|h| - 1]) + Said(MessageTurn(rules, h[|h| - 1]))
  }

  lemma {:induction false} SpokenSnoc<B>(turns: seq<TurnOf<B>>, turn: TurnOf<B>)
    ensures Spoken(turns + [turn]) == Spoken(turns) + Said(turn)
  {
    assert (turns + [turn])[..|turns|] == turns;
  }

  lemma {:induction false} SpokenJoin<B>(turns: seq<TurnOf<B>>, block: B)
    requires turns != [] && turns[|turns| - 1].role == User
    ensures var init, last := turns[..|turns| - 1], turns[|turns| - 1];
            Spoken(init + [TurnOf(User, last.blocks + [block])]) == Spoken(turns) + Said(TurnOf(User, [block]))
  {
    var init, last := turns[..|turns| - 1], turns[|turns| - 1];
    SpokenSnoc(init, TurnOf(User, last.blocks + [block]));
    assert Said(TurnOf(User, last.blocks + [block])) == Said(last) + Said(TurnOf(User, [block]));
    Assoc(Spoken(init), Said(last), Said(TurnOf(User, [block])));
  }

  lemma {:induction false} SpokenPush<B>(rules: Rules<B>, turns: seq<TurnOf<B>>, message: ChatMessage)
    ensures Spoken(Push(rules, turns, message)) == Spoken(turns) + Said(MessageTurn(rules, message))
  {
    hide MessageTurn, Spoken;
    var turn := MessageTurn(rules, message);
    SpokenSnoc(turns, turn);
    if message.ToolMessage? {
      ToolTurnIsUser(rules, message);
      if turns != [] && turns[|turns| - 1].role == User {
        SpokenJoin(turns, rules.result(message));
      }
    } else if turn.blocks == [] {
      assert Said(turn) == [];
    }
  }

  lemma ToolTurnIsUser<B>(rules: Rules<B>, message: ChatMessage)
    requires message.ToolMessage?
    ensures MessageTurn(rules, message) == TurnOf(User, [rules.result(message)])
  {
  }

  /**
   For every history, the encoded turns say exactly the history's blocks, in order and each in
   its own role: grouping results and dropping empty messages loses no call and no result.
   */
  lemma {:induction false} EncodeKeepsBlocks<B>(rules: Rules<B>, h: History)
    ensures Spoken(Encode(rules, [], h)) == SpokenIn(rules, h)
    decreases |h|
  {
    hide Push, MessageTurn, Said;
    if h == [] {
    } else {
      var init, last := h[..|h| - 1], h[|h| - 1];
      EncodeKeepsBlocks(rules, init);
      assert h == init + [last];
      EncodeAppend(rules, [], init, [last]);
      EncodeOne(rules, Encode(rules, [], init), last);
      SpokenPush(rules, Encode(rules, [], init), last);
    }
  }

  lemma {:induction false} EncodeOne<B>(rules: Rules<B>, turns: seq<TurnOf<B>>, message: ChatMessage)
    ensures Encode(rules, turns, [message]) == Push(rules, turns, message)
  {
    assert [message][1..] == [];
  }

  // ----- reading calls and results back

  /** What a reader makes of the blocks it recognises, in order. */
  function Read<B, E>(spoken: seq<(Role, B)>, event: B -> Option<E>): seq<E> {
    if spoken == [] then []
    else Read(spoken[..|spoken| - 1], event)
         + (match event(spoken[|spoken| - 1].1) case Some(e) => [e] case None => [])
  }

  /** The calls and results of a history, in order, as `ofCall` and `ofResult` show them. */
  function Events<E>(h: History, ofCall: ToolCall -> E, ofResult: ChatMessage -> E): seq<E> {
    if h == [] then []
    else
      var last := h[|h| - 1];
      Events(h[..|h| - 1], ofCall, ofResult)
      + (match last
         case UserMessage(_) => []
         case AssistantMessage(_, calls) => seq(|calls|, i requires 0 <= i < |calls| => ofCall(calls[i]))
         case ToolMessage(_, _, _, _) => [ofResult(last)])
  }

  /** `event` recognises exactly the blocks made of calls and of results, and shows them as told. */
  ghost predicate Shows<B(!new), E(!new)>(rules: Rules<B>, event: B -> Option<E>, ofCall: ToolCall -> E,
                                          ofResult: ChatMessage -> E) {
    && (forall c :: event(rules.call(c)) == Some(ofCall(c)))
    && (forall m: ChatMessage :: event(rules.result(m)) == Some(ofResult(m)))
    && (forall content, i :: 0 <= i < |rules.content(content)| ==> event(rules.content(content)[i]) == None)
  }

  lemma {:induction false} ReadAppend<B, E>(a: seq<(Role, B)>, b: seq<(Role, B)>, event: B -> Option<E>)
    ensures Read(a + b, event) == Read(a, event) + Read(b, event)
  {
    if b == [] {
      assert a + b == a;
    } else {
      var init := b[..|b| - 1];
      assert (a + b)[..|a + b| - 1] == a + init;
      ReadAppend(a, init, event);
    }
  }

  lemma {:induction false} ReadNone<B, E>(spoken: seq<(Role, B)>, event: B -> Option<E>)
    requires forall i :: 0 <= i < |spoken| ==> event(spoken[i].1) == None
    ensures Read(spoken, event) == []
  {
    if spoken == [] {
    } else {
      ReadNone(spoken[..|spoken| - 1], event);
    }
  }

  lemma {:induction false} ReadAll<B, E>(spoken: seq<(Role, B)>, event: B -> Option<E>, events: seq<E>)
    requires |events| == |spoken| && forall i :: 0 <= i < |spoken| ==> event(spoken[i].1) == Some(events[i])
    ensures Read(spoken, event) == events
  {
    if spoken == [] {
    } else {
      ReadAll(spoken[..|spoken| - 1], event, events[..|spoken| - 1]);
      assert events == events[..|spoken| - 1] + [events[|spoken| - 1]];
    }
  }

  lemma {:induction false} ReadMessage<B(!new), E(!new)>(
    rules: Rules<B>, message: ChatMessage, event: B -> Option<E>, ofCall: ToolCall -> E, ofResult: ChatMessage -> E)
    requires Shows(rules, event, ofCall, ofResult)
    ensures Read(Said(MessageTurn(rules, message)), event) == Events([message], ofCall, ofResult)
  {
    assert [message][..0] == [];
    match message
    case UserMessage(content) =>
      ReadNone(Said(MessageTurn(rules, message)), event);
    case AssistantMessage(content, calls) =>
      var said, called := Said(TurnOf(Model, rules.content(content))), Said(TurnOf(Model, Calls(rules, calls)));
      assert Said(MessageTurn(rules, message)) == said + called;
      ReadAppend(said, called, event);
      ReadNone(said, event);
      ReadAll(called, event, seq(|calls|, i requires 0 <= i < |calls| => ofCall(calls[i])));
    case ToolMessage(_, _, _, _) =>
      ReadAll(Said(MessageTurn(rules, message)), event, [ofResult(message)]);
  }

  lemma {:induction false} ReadSpokenIn<B(!new), E(!new)>(
    rules: Rules<B>, h: History, event: B -> Option<E>, ofCall: ToolCall -> E, ofResult: ChatMessage -> E)
    requires Shows(rules, event, ofCall, ofResult)
    ensures Read(SpokenIn(rules, h), event) == Events(h, ofCall, ofResult)
  {
    hide Shows, Said, MessageTurn;
    if h == [] {
      ReadNone<B, E>([], event);
    } else {
      var init, last := h[..|h| - 1], h[|h| - 1];
      ReadSpokenIn(rules, init, event, ofCall, ofResult);
      ReadMessage(rules, last, event, ofCall, ofResult);
      ReadAppend(SpokenIn(rules, init), Said(MessageTurn(rules, last)), event);
      EventsSnoc(init, last, ofCall, ofResult);
      assert h == init + [last];
    }
  }

  lemma {:induction false} EventsSnoc<E>(h: History, last: ChatMessage, ofCall: ToolCall -> E,
                                         ofResult: ChatMessage -> E)
    ensures Events(h + [last], ofCall, ofResult) == Events(h, ofCall, ofResult) + Events([last], ofCall, ofResult)
  {
    assert (h + [last])[..|h|] == h;
    assert [last][..0] == [];
  }

  /** Reading the calls and results back out of the encoded turns gives the history's own. */
  lemma {:induction false} EncodingKeepsEvents<B(!new), E(!new)>(
    rules: Rules<B>, h: History, event: B -> Option<E>, ofCall: ToolCall -> E, ofResult: ChatMessage -> E)
    requires Shows(rules, event, ofCall, ofResult)
    ensures Read(Spoken(Encode(rules, [], h)), event) == Events(h, ofCall, ofResult)
  {
    hide Shows, Encode;
    EncodeKeepsBlocks(rules, h);
    ReadSpokenIn(rules, h, event, ofCall, ofResult);
  }

  // ----- calls are answered where the API needs it

  // ----- reading texts and images back

  /** A text or an image as a request shows it. */
  datatype Shown = ShownText(text: string) | ShownImage(mediaType: string, data: string)

  /** What a reader makes of the blocks it recognises, each with its role, in order. */
  function Heard<B>(spoken: seq<(Role, B)>, hear: B -> Option<Shown>): seq<(Role, Shown)> {
    if spoken == [] then []
    else
      var (role, block) := spoken[|spoken| - 1];
      Heard(spoken[..|spoken| - 1], hear) + (match hear(block) case Some(shown) => [(role, shown)] case None => [])
  }

  /** The parts of one message that are shown. */
  function PartsShown(role: Role, content: seq<ContentPart>, show: ContentPart -> Option<Shown>): seq<(Role, Shown)> {
    if content == [] then []
    else
      (match show(content[0]) case Some(shown) => [(role, shown)] case None => [])
      + PartsShown(role, content[1..], show)
  }

  /** The parts that the user and the model said over a history, in order. */
  function ContentsOf(h: History, show: ContentPart -> Option<Shown>): seq<(Role, Shown)> {
    if h == [] then []
    else
      ContentsOf(h[..|h| - 1], show)
      + (match h[|h| - 1]
         case UserMessage(content) => PartsShown(User, content, show)
         case AssistantMessage(content, _) => PartsShown(Model, content, show)
         case ToolMessage(_, _, _, _) => [])
  }

  /** `hear` passes over calls and results, and makes of the blocks of a content what `show` shows of its parts. */
  ghost predicate Hears<B(!new)>(rules: Rules<B>, hear: B -> Option<Shown>, show: ContentPart -> Option<Shown>) {
    && (forall c :: hear(rules.call(c)) == None)
    && (forall m: ChatMessage :: hear(rules.result(m)) == None)
    && (forall role, content :: HearsContent(rules, hear, show, role, content))
  }

  ghost predicate HearsContent<B>(rules: Rules<B>, hear: B -> Option<Shown>, show: ContentPart -> Option<Shown>,
                                  role: Role, content: seq<ContentPart>) {
    Heard(Said(TurnOf(role, rules.content(content))), hear) == PartsShown(role, content, show)
  }

  lemma {:induction false} HeardAppend<B>(a: seq<(Role, B)>, b: seq<(Role, B)>, hear: B -> Option<Shown>)
    ensures Heard(a + b, hear) == Heard(a, hear) + Heard(b, hear)
  {
    if b == [] {
      assert a + b == a;
    } else {
      var init := b[..|b| - 1];
      assert (a + b)[..|a + b| - 1] == a + init;
      HeardAppend(a, init, hear);
    }
  }

  lemma {:induction false} HeardNothing<B>(spoken: seq<(Role, B)>, hear: B -> Option<Shown>)
    requires forall i :: 0 <= i < |spoken| ==> hear(spoken[i].1) == None
    ensures Heard(spoken, hear) == []
  {
    if spoken == [] {
    } else {
      HeardNothing(spoken[..|spoken| - 1], hear);
    }
  }

  lemma {:induction false} SaidAppend<B>(role: Role, a: seq<B>, b: seq<B>)
    ensures Said(TurnOf(role, a + b)) == Said(TurnOf(role, a)) + Said(TurnOf(role, b))
  {
  }

  lemma {:induction false} HeardMessage<B(!new)>(rules: Rules<B>, message: ChatMessage, hear: B -> Option<Shown>,
                                                 show: ContentPart -> Option<Shown>)
    requires Hears(rules, hear, show)
    ensures Heard(Said(MessageTurn(rules, message)), hear) == ContentsOf([message], show)
  {
    hide Heard, PartsShown;
    assert [message][..0] == [];
    match message
    case UserMessage(content) =>
      assert HearsContent(rules, hear, show, User, content);
    case AssistantMessage(content, calls) =>
      assert HearsContent(rules, hear, show, Model, content);
      var said := Said(TurnOf(Model, Calls(rules, calls)));
      SaidAppend(Model, rules.content(content), Calls(rules, calls));
      HeardAppend(Said(TurnOf(Model, rules.content(content))), said, hear);
      HeardNothing(said, hear);
    case ToolMessage(_, _, _, _) =>
      HeardNothing(Said(MessageTurn(rules, message)), hear);
  }

  lemma {:induction false} ContentsSnoc(h: History, last: ChatMessage, show: ContentPart -> Option<Shown>)
    ensures ContentsOf(h + [last], show) == ContentsOf(h, show) + ContentsOf([last], show)
  {
    hide PartsShown;
    assert (h + [last])[..|h|] == h;
    assert [last][..0] == [];
  }

  lemma {:induction false} HeardSpokenIn<B(!new)>(rules: Rules<B>, h: History, hear: B -> Option<Shown>,
                                                  show: ContentPart -> Option<Shown>)
    requires Hears(rules, hear, show)
    ensures Heard(SpokenIn(rules, h), hear) == ContentsOf(h, show)
  {
    hide Heard, Hears, Said, ContentsOf;
    if h == [] {
      HeardNothing(SpokenIn(rules, h), hear);
      NoContents(show);
    } else {
      var init, last := h[..|h| - 1], h[|h| - 1];
      assert h == init + [last];
      HeardSpokenIn(rules, init, hear, show);
      HeardAppend(SpokenIn(rules, init), Said(MessageTurn(rules, last)), hear);
      HeardMessage(rules, last, hear, show);
      ContentsSnoc(init, last, show);
    }
  }

  lemma NoContents(show: ContentPart -> Option<Shown>)
    ensures ContentsOf([], show) == []
  {
  }

  /** For every history, the texts and images read back from the encoded turns are the history's own, in their roles. */
  lemma {:induction false} EncodingKeepsContents<B(!new)>(rules: Rules<B>, h: History, hear: B -> Option<Shown>,
                                                          show: ContentPart -> Option<Shown>)
    requires Hears(rules, hear, show)
    ensures Heard(Spoken(Encode(rules, [], h)), hear) == ContentsOf(h, show)
  {
    EncodeKeepsBlocks(rules, h);
    HeardSpokenIn(rules, h, hear, show);
  }

  /** A block in front of the others. */
  lemma {:induction false} HeardCons<B>(role: Role, block: B, blocks: seq<B>, hear: B -> Option<Shown>)
    ensures Heard(Said(TurnOf(role, [block] + blocks)), hear)
         == (match hear(block) case Some(shown) => [(role, shown)] case None => [])
            + Heard(Said(TurnOf(role, blocks)), hear)
  {
    var first := Said(TurnOf(role, [block]));
    SaidAppend(role, [block], blocks);
    HeardAppend(first, Said(TurnOf(role, blocks)), hear);
    assert first[..0] == [] && first[0] == (role, block);
    assert Heard(first, hear) == [] + (match hear(block) case Some(shown) => [(role, shown)] case None => []);
  }

  /** The provider's rule joins results to a turn that holds results only, and holds one. */
  ghost predicate JoinsResults<B(!new)>(rules: Rules<B>) {
    forall messages: History :: messages != [] ==> rules.joins(Results(rules, messages))
  }

  /** A well-paired history cut into its parts: a user message, or an assistant's with its answers. */
  datatype Exchange = Exchange(message: ChatMessage, answers: History)

  function Exchanges(h: History): (r: seq<Exchange>)
    requires WellPaired(h)
    decreases |h|
  {
    if h == [] then []
    else
      var n := if h[0].AssistantMessage? then 1 + |h[0].toolCalls| else 1;
      [Exchange(h[0], h[1..n])] + Exchanges(h[n..])
  }

  /** The turns of one exchange: the message unless empty, then all its answers in one user turn. */
  function ExchangeTurns<B>(rules: Rules<B>, e: Exchange): seq<TurnOf<B>> {
    var turn := MessageTurn(rules, e.message);
    (if turn.blocks == [] then [] else [turn])
    + (if e.answers == [] then [] else [TurnOf(User, Results(rules, e.answers))])
  }

  function ExchangesTurns<B>(rules: Rules<B>, es: seq<Exchange>): seq<TurnOf<B>> {
    if es == [] then [] else ExchangeTurns(rules, es[0]) + ExchangesTurns(rules, es[1..])
  }

  /** Results that follow results join their turn, one by one. */
  lemma {:induction false} ResultsJoin<B(!new)>(rules: Rules<B>, turns: seq<TurnOf<B>>, before: History, rest: History)
    requires JoinsResults(rules) && before != []
    requires forall i :: 0 <= i < |rest| ==> rest[i].ToolMessage?
    ensures Encode(rules, turns + [TurnOf(User, Results(rules, before))], rest)
         == turns + [TurnOf(User, Results(rules, before + rest))]
    decreases |rest|
  {
    if rest == [] {
      assert before + rest == before;
    } else {
      var all := turns + [TurnOf(User, Results(rules, before))];
      assert all[..|turns|] == turns;
      assert Results(rules, before) + [rules.result(rest[0])] == Results(rules, before + [rest[0]]);
      ResultsJoin(rules, turns, before + [rest[0]], rest[1..]);
      assert before + [rest[0]] + rest[1..] == before + rest;
    }
  }

  /** The answers to an assistant turn land in one user turn right behind it. */
  lemma {:induction false} AnswersShareOneTurn<B(!new)>(rules: Rules<B>, turns: seq<TurnOf<B>>, answers: History)
    requires JoinsResults(rules) && answers != []
    requires forall i :: 0 <= i < |answers| ==> answers[i].ToolMessage?
    requires turns != [] && turns[|turns| - 1].role == Model
    ensures Encode(rules, turns, answers) == turns + [TurnOf(User, Results(rules, answers))]
  {
    assert Results(rules, [answers[0]]) == [rules.result(answers[0])];
    ResultsJoin(rules, turns, [answers[0]], answers[1..]);
    assert [answers[0]] + answers[1..] == answers;
  }

  lemma {:induction false} EncodeExchange<B(!new)>(rules: Rules<B>, turns: seq<TurnOf<B>>, e: Exchange)
    requires JoinsResults(rules)
    requires !e.message.ToolMessage?
    requires forall i :: 0 <= i < |e.answers| ==> e.answers[i].ToolMessage?
    requires e.answers != [] ==> e.message.AssistantMessage? && e.message.toolCalls != []
    ensures Encode(rules, turns, [e.message] + e.answers) == turns + ExchangeTurns(rules, e)
  {
    var turn := MessageTurn(rules, e.message);
    var pushed := Push(rules, turns, e.message);
    EncodeAppend(rules, turns, [e.message], e.answers);
    EncodeOne(rules, turns, e.message);
    if e.answers != [] {
      assert |turn.blocks| >= |e.message.toolCalls|;
      AnswersShareOneTurn(rules, pushed, e.answers);
    }
  }

  /** The encoding of a well-paired history is that of its exchanges, one after the other. */
  lemma {:induction false} EncodeByExchange<B(!new)>(rules: Rules<B>, turns: seq<TurnOf<B>>, h: History)
    requires JoinsResults(rules) && WellPaired(h)
    ensures Encode(rules, turns, h) == turns + ExchangesTurns(rules, Exchanges(h))
    decreases |h|
  {
    hide Push, ExchangeTurns;
    if h == [] {
      assert turns + ExchangesTurns(rules, Exchanges(h)) == turns;
    } else {
      var n := if h[0].AssistantMessage? then 1 + |h[0].toolCalls| else 1;
      var e := Exchange(h[0], h[1..n]);
      assert h == ([h[0]] + h[1..n]) + h[n..];
      EncodeAppend(rules, turns, [h[0]] + h[1..n], h[n..]);
      forall i | 0 <= i < |e.answers| ensures e.answers[i].ToolMessage? {
        assert Answers(h[1..n][i], h[0].toolCalls[i]);
      }
      EncodeExchange(rules, turns, e);
      EncodeByExchange(rules, turns + ExchangeTurns(rules, e), h[n..]);
      var rest := Exchanges(h[n..]);
      assert Exchanges(h) == [e] + rest && ([e] + rest)[1..] == rest;
      Assoc(turns, ExchangeTurns(rules, e), ExchangesTurns(rules, rest));
    }
  }

  /** How calls and results are told apart from other blocks, and what a result is matched by. */
  datatype Reader<!B> = Reader(
    callKey: B -> Option<string>,
    resultKey: B -> Option<string>,
    keyOfCall: ToolCall -> string,
    keyOfAnswer: ChatMessage -> string)

  ghost predicate Reads<B(!new)>(reader: Reader<B>, rules: Rules<B>) {
    && (forall c :: reader.callKey(rules.call(c)) == Some(reader.keyOfCall(c)))
    && (forall m: ChatMessage ::
          reader.resultKey(rules.result(m)) == Some(reader.keyOfAnswer(m)) && reader.callKey(rules.result(m)) == None)
    && (forall content, i :: 0 <= i < |rules.content(content)| ==> reader.callKey(rules.content(content)[i]) == None)
    && (forall c, m :: Answers(m, c) ==> reader.keyOfCall(c) == reader.keyOfAnswer(m))
  }

  function Keys<B>(blocks: seq<B>, key: B -> Option<string>): seq<string> {
    if blocks == [] then []
    else Keys(blocks[..|blocks| - 1], key)
         + (match key(blocks[|blocks| - 1]) case Some(k) => [k] case None => [])
  }

  lemma {:induction false} KeysNone<B>(a: seq<B>, key: B -> Option<string>)
    requires forall i :: 0 <= i < |a| ==> key(a[i]) == None
    ensures Keys(a, key) == []
  {
    if a == [] {
    } else {
      KeysNone(a[..|a| - 1], key);
    }
  }

  lemma {:induction false} KeysAppend<B>(a: seq<B>, b: seq<B>, key: B -> Option<string>)
    ensures Keys(a + b, key) == Keys(a, key) + Keys(b, key)
  {
    if b == [] {
      assert a + b == a;
    } else {
      var init := b[..|b| - 1];
      assert (a + b)[..|a + b| - 1] == a + init;
      KeysAppend(a, init, key);
    }
  }

  lemma {:induction false} KeysAll<B>(a: seq<B>, key: B -> Option<string>, ks: seq<string>)
    requires |ks| == |a| && forall i :: 0 <= i < |a| ==> key(a[i]) == Some(ks[i])
    ensures Keys(a, key) == ks
  {
    if a == [] {
    } else {
      KeysAll(a[..|a| - 1], key, ks[..|a| - 1]);
      assert ks == ks[..|a| - 1] + [ks[|a| - 1]];
    }
  }

  /**
   Every turn that holds calls is the model's, and the next turn is one user turn that holds just
   their results, in order.
  */
  ghost predicate AllAnswered<B>(turns: seq<TurnOf<B>>, reader: Reader<B>) {
    forall k :: 0 <= k < |turns| && Keys(turns[k].blocks, reader.callKey) != [] ==>
      && turns[k].role == Model
      && k + 1 < |turns|
      && turns[k + 1].role == User
      && Keys(turns[k + 1].blocks, reader.resultKey) == Keys(turns[k].blocks, reader.callKey)
      && |turns[k + 1].blocks| == |Keys(turns[k].blocks, reader.callKey)|
  }

  lemma {:induction false} AnsweredAppend<B>(a: seq<TurnOf<B>>, b: seq<TurnOf<B>>, reader: Reader<B>)
    requires AllAnswered(a, reader) && AllAnswered(b, reader)
    ensures AllAnswered(a + b, reader)
  {
    hide Keys;
    var ab := a + b;
    forall k | 0 <= k < |ab| && Keys(ab[k].blocks, reader.callKey) != []
      ensures ab[k].role == Model && k + 1 < |ab| && ab[k + 1].role == User
      ensures Keys(ab[k + 1].blocks, reader.resultKey) == Keys(ab[k].blocks, reader.callKey)
      ensures |ab[k + 1].blocks| == |Keys(ab[k].blocks, reader.callKey)|
    {
      if k < |a| {
        assert ab[k] == a[k] && ab[k + 1] == a[k + 1];
      } else {
        assert ab[k] == b[k - |a|] && ab[k + 1] == b[k + 1 - |a|];
      }
    }
  }

  function CallKeys<B>(reader: Reader<B>, calls: seq<ToolCall>): (ks: seq<string>)
    ensures |ks| == |calls| && (calls == [] ==> ks == [])
  {
    seq(|calls|, i requires 0 <= i < |calls| => reader.keyOfCall(calls[i]))
  }

  function CallsOf(message: ChatMessage): seq<ToolCall> {
    if message.AssistantMessage? then message.toolCalls else []
  }

  lemma {:induction false} TurnKeys<B(!new)>(rules: Rules<B>, reader: Reader<B>, message: ChatMessage)
    requires Reads(reader, rules) && !message.ToolMessage?
    ensures Keys(MessageTurn(rules, message).blocks, reader.callKey) == CallKeys(reader, CallsOf(message))
  {
    var content, calls := rules.content(message.content), Calls(rules, CallsOf(message));
    KeysNone(content, reader.callKey);
    KeysAppend(content, calls, reader.callKey);
    KeysAll(calls, reader.callKey, CallKeys(reader, CallsOf(message)));
    if calls == [] {
      assert content + calls == content;
    }
  }

  lemma {:induction false} ResultKeys<B(!new)>(rules: Rules<B>, reader: Reader<B>, answers: History,
                                        calls: seq<ToolCall>)
    requires Reads(reader, rules) && AnswersAll(answers, calls)
    ensures Keys(Results(rules, answers), reader.resultKey) == CallKeys(reader, calls)
    ensures Keys(Results(rules, answers), reader.callKey) == []
  {
    var results, ks := Results(rules, answers), CallKeys(reader, calls);
    forall i | 0 <= i < |results| ensures reader.resultKey(results[i]) == Some(ks[i]) {
      assert Answers(answers[i], calls[i]);
    }
    KeysAll(results, reader.resultKey, ks);
    KeysNone(results, reader.callKey);
  }

  lemma {:induction false} ExchangeIsAnswered<B(!new)>(rules: Rules<B>, reader: Reader<B>, e: Exchange)
    requires Reads(reader, rules) && !e.message.ToolMessage?
    requires AnswersAll(e.answers, CallsOf(e.message))
    ensures AllAnswered(ExchangeTurns(rules, e), reader)
  {
    hide *;
    var turn, results := MessageTurn(rules, e.message), TurnOf(User, Results(rules, e.answers));
    TurnKeys(rules, reader, e.message);
    ResultKeys(rules, reader, e.answers, CallsOf(e.message));
    ExchangeShape(rules, e);
    if e.answers == [] {
      assert CallsOf(e.message) == [] by {
        SameLength(e);
      }
      NoCallsAnswered(turn, reader);
    } else {
      SameLength(e);
      AssistantSpeaks(rules, e.message);
      CallsAnswered(turn, results, reader);
    }
  }

  lemma SameLength(e: Exchange)
    requires AnswersAll(e.answers, CallsOf(e.message))
    ensures |e.answers| == |CallsOf(e.message)|
  {
  }

  lemma {:induction false} ExchangeShape<B>(rules: Rules<B>, e: Exchange)
    ensures var turn, results := MessageTurn(rules, e.message), TurnOf(User, Results(rules, e.answers));
            && (e.answers == [] ==> ExchangeTurns(rules, e) == if turn.blocks == [] then [] else [turn])
            && (e.answers != [] && turn.blocks != [] ==> ExchangeTurns(rules, e) == [turn, results])
  {
    hide MessageTurn, Results;
  }

  lemma NoCallsAnswered<B>(turn: TurnOf<B>, reader: Reader<B>)
    requires Keys(turn.blocks, reader.callKey) == []
    ensures AllAnswered(if turn.blocks == [] then [] else [turn], reader)
  {
  }

  lemma CallsAnswered<B>(turn: TurnOf<B>, results: TurnOf<B>, reader: Reader<B>)
    requires turn.role == Model && results.role == User
    requires Keys(results.blocks, reader.callKey) == []
    requires Keys(results.blocks, reader.resultKey) == Keys(turn.blocks, reader.callKey)
    requires |results.blocks| == |Keys(turn.blocks, reader.callKey)|
    ensures AllAnswered([turn, results], reader)
  {
  }

  lemma {:induction false} AssistantSpeaks<B>(rules: Rules<B>, message: ChatMessage)
    requires CallsOf(message) != []
    ensures MessageTurn(rules, message).role == Model && MessageTurn(rules, message).blocks != []
  {
    assert |MessageTurn(rules, message).blocks| >= |CallsOf(message)|;
  }

  /** In the encoding of a well-paired history every call is answered in the very next user turn. */
  lemma {:induction false} CallsAreAnswered<B(!new)>(rules: Rules<B>, reader: Reader<B>, h: History)
    requires JoinsResults(rules) && Reads(reader, rules) && WellPaired(h)
    ensures AllAnswered(Encode(rules, [], h), reader)
  {
    hide Encode, Reads, JoinsResults;
    EncodeByExchange(rules, [], h);
    ExchangesAreAnswered(rules, reader, h);
  }

  lemma {:induction false} ExchangesAreAnswered<B(!new)>(rules: Rules<B>, reader: Reader<B>, h: History)
    requires Reads(reader, rules) && WellPaired(h)
    ensures AllAnswered(ExchangesTurns(rules, Exchanges(h)), reader)
    decreases |h|
  {
    hide ExchangeTurns, Reads, Keys;
    if h == [] {
    } else {
      var n := if h[0].AssistantMessage? then 1 + |h[0].toolCalls| else 1;
      var e := Exchange(h[0], h[1..n]);
      assert AnswersAll(e.answers, CallsOf(e.message));
      ExchangeIsAnswered(rules, reader, e);
      ExchangesAreAnswered(rules, reader, h[n..]);
      var rest := Exchanges(h[n..]);
      assert Exchanges(h) == [e] + rest && ([e] + rest)[1..] == rest;
      AnsweredAppend(ExchangeTurns(rules, e), ExchangesTurns(rules, rest), reader);
    }
  }
}
