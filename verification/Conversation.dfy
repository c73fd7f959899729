/** The provider-neutral conversation and the loop that grows it. */
module Conversation {
  import opened Wrappers
  import opened Text
  import opened Seqs

  datatype ContentPart = TextPart(text: string) | ImagePart(mimeType: string, data: string)

  /** The arguments of a call, as the JSON text of the record the model issued. */
  datatype Arguments = Arguments(json: string)

  datatype ToolCall = ToolCall(id: string, name: string, arguments: Arguments)

  datatype ChatMessage =
    | UserMessage(content: seq<ContentPart>)
    | AssistantMessage(content: seq<ContentPart>, toolCalls: seq<ToolCall>)
    | ToolMessage(toolCallId: string, toolName: string, content: seq<ContentPart>, isError: bool)

  type History = seq<ChatMessage>

  function PartText(part: ContentPart): string {
    match part
    case TextPart(text) => text
    case ImagePart(mimeType, _) => "[image: " + mimeType + "]"
  }

  /** Content parts flattened to plain text, one part a line. */
  function PartsToText(parts: seq<ContentPart>): string {
    Join(seq(|parts|, i requires 0 <= i < |parts| => PartText(parts[i])), NL)
  }

  /** A part as a line of plain text. */
  ghost predicate IsLineOf(line: string, part: ContentPart) {
    match part
    case TextPart(text) => line == text
    case ImagePart(mimeType, _) => line == "[image: " + mimeType + "]"
  }

  /** Parts of one line each are the lines of the plain text, in order. */
  lemma {:induction false} PartsAreLines(parts: seq<ContentPart>)
    requires parts != []
    requires forall i :: 0 <= i < |parts| ==>
               match parts[i] case TextPart(text) => NL !in text case ImagePart(mimeType, _) => NL !in mimeType
    ensures |Split(PartsToText(parts), NL)| == |parts|
    ensures forall i :: 0 <= i < |parts| ==> IsLineOf(Split(PartsToText(parts), NL)[i], parts[i])
  {
    var texts := seq(|parts|, i requires 0 <= i < |parts| => PartText(parts[i]));
    forall i | 0 <= i < |texts| ensures NL !in texts[i] && IsLineOf(texts[i], parts[i]) {
    }
    SplitJoin(texts, NL);
  }

  // ----- pairing

  predicate Answers(message: ChatMessage, call: ToolCall) {
    message.ToolMessage? && message.toolCallId == call.id && message.toolName == call.name
  }

  /** The messages answer the calls one by one, in order. */
  predicate AnswersAll(messages: History, calls: seq<ToolCall>) {
    |messages| == |calls| && forall i :: 0 <= i < |calls| ==> Answers(messages[i], calls[i])
  }

  /** Each assistant turn with n tool calls is followed at once by its n answers; no answer stands elsewhere. */
  predicate WellPaired(h: History) {
    if h == [] then true
    else
      match h[0]
      case UserMessage(_) => WellPaired(h[1..])
      case ToolMessage(_, _, _, _) => false
      case AssistantMessage(_, calls) =>
        && 1 + |calls| <= |h|
        && AnswersAll(h[1..1 + |calls|], calls)
        && WellPaired(h[1 + |calls|..])
  }

  lemma {:induction false} WellPairedAppend(a: History, b: History)
    requires WellPaired(a) && WellPaired(b)
    ensures WellPaired(a + b)
    decreases |a|
  {
    hide AnswersAll;
    if a == [] {
      assert a + b == b;
    } else {
      var n := if a[0].AssistantMessage? then 1 + |a[0].toolCalls| else 1;
      WellPairedAppend(a[n..], b);
      assert (a + b)[1..n] == a[1..n] && (a + b)[n..] == a[n..] + b && (a + b)[0] == a[0];
    }
  }

  // ----- one user turn

  const MAX_TOOL_ROUNDS: nat := 8

  datatype GenerateResult = GenerateResult(text: string, toolCalls: seq<ToolCall>, model: string)

  datatype ToolResult = ToolResult(parts: seq<ContentPart>, isError: bool)

  /** The model's answer in a round, given the history; a failure stands for a thrown error. */
  type Provider = (nat, History) -> Result<GenerateResult, string>

  /** The result of a round's i-th tool call; the host turns every failure into an error result. */
  type Tools = (nat, nat, ToolCall) -> ToolResult

  function AssistantTurn(result: GenerateResult): ChatMessage {
    AssistantMessage(if result.text == "" then [] else [TextPart(result.text)], result.toolCalls)
  }

  function ToolTurn(call: ToolCall, result: ToolResult): ChatMessage {
    ToolMessage(call.id, call.name, result.parts, result.isError)
  }

  function ToolTurns(calls: seq<ToolCall>, tools: Tools, round: nat): History {
    seq(|calls|, i requires 0 <= i < |calls| => ToolTurn(calls[i], tools(round, i, calls[i])))
  }

  datatype Ending = Answered | RoundLimit | ModelThrew(error: string)

  datatype TurnResult = TurnResult(messages: History, ending: Ending, modelCalls: nat)

  /** The history after the rounds from `round` on. */
  function Rounds(messages: History, provider: Provider, tools: Tools, round: nat): TurnResult
    requires round <= MAX_TOOL_ROUNDS
    decreases MAX_TOOL_ROUNDS - round
  {
    if round == MAX_TOOL_ROUNDS then TurnResult(messages, RoundLimit, round)
    else
      match provider(round, messages)
      case Failure(error) => TurnResult(messages, ModelThrew(error), round + 1)
      case Success(result) =>
        var asked := messages + [AssistantTurn(result)];
        if result.toolCalls == [] then TurnResult(asked, Answered, round + 1)
        else Rounds(asked + ToolTurns(result.toolCalls, tools, round), provider, tools, round + 1)
  }

  /** The histories that are handed to the model, one a call, from `round` on. */
  function Handed(messages: History, provider: Provider, tools: Tools, round: nat): seq<History>
    requires round <= MAX_TOOL_ROUNDS
    decreases MAX_TOOL_ROUNDS - round
  {
    if round == MAX_TOOL_ROUNDS then []
    else
      match provider(round, messages)
      case Failure(_) => [messages]
      case Success(result) =>
        var asked := messages + [AssistantTurn(result)];
        if result.toolCalls == [] then [messages]
        else [messages] + Handed(asked + ToolTurns(result.toolCalls, tools, round), provider, tools, round + 1)
  }

  /** One round, unfolded. */
  lemma RoundStep(messages: History, provider: Provider, tools: Tools, round: nat)
    requires round < MAX_TOOL_ROUNDS
    ensures provider(round, messages).Failure? ==>
              Rounds(messages, provider, tools, round)
                == TurnResult(messages, ModelThrew(provider(round, messages).error), round + 1)
    ensures provider(round, messages).Success? ==>
              var result := provider(round, messages).value;
              var asked := messages + [AssistantTurn(result)];
              Rounds(messages, provider, tools, round)
                == if result.toolCalls == [] then TurnResult(asked, Answered, round + 1)
                   else Rounds(asked + ToolTurns(result.toolCalls, tools, round), provider, tools, round + 1)
  {
  }

  /** After some rounds: what they handed to the model and what is still to come make up the whole turn. */
  ghost predicate OnTrack(whole: TurnResult, all: seq<History>, handed: seq<History>, messages: History,
                          provider: Provider, tools: Tools, round: nat)
    requires round <= MAX_TOOL_ROUNDS
  {
    whole == Rounds(messages, provider, tools, round) && all == handed + Handed(messages, provider, tools, round)
  }

  lemma {:induction false} OnTrackStep(whole: TurnResult, all: seq<History>, handed: seq<History>, messages: History,
                                       provider: Provider, tools: Tools, round: nat)
    requires round < MAX_TOOL_ROUNDS && OnTrack(whole, all, handed, messages, provider, tools, round)
    ensures match provider(round, messages)
            case Failure(error) => whole == TurnResult(messages, ModelThrew(error), round + 1)
              && all == handed + [messages]
            case Success(result) =>
              var asked := messages + [AssistantTurn(result)];
              if result.toolCalls == [] then
                whole == TurnResult(asked, Answered, round + 1) && all == handed + [messages]
              else
                OnTrack(whole, all, handed + [messages], asked + ToolTurns(result.toolCalls, tools, round), provider,
                        tools, round + 1)
  {
    hide AssistantTurn, ToolTurns;
    if provider(round, messages).Success? {
      var result := provider(round, messages).value;
      if result.toolCalls != [] {
        var messages' := messages + [AssistantTurn(result)] + ToolTurns(result.toolCalls, tools, round);
        Assoc(handed, [messages], Handed(messages', provider, tools, round + 1));
      }
    }
  }

  lemma {:induction false} OnTrackFirst(messages: History, provider: Provider, tools: Tools)
    ensures OnTrack(Rounds(messages, provider, tools, 0), Handed(messages, provider, tools, 0), [], messages, provider,
                    tools, 0)
  {
    hide Rounds, Handed;
    assert [] + Handed(messages, provider, tools, 0) == Handed(messages, provider, tools, 0);
  }

  lemma {:induction false} OnTrackLast(whole: TurnResult, all: seq<History>, handed: seq<History>, messages: History,
                                       provider: Provider, tools: Tools)
    requires OnTrack(whole, all, handed, messages, provider, tools, MAX_TOOL_ROUNDS)
    ensures whole == TurnResult(messages, RoundLimit, MAX_TOOL_ROUNDS) && all == handed
  {
    assert handed + [] == handed;
  }

  lemma {:induction false} TurnIsPaired(result: GenerateResult, tools: Tools, round: nat)
    ensures WellPaired([AssistantTurn(result)] + ToolTurns(result.toolCalls, tools, round))
  {
    var turn, calls := AssistantTurn(result), result.toolCalls;
    var answers := ToolTurns(calls, tools, round);
    var h := [turn] + answers;
    forall i | 0 <= i < |calls| ensures Answers(answers[i], calls[i]) {
      assert answers[i] == ToolTurn(calls[i], tools(round, i, calls[i]));
    }
    assert h[1..1 + |calls|] == answers && h[1 + |calls|..] == [];
  }

  lemma NoCallsNoAnswers(tools: Tools, round: nat)
    ensures ToolTurns([], tools, round) == []
  {
  }

  /** One round with calls extends the history and keeps it well paired. */
  lemma {:induction false} RoundKeepsPairing(messages: History, result: GenerateResult, tools: Tools, round: nat)
    requires WellPaired(messages)
    ensures var h := messages + [AssistantTurn(result)] + ToolTurns(result.toolCalls, tools, round);
            messages <= h && WellPaired(h)
  {
    hide WellPaired, ToolTurns;
    var turn, answers := [AssistantTurn(result)], ToolTurns(result.toolCalls, tools, round);
    TurnIsPaired(result, tools, round);
    WellPairedAppend(messages, turn + answers);
    Assoc(messages, turn, answers);
  }

  lemma {:induction false} LastRoundKeepsPairing(messages: History, result: GenerateResult, tools: Tools, round: nat)
    requires WellPaired(messages) && result.toolCalls == []
    ensures WellPaired(messages + [AssistantTurn(result)])
  {
    hide WellPaired, ToolTurns;
    RoundKeepsPairing(messages, result, tools, round);
    NoCallsNoAnswers(tools, round);
    assert messages + [AssistantTurn(result)] + [] == messages + [AssistantTurn(result)];
  }

  /**
   However the model and the tools behave, and also when a model call throws, the rounds only
   extend the history, keep it well paired, and call the model at most eight times.
   */
  lemma {:induction false} RoundsKeepPairing(messages: History, provider: Provider, tools: Tools, round: nat)
    requires round <= MAX_TOOL_ROUNDS && WellPaired(messages)
    ensures var r := Rounds(messages, provider, tools, round);
            messages <= r.messages && WellPaired(r.messages) && r.modelCalls <= 8
    decreases MAX_TOOL_ROUNDS - round
  {
    hide WellPaired, ToolTurns, AssistantTurn;
    if round < MAX_TOOL_ROUNDS && provider(round, messages).Success? {
      var result := provider(round, messages).value;
      if result.toolCalls == [] {
        LastRoundKeepsPairing(messages, result, tools, round);
      } else {
        RoundKeepsPairing(messages, result, tools, round);
        var messages' := messages + [AssistantTurn(result)] + ToolTurns(result.toolCalls, tools, round);
        RoundsKeepPairing(messages', provider, tools, round + 1);
      }
    }
  }

  /** Every history the model is handed is well paired, and there is one for each call. */
  lemma {:induction false} HandedIsPaired(messages: History, provider: Provider, tools: Tools, round: nat)
    requires round <= MAX_TOOL_ROUNDS && WellPaired(messages)
    ensures forall h :: h in Handed(messages, provider, tools, round) ==> WellPaired(h) && messages <= h
    ensures |Handed(messages, provider, tools, round)| == Rounds(messages, provider, tools, round).modelCalls - round
    decreases MAX_TOOL_ROUNDS - round
  {
    hide WellPaired, ToolTurns, AssistantTurn;
    if round == MAX_TOOL_ROUNDS {
    } else if provider(round, messages).Success? && provider(round, messages).value.toolCalls != [] {
      var result := provider(round, messages).value;
      RoundKeepsPairing(messages, result, tools, round);
      var messages' := messages + [AssistantTurn(result)] + ToolTurns(result.toolCalls, tools, round);
      HandedIsPaired(messages', provider, tools, round + 1);
      assert messages <= messages';
    }
  }

  /** A turn that neither throws nor meets the limit ends with an assistant message that calls nothing. */
  lemma {:induction false} AnsweredWithoutCalls(messages: History, provider: Provider, tools: Tools, round: nat)
    requires round <= MAX_TOOL_ROUNDS && Rounds(messages, provider, tools, round).ending.Answered?
    ensures var h := Rounds(messages, provider, tools, round).messages;
            h != [] && h[|h| - 1].AssistantMessage? && h[|h| - 1].toolCalls == []
    decreases MAX_TOOL_ROUNDS - round
  {
    hide ToolTurns, Rounds;
    if round == MAX_TOOL_ROUNDS {
      NoRoundsLeft(messages, provider, tools);
      assert false;
    } else {
      RoundStep(messages, provider, tools, round);
      var result := provider(round, messages).value;
      if result.toolCalls != [] {
        var messages' := messages + [AssistantTurn(result)] + ToolTurns(result.toolCalls, tools, round);
        AnsweredWithoutCalls(messages', provider, tools, round + 1);
      }
    }
  }

  lemma NoRoundsLeft(messages: History, provider: Provider, tools: Tools)
    ensures Rounds(messages, provider, tools, MAX_TOOL_ROUNDS) == TurnResult(messages, RoundLimit, MAX_TOOL_ROUNDS)
  {
  }

  // ----- what the history holds

  /** The model's turn, as it came: its text, unless empty, and its calls. */
  ghost predicate IsTurnOf(message: ChatMessage, result: GenerateResult) {
    && message.AssistantMessage?
    && message.toolCalls == result.toolCalls
    && message.content == if result.text == "" then [] else [TextPart(result.text)]
  }

  /** A call's answer, as the tool gave it. */
  ghost predicate IsAnswerOf(message: ChatMessage, call: ToolCall, answer: ToolResult) {
    && message.ToolMessage?
    && message.toolCallId == call.id && message.toolName == call.name
    && message.content == answer.parts && message.isError == answer.isError
  }

  /** One round with calls: behind `before` stand the model's turn and the answer to each of its calls, in order. */
  ghost predicate RoundAdds(before: History, after: History, result: GenerateResult, tools: Tools, round: nat) {
    var calls := result.toolCalls;
    && |after| == |before| + 1 + |calls|
    && after[..|before|] == before
    && IsTurnOf(after[|before|], result)
    && forall i :: 0 <= i < |calls| ==> IsAnswerOf(after[|before| + 1 + i], calls[i], tools(round, i, calls[i]))
  }

  lemma {:induction false} RoundAddsAnswers(before: History, result: GenerateResult, tools: Tools, round: nat)
    ensures RoundAdds(before, before + [AssistantTurn(result)] + ToolTurns(result.toolCalls, tools, round), result,
        tools, round)
  {
    var calls := result.toolCalls;
    var answers := ToolTurns(calls, tools, round);
    var after := before + [AssistantTurn(result)] + answers;
    assert after[|before|] == AssistantTurn(result);
    forall i | 0 <= i < |calls| ensures after[|before| + 1 + i] == ToolTurn(calls[i], tools(round, i, calls[i])) {
      assert after[|before| + 1 + i] == answers[i];
    }
  }

  /** The history handed to the model next is the one handed before, the model's turn and the tools' answers. */
  lemma {:induction false} HandedGrows(messages: History, provider: Provider, tools: Tools, round: nat, k: nat)
    requires round <= MAX_TOOL_ROUNDS && k + 1 < |Handed(messages, provider, tools, round)|
    ensures var handed := Handed(messages, provider, tools, round);
            && provider(round + k, handed[k]).Success?
            && provider(round + k, handed[k]).value.toolCalls != []
            && RoundAdds(handed[k], handed[k + 1], provider(round + k, handed[k]).value, tools, round + k)
    decreases k
  {
    hide RoundAdds, AssistantTurn, ToolTurns;
    if round < MAX_TOOL_ROUNDS && provider(round, messages).Success?
      && provider(round, messages).value.toolCalls != [] {
      var result := provider(round, messages).value;
      var messages' := messages + [AssistantTurn(result)] + ToolTurns(result.toolCalls, tools, round);
      var rest := Handed(messages', provider, tools, round + 1);
      assert Handed(messages, provider, tools, round) == [messages] + rest;
      if k == 0 {
        RoundAddsAnswers(messages, result, tools, round);
        HandedStarts(messages', provider, tools, round + 1);
      } else {
        HandedGrows(messages', provider, tools, round + 1, k - 1);
      }
    }
  }

  lemma HandedStarts(messages: History, provider: Provider, tools: Tools, round: nat)
    requires round <= MAX_TOOL_ROUNDS
    ensures round < MAX_TOOL_ROUNDS ==>
              Handed(messages, provider, tools, round) != [] && Handed(messages, provider, tools, round)[0] == messages
    ensures round == MAX_TOOL_ROUNDS ==> Handed(messages, provider, tools, round) == []
  {
  }

  /** How a turn ends, and what its history holds behind the one handed last. */
  ghost predicate EndsWell(last: History, r: TurnResult, reply: Result<GenerateResult, string>, tools: Tools,
                           round: nat) {
    match r.ending
    case ModelThrew(error) => reply == Failure(error) && r.messages == last
    case Answered =>
      && reply.Success? && reply.value.toolCalls == []
      && |r.messages| == |last| + 1 && r.messages[..|last|] == last && IsTurnOf(r.messages[|last|], reply.value)
    case RoundLimit =>
      reply.Success? && reply.value.toolCalls != [] && RoundAdds(last, r.messages, reply.value, tools, round)
  }

  /**
   The history in the end is the one handed last and what came of it.  The turn stops at the first
   answer without calls, at the first error, and else after exactly eight calls of the model.
   */
  lemma {:induction false} TurnEnds(messages: History, provider: Provider, tools: Tools, round: nat)
    requires round < MAX_TOOL_ROUNDS
    ensures var (r, handed) := (Rounds(messages, provider, tools, round), Handed(messages, provider, tools, round));
            && handed != [] && handed[0] == messages && round + |handed| <= 8
            && (r.ending.RoundLimit? ==> round + |handed| == 8)
            && var last := handed[|handed| - 1];
               EndsWell(last, r, provider(round + |handed| - 1, last), tools, round + |handed| - 1)
    decreases MAX_TOOL_ROUNDS - round
  {
    hide RoundAdds, AssistantTurn, ToolTurns, Rounds, Handed, IsTurnOf;
    RoundStep(messages, provider, tools, round);
    HandedStep(messages, provider, tools, round);
    if provider(round, messages).Success? {
      var result := provider(round, messages).value;
      AssistantTurnIs(result);
      if result.toolCalls != [] {
        var messages' := messages + [AssistantTurn(result)] + ToolTurns(result.toolCalls, tools, round);
        RoundAddsAnswers(messages, result, tools, round);
        if round + 1 == MAX_TOOL_ROUNDS {
          NoRoundsLeft(messages', provider, tools);
          HandedStarts(messages', provider, tools, round + 1);
        } else {
          TurnEnds(messages', provider, tools, round + 1);
        }
      }
    }
  }

  /** What a round hands to the model, unfolded. */
  lemma HandedStep(messages: History, provider: Provider, tools: Tools, round: nat)
    requires round < MAX_TOOL_ROUNDS
    ensures provider(round, messages).Failure? ==> Handed(messages, provider, tools, round) == [messages]
    ensures provider(round, messages).Success? ==>
              var result := provider(round, messages).value;
              var asked := messages + [AssistantTurn(result)];
              Handed(messages, provider, tools, round)
                == if result.toolCalls == [] then [messages]
                   else [messages] + Handed(asked + ToolTurns(result.toolCalls, tools, round), provider, tools,
                     round + 1)
  {
  }

  lemma AssistantTurnIs(result: GenerateResult)
    ensures IsTurnOf(AssistantTurn(result), result)
  {
  }

  /** A turn's input: attachments and text as one user message, or a prompt's messages as they are. */
  lemma {:induction false} InputIs(input: Input)
    ensures match input
            case Prompt(messages) => InputMessages(input) == messages
            case Chat(userText, attachments) =>
              var h := InputMessages(input);
              && |h| == 1 && h[0].UserMessage? && |h[0].content| == |attachments| + 1
              && (forall i :: 0 <= i < |attachments| ==> h[0].content[i] == TextPart(attachments[i]))
              && h[0].content[|attachments|] == TextPart(userText)
  {
  }

  // ----- a whole session

  /** What the user can do that touches the history; a prompt's messages carry no tool calls. */
  datatype Input =
    | Chat(userText: string, attachments: seq<string>)
    | Prompt(messages: History)

  predicate IsInput(input: Input) {
    input.Prompt? ==>
      forall i :: 0 <= i < |input.messages| ==>
        var m := input.messages[i]; m.UserMessage? || (m.AssistantMessage? && m.toolCalls == [])
  }

  function InputMessages(input: Input): History {
    match input
    case Chat(userText, attachments) =>
      [UserMessage(seq(|attachments|, i requires 0 <= i < |attachments| => TextPart(attachments[i]))
        + [TextPart(userText)])]
    case Prompt(messages) => messages
  }

  lemma {:induction false} CallFreeIsPaired(h: History)
    requires forall i :: 0 <= i < |h| ==> h[i].UserMessage? || (h[i].AssistantMessage? && h[i].toolCalls == [])
    ensures WellPaired(h)
  {
    if h == [] {
    } else {
      CallFreeIsPaired(h[1..]);
    }
  }

  /** One input, with the model and the tools it happens to meet. */
  datatype Turn = Turn(input: Input, provider: Provider, tools: Tools)

  function AfterTurn(messages: History, turn: Turn): TurnResult {
    Rounds(messages + InputMessages(turn.input), turn.provider, turn.tools, 0)
  }

  /** A session: a turn whose model call throws leaves its history, and the next turn goes on from it. */
  function AfterSession(turns: seq<Turn>): History
    decreases |turns|
  {
    if turns == [] then []
    else AfterTurn(AfterSession(turns[..|turns| - 1]), turns[|turns| - 1]).messages
  }

  lemma {:induction false} TurnKeepsPairing(messages: History, turn: Turn)
    requires WellPaired(messages) && IsInput(turn.input)
    ensures WellPaired(AfterTurn(messages, turn).messages)
  {
    InputIsPaired(turn.input);
    WellPairedAppend(messages, InputMessages(turn.input));
    RoundsKeepPairing(messages + InputMessages(turn.input), turn.provider, turn.tools, 0);
  }

  /** The history of every session is well paired. */
  lemma {:induction false} SessionIsWellPaired(turns: seq<Turn>)
    requires forall i :: 0 <= i < |turns| ==> IsInput(turns[i].input)
    ensures WellPaired(AfterSession(turns))
    decreases |turns|
  {
    if turns == [] {
    } else {
      SessionIsWellPaired(turns[..|turns| - 1]);
      TurnKeepsPairing(AfterSession(turns[..|turns| - 1]), turns[|turns| - 1]);
    }
  }

  /** Whatever happened before, every history a turn hands to the model is well paired. */
  lemma {:induction false} SessionHandsPaired(turns: seq<Turn>, turn: Turn)
    requires (forall i :: 0 <= i < |turns| ==> IsInput(turns[i].input)) && IsInput(turn.input)
    ensures forall h :: h in HandedIn(turns, turn) ==> WellPaired(h)
  {
    hide WellPaired, Handed, AfterSession;
    var before, input := AfterSession(turns), InputMessages(turn.input);
    SessionIsWellPaired(turns);
    InputIsPaired(turn.input);
    WellPairedAppend(before, input);
    HandedIsPaired(before + input, turn.provider, turn.tools, 0);
  }

  /** The histories handed to the model in a turn that follows a session. */
  function HandedIn(turns: seq<Turn>, turn: Turn): seq<History> {
    Handed(AfterSession(turns) + InputMessages(turn.input), turn.provider, turn.tools, 0)
  }

  /**
   A session goes on: the first history a turn hands to the model is what the turns before it left,
   with the input behind it, and what the turn leaves is the history handed last and what came of it.
  */
  lemma {:induction false} SessionGoesOn(turns: seq<Turn>, turn: Turn)
    ensures AfterSession([]) == []
    ensures var handed := HandedIn(turns, turn);
            && handed != [] && handed[0] == AfterSession(turns) + InputMessages(turn.input)
            && var (last, r) := (handed[|handed| - 1], AfterTurn(AfterSession(turns), turn));
               && AfterSession(turns + [turn]) == r.messages
               && EndsWell(last, r, turn.provider(|handed| - 1, last), turn.tools, |handed| - 1)
  {
    hide Handed, Rounds, EndsWell, InputMessages;
    assert (turns + [turn])[..|turns|] == turns;
    TurnEnds(AfterSession(turns) + InputMessages(turn.input), turn.provider, turn.tools, 0);
  }

  lemma {:induction false} InputIsPaired(input: Input)
    requires IsInput(input)
    ensures WellPaired(InputMessages(input))
  {
    CallFreeIsPaired(InputMessages(input));
  }

  /** The model shown is that of the last of the first `n` calls, all of which it answered, or the one shown before. */
  ghost predicate ShowsModel(shown: Option<string>, before: Option<string>, provider: Provider, handed: seq<History>,
                             n: int)
  {
    && 0 <= n <= |handed|
    && if n == 0 then shown == before
       else provider(n - 1, handed[n - 1]).Success? && shown == Some(provider(n - 1, handed[n - 1]).value.model)
  }

  // ----- the loop as the code runs it

  class ChatSession {
    var messages: History
    var announcedModel: Option<string>

    constructor ()
      ensures messages == [] && announcedModel == None
    {
      messages, announcedModel := [], None;
    }

    /** `handed` are the histories the model was called with. */
    method RunModelRounds(provider: Provider, tools: Tools)
      returns (ending: Ending, modelCalls: nat, ghost handed: seq<History>)
      requires WellPaired(messages)
      modifies this
      ensures TurnResult(messages, ending, modelCalls) == Rounds(old(messages), provider, tools, 0)
      ensures WellPaired(messages) && old(messages) <= messages && modelCalls <= MAX_TOOL_ROUNDS
      ensures handed == Handed(old(messages), provider, tools, 0) && |handed| == modelCalls
      ensures ShowsModel(announcedModel, old(announcedModel), provider, handed,
                         if ending.ModelThrew? then modelCalls - 1 else modelCalls)
    {
      hide WellPaired, ToolTurns, Rounds, Handed, OnTrack;
      RoundsKeepPairing(messages, provider, tools, 0);
      ghost var whole := Rounds(messages, provider, tools, 0);
      ghost var all := Handed(messages, provider, tools, 0);
      handed := [];
      OnTrackFirst(messages, provider, tools);
      modelCalls := 0;
      var round := 0;
      while round < MAX_TOOL_ROUNDS
        invariant 0 <= round <= MAX_TOOL_ROUNDS && modelCalls == round == |handed|
        invariant ShowsModel(announcedModel, old(announcedModel), provider, handed, round)
        invariant OnTrack(whole, all, handed, messages, provider, tools, round)
      {
        OnTrackStep(whole, all, handed, messages, provider, tools, round);
        var generated := provider(round, messages);
        modelCalls := modelCalls + 1;
        handed := handed + [messages];
        if generated.Failure? {
          return ModelThrew(generated.error), modelCalls, handed;
        }
        var result := generated.value;
        var content := if result.text == "" then [] else [TextPart(result.text)];
        messages := messages + [AssistantMessage(content, result.toolCalls)];
        if Some(result.model) != announcedModel {
          announcedModel := Some(result.model);
        }
        if |result.toolCalls| == 0 {
          return Answered, modelCalls, handed;
        }
        RunToolCalls(result.toolCalls, tools, round);
        round := round + 1;
      }
      OnTrackLast(whole, all, handed, messages, provider, tools);
      ending := RoundLimit;
    }

    method RunToolCalls(calls: seq<ToolCall>, tools: Tools, round: nat)
      modifies this`messages
      ensures messages == old(messages) + ToolTurns(calls, tools, round)
      ensures forall i :: 0 <= i < |calls| ==>
                IsAnswerOf(messages[|old(messages)| + i], calls[i], tools(round, i, calls[i]))
    {
      for i := 0 to |calls|
        invariant messages == old(messages) + ToolTurns(calls, tools, round)[..i]
      {
        var call := calls[i];
        var outcome := tools(round, i, call);
        messages := messages + [ToolMessage(call.id, call.name, outcome.parts, outcome.isError)];
      }
      forall i | 0 <= i < |calls|
        ensures messages[|old(messages)| + i] == ToolTurn(calls[i], tools(round, i, calls[i]))
      {
        assert messages[|old(messages)| + i] == ToolTurns(calls, tools, round)[i];
      }
    }

    method RunConversationTurn(userText: string, attachments: seq<string>, provider: Provider, tools: Tools)
      returns (ending: Ending, modelCalls: nat, ghost handed: seq<History>)
      requires WellPaired(messages)
      modifies this
      ensures TurnResult(messages, ending, modelCalls)
           == AfterTurn(old(messages), Turn(Chat(userText, attachments), provider, tools))
      ensures WellPaired(messages) && modelCalls <= MAX_TOOL_ROUNDS
      ensures forall h :: h in handed ==> WellPaired(h)
      ensures ShowsModel(announcedModel, old(announcedModel), provider, handed,
                         if ending.ModelThrew? then modelCalls - 1 else modelCalls)
    {
      hide WellPaired, Rounds, Handed;
      var content := seq(|attachments|, i requires 0 <= i < |attachments| => TextPart(attachments[i]))
        + [TextPart(userText)];
      CallFreeIsPaired([UserMessage(content)]);
      WellPairedAppend(messages, [UserMessage(content)]);
      messages := messages + [UserMessage(content)];
      HandedIsPaired(messages, provider, tools, 0);
      ending, modelCalls, handed := RunModelRounds(provider, tools);
    }
  }
}
