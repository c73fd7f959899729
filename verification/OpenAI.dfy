/** The messages of a Chat Completions request, and what the three encodings have in common. */
module OpenAI {
  import opened Wrappers
  import opened Text
  import opened Seqs
  import opened Conversation
  import TurnEncoding
  import Anthropic
  import Gemini

  datatype Message =
    | System(text: string)
    | User(parts: seq<ContentPart>)
    | Assistant(content: Option<string>, toolCalls: seq<ToolCall>)
    | Tool(toolCallId: string, result: string)

  const ERROR_MARK: string := "[tool error] "

  function Marked(text: string, isError: bool): string {
    if isError then ERROR_MARK + text else text
  }

  function ToolText(content: seq<ContentPart>, isError: bool): string {
    Marked(PartsToText(content), isError)
  }

  /** The message a history message becomes; an assistant turn without text and calls is dropped. */
  function Convert(message: ChatMessage): seq<Message> {
    match message
    case ToolMessage(id, _, content, isError) => [Tool(id, ToolText(content, isError))]
    case AssistantMessage(content, calls) =>
      var text := PartsToText(content);
      if text == "" && calls == [] then []
      else [Assistant(if text == "" then None else Some(text), calls)]
    case UserMessage(content) => [User(content)]
  }

  function ConvertAll(h: History): seq<Message> {
    if h == [] then [] else Convert(h[0]) + ConvertAll(h[1..])
  }

  /** A request: the system prompt unless empty, then the history. */
  function EncodeOpenAI(system: string, h: History): seq<Message> {
    (if system == "" then [] else [System(system)]) + ConvertAll(h)
  }

  lemma {:induction false} ConvertAppend(a: History, b: History)
    ensures ConvertAll(a + b) == ConvertAll(a) + ConvertAll(b)
  {
    hide Convert;
    if a == [] {
      assert a + b == b;
    } else {
      assert (a + b)[1..] == a[1..] + b;
      ConvertAppend(a[1..], b);
    }
  }

  lemma {:induction false} ConvertOne(message: ChatMessage)
    ensures ConvertAll([message]) == Convert(message)
  {
    assert [message][1..] == [];
  }

  lemma {:induction false} EncodeOneMore(system: string, h: History, i: nat)
    requires i < |h|
    ensures EncodeOpenAI(system, h[..i + 1]) == EncodeOpenAI(system, h[..i]) + Convert(h[i])
  {
    hide Convert;
    assert h[..i + 1] == h[..i] + [h[i]];
    ConvertAppend(h[..i], [h[i]]);
    ConvertOne(h[i]);
  }

  method ToOpenAIRequest(system: string, request: History) returns (messages: seq<Message>)
    ensures messages == EncodeOpenAI(system, request)
  {
    messages := [];
    if system != "" {
      messages := messages + [System(system)];
    }
    assert messages == EncodeOpenAI(system, request[..0]);
    for i := 0 to |request|
      invariant messages == EncodeOpenAI(system, request[..i])
    {
      hide EncodeOpenAI, ConvertAll, PartsToText;
      var message := request[i];
      EncodeOneMore(system, request, i);
      match message
      case ToolMessage(id, _, content, isError) =>
        var text := PartsToText(content);
        messages := messages + [Tool(id, if isError then ERROR_MARK + text else text)];
      case AssistantMessage(content, toolCalls) =>
        var text := PartsToText(content);
        if text == "" && |toolCalls| == 0 {
          continue;
        }
        messages := messages + [Assistant(if text == "" then None else Some(text), toolCalls)];
      case UserMessage(content) =>
        messages := messages + [User(content)];
    }
    assert request[..|request|] == request;
  }

  // ----- one message each

  predicate IsEmptyTurn(message: ChatMessage) {
    message.AssistantMessage? && PartsToText(message.content) == "" && message.toolCalls == []
  }

  /** The history without its empty assistant turns. */
  function Kept(h: History): History {
    if h == [] then [] else (if IsEmptyTurn(h[0]) then [] else [h[0]]) + Kept(h[1..])
  }

  /** `sent` speaks in the role of `message` and says the same; an assistant without text sends no content. */
  predicate Carries(sent: Message, message: ChatMessage) {
    match message
    case UserMessage(content) => sent.User? && sent.parts == content
    case AssistantMessage(content, calls) =>
      && sent.Assistant? && sent.toolCalls == calls
      && (sent.content.None? <==> PartsToText(content) == "")
      && (sent.content.Some? ==> sent.content.value == PartsToText(content))
    case ToolMessage(id, _, content, isError) =>
      && sent.Tool? && sent.toolCallId == id
      && sent.result == (if isError then "[tool error] " else "") + PartsToText(content)
  }

  ghost predicate CarryAll(sent: seq<Message>, h: History) {
    |sent| == |h| && forall i :: 0 <= i < |h| ==> Carries(sent[i], h[i])
  }

  lemma {:induction false} CarryOneMore(sent: seq<Message>, h: History, message: Message, m: ChatMessage)
    requires CarryAll(sent, h) && Carries(message, m)
    ensures CarryAll([message] + sent, [m] + h)
  {
    hide Carries;
    forall i | 0 < i < 1 + |h| ensures Carries(([message] + sent)[i], ([m] + h)[i]) {
      assert Carries(sent[i - 1], h[i - 1]);
    }
  }

  lemma CarryNone()
    ensures CarryAll([], [])
  {
  }

  lemma {:induction false} ConvertIsOneToOne(h: History)
    ensures CarryAll(ConvertAll(h), Kept(h))
  {
    hide Carries, CarryAll, IsEmptyTurn, Convert;
    if h == [] {
      CarryNone();
    } else {
      var (sent, kept) := (ConvertAll(h[1..]), Kept(h[1..]));
      ConvertCarries(h[0]);
      ConvertIsOneToOne(h[1..]);
      if IsEmptyTurn(h[0]) {
        assert [] + sent == sent && [] + kept == kept;
      } else {
        var message := Convert(h[0])[0];
        assert Convert(h[0]) == [message];
        CarryOneMore(sent, kept, message, h[0]);
      }
    }
  }

  lemma {:induction false} ConvertCarries(message: ChatMessage)
    ensures if IsEmptyTurn(message) then Convert(message) == []
            else |Convert(message)| == 1 && Carries(Convert(message)[0], message)
  {
    hide PartsToText;
  }

  /** After the system prompt the request holds one message for each turn that is not empty, in order. */
  lemma {:induction false} RequestIsOneToOne(system: string, h: History)
    ensures var (messages, head) := (EncodeOpenAI(system, h), if system == "" then 0 else 1);
            && |messages| == head + |Kept(h)|
            && (head == 1 ==> messages[0] == System(system))
            && forall i :: 0 <= i < |Kept(h)| ==> Carries(messages[head + i], Kept(h)[i])
  {
    hide Carries, IsEmptyTurn, Convert;
    ConvertIsOneToOne(h);
  }

  // ----- reading calls and results back

  /** A call or a result as this API carries it. */
  datatype Event =
    | Called(id: string, name: string, arguments: Arguments)
    | Answered(id: string, content: string)

  function EventsOf<E>(message: Message, ofCall: ToolCall -> E, ofTool: (string, string) -> E): seq<E> {
    match message
    case Assistant(_, calls) => seq(|calls|, i requires 0 <= i < |calls| => ofCall(calls[i]))
    case Tool(id, content) => [ofTool(id, content)]
    case _ => []
  }

  function ReadEvents<E>(messages: seq<Message>, ofCall: ToolCall -> E, ofTool: (string, string) -> E): seq<E> {
    if messages == [] then []
    else ReadEvents(messages[..|messages| - 1], ofCall, ofTool) + EventsOf(messages[|messages| - 1], ofCall, ofTool)
  }

  lemma {:induction false} ReadAppend<E>(a: seq<Message>, b: seq<Message>, ofCall: ToolCall -> E,
                                         ofTool: (string, string) -> E)
    ensures ReadEvents(a + b, ofCall, ofTool) == ReadEvents(a, ofCall, ofTool) + ReadEvents(b, ofCall, ofTool)
  {
    hide EventsOf;
    if b == [] {
      assert a + b == a;
    } else {
      var init := b[..|b| - 1];
      assert (a + b)[..|a + b| - 1] == a + init;
      ReadAppend(a, init, ofCall, ofTool);
    }
  }

  lemma {:induction false} ReadConvert<E>(message: ChatMessage, ofCall: ToolCall -> E, ofTool: (string, string) -> E,
                                          ofResult: ChatMessage -> E)
    requires message.ToolMessage? ==>
               ofResult(message) == ofTool(message.toolCallId, ToolText(message.content, message.isError))
    ensures ReadEvents(Convert(message), ofCall, ofTool) == TurnEncoding.Events([message], ofCall, ofResult)
  {
    hide PartsToText, ToolText;
    assert [message][..0] == [];
    var converted := Convert(message);
    if converted != [] {
      assert converted[..0] == [];
      assert ReadEvents(converted, ofCall, ofTool) == EventsOf(converted[0], ofCall, ofTool);
    }
  }

  /** Reading the calls and results back out of a request gives the history's own. */
  lemma {:induction false} EncodingKeepsEvents<E>(system: string, h: History, ofCall: ToolCall -> E,
                                                  ofTool: (string, string) -> E, ofResult: ChatMessage -> E)
    requires forall m: ChatMessage :: m.ToolMessage? ==>
               ofResult(m) == ofTool(m.toolCallId, ToolText(m.content, m.isError))
    ensures ReadEvents(EncodeOpenAI(system, h), ofCall, ofTool) == TurnEncoding.Events(h, ofCall, ofResult)
  {
    hide Convert, ToolText;
    if h == [] {
      SystemSaysNothing(system, ofCall, ofTool);
    } else {
      var init, last := h[..|h| - 1], h[|h| - 1];
      assert h == init + [last];
      EncodingKeepsEvents(system, init, ofCall, ofTool, ofResult);
      ConvertAppend(init, [last]);
      ConvertOne(last);
      Assoc(if system == "" then [] else [System(system)], ConvertAll(init), Convert(last));
      ReadAppend(EncodeOpenAI(system, init), Convert(last), ofCall, ofTool);
      ReadConvert(last, ofCall, ofTool, ofResult);
      TurnEncoding.EventsSnoc(init, last, ofCall, ofResult);
    }
  }

  lemma {:induction false} SystemSaysNothing<E>(system: string, ofCall: ToolCall -> E, ofTool: (string, string) -> E)
    ensures ReadEvents(EncodeOpenAI(system, []), ofCall, ofTool) == []
  {
    assert [System(system)][..0] == [];
  }

  function OfCall(call: ToolCall): Event {
    Called(call.id, call.name, call.arguments)
  }

  function OfTool(id: string, content: string): Event {
    Event.Answered(id, content)
  }

  function OfResult(message: ChatMessage): Event {
    if message.ToolMessage? then Event.Answered(message.toolCallId, ToolText(message.content, message.isError))
    else Event.Answered("", "")
  }

  lemma {:induction false} RequestKeepsEvents(system: string, h: History)
    ensures ReadEvents(EncodeOpenAI(system, h), OfCall, OfTool) == TurnEncoding.Events(h, OfCall, OfResult)
  {
    EncodingKeepsEvents(system, h, OfCall, OfTool, OfResult);
  }

  /** The error mark tells failures from successes exactly when no success text starts with it. */
  lemma {:induction false} ErrorIsReadableIff(content: seq<ContentPart>, isError: bool)
    ensures (StartsWith(ToolText(content, isError), ERROR_MARK) <==> isError)
       <==> (isError || !StartsWith(PartsToText(content), ERROR_MARK))
  {
    hide PartsToText;
  }

  // ----- calls are answered at once

  /** Every assistant message with calls is followed at once by one tool message a call, ids in order. */
  ghost predicate AllAnswered(messages: seq<Message>) {
    forall k :: 0 <= k < |messages| && messages[k].Assistant? ==> AnsweredAt(messages, k)
  }

  ghost predicate AnsweredAt(messages: seq<Message>, k: nat)
    requires k < |messages| && messages[k].Assistant?
  {
    var calls := messages[k].toolCalls;
    k + |calls| < |messages| && ToolsAnswer(messages[k + 1..k + 1 + |calls|], calls)
  }

  ghost predicate ToolsAnswer(tools: seq<Message>, calls: seq<ToolCall>) {
    && |tools| == |calls|
    && forall i :: 0 <= i < |calls| ==> tools[i].Tool? && tools[i].toolCallId == calls[i].id
  }

  /** A stretch behind position `k` stays what it is when something is put in front or behind. */
  lemma SliceOfConcat<T>(a: seq<T>, b: seq<T>, k: nat, n: nat)
    ensures k + 1 + n <= |a| ==> (a + b)[k + 1..k + 1 + n] == a[k + 1..k + 1 + n]
    ensures k + 1 + n <= |b| ==> (a + b)[|a| + k + 1..|a| + k + 1 + n] == b[k + 1..k + 1 + n]
  {
  }

  lemma {:induction false} AnsweredInFront(a: seq<Message>, b: seq<Message>, k: nat)
    requires k < |a| && a[k].Assistant? && AnsweredAt(a, k)
    ensures AnsweredAt(a + b, k)
  {
    hide ToolsAnswer;
    SliceOfConcat(a, b, k, |a[k].toolCalls|);
  }

  lemma {:induction false} AnsweredBehind(a: seq<Message>, b: seq<Message>, k: nat)
    requires k < |b| && b[k].Assistant? && AnsweredAt(b, k)
    ensures AnsweredAt(a + b, |a| + k)
  {
    hide ToolsAnswer;
    SliceOfConcat(a, b, k, |b[k].toolCalls|);
  }

  lemma {:induction false} AnsweredAppend(a: seq<Message>, b: seq<Message>)
    requires AllAnswered(a) && AllAnswered(b)
    ensures AllAnswered(a + b)
  {
    hide AnsweredAt;
    forall k | 0 <= k < |a + b| && (a + b)[k].Assistant? ensures AnsweredAt(a + b, k) {
      if k < |a| {
        AnsweredInFront(a, b, k);
      } else {
        AnsweredBehind(a, b, k - |a|);
      }
    }
  }

  lemma {:induction false} ConvertTools(answers: History)
    requires forall i :: 0 <= i < |answers| ==> answers[i].ToolMessage?
    ensures |ConvertAll(answers)| == |answers|
    ensures forall i :: 0 <= i < |answers| ==>
              ConvertAll(answers)[i].Tool? && ConvertAll(answers)[i].toolCallId == answers[i].toolCallId
  {
    if answers == [] {
    } else {
      ConvertTools(answers[1..]);
    }
  }

  lemma {:induction false} ExchangeIsAnswered(message: ChatMessage, answers: History)
    requires !message.ToolMessage? && AnswersAll(answers, TurnEncoding.CallsOf(message))
    ensures AllAnswered(Convert(message) + ConvertAll(answers))
  {
    hide PartsToText;
    forall i | 0 <= i < |answers|
      ensures answers[i].ToolMessage? && answers[i].toolCallId == TurnEncoding.CallsOf(message)[i].id
    {
      assert Answers(answers[i], TurnEncoding.CallsOf(message)[i]);
    }
    ConvertTools(answers);
    var messages := Convert(message) + ConvertAll(answers);
    forall k | 0 <= k < |messages| && messages[k].Assistant? ensures AnsweredAt(messages, k) {
      assert k == 0;
      assert messages[1..1 + |answers|] == ConvertAll(answers);
    }
  }

  lemma {:induction false} HistoryIsAnswered(h: History)
    requires WellPaired(h)
    ensures AllAnswered(ConvertAll(h))
    decreases |h|
  {
    hide Convert, AllAnswered, AnswersAll;
    if h == [] {
      NothingIsAnswered();
    } else {
      var n := 1 + |TurnEncoding.CallsOf(h[0])|;
      var answers := h[1..n];
      assert h == ([h[0]] + answers) + h[n..];
      ConvertAppend([h[0]] + answers, h[n..]);
      ConvertAppend([h[0]], answers);
      ConvertOne(h[0]);
      if !h[0].AssistantMessage? {
        NoAnswers(h[0]);
      }
      ExchangeIsAnswered(h[0], answers);
      HistoryIsAnswered(h[n..]);
      AnsweredAppend(Convert(h[0]) + ConvertAll(answers), ConvertAll(h[n..]));
    }
  }

  lemma NothingIsAnswered()
    ensures AllAnswered([])
  {
  }

  lemma NoAnswers(message: ChatMessage)
    requires !message.AssistantMessage?
    ensures AnswersAll([], TurnEncoding.CallsOf(message))
  {
  }

  /** In the request of a session every call is answered by the tool messages right behind it. */
  lemma {:induction false} RequestAnswersCalls(system: string, h: History)
    requires WellPaired(h)
    ensures AllAnswered(EncodeOpenAI(system, h))
  {
    hide Convert;
    HistoryIsAnswered(h);
    AnsweredAppend(if system == "" then [] else [System(system)], ConvertAll(h));
  }

  // ----- failures in a whole request

  ghost predicate SameResults<E>(h: History, f: ChatMessage -> E, g: ChatMessage -> E) {
    forall i :: 0 <= i < |h| && h[i].ToolMessage? ==> f(h[i]) == g(h[i])
  }

  /** Two readings of the results agree on a history exactly when they agree on each of its results. */
  lemma {:induction false} EventsAgreeIff<E>(h: History, ofCall: ToolCall -> E, f: ChatMessage -> E,
                                             g: ChatMessage -> E)
    ensures |TurnEncoding.Events(h, ofCall, f)| == |TurnEncoding.Events(h, ofCall, g)|
    ensures TurnEncoding.Events(h, ofCall, f) == TurnEncoding.Events(h, ofCall, g) <==> SameResults(h, f, g)
  {
    if h == [] {
    } else {
      var (init, last) := (h[..|h| - 1], h[|h| - 1]);
      EventsAgreeIff(init, ofCall, f, g);
      assert h == init + [last];
      TurnEncoding.EventsSnoc(init, last, ofCall, f);
      TurnEncoding.EventsSnoc(init, last, ofCall, g);
      LastEvents(last, ofCall, f, g);
      SameEnds(TurnEncoding.Events(init, ofCall, f), TurnEncoding.Events([last], ofCall, f),
               TurnEncoding.Events(init, ofCall, g), TurnEncoding.Events([last], ofCall, g));
    }
  }

  lemma {:induction false} LastEvents<E>(last: ChatMessage, ofCall: ToolCall -> E, f: ChatMessage -> E,
                                         g: ChatMessage -> E)
    ensures |TurnEncoding.Events([last], ofCall, f)| == |TurnEncoding.Events([last], ofCall, g)|
    ensures TurnEncoding.Events([last], ofCall, f) == TurnEncoding.Events([last], ofCall, g)
       <==> (last.ToolMessage? ==> f(last) == g(last))
  {
    assert [last][..0] == [];
    if last.ToolMessage? {
      assert TurnEncoding.Events([last], ofCall, f) == [f(last)];
      assert TurnEncoding.Events([last], ofCall, g) == [g(last)];
    }
  }

  lemma {:induction false} SameEnds<E>(a: seq<E>, b: seq<E>, a': seq<E>, b': seq<E>)
    requires |a| == |a'|
    ensures a + b == a' + b' <==> a == a' && b == b'
  {
    CutConcat(a, b, 0);
    CutConcat(a', b', 0);
  }

  /** A tool message read as a failure or a success; calls are not looked at. */
  function MarkOf(id: string, content: string): Option<bool> {
    Some(StartsWith(content, ERROR_MARK))
  }

  function NotAResult(call: ToolCall): Option<bool> {
    None
  }

  function MarkedOf(message: ChatMessage): Option<bool> {
    Some(message.ToolMessage? && StartsWith(ToolText(message.content, message.isError), ERROR_MARK))
  }

  function FlagOf(message: ChatMessage): Option<bool> {
    Some(message.ToolMessage? && message.isError)
  }

  /** No result that succeeded has a text that starts with the mark. */
  ghost predicate NoSuccessIsMarked(h: History) {
    forall i :: 0 <= i < |h| && h[i].ToolMessage? && !h[i].isError ==>
      !StartsWith(PartsToText(h[i].content), ERROR_MARK)
  }

  /**
   The error flags of a history can be read back out of its request exactly when no success text
   starts with the mark.
  */
  lemma {:induction false} FlagsAreReadableIff(system: string, h: History)
    ensures ReadEvents(EncodeOpenAI(system, h), NotAResult, MarkOf) == TurnEncoding.Events(h, NotAResult, FlagOf)
       <==> NoSuccessIsMarked(h)
  {
    hide ReadEvents, EncodeOpenAI, TurnEncoding.Events, PartsToText, ToolText;
    EncodingKeepsEvents(system, h, NotAResult, MarkOf, MarkedOf);
    EventsAgreeIff(h, NotAResult, MarkedOf, FlagOf);
    forall i | 0 <= i < |h| && h[i].ToolMessage?
      ensures MarkedOf(h[i]) == FlagOf(h[i]) <==> (h[i].isError || !StartsWith(PartsToText(h[i].content), ERROR_MARK))
    {
      ErrorIsReadableIff(h[i].content, h[i].isError);
    }
  }

  // ----- the three encodings agree

  /** What the requests carry alike: the calls, and the texts of the results with failures marked. */
  datatype Common = Call(name: string, arguments: Arguments) | Result(text: string)

  function CommonCall(call: ToolCall): Common {
    Call(call.name, call.arguments)
  }

  function CommonResult(message: ChatMessage): Common {
    Result(if message.ToolMessage? then ToolText(message.content, message.isError) else "")
  }

  function CommonTool(id: string, content: string): Common {
    Result(content)
  }

  /** A block of an Anthropic result as text, an image as its placeholder. */
  function BlockText(block: Anthropic.Block): string {
    match block
    case TextBlock(text) => text
    case ImageBlock(mediaType, _) => "[image: " + mediaType + "]"
    case _ => ""
  }

  function BlocksToText(blocks: seq<Anthropic.Block>): string {
    Join(seq(|blocks|, i requires 0 <= i < |blocks| => BlockText(blocks[i])), NL)
  }

  function CommonOfBlock(block: Anthropic.Block): Option<Common> {
    match block
    case ToolUse(_, name, input) => Some(Call(name, input))
    case ToolResultBlock(_, isError, content) => Some(Result(Marked(BlocksToText(content), isError)))
    case _ => None
  }

  function CommonOfPart(part: Gemini.Part): Option<Common> {
    match part
    case FunctionCall(name, args) => Some(Call(name, args))
    case FunctionResponse(_, content, isError) => Some(Result(Marked(content, isError)))
    case _ => None
  }

  /** The result as the Anthropic request shows it. */
  function AnthropicResult(message: ChatMessage): Common {
    if message.ToolMessage? then
      Result(Marked(BlocksToText(Anthropic.PartsToBlocks(message.content)), message.isError))
    else Result("")
  }

  /** No part is an image that the Anthropic API does not take. */
  ghost predicate NothingOmitted(parts: seq<ContentPart>) {
    forall i :: 0 <= i < |parts| && parts[i].ImagePart? ==> Anthropic.IsSupportedImage(parts[i].mimeType)
  }

  lemma {:induction false} BlockTextOf(part: ContentPart)
    ensures |BlockText(Anthropic.PartToBlock(part))| >= |PartText(part)|
    ensures part.ImagePart? && !Anthropic.IsSupportedImage(part.mimeType) ==>
              |BlockText(Anthropic.PartToBlock(part))| > |PartText(part)|
    ensures part.TextPart? || Anthropic.IsSupportedImage(part.mimeType) ==>
              BlockText(Anthropic.PartToBlock(part)) == PartText(part)
  {
    hide Anthropic.IsSupportedImage;
  }

  lemma {:induction false} TextsCons(parts: seq<ContentPart>)
    requires |parts| > 1
    ensures PartsToText(parts) == PartText(parts[0]) + [NL] + PartsToText(parts[1..])
    ensures BlocksToText(Anthropic.PartsToBlocks(parts))
         == BlockText(Anthropic.PartToBlock(parts[0])) + [NL] + BlocksToText(Anthropic.PartsToBlocks(parts[1..]))
  {
    var rest := parts[1..];
    var texts := seq(|parts|, i requires 0 <= i < |parts| => PartText(parts[i]));
    assert texts[1..] == seq(|rest|, i requires 0 <= i < |rest| => PartText(rest[i]));
    var (blocks, blocks') := (Anthropic.PartsToBlocks(parts), Anthropic.PartsToBlocks(rest));
    var texts' := seq(|blocks|, i requires 0 <= i < |blocks| => BlockText(blocks[i]));
    assert texts'[1..] == seq(|blocks'|, i requires 0 <= i < |blocks'| => BlockText(blocks'[i]));
  }

  lemma TextsOfOne(part: ContentPart)
    ensures PartsToText([part]) == PartText(part)
    ensures BlocksToText(Anthropic.PartsToBlocks([part])) == BlockText(Anthropic.PartToBlock(part))
  {
  }

  lemma {:induction false} NothingOmittedCons(parts: seq<ContentPart>)
    requires parts != []
    ensures NothingOmitted(parts) <==>
              (parts[0].TextPart? || Anthropic.IsSupportedImage(parts[0].mimeType)) && NothingOmitted(parts[1..])
  {
    hide Anthropic.IsSupportedImage;
    forall i | 0 < i < |parts| ensures parts[i] == parts[1..][i - 1] {
    }
  }

  lemma {:induction false} SameTextIff(parts: seq<ContentPart>)
    ensures |BlocksToText(Anthropic.PartsToBlocks(parts))| >= |PartsToText(parts)|
    ensures NothingOmitted(parts) ==> BlocksToText(Anthropic.PartsToBlocks(parts)) == PartsToText(parts)
    ensures !NothingOmitted(parts) ==> |BlocksToText(Anthropic.PartsToBlocks(parts))| > |PartsToText(parts)|
  {
    hide BlockText, PartText, Anthropic.PartToBlock, Anthropic.IsSupportedImage, NothingOmitted;
    if parts != [] {
      hide BlocksToText, PartsToText;
      BlockTextOf(parts[0]);
      NothingOmittedCons(parts);
      if |parts| == 1 {
        assert parts == [parts[0]];
        TextsOfOne(parts[0]);
        OmittedFromNone(parts[1..]);
      } else {
        TextsCons(parts);
        SameTextIff(parts[1..]);
      }
    } else {
      OmittedFromNone(parts);
    }
  }

  lemma OmittedFromNone(parts: seq<ContentPart>)
    requires parts == []
    ensures NothingOmitted(parts)
  {
  }

  /** No tool result of the history carries an image that the Anthropic request leaves out. */
  ghost predicate NoneOmitted(h: History) {
    forall i :: 0 <= i < |h| && h[i].ToolMessage? ==> NothingOmitted(h[i].content)
  }

  lemma {:induction false} AnthropicResultsIff(h: History)
    ensures SameResults(h, AnthropicResult, CommonResult) <==> NoneOmitted(h)
  {
    hide AnthropicResult, CommonResult, NothingOmitted;
    forall i | 0 <= i < |h| && h[i].ToolMessage?
      ensures AnthropicResult(h[i]) == CommonResult(h[i]) <==> NothingOmitted(h[i].content)
    {
      AnthropicResultIff(h[i]);
    }
  }

  lemma {:induction false} AnthropicResultIff(message: ChatMessage)
    requires message.ToolMessage?
    ensures AnthropicResult(message) == CommonResult(message) <==> NothingOmitted(message.content)
  {
    hide BlocksToText, PartsToText, NothingOmitted, Marked, Anthropic.PartsToBlocks;
    var (shown, text) := (BlocksToText(Anthropic.PartsToBlocks(message.content)), PartsToText(message.content));
    SameTextIff(message.content);
    MarkedKeeps(shown, text, message.isError);
  }

  /** The mark hides no difference. */
  lemma {:induction false} MarkedKeeps(a: string, b: string, isError: bool)
    ensures Marked(a, isError) == Marked(b, isError) <==> a == b
  {
    CutConcat(ERROR_MARK, a, 0);
    CutConcat(ERROR_MARK, b, 0);
  }

  /**
   For every history the requests carry the same calls and results in the same order, although
   each drops different empty messages and groups results differently.  The OpenAI and the Gemini
   request always give the results the same text; the Anthropic request does so exactly when no
   result holds an image of a type that its API does not take.
   */
  lemma {:induction false} EncodingsAgree(system: string, h: History)
    ensures var common := TurnEncoding.Events(h, CommonCall, CommonResult);
            var anthropic := TurnEncoding.Read(TurnEncoding.Spoken(Anthropic.EncodeAnthropic(h)), CommonOfBlock);
            && ReadEvents(EncodeOpenAI(system, h), CommonCall, CommonTool) == common
            && TurnEncoding.Read(TurnEncoding.Spoken(Gemini.EncodeGemini(h)), CommonOfPart) == common
            && |anthropic| == |common|
            && (anthropic == common <==> NoneOmitted(h))
  {
    hide ReadEvents, EncodeOpenAI, TurnEncoding.Encode, TurnEncoding.Spoken, TurnEncoding.Read, TurnEncoding.Events,
      PartsToText, NoneOmitted, SameResults;
    AnthropicShows();
    GeminiShows();
    TurnEncoding.EncodingKeepsEvents(Anthropic.AnthropicRules(), h, CommonOfBlock, CommonCall, AnthropicResult);
    TurnEncoding.EncodingKeepsEvents(Gemini.GeminiRules(), h, CommonOfPart, CommonCall, CommonResult);
    EncodingKeepsEvents(system, h, CommonCall, CommonTool, CommonResult);
    EventsAgreeIff(h, CommonCall, AnthropicResult, CommonResult);
    AnthropicResultsIff(h);
  }

  lemma {:induction false} AnthropicShows()
    ensures TurnEncoding.Shows(Anthropic.AnthropicRules(), CommonOfBlock, CommonCall, AnthropicResult)
  {
    assert BlocksToText([]) == "";
    hide BlocksToText, Anthropic.PartsToBlocks;
  }

  lemma {:induction false} GeminiShows()
    ensures TurnEncoding.Shows(Gemini.GeminiRules(), CommonOfPart, CommonCall, CommonResult)
  {
    hide PartsToText;
  }
}
