/** The messages of an Anthropic Messages API request. */
module Anthropic {
  import opened Wrappers
  import opened Conversation
  import opened TurnEncoding

  datatype Block =
    | TextBlock(text: string)
    | ImageBlock(mediaType: string, data: string)
    | ToolUse(id: string, name: string, input: Arguments)
    | ToolResultBlock(toolUseId: string, isError: bool, content: seq<Block>)

  predicate IsSupportedImage(mimeType: string) {
    mimeType == "image/jpeg" || mimeType == "image/png" || mimeType == "image/gif" || mimeType == "image/webp"
  }

  function PartToBlock(part: ContentPart): (b: Block)
    ensures b.TextBlock? || b.ImageBlock?
  {
    match part
    case TextPart(text) => TextBlock(text)
    case ImagePart(mimeType, data) =>
      if IsSupportedImage(mimeType) then ImageBlock(mimeType, data)
      else TextBlock("[image omitted: unsupported media type " + mimeType + "]")
  }

  function PartsToBlocks(parts: seq<ContentPart>): seq<Block> {
    seq(|parts|, i requires 0 <= i < |parts| => PartToBlock(parts[i]))
  }

  /** The blocks of a user or assistant message: its parts but for empty texts. */
  function ToContentBlocks(parts: seq<ContentPart>): (r: seq<Block>)
    ensures forall i :: 0 <= i < |r| ==> r[i].TextBlock? || r[i].ImageBlock?
  {
    if parts == [] then []
    else (if parts[0] == TextPart("") then [] else [PartToBlock(parts[0])]) + ToContentBlocks(parts[1..])
  }

  function CallBlock(call: ToolCall): Block {
    ToolUse(call.id, call.name, call.arguments)
  }

  function ResultBlock(message: ChatMessage): Block {
    if message.ToolMessage? then
      ToolResultBlock(message.toolCallId, message.isError, PartsToBlocks(message.content))
    else ToolResultBlock("", false, [])
  }

  /** A result joins whatever user turn comes last. */
  function AnthropicRules(): Rules<Block> {
    Rules(ToContentBlocks, CallBlock, ResultBlock, (blocks: seq<Block>) => true)
  }

  function EncodeAnthropic(messages: History): seq<TurnOf<Block>> {
    Encode(AnthropicRules(), [], messages)
  }

  method ToAnthropicRequest(request: History) returns (messages: seq<TurnOf<Block>>)
    ensures messages == EncodeAnthropic(request)
    ensures Heard(Spoken(messages), HearBlock) == ContentsOf(request, ShowPart)
  {
    hide Push, Heard, Spoken, ContentsOf;
    RequestKeepsContents(request);
    messages := [];
    for i := 0 to |request|
      invariant messages == Encode(AnthropicRules(), [], request[..i])
    {
      EncodeAppend(AnthropicRules(), [], request[..i], [request[i]]);
      EncodeOne(AnthropicRules(), messages, request[i]);
      assert request[..i + 1] == request[..i] + [request[i]];
      messages := AddMessage(messages, request[i]);
    }
    assert request[..|request|] == request;
  }

  /** One pass of the request loop. */
  method AddMessage(before: seq<TurnOf<Block>>, message: ChatMessage) returns (messages: seq<TurnOf<Block>>)
    ensures messages == Push(AnthropicRules(), before, message)
  {
    hide Push;
    messages := before;
    if message.ToolMessage? {
      var resultBlock := ToolResultBlock(message.toolCallId, message.isError, PartsToBlocks(message.content));
      if |messages| > 0 && messages[|messages| - 1].role == User {
        PushJoins(AnthropicRules(), before, message);
        var previous := messages[|messages| - 1];
        messages := messages[|messages| - 1 := TurnOf(User, previous.blocks + [resultBlock])];
      } else {
        PushAlone(AnthropicRules(), before, message);
        messages := messages + [TurnOf(User, [resultBlock])];
      }
      return;
    }
    PushAlone(AnthropicRules(), before, message);
    var blocks := ToContentBlocks(message.content);
    if message.AssistantMessage? {
      for j := 0 to |message.toolCalls|
        invariant blocks == ToContentBlocks(message.content) + Calls(AnthropicRules(), message.toolCalls)[..j]
      {
        var call := message.toolCalls[j];
        blocks := blocks + [ToolUse(call.id, call.name, call.arguments)];
      }
      assert blocks == MessageTurn(AnthropicRules(), message).blocks;
      if |blocks| > 0 {
        messages := messages + [TurnOf(Model, blocks)];
      }
      return;
    }
    if |blocks| > 0 {
      messages := messages + [TurnOf(User, blocks)];
    }
  }

  // ----- what the request means

  /** A call or a result as this API carries it. */
  datatype Event =
    | Called(id: string, name: string, arguments: Arguments)
    | Answered(id: string, isError: bool, content: seq<Block>)

  function EventOf(block: Block): Option<Event> {
    match block
    case ToolUse(id, name, input) => Some(Called(id, name, input))
    case ToolResultBlock(id, isError, content) => Some(Event.Answered(id, isError, content))
    case _ => None
  }

  function OfCall(call: ToolCall): Event {
    Called(call.id, call.name, call.arguments)
  }

  function OfResult(message: ChatMessage): Event {
    if message.ToolMessage? then
      Event.Answered(message.toolCallId, message.isError, PartsToBlocks(message.content))
    else Event.Answered("", false, [])
  }

  /** The calls and results read back out of a request are the history's, ids and contents included. */
  lemma {:induction false} RequestKeepsEvents(h: History)
    ensures Read(Spoken(EncodeAnthropic(h)), EventOf) == Events(h, OfCall, OfResult)
  {
    EncodingKeepsEvents(AnthropicRules(), h, EventOf, OfCall, OfResult);
  }

  function AnthropicReader(): Reader<Block> {
    Reader(
      (b: Block) => if b.ToolUse? then Some(b.id) else None,
      (b: Block) => if b.ToolResultBlock? then Some(b.toolUseId) else None,
      (c: ToolCall) => c.id,
      (m: ChatMessage) => if m.ToolMessage? then m.toolCallId else "")
  }

  /** Every tool_use of a session's request is answered in the very next message, a single user one. */
  lemma {:induction false} RequestAnswersCalls(h: History)
    requires WellPaired(h)
    ensures AllAnswered(EncodeAnthropic(h), AnthropicReader())
  {
    CallsAreAnswered(AnthropicRules(), AnthropicReader(), h);
  }

  /** In any session, every request the loop sends answers every tool_use in the very next single user message. */
  lemma {:induction false} EveryRequestAnswersCalls(turns: seq<Turn>, turn: Turn, h: History)
    requires (forall i :: 0 <= i < |turns| ==> IsInput(turns[i].input)) && IsInput(turn.input)
    requires h in HandedIn(turns, turn)
    ensures AllAnswered(EncodeAnthropic(h), AnthropicReader())
  {
    hide HandedIn, IsInput, AllAnswered, WellPaired;
    SessionHandsPaired(turns, turn);
    RequestAnswersCalls(h);
  }

  // ----- texts and images

  /** The image types the API takes. */
  const IMAGE_TYPES: set<string> := {"image/jpeg", "image/png", "image/gif", "image/webp"}

  /** What a part is shown as: texts verbatim unless empty, other images by a placeholder that names their type. */
  function ShowPart(part: ContentPart): Option<Shown> {
    match part
    case TextPart(text) => if text == "" then None else Some(ShownText(text))
    case ImagePart(mimeType, data) =>
      if mimeType in IMAGE_TYPES then Some(ShownImage(mimeType, data))
      else Some(ShownText("[image omitted: unsupported media type " + mimeType + "]"))
  }

  function HearBlock(block: Block): Option<Shown> {
    match block
    case TextBlock(text) => Some(ShownText(text))
    case ImageBlock(mediaType, data) => Some(ShownImage(mediaType, data))
    case _ => None
  }

  lemma {:induction false} HeardContent(role: Role, content: seq<ContentPart>)
    ensures Heard(Said(TurnOf(role, ToContentBlocks(content))), HearBlock) == PartsShown(role, content, ShowPart)
  {
    hide Heard, Said;
    if content == [] {
      HeardNothing(Said(TurnOf(role, ToContentBlocks(content))), HearBlock) by {
        SaidNothing(role, ToContentBlocks(content));
      }
    } else {
      var rest := content[1..];
      HeardContent(role, rest);
      if content[0] == TextPart("") {
        assert [] + ToContentBlocks(rest) == ToContentBlocks(rest);
      } else {
        HeardCons(role, PartToBlock(content[0]), ToContentBlocks(rest), HearBlock);
      }
    }
  }

  lemma SaidNothing(role: Role, none: seq<Block>)
    requires none == []
    ensures Said(TurnOf(role, none)) == []
  {
  }

  /** The texts and images read back out of a request are the history's, in their roles and in order. */
  lemma {:induction false} RequestKeepsContents(h: History)
    ensures Heard(Spoken(EncodeAnthropic(h)), HearBlock) == ContentsOf(h, ShowPart)
  {
    hide Heard, PartsShown, Said, ToContentBlocks;
    forall role, content ensures HearsContent(AnthropicRules(), HearBlock, ShowPart, role, content) {
      HeardContent(role, content);
    }
    EncodingKeepsContents(AnthropicRules(), h, HearBlock, ShowPart);
  }

  /** A result holds one block for each part of what the tool returned, in order, empty texts included. */
  lemma ResultBlocksAre(content: seq<ContentPart>)
    ensures |PartsToBlocks(content)| == |content|
    ensures forall i :: 0 <= i < |content| ==>
              HearBlock(PartsToBlocks(content)[i])
                == if content[i] == TextPart("") then Some(ShownText("")) else ShowPart(content[i])
  {
  }

  // ----- which turns results stand in

  /** A user turn that starts with a result stands behind a model turn or first. */
  ghost predicate ResultsJoined(turns: seq<TurnOf<Block>>) {
    forall k :: 0 <= k < |turns| ==> ResultsJoinedAt(turns, k)
  }

  ghost predicate ResultsJoinedAt(turns: seq<TurnOf<Block>>, k: nat)
    requires k < |turns|
  {
    && turns[k].blocks != []
    && (turns[k].role == User && turns[k].blocks[0].ToolResultBlock? ==> k == 0 || turns[k - 1].role == Model)
  }

  lemma {:induction false} PushKeepsJoined(turns: seq<TurnOf<Block>>, message: ChatMessage)
    requires ResultsJoined(turns)
    ensures ResultsJoined(Push(AnthropicRules(), turns, message))
  {
    hide Push, ToContentBlocks;
    var next := Push(AnthropicRules(), turns, message);
    if message.ToolMessage? && turns != [] && turns[|turns| - 1].role == User {
      PushJoins(AnthropicRules(), turns, message);
      forall k | 0 <= k < |next| ensures ResultsJoinedAt(next, k) {
        assert ResultsJoinedAt(turns, k);
      }
    } else {
      PushAlone(AnthropicRules(), turns, message);
      ContentIsNoResult(message);
      forall k | 0 <= k < |next| ensures ResultsJoinedAt(next, k) {
        if k < |turns| {
          assert ResultsJoinedAt(turns, k);
        }
      }
    }
  }

  lemma {:induction false} ContentIsNoResult(message: ChatMessage)
    ensures !message.ToolMessage? && MessageTurn(AnthropicRules(), message).blocks != [] ==>
              !MessageTurn(AnthropicRules(), message).blocks[0].ToolResultBlock?
  {
    hide PartToBlock;
  }

  /** Results join the user message before them, also when that is the user's own. */
  lemma {:induction false} ResultsJoinUsers(h: History)
    ensures ResultsJoined(EncodeAnthropic(h))
    decreases |h|
  {
    hide Push, ResultsJoined;
    if h == [] {
      NothingToJoin();
    } else {
      var init, last := h[..|h| - 1], h[|h| - 1];
      assert h == init + [last];
      ResultsJoinUsers(init);
      EncodeAppend(AnthropicRules(), [], init, [last]);
      EncodeOne(AnthropicRules(), EncodeAnthropic(init), last);
      PushKeepsJoined(EncodeAnthropic(init), last);
    }
  }

  lemma NothingToJoin()
    ensures ResultsJoined([])
  {
  }
}
