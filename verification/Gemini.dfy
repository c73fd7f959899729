/** The contents of a Gemini `generateContent` request. */
module Gemini {
  import opened Wrappers
  import opened Conversation
  import opened TurnEncoding

  datatype Part =
    | Text(text: string)
    | InlineData(mimeType: string, data: string)
    | FunctionCall(name: string, args: Arguments)
    | FunctionResponse(name: string, content: string, isError: bool)

  function PartOf(part: ContentPart): (p: Part)
    ensures p.Text? || p.InlineData?
  {
    match part
    case TextPart(text) => Text(text)
    case ImagePart(mimeType, data) => InlineData(mimeType, data)
  }

  /** The parts of a user or assistant message but for empty texts. */
  function ToParts(parts: seq<ContentPart>): (r: seq<Part>)
    ensures forall i :: 0 <= i < |r| ==> r[i].Text? || r[i].InlineData?
  {
    if parts == [] then []
    else (if parts[0] == TextPart("") then [] else [PartOf(parts[0])]) + ToParts(parts[1..])
  }

  function CallPart(call: ToolCall): Part {
    FunctionCall(call.name, call.arguments)
  }

  function ResultPart(message: ChatMessage): Part {
    if message.ToolMessage? then FunctionResponse(message.toolName, PartsToText(message.content), message.isError)
    else FunctionResponse("", "", false)
  }

  predicate OnlyResponses(parts: seq<Part>) {
    forall i :: 0 <= i < |parts| ==> parts[i].FunctionResponse?
  }

  /** A result joins only a user turn that holds nothing but results. */
  function GeminiRules(): Rules<Part> {
    Rules(ToParts, CallPart, ResultPart, OnlyResponses)
  }

  function EncodeGemini(messages: History): seq<TurnOf<Part>> {
    Encode(GeminiRules(), [], messages)
  }

  method ToGeminiRequest(request: History) returns (contents: seq<TurnOf<Part>>)
    ensures contents == EncodeGemini(request)
    ensures Heard(Spoken(contents), HearPart) == ContentsOf(request, ShowPart)
  {
    hide Push, Heard, Spoken, ContentsOf;
    RequestKeepsContents(request);
    contents := [];
    for i := 0 to |request|
      invariant contents == Encode(GeminiRules(), [], request[..i])
    {
      EncodeAppend(GeminiRules(), [], request[..i], [request[i]]);
      EncodeOne(GeminiRules(), contents, request[i]);
      assert request[..i + 1] == request[..i] + [request[i]];
      contents := AddMessage(contents, request[i]);
    }
    assert request[..|request|] == request;
  }

  /** One pass of the request loop. */
  method AddMessage(before: seq<TurnOf<Part>>, message: ChatMessage) returns (contents: seq<TurnOf<Part>>)
    ensures contents == Push(GeminiRules(), before, message)
  {
    hide Push;
    contents := before;
    if message.ToolMessage? {
      var responsePart := FunctionResponse(message.toolName, PartsToText(message.content), message.isError);
      if |contents| > 0 && contents[|contents| - 1].role == User && OnlyResponses(contents[|contents| - 1].blocks) {
        PushJoins(GeminiRules(), before, message);
        var previous := contents[|contents| - 1];
        contents := contents[|contents| - 1 := TurnOf(User, previous.blocks + [responsePart])];
      } else {
        PushAlone(GeminiRules(), before, message);
        contents := contents + [TurnOf(User, [responsePart])];
      }
      return;
    }
    PushAlone(GeminiRules(), before, message);
    var parts := ToParts(message.content);
    if message.AssistantMessage? {
      for j := 0 to |message.toolCalls|
        invariant parts == ToParts(message.content) + Calls(GeminiRules(), message.toolCalls)[..j]
      {
        var call := message.toolCalls[j];
        parts := parts + [FunctionCall(call.name, call.arguments)];
      }
      assert parts == MessageTurn(GeminiRules(), message).blocks;
      if |parts| > 0 {
        contents := contents + [TurnOf(Model, parts)];
      }
      return;
    }
    if |parts| > 0 {
      contents := contents + [TurnOf(User, parts)];
    }
  }

  // ----- what the request means

  /** A call or a result as this API carries it: no ids, results as text. */
  datatype Event =
    | Called(name: string, arguments: Arguments)
    | Answered(name: string, isError: bool, content: string)

  function EventOf(part: Part): Option<Event> {
    match part
    case FunctionCall(name, args) => Some(Called(name, args))
    case FunctionResponse(name, content, isError) => Some(Event.Answered(name, isError, content))
    case _ => None
  }

  function OfCall(call: ToolCall): Event {
    Called(call.name, call.arguments)
  }

  function OfResult(message: ChatMessage): Event {
    if message.ToolMessage? then Event.Answered(message.toolName, message.isError, PartsToText(message.content))
    else Event.Answered("", false, "")
  }

  /** The calls and results read back out of a request are the history's, but for their ids. */
  lemma {:induction false} RequestKeepsEvents(h: History)
    ensures Read(Spoken(EncodeGemini(h)), EventOf) == Events(h, OfCall, OfResult)
  {
    EncodingKeepsEvents(GeminiRules(), h, EventOf, OfCall, OfResult);
  }

  function GeminiReader(): Reader<Part> {
    Reader(
      (p: Part) => if p.FunctionCall? then Some(p.name) else None,
      (p: Part) => if p.FunctionResponse? then Some(p.name) else None,
      (c: ToolCall) => c.name,
      (m: ChatMessage) => if m.ToolMessage? then m.toolName else "")
  }

  /** Every functionCall of a session's request is answered, by name, in the very next content, a single user one. */
  lemma {:induction false} RequestAnswersCalls(h: History)
    requires WellPaired(h)
    ensures AllAnswered(EncodeGemini(h), GeminiReader())
  {
    CallsAreAnswered(GeminiRules(), GeminiReader(), h);
  }

  // ----- texts and images

  /** What a part is shown as: texts verbatim unless empty, images with their type. */
  function ShowPart(part: ContentPart): Option<Shown> {
    match part
    case TextPart(text) => if text == "" then None else Some(ShownText(text))
    case ImagePart(mimeType, data) => Some(ShownImage(mimeType, data))
  }

  function HearPart(part: Part): Option<Shown> {
    match part
    case Text(text) => Some(ShownText(text))
    case InlineData(mimeType, data) => Some(ShownImage(mimeType, data))
    case _ => None
  }

  lemma {:induction false} HeardContent(role: Role, content: seq<ContentPart>)
    ensures Heard(Said(TurnOf(role, ToParts(content))), HearPart) == PartsShown(role, content, ShowPart)
  {
    hide Heard, Said;
    if content == [] {
      HeardNothing(Said(TurnOf(role, ToParts(content))), HearPart) by {
        SaidNothing(role, ToParts(content));
      }
    } else {
      var rest := content[1..];
      HeardContent(role, rest);
      if content[0] == TextPart("") {
        assert [] + ToParts(rest) == ToParts(rest);
      } else {
        HeardCons(role, PartOf(content[0]), ToParts(rest), HearPart);
      }
    }
  }

  lemma SaidNothing(role: Role, none: seq<Part>)
    requires none == []
    ensures Said(TurnOf(role, none)) == []
  {
  }

  /** The texts and images read back out of a request are the history's, in their roles and in order. */
  lemma {:induction false} RequestKeepsContents(h: History)
    ensures Heard(Spoken(EncodeGemini(h)), HearPart) == ContentsOf(h, ShowPart)
  {
    hide Heard, PartsShown, Said, ToParts;
    forall role, content ensures HearsContent(GeminiRules(), HearPart, ShowPart, role, content) {
      HeardContent(role, content);
    }
    EncodingKeepsContents(GeminiRules(), h, HearPart, ShowPart);
  }

  // ----- which turns responses stand in

  ghost predicate NoResponse(parts: seq<Part>) {
    forall i :: 0 <= i < |parts| ==> !parts[i].FunctionResponse?
  }

  /** Turns are not empty, responses share a turn with responses only, and never stand in two user turns in a row. */
  ghost predicate ResponsesApart(turns: seq<TurnOf<Part>>) {
    forall k :: 0 <= k < |turns| ==> ResponsesApartAt(turns, k)
  }

  ghost predicate ResponsesApartAt(turns: seq<TurnOf<Part>>, k: nat)
    requires k < |turns|
  {
    && turns[k].blocks != []
    && ((turns[k].role == User && OnlyResponses(turns[k].blocks)) || NoResponse(turns[k].blocks))
    && (k > 0 ==> NoResponse(turns[k].blocks) || NoResponse(turns[k - 1].blocks))
  }

  lemma {:induction false} PushKeepsApart(turns: seq<TurnOf<Part>>, message: ChatMessage)
    requires ResponsesApart(turns)
    ensures ResponsesApart(Push(GeminiRules(), turns, message))
  {
    hide Push, ToParts, NoResponse;
    var next := Push(GeminiRules(), turns, message);
    var n := |turns| - 1;
    MessageParts(message);
    if message.ToolMessage? && turns != [] && turns[n].role == User && OnlyResponses(turns[n].blocks) {
      PushJoins(GeminiRules(), turns, message);
      assert ResponsesApartAt(turns, n);
      MixedIsNot(turns[n].blocks);
      forall k | 0 <= k < |next| ensures ResponsesApartAt(next, k) {
        assert ResponsesApartAt(turns, k);
      }
    } else {
      PushAlone(GeminiRules(), turns, message);
      forall k | 0 <= k < |next| ensures ResponsesApartAt(next, k) {
        if k < |turns| {
          assert ResponsesApartAt(turns, k);
        } else if k > 0 {
          assert ResponsesApartAt(turns, k - 1);
        }
      }
    }
  }

  lemma MixedIsNot(parts: seq<Part>)
    requires parts != [] && OnlyResponses(parts)
    ensures !NoResponse(parts)
  {
    assert parts[0].FunctionResponse?;
  }

  lemma {:induction false} MessageParts(message: ChatMessage)
    ensures var turn := MessageTurn(GeminiRules(), message);
            if message.ToolMessage? then turn.role == User && turn.blocks != [] && OnlyResponses(turn.blocks)
            else NoResponse(turn.blocks)
  {
    hide PartOf;
  }

  /** Responses share a user turn with responses only, and all responses in a row share one. */
  lemma {:induction false} ResponsesStandApart(h: History)
    ensures ResponsesApart(EncodeGemini(h))
    decreases |h|
  {
    hide Push, ResponsesApart;
    if h == [] {
      NothingApart();
    } else {
      var init, last := h[..|h| - 1], h[|h| - 1];
      assert h == init + [last];
      ResponsesStandApart(init);
      EncodeAppend(GeminiRules(), [], init, [last]);
      EncodeOne(GeminiRules(), EncodeGemini(init), last);
      PushKeepsApart(EncodeGemini(init), last);
    }
  }

  lemma NothingApart()
    ensures ResponsesApart([])
  {
  }
}
