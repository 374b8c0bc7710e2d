/** The Anthropic stream decoder: the goroutine of ai/providers/anthropic_streaming.go. */
module Anthropic {
  import opened Values
  import opened Streams

  datatype BlockStart = BlockStart(index: int, isTool: bool, id: string, name: string)
  datatype BlockDelta = BlockDelta(index: int, typ: string, text: string, partialJson: string)
  datatype MessageDelta = MessageDelta(stopReason: string, outputTokens: Option<int>)

  /** The text of a data line, as each kind of event would decode it; None where it is malformed. */
  datatype Payload = Payload(start: Option<BlockStart>, delta: Option<BlockDelta>, message: Option<MessageDelta>)

  datatype Line =
    | Blank
    | Event(name: string)
    | Data(payload: Payload)
    | Other

  // ---------------------------------------------------------------------------------------
  // The decoder as a value
  // ---------------------------------------------------------------------------------------

  /** `order` lists the indexes of the tool blocks in the order they were opened. */
  datatype Accumulator = Accumulator(event: string, calls: map<int, ToolCall>, order: seq<int>)

  const EMPTY := Accumulator("", map[], [])

  function Build(calls: map<int, ToolCall>, order: seq<int>): seq<ToolCall> {
    if order == [] then []
    else
      var last := order[|order| - 1];
      Build(calls, order[..|order| - 1]) + if last in calls then [calls[last]] else []
  }

  function Calls(acc: Accumulator): seq<ToolCall> { Build(acc.calls, acc.order) }

  function OnStart(acc: Accumulator, b: BlockStart): Accumulator {
    if b.isTool then acc.(calls := acc.calls[b.index := ToolCall(b.id, b.name, "")], order := acc.order + [b.index])
    else acc
  }

  function OnDelta(acc: Accumulator, b: BlockDelta): Accumulator {
    if b.typ == "input_json_delta" && b.index in acc.calls then
      var call := acc.calls[b.index];
      acc.(calls := acc.calls[b.index := call.(arguments := call.arguments + b.partialJson)])
    else acc
  }

  function OnData(acc: Accumulator, p: Payload): (Accumulator, Reaction) {
    match acc.event
    case "message_stop" => (acc, Stop)
    case "content_block_start" => (if p.start.Some? then OnStart(acc, p.start.value) else acc, Skip)
    case "content_block_stop" =>
      (acc, if Calls(acc) != [] then Emit(Chunk("", Calls(acc), "", NO_USAGE)) else Skip)
    case "content_block_delta" =>
      if p.delta.None? then (acc, Skip)
      else if p.delta.value.typ == "input_json_delta" then (OnDelta(acc, p.delta.value), Skip)
      else
        (acc, Emit(Chunk(if p.delta.value.typ == "text_delta" then p.delta.value.text else "", Calls(acc), "", NO_USAGE)))
    case "message_delta" =>
      if p.message.None? then (acc, Skip)
      else
        var m := p.message.value;
        (acc, Emit(Chunk("", Calls(acc), m.stopReason,
                         if m.outputTokens.Some? then NO_USAGE.(completion := m.outputTokens.value) else NO_USAGE)))
    case _ => (acc, Skip)
  }

  function Decode(acc: Accumulator, line: Line): (Accumulator, Reaction) {
    match line
    case Blank => (acc.(event := ""), Skip)
    case Event(name) => (acc.(event := name), Skip)
    case Other => (acc, Skip)
    case Data(p) => OnData(acc, p)
  }

  lemma DecodeIsErrorFree()
    ensures ErrorFree(Decode)
  {
  }

  // ---------------------------------------------------------------------------------------
  // The decoder as the goroutine keeps it
  // ---------------------------------------------------------------------------------------

  class StreamReader {
    var currentEvent: string
    var toolAccum: map<int, ToolCall>
    var toolOrder: seq<int>

    ghost function State(): Accumulator reads this { Accumulator(currentEvent, toolAccum, toolOrder) }

    constructor ()
      ensures State() == EMPTY
    {
      currentEvent, toolAccum, toolOrder := "", map[], [];
    }

    method BuildToolCalls() returns (result: seq<ToolCall>)
      ensures result == if toolAccum == map[] then [] else Calls(State())
    {
      if |toolAccum| == 0 {
        return [];
      }
      result := [];
      for i := 0 to |toolOrder|
        invariant result == Build(toolAccum, toolOrder[..i])
      {
        assert toolOrder[..i + 1][..i] == toolOrder[..i];
        var idx := toolOrder[i];
        if idx in toolAccum {
          result := result + [toolAccum[idx]];
        }
      }
      assert toolOrder[..|toolOrder|] == toolOrder;
    }

    method HandleLine(line: Line) returns (reaction: Reaction)
      modifies this
      ensures (State(), reaction) == Decode(old(State()), line)
    {
      match line
      case Blank =>
        currentEvent := "";
        reaction := Skip;
      case Event(name) =>
        currentEvent := name;
        reaction := Skip;
      case Other =>
        reaction := Skip;
      case Data(p) =>
        reaction := HandleData(p);
    }

    method HandleData(p: Payload) returns (reaction: Reaction)
      modifies this
      ensures (State(), reaction) == OnData(old(State()), p)
    {
      NoCalls(toolOrder);
      var calls := [];
      if currentEvent == "message_stop" {
        return Stop;
      } else if currentEvent == "content_block_start" {
        if p.start.Some? && p.start.value.isTool {
          var b := p.start.value;
          toolAccum := toolAccum[b.index := ToolCall(b.id, b.name, "")];
          toolOrder := toolOrder + [b.index];
        }
      } else if currentEvent == "content_block_stop" {
        if |toolAccum| > 0 {
          calls := BuildToolCalls();
          if |calls| > 0 {
            return Emit(Chunk("", calls, "", NO_USAGE));
          }
        }
      } else if currentEvent == "content_block_delta" {
        if p.delta.None? {
          return Skip;
        }
        var b := p.delta.value;
        var content := "";
        if b.typ == "text_delta" {
          content := b.text;
        } else if b.typ == "input_json_delta" {
          if b.index in toolAccum {
            var accum := toolAccum[b.index];
            toolAccum := toolAccum[b.index := accum.(arguments := accum.arguments + b.partialJson)];
          }
          return Skip;
        }
        if |toolAccum| > 0 {
          calls := BuildToolCalls();
        }
        return Emit(Chunk(content, calls, "", NO_USAGE));
      } else if currentEvent == "message_delta" {
        if p.message.None? {
          return Skip;
        }
        var m := p.message.value;
        var usage := NO_USAGE;
        if m.outputTokens.Some? {
          usage := usage.(completion := m.outputTokens.value);
        }
        if |toolAccum| > 0 {
          calls := BuildToolCalls();
        }
        return Emit(Chunk("", calls, m.stopReason, usage));
      }
      reaction := Skip;
    }
  }

  lemma {:induction false} NoCalls(order: seq<int>)
    ensures Build(map[], order) == []
  {
    if order != [] { NoCalls(order[..|order| - 1]); }
  }
}
