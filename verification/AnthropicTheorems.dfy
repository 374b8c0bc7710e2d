/** The Anthropic decoder inverts fragmentation, on every stream of lines. */
module AnthropicTheorems {
  import opened Sequences
  import opened Values
  import opened Streams
  import opened StreamEvents
  import Anthropic

  // ---------------------------------------------------------------------------------------
  // What Anthropic lines say
  // ---------------------------------------------------------------------------------------

  /** What a data line says under the current event, `open` being the tool blocks opened so far. A
      fragment for any other block belongs to no call. */
  function Meaning(event: string, open: set<int>, p: Anthropic.Payload): seq<Event> {
    match event
    case "content_block_start" =>
      if p.start.Some? && p.start.value.isTool then [Open(p.start.value.index, p.start.value.id, p.start.value.name)] else []
    case "content_block_stop" => [End]
    case "content_block_delta" =>
      if p.delta.None? then []
      else if p.delta.value.typ == "input_json_delta" then
        if p.delta.value.index in open then [Fragment(p.delta.value.index, p.delta.value.partialJson)] else []
      else [Text(if p.delta.value.typ == "text_delta" then p.delta.value.text else "")]
    case "message_delta" =>
      if p.message.Some? then [Finish(p.message.value.stopReason, p.message.value.outputTokens)] else []
    case _ => []
  }

  /** What lines say, whatever they are, up to the end of the message. */
  function Said(event: string, open: set<int>, lines: seq<Anthropic.Line>): seq<Event>
    decreases |lines|
  {
    if lines == [] then []
    else match lines[0]
      case Blank => Said("", open, lines[1..])
      case Event(name) => Said(name, open, lines[1..])
      case Other => Said(event, open, lines[1..])
      case Data(p) =>
        if event == "message_stop" then []
        else
          var es := Meaning(event, open, p);
          es + Said(event, open + OpenedBy(es), lines[1..])
  }

  function OpenedBy(es: seq<Event>): set<int> {
    if es != [] && es[0].Open? then {es[0].index} else {}
  }

  // ---------------------------------------------------------------------------------------
  // What the Anthropic decoder makes of it
  // ---------------------------------------------------------------------------------------

  function UsageOf(tokens: Option<int>): Usage {
    if tokens.Some? then NO_USAGE.(completion := tokens.value) else NO_USAGE
  }

  /** The chunk an event is answered with, if any, `calls` being the calls so far. */
  function Answer(e: Event, calls: seq<ToolCall>): seq<Chunk> {
    match e
    case Text(t) => [Chunk(t, calls, "", NO_USAGE)]
    case End => if calls == [] then [] else [Chunk("", calls, "", NO_USAGE)]
    case Finish(reason, tokens) => [Chunk("", calls, reason, UsageOf(tokens))]
    case _ => []
  }

  function Ordered(order: seq<int>, e: Event): seq<int> { if e.Open? then order + [e.index] else order }

  function Answers(m: map<int, ToolCall>, order: seq<int>, es: seq<Event>): seq<Chunk>
    decreases es
  {
    if es == [] then []
    else
      var m', order' := Apply(m, es[0]), Ordered(order, es[0]);
      Answer(es[0], Anthropic.Build(m', order')) + Answers(m', order', es[1..])
  }

  /** On every stream of lines, the decoder answers exactly what the lines say. */
  lemma {:induction false} DecoderAnswers(acc: Anthropic.Accumulator, lines: seq<Anthropic.Line>)
    ensures Emissions(Anthropic.Decode, acc, lines) == Answers(acc.calls, acc.order, Said(acc.event, acc.calls.Keys, lines))
    decreases |lines|
  {
    if lines != [] {
      var (next, reaction) := Anthropic.Decode(acc, lines[0]);
      if !reaction.Stop? {
        DecoderAnswers(next, lines[1..]);
      }
      if lines[0].Data? && acc.event != "message_stop" {
        DataIsAnswered(acc, lines[0].payload, lines[1..]);
      }
    }
  }

  lemma DataIsAnswered(acc: Anthropic.Accumulator, p: Anthropic.Payload, rest: seq<Anthropic.Line>)
    requires acc.event != "message_stop"
    ensures var (next, reaction) := Anthropic.OnData(acc, p);
      var es := Meaning(acc.event, acc.calls.Keys, p);
      var later := Said(acc.event, acc.calls.Keys + OpenedBy(es), rest);
      && next.event == acc.event && next.calls.Keys == acc.calls.Keys + OpenedBy(es) && !reaction.Stop?
      && Answers(acc.calls, acc.order, es + later) == Emitted(reaction) + Answers(next.calls, next.order, later)
  {
    var (next, reaction) := Anthropic.OnData(acc, p);
    var es := Meaning(acc.event, acc.calls.Keys, p);
    var later := Said(acc.event, acc.calls.Keys + OpenedBy(es), rest);
    DataMeans(acc, p);
    if es == [] {
      EmptyLeft(later);
      EmptyLeft(Answers(next.calls, next.order, later));
    } else {
      AnswersOfCons(acc.calls, acc.order, es, later);
    }
  }

  function Emitted(reaction: Reaction): seq<Chunk> { if reaction.Emit? then [reaction.chunk] else [] }

  /** A data line says at most one thing, and the decoder reacts to it alone. */
  ghost predicate ReactsToMeaning(acc: Anthropic.Accumulator, p: Anthropic.Payload) {
    var (next, reaction) := Anthropic.OnData(acc, p);
    var es := Meaning(acc.event, acc.calls.Keys, p);
    && next.event == acc.event && next.calls.Keys == acc.calls.Keys + OpenedBy(es) && !reaction.Stop? && |es| <= 1
    && if es == [] then next == acc && reaction.Skip?
       else
         && next.calls == Apply(acc.calls, es[0]) && next.order == Ordered(acc.order, es[0])
         && Emitted(reaction) == Answer(es[0], Anthropic.Calls(next))
  }

  lemma DataMeans(acc: Anthropic.Accumulator, p: Anthropic.Payload)
    requires acc.event != "message_stop"
    ensures ReactsToMeaning(acc, p)
  {
    if acc.event == "content_block_start" {
      StartMeans(acc, p);
    } else if acc.event == "content_block_stop" {
      StopMeans(acc, p);
    } else if acc.event == "content_block_delta" {
      DeltaMeans(acc, p);
    } else if acc.event == "message_delta" {
      FinishMeans(acc, p);
    } else {
      NothingMeant(acc, p);
    }
  }

  lemma StartMeans(acc: Anthropic.Accumulator, p: Anthropic.Payload)
    requires acc.event == "content_block_start"
    ensures ReactsToMeaning(acc, p)
  {
  }

  lemma StopMeans(acc: Anthropic.Accumulator, p: Anthropic.Payload)
    requires acc.event == "content_block_stop"
    ensures ReactsToMeaning(acc, p)
  {
  }

  lemma DeltaMeans(acc: Anthropic.Accumulator, p: Anthropic.Payload)
    requires acc.event == "content_block_delta"
    ensures ReactsToMeaning(acc, p)
  {
  }

  lemma FinishMeans(acc: Anthropic.Accumulator, p: Anthropic.Payload)
    requires acc.event == "message_delta"
    ensures ReactsToMeaning(acc, p)
  {
  }

  lemma NothingMeant(acc: Anthropic.Accumulator, p: Anthropic.Payload)
    requires acc.event !in ["message_stop", "content_block_start", "content_block_stop", "content_block_delta", "message_delta"]
    ensures ReactsToMeaning(acc, p)
  {
  }

  lemma AnswersOfCons(m: map<int, ToolCall>, order: seq<int>, es: seq<Event>, later: seq<Event>)
    requires |es| == 1
    ensures var m', order' := Apply(m, es[0]), Ordered(order, es[0]);
      Answers(m, order, es + later) == Answer(es[0], Anthropic.Build(m', order')) + Answers(m', order', later)
  {
    assert (es + later)[1..] == later;
  }

  lemma {:induction false} AnswersCarryText(m: map<int, ToolCall>, order: seq<int>, es: seq<Event>)
    ensures ConcatContent(Answers(m, order, es)) == TextOf(es)
    decreases |es|
  {
    if es != [] {
      var m', order' := Apply(m, es[0]), Ordered(order, es[0]);
      var head := Answer(es[0], Anthropic.Build(m', order'));
      AnswersCarryText(m', order', es[1..]);
      ConcatContentConcat(head, Answers(m', order', es[1..]));
      if head != [] { ContentOfOne(head[0]); }
    }
  }

  // ---------------------------------------------------------------------------------------
  // Which chunk is complete
  // ---------------------------------------------------------------------------------------

  /** Nothing more is said about any call. */
  predicate Quiet(es: seq<Event>) {
    forall e | e in es :: !e.Open? && (e.Fragment? ==> e.arguments == "")
  }

  predicate IsAnswered(e: Event, open: bool) { e.Text? || e.Finish? || (e.End? && open) }

  /** What is said after the last event that is answered; None if none is. */
  function AfterLastAnswer(es: seq<Event>, open: bool): Option<seq<Event>> {
    if es == [] then None
    else
      var later := AfterLastAnswer(es[1..], open || es[0].Open?);
      if later.Some? then later else if IsAnswered(es[0], open) then Some(es[1..]) else None
  }

  ghost predicate Tracks(m: map<int, ToolCall>, order: seq<int>) { forall i :: i in m <==> i in order }

  lemma {:induction false} BuildKeepsLength(m: map<int, ToolCall>, order: seq<int>)
    requires forall i | i in order :: i in m
    ensures |Anthropic.Build(m, order)| == |order|
    ensures forall k | 0 <= k < |order| :: order[k] in m && Anthropic.Build(m, order)[k] == m[order[k]]
  {
    if order != [] {
      var init := order[..|order| - 1];
      assert forall i | i in init :: i in order;
      assert order[|order| - 1] in order;
      BuildKeepsLength(m, init);
    }
  }

  lemma {:induction false} QuietMeans(es: seq<Event>, open: set<int>)
    requires WellOpened(es, open)
    ensures Quiet(es) <==> OpenIndexes(es) == [] && forall i | i in open :: ArgumentsOf(es, i) == ""
    decreases |es|
  {
    if es != [] {
      var e, rest := es[0], es[1..];
      assert Quiet(es) <==> !e.Open? && (e.Fragment? ==> e.arguments == "") && Quiet(rest);
      if !e.Open? {
        QuietMeans(rest, open);
        forall i ensures ArgumentsOf(es, i) == "" <==> ArgumentsPart(e, i) == "" && ArgumentsOf(rest, i) == "" {
        }
      }
    }
  }

  /** The calls built so far are the final ones iff nothing more is said about any call. */
  lemma CompleteIffQuiet(m: map<int, ToolCall>, order: seq<int>, rest: seq<Event>)
    requires Tracks(m, order) && WellOpened(rest, m.Keys)
    ensures Anthropic.Build(m, order) == Anthropic.Build(Built(m, rest), order + OpenIndexes(rest)) <==> Quiet(rest)
  {
    var m', added := Built(m, rest), OpenIndexes(rest);
    OnlyOpenedBlocks(m, rest);
    QuietMeans(rest, m.Keys);
    forall i | i in m ensures i in m' && (m'[i] == m[i] <==> ArgumentsOf(rest, i) == "") {
      OpenBlockCollects(m, rest, i);
      ExtensionIsProper(m[i].arguments, ArgumentsOf(rest, i));
    }
    BuildsAgree(m, order, m', added);
  }

  lemma BuildsAgree(m: map<int, ToolCall>, order: seq<int>, m': map<int, ToolCall>, added: seq<int>)
    requires Tracks(m, order) && Tracks(m', order + added)
    ensures Anthropic.Build(m, order) == Anthropic.Build(m', order + added)
       <==> added == [] && forall i | i in m :: i in m' && m'[i] == m[i]
  {
    var a, b := Anthropic.Build(m, order), Anthropic.Build(m', order + added);
    BuildKeepsLength(m, order);
    BuildKeepsLength(m', order + added);
    if a == b {
      assert |added| == 0;
      forall i | i in m ensures i in m' && m'[i] == m[i] {
        var k :| 0 <= k < |order| && order[k] == i;
        assert (order + added)[k] == i && a[k] == b[k];
      }
    } else if added == [] {
      assert |a| == |b|;
      var k :| 0 <= k < |a| && a[k] != b[k];
      assert (order + added)[k] == order[k];
    }
  }

  lemma ExtensionIsProper(s: string, t: string)
    ensures s + t == s <==> t == ""
  {
    if s + t == s { assert |s + t| == |s| + |t|; }
  }

  /** The state in which the last answer was given. */
  lemma {:induction false} LastAnswer(m: map<int, ToolCall>, order: seq<int>, es: seq<Event>,
                                      final: map<int, ToolCall>, labels: seq<int>)
    returns (m': map<int, ToolCall>, order': seq<int>)
    requires Leads(m, order, es, final, labels)
    ensures var rest := AfterLastAnswer(es, order != []);
      && (rest.None? <==> Answers(m, order, es) == [])
      && (rest.Some? ==>
            EndsWith(Answers(m, order, es), Anthropic.Build(m', order')) && Leads(m', order', rest.value, final, labels))
    decreases |es|
  {
    m', order' := m, order;
    if es != [] {
      var m1, order1 := Apply(m, es[0]), Ordered(order, es[0]);
      OneMoreEvent(m, order, es, final, labels);
      OneMoreAnswer(m, order, es);
      var later := AfterLastAnswer(es[1..], order1 != []);
      assert AfterLastAnswer(es, order != []) ==
             if later.Some? then later else if IsAnswered(es[0], order1 != []) then Some(es[1..]) else None;
      m', order' := LastAnswer(m1, order1, es[1..], final, labels);
      if later.None? {
        m', order' := m1, order1;
      }
    }
  }

  ghost predicate EndsWith(chunks: seq<Chunk>, calls: seq<ToolCall>) {
    chunks != [] && chunks[|chunks| - 1].Chunk? && chunks[|chunks| - 1].toolCalls == calls
  }

  /** From the first state, the events lead to the second. */
  ghost predicate Leads(m: map<int, ToolCall>, order: seq<int>, es: seq<Event>, m': map<int, ToolCall>, order': seq<int>) {
    Tracks(m, order) && WellOpened(es, m.Keys) && Built(m, es) == m' && order + OpenIndexes(es) == order'
  }

  lemma OneMoreAnswer(m: map<int, ToolCall>, order: seq<int>, es: seq<Event>)
    requires es != [] && Tracks(Apply(m, es[0]), Ordered(order, es[0]))
    ensures var m', order' := Apply(m, es[0]), Ordered(order, es[0]);
      var all, later := Answers(m, order, es), Answers(m', order', es[1..]);
      && (all == [] <==> !IsAnswered(es[0], order' != []) && later == [])
      && (later == [] && IsAnswered(es[0], order' != []) ==> EndsWith(all, Anthropic.Build(m', order')))
      && forall calls | EndsWith(later, calls) :: EndsWith(all, calls)
  {
    var m', order' := Apply(m, es[0]), Ordered(order, es[0]);
    BuildKeepsLength(m', order');
    AnswerEnds(es[0], Anthropic.Build(m', order'));
    EndsLater(Answer(es[0], Anthropic.Build(m', order')), Answers(m', order', es[1..]));
  }

  lemma AnswerEnds(e: Event, calls: seq<ToolCall>)
    ensures Answer(e, calls) == [] <==> !IsAnswered(e, calls != [])
    ensures Answer(e, calls) != [] ==> EndsWith(Answer(e, calls), calls)
  {
  }

  lemma EndsLater(head: seq<Chunk>, later: seq<Chunk>)
    ensures later == [] ==> head + later == head
    ensures later != [] ==> head + later != []
    ensures forall calls | EndsWith(later, calls) :: EndsWith(head + later, calls)
  {
  }

  lemma OneMoreEvent(m: map<int, ToolCall>, order: seq<int>, es: seq<Event>, final: map<int, ToolCall>, labels: seq<int>)
    requires es != [] && Leads(m, order, es, final, labels)
    ensures var m', order' := Apply(m, es[0]), Ordered(order, es[0]);
      && Leads(m', order', es[1..], final, labels)
      && (order' != [] <==> order != [] || es[0].Open?)
  {
    var e := es[0];
    assert Apply(m, e).Keys == if e.Open? then m.Keys + {e.index} else m.Keys;
    Reordered(order, es);
  }

  lemma {:induction false} BuildInOrder(m: map<int, ToolCall>, labels: seq<int>, calls: seq<ToolCall>)
    requires |labels| == |calls|
    requires forall k | 0 <= k < |calls| :: labels[k] in m && m[labels[k]] == calls[k]
    ensures Anthropic.Build(m, labels) == calls
  {
    if labels != [] {
      BuildInOrder(m, labels[..|labels| - 1], calls[..|calls| - 1]);
    }
  }

  /** What the events build is what they transmit. */
  lemma TransmittedIsBuilt(es: seq<Event>, labels: seq<int>, calls: seq<ToolCall>, text: string)
    requires Transmits(es, labels, calls, text)
    ensures OpenIndexes(es) == labels && Anthropic.Build(Built(map[], es), [] + OpenIndexes(es)) == calls
  {
    TableIsTransmitted(es, labels, calls, text);
    OpenIndexesAre(es);
    assert OpenIndexes(es) == labels;
    EmptyLeft(OpenIndexes(es));
    BuildInOrder(Built(map[], es), labels, calls);
  }

  /** On every stream of lines, whatever the fragmentation, the block numbering and the other lines, the
      contents concatenate to the text, and the last chunk carries exactly the calls iff nothing more
      is said about any call after it. */
  lemma AnthropicInvertsFragmentation(lines: seq<Anthropic.Line>, labels: seq<int>, calls: seq<ToolCall>, text: string)
    requires Transmits(Said("", {}, lines), labels, calls, text)
    ensures AnthropicDelivers(lines, Emissions(Anthropic.Decode, Anthropic.EMPTY, lines), calls, text)
  {
    var es := Said("", {}, lines);
    var none: map<int, ToolCall> := map[];
    assert none.Keys == {} && Anthropic.EMPTY.calls == none;
    DecoderAnswers(Anthropic.EMPTY, lines);
    AnswersCarryText(none, [], es);
    TransmittedIsBuilt(es, labels, calls, text);
    var m, order := LastAnswer(none, [], es, Built(none, es), [] + OpenIndexes(es));
    if AfterLastAnswer(es, false).Some? {
      CompleteIffQuiet(m, order, AfterLastAnswer(es, false).value);
    }
  }

  ghost predicate AnthropicDelivers(lines: seq<Anthropic.Line>, chunks: seq<Chunk>, calls: seq<ToolCall>, text: string) {
    var rest := AfterLastAnswer(Said("", {}, lines), false);
    && ConcatContent(chunks) == text
    && (chunks == [] <==> rest.None?)
    && (chunks != [] ==>
          && chunks[|chunks| - 1].Chunk?
          && (chunks[|chunks| - 1].toolCalls == calls <==> Quiet(rest.value)))
  }

  /** A message that ends with its stop reason ends with a chunk that carries the calls and the reason. */
  lemma FinishedMessageIsComplete(lines: seq<Anthropic.Line>, labels: seq<int>, calls: seq<ToolCall>, text: string)
    requires Transmits(Said("", {}, lines), labels, calls, text)
    requires var es := Said("", {}, lines); es != [] && es[|es| - 1].Finish?
    ensures var es, chunks := Said("", {}, lines), Emissions(Anthropic.Decode, Anthropic.EMPTY, lines);
      var Finish(reason, tokens) := es[|es| - 1];
      chunks != [] && chunks[|chunks| - 1] == Chunk("", calls, reason, Usage(0, if tokens.Some? then tokens.value else 0, 0))
  {
    var none: map<int, ToolCall> := map[];
    assert none.Keys == {} && Anthropic.EMPTY.calls == none;
    DecoderAnswers(Anthropic.EMPTY, lines);
    FinishedEventsAreComplete(Said("", {}, lines), labels, calls, text);
  }

  lemma FinishedEventsAreComplete(es: seq<Event>, labels: seq<int>, calls: seq<ToolCall>, text: string)
    requires Transmits(es, labels, calls, text) && es != [] && es[|es| - 1].Finish?
    ensures var Finish(reason, tokens) := es[|es| - 1];
      var chunks := Answers(map[], [], es);
      chunks != [] && chunks[|chunks| - 1] == Chunk("", calls, reason, UsageOf(tokens))
  {
    TransmittedIsBuilt(es, labels, calls, text);
    FinishIsAnsweredLast(map[], [], es, es[|es| - 1], calls);
    var chunks := Answers(map[], [], es);
    assert chunks[|chunks| - 1] == chunks[|chunks| - 1..][0];
  }

  /** Tokens are counted only in the chunk for an end of the message that counts them. */
  ghost predicate CountsTokens(c: Chunk, es: seq<Event>) {
    && c.Chunk? && c.usage.prompt == 0 && c.usage.total == 0
    && (c.usage.completion == 0 || Finish(c.finishReason, Some(c.usage.completion)) in es)
  }

  /** On every stream of lines no chunk reports prompt tokens or a total, nor tokens that were not sent. */
  lemma UsageIsWhatWasSent(lines: seq<Anthropic.Line>, c: Chunk)
    requires c in Emissions(Anthropic.Decode, Anthropic.EMPTY, lines)
    ensures CountsTokens(c, Said("", {}, lines))
  {
    var none: map<int, ToolCall> := map[];
    assert none.Keys == {} && Anthropic.EMPTY.calls == none;
    DecoderAnswers(Anthropic.EMPTY, lines);
    AnswersCountTokens(none, [], Said("", {}, lines), c);
  }

  lemma {:induction false} AnswersCountTokens(m: map<int, ToolCall>, order: seq<int>, es: seq<Event>, c: Chunk)
    requires c in Answers(m, order, es)
    ensures CountsTokens(c, es)
    decreases |es|
  {
    var m', order' := Apply(m, es[0]), Ordered(order, es[0]);
    if c in Answers(m', order', es[1..]) {
      AnswersCountTokens(m', order', es[1..], c);
    }
    assert forall e | e in es[1..] :: e in es;
  }

  /** The last event is answered last, with the calls built in the end. */
  lemma {:induction false} FinishIsAnsweredLast(m: map<int, ToolCall>, order: seq<int>, es: seq<Event>, last: Event,
                                                calls: seq<ToolCall>)
    requires es != [] && es[|es| - 1] == last && last.Finish?
    requires Anthropic.Build(Built(m, es), order + OpenIndexes(es)) == calls
    ensures EndsIn(Answers(m, order, es), Answer(last, calls))
    decreases |es|
  {
    if |es| == 1 {
      OnlyFinish(m, order, es);
    } else {
      var m', order', head := AnswersInTurn(m, order, es);
      FinishIsAnsweredLast(m', order', es[1..], last, calls);
      EndsInLater(head, Answers(m', order', es[1..]), Answer(last, calls));
    }
  }

  ghost predicate EndsIn(chunks: seq<Chunk>, end: seq<Chunk>) {
    |end| <= |chunks| && chunks[|chunks| - |end|..] == end
  }

  lemma EndsInLater(head: seq<Chunk>, later: seq<Chunk>, end: seq<Chunk>)
    requires EndsIn(later, end)
    ensures EndsIn(head + later, end)
  {
    assert (head + later)[|head + later| - |end|..] == later[|later| - |end|..];
  }

  /** The first event is answered, then the others, in a state that leads to the same end. */
  lemma AnswersInTurn(m: map<int, ToolCall>, order: seq<int>, es: seq<Event>)
    returns (m': map<int, ToolCall>, order': seq<int>, head: seq<Chunk>)
    requires es != []
    ensures Built(m', es[1..]) == Built(m, es) && order' + OpenIndexes(es[1..]) == order + OpenIndexes(es)
    ensures Answers(m, order, es) == head + Answers(m', order', es[1..])
  {
    m', order' := Apply(m, es[0]), Ordered(order, es[0]);
    head := Answer(es[0], Anthropic.Build(m', order'));
    Reordered(order, es);
  }

  lemma OnlyFinish(m: map<int, ToolCall>, order: seq<int>, es: seq<Event>)
    requires |es| == 1 && es[0].Finish?
    ensures Built(m, es) == m && order + OpenIndexes(es) == order
    ensures Answers(m, order, es) == Answer(es[0], Anthropic.Build(m, order))
  {
    assert es[1..] == [];
    EmptyRight(order);
    EmptyRight(Answer(es[0], Anthropic.Build(m, order)));
  }

  lemma Reordered(order: seq<int>, es: seq<Event>)
    requires es != []
    ensures Ordered(order, es[0]) + OpenIndexes(es[1..]) == order + OpenIndexes(es)
  {
    if es[0].Open? {
      Associate(order, [es[0].index], OpenIndexes(es[1..]));
    } else {
      EmptyLeft(OpenIndexes(es[1..]));
    }
  }

  // ---------------------------------------------------------------------------------------
  // Blocks opened twice
  // ---------------------------------------------------------------------------------------

  /** The list built has an entry for every start, and so one for each block iff no block is started twice. */
  lemma OneEntryPerBlockIff(es: seq<Event>)
    ensures var m, order := Built(map[], es), OpenIndexes(es);
      && |Anthropic.Build(m, order)| == |order|
      && (|Anthropic.Build(m, order)| == |m| <==> Distinct(order))
  {
    var m, order := Built(map[], es), OpenIndexes(es);
    OnlyOpenedBlocks(map[], es);
    BuildKeepsLength(m, order);
    CardinalityIff(order);
    var none: map<int, ToolCall> := map[];
    assert forall i :: i in m <==> i in none || i in order;
    assert m.Keys == set i | i in order;
  }

  function ToolStart(c: ToolCall): Anthropic.Line {
    Anthropic.Data(Anthropic.Payload(Some(Anthropic.BlockStart(0, true, c.id, c.name)), None, None))
  }

  /** A message that starts the block of index 0 twice. */
  function StartedTwice(first: ToolCall, second: ToolCall, reason: string): seq<Anthropic.Line> {
    [Anthropic.Event("content_block_start"), ToolStart(first), ToolStart(second), Anthropic.Event("message_delta"),
     Anthropic.Data(Anthropic.Payload(None, None, Some(Anthropic.MessageDelta(reason, None))))]
  }

  /** It ends with two copies of the second call. */
  lemma SecondStartDuplicates(first: ToolCall, second: ToolCall, reason: string)
    ensures var twice := ToolCall(second.id, second.name, "");
      Emissions(Anthropic.Decode, Anthropic.EMPTY, StartedTwice(first, second, reason)) ==
      [Chunk("", [twice, twice], reason, Usage(0, 0, 0))]
  {
    var twice := ToolCall(second.id, second.name, "");
    var lines := StartedTwice(first, second, reason);
    var acc1 := Anthropic.Accumulator("content_block_start", map[], []);
    var acc2 := acc1.(calls := map[0 := ToolCall(first.id, first.name, "")], order := [0]);
    var acc3 := acc1.(calls := map[0 := twice], order := [0, 0]);
    assert acc1.calls[0 := acc2.calls[0]] == acc2.calls && acc1.order + [0] == acc2.order;
    assert acc2.calls[0 := twice] == acc3.calls && acc2.order + [0] == acc3.order;
    assert Anthropic.Decode(Anthropic.EMPTY, lines[0]) == (acc1, Skip);
    assert Anthropic.Decode(acc1, lines[1]) == (acc2, Skip);
    assert Anthropic.Decode(acc2, lines[2]) == (acc3, Skip);
    OneLine(Anthropic.EMPTY, lines);
    OneLine(acc1, lines[1..]);
    OneLine(acc2, lines[2..]);
    OneLine(acc3, lines[3..]);
    LastLine(acc3.(event := "message_delta"), lines[4..], reason);
    BuiltTwice(twice);
  }

  lemma BuiltTwice(c: ToolCall)
    ensures Anthropic.Build(map[0 := c], [0, 0]) == [c, c]
  {
    assert [0, 0][..1] == [0] && [0][..0] == [];
    assert Anthropic.Build(map[0 := c], [0]) == [c];
  }

  lemma OneLine(acc: Anthropic.Accumulator, lines: seq<Anthropic.Line>)
    requires lines != [] && Anthropic.Decode(acc, lines[0]).1.Skip?
    ensures Emissions(Anthropic.Decode, acc, lines) == Emissions(Anthropic.Decode, Anthropic.Decode(acc, lines[0]).0, lines[1..])
  {
  }

  lemma LastLine(acc: Anthropic.Accumulator, lines: seq<Anthropic.Line>, reason: string)
    requires acc.event == "message_delta" && |lines| == 1
    requires lines[0] == Anthropic.Data(Anthropic.Payload(None, None, Some(Anthropic.MessageDelta(reason, None))))
    ensures Emissions(Anthropic.Decode, acc, lines) == [Chunk("", Anthropic.Calls(acc), reason, NO_USAGE)]
  {
    assert lines[1..] == [];
    assert Emissions(Anthropic.Decode, acc, lines[1..]) == [];
  }
}
