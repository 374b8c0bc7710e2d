/** The OpenAI decoder inverts fragmentation, on every stream of lines. */
module OpenAITheorems {
  import opened Sequences
  import opened Values
  import opened Streams
  import opened StreamEvents
  import OpenAI

  // ---------------------------------------------------------------------------------------
  // What the OpenAI decoder makes of its lines
  // ---------------------------------------------------------------------------------------

  /** The data lines, up to the end mark. Blank, malformed and other lines say nothing. */
  function DataLines(lines: seq<OpenAI.Line>): (data: seq<OpenAI.Line>)
    ensures forall l | l in data :: l.Data?
  {
    if lines == [] || lines[0].Done? then []
    else (if lines[0].Data? then [lines[0]] else []) + DataLines(lines[1..])
  }

  /** A data line without choices carries usage alone. */
  predicate HasChoices(l: OpenAI.Line) { l.Data? && l.choices != [] }

  function LineDeltas(l: OpenAI.Line): seq<OpenAI.Delta> { if HasChoices(l) then l.choices[0].toolCalls else [] }

  function LineText(l: OpenAI.Line): string { if HasChoices(l) then l.choices[0].content else "" }

  function AllDeltas(data: seq<OpenAI.Line>): seq<OpenAI.Delta> {
    if data == [] then [] else LineDeltas(data[0]) + AllDeltas(data[1..])
  }

  function AllText(data: seq<OpenAI.Line>): string {
    if data == [] then "" else LineText(data[0]) + AllText(data[1..])
  }

  /** The chunk for a data line, `acc` being the accumulator after it. */
  function ChunkFor(acc: OpenAI.Accumulator, l: OpenAI.Line): Chunk
    requires l.Data?
  {
    var usage := if l.usage.Some? then l.usage.value else NO_USAGE;
    if HasChoices(l) then Chunk(l.choices[0].content, OpenAI.Calls(acc), l.choices[0].finishReason, usage)
    else Chunk("", [], "", usage)
  }

  /** On every stream of lines, there is one chunk for each data line. */
  lemma {:induction false} EachDataLineIsAnswered(acc: OpenAI.Accumulator, lines: seq<OpenAI.Line>)
    ensures var chunks, data := Emissions(OpenAI.Decode, acc, lines), DataLines(lines);
      && |chunks| == |data|
      && forall j | 0 <= j < |data| :: chunks[j] == ChunkFor(OpenAI.AddAll(acc, AllDeltas(data[..j + 1])), data[j])
    decreases |lines|
  {
    if lines != [] && !lines[0].Done? {
      var l, rest := lines[0], lines[1..];
      if l.Data? {
        var next := OpenAI.AddAll(acc, LineDeltas(l));
        EachDataLineIsAnswered(next, rest);
        var data, chunks := DataLines(rest), Emissions(OpenAI.Decode, next, rest);
        assert Emissions(OpenAI.Decode, acc, lines) == [ChunkFor(next, l)] + chunks;
        forall j | 0 <= j < |data| + 1
          ensures ([ChunkFor(next, l)] + chunks)[j] ==
                  ChunkFor(OpenAI.AddAll(acc, AllDeltas(([l] + data)[..j + 1])), ([l] + data)[j])
        {
          AccumulatedUpTo(acc, l, data, j);
        }
      } else {
        EachDataLineIsAnswered(acc, rest);
        EmptyLeft(DataLines(rest));
      }
    }
  }

  lemma AccumulatedUpTo(acc: OpenAI.Accumulator, l: OpenAI.Line, data: seq<OpenAI.Line>, j: nat)
    requires j <= |data|
    ensures OpenAI.AddAll(acc, AllDeltas(([l] + data)[..j + 1])) ==
            OpenAI.AddAll(OpenAI.AddAll(acc, LineDeltas(l)), AllDeltas(data[..j]))
  {
    DeltasUpTo(l, data, j);
    OpenAI.AddAllConcat(acc, LineDeltas(l), AllDeltas(data[..j]));
  }

  lemma DeltasUpTo(l: OpenAI.Line, data: seq<OpenAI.Line>, j: nat)
    requires j <= |data|
    ensures AllDeltas(([l] + data)[..j + 1]) == LineDeltas(l) + AllDeltas(data[..j])
  {
    var upTo := ([l] + data)[..j + 1];
    assert upTo[0] == l && upTo[1..] == data[..j];
  }

  lemma {:induction false} DataLinesCarryText(acc: OpenAI.Accumulator, lines: seq<OpenAI.Line>)
    ensures ConcatContent(Emissions(OpenAI.Decode, acc, lines)) == AllText(DataLines(lines))
    decreases |lines|
  {
    if lines != [] && !lines[0].Done? {
      var l, rest := lines[0], lines[1..];
      var (next, reaction) := OpenAI.Decode(acc, l);
      DataLinesCarryText(next, rest);
      if l.Data? {
        var chunk := reaction.chunk;
        ConcatContentConcat([chunk], Emissions(OpenAI.Decode, next, rest));
        ContentOfOne(chunk);
        TailOfCons(l, DataLines(rest));
      } else {
        EmptyLeft(DataLines(rest));
      }
    }
  }

  // ---------------------------------------------------------------------------------------
  // Which calls the deltas announce
  // ---------------------------------------------------------------------------------------

  ghost predicate Increasing(xs: seq<int>) {
    forall j, k | 0 <= j < k < |xs| :: xs[j] < xs[k]
  }

  lemma FirstIsLeast(xs: seq<int>, x: int)
    requires Increasing(xs) && x in xs
    ensures xs[0] <= x
  {
    var k :| 0 <= k < |xs| && xs[k] == x;
  }

  /** An increasing sequence is determined by its members. */
  lemma {:induction false} IncreasingIsUnique(xs: seq<int>, ys: seq<int>)
    requires Increasing(xs) && Increasing(ys) && forall i :: i in xs <==> i in ys
    ensures xs == ys
    decreases |xs|
  {
    SameMembersEmpty(xs, ys);
    if xs != [] {
      FirstIsLeast(xs, ys[0]);
      FirstIsLeast(ys, xs[0]);
      forall i ensures i in xs[1..] <==> i in ys[1..] {
        assert i in xs <==> i == xs[0] || i in xs[1..];
        assert i in ys <==> i == ys[0] || i in ys[1..];
      }
      IncreasingIsUnique(xs[1..], ys[1..]);
    }
  }

  /** The deltas announce `calls`, the k-th under index `labels[k]`: for each index they hold its last
      identifier, its last name and all of its arguments, fragmented and interleaved in any way. */
  ghost predicate Announces(ds: seq<OpenAI.Delta>, labels: seq<int>, calls: seq<ToolCall>) {
    && |labels| == |calls| && Increasing(labels) && (forall k | 0 <= k < |labels| :: labels[k] >= 0)
    && (forall i :: i in labels <==> OpenAI.Of(ds, i) != [])
    && forall k | 0 <= k < |calls| :: OpenAI.Merged(OpenAI.Of(ds, labels[k])) == calls[k]
  }

  lemma AnnouncedIsAccumulated(ds: seq<OpenAI.Delta>, labels: seq<int>, calls: seq<ToolCall>)
    requires Announces(ds, labels, calls)
    ensures OpenAI.Calls(OpenAI.AddAll(OpenAI.EMPTY, ds)) == calls
  {
    var acc := OpenAI.AddAll(OpenAI.EMPTY, ds);
    OpenAI.CountIsHighest(ds);
    forall i ensures i in acc.calls <==> i in labels {
      OpenAI.AccumulatorIsFoldPerIndex(ds, i);
    }
    forall k | 0 <= k < |calls| ensures labels[k] in acc.calls && acc.calls[labels[k]] == calls[k] {
      OpenAI.AccumulatorIsFoldPerIndex(ds, labels[k]);
    }
    OrderedCalls(acc, labels, calls);
  }

  lemma OrderedCalls(acc: OpenAI.Accumulator, labels: seq<int>, calls: seq<ToolCall>)
    requires OpenAI.IsCount(acc.calls, acc.count)
    requires Increasing(labels) && |labels| == |calls| && forall k | 0 <= k < |labels| :: labels[k] >= 0
    requires forall i :: i in acc.calls <==> i in labels
    requires forall k | 0 <= k < |calls| :: labels[k] in acc.calls && acc.calls[labels[k]] == calls[k]
    ensures OpenAI.Calls(acc) == calls
  {
    var indexes := OpenAI.IndexesBelow(acc.calls, acc.count);
    IncreasingIsUnique(indexes, labels);
  }

  /** The last line with choices: what follows carries usage alone. */
  ghost predicate IsLastWithChoices(data: seq<OpenAI.Line>, j: nat) {
    j < |data| && HasChoices(data[j]) && forall k | j < k < |data| :: !HasChoices(data[k])
  }

  lemma {:induction false} NoMoreDeltas(data: seq<OpenAI.Line>, j: nat)
    requires j <= |data| && forall k | j <= k < |data| :: !HasChoices(data[k])
    ensures AllDeltas(data[..j]) == AllDeltas(data)
    decreases |data|
  {
    if data != [] {
      var l, rest := data[0], data[1..];
      assert data == [l] + rest;
      assert forall k | 0 <= k < |rest| :: rest[k] == data[k + 1];
      if j > 0 {
        NoMoreDeltas(rest, j - 1);
        DeltasUpTo(l, rest, j - 1);
      } else {
        NoMoreDeltas(rest, 0);
        EmptyLeft(AllDeltas(rest));
      }
    }
  }

  ghost predicate OpenAIDelivers(lines: seq<OpenAI.Line>, chunks: seq<Chunk>, calls: seq<ToolCall>, text: string) {
    var data := DataLines(lines);
    && ConcatContent(chunks) == text && |chunks| == |data|
    && forall j | 0 <= j < |data| ::
         && chunks[j].Chunk?
         && chunks[j].usage == (if data[j].usage.Some? then data[j].usage.value else Usage(0, 0, 0))
         && chunks[j].finishReason == (if HasChoices(data[j]) then data[j].choices[0].finishReason else "")
         && (!HasChoices(data[j]) ==> chunks[j].toolCalls == [])
         && (IsLastWithChoices(data, j) ==> chunks[j].toolCalls == calls)
  }

  /** On every stream of lines whose deltas announce the calls, there is one chunk for each data line,
      the contents concatenate to the text, and the chunk of the last line with choices carries
      exactly the calls. */
  lemma OpenAIGathersCalls(lines: seq<OpenAI.Line>, labels: seq<int>, calls: seq<ToolCall>)
    requires Announces(AllDeltas(DataLines(lines)), labels, calls)
    ensures OpenAIDelivers(lines, Emissions(OpenAI.Decode, OpenAI.EMPTY, lines), calls, AllText(DataLines(lines)))
  {
    var data, chunks := DataLines(lines), Emissions(OpenAI.Decode, OpenAI.EMPTY, lines);
    EachDataLineIsAnswered(OpenAI.EMPTY, lines);
    DataLinesCarryText(OpenAI.EMPTY, lines);
    forall j | 0 <= j < |data| && IsLastWithChoices(data, j) ensures chunks[j].toolCalls == calls {
      LastChunkWithChoices(data, labels, calls, j);
    }
  }

  lemma LastChunkWithChoices(data: seq<OpenAI.Line>, labels: seq<int>, calls: seq<ToolCall>, j: nat)
    requires Announces(AllDeltas(data), labels, calls) && IsLastWithChoices(data, j)
    ensures ChunkFor(OpenAI.AddAll(OpenAI.EMPTY, AllDeltas(data[..j + 1])), data[j]).toolCalls == calls
  {
    NoMoreDeltas(data, j + 1);
    AnnouncedIsAccumulated(AllDeltas(data), labels, calls);
  }

  /** With any calls at all, the last chunk carries them iff the last data line has choices: a line with
      usage alone, which the client asks for, is answered by a last chunk without calls. */
  lemma FinalChunkIsCompleteIffChoices(lines: seq<OpenAI.Line>, labels: seq<int>, calls: seq<ToolCall>)
    requires Announces(AllDeltas(DataLines(lines)), labels, calls) && calls != []
    ensures var data, chunks := DataLines(lines), Emissions(OpenAI.Decode, OpenAI.EMPTY, lines);
      && data != [] && |chunks| == |data| && chunks[|chunks| - 1].Chunk?
      && (chunks[|chunks| - 1].toolCalls == calls <==> HasChoices(data[|data| - 1]))
  {
    OpenAIGathersCalls(lines, labels, calls);
    assert labels[0] in labels;
  }

  /** Such a stream. */
  lemma UsageAloneEndsWithoutCalls(call: ToolCall, usage: Usage)
    ensures var lines := [OpenAI.Data([OpenAI.Choice("", "tool_calls", [OpenAI.Delta(0, call.id, call.name, call.arguments)])], None),
                          OpenAI.Data([], Some(usage)), OpenAI.Done];
      && Announces(AllDeltas(DataLines(lines)), [0], [call])
      && Emissions(OpenAI.Decode, OpenAI.EMPTY, lines) ==
         [Chunk("", [call], "tool_calls", Usage(0, 0, 0)), Chunk("", [], "", usage)]
  {
    var d := OpenAI.Delta(0, call.id, call.name, call.arguments);
    var first := OpenAI.Data([OpenAI.Choice("", "tool_calls", [d])], None);
    var last := OpenAI.Data([], Some(usage));
    var lines := [first, last, OpenAI.Done];
    TwoDataLines(first, last);
    OneDelta(d, last);
    OneAnnounced(d);
    OpenAIGathersCalls(lines, [0], [call]);
    assert IsLastWithChoices([first, last], 0);
  }

  lemma TwoDataLines(first: OpenAI.Line, last: OpenAI.Line)
    requires first.Data? && last.Data?
    ensures DataLines([first, last, OpenAI.Done]) == [first, last]
  {
    var lines := [first, last, OpenAI.Done];
    assert lines[1..] == [last, OpenAI.Done] && lines[1..][1..] == [OpenAI.Done];
    assert DataLines([OpenAI.Done]) == [];
  }

  lemma OneAnnounced(d: OpenAI.Delta)
    requires d.index == 0
    ensures Announces([d], [0], [ToolCall(d.id, d.name, d.arguments)])
  {
    forall i ensures OpenAI.Of([d], i) == if i == 0 then [d] else [] {
      assert [d][..|[d]| - 1] == [];
    }
    MergedOne(d);
  }

  lemma OneDelta(d: OpenAI.Delta, last: OpenAI.Line)
    requires last.Data? && last.choices == []
    ensures AllDeltas([OpenAI.Data([OpenAI.Choice("", "tool_calls", [d])], None), last]) == [d]
  {
    var data := [OpenAI.Data([OpenAI.Choice("", "tool_calls", [d])], None), last];
    assert data[1..] == [last] && [last][1..] == [];
    assert AllDeltas([last]) == [];
  }

  lemma MergedOne(d: OpenAI.Delta)
    ensures OpenAI.Merged([d]) == ToolCall(d.id, d.name, d.arguments)
  {
    var none: seq<OpenAI.Delta> := [];
    assert [d][..|[d]| - 1] == none;
    assert OpenAI.AllArguments(none) == "" && OpenAI.LastId(none) == "" && OpenAI.LastName(none) == "";
    EmptyLeft(d.arguments);
  }

  // ---------------------------------------------------------------------------------------
  // The same events on both wires
  // ---------------------------------------------------------------------------------------

  function DeltasFor(e: Event): seq<OpenAI.Delta> {
    match e
    case Open(i, id, name) => [OpenAI.Delta(i, id, name, "")]
    case Fragment(i, t) => [OpenAI.Delta(i, "", "", t)]
    case _ => []
  }

  function Deltas(es: seq<Event>): seq<OpenAI.Delta> {
    if es == [] then [] else DeltasFor(es[0]) + Deltas(es[1..])
  }

  function Joined(packets: seq<seq<Event>>): seq<Event> {
    if packets == [] then [] else packets[0] + Joined(packets[1..])
  }

  /** The lines with choices carry the packets of events in order; finish reasons, usage and the lines
      between them are arbitrary. */
  predicate Carries(data: seq<OpenAI.Line>, packets: seq<seq<Event>>) {
    if data == [] then packets == []
    else if HasChoices(data[0]) then
      && packets != []
      && LineText(data[0]) == TextOf(packets[0]) && LineDeltas(data[0]) == Deltas(packets[0])
      && Carries(data[1..], packets[1..])
    else Carries(data[1..], packets)
  }

  lemma {:induction false} CarriedEvents(data: seq<OpenAI.Line>, packets: seq<seq<Event>>)
    requires Carries(data, packets)
    ensures AllText(data) == TextOf(Joined(packets)) && AllDeltas(data) == Deltas(Joined(packets))
    decreases |data|
  {
    if data != [] {
      if HasChoices(data[0]) {
        CarriedEvents(data[1..], packets[1..]);
        TextOfConcat(packets[0], Joined(packets[1..]));
        DeltasConcat(packets[0], Joined(packets[1..]));
      } else {
        CarriedEvents(data[1..], packets);
        EmptyLeft(AllText(data[1..]));
        EmptyLeft(AllDeltas(data[1..]));
      }
    }
  }

  lemma {:induction false} TextOfConcat(a: seq<Event>, b: seq<Event>)
    ensures TextOf(a + b) == TextOf(a) + TextOf(b)
  {
    if a == [] {
      assert a + b == b;
      EmptyLeft(TextOf(b));
    } else {
      TextOfConcat(a[1..], b);
      assert (a + b)[1..] == a[1..] + b;
      Associate(TextPart(a[0]), TextOf(a[1..]), TextOf(b));
    }
  }

  lemma {:induction false} DeltasConcat(a: seq<Event>, b: seq<Event>)
    ensures Deltas(a + b) == Deltas(a) + Deltas(b)
  {
    if a == [] {
      assert a + b == b;
      EmptyLeft(Deltas(b));
    } else {
      DeltasConcat(a[1..], b);
      assert (a + b)[1..] == a[1..] + b;
      Associate(DeltasFor(a[0]), Deltas(a[1..]), Deltas(b));
    }
  }

  /** When blocks are opened once, the OpenAI accumulator keeps the same table. */
  lemma {:induction false} OpenAITable(acc: OpenAI.Accumulator, es: seq<Event>)
    requires WellOpened(es, acc.calls.Keys)
    ensures OpenAI.AddAll(acc, Deltas(es)).calls == Built(acc.calls, es)
    decreases |es|
  {
    if es != [] {
      var next := Apply(acc.calls, es[0]);
      assert next.Keys == if es[0].Open? then acc.calls.Keys + {es[0].index} else acc.calls.Keys;
      if es[0].Open? || es[0].Fragment? {
        var d := DeltasFor(es[0])[0];
        assert DeltasFor(es[0]) == [d];
        OpenAI.AddAllConcat(acc, [d], Deltas(es[1..]));
        assert [d][..0] == [];
        assert OpenAI.AddAll(acc, [d]) == OpenAI.Add(acc, d);
        OpenAITable(OpenAI.Add(acc, d), es[1..]);
      } else {
        EmptyLeft(Deltas(es[1..]));
        OpenAITable(acc, es[1..]);
      }
    }
  }

  /** Events that transmit calls under increasing indexes announce them. */
  lemma TransmittedIsAnnounced(es: seq<Event>, labels: seq<int>, calls: seq<ToolCall>, text: string)
    requires Transmits(es, labels, calls, text)
    requires Increasing(labels) && (forall k | 0 <= k < |labels| :: labels[k] >= 0)
    ensures Announces(Deltas(es), labels, calls)
  {
    assert OpenAI.EMPTY.calls.Keys == {};
    OpenAITable(OpenAI.EMPTY, es);
    TableIsTransmitted(es, labels, calls, text);
    forall i ensures i in labels <==> OpenAI.Of(Deltas(es), i) != [] {
      OpenAI.AccumulatorIsFoldPerIndex(Deltas(es), i);
    }
    forall k | 0 <= k < |calls| ensures OpenAI.Merged(OpenAI.Of(Deltas(es), labels[k])) == calls[k] {
      OpenAI.AccumulatorIsFoldPerIndex(Deltas(es), labels[k]);
    }
  }

  /** Whatever the fragmentation, the packets and the other lines, the chunk of the last line with
      choices carries exactly the calls transmitted, and the contents concatenate to the text. */
  lemma OpenAIInvertsFragmentation(lines: seq<OpenAI.Line>, packets: seq<seq<Event>>, labels: seq<int>,
                                   calls: seq<ToolCall>, text: string)
    requires Carries(DataLines(lines), packets) && Transmits(Joined(packets), labels, calls, text)
    requires Increasing(labels) && (forall k | 0 <= k < |labels| :: labels[k] >= 0)
    ensures OpenAIDelivers(lines, Emissions(OpenAI.Decode, OpenAI.EMPTY, lines), calls, text)
  {
    CarriedEvents(DataLines(lines), packets);
    TransmittedIsAnnounced(Joined(packets), labels, calls, text);
    OpenAIGathersCalls(lines, labels, calls);
  }
}
