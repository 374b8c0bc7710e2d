/** The OpenAI-compatible stream decoder: the goroutine of ai/providers/streaming.go. */
module OpenAI {
  import opened Sequences
  import opened Values
  import opened Streams

  datatype Delta = Delta(index: int, id: string, name: string, arguments: string)

  datatype Choice = Choice(content: string, finishReason: string, toolCalls: seq<Delta>)

  /** A line of the stream, its JSON decoded. */
  datatype Line =
    | Blank
    | NotData
    | Done
    | Malformed
    | Data(choices: seq<Choice>, usage: Option<Usage>)

  // ---------------------------------------------------------------------------------------
  // The accumulator as a value
  // ---------------------------------------------------------------------------------------

  /** `count` is one more than the highest index seen. */
  datatype Accumulator = Accumulator(calls: map<int, ToolCall>, count: nat)

  const EMPTY := Accumulator(map[], 0)

  function Add(acc: Accumulator, d: Delta): Accumulator {
    if d.index in acc.calls then
      var prev := acc.calls[d.index];
      acc.(calls := acc.calls[d.index := ToolCall(if d.id != "" then d.id else prev.id,
                                                  if d.name != "" then d.name else prev.name,
                                                  prev.arguments + d.arguments)])
    else Accumulator(acc.calls[d.index := ToolCall(d.id, d.name, d.arguments)],
                     if d.index >= acc.count then d.index + 1 else acc.count)
  }

  function AddAll(acc: Accumulator, ds: seq<Delta>): Accumulator {
    if ds == [] then acc else Add(AddAll(acc, ds[..|ds| - 1]), ds[|ds| - 1])
  }

  /** The calls with index below `n`, by index. */
  function CallsBelow(calls: map<int, ToolCall>, n: nat): seq<ToolCall> {
    if n == 0 then []
    else CallsBelow(calls, n - 1) + if n - 1 in calls then [calls[n - 1]] else []
  }

  function Calls(acc: Accumulator): seq<ToolCall> { CallsBelow(acc.calls, acc.count) }

  function Decode(acc: Accumulator, line: Line): (Accumulator, Reaction) {
    match line
    case Blank => (acc, Skip)
    case NotData => (acc, Skip)
    case Done => (acc, Stop)
    case Malformed => (acc, Skip)
    case Data(choices, usage) =>
      var u := if usage.Some? then usage.value else NO_USAGE;
      if choices == [] then (acc, Emit(Chunk("", [], "", u)))
      else
        var next := AddAll(acc, choices[0].toolCalls);
        (next, Emit(Chunk(choices[0].content, Calls(next), choices[0].finishReason, u)))
  }

  // ---------------------------------------------------------------------------------------
  // The accumulator as the goroutine keeps it
  // ---------------------------------------------------------------------------------------

  class StreamReader {
    var toolCallAccum: map<int, ToolCall>
    var toolCallCount: nat

    ghost function State(): Accumulator reads this { Accumulator(toolCallAccum, toolCallCount) }

    constructor ()
      ensures State() == EMPTY
    {
      toolCallAccum, toolCallCount := map[], 0;
    }

    method Accumulate(deltas: seq<Delta>)
      modifies this
      ensures State() == AddAll(old(State()), deltas)
    {
      for i := 0 to |deltas|
        invariant State() == AddAll(old(State()), deltas[..i])
      {
        assert deltas[..i + 1][..i] == deltas[..i];
        var tc := deltas[i];
        if tc.index in toolCallAccum {
          var existing := toolCallAccum[tc.index];
          if tc.id != "" {
            existing := existing.(id := tc.id);
          }
          if tc.name != "" {
            existing := existing.(name := tc.name);
          }
          existing := existing.(arguments := existing.arguments + tc.arguments);
          toolCallAccum := toolCallAccum[tc.index := existing];
        } else {
          toolCallAccum := toolCallAccum[tc.index := ToolCall(tc.id, tc.name, tc.arguments)];
          if tc.index >= toolCallCount {
            toolCallCount := tc.index + 1;
          }
        }
      }
      assert deltas[..|deltas|] == deltas;
    }

    method CurrentCalls() returns (calls: seq<ToolCall>)
      ensures calls == Calls(State())
    {
      calls := [];
      for i := 0 to toolCallCount
        invariant calls == CallsBelow(toolCallAccum, i)
      {
        if i in toolCallAccum {
          calls := calls + [toolCallAccum[i]];
        }
      }
    }

    method HandleLine(line: Line) returns (reaction: Reaction)
      modifies this
      ensures (State(), reaction) == Decode(old(State()), line)
    {
      match line
      case Blank => return Skip;
      case NotData => return Skip;
      case Done => return Stop;
      case Malformed => return Skip;
      case Data(choices, usage) =>
        var content, finishReason, calls := "", "", [];
        if |choices| > 0 {
          content := choices[0].content;
          finishReason := choices[0].finishReason;
          if |choices[0].toolCalls| > 0 {
            Accumulate(choices[0].toolCalls);
          }
          if toolCallCount > 0 {
            calls := CurrentCalls();
          }
        }
        reaction := Emit(Chunk(content, calls, finishReason, if usage.Some? then usage.value else NO_USAGE));
    }
  }

  // ---------------------------------------------------------------------------------------
  // The accumulator is a fold per index
  // ---------------------------------------------------------------------------------------

  /** The deltas for one index, in order. */
  function Of(ds: seq<Delta>, index: int): seq<Delta> {
    if ds == [] then []
    else Of(ds[..|ds| - 1], index) + if ds[|ds| - 1].index == index then [ds[|ds| - 1]] else []
  }

  function LastId(ds: seq<Delta>): string {
    if ds == [] then "" else if ds[|ds| - 1].id != "" then ds[|ds| - 1].id else LastId(ds[..|ds| - 1])
  }

  function LastName(ds: seq<Delta>): string {
    if ds == [] then "" else if ds[|ds| - 1].name != "" then ds[|ds| - 1].name else LastName(ds[..|ds| - 1])
  }

  function AllArguments(ds: seq<Delta>): string {
    if ds == [] then "" else AllArguments(ds[..|ds| - 1]) + ds[|ds| - 1].arguments
  }

  /** The last non-empty identifier and name, and all arguments in order. */
  function Merged(ds: seq<Delta>): ToolCall { ToolCall(LastId(ds), LastName(ds), AllArguments(ds)) }

  ghost predicate IsCount(calls: map<int, ToolCall>, count: nat) {
    (forall i | i in calls :: i < count) && (count > 0 ==> count - 1 in calls)
  }

  /** After any deltas, an index has a call iff a delta named it, and the call is the merge of the
      deltas for that index alone. */
  lemma {:induction false} AccumulatorIsFoldPerIndex(ds: seq<Delta>, i: int)
    ensures var calls := AddAll(EMPTY, ds).calls;
      (i in calls <==> Of(ds, i) != []) && (i in calls ==> calls[i] == Merged(Of(ds, i)))
  {
    if ds != [] {
      var init, d := ds[..|ds| - 1], ds[|ds| - 1];
      AccumulatorIsFoldPerIndex(init, i);
      if d.index == i {
        MergeOneMore(Of(init, i), d);
        EmptyLeft(d.arguments);
        assert Of(ds, i) == Of(init, i) + [d];
        assert Merged(Of(init, i)) == ToolCall(LastId(Of(init, i)), LastName(Of(init, i)), AllArguments(Of(init, i)));
      } else {
        assert Of(ds, i) == Of(init, i);
      }
    }
  }

  /** `count` is one more than the highest non-negative index, and 0 without one. */
  lemma {:induction false} CountIsHighest(ds: seq<Delta>)
    ensures IsCount(AddAll(EMPTY, ds).calls, AddAll(EMPTY, ds).count)
  {
    if ds != [] {
      CountIsHighest(ds[..|ds| - 1]);
    }
  }

  lemma MergeOneMore(ds: seq<Delta>, d: Delta)
    ensures Merged(ds + [d]) == ToolCall(if d.id != "" then d.id else LastId(ds),
                                         if d.name != "" then d.name else LastName(ds),
                                         AllArguments(ds) + d.arguments)
  {
    assert (ds + [d])[..|ds|] == ds;
  }

  /** The calls emitted are those with non-negative index, each once, in increasing index order. */
  lemma EmittedCallsAreOrdered(ds: seq<Delta>) returns (indexes: seq<int>)
    ensures var acc := AddAll(EMPTY, ds);
      && |indexes| == |Calls(acc)|
      && (forall k | 0 <= k < |indexes| :: indexes[k] in acc.calls && Calls(acc)[k] == Merged(Of(ds, indexes[k])))
      && (forall j, k | 0 <= j < k < |indexes| :: indexes[j] < indexes[k])
      && (forall i :: i in indexes <==> i >= 0 && Of(ds, i) != [])
  {
    CountIsHighest(ds);
    var acc := AddAll(EMPTY, ds);
    indexes := IndexesBelow(acc.calls, acc.count);
    forall i ensures i in acc.calls <==> Of(ds, i) != [] {
      AccumulatorIsFoldPerIndex(ds, i);
    }
    forall k | 0 <= k < |indexes| ensures acc.calls[indexes[k]] == Merged(Of(ds, indexes[k])) {
      AccumulatorIsFoldPerIndex(ds, indexes[k]);
    }
  }

  lemma {:induction false} IndexesBelow(calls: map<int, ToolCall>, n: nat) returns (indexes: seq<int>)
    ensures |indexes| == |CallsBelow(calls, n)|
    ensures forall k | 0 <= k < |indexes| :: indexes[k] in calls && CallsBelow(calls, n)[k] == calls[indexes[k]]
    ensures forall j, k | 0 <= j < k < |indexes| :: indexes[j] < indexes[k]
    ensures forall i :: i in indexes <==> 0 <= i < n && i in calls
  {
    indexes := [];
    if n > 0 {
      indexes := IndexesBelow(calls, n - 1);
      if n - 1 in calls {
        indexes := indexes + [n - 1];
      }
    }
  }

  /** How the deltas of different indexes are interleaved makes no difference. */
  lemma InterleavingIsImmaterial(ds: seq<Delta>, es: seq<Delta>)
    requires forall i :: Of(ds, i) == Of(es, i)
    ensures AddAll(EMPTY, ds) == AddAll(EMPTY, es)
  {
    var a, b := AddAll(EMPTY, ds), AddAll(EMPTY, es);
    forall i ensures (i in a.calls <==> i in b.calls) && (i in a.calls ==> a.calls[i] == b.calls[i]) {
      AccumulatorIsFoldPerIndex(ds, i);
      AccumulatorIsFoldPerIndex(es, i);
      assert Of(ds, i) == Of(es, i);
    }
    CountIsHighest(ds);
    CountIsHighest(es);
    SameCount(a, b);
  }

  lemma SameCount(a: Accumulator, b: Accumulator)
    requires a.calls == b.calls && IsCount(a.calls, a.count) && IsCount(b.calls, b.count)
    ensures a == b
  {
    assert a.count > 0 ==> a.count - 1 < b.count;
    assert b.count > 0 ==> b.count - 1 < a.count;
  }

  /** The arguments of an index only ever grow at the end. */
  lemma {:induction false} ArgumentsOnlyGrow(acc: Accumulator, ds: seq<Delta>, i: int)
    requires i in acc.calls
    ensures i in AddAll(acc, ds).calls && acc.calls[i].arguments <= AddAll(acc, ds).calls[i].arguments
  {
    if ds != [] {
      ArgumentsOnlyGrow(acc, ds[..|ds| - 1], i);
    }
  }

  lemma {:induction false} AddAllConcat(acc: Accumulator, ds: seq<Delta>, es: seq<Delta>)
    ensures AddAll(acc, ds + es) == AddAll(AddAll(acc, ds), es)
    decreases |es|
  {
    if es == [] {
      assert ds + es == ds;
    } else {
      AddAllConcat(acc, ds, es[..|es| - 1]);
      assert (ds + es)[..|ds + es| - 1] == ds + es[..|es| - 1];
    }
  }

  lemma DecodeIsErrorFree()
    ensures ErrorFree(Decode)
  {
  }
}
