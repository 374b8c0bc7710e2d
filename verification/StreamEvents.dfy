/** What a model sends, independent of the wire, and the calls it amounts to. */
module StreamEvents {
  import opened Sequences
  import opened Values
  import opened Streams

  // ---------------------------------------------------------------------------------------
  // What a model sends, independent of the wire
  // ---------------------------------------------------------------------------------------

  /** A tool block opens or receives a fragment of its arguments; a block ends; text is sent, possibly
      none; or the message ends, perhaps with a count of tokens. */
  datatype Event =
    | Open(index: int, id: string, name: string)
    | Fragment(index: int, arguments: string)
    | End
    | Text(text: string)
    | Finish(reason: string, tokens: Option<int>)

  function TextPart(e: Event): string { if e.Text? then e.text else "" }

  function TextOf(es: seq<Event>): string {
    if es == [] then "" else TextPart(es[0]) + TextOf(es[1..])
  }

  /** The fragments for one block, put together. */
  function ArgumentsOf(es: seq<Event>, i: int): string {
    if es == [] then "" else ArgumentsPart(es[0], i) + ArgumentsOf(es[1..], i)
  }

  function ArgumentsPart(e: Event, i: int): string { if e.Fragment? && e.index == i then e.arguments else "" }

  function Opens(es: seq<Event>): (heads: seq<Event>)
    ensures forall k | 0 <= k < |heads| :: heads[k].Open?
  {
    if es == [] then [] else (if es[0].Open? then [es[0]] else []) + Opens(es[1..])
  }

  /** Blocks are opened once, and receive fragments only then. */
  predicate WellOpened(es: seq<Event>, open: set<int>) {
    if es == [] then true
    else match es[0]
      case Open(i, _, _) => i !in open && WellOpened(es[1..], open + {i})
      case Fragment(i, _) => i in open && WellOpened(es[1..], open)
      case _ => WellOpened(es[1..], open)
  }

  /** `es` transmits `calls`, the k-th under index `labels[k]`, and `text`: the blocks are opened in
      list order; the arguments are split, and the fragments interleaved, in any way. */
  ghost predicate Transmits(es: seq<Event>, labels: seq<int>, calls: seq<ToolCall>, text: string) {
    && |labels| == |calls| && WellOpened(es, {}) && TextOf(es) == text
    && |Opens(es)| == |calls|
    && forall k | 0 <= k < |calls| ::
         Opens(es)[k] == Open(labels[k], calls[k].id, calls[k].name) && ArgumentsOf(es, labels[k]) == calls[k].arguments
  }

  // ---------------------------------------------------------------------------------------
  // The table of calls that the events build
  // ---------------------------------------------------------------------------------------

  function Apply(m: map<int, ToolCall>, e: Event): map<int, ToolCall> {
    match e
    case Open(i, id, name) => m[i := ToolCall(id, name, "")]
    case Fragment(i, t) => if i in m then m[i := m[i].(arguments := m[i].arguments + t)] else m
    case _ => m
  }

  function Built(m: map<int, ToolCall>, es: seq<Event>): map<int, ToolCall>
    decreases es
  {
    if es == [] then m else Built(Apply(m, es[0]), es[1..])
  }

  /** A block that is open collects the fragments still to come. */
  lemma {:induction false} OpenBlockCollects(m: map<int, ToolCall>, es: seq<Event>, i: int)
    requires WellOpened(es, m.Keys) && i in m
    ensures i in Built(m, es) && Built(m, es)[i] == m[i].(arguments := m[i].arguments + ArgumentsOf(es, i))
    decreases |es|
  {
    if es == [] {
      EmptyRight(m[i].arguments);
    } else {
      var next := Apply(m, es[0]);
      assert next.Keys == if es[0].Open? then m.Keys + {es[0].index} else m.Keys;
      OpenBlockCollects(next, es[1..], i);
      EmptyLeft(ArgumentsOf(es[1..], i));
      if es[0].Fragment? && es[0].index == i {
        Associate(m[i].arguments, es[0].arguments, ArgumentsOf(es[1..], i));
      }
    }
  }

  /** A block yet to be opened ends up with its identifier, its name and all of its fragments. */
  lemma {:induction false} EveryBlockIsBuilt(m: map<int, ToolCall>, es: seq<Event>, k: nat)
    requires WellOpened(es, m.Keys) && k < |Opens(es)|
    ensures var Open(i, id, name) := Opens(es)[k];
      i !in m && i in Built(m, es) && Built(m, es)[i] == ToolCall(id, name, ArgumentsOf(es, i))
    decreases |es|
  {
    var next, rest := Apply(m, es[0]), es[1..];
    assert next.Keys == if es[0].Open? then m.Keys + {es[0].index} else m.Keys;
    if es[0].Open? && k == 0 {
      var i := es[0].index;
      OpenBlockCollects(next, rest, i);
      EmptyLeft(ArgumentsOf(rest, i));
    } else {
      var k' := if es[0].Open? then k - 1 else k;
      EveryBlockIsBuilt(next, rest, k');
      var i := Opens(rest)[k'].index;
      assert ArgumentsPart(es[0], i) == "";
      EmptyLeft(ArgumentsOf(rest, i));
    }
  }

  function OpenIndexes(es: seq<Event>): seq<int> {
    if es == [] then [] else (if es[0].Open? then [es[0].index] else []) + OpenIndexes(es[1..])
  }

  lemma {:induction false} OpenIndexesAre(es: seq<Event>)
    ensures |OpenIndexes(es)| == |Opens(es)|
    ensures forall k | 0 <= k < |Opens(es)| :: OpenIndexes(es)[k] == Opens(es)[k].index
  {
    if es != [] { OpenIndexesAre(es[1..]); }
  }

  lemma {:induction false} OnlyOpenedBlocks(m: map<int, ToolCall>, es: seq<Event>)
    ensures forall i :: i in Built(m, es) <==> i in m || i in OpenIndexes(es)
    decreases |es|
  {
    if es != [] {
      OnlyOpenedBlocks(Apply(m, es[0]), es[1..]);
    }
  }

  /** The table holds exactly the calls transmitted, each under its label. */
  lemma TableIsTransmitted(es: seq<Event>, labels: seq<int>, calls: seq<ToolCall>, text: string)
    requires Transmits(es, labels, calls, text)
    ensures forall i :: i in Built(map[], es) <==> i in labels
    ensures forall k | 0 <= k < |calls| :: labels[k] in Built(map[], es) && Built(map[], es)[labels[k]] == calls[k]
  {
    var none: map<int, ToolCall> := map[];
    assert none.Keys == {};
    OnlyOpenedBlocks(none, es);
    forall k | 0 <= k < |calls| ensures labels[k] in Built(map[], es) && Built(map[], es)[labels[k]] == calls[k] {
      EveryBlockIsBuilt(map[], es, k);
    }
    OpenIndexesAre(es);
    assert OpenIndexes(es) == labels;
  }

  // ---------------------------------------------------------------------------------------
  // Any calls can be transmitted
  // ---------------------------------------------------------------------------------------

  /** Each block in turn, its arguments in one fragment. */
  function Sending(labels: seq<int>, calls: seq<ToolCall>): seq<Event>
    requires |labels| == |calls|
  {
    if labels == [] then []
    else
      [Open(labels[0], calls[0].id, calls[0].name)] +
        ([Fragment(labels[0], calls[0].arguments)] + Sending(labels[1..], calls[1..]))
  }

  lemma SendingFirst(labels: seq<int>, calls: seq<ToolCall>, open: set<int>, i: int)
    requires |labels| == |calls| && labels != []
    ensures var es, rest := Sending(labels, calls), Sending(labels[1..], calls[1..]);
      && TextOf(es) == TextOf(rest)
      && Opens(es) == [Open(labels[0], calls[0].id, calls[0].name)] + Opens(rest)
      && ArgumentsOf(es, i) == (if i == labels[0] then calls[0].arguments + ArgumentsOf(rest, i) else ArgumentsOf(rest, i))
      && (WellOpened(es, open) <==> labels[0] !in open && WellOpened(rest, open + {labels[0]}))
  {
    var es, rest := Sending(labels, calls), Sending(labels[1..], calls[1..]);
    var later := [Fragment(labels[0], calls[0].arguments)] + rest;
    assert es[1..] == later && later[1..] == rest;
    EmptyLeft(TextOf(rest));
    EmptyLeft(Opens(rest));
    EmptyLeft(ArgumentsOf(later, i));
    EmptyLeft(ArgumentsOf(rest, i));
  }

  lemma {:induction false} SendingOpens(labels: seq<int>, calls: seq<ToolCall>, open: set<int>)
    requires |labels| == |calls| && Distinct(labels) && forall i | i in labels :: i !in open
    ensures var es := Sending(labels, calls);
      && WellOpened(es, open) && TextOf(es) == "" && |Opens(es)| == |calls|
      && forall k | 0 <= k < |calls| :: Opens(es)[k] == Open(labels[k], calls[k].id, calls[k].name)
    decreases |labels|
  {
    if labels != [] {
      assert forall i | i in labels[1..] :: i in labels && i != labels[0];
      SendingOpens(labels[1..], calls[1..], open + {labels[0]});
      SendingFirst(labels, calls, open, 0);
    }
  }

  lemma {:induction false} SendingArguments(labels: seq<int>, calls: seq<ToolCall>, i: int)
    requires |labels| == |calls| && Distinct(labels)
    ensures i !in labels ==> ArgumentsOf(Sending(labels, calls), i) == ""
    ensures forall k | 0 <= k < |calls| && labels[k] == i :: ArgumentsOf(Sending(labels, calls), i) == calls[k].arguments
    decreases |labels|
  {
    if labels != [] {
      SendingArguments(labels[1..], calls[1..], i);
      SendingFirst(labels, calls, {}, i);
      EmptyRight(calls[0].arguments);
      assert forall k | 0 < k < |calls| :: labels[k] == labels[1..][k - 1] && calls[k] == calls[1..][k - 1];
    }
  }

  /** Whatever the calls, their indexes and the text, some events transmit them. */
  lemma AnyCallsCanBeTransmitted(labels: seq<int>, calls: seq<ToolCall>, text: string) returns (es: seq<Event>)
    requires |labels| == |calls| && Distinct(labels)
    ensures Transmits(es, labels, calls, text)
  {
    var sent := Sending(labels, calls);
    es := [Text(text)] + sent;
    SendingOpens(labels, calls, {});
    assert es[1..] == sent;
    EmptyRight(text);
    EmptyLeft(Opens(sent));
    forall k | 0 <= k < |labels| ensures ArgumentsOf(es, labels[k]) == calls[k].arguments {
      SendingArguments(labels, calls, labels[k]);
      EmptyLeft(ArgumentsOf(sent, labels[k]));
    }
  }
}
