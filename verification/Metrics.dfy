/** The in-memory meter: telemetry/metrics.go. */
module Metrics {
  import opened Values
  import opened LabelKeys
  import Decimals

  // ---------------------------------------------------------------------------------------
  // The history of a meter and what it amounts to
  // ---------------------------------------------------------------------------------------

  /** One call to the meter, its labels filtered. */
  datatype Update =
    | Count(name: string, labels: Labels, delta: int)
    | Set(name: string, labels: Labels, value: real)
    | Observe(name: string, labels: Labels, value: real)

  /** All that a meter knows about one name and label set. */
  datatype Cell = Cell(labels: Option<Labels>, counter: Option<int>, gauge: Option<real>, values: Option<seq<real>>)

  const NOTHING := Cell(None, None, None, None)

  /** The wrapped sum of the deltas, the last value set, the values observed, and the first labels. */
  function Record(c: Cell, u: Update): Cell {
    var seen := c.(labels := if c.labels.Some? then c.labels else Some(u.labels));
    match u
    case Count(_, _, delta) =>
      seen.(counter := Some(Decimals.Wrap((if c.counter.Some? then c.counter.value else 0) + delta)))
    case Set(_, _, v) => seen.(gauge := Some(v))
    case Observe(_, _, v) => seen.(values := Some((if c.values.Some? then c.values.value else []) + [v]))
  }

  /** The updates stored under one key, or the updates of one label set. */
  datatype Selector = ByKey(name: string, key: string) | ByLabels(name: string, labels: Labels)

  ghost predicate Selects(sel: Selector, u: Update) {
    u.name == sel.name && if sel.ByKey? then Serialize(u.labels) == sel.key else u.labels == sel.labels
  }

  ghost function History(log: seq<Update>, sel: Selector): Cell {
    if log == [] then NOTHING
    else
      var before := History(log[..|log| - 1], sel);
      if Selects(sel, log[|log| - 1]) then Record(before, log[|log| - 1]) else before
  }

  lemma HistoryOneMore(log: seq<Update>, u: Update, sel: Selector)
    ensures History(log + [u], sel) == if Selects(sel, u) then Record(History(log, sel), u) else History(log, sel)
  {
    assert (log + [u])[..|log|] == log;
  }

  // ---------------------------------------------------------------------------------------
  // The meter
  // ---------------------------------------------------------------------------------------

  type Table<V> = map<string, map<string, V>>

  function Lookup<V>(t: Table<V>, name: string, key: string): Option<V> {
    if name in t && key in t[name] then Some(t[name][key]) else None
  }

  datatype Entry<V> = Entry(labels: Labels, value: V)

  datatype MetricsSnapshot = MetricsSnapshot(
    counters: map<string, seq<Entry<int>>>,
    gauges: map<string, seq<Entry<real>>>,
    histograms: map<string, seq<Entry<seq<real>>>>)

  /** `entries` are the entries of `m`, in some order, each with the labels stored for its key. */
  ghost predicate Lists<V>(m: map<string, V>, labels: map<string, Labels>, entries: seq<Entry<V>>, order: seq<string>) {
    && VisitOrder(m, order) && m.Keys <= labels.Keys && |entries| == |order|
    && forall i | 0 <= i < |order| :: order[i] in m && entries[i] == Entry(labels[order[i]], m[order[i]])
  }

  method ListEntries<V>(m: map<string, V>, labels: map<string, Labels>) returns (entries: seq<Entry<V>>)
    requires m.Keys <= labels.Keys
    ensures exists order :: Lists(m, labels, entries, order)
  {
    entries := [];
    ghost var order: seq<string> := [];
    var todo := m.Keys;
    while todo != {}
      invariant todo <= m.Keys && Distinct(order) && SeqToSet(order) == m.Keys - todo && |entries| == |order|
      invariant forall i | 0 <= i < |order| :: order[i] in m && entries[i] == Entry(labels[order[i]], m[order[i]])
    {
      var lk :| lk in todo;
      todo := todo - {lk};
      assert lk !in SeqToSet(order);
      assert SeqToSet(order + [lk]) == SeqToSet(order) + {lk};
      entries := entries + [Entry(labels[lk], m[lk])];
      order := order + [lk];
    }
    assert Lists(m, labels, entries, order);
  }

  method ListTable<V>(t: Table<V>, labelKeys: Table<Labels>) returns (listed: map<string, seq<Entry<V>>>)
    requires forall name | name in t :: name in labelKeys && t[name].Keys <= labelKeys[name].Keys
    ensures listed.Keys == t.Keys
    ensures forall name | name in t :: exists order :: Lists(t[name], labelKeys[name], listed[name], order)
  {
    listed := map[];
    var todo := t.Keys;
    while todo != {}
      invariant todo <= t.Keys && listed.Keys == t.Keys - todo
      invariant forall name | name in listed :: exists order :: Lists(t[name], labelKeys[name], listed[name], order)
    {
      var name :| name in todo;
      todo := todo - {name};
      var entries := ListEntries(t[name], labelKeys[name]);
      listed := listed[name := entries];
    }
  }

  function Put<V>(t: Table<V>, name: string, key: string, v: V): Table<V> {
    t[name := (if name in t then t[name] else map[])[key := v]]
  }

  lemma LookupAfterPut<V>(t: Table<V>, name: string, key: string, v: V, n: string, k: string)
    ensures Lookup(Put(t, name, key, v), n, k) == if n == name && k == key then Some(v) else Lookup(t, n, k)
  {
  }

  /** The first labels stored under a key stay. */
  function PutLabels(t: Table<Labels>, name: string, key: string, labels: Labels): Table<Labels> {
    if Lookup(t, name, key).Some? then t else Put(t, name, key, labels)
  }

  datatype Tables = Tables(counters: Table<int>, gauges: Table<real>, histograms: Table<seq<real>>, labelKeys: Table<Labels>)
  {
    function At(name: string, key: string): Cell {
      Cell(Lookup(labelKeys, name, key), Lookup(counters, name, key), Lookup(gauges, name, key), Lookup(histograms, name, key))
    }

    predicate NamesLabelled() { counters.Keys + gauges.Keys + histograms.Keys <= labelKeys.Keys }
  }

  /** The tables hold, under each name and key, what the history of that key amounts to. */
  ghost predicate Reflects(t: Tables, log: seq<Update>) {
    && (forall name, key :: t.At(name, key) == History(log, ByKey(name, key)))
    && (forall u | u in log :: Filtered(u.labels))
    && t.NamesLabelled()
  }

  function CounterOr(t: Table<int>, name: string, key: string): int {
    if Lookup(t, name, key).Some? then Lookup(t, name, key).value else 0
  }

  function ValuesOr(t: Table<seq<real>>, name: string, key: string): seq<real> {
    if Lookup(t, name, key).Some? then Lookup(t, name, key).value else []
  }

  function AddDelta(t: Table<int>, name: string, key: string, delta: int): Table<int> {
    Put(t, name, key, Decimals.Wrap(CounterOr(t, name, key) + delta))
  }

  /** The tables after an update. */
  ghost function Updated(t: Tables, u: Update): Tables {
    var lk := Serialize(u.labels);
    var labelled := t.(labelKeys := PutLabels(t.labelKeys, u.name, lk, u.labels));
    match u
    case Count(name, _, delta) =>
      labelled.(counters := AddDelta(t.counters, name, lk, delta))
    case Set(name, _, v) => labelled.(gauges := Put(t.gauges, name, lk, v))
    case Observe(name, _, v) =>
      labelled.(histograms := Put(t.histograms, name, lk, ValuesOr(t.histograms, name, lk) + [v]))
  }

  lemma UpdatedAt(t: Tables, u: Update, name: string, key: string)
    ensures Updated(t, u).At(name, key) ==
      if name == u.name && key == Serialize(u.labels) then Record(t.At(name, key), u) else t.At(name, key)
  {
    var lk := Serialize(u.labels);
    LookupAfterPut(t.labelKeys, u.name, lk, u.labels, name, key);
    match u
    case Count(n, _, delta) =>
      LookupAfterPut(t.counters, n, lk, Decimals.Wrap(CounterOr(t.counters, n, lk) + delta), name, key);
    case Set(n, _, v) =>
      LookupAfterPut(t.gauges, n, lk, v, name, key);
    case Observe(n, _, v) =>
      LookupAfterPut(t.histograms, n, lk, ValuesOr(t.histograms, n, lk) + [v], name, key);
  }

  lemma UpdateKeepsReflection(t: Tables, log: seq<Update>, u: Update)
    requires Reflects(t, log) && Filtered(u.labels)
    ensures Reflects(Updated(t, u), log + [u])
  {
    forall name, key ensures Updated(t, u).At(name, key) == History(log + [u], ByKey(name, key)) {
      UpdatedAt(t, u, name, key);
      HistoryOneMore(log, u, ByKey(name, key));
    }
    NamesStayLabelled(t, u);
  }

  lemma NamesStayLabelled(t: Tables, u: Update)
    requires t.NamesLabelled()
    ensures Updated(t, u).NamesLabelled()
  {
    assert u.name in PutLabels(t.labelKeys, u.name, Serialize(u.labels), u.labels);
  }

  class MemoryMeter {
    var counters: Table<int>
    var gauges: Table<real>
    var histograms: Table<seq<real>>
    var labelKeys: Table<Labels>
    ghost var log: seq<Update>

    ghost function State(): Tables reads this { Tables(counters, gauges, histograms, labelKeys) }

    ghost predicate Valid() reads this { Reflects(State(), log) }

    constructor ()
      ensures Valid() && log == []
    {
      counters, gauges, histograms, labelKeys, log := map[], map[], map[], map[], [];
    }

    method EnsureLabelKey(name: string, lk: string, labels: Labels)
      modifies `labelKeys
      ensures labelKeys == PutLabels(old(labelKeys), name, lk, labels)
    {
      ghost var before := labelKeys;
      if name !in labelKeys {
        labelKeys := labelKeys[name := map[]];
      }
      if lk !in labelKeys[name] {
        labelKeys := labelKeys[name := labelKeys[name][lk := labels]];
        assert labelKeys == Put(before, name, lk, labels);
      }
    }

    method AddToCounter(name: string, lk: string, delta: int)
      modifies `counters
      ensures counters == AddDelta(old(counters), name, lk, delta)
    {
      ghost var before := counters;
      if name !in counters {
        counters := counters[name := map[]];
      }
      var current := if lk in counters[name] then counters[name][lk] else 0;
      counters := counters[name := counters[name][lk := Decimals.Wrap(current + delta)]];
      assert counters == Put(before, name, lk, Decimals.Wrap(current + delta));
    }

    method SetGauge(name: string, lk: string, value: real)
      modifies `gauges
      ensures gauges == Put(old(gauges), name, lk, value)
    {
      ghost var before := gauges;
      if name !in gauges {
        gauges := gauges[name := map[]];
      }
      gauges := gauges[name := gauges[name][lk := value]];
      assert gauges == Put(before, name, lk, value);
    }

    method AppendValue(name: string, lk: string, value: real)
      modifies `histograms
      ensures histograms == Put(old(histograms), name, lk, ValuesOr(old(histograms), name, lk) + [value])
    {
      ghost var before := histograms;
      if name !in histograms {
        histograms := histograms[name := map[]];
      }
      var current := if lk in histograms[name] then histograms[name][lk] else [];
      histograms := histograms[name := histograms[name][lk := current + [value]]];
      assert histograms == Put(before, name, lk, current + [value]);
    }

    method Counter(name: string, delta: int, labels: Labels)
      requires Valid()
      modifies this
      ensures Valid() && log == old(log) + [Count(name, Filter(labels), delta)]
    {
      var filtered := FilterLabels(labels);
      var lk := String(filtered);
      ghost var before := State();
      EnsureLabelKey(name, lk, filtered);
      AddToCounter(name, lk, delta);
      assert State() == Updated(before, Count(name, filtered, delta));
      UpdateKeepsReflection(before, log, Count(name, filtered, delta));
      log := log + [Count(name, filtered, delta)];
    }

    method Gauge(name: string, value: real, labels: Labels)
      requires Valid()
      modifies this
      ensures Valid() && log == old(log) + [Set(name, Filter(labels), value)]
    {
      var filtered := FilterLabels(labels);
      var lk := String(filtered);
      ghost var before := State();
      EnsureLabelKey(name, lk, filtered);
      SetGauge(name, lk, value);
      assert State() == Updated(before, Set(name, filtered, value));
      UpdateKeepsReflection(before, log, Set(name, filtered, value));
      log := log + [Set(name, filtered, value)];
    }

    method Histogram(name: string, value: real, labels: Labels)
      requires Valid()
      modifies this
      ensures Valid() && log == old(log) + [Observe(name, Filter(labels), value)]
    {
      var filtered := FilterLabels(labels);
      var lk := String(filtered);
      ghost var before := State();
      EnsureLabelKey(name, lk, filtered);
      AppendValue(name, lk, value);
      assert State() == Updated(before, Observe(name, filtered, value));
      UpdateKeepsReflection(before, log, Observe(name, filtered, value));
      log := log + [Observe(name, filtered, value)];
    }

    /** A copy of the tables; every entry carries labels. */
    method Snapshot() returns (snap: MetricsSnapshot)
      requires Valid()
      ensures snap.counters.Keys == counters.Keys && snap.gauges.Keys == gauges.Keys && snap.histograms.Keys == histograms.Keys
      ensures forall name | name in counters :: name in labelKeys && exists order ::
        Lists(counters[name], labelKeys[name], snap.counters[name], order)
      ensures forall name | name in gauges :: name in labelKeys && exists order ::
        Lists(gauges[name], labelKeys[name], snap.gauges[name], order)
      ensures forall name | name in histograms :: name in labelKeys && exists order ::
        Lists(histograms[name], labelKeys[name], snap.histograms[name], order)
    {
      forall name, key ensures State().At(name, key) != NOTHING ==> Lookup(labelKeys, name, key).Some? {
        RecordedHasLabels(log, ByKey(name, key));
      }
      KeysAreLabelled(counters, labelKeys);
      KeysAreLabelled(gauges, labelKeys);
      KeysAreLabelled(histograms, labelKeys);
      var c := ListTable(counters, labelKeys);
      var g := ListTable(gauges, labelKeys);
      var h := ListTable(histograms, labelKeys);
      snap := MetricsSnapshot(c, g, h);
    }
  }

  /** Whatever is recorded under a key, labels are recorded with it. */
  lemma {:induction false} RecordedHasLabels(log: seq<Update>, sel: Selector)
    ensures History(log, sel) != NOTHING <==> History(log, sel).labels.Some?
    ensures History(log, sel).labels.None? ==> History(log, sel) == NOTHING
  {
    if log != [] {
      RecordedHasLabels(log[..|log| - 1], sel);
    }
  }

  lemma KeysAreLabelled<V>(t: Table<V>, labelKeys: Table<Labels>)
    requires forall name | name in t :: name in labelKeys
    requires forall name, key :: Lookup(t, name, key).Some? ==> Lookup(labelKeys, name, key).Some?
    ensures forall name | name in t :: t[name].Keys <= labelKeys[name].Keys
  {
    forall name | name in t ensures t[name].Keys <= labelKeys[name].Keys {
      forall key | key in t[name] ensures key in labelKeys[name] {
        assert Lookup(t, name, key).Some?;
        assert Lookup(labelKeys, name, key).Some?;
      }
    }
  }
}
