/** What a snapshot of the meter tells: the exact history of each label set when no label value is
    ambiguous, and the right totals in any case. */
module MetricsTheorems {
  import opened Values
  import opened LabelKeys
  import opened StringOrder
  import opened Metrics
  import Decimals

  // ---------------------------------------------------------------------------------------
  // What a history is
  // ---------------------------------------------------------------------------------------

  ghost function Selected(log: seq<Update>, sel: Selector): seq<Update> {
    if log == [] then []
    else Selected(log[..|log| - 1], sel) + if Selects(sel, log[|log| - 1]) then [log[|log| - 1]] else []
  }

  function Deltas(us: seq<Update>): int {
    if us == [] then 0 else Deltas(us[..|us| - 1]) + if us[|us| - 1].Count? then us[|us| - 1].delta else 0
  }

  function Observed(us: seq<Update>): seq<real> {
    if us == [] then [] else Observed(us[..|us| - 1]) + if us[|us| - 1].Observe? then [us[|us| - 1].value] else []
  }

  ghost predicate LastSet(us: seq<Update>, i: int) {
    0 <= i < |us| && us[i].Set? && forall j | i < j < |us| :: !us[j].Set?
  }

  ghost predicate CounterIs(us: seq<Update>, counter: Option<int>) {
    counter == if exists i :: 0 <= i < |us| && us[i].Count? then Some(Decimals.Wrap(Deltas(us))) else None
  }

  ghost predicate GaugeIs(us: seq<Update>, gauge: Option<real>) {
    match gauge
    case None => forall i | 0 <= i < |us| :: !us[i].Set?
    case Some(v) => exists i :: LastSet(us, i) && us[i].value == v
  }

  ghost predicate ValuesAre(us: seq<Update>, values: Option<seq<real>>) {
    values == if exists i :: 0 <= i < |us| && us[i].Observe? then Some(Observed(us)) else None
  }

  /** Of the updates selected, a counter holds the wrapped sum of the deltas, a gauge the value set last, a
      histogram the values observed in order, each if there are any; the labels are the first ones. */
  ghost predicate AmountsTo(us: seq<Update>, c: Cell) {
    && c.labels == (if us == [] then None else Some(us[0].labels))
    && CounterIs(us, c.counter) && GaugeIs(us, c.gauge) && ValuesAre(us, c.values)
  }

  lemma {:induction false} HistoryIsWhatUpdatesAmountTo(log: seq<Update>, sel: Selector)
    ensures AmountsTo(Selected(log, sel), History(log, sel))
  {
    if log != [] {
      var init, u := log[..|log| - 1], log[|log| - 1];
      HistoryIsWhatUpdatesAmountTo(init, sel);
      if Selects(sel, u) {
        OneMoreUpdate(Selected(init, sel), History(init, sel), u);
      } else {
        assert Selected(init, sel) + [] == Selected(init, sel);
      }
    }
  }

  lemma OneMoreUpdate(us: seq<Update>, c: Cell, u: Update)
    requires AmountsTo(us, c)
    ensures AmountsTo(us + [u], Record(c, u))
  {
    OneMoreDelta(us, c, u);
    OneMoreSetting(us, c, u);
    OneMoreValue(us, c, u);
  }

  lemma {:induction false} NothingCountedYet(us: seq<Update>)
    requires forall i | 0 <= i < |us| :: !us[i].Count?
    ensures Deltas(us) == 0
  {
    if us != [] {
      NothingCountedYet(us[..|us| - 1]);
    }
  }

  lemma OneMoreDelta(us: seq<Update>, c: Cell, u: Update)
    requires CounterIs(us, c.counter)
    ensures CounterIs(us + [u], Record(c, u).counter)
  {
    var all := us + [u];
    assert all[..|all| - 1] == us && all[|us|] == u && forall i | 0 <= i < |us| :: all[i] == us[i];
    if u.Count? {
      if c.counter.None? {
        NothingCountedYet(us);
      }
      Decimals.WrapAdd(Deltas(us), u.delta);
    } else if c.counter.Some? {
      var i :| 0 <= i < |us| && us[i].Count?;
      assert all[i].Count?;
    }
  }

  lemma OneMoreSetting(us: seq<Update>, c: Cell, u: Update)
    requires GaugeIs(us, c.gauge)
    ensures GaugeIs(us + [u], Record(c, u).gauge)
  {
    var all := us + [u];
    assert all[|us|] == u && forall i | 0 <= i < |us| :: all[i] == us[i];
    if u.Set? {
      assert LastSet(all, |us|);
    } else if c.gauge.Some? {
      var i :| LastSet(us, i) && us[i].value == c.gauge.value;
      assert LastSet(all, i);
    }
  }

  lemma {:induction false} NothingObservedYet(us: seq<Update>)
    requires forall i | 0 <= i < |us| :: !us[i].Observe?
    ensures Observed(us) == []
  {
    if us != [] {
      NothingObservedYet(us[..|us| - 1]);
    }
  }

  lemma OneMoreValue(us: seq<Update>, c: Cell, u: Update)
    requires ValuesAre(us, c.values)
    ensures ValuesAre(us + [u], Record(c, u).values)
  {
    var all := us + [u];
    assert all[..|all| - 1] == us && all[|us|] == u && forall i | 0 <= i < |us| :: all[i] == us[i];
    if u.Observe? {
      if c.values.None? {
        NothingObservedYet(us);
      }
    } else if c.values.Some? {
      assert Observed(us) + [] == Observed(us);
      var i :| 0 <= i < |us| && us[i].Observe?;
      assert all[i].Observe?;
    }
  }

  // ---------------------------------------------------------------------------------------
  // Exact histories
  // ---------------------------------------------------------------------------------------

  /** No label set used with `name` is ambiguous. */
  ghost predicate AllUnambiguous(log: seq<Update>, name: string) {
    forall u | u in log && u.name == name :: Unambiguous(u.labels)
  }

  /** The updates stored under the key of a label set are the updates of that label set. */
  lemma {:induction false} KeyHistoryIsLabelHistory(log: seq<Update>, name: string, l: Labels)
    requires AllUnambiguous(log, name) && Unambiguous(l)
    ensures History(log, ByKey(name, Serialize(l))) == History(log, ByLabels(name, l))
  {
    if log != [] {
      var init, u := log[..|log| - 1], log[|log| - 1];
      assert forall v | v in init :: v in log;
      KeyHistoryIsLabelHistory(init, name, l);
      assert u in log;
      if u.name == name && Serialize(u.labels) == Serialize(l) {
        SerializeIsInjective(u.labels, l);
      }
    }
  }

  /** The labels stored under a key are those of some update, and have that key. */
  lemma {:induction false} StoredLabelsHaveKey(log: seq<Update>, name: string, key: string)
    requires History(log, ByKey(name, key)).labels.Some?
    ensures var l := History(log, ByKey(name, key)).labels.value;
      Serialize(l) == key && exists u | u in log :: u.name == name && u.labels == l
  {
    var init, u := log[..|log| - 1], log[|log| - 1];
    assert u in log;
    if History(init, ByKey(name, key)).labels.Some? {
      StoredLabelsHaveKey(init, name, key);
      assert forall v | v in init :: v in log;
    }
  }

  /** `m` and `labels` are the rows of a table for `name`, `get` the part of a cell they hold. */
  ghost predicate Rows<V(!new)>(log: seq<Update>, name: string, m: map<string, V>, labels: map<string, Labels>, get: Cell -> Option<V>) {
    && (forall key :: (if key in m then Some(m[key]) else None) == get(History(log, ByKey(name, key))))
    && (forall key :: (if key in labels then Some(labels[key]) else None) == History(log, ByKey(name, key)).labels)
  }

  /** Each entry is the exact history of its labels; every label set used has its entry, and one only. */
  lemma EntriesAreExact<V(!new)>(log: seq<Update>, name: string, m: map<string, V>, labels: map<string, Labels>,
                                 get: Cell -> Option<V>, entries: seq<Entry<V>>, order: seq<string>)
    requires Rows(log, name, m, labels, get) && Lists(m, labels, entries, order)
    requires AllUnambiguous(log, name)
    ensures forall i | 0 <= i < |entries| :: get(History(log, ByLabels(name, entries[i].labels))) == Some(entries[i].value)
    ensures forall i, j | 0 <= i < j < |entries| :: entries[i].labels != entries[j].labels
    ensures forall l | Unambiguous(l) && get(History(log, ByLabels(name, l))).Some? :: exists i | 0 <= i < |entries| :: entries[i].labels == l
  {
    forall i | 0 <= i < |entries|
      ensures Serialize(entries[i].labels) == order[i] && Unambiguous(entries[i].labels)
      ensures get(History(log, ByLabels(name, entries[i].labels))) == Some(entries[i].value)
    {
      var key := order[i];
      assert History(log, ByKey(name, key)).labels == Some(labels[key]);
      StoredLabelsHaveKey(log, name, key);
      KeyHistoryIsLabelHistory(log, name, labels[key]);
    }
    forall l | Unambiguous(l) && get(History(log, ByLabels(name, l))).Some? ensures exists i | 0 <= i < |entries| :: entries[i].labels == l {
      var key := Serialize(l);
      KeyHistoryIsLabelHistory(log, name, l);
      assert key in m;
      assert key in SeqToSet(order);
      var i :| 0 <= i < |order| && order[i] == key;
      SerializeIsInjective(entries[i].labels, l);
    }
  }

  /** The tables of a meter are rows in this sense. */
  lemma TablesAreRows(t: Tables, log: seq<Update>, name: string)
    requires Reflects(t, log) && name in t.labelKeys
    ensures name in t.counters ==> Rows(log, name, t.counters[name], t.labelKeys[name], (c: Cell) => c.counter)
    ensures name in t.gauges ==> Rows(log, name, t.gauges[name], t.labelKeys[name], (c: Cell) => c.gauge)
    ensures name in t.histograms ==> Rows(log, name, t.histograms[name], t.labelKeys[name], (c: Cell) => c.values)
  {
    forall key ensures t.At(name, key) == History(log, ByKey(name, key)) {
    }
  }

  // ---------------------------------------------------------------------------------------
  // Totals
  // ---------------------------------------------------------------------------------------

  function TotalDelta(log: seq<Update>, name: string): int {
    if log == [] then 0
    else
      var u := log[|log| - 1];
      TotalDelta(log[..|log| - 1], name) + if u.Count? && u.name == name then u.delta else 0
  }

  function SumValues(entries: seq<Entry<int>>): int {
    if entries == [] then 0 else entries[0].value + SumValues(entries[1..])
  }

  function ValueAt(m: map<string, int>, k: string): int { if k in m then m[k] else 0 }

  function SumAt(m: map<string, int>, order: seq<string>): int {
    if order == [] then 0 else ValueAt(m, order[0]) + SumAt(m, order[1..])
  }

  /** `order` without `k`. */
  function Without(order: seq<string>, k: string): seq<string> {
    if order == [] then [] else if order[0] == k then order[1..] else [order[0]] + Without(order[1..], k)
  }

  ghost predicate NoRepeats(order: seq<string>) {
    order != [] ==> order[0] !in order[1..] && NoRepeats(order[1..])
  }

  lemma {:induction false} WithoutMembers(order: seq<string>, k: string)
    requires NoRepeats(order)
    ensures NoRepeats(Without(order, k)) && forall x :: x in Without(order, k) <==> x in order && x != k
  {
    if order != [] {
      var x0, rest := order[0], order[1..];
      MembersOfCons(order);
      WithoutMembers(rest, k);
      if x0 != k {
        NoRepeatsCons(x0, Without(rest, k));
        MembersOfCons([x0] + Without(rest, k));
      }
    }
  }

  lemma NoRepeatsCons(x: string, rest: seq<string>)
    requires NoRepeats(rest) && x !in rest
    ensures NoRepeats([x] + rest) && ([x] + rest)[0] == x && ([x] + rest)[1..] == rest
  {
    assert ([x] + rest)[1..] == rest;
  }

  lemma MembersOfCons(order: seq<string>)
    requires order != []
    ensures forall x :: x in order <==> x == order[0] || x in order[1..]
  {
  }

  /** Changing or dropping one key changes the sum by its value. */
  lemma {:induction false} SumWithout(m: map<string, int>, n: map<string, int>, order: seq<string>, k: string)
    requires NoRepeats(order) && k in order
    requires forall x | x in order && x != k :: ValueAt(n, x) == ValueAt(m, x)
    ensures SumAt(m, order) == SumAt(n, Without(order, k)) + ValueAt(m, k)
  {
    var rest := order[1..];
    assert forall x | x in rest :: x in order;
    if order[0] == k {
      SumSame(m, n, rest);
    } else {
      SumWithout(m, n, rest, k);
      SumCons(n, order[0], Without(rest, k));
    }
  }

  lemma SumCons(m: map<string, int>, x: string, rest: seq<string>)
    ensures SumAt(m, [x] + rest) == ValueAt(m, x) + SumAt(m, rest)
  {
    assert ([x] + rest)[1..] == rest;
  }

  lemma {:induction false} SumSame(m: map<string, int>, n: map<string, int>, order: seq<string>)
    requires forall k | k in order :: ValueAt(m, k) == ValueAt(n, k)
    ensures SumAt(m, order) == SumAt(n, order)
  {
    if order != [] {
      SumSame(m, n, order[1..]);
    }
  }

  /** `m` holds the counters that `log` amounts to under `name`, and `order` visits its keys. */
  ghost predicate Counters(log: seq<Update>, name: string, m: map<string, int>, order: seq<string>) {
    && (forall key :: (if key in m then Some(m[key]) else None) == History(log, ByKey(name, key)).counter)
    && NoRepeats(order) && forall k :: k in order <==> k in m
  }

  /** Wrapped, the counters of a name add up to all the deltas given for it. */
  lemma {:induction false} CountersAddUp(log: seq<Update>, name: string, m: map<string, int>, order: seq<string>)
    requires Counters(log, name, m, order)
    ensures Decimals.Wrap(SumAt(m, order)) == Decimals.Wrap(TotalDelta(log, name))
    decreases |log|, 1
  {
    if log == [] {
      NothingCounted(name, m, order);
    } else {
      var u := log[|log| - 1];
      if u.Count? && u.name == name {
        OneMoreCount(log, name, m, order);
      } else {
        CountersAddUp(log[..|log| - 1], name, m, order);
      }
    }
  }

  lemma NothingCounted(name: string, m: map<string, int>, order: seq<string>)
    requires Counters([], name, m, order)
    ensures SumAt(m, order) == 0
  {
    forall k ensures k !in m {
      assert History([], ByKey(name, k)).counter == None;
    }
    assert m == map[];
    SumOfNothing(order);
  }

  lemma {:induction false} SumOfNothing(order: seq<string>)
    ensures SumAt(map[], order) == 0
  {
    if order != [] { SumOfNothing(order[1..]); }
  }

  lemma {:induction false} OneMoreCount(log: seq<Update>, name: string, m: map<string, int>, order: seq<string>)
    requires log != [] && log[|log| - 1].Count? && log[|log| - 1].name == name
    requires Counters(log, name, m, order)
    ensures Decimals.Wrap(SumAt(m, order)) == Decimals.Wrap(TotalDelta(log, name))
    decreases |log|, 0
  {
    var init, u := log[..|log| - 1], log[|log| - 1];
    var key := Serialize(u.labels);
    assert init + [u] == log;
    var m0, order0, held := BeforeCount(init, u, m, order);
    SumWithout(m, m0, order, key);
    if order0 == order {
      SumWithout(m0, m0, order, key);
    }
    CountersAddUp(init, name, m0, order0);
    BumpWraps(SumAt(m0, Without(order, key)), held, u.delta, TotalDelta(init, name));
  }

  /** The counters before the last count. */
  lemma BeforeCount(init: seq<Update>, u: Update, m: map<string, int>, order: seq<string>)
    returns (m0: map<string, int>, order0: seq<string>, held: int)
    requires u.Count? && Counters(init + [u], u.name, m, order)
    ensures var key := Serialize(u.labels);
      && Counters(init, u.name, m0, order0)
      && key in order && ValueAt(m, key) == Decimals.Wrap(held + u.delta)
      && (forall x | x in order && x != key :: ValueAt(m0, x) == ValueAt(m, x))
      && ((order0 == order && ValueAt(m0, key) == held) || (order0 == Without(order, key) && order0 != order && held == 0))
  {
    var key := Serialize(u.labels);
    HistoryOneMore(init, u, ByKey(u.name, key));
    var before := History(init, ByKey(u.name, key)).counter;
    held := if before.Some? then before.value else 0;
    m0 := if before.Some? then m[key := before.value] else m - {key};
    order0 := if before.Some? then order else Without(order, key);
    WithoutMembers(order, key);
    assert key in m && key in order;
    forall k ensures (if k in m0 then Some(m0[k]) else None) == History(init, ByKey(u.name, k)).counter {
      HistoryOneMore(init, u, ByKey(u.name, k));
    }
  }

  lemma BumpWraps(others: int, before: int, delta: int, total: int)
    requires Decimals.Wrap(others + before) == Decimals.Wrap(total)
    ensures Decimals.Wrap(others + Decimals.Wrap(before + delta)) == Decimals.Wrap(total + delta)
  {
    Decimals.WrapAdd(before + delta, others);
    Decimals.WrapAdd(others + before, delta);
    Decimals.WrapAdd(total, delta);
  }

  /** Whatever the labels, the counter entries of a name add up, modulo 2^64, to the deltas given for
      it; so collisions of keys move counts between label sets but never lose any. */
  lemma SnapshotTotals(t: Tables, log: seq<Update>, name: string, entries: seq<Entry<int>>, order: seq<string>)
    requires Reflects(t, log) && name in t.counters && name in t.labelKeys
    requires Lists(t.counters[name], t.labelKeys[name], entries, order)
    ensures Decimals.Wrap(SumValues(entries)) == Decimals.Wrap(TotalDelta(log, name))
  {
    TablesAreRows(t, log, name);
    VisitsAll(t.counters[name], order);
    assert Counters(log, name, t.counters[name], order);
    CountersAddUp(log, name, t.counters[name], order);
    EntriesSum(t.counters[name], entries, order);
  }

  lemma VisitsAll(m: map<string, int>, order: seq<string>)
    requires VisitOrder(m, order)
    ensures NoRepeats(order) && forall k :: k in order <==> k in m
  {
    DistinctNoRepeats(order);
    forall k ensures k in order <==> k in m {
      assert k in SeqToSet(order) <==> k in order;
    }
  }

  lemma {:induction false} DistinctNoRepeats(order: seq<string>)
    requires Distinct(order)
    ensures NoRepeats(order)
  {
    if order != [] {
      DistinctNoRepeats(order[1..]);
    }
  }

  lemma {:induction false} EntriesSum(m: map<string, int>, entries: seq<Entry<int>>, order: seq<string>)
    requires |entries| == |order|
    requires forall i | 0 <= i < |order| :: order[i] in m && entries[i].value == m[order[i]]
    ensures SumValues(entries) == SumAt(m, order)
  {
    if order != [] {
      EntriesSum(m, entries[1..], order[1..]);
    }
  }

  /** Two label sets with a comma in a value may share a key, and then their counts are merged. */
  lemma CommasCollide()
    ensures var l1: Labels := map["component" := "a,status=b"]; var l2: Labels := map["component" := "a", "status" := "b"];
      l1 != l2 && Filtered(l1) && Filtered(l2) && Serialize(l1) == Serialize(l2)
  {
    var l1: Labels := map["component" := "a,status=b"];
    var l2: Labels := map["component" := "a", "status" := "b"];
    SerializeOne("component", "a,status=b");
    SerializeTwo("component", "a", "status", "b");
    CommaReadsAsLabel("component", "a", "status", "b");
    SpeltOut();
  }

  lemma SpeltOut()
    ensures "a" + "," + "status" + "=" + "b" == "a,status=b"
  {
  }

  lemma CommaReadsAsLabel(k: string, a: string, k': string, b: string)
    ensures k + "=" + (a + "," + k' + "=" + b) == k + "=" + a + ("," + (k' + "=" + b))
  {
  }

  /** The text of one label, and of two. */
  lemma SerializeOne(k: string, v: string)
    ensures Serialize(map[k := v]) == k + "=" + v
  {
    SerializeBy(map[k := v], [k]);
    assert [k][1..] == [];
    var part := Part(k, v);
    assert part + "" == part;
  }

  lemma SerializeTwo(k: string, v: string, k': string, v': string)
    requires Less(k, k') && k != k'
    ensures Serialize(map[k := v, k' := v']) == k + "=" + v + ("," + (k' + "=" + v'))
  {
    var l: Labels := map[k := v, k' := v'];
    SerializeBy(l, [k, k']);
    assert [k, k'][1..] == [k'] && [k'][1..] == [];
    var part := Part(k', v');
    assert part + "" == part;
    assert Join(l, [k']) == part;
  }
}
