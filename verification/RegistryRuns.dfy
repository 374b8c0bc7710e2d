/** The skill registry under concurrent use: storing is atomic, but callbacks are collected and fired
    outside the store's lock (registry/skills/in_memory_registry.go, registry/skills/base.go). */
module RegistryRuns {
  import opened Values
  import opened Registry

  /** A goroutine: between calls; past its store operation, with an event to announce; or firing the
      first `count` callbacks, `next` being the one to call now. */
  datatype Thread = Idle | Stored(event: ChangeEvent) | Firing(event: ChangeEvent, count: nat, next: nat)

  /** `delivered[k]` are the events that callback `k` has received. */
  datatype State = State(ids: set<string>, threads: seq<Thread>, delivered: seq<seq<ChangeEvent>>)

  datatype Action =
    | Register(thread: nat, id: string)
    | Unregister(thread: nat, id: string)
    | SnapshotCallbacks(thread: nat)
    | Fire(thread: nat)
    | Finish(thread: nat)
    | Subscribe

  ghost predicate Step(a: Action, s: State, t: State) {
    if a.Subscribe? then t == s.(delivered := s.delivered + [[]])
    else
      a.thread < |s.threads| &&
      var me := s.threads[a.thread];
      match a
      case Register(i, id) =>
        me.Idle? && id !in s.ids && t == s.(ids := s.ids + {id}, threads := s.threads[i := Stored(Registered(id))])
      case Unregister(i, id) =>
        me.Idle? && id in s.ids && t == s.(ids := s.ids - {id}, threads := s.threads[i := Stored(Unregistered(id))])
      case SnapshotCallbacks(i) =>
        me.Stored? && t == s.(threads := s.threads[i := Firing(me.event, |s.delivered|, 0)])
      case Fire(i) =>
        && me.Firing? && me.next < me.count && me.next < |s.delivered|
        && t == s.(threads := s.threads[i := me.(next := me.next + 1)],
                   delivered := s.delivered[me.next := s.delivered[me.next] + [me.event]])
      case Finish(i) => me.Firing? && me.next == me.count && t == s.(threads := s.threads[i := Idle])
      case Subscribe => false
  }

  ghost predicate Next(s: State, t: State) { exists a :: Step(a, s, t) }

  /** Nothing stored, `n` idle goroutines, `m` callbacks subscribed. */
  function Start(n: nat, m: nat): State { State({}, seq(n, _ => Idle), seq(m, _ => [])) }

  ghost predicate IsRun(n: nat, m: nat, trace: seq<State>) {
    trace != [] && trace[0] == Start(n, m) && forall i | 0 < i < |trace| :: Next(trace[i - 1], trace[i])
  }

  // ---------------------------------------------------------------------------------------
  // Counting events
  // ---------------------------------------------------------------------------------------

  function Weight(e: ChangeEvent, id: string): int {
    if e.id != id then 0 else if e.Registered? then 1 else -1
  }

  /** Registrations minus unregistrations of `id`. */
  function Net(events: seq<ChangeEvent>, id: string): int {
    if events == [] then 0 else Net(events[..|events| - 1], id) + Weight(events[|events| - 1], id)
  }

  /** What a goroutine has yet to announce to callback `k` about `id`. */
  function Pending(t: Thread, k: nat, id: string): int {
    match t
    case Idle => 0
    case Stored(e) => Weight(e, id)
    case Firing(e, count, next) => if next <= k < count then Weight(e, id) else 0
  }

  function AllPending(ts: seq<Thread>, k: nat, id: string): int {
    if ts == [] then 0 else Pending(ts[0], k, id) + AllPending(ts[1..], k, id)
  }

  lemma {:induction false} PendingAfter(ts: seq<Thread>, i: nat, t: Thread, k: nat, id: string)
    requires i < |ts|
    ensures AllPending(ts[i := t], k, id) == AllPending(ts, k, id) - Pending(ts[i], k, id) + Pending(t, k, id)
  {
    if i > 0 {
      PendingAfter(ts[1..], i - 1, t, k, id);
      assert ts[i := t][1..] == ts[1..][i - 1 := t];
    } else {
      assert ts[i := t][1..] == ts[1..];
    }
  }

  lemma {:induction false} NothingPending(ts: seq<Thread>, k: nat, id: string)
    requires forall i | 0 <= i < |ts| :: ts[i].Idle?
    ensures AllPending(ts, k, id) == 0
  {
    if ts != [] { NothingPending(ts[1..], k, id); }
  }

  // ---------------------------------------------------------------------------------------
  // Every run
  // ---------------------------------------------------------------------------------------

  function Presence(s: State, id: string): int { if id in s.ids then 1 else 0 }

  /** By how much the delivered and pending events about `id` exceed its presence, for callback `k`. */
  function Excess(s: State, k: nat, id: string): int
    requires k < |s.delivered|
  {
    Net(s.delivered[k], id) + AllPending(s.threads, k, id) - Presence(s, id)
  }

  ghost predicate WellFormed(s: State) {
    forall i | 0 <= i < |s.threads| :: s.threads[i].Firing? ==> s.threads[i].count <= |s.delivered|
  }

  lemma StepKeepsExcess(a: Action, s: State, t: State, k: nat, id: string)
    requires WellFormed(s) && Step(a, s, t) && k < |s.delivered|
    ensures WellFormed(t) && |s.delivered| <= |t.delivered| && Excess(t, k, id) == Excess(s, k, id)
  {
    if !a.Subscribe? {
      var i := a.thread;
      PendingAfter(s.threads, i, t.threads[i], k, id);
      assert t.threads == s.threads[i := t.threads[i]];
      if a.Fire? && s.threads[i].next == k {
        NetOfOneMore(s.delivered[k], s.threads[i].event, id);
      }
    }
  }

  lemma NetOfOneMore(events: seq<ChangeEvent>, e: ChangeEvent, id: string)
    ensures Net(events + [e], id) == Net(events, id) + Weight(e, id)
    ensures About(events + [e], id) == About(events, id) + if e.id == id then [e] else []
  {
    assert (events + [e])[..|events + [e]| - 1] == events;
  }

  /** For callback `k`, delivered and pending events about each identifier net to its presence. */
  ghost predicate Balanced(s: State, k: nat) {
    k < |s.delivered| && WellFormed(s) && forall id :: Excess(s, k, id) == 0
  }

  lemma StepKeepsBalance(a: Action, s: State, t: State, k: nat)
    requires Balanced(s, k) && Step(a, s, t)
    ensures Balanced(t, k)
  {
    StepKeepsExcess(a, s, t, k, "");
    forall id ensures Excess(t, k, id) == 0 {
      StepKeepsExcess(a, s, t, k, id);
    }
  }

  lemma {:induction false} RunKeepsBalance(n: nat, m: nat, trace: seq<State>, j: nat, k: nat)
    requires IsRun(n, m, trace) && j < |trace| && k < m
    ensures Balanced(trace[j], k)
  {
    if j == 0 {
      forall id ensures Excess(trace[0], k, id) == 0 {
        NothingPending(trace[0].threads, k, id);
      }
    } else {
      RunKeepsBalance(n, m, trace, j - 1, k);
      var a :| Step(a, trace[j - 1], trace[j]);
      StepKeepsBalance(a, trace[j - 1], trace[j], k);
    }
  }

  /** When all goroutines are between calls, the events delivered to a callback present from the start
      determine what is stored. */
  lemma QuietRegistryIsDelivered(n: nat, m: nat, trace: seq<State>, k: nat, id: string)
    requires IsRun(n, m, trace) && k < m
    requires var s := trace[|trace| - 1]; forall i | 0 <= i < |s.threads| :: s.threads[i].Idle?
    ensures var s := trace[|trace| - 1];
      k < |s.delivered| && (id in s.ids <==> Net(s.delivered[k], id) == 1) && (id !in s.ids <==> Net(s.delivered[k], id) == 0)
  {
    RunKeepsBalance(n, m, trace, |trace| - 1, k);
    NothingPending(trace[|trace| - 1].threads, k, id);
    assert Excess(trace[|trace| - 1], k, id) == 0;
  }

  // ---------------------------------------------------------------------------------------
  // Callbacks that subscribe during a run
  // ---------------------------------------------------------------------------------------

  /** Registrations minus unregistrations of `id` that are stored, their callbacks not yet collected. */
  function Unannounced(ts: seq<Thread>, id: string): int {
    if ts == [] then 0 else (if ts[0].Stored? then Weight(ts[0].event, id) else 0) + Unannounced(ts[1..], id)
  }

  lemma {:induction false} PendingForNewcomer(ts: seq<Thread>, k: nat, id: string)
    requires forall i | 0 <= i < |ts| :: ts[i].Firing? ==> ts[i].count <= k
    ensures AllPending(ts, k, id) == Unannounced(ts, id)
  {
    if ts != [] { PendingForNewcomer(ts[1..], k, id); }
  }

  lemma {:induction false} RunIsWellFormed(n: nat, m: nat, trace: seq<State>, j: nat)
    requires IsRun(n, m, trace) && j < |trace|
    ensures WellFormed(trace[j])
  {
    if j > 0 {
      RunIsWellFormed(n, m, trace, j - 1);
      var a :| Step(a, trace[j - 1], trace[j]);
    }
  }

  /** A callback that subscribes as the `joined`-th step is told of every change since, and of those
      that were stored before but not yet announced. */
  lemma {:induction false} LatecomerIsBalanced(n: nat, m: nat, trace: seq<State>, joined: nat, j: nat, k: nat, id: string)
    requires IsRun(n, m, trace) && 0 < joined <= j < |trace|
    requires Step(Subscribe, trace[joined - 1], trace[joined]) && k == |trace[joined - 1].delivered|
    ensures k < |trace[j].delivered|
    ensures Net(trace[j].delivered[k], id) + AllPending(trace[j].threads, k, id) ==
            Presence(trace[j], id) - Presence(trace[joined], id) + Unannounced(trace[joined].threads, id)
    decreases j
  {
    if j == joined {
      RunIsWellFormed(n, m, trace, joined - 1);
      PendingForNewcomer(trace[joined].threads, k, id);
    } else {
      LatecomerIsBalanced(n, m, trace, joined, j - 1, k, id);
      RunIsWellFormed(n, m, trace, j - 1);
      var a :| Step(a, trace[j - 1], trace[j]);
      StepKeepsExcess(a, trace[j - 1], trace[j], k, id);
    }
  }

  // ---------------------------------------------------------------------------------------
  // When the delivered events can be replayed
  // ---------------------------------------------------------------------------------------

  /** The events alternate from a registration. */
  ghost predicate InOrder(es: seq<ChangeEvent>) { Alternates(es) && (es != [] ==> es[0].Registered?) }

  predicate EndsRegistered(es: seq<ChangeEvent>) { es != [] && es[|es| - 1].Registered? }

  /** How many goroutines have yet to announce an event about `id` to callback `k`. */
  function PendingCount(ts: seq<Thread>, k: nat, id: string): nat {
    if ts == [] then 0 else (if Pending(ts[0], k, id) != 0 then 1 else 0) + PendingCount(ts[1..], k, id)
  }

  lemma {:induction false} CountAfter(ts: seq<Thread>, i: nat, t: Thread, k: nat, id: string)
    requires i < |ts|
    ensures PendingCount(ts[i := t], k, id) + (if Pending(ts[i], k, id) != 0 then 1 else 0) ==
            PendingCount(ts, k, id) + (if Pending(t, k, id) != 0 then 1 else 0)
  {
    if i > 0 {
      CountAfter(ts[1..], i - 1, t, k, id);
      assert ts[i := t][1..] == ts[1..][i - 1 := t];
    } else {
      assert ts[i := t][1..] == ts[1..];
    }
  }

  lemma {:induction false} NoneCounted(ts: seq<Thread>, k: nat, id: string)
    requires PendingCount(ts, k, id) == 0
    ensures AllPending(ts, k, id) == 0 && forall i | 0 <= i < |ts| :: Pending(ts[i], k, id) == 0
  {
    if ts != [] { NoneCounted(ts[1..], k, id); }
  }

  lemma {:induction false} OneCounted(ts: seq<Thread>, i: nat, k: nat, id: string)
    requires PendingCount(ts, k, id) <= 1 && i < |ts| && Pending(ts[i], k, id) != 0
    ensures AllPending(ts, k, id) == Pending(ts[i], k, id)
  {
    if i == 0 {
      NoneCounted(ts[1..], k, id);
    } else {
      OneCounted(ts[1..], i - 1, k, id);
      if Pending(ts[0], k, id) != 0 {
        NoneCounted(ts[1..], k, id);
      }
    }
  }

  lemma {:induction false} AlikeCounted(ts: seq<Thread>, k: nat, id: string, w: int)
    requires w == 1 || w == -1
    requires forall i | 0 <= i < |ts| :: Pending(ts[i], k, id) == 0 || Pending(ts[i], k, id) == w
    ensures w == 1 ==> AllPending(ts, k, id) == PendingCount(ts, k, id)
    ensures w == -1 ==> AllPending(ts, k, id) + PendingCount(ts, k, id) == 0
  {
    if ts != [] { AlikeCounted(ts[1..], k, id, w); }
  }

  /** Events in order net to one registration or none. */
  lemma {:induction false} NetOfOrdered(events: seq<ChangeEvent>, id: string)
    requires InOrder(About(events, id))
    ensures Net(events, id) == if EndsRegistered(About(events, id)) then 1 else 0
  {
    if events != [] {
      var init, last := events[..|events| - 1], events[|events| - 1];
      var es := About(init, id);
      if last.id == id {
        assert About(events, id) == es + [last];
        assert forall i | 0 <= i < |es| :: es[i] == (es + [last])[i];
      } else {
        assert About(events, id) == es;
      }
      NetOfOrdered(init, id);
    }
  }

  lemma OrderOfOneMore(es: seq<ChangeEvent>, e: ChangeEvent)
    requires InOrder(es)
    ensures InOrder(es + [e]) <==> (e.Registered? <==> !EndsRegistered(es))
  {
    if e.Registered? <==> !EndsRegistered(es) {
      forall i | 0 < i < |es + [e]| ensures (es + [e])[i].Registered? <==> (es + [e])[i - 1].Unregistered? {
      }
    } else if es != [] {
      assert (es + [e])[|es|] == e && (es + [e])[|es| - 1] == es[|es| - 1];
    }
  }

  /** Nothing more than one event about `id` is under way to callback `k`. */
  ghost predicate Serial(s: State, k: nat, id: string) {
    Balanced(s, k) && PendingCount(s.threads, k, id) <= 1 && InOrder(About(s.delivered[k], id))
  }

  predicate Stores(a: Action, id: string) { (a.Register? || a.Unregister?) && a.id == id }

  /** A step that stores or removes `id` only when no event about it is under way. */
  ghost predicate SerialStep(a: Action, s: State, t: State, k: nat, id: string) {
    Step(a, s, t) && (Stores(a, id) ==> PendingCount(s.threads, k, id) == 0)
  }

  lemma StepKeepsSerial(a: Action, s: State, t: State, k: nat, id: string)
    requires Serial(s, k, id) && SerialStep(a, s, t, k, id)
    ensures Serial(t, k, id)
  {
    StepKeepsBalance(a, s, t, k);
    StepKeepsCount(a, s, t, k, id);
    StepKeepsOrder(a, s, t, k, id);
  }

  lemma StepKeepsOrder(a: Action, s: State, t: State, k: nat, id: string)
    requires Serial(s, k, id) && Step(a, s, t)
    ensures k < |t.delivered| && InOrder(About(t.delivered[k], id))
  {
    if a.Fire? && s.threads[a.thread].next == k {
      DeliveryKeepsOrder(s, a.thread, k, id);
    }
  }

  lemma StepKeepsCount(a: Action, s: State, t: State, k: nat, id: string)
    requires Balanced(s, k) && PendingCount(s.threads, k, id) <= 1 && SerialStep(a, s, t, k, id)
    ensures PendingCount(t.threads, k, id) <= 1
  {
    if !a.Subscribe? {
      var i := a.thread;
      CountAfter(s.threads, i, t.threads[i], k, id);
      assert t.threads == s.threads[i := t.threads[i]];
      if Stores(a, id) { NoneCounted(s.threads, k, id); }
    }
  }

  lemma DeliveryKeepsOrder(s: State, i: nat, k: nat, id: string)
    requires Serial(s, k, id) && i < |s.threads| && s.threads[i].Firing? && s.threads[i].next == k < s.threads[i].count
    ensures InOrder(About(s.delivered[k] + [s.threads[i].event], id))
  {
    var events, e := s.delivered[k], s.threads[i].event;
    NetOfOneMore(events, e, id);
    if e.id == id {
      OneCounted(s.threads, i, k, id);
      NetOfOrdered(events, id);
      assert Excess(s, k, id) == 0;
      OrderOfOneMore(About(events, id), e);
    } else {
      assert About(events, id) + [] == About(events, id);
    }
  }

  /** Along the run, `id` is stored or removed only when no event about it is under way to callback `k`. */
  ghost predicate Serialized(trace: seq<State>, k: nat, id: string) {
    forall j | 0 < j < |trace| ::
      (id in trace[j - 1].ids <==> id !in trace[j].ids) ==> PendingCount(trace[j - 1].threads, k, id) == 0
  }

  lemma {:induction false} SerializedRunIsSerial(n: nat, m: nat, trace: seq<State>, j: nat, k: nat, id: string)
    requires IsRun(n, m, trace) && j < |trace| && k < m && Serialized(trace, k, id)
    ensures Serial(trace[j], k, id)
  {
    RunKeepsBalance(n, m, trace, j, k);
    if j == 0 {
      NothingCounted(trace[0].threads, k, id);
    } else {
      SerializedRunIsSerial(n, m, trace, j - 1, k, id);
      var a :| Step(a, trace[j - 1], trace[j]);
      StepKeepsSerial(a, trace[j - 1], trace[j], k, id);
    }
  }

  lemma {:induction false} NothingCounted(ts: seq<Thread>, k: nat, id: string)
    requires forall i | 0 <= i < |ts| :: ts[i].Idle?
    ensures PendingCount(ts, k, id) == 0
  {
    if ts != [] { NothingCounted(ts[1..], k, id); }
  }

  /** When calls about an identifier are serialized, its events alternate from a registration, and once
      none is under way they end by its presence. */
  lemma SerializedEventsAlternate(n: nat, m: nat, trace: seq<State>, k: nat, id: string)
    requires IsRun(n, m, trace) && k < m && Serialized(trace, k, id)
    ensures var s := trace[|trace| - 1];
      && k < |s.delivered| && InOrder(About(s.delivered[k], id))
      && (PendingCount(s.threads, k, id) == 0 ==> (id in s.ids <==> EndsRegistered(About(s.delivered[k], id))))
  {
    var s := trace[|trace| - 1];
    SerializedRunIsSerial(n, m, trace, |trace| - 1, k, id);
    NetOfOrdered(s.delivered[k], id);
    assert Excess(s, k, id) == 0;
    if PendingCount(s.threads, k, id) == 0 { NoneCounted(s.threads, k, id); }
  }

  ghost predicate AllInOrder(events: seq<ChangeEvent>) { forall id :: InOrder(About(events, id)) }

  /** Events replay iff, for each identifier, they are in order. */
  lemma {:induction false} ReplayIffInOrder(events: seq<ChangeEvent>)
    ensures Replay({}, events).Some? <==> AllInOrder(events)
    ensures Replay({}, events).Some? ==> forall id :: id in Replay({}, events).value <==> EndsRegistered(About(events, id))
  {
    if events == [] {
      assert forall id :: About(events, id) == [];
    } else {
      var init, last := events[..|events| - 1], events[|events| - 1];
      ReplayIffInOrder(init);
      OneMoreInOrder(init, last);
      assert events == init + [last];
    }
  }

  lemma OneMoreInOrder(init: seq<ChangeEvent>, last: ChangeEvent)
    ensures AllInOrder(init + [last]) <==>
      AllInOrder(init) && (last.Registered? <==> !EndsRegistered(About(init, last.id)))
    ensures forall id :: EndsRegistered(About(init + [last], id)) <==>
      if id == last.id then last.Registered? else EndsRegistered(About(init, id))
  {
    forall id ensures About(init + [last], id) == if last.id == id then About(init, id) + [last] else About(init, id) {
      NetOfOneMore(init, last, id);
      assert About(init, id) + [] == About(init, id);
    }
    if AllInOrder(init + [last]) {
      forall id ensures InOrder(About(init, id)) {
        assert InOrder(About(init + [last], id));
        if id == last.id { PrefixInOrder(About(init, id), [last]); }
      }
      assert InOrder(About(init + [last], last.id));
    }
    if AllInOrder(init) {
      assert InOrder(About(init, last.id));
      OrderOfOneMore(About(init, last.id), last);
      if last.Registered? <==> !EndsRegistered(About(init, last.id)) {
        forall id ensures InOrder(About(init + [last], id)) {
          assert InOrder(About(init, id));
        }
      }
    }
  }

  lemma PrefixInOrder(es: seq<ChangeEvent>, more: seq<ChangeEvent>)
    requires InOrder(es + more)
    ensures InOrder(es)
  {
    assert forall i | 0 <= i < |es| :: es[i] == (es + more)[i];
  }

  /** When calls about every identifier are serialized, the delivered events replay, and once nothing is
      under way they replay to the store. */
  lemma SerializedEventsReplay(n: nat, m: nat, trace: seq<State>, k: nat)
    requires IsRun(n, m, trace) && k < m && forall id :: Serialized(trace, k, id)
    ensures var s := trace[|trace| - 1];
      && k < |s.delivered| && Replay({}, s.delivered[k]).Some?
      && ((forall id :: PendingCount(s.threads, k, id) == 0) ==> Replay({}, s.delivered[k]) == Some(s.ids))
  {
    var s := trace[|trace| - 1];
    SerializedEventsAlternate(n, m, trace, k, "");
    ReplayIffInOrder(s.delivered[k]);
    forall id
      ensures InOrder(About(s.delivered[k], id))
      ensures PendingCount(s.threads, k, id) == 0 ==> (id in s.ids <==> EndsRegistered(About(s.delivered[k], id)))
    {
      SerializedEventsAlternate(n, m, trace, k, id);
    }
    if forall id :: PendingCount(s.threads, k, id) == 0 {
      var ids := Replay({}, s.delivered[k]).value;
      forall id ensures id in ids <==> id in s.ids {
        assert PendingCount(s.threads, k, id) == 0;
      }
      assert ids == s.ids;
    }
  }

  // ---------------------------------------------------------------------------------------
  // When the order may be lost
  // ---------------------------------------------------------------------------------------

  /** `run` goes on from `s` without storing or removing `id`. */
  ghost predicate Continues(s: State, run: seq<State>, id: string) {
    && run != [] && run[0] == s
    && forall j | 0 < j < |run| :: NextWithout(run[j - 1], run[j], id)
  }

  ghost predicate NextWithout(s: State, t: State, id: string) { exists a :: Step(a, s, t) && !Stores(a, id) }

  ghost predicate LosesOrder(run: seq<State>, k: nat, id: string)
    requires run != []
  {
    var s := run[|run| - 1]; k < |s.delivered| && !InOrder(About(s.delivered[k], id))
  }

  /** From a reachable state in which the events about `id` are in order, the announcements under way may
      bring them out of order iff there are two or more of them. */
  lemma OrderIsAtRiskIffTwoPending(n: nat, m: nat, trace: seq<State>, k: nat, id: string)
    requires IsRun(n, m, trace) && k < m && k < |trace[|trace| - 1].delivered|
    requires InOrder(About(trace[|trace| - 1].delivered[k], id))
    ensures var s := trace[|trace| - 1];
      PendingCount(s.threads, k, id) >= 2 <==> exists run :: Continues(s, run, id) && LosesOrder(run, k, id)
  {
    var s := trace[|trace| - 1];
    RunKeepsBalance(n, m, trace, |trace| - 1, k);
    if PendingCount(s.threads, k, id) >= 2 {
      var run := OutOfOrderRun(s, k, id);
    } else {
      forall run | Continues(s, run, id) ensures !LosesOrder(run, k, id) {
        ContinuationIsSerial(s, run, |run| - 1, k, id);
      }
    }
  }

  lemma {:induction false} ContinuationIsSerial(s: State, run: seq<State>, j: nat, k: nat, id: string)
    requires Serial(s, k, id) && Continues(s, run, id) && j < |run|
    ensures Serial(run[j], k, id)
  {
    if j > 0 {
      ContinuationIsSerial(s, run, j - 1, k, id);
      var a :| Step(a, run[j - 1], run[j]) && !Stores(a, id);
      StepKeepsSerial(a, run[j - 1], run[j], k, id);
    }
  }

  lemma OutOfOrderRun(s: State, k: nat, id: string) returns (run: seq<State>)
    requires Balanced(s, k) && PendingCount(s.threads, k, id) >= 2 && InOrder(About(s.delivered[k], id))
    ensures Continues(s, run, id) && LosesOrder(run, k, id)
  {
    var i := UntimelyThread(s, k, id);
    run := Deliver(s, i, k, id);
    var events, e := s.delivered[k], s.threads[i].event;
    NetOfOneMore(events, e, id);
    NetOfOrdered(events, id);
    OrderOfOneMore(About(events, id), e);
  }

  /** Of two or more pending events, one is out of turn. */
  lemma UntimelyThread(s: State, k: nat, id: string) returns (i: nat)
    requires Balanced(s, k) && PendingCount(s.threads, k, id) >= 2 && InOrder(About(s.delivered[k], id))
    ensures i < |s.threads| && Pending(s.threads[i], k, id) == if EndsRegistered(About(s.delivered[k], id)) then 1 else -1
  {
    var w := if EndsRegistered(About(s.delivered[k], id)) then 1 else -1;
    NetOfOrdered(s.delivered[k], id);
    assert Excess(s, k, id) == 0;
    if forall j | 0 <= j < |s.threads| :: Pending(s.threads[j], k, id) != w {
      AlikeCounted(s.threads, k, id, -w);
      assert false;
    }
    i :| 0 <= i < |s.threads| && Pending(s.threads[i], k, id) == w;
  }

  /** How many steps a goroutine is away from callback `k`. */
  function Distance(t: Thread, k: nat): int { if t.Firing? then k - t.next else k + 1 }

  /** A goroutine goes on until it has announced its event to callback `k`. */
  lemma {:induction false} Deliver(s: State, i: nat, k: nat, id: string) returns (run: seq<State>)
    requires WellFormed(s) && k < |s.delivered| && i < |s.threads| && Pending(s.threads[i], k, id) != 0
    ensures Continues(s, run, id)
    ensures k < |run[|run| - 1].delivered| && run[|run| - 1].delivered[k] == s.delivered[k] + [s.threads[i].event]
    decreases Distance(s.threads[i], k)
  {
    var me := s.threads[i];
    if me.Stored? {
      var t := s.(threads := s.threads[i := Firing(me.event, |s.delivered|, 0)]);
      run := Deliver(t, i, k, id);
      run := Prepended(SnapshotCallbacks(i), s, run, id);
    } else {
      var t := s.(threads := s.threads[i := me.(next := me.next + 1)],
                  delivered := s.delivered[me.next := s.delivered[me.next] + [me.event]]);
      if me.next == k {
        run := [t];
      } else {
        run := Deliver(t, i, k, id);
      }
      run := Prepended(Fire(i), s, run, id);
    }
  }

  lemma Prepended(a: Action, s: State, run: seq<State>, id: string) returns (longer: seq<State>)
    requires run != [] && Step(a, s, run[0]) && !Stores(a, id) && Continues(run[0], run, id)
    ensures Continues(s, longer, id) && longer[|longer| - 1] == run[|run| - 1]
  {
    longer := [s] + run;
    assert NextWithout(s, run[0], id);
    forall j | 0 < j < |longer| ensures NextWithout(longer[j - 1], longer[j], id) {
      if j > 1 {
        assert longer[j - 1] == run[j - 2] && longer[j] == run[j - 1];
      }
    }
  }

  /** Such a run: a goroutine that unregisters overtakes the one that registered, and then the events
      cannot be replayed. */
  lemma EventsMayOvertake(id: string) returns (trace: seq<State>)
    ensures IsRun(2, 1, trace)
    ensures var s := trace[|trace| - 1];
      && (forall i | 0 <= i < |s.threads| :: s.threads[i].Idle?)
      && s.ids == {} && s.delivered == [[Unregistered(id), Registered(id)]]
      && Replay({}, s.delivered[0]) == None
  {
    var r, u := Registered(id), Unregistered(id);
    trace := StoreAndRemove(id);
    trace := Announce(trace, 1, u);
    trace := Announce(trace, 0, r);
    Append([], u);
    Append([u], r);
    CannotReplay(id);
  }

  lemma Longer(a: Action, n: nat, m: nat, trace: seq<State>, t: State) returns (longer: seq<State>)
    requires IsRun(n, m, trace) && Step(a, trace[|trace| - 1], t)
    ensures IsRun(n, m, longer) && longer[|longer| - 1] == t
  {
    longer := trace + [t];
    forall i | 0 < i < |longer| ensures Next(longer[i - 1], longer[i]) {
      if i < |trace| {
        assert longer[i - 1] == trace[i - 1] && longer[i] == trace[i];
      }
    }
  }

  /** One goroutine stores a skill, another removes it; neither has announced anything yet. */
  lemma StoreAndRemove(id: string) returns (trace: seq<State>)
    ensures IsRun(2, 1, trace)
    ensures var t := trace[|trace| - 1];
      && t.ids == {} && |t.threads| == 2 && t.delivered == [[]]
      && t.threads[0] == Stored(Registered(id)) && t.threads[1] == Stored(Unregistered(id))
  {
    var a := Start(2, 1);
    var b := State({id}, a.threads[0 := Stored(Registered(id))], a.delivered);
    var t := State({}, b.threads[1 := Stored(Unregistered(id))], a.delivered);
    assert {} + {id} == {id} && {id} - {id} == {};
    trace := [a];
    trace := Longer(Register(0, id), 2, 1, trace, b);
    trace := Longer(Unregister(1, id), 2, 1, trace, t);
  }

  /** A goroutine fires its event at the only callback and is done. */
  lemma Announce(trace: seq<State>, i: nat, e: ChangeEvent) returns (longer: seq<State>)
    requires IsRun(2, 1, trace)
    requires var s := trace[|trace| - 1]; i < |s.threads| && s.threads[i] == Stored(e) && |s.delivered| == 1
    ensures IsRun(2, 1, longer)
    ensures var s, t := trace[|trace| - 1], longer[|longer| - 1];
      t.ids == s.ids && t.threads == s.threads[i := Idle] && t.delivered == [s.delivered[0] + [e]]
  {
    var s := trace[|trace| - 1];
    var a := s.(threads := s.threads[i := Firing(e, 1, 0)]);
    var b := State(s.ids, s.threads[i := Firing(e, 1, 1)], [s.delivered[0] + [e]]);
    var t := b.(threads := s.threads[i := Idle]);
    assert s.delivered[0 := s.delivered[0] + [e]] == b.delivered;
    longer := Longer(SnapshotCallbacks(i), 2, 1, trace, a);
    longer := Longer(Fire(i), 2, 1, longer, b);
    longer := Longer(Finish(i), 2, 1, longer, t);
  }

  lemma Append(events: seq<ChangeEvent>, e: ChangeEvent)
    ensures events == [] ==> events + [e] == [e]
    ensures |events| == 1 ==> events + [e] == [events[0], e]
  {
  }

  lemma CannotReplay(id: string)
    ensures Replay({}, [Unregistered(id), Registered(id)]) == None
  {
    var u, r := Unregistered(id), Registered(id);
    assert [u, r][..1] == [u] && [u][..0] == [];
    assert Replay({}, [u]) == None;
  }
}
