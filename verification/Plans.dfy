/** Validating and freezing an execution plan, and batching its steps: execution/plan.go. */
module Plans {
  import opened Values
  import opened Steps

  // ---------------------------------------------------------------------------------------
  // GroupParallelSteps
  // ---------------------------------------------------------------------------------------

  predicate Groupable(s: StepInfo) { s.parallelizable && s.parallelGroup != "" }

  /** `a` and `b`, when neighbours, belong in one batch. */
  predicate SameBatch(a: StepInfo, b: StepInfo) {
    Groupable(a) && Groupable(b) && a.parallelGroup == b.parallelGroup
  }

  function Flatten<T>(batches: seq<seq<T>>): seq<T> {
    if batches == [] then [] else Flatten(batches[..|batches| - 1]) + batches[|batches| - 1]
  }

  /** A single step that runs alone, or a non-empty run of parallelizable steps of one group. */
  ghost predicate IsBatch(batch: seq<StepInfo>) {
    || (|batch| == 1 && !Groupable(batch[0]))
    || (|batch| > 0 && forall i | 0 <= i < |batch| :: SameBatch(batch[0], batch[i]))
  }

  /** Batches, no two neighbours of which could be merged. */
  ghost predicate Maximal(batches: seq<seq<StepInfo>>) {
    && (forall i | 0 <= i < |batches| :: IsBatch(batches[i]))
    && (forall i | 0 < i < |batches| :: !SameBatch(batches[i - 1][0], batches[i][0]))
  }

  ghost predicate Canonical(steps: seq<StepInfo>, batches: seq<seq<StepInfo>>) {
    Flatten(batches) == steps && Maximal(batches)
  }

  method GroupParallelSteps(steps: seq<StepInfo>) returns (groups: seq<seq<StepInfo>>)
    ensures Canonical(steps, groups)
  {
    groups := [];
    var i := 0;
    while i < |steps|
      invariant 0 <= i <= |steps|
      invariant Canonical(steps[..i], groups)
      invariant groups != [] && i < |steps| ==> !SameBatch(groups[|groups| - 1][0], steps[i])
      decreases |steps| - i
    {
      var s := steps[i];
      ghost var start := i;
      var batch: seq<StepInfo>;
      if s.parallelizable && s.parallelGroup != "" {
        batch := [];
        var group := s.parallelGroup;
        while i < |steps| && steps[i].parallelizable && steps[i].parallelGroup == group
          invariant start <= i <= |steps| && batch == steps[start..i]
          invariant i == start ==> steps[i] == s
          invariant forall k | 0 <= k < |batch| :: SameBatch(s, batch[k])
        {
          batch := batch + [steps[i]];
          i := i + 1;
        }
      } else {
        batch := [s];
        i := i + 1;
      }
      AppendBatch(steps, start, i, groups, batch);
      groups := groups + [batch];
    }
    assert steps[..|steps|] == steps;
  }

  lemma AppendBatch(steps: seq<StepInfo>, start: nat, end: nat, groups: seq<seq<StepInfo>>, batch: seq<StepInfo>)
    requires start < end <= |steps| && batch == steps[start..end] && IsBatch(batch)
    requires Canonical(steps[..start], groups)
    requires groups != [] ==> !SameBatch(groups[|groups| - 1][0], steps[start])
    ensures Canonical(steps[..end], groups + [batch])
  {
    assert (groups + [batch])[..|groups|] == groups;
    assert steps[..end] == steps[..start] + batch;
  }

  lemma FlattenHead<T>(batch: seq<T>, rest: seq<seq<T>>)
    ensures Flatten([batch] + rest) == batch + Flatten(rest)
  {
    var all := [batch] + rest;
    if rest == [] {
      assert all[..0] == [];
    } else {
      assert all[..|all| - 1] == [batch] + rest[..|rest| - 1];
      FlattenHead(batch, rest[..|rest| - 1]);
    }
  }

  lemma FirstBatch(a: seq<seq<StepInfo>>)
    requires Maximal(a) && a != []
    ensures |a[0]| <= |Flatten(a)| && Flatten(a)[..|a[0]|] == a[0] && Flatten(a)[|a[0]|..] == Flatten(a[1..])
  {
    assert a == [a[0]] + a[1..];
    FlattenHead(a[0], a[1..]);
  }

  /** The first batch ends where its run ends. */
  lemma FirstBatchEnds(a: seq<seq<StepInfo>>)
    requires Maximal(a) && a != []
    ensures var n := |a[0]|;
      0 < n <= |Flatten(a)| && (n < |Flatten(a)| ==> !SameBatch(Flatten(a)[n - 1], Flatten(a)[n]))
  {
    FirstBatch(a);
    assert IsBatch(a[0]);
    var n := |a[0]|;
    assert Flatten(a)[n - 1] == a[0][n - 1];
    if |a| == 1 {
      assert Flatten(a[1..]) == [];
    } else {
      FirstBatch(a[1..]);
      assert IsBatch(a[1]);
      assert Flatten(a)[n] == Flatten(a)[n..][0] == a[1][0];
    }
  }

  /** Within the first batch the run goes on. */
  lemma FirstBatchGoesOn(a: seq<seq<StepInfo>>, n: nat)
    requires Maximal(a) && a != [] && 0 < n < |a[0]|
    ensures |a[0]| <= |Flatten(a)| && SameBatch(Flatten(a)[n - 1], Flatten(a)[n])
  {
    FirstBatch(a);
    assert IsBatch(a[0]);
    assert Flatten(a)[n - 1] == a[0][n - 1] && Flatten(a)[n] == a[0][n];
    assert SameBatch(a[0][0], a[0][n - 1]) && SameBatch(a[0][0], a[0][n]);
  }

  /** The first batch of a canonical partition is no shorter than the first batch of another. */
  lemma FirstBatchIsLongest(a: seq<seq<StepInfo>>, b: seq<seq<StepInfo>>)
    requires Maximal(a) && Maximal(b) && Flatten(a) == Flatten(b) && a != [] && b != []
    ensures |a[0]| >= |b[0]|
  {
    FirstBatchEnds(a);
    if |a[0]| < |b[0]| {
      FirstBatchGoesOn(b, |a[0]|);
    }
  }

  /** There is only one canonical partition; so regrouping the steps of a maximal partition
      reproduces it. */
  lemma {:induction false} CanonicalIsUnique(a: seq<seq<StepInfo>>, b: seq<seq<StepInfo>>)
    requires Maximal(a) && Maximal(b) && Flatten(a) == Flatten(b)
    ensures a == b
    decreases |a|
  {
    if a == [] || b == [] {
      EmptyFlattening(a);
      EmptyFlattening(b);
    } else {
      FirstBatchIsLongest(a, b);
      FirstBatchIsLongest(b, a);
      FirstBatch(a);
      FirstBatch(b);
      CanonicalIsUnique(a[1..], b[1..]);
      assert a == [a[0]] + a[1..] && b == [b[0]] + b[1..];
    }
  }

  lemma {:induction false} FlattenConcat<T>(a: seq<seq<T>>, b: seq<seq<T>>)
    ensures Flatten(a + b) == Flatten(a) + Flatten(b)
    decreases |b|
  {
    if b == [] {
      assert a + b == a;
    } else {
      FlattenConcat(a, b[..|b| - 1]);
      assert (a + b)[..|a + b| - 1] == a + b[..|b| - 1];
    }
  }

  /** Where the `p`-th step of batch `b` stands, and where the next one does. */
  lemma StandsAt(batches: seq<seq<StepInfo>>, b: nat, p: nat)
    requires b < |batches| && p < |batches[b]|
    ensures var steps, at := Flatten(batches), |Flatten(batches[..b])| + p;
      && at < |steps| && steps[at] == batches[b][p]
      && (p + 1 < |batches[b]| ==> at + 1 < |steps| && steps[at + 1] == batches[b][p + 1])
      && (p + 1 == |batches[b]| && b + 1 < |batches| && batches[b + 1] != [] ==>
            at + 1 < |steps| && steps[at + 1] == batches[b + 1][0])
      && (p + 1 == |batches[b]| && b + 1 == |batches| ==> at + 1 == |steps|)
  {
    var before, rest := batches[..b], batches[b + 1..];
    assert batches == before + ([batches[b]] + rest);
    FlattenConcat(before, [batches[b]] + rest);
    FlattenHead(batches[b], rest);
    if rest != [] {
      assert rest == [rest[0]] + rest[1..];
      FlattenHead(rest[0], rest[1..]);
    }
  }

  /** A step is in one batch with the next iff both may run in parallel and name the same group. */
  lemma NeighboursShareBatchIff(steps: seq<StepInfo>, batches: seq<seq<StepInfo>>, b: nat, p: nat)
    requires Canonical(steps, batches) && b < |batches| && p < |batches[b]|
    ensures var at := |Flatten(batches[..b])| + p;
      && at < |steps| && steps[at] == batches[b][p]
      && (p + 1 < |batches[b]| <==>
            && at + 1 < |steps| && steps[at].parallelizable && steps[at + 1].parallelizable
            && steps[at].parallelGroup != "" && steps[at].parallelGroup == steps[at + 1].parallelGroup)
  {
    StandsAt(batches, b, p);
    assert IsBatch(batches[b]);
    if p + 1 < |batches[b]| {
      assert SameBatch(batches[b][0], batches[b][p]) && SameBatch(batches[b][0], batches[b][p + 1]);
    } else if b + 1 < |batches| {
      assert IsBatch(batches[b + 1]) && !SameBatch(batches[b][0], batches[b + 1][0]);
      assert p > 0 ==> SameBatch(batches[b][0], batches[b][p]);
    }
  }

  lemma EmptyFlattening(a: seq<seq<StepInfo>>)
    requires Maximal(a)
    ensures Flatten(a) == [] <==> a == []
  {
    if a != [] {
      assert IsBatch(a[|a| - 1]);
    }
  }

  // ---------------------------------------------------------------------------------------
  // ExecutionPlan.Validate
  // ---------------------------------------------------------------------------------------

  datatype PlanError = AlreadyFrozen | NoSteps | EmptyName(at: nat) | InvalidType(at: nat) | DuplicateName(first: nat, at: nat)

  predicate ValidType(typ: string) { typ == "skill" || typ == "tool" || typ == "llm" }

  /** `a` is `b` with a step identifier supplied when there was none. */
  ghost predicate Identified(a: StepInfo, b: StepInfo) {
    a.stepId != "" && a == b.(stepId := a.stepId) && (b.stepId != "" ==> a == b)
  }

  /** What is wrong with step `i`, the steps before it being in order; None if nothing is. */
  ghost predicate FaultAt(steps: seq<StepInfo>, i: nat, e: PlanError)
    requires i < |steps|
  {
    if steps[i].name == "" then e == EmptyName(i)
    else if !ValidType(steps[i].typ) then e == InvalidType(i)
    else e.DuplicateName? && e.at == i && e.first < i && steps[e.first].name == steps[i].name
  }

  ghost predicate StepsOk(steps: seq<StepInfo>) {
    && (forall i | 0 <= i < |steps| :: steps[i].name != "" && ValidType(steps[i].typ))
    && (forall i, j | 0 <= i < j < |steps| :: steps[i].name != steps[j].name)
  }

  /** The steps are in order iff each has a name of its own and a type the executor knows. */
  lemma StepsAreOkIff(steps: seq<StepInfo>)
    ensures StepsOk(steps) <==>
      && (forall i | 0 <= i < |steps| :: steps[i].name != "" && steps[i].typ in ["skill", "tool", "llm"])
      && (forall i, j | 0 <= i < |steps| && 0 <= j < |steps| && steps[i].name == steps[j].name :: i == j)
  {
    forall i | 0 <= i < |steps| ensures ValidType(steps[i].typ) <==> steps[i].typ in ["skill", "tool", "llm"] {
    }
  }

  /** There is one first fault, and it is about the first step that is not in order: about its name, if it
      has none, else about its type, if that is unknown, else about an earlier step of the same name. */
  lemma FirstFaultIsUnique(steps: seq<StepInfo>, e: PlanError, f: PlanError)
    requires !e.AlreadyFrozen? && !e.NoSteps? && !f.AlreadyFrozen? && !f.NoSteps?
    requires e.at < |steps| && FaultAt(steps, e.at, e) && StepsOk(steps[..e.at])
    requires f.at < |steps| && FaultAt(steps, f.at, f) && StepsOk(steps[..f.at])
    ensures e == f
    ensures match e
            case EmptyName(at) => steps[at].name == ""
            case InvalidType(at) => steps[at].name != "" && steps[at].typ !in ["skill", "tool", "llm"]
            case DuplicateName(first, at) =>
              && first < at && steps[first].name == steps[at].name != ""
              && steps[at].typ in ["skill", "tool", "llm"]
            case _ => false
  {
    FaultySoFar(steps, e);
    FaultySoFar(steps, f);
    if e.at < f.at {
      OkUpTo(steps, e.at + 1, f.at);
    } else if f.at < e.at {
      OkUpTo(steps, f.at + 1, e.at);
    } else if e.DuplicateName? {
      var so := steps[..e.at];
      assert so[e.first].name == so[f.first].name;
    }
  }

  lemma OkUpTo(steps: seq<StepInfo>, i: nat, j: nat)
    requires i <= j <= |steps| && StepsOk(steps[..j])
    ensures StepsOk(steps[..i])
  {
    assert forall k | 0 <= k < i :: steps[..i][k] == steps[..j][k];
  }

  lemma FaultySoFar(steps: seq<StepInfo>, e: PlanError)
    requires !e.AlreadyFrozen? && !e.NoSteps? && e.at < |steps| && FaultAt(steps, e.at, e)
    ensures !StepsOk(steps[..e.at + 1])
  {
    var so := steps[..e.at + 1];
    assert so[e.at] == steps[e.at];
    if e.DuplicateName? {
      assert so[e.first] == steps[e.first];
    }
  }

  /** The first `i` steps are in order and identified, `seen` holding their names, and the rest untouched. */
  ghost predicate UpTo(before: seq<StepInfo>, now: seq<StepInfo>, seen: map<string, nat>, i: nat) {
    && |now| == |before| && i <= |before| && now[i..] == before[i..]
    && (forall j | 0 <= j < i :: Identified(now[j], before[j]))
    && StepsOk(before[..i])
    && (forall j | 0 <= j < i :: before[j].name in seen && seen[before[j].name] == j)
    && (forall name | name in seen :: seen[name] < i && before[seen[name]].name == name)
  }

  lemma OneMoreStep(before: seq<StepInfo>, now: seq<StepInfo>, seen: map<string, nat>, i: nat, step: StepInfo)
    requires UpTo(before, now, seen, i) && i < |before| && Identified(step, before[i])
    requires before[i].name != "" && ValidType(before[i].typ) && before[i].name !in seen
    ensures UpTo(before, now[i := step], seen[before[i].name := i], i + 1)
  {
    assert now[i := step][i + 1..] == before[i + 1..] by {
      assert now[i..][1..] == now[i + 1..] && before[i..][1..] == before[i + 1..];
    }
    assert before[..i + 1] == before[..i] + [before[i]];
  }

  class ExecutionPlan {
    var id: string
    var steps: seq<StepInfo>
    var frozen: bool

    constructor (id: string, steps: seq<StepInfo>)
      ensures this.id == id && this.steps == steps && !frozen
    {
      this.id, this.steps, this.frozen := id, steps, false;
    }

    method Freeze()
      modifies `frozen
      ensures frozen
    {
      frozen := true;
    }

    /** `uuid(n)` is the n-th identifier drawn. Validation succeeds, and freezes the plan, iff the plan
        was not frozen and its steps are in order; on failure at step `i` the plan stays open, with the
        plan and the steps before `i` identified already. */
    method Validate(uuid: nat -> string) returns (err: Option<PlanError>)
      requires forall n :: uuid(n) != ""
      modifies this
      ensures err.None? <==> !old(frozen) && old(steps) != [] && StepsOk(old(steps))
      ensures frozen == (old(frozen) || err.None?)
      ensures |steps| == |old(steps)|
      ensures old(frozen) || old(steps) == [] ==> id == old(id) && steps == old(steps)
      ensures !old(frozen) && old(steps) != [] ==> id != "" && (old(id) != "" ==> id == old(id))
      ensures err.None? ==> forall i | 0 <= i < |steps| ::
        && steps[i].stepId != "" && (old(steps)[i].stepId != "" ==> steps[i] == old(steps)[i])
        && steps[i] == old(steps)[i].(stepId := steps[i].stepId)
      ensures match err
              case None => true
              case Some(AlreadyFrozen) => old(frozen)
              case Some(NoSteps) => !old(frozen) && old(steps) == []
              case Some(e) =>
                && e.at < |steps| && FaultAt(old(steps), e.at, e) && StepsOk(old(steps)[..e.at])
                && (forall i | 0 <= i < e.at :: Identified(steps[i], old(steps)[i]))
                && steps[e.at..] == old(steps)[e.at..]
    {
      if frozen {
        return Some(AlreadyFrozen);
      }
      if |steps| == 0 {
        return Some(NoSteps);
      }
      ghost var before := steps;
      var drawn := 0;
      if id == "" {
        id := uuid(drawn);
        drawn := drawn + 1;
      }
      var seen: map<string, nat> := map[];
      for i := 0 to |steps|
        invariant !frozen && id != "" && (old(id) != "" ==> id == old(id))
        invariant |steps| == |before| && drawn >= 0 && UpTo(before, steps, seen, i)
      {
        var step := steps[i];
        ghost var was, names := steps, seen;
        assert step == steps[i..][0] == before[i..][0];
        if step.name == "" {
          return Some(EmptyName(i));
        }
        if step.typ != "skill" && step.typ != "tool" && step.typ != "llm" {
          return Some(InvalidType(i));
        }
        if step.name in seen {
          return Some(DuplicateName(seen[step.name], i));
        }
        seen := seen[step.name := i];
        if step.stepId == "" {
          steps := steps[i := step.(stepId := uuid(drawn))];
          drawn := drawn + 1;
        }
        OneMoreStep(before, was, names, i, steps[i]);
        assert steps == was[i := steps[i]];
      }
      assert before[..|before|] == before;
      Freeze();
      err := None;
    }
  }
}
