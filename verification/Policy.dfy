/** The rule-based policy engine: control/policy/policy.go. */
module Policy {
  import opened Values
  import opened StringOrder
  import opened TimeWindows

  datatype Rule = Rule(
    id: string,
    tenant: string,
    effect: string,
    action: string,
    resource: string,
    conditions: map<string, string>,
    priority: int)

  datatype Request = Request(action: string, resource: string, attributes: map<string, string>)

  datatype Decision = Allowed | Denied(rule: string) | Invalid

  // ---------------------------------------------------------------------------------------
  // Which rules match
  // ---------------------------------------------------------------------------------------

  predicate MatchAction(pattern: string, action: string) { pattern == "*" || pattern == action }

  predicate HasSuffix(s: string, suffix: string) { |suffix| <= |s| && s[|s| - |suffix|..] == suffix }

  predicate MatchResource(pattern: string, resource: string) {
    if pattern == "*" then true
    else if HasSuffix(pattern, "/*") then
      var prefix := pattern[..|pattern| - 2];
      prefix + "/" <= resource || resource == prefix
    else pattern == resource
  }

  // A prefix followed by slash-star matches the prefix and everything below it.
  lemma WildcardMatchesSubtree(prefix: string, resource: string)
    ensures MatchResource(prefix + "/*", resource) <==>
      resource == prefix || exists rest :: resource == prefix + "/" + rest
  {
    var pattern := prefix + "/*";
    assert pattern[..|pattern| - 2] == prefix && pattern[|pattern| - 2..] == "/*";
    assert pattern != "*" by { assert |pattern| >= 2; }
    if prefix + "/" <= resource {
      assert resource == prefix + "/" + resource[|prefix| + 1..];
    }
  }

  predicate IsTimeKey(key: string) { key == "time_after" || key == "time_before" }

  predicate HasWindow(conditions: map<string, string>) { "time_after" in conditions && "time_before" in conditions }

  /** A rule with both time keys is decided by the time window alone. */
  predicate ConditionsHold(conditions: map<string, string>, attributes: map<string, string>) {
    if HasWindow(conditions) then
      && "current_time" in attributes
      && MatchTimeWindow(conditions["time_after"], conditions["time_before"], attributes["current_time"])
    else
      forall key | key in conditions && !IsTimeKey(key) :: key in attributes && attributes[key] == conditions[key]
  }

  /** As documented: the window, where there is one, and every other condition. */
  predicate AllConditionsHold(conditions: map<string, string>, attributes: map<string, string>) {
    && (HasWindow(conditions) ==>
          && "current_time" in attributes
          && MatchTimeWindow(conditions["time_after"], conditions["time_before"], attributes["current_time"]))
    && forall key | key in conditions && !IsTimeKey(key) :: key in attributes && attributes[key] == conditions[key]
  }

  function OtherKeys(conditions: map<string, string>): set<string> {
    set key | key in conditions && !IsTimeKey(key)
  }

  /** What the window leaves to the other conditions is nothing: there are none, or the window admits no
      time, or only the one time that the one other condition asks for. */
  predicate WindowDecides(conditions: map<string, string>)
    requires HasWindow(conditions)
  {
    var after, before := conditions["time_after"], conditions["time_before"];
    || after == before
    || OtherKeys(conditions) == {}
    || (OtherKeys(conditions) == {"current_time"} && conditions["current_time"] == after && before == Successor(after))
  }

  /** The code agrees with its documentation, for all attributes, iff there is no window or the window
      leaves nothing to the other conditions. */
  lemma AllConditionsCountIff(conditions: map<string, string>)
    ensures (forall attributes :: ConditionsHold(conditions, attributes) == AllConditionsHold(conditions, attributes))
       <==> (HasWindow(conditions) ==> WindowDecides(conditions))
  {
    if HasWindow(conditions) {
      var after, before := conditions["time_after"], conditions["time_before"];
      if after == before {
        forall t ensures !MatchTimeWindow(after, before, t) {
          EmptyWindow(after, t);
        }
      } else if OtherKeys(conditions) == {"current_time"} {
        OnlyTimeIsOther(conditions);
      } else if OtherKeys(conditions) != {} {
        OtherConditionIsIgnored(conditions);
      } else {
        assert forall key | key in conditions && !IsTimeKey(key) :: key in OtherKeys(conditions);
      }
    }
  }

  lemma StartIsInWindow(after: string, before: string)
    requires after != before
    ensures MatchTimeWindow(after, before, after)
  {
    LessIsTotal(after, before);
    LessIsTotal(after, after);
  }

  /** Attributes that give the time alone, which the code takes for a match. */
  lemma OtherConditionIsIgnored(conditions: map<string, string>)
    requires HasWindow(conditions) && conditions["time_after"] != conditions["time_before"]
    requires OtherKeys(conditions) != {} && OtherKeys(conditions) != {"current_time"}
    ensures var attributes := map["current_time" := conditions["time_after"]];
      ConditionsHold(conditions, attributes) && !AllConditionsHold(conditions, attributes)
  {
    StartIsInWindow(conditions["time_after"], conditions["time_before"]);
    var keys, time := OtherKeys(conditions), {"current_time"};
    assert keys == (keys - time) + (keys * time);
    assert keys * time == {} || keys * time == time;
    var key :| key in keys - time;
    assert key in conditions && !IsTimeKey(key);
  }

  lemma OnlyTimeIsOther(conditions: map<string, string>)
    requires HasWindow(conditions) && conditions["time_after"] != conditions["time_before"]
    requires OtherKeys(conditions) == {"current_time"}
    ensures "current_time" in conditions
    ensures (forall attributes :: ConditionsHold(conditions, attributes) == AllConditionsHold(conditions, attributes))
       <==> conditions["current_time"] == conditions["time_after"] && conditions["time_before"] == Successor(conditions["time_after"])
  {
    assert "current_time" in OtherKeys(conditions);
    var after, before, v := conditions["time_after"], conditions["time_before"], conditions["current_time"];
    WindowIsOnePoint(after, before, v);
    forall attributes
      ensures AllConditionsHold(conditions, attributes) <==>
        ConditionsHold(conditions, attributes) && attributes["current_time"] == v
    {
      assert forall key | key in conditions && !IsTimeKey(key) :: key in OtherKeys(conditions);
    }
    if forall attributes :: ConditionsHold(conditions, attributes) == AllConditionsHold(conditions, attributes) {
      forall t | MatchTimeWindow(after, before, t) ensures t == v {
        var attributes := map["current_time" := t];
        assert ConditionsHold(conditions, attributes) == AllConditionsHold(conditions, attributes);
      }
    }
  }

  method MatchConditions(conditions: map<string, string>, attributes: map<string, string>) returns (ok: bool)
    ensures ok == ConditionsHold(conditions, attributes)
  {
    if |conditions| == 0 {
      return true;
    }
    if "time_after" in conditions {
      if "time_before" in conditions {
        if "current_time" !in attributes {
          return false;
        }
        return MatchTimeWindow(conditions["time_after"], conditions["time_before"], attributes["current_time"]);
      }
    }
    var todo := conditions.Keys;
    while todo != {}
      invariant todo <= conditions.Keys
      invariant forall key | key in conditions.Keys - todo && !IsTimeKey(key) ::
        key in attributes && attributes[key] == conditions[key]
    {
      var key :| key in todo;
      todo := todo - {key};
      if key == "time_after" || key == "time_before" {
        continue;
      }
      if key !in attributes || attributes[key] != conditions[key] {
        return false;
      }
    }
    ok := true;
  }

  predicate Matches(r: Rule, q: Request) {
    MatchAction(r.action, q.action) && MatchResource(r.resource, q.resource) && ConditionsHold(r.conditions, q.attributes)
  }

  /** A matching rule whose effect the engine knows. */
  predicate Decisive(r: Rule, q: Request) { Matches(r, q) && (r.effect == "allow" || r.effect == "deny") }

  function Verdict(r: Rule): Decision { if r.effect == "deny" then Denied(r.id) else Allowed }

  // ---------------------------------------------------------------------------------------
  // Evaluation over one order of the rules
  // ---------------------------------------------------------------------------------------

  function FirstMatch(rules: seq<Rule>, q: Request): Decision {
    if rules == [] then Allowed
    else if Decisive(rules[0], q) then Verdict(rules[0])
    else FirstMatch(rules[1..], q)
  }

  ghost predicate Descending(rules: seq<Rule>) {
    forall i, j | 0 <= i < j < |rules| :: rules[i].priority >= rules[j].priority
  }

  /** An order that collecting a map and sorting unstably by priority may produce. */
  ghost predicate Ordering(rules: set<Rule>, order: seq<Rule>) {
    Distinct(order) && SeqToSet(order) == rules && Descending(order)
  }

  // ---------------------------------------------------------------------------------------
  // What evaluation may decide, whatever the order
  // ---------------------------------------------------------------------------------------

  /** The decisive rules that no decisive rule outranks. */
  function Top(rules: set<Rule>, q: Request): set<Rule> {
    set r | r in rules && Decisive(r, q) && forall s | s in rules && Decisive(s, q) :: s.priority <= r.priority
  }

  ghost predicate Possible(rules: set<Rule>, q: Request, d: Decision) {
    if Top(rules, q) == {} then d == Allowed else exists r | r in Top(rules, q) :: d == Verdict(r)
  }

  lemma {:induction false} FirstMatchIsFirst(order: seq<Rule>, q: Request) returns (i: nat)
    ensures i <= |order| && forall j | 0 <= j < i :: !Decisive(order[j], q)
    ensures if i < |order| then Decisive(order[i], q) && FirstMatch(order, q) == Verdict(order[i]) else FirstMatch(order, q) == Allowed
  {
    if order == [] || Decisive(order[0], q) {
      i := 0;
    } else {
      i := FirstMatchIsFirst(order[1..], q);
      i := i + 1;
      forall j | 0 <= j < i ensures !Decisive(order[j], q) {
        assert j > 0 ==> order[j] == order[1..][j - 1];
      }
    }
  }

  /** Every order decides as some top rule does. */
  lemma OrderDecidesPossibly(rules: set<Rule>, order: seq<Rule>, q: Request)
    requires Ordering(rules, order)
    ensures Possible(rules, q, FirstMatch(order, q))
  {
    var i := FirstMatchIsFirst(order, q);
    if i < |order| {
      assert order[i] in rules;
      forall s | s in rules && Decisive(s, q) ensures s.priority <= order[i].priority {
        var j :| 0 <= j < |order| && order[j] == s;
      }
      assert order[i] in Top(rules, q);
    } else {
      forall r | r in rules ensures !Decisive(r, q) {
        var j :| 0 <= j < |order| && order[j] == r;
      }
    }
  }

  lemma HighestPriority(rules: set<Rule>) returns (r: Rule)
    requires rules != {}
    ensures r in rules && forall s | s in rules :: s.priority <= r.priority
  {
    r :| r in rules;
    if rules != {r} {
      var t := HighestPriority(rules - {r});
      if t.priority > r.priority {
        r := t;
      }
    }
  }

  lemma PutFirst(rules: set<Rule>, r: Rule, rest: seq<Rule>)
    requires r in rules && (forall s | s in rules :: s.priority <= r.priority)
    requires Ordering(rules - {r}, rest)
    ensures Ordering(rules, [r] + rest)
  {
    forall i | 0 <= i < |rest| ensures rest[i] in rules && rest[i] != r {
      assert rest[i] in SeqToSet(rest);
    }
    forall s ensures s in SeqToSet([r] + rest) <==> s in rules {
      assert s in SeqToSet(rest) <==> s in rules - {r};
      assert s in [r] + rest <==> s == r || s in rest;
    }
  }

  /** `favourite` comes before the others of its priority, and so before all that it does not yield to. */
  ghost predicate ComesFirst(favourite: Rule, order: seq<Rule>) {
    forall i | 0 <= i < |order| && order[i] != favourite && order[i].priority <= favourite.priority :: favourite in order[..i]
  }

  /** Some order reaches a given rule before the others of its priority. */
  lemma {:induction false} OrderWithFirst(rules: set<Rule>, favourite: Option<Rule>) returns (order: seq<Rule>)
    requires favourite.Some? ==> favourite.value in rules
    ensures Ordering(rules, order)
    ensures favourite.Some? ==> ComesFirst(favourite.value, order)
    decreases |rules|
  {
    if rules == {} {
      order := [];
    } else {
      var r := HighestPriority(rules);
      if favourite.Some? && favourite.value.priority == r.priority {
        r := favourite.value;
      }
      var rest := OrderWithFirst(rules - {r}, if favourite.Some? && favourite.value != r then favourite else None);
      PutFirst(rules, r, rest);
      order := [r] + rest;
      if favourite.Some? {
        FirstAfter(favourite.value, r, rest);
      }
    }
  }

  lemma FirstAfter(favourite: Rule, r: Rule, rest: seq<Rule>)
    requires favourite == r || (ComesFirst(favourite, rest) && favourite.priority < r.priority)
    ensures ComesFirst(favourite, [r] + rest)
  {
    var order := [r] + rest;
    forall i | 0 <= i < |order| && order[i] != favourite && order[i].priority <= favourite.priority
      ensures favourite in order[..i]
    {
      assert i > 0 && order[i] == rest[i - 1];
      assert order[..i] == [r] + rest[..i - 1];
    }
  }

  /** Every possible decision is reached by some order. */
  lemma PossibleIsReached(rules: set<Rule>, q: Request, d: Decision) returns (order: seq<Rule>)
    requires Possible(rules, q, d)
    ensures Ordering(rules, order) && FirstMatch(order, q) == d
  {
    if Top(rules, q) == {} {
      order := OrderWithFirst(rules, None);
      OrderDecidesPossibly(rules, order, q);
    } else {
      var r :| r in Top(rules, q) && d == Verdict(r);
      order := OrderWithFirst(rules, Some(r));
      var i := FirstMatchIsFirst(order, q);
      assert r in SeqToSet(order);
      var k :| 0 <= k < |order| && order[k] == r;
      assert i <= k;
      assert order[i] in SeqToSet(order);
      assert order[i].priority <= r.priority;
      assert r !in order[..i];
      assert order[i] == r;
    }
  }

  predicate Allows(d: Decision) { d.Allowed? }

  ghost predicate OrderIndependent(rules: set<Rule>, q: Request) {
    forall a, b | Ordering(rules, a) && Ordering(rules, b) :: Allows(FirstMatch(a, q)) == Allows(FirstMatch(b, q))
  }

  /** Whether the request is allowed is independent of the order iff the top rules agree. */
  lemma OrderIndependentIffTopAgrees(rules: set<Rule>, q: Request)
    ensures OrderIndependent(rules, q) <==> forall r, s | r in Top(rules, q) && s in Top(rules, q) :: r.effect == s.effect
  {
    if OrderIndependent(rules, q) {
      forall r, s | r in Top(rules, q) && s in Top(rules, q) ensures r.effect == s.effect {
        var a := PossibleIsReached(rules, q, Verdict(r));
        var b := PossibleIsReached(rules, q, Verdict(s));
        assert Allows(FirstMatch(a, q)) == Allows(FirstMatch(b, q));
      }
    }
    if forall r, s | r in Top(rules, q) && s in Top(rules, q) :: r.effect == s.effect {
      forall a, b | Ordering(rules, a) && Ordering(rules, b) ensures Allows(FirstMatch(a, q)) == Allows(FirstMatch(b, q)) {
        OrderDecidesPossibly(rules, a, q);
        OrderDecidesPossibly(rules, b, q);
      }
    }
  }

  /** The decision itself, the denying rule it names included, is independent of the order iff the top
      rules have one verdict: all allow, or a single rule denies. */
  lemma DecisionIndependentIffOneVerdict(rules: set<Rule>, q: Request)
    ensures (forall a, b | Ordering(rules, a) && Ordering(rules, b) :: FirstMatch(a, q) == FirstMatch(b, q))
       <==> forall r, s | r in Top(rules, q) && s in Top(rules, q) :: Verdict(r) == Verdict(s)
  {
    if forall a, b | Ordering(rules, a) && Ordering(rules, b) :: FirstMatch(a, q) == FirstMatch(b, q) {
      forall r, s | r in Top(rules, q) && s in Top(rules, q) ensures Verdict(r) == Verdict(s) {
        var a := PossibleIsReached(rules, q, Verdict(r));
        var b := PossibleIsReached(rules, q, Verdict(s));
      }
    }
    if forall r, s | r in Top(rules, q) && s in Top(rules, q) :: Verdict(r) == Verdict(s) {
      forall a, b | Ordering(rules, a) && Ordering(rules, b) ensures FirstMatch(a, q) == FirstMatch(b, q) {
        OrderDecidesPossibly(rules, a, q);
        OrderDecidesPossibly(rules, b, q);
      }
    }
  }

  /** A rule that does not decide the request, or that a decisive rule outranks, changes nothing; so
      rules with an unknown effect are ignored. */
  lemma OutrankedRuleIsIgnored(rules: set<Rule>, r: Rule, q: Request, d: Decision)
    requires Decisive(r, q) ==> exists s | s in rules :: Decisive(s, q) && s.priority > r.priority
    ensures Possible(rules + {r}, q, d) <==> Possible(rules, q, d)
  {
    assert Top(rules + {r}, q) == Top(rules, q);
  }

  // ---------------------------------------------------------------------------------------
  // What a decision means
  // ---------------------------------------------------------------------------------------

  /** The pattern is "*" or the text, or it ends in slash-star and the text is what precedes that or below it. */
  ghost predicate Covers(pattern: string, resource: string) {
    || pattern == "*" || pattern == resource
    || exists prefix :: pattern == prefix + "/*" && (resource == prefix || exists rest :: resource == prefix + "/" + rest)
  }

  lemma CoversIff(pattern: string, resource: string)
    ensures Covers(pattern, resource) <==> MatchResource(pattern, resource)
  {
    if HasSuffix(pattern, "/*") {
      var n := |pattern| - 2;
      var prefix := pattern[..n];
      assert pattern == prefix + "/*" by { assert pattern[n..] == "/*"; }
      WildcardMatchesSubtree(prefix, resource);
      if pattern == resource {
        assert resource == prefix + "/" + "*";
      }
      forall p | pattern == p + "/*" ensures p == prefix {
        assert pattern[..|p|] == p;
      }
    } else {
      forall p ensures pattern != p + "/*" {
        assert (p + "/*")[|p|..] == "/*";
      }
    }
  }

  /** The rule is for this request: its action, its resource, and either its time window or every
      attribute it asks for. */
  ghost predicate Applies(r: Rule, q: Request) {
    && (r.action == "*" || r.action == q.action)
    && Covers(r.resource, q.resource)
    && if "time_after" in r.conditions && "time_before" in r.conditions then
         && "current_time" in q.attributes
         && MatchTimeWindow(r.conditions["time_after"], r.conditions["time_before"], q.attributes["current_time"])
       else
         forall key | key in r.conditions && key != "time_after" && key != "time_before" ::
           key in q.attributes && q.attributes[key] == r.conditions[key]
  }

  lemma AppliesIff(r: Rule, q: Request)
    ensures Applies(r, q) <==> Matches(r, q)
  {
    CoversIff(r.resource, q.resource);
  }

  /** A rule with this effect applies, and no rule that applies and allows or denies outranks it. */
  ghost predicate Prevails(rules: set<Rule>, q: Request, r: Rule, effect: string) {
    && r in rules && Applies(r, q) && r.effect == effect
    && forall s | s in rules && Applies(s, q) && (s.effect == "allow" || s.effect == "deny") :: s.priority <= r.priority
  }

  /** A denial names a prevailing rule that denies; a request is allowed by a prevailing rule that allows,
      or where no rule that applies allows or denies. */
  ghost predicate Decides(rules: set<Rule>, q: Request, d: Decision) {
    match d
    case Denied(id) => exists r :: Prevails(rules, q, r, "deny") && r.id == id
    case Allowed =>
      || (exists r :: Prevails(rules, q, r, "allow"))
      || forall r | r in rules && Applies(r, q) :: r.effect != "allow" && r.effect != "deny"
    case Invalid => false
  }

  lemma PrevailsIff(rules: set<Rule>, q: Request, r: Rule, effect: string)
    requires effect == "allow" || effect == "deny"
    ensures Prevails(rules, q, r, effect) <==> r in Top(rules, q) && r.effect == effect
  {
    forall s ensures Applies(s, q) <==> Matches(s, q) {
      AppliesIff(s, q);
    }
  }

  lemma TopIsEmptyIff(rules: set<Rule>, q: Request)
    ensures Top(rules, q) == {} <==> forall r | r in rules :: !Decisive(r, q)
  {
    var decisive := set r | r in rules && Decisive(r, q);
    if decisive != {} {
      var r := HighestPriority(decisive);
      assert r in Top(rules, q);
    }
    assert forall r | r in rules && Decisive(r, q) :: r in decisive;
  }

  /** Evaluation may decide, under some order of the rules, exactly what the rules mean. */
  lemma DecisionMeans(rules: set<Rule>, q: Request, d: Decision)
    ensures Possible(rules, q, d) <==> Decides(rules, q, d)
  {
    TopIsEmptyIff(rules, q);
    forall r ensures Applies(r, q) <==> Matches(r, q) {
      AppliesIff(r, q);
    }
    forall r ensures Prevails(rules, q, r, "allow") <==> r in Top(rules, q) && r.effect == "allow" {
      PrevailsIff(rules, q, r, "allow");
    }
    forall r ensures Prevails(rules, q, r, "deny") <==> r in Top(rules, q) && r.effect == "deny" {
      PrevailsIff(rules, q, r, "deny");
    }
  }

  // ---------------------------------------------------------------------------------------
  // The enforcer
  // ---------------------------------------------------------------------------------------

  type RuleStore = map<string, map<string, Rule>>

  function RulesOf(store: RuleStore, tenant: string): map<string, Rule> {
    if tenant in store then store[tenant] else map[]
  }

  /** Every rule is filed under its own tenant and identifier. */
  ghost predicate WellFiled(store: RuleStore) {
    forall t, id | t in store && id in store[t] :: store[t][id].tenant == t && store[t][id].id == id && id != ""
  }

  /** `after` is `before` without rule `id` of one of the tenants that hold it. */
  ghost predicate Removed(before: RuleStore, id: string, after: RuleStore) {
    exists t | t in before :: id in before[t] && after == before[t := before[t] - {id}]
  }

  function Added(store: RuleStore, rule: Rule): RuleStore {
    store[rule.tenant := RulesOf(store, rule.tenant)[rule.id := rule]]
  }

  /** When no tenant uses the identifier yet, removing it undoes adding it, for every tenant. */
  lemma RemoveUndoesAdd(store: RuleStore, rule: Rule, after: RuleStore, tenant: string)
    requires forall t | t in store :: rule.id !in store[t]
    requires Removed(Added(store, rule), rule.id, after)
    ensures RulesOf(after, tenant) == RulesOf(store, tenant)
  {
    var added := Added(store, rule);
    var t :| t in added && rule.id in added[t] && after == added[t := added[t] - {rule.id}];
    assert t == rule.tenant;
    assert added[t] - {rule.id} == RulesOf(store, t);
  }

  /** Otherwise it may take another tenant's rule instead. */
  lemma RemoveMayTakeAnotherTenantsRule(store: RuleStore, rule: Rule, other: string)
    requires other in store && rule.id in store[other] && other != rule.tenant
    ensures exists after :: Removed(Added(store, rule), rule.id, after) && RulesOf(after, other) != RulesOf(store, other)
  {
    var added := Added(store, rule);
    var after := added[other := added[other] - {rule.id}];
    assert Removed(added, rule.id, after);
    assert rule.id !in RulesOf(after, other);
  }

  /** So, after a rule is added, removing its identifier is sure to undo that iff no other tenant uses it. */
  lemma RemoveUndoesAddIff(store: RuleStore, rule: Rule)
    requires rule.id !in RulesOf(store, rule.tenant)
    ensures (forall after, tenant | Removed(Added(store, rule), rule.id, after) :: RulesOf(after, tenant) == RulesOf(store, tenant))
       <==> forall t | t in store :: rule.id !in store[t]
  {
    if forall t | t in store :: rule.id !in store[t] {
      forall after, tenant | Removed(Added(store, rule), rule.id, after) ensures RulesOf(after, tenant) == RulesOf(store, tenant) {
        RemoveUndoesAdd(store, rule, after, tenant);
      }
    } else {
      var other :| other in store && rule.id in store[other];
      RemoveMayTakeAnotherTenantsRule(store, rule, other);
    }
  }

  /** sort.Slice by descending priority: a selection sort that breaks ties in any way. */
  method SortByPriority(rules: seq<Rule>) returns (sorted: seq<Rule>)
    requires Distinct(rules)
    ensures Ordering(SeqToSet(rules), sorted)
  {
    var rest := SeqToSet(rules);
    sorted := [];
    while rest != {}
      invariant rest <= SeqToSet(rules) && SeqToSet(sorted) == SeqToSet(rules) - rest
      invariant Distinct(sorted) && Descending(sorted)
      invariant forall r, i | r in rest && 0 <= i < |sorted| :: r.priority <= sorted[i].priority
      decreases rest
    {
      ghost var top := HighestPriority(rest);
      var r :| r in rest && forall s | s in rest :: s.priority <= r.priority;
      Appended(sorted, r);
      sorted := sorted + [r];
      rest := rest - {r};
    }
  }

  lemma Appended(sorted: seq<Rule>, r: Rule)
    requires Distinct(sorted) && r !in SeqToSet(sorted)
    ensures Distinct(sorted + [r]) && SeqToSet(sorted + [r]) == SeqToSet(sorted) + {r}
  {
  }

  class Enforcer {
    var rules: RuleStore

    constructor ()
      ensures rules == map[] && WellFiled(rules)
    {
      rules := map[];
    }

    method AddRule(rule: Rule) returns (ok: bool)
      requires WellFiled(rules)
      modifies this
      ensures WellFiled(rules)
      ensures ok <==> rule.id != "" && rule.id !in RulesOf(old(rules), rule.tenant)
      ensures rules == if ok then Added(old(rules), rule) else old(rules)
      ensures ok ==> RulesOf(rules, rule.tenant) == RulesOf(old(rules), rule.tenant)[rule.id := rule]
      ensures forall tenant | tenant != rule.tenant :: RulesOf(rules, tenant) == RulesOf(old(rules), tenant)
    {
      if rule.id == "" {
        return false;
      }
      ghost var before := rules;
      if rule.tenant !in rules {
        rules := rules[rule.tenant := map[]];
      }
      if rule.id in rules[rule.tenant] {
        return false;
      }
      rules := rules[rule.tenant := rules[rule.tenant][rule.id := rule]];
      assert rules == Added(before, rule);
      ok := true;
    }

    method RemoveRule(ruleId: string) returns (ok: bool)
      requires WellFiled(rules)
      modifies this
      ensures WellFiled(rules)
      ensures ok <==> exists t | t in old(rules) :: ruleId in old(rules)[t]
      ensures if ok then Removed(old(rules), ruleId, rules) else rules == old(rules)
    {
      var todo := rules.Keys;
      while todo != {}
        invariant todo <= rules.Keys && rules == old(rules)
        invariant forall t | t in rules.Keys - todo :: ruleId !in rules[t]
      {
        var tid :| tid in todo;
        todo := todo - {tid};
        if ruleId in rules[tid] {
          rules := rules[tid := rules[tid] - {ruleId}];
          return true;
        }
      }
      ok := false;
    }

    /** The decision is that of a top rule of the tenant, and Allowed without one. */
    method Evaluate(hasContext: bool, tenant: string, q: Request) returns (d: Decision)
      requires WellFiled(rules)
      ensures if !hasContext || tenant == "" || q.action == "" then d == Invalid
              else Possible(RulesOf(rules, tenant).Values, q, d) && Decides(RulesOf(rules, tenant).Values, q, d)
    {
      if !hasContext || tenant == "" || q.action == "" {
        return Invalid;
      }
      var tenantRules := RulesOf(rules, tenant);
      DecisionMeans(tenantRules.Values, q, Allowed);
      if |tenantRules| == 0 {
        return Allowed;
      }
      var collected := Collect(tenantRules);
      var sorted := SortByPriority(collected);
      OrderDecidesPossibly(tenantRules.Values, sorted, q);
      DecisionMeans(tenantRules.Values, q, FirstMatch(sorted, q));
      for i := 0 to |sorted|
        invariant FirstMatch(sorted, q) == FirstMatch(sorted[i..], q)
      {
        var rule := sorted[i];
        if !MatchAction(rule.action, q.action) {
          continue;
        }
        if !MatchResource(rule.resource, q.resource) {
          continue;
        }
        var holds := MatchConditions(rule.conditions, q.attributes);
        if !holds {
          continue;
        }
        if rule.effect == "deny" {
          return Denied(rule.id);
        }
        if rule.effect == "allow" {
          return Allowed;
        }
      }
      d := Allowed;
    }
  }

  /** Ranges over the map in any order. */
  method Collect(rules: map<string, Rule>) returns (collected: seq<Rule>)
    requires forall id | id in rules :: rules[id].id == id
    ensures Distinct(collected) && SeqToSet(collected) == rules.Values
  {
    collected := [];
    var todo := rules.Keys;
    while todo != {}
      invariant todo <= rules.Keys && Distinct(collected)
      invariant forall r :: r in collected <==> r.id in rules.Keys - todo && rules[r.id] == r
    {
      var id :| id in todo;
      todo := todo - {id};
      collected := collected + [rules[id]];
    }
  }
}
