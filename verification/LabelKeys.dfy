/** Serialising metric labels into map keys: telemetry/metrics.go. */
module LabelKeys {
  import opened Sequences
  import opened StringOrder

  type Labels = map<string, string>

  const ALLOWED_KEYS: set<string> :=
    {"provider", "skill", "stop_reason", "execution_mode", "status", "span_kind", "component", "operation"}

  /** Drops every label whose key is not allowed. */
  method FilterLabels(labels: Labels) returns (filtered: Labels)
    ensures filtered == Filter(labels)
  {
    filtered := map[];
    var todo := labels.Keys;
    while todo != {}
      invariant todo <= labels.Keys
      invariant filtered == map k | k in labels && k !in todo && k in ALLOWED_KEYS :: labels[k]
    {
      var k :| k in todo;
      todo := todo - {k};
      if k in ALLOWED_KEYS {
        filtered := filtered[k := labels[k]];
      }
    }
  }

  function Filter(labels: Labels): Labels { map k | k in labels && k in ALLOWED_KEYS :: labels[k] }

  /** Eight keys survive, with their values; every other label is dropped. */
  lemma KeptLabels(labels: Labels, k: string, v: string)
    ensures k in Filter(labels) && Filter(labels)[k] == v <==>
      && k in ["provider", "skill", "stop_reason", "execution_mode", "status", "span_kind", "component", "operation"]
      && k in labels && labels[k] == v
  {
  }

  predicate Filtered(l: Labels) { l.Keys <= ALLOWED_KEYS }

  // ---------------------------------------------------------------------------------------
  // Labels.String
  // ---------------------------------------------------------------------------------------

  function Part(k: string, v: string): string { k + "=" + v }

  /** "k=v" for each key in turn, separated by commas. */
  function Join(l: Labels, keys: seq<string>): string
    requires forall k | k in keys :: k in l
    decreases |keys|, 0
  {
    if keys == [] then "" else Part(keys[0], l[keys[0]]) + Rest(l, keys[1..])
  }

  /** What follows a part: nothing, or a comma and the other parts. */
  function Rest(l: Labels, keys: seq<string>): string
    requires forall k | k in keys :: k in l
    decreases |keys|, 1
  {
    if keys == [] then "" else "," + Join(l, keys)
  }

  /** `keys` lists the keys of `l` in order. */
  ghost predicate KeysInOrder(l: Labels, keys: seq<string>) {
    Sorted(keys) && forall k :: k in keys <==> k in l
  }

  lemma {:induction false} SortKeys(s: set<string>) returns (keys: seq<string>)
    ensures Sorted(keys) && forall k :: k in keys <==> k in s
    decreases |s|
  {
    if s == {} {
      keys := [];
    } else {
      var k := Least(s);
      var rest := SortKeys(s - {k});
      forall i | 0 <= i < |rest| ensures Less(k, rest[i]) {
        var x := rest[i];
        assert x in rest;
      }
      keys := [k] + rest;
    }
  }

  lemma SomeOrderExists(l: Labels)
    ensures exists keys :: KeysInOrder(l, keys)
  {
    var keys := SortKeys(l.Keys);
    assert KeysInOrder(l, keys);
  }

  ghost function SortedKeys(l: Labels): (keys: seq<string>)
    ensures KeysInOrder(l, keys)
  {
    SomeOrderExists(l);
    var keys :| KeysInOrder(l, keys);
    keys
  }

  /** The key under which a label set is stored. */
  ghost function Serialize(l: Labels): string { Join(l, SortedKeys(l)) }

  lemma SerializeBy(l: Labels, keys: seq<string>)
    requires KeysInOrder(l, keys)
    ensures Serialize(l) == Join(l, keys)
  {
    SortedIsUnique(keys, SortedKeys(l));
  }

  lemma {:induction false} JoinConcat(l: Labels, a: seq<string>, b: seq<string>)
    requires forall k | k in a + b :: k in l
    requires a != []
    ensures Join(l, a + b) == Join(l, a) + Rest(l, b)
    decreases |a|
  {
    var part := Part(a[0], l[a[0]]);
    assert (a + b)[0] == a[0] && (a + b)[1..] == a[1..] + b;
    if |a| == 1 {
      assert a[1..] + b == b;
      assert Join(l, a) == part;
    } else {
      assert forall k | k in a[1..] + b :: k in a + b;
      JoinConcat(l, a[1..], b);
      assert "," + (Join(l, a[1..]) + Rest(l, b)) == "," + Join(l, a[1..]) + Rest(l, b);
      assert part + ("," + Join(l, a[1..]) + Rest(l, b)) == part + ("," + Join(l, a[1..])) + Rest(l, b);
    }
  }

  method Collect(s: set<string>) returns (keys: seq<string>)
    ensures Sorted(keys) && forall k :: k in keys <==> k in s
  {
    var todo := s;
    keys := [];
    while todo != {}
      invariant todo <= s && Sorted(keys)
      invariant forall k :: k in keys <==> k in s - todo
      invariant forall x, y | x in keys && y in todo :: Less(x, y)
    {
      ghost var least := Least(todo);
      var k :| k in todo && forall y | y in todo && y != k :: Less(k, y);
      todo := todo - {k};
      keys := keys + [k];
    }
  }

  /** Labels.String: collect and sort the keys, then join the parts. */
  method String(l: Labels) returns (s: string)
    ensures s == Serialize(l)
  {
    var keys := Collect(l.Keys);
    SerializeBy(l, keys);
    s := "";
    for i := 0 to |keys|
      invariant s == Join(l, keys[..i])
    {
      var part := keys[i] + "=" + l[keys[i]];
      assert keys[..i + 1] == keys[..i] + [keys[i]];
      assert Join(l, [keys[i]]) == part;
      if i > 0 {
        JoinConcat(l, keys[..i], [keys[i]]);
        s := s + ("," + part);
      } else {
        assert keys[..1] == [keys[0]];
        s := part;
      }
    }
    assert keys[..|keys|] == keys;
  }

  // ---------------------------------------------------------------------------------------
  // When two label sets share a key
  // ---------------------------------------------------------------------------------------

  lemma AllowedKeysArePlain(k: string)
    requires k in ALLOWED_KEYS
    ensures '=' !in k && ',' !in k
  {
  }

  function Mark(k: string): string { "," + k + "=" }

  /** At position `p`, the value `v` of key `k` reads like the start of a later label. */
  predicate ReadsAsLabel(v: string, k: string, k': string, p: nat) {
    k' in ALLOWED_KEYS && Less(k, k') && p + |Mark(k')| <= |v| && v[p..p + |Mark(k')|] == Mark(k')
  }

  /** No value reads like a later label. Values without a comma are of this kind. */
  ghost predicate Unambiguous(l: Labels) {
    Filtered(l) && forall k, k', p: nat | k in l :: !ReadsAsLabel(l[k], k, k', p)
  }

  lemma CommaFreeIsUnambiguous(l: Labels)
    requires Filtered(l) && forall k | k in l :: ',' !in l[k]
    ensures Unambiguous(l)
  {
    forall k, k', p: nat | k in l ensures !ReadsAsLabel(l[k], k, k', p) {
      CommaFreeReadsAsNothing(l[k], k, k', p);
    }
  }

  lemma CommaFreeReadsAsNothing(v: string, k: string, k': string, p: nat)
    requires ',' !in v
    ensures !ReadsAsLabel(v, k, k', p)
  {
    assert Mark(k')[0] == ',';
    if p + |Mark(k')| <= |v| {
      assert v[p..p + |Mark(k')|][0] == v[p] && v[p] in v;
    }
  }

  lemma KeysEndTogether(k1: string, x: string, k2: string, y: string)
    requires k1 + "=" + x == k2 + "=" + y && '=' !in k1 && '=' !in k2
    ensures k1 == k2 && x == y
  {
    KeyNotShorter(k1, x, k2, y);
    KeyNotShorter(k2, y, k1, x);
    var s := k1 + "=" + x;
    assert k1 == s[..|k1|] && k2 == s[..|k2|] && x == s[|k1| + 1..] && y == s[|k2| + 1..];
  }

  lemma KeyNotShorter(k1: string, x: string, k2: string, y: string)
    requires k1 + "=" + x == k2 + "=" + y && '=' !in k2
    ensures |k1| >= |k2|
  {
    assert (k1 + "=" + x)[|k1|] == '=';
    CharOfPrefix(k2, "=", y, |k1|);
  }

  lemma CharOfPrefix(k: string, a: string, b: string, i: nat)
    ensures i < |k| ==> (k + a + b)[i] == k[i] && k[i] in k
  {
  }

  /** If `v1` ends before `v2` where both are followed by other labels, then `v2` reads there like the
      label that follows `v1`. */
  lemma ShorterValueReveals(v1: string, r1: string, v2: string, r2: string, k: string)
    requires v1 + r1 == v2 + r2 && |v1| < |v2|
    requires ',' !in k && Mark(k) <= r1 && (r2 == "" || r2[0] == ',')
    ensures |v1| + |Mark(k)| <= |v2| && v2[|v1|..|v1| + |Mark(k)|] == Mark(k)
  {
    var s, n := v1 + r1, |Mark(k)|;
    assert s[|v1|..|v1| + n] == Mark(k) by { assert s[|v1|..|v1| + n] == r1[..n]; }
    if |v2| < |v1| + n {
      var i := |v2| - |v1|;
      assert Mark(k)[i] == s[|v2|] == r2[0];
      MarkHasOneComma(k, i);
    } else {
      assert v2[|v1|..|v1| + n] == s[|v1|..|v1| + n];
    }
  }

  lemma MarkHasOneComma(k: string, i: nat)
    requires ',' !in k && 0 < i < |Mark(k)|
    ensures Mark(k)[i] != ','
  {
    if i <= |k| {
      assert Mark(k)[i] == k[i - 1] && k[i - 1] in k;
    }
  }

  lemma {:induction false} JoinIsInjective(l1: Labels, keys1: seq<string>, l2: Labels, keys2: seq<string>)
    requires ListsAllowed(l1, keys1) && ListsAllowed(l2, keys2)
    requires Unambiguous(l1) && Unambiguous(l2)
    requires Join(l1, keys1) == Join(l2, keys2)
    ensures keys1 == keys2 && forall k | k in keys1 :: l1[k] == l2[k]
    decreases |keys1|
  {
    if keys1 != [] && keys2 != [] {
      FirstLabelsAgree(l1, keys1, l2, keys2);
      RestIsInjective(l1, keys1[1..], l2, keys2[1..]);
      JoinIsInjective(l1, keys1[1..], l2, keys2[1..]);
      assert keys1 == [keys1[0]] + keys1[1..] && keys2 == [keys2[0]] + keys2[1..];
    } else {
      JoinIsEmpty(l1, keys1);
      JoinIsEmpty(l2, keys2);
    }
  }

  ghost predicate ListsAllowed(l: Labels, keys: seq<string>) {
    Sorted(keys) && forall k | k in keys :: k in l && k in ALLOWED_KEYS
  }

  lemma FirstKeysAgree(l1: Labels, keys1: seq<string>, l2: Labels, keys2: seq<string>)
    requires keys1 != [] && keys2 != [] && ListsAllowed(l1, keys1) && ListsAllowed(l2, keys2)
    requires Join(l1, keys1) == Join(l2, keys2)
    ensures keys1[0] == keys2[0] && l1[keys1[0]] + Rest(l1, keys1[1..]) == l2[keys2[0]] + Rest(l2, keys2[1..])
  {
    AllowedKeysArePlain(keys1[0]);
    AllowedKeysArePlain(keys2[0]);
    JoinStarts(l1, keys1);
    JoinStarts(l2, keys2);
    KeysEndTogether(keys1[0], l1[keys1[0]] + Rest(l1, keys1[1..]), keys2[0], l2[keys2[0]] + Rest(l2, keys2[1..]));
  }

  lemma FirstLabelsAgree(l1: Labels, keys1: seq<string>, l2: Labels, keys2: seq<string>)
    requires keys1 != [] && keys2 != [] && ListsAllowed(l1, keys1) && ListsAllowed(l2, keys2)
    requires Unambiguous(l1) && Unambiguous(l2)
    requires Join(l1, keys1) == Join(l2, keys2)
    ensures keys1[0] == keys2[0] && l1[keys1[0]] == l2[keys2[0]]
    ensures Rest(l1, keys1[1..]) == Rest(l2, keys2[1..])
  {
    FirstKeysAgree(l1, keys1, l2, keys2);
    ValueNotShorter(l1, keys1, l2, keys2);
    ValueNotShorter(l2, keys2, l1, keys1);
    SplitSame(l1[keys1[0]], Rest(l1, keys1[1..]), l2[keys2[0]], Rest(l2, keys2[1..]));
  }

  lemma SplitSame(v1: string, r1: string, v2: string, r2: string)
    requires v1 + r1 == v2 + r2 && |v1| == |v2|
    ensures v1 == v2 && r1 == r2
  {
    assert v1 == (v1 + r1)[..|v1|] && r1 == (v1 + r1)[|v1|..];
    assert v2 == (v2 + r2)[..|v2|] && r2 == (v2 + r2)[|v2|..];
  }

  lemma JoinIsEmpty(l: Labels, keys: seq<string>)
    requires forall k | k in keys :: k in l
    ensures Join(l, keys) == "" <==> keys == []
  {
    if keys != [] {
      assert |Join(l, keys)| >= |Part(keys[0], l[keys[0]])| > 0;
    }
  }

  lemma JoinStarts(l: Labels, keys: seq<string>)
    requires keys != [] && forall k | k in keys :: k in l
    ensures keys[0] in l && Join(l, keys) == keys[0] + "=" + (l[keys[0]] + Rest(l, keys[1..]))
  {
    var k := keys[0];
    assert k in keys;
    var v, r := l[k], Rest(l, keys[1..]);
    assert Part(k, v) + r == k + "=" + (v + r);
  }

  lemma RestStarts(l: Labels, keys: seq<string>)
    requires keys != [] && forall k | k in keys :: k in l
    ensures Mark(keys[0]) <= Rest(l, keys)
  {
    JoinStarts(l, keys);
    var k := keys[0];
    var x := l[k] + Rest(l, keys[1..]);
    MarkAssociates(k, x);
  }

  lemma MarkAssociates(k: string, x: string)
    ensures "," + (k + "=" + x) == Mark(k) + x
  {
  }

  lemma RestIsInjective(l1: Labels, t1: seq<string>, l2: Labels, t2: seq<string>)
    requires (forall k | k in t1 :: k in l1) && (forall k | k in t2 :: k in l2)
    requires Rest(l1, t1) == Rest(l2, t2)
    ensures Join(l1, t1) == Join(l2, t2)
  {
    if t1 != [] && t2 != [] {
      assert Rest(l1, t1)[1..] == Join(l1, t1) && Rest(l2, t2)[1..] == Join(l2, t2);
    }
  }

  /** The value of the first label ends no earlier in the one text than in the other. */
  lemma ValueNotShorter(l1: Labels, keys1: seq<string>, l2: Labels, keys2: seq<string>)
    requires keys1 != [] && keys2 != [] && ListsAllowed(l1, keys1) && ListsAllowed(l2, keys2) && Unambiguous(l2)
    requires keys1[0] == keys2[0] && l1[keys1[0]] + Rest(l1, keys1[1..]) == l2[keys2[0]] + Rest(l2, keys2[1..])
    ensures |l1[keys1[0]]| >= |l2[keys2[0]]|
  {
    var v1, r1, v2, r2 := l1[keys1[0]], Rest(l1, keys1[1..]), l2[keys2[0]], Rest(l2, keys2[1..]);
    if |v1| < |v2| {
      RestNotEmpty(v1, r1, v2, r2);
      var k := keys1[1];
      assert k in keys1 && Less(keys1[0], k);
      RestStarts(l1, keys1[1..]);
      AllowedKeysArePlain(k);
      ShorterValueReveals(v1, r1, v2, r2, k);
      assert ReadsAsLabel(v2, keys2[0], k, |v1|);
    }
  }

  lemma RestNotEmpty(v1: string, r1: string, v2: string, r2: string)
    requires v1 + r1 == v2 + r2 && |v1| < |v2|
    ensures r1 != ""
  {
    assert |v1 + r1| == |v2 + r2|;
  }

  /** On unambiguous label sets, in particular on those without commas, the key determines the labels. */
  lemma SerializeIsInjective(l1: Labels, l2: Labels)
    requires Unambiguous(l1) && Unambiguous(l2) && Serialize(l1) == Serialize(l2)
    ensures l1 == l2
  {
    var keys1, keys2 := SortedKeys(l1), SortedKeys(l2);
    JoinIsInjective(l1, keys1, l2, keys2);
    forall k ensures k in l1 <==> k in l2 {
      assert k in keys1 <==> k in l1;
      assert k in keys2 <==> k in l2;
    }
  }

  // ---------------------------------------------------------------------------------------
  // Ambiguous label sets do collide
  // ---------------------------------------------------------------------------------------

  function Lead(l: Labels, keys: seq<string>): string
    requires forall k | k in keys :: k in l
  {
    if keys == [] then "" else Join(l, keys) + ","
  }

  lemma JoinEndingIn(l: Labels, head: seq<string>, k: string, tail: seq<string>)
    requires forall x | x in head + [k] + tail :: x in l
    ensures (forall x | x in head :: x in l) && k in l && (forall x | x in tail :: x in l)
    ensures Join(l, head + [k] + tail) == Lead(l, head) + (Part(k, l[k]) + Rest(l, tail))
  {
    assert forall x | x in head :: x in head + [k] + tail;
    assert forall x | x in tail :: x in head + [k] + tail;
    assert k in head + [k] + tail;
    assert forall x | x in head + [k] :: x in head + [k] + tail;
    JoinConcat(l, head + [k], tail);
    var part := Part(k, l[k]);
    assert Join(l, [k]) == part;
    if head == [] {
      assert head + [k] == [k];
    } else {
      JoinConcat(l, head, [k]);
      Associate(Join(l, head), ",", part);
    }
    Associate(Lead(l, head), part, Rest(l, tail));
  }

  lemma {:induction false} JoinDependsOnValues(l: Labels, m: Labels, keys: seq<string>)
    requires forall k | k in keys :: k in l && k in m && l[k] == m[k]
    ensures Join(l, keys) == Join(m, keys)
    decreases |keys|
  {
    if keys != [] {
      assert keys[0] in keys;
      JoinDependsOnValues(l, m, keys[1..]);
    }
  }

  /** The text of one label, split where its value reads like another. */
  lemma PartReadsAsTwo(k: string, v: string, k': string, p: nat, r: string)
    requires p + |Mark(k')| <= |v| && v[p..p + |Mark(k')|] == Mark(k')
    ensures Part(k, v) + r == Part(k, v[..p]) + ("," + Part(k', v[p + |Mark(k')|..] + r))
  {
    var a, b := v[..p], v[p + |Mark(k')|..];
    assert v == a + Mark(k') + b;
  }

  /** `l` up to and including its key number `i`, whose value becomes `a`, and then `k'` with value `b`. */
  function Twin(l: Labels, keys: seq<string>, i: nat, a: string, k': string, b: string): Labels
    requires i < |keys|
  {
    (map x | x in l && x in keys[..i] :: l[x])[keys[i] := a][k' := b]
  }

  lemma TwinInOrder(l: Labels, keys: seq<string>, i: nat, a: string, k': string, b: string)
    requires KeysInOrder(l, keys) && i < |keys| && Less(keys[i], k')
    ensures var twin := Twin(l, keys, i, a, k', b);
      && KeysInOrder(twin, keys[..i] + [keys[i]] + [k']) && twin[keys[i]] == a && twin[k'] == b
      && forall x | x in keys[..i] :: x in twin && twin[x] == l[x]
  {
    TwinKeys(keys, i, k');
    var twin := Twin(l, keys, i, a, k', b);
    forall x ensures x in keys[..i] + [keys[i]] + [k'] <==> x in twin {
      assert x in keys[..i] ==> x in keys;
    }
  }

  lemma TwinJoins(l: Labels, keys: seq<string>, i: nat, k': string, p: nat)
    requires KeysInOrder(l, keys) && i < |keys| && Less(keys[i], k')
    requires var v := l[keys[i]]; p + |Mark(k')| <= |v| && v[p..p + |Mark(k')|] == Mark(k')
    requires forall x | x in keys[i + 1..] :: x in l
    ensures var v := l[keys[i]];
      var twin := Twin(l, keys, i, v[..p], k', v[p + |Mark(k')|..] + Rest(l, keys[i + 1..]));
      Serialize(twin) == Serialize(l)
  {
    var k, head, tail := keys[i], keys[..i], keys[i + 1..];
    assert keys == head + [k] + tail;
    var v := l[k];
    var a, b := v[..p], v[p + |Mark(k')|..] + Rest(l, tail);
    var twin := Twin(l, keys, i, a, k', b);
    TwinInOrder(l, keys, i, a, k', b);
    SerializeBy(l, keys);
    SerializeBy(twin, head + [k] + [k']);
    JoinEndingIn(l, head, k, tail);
    JoinEndingIn(twin, head, k, [k']);
    JoinDependsOnValues(l, twin, head);
    PartReadsAsTwo(k, v, k', p, Rest(l, tail));
    RestOfOne(twin, k');
  }

  lemma RestOfOne(l: Labels, k: string)
    requires k in l
    ensures Rest(l, [k]) == "," + Part(k, l[k])
  {
    assert [k][1..] == [];
    var part := Part(k, l[k]);
    assert part + "" == part;
    assert Join(l, [k]) == part;
  }

  /** A label set with a value that reads like a later label shares its key with another label set. */
  lemma AmbiguousHasTwin(l: Labels, k: string, k': string, p: nat) returns (twin: Labels)
    requires Filtered(l) && k in l && ReadsAsLabel(l[k], k, k', p)
    ensures Filtered(twin) && twin != l && Serialize(twin) == Serialize(l)
  {
    var keys := SortedKeys(l);
    assert k in keys;
    var i :| 0 <= i < |keys| && keys[i] == k;
    forall x | x in keys[i + 1..] ensures x in l {
      assert x in keys;
    }
    var v := l[k];
    twin := Twin(l, keys, i, v[..p], k', v[p + |Mark(k')|..] + Rest(l, keys[i + 1..]));
    TwinJoins(l, keys, i, k', p);
    LessIsTotal(k, k');
    assert twin[k] == v[..p] && |v[..p]| < |v|;
    assert twin[k] != l[k];
  }

  lemma TwinKeys(keys: seq<string>, i: nat, k': string)
    requires Sorted(keys) && i < |keys| && Less(keys[i], k')
    ensures Sorted(keys[..i] + [keys[i]] + [k'])
    ensures k' !in keys[..i] && k' != keys[i] && keys[i] !in keys[..i]
  {
    forall j | 0 <= j < i ensures Less(keys[j], k') && keys[j] != k' && keys[j] != keys[i] {
      LessIsTransitive(keys[j], keys[i], k');
      LessIsTotal(keys[j], k');
      LessIsTotal(keys[j], keys[i]);
    }
    LessIsTotal(keys[i], k');
  }
}
