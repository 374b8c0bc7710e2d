/** When two label sets have the same text: each reads as exactly one unambiguous label set. */
module LabelReadings {
  import opened StringOrder
  import opened LabelKeys
  import opened Sequences

  ghost predicate UnambiguousAt(v: string, k: string) { forall k', p: nat :: !ReadsAsLabel(v, k, k', p) }

  /** The first place where `v` reads like a later label. */
  lemma FirstReading(v: string, k: string) returns (k': string, p: nat)
    requires !UnambiguousAt(v, k)
    ensures ReadsAsLabel(v, k, k', p) && UnambiguousAt(v[..p], k)
  {
    k', p :| ReadsAsLabel(v, k, k', p);
    if !UnambiguousAt(v[..p], k) {
      var k'', q := FirstReading(v[..p], k);
      assert v[..p][q..q + |Mark(k'')|] == v[q..q + |Mark(k'')|];
      assert v[..p][..q] == v[..q];
      k', p := k'', q;
    }
  }

  function LargerKeys(k: string): set<string> { set a | a in ALLOWED_KEYS && Less(k, a) }

  lemma FewerLargerKeys(k: string, k': string)
    requires Less(k, k') && k' in ALLOWED_KEYS
    ensures LargerKeys(k') < LargerKeys(k)
  {
    forall a | a in LargerKeys(k') ensures a in LargerKeys(k) {
      LessIsTransitive(k, k', a);
    }
    LessIsTotal(k', k');
    assert k' in LargerKeys(k);
  }

  /** The values of all but the keys from the `i`-th on are unambiguous. */
  ghost predicate ClearUpTo(l: Labels, keys: seq<string>, i: nat) {
    && Filtered(l) && KeysInOrder(l, keys) && i <= |keys|
    && forall j | 0 <= j < i :: keys[j] in l && UnambiguousAt(l[keys[j]], keys[j])
  }

  /** Where a value reads like a later label, the rest of the text is taken to be the value of that label. */
  lemma ClearNext(l: Labels, keys: seq<string>, i: nat) returns (l': Labels, keys': seq<string>)
    requires ClearUpTo(l, keys, i) && i < |keys|
    ensures ClearUpTo(l', keys', i + 1) && Serialize(l') == Serialize(l)
    ensures if i + 1 < |keys'| then LargerKeys(keys'[i + 1]) < LargerKeys(keys[i]) else l' == l
  {
    var k := keys[i];
    assert k in keys && k in l;
    if !UnambiguousAt(l[k], k) {
      var k', p := FirstReading(l[k], k);
      l', keys' := Cut(l, keys, i, k', p);
      FewerLargerKeys(k, k');
    } else {
      l', keys' := l, keys;
      if i + 1 < |keys| {
        NextIsLarger(l, keys, i);
      }
    }
  }

  lemma {:induction false} ReadFrom(l: Labels, keys: seq<string>, i: nat) returns (u: Labels)
    requires ClearUpTo(l, keys, i) && i < |keys|
    ensures Unambiguous(u) && Serialize(u) == Serialize(l) && |u| > i && (|u| > 1 || u == l)
    decreases LargerKeys(keys[i])
  {
    var l', keys' := ClearNext(l, keys, i);
    if i + 1 < |keys'| {
      u := ReadFrom(l', keys', i + 1);
    } else {
      u := l;
      ClearIsUnambiguous(l, keys');
    }
  }

  lemma NextIsLarger(l: Labels, keys: seq<string>, i: nat)
    requires Filtered(l) && KeysInOrder(l, keys) && i + 1 < |keys|
    ensures LargerKeys(keys[i + 1]) < LargerKeys(keys[i])
  {
    assert keys[i + 1] in keys && keys[i + 1] in l;
    FewerLargerKeys(keys[i], keys[i + 1]);
  }

  lemma KeysCount(l: Labels, keys: seq<string>)
    requires KeysInOrder(l, keys)
    ensures |l| == |keys|
  {
    forall i, j | 0 <= i < j < |keys| ensures keys[i] != keys[j] {
      LessIsTotal(keys[i], keys[j]);
    }
    CardinalityIff(keys);
    assert l.Keys == set k | k in keys;
  }

  lemma ClearIsUnambiguous(l: Labels, keys: seq<string>)
    requires ClearUpTo(l, keys, |keys|)
    ensures Unambiguous(l) && |l| == |keys|
  {
    KeysCount(l, keys);
    forall k, k', p: nat | k in l ensures !ReadsAsLabel(l[k], k, k', p) {
      assert k in keys;
      var j :| 0 <= j < |keys| && keys[j] == k;
      assert UnambiguousAt(l[keys[j]], keys[j]);
    }
  }

  lemma Cut(l: Labels, keys: seq<string>, i: nat, k': string, p: nat) returns (twin: Labels, keys': seq<string>)
    requires ClearUpTo(l, keys, i) && i < |keys| && keys[i] in l
    requires ReadsAsLabel(l[keys[i]], keys[i], k', p) && UnambiguousAt(l[keys[i]][..p], keys[i])
    ensures ClearUpTo(twin, keys', i + 1) && |keys'| == i + 2 && keys'[i + 1] == k' && Serialize(twin) == Serialize(l)
  {
    forall x | x in keys[i + 1..] ensures x in l {
      assert x in keys;
    }
    var v := l[keys[i]];
    var b := v[p + |Mark(k')|..] + Rest(l, keys[i + 1..]);
    twin := Twin(l, keys, i, v[..p], k', b);
    keys' := keys[..i] + [keys[i]] + [k'];
    TwinInOrder(l, keys, i, v[..p], k', b);
    TwinJoins(l, keys, i, k', p);
    assert forall x | x in keys[..i] :: x in keys;
    CutIsClear(l, keys, i, k', twin, keys');
  }

  lemma CutIsClear(l: Labels, keys: seq<string>, i: nat, k': string, twin: Labels, keys': seq<string>)
    requires ClearUpTo(l, keys, i) && i < |keys| && k' in ALLOWED_KEYS
    requires keys' == keys[..i] + [keys[i]] + [k'] && KeysInOrder(twin, keys')
    requires keys[i] in twin && UnambiguousAt(twin[keys[i]], keys[i])
    requires forall x | x in keys[..i] :: x in l && x in twin && twin[x] == l[x]
    ensures ClearUpTo(twin, keys', i + 1)
  {
    forall x | x in twin ensures x in ALLOWED_KEYS {
      assert x in keys';
      assert x in keys || x == k';
    }
    forall j | 0 <= j < i + 1 ensures keys'[j] in twin && UnambiguousAt(twin[keys'[j]], keys'[j]) {
      if j < i {
        assert keys'[j] == keys[j] && keys[j] in keys[..i];
      }
    }
  }

  lemma ReadAs(l: Labels) returns (u: Labels)
    requires Filtered(l)
    ensures Unambiguous(u) && Serialize(u) == Serialize(l) && (|u| > 1 || u == l)
  {
    var keys := SortedKeys(l);
    u := l;
    if keys == [] {
      ClearIsUnambiguous(l, keys);
    } else {
      u := ReadFrom(l, keys, 0);
    }
  }

  lemma ReadingExists(l: Labels)
    requires Filtered(l)
    ensures exists u :: Unambiguous(u) && Serialize(u) == Serialize(l)
  {
    var u := ReadAs(l);
  }

  /** The one unambiguous label set with the text of `l`. */
  ghost function Reading(l: Labels): (u: Labels)
    requires Filtered(l)
    ensures Unambiguous(u) && Serialize(u) == Serialize(l)
  {
    ReadingExists(l);
    var u :| Unambiguous(u) && Serialize(u) == Serialize(l); u
  }

  lemma ReadingIsUnique(l: Labels, u: Labels)
    requires Filtered(l)
    ensures Unambiguous(u) && Serialize(u) == Serialize(l) <==> u == Reading(l)
  {
    if Unambiguous(u) && Serialize(u) == Serialize(l) {
      SerializeIsInjective(u, Reading(l));
    }
  }

  /** Two label sets have one text, and are counted as one, iff they read the same. */
  lemma CollideIffSameReading(l1: Labels, l2: Labels)
    requires Filtered(l1) && Filtered(l2)
    ensures Serialize(l1) == Serialize(l2) <==> Reading(l1) == Reading(l2)
  {
    ReadingIsUnique(l1, Reading(l2));
  }

  /** The unambiguous label sets are those that read as themselves. */
  lemma UnambiguousIffOwnReading(l: Labels)
    requires Filtered(l)
    ensures Unambiguous(l) <==> Reading(l) == l
  {
    ReadingIsUnique(l, l);
  }

  /** No other label set has the text of `l`. */
  ghost predicate Determined(l: Labels) { forall m | Filtered(m) && Serialize(m) == Serialize(l) :: m == l }

  /** The text determines a label set among all there are iff it is unambiguous and has one label at most. */
  lemma DeterminedIff(l: Labels)
    requires Filtered(l)
    ensures Determined(l) <==> Unambiguous(l) && |l| <= 1
  {
    if !Unambiguous(l) {
      var k, k', p: nat :| k in l && ReadsAsLabel(l[k], k, k', p);
      var twin := AmbiguousHasTwin(l, k, k', p);
    } else if |l| > 1 {
      var merged := MergeLast(l);
    } else {
      forall m | Filtered(m) && Serialize(m) == Serialize(l) ensures m == l {
        var u := ReadAs(m);
        SerializeIsInjective(u, l);
      }
    }
  }

  /** `l` is `m` with the value of its last key cut in two. */
  ghost predicate Splits(m: Labels, init: seq<string>, k': string, l: Labels) {
    && KeysInOrder(m, init) && init != [] && KeysInOrder(l, init + [k'])
    && init[|init| - 1] in m && init[|init| - 1] in l && k' in l
    && m[init[|init| - 1]] == l[init[|init| - 1]] + Mark(k') + l[k']
    && forall x | x in init[..|init| - 1] :: x in m && x in l && m[x] == l[x]
  }

  /** The label set in which the last label, `k'`, has become part of the value of `k`. */
  function Merged(l: Labels, k: string, k': string): Labels
    requires k in l && k' in l
  {
    (map x | x in l && x != k' :: l[x])[k := l[k] + Mark(k') + l[k']]
  }

  lemma MergeLast(l: Labels) returns (m: Labels)
    requires Filtered(l) && |l| > 1
    ensures Filtered(m) && Serialize(m) == Serialize(l) && m != l
  {
    var keys := SortedKeys(l);
    KeysCount(l, keys);
    var init, k' := keys[..|keys| - 1], keys[|keys| - 1];
    assert keys == init + [k'];
    m := MergedSplits(l, init, k');
    SplitKeepsText(m, init, k', l);
  }

  lemma MergedSplits(l: Labels, init: seq<string>, k': string) returns (m: Labels)
    requires Filtered(l) && KeysInOrder(l, init + [k']) && init != []
    ensures Splits(m, init, k', l) && Filtered(m) && m != l
  {
    OtherKeys(l, init, k');
    m := Merged(l, init[|init| - 1], k');
    MergedInOrder(l, init, k');
    assert k' !in m;
  }

  lemma MergedInOrder(l: Labels, init: seq<string>, k': string)
    requires KeysInOrder(l, init + [k']) && init != []
    requires init[|init| - 1] in l && k' in l && init[|init| - 1] != k'
    ensures KeysInOrder(Merged(l, init[|init| - 1], k'), init)
  {
    var keys := init + [k'];
    assert keys[|keys| - 1] == k' && keys[..|keys| - 1] == init;
    InitInOrder(l, keys, Merged(l, init[|init| - 1], k'));
  }

  lemma OtherKeys(l: Labels, init: seq<string>, k': string)
    requires KeysInOrder(l, init + [k']) && init != []
    ensures init[|init| - 1] in l && k' in l && init[|init| - 1] != k'
    ensures forall x | x in init[..|init| - 1] :: x in l && x != init[|init| - 1] && x != k'
  {
    var keys, n := init + [k'], |init| - 1;
    assert keys[n] == init[n] && keys[n + 1] == k';
    assert keys[n] in keys && k' in keys;
    LessIsTotal(init[n], k');
    forall x | x in init[..n] ensures x in l && x != init[n] && x != k' {
      var i :| 0 <= i < n && init[i] == x;
      assert keys[i] == x && x in keys;
      LessIsTotal(x, init[n]);
      LessIsTotal(x, k');
    }
  }

  lemma SplitKeepsText(m: Labels, init: seq<string>, k': string, l: Labels)
    requires Splits(m, init, k', l)
    ensures Serialize(m) == Serialize(l)
  {
    var n, k := |init| - 1, init[|init| - 1];
    var v := m[k];
    assert (init + [k'])[n] == k && (init + [k'])[n + 1] == k';
    MarkedValue(l[k], k', l[k']);
    assert init[n + 1..] == [];
    EmptyRight(l[k']);
    TwinJoins(m, init, n, k', |l[k]|);
    TwinIs(m, init, k', l);
  }

  lemma MarkedValue(a: string, k': string, b: string)
    ensures var v := a + Mark(k') + b;
      v[..|a|] == a && v[|a|..|a| + |Mark(k')|] == Mark(k') && v[|a| + |Mark(k')|..] == b
  {
  }

  lemma InitInOrder(l: Labels, keys: seq<string>, m: Labels)
    requires KeysInOrder(l, keys) && |keys| > 1 && m.Keys == l.Keys - {keys[|keys| - 1]}
    ensures KeysInOrder(m, keys[..|keys| - 1])
  {
    var init, last := keys[..|keys| - 1], keys[|keys| - 1];
    forall x ensures x in init <==> x in m {
      assert x in keys <==> x in init || x == last;
      if x in init {
        var i :| 0 <= i < |init| && init[i] == x;
        LessIsTotal(x, last);
      }
    }
  }

  /** The last key does not occur before. */
  lemma BeforeLast(keys: seq<string>)
    requires Sorted(keys) && keys != []
    ensures keys[|keys| - 1] !in keys[..|keys| - 1]
  {
    forall i | 0 <= i < |keys| - 1 ensures keys[i] != keys[|keys| - 1] {
      LessIsTotal(keys[i], keys[|keys| - 1]);
    }
  }

  lemma TwinIs(m: Labels, init: seq<string>, k': string, l: Labels)
    requires Splits(m, init, k', l)
    ensures Twin(m, init, |init| - 1, l[init[|init| - 1]], k', l[k']) == l
  {
    var n, k := |init| - 1, init[|init| - 1];
    var twin := Twin(m, init, n, l[k], k', l[k']);
    BeforeLast(init);
    BeforeLast(init + [k']);
    assert (init + [k'])[..n + 1] == init;
    forall x ensures x in twin <==> x in l {
      MembersOf(init, k', x);
    }
    forall x | x in l ensures twin[x] == l[x] {
      MembersOf(init, k', x);
      assert x in init[..n] ==> x in init;
    }
  }

  lemma MembersOf(init: seq<string>, k': string, x: string)
    requires init != []
    ensures x in init + [k'] <==> x in init[..|init| - 1] || x == init[|init| - 1] || x == k'
  {
    assert init == init[..|init| - 1] + [init[|init| - 1]];
  }
}
