/** When one mode of the validator accepts whatever the other accepts. */
module SchemaPolarity {
  import opened Values
  import opened Schemas

  /** The unconstrained schema. */
  const ANY := Schema("", NilMap, [], None, None, "", None, None, [], None, NoSchema, [], None, [], [], [],
                      NoSchema, NoSchema, NoSchema)

  /** A schema that accepts everything, in either mode. */
  predicate Unconstrained(s: Schema) {
    s.Schema? ==>
      && s.typ == "" && s.properties.NilMap? && s.enum == [] && s.constant.None?
      && s.anyOf == [] && s.oneOf == [] && s.allOf == [] && s.ifSchema.NoSchema?
  }

  /** The other mode accepts what mode `from` accepts. Lenient acceptance carries over to an object
      schema only if it rejects unknown keys already. Acceptance by `oneOf` carries over from its only
      alternative, or when all alternatives agree in both directions. A condition that may newly be met,
      or newly fail, does no harm where the branch then taken accepts everything. */
  predicate Keeps(from: bool, s: Schema)
    decreases s
  {
    s.Schema? ==>
      && (s.ChecksObject() ==>
            && (from || s.Table() == map[] || s.additionalProperties == Some(false))
            && forall k | k in s.Table() :: Keeps(from, s.Table()[k]))
      && (s.typ == "array" ==> Keeps(from, s.items) && forall i | 0 <= i < |s.prefixItems| :: Keeps(from, s.prefixItems[i]))
      && (forall i | 0 <= i < |s.anyOf| :: Keeps(from, s.anyOf[i]))
      && (if |s.oneOf| == 1 then Keeps(from, s.oneOf[0])
          else forall i | 0 <= i < |s.oneOf| :: Keeps(true, s.oneOf[i]) && Keeps(false, s.oneOf[i]))
      && (forall i | 0 <= i < |s.allOf| :: Keeps(from, s.allOf[i]))
      && (s.ifSchema.Schema? ==>
            && (Keeps(from, s.ifSchema) || Unconstrained(s.elseSchema))
            && (Keeps(!from, s.ifSchema) || Unconstrained(s.thenSchema))
            && Keeps(from, s.thenSchema) && Keeps(from, s.elseSchema))
  }

  lemma {:induction false} AcceptanceCarriesOver(lib: Lib, from: bool, d: Value, s: Schema)
    requires Keeps(from, s) && Sat(lib, from, d, s)
    ensures Sat(lib, !from, d, s)
    decreases s, 1
  {
    if s.Schema? {
      ShapeCarriesOver(lib, from, d, s);
      if i :| 0 <= i < |s.anyOf| && Sat(lib, from, d, s.anyOf[i]) {
        AcceptanceCarriesOver(lib, from, d, s.anyOf[i]);
      }
      OneOfCarriesOver(lib, from, d, s);
      forall i | 0 <= i < |s.allOf| ensures Sat(lib, !from, d, s.allOf[i]) {
        AcceptanceCarriesOver(lib, from, d, s.allOf[i]);
      }
      ConditionCarriesOver(lib, from, d, s);
    }
  }

  lemma {:induction false} ShapeCarriesOver(lib: Lib, from: bool, d: Value, s: Schema)
    requires s.Schema? && Keeps(from, s) && ShapeOk(lib, from, d, s)
    ensures ShapeOk(lib, !from, d, s)
    decreases s, 0
  {
    match d
    case List(elems) =>
      if s.typ == "array" {
        forall i: nat | i < |elems| ensures Sat(lib, !from, elems[i], s.ItemSchema(i)) {
          AcceptanceCarriesOver(lib, from, elems[i], s.ItemSchema(i));
        }
      }
    case Dict(fields) =>
      if s.ChecksObject() {
        forall k | k in s.Table() && k in fields ensures Sat(lib, !from, fields[k], s.Table()[k]) {
          AcceptanceCarriesOver(lib, from, fields[k], s.Table()[k]);
        }
      }
    case _ =>
  }

  lemma {:induction false} OneOfCarriesOver(lib: Lib, from: bool, d: Value, s: Schema)
    requires s.Schema? && Keeps(from, s) && OneOfOk(lib, from, d, s)
    ensures OneOfOk(lib, !from, d, s)
    decreases s, 0
  {
    if s.oneOf != [] {
      var i :| 0 <= i < |s.oneOf| && OnlyMatch(lib, from, d, s, i);
      AcceptanceCarriesOver(lib, from, d, s.oneOf[i]);
      forall j | 0 <= j < |s.oneOf| && j != i ensures !Sat(lib, !from, d, s.oneOf[j]) {
        if Sat(lib, !from, d, s.oneOf[j]) {
          AcceptanceCarriesOver(lib, !from, d, s.oneOf[j]);
          assert false;
        }
      }
      assert OnlyMatch(lib, !from, d, s, i);
    }
  }

  lemma {:induction false} ConditionCarriesOver(lib: Lib, from: bool, d: Value, s: Schema)
    requires s.Schema? && Keeps(from, s) && ConditionOk(lib, from, d, s)
    ensures ConditionOk(lib, !from, d, s)
    decreases s, 0
  {
    if s.ifSchema.Schema? {
      IfKeeps(lib, from, d, s.ifSchema);
      IfKeeps(lib, !from, d, s.ifSchema);
      IfKeeps(lib, from, d, s.thenSchema);
      IfKeeps(lib, from, d, s.elseSchema);
      AcceptsEverything(lib, !from, d, s.thenSchema);
      AcceptsEverything(lib, !from, d, s.elseSchema);
    }
  }

  lemma AcceptsEverything(lib: Lib, strict: bool, d: Value, s: Schema)
    ensures Unconstrained(s) ==> Sat(lib, strict, d, s)
  {
  }

  lemma {:induction false} IfKeeps(lib: Lib, from: bool, d: Value, s: Schema)
    ensures Keeps(from, s) && Sat(lib, from, d, s) ==> Sat(lib, !from, d, s)
    decreases s, 2
  {
    if Keeps(from, s) && Sat(lib, from, d, s) { AcceptanceCarriesOver(lib, from, d, s); }
  }

  lemma StrictImpliesLenient(lib: Lib, d: Value, s: Schema)
    requires Keeps(true, s)
    ensures Sat(lib, true, d, s) ==> Sat(lib, false, d, s)
  {
    if Sat(lib, true, d, s) { AcceptanceCarriesOver(lib, true, d, s); }
  }

  lemma LenientImpliesStrict(lib: Lib, d: Value, s: Schema)
    requires Keeps(false, s)
    ensures Sat(lib, false, d, s) ==> Sat(lib, true, d, s)
  {
    if Sat(lib, false, d, s) { AcceptanceCarriesOver(lib, false, d, s); }
  }

  /** No `oneOf` of several alternatives and no `if`, here or in any sub-schema. */
  predicate IsPlain(s: Schema) {
    s.Schema? ==>
      && (forall k | k in s.Table() :: IsPlain(s.Table()[k]))
      && IsPlain(s.items) && (forall i | 0 <= i < |s.prefixItems| :: IsPlain(s.prefixItems[i]))
      && (forall i | 0 <= i < |s.anyOf| :: IsPlain(s.anyOf[i]))
      && |s.oneOf| <= 1 && (forall i | 0 <= i < |s.oneOf| :: IsPlain(s.oneOf[i]))
      && (forall i | 0 <= i < |s.allOf| :: IsPlain(s.allOf[i]))
      && s.ifSchema.NoSchema?
  }

  /** On plain schemas strict mode is the tighter one. */
  lemma {:induction false} PlainSchemasKeep(s: Schema)
    requires IsPlain(s)
    ensures Keeps(true, s)
    decreases s
  {
    if s.Schema? {
      forall k | k in s.Table() ensures Keeps(true, s.Table()[k]) { PlainSchemasKeep(s.Table()[k]); }
      PlainSchemasKeep(s.items);
      forall i | 0 <= i < |s.prefixItems| ensures Keeps(true, s.prefixItems[i]) { PlainSchemasKeep(s.prefixItems[i]); }
      forall i | 0 <= i < |s.anyOf| ensures Keeps(true, s.anyOf[i]) { PlainSchemasKeep(s.anyOf[i]); }
      forall i | 0 <= i < |s.oneOf| ensures Keeps(true, s.oneOf[i]) { PlainSchemasKeep(s.oneOf[i]); }
      forall i | 0 <= i < |s.allOf| ensures Keeps(true, s.allOf[i]) { PlainSchemasKeep(s.allOf[i]); }
    }
  }

  function Declares(key: string): Schema {
    ANY.(properties := Entries(map[key := ANY]))
  }

  lemma DeclaresAccepts(lib: Lib, strict: bool, declared: string, present: string)
    ensures Sat(lib, strict, Dict(map[present := Nil]), Declares(declared)) <==> !strict || declared == present
  {
    var s := Declares(declared);
    assert s.Table().Keys == {declared} && map[present := Nil].Keys == {present};
    assert s.Table() != map[];
    assert Sat(lib, strict, Nil, ANY);
    assert {present} <= {declared} <==> declared == present;
  }

  lemma OneOfTwo(lib: Lib, strict: bool, d: Value, s: Schema, a: Schema, b: Schema)
    requires s.Schema? && s.oneOf == [a, b]
    ensures OneOfOk(lib, strict, d, s) <==> Sat(lib, strict, d, a) != Sat(lib, strict, d, b)
  {
    var bs := [Sat(lib, strict, d, a), Sat(lib, strict, d, b)];
    OneOfVerdicts(lib, strict, d, s, bs);
    if bs[0] != bs[1] {
      assert OnlyTrue(bs, if bs[0] then 0 else 1);
    }
  }

  /** The conditions on `oneOf` and `if` are there for a reason: with an open object schema under `oneOf`, or under `if`,
      strict mode accepts data that lenient mode rejects. */
  lemma StrictIsNotStricterUnderOneOf(lib: Lib)
    ensures var d, s := Dict(map["a" := Nil]), ANY.(oneOf := [Declares("a"), Declares("b")]);
      Sat(lib, true, d, s) && !Sat(lib, false, d, s)
  {
    var d, s := Dict(map["a" := Nil]), ANY.(oneOf := [Declares("a"), Declares("b")]);
    DeclaresAccepts(lib, true, "a", "a");
    DeclaresAccepts(lib, false, "a", "a");
    DeclaresAccepts(lib, true, "b", "a");
    DeclaresAccepts(lib, false, "b", "a");
    OneOfTwo(lib, true, d, s, Declares("a"), Declares("b"));
    OneOfTwo(lib, false, d, s, Declares("a"), Declares("b"));
  }

  lemma StrictIsNotStricterUnderIf(lib: Lib)
    ensures var d, s := Dict(map["a" := Nil]), ANY.(ifSchema := Declares("b"), thenSchema := ANY.(typ := "array"));
      Sat(lib, true, d, s) && !Sat(lib, false, d, s)
  {
    DeclaresAccepts(lib, true, "b", "a");
    DeclaresAccepts(lib, false, "b", "a");
  }
}
