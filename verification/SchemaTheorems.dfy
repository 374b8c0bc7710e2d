/** What the validator's contract means: strict validation is lenient validation of a closed
    schema, strict acceptance is monotone by polarity, and errors locate real places. */
module SchemaTheorems {
  import opened Values
  import opened Schemas
  import opened SchemaFaults
  import Decimals

  // ---------------------------------------------------------------------------------------
  // Strict validation is lenient validation of the closed schema
  // ---------------------------------------------------------------------------------------

  function CloseMap(p: PropertyMap): PropertyMap {
    match p
    case NilMap => NilMap
    case Entries(table) => Entries(map k | k in table :: Close(table[k]))
  }

  function CloseAll(subs: seq<Schema>): (r: seq<Schema>)
    ensures |r| == |subs|
    ensures forall i | 0 <= i < |subs| :: r[i] == Close(subs[i])
  {
    seq(|subs|, i requires 0 <= i < |subs| => Close(subs[i]))
  }

  /** Forbids additional properties on `s` and on every sub-schema. */
  function Close(s: Schema): Schema {
    match s
    case NoSchema => NoSchema
    case Schema(_, _, _, _, _, _, _, _, _, _, _, _, _, _, _, _, _, _, _) =>
      s.(properties := CloseMap(s.properties),
         items := Close(s.items),
         prefixItems := CloseAll(s.prefixItems),
         additionalProperties := Some(false),
         anyOf := CloseAll(s.anyOf),
         oneOf := CloseAll(s.oneOf),
         allOf := CloseAll(s.allOf),
         ifSchema := Close(s.ifSchema),
         thenSchema := Close(s.thenSchema),
         elseSchema := Close(s.elseSchema))
  }

  lemma ClosedTable(s: Schema)
    requires s.Schema?
    ensures Close(s).Table().Keys == s.Table().Keys
    ensures forall k | k in s.Table() :: Close(s).Table()[k] == Close(s.Table()[k])
  {
  }

  /** Validating by `s` in strict mode and by `t` in lenient mode comes to the same. */
  ghost predicate Agree(lib: Lib, d: Value, s: Schema, t: Schema) {
    Sat(lib, true, d, s) == Sat(lib, false, d, t)
  }

  lemma {:induction false} StrictIsLenientOfClosed(lib: Lib, d: Value, s: Schema)
    ensures Sat(lib, true, d, s) <==> Sat(lib, false, d, Close(s))
    decreases s, 2
  {
    if s.Schema? {
      StagesClose(lib, d, s);
    }
  }

  /** Every check of the validator has the same outcome. */
  lemma {:induction false} StagesClose(lib: Lib, d: Value, s: Schema)
    requires s.Schema?
    ensures BasicsOk(lib, d, s) <==> BasicsOk(lib, d, Close(s))
    ensures ShapeOk(lib, true, d, s) <==> ShapeOk(lib, false, d, Close(s))
    ensures AnyOfOk(lib, true, d, s) <==> AnyOfOk(lib, false, d, Close(s))
    ensures OneOfOk(lib, true, d, s) <==> OneOfOk(lib, false, d, Close(s))
    ensures AllOfOk(lib, true, d, s) <==> AllOfOk(lib, false, d, Close(s))
    ensures ConditionOk(lib, true, d, s) <==> ConditionOk(lib, false, d, Close(s))
    ensures Verdicts(lib, true, d, s.oneOf) == Verdicts(lib, false, d, Close(s).oneOf)
    ensures Agree(lib, d, s.ifSchema, Close(s).ifSchema)
    decreases s, 1
  {
    var t := Close(s);
    ShapeCloses(lib, d, s);
    forall i | 0 <= i < |s.anyOf| ensures Agree(lib, d, s.anyOf[i], t.anyOf[i]) {
      StrictIsLenientOfClosed(lib, d, s.anyOf[i]);
    }
    forall i | 0 <= i < |s.oneOf| ensures Agree(lib, d, s.oneOf[i], t.oneOf[i]) {
      StrictIsLenientOfClosed(lib, d, s.oneOf[i]);
    }
    forall i | 0 <= i < |s.allOf| ensures Agree(lib, d, s.allOf[i], t.allOf[i]) {
      StrictIsLenientOfClosed(lib, d, s.allOf[i]);
    }
    AnyAllAgree(lib, d, s, t);
    OneOfAgrees(lib, d, s, t);
    VerdictsAgree(lib, d, s.oneOf, t.oneOf);
    StrictIsLenientOfClosed(lib, d, s.ifSchema);
    StrictIsLenientOfClosed(lib, d, s.thenSchema);
    StrictIsLenientOfClosed(lib, d, s.elseSchema);
    assert ConditionOk(lib, true, d, s) <==> ConditionOk(lib, false, d, t);
  }

  lemma OneOfAgrees(lib: Lib, d: Value, s: Schema, t: Schema)
    requires s.Schema? && t.Schema?
    requires |s.oneOf| == |t.oneOf| && forall i | 0 <= i < |s.oneOf| :: Agree(lib, d, s.oneOf[i], t.oneOf[i])
    ensures OneOfOk(lib, true, d, s) <==> OneOfOk(lib, false, d, t)
  {
    if s.oneOf != [] {
      var bs := Verdicts(lib, true, d, s.oneOf);
      OneOfVerdicts(lib, true, d, s, bs);
      forall i | 0 <= i < |bs| ensures bs[i] == Sat(lib, false, d, t.oneOf[i]) {
        assert Agree(lib, d, s.oneOf[i], t.oneOf[i]);
      }
      OneOfVerdicts(lib, false, d, t, bs);
    }
  }

  lemma VerdictsAgree(lib: Lib, d: Value, ss: seq<Schema>, ts: seq<Schema>)
    requires |ss| == |ts| && forall i | 0 <= i < |ss| :: Agree(lib, d, ss[i], ts[i])
    ensures Verdicts(lib, true, d, ss) == Verdicts(lib, false, d, ts)
  {
    forall i | 0 <= i < |ss| ensures Verdicts(lib, true, d, ss)[i] == Verdicts(lib, false, d, ts)[i] {
      assert Agree(lib, d, ss[i], ts[i]);
    }
  }

  lemma AnyAllAgree(lib: Lib, d: Value, s: Schema, t: Schema)
    requires s.Schema? && t.Schema?
    requires |s.anyOf| == |t.anyOf| && forall i | 0 <= i < |s.anyOf| :: Agree(lib, d, s.anyOf[i], t.anyOf[i])
    requires |s.allOf| == |t.allOf| && forall i | 0 <= i < |s.allOf| :: Agree(lib, d, s.allOf[i], t.allOf[i])
    ensures AnyOfOk(lib, true, d, s) <==> AnyOfOk(lib, false, d, t)
    ensures AllOfOk(lib, true, d, s) <==> AllOfOk(lib, false, d, t)
  {
    if i :| 0 <= i < |s.anyOf| && Sat(lib, true, d, s.anyOf[i]) {
      assert Agree(lib, d, s.anyOf[i], t.anyOf[i]);
    }
    if i :| 0 <= i < |t.anyOf| && Sat(lib, false, d, t.anyOf[i]) {
      assert Agree(lib, d, s.anyOf[i], t.anyOf[i]);
    }
    if i :| 0 <= i < |s.allOf| && !Sat(lib, true, d, s.allOf[i]) {
      assert Agree(lib, d, s.allOf[i], t.allOf[i]);
    }
    if i :| 0 <= i < |t.allOf| && !Sat(lib, false, d, t.allOf[i]) {
      assert Agree(lib, d, s.allOf[i], t.allOf[i]);
    }
  }

  lemma {:induction false} ShapeCloses(lib: Lib, d: Value, s: Schema)
    requires s.Schema?
    ensures ShapeOk(lib, true, d, s) <==> ShapeOk(lib, false, d, Close(s))
    decreases s, 0
  {
    match d
    case List(elems) =>
      forall i: nat | i < |elems| ensures Agree(lib, elems[i], s.ItemSchema(i), Close(s).ItemSchema(i)) {
        StrictIsLenientOfClosed(lib, elems[i], s.ItemSchema(i));
      }
    case Dict(fields) =>
      ClosedTable(s);
      forall k | k in s.Table() && k in fields ensures Agree(lib, fields[k], s.Table()[k], Close(s).Table()[k]) {
        StrictIsLenientOfClosed(lib, fields[k], s.Table()[k]);
      }
    case _ =>
  }

  /** The equivalence extends to the error reported. */
  lemma {:induction false} StrictErrorsAreErrorsOfClosed(lib: Lib, d: Value, s: Schema, path: string, e: ValidationError)
    ensures Explains(lib, true, d, s, path, e) <==> Explains(lib, false, d, Close(s), path, e)
    decreases s, 1
  {
    if s.Schema? {
      StagesClose(lib, d, s);
      ShapeErrorsClose(lib, d, s, path, e);
    }
  }

  lemma {:induction false} ShapeErrorsClose(lib: Lib, d: Value, s: Schema, path: string, e: ValidationError)
    requires s.Schema?
    ensures ExplainsShape(lib, true, d, s, path, e) <==> ExplainsShape(lib, false, d, Close(s), path, e)
    decreases s, 0
  {
    var t := Close(s);
    match d
    case List(elems) =>
      forall i: nat | i < |elems|
        ensures Agree(lib, elems[i], s.ItemSchema(i), t.ItemSchema(i))
        ensures Explains(lib, true, elems[i], s.ItemSchema(i), ItemPath(path, i), e) ==
                Explains(lib, false, elems[i], t.ItemSchema(i), ItemPath(path, i), e)
      {
        StrictIsLenientOfClosed(lib, elems[i], s.ItemSchema(i));
        StrictErrorsAreErrorsOfClosed(lib, elems[i], s.ItemSchema(i), ItemPath(path, i), e);
      }
    case Dict(fields) =>
      ClosedTable(s);
      forall k | k in s.Table() && k in fields
        ensures Agree(lib, fields[k], s.Table()[k], t.Table()[k])
        ensures Explains(lib, true, fields[k], s.Table()[k], DotPath(path, k), e) ==
                Explains(lib, false, fields[k], t.Table()[k], DotPath(path, k), e)
      {
        StrictIsLenientOfClosed(lib, fields[k], s.Table()[k]);
        StrictErrorsAreErrorsOfClosed(lib, fields[k], s.Table()[k], DotPath(path, k), e);
      }
    case _ =>
  }

  // ---------------------------------------------------------------------------------------
  // Errors locate real places
  // ---------------------------------------------------------------------------------------

  datatype Segment = Key(key: string) | Index(index: nat)

  function Extend(path: string, seg: Segment): string {
    match seg
    case Key(k) => DotPath(path, k)
    case Index(i) => ItemPath(path, i)
  }

  /** The field that names a place: keys follow a dot, unless nothing stands before them, and indexes are
      in brackets. */
  function FieldText(path: string, segs: seq<Segment>): string {
    if segs == [] then path
    else
      var before := FieldText(path, segs[..|segs| - 1]);
      match segs[|segs| - 1]
      case Key(k) => if before == "" then k else before + "." + k
      case Index(i) => before + "[" + Decimals.Print(i) + "]"
  }

  /** The validator builds the field from the outside inwards. */
  lemma {:induction false} FieldTextFrom(path: string, seg: Segment, rest: seq<Segment>)
    ensures FieldText(path, [seg] + rest) == FieldText(Extend(path, seg), rest)
    decreases |rest|
  {
    var segs := [seg] + rest;
    if rest == [] {
      assert segs[..0] == [];
    } else {
      FieldTextFrom(path, seg, rest[..|rest| - 1]);
      assert segs[..|segs| - 1] == [seg] + rest[..|rest| - 1];
    }
  }

  /** The node of `d` that a list of segments leads to. */
  function Walk(d: Value, segs: seq<Segment>): Option<Value> {
    if segs == [] then Some(d)
    else match (d, segs[0])
      case (Dict(fields), Key(k)) => if k in fields then Walk(fields[k], segs[1..]) else None
      case (List(elems), Index(i)) => if i < |elems| then Walk(elems[i], segs[1..]) else None
      case _ => None
  }

  /** The sub-schema that governs the node a list of segments leads to. */
  function Governing(s: Schema, segs: seq<Segment>): Option<Schema> {
    if segs == [] then Some(s)
    else if s.NoSchema? then None
    else match segs[0]
      case Key(k) => if k in s.Table() then Governing(s.Table()[k], segs[1..]) else None
      case Index(i) => Governing(s.ItemSchema(i), segs[1..])
  }

  /** The check of `d` gets as far as its part at `seg`: no keyword checked before the parts is broken, and
      the elements before are accepted. */
  ghost predicate Passes(lib: Lib, strict: bool, d: Value, s: Schema, seg: Segment)
    requires s.Schema?
  {
    && (forall r | Breaks(lib, strict, d, s, r) :: Rank(r) > 10)
    && (seg.Index? && d.List? ==>
          forall j: nat | j < seg.index && j < |d.items| :: Sat(lib, strict, d.items[j], s.ItemSchema(j)))
  }

  /** The check of `d` gets as far as the node at `segs`. */
  ghost predicate Reaches(lib: Lib, strict: bool, d: Value, s: Schema, segs: seq<Segment>)
    decreases segs
  {
    segs != [] ==>
      && s.Schema? && Passes(lib, strict, d, s, segs[0])
      && var child, sub := Walk(d, [segs[0]]), Governing(s, [segs[0]]);
         child.Some? && sub.Some? && Reaches(lib, strict, child.value, sub.value, segs[1..])
  }

  /** The place an error names: the node, or a key of it. */
  function Place(segs: seq<Segment>, r: Reason): seq<Segment> {
    match r
    case MissingField(k) => segs + [Key(k)]
    case UnknownProperty(k) => segs + [Key(k)]
    case _ => segs
  }

  /** `e` is about the node at `segs`, which breaks the keyword reported, of the sub-schema that governs it,
      and none checked before; nor is any broken on the way there. A missing field is named below the object that lacks it, an unknown
      property below the object that has it. */
  ghost predicate LocatedAt(lib: Lib, strict: bool, d: Value, s: Schema, path: string, e: ValidationError, segs: seq<Segment>) {
    var node, sub := Walk(d, segs), Governing(s, segs);
    && node.Some? && sub.Some? && sub.value.Schema? && Reaches(lib, strict, d, s, segs)
    && FirstBroken(lib, strict, node.value, sub.value, e.reason)
    && e.field == FieldText(path, Place(segs, e.reason))
  }

  lemma {:induction false} ErrorsLocateRealPlaces(lib: Lib, strict: bool, d: Value, s: Schema, path: string, e: ValidationError)
    returns (segs: seq<Segment>)
    requires Explains(lib, strict, d, s, path, e)
    ensures LocatedAt(lib, strict, d, s, path, e, segs)
    decreases s, 2
  {
    segs := [];
    if !BasicsOk(lib, d, s) {
      BasicIsFirst(lib, strict, d, s, path, e);
    } else if ShapeOk(lib, strict, d, s) {
      CompositionIsFirst(lib, strict, d, s, path, e);
    } else {
      segs := ShapeErrorsLocateRealPlaces(lib, strict, d, s, path, e);
    }
  }

  lemma {:induction false} ShapeErrorsLocateRealPlaces(lib: Lib, strict: bool, d: Value, s: Schema, path: string, e: ValidationError)
    returns (segs: seq<Segment>)
    requires s.Schema? && BasicsOk(lib, d, s) && !ShapeOk(lib, strict, d, s) && ExplainsShape(lib, strict, d, s, path, e)
    ensures LocatedAt(lib, strict, d, s, path, e, segs)
    decreases s, 1
  {
    segs := [];
    match d
    case List(elems) =>
      var i: nat :| i < |elems| && Explains(lib, strict, elems[i], s.ItemSchema(i), ItemPath(path, i), e)
        && forall j: nat | j < i :: Sat(lib, strict, elems[j], s.ItemSchema(j));
      segs := ElementErrorIsLocated(lib, strict, d, s, path, e, i);
    case Dict(fields) =>
      if k :| && RequiredOk(fields, s) && k in s.Table() && k in fields
              && Explains(lib, strict, fields[k], s.Table()[k], DotPath(path, k), e) {
        segs := PropertyErrorIsLocated(lib, strict, d, s, path, e, k);
      } else {
        KeyIsReported(lib, strict, d, s, path, e);
      }
    case _ =>
      ScalarIsFirst(lib, strict, d, s, path, e);
  }

  lemma {:induction false} ElementErrorIsLocated(lib: Lib, strict: bool, d: Value, s: Schema, path: string, e: ValidationError, i: nat)
    returns (segs: seq<Segment>)
    requires s.Schema? && BasicsOk(lib, d, s) && d.List? && i < |d.items|
    requires Explains(lib, strict, d.items[i], s.ItemSchema(i), ItemPath(path, i), e)
    requires forall j: nat | j < i :: Sat(lib, strict, d.items[j], s.ItemSchema(j))
    ensures LocatedAt(lib, strict, d, s, path, e, segs)
    decreases s, 0
  {
    var rest := ErrorsLocateRealPlaces(lib, strict, d.items[i], s.ItemSchema(i), ItemPath(path, i), e);
    segs := [Index(i)] + rest;
    PartIsReached(lib, strict, d, s, Index(i));
    StepInto(lib, strict, d, s, path, e, Index(i), d.items[i], s.ItemSchema(i), rest);
  }

  lemma {:induction false} PropertyErrorIsLocated(lib: Lib, strict: bool, d: Value, s: Schema, path: string, e: ValidationError, k: string)
    returns (segs: seq<Segment>)
    requires s.Schema? && BasicsOk(lib, d, s) && d.Dict? && RequiredOk(d.fields, s) && k in s.Table() && k in d.fields
    requires Explains(lib, strict, d.fields[k], s.Table()[k], DotPath(path, k), e)
    ensures LocatedAt(lib, strict, d, s, path, e, segs)
    decreases s, 0
  {
    var rest := ErrorsLocateRealPlaces(lib, strict, d.fields[k], s.Table()[k], DotPath(path, k), e);
    segs := [Key(k)] + rest;
    PartIsReached(lib, strict, d, s, Key(k));
    StepInto(lib, strict, d, s, path, e, Key(k), d.fields[k], s.Table()[k], rest);
  }

  /** An object that lacks a required key or has an unknown one is itself the place of the error. */
  lemma KeyIsReported(lib: Lib, strict: bool, d: Value, s: Schema, path: string, e: ValidationError)
    requires s.Schema? && BasicsOk(lib, d, s) && !ShapeOk(lib, strict, d, s) && ExplainsShape(lib, strict, d, s, path, e)
    requires d.Dict?
    requires RequiredOk(d.fields, s) ==>
      forall k | k in s.Table() && k in d.fields :: !Explains(lib, strict, d.fields[k], s.Table()[k], DotPath(path, k), e)
    ensures LocatedAt(lib, strict, d, s, path, e, [])
  {
    if !RequiredOk(d.fields, s) {
      MissingIsFirst(lib, strict, d, s, path, e);
    } else {
      UnknownIsFirst(lib, strict, d, s, e);
    }
    LocatedHere(lib, strict, d, s, path, e);
  }

  lemma PartIsReached(lib: Lib, strict: bool, d: Value, s: Schema, seg: Segment)
    requires s.Schema? && BasicsOk(lib, d, s) && (d.List? || (d.Dict? && RequiredOk(d.fields, s)))
    requires seg.Index? && d.List? ==>
      forall j: nat | j < seg.index && j < |d.items| :: Sat(lib, strict, d.items[j], s.ItemSchema(j))
    ensures Passes(lib, strict, d, s, seg)
  {
    forall r | Breaks(lib, strict, d, s, r) ensures Rank(r) > 10 {
      PartsAreReached(lib, strict, d, s, r);
    }
  }

  lemma LocatedHere(lib: Lib, strict: bool, d: Value, s: Schema, path: string, e: ValidationError)
    requires s.Schema? && FirstBroken(lib, strict, d, s, e.reason)
    requires e.reason.MissingField? || e.reason.UnknownProperty?
    requires e.field == DotPath(path, if e.reason.MissingField? then e.reason.key else e.reason.name)
    ensures LocatedAt(lib, strict, d, s, path, e, [])
  {
    KeyOfPlace(path, e.reason);
  }

  lemma KeyOfPlace(path: string, r: Reason)
    requires r.MissingField? || r.UnknownProperty?
    ensures FieldText(path, Place([], r)) == DotPath(path, if r.MissingField? then r.key else r.name)
  {
    var k := if r.MissingField? then r.key else r.name;
    assert Place([], r) == [Key(k)];
    assert [Key(k)][..0] == [];
  }

  lemma PlaceFrom(path: string, seg: Segment, rest: seq<Segment>, r: Reason)
    ensures FieldText(path, Place([seg] + rest, r)) == FieldText(Extend(path, seg), Place(rest, r))
  {
    FieldTextFrom(path, seg, Place(rest, r));
    if r.MissingField? || r.UnknownProperty? {
      var k := Key(if r.MissingField? then r.key else r.name);
      assert [seg] + rest + [k] == [seg] + (rest + [k]);
    }
  }

  /** A location below a child is a location below its parent. */
  lemma StepInto(lib: Lib, strict: bool, d: Value, s: Schema, path: string, e: ValidationError,
                 seg: Segment, child: Value, sub: Schema, rest: seq<Segment>)
    requires LocatedAt(lib, strict, child, sub, Extend(path, seg), e, rest)
    requires s.Schema? && Passes(lib, strict, d, s, seg)
    requires Walk(d, [seg]) == Some(child) && Governing(s, [seg]) == Some(sub)
    ensures LocatedAt(lib, strict, d, s, path, e, [seg] + rest)
  {
    var segs := [seg] + rest;
    assert segs[0] == seg && segs[1..] == rest;
    PlaceFrom(path, seg, rest, e.reason);
  }
}
