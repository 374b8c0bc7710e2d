/** Every error that may be reported is reported under some order of visiting maps. */
module SchemaReports {
  import opened Values
  import opened Schemas

  // ---------------------------------------------------------------------------------------
  // Validation under chosen orders
  // ---------------------------------------------------------------------------------------

  /** The orders in which one validation visits the properties of its schema and the keys of its object,
      and those of the validations below it, by path. What is not an order leaves the choice open. */
  datatype Orders = AnyOrder | Orders(properties: seq<string>, keys: seq<string>, below: map<string, Orders>)
  {
    function Properties(): seq<string> { if Orders? then properties else [] }

    function Keys(): seq<string> { if Orders? then keys else [] }

    function Below(path: string): Orders { if Orders? && path in below then below[path] else AnyOrder }
  }

  lemma {:induction false} ListAll(s: set<string>) returns (order: seq<string>)
    ensures Distinct(order) && SeqToSet(order) == s
    decreases |s|
  {
    if s == {} {
      order := [];
    } else {
      var k :| k in s;
      var rest := ListAll(s - {k});
      order := [k] + rest;
      assert SeqToSet(order) == {k} + SeqToSet(rest);
      DistinctCons(k, rest);
    }
  }

  lemma DistinctCons(k: string, rest: seq<string>)
    requires Distinct(rest) && k !in SeqToSet(rest)
    ensures Distinct([k] + rest)
  {
  }

  lemma SomeOrderExists<V>(m: map<string, V>)
    ensures exists order :: VisitOrder(m, order)
  {
    var order := ListAll(m.Keys);
    assert VisitOrder(m, order);
  }

  ghost function Chosen<V>(m: map<string, V>, wanted: seq<string>): (order: seq<string>)
    ensures VisitOrder(m, order)
  {
    SomeOrderExists(m);
    if VisitOrder(m, wanted) then wanted else var order :| VisitOrder(m, order); order
  }

  /** What validation returns under these orders. */
  ghost function Run(lib: Lib, strict: bool, d: Value, s: Schema, path: string, o: Orders): Option<ValidationError>
    decreases s, 2
  {
    if s.NoSchema? then None
    else if !TypeOk(d, s.typ) then Some(ValidationError(path, WrongType))
    else if !EnumOk(lib, d, s.enum) then Some(ValidationError(path, NotInEnum))
    else if !ConstOk(lib, d, s.constant) then Some(ValidationError(path, NotConst))
    else
      var shape := RunShape(lib, strict, d, s, path, o);
      if shape.Some? then shape
      else if !AnyOfOk(lib, strict, d, s) then Some(ValidationError(path, NoAnyOf))
      else if !OneOfOk(lib, strict, d, s) then
        Some(ValidationError(path, NotOneOf(CountTrue(Verdicts(lib, strict, d, s.oneOf)))))
      else if !AllOfOk(lib, strict, d, s) then Some(ValidationError(path, AllOfFails))
      else if !ConditionOk(lib, strict, d, s) then
        Some(ValidationError(path, if Sat(lib, strict, d, s.ifSchema) then ThenFails else ElseFails))
      else None
  }

  ghost function RunShape(lib: Lib, strict: bool, d: Value, s: Schema, path: string, o: Orders): Option<ValidationError>
    requires s.Schema?
    decreases s, 1
  {
    match d
    case Str(x) =>
      if s.typ == "string" && !(LengthOk(x, s) && PatternOk(lib, x, s)) then Some(ValidationError(path, StringFault(lib, x, s)))
      else None
    case Float(r) =>
      if (s.typ == "number" || s.typ == "integer") && !RangeOk(r, s) then
        Some(ValidationError(path, if s.minimum.Some? && r < s.minimum.value then BelowMinimum else AboveMaximum))
      else None
    case List(elems) => if s.typ == "array" then RunElements(lib, strict, elems, s, path, o, 0) else None
    case Dict(fields) =>
      if !s.ChecksObject() then None
      else
        var missing := FirstMissing(fields, s.required, path);
        if missing.Some? then missing
        else
          var invalid := RunProperties(lib, strict, fields, s, path, o, Chosen(s.Table(), o.Properties()));
          if invalid.Some? then invalid
          else if RejectsUnknown(strict, s) then FirstUnknown(Chosen(fields, o.Keys()), s.Table(), path)
          else None
    case _ => None
  }

  ghost function RunElements(lib: Lib, strict: bool, elems: seq<Value>, s: Schema, path: string, o: Orders, i: nat)
    : Option<ValidationError>
    requires s.Schema? && i <= |elems|
    decreases s, 0, |elems| - i
  {
    if i == |elems| then None
    else
      var e := Run(lib, strict, elems[i], s.ItemSchema(i), ItemPath(path, i), o.Below(ItemPath(path, i)));
      if e.Some? then e else RunElements(lib, strict, elems, s, path, o, i + 1)
  }

  ghost function RunProperties(lib: Lib, strict: bool, fields: map<string, Value>, s: Schema, path: string, o: Orders,
                               order: seq<string>): Option<ValidationError>
    requires s.Schema? && SeqToSet(order) <= s.Table().Keys
    decreases s, 0, |order|
  {
    if order == [] then None
    else
      var k := order[0];
      assert k in SeqToSet(order) && SeqToSet(order[1..]) <= SeqToSet(order);
      var e := if k in fields then Run(lib, strict, fields[k], s.Table()[k], DotPath(path, k), o.Below(DotPath(path, k))) else None;
      if e.Some? then e else RunProperties(lib, strict, fields, s, path, o, order[1..])
  }

  function FirstMissing(fields: map<string, Value>, required: seq<string>, path: string): Option<ValidationError> {
    if required == [] then None
    else if required[0] !in fields then Some(ValidationError(DotPath(path, required[0]), MissingField(required[0])))
    else FirstMissing(fields, required[1..], path)
  }

  function FirstUnknown(order: seq<string>, table: map<string, Schema>, path: string): Option<ValidationError> {
    if order == [] then None
    else if order[0] !in table then Some(ValidationError(DotPath(path, order[0]), UnknownProperty(order[0])))
    else FirstUnknown(order[1..], table, path)
  }

  // ---------------------------------------------------------------------------------------
  // Under every order the verdict is the same, and an error is explained
  // ---------------------------------------------------------------------------------------

  lemma {:induction false} RunKeepsPromise(lib: Lib, strict: bool, d: Value, s: Schema, path: string, o: Orders)
    ensures Verdict(lib, strict, d, s, path, Run(lib, strict, d, s, path, o))
    decreases s, 2
  {
    if s.Schema? && BasicsOk(lib, d, s) {
      ShapeKeepsPromise(lib, strict, d, s, path, o);
    }
  }

  lemma {:induction false} ShapeKeepsPromise(lib: Lib, strict: bool, d: Value, s: Schema, path: string, o: Orders)
    requires s.Schema?
    ensures var e := RunShape(lib, strict, d, s, path, o);
      && (e.None? <==> ShapeOk(lib, strict, d, s))
      && (e.Some? ==> ExplainsShape(lib, strict, d, s, path, e.value))
    decreases s, 1
  {
    match d
    case List(elems) =>
      if s.typ == "array" { ElementsKeepPromise(lib, strict, elems, s, path, o, 0); }
    case Dict(fields) =>
      if s.ChecksObject() {
        MissingIsFirst(fields, s.required, path);
        var order := Chosen(s.Table(), o.Properties());
        PropertiesKeepPromise(lib, strict, fields, s, path, o, order);
        assert forall k :: k in s.Table() <==> k in SeqToSet(order);
        UnknownIsFirst(fields, Chosen(fields, o.Keys()), s.Table(), path);
      }
    case _ =>
  }

  lemma {:induction false} ElementsKeepPromise(lib: Lib, strict: bool, elems: seq<Value>, s: Schema, path: string, o: Orders,
                                               i: nat)
    requires s.Schema? && i <= |elems|
    requires forall j: nat | j < i :: Sat(lib, strict, elems[j], s.ItemSchema(j))
    ensures var e := RunElements(lib, strict, elems, s, path, o, i);
      && (e.None? <==> forall j: nat | j < |elems| :: Sat(lib, strict, elems[j], s.ItemSchema(j)))
      && (e.Some? ==> ExplainsShape(lib, strict, List(elems), s, path, e.value))
    decreases s, 0, |elems| - i
  {
    if i < |elems| {
      RunKeepsPromise(lib, strict, elems[i], s.ItemSchema(i), ItemPath(path, i), o.Below(ItemPath(path, i)));
      if Sat(lib, strict, elems[i], s.ItemSchema(i)) {
        ElementsKeepPromise(lib, strict, elems, s, path, o, i + 1);
      }
    }
  }

  /** `e` is explained by a property that is present and invalid. */
  ghost predicate ExplainsProperty(lib: Lib, strict: bool, fields: map<string, Value>, s: Schema, path: string,
                                   e: ValidationError, k: string)
    requires s.Schema?
  {
    && k in s.Table() && k in fields && !Sat(lib, strict, fields[k], s.Table()[k])
    && Explains(lib, strict, fields[k], s.Table()[k], DotPath(path, k), e)
  }

  lemma {:induction false} PropertiesKeepPromise(lib: Lib, strict: bool, fields: map<string, Value>, s: Schema, path: string,
                                                 o: Orders, order: seq<string>)
    requires s.Schema? && SeqToSet(order) <= s.Table().Keys
    ensures var e := RunProperties(lib, strict, fields, s, path, o, order);
      && (e.None? <==> forall k | k in SeqToSet(order) && k in fields :: Sat(lib, strict, fields[k], s.Table()[k]))
      && (e.Some? ==> exists k :: ExplainsProperty(lib, strict, fields, s, path, e.value, k))
    decreases s, 0, |order|
  {
    if order != [] {
      var k := order[0];
      assert SeqToSet(order) == {k} + SeqToSet(order[1..]);
      if k in fields {
        RunKeepsPromise(lib, strict, fields[k], s.Table()[k], DotPath(path, k), o.Below(DotPath(path, k)));
        var e := Run(lib, strict, fields[k], s.Table()[k], DotPath(path, k), o.Below(DotPath(path, k)));
        assert e.Some? ==> ExplainsProperty(lib, strict, fields, s, path, e.value, k);
      }
      PropertiesKeepPromise(lib, strict, fields, s, path, o, order[1..]);
    }
  }

  lemma {:induction false} MissingIsFirst(fields: map<string, Value>, required: seq<string>, path: string)
    ensures var e := FirstMissing(fields, required, path);
      && (e.None? <==> forall k | k in required :: k in fields)
      && (forall x :: ExplainsMissing(fields, required, path, x) <==> e == Some(x))
  {
    if required != [] {
      MissingIsFirst(fields, required[1..], path);
      MissingFromTail(fields, required, path);
    }
  }

  lemma MissingFromTail(fields: map<string, Value>, required: seq<string>, path: string)
    requires required != []
    ensures required[0] in fields ==>
      forall x :: ExplainsMissing(fields, required, path, x) <==> ExplainsMissing(fields, required[1..], path, x)
    ensures required[0] !in fields ==>
      forall x :: ExplainsMissing(fields, required, path, x) <==>
                  x == ValidationError(DotPath(path, required[0]), MissingField(required[0]))
  {
    var tail := required[1..];
    assert forall i: nat | i < |tail| :: tail[i] == required[i + 1];
    if required[0] in fields {
      forall x ensures ExplainsMissing(fields, required, path, x) <==> ExplainsMissing(fields, tail, path, x) {
        if ExplainsMissing(fields, required, path, x) {
          var i: nat :| i < |required| && required[i] !in fields && (forall j: nat | j < i :: required[j] in fields)
            && x == ValidationError(DotPath(path, required[i]), MissingField(required[i]));
          assert tail[i - 1] == required[i] && forall j: nat | j < i - 1 :: tail[j] in fields;
        }
        if ExplainsMissing(fields, tail, path, x) {
          var i: nat :| i < |tail| && tail[i] !in fields && (forall j: nat | j < i :: tail[j] in fields)
            && x == ValidationError(DotPath(path, tail[i]), MissingField(tail[i]));
          assert required[i + 1] == tail[i] && forall j: nat | j < i + 1 :: required[j] in fields;
        }
      }
    }
  }

  lemma {:induction false} UnknownIsFirst(fields: map<string, Value>, order: seq<string>, table: map<string, Schema>,
                                          path: string)
    ensures var e := FirstUnknown(order, table, path);
      && (e.None? <==> SeqToSet(order) <= table.Keys)
      && (e.Some? ==>
            && e.value.reason.UnknownProperty? && e.value.reason.name in SeqToSet(order) - table.Keys
            && e.value.field == DotPath(path, e.value.reason.name))
  {
    if order != [] {
      assert SeqToSet(order) == {order[0]} + SeqToSet(order[1..]);
      UnknownIsFirst(fields, order[1..], table, path);
    }
  }

  // ---------------------------------------------------------------------------------------
  // Every explained error is reported
  // ---------------------------------------------------------------------------------------

  /** Whatever error explains a rejection, some orders of visiting the maps make validation report it. */
  lemma {:induction false} ExplainedErrorIsReported(lib: Lib, strict: bool, d: Value, s: Schema, path: string, e: ValidationError)
    returns (o: Orders)
    requires Explains(lib, strict, d, s, path, e)
    ensures Run(lib, strict, d, s, path, o) == Some(e)
    decreases s, 2
  {
    o := AnyOrder;
    if BasicsOk(lib, d, s) {
      ShapeKeepsPromise(lib, strict, d, s, path, o);
      if !ShapeOk(lib, strict, d, s) {
        o := ShapeErrorIsReported(lib, strict, d, s, path, e);
      }
    }
  }

  lemma {:induction false} ShapeErrorIsReported(lib: Lib, strict: bool, d: Value, s: Schema, path: string, e: ValidationError)
    returns (o: Orders)
    requires s.Schema? && !ShapeOk(lib, strict, d, s) && ExplainsShape(lib, strict, d, s, path, e)
    ensures RunShape(lib, strict, d, s, path, o) == Some(e)
    decreases s, 1
  {
    o := AnyOrder;
    match d
    case List(elems) =>
      var i: nat :| i < |elems|
        && (forall j: nat | j < i :: Sat(lib, strict, elems[j], s.ItemSchema(j)))
        && !Sat(lib, strict, elems[i], s.ItemSchema(i))
        && Explains(lib, strict, elems[i], s.ItemSchema(i), ItemPath(path, i), e);
      var below := ExplainedErrorIsReported(lib, strict, elems[i], s.ItemSchema(i), ItemPath(path, i), e);
      o := Orders([], [], map[ItemPath(path, i) := below]);
      ElementIsReached(lib, strict, elems, s, path, o, 0, i);
    case Dict(fields) =>
      MissingIsFirst(fields, s.required, path);
      if RequiredOk(fields, s) {
        o := PropertyErrorIsReported(lib, strict, fields, s, path, e);
      }
    case _ =>
  }

  lemma {:induction false} ElementIsReached(lib: Lib, strict: bool, elems: seq<Value>, s: Schema, path: string, o: Orders,
                                            j: nat, i: nat)
    requires s.Schema? && j <= i < |elems|
    requires forall x: nat | x < i :: Sat(lib, strict, elems[x], s.ItemSchema(x))
    requires Run(lib, strict, elems[i], s.ItemSchema(i), ItemPath(path, i), o.Below(ItemPath(path, i))).Some?
    ensures RunElements(lib, strict, elems, s, path, o, j) ==
            Run(lib, strict, elems[i], s.ItemSchema(i), ItemPath(path, i), o.Below(ItemPath(path, i)))
    decreases i - j
  {
    if j < i {
      RunKeepsPromise(lib, strict, elems[j], s.ItemSchema(j), ItemPath(path, j), o.Below(ItemPath(path, j)));
      ElementIsReached(lib, strict, elems, s, path, o, j + 1, i);
    }
  }

  lemma {:induction false} PropertyErrorIsReported(lib: Lib, strict: bool, fields: map<string, Value>, s: Schema, path: string,
                                                   e: ValidationError) returns (o: Orders)
    requires s.Schema? && s.ChecksObject() && RequiredOk(fields, s)
    requires ExplainsShape(lib, strict, Dict(fields), s, path, e)
    ensures RunShape(lib, strict, Dict(fields), s, path, o) == Some(e)
    decreases s, 0
  {
    MissingIsFirst(fields, s.required, path);
    if k :| ExplainsProperty(lib, strict, fields, s, path, e, k) {
      var below := ExplainedErrorIsReported(lib, strict, fields[k], s.Table()[k], DotPath(path, k), e);
      var order := OrderFrom(s.Table(), k);
      o := Orders(order, [], map[DotPath(path, k) := below]);
    } else {
      assert forall k :: !ExplainsProperty(lib, strict, fields, s, path, e, k);
      UnknownExplains(lib, strict, fields, s, path, e);
      var order := OrderFrom(fields, e.reason.name);
      o := Orders([], order, map[]);
      PropertiesKeepPromise(lib, strict, fields, s, path, o, Chosen(s.Table(), []));
    }
  }

  lemma UnknownExplains(lib: Lib, strict: bool, fields: map<string, Value>, s: Schema, path: string, e: ValidationError)
    requires s.Schema? && s.ChecksObject() && RequiredOk(fields, s)
    requires ExplainsShape(lib, strict, Dict(fields), s, path, e)
    requires forall k :: !ExplainsProperty(lib, strict, fields, s, path, e, k)
    ensures forall k | k in s.Table() :: k in fields ==> Sat(lib, strict, fields[k], s.Table()[k])
    ensures RejectsUnknown(strict, s) && e.reason.UnknownProperty?
    ensures e.reason.name in fields && e.reason.name !in s.Table() && e.field == DotPath(path, e.reason.name)
  {
    if k :| (&& k in s.Table() && k in fields && !Sat(lib, strict, fields[k], s.Table()[k])
             && Explains(lib, strict, fields[k], s.Table()[k], DotPath(path, k), e)) {
      assert ExplainsProperty(lib, strict, fields, s, path, e, k);
    }
  }

  /** An order that visits `k` first. */
  lemma OrderFrom<V>(m: map<string, V>, k: string) returns (order: seq<string>)
    requires k in m
    ensures VisitOrder(m, order) && order != [] && order[0] == k
  {
    var rest := ListAll(m.Keys - {k});
    order := [k] + rest;
    DistinctCons(k, rest);
    assert SeqToSet(order) == {k} + SeqToSet(rest);
  }
}
