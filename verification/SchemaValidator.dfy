/** The hand-written walker for a subset of JSON Schema 2020-12 (bench/submission.py). */
module SchemaValidator {
  import opened Basics

  /** A parsed document; the three numeric constructors are the parser's three runtime types. */
  datatype Json =
    | Null
    | Bool(b: bool)
    | Int(n: int)
    | Float(r: real)
    | String(s: string)
    | Array(items: seq<Json>)
    | Object(fields: seq<Field>)

  datatype Field = Field(key: string, value: Json)

  /** One schema node, keyword by keyword. */
  datatype Schema = Schema(
    ref: Option<string>,
    const_: Option<Json>,
    enum_: Option<seq<Json>>,
    types: Option<seq<string>>,
    properties: Members,
    required: seq<string>,
    closed: bool,               // additionalProperties is false
    items: Option<Schema>)

  datatype Members = NoMembers | Members(list: seq<Property>)

  datatype Property = Property(name: string, schema: Schema)

  type Defs = map<string, Schema>

  // ------------------------------------------------------------ documents

  function Get(j: Json, key: string): (v: Option<Json>)
    requires j.Object?
    ensures v.Some? ==> v.value < j
    ensures v.Some? <==> exists i :: 0 <= i < |j.fields| && j.fields[i].key == key
  {
    GetFrom(j, key, 0)
  }

  function GetFrom(j: Json, key: string, i: nat): (v: Option<Json>)
    requires j.Object? && i <= |j.fields|
    ensures v.Some? ==> v.value < j
    ensures v.Some? <==> exists k :: i <= k < |j.fields| && j.fields[k].key == key
    decreases |j.fields| - i
  {
    if i == |j.fields| then None
    else if j.fields[i].key == key then Some(j.fields[i].value)
    else GetFrom(j, key, i + 1)
  }

  predicate Has(j: Json, key: string)
    requires j.Object?
  {
    Get(j, key).Some?
  }

  function Number(j: Json): Option<real> {
    match j
    case Bool(b) => Some(if b then 1.0 else 0.0)
    case Int(n) => Some(n as real)
    case Float(r) => Some(r)
    case _ => None
  }

  /** The language's own ==, under which true, 1 and 1.0 are all equal. */
  predicate PyEq(a: Json, b: Json)
    decreases a
  {
    if Number(a).Some? || Number(b).Some? then Number(a) == Number(b)
    else
      match a
      case Array(xs) =>
        b.Array? && |xs| == |b.items| && forall i :: 0 <= i < |xs| ==> PyEq(xs[i], b.items[i])
      case Object(fields) =>
        && b.Object?
        && (forall i :: 0 <= i < |b.fields| ==> Has(a, b.fields[i].key))
        && (forall i :: 0 <= i < |fields| ==>
              && Has(b, fields[i].key)
              && PyEq(Get(a, fields[i].key).value, Get(b, fields[i].key).value))
      case _ => a == b
  }

  /** isinstance tests on the runtime types; bool is not accepted as a number. */
  predicate TypeMatches(j: Json, expected: string) {
    match expected
    case "null" => j.Null?
    case "integer" => j.Int?
    case "number" => j.Int? || j.Float?
    case "object" => j.Object?
    case "array" => j.Array?
    case "string" => j.String?
    case "boolean" => j.Bool?
    case _ => false
  }

  // ------------------------------------------------------------ the walker

  datatype Place = Member(key: string) | Element(index: nat)

  type Path = seq<Place>

  datatype Reason =
    | WrongConst
    | NotInEnum
    | WrongType
    | MissingRequired(key: string)
    | UnexpectedProperty(key: string)

  datatype Error = Error(path: Path, reason: Reason)

  /** A finished walk with its errors in order, or the KeyError of an unresolvable $ref. */
  datatype Walk = Errors(errors: seq<Error>) | Raised(name: string)

  function Then(a: Walk, b: Walk): Walk {
    if a.Raised? then a
    else if b.Raised? then b
    else Errors(a.errors + b.errors)
  }

  /** The text after the last slash. */
  function LastSegment(ref: string): string {
    if ref == "" then ""
    else if ref[|ref| - 1] == '/' then ""
    else LastSegment(ref[..|ref| - 1]) + [ref[|ref| - 1]]
  }

  /** One hop: a $ref inside the target is not followed. */
  function Target(node: Schema, defs: Defs): Option<Schema> {
    if node.ref.None? then Some(node)
    else
      var name := LastSegment(node.ref.value);
      if name in defs then Some(defs[name]) else None
  }

  function MissingErrors(j: Json, required: seq<string>, path: Path): (es: seq<Error>)
    requires j.Object?
    ensures es == [] <==> forall i :: 0 <= i < |required| ==> Has(j, required[i])
  {
    if required == [] then []
    else
      (if Has(j, required[0]) then [] else [Error(path, MissingRequired(required[0]))])
      + MissingErrors(j, required[1..], path)
  }

  predicate Declared(properties: seq<Property>, key: string) {
    exists i :: 0 <= i < |properties| && properties[i].name == key
  }

  function UnexpectedErrors(fields: seq<Field>, properties: seq<Property>, path: Path): (es: seq<Error>)
    ensures es == [] <==> forall i :: 0 <= i < |fields| ==> Declared(properties, fields[i].key)
  {
    if fields == [] then []
    else
      (if Declared(properties, fields[0].key) then [] else [Error(path, UnexpectedProperty(fields[0].key))])
      + UnexpectedErrors(fields[1..], properties, path)
  }

  function Violations(j: Json, node: Schema, defs: Defs, path: Path): Walk
    decreases j, 2, 0
  {
    var target := Target(node, defs);
    if target.None? then Raised(LastSegment(node.ref.value))
    else
      var n := target.value;
      if n.const_.Some? && !PyEq(j, n.const_.value) then Errors([Error(path, WrongConst)])
      else if n.enum_.Some? && !(exists i :: 0 <= i < |n.enum_.value| && PyEq(j, n.enum_.value[i])) then
        Errors([Error(path, NotInEnum)])
      else if n.types.Some? && !(exists i :: 0 <= i < |n.types.value| && TypeMatches(j, n.types.value[i])) then
        Errors([Error(path, WrongType)])
      else if j.Object? && n.properties.Members? then
        Then(
          Errors(
            MissingErrors(j, n.required, path)
            + if n.closed then UnexpectedErrors(j.fields, n.properties.list, path) else []),
          PropertyViolations(j, n.properties.list, defs, path))
      else if j.Array? && n.items.Some? then ElementViolations(j, 0, n.items.value, defs, path)
      else Errors([])
  }

  function PropertyViolations(j: Json, properties: seq<Property>, defs: Defs, path: Path): Walk
    requires j.Object?
    decreases j, 1, |properties|
  {
    if properties == [] then Errors([])
    else
      var p := properties[0];
      var value := Get(j, p.name);
      Then(
        if value.Some? then Violations(value.value, p.schema, defs, path + [Member(p.name)]) else Errors([]),
        PropertyViolations(j, properties[1..], defs, path))
  }

  function ElementViolations(j: Json, i: nat, schema: Schema, defs: Defs, path: Path): Walk
    requires j.Array? && i <= |j.items|
    decreases j, 1, |j.items| - i
  {
    if i == |j.items| then Errors([])
    else
      Then(
        Violations(j.items[i], schema, defs, path + [Element(i)]),
        ElementViolations(j, i + 1, schema, defs, path))
  }

  // ------------------------------------------------------------ declarative meaning

  /** What the subset means as coded, with no order of evaluation. */
  ghost predicate Conforms(j: Json, node: Schema, defs: Defs)
    decreases j, 1
  {
    Target(node, defs).Some? && Meets(j, Target(node, defs).value, defs)
  }

  ghost predicate Meets(j: Json, n: Schema, defs: Defs)
    decreases j, 0, 1
  {
    && (n.const_.Some? ==> PyEq(j, n.const_.value))
    && (n.enum_.Some? ==> exists i :: 0 <= i < |n.enum_.value| && PyEq(j, n.enum_.value[i]))
    && (n.types.Some? ==> exists i :: 0 <= i < |n.types.value| && TypeMatches(j, n.types.value[i]))
    && (j.Object? && n.properties.Members? ==>
          && (forall i :: 0 <= i < |n.required| ==> Has(j, n.required[i]))
          && (n.closed ==> forall i :: 0 <= i < |j.fields| ==> Declared(n.properties.list, j.fields[i].key))
          && MembersConform(j, n.properties.list, defs))
    && (j.Array? && n.items.Some? ==>
          forall i :: 0 <= i < |j.items| ==> Conforms(j.items[i], n.items.value, defs))
  }

  ghost predicate MembersConform(j: Json, ps: seq<Property>, defs: Defs)
    requires j.Object?
    decreases j, 0, 0
  {
    forall i :: 0 <= i < |ps| && Has(j, ps[i].name) ==> Conforms(Get(j, ps[i].name).value, ps[i].schema, defs)
  }

  /** No errors exactly when the document conforms; an unresolvable $ref is never silent. */
  lemma {:induction false} NoErrorsIffConforms(j: Json, node: Schema, defs: Defs, path: Path)
    ensures Violations(j, node, defs, path) == Errors([]) <==> Conforms(j, node, defs)
    decreases j, 2, 0
  {
    hide PyEq, TypeMatches, LastSegment, Has, Get, Declared, MissingErrors, UnexpectedErrors;
    hide PropertyViolations, ElementViolations, MembersConform;
    if Target(node, defs).Some? {
      var n := Target(node, defs).value;
      if j.Object? && n.properties.Members? {
        PropertiesConform(j, n.properties.list, defs, path);
      } else if j.Array? && n.items.Some? {
        ElementsConform(j, 0, n.items.value, defs, path);
      }
    }
  }

  lemma {:induction false} PropertiesConform(j: Json, properties: seq<Property>, defs: Defs, path: Path)
    requires j.Object?
    ensures PropertyViolations(j, properties, defs, path) == Errors([]) <==> MembersConform(j, properties, defs)
    decreases j, 1, |properties|
  {
    if properties != [] {
      var p := properties[0];
      PropertiesConform(j, properties[1..], defs, path);
      if Has(j, p.name) {
        NoErrorsIffConforms(Get(j, p.name).value, p.schema, defs, path + [Member(p.name)]);
      }
      assert properties == [p] + properties[1..];
      assert MembersConform(j, properties, defs) <==>
        (Has(j, p.name) ==> Conforms(Get(j, p.name).value, p.schema, defs)) && MembersConform(j, properties[1..], defs);
    }
  }

  lemma {:induction false} ElementsConform(j: Json, i: nat, schema: Schema, defs: Defs, path: Path)
    requires j.Array? && i <= |j.items|
    ensures ElementViolations(j, i, schema, defs, path) == Errors([]) <==>
      forall k :: i <= k < |j.items| ==> Conforms(j.items[k], schema, defs)
    decreases j, 1, |j.items| - i
  {
    if i < |j.items| {
      ElementsConform(j, i + 1, schema, defs, path);
      NoErrorsIffConforms(j.items[i], schema, defs, path + [Element(i)]);
    }
  }

  /** What each type name accepts: a node with nothing but one type passes exactly the documents of
      that runtime type, and with any other name none. */
  lemma {:induction false} TypeNames(j: Json, name: string, defs: Defs, path: Path)
    ensures
      var node := EMPTY_SCHEMA.(types := Some([name]));
      var accepted :=
        || (name == "null" && j.Null?)
        || (name == "integer" && j.Int?)
        || (name == "number" && (j.Int? || j.Float?))
        || (name == "object" && j.Object?)
        || (name == "array" && j.Array?)
        || (name == "string" && j.String?)
        || (name == "boolean" && j.Bool?);
      && (Conforms(j, node, defs) <==> accepted)
      && Violations(j, node, defs, path) == Errors(if accepted then [] else [Error(path, WrongType)])
  {
    var node := EMPTY_SCHEMA.(types := Some([name]));
    assert node.types.value[0] == name;
    NoErrorsIffConforms(j, node, defs, path);
  }

  /** What `required` and a closed property list ask of an object: that the keys named are there, and
      that no other is. */
  lemma {:induction false} ExactKeys(j: Json, key: string, defs: Defs)
    ensures
      var one := Members([Property(key, EMPTY_SCHEMA)]);
      var closed := EMPTY_SCHEMA.(properties := one, closed := true);
      var required := EMPTY_SCHEMA.(properties := one, required := [key]);
      && (Conforms(j, closed, defs) <==> (j.Object? ==> forall i :: 0 <= i < |j.fields| ==> j.fields[i].key == key))
      && (Conforms(j, required, defs) <==>
            (j.Object? ==> exists i :: 0 <= i < |j.fields| && j.fields[i].key == key))
  {
    if j.Object? {
      var ps := [Property(key, EMPTY_SCHEMA)];
      var closed := EMPTY_SCHEMA.(properties := Members(ps), closed := true);
      var required := EMPTY_SCHEMA.(properties := Members(ps), required := [key]);
      AnyMember(j, ps, defs);
      forall k: string ensures Declared(ps, k) <==> k == key {
        assert ps[0].name == key;
      }
      assert required.required[0] == key;
      hide Declared, MembersConform, Get;
      assert Meets(j, closed, defs) <==> forall i :: 0 <= i < |j.fields| ==> j.fields[i].key == key;
      assert Meets(j, required, defs) <==> Has(j, key);
    }
  }

  lemma {:induction false} AnyMember(j: Json, ps: seq<Property>, defs: Defs)
    requires j.Object? && forall i :: 0 <= i < |ps| ==> ps[i].schema == EMPTY_SCHEMA
    ensures MembersConform(j, ps, defs)
  {
    forall i | 0 <= i < |ps| && Has(j, ps[i].name) ensures Conforms(Get(j, ps[i].name).value, ps[i].schema, defs) {
    }
  }

  /** What a reference names: the definition called by the text after the last slash. */
  lemma {:induction false} ReferenceNames(base: string, name: string, node: Schema, defs: Defs)
    requires '/' !in name && node.ref == Some(base + "/" + name)
    ensures LastSegment(node.ref.value) == name
    ensures Target(node, defs) == if name in defs then Some(defs[name]) else None
  {
    SegmentAfterSlash(base, name);
  }

  lemma {:induction false} SegmentAfterSlash(base: string, name: string)
    requires '/' !in name
    ensures LastSegment(base + "/" + name) == name
  {
    var ref := base + "/" + name;
    if name == "" {
      assert ref[|ref| - 1] == '/';
    } else {
      var n := |name| - 1;
      assert ref[..|ref| - 1] == base + "/" + name[..n];
      assert name[..n] + [name[n]] == name;
      assert name[n] in name && forall c :: c in name[..n] ==> c in name;
      SegmentAfterSlash(base, name[..n]);
    }
  }

  /** A parsed object reads back each of its members under its own key. */
  lemma {:induction false} MemberIsRead(j: Json, i: nat, from: nat)
    requires j.Object? && from <= i < |j.fields|
    requires forall a, b :: 0 <= a < b < |j.fields| ==> j.fields[a].key != j.fields[b].key
    ensures GetFrom(j, j.fields[i].key, from) == Some(j.fields[i].value)
    decreases i - from
  {
    if from < i {
      MemberIsRead(j, i, from + 1);
    }
  }

  predicate ConstPasses(j: Json, n: Schema) {
    n.const_.Some? ==> PyEq(j, n.const_.value)
  }

  predicate EnumPasses(j: Json, n: Schema) {
    n.enum_.Some? ==> exists i :: 0 <= i < |n.enum_.value| && PyEq(j, n.enum_.value[i])
  }

  predicate TypePasses(j: Json, n: Schema) {
    n.types.Some? ==> exists i :: 0 <= i < |n.types.value| && TypeMatches(j, n.types.value[i])
  }

  /** A place that breaks its constant, enumeration or type is reported once, for the first of the
      three that it breaks, and is not descended into. */
  lemma {:induction false} OneErrorPerMismatch(j: Json, node: Schema, defs: Defs, path: Path)
    requires Target(node, defs).Some?
    ensures
      var n, walk := Target(node, defs).value, Violations(j, node, defs, path);
      && (!ConstPasses(j, n) ==> walk == Errors([Error(path, WrongConst)]))
      && (ConstPasses(j, n) && !EnumPasses(j, n) ==> walk == Errors([Error(path, NotInEnum)]))
      && (ConstPasses(j, n) && EnumPasses(j, n) && !TypePasses(j, n) ==> walk == Errors([Error(path, WrongType)]))
  {
    hide PyEq, TypeMatches;
  }

  /** Every error of the second walk is one of the first. */
  ghost predicate Includes(all: Walk, part: Walk) {
    all.Errors? && part.Errors? && forall e :: e in part.errors ==> e in all.errors
  }

  lemma {:induction false} ThenIncludes(a: Walk, b: Walk)
    requires Then(a, b).Errors?
    ensures Includes(Then(a, b), a) && Includes(Then(a, b), b)
  {
  }

  lemma {:induction false} MissingReported(j: Json, required: seq<string>, path: Path, i: nat)
    requires j.Object? && i < |required| && !Has(j, required[i])
    ensures Error(path, MissingRequired(required[i])) in MissingErrors(j, required, path)
  {
    hide Has;
    if i > 0 {
      MissingReported(j, required[1..], path, i - 1);
    }
  }

  lemma {:induction false} UnexpectedReported(fields: seq<Field>, properties: seq<Property>, path: Path, i: nat)
    requires i < |fields| && !Declared(properties, fields[i].key)
    ensures Error(path, UnexpectedProperty(fields[i].key)) in UnexpectedErrors(fields, properties, path)
  {
    hide Declared;
    if i > 0 {
      UnexpectedReported(fields[1..], properties, path, i - 1);
    }
  }

  lemma {:induction false} PropertyReported(j: Json, properties: seq<Property>, defs: Defs, path: Path, i: nat)
    requires j.Object? && i < |properties| && Has(j, properties[i].name)
    requires PropertyViolations(j, properties, defs, path).Errors?
    ensures
      var p := properties[i];
      Includes(
        PropertyViolations(j, properties, defs, path),
        Violations(Get(j, p.name).value, p.schema, defs, path + [Member(p.name)]))
  {
    hide Violations, Get, Then;
    var p, rest := properties[0], PropertyViolations(j, properties[1..], defs, path);
    var first :=
      if Has(j, p.name) then Violations(Get(j, p.name).value, p.schema, defs, path + [Member(p.name)]) else Errors([]);
    ThenIncludes(first, rest);
    if i > 0 {
      PropertyReported(j, properties[1..], defs, path, i - 1);
    }
  }

  lemma {:induction false} ElementReported(j: Json, from: nat, schema: Schema, defs: Defs, path: Path, i: nat)
    requires j.Array? && from <= i < |j.items| && ElementViolations(j, from, schema, defs, path).Errors?
    ensures Includes(
      ElementViolations(j, from, schema, defs, path), Violations(j.items[i], schema, defs, path + [Element(i)]))
    decreases i - from
  {
    hide Violations, Then;
    ThenIncludes(
      Violations(j.items[from], schema, defs, path + [Element(from)]),
      ElementViolations(j, from + 1, schema, defs, path));
    if from < i {
      ElementReported(j, from + 1, schema, defs, path, i);
    }
  }

  /** Nothing is overlooked in a place that passes those three: every required key that is missing,
      every key of a closed object that is not declared, and every error of every declared member
      that is present and of every element is in the list. */
  lemma {:induction false} NothingIsOverlooked(j: Json, node: Schema, defs: Defs, path: Path, i: nat)
    requires Target(node, defs).Some? && Violations(j, node, defs, path).Errors?
    requires
      var n := Target(node, defs).value;
      ConstPasses(j, n) && EnumPasses(j, n) && TypePasses(j, n)
    ensures
      var n, walk := Target(node, defs).value, Violations(j, node, defs, path);
      && (j.Object? && n.properties.Members? ==>
            && (i < |n.required| && !Has(j, n.required[i]) ==>
                  Error(path, MissingRequired(n.required[i])) in walk.errors)
            && (n.closed && i < |j.fields| && !Declared(n.properties.list, j.fields[i].key) ==>
                  Error(path, UnexpectedProperty(j.fields[i].key)) in walk.errors)
            && (i < |n.properties.list| && Has(j, n.properties.list[i].name) ==>
                  var p := n.properties.list[i];
                  Includes(walk, Violations(Get(j, p.name).value, p.schema, defs, path + [Member(p.name)]))))
      && (j.Array? && n.items.Some? && i < |j.items| ==>
            Includes(walk, Violations(j.items[i], n.items.value, defs, path + [Element(i)])))
  {
    hide PyEq, TypeMatches, Has, Get, Declared, MissingErrors, UnexpectedErrors, PropertyViolations;
    hide ElementViolations, Then;
    var n := Target(node, defs).value;
    if j.Object? && n.properties.Members? {
      var own := MissingErrors(j, n.required, path)
        + if n.closed then UnexpectedErrors(j.fields, n.properties.list, path) else [];
      var members := PropertyViolations(j, n.properties.list, defs, path);
      assert Violations(j, node, defs, path) == Then(Errors(own), members);
      hide Violations;
      ThenIncludes(Errors(own), members);
      if i < |n.required| && !Has(j, n.required[i]) {
        MissingReported(j, n.required, path, i);
      }
      if n.closed && i < |j.fields| && !Declared(n.properties.list, j.fields[i].key) {
        UnexpectedReported(j.fields, n.properties.list, path, i);
      }
      if i < |n.properties.list| && Has(j, n.properties.list[i].name) {
        PropertyReported(j, n.properties.list, defs, path, i);
      }
    } else if j.Array? && n.items.Some? && i < |j.items| {
      assert Violations(j, node, defs, path) == ElementViolations(j, 0, n.items.value, defs, path);
      hide Violations;
      ElementReported(j, 0, n.items.value, defs, path, i);
    }
  }

  // ------------------------------------------------------------ unresolvable references

  /** Every $ref that a walk can reach from this node by descending names a definition. */
  ghost predicate RefsResolve(node: Schema, defs: Defs) {
    && Target(node, defs).Some?
    && (node.properties.Members? ==>
          forall i :: 0 <= i < |node.properties.list| ==> RefsResolve(node.properties.list[i].schema, defs))
    && (node.items.Some? ==> RefsResolve(node.items.value, defs))
  }

  ghost predicate DefsResolve(defs: Defs) {
    forall name :: name in defs ==> RefsResolve(defs[name], defs)
  }

  /** When every $ref resolves, cyclic definitions included, the walk finishes on every document:
      each recursive call descends into the document. */
  lemma {:induction false} NeverRaises(j: Json, node: Schema, defs: Defs, path: Path)
    requires RefsResolve(node, defs) && DefsResolve(defs)
    ensures Violations(j, node, defs, path).Errors?
    decreases j, 2, 0
  {
    var n := Target(node, defs).value;
    assert RefsResolve(n, defs);
    if j.Object? && n.properties.Members? {
      PropertiesNeverRaise(j, n.properties.list, defs, path);
    } else if j.Array? && n.items.Some? {
      ElementsNeverRaise(j, 0, n.items.value, defs, path);
    }
  }

  lemma {:induction false} PropertiesNeverRaise(j: Json, properties: seq<Property>, defs: Defs, path: Path)
    requires j.Object? && DefsResolve(defs)
    requires forall i :: 0 <= i < |properties| ==> RefsResolve(properties[i].schema, defs)
    ensures PropertyViolations(j, properties, defs, path).Errors?
    decreases j, 1, |properties|
  {
    if properties != [] {
      if Has(j, properties[0].name) {
        NeverRaises(Get(j, properties[0].name).value, properties[0].schema, defs, path + [Member(properties[0].name)]);
      }
      PropertiesNeverRaise(j, properties[1..], defs, path);
    }
  }

  lemma {:induction false} ElementsNeverRaise(j: Json, i: nat, schema: Schema, defs: Defs, path: Path)
    requires j.Array? && i <= |j.items| && DefsResolve(defs) && RefsResolve(schema, defs)
    ensures ElementViolations(j, i, schema, defs, path).Errors?
    decreases j, 1, |j.items| - i
  {
    if i < |j.items| {
      NeverRaises(j.items[i], schema, defs, path + [Element(i)]);
      ElementsNeverRaise(j, i + 1, schema, defs, path);
    }
  }

  // ------------------------------------------------------------ where the errors point

  /** The value found by following `path` from position `d` on. */
  function At(j: Json, path: Path, d: nat): Option<Json>
    requires d <= |path|
    decreases |path| - d
  {
    if d == |path| then Some(j)
    else
      match path[d]
      case Member(key) => if j.Object? && Has(j, key) then At(Get(j, key).value, path, d + 1) else None
      case Element(i) => if j.Array? && i < |j.items| then At(j.items[i], path, d + 1) else None
  }

  /** The same path through the schema, references followed, ends at this node. */
  ghost predicate Governs(node: Schema, defs: Defs, path: Path, d: nat, n: Schema)
    requires d <= |path|
    decreases |path| - d
  {
    && Target(node, defs).Some?
    && var t := Target(node, defs).value;
       if d == |path| then n == t
       else
         match path[d]
         case Member(key) =>
           && t.properties.Members?
           && exists i :: 0 <= i < |t.properties.list| && t.properties.list[i].name == key
                && Governs(t.properties.list[i].schema, defs, path, d + 1, n)
         case Element(_) => t.items.Some? && Governs(t.items.value, defs, path, d + 1, n)
  }

  /** What each reason says of a value and of the schema node that governs it. */
  ghost predicate Justified(place: Json, n: Schema, reason: Reason) {
    match reason
    case WrongConst => n.const_.Some? && !PyEq(place, n.const_.value)
    case NotInEnum => n.enum_.Some? && forall i :: 0 <= i < |n.enum_.value| ==> !PyEq(place, n.enum_.value[i])
    case WrongType => n.types.Some? && forall i :: 0 <= i < |n.types.value| ==> !TypeMatches(place, n.types.value[i])
    case MissingRequired(key) =>
      place.Object? && n.properties.Members? && key in n.required && !Has(place, key)
    case UnexpectedProperty(key) =>
      place.Object? && n.properties.Members? && n.closed && Has(place, key) && !Declared(n.properties.list, key)
  }

  /** The error's path leads to a place in the document and to a schema node that the place breaks
      in the way the reason says. */
  ghost predicate Located(j: Json, node: Schema, defs: Defs, e: Error, path: Path) {
    && path <= e.path
    && At(j, e.path, |path|).Some?
    && exists n :: Governs(node, defs, e.path, |path|, n) && Justified(At(j, e.path, |path|).value, n, e.reason)
  }

  ghost predicate AllLocated(j: Json, node: Schema, defs: Defs, errors: seq<Error>, path: Path) {
    forall i :: 0 <= i < |errors| ==> Located(j, node, defs, errors[i], path)
  }

  lemma {:induction false} OwnLocated(j: Json, node: Schema, defs: Defs, reason: Reason, path: Path)
    requires Target(node, defs).Some? && Justified(j, Target(node, defs).value, reason)
    ensures AllLocated(j, node, defs, [Error(path, reason)], path)
  {
    assert Governs(node, defs, path, |path|, Target(node, defs).value);
  }

  lemma {:induction false} ConcatLocated(
      j: Json, node: Schema, defs: Defs, a: seq<Error>, b: seq<Error>, path: Path)
    requires AllLocated(j, node, defs, a, path) && AllLocated(j, node, defs, b, path)
    ensures AllLocated(j, node, defs, a + b, path)
  {
    hide Located;
  }

  lemma {:induction false} MissingLocated(j: Json, node: Schema, defs: Defs, required: seq<string>, path: Path)
    requires j.Object? && Target(node, defs).Some? && Target(node, defs).value.properties.Members?
    requires forall i :: 0 <= i < |required| ==> required[i] in Target(node, defs).value.required
    ensures AllLocated(j, node, defs, MissingErrors(j, required, path), path)
  {
    if required != [] {
      MissingLocated(j, node, defs, required[1..], path);
      if !Has(j, required[0]) {
        OwnLocated(j, node, defs, MissingRequired(required[0]), path);
        hide AllLocated;
        ConcatLocated(j, node, defs, [Error(path, MissingRequired(required[0]))],
          MissingErrors(j, required[1..], path), path);
      } else {
        assert MissingErrors(j, required, path) == MissingErrors(j, required[1..], path);
      }
    }
  }

  lemma {:induction false} UnexpectedLocated(j: Json, node: Schema, defs: Defs, fields: seq<Field>, path: Path)
    requires j.Object? && Target(node, defs).Some?
    requires Target(node, defs).value.properties.Members? && Target(node, defs).value.closed
    requires forall i :: 0 <= i < |fields| ==> Has(j, fields[i].key)
    ensures AllLocated(
      j, node, defs, UnexpectedErrors(fields, Target(node, defs).value.properties.list, path), path)
  {
    var list := Target(node, defs).value.properties.list;
    if fields != [] {
      UnexpectedLocated(j, node, defs, fields[1..], path);
      if !Declared(list, fields[0].key) {
        OwnLocated(j, node, defs, UnexpectedProperty(fields[0].key), path);
        hide AllLocated;
        ConcatLocated(j, node, defs, [Error(path, UnexpectedProperty(fields[0].key))],
          UnexpectedErrors(fields[1..], list, path), path);
      } else {
        assert UnexpectedErrors(fields, list, path) == UnexpectedErrors(fields[1..], list, path);
      }
    }
  }

  /** `child` is the part of the document, and `sub` the part of the schema, one step down. */
  ghost predicate OneDown(j: Json, node: Schema, defs: Defs, place: Place, child: Json, sub: Schema) {
    && Target(node, defs).Some?
    && var t := Target(node, defs).value;
       match place
       case Member(key) =>
         && j.Object? && Has(j, key) && child == Get(j, key).value
         && t.properties.Members? && Property(key, sub) in t.properties.list
       case Element(i) =>
         j.Array? && i < |j.items| && child == j.items[i] && t.items == Some(sub)
  }

  lemma {:induction false} ChildError(
      j: Json, node: Schema, defs: Defs, place: Place, child: Json, sub: Schema, e: Error, path: Path)
    requires OneDown(j, node, defs, place, child, sub) && Located(child, sub, defs, e, path + [place])
    ensures Located(j, node, defs, e, path)
  {
    assert e.path[|path|] == (path + [place])[|path|] == place;
    var at := At(child, e.path, |path| + 1).value;
    var n :| Governs(sub, defs, e.path, |path| + 1, n) && Justified(at, n, e.reason);
    hide Justified;
    if place.Member? {
      var t := Target(node, defs).value;
      var i :| 0 <= i < |t.properties.list| && t.properties.list[i] == Property(place.key, sub);
      assert Governs(t.properties.list[i].schema, defs, e.path, |path| + 1, n);
    }
    assert Governs(node, defs, e.path, |path|, n);
  }

  /** An error located below a child is located below the parent, one step longer. */
  lemma {:induction false} ChildLocated(
      j: Json, node: Schema, defs: Defs, place: Place, child: Json, sub: Schema, errors: seq<Error>, path: Path)
    requires OneDown(j, node, defs, place, child, sub)
    requires AllLocated(child, sub, defs, errors, path + [place])
    ensures AllLocated(j, node, defs, errors, path)
  {
    hide Located, OneDown;
    forall i | 0 <= i < |errors| ensures Located(j, node, defs, errors[i], path) {
      ChildError(j, node, defs, place, child, sub, errors[i], path);
    }
  }

  /** Every error of a finished walk is real: its path leads to a place in the document and to the
      schema node governing it, and the place breaks that node in the way the reason says. */
  lemma {:induction false} ErrorsAreReal(j: Json, node: Schema, defs: Defs, path: Path)
    requires Violations(j, node, defs, path).Errors?
    ensures AllLocated(j, node, defs, Violations(j, node, defs, path).errors, path)
    decreases j, 2, 0
  {
    hide AllLocated, PyEq, TypeMatches, PropertyViolations, ElementViolations, MissingErrors, UnexpectedErrors, Has;
    var n := Target(node, defs).value;
    NothingLocated(j, node, defs, path);
    if n.const_.Some? && !PyEq(j, n.const_.value) {
      OwnLocated(j, node, defs, WrongConst, path);
    } else if n.enum_.Some? && !(exists i :: 0 <= i < |n.enum_.value| && PyEq(j, n.enum_.value[i])) {
      OwnLocated(j, node, defs, NotInEnum, path);
    } else if n.types.Some? && !(exists i :: 0 <= i < |n.types.value| && TypeMatches(j, n.types.value[i])) {
      OwnLocated(j, node, defs, WrongType, path);
    } else if j.Object? && n.properties.Members? {
      var missing := MissingErrors(j, n.required, path);
      var unexpected := if n.closed then UnexpectedErrors(j.fields, n.properties.list, path) else [];
      MissingLocated(j, node, defs, n.required, path);
      if n.closed {
        FieldsPresent(j);
        UnexpectedLocated(j, node, defs, j.fields, path);
      }
      ConcatLocated(j, node, defs, missing, unexpected, path);
      PropertiesLocated(j, node, n.properties.list, defs, path);
      ConcatLocated(
        j, node, defs, missing + unexpected, PropertyViolations(j, n.properties.list, defs, path).errors, path);
    } else if j.Array? && n.items.Some? {
      ElementsLocated(j, node, 0, n.items.value, defs, path);
    }
  }

  lemma {:induction false} NothingLocated(j: Json, node: Schema, defs: Defs, path: Path)
    ensures AllLocated(j, node, defs, [], path)
  {
  }

  lemma {:induction false} FieldsPresent(j: Json)
    requires j.Object?
    ensures forall i :: 0 <= i < |j.fields| ==> Has(j, j.fields[i].key)
  {
  }

  lemma {:induction false} PropertiesLocated(
      j: Json, node: Schema, properties: seq<Property>, defs: Defs, path: Path)
    requires j.Object? && Target(node, defs).Some? && Target(node, defs).value.properties.Members?
    requires forall i :: 0 <= i < |properties| ==> properties[i] in Target(node, defs).value.properties.list
    requires PropertyViolations(j, properties, defs, path).Errors?
    ensures AllLocated(j, node, defs, PropertyViolations(j, properties, defs, path).errors, path)
    decreases j, 1, |properties|
  {
    hide AllLocated, Violations, Get;
    NothingLocated(j, node, defs, path);
    if properties != [] {
      var p, rest := properties[0], PropertyViolations(j, properties[1..], defs, path);
      PropertiesLocated(j, node, properties[1..], defs, path);
      var own: seq<Error> := [];
      if Has(j, p.name) {
        var child := Get(j, p.name).value;
        own := Violations(child, p.schema, defs, path + [Member(p.name)]).errors;
        ErrorsAreReal(child, p.schema, defs, path + [Member(p.name)]);
        assert p == Property(p.name, p.schema);
        ChildLocated(j, node, defs, Member(p.name), child, p.schema, own, path);
      }
      ConcatLocated(j, node, defs, own, rest.errors, path);
    }
  }

  lemma {:induction false} ElementsLocated(
      j: Json, node: Schema, i: nat, schema: Schema, defs: Defs, path: Path)
    requires j.Array? && i <= |j.items| && Target(node, defs).Some? && Target(node, defs).value.items == Some(schema)
    requires ElementViolations(j, i, schema, defs, path).Errors?
    ensures AllLocated(j, node, defs, ElementViolations(j, i, schema, defs, path).errors, path)
    decreases j, 1, |j.items| - i
  {
    hide AllLocated, Violations;
    NothingLocated(j, node, defs, path);
    if i < |j.items| {
      ElementsLocated(j, node, i + 1, schema, defs, path);
      var own := Violations(j.items[i], schema, defs, path + [Element(i)]).errors;
      ErrorsAreReal(j.items[i], schema, defs, path + [Element(i)]);
      ChildLocated(j, node, defs, Element(i), j.items[i], schema, own, path);
      ConcatLocated(j, node, defs, own, ElementViolations(j, i + 1, schema, defs, path).errors, path);
    }
  }

  // ------------------------------------------------------------ the standard's own semantics

  /** Instance equality of JSON Schema 2020-12 (Core, section 4.2.2): numbers by value, and a
      boolean is never a number. */
  predicate JsonEq(a: Json, b: Json)
    decreases a
  {
    if a.Bool? || b.Bool? then a == b
    else if Number(a).Some? || Number(b).Some? then Number(a) == Number(b)
    else
      match a
      case Array(xs) =>
        b.Array? && |xs| == |b.items| && forall i :: 0 <= i < |xs| ==> JsonEq(xs[i], b.items[i])
      case Object(fields) =>
        && b.Object?
        && (forall i :: 0 <= i < |b.fields| ==> Has(a, b.fields[i].key))
        && (forall i :: 0 <= i < |fields| ==>
              && Has(b, fields[i].key)
              && JsonEq(Get(a, fields[i].key).value, Get(b, fields[i].key).value))
      case _ => a == b
  }

  /** Validation, section 6.1.1, and Core, section 4.2.1: the one name of each type of value, but
      for numbers, of which those with a zero fraction are integers too. */
  predicate HasType(j: Json, expected: string) {
    match j
    case Null => expected == "null"
    case Bool(_) => expected == "boolean"
    case Int(_) => expected == "integer" || expected == "number"
    case Float(r) => expected == "number" || (expected == "integer" && r.Floor as real == r)
    case String(_) => expected == "string"
    case Array(_) => expected == "array"
    case Object(_) => expected == "object"
  }

  /** The standard, for definitions that are not themselves references: a $ref and its siblings all
      apply (Core, section 8.2.3.1), `required` and `additionalProperties` stand on their own
      (Validation, section 6.5.3; Core, section 10.3.2.3). */
  ghost predicate Valid(j: Json, node: Schema, defs: Defs)
    decreases j, 1
  {
    && Keywords(j, node, defs)
    && (node.ref.Some? ==> Target(node, defs).Some? && Keywords(j, Target(node, defs).value, defs))
  }

  ghost predicate Keywords(j: Json, n: Schema, defs: Defs)
    decreases j, 0, 1
  {
    && (n.const_.Some? ==> JsonEq(j, n.const_.value))
    && (n.enum_.Some? ==> exists i :: 0 <= i < |n.enum_.value| && JsonEq(j, n.enum_.value[i]))
    && (n.types.Some? ==> exists i :: 0 <= i < |n.types.value| && HasType(j, n.types.value[i]))
    && (j.Object? ==>
          && (forall i :: 0 <= i < |n.required| ==> Has(j, n.required[i]))
          && (n.closed ==> forall i :: 0 <= i < |j.fields| ==>
                n.properties.Members? && Declared(n.properties.list, j.fields[i].key))
          && (n.properties.Members? ==> MembersValid(j, n.properties.list, defs)))
    && (j.Array? && n.items.Some? ==>
          forall i :: 0 <= i < |j.items| ==> Valid(j.items[i], n.items.value, defs))
  }

  ghost predicate MembersValid(j: Json, ps: seq<Property>, defs: Defs)
    requires j.Object?
    decreases j, 0, 0
  {
    forall i :: 0 <= i < |ps| && Has(j, ps[i].name) ==> Valid(Get(j, ps[i].name).value, ps[i].schema, defs)
  }

  const EMPTY_SCHEMA := Schema(None, None, None, None, NoMembers, [], false, None)

  /** Constants whose booleans and numbers cannot be mistaken for each other: no boolean, and no
      number equal to 0 or 1, at any depth. */
  predicate Unambiguous(c: Json)
    decreases c
  {
    match c
    case Bool(_) => false
    case Int(n) => n != 0 && n != 1
    case Float(r) => r != 0.0 && r != 1.0
    case Array(items) => forall i :: 0 <= i < |items| ==> Unambiguous(items[i])
    case Object(fields) => forall i :: 0 <= i < |fields| ==> Unambiguous(Get(c, fields[i].key).value)
    case _ => true
  }

  /** The shape the vendored schema has, and more: a $ref stands alone, constants and enumerations
      are unambiguous, `required` and a closed property list come with `properties`. */
  ghost predicate Plain(node: Schema) {
    && (node.ref.Some? ==> node == EMPTY_SCHEMA.(ref := node.ref))
    && (node.const_.Some? ==> Unambiguous(node.const_.value))
    && (node.enum_.Some? ==> forall i :: 0 <= i < |node.enum_.value| ==> Unambiguous(node.enum_.value[i]))
    && (node.properties.NoMembers? ==> node.required == [] && !node.closed)
    && (node.properties.Members? ==>
          forall i :: 0 <= i < |node.properties.list| ==> Plain(node.properties.list[i].schema))
    && (node.items.Some? ==> Plain(node.items.value))
  }

  ghost predicate PlainDefs(defs: Defs) {
    forall name :: name in defs ==> Plain(defs[name]) && defs[name].ref.None?
  }

  /** At no place the walk visits does a number written as a whole float meet a type list that
      names "integer" but not "number". */
  ghost predicate Written(j: Json, node: Schema, defs: Defs)
    decreases j, 1
  {
    Target(node, defs).Some? ==> WrittenFor(j, Target(node, defs).value, defs)
  }

  ghost predicate WrittenFor(j: Json, n: Schema, defs: Defs)
    decreases j, 0, 1
  {
    && (n.types.Some? && WholeFloat(j) && "integer" in n.types.value ==> "number" in n.types.value)
    && (j.Object? && n.properties.Members? ==> MembersWritten(j, n.properties.list, defs))
    && (j.Array? && n.items.Some? ==>
          forall i :: 0 <= i < |j.items| ==> Written(j.items[i], n.items.value, defs))
  }

  ghost predicate MembersWritten(j: Json, ps: seq<Property>, defs: Defs)
    requires j.Object?
    decreases j, 0, 0
  {
    forall i :: 0 <= i < |ps| && Has(j, ps[i].name) ==> Written(Get(j, ps[i].name).value, ps[i].schema, defs)
  }

  predicate WholeFloat(j: Json) {
    j.Float? && j.r.Floor as real == j.r
  }

  lemma {:induction false} PyReflexive(a: Json)
    ensures PyEq(a, a)
    decreases a
  {
    match a
    case Array(items) =>
      forall i | 0 <= i < |items| ensures PyEq(items[i], items[i]) {
        PyReflexive(items[i]);
      }
    case Object(fields) =>
      forall i | 0 <= i < |fields|
        ensures Has(a, fields[i].key) && PyEq(Get(a, fields[i].key).value, Get(a, fields[i].key).value)
      {
        PyReflexive(Get(a, fields[i].key).value);
      }
    case _ =>
  }

  lemma {:induction false} MemberUnambiguous(c: Json, key: string)
    requires c.Object? && Unambiguous(c) && Has(c, key)
    ensures Unambiguous(Get(c, key).value)
  {
    var i :| 0 <= i < |c.fields| && c.fields[i].key == key;
  }

  /** Against an unambiguous constant both equalities say the same of every value. */
  lemma {:induction false} UnambiguousAgrees(j: Json, c: Json)
    requires Unambiguous(c)
    ensures PyEq(j, c) <==> JsonEq(j, c)
    decreases j
  {
    if j.Array? && c.Array? && |j.items| == |c.items| {
      forall i | 0 <= i < |j.items| ensures PyEq(j.items[i], c.items[i]) <==> JsonEq(j.items[i], c.items[i]) {
        UnambiguousAgrees(j.items[i], c.items[i]);
      }
    } else if j.Object? && c.Object? {
      forall i | 0 <= i < |j.fields| && Has(c, j.fields[i].key)
        ensures Has(j, j.fields[i].key)
        ensures PyEq(Get(j, j.fields[i].key).value, Get(c, j.fields[i].key).value) <==>
          JsonEq(Get(j, j.fields[i].key).value, Get(c, j.fields[i].key).value)
      {
        MemberUnambiguous(c, j.fields[i].key);
        UnambiguousAgrees(Get(j, j.fields[i].key).value, Get(c, j.fields[i].key).value);
      }
    }
  }

  /** The first field with this key. */
  function FirstAt(c: Json, key: string, i: nat): (k: nat)
    requires c.Object? && i <= |c.fields| && GetFrom(c, key, i).Some?
    ensures i <= k < |c.fields| && c.fields[k].key == key
    ensures forall j :: i <= j < k ==> c.fields[j].key != key
    decreases |c.fields| - i
  {
    if c.fields[i].key == key then i else FirstAt(c, key, i + 1)
  }

  /** No object in the document, at any depth, repeats a key: what a parser delivers. */
  predicate DistinctKeys(j: Json) {
    match j
    case Array(items) => forall i :: 0 <= i < |items| ==> DistinctKeys(items[i])
    case Object(fields) =>
      && (forall i, k :: 0 <= i < k < |fields| ==> fields[i].key != fields[k].key)
      && (forall i :: 0 <= i < |fields| ==> DistinctKeys(fields[i].value))
    case _ => true
  }

  lemma {:induction false} MemberDistinct(c: Json, key: string, i: nat)
    requires c.Object? && DistinctKeys(c) && i <= |c.fields| && GetFrom(c, key, i).Some?
    ensures DistinctKeys(GetFrom(c, key, i).value)
    decreases |c.fields| - i
  {
    if c.fields[i].key != key {
      MemberDistinct(c, key, i + 1);
    }
  }

  lemma {:induction false} ReplacedDistinct(c: Json, at: nat, w: Json)
    requires c.Object? && DistinctKeys(c) && DistinctKeys(w) && at < |c.fields|
    ensures DistinctKeys(Object(c.fields[at := Field(c.fields[at].key, w)]))
  {
    var fields := c.fields[at := Field(c.fields[at].key, w)];
    assert forall i :: 0 <= i < |fields| ==> fields[i].key == c.fields[i].key;
    assert forall i :: 0 <= i < |fields| ==> DistinctKeys(fields[i].value);
  }

  /** Every other constant is matched by some value under the language's equality only. */
  lemma {:induction false} AmbiguousIsMistaken(c: Json) returns (j: Json)
    requires !Unambiguous(c)
    ensures PyEq(j, c) && !JsonEq(j, c)
    ensures DistinctKeys(c) ==> DistinctKeys(j)
    decreases c
  {
    hide PyEq, JsonEq;
    match c
    case Bool(b) => j := ScalarMistaken(c);
    case Int(n) => j := ScalarMistaken(c);
    case Float(r) => j := ScalarMistaken(c);
    case Array(items) =>
      var i :| 0 <= i < |items| && !Unambiguous(items[i]);
      var w := AmbiguousIsMistaken(items[i]);
      j := ItemMistaken(c, i, w);
    case Object(fields) =>
      var i :| 0 <= i < |fields| && !Unambiguous(Get(c, fields[i].key).value);
      var w := AmbiguousIsMistaken(Get(c, fields[i].key).value);
      j := MemberMistaken(c, fields[i].key, w);
      if DistinctKeys(c) {
        MemberDistinct(c, fields[i].key, 0);
      }
  }

  lemma {:induction false} ScalarMistaken(c: Json) returns (j: Json)
    requires Number(c).Some? && !Unambiguous(c)
    ensures PyEq(j, c) && !JsonEq(j, c) && DistinctKeys(j)
  {
    match c
    case Bool(b) => j := Int(if b then 1 else 0);
    case Int(n) => j := Bool(n == 1);
    case Float(r) => j := Bool(r == 1.0);
  }

  lemma {:induction false} ItemMistaken(c: Json, i: nat, w: Json) returns (j: Json)
    requires c.Array? && i < |c.items| && PyEq(w, c.items[i]) && !JsonEq(w, c.items[i])
    ensures PyEq(j, c) && !JsonEq(j, c)
    ensures DistinctKeys(c) && DistinctKeys(w) ==> DistinctKeys(j)
  {
    j := Array(c.items[i := w]);
    forall k | 0 <= k < |c.items| ensures PyEq(j.items[k], c.items[k]) {
      PyReflexive(c.items[k]);
    }
    assert !JsonEq(j.items[i], c.items[i]);
  }

  lemma {:induction false} MemberMistaken(c: Json, key: string, w: Json) returns (j: Json)
    requires c.Object? && Has(c, key) && PyEq(w, Get(c, key).value) && !JsonEq(w, Get(c, key).value)
    ensures PyEq(j, c) && !JsonEq(j, c)
    ensures DistinctKeys(c) && DistinctKeys(w) ==> DistinctKeys(j)
  {
    var at := FirstAt(c, key, 0);
    j := Object(c.fields[at := Field(key, w)]);
    if DistinctKeys(c) && DistinctKeys(w) {
      ReplacedDistinct(c, at, w);
    }
    hide DistinctKeys;
    forall k: string ensures Get(j, k) == if k == key then Some(w) else Get(c, k) {
      GetReplaced(c, at, w, k, 0);
    }
    forall k: string | Has(c, k) ensures PyEq(Get(j, k).value, Get(c, k).value) {
      PyReflexive(Get(c, k).value);
    }
    assert j.fields[at].key == key;
    assert forall i :: 0 <= i < |j.fields| ==> j.fields[i].key == c.fields[i].key;
  }

  /** Replacing the value of the first field with a key changes only what that key reads. */
  lemma {:induction false} GetReplaced(c: Json, at: nat, w: Json, key: string, i: nat)
    requires c.Object? && at < |c.fields| && i <= |c.fields|
    requires forall j :: 0 <= j < at ==> c.fields[j].key != c.fields[at].key
    ensures
      var replaced := Object(c.fields[at := Field(c.fields[at].key, w)]);
      GetFrom(replaced, key, i) ==
        if key == c.fields[at].key && i <= at then Some(w) else GetFrom(c, key, i)
    decreases |c.fields| - i
  {
    if i < |c.fields| && c.fields[i].key != key {
      GetReplaced(c, at, w, key, i + 1);
    }
  }

  /** Exactly which constants the walker compares as the standard does: those holding no boolean
      and no number equal to 0 or 1.  A parsed constant that holds one is mistaken for a value that
      a parser can deliver too. */
  lemma {:induction false} ConstantsAgreeIff(c: Json)
    ensures (forall j :: PyEq(j, c) <==> JsonEq(j, c)) <==> Unambiguous(c)
    ensures DistinctKeys(c) ==>
      ((forall j :: DistinctKeys(j) ==> (PyEq(j, c) <==> JsonEq(j, c))) <==> Unambiguous(c))
  {
    if Unambiguous(c) {
      forall j ensures PyEq(j, c) <==> JsonEq(j, c) {
        UnambiguousAgrees(j, c);
      }
    } else {
      var j := AmbiguousIsMistaken(c);
    }
  }

  lemma {:induction false} ConstantKeywords(j: Json, n: Schema)
    requires Plain(n)
    ensures n.const_.Some? ==> (PyEq(j, n.const_.value) <==> JsonEq(j, n.const_.value))
    ensures n.enum_.Some? ==>
      ((exists i :: 0 <= i < |n.enum_.value| && PyEq(j, n.enum_.value[i])) <==>
       (exists i :: 0 <= i < |n.enum_.value| && JsonEq(j, n.enum_.value[i])))
  {
    if n.const_.Some? {
      UnambiguousAgrees(j, n.const_.value);
    }
    if n.enum_.Some? {
      forall i | 0 <= i < |n.enum_.value|
        ensures PyEq(j, n.enum_.value[i]) <==> JsonEq(j, n.enum_.value[i])
      {
        UnambiguousAgrees(j, n.enum_.value[i]);
      }
    }
  }

  lemma {:induction false} TypeKeyword(j: Json, types: seq<string>)
    ensures (exists i :: 0 <= i < |types| && TypeMatches(j, types[i])) <==>
      && (exists i :: 0 <= i < |types| && HasType(j, types[i]))
      && (WholeFloat(j) && "integer" in types ==> "number" in types)
  {
    if i :| 0 <= i < |types| && TypeMatches(j, types[i]) {
      assert HasType(j, types[i]);
      assert WholeFloat(j) ==> types[i] == "number";
    }
    if WholeFloat(j) && "number" in types {
      var i :| 0 <= i < |types| && types[i] == "number";
      assert TypeMatches(j, types[i]);
    }
    if i :| 0 <= i < |types| && HasType(j, types[i]) {
      assert WholeFloat(j) || TypeMatches(j, types[i]);
      assert types[i] == "integer" || TypeMatches(j, types[i]);
    }
  }

  lemma {:induction false} MembersAgree(j: Json, ps: seq<Property>, defs: Defs)
    requires j.Object? && PlainDefs(defs) && forall i :: 0 <= i < |ps| ==> Plain(ps[i].schema)
    ensures MembersConform(j, ps, defs) <==> MembersValid(j, ps, defs) && MembersWritten(j, ps, defs)
    decreases j, 0, 0
  {
    hide Conforms, Valid, Written, Plain;
    forall i | 0 <= i < |ps| && Has(j, ps[i].name)
      ensures Conforms(Get(j, ps[i].name).value, ps[i].schema, defs) <==>
        && Valid(Get(j, ps[i].name).value, ps[i].schema, defs)
        && Written(Get(j, ps[i].name).value, ps[i].schema, defs)
    {
      AgreesWithStandard(Get(j, ps[i].name).value, ps[i].schema, defs);
    }
  }

  lemma {:induction false} ElementsAgree(j: Json, schema: Schema, defs: Defs)
    requires j.Array? && PlainDefs(defs) && Plain(schema)
    ensures (forall i :: 0 <= i < |j.items| ==> Conforms(j.items[i], schema, defs)) <==>
      && (forall i :: 0 <= i < |j.items| ==> Valid(j.items[i], schema, defs))
      && (forall i :: 0 <= i < |j.items| ==> Written(j.items[i], schema, defs))
    decreases j, 0, 0
  {
    hide Conforms, Valid, Written, Plain;
    forall i | 0 <= i < |j.items|
      ensures Conforms(j.items[i], schema, defs) <==>
        Valid(j.items[i], schema, defs) && Written(j.items[i], schema, defs)
    {
      AgreesWithStandard(j.items[i], schema, defs);
    }
  }

  lemma {:induction false} MeetsAgrees(j: Json, n: Schema, defs: Defs)
    requires Plain(n) && PlainDefs(defs)
    ensures Meets(j, n, defs) <==> Keywords(j, n, defs) && WrittenFor(j, n, defs)
    decreases j, 0, 1
  {
    hide PyEq, JsonEq, TypeMatches, HasType, WholeFloat, Conforms, Valid, Written, Get, Has, Declared, Target;
    hide MembersConform, MembersValid, MembersWritten, Unambiguous;
    ConstantKeywords(j, n);
    if n.types.Some? {
      TypeKeyword(j, n.types.value);
    }
    if j.Object? && n.properties.Members? {
      MembersAgree(j, n.properties.list, defs);
    } else if j.Array? && n.items.Some? {
      ElementsAgree(j, n.items.value, defs);
    }
  }

  lemma {:induction false} EmptySchemaAcceptsAll(j: Json, ref: Option<string>, defs: Defs)
    ensures Keywords(j, EMPTY_SCHEMA.(ref := ref), defs)
  {
  }

  /** Exactly when the walker and the standard agree on plain schemas: a document conforms to the
      walker if and only if it is valid and writes no integer as a float where only integers are
      allowed. */
  lemma {:induction false} AgreesWithStandard(j: Json, node: Schema, defs: Defs)
    requires Plain(node) && PlainDefs(defs)
    ensures Conforms(j, node, defs) <==> Valid(j, node, defs) && Written(j, node, defs)
    decreases j, 1
  {
    hide Meets, Keywords, WrittenFor, Plain;
    if node.ref.Some? {
      assert node == EMPTY_SCHEMA.(ref := node.ref) by {
        PlainReference(node);
      }
      EmptySchemaAcceptsAll(j, node.ref, defs);
    }
    if Target(node, defs).Some? {
      MeetsAgrees(j, Target(node, defs).value, defs);
    }
  }

  lemma {:induction false} PlainReference(node: Schema)
    requires Plain(node) && node.ref.Some?
    ensures node == EMPTY_SCHEMA.(ref := node.ref)
  {
  }

  /** Both limits are needed: 1.0 is an integer to the standard only, and true matches the constant
      1 for the walker only. */
  lemma {:induction false} WhereTheyDiffer()
    ensures
      var integer := EMPTY_SCHEMA.(types := Some(["integer"]));
      Valid(Float(1.0), integer, map[]) && !Conforms(Float(1.0), integer, map[])
    ensures
      var one := EMPTY_SCHEMA.(const_ := Some(Int(1)));
      !Valid(Bool(true), one, map[]) && Conforms(Bool(true), one, map[])
  {
    var types := ["integer"];
    assert HasType(Float(1.0), types[0]);
    assert !TypeMatches(Float(1.0), types[0]);
  }

  // ------------------------------------------------------------ the walker over a shared list

  class ErrorLog {
    var errors: seq<Error>

    constructor ()
      ensures errors == []
    {
      errors := [];
    }

    method Append(path: Path, reason: Reason)
      modifies this
      ensures errors == old(errors) + [Error(path, reason)]
    {
      errors := errors + [Error(path, reason)];
    }
  }

  /** What a (possibly aborted) walk leaves behind. */
  ghost predicate Logged(walk: Walk, before: seq<Error>, after: seq<Error>, raised: Option<string>) {
    match walk
    case Raised(name) => raised == Some(name)
    case Errors(es) => raised.None? && after == before + es
  }

  lemma {:induction false} ThenAppends(done: seq<Error>, step: Walk, rest: Walk)
    ensures step.Raised? ==> Then(Errors(done), Then(step, rest)) == step
    ensures step.Errors? ==> Then(Errors(done), Then(step, rest)) == Then(Errors(done + step.errors), rest)
    ensures Then(Errors(done), Errors([])) == Errors(done)
  {
    if step.Errors? && rest.Errors? {
      assert done + (step.errors + rest.errors) == done + step.errors + rest.errors;
    }
  }

  lemma {:induction false} MissingStep(j: Json, required: seq<string>, path: Path, i: nat)
    requires j.Object? && i < |required|
    ensures MissingErrors(j, required[i..], path) ==
      (if Has(j, required[i]) then [] else [Error(path, MissingRequired(required[i]))])
      + MissingErrors(j, required[i + 1..], path)
  {
    hide Has;
    assert required[i..][1..] == required[i + 1..];
  }

  method CheckRequired(j: Json, required: seq<string>, path: Path, log: ErrorLog)
    requires j.Object?
    modifies log
    ensures log.errors == old(log.errors) + MissingErrors(j, required, path)
  {
    hide MissingErrors, Has;
    for i := 0 to |required|
      invariant log.errors + MissingErrors(j, required[i..], path) ==
        old(log.errors) + MissingErrors(j, required, path)
    {
      MissingStep(j, required, path, i);
      if !Has(j, required[i]) {
        log.Append(path, MissingRequired(required[i]));
      }
    }
  }

  lemma {:induction false} UnexpectedStep(fields: seq<Field>, properties: seq<Property>, path: Path, i: nat)
    requires i < |fields|
    ensures UnexpectedErrors(fields[i..], properties, path) ==
      (if Declared(properties, fields[i].key) then [] else [Error(path, UnexpectedProperty(fields[i].key))])
      + UnexpectedErrors(fields[i + 1..], properties, path)
  {
    hide Declared;
    assert fields[i..][1..] == fields[i + 1..];
  }

  method CheckUnexpected(fields: seq<Field>, properties: seq<Property>, path: Path, log: ErrorLog)
    modifies log
    ensures log.errors == old(log.errors) + UnexpectedErrors(fields, properties, path)
  {
    hide UnexpectedErrors, Declared;
    for i := 0 to |fields|
      invariant log.errors + UnexpectedErrors(fields[i..], properties, path) ==
        old(log.errors) + UnexpectedErrors(fields, properties, path)
    {
      UnexpectedStep(fields, properties, path, i);
      if !Declared(properties, fields[i].key) {
        log.Append(path, UnexpectedProperty(fields[i].key));
      }
    }
  }

  method Validate(j: Json, node: Schema, defs: Defs, path: Path, log: ErrorLog) returns (raised: Option<string>)
    modifies log
    ensures Logged(Violations(j, node, defs, path), old(log.errors), log.errors, raised)
    decreases j, 2, 0
  {
    hide PyEq, TypeMatches, PropertyViolations, ElementViolations, MissingErrors, UnexpectedErrors, LastSegment;
    hide Get, Has, Declared, Number;
    var target := Target(node, defs);
    if target.None? {
      return Some(LastSegment(node.ref.value));
    }
    var n := target.value;
    if n.const_.Some? && !PyEq(j, n.const_.value) {
      log.Append(path, WrongConst);
      return None;
    }
    if n.enum_.Some? && !(exists i :: 0 <= i < |n.enum_.value| && PyEq(j, n.enum_.value[i])) {
      log.Append(path, NotInEnum);
      return None;
    }
    if n.types.Some? && !(exists i :: 0 <= i < |n.types.value| && TypeMatches(j, n.types.value[i])) {
      log.Append(path, WrongType);
      return None;
    }
    raised := None;
    if j.Object? && n.properties.Members? {
      CheckRequired(j, n.required, path, log);
      if n.closed {
        CheckUnexpected(j.fields, n.properties.list, path, log);
      }
      raised := ValidateProperties(j, n.properties.list, defs, path, log);
    }
    if j.Array? && n.items.Some? {
      raised := ValidateElements(j, n.items.value, defs, path, log);
    }
  }

  method ValidateProperties(j: Json, properties: seq<Property>, defs: Defs, path: Path, log: ErrorLog)
    returns (raised: Option<string>)
    requires j.Object?
    modifies log
    ensures Logged(PropertyViolations(j, properties, defs, path), old(log.errors), log.errors, raised)
    decreases j, 1, 0
  {
    hide Violations, Get, Then;
    ghost var done: seq<Error> := [];
    for i := 0 to |properties|
      invariant log.errors == old(log.errors) + done
      invariant Then(Errors(done), PropertyViolations(j, properties[i..], defs, path)) ==
        Then(Errors([]), PropertyViolations(j, properties, defs, path))
    {
      var p := properties[i];
      assert properties[i..][0] == p && properties[i..][1..] == properties[i + 1..];
      var value := Get(j, p.name);
      ghost var step :=
        if value.Some? then Violations(value.value, p.schema, defs, path + [Member(p.name)]) else Errors([]);
      ThenAppends(done, step, PropertyViolations(j, properties[i + 1..], defs, path));
      if value.Some? {
        raised := Validate(value.value, p.schema, defs, path + [Member(p.name)], log);
        if raised.Some? {
          OnlyRaised(PropertyViolations(j, properties, defs, path), step);
          return;
        }
      }
      done := done + step.errors;
    }
    ThenAppends(done, Errors([]), Errors([]));
    OnlyErrors(PropertyViolations(j, properties, defs, path), done);
    raised := None;
  }

  lemma {:induction false} OnlyRaised(all: Walk, step: Walk)
    requires step.Raised? && Then(Errors([]), all) == step
    ensures all == step
  {
  }

  lemma {:induction false} OnlyErrors(all: Walk, done: seq<Error>)
    requires Then(Errors([]), all) == Errors(done)
    ensures all == Errors(done)
  {
    if all.Errors? {
      assert [] + all.errors == all.errors;
    }
  }

  method ValidateElements(j: Json, schema: Schema, defs: Defs, path: Path, log: ErrorLog)
    returns (raised: Option<string>)
    requires j.Array?
    modifies log
    ensures Logged(ElementViolations(j, 0, schema, defs, path), old(log.errors), log.errors, raised)
    decreases j, 1, 0
  {
    hide Violations, Then;
    ghost var all := ElementViolations(j, 0, schema, defs, path);
    ghost var done: seq<Error> := [];
    for i := 0 to |j.items|
      invariant log.errors == old(log.errors) + done
      invariant Then(Errors(done), ElementViolations(j, i, schema, defs, path)) == Then(Errors([]), all)
    {
      ghost var step := Violations(j.items[i], schema, defs, path + [Element(i)]);
      ThenAppends(done, step, ElementViolations(j, i + 1, schema, defs, path));
      raised := Validate(j.items[i], schema, defs, path + [Element(i)], log);
      if raised.Some? {
        OnlyRaised(all, step);
        return;
      }
      done := done + step.errors;
    }
    ThenAppends(done, Errors([]), Errors([]));
    OnlyErrors(all, done);
    raised := None;
  }

  /** An empty list means the bundle conforms; the only other outcome is the unresolvable $ref. */
  method ValidateBundle(bundle: Json, schema: Schema, defs: Defs) returns (walk: Walk)
    ensures walk == Violations(bundle, schema, defs, [])
    ensures walk == Errors([]) <==> Conforms(bundle, schema, defs)
    ensures walk.Errors? ==> AllLocated(bundle, schema, defs, walk.errors, [])
  {
    var log := new ErrorLog();
    var raised := Validate(bundle, schema, defs, [], log);
    walk := if raised.Some? then Raised(raised.value) else Errors(log.errors);
    NoErrorsIffConforms(bundle, schema, defs, []);
    hide Violations, AllLocated, Conforms;
    if walk.Errors? {
      ErrorsAreReal(bundle, schema, defs, []);
    }
  }
}
