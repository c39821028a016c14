/**
 * The part of JSON Schema (draft 2020-12) that the pipeline's two schema
 * documents use: the `type` keyword (Validation, section 6.1.1), `required`
 * (Validation, section 6.5.3), `properties` (Core, section 10.3.2.1) and
 * `items` (Core, section 10.3.1.2).
 *
 * Two readings of the same keywords are given: `Conforms`, the boolean
 * meaning of each keyword, and `Violations`, the list of failed keywords
 * with the location of each, in the order in which `jsonschema` reports
 * them (the keywords in the order they are written in the schema, the
 * properties in their order, the array items by index).  `Validate`
 * accepts a document exactly when the list is empty.
 */
module JsonSchema {
  import opened Wrappers
  import opened JsonValue

  /** The names the `type` keyword may take. */
  datatype JsonType =
    | NullType | BooleanType | ObjectType | ArrayType | NumberType | StringType | IntegerType

  /** Whether `v` is an instance of the primitive type `t`. */
  predicate HasType(v: Json, t: JsonType) {
    match t
    case NullType => v.JNull?
    case BooleanType => v.JBool?
    case ObjectType => v.JObject?
    case ArrayType => v.JArray?
    case NumberType => v.JInt?
    case StringType => v.JString?
    case IntegerType => v.JInt?
  }

  /**
   * A schema built from the four keywords. An absent keyword is `None` or
   * an empty sequence; `properties` keeps the order of the schema document.
   */
  datatype Schema = Schema(
    ty: Option<JsonType>,
    properties: seq<Property>,
    items: Option<Schema>,
    required: seq<string>)

  datatype Property = Property(name: string, schema: Schema)

  /** The instance `v` is valid against `s`. */
  predicate Conforms(s: Schema, v: Json)
    decreases s
  {
    && (s.ty.Some? ==> HasType(v, s.ty.value))
    && (v.JObject? ==>
          forall k :: 0 <= k < |s.properties| && s.properties[k].name in v.members ==>
            Conforms(s.properties[k].schema, v.members[s.properties[k].name]))
    && (v.JArray? && s.items.Some? ==>
          forall i :: 0 <= i < |v.elems| ==> Conforms(s.items.value, v.elems[i]))
    && (v.JObject? ==> forall k :: 0 <= k < |s.required| ==> s.required[k] in v.members)
  }

  /** One step of an instance location: an object member or an array index. */
  datatype PathStep = Key(name: string) | Index(i: nat)

  /** The keyword that failed. */
  datatype Keyword = TypeKeyword(expected: JsonType) | RequiredKeyword(missing: string)

  /** A failed keyword and the location, from the document root, of the instance it failed on. */
  datatype Violation = Violation(path: seq<PathStep>, keyword: Keyword)

  /** Every keyword of `s` and of its subschemas that fails on `v`, found at location `path`. */
  function Violations(s: Schema, v: Json, path: seq<PathStep>): seq<Violation>
    decreases s, 2, 0
  {
    TypeViolations(s, v, path)
      + PropertyViolations(s, v, path, 0)
      + ItemViolations(s, v, path, 0)
      + RequiredViolations(s, v, path, 0)
  }

  function TypeViolations(s: Schema, v: Json, path: seq<PathStep>): seq<Violation> {
    if s.ty.Some? && !HasType(v, s.ty.value) then [Violation(path, TypeKeyword(s.ty.value))] else []
  }

  /** The violations found under the properties `k..` of `s`; none unless `v` is an object. */
  function PropertyViolations(s: Schema, v: Json, path: seq<PathStep>, k: nat): seq<Violation>
    requires k <= |s.properties|
    decreases s, 1, |s.properties| - k
  {
    if !v.JObject? || k == |s.properties| then []
    else
      var p := s.properties[k];
      (if p.name in v.members then Violations(p.schema, v.members[p.name], path + [Key(p.name)]) else [])
        + PropertyViolations(s, v, path, k + 1)
  }

  /** The violations found under the items `i..` of `v`; none unless `v` is an array. */
  function ItemViolations(s: Schema, v: Json, path: seq<PathStep>, i: nat): seq<Violation>
    decreases s, 1, if v.JArray? && i < |v.elems| then |v.elems| - i else 0
  {
    if !v.JArray? || s.items.None? || i >= |v.elems| then []
    else Violations(s.items.value, v.elems[i], path + [Index(i)]) + ItemViolations(s, v, path, i + 1)
  }

  /** The names `k..` of `required` that object `v` lacks; none unless `v` is an object. */
  function RequiredViolations(s: Schema, v: Json, path: seq<PathStep>, k: nat): seq<Violation>
    requires k <= |s.required|
    decreases |s.required| - k
  {
    if !v.JObject? || k == |s.required| then []
    else
      (if s.required[k] in v.members then [] else [Violation(path, RequiredKeyword(s.required[k]))])
        + RequiredViolations(s, v, path, k + 1)
  }

  /** No violation is reported exactly when the instance conforms, wherever it sits. */
  lemma {:induction false} ViolationsEmptyIff(s: Schema, v: Json, path: seq<PathStep>)
    ensures Violations(s, v, path) == [] <==> Conforms(s, v)
    decreases s, 2, 0
  {
    PropertyViolationsEmptyIff(s, v, path, 0);
    ItemViolationsEmptyIff(s, v, path, 0);
    RequiredViolationsEmptyIff(s, v, path, 0);
  }

  lemma {:induction false} PropertyViolationsEmptyIff(s: Schema, v: Json, path: seq<PathStep>, k: nat)
    requires k <= |s.properties|
    ensures PropertyViolations(s, v, path, k) == [] <==>
      (v.JObject? ==>
         forall j :: k <= j < |s.properties| && s.properties[j].name in v.members ==>
           Conforms(s.properties[j].schema, v.members[s.properties[j].name]))
    decreases s, 1, |s.properties| - k
  {
    if v.JObject? && k < |s.properties| {
      var p := s.properties[k];
      if p.name in v.members {
        ViolationsEmptyIff(p.schema, v.members[p.name], path + [Key(p.name)]);
      }
      PropertyViolationsEmptyIff(s, v, path, k + 1);
    }
  }

  lemma {:induction false} ItemViolationsEmptyIff(s: Schema, v: Json, path: seq<PathStep>, i: nat)
    ensures ItemViolations(s, v, path, i) == [] <==>
      (v.JArray? && s.items.Some? ==>
         forall j :: i <= j < |v.elems| ==> Conforms(s.items.value, v.elems[j]))
    decreases s, 1, if v.JArray? && i < |v.elems| then |v.elems| - i else 0
  {
    if v.JArray? && s.items.Some? && i < |v.elems| {
      var head := Violations(s.items.value, v.elems[i], path + [Index(i)]);
      var rest := ItemViolations(s, v, path, i + 1);
      assert ItemViolations(s, v, path, i) == head + rest;
      ViolationsEmptyIff(s.items.value, v.elems[i], path + [Index(i)]);
      ItemViolationsEmptyIff(s, v, path, i + 1);
      assert head + rest == [] <==> head == [] && rest == [];
    }
  }

  lemma {:induction false} RequiredViolationsEmptyIff(s: Schema, v: Json, path: seq<PathStep>, k: nat)
    requires k <= |s.required|
    ensures RequiredViolations(s, v, path, k) == [] <==>
      (v.JObject? ==> forall j :: k <= j < |s.required| ==> s.required[j] in v.members)
    decreases |s.required| - k
  {
    if v.JObject? && k < |s.required| {
      RequiredViolationsEmptyIff(s, v, path, k + 1);
    }
  }

  /** Every reported violation lies at or below the location it was looked for at. */
  lemma {:induction false} ViolationsBelow(s: Schema, v: Json, path: seq<PathStep>, x: Violation)
    requires x in Violations(s, v, path)
    ensures path <= x.path
    decreases s, 2, 0
  {
    if x in PropertyViolations(s, v, path, 0) {
      PropertyViolationsBelow(s, v, path, 0, x);
    } else if x in ItemViolations(s, v, path, 0) {
      ItemViolationsBelow(s, v, path, 0, x);
    } else if x in RequiredViolations(s, v, path, 0) {
      RequiredViolationsAt(s, v, path, 0, x);
    }
  }

  lemma {:induction false} PropertyViolationsBelow(s: Schema, v: Json, path: seq<PathStep>, k: nat, x: Violation)
    requires k <= |s.properties|
    requires x in PropertyViolations(s, v, path, k)
    ensures path <= x.path
    decreases s, 1, |s.properties| - k
  {
    var p := s.properties[k];
    if p.name in v.members && x in Violations(p.schema, v.members[p.name], path + [Key(p.name)]) {
      ViolationsBelow(p.schema, v.members[p.name], path + [Key(p.name)], x);
    } else {
      PropertyViolationsBelow(s, v, path, k + 1, x);
    }
  }

  lemma {:induction false} ItemViolationsBelow(s: Schema, v: Json, path: seq<PathStep>, i: nat, x: Violation)
    requires x in ItemViolations(s, v, path, i)
    ensures path <= x.path
    decreases s, 1, if v.JArray? && i < |v.elems| then |v.elems| - i else 0
  {
    if x in Violations(s.items.value, v.elems[i], path + [Index(i)]) {
      ViolationsBelow(s.items.value, v.elems[i], path + [Index(i)], x);
    } else {
      ItemViolationsBelow(s, v, path, i + 1, x);
    }
  }

  lemma {:induction false} RequiredViolationsAt(s: Schema, v: Json, path: seq<PathStep>, k: nat, x: Violation)
    requires k <= |s.required|
    requires x in RequiredViolations(s, v, path, k)
    ensures x.path == path && x.keyword.RequiredKeyword? && x.keyword.missing !in v.members
    decreases |s.required| - k
  {
    if x != Violation(path, RequiredKeyword(s.required[k])) || s.required[k] in v.members {
      RequiredViolationsAt(s, v, path, k + 1, x);
    }
  }

  /** A required name missing from an object is reported at that object's location. */
  lemma {:induction false} MissingRequiredReported(s: Schema, v: Json, path: seq<PathStep>, name: string)
    requires v.JObject? && name in s.required && name !in v.members
    ensures Violation(path, RequiredKeyword(name)) in Violations(s, v, path)
  {
    var k :| 0 <= k < |s.required| && s.required[k] == name;
    MissingRequiredReportedFrom(s, v, path, 0, k);
  }

  lemma {:induction false} MissingRequiredReportedFrom(s: Schema, v: Json, path: seq<PathStep>, j: nat, k: nat)
    requires v.JObject? && j <= k < |s.required| && s.required[k] !in v.members
    ensures Violation(path, RequiredKeyword(s.required[k])) in RequiredViolations(s, v, path, j)
    decreases k - j
  {
    if j < k {
      MissingRequiredReportedFrom(s, v, path, j + 1, k);
    }
  }

  /** A violation found inside a present property is reported for the enclosing object too. */
  lemma {:induction false} PropertyViolationReported(s: Schema, v: Json, path: seq<PathStep>, k: nat, x: Violation)
    requires v.JObject? && k < |s.properties| && s.properties[k].name in v.members
    requires x in Violations(s.properties[k].schema, v.members[s.properties[k].name], path + [Key(s.properties[k].name)])
    ensures x in Violations(s, v, path)
  {
    PropertyViolationReportedFrom(s, v, path, 0, k, x);
  }

  lemma {:induction false} PropertyViolationReportedFrom(s: Schema, v: Json, path: seq<PathStep>, j: nat, k: nat, x: Violation)
    requires v.JObject? && j <= k < |s.properties| && s.properties[k].name in v.members
    requires x in Violations(s.properties[k].schema, v.members[s.properties[k].name], path + [Key(s.properties[k].name)])
    ensures x in PropertyViolations(s, v, path, j)
    decreases k - j
  {
    var p := s.properties[j];
    var here := if p.name in v.members then Violations(p.schema, v.members[p.name], path + [Key(p.name)]) else [];
    assert PropertyViolations(s, v, path, j) == here + PropertyViolations(s, v, path, j + 1);
    if j < k {
      PropertyViolationReportedFrom(s, v, path, j + 1, k, x);
    } else {
      assert x in here;
    }
  }

  /** A violation found inside an array item is reported for the enclosing array too. */
  lemma {:induction false} ItemViolationReported(s: Schema, v: Json, path: seq<PathStep>, i: nat, x: Violation)
    requires v.JArray? && s.items.Some? && i < |v.elems|
    requires x in Violations(s.items.value, v.elems[i], path + [Index(i)])
    ensures x in Violations(s, v, path)
  {
    ItemViolationReportedFrom(s, v, path, 0, i, x);
  }

  lemma {:induction false} ItemViolationReportedFrom(s: Schema, v: Json, path: seq<PathStep>, j: nat, i: nat, x: Violation)
    requires v.JArray? && s.items.Some? && j <= i < |v.elems|
    requires x in Violations(s.items.value, v.elems[i], path + [Index(i)])
    ensures x in ItemViolations(s, v, path, j)
    decreases i - j
  {
    if j < i {
      ItemViolationReportedFrom(s, v, path, j + 1, i, x);
    }
  }

  /**
   * `jsonschema.validate`: the document itself when it conforms, otherwise
   * the failure with every violation found; never a partially accepted document.
   */
  function Validate(s: Schema, doc: Json): (r: Result<Json, seq<Violation>>)
    ensures r.Ok? <==> Conforms(s, doc)
    ensures r.Ok? ==> r.value == doc
    ensures r.Err? ==> r.error != [] && r.error == Violations(s, doc, [])
  {
    ViolationsEmptyIff(s, doc, []);
    var vs := Violations(s, doc, []);
    if vs == [] then Ok(doc) else Err(vs)
  }

  /** Validating the output of a successful validation succeeds again with the same document. */
  lemma ValidateIdempotent(s: Schema, doc: Json)
    requires Validate(s, doc).Ok?
    ensures Validate(s, Validate(s, doc).value) == Validate(s, doc)
  {
  }

  /**
   * No `additionalProperties` keyword: a member whose name no `properties`
   * entry mentions never turns a valid object into an invalid one.
   */
  lemma UnknownMemberAccepted(s: Schema, members: map<string, Json>, name: string, x: Json)
    requires Conforms(s, JObject(members))
    requires forall k :: 0 <= k < |s.properties| ==> s.properties[k].name != name
    ensures Conforms(s, JObject(members[name := x]))
  {
  }
}
