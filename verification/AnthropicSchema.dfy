/**
 normalizeAnthropicToolSchema: references inlined under a depth and node budget, numeric and
 array-size bounds removed.

 The result accepts every instance the original accepts, and exactly those when there was
 no bound to remove.  Acceptance follows JSON Schema (draft-07 core section 8.3 for $ref);
 a schema that refers to itself is refused and has no meaning here.
 */
module AnthropicSchema {
  import opened Wrappers
  import opened Json
  import opened Numerals
  import opened SchemaPointers

  const MAX_DEPTH: nat := 64
  const MAX_NODES: nat := 10000

  datatype VisitError =
    | OverBudget | HasSiblings | Circular | NotLocal | ForbiddenPath | Unresolved | ForbiddenKey | NotAnObject

  predicate IsBound(key: string) {
    key == "minimum" || key == "maximum" || key == "exclusiveMinimum" || key == "exclusiveMaximum" ||
        key == "multipleOf"
    || key == "minItems" || key == "maxItems"
  }

  predicate IsForbidden(key: string) {
    key == "__proto__" || key == "prototype" || key == "constructor"
  }

  // The names themselves.
  const BOUND_NAMES := {"minimum", "maximum", "exclusiveMinimum", "exclusiveMaximum", "multipleOf", "minItems",
                        "maxItems"}

  lemma BoundNames(key: string)
    ensures IsBound(key) <==> key in BOUND_NAMES
  {
  }

  // ---------------------------------------------------------------- references

  function DigitsValue(s: string): nat
    requires forall i :: 0 <= i < |s| ==> '0' <= s[i] <= '9'
  {
    if s == "" then 0 else DigitsValue(s[..|s| - 1]) * 10 + (s[|s| - 1] as int - '0' as int)
  }

  // /^(?:0|[1-9]\d*)$/
  function ArrayIndex(token: string): Option<nat> {
    if token != "" && (forall i :: 0 <= i < |token| ==> '0' <= token[i] <= '9') && (token[0] != '0' || |token| == 1)
    then Some(DigitsValue(token)) else None
  }

  // Every position of an array can be named, by its decimal numeral.
  lemma {:induction false} IndexReadsBack(n: nat)
    ensures ArrayIndex(Decimal(n)) == Some(n)
  {
    if n >= 10 {
      IndexReadsBack(n / 10);
      var s := Decimal(n);
      assert s[..|s| - 1] == Decimal(n / 10) && s[|s| - 1] == Digit(n % 10);
      assert forall i :: 0 <= i < |s| - 1 ==> s[i] == Decimal(n / 10)[i];
      if n / 10 < 10 {
        assert n / 10 != 0 && s[0] == Digit(n / 10);
      }
      LeadingDigit(n);
    } else {
      assert DigitsValue([]) == 0;
      assert Decimal(n)[..0] == [];
    }
  }

  lemma {:induction false} LeadingDigit(n: nat)
    requires n >= 1
    ensures Decimal(n)[0] != '0'
  {
    if n >= 10 {
      LeadingDigit(n / 10);
    }
  }

  function Walk(j: Json, tokens: seq<string>): Result<Json, VisitError>
    decreases |tokens|
  {
    if tokens == [] then Ok(j)
    else if IsForbidden(tokens[0]) then Err(ForbiddenPath)
    else if Step(j, tokens[0], ArrayIndex).None? then Err(Unresolved)
    else Walk(Step(j, tokens[0], ArrayIndex).value, tokens[1..])
  }

  function Resolve(root: Json, reference: string): Result<Json, VisitError> {
    var tokens := Tokens(reference);
    if tokens.None? then Err(NotLocal) else Walk(root, tokens.value)
  }

  lemma {:induction false} WalkLocates(j: Json, tokens: seq<string>)
    ensures Walk(j, tokens).Ok? ==> Locate(j, tokens, ArrayIndex) == Some(Walk(j, tokens).value)
    decreases |tokens|
  {
    if tokens != [] && Step(j, tokens[0], ArrayIndex).Some? {
      WalkLocates(Step(j, tokens[0], ArrayIndex).value, tokens[1..]);
    }
  }

  lemma ResolveRefs(root: Json, reference: string)
    ensures Resolve(root, reference).Ok? ==> Refs(Resolve(root, reference).value) <= Refs(root)
  {
    if Resolve(root, reference).Ok? {
      WalkLocates(root, Tokens(reference).value);
      LocateRefs(root, Tokens(reference).value, ArrayIndex);
    }
  }

  // ---------------------------------------------------------------- visiting

  datatype Visited<T> = Visited(value: T, nodes: nat)

  // nodes counts the visits so far; every visit is one more.
  function Visit(root: Json, value: Json, stack: seq<string>, depth: nat, nodes: nat): Result<Visited<Json>, VisitError>
    requires depth <= MAX_DEPTH + 1
    decreases MAX_DEPTH + 1 - depth, 0
  {
    if depth > MAX_DEPTH || nodes + 1 > MAX_NODES then Err(OverBudget) else
    match value
    case Arr(items) =>
      var r :- VisitItems(root, items, stack, depth + 1, nodes + 1);
      Ok(Visited(Arr(r.value), r.nodes))
    case Obj(fields) =>
      if RefOf(fields).Some? then
        var reference := RefOf(fields).value;
        if exists i :: 0 <= i < |fields| && fields[i].key != "$ref" then Err(HasSiblings)
        else if reference in stack then Err(Circular)
        else
          var target :- Resolve(root, reference);
          Visit(root, target, stack + [reference], depth + 1, nodes + 1)
      else
        var r :- VisitFields(root, fields, stack, depth + 1, nodes + 1);
        Ok(Visited(Obj(r.value), r.nodes))
    case _ => Ok(Visited(value, nodes + 1))
  }

  function VisitItems(root: Json, items: seq<Json>, stack: seq<string>, depth: nat, nodes: nat)
    : Result<Visited<seq<Json>>, VisitError>
    requires depth <= MAX_DEPTH + 1
    decreases MAX_DEPTH + 1 - depth, |items| + 1
  {
    if items == [] then Ok(Visited([], nodes)) else
    var head :- Visit(root, items[0], stack, depth, nodes);
    var tail :- VisitItems(root, items[1..], stack, depth, head.nodes);
    Ok(Visited([head.value] + tail.value, tail.nodes))
  }

  function VisitFields(root: Json, fields: seq<Field>, stack: seq<string>, depth: nat, nodes: nat)
    : Result<Visited<seq<Field>>, VisitError>
    requires depth <= MAX_DEPTH + 1
    decreases MAX_DEPTH + 1 - depth, |fields| + 1
  {
    if fields == [] then Ok(Visited([], nodes))
    else if IsForbidden(fields[0].key) then Err(ForbiddenKey)
    else if IsBound(fields[0].key) then VisitFields(root, fields[1..], stack, depth, nodes)
    else
      var head :- Visit(root, fields[0].value, stack, depth, nodes);
      var tail :- VisitFields(root, fields[1..], stack, depth, head.nodes);
      Ok(Visited([Field(fields[0].key, head.value)] + tail.value, tail.nodes))
  }

  function NormalizeToolSchema(schema: Json): Result<Json, VisitError> {
    var r :- Visit(schema, schema, [], 0, 0);
    if r.value.Obj? then Ok(r.value) else Err(NotAnObject)
  }

  // ---------------------------------------------------------------- the budget

  function Depth(j: Json): nat
    decreases j
  {
    match j
    case Arr(items) => 1 + ItemDepth(items)
    case Obj(fields) => 1 + FieldDepth(fields)
    case _ => 1
  }

  function ItemDepth(items: seq<Json>): nat
    decreases items
  {
    if items == [] then 0 else
    var d, e := Depth(items[0]), ItemDepth(items[1..]);
    if d < e then e else d
  }

  function FieldDepth(fields: seq<Field>): nat
    decreases fields
  {
    if fields == [] then 0 else
    var d, e := Depth(fields[0].value), FieldDepth(fields[1..]);
    if d < e then e else d
  }

  // Every part is one level less deep at least, and some part is only that.
  lemma {:induction false} DepthOfItems(items: seq<Json>)
    ensures forall i :: 0 <= i < |items| ==> Depth(items[i]) <= ItemDepth(items)
    ensures items != [] ==> exists i :: 0 <= i < |items| && Depth(items[i]) == ItemDepth(items)
  {
    hide Depth;
    if items != [] {
      DepthOfItems(items[1..]);
      assert forall i :: 0 < i < |items| ==> items[i] == items[1..][i - 1];
      if Depth(items[0]) < ItemDepth(items[1..]) {
        var i :| 0 <= i < |items[1..]| && Depth(items[1..][i]) == ItemDepth(items[1..]);
        assert items[i + 1] == items[1..][i];
      }
    }
  }

  lemma {:induction false} DepthOfFields(fields: seq<Field>)
    ensures forall i :: 0 <= i < |fields| ==> Depth(fields[i].value) <= FieldDepth(fields)
    ensures fields != [] ==> exists i :: 0 <= i < |fields| && Depth(fields[i].value) == FieldDepth(fields)
  {
    hide Depth;
    if fields != [] {
      DepthOfFields(fields[1..]);
      assert forall i :: 0 < i < |fields| ==> fields[i] == fields[1..][i - 1];
      if Depth(fields[0].value) < FieldDepth(fields[1..]) {
        var i :| 0 <= i < |fields[1..]| && Depth(fields[1..][i].value) == FieldDepth(fields[1..]);
        assert fields[i + 1] == fields[1..][i];
      }
    }
  }

  // The result is no larger than the visits that made it, and no deeper than they went.
  lemma {:induction false} VisitWithinBudget(root: Json, value: Json, stack: seq<string>, depth: nat, nodes: nat)
    requires depth <= MAX_DEPTH + 1 && Visit(root, value, stack, depth, nodes).Ok?
    ensures var r := Visit(root, value, stack, depth, nodes).value;
            nodes + Nodes(r.value) <= r.nodes <= MAX_NODES && depth + Depth(r.value) <= MAX_DEPTH + 1
    decreases MAX_DEPTH + 1 - depth, 0
  {
    hide Resolve, IsForbidden, IsBound, RefOf;
    match value
    case Arr(items) => ItemsWithinBudget(root, items, stack, depth + 1, nodes + 1);
    case Obj(fields) =>
      if RefOf(fields).Some? {
        var reference := RefOf(fields).value;
        VisitWithinBudget(root, Resolve(root, reference).value, stack + [reference], depth + 1, nodes + 1);
      } else {
        FieldsWithinBudget(root, fields, stack, depth + 1, nodes + 1);
      }
    case _ =>
  }

  lemma {:induction false} ItemsWithinBudget(root: Json, items: seq<Json>, stack: seq<string>, depth: nat, nodes: nat)
    requires depth <= MAX_DEPTH + 1 && nodes <= MAX_NODES && VisitItems(root, items, stack, depth, nodes).Ok?
    ensures var r := VisitItems(root, items, stack, depth, nodes).value;
            nodes + ItemNodes(r.value) <= r.nodes <= MAX_NODES && depth + ItemDepth(r.value) <= MAX_DEPTH + 1
    decreases MAX_DEPTH + 1 - depth, |items| + 1
  {
    if items != [] {
      VisitWithinBudget(root, items[0], stack, depth, nodes);
      var head := Visit(root, items[0], stack, depth, nodes).value;
      ItemsWithinBudget(root, items[1..], stack, depth, head.nodes);
      var tail := VisitItems(root, items[1..], stack, depth, head.nodes).value.value;
      assert ([head.value] + tail)[1..] == tail;
    }
  }

  lemma {:induction false} FieldsWithinBudget(root: Json, fields: seq<Field>, stack: seq<string>, depth: nat,
                                              nodes: nat)
    requires depth <= MAX_DEPTH + 1 && nodes <= MAX_NODES && VisitFields(root, fields, stack, depth, nodes).Ok?
    ensures var r := VisitFields(root, fields, stack, depth, nodes).value;
            nodes + FieldNodes(r.value) <= r.nodes <= MAX_NODES && depth + FieldDepth(r.value) <= MAX_DEPTH + 1
    decreases MAX_DEPTH + 1 - depth, |fields| + 1
  {
    hide IsForbidden, IsBound;
    if fields != [] {
      if IsBound(fields[0].key) {
        FieldsWithinBudget(root, fields[1..], stack, depth, nodes);
      } else {
        VisitWithinBudget(root, fields[0].value, stack, depth, nodes);
        var head := Visit(root, fields[0].value, stack, depth, nodes).value;
        FieldsWithinBudget(root, fields[1..], stack, depth, head.nodes);
        var tail := VisitFields(root, fields[1..], stack, depth, head.nodes).value.value;
        assert ([Field(fields[0].key, head.value)] + tail)[1..] == tail;
      }
    }
  }

  // However references fan out, a schema that is sent has at most 10,000 nodes in 65 levels.
  lemma SentSchemaIsSmall(schema: Json)
    requires NormalizeToolSchema(schema).Ok?
    ensures Nodes(NormalizeToolSchema(schema).value) <= MAX_NODES &&
      Depth(NormalizeToolSchema(schema).value) <= MAX_DEPTH + 1
  {
    VisitWithinBudget(schema, schema, [], 0, 0);
  }

  // ---------------------------------------------------------------- what a schema accepts

  // The assertions that look at one keyword alone: the removed bounds, and all others.
  datatype Assertions = Assertions(bound: (string, Json, Json) -> bool, other: (string, Json, Json) -> bool)

  // Does the schema accept the instance?  `seen` are the references on the way to it.
  predicate Accepts(a: Assertions, root: Json, schema: Json, instance: Json, seen: set<string>)
    requires Refs(schema) <= Refs(root)
    decreases Refs(root) - seen, Nodes(schema), 0, 0
  {
    match schema
    case Bool(b) => b
    case Obj(fields) =>
      if RefOf(fields).Some? then
        var reference := RefOf(fields).value;
        RefOfIsRef(fields);
        ResolveRefs(root, reference);
        reference !in seen && Resolve(root, reference).Ok?
        && Accepts(a, root, Resolve(root, reference).value, instance, seen + {reference})
      else AcceptsFields(a, root, fields, PropertyNames(fields), instance, seen)
    case _ => false
  }

  predicate AcceptsFields(a: Assertions, root: Json, fields: seq<Field>, names: set<string>, instance: Json,
                          seen: set<string>)
    requires FieldRefs(fields) <= Refs(root)
    decreases Refs(root) - seen, FieldNodes(fields), 3, 0
  {
    fields == [] || (AcceptsKeyword(a, root, fields[0].key, fields[0].value, names, instance, seen)
                     && AcceptsFields(a, root, fields[1..], names, instance, seen))
  }

  predicate AcceptsKeyword(a: Assertions, root: Json, key: string, value: Json, names: set<string>, instance: Json,
                           seen: set<string>)
    requires Refs(value) <= Refs(root)
    decreases Refs(root) - seen, Nodes(value), 2, 0
  {
    if key == "properties" then value.Obj? &&
        (instance.Obj? ==> AcceptsProperties(a, root, value.fields, instance.fields, seen))
    else if key == "additionalProperties" then instance.Obj? ==>
      AcceptsExtra(a, root, value, instance.fields, names, seen)
    else if key == "items" then instance.Arr? ==> AcceptsEach(a, root, value, instance.items, seen)
    else if key == "anyOf" then value.Arr? && AcceptsAny(a, root, value.items, instance, seen)
    else if key == "allOf" then value.Arr? && AcceptsAll(a, root, value.items, instance, seen)
    else if key == "$defs" || key == "definitions" then true
    else if IsBound(key) then a.bound(key, value, instance)
    else a.other(key, value, instance)
  }

  // Properties the instance has are accepted by their schemas.
  predicate AcceptsProperties(a: Assertions, root: Json, properties: seq<Field>, instance: seq<Field>,
                              seen: set<string>)
    requires FieldRefs(properties) <= Refs(root)
    decreases Refs(root) - seen, FieldNodes(properties), 3, 0
  {
    properties == [] ||
    (var v := FieldValue(instance, properties[0].key);
     (v.Some? ==> Accepts(a, root, properties[0].value, v.value, seen))
     && AcceptsProperties(a, root, properties[1..], instance, seen))
  }

  predicate AcceptsExtra(a: Assertions, root: Json, schema: Json, instance: seq<Field>, names: set<string>,
                         seen: set<string>)
    requires Refs(schema) <= Refs(root)
    decreases Refs(root) - seen, Nodes(schema), 1, |instance|
  {
    instance == [] ||
    ((instance[0].key !in names ==> Accepts(a, root, schema, instance[0].value, seen))
     && AcceptsExtra(a, root, schema, instance[1..], names, seen))
  }

  predicate AcceptsEach(a: Assertions, root: Json, schema: Json, instances: seq<Json>, seen: set<string>)
    requires Refs(schema) <= Refs(root)
    decreases Refs(root) - seen, Nodes(schema), 1, |instances|
  {
    instances == [] || (Accepts(a, root, schema, instances[0], seen) &&
        AcceptsEach(a, root, schema, instances[1..], seen))
  }

  predicate AcceptsAny(a: Assertions, root: Json, schemas: seq<Json>, instance: Json, seen: set<string>)
    requires ItemRefs(schemas) <= Refs(root)
    decreases Refs(root) - seen, ItemNodes(schemas), 3, 0
  {
    schemas != [] && (Accepts(a, root, schemas[0], instance, seen) || AcceptsAny(a, root, schemas[1..], instance, seen))
  }

  predicate AcceptsAll(a: Assertions, root: Json, schemas: seq<Json>, instance: Json, seen: set<string>)
    requires ItemRefs(schemas) <= Refs(root)
    decreases Refs(root) - seen, ItemNodes(schemas), 3, 0
  {
    schemas == [] || (Accepts(a, root, schemas[0], instance, seen) && AcceptsAll(a, root, schemas[1..], instance, seen))
  }

  // The keywords mean what draft-07 says of them, item by item and property by property.
  lemma {:induction false} FieldsMean(a: Assertions, root: Json, fields: seq<Field>, names: set<string>,
                                      instance: Json, seen: set<string>)
    requires FieldRefs(fields) <= Refs(root)
    ensures AcceptsFields(a, root, fields, names, instance, seen) <==>
      forall i :: 0 <= i < |fields| ==>
        && Refs(fields[i].value) <= Refs(root)
        && AcceptsKeyword(a, root, fields[i].key, fields[i].value, names, instance, seen)
  {
    hide AcceptsKeyword;
    if fields != [] {
      FieldsMean(a, root, fields[1..], names, instance, seen);
      assert forall i :: 0 < i < |fields| ==> fields[i] == fields[1..][i - 1];
    }
  }

  lemma {:induction false} AnyMeans(a: Assertions, root: Json, schemas: seq<Json>, instance: Json, seen: set<string>)
    requires ItemRefs(schemas) <= Refs(root)
    ensures AcceptsAny(a, root, schemas, instance, seen) <==>
      exists i :: 0 <= i < |schemas| && Refs(schemas[i]) <= Refs(root) && Accepts(a, root, schemas[i], instance, seen)
  {
    hide Accepts;
    if schemas != [] {
      AnyMeans(a, root, schemas[1..], instance, seen);
      assert forall i :: 0 < i < |schemas| ==> schemas[i] == schemas[1..][i - 1];
      forall i | 0 <= i < |schemas[1..]| ensures schemas[1..][i] == schemas[i + 1] {
      }
    }
  }

  lemma {:induction false} AllMeans(a: Assertions, root: Json, schemas: seq<Json>, instance: Json, seen: set<string>)
    requires ItemRefs(schemas) <= Refs(root)
    ensures AcceptsAll(a, root, schemas, instance, seen) <==>
      forall i :: 0 <= i < |schemas| ==>
        Refs(schemas[i]) <= Refs(root) && Accepts(a, root, schemas[i], instance, seen)
  {
    hide Accepts;
    if schemas != [] {
      AllMeans(a, root, schemas[1..], instance, seen);
      assert forall i :: 0 < i < |schemas| ==> schemas[i] == schemas[1..][i - 1];
    }
  }

  lemma {:induction false} EachMeans(a: Assertions, root: Json, schema: Json, instances: seq<Json>, seen: set<string>)
    requires Refs(schema) <= Refs(root)
    ensures AcceptsEach(a, root, schema, instances, seen) <==>
      forall i :: 0 <= i < |instances| ==> Accepts(a, root, schema, instances[i], seen)
  {
    hide Accepts;
    if instances != [] {
      EachMeans(a, root, schema, instances[1..], seen);
      assert forall i :: 0 < i < |instances| ==> instances[i] == instances[1..][i - 1];
    }
  }

  lemma {:induction false} PropertiesMean(a: Assertions, root: Json, properties: seq<Field>, instance: seq<Field>,
                                          seen: set<string>)
    requires FieldRefs(properties) <= Refs(root)
    ensures AcceptsProperties(a, root, properties, instance, seen) <==>
      forall i :: 0 <= i < |properties| && FieldValue(instance, properties[i].key).Some? ==>
        && Refs(properties[i].value) <= Refs(root)
        && Accepts(a, root, properties[i].value, FieldValue(instance, properties[i].key).value, seen)
  {
    hide Accepts;
    if properties != [] {
      PropertiesMean(a, root, properties[1..], instance, seen);
      assert forall i :: 0 < i < |properties| ==> properties[i] == properties[1..][i - 1];
    }
  }

  lemma {:induction false} ExtraMeans(a: Assertions, root: Json, schema: Json, instance: seq<Field>,
                                      names: set<string>, seen: set<string>)
    requires Refs(schema) <= Refs(root)
    ensures AcceptsExtra(a, root, schema, instance, names, seen) <==>
      forall i :: 0 <= i < |instance| && instance[i].key !in names ==>
        Accepts(a, root, schema, instance[i].value, seen)
  {
    hide Accepts;
    if instance != [] {
      ExtraMeans(a, root, schema, instance[1..], names, seen);
      assert forall i :: 0 < i < |instance| ==> instance[i] == instance[1..][i - 1];
    }
  }

  // ---------------------------------------------------------------- the schemas in question

  // A keyword value that is no schema: scalars and lists of scalars.
  predicate Plain(j: Json)
    decreases j
  {
    match j
    case Arr(items) => forall i :: 0 <= i < |items| ==> Plain(items[i])
    case Obj(_) => false
    case _ => true
  }

  /** Schemas without negation: sub-schemas under properties, additionalProperties, items,
      anyOf and allOf, plain values elsewhere, no property named like a bound.  Exact: no
      bound either. */
  predicate Supported(schema: Json, exact: bool)
    decreases Nodes(schema), 0
  {
    match schema
    case Bool(_) => true
    case Obj(fields) => RefOf(fields).Some? || SupportedFields(fields, exact)
    case _ => false
  }

  predicate SupportedFields(fields: seq<Field>, exact: bool)
    decreases FieldNodes(fields), 2
  {
    fields == [] || (fields[0].key != "$ref" && SupportedKeyword(fields[0].key, fields[0].value, exact)
                     && SupportedFields(fields[1..], exact))
  }

  predicate SupportedKeyword(key: string, value: Json, exact: bool)
    decreases Nodes(value), 1
  {
    if key == "properties" then value.Obj? && SupportedProperties(value.fields, exact)
    else if key == "additionalProperties" || key == "items" then Supported(value, exact)
    else if key == "anyOf" || key == "allOf" then value.Arr? && SupportedItems(value.items, exact)
    else if key == "$defs" || key == "definitions" then true
    else if IsBound(key) then !exact
    else Plain(value)
  }

  predicate SupportedProperties(properties: seq<Field>, exact: bool)
    decreases FieldNodes(properties), 2
  {
    properties == [] || (!IsBound(properties[0].key) && Supported(properties[0].value, exact)
                         && SupportedProperties(properties[1..], exact))
  }

  predicate SupportedItems(schemas: seq<Json>, exact: bool)
    decreases ItemNodes(schemas), 2
  {
    schemas == [] || (Supported(schemas[0], exact) && SupportedItems(schemas[1..], exact))
  }

  ghost predicate SupportedTargets(root: Json, exact: bool) {
    forall r :: r in Refs(root) && Resolve(root, r).Ok? ==> Supported(Resolve(root, r).value, exact)
  }

  // ---------------------------------------------------------------- inlining keeps what is accepted

  // Everything accepted before is accepted after; when exact, nothing more.
  predicate Weakens(exact: bool, before: bool, after: bool) {
    (before ==> after) && (exact && after ==> before)
  }

  lemma {:induction false} VisitPlain(root: Json, value: Json, stack: seq<string>, depth: nat, nodes: nat)
    requires depth <= MAX_DEPTH + 1 && Plain(value) && Visit(root, value, stack, depth, nodes).Ok?
    ensures Visit(root, value, stack, depth, nodes).value.value == value
    decreases MAX_DEPTH + 1 - depth, 0
  {
    if value.Arr? {
      ItemsPlain(root, value.items, stack, depth + 1, nodes + 1);
    }
  }

  lemma {:induction false} ItemsPlain(root: Json, items: seq<Json>, stack: seq<string>, depth: nat, nodes: nat)
    requires depth <= MAX_DEPTH + 1 && Plain(Arr(items)) && VisitItems(root, items, stack, depth, nodes).Ok?
    ensures VisitItems(root, items, stack, depth, nodes).value.value == items
    decreases MAX_DEPTH + 1 - depth, |items| + 1
  {
    if items != [] {
      assert Plain(items[0]) && Plain(Arr(items[1..]));
      VisitPlain(root, items[0], stack, depth, nodes);
      ItemsPlain(root, items[1..], stack, depth, Visit(root, items[0], stack, depth, nodes).value.nodes);
    }
  }

  // Keywords that stay keep their place; the same property names are declared.
  lemma {:induction false} ValueVisited(root: Json, fields: seq<Field>, stack: seq<string>, depth: nat, nodes: nat,
                                        key: string)
    requires depth <= MAX_DEPTH + 1 && VisitFields(root, fields, stack, depth, nodes).Ok? && !IsBound(key)
    ensures var after := VisitFields(root, fields, stack, depth, nodes).value.value;
            && (FieldValue(after, key).Some? <==> FieldValue(fields, key).Some?)
            && (FieldValue(fields, key).Some? ==>
                  exists n: nat :: Visit(root, FieldValue(fields, key).value, stack, depth, n).Ok?
                    && Visit(root, FieldValue(fields, key).value, stack, depth, n).value.value ==
                        FieldValue(after, key).value)
    decreases |fields|
  {
    hide Visit, IsForbidden, IsBound;
    if fields != [] {
      if IsBound(fields[0].key) {
        ValueVisited(root, fields[1..], stack, depth, nodes, key);
      } else {
        var head := Visit(root, fields[0].value, stack, depth, nodes).value;
        ValueVisited(root, fields[1..], stack, depth, head.nodes, key);
      }
    }
  }

  lemma {:induction false} NamesVisited(root: Json, properties: seq<Field>, stack: seq<string>, depth: nat, nodes: nat,
                                        exact: bool)
    requires depth <= MAX_DEPTH + 1 && VisitFields(root, properties, stack, depth, nodes).Ok?
    requires SupportedProperties(properties, exact)
    ensures Names(VisitFields(root, properties, stack, depth, nodes).value.value) == Names(properties)
    decreases |properties|
  {
    hide Visit, IsForbidden, IsBound, Supported;
    if properties != [] {
      var head := Visit(root, properties[0].value, stack, depth, nodes).value;
      NamesVisited(root, properties[1..], stack, depth, head.nodes, exact);
      var tail := VisitFields(root, properties[1..], stack, depth, head.nodes).value.value;
      assert ([Field(properties[0].key, head.value)] + tail)[1..] == tail;
    }
  }

  lemma {:induction false} PropertiesAreNoReference(properties: seq<Field>, exact: bool)
    requires SupportedProperties(properties, exact)
    ensures RefOf(properties).None?
  {
    if properties != [] {
      PropertiesAreNoReference(properties[1..], exact);
    }
  }

  lemma {:induction false} SupportedPropertiesOf(fields: seq<Field>, exact: bool)
    requires SupportedFields(fields, exact)
    ensures var p := FieldValue(fields, "properties"); p.Some? ==>
      p.value.Obj? && SupportedProperties(p.value.fields, exact)
    ensures RefOf(fields).None? && FieldValue(fields, "$ref").None?
  {
    hide IsBound, Supported, Plain;
    if fields != [] {
      SupportedPropertiesOf(fields[1..], exact);
    }
  }

  lemma PropertyNamesVisited(root: Json, fields: seq<Field>, stack: seq<string>, depth: nat, nodes: nat, exact: bool)
    requires depth <= MAX_DEPTH + 1 && VisitFields(root, fields, stack, depth, nodes).Ok? &&
      SupportedFields(fields, exact)
    ensures var after := VisitFields(root, fields, stack, depth, nodes).value.value;
            PropertyNames(after) == PropertyNames(fields) && RefOf(after).None?
  {
    hide SupportedProperties, SupportedFields, Names, VisitFields;
    SupportedPropertiesOf(fields, exact);
    ValueVisited(root, fields, stack, depth, nodes, "properties");
    ValueVisited(root, fields, stack, depth, nodes, "$ref");
    var p := FieldValue(fields, "properties");
    if p.Some? {
      var after := VisitFields(root, fields, stack, depth, nodes).value.value;
      var n: nat :| Visit(root, p.value, stack, depth, n).Ok?
        && Visit(root, p.value, stack, depth, n).value.value == FieldValue(after, "properties").value;
      PropertiesAreNoReference(p.value.fields, exact);
      NamesVisited(root, p.value.fields, stack, depth + 1, n + 1, exact);
    }
  }

  /** The heart of it: visiting a supported schema weakens it, whatever is done with the
      counter, the depth and the references on the way. */
  lemma {:induction false} VisitWeakens(a: Assertions, root: Json, base: Json, schema: Json, stack: seq<string>,
                                        depth: nat, nodes: nat,
                                        instance: Json, exact: bool)
    requires depth <= MAX_DEPTH + 1 && Visit(root, schema, stack, depth, nodes).Ok?
    requires Refs(schema) <= Refs(root) && Refs(Visit(root, schema, stack, depth, nodes).value.value) <= Refs(base)
    requires Supported(schema, exact) && SupportedTargets(root, exact)
    ensures Weakens(exact, Accepts(a, root, schema, instance, Elements(stack)),
                    Accepts(a, base, Visit(root, schema, stack, depth, nodes).value.value, instance, {}))
    decreases MAX_DEPTH + 1 - depth, 0, 0
  {
    hide SupportedTargets, PropertyNames, SupportedFields, AcceptsFields, VisitFields, IsBound, Resolve, Elements;
    if schema.Obj? {
      if RefOf(schema.fields).Some? {
        var reference := RefOf(schema.fields).value;
        RefOfIsRef(schema.fields);
        ResolveRefs(root, reference);
        ElementsPush(stack, reference);
        TargetSupported(root, reference, exact);
        VisitWeakens(a, root, base, Resolve(root, reference).value, stack + [reference], depth + 1, nodes + 1,
                     instance, exact);
      } else {
        PropertyNamesVisited(root, schema.fields, stack, depth + 1, nodes + 1, exact);
        FieldsWeaken(a, root, base, schema.fields, PropertyNames(schema.fields), stack, depth + 1, nodes + 1, instance,
                     exact);
      }
    }
  }

  lemma TargetSupported(root: Json, reference: string, exact: bool)
    requires SupportedTargets(root, exact) && reference in Refs(root) && Resolve(root, reference).Ok?
    ensures Supported(Resolve(root, reference).value, exact)
  {
  }

  lemma {:induction false} FieldsWeaken(a: Assertions, root: Json, base: Json, fields: seq<Field>, names: set<string>,
                                        stack: seq<string>,
                                        depth: nat, nodes: nat, instance: Json, exact: bool)
    requires depth <= MAX_DEPTH + 1 && VisitFields(root, fields, stack, depth, nodes).Ok?
    requires FieldRefs(fields) <= Refs(root) &&
      FieldRefs(VisitFields(root, fields, stack, depth, nodes).value.value) <= Refs(base)
    requires SupportedFields(fields, exact) && SupportedTargets(root, exact)
    ensures Weakens(exact, AcceptsFields(a, root, fields, names, instance, Elements(stack)),
                    AcceptsFields(a, base, VisitFields(root, fields, stack, depth, nodes).value.value, names, instance,
                                  {}))
    decreases MAX_DEPTH + 1 - depth, |fields| + 1, 0
  {
    hide SupportedTargets, Elements, Visit, Supported, Accepts, AcceptsKeyword, IsForbidden, IsBound;
    if fields != [] {
      if IsBound(fields[0].key) {
        BoundIsRemoved(fields[0].key, fields[0].value, exact);
        FieldsWeaken(a, root, base, fields[1..], names, stack, depth, nodes, instance, exact);
      } else {
        var head := Visit(root, fields[0].value, stack, depth, nodes).value;
        var tail := VisitFields(root, fields[1..], stack, depth, head.nodes).value.value;
        assert ([Field(fields[0].key, head.value)] + tail)[1..] == tail;
        KeywordWeakens(a, root, base, fields[0].key, fields[0].value, names, stack, depth, nodes, instance, exact);
        FieldsWeaken(a, root, base, fields[1..], names, stack, depth, head.nodes, instance, exact);
      }
    }
  }

  lemma BoundIsRemoved(key: string, value: Json, exact: bool)
    requires IsBound(key) && SupportedKeyword(key, value, exact)
    ensures !exact
  {
  }

  lemma {:induction false} KeywordWeakens(a: Assertions, root: Json, base: Json, key: string, value: Json,
                                          names: set<string>, stack: seq<string>, depth: nat, nodes: nat,
                                          instance: Json, exact: bool)
    requires depth <= MAX_DEPTH + 1 && Visit(root, value, stack, depth, nodes).Ok? && !IsBound(key)
    requires Refs(value) <= Refs(root) && Refs(Visit(root, value, stack, depth, nodes).value.value) <= Refs(base)
    requires SupportedKeyword(key, value, exact) && SupportedTargets(root, exact)
    ensures Weakens(exact, AcceptsKeyword(a, root, key, value, names, instance, Elements(stack)),
                    AcceptsKeyword(a, base, key, Visit(root, value, stack, depth, nodes).value.value, names, instance,
                                   {}))
    decreases MAX_DEPTH + 1 - depth, 0, 3
  {
    hide SupportedTargets, Elements, IsForbidden, IsBound, Supported, SupportedProperties, SupportedItems, Accepts,
      AcceptsProperties, AcceptsExtra, AcceptsEach, AcceptsAny, AcceptsAll, Visit, VisitFields, VisitItems, Plain,
      Resolve, Weakens;
    if key == "properties" || key == "additionalProperties" || key == "items" {
      MemberKeywordWeakens(a, root, base, key, value, names, stack, depth, nodes, instance, exact);
    } else if key == "anyOf" || key == "allOf" {
      ItemsVisit(root, value, stack, depth, nodes);
      ItemsWeaken(a, root, base, value.items, stack, depth + 1, nodes + 1, instance, exact);
    } else {
      OtherKeywordWeakens(a, root, base, key, value, names, stack, depth, nodes, instance, exact);
    }
  }

  lemma OtherKeywordWeakens(a: Assertions, root: Json, base: Json, key: string, value: Json, names: set<string>,
                            stack: seq<string>, depth: nat, nodes: nat, instance: Json, exact: bool)
    requires depth <= MAX_DEPTH + 1 && Visit(root, value, stack, depth, nodes).Ok? && !IsBound(key)
    requires key !in {"properties", "additionalProperties", "items", "anyOf", "allOf"}
    requires Refs(value) <= Refs(root) && Refs(Visit(root, value, stack, depth, nodes).value.value) <= Refs(base)
    requires SupportedKeyword(key, value, exact)
    ensures Weakens(exact, AcceptsKeyword(a, root, key, value, names, instance, Elements(stack)),
                    AcceptsKeyword(a, base, key, Visit(root, value, stack, depth, nodes).value.value, names, instance,
                                   {}))
  {
    hide Elements, IsBound, Visit, Plain;
    if key != "$defs" && key != "definitions" {
      VisitPlain(root, value, stack, depth, nodes);
    }
  }

  lemma {:induction false} MemberKeywordWeakens(a: Assertions, root: Json, base: Json, key: string, value: Json,
                                                names: set<string>, stack: seq<string>, depth: nat, nodes: nat,
                                                instance: Json, exact: bool)
    requires depth <= MAX_DEPTH + 1 && Visit(root, value, stack, depth, nodes).Ok?
    requires key == "properties" || key == "additionalProperties" || key == "items"
    requires Refs(value) <= Refs(root) && Refs(Visit(root, value, stack, depth, nodes).value.value) <= Refs(base)
    requires SupportedKeyword(key, value, exact) && SupportedTargets(root, exact)
    ensures Weakens(exact, AcceptsKeyword(a, root, key, value, names, instance, Elements(stack)),
                    AcceptsKeyword(a, base, key, Visit(root, value, stack, depth, nodes).value.value, names, instance,
                                   {}))
    decreases MAX_DEPTH + 1 - depth, 0, 2
  {
    hide SupportedTargets, Elements, IsForbidden, IsBound, Supported, SupportedProperties, SupportedItems, Accepts,
      AcceptsProperties, AcceptsExtra, AcceptsEach, AcceptsAny, AcceptsAll, Visit, VisitFields, VisitItems, Plain,
      Resolve;
    if key == "properties" {
      PropertiesVisit(root, value, stack, depth, nodes, exact);
      if instance.Obj? {
        PropertiesWeaken(a, root, base, value.fields, stack, depth + 1, nodes + 1, instance.fields, exact);
      }
    } else if key == "additionalProperties" {
      if instance.Obj? {
        ExtraWeakens(a, root, base, value, names, stack, depth, nodes, instance.fields, exact);
      }
    } else if key == "items" {
      if instance.Arr? {
        EachWeakens(a, root, base, value, stack, depth, nodes, instance.items, exact);
      }
    }
  }

  lemma PropertiesVisit(root: Json, value: Json, stack: seq<string>, depth: nat, nodes: nat, exact: bool)
    requires depth <= MAX_DEPTH + 1 && Visit(root, value, stack, depth, nodes).Ok?
    requires value.Obj? && SupportedProperties(value.fields, exact)
    ensures depth <= MAX_DEPTH && VisitFields(root, value.fields, stack, depth + 1, nodes + 1).Ok?
    ensures Visit(root, value, stack, depth, nodes).value.value
         == Obj(VisitFields(root, value.fields, stack, depth + 1, nodes + 1).value.value)
  {
    hide SupportedProperties, VisitFields, Resolve;
    PropertiesAreNoReference(value.fields, exact);
  }

  lemma ItemsVisit(root: Json, value: Json, stack: seq<string>, depth: nat, nodes: nat)
    requires depth <= MAX_DEPTH + 1 && Visit(root, value, stack, depth, nodes).Ok? && value.Arr?
    ensures depth <= MAX_DEPTH && VisitItems(root, value.items, stack, depth + 1, nodes + 1).Ok?
    ensures Visit(root, value, stack, depth, nodes).value.value
         == Arr(VisitItems(root, value.items, stack, depth + 1, nodes + 1).value.value)
  {
    hide VisitItems, Resolve;
  }

  lemma {:induction false} PropertiesWeaken(a: Assertions, root: Json, base: Json, properties: seq<Field>,
                                            stack: seq<string>, depth: nat,
                                            nodes: nat, instance: seq<Field>, exact: bool)
    requires depth <= MAX_DEPTH + 1 && VisitFields(root, properties, stack, depth, nodes).Ok?
    requires FieldRefs(properties) <= Refs(root)
    requires FieldRefs(VisitFields(root, properties, stack, depth, nodes).value.value) <= Refs(base)
    requires SupportedProperties(properties, exact) && SupportedTargets(root, exact)
    ensures Weakens(exact, AcceptsProperties(a, root, properties, instance, Elements(stack)),
                    AcceptsProperties(a, base, VisitFields(root, properties, stack, depth, nodes).value.value,
                                      instance, {}))
    decreases MAX_DEPTH + 1 - depth, |properties| + 1, 0
  {
    hide SupportedTargets, Elements, Visit, Supported, Accepts, IsForbidden, IsBound;
    if properties != [] {
      var head := Visit(root, properties[0].value, stack, depth, nodes).value;
      var tail := VisitFields(root, properties[1..], stack, depth, head.nodes).value.value;
      assert ([Field(properties[0].key, head.value)] + tail)[1..] == tail;
      var v := FieldValue(instance, properties[0].key);
      if v.Some? {
        VisitWeakens(a, root, base, properties[0].value, stack, depth, nodes, v.value, exact);
      }
      PropertiesWeaken(a, root, base, properties[1..], stack, depth, head.nodes, instance, exact);
    }
  }

  lemma {:induction false} ItemsWeaken(a: Assertions, root: Json, base: Json, schemas: seq<Json>, stack: seq<string>,
                                       depth: nat, nodes: nat,
                                       instance: Json, exact: bool)
    requires depth <= MAX_DEPTH + 1 && VisitItems(root, schemas, stack, depth, nodes).Ok?
    requires ItemRefs(schemas) <= Refs(root) &&
      ItemRefs(VisitItems(root, schemas, stack, depth, nodes).value.value) <= Refs(base)
    requires SupportedItems(schemas, exact) && SupportedTargets(root, exact)
    ensures Weakens(exact, AcceptsAny(a, root, schemas, instance, Elements(stack)),
                    AcceptsAny(a, base, VisitItems(root, schemas, stack, depth, nodes).value.value, instance, {}))
    ensures Weakens(exact, AcceptsAll(a, root, schemas, instance, Elements(stack)),
                    AcceptsAll(a, base, VisitItems(root, schemas, stack, depth, nodes).value.value, instance, {}))
    decreases MAX_DEPTH + 1 - depth, |schemas| + 1, 0
  {
    hide SupportedTargets, Elements, Visit, Supported, Accepts;
    if schemas != [] {
      var head := Visit(root, schemas[0], stack, depth, nodes).value;
      var tail := VisitItems(root, schemas[1..], stack, depth, head.nodes).value.value;
      assert ([head.value] + tail)[1..] == tail;
      VisitWeakens(a, root, base, schemas[0], stack, depth, nodes, instance, exact);
      ItemsWeaken(a, root, base, schemas[1..], stack, depth, head.nodes, instance, exact);
    }
  }

  lemma {:induction false} ExtraWeakens(a: Assertions, root: Json, base: Json, schema: Json, names: set<string>,
                                        stack: seq<string>,
                                        depth: nat, nodes: nat, instance: seq<Field>, exact: bool)
    requires depth <= MAX_DEPTH + 1 && Visit(root, schema, stack, depth, nodes).Ok?
    requires Refs(schema) <= Refs(root) && Refs(Visit(root, schema, stack, depth, nodes).value.value) <= Refs(base)
    requires Supported(schema, exact) && SupportedTargets(root, exact)
    ensures Weakens(exact, AcceptsExtra(a, root, schema, instance, names, Elements(stack)),
                    AcceptsExtra(a, base, Visit(root, schema, stack, depth, nodes).value.value, instance, names, {}))
    decreases MAX_DEPTH + 1 - depth, 0, 1, |instance|
  {
    hide SupportedTargets, Elements, Visit, Supported, Accepts;
    if instance != [] {
      VisitWeakens(a, root, base, schema, stack, depth, nodes, instance[0].value, exact);
      ExtraWeakens(a, root, base, schema, names, stack, depth, nodes, instance[1..], exact);
    }
  }

  lemma {:induction false} EachWeakens(a: Assertions, root: Json, base: Json, schema: Json, stack: seq<string>,
                                       depth: nat, nodes: nat,
                                       instances: seq<Json>, exact: bool)
    requires depth <= MAX_DEPTH + 1 && Visit(root, schema, stack, depth, nodes).Ok?
    requires Refs(schema) <= Refs(root) && Refs(Visit(root, schema, stack, depth, nodes).value.value) <= Refs(base)
    requires Supported(schema, exact) && SupportedTargets(root, exact)
    ensures Weakens(exact, AcceptsEach(a, root, schema, instances, Elements(stack)),
                    AcceptsEach(a, base, Visit(root, schema, stack, depth, nodes).value.value, instances, {}))
    decreases MAX_DEPTH + 1 - depth, 0, 1, |instances|
  {
    hide SupportedTargets, Elements, Visit, Supported, Accepts;
    if instances != [] {
      VisitWeakens(a, root, base, schema, stack, depth, nodes, instances[0], exact);
      EachWeakens(a, root, base, schema, stack, depth, nodes, instances[1..], exact);
    }
  }

  // The schema that is sent accepts every instance the tool's own schema accepts, and no
  // other instance when the tool's schema has no bound.
  lemma InliningWeakens(a: Assertions, schema: Json, instance: Json, exact: bool)
    requires NormalizeToolSchema(schema).Ok? && Supported(schema, exact) && SupportedTargets(schema, exact)
    ensures var sent := NormalizeToolSchema(schema).value;
            Weakens(exact, Accepts(a, schema, schema, instance, {}), Accepts(a, sent, sent, instance, {}))
  {
    hide SupportedTargets, Supported, Accepts, Visit;
    assert Elements([]) == {};
    VisitWeakens(a, schema, NormalizeToolSchema(schema).value, schema, [], 0, 0, instance, exact);
  }

  // A bound does get lost: a schema that is a bound alone is sent as one that accepts all.
  lemma BoundIsLost(a: Assertions, key: string, value: Json, instance: Json)
    requires key in BOUND_NAMES
    ensures var schema := Obj([Field(key, value)]);
            && Supported(schema, false) && !Supported(schema, true) && NormalizeToolSchema(schema) == Ok(Obj([]))
            && (Accepts(a, schema, schema, instance, {}) <==> a.bound(key, value, instance))
            && Accepts(a, Obj([]), Obj([]), instance, {})
  {
    BoundNames(key);
    BoundIsNoOther(key);
    var fields := [Field(key, value)];
    hide IsBound;
    assert fields[1..] == [];
    assert FieldValue([], "$ref") == None && FieldValue(fields, "$ref") == None;
    assert VisitFields(Obj(fields), fields, [], 1, 1) == Ok(Visited([], 1));
    assert AcceptsFields(a, Obj(fields), [], PropertyNames(fields), instance, {});
    assert AcceptsFields(a, Obj([]), [], PropertyNames([]), instance, {});
    FieldParts(fields, 0);
    assert AcceptsKeyword(a, Obj(fields), key, value, PropertyNames(fields), instance, {}) ==
        a.bound(key, value, instance);
    assert AcceptsFields(a, Obj(fields), fields, PropertyNames(fields), instance, {}) == a.bound(key, value, instance);
    assert SupportedFields([], true) && SupportedFields([], false);
    assert SupportedKeyword(key, value, false) && !SupportedKeyword(key, value, true);
  }

  lemma BoundIsNoOther(key: string)
    requires IsBound(key)
    ensures key != "properties" && key != "additionalProperties" && key != "items" && key != "anyOf" && key != "allOf"
            && key != "$defs" && key != "definitions" && key != "$ref" && !IsForbidden(key)
  {
  }

  // An object with these optional properties and no other.
  function ClosedObject(properties: seq<Field>): Json {
    Obj([Field("properties", Obj(properties)), Field("additionalProperties", Bool(false))])
  }

  /** A property that is named like a bound is removed with the bounds: an object that has it
      is accepted by the tool's schema and refused by the one that is sent. */
  lemma PropertyNamedLikeBound(a: Assertions, key: string, value: Json)
    requires key in BOUND_NAMES
    ensures var schema, sent := ClosedObject([Field(key, Bool(true))]), ClosedObject([]);
            var instance := Obj([Field(key, value)]);
      && !Supported(schema, false) && NormalizeToolSchema(schema) == Ok(sent)
      && Refs(schema) == {} == Refs(sent)
      && Accepts(a, schema, schema, instance, {}) && !Accepts(a, sent, sent, instance, {})
  {
    BoundNames(key);
    BoundIsNoOther(key);
    BoundNameVisited(key);
    BoundNameAccepted(a, key, value);
    BoundNameRefused(a, key, value);
  }

  lemma ClosedFields(properties: seq<Field>)
    ensures var fields, rest := ClosedObject(properties).fields, [Field("additionalProperties", Bool(false))];
      && fields[1..] == rest && rest[1..] == [] && RefOf(fields).None?
      && FieldValue(fields, "properties") == Some(Obj(properties))
      && Refs(ClosedObject(properties)) == FieldRefs(properties)
  {
    var fields, rest := ClosedObject(properties).fields, [Field("additionalProperties", Bool(false))];
    assert fields[1..] == rest && rest[1..] == [];
    assert FieldValue([], "$ref").None? && FieldValue(rest, "$ref").None?;
    assert FieldRefs([]) == {} && FieldRefs(rest) == {} && Refs(fields[0].value) == FieldRefs(properties);
    assert FieldRefs(fields) == {} + FieldRefs(properties) + FieldRefs(rest);
  }

  lemma BoundNameVisited(key: string)
    requires IsBound(key)
    ensures !Supported(ClosedObject([Field(key, Bool(true))]), false)
    ensures NormalizeToolSchema(ClosedObject([Field(key, Bool(true))])) == Ok(ClosedObject([]))
  {
    BoundIsNoOther(key);
    hide IsBound, IsForbidden;
    var properties := [Field(key, Bool(true))];
    var root := ClosedObject(properties);
    var rest := [Field("additionalProperties", Bool(false))];
    ClosedFields(properties);
    KeywordsAreNoBounds();
    assert properties[1..] == [] && FieldValue([], "$ref").None?;
    assert VisitFields(root, properties, [], 2, 2) == Ok(Visited([], 2));
    assert Visit(root, Obj(properties), [], 1, 1) == Ok(Visited(Obj([]), 2));
    assert VisitFields(root, [], [], 1, 3) == Ok(Visited([], 3));
    assert Visit(root, Bool(false), [], 1, 2) == Ok(Visited(Bool(false), 3));
    assert rest + [] == rest;
    assert VisitFields(root, rest, [], 1, 2) == Ok(Visited(rest, 3));
    assert [Field("properties", Obj([]))] + rest == ClosedObject([]).fields;
    assert VisitFields(root, root.fields, [], 1, 1) == Ok(Visited(ClosedObject([]).fields, 3));
    assert Visit(root, root, [], 0, 0) == Ok(Visited(ClosedObject([]), 3));
    assert !SupportedProperties(properties, false) && !SupportedFields(root.fields, false);
  }

  lemma KeywordsAreNoBounds()
    ensures !IsBound("properties") && !IsBound("additionalProperties")
    ensures !IsForbidden("properties") && !IsForbidden("additionalProperties")
  {
  }

  lemma BoundNameAccepted(a: Assertions, key: string, value: Json)
    requires key != "$ref"
    ensures var schema := ClosedObject([Field(key, Bool(true))]);
            Refs(schema) == {} && Accepts(a, schema, schema, Obj([Field(key, value)]), {})
  {
    var properties, instance := [Field(key, Bool(true))], [Field(key, value)];
    var schema := ClosedObject(properties);
    var rest := [Field("additionalProperties", Bool(false))];
    ClosedFields(properties);
    assert properties[1..] == [] && instance[1..] == [];
    assert FieldRefs([]) == {} && FieldRefs(properties) == {};
    assert Names([]) == {} && PropertyNames(schema.fields) == {key};
    assert AcceptsProperties(a, schema, [], instance, {}) && AcceptsProperties(a, schema, properties, instance, {});
    assert AcceptsExtra(a, schema, Bool(false), [], {key}, {}) &&
        AcceptsExtra(a, schema, Bool(false), instance, {key}, {});
    assert AcceptsFields(a, schema, [], {key}, Obj(instance), {}) &&
        AcceptsFields(a, schema, rest, {key}, Obj(instance), {});
  }

  lemma BoundNameRefused(a: Assertions, key: string, value: Json)
    ensures var sent := ClosedObject([]); Refs(sent) == {} && !Accepts(a, sent, sent, Obj([Field(key, value)]), {})
  {
    var instance, sent := [Field(key, value)], ClosedObject([]);
    var rest := [Field("additionalProperties", Bool(false))];
    ClosedFields([]);
    assert Names([]) == {} && PropertyNames(sent.fields) == {};
    assert !AcceptsExtra(a, sent, Bool(false), instance, {}, {});
    assert !AcceptsFields(a, sent, rest, {}, Obj(instance), {});
  }
}
