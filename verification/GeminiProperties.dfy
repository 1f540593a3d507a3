/**
 Which declared properties survive normalizeGeminiSchema.

 An object schema is read in one of three ways: field by field, as a union with null that is
 folded into its other branch, or as a reference whose siblings are spread over its target.
 `PropertiesSurviveIff` says, for all of them, exactly when no declared property is lost.
 */
module GeminiProperties {
  import opened Wrappers
  import opened Json
  import opened SchemaPointers
  import opened GeminiSchema

  // ---------------------------------------------------------------- how an object is read

  datatype Form =
    | Other                                            // not an object
    | Plain(fields: seq<Field>)
    | Folded(fields: seq<Field>, branch: Form)         // a union with null and its other branch
    | Referring(target: Form, siblings: Option<Form>)

  function FormOf(index: Index, root: Json, value: Json, resolving: set<string>): Form
    requires Refs(value) <= Refs(root) && Normalize(index, root, value, resolving).Ok?
    decreases Refs(root) - resolving, Nodes(value)
  {
    if !value.Obj? then Other else
    var fields := value.fields;
    if RefOf(fields).Some? then
      var reference := RefOf(fields).value;
      RefOfIsRef(fields);
      LocateRefs(root, Tokens(reference).value, index);
      Referring(FormOf(index, root, Resolve(index, root, reference).value, resolving + {reference}),
                if Siblings(fields) == [] then None
                else Some(FormOf(index, root, Obj(Siblings(fields)), resolving)))
    else if NonNull(fields).Some? then Folded(fields, FormOf(index, root, NonNull(fields).value, resolving))
    else Plain(fields)
  }

  predicate IsObject(form: Form) {
    match form
    case Other => false
    case Plain(_) => true
    case Folded(_, branch) => IsObject(branch)
    case Referring(target, _) => IsObject(target)
  }

  // The siblings of a reference have their own property map, which replaces the target's.
  predicate Overrides(target: Form, siblings: Option<Form>)
    decreases siblings
  {
    siblings.Some? && IsObject(target) && HasMap(siblings.value)
  }

  // Is there a property map in the normalised schema?
  predicate HasMap(form: Form) {
    match form
    case Other => false
    case Plain(fields) => FieldValue(fields, "properties").Some?
    case Folded(_, branch) => HasMap(branch)
    case Referring(target, siblings) => HasMap(target) || Overrides(target, siblings)
  }

  // Every property declared on the way: in the object, in the folded branch, in the target of
  // the reference and beside it.
  function Declared(form: Form): set<string> {
    match form
    case Other => {}
    case Plain(fields) => PropertyNames(fields)
    case Folded(fields, branch) => PropertyNames(fields) + Declared(branch)
    case Referring(target, siblings) =>
      Declared(target) + if siblings.Some? then Declared(siblings.value) else {}
  }

  /** What can be checked of the schema: no property is named like a dropped keyword, whatever
      is declared beside a folded union is declared in its branch, and of a reference's target
      and siblings the one whose property map is sent declares what the other does. */
  predicate LosesNothing(form: Form) {
    match form
    case Other => true
    case Plain(fields) => forall name :: name in PropertyNames(fields) ==> !IsDropped(name)
    case Folded(fields, branch) => LosesNothing(branch) && PropertyNames(fields) <= Declared(branch)
    case Referring(target, siblings) =>
      if siblings.None? then LosesNothing(target)
      else if Overrides(target, siblings) then
        LosesNothing(siblings.value) && Declared(target) <= Declared(siblings.value)
      else LosesNothing(target) && Declared(siblings.value) <= Declared(target)
  }

  // JavaScript objects have distinct keys, and a property map takes names to schemas, which
  // are objects or booleans.
  predicate Proper(form: Form) {
    match form
    case Other => true
    case Plain(fields) =>
      var properties := FieldValue(fields, "properties");
      && DistinctNames(fields)
      && (properties.Some? && properties.value.Obj? ==> MapsToSchemas(properties.value.fields))
    case Folded(_, branch) => Proper(branch)
    case Referring(target, siblings) => Proper(target) && (siblings.Some? ==> Proper(siblings.value))
  }

  predicate DistinctNames(fields: seq<Field>) {
    forall i, j :: 0 <= i < j < |fields| ==> fields[i].key != fields[j].key
  }

  predicate MapsToSchemas(fields: seq<Field>) {
    forall i :: 0 <= i < |fields| ==> fields[i].value.Obj? || fields[i].value.Bool?
  }

  // ---------------------------------------------------------------- spreading

  lemma {:induction false} AssignValue(fields: seq<Field>, f: Field, key: string)
    requires DistinctNames(fields)
    ensures DistinctNames(Assign(fields, f))
    ensures forall g :: g in Assign(fields, f) ==> g == f || g in fields
    ensures FieldValue(Assign(fields, f), key) == if f.key == key then Some(f.value) else FieldValue(fields, key)
  {
    if fields != [] {
      var rest := fields[1..];
      assert forall i :: 0 <= i < |rest| ==> rest[i] == fields[i + 1];
      AssignValue(rest, f, key);
      if fields[0].key != f.key {
        var changed := Assign(rest, f);
        forall i | 0 <= i < |changed| ensures changed[i].key != fields[0].key {
          assert changed[i] in changed;
        }
      }
    }
  }

  lemma {:induction false} SpreadValue(fields: seq<Field>, more: seq<Field>, key: string)
    requires DistinctNames(fields) && DistinctNames(more)
    ensures DistinctNames(Spread(fields, more))
    ensures FieldValue(Spread(fields, more), key)
         == if FieldValue(more, key).Some? then FieldValue(more, key) else FieldValue(fields, key)
    decreases |more|
  {
    if more != [] {
      var rest := more[1..];
      assert forall i :: 0 <= i < |rest| ==> rest[i] == more[i + 1];
      AssignValue(fields, more[0], key);
      SpreadValue(Assign(fields, more[0]), rest, key);
    }
  }

  // ---------------------------------------------------------------- field by field

  lemma {:induction false} NameIn(fields: seq<Field>, name: string)
    ensures name in Names(fields) <==> name in Keys(fields)
    ensures name in Names(fields) <==> exists i :: 0 <= i < |fields| && fields[i].key == name
    ensures name in KeptKeys(fields) <==> name in Keys(fields) && !IsDropped(name)
  {
    hide IsDropped;
    if fields != [] {
      NameIn(fields[1..], name);
      assert forall i :: 0 < i < |fields| ==> fields[i] == fields[1..][i - 1];
    }
  }

  // Exactly the names that are not dropped are left.
  lemma NamesLeft(index: Index, root: Json, fields: seq<Field>, resolving: set<string>, name: string)
    requires FieldRefs(fields) <= Refs(root) && NormalizeFields(index, root, fields, resolving).Ok?
    ensures name in Names(NormalizeFields(index, root, fields, resolving).value) <==>
      name in Names(fields) && !IsDropped(name)
  {
    hide IsDropped, NormalizeFields, Names, Keys, KeptKeys;
    NamesKept(index, root, fields, resolving);
    NameIn(fields, name);
    NameIn(NormalizeFields(index, root, fields, resolving).value, name);
  }

  lemma {:induction false} DistinctLeft(index: Index, root: Json, fields: seq<Field>, resolving: set<string>)
    requires FieldRefs(fields) <= Refs(root) && NormalizeFields(index, root, fields, resolving).Ok?
    requires DistinctNames(fields)
    ensures DistinctNames(NormalizeFields(index, root, fields, resolving).value)
    decreases |fields|
  {
    hide IsDropped, Normalize;
    if fields != [] {
      var rest := fields[1..];
      assert forall i :: 0 <= i < |rest| ==> rest[i] == fields[i + 1];
      DistinctLeft(index, root, rest, resolving);
      if !IsDropped(fields[0].key) {
        var tail := NormalizeFields(index, root, rest, resolving).value;
        forall i | 0 <= i < |tail| ensures tail[i].key != fields[0].key {
          NamesLeft(index, root, rest, resolving, tail[i].key);
          NameIn(tail, tail[i].key);
          NameIn(rest, tail[i].key);
        }
      }
    }
  }

  lemma {:induction false} ValueLeft(index: Index, root: Json, fields: seq<Field>, resolving: set<string>, key: string)
    requires FieldRefs(fields) <= Refs(root) && NormalizeFields(index, root, fields, resolving).Ok? && !IsDropped(key)
    ensures var r := NormalizeFields(index, root, fields, resolving).value;
      && (FieldValue(r, key).Some? <==> FieldValue(fields, key).Some?)
      && (FieldValue(r, key).Some? ==>
            var child := FieldValue(fields, key).value;
            Refs(child) <= Refs(root) && Normalize(index, root, child, resolving) == Ok(FieldValue(r, key).value))
    decreases |fields|
  {
    hide IsDropped, Normalize;
    if fields != [] {
      ValueLeft(index, root, fields[1..], resolving, key);
    }
  }

  // ---------------------------------------------------------------- the normalised properties

  function PropertiesOf(j: Json): set<string> {
    if j.Obj? then PropertyNames(j.fields) else {}
  }

  // The normalised schema has the shape that its form foretells.
  ghost predicate AsForetold(form: Form, result: Json) {
    && (result.Obj? <==> IsObject(form))
    && (result.Obj? ==> DistinctNames(result.fields))
    && (result.Obj? ==> (FieldValue(result.fields, "properties").Some? <==> HasMap(form)))
    && PropertiesOf(result) <= Declared(form)
    && (Declared(form) <= PropertiesOf(result) <==> LosesNothing(form))
  }

  // A property map is read field by field.
  lemma MapIsPlain(fields: seq<Field>)
    requires MapsToSchemas(fields)
    ensures RefOf(fields).None? && NonNull(fields).None?
  {
  }

  lemma PlainForetold(index: Index, root: Json, fields: seq<Field>, resolving: set<string>)
    requires FieldRefs(fields) <= Refs(root) && NormalizeFields(index, root, fields, resolving).Ok?
    requires Proper(Plain(fields))
    ensures AsForetold(Plain(fields), Obj(NormalizeFields(index, root, fields, resolving).value))
  {
    hide NormalizeFields, MapsToSchemas, RefOf, NonNull, Names;
    var r := NormalizeFields(index, root, fields, resolving).value;
    DistinctLeft(index, root, fields, resolving);
    ValueLeft(index, root, fields, resolving, "properties");
    var properties := FieldValue(fields, "properties");
    if properties.Some? && properties.value.Obj? {
      MapIsPlain(properties.value.fields);
      forall name ensures name in PropertyNames(r) <==> name in PropertyNames(fields) && !IsDropped(name) {
        NamesLeft(index, root, properties.value.fields, resolving, name);
      }
    }
  }

  lemma FoldedForetold(fields: seq<Field>, branch: Form, inner: Json)
    requires AsForetold(branch, inner)
    ensures AsForetold(Folded(fields, branch), Nullable(inner, fields))
  {
    hide Spread, Names;
    if inner.Obj? {
      var described := Spread(inner.fields, Description(fields));
      SpreadValue(inner.fields, Description(fields), "properties");
      SpreadValue(described, [Field("nullable", Bool(true))], "properties");
    }
  }

  lemma ReferringForetold(target: Form, siblings: Form, inner: Json, rest: Json)
    requires AsForetold(target, inner) && AsForetold(siblings, rest)
    ensures AsForetold(Referring(target, Some(siblings)), Merged(inner, rest))
  {
    hide Spread, Names, HasMap, IsObject;
    MapNeedsObject(siblings);
    ReferringShape(target, siblings);
    var merged := Merged(inner, rest);
    if inner.Obj? && rest.Obj? {
      SpreadValue(inner.fields, rest.fields, "properties");
    }
    assert PropertiesOf(merged) == if Overrides(target, Some(siblings)) then PropertiesOf(rest)
                                   else PropertiesOf(inner);
  }

  lemma ReferringShape(target: Form, siblings: Form)
    ensures var form := Referring(target, Some(siblings));
      && (IsObject(form) <==> IsObject(target))
      && (HasMap(form) <==> HasMap(target) || Overrides(target, Some(siblings)))
  {
  }

  lemma {:induction false} MapNeedsObject(form: Form)
    ensures HasMap(form) ==> IsObject(form)
  {
    match form
    case Folded(_, branch) => MapNeedsObject(branch);
    case Referring(target, siblings) =>
      MapNeedsObject(target);
      assert Overrides(target, siblings) ==> IsObject(target);
    case _ =>
  }

  lemma {:induction false} FormForetells(index: Index, root: Json, value: Json, resolving: set<string>)
    requires Refs(value) <= Refs(root) && Normalize(index, root, value, resolving).Ok?
    requires Proper(FormOf(index, root, value, resolving))
    ensures AsForetold(FormOf(index, root, value, resolving), Normalize(index, root, value, resolving).value)
    decreases Refs(root) - resolving, Nodes(value)
  {
    hide AsForetold, Tokens, Locate, NonNull, RefOf, Siblings, NormalizeFields, NormalizeItems;
    if !value.Obj? {
      OtherForetold(index, root, value, resolving);
    } else if RefOf(value.fields).Some? {
      ReferenceForetells(index, root, value.fields, resolving);
    } else if NonNull(value.fields).Some? {
      var branch := NonNull(value.fields).value;
      FormForetells(index, root, branch, resolving);
      FoldedForetold(value.fields, FormOf(index, root, branch, resolving),
                     Normalize(index, root, branch, resolving).value);
    } else {
      PlainForetold(index, root, value.fields, resolving);
    }
  }

  lemma OtherForetold(index: Index, root: Json, value: Json, resolving: set<string>)
    requires Refs(value) <= Refs(root) && Normalize(index, root, value, resolving).Ok? && !value.Obj?
    ensures AsForetold(Other, Normalize(index, root, value, resolving).value)
  {
  }

  lemma {:induction false} ReferenceForetells(index: Index, root: Json, fields: seq<Field>, resolving: set<string>)
    requires FieldRefs(fields) <= Refs(root) && Normalize(index, root, Obj(fields), resolving).Ok?
    requires RefOf(fields).Some? && Proper(FormOf(index, root, Obj(fields), resolving))
    ensures AsForetold(FormOf(index, root, Obj(fields), resolving),
                       Normalize(index, root, Obj(fields), resolving).value)
    decreases Refs(root) - resolving, Nodes(Obj(fields)), 0
  {
    hide AsForetold, Tokens, Locate, NonNull, NormalizeFields, NormalizeItems, Merged;
    var reference, siblings := RefOf(fields).value, Obj(Siblings(fields));
    RefOfIsRef(fields);
    LocateRefs(root, Tokens(reference).value, index);
    var target := Resolve(index, root, reference).value;
    var inner := Normalize(index, root, target, resolving + {reference}).value;
    FormForetells(index, root, target, resolving + {reference});
    if Siblings(fields) == [] {
      AloneForetold(FormOf(index, root, target, resolving + {reference}), inner);
    } else {
      FormForetells(index, root, siblings, resolving);
      ReferringForetold(FormOf(index, root, target, resolving + {reference}), FormOf(index, root, siblings, resolving),
                        inner, Normalize(index, root, siblings, resolving).value);
    }
  }

  lemma AloneForetold(target: Form, inner: Json)
    requires AsForetold(target, inner)
    ensures AsForetold(Referring(target, None), inner)
  {
    assert !Overrides(target, None);
  }

  /** Of an accepted object, all declared properties are sent if and only if the schema loses
      nothing; none is sent that was not declared. */
  lemma PropertiesSurviveIff(index: Index, root: Json, value: Json, resolving: set<string>)
    requires Refs(value) <= Refs(root) && Normalize(index, root, value, resolving).Ok?
    requires Proper(FormOf(index, root, value, resolving))
    ensures var form, sent := FormOf(index, root, value, resolving), Normalize(index, root, value, resolving).value;
      && PropertiesOf(sent) <= Declared(form)
      && (PropertiesOf(sent) == Declared(form) <==> LosesNothing(form))
  {
    hide FormOf, Normalize;
    FormForetells(index, root, value, resolving);
  }

  // ---------------------------------------------------------------- schemas that lose a property

  const TEXT: Json := Obj([Field("type", Str("string"))])

  lemma ReadPlainly(index: Index, root: Json, fields: seq<Field>, resolving: set<string>)
    requires FieldRefs(fields) <= Refs(root) && FieldValue(fields, "$ref").None? && FieldValue(fields, "anyOf").None?
    ensures NormalizeFields(index, root, fields, resolving).Ok? ==>
      Normalize(index, root, Obj(fields), resolving)
        == Ok(Obj(NormalizeFields(index, root, fields, resolving).value))
  {
    hide NormalizeFields;
  }

  lemma OneField(index: Index, root: Json, f: Field, more: seq<Field>, resolving: set<string>)
    requires FieldRefs([f] + more) <= Refs(root)
    ensures FieldRefs(more) <= Refs(root) && Refs(f.value) <= Refs(root)
    ensures NormalizeFields(index, root, [f] + more, resolving)
         == if IsDropped(f.key) then NormalizeFields(index, root, more, resolving)
            else if Normalize(index, root, f.value, resolving).Err? then
              Err(Normalize(index, root, f.value, resolving).error)
            else if NormalizeFields(index, root, more, resolving).Err? then
              NormalizeFields(index, root, more, resolving)
            else Ok([Field(f.key, Normalize(index, root, f.value, resolving).value)]
                    + NormalizeFields(index, root, more, resolving).value)
  {
    hide IsDropped, Normalize;
    assert ([f] + more)[0] == f && ([f] + more)[1..] == more;
  }

  // A map of one property, and an object schema with that map alone.
  lemma OneProperty(index: Index, root: Json, name: string, resolving: set<string>)
    requires name != "$ref" && name != "anyOf"
    ensures Refs(TEXT) == {} && FieldRefs([Field(name, TEXT)]) == {}
    ensures Normalize(index, root, TEXT, resolving) == Ok(TEXT)
    ensures Normalize(index, root, Obj([Field(name, TEXT)]), resolving)
         == Ok(Obj(if IsDropped(name) then [] else [Field(name, TEXT)]))
  {
    hide IsDropped;
    var inner := [Field("type", Str("string"))];
    assert inner == inner + [] && [Field(name, TEXT)] == [Field(name, TEXT)] + [];
    assert FieldRefs([]) == {} && inner[1..] == [] && [Field(name, TEXT)][1..] == [];
    assert FieldValue([], "$ref").None? && FieldValue([], "anyOf").None?;
    assert !IsDropped("type") by { TypeIsKept(); }
    OneField(index, root, inner[0], [], resolving);
    ReadPlainly(index, root, inner, resolving);
    OneField(index, root, Field(name, TEXT), [], resolving);
    ReadPlainly(index, root, [Field(name, TEXT)], resolving);
  }

  lemma TypeIsKept()
    ensures !IsDropped("type") && !IsDropped("properties") && !IsDropped("required")
    ensures !IsDropped("a") && !IsDropped("b") && !IsDropped("d")
    ensures IsDropped("pattern")
  {
  }

  function MapOf(name: string): Json { Obj([Field(name, TEXT)]) }

  function WithMap(name: string): Json { Obj([Field("properties", MapOf(name))]) }

  lemma OneMap(index: Index, root: Json, name: string, resolving: set<string>)
    requires name != "$ref" && name != "anyOf"
    ensures Refs(WithMap(name)) == {}
    ensures Normalize(index, root, WithMap(name), resolving)
         == Ok(Obj([Field("properties", if IsDropped(name) then Obj([]) else MapOf(name))]))
  {
    hide IsDropped, Normalize, NormalizeFields;
    OneProperty(index, root, name, resolving);
    TypeIsKept();
    var fields := [Field("properties", MapOf(name))];
    assert fields == fields + [] && fields[1..] == [];
    assert FieldValue([], "$ref").None? && FieldValue([], "anyOf").None?;
    NoFields(index, root, resolving);
    OneField(index, root, fields[0], [], resolving);
    var sent := if IsDropped(name) then Obj([]) else MapOf(name);
    assert [Field("properties", sent)] + [] == [Field("properties", sent)];
    ReadPlainly(index, root, fields, resolving);
  }

  lemma NoFields(index: Index, root: Json, resolving: set<string>)
    ensures FieldRefs([]) == {} && NormalizeFields(index, root, [], resolving) == Ok([])
  {
  }

  // A property that is named like a dropped keyword.
  lemma KeywordNameIsLost(index: Index)
    ensures Normalize(index, WithMap("pattern"), WithMap("pattern"), {}) == Ok(Obj([Field("properties", Obj([]))]))
  {
    hide Normalize;
    OneMap(index, WithMap("pattern"), "pattern", {});
    TypeIsKept();
  }

  // A property beside a union with null: only the branch is left.
  function Branch(): seq<Field> { [Field("required", Arr([Str("a")]))] }

  function BesideUnion(): Json {
    Obj([Field("properties", MapOf("a")), Field("anyOf", Arr([Obj(Branch()), Obj([Field("type", Str("null"))])]))])
  }

  lemma PropertyBesideUnionIsLost(index: Index)
    ensures Normalize(index, BesideUnion(), BesideUnion(), {}) == Ok(Obj(Branch() + [Field("nullable", Bool(true))]))
  {
    UnionFolds();
    BranchStays(index, BesideUnion());
    hide Normalize, NonNull, RefOf;
    NullableBranch();
    FoldStep(index, BesideUnion().fields, Obj(Branch()));
  }

  lemma FoldStep(index: Index, fields: seq<Field>, branch: Json)
    requires RefOf(fields).None? && NonNull(fields) == Some(branch) && Normalize(index, Obj(fields), branch, {}).Ok?
    ensures Normalize(index, Obj(fields), Obj(fields), {})
         == Ok(Nullable(Normalize(index, Obj(fields), branch, {}).value, fields))
  {
    hide NonNull, RefOf, Nullable;
  }

  lemma UnionFolds()
    ensures var fields := BesideUnion().fields; RefOf(fields).None? && NonNull(fields) == Some(Obj(Branch()))
  {
    var fields := BesideUnion().fields;
    assert fields[1..][1..] == [] && fields[1..][0].key == "anyOf" && Branch()[1..] == [];
    assert FieldValue([], "$ref").None? && FieldValue(fields[1..], "$ref").None?;
    assert FieldValue(fields[1..], "anyOf") == Some(fields[1].value);
    assert FieldValue([], "type").None? && FieldValue(Branch(), "type").None?;
  }

  lemma NullableBranch()
    ensures Nullable(Obj(Branch()), BesideUnion().fields) == Obj(Branch() + [Field("nullable", Bool(true))])
  {
    var fields, nullable := BesideUnion().fields, [Field("nullable", Bool(true))];
    assert fields[1..][1..] == [] && fields[1..][0].key == "anyOf" && Branch()[1..] == [] && nullable[1..] == [];
    assert FieldValue([], "description").None? && FieldValue(fields[1..], "description").None?;
    assert Description(fields) == [] && Spread(Branch(), []) == Branch();
    assert Assign([], nullable[0]) == nullable && Assign(Branch(), nullable[0]) == Branch() + nullable;
    assert Spread(Branch(), nullable) == Spread(Branch() + nullable, []) == Branch() + nullable;
  }

  lemma BranchStays(index: Index, root: Json)
    ensures Refs(Obj(Branch())) == {} && Normalize(index, root, Obj(Branch()), {}) == Ok(Obj(Branch()))
  {
    hide IsDropped;
    assert Branch() == Branch() + [] && Branch()[1..] == [] && [Str("a")][1..] == [];
    assert FieldValue([], "$ref").None? && FieldValue([], "anyOf").None?;
    assert ItemRefs([]) == {} && ItemRefs([Str("a")]) == {};
    assert NormalizeItems(index, root, [], {}) == Ok([]) && Normalize(index, root, Str("a"), {}) == Ok(Str("a"));
    assert NormalizeItems(index, root, [Str("a")], {}) == Ok([Str("a")] + []);
    assert [Str("a")] + [] == [Str("a")];
    assert Normalize(index, root, Arr([Str("a")]), {}) == Ok(Arr([Str("a")]));
    NoFields(index, root, {});
    TypeIsKept();
    OneField(index, root, Branch()[0], [], {});
    ReadPlainly(index, root, Branch(), {});
  }

  // A property of the target, when properties stand beside the reference.
  function SiblingFields(): seq<Field> { [Field("properties", MapOf("a")), Field("d", WithMap("b"))] }

  function BesideReference(): Json { Obj([Field("$ref", Str("#/d"))] + SiblingFields()) }

  lemma PropertyOfTargetIsLost(index: Index)
    ensures Normalize(index, BesideReference(), BesideReference(), {}) == Ok(Obj(SiblingFields()))
  {
    var root, fields := BesideReference(), BesideReference().fields;
    assert RefOf(fields) == Some("#/d") && Resolve(index, root, "#/d") == Ok(WithMap("b")) by { TargetFound(index); }
    assert Siblings(fields) == SiblingFields() by { SiblingsAre(); }
    SiblingsStay(index);
    hide Normalize, RefOf, Resolve, Siblings, IsDropped;
    TypeIsKept();
    OneMap(index, root, "b", {"#/d"});
    SiblingsReplace();
    ReferenceStep(index, root, fields, "#/d");
  }

  lemma ReferenceStep(index: Index, root: Json, fields: seq<Field>, reference: string)
    requires FieldRefs(fields) <= Refs(root) && RefOf(fields) == Some(reference) && Resolve(index, root, reference).Ok?
    requires Refs(Resolve(index, root, reference).value) <= Refs(root) && Siblings(fields) != []
    requires Normalize(index, root, Resolve(index, root, reference).value, {reference}).Ok?
    requires Normalize(index, root, Obj(Siblings(fields)), {}).Ok?
    ensures Normalize(index, root, Obj(fields), {})
         == Ok(Merged(Normalize(index, root, Resolve(index, root, reference).value, {reference}).value,
                      Normalize(index, root, Obj(Siblings(fields)), {}).value))
  {
    hide Resolve, RefOf, Siblings, Merged;
    assert {} + {reference} == {reference};
  }

  lemma TargetFound(index: Index)
    ensures RefOf(BesideReference().fields) == Some("#/d")
    ensures Resolve(index, BesideReference(), "#/d") == Ok(WithMap("b"))
  {
    var fields := BesideReference().fields;
    assert fields[0] == Field("$ref", Str("#/d")) && fields[1..] == SiblingFields();
    assert SiblingFields()[1..] == [Field("d", WithMap("b"))];
    assert "#/d"[2..] == "d" && "d"[1..] == "" && Split("") == [""];
    assert [""] + [] == [""] && ['d'] + "" == "d" && ["d"] + [] == ["d"];
    SplitPlain('d', "", "", []);
    assert ReplaceAll("d", '1', '/') == "d" && ReplaceAll("d", '0', '~') == "d";
    assert UnescapeAll(["d"]) == ["d"] && ["d"][1..] == [];
    assert FieldValue([Field("d", WithMap("b"))], "d") == Some(WithMap("b"));
    assert FieldValue(SiblingFields(), "d") == Some(WithMap("b"));
    assert Step(BesideReference(), "d", index) == Some(WithMap("b"));
  }

  lemma SiblingsAre()
    ensures Siblings(BesideReference().fields) == SiblingFields()
  {
    var rest := SiblingFields();
    assert BesideReference().fields[1..] == rest && rest[1..][1..] == [];
    assert Siblings(rest[1..]) == rest[1..] by { hide FieldRefs, FieldNodes; }
    assert rest == [rest[0]] + rest[1..];
  }

  lemma SiblingsStay(index: Index)
    ensures FieldRefs(SiblingFields()) == {}
    ensures Normalize(index, BesideReference(), Obj(SiblingFields()), {}) == Ok(Obj(SiblingFields()))
  {
    hide Normalize, NormalizeFields, IsDropped;
    var root, rest := BesideReference(), SiblingFields();
    TypeIsKept();
    NoFields(index, root, {});
    OneProperty(index, root, "a", {});
    OneMap(index, root, "b", {});
    assert rest == [rest[0]] + [rest[1]] && rest[1..] == [rest[1]];
    assert [rest[1]] == [rest[1]] + [] && [rest[1]][1..] == [];
    OneField(index, root, rest[1], [], {});
    OneField(index, root, rest[0], [rest[1]], {});
    assert FieldValue([], "$ref").None? && FieldValue([], "anyOf").None?;
    assert FieldValue([rest[1]], "$ref").None? && FieldValue([rest[1]], "anyOf").None?;
    ReadPlainly(index, root, rest, {});
  }

  lemma SiblingsReplace()
    ensures Merged(WithMap("b"), Obj(SiblingFields())) == Obj(SiblingFields())
  {
    var target, rest := [Field("properties", MapOf("b"))], SiblingFields();
    assert Assign(target, rest[0]) == [rest[0]];
    assert [rest[0]][1..] == [] && rest[1..] == [rest[1]] && [rest[1]][1..] == [];
    assert Assign([rest[0]], rest[1]) == rest;
    assert Spread([rest[0]], [rest[1]]) == Spread(rest, []) == rest;
    assert Spread(target, rest) == Spread([rest[0]], [rest[1]]);
  }
}
