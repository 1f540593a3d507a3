/**
 normalizeGeminiSchema: references inlined, nullable unions folded, unsupported keywords
 removed.  It ends because every reference it follows leaves fewer references to follow.
 */
module GeminiSchema {
  import opened Wrappers
  import opened Json
  import opened SchemaPointers

  datatype SchemaError = NotLocal | Unresolved | CyclicReference

  // Number(segment) as an array index
  type Index = string -> Option<nat>

  predicate IsDropped(key: string) {
    key == "$schema" || key == "$defs" || key == "definitions" || key == "additionalProperties" || key == "pattern"
    || key == "minLength" || key == "maxLength"
  }

  function Resolve(index: Index, root: Json, reference: string): Result<Json, SchemaError> {
    var tokens := Tokens(reference);
    if tokens.None? then Err(NotLocal) else
    var target := Locate(root, tokens.value, index);
    if target.None? then Err(Unresolved) else Ok(target.value)
  }

  // { ...fields, [f.key]: f.value }
  function Assign(fields: seq<Field>, f: Field): seq<Field> {
    if fields == [] then [f]
    else if fields[0].key == f.key then [f] + fields[1..]
    else [fields[0]] + Assign(fields[1..], f)
  }

  function Spread(fields: seq<Field>, more: seq<Field>): seq<Field>
    decreases |more|
  {
    if more == [] then fields else Spread(Assign(fields, more[0]), more[1..])
  }

  function Siblings(fields: seq<Field>): (rest: seq<Field>)
    ensures FieldRefs(rest) <= FieldRefs(fields) && FieldNodes(rest) <= FieldNodes(fields)
    ensures forall i :: 0 <= i < |rest| ==> rest[i].key != "$ref" && rest[i] in fields
    ensures FieldValue(fields, "$ref").Some? ==> FieldNodes(rest) < FieldNodes(fields)
  {
    if fields == [] then [] else
    assert fields == [fields[0]] + fields[1..];
    if fields[0].key == "$ref" then Siblings(fields[1..]) else [fields[0]] + Siblings(fields[1..])
  }

  predicate IsNullType(j: Json) {
    j.Obj? && FieldValue(j.fields, "type") == Some(Str("null"))
  }

  // The other branch of a two-branch union with null, when it is an object.
  function NonNull(fields: seq<Field>): (r: Option<Json>)
    ensures r.Some? ==> r.value.Obj? && Nodes(r.value) < Nodes(Obj(fields)) && Refs(r.value) <= FieldRefs(fields)
  {
    var anyOf := FieldValue(fields, "anyOf");
    if anyOf.Some? && anyOf.value.Arr? && |anyOf.value.items| == 2 then
      NonNullParts(fields);
      var first, second := anyOf.value.items[0], anyOf.value.items[1];
      if IsNullType(first) && !IsNullType(second) && second.Obj? then Some(second)
      else if IsNullType(second) && !IsNullType(first) && first.Obj? then Some(first)
      else None
    else None
  }

  lemma NonNullParts(fields: seq<Field>)
    requires FieldValue(fields, "anyOf").Some? && FieldValue(fields, "anyOf").value.Arr?
    ensures forall j :: j in FieldValue(fields, "anyOf").value.items ==>
      Nodes(j) < Nodes(Obj(fields)) && Refs(j) <= FieldRefs(fields)
  {
    var union := FieldValue(fields, "anyOf").value;
    var i :| 0 <= i < |fields| && fields[i] == Field("anyOf", union);
    FieldParts(fields, i);
    forall k | 0 <= k < |union.items|
      ensures Nodes(union.items[k]) < Nodes(Obj(fields)) && Refs(union.items[k]) <= FieldRefs(fields)
    {
      ItemParts(union.items, k);
    }
  }

  function Description(fields: seq<Field>): seq<Field> {
    var d := FieldValue(fields, "description");
    if d.Some? && d.value.Str? then [Field("description", d.value)] else []
  }

  // Siblings of a reference override its target.
  function Merged(target: Json, siblings: Json): Json {
    if target.Obj? && siblings.Obj? then Obj(Spread(target.fields, siblings.fields)) else target
  }

  function Nullable(branch: Json, fields: seq<Field>): Json {
    if branch.Obj? then
      Obj(Spread(Spread(branch.fields, Description(fields)), [Field("nullable", Bool(true))]))
    else branch
  }

  function Normalize(index: Index, root: Json, value: Json, resolving: set<string>): Result<Json, SchemaError>
    requires Refs(value) <= Refs(root)
    decreases Refs(root) - resolving, Nodes(value), 0
  {
    match value
    case Arr(items) =>
      var r :- NormalizeItems(index, root, items, resolving);
      Ok(Arr(r))
    case Obj(fields) =>
      if RefOf(fields).Some? then
        var reference := RefOf(fields).value;
        if reference in resolving then Err(CyclicReference) else
        var target :- Resolve(index, root, reference);
        RefOfIsRef(fields);
        LocateRefs(root, Tokens(reference).value, index);
        var inlined :- Normalize(index, root, target, resolving + {reference});
        var siblings := Siblings(fields);
        if siblings == [] then Ok(inlined) else
        var rest :- Normalize(index, root, Obj(siblings), resolving);
        Ok(Merged(inlined, rest))
      else if NonNull(fields).Some? then
        var branch :- Normalize(index, root, NonNull(fields).value, resolving);
        Ok(Nullable(branch, fields))
      else
        var r :- NormalizeFields(index, root, fields, resolving);
        Ok(Obj(r))
    case _ => Ok(value)
  }

  function NormalizeItems(index: Index, root: Json, items: seq<Json>,
                          resolving: set<string>): Result<seq<Json>, SchemaError>
    requires ItemRefs(items) <= Refs(root)
    decreases Refs(root) - resolving, ItemNodes(items), 1
  {
    if items == [] then Ok([]) else
    var head :- Normalize(index, root, items[0], resolving);
    var tail :- NormalizeItems(index, root, items[1..], resolving);
    Ok([head] + tail)
  }

  function NormalizeFields(index: Index, root: Json, fields: seq<Field>,
                           resolving: set<string>): Result<seq<Field>, SchemaError>
    requires FieldRefs(fields) <= Refs(root)
    decreases Refs(root) - resolving, FieldNodes(fields), 1
  {
    if fields == [] then Ok([])
    else if IsDropped(fields[0].key) then NormalizeFields(index, root, fields[1..], resolving)
    else
      var head :- Normalize(index, root, fields[0].value, resolving);
      var tail :- NormalizeFields(index, root, fields[1..], resolving);
      Ok([Field(fields[0].key, head)] + tail)
  }

  // ---------------------------------------------------------------- nothing unsupported is left

  // No object has this key.
  predicate KeyFree(j: Json, key: string)
    decreases j
  {
    match j
    case Arr(items) => forall i :: 0 <= i < |items| ==> KeyFree(items[i], key)
    case Obj(fields) => FieldsFree(fields, key)
    case _ => true
  }

  predicate FieldsFree(fields: seq<Field>, key: string)
    decreases fields
  {
    forall i :: 0 <= i < |fields| ==> fields[i].key != key && KeyFree(fields[i].value, key)
  }

  // Every $ref is a string.
  predicate StringRefs(j: Json)
    decreases j
  {
    match j
    case Arr(items) => forall i :: 0 <= i < |items| ==> StringRefs(items[i])
    case Obj(fields) => FieldsStringRefs(fields)
    case _ => true
  }

  predicate FieldsStringRefs(fields: seq<Field>)
    decreases fields
  {
    forall i :: 0 <= i < |fields| ==> (fields[i].key == "$ref" ==> fields[i].value.Str?) && StringRefs(fields[i].value)
  }

  lemma {:induction false} AssignFree(fields: seq<Field>, f: Field, key: string)
    requires FieldsFree(fields, key) && f.key != key && KeyFree(f.value, key)
    ensures FieldsFree(Assign(fields, f), key)
  {
    if fields != [] {
      assert forall i :: 0 <= i < |fields[1..]| ==> fields[1..][i] == fields[i + 1];
      if fields[0].key != f.key {
        AssignFree(fields[1..], f, key);
      }
    }
  }

  lemma {:induction false} SpreadFree(fields: seq<Field>, more: seq<Field>, key: string)
    requires FieldsFree(fields, key) && FieldsFree(more, key)
    ensures FieldsFree(Spread(fields, more), key)
    decreases |more|
  {
    hide KeyFree;
    if more != [] {
      AssignFree(fields, more[0], key);
      assert forall i :: 0 <= i < |more[1..]| ==> more[1..][i] == more[i + 1];
      SpreadFree(Assign(fields, more[0]), more[1..], key);
    }
  }

  lemma {:induction false} LocateStringRefs(j: Json, tokens: seq<string>, index: Index)
    requires StringRefs(j)
    ensures Locate(j, tokens, index).Some? ==> StringRefs(Locate(j, tokens, index).value)
    decreases |tokens|
  {
    if tokens != [] && Step(j, tokens[0], index).Some? {
      StepStringRefs(j, tokens[0], index);
      LocateStringRefs(Step(j, tokens[0], index).value, tokens[1..], index);
    }
  }

  lemma StepStringRefs(j: Json, token: string, index: Index)
    requires StringRefs(j) && Step(j, token, index).Some?
    ensures StringRefs(Step(j, token, index).value)
  {
    if j.Obj? {
      var i :| 0 <= i < |j.fields| && j.fields[i] == Field(token, FieldValue(j.fields, token).value);
    }
  }

  // A key that is dropped, or $ref when every $ref is a reference.
  ghost predicate Unwanted(key: string, root: Json) {
    IsDropped(key) || (key == "$ref" && StringRefs(root))
  }

  ghost predicate Readable(key: string, value: Json) {
    key == "$ref" ==> StringRefs(value)
  }

  /** The normalised schema has none of the dropped keys anywhere, and no reference. */
  lemma {:induction false} NormalizeClean(index: Index, root: Json, value: Json, resolving: set<string>, key: string)
    requires Refs(value) <= Refs(root) && Unwanted(key, root) && Readable(key, value)
    ensures Normalize(index, root, value, resolving).Ok? ==>
      KeyFree(Normalize(index, root, value, resolving).value, key)
    decreases Refs(root) - resolving, Nodes(value), 0
  {
    hide IsDropped, Resolve, NonNull, Siblings, Merged, Nullable, Spread, FieldsFree, Locate, RefOf;
    if Normalize(index, root, value, resolving).Ok? {
      match value
      case Arr(items) =>
        ItemsClean(index, root, items, resolving, key);
      case Obj(fields) =>
        if RefOf(fields).Some? {
          RefClean(index, root, fields, resolving, key);
        } else if NonNull(fields).Some? {
          UnwantedIsPlain(key, root);
          NonNullReadable(fields, key);
          NormalizeClean(index, root, NonNull(fields).value, resolving, key);
          NullableFree(Normalize(index, root, NonNull(fields).value, resolving).value, fields, key);
        } else {
          NotAReference(fields, key);
          FieldsClean(index, root, fields, resolving, key);
        }
      case _ =>
    }
  }

  ghost predicate NoRefKey(fields: seq<Field>, key: string) {
    key == "$ref" ==> forall i :: 0 <= i < |fields| ==> fields[i].key != key
  }

  lemma NotAReference(fields: seq<Field>, key: string)
    requires RefOf(fields).None? && Readable(key, Obj(fields))
    ensures NoRefKey(fields, key)
  {
    if key == "$ref" {
      assert FieldsStringRefs(fields);
    }
  }

  lemma StringRefsTail(fields: seq<Field>)
    requires fields != [] && FieldsStringRefs(fields)
    ensures StringRefs(fields[0].value) && (fields[0].key == "$ref" ==> fields[0].value.Str?) &&
      FieldsStringRefs(fields[1..])
  {
    assert forall i :: 0 <= i < |fields[1..]| ==> fields[1..][i] == fields[i + 1];
  }

  lemma SiblingsReadable(fields: seq<Field>, key: string)
    requires Readable(key, Obj(fields))
    ensures Readable(key, Obj(Siblings(fields)))
  {
    if key == "$ref" {
      assert FieldsStringRefs(fields);
      var rest := Siblings(fields);
      forall i | 0 <= i < |rest| ensures rest[i].key != "$ref" && StringRefs(rest[i].value) {
        assert rest[i] in fields;
      }
    }
  }

  lemma {:induction false} RefClean(index: Index, root: Json, fields: seq<Field>, resolving: set<string>, key: string)
    requires FieldRefs(fields) <= Refs(root) && Unwanted(key, root) && Readable(key, Obj(fields)) && RefOf(fields).Some?
    requires Normalize(index, root, Obj(fields), resolving).Ok?
    ensures KeyFree(Normalize(index, root, Obj(fields), resolving).value, key)
    decreases Refs(root) - resolving, Nodes(Obj(fields)), 0, 0
  {
    hide IsDropped, NonNull, Merged, Spread, FieldsFree, Locate, Tokens, KeyFree, Siblings;
    SiblingsReadable(fields, key);
    var reference := RefOf(fields).value;
    var target, siblings := Resolve(index, root, reference).value, Siblings(fields);
    RefOfIsRef(fields);
    LocateRefs(root, Tokens(reference).value, index);
    if key == "$ref" && StringRefs(root) {
      LocateStringRefs(root, Tokens(reference).value, index);
    }
    DroppedIsNotRef(key);
    NormalizeClean(index, root, target, resolving + {reference}, key);
    if siblings != [] {
      NormalizeClean(index, root, Obj(siblings), resolving, key);
      MergedFree(Normalize(index, root, target, resolving + {reference}).value,
                 Normalize(index, root, Obj(siblings), resolving).value, key);
    }
  }

  lemma UnwantedIsPlain(key: string, root: Json)
    requires Unwanted(key, root)
    ensures key != "description" && key != "nullable"
  {
  }

  lemma DroppedIsNotRef(key: string)
    ensures IsDropped(key) ==> key != "$ref"
  {
  }

  lemma MergedFree(target: Json, siblings: Json, key: string)
    requires KeyFree(target, key) && KeyFree(siblings, key)
    ensures KeyFree(Merged(target, siblings), key)
  {
    hide FieldsFree, Spread;
    if target.Obj? && siblings.Obj? {
      SpreadFree(target.fields, siblings.fields, key);
    }
  }

  lemma NullableFree(branch: Json, fields: seq<Field>, key: string)
    requires KeyFree(branch, key) && key != "description" && key != "nullable"
    ensures KeyFree(Nullable(branch, fields), key)
  {
    hide Spread;
    if branch.Obj? {
      SpreadFree(branch.fields, Description(fields), key);
      SpreadFree(Spread(branch.fields, Description(fields)), [Field("nullable", Bool(true))], key);
    }
  }

  lemma NonNullReadable(fields: seq<Field>, key: string)
    requires Readable(key, Obj(fields)) && NonNull(fields).Some?
    ensures Readable(key, NonNull(fields).value)
  {
    hide IsNullType;
    if key == "$ref" {
      var union := FieldValue(fields, "anyOf").value;
      var i :| 0 <= i < |fields| && fields[i] == Field("anyOf", union);
      assert FieldsStringRefs(fields);
      assert StringRefs(fields[i].value);
      assert union.Arr? && StringRefs(union.items[0]) && StringRefs(union.items[1]);
    }
  }

  lemma FieldsReadable(fields: seq<Field>, key: string)
    requires fields != [] && Readable(key, Obj(fields))
    ensures Readable(key, fields[0].value) && Readable(key, Obj(fields[1..]))
  {
    if key == "$ref" {
      StringRefsTail(fields);
    }
  }

  lemma KeptKeyDiffers(root: Json, fields: seq<Field>, key: string)
    requires fields != [] && Unwanted(key, root) && NoRefKey(fields, key)
    ensures !IsDropped(fields[0].key) ==> fields[0].key != key
    ensures NoRefKey(fields[1..], key)
  {
  }

  lemma {:induction false} ItemsClean(index: Index, root: Json, items: seq<Json>, resolving: set<string>, key: string)
    requires ItemRefs(items) <= Refs(root) && Unwanted(key, root) && Readable(key, Arr(items))
    requires NormalizeItems(index, root, items, resolving).Ok?
    ensures KeyFree(Arr(NormalizeItems(index, root, items, resolving).value), key)
    decreases Refs(root) - resolving, ItemNodes(items), 1
  {
    if items != [] {
      assert key == "$ref" ==> StringRefs(items[0]);
      assert Readable(key, Arr(items[1..]));
      NormalizeClean(index, root, items[0], resolving, key);
      ItemsClean(index, root, items[1..], resolving, key);
    }
  }

  lemma {:induction false} FieldsClean(index: Index, root: Json, fields: seq<Field>, resolving: set<string>,
                                       key: string)
    requires FieldRefs(fields) <= Refs(root) && Unwanted(key, root) && Readable(key, Obj(fields))
    requires NoRefKey(fields, key)
    requires NormalizeFields(index, root, fields, resolving).Ok?
    ensures FieldsFree(NormalizeFields(index, root, fields, resolving).value, key)
    decreases Refs(root) - resolving, FieldNodes(fields), 1
  {
    hide KeyFree, IsDropped, Unwanted, StringRefs, FieldsStringRefs;
    if fields != [] {
      FieldsReadable(fields, key);
      KeptKeyDiffers(root, fields, key);
      NormalizeClean(index, root, fields[0].value, resolving, key);
      FieldsClean(index, root, fields[1..], resolving, key);
    }
  }

  // ---------------------------------------------------------------- when it is refused

  // The references met on the way through a value, before any of them is followed.
  function Visited(j: Json): (refs: set<string>)
    ensures refs <= Refs(j)
    decreases Nodes(j), 0
  {
    match j
    case Arr(items) => VisitedItems(items)
    case Obj(fields) =>
      if RefOf(fields).Some? then
        RefOfIsRef(fields);
        {RefOf(fields).value} + Visited(Obj(Siblings(fields)))
      else if NonNull(fields).Some? then Visited(NonNull(fields).value)
      else VisitedFields(fields)
    case _ => {}
  }

  function VisitedItems(items: seq<Json>): (refs: set<string>)
    ensures refs <= ItemRefs(items)
    decreases ItemNodes(items), 1
  {
    if items == [] then {} else Visited(items[0]) + VisitedItems(items[1..])
  }

  function VisitedFields(fields: seq<Field>): (refs: set<string>)
    ensures refs <= FieldRefs(fields)
    decreases FieldNodes(fields), 1
  {
    if fields == [] then {}
    else if IsDropped(fields[0].key) then VisitedFields(fields[1..])
    else Visited(fields[0].value) + VisitedFields(fields[1..])
  }

  // What becomes of a reference: its target is normalised, or it is at fault, or its target is.
  function Follow(index: Index, root: Json, reference: string, resolving: set<string>): Result<Json, SchemaError>
    requires reference in Refs(root)
  {
    if reference in resolving then Err(CyclicReference) else
    var target :- Resolve(index, root, reference);
    LocateRefs(root, Tokens(reference).value, index);
    Normalize(index, root, target, resolving + {reference})
  }

  ghost predicate Followable(index: Index, root: Json, refs: set<string>, resolving: set<string>,
                             error: Option<SchemaError>)
    requires refs <= Refs(root)
  {
    if error.None? then forall r :: r in refs ==> Follow(index, root, r, resolving).Ok?
    else exists r :: r in refs && Follow(index, root, r, resolving) == Err(error.value)
  }

  function ErrorOf<T>(r: Result<T, SchemaError>): Option<SchemaError> {
    if r.Err? then Some(r.error) else None
  }

  // A value is normalised when all references met in it are, and refused because of one.
  lemma {:induction false} RefusedByOne(index: Index, root: Json, value: Json, resolving: set<string>)
    requires Refs(value) <= Refs(root)
    ensures Followable(index, root, Visited(value), resolving, ErrorOf(Normalize(index, root, value, resolving)))
    decreases Nodes(value), 0
  {
    hide IsDropped, Tokens, Locate, NonNull, Siblings, RefOf, Resolve;
    match value
    case Arr(items) => ItemsRefused(index, root, items, resolving);
    case Obj(fields) =>
      if RefOf(fields).Some? {
        RefRefused(index, root, fields, resolving);
      } else if NonNull(fields).Some? {
        RefusedByOne(index, root, NonNull(fields).value, resolving);
      } else {
        FieldsRefused(index, root, fields, resolving);
      }
    case _ =>
  }

  lemma {:induction false} RefRefused(index: Index, root: Json, fields: seq<Field>, resolving: set<string>)
    requires FieldRefs(fields) <= Refs(root) && RefOf(fields).Some?
    ensures Followable(index, root, Visited(Obj(fields)), resolving,
                       ErrorOf(Normalize(index, root, Obj(fields), resolving)))
    decreases Nodes(Obj(fields)), 0, 0
  {
    hide IsDropped, Tokens, Locate, NonNull;
    RefOfIsRef(fields);
    RefusedByOne(index, root, Obj(Siblings(fields)), resolving);
  }

  lemma {:induction false} ItemsRefused(index: Index, root: Json, items: seq<Json>, resolving: set<string>)
    requires ItemRefs(items) <= Refs(root)
    ensures Followable(index, root, VisitedItems(items), resolving,
                       ErrorOf(NormalizeItems(index, root, items, resolving)))
    decreases ItemNodes(items), 1
  {
    hide Follow;
    if items != [] {
      RefusedByOne(index, root, items[0], resolving);
      ItemsRefused(index, root, items[1..], resolving);
    }
  }

  lemma {:induction false} FieldsRefused(index: Index, root: Json, fields: seq<Field>, resolving: set<string>)
    requires FieldRefs(fields) <= Refs(root)
    ensures Followable(index, root, VisitedFields(fields), resolving,
                       ErrorOf(NormalizeFields(index, root, fields, resolving)))
    decreases FieldNodes(fields), 1
  {
    hide Follow, IsDropped;
    if fields != [] {
      FieldsRefused(index, root, fields[1..], resolving);
      if !IsDropped(fields[0].key) {
        RefusedByOne(index, root, fields[0].value, resolving);
      }
    }
  }

  // ---------------------------------------------------------------- chains of references

  // The reference s is met in the target of r.
  ghost predicate Meets(index: Index, root: Json, r: string, s: string) {
    Resolve(index, root, r).Ok? && s in Visited(Resolve(index, root, r).value)
  }

  // A way through the schema: the first reference is met in the root, every other one in
  // the target of the one before.
  ghost predicate Way(index: Index, root: Json, refs: seq<string>) {
    && (refs != [] ==> refs[0] in Visited(root))
    && forall i :: 0 < i < |refs| ==> Meets(index, root, refs[i - 1], refs[i])
  }

  // The references met in the value prolong the way.
  ghost predicate Ahead(index: Index, root: Json, stack: seq<string>, refs: set<string>) {
    Way(index, root, stack) && refs <= Refs(root) && forall r :: r in refs ==> Way(index, root, stack + [r])
  }

  // The way ends in a reference that it has passed before, or that does not resolve.
  ghost predicate Faulty(index: Index, root: Json, refs: seq<string>, error: SchemaError) {
    Way(index, root, refs) && refs != [] &&
    var n := |refs| - 1;
    if refs[n] in refs[..n] then error == CyclicReference else Resolve(index, root, refs[n]) == Err(error)
  }

  lemma FollowedAhead(index: Index, root: Json, stack: seq<string>, refs: set<string>, r: string)
    requires Ahead(index, root, stack, refs) && r in refs && Resolve(index, root, r).Ok?
    ensures Refs(Resolve(index, root, r).value) <= Refs(root)
    ensures Ahead(index, root, stack + [r], Visited(Resolve(index, root, r).value))
  {
    hide Visited, Tokens, Locate, Refs;
    LocateRefs(root, Tokens(r).value, index);
    var target, way := Resolve(index, root, r).value, stack + [r];
    assert Visited(target) <= Refs(target);
    forall s | s in Visited(target) ensures Way(index, root, way + [s]) {
      forall i | 0 < i < |way + [s]| ensures Meets(index, root, (way + [s])[i - 1], (way + [s])[i]) {
        assert i < |way| ==> Meets(index, root, way[i - 1], way[i]);
      }
    }
  }

  // What is refused is at the end of a faulty way.
  lemma {:induction false} RefusedAtFault(index: Index, root: Json, value: Json, stack: seq<string>)
    returns (refs: seq<string>)
    requires Refs(value) <= Refs(root) && Ahead(index, root, stack, Visited(value))
    requires Normalize(index, root, value, Elements(stack)).Err?
    ensures Faulty(index, root, refs, Normalize(index, root, value, Elements(stack)).error)
    decreases Refs(root) - Elements(stack)
  {
    hide Visited, Normalize, Way, Refs, Resolve, Elements;
    var error := Normalize(index, root, value, Elements(stack)).error;
    RefusedByOne(index, root, value, Elements(stack));
    var r :| r in Visited(value) && Follow(index, root, r, Elements(stack)) == Err(error);
    ElementsPush(stack, r);
    assert (stack + [r])[..|stack|] == stack;
    if r in stack || Resolve(index, root, r).Err? {
      refs := stack + [r];
    } else {
      FollowedAhead(index, root, stack, Visited(value), r);
      refs := RefusedAtFault(index, root, Resolve(index, root, r).value, stack + [r]);
    }
  }

  // On the way through an accepted schema every target is normalised.
  lemma {:induction false} AcceptedOnTheWay(index: Index, root: Json, refs: seq<string>)
    requires Normalize(index, root, root, {}).Ok? && Way(index, root, refs) && refs != []
    ensures var n := |refs| - 1;
            refs[n] !in refs[..n] && refs[n] in Refs(root) && Follow(index, root, refs[n], Elements(refs[..n])).Ok?
    decreases |refs|
  {
    hide Visited, Normalize, Refs;
    var n := |refs| - 1;
    if n == 0 {
      RefusedByOne(index, root, root, {});
      assert Elements(refs[..0]) == {};
    } else {
      AcceptedOnTheWay(index, root, refs[..n]);
      var r, before := refs[n - 1], refs[..n][..n - 1];
      assert refs[..n] == before + [r] && refs[..n - 1] == before;
      ElementsPush(before, r);
      LocateRefs(root, Tokens(r).value, index);
      RefusedByOne(index, root, Resolve(index, root, r).value, Elements(refs[..n]));
    }
  }

  /** The schema is normalised if and only if every reference on every way through it resolves
      and no way comes back to a reference; a refusal names the fault of one of the ways. */
  lemma NormalizedIff(index: Index, root: Json)
    ensures Normalize(index, root, root, {}).Ok? <==> forall refs, error :: !Faulty(index, root, refs, error)
    ensures Normalize(index, root, root, {}).Err? ==>
      exists refs :: Faulty(index, root, refs, Normalize(index, root, root, {}).error)
  {
    hide Visited, Normalize, Resolve, Refs;
    assert Elements([]) == {};
    if Normalize(index, root, root, {}).Ok? {
      forall refs, error ensures !Faulty(index, root, refs, error) {
        if Way(index, root, refs) && refs != [] {
          AcceptedOnTheWay(index, root, refs);
        }
      }
    } else {
      StartsAhead(index, root);
      var refs := RefusedAtFault(index, root, root, []);
    }
  }

  lemma StartsAhead(index: Index, root: Json)
    ensures Ahead(index, root, [], Visited(root))
  {
    hide Visited, Resolve;
    forall r | r in Visited(root) ensures Way(index, root, [] + [r]) {
      assert [] + [r] == [r];
    }
  }

  /** A cyclic refusal means that the references of the schema have a cycle, so a schema whose
      references have none and resolve is normalised. */
  lemma AcyclicIsNormalised(index: Index, root: Json)
    ensures Normalize(index, root, root, {}) == Err(CyclicReference) ==> Cyclic(root, index)
    ensures !Cyclic(root, index) && (forall r :: r in Refs(root) ==> Resolve(index, root, r).Ok?) ==>
      Normalize(index, root, root, {}).Ok?
  {
    hide Visited, Normalize, Cyclic, Resolve, Refs;
    NormalizedIff(index, root);
    if Normalize(index, root, root, {}).Err? {
      var refs :| Faulty(index, root, refs, Normalize(index, root, root, {}).error);
      var n := |refs| - 1;
      WaysAreChains(index, root, refs);
      if refs[n] in refs[..n] {
        assert refs == refs[..n] + [refs[n]];
        ClosesCycle(root, index, refs[..n], refs[n]);
      } else {
        UnresolvedIsNotCyclic(index, root, refs[n]);
      }
    }
  }

  lemma UnresolvedIsNotCyclic(index: Index, root: Json, r: string)
    ensures Resolve(index, root, r) != Err(CyclicReference)
  {
  }

  lemma WaysAreChains(index: Index, root: Json, refs: seq<string>)
    requires Way(index, root, refs)
    ensures Chain(root, index, refs) && forall r :: r in refs ==> r in Refs(root)
  {
    hide Visited, Tokens, Locate, Refs;
    forall i | 0 <= i < |refs| ensures refs[i] in Refs(root) &&
        (i > 0 ==> PointsTo(root, index, refs[i - 1], refs[i])) {
      if i > 0 {
        assert Meets(index, root, refs[i - 1], refs[i]);
        LocateRefs(root, Tokens(refs[i - 1]).value, index);
      }
    }
  }

  // ---------------------------------------------------------------- which names survive

  function KeptKeys(fields: seq<Field>): seq<string> {
    if fields == [] then []
    else (if IsDropped(fields[0].key) then [] else [fields[0].key]) + KeptKeys(fields[1..])
  }

  function Keys(fields: seq<Field>): seq<string> {
    if fields == [] then [] else [fields[0].key] + Keys(fields[1..])
  }

  // Every other name stays, in its place: a property map loses the properties that are
  // named like a keyword, too.
  lemma {:induction false} NamesKept(index: Index, root: Json, fields: seq<Field>, resolving: set<string>)
    requires FieldRefs(fields) <= Refs(root) && NormalizeFields(index, root, fields, resolving).Ok?
    ensures Keys(NormalizeFields(index, root, fields, resolving).value) == KeptKeys(fields)
    decreases |fields|
  {
    hide IsDropped;
    if fields != [] {
      NamesKept(index, root, fields[1..], resolving);
    }
  }
}
