/**
 What stands under each keyword of a schema sent to Gemini: layer by layer, where the value
 under a key comes from.
 */
module GeminiValues {
  import opened Wrappers
  import opened Json
  import opened SchemaPointers
  import opened GeminiSchema
  import opened GeminiProperties

  // The keywords that are not sent.
  const DROPPED := {"$schema", "$defs", "definitions", "additionalProperties", "pattern", "minLength", "maxLength"}

  lemma DroppedNames(key: string)
    ensures IsDropped(key) <==> key in DROPPED
  {
  }

  /** An object without a reference and without a nullable union keeps exactly the keywords
      that are not dropped, each over its own value, normalised. */
  lemma PlainValues(index: Index, root: Json, fields: seq<Field>, resolving: set<string>, key: string)
    requires FieldRefs(fields) <= Refs(root) && RefOf(fields).None? && NonNull(fields).None?
    requires Normalize(index, root, Obj(fields), resolving).Ok?
    ensures var r := Normalize(index, root, Obj(fields), resolving).value;
      && r.Obj?
      && (FieldValue(r.fields, key).Some? <==> FieldValue(fields, key).Some? && key !in DROPPED)
      && (FieldValue(r.fields, key).Some? ==>
            && Refs(FieldValue(fields, key).value) <= Refs(root)
            && Normalize(index, root, FieldValue(fields, key).value, resolving) == Ok(FieldValue(r.fields, key).value))
  {
    hide IsDropped, NonNull, RefOf;
    FieldsValue(index, root, fields, resolving, key);
    DroppedNames(key);
  }

  lemma {:induction false} FieldsValue(index: Index, root: Json, fields: seq<Field>, resolving: set<string>,
                                       key: string)
    requires FieldRefs(fields) <= Refs(root) && NormalizeFields(index, root, fields, resolving).Ok?
    ensures var r := NormalizeFields(index, root, fields, resolving).value;
      && (FieldValue(r, key).Some? <==> FieldValue(fields, key).Some? && !IsDropped(key))
      && (FieldValue(r, key).Some? ==>
            && Refs(FieldValue(fields, key).value) <= Refs(root)
            && Normalize(index, root, FieldValue(fields, key).value, resolving) == Ok(FieldValue(r, key).value))
  {
    hide IsDropped, Normalize;
    if fields != [] {
      FieldsValue(index, root, fields[1..], resolving, key);
      if !IsDropped(fields[0].key) {
        var tail := NormalizeFields(index, root, fields[1..], resolving).value;
        var r := NormalizeFields(index, root, fields, resolving).value;
        assert r[1..] == tail;
      }
    }
  }

  // A reference resolves exactly when it is local and leads to something; the error says which.
  lemma ResolvesIff(index: Index, root: Json, reference: string)
    ensures var tokens, r := Tokens(reference), Resolve(index, root, reference);
      && (r == Err(NotLocal) <==> tokens.None?)
      && (r == Err(Unresolved) <==> tokens.Some? && Locate(root, tokens.value, index).None?)
      && (r.Ok? <==> tokens.Some? && Locate(root, tokens.value, index).Some?)
      && (tokens.Some? <==> "#/" <= reference)
  {
    hide Locate, Split, Unescape;
  }

  // A list keeps its length and its order.
  lemma {:induction false} ItemsValue(index: Index, root: Json, items: seq<Json>, resolving: set<string>)
    requires ItemRefs(items) <= Refs(root) && NormalizeItems(index, root, items, resolving).Ok?
    ensures var r := NormalizeItems(index, root, items, resolving).value;
      |r| == |items| && forall i :: 0 <= i < |items| ==>
        Refs(items[i]) <= Refs(root) && Normalize(index, root, items[i], resolving) == Ok(r[i])
  {
    hide Normalize;
    if items != [] {
      ItemsValue(index, root, items[1..], resolving);
      assert forall i :: 0 < i < |items| ==> items[i] == items[1..][i - 1];
    }
  }

  // A union of two branches, one that says null and one object that does not.
  predicate IsUnion(union: Option<Json>, branch: Json, other: Json) {
    && !IsNullType(branch) && branch.Obj? && IsNullType(other)
    && (union == Some(Arr([branch, other])) || union == Some(Arr([other, branch])))
  }

  // Exactly such a union is folded into its branch.
  lemma NonNullIff(fields: seq<Field>, branch: Json)
    ensures NonNull(fields) == Some(branch) ==> exists other :: IsUnion(FieldValue(fields, "anyOf"), branch, other)
    ensures (exists other :: IsUnion(FieldValue(fields, "anyOf"), branch, other)) ==> NonNull(fields) == Some(branch)
  {
    if NonNull(fields) == Some(branch) {
      var items := FieldValue(fields, "anyOf").value.items;
      var first, second := items[0], items[1];
      assert items == [first, second];
      assert IsUnion(FieldValue(fields, "anyOf"), branch, if IsNullType(first) then first else second);
    }
    if other :| IsUnion(FieldValue(fields, "anyOf"), branch, other) {
      UnionFolds(fields, branch, other);
    }
  }

  lemma UnionFolds(fields: seq<Field>, branch: Json, other: Json)
    requires IsUnion(FieldValue(fields, "anyOf"), branch, other)
    ensures NonNull(fields) == Some(branch)
  {
    hide FieldValue, IsNullType;
  }

  // JavaScript's spread: a key of the second object has its value there.
  lemma {:induction false} SpreadFrom(fields: seq<Field>, more: seq<Field>, key: string)
    requires DistinctNames(more)
    ensures FieldValue(Spread(fields, more), key)
         == if FieldValue(more, key).Some? then FieldValue(more, key) else FieldValue(fields, key)
    decreases |more|
  {
    if more != [] {
      AssignFirst(fields, more[0], key);
      assert forall i :: 0 <= i < |more[1..]| ==> more[1..][i] == more[i + 1];
      SpreadFrom(Assign(fields, more[0]), more[1..], key);
    }
  }

  lemma {:induction false} AssignFirst(fields: seq<Field>, f: Field, key: string)
    ensures FieldValue(Assign(fields, f), key) == if f.key == key then Some(f.value) else FieldValue(fields, key)
  {
    if fields != [] {
      AssignFirst(fields[1..], f, key);
    }
  }

  /** A folded union is its branch, normalised and marked as nullable; a description of its own
      wins over that of the branch. */
  lemma FoldedValues(index: Index, root: Json, fields: seq<Field>, resolving: set<string>, key: string)
    requires FieldRefs(fields) <= Refs(root) && RefOf(fields).None? && NonNull(fields).Some?
    requires Normalize(index, root, NonNull(fields).value, resolving).Ok?
    requires Normalize(index, root, NonNull(fields).value, resolving).value.Obj?
    ensures var branch := Normalize(index, root, NonNull(fields).value, resolving).value;
      var r, own := Normalize(index, root, Obj(fields), resolving), FieldValue(fields, "description");
      && r.Ok? && r.value.Obj?
      && FieldValue(r.value.fields, key) ==
         if key == "nullable" then Some(Bool(true))
         else if key == "description" && own.Some? && own.value.Str? then own
         else FieldValue(branch.fields, key)
  {
    hide IsDropped, NonNull, RefOf, Spread;
    var branch := Normalize(index, root, NonNull(fields).value, resolving).value;
    var described := Spread(branch.fields, Description(fields));
    SpreadFrom(branch.fields, Description(fields), key);
    SpreadFrom(described, [Field("nullable", Bool(true))], key);
    assert Normalize(index, root, Obj(fields), resolving) == Ok(Nullable(branch, fields));
  }

  /** A reference is its target, normalised; of the keys beside it each overrides the key of
      the target, if both are objects. */
  lemma ReferenceValues(index: Index, root: Json, fields: seq<Field>, resolving: set<string>, key: string)
    requires FieldRefs(fields) <= Refs(root) && RefOf(fields).Some?
    requires Normalize(index, root, Obj(fields), resolving).Ok?
    ensures var reference := RefOf(fields).value;
      var target, beside, r := Resolve(index, root, reference), Obj(Siblings(fields)),
        Normalize(index, root, Obj(fields), resolving).value;
      && reference !in resolving && target.Ok? && Refs(target.value) <= Refs(root)
      && var inlined := Normalize(index, root, target.value, resolving + {reference});
         && inlined.Ok? && (beside.fields == [] ==> r == inlined.value)
         && (beside.fields != [] ==>
               var rest := Normalize(index, root, beside, resolving);
               && rest.Ok? && (!inlined.value.Obj? || !rest.value.Obj? ==> r == inlined.value)
               && (inlined.value.Obj? && rest.value.Obj? && DistinctNames(rest.value.fields) ==>
                     && r.Obj?
                     && FieldValue(r.fields, key) ==
                        if FieldValue(rest.value.fields, key).Some? then FieldValue(rest.value.fields, key)
                        else FieldValue(inlined.value.fields, key)))
  {
    hide IsDropped, NonNull, RefOf, Spread, Siblings, Locate, Tokens;
    var reference := RefOf(fields).value;
    RefOfIsRef(fields);
    LocateRefs(root, Tokens(reference).value, index);
    var inlined := Normalize(index, root, Resolve(index, root, reference).value, resolving + {reference}).value;
    if Siblings(fields) != [] {
      var rest := Normalize(index, root, Obj(Siblings(fields)), resolving).value;
      if inlined.Obj? && rest.Obj? && DistinctNames(rest.fields) {
        SpreadFrom(inlined.fields, rest.fields, key);
      }
    }
  }
}
