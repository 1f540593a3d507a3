/**
 When normalizeAnthropicToolSchema sends a schema at all: exactly when nothing that can be
 reached from it, references followed, is at fault, none of it lies deeper than 64 steps, and
 there are no more than 10,000 places to visit.
 */
module AnthropicSent {
  import opened Wrappers
  import opened Json
  import opened SchemaPointers
  import opened AnthropicSchema

  const FORBIDDEN_NAMES := {"__proto__", "prototype", "constructor"}

  // ---------------------------------------------------------------- the places of a schema

  // A part of the schema, and the references that were followed on the way to it.
  datatype Place = Place(value: Json, trail: seq<string>)

  datatype Move = Item(i: nat) | Member(i: nat) | Follow

  // Where a move leads: into an item, into a keyword that is kept, or to the target of a
  // reference.
  function Next(root: Json, p: Place, m: Move): Option<Place> {
    match m
    case Item(i) => if p.value.Arr? && i < |p.value.items| then Some(Place(p.value.items[i], p.trail)) else None
    case Member(i) =>
      if p.value.Obj? && RefOf(p.value.fields).None? && i < |p.value.fields| && p.value.fields[i].key !in BOUND_NAMES
      then Some(Place(p.value.fields[i].value, p.trail)) else None
    case Follow =>
      if p.value.Obj? && RefOf(p.value.fields).Some? && Resolve(root, RefOf(p.value.fields).value).Ok?
      then
        var reference := RefOf(p.value.fields).value;
        Some(Place(Resolve(root, reference).value, p.trail + [reference]))
      else None
  }

  function At(root: Json, p: Place, way: seq<Move>): Option<Place>
    decreases |way|
  {
    if way == [] then Some(p) else
    var q := Next(root, p, way[0]);
    if q.None? then None else At(root, q.value, way[1..])
  }

  // A reference with other keys beside it, to a target on its own way, or to none; or a key
  // that is not allowed.
  ghost predicate AtFault(root: Json, p: Place) {
    p.value.Obj? &&
    if RefOf(p.value.fields).Some? then
      var reference := RefOf(p.value.fields).value;
      || (exists i :: 0 <= i < |p.value.fields| && p.value.fields[i].key != "$ref")
      || (exists j :: 0 <= j < |p.trail| && p.trail[j] == reference)
      || Resolve(root, reference).Err?
    else exists i :: 0 <= i < |p.value.fields| && p.value.fields[i].key in FORBIDDEN_NAMES
  }

  // Nothing at fault, and nothing as many steps away.
  ghost predicate Clean(root: Json, p: Place, steps: nat) {
    forall way :: At(root, p, way).Some? ==> |way| < steps && !AtFault(root, At(root, p, way).value)
  }

  // How many places there are in fewer steps.
  function Places(root: Json, p: Place, steps: nat): nat
    decreases steps, 0, 0
  {
    if steps == 0 then 0 else
    1 + match p.value
        case Arr(items) => PlacesIn(root, p, items, steps - 1)
        case Obj(fields) =>
          if RefOf(fields).None? then PlacesUnder(root, p, fields, steps - 1)
          else if Next(root, p, Follow).Some? then Places(root, Next(root, p, Follow).value, steps - 1)
          else 0
        case _ => 0
  }

  function PlacesIn(root: Json, p: Place, items: seq<Json>, steps: nat): nat
    decreases steps, 1, |items|
  {
    if items == [] then 0 else Places(root, Place(items[0], p.trail), steps) + PlacesIn(root, p, items[1..], steps)
  }

  function PlacesUnder(root: Json, p: Place, fields: seq<Field>, steps: nat): nat
    decreases steps, 1, |fields|
  {
    if fields == [] then 0 else
    (if fields[0].key in BOUND_NAMES then 0 else Places(root, Place(fields[0].value, p.trail), steps))
    + PlacesUnder(root, p, fields[1..], steps)
  }

  // A reference is good when its pointer is local, passes through allowed names only, and
  // leads to something.
  lemma ResolvesIff(root: Json, reference: string)
    ensures var tokens, r := Tokens(reference), Resolve(root, reference);
      && (r.Ok? <==>
            && tokens.Some?
            && Locate(root, tokens.value, ArrayIndex).Some?
            && forall i :: 0 <= i < |tokens.value| ==> tokens.value[i] !in FORBIDDEN_NAMES)
      && (r == Err(NotLocal) <==> tokens.None?)
      && (r == Err(ForbiddenPath) ==> exists i :: 0 <= i < |tokens.value| && tokens.value[i] in FORBIDDEN_NAMES)
      && (r == Err(Unresolved) ==> Locate(root, tokens.value, ArrayIndex).None?)
      && (r.Err? ==> r.error in {NotLocal, ForbiddenPath, Unresolved})
  {
    var tokens := Tokens(reference);
    if tokens.Some? {
      WalksIff(root, tokens.value);
    }
  }

  lemma {:induction false} WalksIff(j: Json, tokens: seq<string>)
    ensures Walk(j, tokens).Ok? <==>
      && Locate(j, tokens, ArrayIndex).Some?
      && forall i :: 0 <= i < |tokens| ==> tokens[i] !in FORBIDDEN_NAMES
    ensures Walk(j, tokens) == Err(ForbiddenPath) ==>
      exists i :: 0 <= i < |tokens| && tokens[i] in FORBIDDEN_NAMES
    ensures Walk(j, tokens) == Err(Unresolved) ==> Locate(j, tokens, ArrayIndex).None?
    ensures Walk(j, tokens).Err? ==> Walk(j, tokens).error in {ForbiddenPath, Unresolved}
    decreases |tokens|
  {
    if tokens != [] && Step(j, tokens[0], ArrayIndex).Some? {
      WalksIff(Step(j, tokens[0], ArrayIndex).value, tokens[1..]);
      assert forall i :: 0 <= i < |tokens| - 1 ==> tokens[1..][i] == tokens[i + 1];
    }
  }

  // ---------------------------------------------------------------- step by step

  lemma CleanHere(root: Json, p: Place, steps: nat)
    requires Clean(root, p, steps)
    ensures steps > 0 && !AtFault(root, p)
  {
    hide AtFault;
    assert At(root, p, []) == Some(p);
  }

  lemma CleanNext(root: Json, p: Place, steps: nat, m: Move)
    requires Clean(root, p, steps) && Next(root, p, m).Some?
    ensures steps > 0 && Clean(root, Next(root, p, m).value, steps - 1)
  {
    hide AtFault, Next;
    CleanHere(root, p, steps);
    var q := Next(root, p, m).value;
    forall way | At(root, q, way).Some? ensures |way| < steps - 1 && !AtFault(root, At(root, q, way).value) {
      assert ([m] + way)[1..] == way;
      assert At(root, p, [m] + way) == At(root, q, way);
    }
  }

  lemma CleanIf(root: Json, p: Place, steps: nat)
    requires steps > 0 && !AtFault(root, p)
    requires forall m :: Next(root, p, m).Some? ==> Clean(root, Next(root, p, m).value, steps - 1)
    ensures Clean(root, p, steps)
  {
    hide AtFault, Next;
    forall way | At(root, p, way).Some? ensures |way| < steps && !AtFault(root, At(root, p, way).value) {
      if way != [] {
        var q := Next(root, p, way[0]).value;
        assert Clean(root, q, steps - 1);
        assert At(root, p, way) == At(root, q, way[1..]);
      }
    }
  }

  ghost predicate CleanItems(root: Json, items: seq<Json>, trail: seq<string>, steps: nat) {
    forall i :: 0 <= i < |items| ==> Clean(root, Place(items[i], trail), steps)
  }

  ghost predicate CleanFields(root: Json, fields: seq<Field>, trail: seq<string>, steps: nat) {
    forall i :: 0 <= i < |fields| ==>
      !IsForbidden(fields[i].key) && (fields[i].key in BOUND_NAMES || Clean(root, Place(fields[i].value, trail), steps))
  }

  lemma ArrayCleanIff(root: Json, p: Place, steps: nat)
    requires p.value.Arr? && steps > 0
    ensures Clean(root, p, steps) <==> CleanItems(root, p.value.items, p.trail, steps - 1)
  {
    hide Clean, IsBound, Resolve, RefOf;
    if Clean(root, p, steps) {
      forall i | 0 <= i < |p.value.items| ensures Clean(root, Place(p.value.items[i], p.trail), steps - 1) {
        CleanNext(root, p, steps, Item(i));
      }
    }
    if CleanItems(root, p.value.items, p.trail, steps - 1) {
      CleanIf(root, p, steps);
    }
  }

  lemma ObjectCleanIff(root: Json, p: Place, steps: nat)
    requires p.value.Obj? && RefOf(p.value.fields).None? && steps > 0
    ensures Clean(root, p, steps) <==> CleanFields(root, p.value.fields, p.trail, steps - 1)
  {
    hide Clean, IsBound, Resolve, RefOf;
    if Clean(root, p, steps) {
      CleanHere(root, p, steps);
      forall i | 0 <= i < |p.value.fields|
        ensures !IsForbidden(p.value.fields[i].key)
        ensures p.value.fields[i].key in BOUND_NAMES || Clean(root, Place(p.value.fields[i].value, p.trail), steps - 1)
      {
        if p.value.fields[i].key !in BOUND_NAMES {
          CleanNext(root, p, steps, Member(i));
        }
      }
    }
    if CleanFields(root, p.value.fields, p.trail, steps - 1) {
      CleanIf(root, p, steps);
    }
  }

  lemma ReferenceCleanIff(root: Json, p: Place, steps: nat)
    requires p.value.Obj? && RefOf(p.value.fields).Some? && steps > 0
    ensures Clean(root, p, steps) <==>
      && !AtFault(root, p) && Next(root, p, Follow).Some? && Clean(root, Next(root, p, Follow).value, steps - 1)
  {
    hide Clean, IsBound, Resolve, RefOf;
    if Clean(root, p, steps) {
      CleanHere(root, p, steps);
      CleanNext(root, p, steps, Follow);
    }
    if !AtFault(root, p) && Clean(root, Next(root, p, Follow).value, steps - 1) {
      CleanIf(root, p, steps);
    }
  }

  lemma LeafIsClean(root: Json, p: Place, steps: nat)
    requires !p.value.Obj? && !p.value.Arr? && steps > 0
    ensures Clean(root, p, steps)
  {
    hide Clean;
    CleanIf(root, p, steps);
  }

  // ---------------------------------------------------------------- the visit

  // What the visit does, said of the places: it succeeds when they are clean and few enough,
  // and counts them.
  ghost predicate Tells<T>(r: Result<Visited<T>, VisitError>, clean: bool, nodes: nat, places: nat) {
    && (r.Ok? <==> clean && nodes + places <= MAX_NODES)
    && (r.Ok? ==> r.value.nodes == nodes + places)
  }

  lemma {:induction false} VisitTells(root: Json, p: Place, depth: nat, nodes: nat)
    requires depth <= MAX_DEPTH + 1
    ensures var steps := MAX_DEPTH + 1 - depth;
      Tells(Visit(root, p.value, p.trail, depth, nodes), Clean(root, p, steps), nodes, Places(root, p, steps))
    decreases MAX_DEPTH + 1 - depth, 0
  {
    hide Clean, IsBound, IsForbidden, Resolve, RefOf;
    var steps := MAX_DEPTH + 1 - depth;
    if steps == 0 {
      if Clean(root, p, steps) {
        CleanHere(root, p, steps);
      }
    } else {
      match p.value
      case Arr(items) =>
        ArrayCleanIff(root, p, steps);
        if nodes + 1 <= MAX_NODES {
          ItemsTell(root, p, items, depth + 1, nodes + 1);
        }
      case Obj(fields) =>
        if RefOf(fields).Some? {
          ReferenceCleanIff(root, p, steps);
          ReferenceTells(root, p, depth, nodes);
        } else {
          ObjectCleanIff(root, p, steps);
          if nodes + 1 <= MAX_NODES {
            FieldsTell(root, p, fields, depth + 1, nodes + 1);
          }
        }
      case _ =>
        LeafIsClean(root, p, steps);
    }
  }

  lemma {:induction false} ReferenceTells(root: Json, p: Place, depth: nat, nodes: nat)
    requires depth <= MAX_DEPTH && p.value.Obj? && RefOf(p.value.fields).Some?
    ensures var steps := MAX_DEPTH + 1 - depth;
      var clean := !AtFault(root, p) && Next(root, p, Follow).Some? &&
                   Clean(root, Next(root, p, Follow).value, steps - 1);
      Tells(Visit(root, p.value, p.trail, depth, nodes), clean, nodes, Places(root, p, steps))
    decreases MAX_DEPTH + 1 - depth, 0, 0
  {
    hide Clean, IsBound, IsForbidden, Resolve, RefOf;
    var reference := RefOf(p.value.fields).value;
    assert reference in p.trail <==> exists j :: 0 <= j < |p.trail| && p.trail[j] == reference;
    if Next(root, p, Follow).Some? {
      VisitTells(root, Next(root, p, Follow).value, depth + 1, nodes + 1);
    }
  }

  lemma {:induction false} ItemsTell(root: Json, p: Place, items: seq<Json>, depth: nat, nodes: nat)
    requires depth <= MAX_DEPTH + 1 && nodes <= MAX_NODES
    ensures var steps := MAX_DEPTH + 1 - depth;
      Tells(VisitItems(root, items, p.trail, depth, nodes), CleanItems(root, items, p.trail, steps), nodes,
            PlacesIn(root, p, items, steps))
    decreases MAX_DEPTH + 1 - depth, |items| + 1
  {
    hide Clean, Visit, Places;
    if items != [] {
      var steps := MAX_DEPTH + 1 - depth;
      VisitTells(root, Place(items[0], p.trail), depth, nodes);
      assert items == [items[0]] + items[1..];
      ItemsCleanIff(root, items, p.trail, steps);
      var head := Visit(root, items[0], p.trail, depth, nodes);
      if head.Ok? {
        ItemsTell(root, p, items[1..], depth, head.value.nodes);
      }
    }
  }

  lemma ItemsCleanIff(root: Json, items: seq<Json>, trail: seq<string>, steps: nat)
    requires items != []
    ensures CleanItems(root, items, trail, steps) <==>
      Clean(root, Place(items[0], trail), steps) && CleanItems(root, items[1..], trail, steps)
  {
    hide Clean;
    assert forall i :: 0 <= i < |items| - 1 ==> items[1..][i] == items[i + 1];
    if CleanItems(root, items[1..], trail, steps) && Clean(root, Place(items[0], trail), steps) {
      forall i | 0 <= i < |items| ensures Clean(root, Place(items[i], trail), steps) {
        assert i > 0 ==> items[1..][i - 1] == items[i];
      }
    }
  }

  lemma {:induction false} FieldsTell(root: Json, p: Place, fields: seq<Field>, depth: nat, nodes: nat)
    requires depth <= MAX_DEPTH + 1 && nodes <= MAX_NODES
    ensures var steps := MAX_DEPTH + 1 - depth;
      Tells(VisitFields(root, fields, p.trail, depth, nodes), CleanFields(root, fields, p.trail, steps), nodes,
            PlacesUnder(root, p, fields, steps))
    decreases MAX_DEPTH + 1 - depth, |fields| + 1
  {
    hide Clean, Visit, Places, IsForbidden, IsBound;
    if fields != [] {
      var steps := MAX_DEPTH + 1 - depth;
      FieldsCleanIff(root, fields, p.trail, steps);
      BoundNames(fields[0].key);
      if IsForbidden(fields[0].key) {
      } else if IsBound(fields[0].key) {
        FieldsTell(root, p, fields[1..], depth, nodes);
      } else {
        VisitTells(root, Place(fields[0].value, p.trail), depth, nodes);
        var head := Visit(root, fields[0].value, p.trail, depth, nodes);
        if head.Ok? {
          FieldsTell(root, p, fields[1..], depth, head.value.nodes);
        }
      }
    }
  }

  lemma FieldsCleanIff(root: Json, fields: seq<Field>, trail: seq<string>, steps: nat)
    requires fields != []
    ensures CleanFields(root, fields, trail, steps) <==>
      && !IsForbidden(fields[0].key)
      && (fields[0].key in BOUND_NAMES || Clean(root, Place(fields[0].value, trail), steps))
      && CleanFields(root, fields[1..], trail, steps)
  {
    hide Clean, IsForbidden, IsBound;
    assert forall i :: 0 <= i < |fields| - 1 ==> fields[1..][i] == fields[i + 1];
    if CleanFields(root, fields[1..], trail, steps) {
      forall i | 0 < i < |fields|
        ensures !IsForbidden(fields[i].key)
        ensures fields[i].key in BOUND_NAMES || Clean(root, Place(fields[i].value, trail), steps)
      {
        assert fields[1..][i - 1] == fields[i];
      }
    }
  }

  // ---------------------------------------------------------------- the schema

  /** A schema is sent if and only if it is an object and no reference itself, everything that
      can be reached from it lies within 64 steps and is without fault, and that is at most
      10,000 places. */
  lemma SentIff(schema: Json)
    ensures var start := Place(schema, []);
      NormalizeToolSchema(schema).Ok? <==>
        && schema.Obj? && RefOf(schema.fields).None?
        && (forall way :: At(schema, start, way).Some? ==>
              |way| <= 64 && !AtFault(schema, At(schema, start, way).value))
        && Places(schema, start, 65) <= 10_000
    ensures NormalizeToolSchema(schema) == Err(NotAnObject) <==>
      Visit(schema, schema, [], 0, 0).Ok? && !(schema.Obj? && RefOf(schema.fields).None?)
  {
    hide Places, At, AtFault, Tells, RefOf, Visit;
    var start := Place(schema, []);
    VisitTells(schema, start, 0, 0);
    VisitHasNoKind(schema);
    TellsOk(Visit(schema, schema, [], 0, 0), Clean(schema, start, MAX_DEPTH + 1), 0, Places(schema, start, 65));
    if Visit(schema, schema, [], 0, 0).Ok? {
      VisitedKind(schema);
    }
  }

  lemma VisitHasNoKind(schema: Json)
    ensures Visit(schema, schema, [], 0, 0) != Err(NotAnObject)
  {
    hide Visit;
    if Visit(schema, schema, [], 0, 0) == Err(NotAnObject) {
      var way := ErrorNamesFault(schema, Place(schema, []), 0, 0);
    }
  }

  lemma TellsOk(r: Result<Visited<Json>, VisitError>, clean: bool, nodes: nat, places: nat)
    requires Tells(r, clean, nodes, places)
    ensures r.Ok? <==> clean && nodes + places <= 10_000
  {
  }

  // A schema that is a reference alone can only lead to its own text.
  lemma VisitedKind(schema: Json)
    requires Visit(schema, schema, [], 0, 0).Ok?
    ensures Visit(schema, schema, [], 0, 0).value.value.Obj? <==> schema.Obj? && RefOf(schema.fields).None?
  {
    hide IsForbidden, IsBound, Tokens;
    if schema.Obj? && RefOf(schema.fields).Some? {
      var reference := RefOf(schema.fields).value;
      var target := Resolve(schema, reference).value;
      TokensSome(reference);
      var tokens := Tokens(reference).value;
      assert FieldValue(schema.fields, tokens[0]) == Some(Str(reference));
      TextEnds(reference, tokens[1..]);
    }
  }

  lemma TokensSome(reference: string)
    ensures Tokens(reference).Some? ==> Tokens(reference).value != []
  {
  }

  lemma TextEnds(text: string, tokens: seq<string>)
    ensures Walk(Str(text), tokens).Ok? ==> Walk(Str(text), tokens).value == Str(text)
  {
  }

  // ---------------------------------------------------------------- what an error says

  // The fault at the place is the one that the error names.
  ghost predicate IsFault(root: Json, p: Place, error: VisitError) {
    p.value.Obj? &&
    match error
    case HasSiblings =>
      RefOf(p.value.fields).Some? && exists i :: 0 <= i < |p.value.fields| && p.value.fields[i].key != "$ref"
    case Circular => RefOf(p.value.fields).Some? && RefOf(p.value.fields).value in p.trail
    case NotLocal | ForbiddenPath | Unresolved =>
      RefOf(p.value.fields).Some? && Resolve(root, RefOf(p.value.fields).value) == Err(error)
    case ForbiddenKey => exists i :: 0 <= i < |p.value.fields| && p.value.fields[i].key in FORBIDDEN_NAMES
    case OverBudget | NotAnObject => false
  }

  lemma OneStep(root: Json, p: Place, m: Move, rest: seq<Move>)
    requires Next(root, p, m).Some?
    ensures At(root, p, [m] + rest) == At(root, Next(root, p, m).value, rest)
  {
    hide Next;
    assert ([m] + rest)[1..] == rest;
  }

  /** An error other than the exhausted budget names a fault that some way through the schema
      leads to. */
  lemma {:induction false} ErrorNamesFault(root: Json, p: Place, depth: nat, nodes: nat) returns (way: seq<Move>)
    requires depth <= MAX_DEPTH + 1 && Visit(root, p.value, p.trail, depth, nodes).Err?
    requires Visit(root, p.value, p.trail, depth, nodes).error != OverBudget
    ensures At(root, p, way).Some?
    ensures IsFault(root, At(root, p, way).value, Visit(root, p.value, p.trail, depth, nodes).error)
    decreases MAX_DEPTH + 1 - depth, 0
  {
    hide IsFault, IsBound, IsForbidden, RefOf, Resolve, At;
    match p.value
    case Arr(items) =>
      var i, rest := ErrorInItems(root, p.trail, items, depth + 1, nodes + 1);
      OneStep(root, p, Item(i), rest);
      way := [Item(i)] + rest;
    case Obj(fields) =>
      if RefOf(fields).None? {
        var i, rest := ErrorInFields(root, p.trail, fields, depth + 1, nodes + 1);
        if IsForbidden(fields[i].key) {
          way := [];
          HereIs(root, p);
          ForbiddenHere(root, p, i);
        } else {
          BoundNames(fields[i].key);
          OneStep(root, p, Member(i), rest);
          way := [Member(i)] + rest;
        }
      } else {
        way := ErrorAtReference(root, p, depth, nodes);
      }
  }

  lemma HereIs(root: Json, p: Place)
    ensures At(root, p, []) == Some(p)
  {
  }

  lemma ForbiddenHere(root: Json, p: Place, i: nat)
    requires p.value.Obj? && i < |p.value.fields| && IsForbidden(p.value.fields[i].key)
    ensures IsFault(root, p, ForbiddenKey)
  {
  }

  lemma {:induction false} ErrorAtReference(root: Json, p: Place, depth: nat, nodes: nat) returns (way: seq<Move>)
    requires depth <= MAX_DEPTH && p.value.Obj? && RefOf(p.value.fields).Some?
    requires Visit(root, p.value, p.trail, depth, nodes).Err?
    requires Visit(root, p.value, p.trail, depth, nodes).error != OverBudget
    ensures At(root, p, way).Some?
    ensures IsFault(root, At(root, p, way).value, Visit(root, p.value, p.trail, depth, nodes).error)
    decreases MAX_DEPTH + 1 - depth, 0, 0
  {
    hide IsBound, IsForbidden, RefOf, Resolve, At;
    var reference := RefOf(p.value.fields).value;
    HereIs(root, p);
    ResolvesIff(root, reference);
    if (exists i :: 0 <= i < |p.value.fields| && p.value.fields[i].key != "$ref") || reference in p.trail
      || Resolve(root, reference).Err? {
      way := [];
    } else {
      var rest := ErrorNamesFault(root, Next(root, p, Follow).value, depth + 1, nodes + 1);
      OneStep(root, p, Follow, rest);
      way := [Follow] + rest;
    }
  }

  lemma {:induction false} ErrorInItems(root: Json, trail: seq<string>, items: seq<Json>, depth: nat, nodes: nat)
    returns (i: nat, way: seq<Move>)
    requires depth <= MAX_DEPTH + 1 && VisitItems(root, items, trail, depth, nodes).Err?
    requires VisitItems(root, items, trail, depth, nodes).error != OverBudget
    ensures i < |items| && At(root, Place(items[i], trail), way).Some?
    ensures IsFault(root, At(root, Place(items[i], trail), way).value,
                    VisitItems(root, items, trail, depth, nodes).error)
    decreases MAX_DEPTH + 1 - depth, |items| + 1
  {
    hide IsFault, Visit, At;
    var head := Visit(root, items[0], trail, depth, nodes);
    if head.Err? {
      way := ErrorNamesFault(root, Place(items[0], trail), depth, nodes);
      i := 0;
    } else {
      i, way := ErrorInItems(root, trail, items[1..], depth, head.value.nodes);
      assert items[1..][i] == items[i + 1];
      i := i + 1;
    }
  }

  lemma {:induction false} ErrorInFields(root: Json, trail: seq<string>, fields: seq<Field>, depth: nat, nodes: nat)
    returns (i: nat, way: seq<Move>)
    requires depth <= MAX_DEPTH + 1 && VisitFields(root, fields, trail, depth, nodes).Err?
    requires VisitFields(root, fields, trail, depth, nodes).error != OverBudget
    ensures var error := VisitFields(root, fields, trail, depth, nodes).error;
      && i < |fields|
      && if IsForbidden(fields[i].key) then error == ForbiddenKey else
         && !IsBound(fields[i].key) && At(root, Place(fields[i].value, trail), way).Some?
         && IsFault(root, At(root, Place(fields[i].value, trail), way).value, error)
    decreases MAX_DEPTH + 1 - depth, |fields| + 1
  {
    hide IsFault, Visit, At, IsForbidden, IsBound;
    way := [];
    if IsForbidden(fields[0].key) {
      i := 0;
    } else if IsBound(fields[0].key) {
      i, way := ErrorInFields(root, trail, fields[1..], depth, nodes);
      assert fields[1..][i] == fields[i + 1];
      i := i + 1;
    } else {
      var head := Visit(root, fields[0].value, trail, depth, nodes);
      if head.Err? {
        way := ErrorNamesFault(root, Place(fields[0].value, trail), depth, nodes);
        i := 0;
      } else {
        i, way := ErrorInFields(root, trail, fields[1..], depth, head.value.nodes);
        assert fields[1..][i] == fields[i + 1];
        i := i + 1;
      }
    }
  }

  // A way that does not end before the steps are used up.
  predicate Deep(root: Json, p: Place, way: seq<Move>, steps: nat) {
    At(root, p, way).Some? && |way| >= steps
  }

  /** The budget is exhausted only if some way leads more than 64 steps deep, or there are more
      than 10,000 places. */
  lemma {:induction false} BudgetIsExhausted(root: Json, p: Place, depth: nat, nodes: nat) returns (way: seq<Move>)
    requires depth <= MAX_DEPTH + 1 && nodes <= MAX_NODES
    requires Visit(root, p.value, p.trail, depth, nodes) == Err(OverBudget)
    ensures var steps := MAX_DEPTH + 1 - depth;
            nodes + Places(root, p, steps) > MAX_NODES || Deep(root, p, way, steps)
    decreases MAX_DEPTH + 1 - depth, 0
  {
    hide IsBound, IsForbidden, RefOf, Resolve, At;
    way := [];
    HereIs(root, p);
    if depth <= MAX_DEPTH && nodes + 1 <= MAX_NODES {
      match p.value
      case Arr(items) =>
        var i, rest := ExhaustedInItems(root, p, items, depth + 1, nodes + 1);
        if i < |items| {
          OneStep(root, p, Item(i), rest);
          way := [Item(i)] + rest;
        }
      case Obj(fields) =>
        if RefOf(fields).None? {
          var i, rest := ExhaustedInFields(root, p, fields, depth + 1, nodes + 1);
          if i < |fields| {
            BoundNames(fields[i].key);
            OneStep(root, p, Member(i), rest);
            way := [Member(i)] + rest;
          }
        } else {
          ResolvesIff(root, RefOf(fields).value);
          var rest := BudgetIsExhausted(root, Next(root, p, Follow).value, depth + 1, nodes + 1);
          OneStep(root, p, Follow, rest);
          way := [Follow] + rest;
        }
      case _ =>
    }
  }

  // i is |items| when there are too many places.
  lemma {:induction false} ExhaustedInItems(root: Json, p: Place, items: seq<Json>, depth: nat, nodes: nat)
    returns (i: nat, way: seq<Move>)
    requires depth <= MAX_DEPTH + 1 && nodes <= MAX_NODES
    requires VisitItems(root, items, p.trail, depth, nodes) == Err(OverBudget)
    ensures var steps := MAX_DEPTH + 1 - depth;
      if i < |items| then Deep(root, Place(items[i], p.trail), way, steps)
      else nodes + PlacesIn(root, p, items, steps) > MAX_NODES
    decreases MAX_DEPTH + 1 - depth, |items| + 1
  {
    hide Visit, Places, Deep;
    var head := Visit(root, items[0], p.trail, depth, nodes);
    VisitTells(root, Place(items[0], p.trail), depth, nodes);
    if head.Err? {
      way := BudgetIsExhausted(root, Place(items[0], p.trail), depth, nodes);
      i := if Deep(root, Place(items[0], p.trail), way, MAX_DEPTH + 1 - depth) then 0 else |items|;
    } else {
      i, way := ExhaustedInItems(root, p, items[1..], depth, head.value.nodes);
      assert i < |items[1..]| ==> items[1..][i] == items[i + 1];
      i := i + 1;
    }
  }

  lemma {:induction false} ExhaustedInFields(root: Json, p: Place, fields: seq<Field>, depth: nat, nodes: nat)
    returns (i: nat, way: seq<Move>)
    requires depth <= MAX_DEPTH + 1 && nodes <= MAX_NODES
    requires VisitFields(root, fields, p.trail, depth, nodes) == Err(OverBudget)
    ensures var steps := MAX_DEPTH + 1 - depth;
      if i < |fields| then !IsBound(fields[i].key) && Deep(root, Place(fields[i].value, p.trail), way, steps)
      else nodes + PlacesUnder(root, p, fields, steps) > MAX_NODES
    decreases MAX_DEPTH + 1 - depth, |fields| + 1
  {
    hide Visit, Places, Deep, IsBound, IsForbidden;
    way := [];
    BoundNames(fields[0].key);
    if IsBound(fields[0].key) {
      i, way := ExhaustedInFields(root, p, fields[1..], depth, nodes);
      assert i < |fields[1..]| ==> fields[1..][i] == fields[i + 1];
      i := i + 1;
    } else {
      var head := Visit(root, fields[0].value, p.trail, depth, nodes);
      VisitTells(root, Place(fields[0].value, p.trail), depth, nodes);
      if head.Err? {
        way := BudgetIsExhausted(root, Place(fields[0].value, p.trail), depth, nodes);
        i := if Deep(root, Place(fields[0].value, p.trail), way, MAX_DEPTH + 1 - depth) then 0 else |fields|;
      } else {
        i, way := ExhaustedInFields(root, p, fields[1..], depth, head.value.nodes);
        assert i < |fields[1..]| ==> fields[1..][i] == fields[i + 1];
        i := i + 1;
      }
    }
  }
}
