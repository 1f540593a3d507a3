/**
 JSON Pointer fragments (RFC 6901 sections 3 to 6) in tool schemas: reading a reference,
 walking to its target, and the set of references a schema holds.
 */
module SchemaPointers {
  import opened Wrappers
  import opened Json

  // ---------------------------------------------------------------- reading a pointer

  // s.split("/")
  function Split(s: string): (parts: seq<string>)
    ensures parts != []
  {
    if s == "" then [""]
    else if s[0] == '/' then [""] + Split(s[1..])
    else
      var rest := Split(s[1..]);
      [[s[0]] + rest[0]] + rest[1..]
  }

  // s.replaceAll("~" + digit, c)
  function ReplaceAll(s: string, digit: char, c: char): string {
    if s == "" then ""
    else if |s| >= 2 && s[0] == '~' && s[1] == digit then [c] + ReplaceAll(s[2..], digit, c)
    else [s[0]] + ReplaceAll(s[1..], digit, c)
  }

  function Unescape(part: string): string {
    ReplaceAll(ReplaceAll(part, '1', '/'), '0', '~')
  }

  function UnescapeAll(parts: seq<string>): seq<string> {
    seq(|parts|, i requires 0 <= i < |parts| => Unescape(parts[i]))
  }

  // None: not a local reference
  function Tokens(reference: string): Option<seq<string>> {
    if |reference| >= 2 && reference[0] == '#' && reference[1] == '/' then Some(UnescapeAll(Split(reference[2..])))
    else None
  }

  // The reference RFC 6901 writes for a path.
  function EscapeOne(c: char): string { if c == '~' then "~0" else if c == '/' then "~1" else [c] }

  function EscapeToken(token: string): string {
    if token == "" then "" else EscapeOne(token[0]) + EscapeToken(token[1..])
  }

  function PointerTo(path: seq<string>): string {
    "#" + Slashed(path)
  }

  function Slashed(path: seq<string>): string {
    if path == [] then "" else "/" + EscapeToken(path[0]) + Slashed(path[1..])
  }

  function HalfEscaped(token: string): string {
    if token == "" then "" else (if token[0] == '~' then "~0" else [token[0]]) + HalfEscaped(token[1..])
  }

  lemma {:induction false} SlashesRestored(token: string)
    ensures ReplaceAll(EscapeToken(token), '1', '/') == HalfEscaped(token)
  {
    if token != "" {
      SlashesRestored(token[1..]);
      var rest := EscapeToken(token[1..]);
      if token[0] == '~' {
        assert ("~0" + rest)[1..] == "0" + rest && ("0" + rest)[1..] == rest;
        assert ReplaceAll("0" + rest, '1', '/') == "0" + ReplaceAll(rest, '1', '/');
      } else if token[0] == '/' {
        assert ("~1" + rest)[2..] == rest;
      } else {
        assert ([token[0]] + rest)[1..] == rest;
      }
    }
  }

  lemma {:induction false} TildesRestored(token: string)
    ensures ReplaceAll(HalfEscaped(token), '0', '~') == token
  {
    if token != "" {
      TildesRestored(token[1..]);
      var rest := HalfEscaped(token[1..]);
      if token[0] == '~' {
        assert ("~0" + rest)[2..] == rest;
      } else {
        assert ([token[0]] + rest)[1..] == rest;
      }
    }
  }

  lemma UnescapeEscape(token: string)
    ensures Unescape(EscapeToken(token)) == token
  {
    SlashesRestored(token);
    TildesRestored(token);
  }

  lemma {:induction false} SplitSlashed(part: string, path: seq<string>)
    ensures Split(EscapeToken(part) + Slashed(path)) == [EscapeToken(part)] + EscapedAll(path)
    decreases |path|, 1, |part|
  {
    hide Split, EscapeOne;
    if part == "" {
      assert EscapeToken(part) + Slashed(path) == Slashed(path);
      SplitPath(path);
    } else {
      var head, rest := EscapeToken(part[1..]), EscapeToken(part[1..]) + Slashed(path);
      SplitSlashed(part[1..], path);
      assert EscapeToken(part) + Slashed(path) == EscapeOne(part[0]) + rest;
      SplitEscaped(part[0], rest, head, EscapedAll(path));
    }
  }

  lemma SplitEscaped(c: char, rest: string, head: string, tail: seq<string>)
    requires Split(rest) == [head] + tail
    ensures Split(EscapeOne(c) + rest) == [EscapeOne(c) + head] + tail
  {
    hide Split;
    if c == '~' {
      SplitPlain('0', rest, head, tail);
      SplitPlain('~', "0" + rest, "0" + head, tail);
      assert "~0" + rest == "~" + ("0" + rest) && "~0" + head == "~" + ("0" + head);
    } else if c == '/' {
      SplitPlain('1', rest, head, tail);
      SplitPlain('~', "1" + rest, "1" + head, tail);
      assert "~1" + rest == "~" + ("1" + rest) && "~1" + head == "~" + ("1" + head);
    } else {
      SplitPlain(c, rest, head, tail);
    }
  }

  lemma SplitNothing()
    ensures Split("") == [""]
  {
  }

  lemma SplitSlash(rest: string)
    ensures Split("/" + rest) == [""] + Split(rest)
  {
    assert ("/" + rest)[1..] == rest;
  }

  lemma {:induction false} SplitPath(path: seq<string>)
    ensures Split(Slashed(path)) == [""] + EscapedAll(path)
    decreases |path|, 0, 0
  {
    hide Split, EscapeToken;
    if path == [] {
      assert EscapedAll(path) == [] && Split("") == [""] by { SplitNothing(); }
    } else {
      SplitSlashed(path[0], path[1..]);
      var rest := EscapeToken(path[0]) + Slashed(path[1..]);
      assert Slashed(path) == "/" + rest;
      SplitSlash(rest);
      assert EscapedAll(path) == [EscapeToken(path[0])] + EscapedAll(path[1..]);
    }
  }

  lemma SplitPlain(c: char, rest: string, head: string, tail: seq<string>)
    requires c != '/' && Split(rest) == [head] + tail
    ensures Split([c] + rest) == [[c] + head] + tail
  {
    assert ([c] + rest)[1..] == rest;
    assert ([head] + tail)[0] == head && ([head] + tail)[1..] == tail;
  }

  function EscapedAll(path: seq<string>): (parts: seq<string>)
    ensures |parts| == |path| && forall i :: 0 <= i < |path| ==> parts[i] == EscapeToken(path[i])
  {
    seq(|path|, i requires 0 <= i < |path| => EscapeToken(path[i]))
  }

  // A reference is read back to the path it was written for, whatever the names contain.
  lemma PointerReadsBack(path: seq<string>)
    requires path != []
    ensures Tokens(PointerTo(path)) == Some(path)
  {
    hide EscapeToken, Split, Slashed, ReplaceAll, Unescape;
    PointerBody(path);
    SplitSlashed(path[0], path[1..]);
    assert EscapedAll(path) == [EscapeToken(path[0])] + EscapedAll(path[1..]);
    var tokens := UnescapeAll(EscapedAll(path));
    forall i | 0 <= i < |path| ensures tokens[i] == path[i] {
      UnescapeEscape(path[i]);
    }
    assert tokens == path;
  }

  lemma PointerBody(path: seq<string>)
    requires path != []
    ensures var reference := PointerTo(path);
            |reference| >= 2 && reference[0] == '#' && reference[1] == '/'
            && reference[2..] == EscapeToken(path[0]) + Slashed(path[1..])
  {
    assert PointerTo(path) == "#/" + (EscapeToken(path[0]) + Slashed(path[1..]));
  }

  // ---------------------------------------------------------------- walking

  function FieldValue(fields: seq<Field>, key: string): (r: Option<Json>)
    ensures r.Some? ==> exists i :: 0 <= i < |fields| && fields[i] == Field(key, r.value)
    ensures r.None? ==> forall i :: 0 <= i < |fields| ==> fields[i].key != key
  {
    if fields == [] then None
    else if fields[0].key == key then
      assert fields[0] == Field(key, fields[0].value);
      Some(fields[0].value)
    else
      var r := FieldValue(fields[1..], key);
      assert fields == [fields[0]] + fields[1..];
      r
  }

  // One step; index reads an array index, or refuses the token.
  function Step(j: Json, token: string, index: string -> Option<nat>): Option<Json> {
    match j
    case Arr(items) => if index(token).Some? && index(token).value < |items| then Some(items[index(token).value])
                       else None
    case Obj(fields) => FieldValue(fields, token)
    case _ => None
  }

  function Locate(j: Json, tokens: seq<string>, index: string -> Option<nat>): Option<Json>
    decreases |tokens|
  {
    if tokens == [] then Some(j) else
    var next := Step(j, tokens[0], index);
    if next.None? then None else Locate(next.value, tokens[1..], index)
  }

  // The property names that an object schema declares.
  function PropertyNames(fields: seq<Field>): set<string> {
    var properties := FieldValue(fields, "properties");
    if properties.Some? && properties.value.Obj? then Names(properties.value.fields) else {}
  }

  function Names(fields: seq<Field>): set<string> {
    if fields == [] then {} else {fields[0].key} + Names(fields[1..])
  }

  // ---------------------------------------------------------------- references and nodes

  // The reference of an object, if its $ref is a string.
  function RefOf(fields: seq<Field>): Option<string> {
    var r := FieldValue(fields, "$ref");
    if r.Some? && r.value.Str? then Some(r.value.s) else None
  }

  // Every string under a $ref key.
  function Refs(j: Json): set<string>
    decreases j
  {
    match j
    case Arr(items) => ItemRefs(items)
    case Obj(fields) => FieldRefs(fields)
    case _ => {}
  }

  function ItemRefs(items: seq<Json>): set<string>
    decreases items
  {
    if items == [] then {} else Refs(items[0]) + ItemRefs(items[1..])
  }

  function FieldRefs(fields: seq<Field>): set<string>
    decreases fields
  {
    if fields == [] then {} else
    (if fields[0].key == "$ref" && fields[0].value.Str? then {fields[0].value.s} else {})
    + Refs(fields[0].value) + FieldRefs(fields[1..])
  }

  function Nodes(j: Json): (n: nat)
    ensures n >= 1
    decreases j
  {
    match j
    case Arr(items) => 1 + ItemNodes(items)
    case Obj(fields) => 1 + FieldNodes(fields)
    case _ => 1
  }

  function ItemNodes(items: seq<Json>): nat
    decreases items
  {
    if items == [] then 0 else Nodes(items[0]) + ItemNodes(items[1..])
  }

  function FieldNodes(fields: seq<Field>): nat
    decreases fields
  {
    if fields == [] then 0 else Nodes(fields[0].value) + FieldNodes(fields[1..])
  }

  lemma {:induction false} ItemParts(items: seq<Json>, i: nat)
    requires i < |items|
    ensures Refs(items[i]) <= ItemRefs(items) && Nodes(items[i]) <= ItemNodes(items)
    decreases |items|
  {
    if i > 0 {
      ItemParts(items[1..], i - 1);
    }
  }

  lemma {:induction false} FieldParts(fields: seq<Field>, i: nat)
    requires i < |fields|
    ensures Refs(fields[i].value) <= FieldRefs(fields) && Nodes(fields[i].value) <= FieldNodes(fields)
    ensures fields[i].key == "$ref" && fields[i].value.Str? ==> fields[i].value.s in FieldRefs(fields)
    decreases |fields|
  {
    if i > 0 {
      FieldParts(fields[1..], i - 1);
    }
  }

  lemma RefOfIsRef(fields: seq<Field>)
    ensures RefOf(fields).Some? ==> RefOf(fields).value in FieldRefs(fields)
  {
    if RefOf(fields).Some? {
      var i :| 0 <= i < |fields| && fields[i] == Field("$ref", Str(RefOf(fields).value));
      FieldParts(fields, i);
    }
  }

  // The target of a reference holds no reference that the root does not.
  lemma {:induction false} LocateRefs(j: Json, tokens: seq<string>, index: string -> Option<nat>)
    ensures Locate(j, tokens, index).Some? ==> Refs(Locate(j, tokens, index).value) <= Refs(j)
    decreases |tokens|
  {
    if tokens != [] {
      var next := Step(j, tokens[0], index);
      if next.Some? {
        StepRefs(j, tokens[0], index);
        LocateRefs(next.value, tokens[1..], index);
      }
    }
  }

  lemma StepRefs(j: Json, token: string, index: string -> Option<nat>)
    requires Step(j, token, index).Some?
    ensures Refs(Step(j, token, index).value) <= Refs(j)
  {
    match j
    case Arr(items) => ItemParts(items, index(token).value);
    case Obj(fields) =>
      var i :| 0 <= i < |fields| && fields[i] == Field(token, FieldValue(fields, token).value);
      FieldParts(fields, i);
    case _ =>
  }

  // ---------------------------------------------------------------- cycles

  function Elements(stack: seq<string>): set<string> { set r | r in stack }

  lemma ElementsPush(stack: seq<string>, r: string)
    ensures Elements(stack + [r]) == Elements(stack) + {r}
    ensures r in Elements(stack) <==> r in stack
  {
  }

  ghost predicate PointsTo(root: Json, index: string -> Option<nat>, r: string, s: string) {
    var tokens := Tokens(r);
    tokens.Some? && Locate(root, tokens.value, index).Some? && s in Refs(Locate(root, tokens.value, index).value)
  }

  // Every reference occurs in the target of the one before.
  ghost predicate Chain(root: Json, index: string -> Option<nat>, refs: seq<string>) {
    forall i :: 0 < i < |refs| ==> PointsTo(root, index, refs[i - 1], refs[i])
  }

  ghost predicate Cyclic(root: Json, index: string -> Option<nat>) {
    exists refs :: |refs| >= 2 && refs[0] == refs[|refs| - 1] && Chain(root, index, refs)
  }

  lemma ClosesCycle(root: Json, index: string -> Option<nat>, stack: seq<string>, r: string)
    requires Chain(root, index, stack + [r]) && r in stack
    ensures Cyclic(root, index)
  {
    var i :| 0 <= i < |stack| && stack[i] == r;
    var refs := (stack + [r])[i..];
    forall k | 0 < k < |refs| ensures PointsTo(root, index, refs[k - 1], refs[k]) {
      assert refs[k] == (stack + [r])[i + k] && refs[k - 1] == (stack + [r])[i + k - 1];
    }
    assert refs[0] == r && refs[|refs| - 1] == r;
  }

  // References that can be ranked, targets below, have no cycle.
  lemma RankedIsAcyclic(root: Json, index: string -> Option<nat>, rank: string -> nat)
    requires forall r, s :: PointsTo(root, index, r, s) ==> rank(s) < rank(r)
    ensures !Cyclic(root, index)
  {
    if Cyclic(root, index) {
      var refs :| |refs| >= 2 && refs[0] == refs[|refs| - 1] && Chain(root, index, refs);
      RanksFall(root, index, rank, refs);
    }
  }

  lemma {:induction false} RanksFall(root: Json, index: string -> Option<nat>, rank: string -> nat, refs: seq<string>)
    requires forall r, s :: PointsTo(root, index, r, s) ==> rank(s) < rank(r)
    requires |refs| >= 2 && Chain(root, index, refs)
    ensures rank(refs[|refs| - 1]) < rank(refs[0])
    decreases |refs|
  {
    var n := |refs| - 1;
    assert PointsTo(root, index, refs[n - 1], refs[n]);
    if n > 1 {
      RanksFall(root, index, rank, refs[..n]);
    }
  }
}
