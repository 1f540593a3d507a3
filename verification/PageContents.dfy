/**
 What a discovery page tells the model, said of the page alone: which relations it holds,
 whether there is more to see, where to go on, and which schemas occur.
 */
module PageContents {
  import opened Wrappers
  import opened Ordering
  import opened SchemaPages
  import opened Paging

  // The part of the name before its first dot.
  predicate IsSchema(schema: string, name: string) {
    '.' !in schema && (schema == name || schema + "." <= name)
  }

  // The relation at i is the first one of the schema.
  predicate FirstOf(relations: seq<Relation>, schema: string, i: nat) {
    i < |relations| && IsSchema(schema, relations[i].name)
    && forall k :: 0 <= k < i ==> !IsSchema(schema, relations[k].name)
  }

  // The schemas of the relations, each once, in the order in which they first occur.
  ghost predicate SchemasListed(schemas: seq<string>, relations: seq<Relation>) {
    exists first: seq<nat> :: ListedAt(schemas, relations, first)
  }

  ghost predicate ListedAt(schemas: seq<string>, relations: seq<Relation>, first: seq<nat>) {
    && |first| == |schemas|
    && (forall j, k :: 0 <= j < k < |first| ==> first[j] < first[k])
    && (forall j :: 0 <= j < |first| ==> FirstOf(relations, schemas[j], first[j]))
    && forall i :: 0 <= i < |relations| ==> exists j :: 0 <= j < |schemas| && IsSchema(schemas[j], relations[i].name)
  }

  // The listing goes on after the cursor: at the start, or behind the first relation so named.
  ghost predicate Follows(c: seq<Relation>, cursor: Option<string>, start: nat) {
    match cursor
    case None => start == 0
    case Some(name) =>
      0 < start <= |c| && c[start - 1].name == name && forall k :: 0 <= k < start - 1 ==> c[k].name != name
  }

  /** The page holds the relations that follow the cursor, in order; it is truncated if and
      only if the catalog is or another relation follows, and exactly in that last case it
      names its last relation as the cursor to go on with. */
  ghost predicate PageTells(c: seq<Relation>, cursor: Option<string>, catalogTruncated: bool, page: Page) {
    exists start: nat ::
      && Follows(c, cursor, start) && start <= |c|
      && var n := |page.relations|;
         && start + n <= |c| && page.relations == c[start..start + n] && (n == 0 ==> start == |c|)
         && (page.truncated <==> catalogTruncated || start + n < |c|)
         && (page.nextCursor.Some? <==> start + n < |c|)
         && (page.nextCursor.Some? ==> n > 0 && page.nextCursor.value == page.relations[n - 1].name)
         && SchemasListed(page.schemas, page.relations)
  }

  // ---------------------------------------------------------------- schemas

  lemma {:induction false} SchemaOfIs(name: string)
    ensures IsSchema(SchemaOf(name), name)
  {
    if name == "" {
    } else if name[0] == '.' {
      assert "" + "." <= name;
    } else {
      var rest, schema := SchemaOf(name[1..]), SchemaOf(name);
      SchemaOfIs(name[1..]);
      assert schema == [name[0]] + rest && name == [name[0]] + name[1..];
      assert schema + "." == [name[0]] + (rest + ".");
    }
  }

  lemma UpToDot(name: string, s: string)
    requires IsSchema(s, name)
    ensures s <= name && (|s| == |name| || name[|s|] == '.') && forall i :: 0 <= i < |s| ==> name[i] != '.'
  {
    assert forall i :: 0 <= i < |s| ==> s[i] in s;
    if s != name {
      assert (s + ".")[|s|] == '.';
    }
  }

  lemma SchemaUnique(name: string, s: string, t: string)
    requires IsSchema(s, name) && IsSchema(t, name)
    ensures s == t
  {
    UpToDot(name, s);
    UpToDot(name, t);
    assert s == name[..|s|] && t == name[..|t|];
  }

  // Where the distinct names first occur.
  lemma {:induction false} FirstPositions(names: seq<string>) returns (first: seq<nat>)
    ensures |first| == |Unique(names)|
    ensures forall j, k :: 0 <= j < k < |first| ==> first[j] < first[k]
    ensures forall j :: 0 <= j < |first| ==> first[j] < |names| && names[first[j]] == Unique(names)[j]
    ensures forall j, i :: 0 <= j < |first| && 0 <= i < first[j] ==> names[i] != Unique(names)[j]
    ensures forall i :: 0 <= i < |names| ==> names[i] in Unique(names)
  {
    first := [];
    if names != [] {
      var n := |names| - 1;
      var before, last := names[..n], names[n];
      first := FirstPositions(before);
      assert forall i :: 0 <= i < n ==> before[i] == names[i];
      if last !in Unique(before) {
        first := first + [n];
      }
    }
  }

  lemma SchemasOfListed(relations: seq<Relation>)
    ensures SchemasListed(SchemasOf(relations), relations)
  {
    var names := seq(|relations|, i requires 0 <= i < |relations| => SchemaOf(relations[i].name));
    var schemas := SchemasOf(relations);
    assert schemas == Unique(names);
    var first := FirstPositions(names);
    forall i | 0 <= i < |relations| ensures names[i] in schemas && IsSchema(names[i], relations[i].name) {
      SchemaOfIs(relations[i].name);
    }
    forall j | 0 <= j < |first| ensures FirstOf(relations, schemas[j], first[j]) {
      forall k | 0 <= k < first[j] ensures !IsSchema(schemas[j], relations[k].name) {
        if IsSchema(schemas[j], relations[k].name) {
          SchemaUnique(relations[k].name, schemas[j], names[k]);
        }
      }
    }
    assert ListedAt(schemas, relations, first);
  }

  // ---------------------------------------------------------------- pages

  lemma PageAtTells(c: seq<Relation>, cursor: Option<string>, start: nat, truncated: bool)
    requires start <= |c| && Follows(c, cursor, start) && PageAt(c, start, truncated).Ok?
    ensures PageTells(c, cursor, truncated, PageAt(c, start, truncated).value)
  {
    hide SchemasOf, SchemasListed, WithinLimit;
    var end := PageEnd(c, start, start, truncated);
    SchemasOfListed(c[start..end]);
    assert PageAt(c, start, truncated).value.relations == c[start..start + (end - start)];
  }

  lemma DiscoverTells(c: seq<Relation>, cursor: Option<string>, truncated: bool)
    ensures Discover(c, cursor, truncated).Ok? ==> PageTells(c, cursor, truncated, Discover(c, cursor, truncated).value)
  {
    hide PageAt, PageTells;
    if Discover(c, cursor, truncated).Ok? {
      PageAtTells(c, cursor, if cursor.None? then 0 else IndexOf(c, cursor.value) + 1, truncated);
    }
  }
}
