/**
 The wire form of schema discovery (`ReportingSchema`), the greedy packing of
 relations into byte-bounded pages, and the static page budget.
 */
module SchemaPages {
  import opened Wrappers
  import opened Json
  import opened Ordering

  const MAX_SCHEMA_RESULT_BYTES := 16_000
  const MAX_SCHEMA_DISCOVERY_CALLS_PER_MESSAGE := 3

  datatype Column = Column(name: string, dataType: string, nullable: bool, description: Option<string>)

  datatype Relation = Relation(
    name: string,
    source: string,
    description: Option<string>,
    kind: string,
    columns: seq<Column>,
    requiresFilter: bool,
    filterColumns: seq<string>,
    approvedOperators: seq<string>)

  datatype Page = Page(schemas: seq<string>, relations: seq<Relation>, truncated: bool, nextCursor: Option<string>)

  datatype DiscoveryError = InvalidCursor | SchemaPageTooLarge | SchemaTooLarge | RelationCannotFit | TooManyPages

  function NameOf(r: Relation): string { r.name }

  // ---------------------------------------------------------------- wire form

  function ToJson<T>(s: seq<T>, json: T -> Json): seq<Json> {
    seq(|s|, i requires 0 <= i < |s| => json(s[i]))
  }

  function TextJson(s: string): Json { Str(s) }

  function DescriptionFields(description: Option<string>): seq<Field> {
    if description.Some? then [Field("description", Str(description.value))] else []
  }

  function ColumnJson(c: Column): Json {
    Obj([Field("name", Str(c.name)), Field("dataType", Str(c.dataType)), Field("nullable", Bool(c.nullable))]
        + DescriptionFields(c.description))
  }

  function PolicyJson(r: Relation): Json {
    Obj([Field("requiresFilter", Bool(r.requiresFilter)),
         Field("filterColumns", Arr(ToJson(r.filterColumns, TextJson))),
         Field("approvedOperators", Arr(ToJson(r.approvedOperators, TextJson)))])
  }

  function RelationJson(r: Relation): Json {
    Obj(([Field("name", Str(r.name)), Field("source", Str(r.source))] + DescriptionFields(r.description))
        + [Field("kind", Str(r.kind)),
           Field("columns", Arr(ToJson(r.columns, ColumnJson))),
           Field("queryPolicy", PolicyJson(r))])
  }

  function LimitsJson(): Json {
    Obj([Field("maxRows", Num("50")), Field("joinsSupported", Bool(false)), Field("rawSqlAccepted", Bool(false))])
  }

  function CursorJson(cursor: Option<string>): Json {
    if cursor.Some? then Str(cursor.value) else Null
  }

  function PageKeys(): (keys: seq<string>)
    ensures |keys| == 5
  {
    ["schemas", "relations", "limits", "truncated", "nextCursor"]
  }

  function PageObject(keys: seq<string>, schemas: seq<Json>, relations: seq<Json>, limits: Json, truncated: bool,
                      cursor: Json): Json
    requires |keys| == 5
  {
    Obj([Field(keys[0], Arr(schemas)), Field(keys[1], Arr(relations)), Field(keys[2], limits),
         Field(keys[3], Bool(truncated)), Field(keys[4], cursor)])
  }

  function PageJson(p: Page): Json {
    PageObject(PageKeys(), ToJson(p.schemas, TextJson), ToJson(p.relations, RelationJson), LimitsJson(),
               p.truncated, CursorJson(p.nextCursor))
  }

  function PageBytes(p: Page): nat { Size(PageJson(p)) }

  predicate WithinLimit(p: Page) { PageBytes(p) <= MAX_SCHEMA_RESULT_BYTES }

  // ---------------------------------------------------------------- sizes

  // An element with the comma that separates it from the next one.
  function TextWeight(s: string): nat { Size(TextJson(s)) + 1 }
  function ColumnWeight(c: Column): nat { Size(ColumnJson(c)) + 1 }
  function RelationWeight(r: Relation): nat { Size(RelationJson(r)) + 1 }

  lemma {:induction false} ListSize<T>(s: seq<T>, json: T -> Json, weight: T -> nat, leading: bool)
    requires forall x :: weight(x) == Size(json(x)) + 1
    ensures ItemsSize(ToJson(s, json), leading) == Total(s, weight) - (if leading && s != [] then 1 else 0)
  {
    if s != [] {
      assert ToJson(s, json)[1..] == ToJson(s[1..], json);
      ListSize(s[1..], json, weight, false);
    }
  }

  lemma {:induction false} FieldsSizeConcat(a: seq<Field>, b: seq<Field>, leading: bool)
    ensures FieldsSize(a + b, leading) == FieldsSize(a, leading) + FieldsSize(b, leading && a == [])
  {
    if a == [] {
      assert a + b == b;
    } else {
      assert (a + b)[1..] == a[1..] + b;
      FieldsSizeConcat(a[1..], b, false);
    }
  }

  // One field within an object: everything else is unaffected by its value.
  lemma FieldSize(a: seq<Field>, key: string, value: Json, b: seq<Field>)
    ensures Size(Obj(a + [Field(key, value)] + b))
         == 2 + FieldsSize(a, true) + (if a == [] then 0 else 1)
              + QuotedBytes(key) + 1 + Size(value) + FieldsSize(b, false)
  {
    FieldsSizeConcat(a + [Field(key, value)], b, true);
    FieldsSizeConcat(a, [Field(key, value)], true);
    assert [Field(key, value)][1..] == [];
  }

  // What a page costs beyond its lists, its flag and its cursor.
  ghost function PageBase(): nat { PageBytes(Page([], [], true, None)) }

  lemma PageBytesSplit(p: Page)
    ensures PageBytes(p) == PageBase()
                          + Total(p.schemas, TextWeight) - (if p.schemas != [] then 1 else 0)
                          + Total(p.relations, RelationWeight) - (if p.relations != [] then 1 else 0)
                          + (if p.truncated then 0 else 1)
                          + Size(CursorJson(p.nextCursor)) - 4
  {
    hide EscapedBytes;
    var keys := PageKeys();
    var none: seq<string>, nothing: seq<Relation> := [], [];
    assert ToJson(none, TextJson) == [] && ToJson(nothing, RelationJson) == [];
    var schemas, relations := ToJson(p.schemas, TextJson), ToJson(p.relations, RelationJson);
    PageFields(keys, schemas, relations, LimitsJson(), p.truncated, CursorJson(p.nextCursor));
    PageFields(keys, [], [], LimitsJson(), true, Null);
    ListSize(p.schemas, TextJson, TextWeight, true);
    ListSize(p.relations, RelationJson, RelationWeight, true);
  }

  // A page with no more relations, schemas and cursor than another one is no larger.
  lemma PageCompare(p: Page, q: Page)
    requires Total(p.schemas, TextWeight) <= Total(q.schemas, TextWeight) && (q.schemas != [] ==> p.schemas != [])
    requires p.relations != [] && q.relations != [] && !q.truncated
    requires Total(p.relations, RelationWeight) + Size(CursorJson(p.nextCursor))
          <= Total(q.relations, RelationWeight) + Size(CursorJson(q.nextCursor))
    ensures PageBytes(p) <= PageBytes(q)
  {
    PageBytesSplit(p);
    PageBytesSplit(q);
  }

  lemma PageFields(keys: seq<string>, schemas: seq<Json>, relations: seq<Json>, limits: Json, truncated: bool,
                   cursor: Json)
    requires |keys| == 5
    ensures Size(PageObject(keys, schemas, relations, limits, truncated, cursor))
         == 15 + ItemsSize(schemas, true) + ItemsSize(relations, true) + Size(limits)
            + (if truncated then 4 else 5) + Size(cursor)
            + QuotedBytes(keys[0]) + QuotedBytes(keys[1]) + QuotedBytes(keys[2]) + QuotedBytes(keys[3])
            + QuotedBytes(keys[4])
  {
    FiveFields(Field(keys[0], Arr(schemas)), Field(keys[1], Arr(relations)), Field(keys[2], limits),
               Field(keys[3], Bool(truncated)), Field(keys[4], cursor));
  }

  lemma FiveFields(a: Field, b: Field, c: Field, d: Field, e: Field)
    ensures Size(Obj([a, b, c, d, e]))
         == 11 + QuotedBytes(a.key) + Size(a.value) + QuotedBytes(b.key) + Size(b.value)
               + QuotedBytes(c.key) + Size(c.value)
               + QuotedBytes(d.key) + Size(d.value) + QuotedBytes(e.key) + Size(e.value)
  {
    var s := [a, b, c, d, e];
    assert s[1..] == [b, c, d, e] && s[1..][1..] == [c, d, e];
    assert [c, d, e][1..] == [d, e] && [d, e][1..] == [e] && [e][1..] == [];
    assert FieldsSize([e], false) == 2 + QuotedBytes(e.key) + Size(e.value);
    assert FieldsSize([d, e], false) == 2 + QuotedBytes(d.key) + Size(d.value) + FieldsSize([e], false);
    assert FieldsSize([c, d, e], false) == 2 + QuotedBytes(c.key) + Size(c.value) + FieldsSize([d, e], false);
    assert FieldsSize([b, c, d, e], false) == 2 + QuotedBytes(b.key) + Size(b.value) + FieldsSize([c, d, e], false);
  }

  lemma {:induction false} PlainBytes(t: string)
    requires forall i :: 0 <= i < |t| ==> ' ' <= t[i] <= 'z' && t[i] != '\"' && t[i] != '\\'
    ensures QuotedBytes(t) == |t| + 2
  {
    if t != "" {
      PlainBytes(t[1..]);
      AsciiByteLength(EscapeChar(t[0]));
    }
  }

  lemma EmptyPageFits(page: Page)
    requires page.schemas == [] && page.relations == [] && page.nextCursor == None
    ensures PageBytes(page) <= 150
  {
    hide EscapedBytes;
    var keys := PageKeys();
    var none: seq<string>, nothing: seq<Relation> := [], [];
    assert ToJson(none, TextJson) == [] && ToJson(nothing, RelationJson) == [];
    PageFields(keys, [], [], LimitsJson(), page.truncated, Null);
    PlainBytes(keys[0]);
    PlainBytes(keys[1]);
    PlainBytes(keys[2]);
    PlainBytes(keys[3]);
    PlainBytes(keys[4]);
    LimitsBytes();
  }

  lemma LimitsBytes()
    ensures Size(LimitsJson()) <= 70
  {
    hide EscapedBytes;
    var a, b, c := Field("maxRows", Num("50")), Field("joinsSupported", Bool(false)), Field("rawSqlAccepted",
        Bool(false));
    PlainBytes("maxRows");
    PlainBytes("joinsSupported");
    PlainBytes("rawSqlAccepted");
    FieldSize([a], "joinsSupported", Bool(false), [c]);
    assert [a] + [b] + [c] == [a, b, c];
    assert [a][1..] == [] && [c][1..] == [];
  }

  lemma PolicyBytes(r: Relation)
    ensures Size(PolicyJson(r)) >= 65
    ensures r.filterColumns == [] && r.approvedOperators == [] ==> Size(PolicyJson(r)) <= 66
  {
    hide EscapedBytes;
    var a := Field("requiresFilter", Bool(r.requiresFilter));
    var b := Field("filterColumns", Arr(ToJson(r.filterColumns, TextJson)));
    var c := Field("approvedOperators", Arr(ToJson(r.approvedOperators, TextJson)));
    PlainBytes("requiresFilter");
    PlainBytes("filterColumns");
    PlainBytes("approvedOperators");
    FieldSize([a], b.key, b.value, [c]);
    assert [a] + [b] + [c] == [a, b, c];
    assert [a][1..] == [] && [c][1..] == [];
    ListSize(r.filterColumns, TextJson, TextWeight, true);
    ListSize(r.approvedOperators, TextJson, TextWeight, true);
  }

  // A relation costs more than its keys; `RelationOutweighsCursor` rests on this bound.
  lemma RelationLeast(r: Relation)
    ensures RelationWeight(r) >= QuotedBytes(r.name) + QuotedBytes(r.source) + QuotedBytes(r.kind) + 121
    ensures r.columns == [] && r.description == None && r.filterColumns == [] && r.approvedOperators == [] ==>
              RelationWeight(r) <= QuotedBytes(r.name) + QuotedBytes(r.source) + QuotedBytes(r.kind) + 122
  {
    hide Size, QuotedBytes;
    var a := [Field("name", Str(r.name)), Field("source", Str(r.source))];
    var columns := Arr(ToJson(r.columns, ColumnJson));
    var b := [Field("kind", Str(r.kind)), Field("columns", columns), Field("queryPolicy", PolicyJson(r))];
    var fields := (a + DescriptionFields(r.description)) + b;
    FieldsSizeConcat(a + DescriptionFields(r.description), b, true);
    FieldsSizeConcat(a, DescriptionFields(r.description), true);
    RelationHead(r.name, r.source);
    RelationRest(r.kind, columns, PolicyJson(r));
    PolicyBytes(r);
    ListLeast(r.columns);
    assert RelationJson(r) == Obj(fields);
    ObjectSize(fields);
  }

  lemma ObjectSize(fields: seq<Field>)
    ensures Size(Obj(fields)) == 2 + FieldsSize(fields, true)
  {
  }

  lemma ListLeast(columns: seq<Column>)
    ensures Size(Arr(ToJson(columns, ColumnJson))) >= 2
    ensures columns == [] ==> Size(Arr(ToJson(columns, ColumnJson))) == 2
  {
  }

  lemma RelationHead(name: string, source: string)
    ensures FieldsSize([Field("name", Str(name)), Field("source", Str(source))], true)
         == 17 + QuotedBytes(name) + QuotedBytes(source)
  {
    hide EscapedBytes;
    var a, b := Field("name", Str(name)), Field("source", Str(source));
    PlainBytes("name");
    PlainBytes("source");
    assert [a, b][1..] == [b] && [b][1..] == [];
    assert FieldsSize([b], false) == 10 + QuotedBytes(source);
  }

  lemma RelationRest(kind: string, columns: Json, policy: Json)
    ensures FieldsSize([Field("kind", Str(kind)), Field("columns", columns), Field("queryPolicy", policy)], false)
         == 34 + QuotedBytes(kind) + Size(columns) + Size(policy)
  {
    hide EscapedBytes;
    var a, b, c := Field("kind", Str(kind)), Field("columns", columns), Field("queryPolicy", policy);
    PlainBytes("kind");
    PlainBytes("columns");
    PlainBytes("queryPolicy");
    assert [a, b, c][1..] == [b, c] && [b, c][1..] == [c] && [c][1..] == [];
    assert FieldsSize([c], false) == 15 + Size(policy);
    assert FieldsSize([b, c], false) == 11 + Size(columns) + FieldsSize([c], false);
  }
}
