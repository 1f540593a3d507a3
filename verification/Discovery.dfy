/**
 Schema discovery: what the static budget and the three providers show of a
 relation policy, the loops that page it, and the end-to-end budget theorem.
 */
module Discovery {
  import opened Wrappers
  import opened Json
  import opened FieldTypes
  import opened Ordering
  import opened SchemaPages
  import opened Paging
  import opened PageContents

  datatype Source = Postgres | MongoDb

  datatype Policy = Policy(
    source: Option<Source>,
    relation: string,
    description: Option<string>,
    columns: seq<string>,
    fieldDescriptions: map<string, string>,
    fieldTypes: map<string, FieldType>,
    filterColumns: seq<string>,
    allowUnfiltered: bool)

  datatype CatalogColumn = CatalogColumn(name: string, dataType: string, nullable: bool)

  const BOUNDED_FILTER_OPERATORS: seq<string> := ["eq", "lt", "lte", "gt", "gte", "in", "starts_with"]
  const UNKNOWN_TYPE_LENGTH: nat := 80

  function RelationOf(p: Policy): string { p.relation }

  function Repeat(c: char, n: nat): string { seq(n, _ => c) }

  // An absent description and an empty one are both left out.
  function Described(description: Option<string>): Option<string> {
    if description == Some("") then None else description
  }

  function FieldDescription(p: Policy, name: string): Option<string> {
    if name in p.fieldDescriptions then Described(Some(p.fieldDescriptions[name])) else None
  }

  function ShownAs(p: Policy, source: string, kind: string, columns: seq<Column>): Relation {
    Relation(p.relation, source, Described(p.description), kind, columns, !p.allowUnfiltered, p.filterColumns,
             if p.allowUnfiltered then [] else BOUNDED_FILTER_OPERATORS)
  }

  // ---------------------------------------------------------------- the budgeted and the run-time form

  function BudgetType(p: Policy, name: string): string {
    if name in p.fieldTypes then TypeName(p.fieldTypes[name]) else Repeat('x', UNKNOWN_TYPE_LENGTH)
  }

  function BudgetColumn(p: Policy, name: string): Column {
    Column(name, BudgetType(p, name), false, FieldDescription(p, name))
  }

  function BudgetRelation(p: Policy): Relation {
    var mongo := p.source == Some(MongoDb);
    ShownAs(p, if mongo then "mongodb" else "postgres", if mongo then "collection" else "view",
            seq(|p.columns|, i requires 0 <= i < |p.columns| => BudgetColumn(p, p.columns[i])))
  }

  function BudgetCandidates(policies: seq<Policy>): seq<Relation> {
    var sorted := SortBy(policies, RelationOf);
    seq(|sorted|, i requires 0 <= i < |sorted| => BudgetRelation(sorted[i]))
  }

  function MongoColumn(p: Policy, name: string): Column
    requires name in p.fieldTypes
  {
    Column(name, TypeName(p.fieldTypes[name]), true, FieldDescription(p, name))
  }

  // Every field of a MongoDB policy has a type (checked by the constructor).
  predicate FieldsTyped(p: Policy) {
    forall i :: 0 <= i < |p.columns| ==> p.columns[i] in p.fieldTypes
  }

  function MongoRelation(p: Policy): Relation
    requires FieldsTyped(p)
  {
    ShownAs(p, "mongodb", "collection",
            seq(|p.columns|, i requires 0 <= i < |p.columns| => MongoColumn(p, p.columns[i])))
  }

  function PostgresColumn(p: Policy, c: CatalogColumn): Column {
    Column(c.name, c.dataType, c.nullable, FieldDescription(p, c.name))
  }

  // Columns appear in the order of the catalog, not of the policy.
  function PostgresRelation(p: Policy, catalog: seq<CatalogColumn>): Relation {
    ShownAs(p, "postgres", "view",
            seq(|catalog|, i requires 0 <= i < |catalog| => PostgresColumn(p, catalog[i])))
  }

  function CatalogName(c: CatalogColumn): string { c.name }

  // The catalog keeps a relation only when it has exactly the policy's columns.
  ghost predicate CatalogMatches(p: Policy, catalog: seq<CatalogColumn>) {
    && Distinct(catalog, CatalogName)
    && |catalog| == |p.columns|
    && forall i :: 0 <= i < |catalog| ==> catalog[i].name in p.columns
  }

  // Catalog types are cut to 80 characters; as JSON text they take no more than those of the
  // budget's placeholder.
  predicate CutType(t: string) { QuotedBytes(t) <= 82 }

  ghost predicate CutCatalog(catalog: seq<CatalogColumn>) {
    forall i :: 0 <= i < |catalog| ==> CutType(catalog[i].dataType)
  }

  // ---------------------------------------------------------------- sizes of the two forms

  lemma {:induction false} ColumnBytes(c: Column)
    ensures ColumnWeight(c) == ColumnWeight(c.(dataType := "", nullable := true))
                             + QuotedBytes(c.dataType) - 2 + (if c.nullable then 0 else 1)
  {
    ThreeFields(Field("name", Str(c.name)), "dataType", c.dataType, "nullable", c.nullable,
                DescriptionFields(c.description));
    ThreeFields(Field("name", Str(c.name)), "dataType", "", "nullable", true, DescriptionFields(c.description));
  }

  lemma {:induction false} ThreeFields(a: Field, key: string, text: string, flagKey: string, flag: bool,
                                       rest: seq<Field>)
    ensures Size(Obj([a, Field(key, Str(text)), Field(flagKey, Bool(flag))] + rest))
         == 2 + FieldsSize([a], true) + 3 + QuotedBytes(key) + QuotedBytes(text) + QuotedBytes(flagKey)
            + (if flag then 5 else 6) + FieldsSize(rest, false)
  {
    var b := [Field(flagKey, Bool(flag))];
    FieldSize([a], key, Str(text), b + rest);
    FieldsSizeConcat(b, rest, false);
    assert b[1..] == [];
    assert [a, Field(key, Str(text)), Field(flagKey, Bool(flag))] + rest == [a] + [Field(key, Str(text))] + (b + rest);
  }

  lemma {:induction false} RelationBytes(r: Relation)
    ensures RelationWeight(r) == RelationWeight(r.(columns := []))
                               + Total(r.columns, ColumnWeight) - (if r.columns != [] then 1 else 0)
  {
    hide EscapedBytes;
    var a := ([Field("name", Str(r.name)), Field("source", Str(r.source))] + DescriptionFields(r.description))
             + [Field("kind", Str(r.kind))];
    var b := [Field("queryPolicy", PolicyJson(r))];
    var empty := r.(columns := []);
    var none: seq<Column> := [];
    assert ToJson(none, ColumnJson) == [];
    RelationShape(r, a, b);
    RelationShape(empty, a, b);
    FieldSize(a, "columns", Arr(ToJson(r.columns, ColumnJson)), b);
    FieldSize(a, "columns", Arr([]), b);
    ListSize(r.columns, ColumnJson, ColumnWeight, true);
  }

  lemma {:induction false} RelationShape(r: Relation, a: seq<Field>, b: seq<Field>)
    requires a == ([Field("name", Str(r.name)), Field("source", Str(r.source))] + DescriptionFields(r.description))
                  + [Field("kind", Str(r.kind))]
    requires b == [Field("queryPolicy", PolicyJson(r))]
    ensures RelationJson(r) == Obj(a + [Field("columns", Arr(ToJson(r.columns, ColumnJson)))] + b)
  {
  }

  function ColumnName(c: Column): string { c.name }

  // A listing whose columns are no heavier is no heavier as a whole.
  lemma {:induction false} ListingCompare(p: Policy, source: string, kind: string, a: seq<Column>, b: seq<Column>)
    requires Distinct(a, ColumnName) && Covered(a, b, ColumnName, ColumnName, ColumnWeight, ColumnWeight)
    requires a == [] ==> b == []
    ensures RelationWeight(ShownAs(p, source, kind, a)) <= RelationWeight(ShownAs(p, source, kind, b))
  {
    TotalCovered(a, b, ColumnName, ColumnName, ColumnWeight, ColumnWeight);
    RelationBytes(ShownAs(p, source, kind, a));
    RelationBytes(ShownAs(p, source, kind, b));
  }

  lemma {:induction false} MongoNoLarger(p: Policy)
    requires p.source == Some(MongoDb) && FieldsTyped(p) && Distinct(p.columns, Self)
    ensures RelationWeight(MongoRelation(p)) <= RelationWeight(BudgetRelation(p))
  {
    var a, b := MongoRelation(p).columns, BudgetRelation(p).columns;
    forall i | 0 <= i < |a| ensures HasCover(a[i], b, ColumnName, ColumnName, ColumnWeight, ColumnWeight) {
      ColumnBytes(a[i]);
      ColumnBytes(b[i]);
      assert ColumnName(b[i]) == ColumnName(a[i]);
    }
    assert Distinct(a, ColumnName) by {
      forall i, j | 0 <= i < j < |a| ensures ColumnName(a[i]) != ColumnName(a[j]) {
        assert Self(p.columns[i]) != Self(p.columns[j]);
      }
    }
    ListingCompare(p, "mongodb", "collection", a, b);
  }

  // The run-time type of every column that the manifest gives a type is no longer than that type.
  ghost predicate TypesWithinBudget(p: Policy, catalog: seq<CatalogColumn>) {
    forall i :: 0 <= i < |catalog| && catalog[i].name in p.fieldTypes ==>
      QuotedBytes(catalog[i].dataType) <= QuotedBytes(TypeName(p.fieldTypes[catalog[i].name]))
  }

  lemma {:induction false} RepeatBytes(n: nat)
    ensures QuotedBytes(Repeat('x', n)) == n + 2
  {
    PlainBytes(Repeat('x', n));
  }

  /** A column that is never null is shown within its budget exactly when its catalog type takes
      no more bytes than the type that the manifest gives it, or than 80 characters and the
      quotation marks if it gives none. */
  lemma ColumnWithinBudgetIff(p: Policy, c: CatalogColumn)
    requires !c.nullable
    ensures var budgeted :=
        if c.name in p.fieldTypes then QuotedBytes(TypeName(p.fieldTypes[c.name])) else 82;
      ColumnWeight(PostgresColumn(p, c)) <= ColumnWeight(BudgetColumn(p, c.name))
      <==> QuotedBytes(c.dataType) <= budgeted
  {
    hide ColumnWeight, EscapedBytes;
    RepeatBytes(80);
    ColumnBytes(PostgresColumn(p, c));
    ColumnBytes(BudgetColumn(p, c.name));
  }

  lemma {:induction false} PostgresNoLarger(p: Policy, catalog: seq<CatalogColumn>)
    requires p.source != Some(MongoDb)
    requires CatalogMatches(p, catalog) && CutCatalog(catalog) && TypesWithinBudget(p, catalog)
    ensures RelationWeight(PostgresRelation(p, catalog)) <= RelationWeight(BudgetRelation(p))
  {
    var a, b := PostgresRelation(p, catalog).columns, BudgetRelation(p).columns;
    forall i | 0 <= i < |a| ensures HasCover(a[i], b, ColumnName, ColumnName, ColumnWeight, ColumnWeight) {
      var name := catalog[i].name;
      var j :| 0 <= j < |p.columns| && p.columns[j] == name;
      RepeatBytes(UNKNOWN_TYPE_LENGTH);
      ColumnBytes(a[i]);
      ColumnBytes(b[j]);
      assert ColumnName(b[j]) == ColumnName(a[i]);
    }
    assert Distinct(a, ColumnName) by {
      forall i, j | 0 <= i < j < |a| ensures ColumnName(a[i]) != ColumnName(a[j]) {
        assert CatalogName(catalog[i]) != CatalogName(catalog[j]);
      }
    }
    ListingCompare(p, "postgres", "view", a, b);
  }

  // ---------------------------------------------------------------- the start-up check

  function BudgetOutcome(c: seq<Relation>, schemas: seq<string>): Result<nat, DiscoveryError> {
    match PageCount(c, schemas, 0)
    case None => Err(RelationCannotFit)
    case Some(n) =>
      var pages := if c == [] then 1 else n;
      if pages > MAX_SCHEMA_DISCOVERY_CALLS_PER_MESSAGE then Err(TooManyPages) else Ok(pages)
  }

  // pageCount pages are begun, the last of them at start.
  ghost predicate Counted(c: seq<Relation>, schemas: seq<string>, start: nat, pageCount: nat)
    requires start <= |c|
  {
    match PageCount(c, schemas, start)
    case None => PageCount(c, schemas, 0).None?
    case Some(n) => PageCount(c, schemas, 0) == Some(pageCount + n - 1)
  }

  lemma {:induction false} PageFull(c: seq<Relation>, schemas: seq<string>, start: nat, i: nat, pageCount: nat)
    requires start < i <= |c| && Counted(c, schemas, start, pageCount)
    requires BudgetEnd(c, schemas, start, start) == BudgetEnd(c, schemas, start, i)
    requires i < |c| ==> !WithinLimit(BudgetPage(schemas, c[start..i + 1]))
    ensures Counted(c, schemas, i, pageCount + 1)
  {
    assert BudgetEnd(c, schemas, start, i) == i;
  }

  // A relation that does not fit on the page it would begin fits on none.
  lemma Stuck(c: seq<Relation>, schemas: seq<string>, start: nat, pageCount: nat)
    requires start < |c| && Counted(c, schemas, start, pageCount)
    requires !WithinLimit(BudgetPage(schemas, c[start..start + 1]))
    ensures PageCount(c, schemas, 0).None?
  {
    hide WithinLimit, BudgetPage;
  }

  lemma CountedAtEnds(c: seq<Relation>, schemas: seq<string>, pageCount: nat)
    ensures Counted(c, schemas, 0, 1)
    ensures Counted(c, schemas, |c|, pageCount + 1) ==> PageCount(c, schemas, 0) == Some(pageCount)
  {
  }

  method AssertDiscoveryBudget(policies: seq<Policy>, allowedSchemas: seq<string>)
    returns (r: Result<nat, DiscoveryError>)
    ensures r == BudgetOutcome(BudgetCandidates(policies), allowedSchemas)
  {
    var candidates := BudgetCandidates(policies);
    r := PackCandidates(candidates, allowedSchemas);
  }

  method PackCandidates(candidates: seq<Relation>, allowedSchemas: seq<string>) returns (r: Result<nat, DiscoveryError>)
    ensures r == BudgetOutcome(candidates, allowedSchemas)
  {
    hide WithinLimit, Counted, PageCount;
    CountedAtEnds(candidates, allowedSchemas, 0);
    var pageCount := 1;
    var pageRelations: seq<Relation> := [];
    ghost var start := 0;
    for i := 0 to |candidates|
      invariant start <= i && (start == i ==> i == 0) && (i == 0 ==> pageCount == 1)
      invariant pageRelations == candidates[start..i] && pageCount >= 1
      invariant BudgetEnd(candidates, allowedSchemas, start, start) == BudgetEnd(candidates, allowedSchemas, start, i)
      invariant Counted(candidates, allowedSchemas, start, pageCount)
    {
      var candidate := candidates[i];
      var nextRelations := pageRelations + [candidate];
      assert nextRelations == candidates[start..i + 1];
      var next := Page(allowedSchemas, nextRelations, false, Some(candidate.name));
      assert next == BudgetPage(allowedSchemas, candidates[start..i + 1]);
      if WithinLimit(next) {
        pageRelations := nextRelations;
        continue;
      }
      if pageRelations == [] {
        Stuck(candidates, allowedSchemas, start, pageCount);
        return Err(RelationCannotFit);
      }
      PageFull(candidates, allowedSchemas, start, i, pageCount);
      pageCount := pageCount + 1;
      pageRelations := [candidate];
      start := i;
      assert candidates[i..i + 1] == [candidate];
      var alone := Page(allowedSchemas, pageRelations, false, Some(candidate.name));
      assert alone == BudgetPage(allowedSchemas, candidates[start..i + 1]);
      if !WithinLimit(alone) {
        Stuck(candidates, allowedSchemas, start, pageCount);
        return Err(RelationCannotFit);
      }
    }
    if candidates != [] {
      PageFull(candidates, allowedSchemas, start, |candidates|, pageCount);
      CountedAtEnds(candidates, allowedSchemas, pageCount);
    } else {
      NoCandidates(allowedSchemas);
    }
    if pageCount > MAX_SCHEMA_DISCOVERY_CALLS_PER_MESSAGE {
      return Err(TooManyPages);
    }
    return Ok(pageCount);
  }

  // ---------------------------------------------------------------- the check refuses no more than it must

  // The relation names that the manifest parser accepts are at least this plain.
  predicate ManifestName(name: string) {
    3 <= |name| <= 127 && forall i :: 0 <= i < |name| ==> ' ' <= name[i] <= 'z' && name[i] != '\"' && name[i] != '\\'
  }

  ghost predicate ManifestNames(policies: seq<Policy>) {
    Distinct(policies, RelationOf) && forall p :: p in policies ==> ManifestName(p.relation)
  }

  lemma {:induction false} ManifestCursorsAreLight(policies: seq<Policy>)
    requires ManifestNames(policies)
    ensures CursorsAreLight(BudgetCandidates(policies))
  {
    hide RelationWeight, BudgetRelation, Size;
    SortBySorts(policies, RelationOf);
    var sorted, c := SortBy(policies, RelationOf), BudgetCandidates(policies);
    forall i | 0 <= i < |c| ensures ManifestName(c[i].name) {
      assert sorted[i] in multiset(sorted);
      assert sorted[i] in multiset(policies);
      CandidateName(sorted[i]);
    }
    forall i, j | 0 <= i < |c| && 0 <= j < |c| ensures Size(Str(c[i].name)) <= RelationWeight(c[j]) {
      RelationOutweighsCursor(c[i].name, c[j]);
    }
  }

  lemma CandidateName(p: Policy)
    ensures BudgetRelation(p).name == p.relation
  {
  }

  /** The manifest is refused for its number of pages exactly when every relation fits alone
      and no division into fitting pages, greedy or not, has three pages or fewer. */
  lemma {:induction false} TooManyPagesIff(policies: seq<Policy>, schemas: seq<string>, c: seq<Relation>)
    requires ManifestNames(policies) && c == BudgetCandidates(policies)
    ensures BudgetOutcome(c, schemas) == Err(TooManyPages)
       <==> (forall j :: 0 <= j < |c| ==> WithinLimit(BudgetPage(schemas, [c[j]])))
            && (forall cuts :: Division(c, schemas, 0, cuts) ==> |cuts| > MAX_SCHEMA_DISCOVERY_CALLS_PER_MESSAGE)
  {
    hide WithinLimit, CursorsAreLight, BudgetCandidates, ManifestNames, PageCount;
    ManifestCursorsAreLight(policies);
    CannotFitIff(c, schemas, 0);
    NoCandidates(schemas);
    if PageCount(c, schemas, 0).Some? {
      var greedy := GreedyIsDivision(c, schemas, 0);
      forall cuts | Division(c, schemas, 0, cuts) ensures |cuts| >= PageCount(c, schemas, 0).value {
        GreedyIsMinimal(c, schemas, 0, 0, cuts);
      }
    }
  }

  lemma NoCandidates(schemas: seq<string>)
    ensures PageCount([], schemas, 0) == Some(0) && Division([], schemas, 0, [])
  {
  }

  // ---------------------------------------------------------------- discovery calls

  // The page that a call builds from what it has collected.
  function BuildPage(relations: seq<Relation>, hasMore: bool, truncated: bool): Page
    requires hasMore ==> relations != []
  {
    Page(SchemasOf(relations), relations, truncated || hasMore,
         if hasMore then Some(relations[|relations| - 1].name) else None)
  }

  lemma {:induction false} CursorStart(c: seq<Relation>, cursor: Option<string>, truncated: bool)
    ensures var start := if cursor.None? then 0 else IndexOf(c, cursor.value) + 1;
            Discover(c, cursor, truncated) == (if start > |c| then Err(InvalidCursor) else PageAt(c, start, truncated))
  {
    hide PageAt;
  }

  lemma {:induction false} PageStep(c: seq<Relation>, start: nat, next: nat, truncated: bool)
    requires start <= next < |c|
    ensures PageEnd(c, start, next, truncated)
         == if WithinLimit(BuildPage(c[start..next] + [c[next]], next + 1 < |c|, truncated))
            then PageEnd(c, start, next + 1, truncated) else next
  {
    hide WithinLimit, SchemasOf;
    assert c[start..next] + [c[next]] == c[start..next + 1];
  }

  lemma {:induction false} PageDone(c: seq<Relation>, start: nat, next: nat, truncated: bool)
    requires start <= next <= |c|
    requires PageEnd(c, start, start, truncated) == next
    ensures start == next < |c| ==> PageAt(c, start, truncated) == Err(SchemaPageTooLarge)
    ensures start < next || start == |c| ==>
              && PageAt(c, start, truncated) == Ok(BuildPage(c[start..next], next < |c|, truncated))
              && WithinLimit(BuildPage(c[start..next], next < |c|, truncated))
  {
    hide WithinLimit, SchemasOf;
    if start < next || start == |c| {
      PageFits(c, start, start, truncated);
    }
  }

  // PostgreSQL: the finished page is measured once more before it is returned.
  method DiscoverPostgres(candidates: seq<Relation>, cursor: Option<string>, catalogTruncated: bool)
    returns (r: Result<Page, DiscoveryError>)
    ensures r == Discover(candidates, cursor, catalogTruncated)
    ensures r.Ok? ==> PageTells(candidates, cursor, catalogTruncated, r.value)
  {
    hide WithinLimit, SchemasOf, Discover, PageAt, PageEnd, PageTells;
    DiscoverTells(candidates, cursor, catalogTruncated);
    CursorStart(candidates, cursor, catalogTruncated);
    var startIndex := if cursor.None? then 0 else IndexOf(candidates, cursor.value) + 1;
    if startIndex > |candidates| {
      return Err(InvalidCursor);
    }
    var relations: seq<Relation> := [];
    var nextIndex := startIndex;
    while nextIndex < |candidates|
      invariant startIndex <= nextIndex <= |candidates|
      invariant relations == candidates[startIndex..nextIndex]
      invariant PageEnd(candidates, startIndex, startIndex, catalogTruncated) ==
        PageEnd(candidates, startIndex, nextIndex, catalogTruncated)
    {
      PageStep(candidates, startIndex, nextIndex, catalogTruncated);
      var candidateRelations := relations + [candidates[nextIndex]];
      if !WithinLimit(BuildPage(candidateRelations, nextIndex + 1 < |candidates|, catalogTruncated)) {
        break;
      }
      relations := candidateRelations;
      nextIndex := nextIndex + 1;
    }
    PageDone(candidates, startIndex, nextIndex, catalogTruncated);
    if relations == [] && startIndex < |candidates| {
      return Err(SchemaPageTooLarge);
    }
    var page := BuildPage(relations, nextIndex < |candidates|, catalogTruncated);
    if !WithinLimit(page) {
      return Err(SchemaPageTooLarge);
    }
    return Ok(page);
  }

  // MongoDB, and the federation over its merged candidates.
  method DiscoverMerged(candidates: seq<Relation>, cursor: Option<string>) returns (r: Result<Page, DiscoveryError>)
    ensures r == Discover(candidates, cursor, false)
    ensures r.Ok? ==> PageTells(candidates, cursor, false, r.value)
  {
    hide WithinLimit, SchemasOf, Discover, PageAt, PageEnd, PageTells;
    DiscoverTells(candidates, cursor, false);
    CursorStart(candidates, cursor, false);
    var startIndex := if cursor.None? then 0 else IndexOf(candidates, cursor.value) + 1;
    if startIndex > |candidates| {
      return Err(InvalidCursor);
    }
    var relations: seq<Relation> := [];
    var nextIndex := startIndex;
    while nextIndex < |candidates|
      invariant startIndex <= nextIndex <= |candidates|
      invariant relations == candidates[startIndex..nextIndex]
      invariant PageEnd(candidates, startIndex, startIndex, false) == PageEnd(candidates, startIndex, nextIndex, false)
    {
      PageStep(candidates, startIndex, nextIndex, false);
      var candidate := candidates[nextIndex];
      if !WithinLimit(BuildPage(relations + [candidate], nextIndex + 1 < |candidates|, false)) {
        break;
      }
      relations := relations + [candidate];
      nextIndex := nextIndex + 1;
    }
    PageDone(candidates, startIndex, nextIndex, false);
    if relations == [] && startIndex < |candidates| {
      return Err(SchemaPageTooLarge);
    }
    return Ok(BuildPage(relations, nextIndex < |candidates|, false));
  }
}
