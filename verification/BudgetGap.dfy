/**
 A manifest that start-up accepts although its relation cannot be shown: PostgreSQL columns
 sized by short manifest types.  PagePromise says exactly when this can happen.
 */
module BudgetGap {
  import opened Wrappers
  import opened Json
  import opened FieldTypes
  import opened Ordering
  import opened SchemaPages
  import opened Paging
  import opened Discovery
  import opened Federation
  import opened PagePromise

  // ---------------------------------------------------------------- an accepted manifest that cannot be shown

  // Forty columns, each with a plain description and the type "date".
  function Letter(i: nat): char
    requires i < 40
  {
    if i < 26 then 'a' + i as char else 'A' + (i - 26) as char
  }

  function GapColumns(): seq<string> {
    seq(40, i requires 0 <= i < 40 => [Letter(i)])
  }

  function GapPolicy(): Policy {
    Policy(Some(Postgres), "s.r", None, GapColumns(),
           map name <- GapColumns() :: Repeat('d', 316), map name <- GapColumns() :: DateField, [], true)
  }

  function GapCatalog(): seq<CatalogColumn> {
    seq(40, i requires 0 <= i < 40 => CatalogColumn([Letter(i)], WIDEST_TYPE, false))
  }

  lemma DescribedColumn(name: string, dataType: string, description: string)
    requires PlainText(name) && PlainText(dataType)
    requires PlainText(description)
    ensures ColumnWeight(Column(name, dataType, false, Some(description))) == |name| + |dataType| + |description| + 60
  {
    hide EscapedBytes;
    var a := Field("name", Str(name));
    var d := Field("description", Str(description));
    ThreeFields(a, "dataType", dataType, "nullable", false, [d]);
    PlainBytes(name);
    PlainBytes(dataType);
    PlainBytes(description);
    PlainBytes("name");
    PlainBytes("dataType");
    PlainBytes("nullable");
    PlainBytes("description");
    assert [a][1..] == [] && [d][1..] == [];
  }

  lemma {:induction false} TotalConstant<T(!new)>(s: seq<T>, weight: T -> nat, w: nat)
    requires forall i :: 0 <= i < |s| ==> weight(s[i]) == w
    ensures Total(s, weight) == |s| * w
  {
    if s != [] {
      TotalConstant(s[1..], weight, w);
    }
  }

  lemma GapColumnsTotal()
    ensures Total(BudgetRelation(GapPolicy()).columns, ColumnWeight) == 40 * 381
    ensures Total(PostgresRelation(GapPolicy(), GapCatalog()).columns, ColumnWeight) == 40 * 404
  {
    hide ColumnWeight;
    var p := GapPolicy();
    var a, b := BudgetRelation(p).columns, PostgresRelation(p, GapCatalog()).columns;
    assert PlainText(TypeName(DateField)) && PlainText(WIDEST_TYPE);
    forall i | 0 <= i < 40 ensures ColumnWeight(a[i]) == 381 && ColumnWeight(b[i]) == 404 {
      var name := [Letter(i)];
      assert name == GapColumns()[i] && name in GapColumns();
      assert PlainText(name);
      assert a[i] == Column(name, TypeName(DateField), false, Some(Repeat('d', 316)));
      assert b[i] == Column(name, WIDEST_TYPE, false, Some(Repeat('d', 316)));
      DescribedColumn(name, TypeName(DateField), Repeat('d', 316));
      DescribedColumn(name, WIDEST_TYPE, Repeat('d', 316));
    }
    TotalConstant(a, ColumnWeight, 381);
    TotalConstant(b, ColumnWeight, 404);
  }

  // The cost of a plain, unfiltered listing beyond its columns.
  lemma PlainListingBytes(p: Policy, source: string, kind: string, columns: seq<Column>)
    requires PlainText(p.relation) && |p.relation| == 3 && PlainText(source) && |source| == 8 && PlainText(kind) &&
      |kind| == 4
    requires p.description == None && p.filterColumns == [] && p.allowUnfiltered && columns != []
    ensures Total(columns, ColumnWeight) <= RelationWeight(ShownAs(p, source, kind, columns)) <= Total(columns,
      ColumnWeight) + 160
  {
    hide EscapedBytes, RelationJson, ColumnWeight;
    var r := ShownAs(p, source, kind, columns);
    RelationBytes(r);
    RelationLeast(r.(columns := []));
    PlainBytes(p.relation);
    PlainBytes(source);
    PlainBytes(kind);
  }

  lemma GapTextsPlain()
    ensures PlainText("s.r") && PlainText("postgres") && PlainText("view")
  {
  }

  lemma GapRelationBytes()
    ensures RelationWeight(BudgetRelation(GapPolicy())) <= 15_400
    ensures RelationWeight(PostgresRelation(GapPolicy(), GapCatalog())) >= 16_160
    ensures BudgetRelation(GapPolicy()).name == "s.r"
  {
    hide Size, PlainText, RelationWeight, ColumnWeight, GapColumns, GapCatalog;
    var p := GapPolicy();
    GapColumnsTotal();
    GapTextsPlain();
    PlainListingBytes(p, "postgres", "view", BudgetRelation(p).columns);
    PlainListingBytes(p, "postgres", "view", PostgresRelation(p, GapCatalog()).columns);
  }

  // Start-up accepts the manifest with one page; the same relation, with the catalog's
  // real types, can then not be shown at all.
  lemma AcceptedButNotShown()
    ensures CatalogMatches(GapPolicy(), GapCatalog()) && KeptCatalog(GapCatalog())
    ensures BudgetOutcome(BudgetCandidates([GapPolicy()]), ["s"]) == Ok(1) && !KeepsPromise([GapPolicy()], 1)
    ensures Discover([PostgresRelation(GapPolicy(), GapCatalog())], None, false) == Err(SchemaPageTooLarge)
  {
    hide RelationWeight, GapColumns, GapCatalog, GapPolicy, WithinLimit, CatalogMatches, KeptCatalog, Discover;
    var p := GapPolicy();
    var b, r := BudgetRelation(p), PostgresRelation(p, GapCatalog());
    GapCatalogMatches();
    OneCandidate(p);
    GapRelationBytes();
    GapBudgetFits("s", b);
    OnePage(b);
    GapPageTooLarge(r);
    GapIsListed(r);
  }

  lemma GapIsListed(r: Relation)
    requires r == PostgresRelation(GapPolicy(), GapCatalog()) && Discover([r], None, false) == Err(SchemaPageTooLarge)
    ensures !KeepsPromise([GapPolicy()], 1)
  {
    hide GapColumns, PageAt, KeptType;
    GapCatalogMatches();
    assert Lists(r, GapPolicy());
    assert ListedBySome(r, [GapPolicy()]);
    assert Listing([r], [GapPolicy()]);
    assert Pages([r], 0, false).Err?;
    assert !ShowsAll([r], false, 1);
  }

  lemma OneCandidate(p: Policy)
    ensures BudgetCandidates([p]) == [BudgetRelation(p)]
  {
    hide BudgetRelation;
    assert [p][1..] == [];
    assert SortBy([p], RelationOf) == Insert(p, SortBy([], RelationOf), RelationOf) == [p];
  }

  lemma GapCatalogMatches()
    ensures CatalogMatches(GapPolicy(), GapCatalog()) && KeptCatalog(GapCatalog())
  {
    WidestIsKept();
    forall i | 0 <= i < 40 ensures GapCatalog()[i].name in GapPolicy().columns {
      assert GapPolicy().columns[i] == [Letter(i)];
    }
  }

  lemma GapBudgetFits(schema: string, b: Relation)
    requires RelationWeight(b) <= 15_400 && PlainText(schema) && |schema| == 1
    requires PlainText(b.name) && |b.name| == 3
    ensures WithinLimit(BudgetPage([schema], [b]))
  {
    hide EscapedBytes, RelationWeight;
    PageBytesSplit(BudgetPage([schema], [b]));
    EmptyPageFits(Page([], [], true, None));
    PlainBytes(schema);
    PlainBytes(b.name);
    assert Total([b], RelationWeight) == RelationWeight(b) + Total([], RelationWeight);
    assert Total([schema], TextWeight) == TextWeight(schema) + Total([], TextWeight);
  }

  lemma OnePage(b: Relation)
    requires WithinLimit(BudgetPage(["s"], [b]))
    ensures BudgetOutcome([b], ["s"]) == Ok(1)
  {
    hide WithinLimit;
    assert [b][0..1] == [b];
    assert BudgetEnd([b], ["s"], 0, 0) == 1;
    assert PageCount([b], ["s"], 1) == Some(0);
  }

  lemma GapPageTooLarge(r: Relation)
    requires RelationWeight(r) >= 16_160
    ensures Discover([r], None, false) == Err(SchemaPageTooLarge)
  {
    hide EscapedBytes, RelationWeight, SchemasOf;
    assert [r][0..1] == [r];
    var page := PageFor([r], 0, 1, false);
    PageBytesSplit(page);
    assert Total([r], RelationWeight) == RelationWeight(r) + Total([], RelationWeight);
  }
}
