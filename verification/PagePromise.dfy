/**
 What the start-up check promises, and exactly when it keeps its word.

 A manifest accepted with n pages promises that every permitted subset of its relations is
 shown on at most n pages, whatever the database catalog says.  The check sizes a PostgreSQL
 column by the manifest's type if there is one, while discovery shows the catalog's type, so
 the promise can fail.  It holds if and only if the listing of all relations with the widest
 catalog types takes at most n pages, which can be computed at start-up.
 */
module PagePromise {
  import opened Wrappers
  import opened Json
  import opened FieldTypes
  import opened Ordering
  import opened SchemaPages
  import opened Paging
  import opened Discovery
  import opened Federation

  // ---------------------------------------------------------------- what a catalog may say

  const WIDEST_TYPE := "timestamp without time zone"

  // information_schema's names for the types that loadCatalog keeps, by category.
  predicate NumberType(t: string) {
    t == "smallint" || t == "integer" || t == "bigint" || t == "real" || t == "double precision" || t == "numeric"
  }

  predicate TextType(t: string) {
    t == "text" || t == "character varying" || t == "character" || t == "\"char\"" || t == "name"
  }

  predicate TimeType(t: string) {
    || t == "date" || t == WIDEST_TYPE || t == "timestamp with time zone"
    || t == "time without time zone" || t == "time with time zone" || t == "interval"
  }

  predicate KeptType(t: string) {
    NumberType(t) || TextType(t) || TimeType(t) || t == "boolean"
  }

  ghost predicate KeptCatalog(catalog: seq<CatalogColumn>) {
    forall i :: 0 <= i < |catalog| ==> KeptType(catalog[i].dataType)
  }

  // Characters that JSON text keeps as they are.
  predicate PlainText(t: string) {
    forall i :: 0 <= i < |t| ==> ' ' <= t[i] <= 'z' && t[i] != '\"' && t[i] != '\\'
  }

  lemma CharTypeBytes()
    ensures QuotedBytes("\"char\"") == 10
  {
    hide EscapedBytes;
    var s, quote := "\"char\"", "\"";
    QuoteBytes();
    PlainBytes("char");
    EscapedConcat(quote + "char", quote);
    EscapedConcat(quote, "char");
    assert s == quote + "char" + quote;
  }

  lemma QuoteBytes()
    ensures EscapedBytes("\"") == 2
  {
    assert "\""[1..] == "" && EscapeChar('\"') == ['\\', '\"'];
    AsciiByteLength(EscapeChar('\"'));
  }

  lemma EscapedConcat(s: string, t: string)
    ensures EscapedBytes(s + t) == EscapedBytes(s) + EscapedBytes(t)
  {
    if s == "" {
      assert s + t == t;
    } else {
      assert (s + t)[1..] == s[1..] + t;
      EscapedConcat(s[1..], t);
    }
  }

  lemma NumberTypeIsPlain(t: string)
    requires NumberType(t)
    ensures PlainText(t) && |t| <= 27
  {
  }

  lemma TextTypeIsPlain(t: string)
    requires TextType(t) && t != "\"char\""
    ensures PlainText(t) && |t| <= 27
  {
  }

  lemma TimeTypeIsPlain(t: string)
    requires TimeType(t)
    ensures PlainText(t) && |t| <= 27
  {
  }

  lemma KeptTypeIsPlain(t: string)
    requires KeptType(t) && t != "\"char\""
    ensures PlainText(t) && |t| <= 27
  {
    hide NumberType, TextType, TimeType;
    if NumberType(t) {
      NumberTypeIsPlain(t);
    } else if TextType(t) {
      TextTypeIsPlain(t);
    } else if TimeType(t) {
      TimeTypeIsPlain(t);
    }
  }

  lemma KeptTypeBytes(t: string)
    requires KeptType(t)
    ensures QuotedBytes(t) <= QuotedBytes(WIDEST_TYPE) == 29
  {
    hide EscapedBytes, KeptType;
    WidestIsKept();
    KeptTypeIsPlain(WIDEST_TYPE);
    PlainBytes(WIDEST_TYPE);
    if t == "\"char\"" {
      CharTypeBytes();
    } else {
      KeptTypeIsPlain(t);
      PlainBytes(t);
    }
  }

  lemma WidestIsKept()
    ensures KeptType(WIDEST_TYPE) && WIDEST_TYPE != "\"char\""
  {
    assert TimeType(WIDEST_TYPE) && WIDEST_TYPE[0] == 't';
  }

  // ---------------------------------------------------------------- paging against a heavier listing

  // Manifest names are qualified: at least "s.r".
  ghost predicate Qualified(c: seq<Relation>) {
    forall i :: 0 <= i < |c| ==> |c[i].name| >= 3
  }

  lemma {:induction false} UniqueHasAll(names: seq<string>, name: string)
    requires name in names
    ensures name in Unique(names)
  {
    if name != names[|names| - 1] {
      UniqueHasAll(names[..|names| - 1], name);
    }
  }

  function SchemaNames(c: seq<Relation>): (names: seq<string>)
    ensures |names| == |c| && forall i :: 0 <= i < |c| ==> names[i] == SchemaOf(c[i].name)
    ensures SchemasOf(c) == Unique(names)
  {
    seq(|c|, i requires 0 <= i < |c| => SchemaOf(c[i].name))
  }

  // Fewer relations name no more schemas.
  lemma {:induction false} FewerSchemas(a: seq<Relation>, b: seq<Relation>)
    requires a != [] && forall i :: 0 <= i < |a| ==> exists j :: 0 <= j < |b| && b[j].name == a[i].name
    ensures Total(SchemasOf(a), TextWeight) <= Total(SchemasOf(b), TextWeight)
    ensures SchemasOf(a) != []
  {
    hide SchemaOf, SchemasOf;
    var u, v := SchemasOf(a), SchemasOf(b);
    UniqueIsSelection(SchemaNames(a));
    forall i | 0 <= i < |u| ensures HasCover(u[i], v, Self, Self, TextWeight, TextWeight) {
      assert u[i] in SchemaNames(a);
      var k :| 0 <= k < |a| && SchemaNames(a)[k] == u[i];
      var j :| 0 <= j < |b| && b[j].name == a[k].name;
      assert SchemaNames(b)[j] == u[i];
      UniqueHasAll(SchemaNames(b), u[i]);
      var m :| 0 <= m < |v| && v[m] == u[i];
      assert Self(v[m]) == Self(u[i]);
    }
    TotalCovered(u, v, Self, Self, TextWeight, TextWeight);
  }

  // A selection of the heavier listing that ends at the same relation fits where that fits:
  // `null` and `false` together cost no more than a cursor and `true`.
  lemma {:induction false} ListingFits(run: seq<Relation>, big: seq<Relation>, rs: nat, e: nat, bs: nat, f: nat,
                                       truncated: bool)
    requires Dominated(run, big) && Qualified(run)
    requires rs <= e < |run| && bs <= f < |big| && f == IndexOf(big, run[e].name) && bs <= IndexOf(big, run[rs].name)
    requires WithinLimit(PageFor(big, bs, f + 1, false))
    ensures WithinLimit(PageFor(run, rs, e + 1, truncated))
  {
    hide RelationWeight, Less, SchemasOf, EscapedBytes, Dominated;
    var a, b := run[rs..e + 1], big[bs..f + 1];
    SelectionCovered(run, big, rs, e, bs, f);
    NamesWithin(run, big, rs, e, bs, f);
    FewerSchemas(a, b);
    LastTogether(run, big, e, f);
    CursorAtLeast(run[e].name);
    hide IndexOf, Total, PageBytes, Qualified;
    LighterPage(PageFor(run, rs, e + 1, truncated), PageFor(big, bs, f + 1, false));
  }

  // What the flag and the cursor cost.
  function Trailer(p: Page): int { (if p.truncated then 0 else 1) + Size(CursorJson(p.nextCursor)) }

  lemma LighterPage(p: Page, q: Page)
    requires p.schemas != [] && p.relations != []
    requires Total(p.schemas, TextWeight) <= Total(q.schemas, TextWeight)
    requires Total(p.relations, RelationWeight) <= Total(q.relations, RelationWeight)
    requires Trailer(p) <= Trailer(q)
    ensures PageBytes(p) <= PageBytes(q)
  {
    hide PageBytes, RelationWeight, PageBase, CursorJson;
    PageBytesSplit(p);
    PageBytesSplit(q);
  }

  lemma {:induction false} NamesWithin(run: seq<Relation>, big: seq<Relation>, rs: nat, e: nat, bs: nat, f: nat)
    requires Dominated(run, big)
    requires rs <= e < |run| && bs <= f < |big| && f == IndexOf(big, run[e].name) && bs <= IndexOf(big, run[rs].name)
    ensures var a, b := run[rs..e + 1], big[bs..f + 1];
            forall i :: 0 <= i < |a| ==> exists j :: 0 <= j < |b| && b[j].name == a[i].name
  {
    hide RelationWeight, Less;
    var a, b := run[rs..e + 1], big[bs..f + 1];
    forall i | 0 <= i < |a| ensures exists j :: 0 <= j < |b| && b[j].name == a[i].name {
      var p := PositionWithin(run, big, rs, rs + i, e);
      assert b[p - bs] == big[p] && a[i] == run[rs + i];
    }
  }

  lemma {:induction false} LastTogether(run: seq<Relation>, big: seq<Relation>, e: nat, f: nat)
    requires Dominated(run, big) && e < |run| && f == IndexOf(big, run[e].name) && f < |big|
    ensures f + 1 == |big| ==> e + 1 == |run|
    ensures big[f].name == run[e].name
  {
    if e + 1 < |run| {
      PositionsAscend(run, big, e, e + 1);
    }
  }

  lemma {:induction false} CursorAtLeast(name: string)
    requires |name| >= 3
    ensures Size(CursorJson(Some(name))) >= 5
  {
    hide EscapeChar;
    CharCosts(name[0]);
    CharCosts(name[1]);
    CharCosts(name[2]);
    assert EscapedBytes(name) == ByteLength(EscapeChar(name[0])) + EscapedBytes(name[1..]);
    assert EscapedBytes(name[1..]) == ByteLength(EscapeChar(name[1])) + EscapedBytes(name[1..][1..]);
    assert name[1..][1..][0] == name[2];
    assert EscapedBytes(name[1..][1..]) == ByteLength(EscapeChar(name[2])) + EscapedBytes(name[1..][1..][1..]);
  }

  lemma {:induction false} PagePrefixFits(c: seq<Relation>, start: nat, end: nat, x: nat, truncated: bool)
    requires start <= end <= |c| && end < x <= PageEnd(c, start, end, truncated)
    ensures WithinLimit(PageFor(c, start, x, truncated))
    decreases |c| - end
  {
    hide WithinLimit;
    if end + 1 < x {
      PagePrefixFits(c, start, end + 1, x, truncated);
    }
  }

  lemma {:induction false} ListingReaches(run: seq<Relation>, big: seq<Relation>, rs: nat, bs: nat, e: nat, k: nat,
                                          truncated: bool)
    requires Dominated(run, big) && Qualified(run)
    requires rs <= e <= k < |run| && bs <= |big| && bs <= IndexOf(big, run[rs].name)
    requires IndexOf(big, run[k].name) < PageEnd(big, bs, bs, false)
    ensures k < PageEnd(run, rs, e, truncated)
    decreases k - e
  {
    hide WithinLimit, RelationWeight, Less, SchemasOf;
    var f := PositionWithin(run, big, rs, e, k);
    PagePrefixFits(big, bs, bs, f + 1, false);
    ListingFits(run, big, rs, e, bs, f, truncated);
    if e < k {
      ListingReaches(run, big, rs, bs, e + 1, k, truncated);
    }
  }

  // Greedy stays ahead of the greedy paging of a heavier listing, too.
  lemma {:induction false} ListingStaysAhead(run: seq<Relation>, big: seq<Relation>, rs: nat, bs: nat, truncated: bool)
    requires Dominated(run, big) && Qualified(run)
    requires rs < |run| && bs <= |big| && bs <= IndexOf(big, run[rs].name)
    requires Pages(big, bs, false).Ok?
    ensures Pages(run, rs, truncated).Ok?
    ensures |Pages(run, rs, truncated).value| <= |Pages(big, bs, false).value|
    decreases |big| - bs
  {
    hide WithinLimit, RelationWeight, Less, SchemasOf;
    var p := PositionOf(run, big, rs);
    var be := PageEnd(big, bs, bs, false);
    if be <= p {
      ListingStaysAhead(run, big, rs, be, truncated);
    } else {
      ListingReaches(run, big, rs, bs, rs, rs, truncated);
      var re := PageEnd(run, rs, rs, truncated);
      if re < |run| {
        var q := PositionOf(run, big, re);
        if q < be {
          ListingReaches(run, big, rs, bs, rs, re, truncated);
        }
        ListingStaysAhead(run, big, re, be, truncated);
      }
    }
  }

  // ---------------------------------------------------------------- the promise

  // What the manifest parser establishes.
  ghost predicate Manifest(policies: seq<Policy>, schemas: seq<string>) {
    && Distinct(policies, RelationOf)
    && forall p :: p in policies ==>
         && Distinct(p.columns, Self) && |p.relation| >= 3 && SchemaOf(p.relation) in schemas
         && (p.source == Some(MongoDb) ==> FieldsTyped(p))
  }

  // What discovery may show of a policy, for some catalog.
  ghost predicate Lists(r: Relation, p: Policy) {
    if p.source == Some(MongoDb) then FieldsTyped(p) && r == MongoRelation(p)
    else exists catalog :: CatalogMatches(p, catalog) && KeptCatalog(catalog) && r == PostgresRelation(p, catalog)
  }

  ghost predicate ListedBySome(r: Relation, policies: seq<Policy>) {
    exists p :: p in policies && Lists(r, p)
  }

  // A permitted subset of the manifest's relations, in name order.
  ghost predicate Listing(run: seq<Relation>, policies: seq<Policy>) {
    Ascending(run, NameOf) && forall i :: 0 <= i < |run| ==> ListedBySome(run[i], policies)
  }

  // Every listing is shown completely on at most n pages.
  ghost predicate KeepsPromise(policies: seq<Policy>, n: nat) {
    forall run, truncated :: Listing(run, policies) ==> ShowsAll(run, truncated, n)
  }

  // The catalog in which every type is as wide as it can be.
  function WidestCatalog(p: Policy): seq<CatalogColumn> {
    seq(|p.columns|, i requires 0 <= i < |p.columns| => CatalogColumn(p.columns[i], WIDEST_TYPE, false))
  }

  function WidestRelation(p: Policy): Relation {
    if p.source == Some(MongoDb) && FieldsTyped(p) then MongoRelation(p) else PostgresRelation(p, WidestCatalog(p))
  }

  function WidestListing(policies: seq<Policy>): seq<Relation> {
    var sorted := SortBy(policies, RelationOf);
    seq(|sorted|, i requires 0 <= i < |sorted| => WidestRelation(sorted[i]))
  }

  // The condition that start-up could have checked instead.
  predicate WidestFits(policies: seq<Policy>, n: nat) {
    var pages := Pages(WidestListing(policies), 0, false);
    pages.Ok? && |pages.value| <= n
  }

  lemma {:induction false} WidestCatalogMatches(p: Policy)
    requires Distinct(p.columns, Self)
    ensures CatalogMatches(p, WidestCatalog(p)) && KeptCatalog(WidestCatalog(p))
  {
    hide KeptType;
    WidestIsKept();
    var catalog := WidestCatalog(p);
    forall i, j | 0 <= i < j < |catalog| ensures CatalogName(catalog[i]) != CatalogName(catalog[j]) {
      assert Self(p.columns[i]) != Self(p.columns[j]);
    }
  }

  lemma {:induction false} WidestIsHeaviest(p: Policy, catalog: seq<CatalogColumn>)
    requires p.source != Some(MongoDb) && CatalogMatches(p, catalog) && KeptCatalog(catalog)
    ensures RelationWeight(PostgresRelation(p, catalog)) <= RelationWeight(PostgresRelation(p, WidestCatalog(p)))
  {
    hide KeptType, ColumnWeight, RelationWeight, EscapedBytes;
    var a, b := PostgresRelation(p, catalog).columns, PostgresRelation(p, WidestCatalog(p)).columns;
    forall i | 0 <= i < |a| ensures HasCover(a[i], b, ColumnName, ColumnName, ColumnWeight, ColumnWeight) {
      var j :| 0 <= j < |p.columns| && p.columns[j] == catalog[i].name;
      KeptTypeBytes(catalog[i].dataType);
      ColumnBytes(a[i]);
      ColumnBytes(b[j]);
      assert ColumnName(b[j]) == ColumnName(a[i]);
    }
    assert Distinct(a, ColumnName) by {
      forall i, j | 0 <= i < j < |a| ensures ColumnName(a[i]) != ColumnName(a[j]) {
        assert CatalogName(catalog[i]) != CatalogName(catalog[j]);
      }
    }
    ListingCompare(p, "postgres", "view", a, b);
  }

  lemma {:induction false} ListsNoLarger(r: Relation, p: Policy)
    requires Lists(r, p)
    ensures r.name == WidestRelation(p).name == p.relation && RelationWeight(r) <= RelationWeight(WidestRelation(p))
  {
    hide RelationWeight, KeptType;
    if p.source != Some(MongoDb) {
      var catalog: seq<CatalogColumn> :| CatalogMatches(p, catalog) && KeptCatalog(catalog) &&
          r == PostgresRelation(p, catalog);
      WidestIsHeaviest(p, catalog);
    }
  }

  lemma {:induction false} WidestIsListed(p: Policy)
    requires Distinct(p.columns, Self) && (p.source == Some(MongoDb) ==> FieldsTyped(p))
    ensures Lists(WidestRelation(p), p)
  {
    hide KeptType;
    if p.source != Some(MongoDb) {
      WidestCatalogMatches(p);
    }
  }

  // The widest listing is itself a listing.
  lemma {:induction false} WidestListingListed(policies: seq<Policy>, schemas: seq<string>)
    requires Manifest(policies, schemas)
    ensures Listing(WidestListing(policies), policies) && Qualified(WidestListing(policies))
  {
    hide Lists, WidestRelation, Less, SchemaOf;
    SortBySorts(policies, RelationOf);
    var sorted, widest := SortBy(policies, RelationOf), WidestListing(policies);
    forall i | 0 <= i < |widest| ensures ListedBySome(widest[i], policies) && widest[i].name == sorted[i].relation {
      assert sorted[i] in multiset(sorted);
      assert sorted[i] in multiset(policies);
      WidestIsListed(sorted[i]);
      ListsNoLarger(widest[i], sorted[i]);
    }
    forall i, j | 0 <= i < j < |widest| ensures Less(NameOf(widest[i]), NameOf(widest[j])) {
      assert Less(RelationOf(sorted[i]), RelationOf(sorted[j]));
    }
    forall i | 0 <= i < |widest| ensures |widest[i].name| >= 3 {
      assert sorted[i] in multiset(sorted);
      assert sorted[i] in multiset(policies);
    }
  }

  lemma {:induction false} ListingIsDominated(run: seq<Relation>, policies: seq<Policy>, schemas: seq<string>)
    requires Manifest(policies, schemas) && Listing(run, policies)
    ensures Dominated(run, WidestListing(policies)) && Qualified(run)
  {
    hide Lists, WidestRelation, Less, RelationWeight, SchemaOf;
    SortBySorts(policies, RelationOf);
    var sorted, widest := SortBy(policies, RelationOf), WidestListing(policies);
    WidestListingListed(policies, schemas);
    forall i | 0 <= i < |run|
      ensures HasCover(run[i], widest, NameOf, NameOf, RelationWeight, RelationWeight) && |run[i].name| >= 3
    {
      assert ListedBySome(run[i], policies);
      var p :| p in policies && Lists(run[i], p);
      ListsNoLarger(run[i], p);
      assert p in multiset(policies);
      assert p in multiset(sorted);
      var j :| 0 <= j < |sorted| && sorted[j] == p;
      assert NameOf(widest[j]) == NameOf(run[i]);
    }
  }

  /** The promise of n pages is kept for every permitted subset, every catalog and both
      catalog flags if and only if the widest listing takes at most n pages. */
  lemma {:induction false} PromiseKeptIff(policies: seq<Policy>, schemas: seq<string>, n: nat)
    requires Manifest(policies, schemas)
    ensures KeepsPromise(policies, n) <==> WidestFits(policies, n)
  {
    hide Manifest, Listing, Walk, Pages, Flatten, WidestListing;
    var widest := WidestListing(policies);
    WidestListingListed(policies, schemas);
    if KeepsPromise(policies, n) {
      assert ShowsAll(widest, false, n);
    }
    if WidestFits(policies, n) {
      forall run: seq<Relation>, truncated | Listing(run, policies) ensures ShowsAll(run, truncated, n) {
        ListingIsDominated(run, policies, schemas);
        ListingPages(run, widest, truncated);
        ListingIsShown(run, truncated, n);
      }
    }
  }

  lemma {:induction false} ListingPages(run: seq<Relation>, big: seq<Relation>, truncated: bool)
    requires Dominated(run, big) && Qualified(run) && Pages(big, 0, false).Ok?
    ensures Pages(run, 0, truncated).Ok? && |Pages(run, 0, truncated).value| <= |Pages(big, 0, false).value|
  {
    hide WithinLimit, SchemasOf, RelationWeight, Less;
    PagesNotEmpty(big, 0, false);
    if run == [] {
      assert Pages(run, 0, truncated) == Ok([PageFor(run, 0, 0, truncated)]);
    } else {
      var p := PositionOf(run, big, 0);
      ListingStaysAhead(run, big, 0, 0, truncated);
    }
  }

  lemma {:induction false} ListingIsShown(run: seq<Relation>, truncated: bool, n: nat)
    requires Ascending(run, NameOf) && Pages(run, 0, truncated).Ok? && |Pages(run, 0, truncated).value| <= n
    ensures ShowsAll(run, truncated, n)
  {
    hide Pages, Walk, Flatten;
    PagesAreWalk(run, 0, truncated, None);
    PagesAreLossless(run, 0, truncated);
    assert run[0..] == run;
  }

  // ---------------------------------------------------------------- a sufficient check with the code's own means

  // The same manifest without types for PostgreSQL columns.
  function Untyped(p: Policy): Policy {
    if p.source == Some(MongoDb) then p else p.(fieldTypes := map[])
  }

  function UntypedAll(policies: seq<Policy>): (untyped: seq<Policy>)
    ensures |untyped| == |policies| && forall i :: 0 <= i < |policies| ==> untyped[i] == Untyped(policies[i])
  {
    seq(|policies|, i requires 0 <= i < |policies| => Untyped(policies[i]))
  }

  // If the check accepts the manifest without its PostgreSQL types, the promise is kept.
  lemma {:induction false} UntypedBudgetSuffices(policies: seq<Policy>, schemas: seq<string>)
    requires Manifest(policies, schemas)
    requires BudgetOutcome(BudgetCandidates(UntypedAll(policies)), schemas).Ok?
    ensures KeepsPromise(policies, BudgetOutcome(BudgetCandidates(UntypedAll(policies)), schemas).value)
  {
    hide BudgetOutcome, BudgetCandidates, ShowsAll, Less, SchemaOf, Lists, Shows;
    var untyped := UntypedAll(policies);
    assert Distinct(untyped, RelationOf) by {
      forall i, j | 0 <= i < j < |untyped| ensures RelationOf(untyped[i]) != RelationOf(untyped[j]) {
        assert RelationOf(policies[i]) != RelationOf(policies[j]);
      }
    }
    forall run: seq<Relation>, truncated | Listing(run, policies)
      ensures ShowsAll(run, truncated, BudgetOutcome(BudgetCandidates(untyped), schemas).value)
    {
      forall i | 0 <= i < |run| ensures ShownBySome(run[i], untyped) && |run[i].name| >= 3 &&
          SchemaOf(run[i].name) in schemas {
        assert ListedBySome(run[i], policies);
        var p :| p in policies && Lists(run[i], p);
        var k :| 0 <= k < |policies| && policies[k] == p;
        ListsNoLarger(run[i], p);
        ListedIsShown(run[i], p);
        assert untyped[k] == Untyped(p);
      }
      BudgetBoundsPaging(untyped, schemas, run, truncated);
    }
  }

  lemma {:induction false} ListedIsShown(r: Relation, p: Policy)
    requires Lists(r, p) && Distinct(p.columns, Self)
    ensures Shows(r, Untyped(p))
  {
    hide KeptType, EscapedBytes;
    if p.source != Some(MongoDb) {
      var catalog: seq<CatalogColumn> :| CatalogMatches(p, catalog) && KeptCatalog(catalog) &&
          r == PostgresRelation(p, catalog);
      forall i | 0 <= i < |catalog| ensures CutType(catalog[i].dataType) {
        KeptTypeBytes(catalog[i].dataType);
      }
      assert PostgresListing(Untyped(p), catalog);
      assert r.columns == PostgresRelation(Untyped(p), catalog).columns;
      assert r == PostgresRelation(Untyped(p), catalog);
    }
  }

  // For one relation: its bytes are within the budget for every catalog exactly when they are
  // for the widest one.
  lemma {:induction false} CoversEveryCatalogIff(p: Policy)
    requires p.source != Some(MongoDb) && Distinct(p.columns, Self)
    ensures (forall catalog :: CatalogMatches(p, catalog) && KeptCatalog(catalog) ==>
               RelationWeight(PostgresRelation(p, catalog)) <= RelationWeight(BudgetRelation(p)))
       <==> RelationWeight(PostgresRelation(p, WidestCatalog(p))) <= RelationWeight(BudgetRelation(p))
  {
    hide RelationWeight, KeptType;
    WidestCatalogMatches(p);
    forall catalog | CatalogMatches(p, catalog) && KeptCatalog(catalog)
      ensures RelationWeight(PostgresRelation(p, catalog)) <= RelationWeight(PostgresRelation(p, WidestCatalog(p)))
    {
      WidestIsHeaviest(p, catalog);
    }
  }
}
