/**
 The federated provider drains its providers and pages their merged relations;
 the budget theorem holds end to end.
 */
module Federation {
  import opened Wrappers
  import opened Json
  import opened Ordering
  import opened SchemaPages
  import opened Paging
  import opened PageContents
  import opened Discovery

  const MAX_PROVIDER_PAGES := 50

  // What a provider pages for the given permissions; truncated is its catalog flag.
  datatype Provider = Provider(candidates: seq<Relation>, truncated: bool)

  // The relations a provider hands over, page by page, when pageIndex pages have been read.
  function Drain(p: Provider, start: nat, pageIndex: nat): Result<seq<Relation>, DiscoveryError>
    requires start <= |p.candidates|
    decreases |p.candidates| - start
  {
    var page :- PageAt(p.candidates, start, p.truncated);
    var end := PageEnd(p.candidates, start, start, p.truncated);
    if end == |p.candidates| then Ok(page.relations)
    else if pageIndex + 1 >= MAX_PROVIDER_PAGES then Err(SchemaTooLarge)
    else
      var rest :- Drain(p, end, pageIndex + 1);
      Ok(page.relations + rest)
  }

  // What has been discovered so far, followed by the outcome of the rest.
  function After(before: seq<Relation>, rest: Result<seq<Relation>,
                 DiscoveryError>): Result<seq<Relation>, DiscoveryError> {
    if rest.Ok? then Ok(before + rest.value) else rest
  }

  lemma AfterConcat(a: seq<Relation>, b: seq<Relation>, rest: Result<seq<Relation>, DiscoveryError>)
    ensures After([], rest) == rest
    ensures After(a, After(b, rest)) == After(a + b, rest)
  {
    if rest.Ok? {
      assert a + (b + rest.value) == (a + b) + rest.value;
      assert [] + rest.value == rest.value;
    }
  }

  lemma DrainStep(p: Provider, start: nat, pageIndex: nat, page: Page)
    requires start <= |p.candidates| && PageAt(p.candidates, start, p.truncated) == Ok(page)
    ensures var end := PageEnd(p.candidates, start, start, p.truncated);
            && (page.nextCursor.None? <==> end == |p.candidates|)
            && (end < |p.candidates| ==> start < end && page.nextCursor.value == p.candidates[end - 1].name)
            && Drain(p, start, pageIndex) ==
                 (if end == |p.candidates| then Ok(page.relations)
                  else if pageIndex + 1 >= MAX_PROVIDER_PAGES then Err(SchemaTooLarge)
                  else After(page.relations, Drain(p, end, pageIndex + 1)))
  {
    hide WithinLimit, SchemasOf, PageEnd;
  }

  function DrainAll(providers: seq<Provider>): Result<seq<Relation>, DiscoveryError> {
    if providers == [] then Ok([]) else
    var relations :- Drain(providers[0], 0, 0);
    var rest :- DrainAll(providers[1..]);
    Ok(relations + rest)
  }

  // Draining is lossless, and succeeds exactly for providers with at most 50 pages.
  lemma {:induction false} DrainIsLossless(p: Provider, start: nat, pageIndex: nat)
    requires start <= |p.candidates| && pageIndex < MAX_PROVIDER_PAGES
    ensures Drain(p, start, pageIndex).Ok? ==> Drain(p, start, pageIndex).value == p.candidates[start..]
    ensures Drain(p, start, pageIndex).Ok? <==>
            && Pages(p.candidates, start, p.truncated).Ok?
            && pageIndex + |Pages(p.candidates, start, p.truncated).value| <= 50
    decreases |p.candidates| - start
  {
    hide WithinLimit, SchemasOf;
    var end := PageEnd(p.candidates, start, start, p.truncated);
    if start < end < |p.candidates| {
      if pageIndex + 1 < MAX_PROVIDER_PAGES {
        DrainIsLossless(p, end, pageIndex + 1);
        assert p.candidates[start..] == p.candidates[start..end] + p.candidates[end..];
      } else {
        PagesNotEmpty(p.candidates, end, p.truncated);
      }
    }
  }

  lemma PagesNotEmpty(c: seq<Relation>, start: nat, truncated: bool)
    requires start <= |c|
    ensures Pages(c, start, truncated).Ok? ==> |Pages(c, start, truncated).value| >= 1
  {
    hide PageAt;
  }

  // The inner loop of discoverSchema: follow one provider's cursor to its end.
  method DrainProvider(p: Provider) returns (r: Result<seq<Relation>, DiscoveryError>)
    requires Ascending(p.candidates, NameOf)
    ensures r == Drain(p, 0, 0)
  {
    hide Discover, PageAt, PageEnd, Drain, After, Less;
    var discovered: seq<Relation> := [];
    var cursor: Option<string> := None;
    var seenCursors: set<string> := {};
    var pageIndex := 0;
    ghost var start := 0;
    AfterConcat([], [], Drain(p, 0, 0));
    while true
      invariant pageIndex < MAX_PROVIDER_PAGES && start <= |p.candidates|
      invariant if cursor.None? then start == 0 else 0 < start && cursor.value == p.candidates[start - 1].name
      invariant forall name <- seenCursors :: IndexOf(p.candidates, name) < start
      invariant Drain(p, 0, 0) == After(discovered, Drain(p, start, pageIndex))
      decreases MAX_PROVIDER_PAGES - pageIndex
    {
      DiscoverFrom(p.candidates, start, p.truncated, cursor);
      var outcome := Discover(p.candidates, cursor, p.truncated);
      if outcome.Err? {
        DrainFails(p, start, pageIndex, discovered);
        return Err(outcome.error);
      }
      var page := outcome.value;
      DrainStep(p, start, pageIndex, page);
      DrainContinues(discovered, page.relations,
                     Drain(p, PageEnd(p.candidates, start, start, p.truncated), pageIndex + 1));
      discovered := discovered + page.relations;
      if page.nextCursor.None? {
        return Ok(discovered);
      }
      start := PageEnd(p.candidates, start, start, p.truncated);
      CursorIndex(p.candidates, start - 1);
      if page.nextCursor.value in seenCursors {
        return Err(InvalidCursor);
      }
      seenCursors := seenCursors + {page.nextCursor.value};
      cursor := page.nextCursor;
      if pageIndex == MAX_PROVIDER_PAGES - 1 {
        return Err(SchemaTooLarge);
      }
      pageIndex := pageIndex + 1;
    }
  }

  lemma DrainFails(p: Provider, start: nat, pageIndex: nat, before: seq<Relation>)
    requires start <= |p.candidates| && PageAt(p.candidates, start, p.truncated).Err?
    ensures After(before, Drain(p, start, pageIndex)) == Err(PageAt(p.candidates, start, p.truncated).error)
  {
    hide PageAt;
  }

  lemma DrainContinues(before: seq<Relation>, relations: seq<Relation>, rest: Result<seq<Relation>, DiscoveryError>)
    ensures After(before, Ok(relations)) == Ok(before + relations)
    ensures After(before, Err(SchemaTooLarge)) == Err(SchemaTooLarge)
    ensures After(before, After(relations, rest)) == After(before + relations, rest)
  {
    AfterConcat(before, relations, rest);
  }

  // discoverSchema: drain, merge by name, page again.
  method DiscoverFederated(providers: seq<Provider>, cursor: Option<string>) returns (r: Result<Page, DiscoveryError>)
    requires forall i :: 0 <= i < |providers| ==> Ascending(providers[i].candidates, NameOf)
    ensures DrainAll(providers).Err? ==> r == Err(DrainAll(providers).error)
    ensures DrainAll(providers).Ok? ==> r == Discover(SortBy(DrainAll(providers).value, NameOf), cursor, false)
    ensures r.Ok? ==>
      DrainAll(providers).Ok? && PageTells(SortBy(DrainAll(providers).value, NameOf), cursor, false, r.value)
  {
    hide Discover, Drain, PageTells;
    var discovered: seq<Relation> := [];
    AfterConcat([], [], DrainAll(providers));
    assert providers[0..] == providers;
    for i := 0 to |providers|
      invariant DrainAll(providers) == After(discovered, DrainAll(providers[i..]))
    {
      assert providers[i..][1..] == providers[i + 1..] && providers[i..][0] == providers[i];
      var relations :- DrainProvider(providers[i]);
      AfterConcat(discovered, relations, DrainAll(providers[i + 1..]));
      assert DrainAll(providers[i..]) == After(relations, DrainAll(providers[i + 1..]));
      discovered := discovered + relations;
    }
    assert providers[|providers|..] == [];
    assert discovered + [] == discovered;
    r := DiscoverMerged(SortBy(discovered, NameOf), cursor);
  }

  // ---------------------------------------------------------------- end to end

  ghost predicate PostgresListing(p: Policy, catalog: seq<CatalogColumn>) {
    CatalogMatches(p, catalog) && CutCatalog(catalog) && TypesWithinBudget(p, catalog)
  }

  // What some provider may show of a policy.
  ghost predicate Shows(r: Relation, p: Policy) {
    if p.source == Some(MongoDb) then
      FieldsTyped(p) && Distinct(p.columns, Self) && r == MongoRelation(p)
    else
      exists catalog :: PostgresListing(p, catalog) && r == PostgresRelation(p, catalog)
  }

  lemma ShownNoLarger(r: Relation, p: Policy)
    requires Shows(r, p)
    ensures r.name == BudgetRelation(p).name && RelationWeight(r) <= RelationWeight(BudgetRelation(p))
  {
    hide RelationWeight;
    if p.source == Some(MongoDb) {
      MongoNoLarger(p);
    } else {
      var catalog :| PostgresListing(p, catalog) && r == PostgresRelation(p, catalog);
      PostgresNoLarger(p, catalog);
    }
  }

  // The relations shown for any permissions are a selection of the manifest.
  ghost predicate ShownFrom(run: seq<Relation>, policies: seq<Policy>) {
    forall i :: 0 <= i < |run| ==> ShownBySome(run[i], policies)
  }

  ghost predicate ShownBySome(r: Relation, policies: seq<Policy>) {
    exists p :: p in policies && Shows(r, p)
  }

  lemma ShownIsDominated(run: seq<Relation>, policies: seq<Policy>)
    requires Distinct(policies, RelationOf) && ShownFrom(run, policies) && Ascending(run, NameOf)
    ensures Dominated(run, BudgetCandidates(policies))
  {
    hide RelationWeight, Less, Shows, BudgetRelation;
    SortBySorts(policies, RelationOf);
    var sorted, bud := SortBy(policies, RelationOf), BudgetCandidates(policies);
    forall i, j | 0 <= i < j < |bud| ensures Less(NameOf(bud[i]), NameOf(bud[j])) {
      CandidateName(sorted[i]);
      CandidateName(sorted[j]);
      assert Less(RelationOf(sorted[i]), RelationOf(sorted[j]));
    }
    forall i | 0 <= i < |run| ensures HasCover(run[i], bud, NameOf, NameOf, RelationWeight, RelationWeight) {
      assert ShownBySome(run[i], policies);
      var p :| p in policies && Shows(run[i], p);
      ShownNoLarger(run[i], p);
      assert p in multiset(sorted);
      var j :| 0 <= j < |sorted| && sorted[j] == p;
      assert NameOf(bud[j]) == NameOf(run[i]);
    }
  }

  // A complete walk without a cursor, and what it shows.
  ghost predicate ShowsAll(run: seq<Relation>, truncated: bool, atMost: nat) {
    && Pages(run, 0, truncated).Ok?
    && |Pages(run, 0, truncated).value| <= atMost
    && Walk(run, truncated, None, Pages(run, 0, truncated).value)
    && Flatten(Pages(run, 0, truncated).value) == run
  }

  // Start-up acceptance with n pages bounds every run-time paging by n.
  lemma BudgetBoundsPaging(policies: seq<Policy>, schemas: seq<string>, run: seq<Relation>, truncated: bool)
    requires Distinct(policies, RelationOf) && ShownFrom(run, policies) && Ascending(run, NameOf)
    requires SchemasAllowed(run, schemas)
    requires BudgetOutcome(BudgetCandidates(policies), schemas).Ok?
    ensures BudgetOutcome(BudgetCandidates(policies), schemas).value <= MAX_SCHEMA_DISCOVERY_CALLS_PER_MESSAGE
    ensures ShowsAll(run, truncated, BudgetOutcome(BudgetCandidates(policies), schemas).value)
  {
    hide WithinLimit, PageAt, PageFor, Walk, BudgetCandidates, ShownFrom, SchemasAllowed, Flatten;
    var bud := BudgetCandidates(policies);
    ShownIsDominated(run, policies);
    CountBounds(run, bud, schemas, truncated);
    PagesAreWalk(run, 0, truncated, None);
    PagesAreLossless(run, 0, truncated);
    assert run[0..] == run;
  }

  lemma CountBounds(run: seq<Relation>, bud: seq<Relation>, schemas: seq<string>, truncated: bool)
    requires Dominated(run, bud) && SchemasAllowed(run, schemas) && BudgetOutcome(bud, schemas).Ok?
    ensures Pages(run, 0, truncated).Ok?
    ensures |Pages(run, 0, truncated).value| <= BudgetOutcome(bud, schemas).value
  {
    hide WithinLimit, SchemasOf;
    if run != [] {
      var p := PositionOf(run, bud, 0);
      StaysAhead(run, bud, schemas, 0, 0, truncated);
    } else {
      assert Pages(run, 0, truncated) == Ok([PageFor(run, 0, 0, truncated)]);
      assert bud != [] ==> PageCount(bud, schemas, 0).value >= 1;
    }
  }

  function Concat(providers: seq<Provider>): seq<Relation> {
    if providers == [] then [] else providers[0].candidates + Concat(providers[1..])
  }

  lemma {:induction false} ProvidersDrain(providers: seq<Provider>, policies: seq<Policy>, schemas: seq<string>)
    requires Distinct(policies, RelationOf) && BudgetOutcome(BudgetCandidates(policies), schemas).Ok?
    requires forall i :: 0 <= i < |providers| ==>
               && Ascending(providers[i].candidates, NameOf)
               && ShownFrom(providers[i].candidates, policies)
               && SchemasAllowed(providers[i].candidates, schemas)
    ensures DrainAll(providers) == Ok(Concat(providers))
  {
    hide WithinLimit, SchemasOf, Walk, BudgetOutcome, BudgetCandidates, Shows, Drain, Flatten, Pages;
    if providers != [] {
      var p := providers[0];
      BudgetBoundsPaging(policies, schemas, p.candidates, p.truncated);
      DrainIsLossless(p, 0, 0);
      assert p.candidates[0..] == p.candidates;
      ProvidersDrain(providers[1..], policies, schemas);
    }
  }

  // The federation shows every allowed relation once, on no more pages than the budget promised;
  // none of its guards fires.
  lemma FederationWithinBudget(providers: seq<Provider>, policies: seq<Policy>, schemas: seq<string>)
    requires Distinct(policies, RelationOf) && BudgetOutcome(BudgetCandidates(policies), schemas).Ok?
    requires forall i :: 0 <= i < |providers| ==>
               && Ascending(providers[i].candidates, NameOf)
               && ShownFrom(providers[i].candidates, policies)
               && SchemasAllowed(providers[i].candidates, schemas)
    requires Distinct(Concat(providers), NameOf)
    ensures DrainAll(providers).Ok?
    ensures var run := SortBy(DrainAll(providers).value, NameOf);
            && multiset(run) == multiset(Concat(providers))
            && Ascending(run, NameOf)
            && ShowsAll(run, false, BudgetOutcome(BudgetCandidates(policies), schemas).value)
  {
    hide ShowsAll, ShownFrom, SchemasAllowed, BudgetOutcome, BudgetCandidates, Less;
    ProvidersDrain(providers, policies, schemas);
    var all := Concat(providers);
    SortBySorts(all, NameOf);
    ConcatShown(providers, policies, schemas);
    ReorderedShown(all, SortBy(all, NameOf), policies, schemas);
    BudgetBoundsPaging(policies, schemas, SortBy(all, NameOf), false);
  }

  lemma ReorderedShown(a: seq<Relation>, b: seq<Relation>, policies: seq<Policy>, schemas: seq<string>)
    requires multiset(a) == multiset(b) && ShownFrom(a, policies) && SchemasAllowed(a, schemas)
    ensures ShownFrom(b, policies) && SchemasAllowed(b, schemas)
  {
    hide ShownBySome, SchemaOf;
    forall i | 0 <= i < |b|
      ensures ShownBySome(b[i], policies) && |b[i].name| >= 3 && SchemaOf(b[i].name) in schemas
    {
      assert b[i] in multiset(b);
      assert b[i] in multiset(a);
      var j :| 0 <= j < |a| && a[j] == b[i];
    }
  }

  lemma {:induction false} ConcatShown(providers: seq<Provider>, policies: seq<Policy>, schemas: seq<string>)
    requires forall i :: 0 <= i < |providers| ==>
               ShownFrom(providers[i].candidates, policies) && SchemasAllowed(providers[i].candidates, schemas)
    ensures ShownFrom(Concat(providers), policies) && SchemasAllowed(Concat(providers), schemas)
  {
    hide ShownBySome;
    if providers != [] {
      ConcatShown(providers[1..], policies, schemas);
    }
  }
}
