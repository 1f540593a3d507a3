/**
 Greedy paging of relations, at start-up (the static budget) and at run time
 (following a cursor), and the theorem that the first bounds the second.
 */
module Paging {
  import opened Wrappers
  import opened Json
  import opened Ordering
  import opened SchemaPages

  // ---------------------------------------------------------------- pages at run time

  // name.split(".")[0]
  function SchemaOf(name: string): string {
    if name == "" || name[0] == '.' then "" else [name[0]] + SchemaOf(name[1..])
  }

  // [...new Set(names)]
  function Unique(names: seq<string>): seq<string> {
    if names == [] then [] else
    var rest := Unique(names[..|names| - 1]);
    if names[|names| - 1] in rest then rest else rest + [names[|names| - 1]]
  }

  function SchemasOf(relations: seq<Relation>): seq<string> {
    Unique(seq(|relations|, i requires 0 <= i < |relations| => SchemaOf(relations[i].name)))
  }

  // The page that holds the candidates from start up to end.
  function PageFor(c: seq<Relation>, start: nat, end: nat, truncated: bool): Page
    requires start <= end <= |c|
  {
    var hasMore := end < |c|;
    Page(SchemasOf(c[start..end]), c[start..end], truncated || hasMore,
         if hasMore && start < end then Some(c[end - 1].name) else None)
  }

  // Where a page that starts at start and already reaches end stops growing.
  function PageEnd(c: seq<Relation>, start: nat, end: nat, truncated: bool): (stop: nat)
    requires start <= end <= |c|
    ensures end <= stop <= |c|
    decreases |c| - end
  {
    if end < |c| && WithinLimit(PageFor(c, start, end + 1, truncated)) then PageEnd(c, start, end + 1, truncated)
    else end
  }

  // findIndex by name; |c| when absent
  function IndexOf(c: seq<Relation>, name: string): (i: nat)
    ensures i <= |c|
    ensures i < |c| ==> c[i].name == name
    ensures forall j :: 0 <= j < i ==> c[j].name != name
  {
    if c == [] || c[0].name == name then 0 else 1 + IndexOf(c[1..], name)
  }

  function PageAt(c: seq<Relation>, start: nat, truncated: bool): Result<Page, DiscoveryError>
    requires start <= |c|
  {
    var end := PageEnd(c, start, start, truncated);
    if start == end < |c| then Err(SchemaPageTooLarge) else Ok(PageFor(c, start, end, truncated))
  }

  // One discovery call: the page that follows the cursor.
  function Discover(c: seq<Relation>, cursor: Option<string>, truncated: bool): Result<Page, DiscoveryError> {
    if cursor.None? then PageAt(c, 0, truncated)
    else if IndexOf(c, cursor.value) == |c| then Err(InvalidCursor)
    else PageAt(c, IndexOf(c, cursor.value) + 1, truncated)
  }

  // All the pages from a position on.
  function Pages(c: seq<Relation>, start: nat, truncated: bool): Result<seq<Page>, DiscoveryError>
    requires start <= |c|
    decreases |c| - start
  {
    var page :- PageAt(c, start, truncated);
    var end := PageEnd(c, start, start, truncated);
    if end == |c| then Ok([page]) else
    var rest :- Pages(c, end, truncated);
    Ok([page] + rest)
  }

  function Flatten(pages: seq<Page>): seq<Relation> {
    if pages == [] then [] else pages[0].relations + Flatten(pages[1..])
  }

  // What a client obtains that starts without a cursor and follows nextCursor.
  ghost predicate Walk(c: seq<Relation>, truncated: bool, cursor: Option<string>, pages: seq<Page>)
    decreases |pages|
  {
    && pages != []
    && Discover(c, cursor, truncated) == Ok(pages[0])
    && (pages[0].nextCursor.None? <==> |pages| == 1)
    && (|pages| > 1 ==> Walk(c, truncated, pages[0].nextCursor, pages[1..]))
  }

  lemma {:induction false} CursorIndex(c: seq<Relation>, i: nat)
    requires Ascending(c, NameOf) && i < |c|
    ensures IndexOf(c, c[i].name) == i
  {
    AscendingDistinct(c, NameOf);
    assert NameOf(c[i]) == c[i].name;
    var j := IndexOf(c, c[i].name);
    assert j < |c| ==> NameOf(c[j]) == NameOf(c[i]);
  }

  lemma {:induction false} DiscoverFrom(c: seq<Relation>, start: nat, truncated: bool, cursor: Option<string>)
    requires Ascending(c, NameOf) && start <= |c|
    requires if cursor.None? then start == 0 else 0 < start && cursor.value == c[start - 1].name
    ensures Discover(c, cursor, truncated) == PageAt(c, start, truncated)
  {
    hide PageAt;
    if cursor.Some? {
      CursorIndex(c, start - 1);
    }
  }

  // Following the cursor yields these pages,
  lemma {:induction false} PagesAreWalk(c: seq<Relation>, start: nat, truncated: bool, cursor: Option<string>)
    requires Ascending(c, NameOf) && start <= |c| && Pages(c, start, truncated).Ok?
    requires if cursor.None? then start == 0 else 0 < start && cursor.value == c[start - 1].name
    ensures Walk(c, truncated, cursor, Pages(c, start, truncated).value)
    decreases |c| - start
  {
    hide WithinLimit, SchemasOf, Discover;
    DiscoverFrom(c, start, truncated, cursor);
    var end := PageEnd(c, start, start, truncated);
    if end < |c| {
      PagesAreWalk(c, end, truncated, Some(c[end - 1].name));
      WalkOn(c, truncated, cursor, PageFor(c, start, end, truncated), Pages(c, end, truncated).value);
    }
  }

  lemma {:induction false} WalkOn(c: seq<Relation>, truncated: bool, cursor: Option<string>, page: Page,
                                  rest: seq<Page>)
    requires Discover(c, cursor, truncated) == Ok(page) && page.nextCursor.Some?
    requires Walk(c, truncated, page.nextCursor, rest)
    ensures Walk(c, truncated, cursor, [page] + rest)
  {
    hide WithinLimit, SchemasOf, Discover;
    assert ([page] + rest)[1..] == rest;
  }

  // Whatever a call returns is within the byte limit.
  lemma {:induction false} PageFits(c: seq<Relation>, start: nat, end: nat, truncated: bool)
    requires start <= end <= |c|
    requires start < end ==> WithinLimit(PageFor(c, start, end, truncated))
    requires start < |c| ==> start < PageEnd(c, start, end, truncated)
    ensures WithinLimit(PageFor(c, start, PageEnd(c, start, end, truncated), truncated))
    decreases |c| - end
  {
    if end < |c| && WithinLimit(PageFor(c, start, end + 1, truncated)) {
      PageFits(c, start, end + 1, truncated);
    } else if start == |c| {
      NoSchemas();
      EmptyPageFits(PageFor(c, start, end, truncated));
    }
  }

  lemma {:induction false} NoSchemas()
    ensures SchemasOf([]) == []
  {
  }

  // and they show every relation exactly once, in order.
  lemma {:induction false} PagesAreLossless(c: seq<Relation>, start: nat, truncated: bool)
    requires start <= |c| && Pages(c, start, truncated).Ok?
    ensures Flatten(Pages(c, start, truncated).value) == c[start..]
    ensures |Pages(c, start, truncated).value| <= if start < |c| then |c| - start else 1
    decreases |c| - start
  {
    hide WithinLimit, SchemasOf;
    var end := PageEnd(c, start, start, truncated);
    var page := PageFor(c, start, end, truncated);
    if end < |c| {
      PagesAreLossless(c, end, truncated);
      var rest := Pages(c, end, truncated).value;
      assert ([page] + rest)[1..] == rest;
      assert c[start..] == c[start..end] + c[end..];
    } else {
      assert Flatten([page]) == page.relations + Flatten([]);
    }
  }

  // ---------------------------------------------------------------- the static budget

  function BudgetPage(schemas: seq<string>, relations: seq<Relation>): Page
    requires relations != []
  {
    Page(schemas, relations, false, Some(relations[|relations| - 1].name))
  }

  function BudgetEnd(c: seq<Relation>, schemas: seq<string>, start: nat, end: nat): (stop: nat)
    requires start <= end <= |c|
    ensures end <= stop <= |c|
    decreases |c| - end
  {
    if end < |c| && WithinLimit(BudgetPage(schemas, c[start..end + 1])) then BudgetEnd(c, schemas, start, end + 1)
    else end
  }

  // The number of greedy pages from a position on; None when a relation does not fit.
  function PageCount(c: seq<Relation>, schemas: seq<string>, start: nat): Option<nat>
    requires start <= |c|
    decreases |c| - start
  {
    if start == |c| then Some(0) else
    var end := BudgetEnd(c, schemas, start, start);
    if start == end then None else
    match PageCount(c, schemas, end)
    case None => None
    case Some(n) => Some(n + 1)
  }

  lemma {:induction false} BudgetPrefixFits(c: seq<Relation>, schemas: seq<string>, start: nat, end: nat, x: nat)
    requires start <= end <= |c| && end < x <= BudgetEnd(c, schemas, start, end)
    ensures WithinLimit(BudgetPage(schemas, c[start..x]))
    decreases |c| - end
  {
    if end + 1 < x {
      BudgetPrefixFits(c, schemas, start, end + 1, x);
    }
  }

  // ---------------------------------------------------------------- run-time pages against budgeted pages

  // The run-time candidates are a selection of the budgeted ones, none of them larger.
  ghost predicate Dominated(run: seq<Relation>, bud: seq<Relation>) {
    && Ascending(run, NameOf)
    && Ascending(bud, NameOf)
    && Covered(run, bud, NameOf, NameOf, RelationWeight, RelationWeight)
  }

  // Names are qualified (at least "s.r") and their schemas are allowed.
  ghost predicate SchemasAllowed(run: seq<Relation>, schemas: seq<string>) {
    forall i :: 0 <= i < |run| ==> |run[i].name| >= 3 && SchemaOf(run[i].name) in schemas
  }

  function Self(s: string): string { s }

  lemma {:induction false} UniqueIsSelection(names: seq<string>)
    ensures Distinct(Unique(names), Self)
    ensures forall i :: 0 <= i < |Unique(names)| ==> Unique(names)[i] in names
    ensures names != [] ==> Unique(names) != []
  {
    if names != [] {
      UniqueIsSelection(names[..|names| - 1]);
    }
  }

  lemma {:induction false} PositionOf(run: seq<Relation>, bud: seq<Relation>, k: nat) returns (p: nat)
    requires Dominated(run, bud) && k < |run|
    ensures p == IndexOf(bud, run[k].name) < |bud|
    ensures RelationWeight(run[k]) <= RelationWeight(bud[p])
  {
    hide RelationWeight, Less;
    assert HasCover(run[k], bud, NameOf, NameOf, RelationWeight, RelationWeight);
    p :| 0 <= p < |bud| && NameOf(bud[p]) == NameOf(run[k]) && RelationWeight(run[k]) <= RelationWeight(bud[p]);
    CursorIndex(bud, p);
  }

  lemma {:induction false} PositionsAscend(run: seq<Relation>, bud: seq<Relation>, i: nat, k: nat)
    requires Dominated(run, bud) && i < k < |run|
    ensures IndexOf(bud, run[i].name) < IndexOf(bud, run[k].name) < |bud|
  {
    hide RelationWeight;
    var p := PositionOf(run, bud, i);
    var q := PositionOf(run, bud, k);
    assert Less(NameOf(run[i]), NameOf(run[k]));
    if q <= p {
      AscendingPositions(bud, NameOf, p, q);
    }
  }

  lemma {:induction false} PositionWithin(run: seq<Relation>, bud: seq<Relation>, rs: nat, k: nat, e: nat)
    returns (p: nat)
    requires Dominated(run, bud) && rs <= k <= e < |run|
    ensures p == IndexOf(bud, run[k].name) && p < |bud|
    ensures IndexOf(bud, run[rs].name) <= p <= IndexOf(bud, run[e].name)
    ensures RelationWeight(run[k]) <= RelationWeight(bud[p])
  {
    hide RelationWeight, Less;
    p := PositionOf(run, bud, k);
    if rs < k {
      PositionsAscend(run, bud, rs, k);
    }
    if k < e {
      PositionsAscend(run, bud, k, e);
    }
  }

  lemma {:induction false} SelectionCovered(run: seq<Relation>, bud: seq<Relation>, rs: nat, e: nat, bs: nat, f: nat)
    requires Dominated(run, bud)
    requires rs <= e < |run| && bs <= f < |bud|
    requires f == IndexOf(bud, run[e].name)
    requires bs <= IndexOf(bud, run[rs].name)
    ensures Total(run[rs..e + 1], RelationWeight) <= Total(bud[bs..f + 1], RelationWeight)
  {
    hide RelationWeight;
    var a, b := run[rs..e + 1], bud[bs..f + 1];
    assert Covered(a, b, NameOf, NameOf, RelationWeight, RelationWeight) by {
      forall i | 0 <= i < |a| ensures HasCover(a[i], b, NameOf, NameOf, RelationWeight, RelationWeight) {
        var p := PositionWithin(run, bud, rs, rs + i, e);
        assert a[i] == run[rs + i] && b[p - bs] == bud[p];
        assert NameOf(b[p - bs]) == NameOf(a[i]);
      }
    }
    assert Distinct(a, NameOf) by {
      AscendingDistinct(run, NameOf);
      forall i, j | 0 <= i < j < |a| ensures NameOf(a[i]) != NameOf(a[j]) {
        assert NameOf(run[rs + i]) != NameOf(run[rs + j]);
      }
    }
    TotalCovered(a, b, NameOf, NameOf, RelationWeight, RelationWeight);
  }

  // A selection from a budgeted page fits wherever that page fits.
  lemma {:induction false} SelectionFits(run: seq<Relation>, bud: seq<Relation>, schemas: seq<string>,
                      rs: nat, e: nat, bs: nat, f: nat, truncated: bool)
    requires Dominated(run, bud) && SchemasAllowed(run, schemas)
    requires rs <= e < |run| && bs <= f < |bud|
    requires f == IndexOf(bud, run[e].name)
    requires bs <= IndexOf(bud, run[rs].name)
    requires WithinLimit(BudgetPage(schemas, bud[bs..f + 1]))
    ensures WithinLimit(PageFor(run, rs, e + 1, truncated))
  {
    hide WithinLimit, RelationWeight, Less;
    SelectionCovered(run, bud, rs, e, bs, f);
    assert NameOf(bud[f]) == NameOf(run[e]);
    SelectionPageFits(run, rs, e, schemas, bud[bs..f + 1], truncated);
  }

  lemma {:induction false} SelectionPageFits(run: seq<Relation>, rs: nat, e: nat, schemas: seq<string>,
                                             b: seq<Relation>, truncated: bool)
    requires SchemasAllowed(run, schemas) && rs <= e < |run|
    requires b != [] && b[|b| - 1].name == run[e].name
    requires Total(run[rs..e + 1], RelationWeight) <= Total(b, RelationWeight)
    requires WithinLimit(BudgetPage(schemas, b))
    ensures WithinLimit(PageFor(run, rs, e + 1, truncated))
  {
    SchemasFit(run[rs..e + 1], schemas);
    CursorSizes(run[e].name);
    PageCompare(PageFor(run, rs, e + 1, truncated), BudgetPage(schemas, b));
  }

  // `null` is no longer than the quoted name of a relation.
  lemma {:induction false} CursorSizes(name: string)
    requires |name| >= 2
    ensures Size(CursorJson(None)) <= Size(CursorJson(Some(name)))
  {
    assert EscapedBytes(name) >= 2 by {
      assert EscapedBytes(name) == ByteLength(EscapeChar(name[0])) + EscapedBytes(name[1..]);
      CharCosts(name[0]);
      CharCosts(name[1]);
    }
  }

  lemma {:induction false} CharCosts(c: char)
    ensures ByteLength(EscapeChar(c)) >= 1
  {
  }

  // The schemas of a page cost no more than all the allowed ones.
  lemma {:induction false} SchemasFit(a: seq<Relation>, schemas: seq<string>)
    requires a != [] && SchemasAllowed(a, schemas)
    ensures Total(SchemasOf(a), TextWeight) <= Total(schemas, TextWeight)
    ensures SchemasOf(a) != [] && schemas != []
  {
    var names := seq(|a|, i requires 0 <= i < |a| => SchemaOf(a[i].name));
    UniqueIsSelection(names);
    var u := SchemasOf(a);
    forall i | 0 <= i < |u| ensures HasCover(u[i], schemas, Self, Self, TextWeight, TextWeight) {
      assert u[i] in names;
      var j :| 0 <= j < |schemas| && schemas[j] == u[i];
      assert Self(schemas[j]) == Self(u[i]);
    }
    TotalCovered(u, schemas, Self, Self, TextWeight, TextWeight);
    assert SchemaOf(a[0].name) in schemas;
  }

  // Everything that a budgeted page covers is reached by a page that starts within it.
  lemma {:induction false} PageReaches(run: seq<Relation>, bud: seq<Relation>, schemas: seq<string>,
                                       rs: nat, bs: nat, e: nat, k: nat, truncated: bool)
    requires Dominated(run, bud) && SchemasAllowed(run, schemas)
    requires rs <= e <= k < |run| && bs <= |bud|
    requires bs <= IndexOf(bud, run[rs].name)
    requires IndexOf(bud, run[k].name) < BudgetEnd(bud, schemas, bs, bs)
    ensures k < PageEnd(run, rs, e, truncated)
    decreases k - e
  {
    hide WithinLimit, RelationWeight, SchemaOf, Less;
    var f := PositionWithin(run, bud, rs, e, k);
    BudgetPrefixFits(bud, schemas, bs, bs, f + 1);
    SelectionFits(run, bud, schemas, rs, e, bs, f, truncated);
    if e < k {
      PageReaches(run, bud, schemas, rs, bs, e + 1, k, truncated);
    }
  }

  // Greedy stays ahead: the run-time pages never fall behind the budgeted ones.
  lemma {:induction false} StaysAhead(run: seq<Relation>, bud: seq<Relation>, schemas: seq<string>,
                                      rs: nat, bs: nat, truncated: bool)
    requires Dominated(run, bud) && SchemasAllowed(run, schemas)
    requires rs < |run| && bs <= |bud|
    requires bs <= IndexOf(bud, run[rs].name)
    requires PageCount(bud, schemas, bs).Some?
    ensures Pages(run, rs, truncated).Ok?
    ensures |Pages(run, rs, truncated).value| <= PageCount(bud, schemas, bs).value
    decreases |bud| - bs
  {
    hide WithinLimit, RelationWeight, SchemaOf, Less;
    var p := PositionOf(run, bud, rs);
    var be := BudgetEnd(bud, schemas, bs, bs);
    if be <= p {
      StaysAhead(run, bud, schemas, rs, be, truncated);
    } else {
      PageReaches(run, bud, schemas, rs, bs, rs, rs, truncated);
      var re := PageEnd(run, rs, rs, truncated);
      if re < |run| {
        var q := PositionOf(run, bud, re);
        if q < be {
          PageReaches(run, bud, schemas, rs, bs, rs, re, truncated);
        }
        StaysAhead(run, bud, schemas, re, be, truncated);
      }
    }
  }

  lemma {:induction false} EachFitsAlone(bud: seq<Relation>, schemas: seq<string>, bs: nat, j: nat)
    requires bs <= j < |bud| && PageCount(bud, schemas, bs).Some?
    ensures WithinLimit(BudgetPage(schemas, [bud[j]]))
    decreases |bud| - bs
  {
    hide EscapedBytes, FieldsSize;
    var be := BudgetEnd(bud, schemas, bs, bs);
    if be <= j {
      EachFitsAlone(bud, schemas, be, j);
    } else {
      BudgetPrefixFits(bud, schemas, bs, bs, j + 1);
      var page := bud[bs..j + 1];
      assert page == bud[bs..j] + [bud[j]];
      TotalConcat(bud[bs..j], [bud[j]], RelationWeight);
      PageCompare(BudgetPage(schemas, [bud[j]]), BudgetPage(schemas, page));
    }
  }

  // No cursor whatever leads to a relation that cannot be shown.
  lemma {:induction false} EveryCursorWorks(run: seq<Relation>, bud: seq<Relation>, schemas: seq<string>,
                                            cursor: Option<string>, truncated: bool)
    requires Dominated(run, bud) && SchemasAllowed(run, schemas)
    requires PageCount(bud, schemas, 0).Some?
    ensures Discover(run, cursor, truncated).Ok? <==>
            (cursor.Some? ==> exists r :: r in run && r.name == cursor.value)
  {
    hide WithinLimit;
    var start := if cursor.None? then 0 else IndexOf(run, cursor.value) + 1;
    if start < |run| {
      PageNeverEmpty(run, bud, schemas, start, truncated);
    }
    if cursor.Some? && start <= |run| {
      assert run[start - 1] in run;
    }
  }

  lemma {:induction false} PageNeverEmpty(run: seq<Relation>, bud: seq<Relation>, schemas: seq<string>,
                                          start: nat, truncated: bool)
    requires Dominated(run, bud) && SchemasAllowed(run, schemas)
    requires PageCount(bud, schemas, 0).Some? && start < |run|
    ensures start < PageEnd(run, start, start, truncated)
  {
    var p := PositionOf(run, bud, start);
    EachFitsAlone(bud, schemas, 0, p);
    assert bud[p..p + 1] == [bud[p]];
    SelectionFits(run, bud, schemas, start, start, p, p, truncated);
  }

  // ---------------------------------------------------------------- the budget is exact

  // A division of the candidates from start on into consecutive pages that all fit.
  ghost predicate Division(c: seq<Relation>, schemas: seq<string>, start: nat, cuts: seq<nat>)
    decreases |cuts|
  {
    if cuts == [] then start == |c| else
    && start < cuts[0] <= |c|
    && WithinLimit(BudgetPage(schemas, c[start..cuts[0]]))
    && Division(c, schemas, cuts[0], cuts[1..])
  }

  // A relation costs at least as much as any cursor (`RelationOutweighsCursor`).
  ghost predicate CursorsAreLight(c: seq<Relation>) {
    forall i, j :: 0 <= i < |c| && 0 <= j < |c| ==> Size(Str(c[i].name)) <= RelationWeight(c[j])
  }

  // Manifest names are at most 127 plain characters long.
  lemma {:induction false} RelationOutweighsCursor(name: string, r: Relation)
    requires |name| <= 127 && forall i :: 0 <= i < |name| ==>
      ' ' <= name[i] <= 'z' && name[i] != '\"' && name[i] != '\\'
    requires |r.name| >= 2
    ensures Size(Str(name)) <= RelationWeight(r)
  {
    PlainBytes(name);
    RelationLeast(r);
    CursorSizes(r.name);
  }

  lemma {:induction false} ShorterPageFits(c: seq<Relation>, schemas: seq<string>, start: nat, x: nat, end: nat)
    requires CursorsAreLight(c) && start < x <= end <= |c|
    requires WithinLimit(BudgetPage(schemas, c[start..end]))
    ensures WithinLimit(BudgetPage(schemas, c[start..x]))
  {
    hide EscapedBytes, FieldsSize;
    if x < end {
      assert c[start..end] == c[start..x] + c[x..end];
      TotalConcat(c[start..x], c[x..end], RelationWeight);
      assert c[x..end][0] == c[x];
      assert Size(Str(c[x - 1].name)) <= RelationWeight(c[x]);
      PageCompare(BudgetPage(schemas, c[start..x]), BudgetPage(schemas, c[start..end]));
    }
  }

  lemma {:induction false} BudgetEndReaches(c: seq<Relation>, schemas: seq<string>, start: nat, end: nat, x: nat)
    requires CursorsAreLight(c) && start <= end < x <= |c|
    requires WithinLimit(BudgetPage(schemas, c[start..x]))
    ensures x <= BudgetEnd(c, schemas, start, end)
    decreases x - end
  {
    hide WithinLimit, CursorsAreLight;
    ShorterPageFits(c, schemas, start, end + 1, x);
    if end + 1 < x {
      BudgetEndReaches(c, schemas, start, end + 1, x);
    }
  }

  // No division into fitting pages is shorter than the greedy one.
  lemma {:induction false} GreedyIsMinimal(c: seq<Relation>, schemas: seq<string>, start: nat, greedy: nat,
                                           cuts: seq<nat>)
    requires CursorsAreLight(c) && start <= greedy <= |c|
    requires Division(c, schemas, start, cuts) && PageCount(c, schemas, greedy).Some?
    ensures PageCount(c, schemas, greedy).value <= |cuts|
    decreases |cuts|
  {
    hide WithinLimit, CursorsAreLight;
    if greedy < |c| {
      var end := BudgetEnd(c, schemas, greedy, greedy);
      if cuts[0] <= greedy {
        GreedyIsMinimal(c, schemas, cuts[0], greedy, cuts[1..]);
      } else {
        LaterPageFits(c, schemas, start, greedy, cuts[0]);
        BudgetEndReaches(c, schemas, greedy, greedy, cuts[0]);
        GreedyIsMinimal(c, schemas, cuts[0], end, cuts[1..]);
      }
    }
  }

  // Dropping leading relations from a page leaves a page that fits.
  lemma {:induction false} LaterPageFits(c: seq<Relation>, schemas: seq<string>, start: nat, later: nat, end: nat)
    requires start <= later < end <= |c|
    requires WithinLimit(BudgetPage(schemas, c[start..end]))
    ensures WithinLimit(BudgetPage(schemas, c[later..end]))
  {
    hide EscapedBytes, FieldsSize;
    assert c[start..end] == c[start..later] + c[later..end];
    TotalConcat(c[start..later], c[later..end], RelationWeight);
    PageCompare(BudgetPage(schemas, c[later..end]), BudgetPage(schemas, c[start..end]));
  }

  // The greedy pages are themselves such a division.
  lemma {:induction false} GreedyIsDivision(c: seq<Relation>, schemas: seq<string>, start: nat) returns (cuts: seq<nat>)
    requires start <= |c| && PageCount(c, schemas, start).Some?
    ensures Division(c, schemas, start, cuts) && |cuts| == PageCount(c, schemas, start).value
    decreases |c| - start
  {
    hide WithinLimit;
    if start == |c| {
      cuts := [];
    } else {
      var end := BudgetEnd(c, schemas, start, start);
      var rest := GreedyIsDivision(c, schemas, end);
      BudgetPrefixFits(c, schemas, start, start, end);
      cuts := [end] + rest;
      assert cuts[1..] == rest;
    }
  }

  // The budget refuses a manifest outright exactly when some relation cannot fit on a page by itself.
  lemma {:induction false} CannotFitIff(c: seq<Relation>, schemas: seq<string>, start: nat)
    requires start <= |c|
    ensures PageCount(c, schemas, start).None? <==>
            exists j :: start <= j < |c| && !WithinLimit(BudgetPage(schemas, [c[j]]))
    decreases |c| - start
  {
    hide WithinLimit;
    if PageCount(c, schemas, start).Some? {
      forall j | start <= j < |c| ensures WithinLimit(BudgetPage(schemas, [c[j]])) {
        EachFitsAlone(c, schemas, start, j);
      }
    } else {
      var end := BudgetEnd(c, schemas, start, start);
      if end == start {
        assert c[start..start + 1] == [c[start]];
      } else {
        CannotFitIff(c, schemas, end);
      }
    }
  }
}
