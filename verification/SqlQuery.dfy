/**
 The PostgreSQL query compiler: a statement with numbered placeholders, and what the
 database makes of it with three-valued logic, grouping and ordering.
 */
module SqlQuery {
  import opened Wrappers
  import opened Json
  import opened Queries
  import opened ShownRows
  import Escaping

  datatype Category = StringColumn | NumberColumn | DateColumn | BooleanColumn | OtherColumn

  // exact: the type is numeric or decimal
  datatype CatalogColumn = CatalogColumn(category: Category, exact: bool)

  type Catalog = map<string, CatalogColumn>

  datatype Policy = Policy(filterColumns: seq<string>, allowUnfiltered: bool)

  /** What the database brings: comparing a column with a parameter cast to its type, the
      sort order, the aggregate functions, the cast to text, letter case. */
  datatype Engine = Engine(relates: (Operator, Value, string) -> bool, compare: (Value, Value) -> int,
                           fold: (AggregateFunction, seq<Value>) -> Value, cast: Value -> string,
                           letterCase: Escaping.Fold, show: Value -> Json)

  // ---------------------------------------------------------------- validation

  function FilterError(catalog: Catalog, filter: Filter): Option<QueryError> {
    if filter.column !in catalog then Some(UnknownColumn)
    else if !OperandsHold(filter, catalog[filter.column].category == StringColumn) then Some(InvalidFilter)
    else None
  }

  function AggregateError(catalog: Catalog, a: Aggregate): Option<QueryError> {
    if a.kind == Count && a.column.None? then None
    else if a.column.None? then Some(InvalidAggregate)
    else if a.column.value !in catalog then Some(UnknownColumn)
    else
      var category := catalog[a.column.value].category;
      if a.kind in {Sum, Avg} && category != NumberColumn then Some(InvalidAggregate)
      else if a.kind in {Min, Max} && category in {OtherColumn, BooleanColumn} then Some(InvalidAggregate)
      else None
  }

  function FilterCheck(catalog: Catalog): Filter -> Option<QueryError> {
    filter => FilterError(catalog, filter)
  }

  function AggregateCheck(catalog: Catalog): Aggregate -> Option<QueryError> {
    a => AggregateError(catalog, a)
  }

  function FirstError<T>(items: seq<T>, check: T -> Option<QueryError>): (r: Option<QueryError>)
    ensures r.None? <==> forall i :: 0 <= i < |items| ==> check(items[i]).None?
  {
    if items == [] then None else
    var error, rest := check(items[0]), FirstError(items[1..], check);
    assert items == [items[0]] + items[1..];
    if error.Some? then error else rest
  }

  // The checks inside the query slot: the first complaint.
  function ValidateQuery(q: Query, catalog: Catalog): Option<QueryError> {
    if q.columns == [] && q.aggregates == [] then Some(InvalidQuery)
    else if !Unique(q.columns) || !Unique(q.groupBy) || !Unique(Aliases(q)) then Some(InvalidQuery)
    else if exists i :: 0 <= i < |q.aggregates| && q.aggregates[i].alias in q.columns then Some(InvalidAggregate)
    else if !AllIn(q.columns, catalog.Keys) || !AllIn(q.groupBy, catalog.Keys) then Some(UnknownColumn)
    else if FirstError(q.filters, FilterCheck(catalog)).Some? then
      FirstError(q.filters, FilterCheck(catalog))
    else if FirstError(q.aggregates, AggregateCheck(catalog)).Some? then
      FirstError(q.aggregates, AggregateCheck(catalog))
    else if q.aggregates != [] && !AllIn(q.columns, set c | c in q.groupBy) then Some(InvalidGroup)
    else if q.aggregates == [] && q.groupBy != [] then Some(InvalidGroup)
    else if !AllIn(Targets(q), set t | t in q.columns + Aliases(q)) then Some(InvalidOrder)
    else None
  }

  predicate FilterFits(catalog: Catalog, filter: Filter) {
    filter.column in catalog && OperandsHold(filter, catalog[filter.column].category == StringColumn)
  }

  predicate AggregateFits(catalog: Catalog, a: Aggregate) {
    match a.kind
    case Count => true
    case Sum | Avg => a.column.Some? && a.column.value in catalog && catalog[a.column.value].category == NumberColumn
    case Min | Max => a.column.Some? && a.column.value in catalog
                      && catalog[a.column.value].category != OtherColumn &&
                          catalog[a.column.value].category != BooleanColumn
  }

  predicate Accepted(q: Query, catalog: Catalog) {
    && NamesHold(q, catalog.Keys)
    && (forall i :: 0 <= i < |q.filters| ==> FilterFits(catalog, q.filters[i]))
    && (forall i :: 0 <= i < |q.aggregates| ==> AggregateFits(catalog, q.aggregates[i]))
  }

  // No complaint: every name resolves, every operand and every aggregate fits its column.
  lemma {:induction false} ValidateAccepts(q: Query, catalog: Catalog)
    ensures ValidateQuery(q, catalog).None? <==> Accepted(q, catalog)
  {
    hide Unique, OperandsHold, FirstError, FilterFits, AggregateFits, FilterCheck, AggregateCheck;
    ChecksPass(q, catalog);
    FiltersResolve(q, catalog);
    var approved, targets := set c | c in q.groupBy, set t | t in q.columns + Aliases(q);
    assert q.aggregates != [] ==> (AllIn(q.columns, approved) <==>
      forall i :: 0 <= i < |q.columns| ==> q.columns[i] in q.groupBy);
    assert AllIn(Targets(q), targets)
      <==> forall i :: 0 <= i < |q.orderBy| ==>
        q.orderBy[i].target in q.columns || q.orderBy[i].target in Aliases(q) by {
      assert forall i :: 0 <= i < |q.orderBy| ==> Targets(q)[i] == q.orderBy[i].target;
    }
  }

  lemma FiltersResolve(q: Query, catalog: Catalog)
    ensures (forall i :: 0 <= i < |q.filters| ==> FilterFits(catalog, q.filters[i]))
        ==> forall i :: 0 <= i < |q.filters| ==> q.filters[i].column in catalog.Keys
  {
  }

  lemma ChecksPass(q: Query, catalog: Catalog)
    ensures FirstError(q.filters, FilterCheck(catalog)).None?
       <==> forall i :: 0 <= i < |q.filters| ==> FilterFits(catalog, q.filters[i])
    ensures FirstError(q.aggregates, AggregateCheck(catalog)).None?
       <==> (forall i :: 0 <= i < |q.aggregates| ==> AggregateFits(catalog, q.aggregates[i]))
            && (forall i :: 0 <= i < |q.aggregates| ==> q.aggregates[i].column.Some? ==>
              q.aggregates[i].column.value in catalog.Keys)
  {
    hide OperandsHold;
    forall i | 0 <= i < |q.aggregates|
      ensures AggregateCheck(catalog)(q.aggregates[i]).None?
         <==> AggregateFits(catalog, q.aggregates[i])
              && (q.aggregates[i].column.Some? ==> q.aggregates[i].column.value in catalog.Keys)
    {
      AggregateErrorIff(catalog, q.aggregates[i]);
    }
  }

  lemma AggregateErrorIff(catalog: Catalog, a: Aggregate)
    ensures AggregateError(catalog, a).None?
       <==> AggregateFits(catalog, a) && (a.column.Some? ==> a.column.value in catalog.Keys)
  {
  }

  // ---------------------------------------------------------------- statements

  datatype Expression = ColumnRef(column: string) | Call(kind: AggregateFunction, argument: Option<string>)
                      | Left(inner: Expression, n: nat)

  // Placeholders are numbered from 1.
  datatype Condition =
    | Compare(column: string, operator: Operator, placeholder: nat)
    | Matches(column: string, anywhere: bool, placeholder: nat)
    | InList(column: string, placeholders: seq<nat>)
    | NullTest(column: string, isNull: bool)

  datatype Statement = Select(selections: seq<(Expression, string)>, conditions: seq<Condition>, groupBy: seq<string>,
                              orderBy: seq<(Expression, Direction)>, limit: nat)

  datatype Logic = True | False | Unknown

  predicate Nothing(v: Value) { v.Null? || v.Absent? }

  function Bound(values: seq<string>, placeholder: nat): string {
    if 1 <= placeholder <= |values| then values[placeholder - 1] else ""
  }

  function Both(a: Logic, b: Logic): Logic {
    if a == False || b == False then False else if a == Unknown || b == Unknown then Unknown else True
  }

  function Tested(b: bool): Logic { if b then True else False }

  // `column = $n`, `column ILIKE '%' || $n || '%' ESCAPE '\'`, `column IN ($n, ...)`
  function Evaluate(e: Engine, c: Condition, values: seq<string>, row: Row): Logic {
    var v := Lookup(row, c.column);
    if c.NullTest? then Tested(Nothing(v) == c.isNull)
    else if Nothing(v) then Unknown
    else match c
      case Compare(_, operator, n) => Tested(e.relates(operator, v, Bound(values, n)))
      case Matches(_, anywhere, n) =>
        var pattern := (if anywhere then "%" + Bound(values, n) else Bound(values, n)) + "%";
        Tested(v.Text? && Escaping.ILike(e.letterCase, v.s, pattern) == Some(true))
      case InList(_, ns) => Tested(exists i :: 0 <= i < |ns| && e.relates(Eq, v, Bound(values, ns[i])))
  }

  function Conjunction(e: Engine, conditions: seq<Condition>, values: seq<string>, row: Row): Logic {
    if conditions == [] then True
    else Both(Evaluate(e, conditions[0], values, row), Conjunction(e, conditions[1..], values, row))
  }

  function Where(e: Engine, conditions: seq<Condition>, values: seq<string>): Row -> bool {
    row => Conjunction(e, conditions, values, row) == True
  }

  function Present(): Value -> bool { v => !Nothing(v) }

  function ColumnValues(unit: seq<Row>, column: string): seq<Value> {
    Kept(CellsOf(unit, column), Present())
  }

  function CellsOf(unit: seq<Row>, column: string): (cells: seq<Value>)
    ensures |cells| == |unit| && forall i :: 0 <= i < |unit| ==> cells[i] == Lookup(unit[i], column)
  {
    seq(|unit|, i requires 0 <= i < |unit| => Lookup(unit[i], column))
  }

  // Aggregates skip nulls; COUNT(*) counts rows.
  function AggregateValue(e: Engine, kind: AggregateFunction, column: Option<string>, unit: seq<Row>): Value {
    if kind == Count then Number((if column.Some? then |ColumnValues(unit, column.value)| else |unit|) as real)
    else e.fold(kind, if column.Some? then ColumnValues(unit, column.value) else [])
  }

  function Shortened(e: Engine, v: Value, n: nat): Value {
    if Nothing(v) then Value.Null else Text(Take(e.cast(v), n))
  }

  function ValueOf(e: Engine, x: Expression, unit: seq<Row>): Value {
    match x
    case ColumnRef(column) => ColumnValue(unit, column)
    case Call(kind, column) => AggregateValue(e, kind, column, unit)
    case Left(inner, n) => Shortened(e, ValueOf(e, inner, unit), n)
  }

  predicate HasCall(x: Expression) {
    match x
    case ColumnRef(_) => false
    case Call(_, _) => true
    case Left(inner, _) => HasCall(inner)
  }

  function CompareExpressions(e: Engine, orderBy: seq<(Expression, Direction)>, x: seq<Row>, y: seq<Row>): int {
    if orderBy == [] then 0 else
    var c := e.compare(ValueOf(e, orderBy[0].0, x), ValueOf(e, orderBy[0].0, y));
    if c != 0 then Directed(orderBy[0].1, c) else CompareExpressions(e, orderBy[1..], x, y)
  }

  function StatementOrder(e: Engine, orderBy: seq<(Expression, Direction)>): (seq<Row>, seq<Row>) -> int {
    (x, y) => CompareExpressions(e, orderBy, x, y)
  }

  function SelectedCells(e: Engine, s: Statement, unit: seq<Row>): (cells: seq<Value>)
    ensures |cells| == |s.selections| && forall i :: 0 <= i < |cells| ==>
      cells[i] == ValueOf(e, s.selections[i].0, unit)
  {
    seq(|s.selections|, i requires 0 <= i < |s.selections| => ValueOf(e, s.selections[i].0, unit))
  }

  function SelectedBy(e: Engine, s: Statement): seq<Row> -> seq<Value> {
    unit => SelectedCells(e, s, unit)
  }

  // Without GROUP BY an aggregate makes one group of all rows, even of none.
  function StatementUnits(s: Statement, rows: seq<Row>): seq<seq<Row>> {
    if s.groupBy == [] && !(exists i :: 0 <= i < |s.selections| && HasCall(s.selections[i].0)) then Singles(rows)
    else if s.groupBy == [] then [rows]
    else GroupsBy(rows, ByKey(s.groupBy))
  }

  function Execute(e: Engine, s: Statement, values: seq<string>, table: seq<Row>): seq<seq<Value>> {
    var units := StatementUnits(s, Kept(table, Where(e, s.conditions, values)));
    Each(Take(SortWith(units, StatementOrder(e, s.orderBy)), s.limit), SelectedBy(e, s))
  }

  // ---------------------------------------------------------------- the meaning in this dialect

  ghost predicate Meets(e: Engine, filter: Filter, row: Row) {
    var v := Lookup(row, filter.column);
    match filter.operator
    case IsNull => Nothing(v)
    case IsNotNull => !Nothing(v)
    case In => !Nothing(v) && exists i :: 0 <= i < |filter.values| && e.relates(Eq, v, filter.values[i])
    case Contains => filter.value.Some? && v.Text? && Escaping.Contains(e.letterCase, v.s, filter.value.value)
    case StartsWith => filter.value.Some? && v.Text? && Escaping.StartsWith(e.letterCase, v.s, filter.value.value)
    case Eq | Ne | Lt | Lte | Gt | Gte =>
      filter.value.Some? && !Nothing(v) && e.relates(filter.operator, v, filter.value.value)
  }

  ghost function SqlDialect(e: Engine): Dialect {
    Dialect((filter, row) => Meets(e, filter, row), (a: Aggregate, unit) => AggregateValue(e, a.kind, a.column, unit),
            e.compare, true)
  }

  // ---------------------------------------------------------------- compiling filters

  function Placeholders(conditions: seq<Condition>): seq<nat> {
    if conditions == [] then [] else
    Placeholders(conditions[..|conditions| - 1]) + PlaceholdersOf(conditions[|conditions| - 1])
  }

  function PlaceholdersOf(c: Condition): seq<nat> {
    match c
    case Compare(_, _, n) => [n]
    case Matches(_, _, n) => [n]
    case InList(_, ns) => ns
    case NullTest(_, _) => []
  }

  function Numbered(from: nat, n: nat): (ns: seq<nat>)
    ensures |ns| == n && forall i :: 0 <= i < n ==> ns[i] == from + i
  {
    seq(n, i requires 0 <= i < n => from + i)
  }

  // The condition is the filter's, and its placeholders are bound to the filter's values.
  predicate Binds(c: Condition, values: seq<string>, filter: Filter) {
    c.column == filter.column && (forall i :: 0 <= i < |PlaceholdersOf(c)| ==> 1 <= PlaceholdersOf(c)[i] <= |values|) &&
    match filter.operator
    case IsNull => c.NullTest? && c.isNull
    case IsNotNull => c.NullTest? && !c.isNull
    case In => c.InList? && |c.placeholders| == |filter.values|
               && forall i :: 0 <= i < |c.placeholders| ==> Bound(values, c.placeholders[i]) == filter.values[i]
    case Contains | StartsWith =>
      c.Matches? && c.anywhere == (filter.operator == Contains) && filter.value.Some?
      && Bound(values, c.placeholder) == Escaping.EscapeLike(filter.value.value)
    case Eq | Ne | Lt | Lte | Gt | Gte =>
      c.Compare? && c.operator == filter.operator && filter.value.Some? &&
          Bound(values, c.placeholder) == filter.value.value
  }

  lemma {:induction false} BindsStays(c: Condition, values: seq<string>, more: seq<string>, filter: Filter)
    requires Binds(c, values, filter)
    ensures Binds(c, values + more, filter)
  {
    forall i | 0 <= i < |PlaceholdersOf(c)|
      ensures Bound(values + more, PlaceholdersOf(c)[i]) == Bound(values, PlaceholdersOf(c)[i])
    {
    }
    if c.InList? {
      assert forall i :: 0 <= i < |c.placeholders| ==> PlaceholdersOf(c)[i] == c.placeholders[i];
    } else if !c.NullTest? {
      assert PlaceholdersOf(c)[0] == c.placeholder;
    }
  }

  predicate HasOperand(filter: Filter) {
    filter.operator in {IsNull, IsNotNull, In} || filter.value.Some?
  }

  lemma PlaceholdersPush(conditions: seq<Condition>, c: Condition, n: nat)
    requires Placeholders(conditions) == Numbered(1, n)
    requires PlaceholdersOf(c) == Numbered(n + 1, |PlaceholdersOf(c)|)
    ensures Placeholders(conditions + [c]) == Numbered(1, n + |PlaceholdersOf(c)|)
  {
    assert (conditions + [c])[..|conditions|] == conditions;
  }

  /** The WHERE clause: every condition is bound to the values of its own filter, and the
      placeholders, read from left to right, are $1, $2, ... up to the number of values. */
  method CompileFilters(filters: seq<Filter>) returns (conditions: seq<Condition>, values: seq<string>)
    requires forall i :: 0 <= i < |filters| ==> HasOperand(filters[i])
    ensures |conditions| == |filters| && forall i :: 0 <= i < |filters| ==> Binds(conditions[i], values, filters[i])
    ensures Placeholders(conditions) == Numbered(1, |values|)
  {
    hide Binds, Placeholders, Escaping.EscapeLike, PlaceholdersOf;
    conditions, values := [], [];
    NoPlaceholders();
    for k := 0 to |filters|
      invariant |conditions| == k && forall i :: 0 <= i < k ==> Binds(conditions[i], values, filters[i])
      invariant Placeholders(conditions) == Numbered(1, |values|)
    {
      var c, more := CompileFilter(filters[k], |values|);
      forall i | 0 <= i < k ensures Binds(conditions[i], values + more, filters[i]) {
        BindsStays(conditions[i], values, more, filters[i]);
      }
      CompiledBinds(c, values, more, filters[k]);
      PlaceholdersPush(conditions, c, |values|);
      conditions, values := conditions + [c], values + more;
    }
  }

  lemma NoPlaceholders()
    ensures Placeholders([]) == Numbered(1, 0)
  {
  }

  // The condition for the filter, with placeholders after the first `bound` ones.
  predicate Compiles(c: Condition, bound: nat, more: seq<string>, filter: Filter) {
    PlaceholdersOf(c) == Numbered(bound + 1, |more|) && c.column == filter.column &&
    match filter.operator
    case IsNull => more == [] && c == NullTest(filter.column, true)
    case IsNotNull => more == [] && c == NullTest(filter.column, false)
    case In => more == filter.values && c.InList?
    case Contains => filter.value.Some? && more == [Escaping.EscapeLike(filter.value.value)] &&
        c == Matches(filter.column, true, bound + 1)
    case StartsWith => filter.value.Some? && more == [Escaping.EscapeLike(filter.value.value)] &&
        c == Matches(filter.column, false, bound + 1)
    case Eq | Ne | Lt | Lte | Gt | Gte =>
      filter.value.Some? && more == [filter.value.value] && c == Compare(filter.column, filter.operator, bound + 1)
  }

  // One round of the loop; `more` are the values pushed.
  method CompileFilter(filter: Filter, bound: nat) returns (c: Condition, more: seq<string>)
    requires HasOperand(filter)
    ensures Compiles(c, bound, more, filter)
  {
    hide Escaping.EscapeLike;
    more := [];
    match filter.operator {
      case Eq | Ne | Lt | Lte | Gt | Gte =>
        more := [filter.value.value];
        c := Compare(filter.column, filter.operator, bound + 1);
      case Contains =>
        more := [Escaping.EscapeLike(filter.value.value)];
        c := Matches(filter.column, true, bound + 1);
      case StartsWith =>
        more := [Escaping.EscapeLike(filter.value.value)];
        c := Matches(filter.column, false, bound + 1);
      case In =>
        var placeholders: seq<nat> := [];
        for i := 0 to |filter.values|
          invariant more == filter.values[..i] && placeholders == Numbered(bound + 1, i)
        {
          more := more + [filter.values[i]];
          placeholders := placeholders + [bound + |more|];
        }
        c := InList(filter.column, placeholders);
      case IsNull =>
        c := NullTest(filter.column, true);
      case IsNotNull =>
        c := NullTest(filter.column, false);
    }
  }

  lemma CompiledBinds(c: Condition, values: seq<string>, more: seq<string>, filter: Filter)
    requires Compiles(c, |values|, more, filter)
    ensures Binds(c, values + more, filter)
    ensures PlaceholdersOf(c) == Numbered(|values| + 1, |PlaceholdersOf(c)|) && |PlaceholdersOf(c)| == |more|
  {
    hide Escaping.EscapeLike;
    forall i | 0 <= i < |more| ensures Bound(values + more, PlaceholdersOf(c)[i]) == more[i] {
    }
    if c.Compare? || c.Matches? {
      assert PlaceholdersOf(c)[0] == c.placeholder;
      assert Bound(values + more, c.placeholder) == more[0];
    }
  }

  // ---------------------------------------------------------------- what the conditions mean

  lemma BindsMeans(e: Engine, c: Condition, values: seq<string>, filter: Filter, row: Row)
    requires Binds(c, values, filter) && Escaping.KeepsLikeSpecials(e.letterCase)
    ensures Evaluate(e, c, values, row) == True <==> Meets(e, filter, row)
  {
    hide Escaping.EscapeLike, Escaping.ILike, Escaping.KeepsLikeSpecials, Bound;
    var v := Lookup(row, c.column);
    if c.Matches? && v.Text? {
      var w := filter.value.value;
      if c.anywhere {
        Escaping.ContainsPattern(e.letterCase, v.s, w);
      } else {
        Escaping.StartsWithPattern(e.letterCase, v.s, w);
      }
    }
  }

  lemma {:induction false} ConjunctionIff(e: Engine, conditions: seq<Condition>, values: seq<string>, row: Row)
    ensures Conjunction(e, conditions, values, row) == True
       <==> forall i :: 0 <= i < |conditions| ==> Evaluate(e, conditions[i], values, row) == True
  {
    hide Evaluate;
    if conditions != [] {
      ConjunctionIff(e, conditions[1..], values, row);
      assert conditions == [conditions[0]] + conditions[1..];
    }
  }

  // The WHERE clause is true of the rows that meet every filter; unknown keeps a row out.
  lemma WhereMeans(e: Engine, conditions: seq<Condition>, values: seq<string>, filters: seq<Filter>, row: Row)
    requires |conditions| == |filters| && forall i :: 0 <= i < |filters| ==> Binds(conditions[i], values, filters[i])
    requires Escaping.KeepsLikeSpecials(e.letterCase)
    ensures Where(e, conditions, values)(row) <==> Meeting(SqlDialect(e), filters)(row)
  {
    hide Binds, Escaping.KeepsLikeSpecials, Evaluate, Meets, Conjunction;
    ConjunctionIff(e, conditions, values, row);
    forall i | 0 <= i < |filters|
      ensures Evaluate(e, conditions[i], values, row) == True <==> SqlDialect(e).meets(filters[i], row)
    {
      BindsMeans(e, conditions[i], values, filters[i], row);
    }
  }

  // ---------------------------------------------------------------- compiling statements

  // Text and exact numbers are cut to a cell.
  function ColumnExpression(column: string, c: CatalogColumn): Expression {
    if c.category == StringColumn || c.exact then Left(ColumnRef(column), MAX_CELL_CHARACTERS) else ColumnRef(column)
  }

  function CallOf(a: Aggregate): Expression { Call(a.kind, a.column) }

  function TargetExpression(q: Query, target: string): Expression {
    var j := AliasIndex(q.aggregates, target);
    if target in q.columns || j == |q.aggregates| then ColumnRef(target) else CallOf(q.aggregates[j])
  }

  predicate IsCompiled(q: Query, catalog: Catalog, s: Statement, values: seq<string>) {
    && |s.conditions| == |q.filters| && (forall i :: 0 <= i < |q.filters| ==>
      Binds(s.conditions[i], values, q.filters[i]))
    && Placeholders(s.conditions) == Numbered(1, |values|)
    && |s.selections| == |q.columns| + |q.aggregates|
    && (forall i :: 0 <= i < |q.columns| ==>
          q.columns[i] in catalog && s.selections[i] ==
              (ColumnExpression(q.columns[i], catalog[q.columns[i]]), q.columns[i]))
    && (forall i :: |q.columns| <= i < |s.selections| ==>
          var a := q.aggregates[i - |q.columns|]; s.selections[i] == (Left(CallOf(a), MAX_CELL_CHARACTERS), a.alias))
    && s.groupBy == q.groupBy
    && |s.orderBy| == |q.orderBy|
    && (forall i :: 0 <= i < |q.orderBy| ==>
          s.orderBy[i] == (TargetExpression(q, q.orderBy[i].target), q.orderBy[i].direction))
    && s.limit == q.limit + 1
  }

  predicate SelectsColumns(q: Query, catalog: Catalog, selections: seq<(Expression, string)>) {
    |q.columns| <= |selections| && forall i :: 0 <= i < |q.columns| ==>
      q.columns[i] in catalog && selections[i] == (ColumnExpression(q.columns[i], catalog[q.columns[i]]), q.columns[i])
  }

  // The select list, and the expression of every alias.
  method CompileSelections(q: Query, catalog: Catalog)
    returns (selections: seq<(Expression, string)>, aggregateExpressions: map<string, Expression>)
    requires Accepted(q, catalog)
    ensures |selections| == |q.columns| + |q.aggregates| && SelectsColumns(q, catalog, selections)
    ensures forall i :: |q.columns| <= i < |selections| ==>
      var a := q.aggregates[i - |q.columns|]; selections[i] == (Left(CallOf(a), MAX_CELL_CHARACTERS), a.alias)
    ensures ExpressionsOf(q, |q.aggregates|, aggregateExpressions)
  {
    hide Unique, ColumnExpression, ExpressionsOf;
    selections := [];
    for i := 0 to |q.columns|
      invariant |selections| == i
      invariant forall k :: 0 <= k < i ==>
        selections[k] == (ColumnExpression(q.columns[k], catalog[q.columns[k]]), q.columns[k])
    {
      selections := selections + [(ColumnExpression(q.columns[i], catalog[q.columns[i]]), q.columns[i])];
    }
    aggregateExpressions := map[];
    NoExpressions(q);
    var n := |q.columns|;
    for i := 0 to |q.aggregates|
      invariant |selections| == n + i && SelectsColumns(q, catalog, selections)
      invariant forall k :: n <= k < n + i ==>
        selections[k] == (Left(CallOf(q.aggregates[k - n]), MAX_CELL_CHARACTERS), q.aggregates[k - n].alias)
      invariant ExpressionsOf(q, i, aggregateExpressions)
    {
      var call := CallOf(q.aggregates[i]);
      ExpressionsGrow(q, i, aggregateExpressions);
      aggregateExpressions := aggregateExpressions[q.aggregates[i].alias := call];
      selections := selections + [(Left(call, MAX_CELL_CHARACTERS), q.aggregates[i].alias)];
    }
  }

  // An alias orders by its aggregate, any other target by its column, which is known.
  method CompileOrder(q: Query, catalog: Catalog, aggregateExpressions: map<string, Expression>)
    returns (orderBy: seq<(Expression, Direction)>)
    requires NamesHold(q, catalog.Keys) && ExpressionsOf(q, |q.aggregates|, aggregateExpressions)
    ensures |orderBy| == |q.orderBy|
    ensures forall i :: 0 <= i < |orderBy| ==>
      orderBy[i] == (TargetExpression(q, q.orderBy[i].target), q.orderBy[i].direction)
  {
    hide Unique, ExpressionsOf, TargetExpression;
    orderBy := [];
    for i := 0 to |q.orderBy|
      invariant |orderBy| == i
      invariant forall k :: 0 <= k < i ==>
        orderBy[k] == (TargetExpression(q, q.orderBy[k].target), q.orderBy[k].direction)
    {
      var target := q.orderBy[i].target;
      ExpressionLookup(q, aggregateExpressions, target);
      assert target !in aggregateExpressions ==> target in catalog;
      var expression := if target in aggregateExpressions then aggregateExpressions[target] else ColumnRef(target);
      orderBy := orderBy + [(expression, q.orderBy[i].direction)];
    }
  }

  // The statement for an accepted query.
  method CompileStatement(q: Query, catalog: Catalog) returns (s: Statement, values: seq<string>)
    requires Accepted(q, catalog)
    ensures IsCompiled(q, catalog, s, values)
  {
    hide Binds, Placeholders, Unique, ColumnExpression, TargetExpression, ExpressionsOf, HasOperand, CallOf;
    FiltersHaveOperands(q, catalog);
    var selections, aggregateExpressions := CompileSelections(q, catalog);
    var conditions;
    conditions, values := CompileFilters(q.filters);
    var orderBy := CompileOrder(q, catalog, aggregateExpressions);
    s := Select(selections, conditions, q.groupBy, orderBy, q.limit + 1);
  }

  lemma NoExpressions(q: Query)
    ensures ExpressionsOf(q, 0, map[])
  {
  }

  lemma FiltersHaveOperands(q: Query, catalog: Catalog)
    requires Accepted(q, catalog)
    ensures forall i :: 0 <= i < |q.filters| ==> HasOperand(q.filters[i])
  {
    forall i | 0 <= i < |q.filters| ensures HasOperand(q.filters[i]) {
      assert FilterFits(catalog, q.filters[i]);
    }
  }

  // The map from the first n aliases to their calls.
  predicate ExpressionsOf(q: Query, n: nat, expressions: map<string, Expression>) {
    && n <= |q.aggregates|
    && (forall k :: 0 <= k < n ==>
          q.aggregates[k].alias in expressions && expressions[q.aggregates[k].alias] == CallOf(q.aggregates[k]))
    && forall alias :: alias in expressions ==> exists k :: 0 <= k < n && q.aggregates[k].alias == alias
  }

  lemma ExpressionsGrow(q: Query, n: nat, expressions: map<string, Expression>)
    requires n < |q.aggregates| && Unique(Aliases(q)) && ExpressionsOf(q, n, expressions)
    ensures ExpressionsOf(q, n + 1, expressions[q.aggregates[n].alias := CallOf(q.aggregates[n])])
  {
    assert forall k :: 0 <= k < n ==> Aliases(q)[k] != Aliases(q)[n];
  }

  lemma ExpressionLookup(q: Query, expressions: map<string, Expression>, target: string)
    requires ExpressionsOf(q, |q.aggregates|, expressions)
    requires forall i :: 0 <= i < |q.aggregates| ==> q.aggregates[i].alias !in q.columns
    ensures (if target in expressions then expressions[target] else ColumnRef(target)) == TargetExpression(q, target)
    ensures target in expressions <==> target in Aliases(q)
  {
    if target in Aliases(q) {
      var k :| 0 <= k < |Aliases(q)| && Aliases(q)[k] == target;
      assert q.aggregates[k].alias == target;
    }
    if target in expressions {
      var k :| 0 <= k < |q.aggregates| && q.aggregates[k].alias == target;
      assert Aliases(q)[k] == target;
    }
  }

  // ---------------------------------------------------------------- the statement means the query

  function DisplayedCells(e: Engine, q: Query, catalog: Catalog, cells: seq<Value>): (shown: seq<Value>)
    ensures |shown| == |cells|
  {
    seq(|cells|, i requires 0 <= i < |cells| =>
      if i < |q.columns| && q.columns[i] in catalog && ColumnExpression(q.columns[i], catalog[q.columns[i]]).ColumnRef?
      then cells[i] else Shortened(e, cells[i], MAX_CELL_CHARACTERS))
  }

  // Text, exact numbers and aggregates are shown as text of at most 500 characters.
  function Displayed(e: Engine, q: Query, catalog: Catalog): seq<Value> -> seq<Value> {
    cells => DisplayedCells(e, q, catalog, cells)
  }

  lemma CellsDisplayed(e: Engine, q: Query, catalog: Catalog, s: Statement, values: seq<string>, unit: seq<Row>)
    requires IsCompiled(q, catalog, s, values)
    ensures SelectedBy(e, s)(unit) == Displayed(e, q, catalog)(Cells(q, SqlDialect(e))(unit))
  {
    hide Binds, Placeholders, AggregateValue, ColumnValue, Shortened;
    var cells, n := UnitCells(q, SqlDialect(e), unit), |q.columns|;
    forall i | 0 <= i < n + |q.aggregates|
      ensures SelectedCells(e, s, unit)[i] == DisplayedCells(e, q, catalog, cells)[i]
    {
      if i < n {
        var column := ColumnRef(q.columns[i]);
        assert cells[i] == ColumnValue(unit, q.columns[i]) == ValueOf(e, column, unit);
        assert ValueOf(e, Left(column, MAX_CELL_CHARACTERS), unit) == Shortened(e, cells[i], MAX_CELL_CHARACTERS);
      } else {
        var a := q.aggregates[i - n];
        assert cells[i] == AggregateValue(e, a.kind, a.column, unit) == ValueOf(e, CallOf(a), unit);
        assert s.selections[i].0 == Left(CallOf(a), MAX_CELL_CHARACTERS);
      }
    }
    assert SelectedCells(e, s, unit) == DisplayedCells(e, q, catalog, cells);
  }

  // Ordering by an alias orders by its aggregate.
  lemma {:induction false} OrdersAlike(e: Engine, q: Query, orders: seq<Order>, orderBy: seq<(Expression, Direction)>,
                                       x: seq<Row>, y: seq<Row>)
    requires |orderBy| == |orders| && forall i :: 0 <= i < |orders| ==> Selects(q, orders[i].target)
    requires forall i :: 0 <= i < |orders| ==>
      orderBy[i] == (TargetExpression(q, orders[i].target), orders[i].direction)
    ensures CompareExpressions(e, orderBy, x, y) == CompareUnits(q, SqlDialect(e), orders, x, y)
  {
    hide AggregateValue, ColumnValue;
    if orders != [] {
      assert Selects(q, orders[0].target);
      OrdersAlike(e, q, orders[1..], orderBy[1..], x, y);
    }
  }

  predicate Selects(q: Query, target: string) {
    target in q.columns || AliasIndex(q.aggregates, target) < |q.aggregates|
  }

  lemma TargetsSelected(q: Query, catalog: Catalog)
    requires Accepted(q, catalog)
    ensures forall i :: 0 <= i < |q.orderBy| ==> Selects(q, q.orderBy[i].target)
  {
    forall i | 0 <= i < |q.orderBy| ensures Selects(q, q.orderBy[i].target) {
      if q.orderBy[i].target !in q.columns {
        var k :| 0 <= k < |Aliases(q)| && Aliases(q)[k] == q.orderBy[i].target;
        assert q.aggregates[k].alias == q.orderBy[i].target;
      }
    }
  }

  lemma UnitsAlike(e: Engine, q: Query, catalog: Catalog, s: Statement, values: seq<string>, kept: seq<Row>)
    requires IsCompiled(q, catalog, s, values) && NamesHold(q, catalog.Keys)
    ensures StatementUnits(s, kept)
         == (if q.aggregates == [] then Singles(kept)
             else if kept == [] && q.groupBy == [] then [[]] else GroupsBy(kept, ByKey(q.groupBy)))
  {
    hide Binds, Placeholders, Unique, GroupsBy;
    if q.aggregates == [] {
      assert forall i :: 0 <= i < |s.selections| ==> !HasCall(s.selections[i].0);
    } else {
      assert HasCall(s.selections[|q.columns|].0);
      if q.groupBy == [] && kept != [] {
        forall x, y | x in kept && y in kept ensures ByKey(q.groupBy)(x) == ByKey(q.groupBy)(y) {
          assert Key(x, []) == Key(y, []);
        }
        OneGroup(kept, ByKey(q.groupBy));
      }
    }
  }

  lemma StatementUnitsMean(e: Engine, q: Query, catalog: Catalog, s: Statement, values: seq<string>, table: seq<Row>)
    requires IsCompiled(q, catalog, s, values) && Accepted(q, catalog) && Escaping.KeepsLikeSpecials(e.letterCase)
    ensures StatementUnits(s, Kept(table, Where(e, s.conditions, values))) == Units(q, SqlDialect(e), table)
  {
    hide Binds, Placeholders, Escaping.KeepsLikeSpecials, GroupsBy, StatementUnits, Kept, Where, Meeting, Meets,
      NamesHold, ByKey;
    var d := SqlDialect(e);
    forall row | row in table ensures Where(e, s.conditions, values)(row) == Meeting(d, q.filters)(row) {
      WhereMeans(e, s.conditions, values, q.filters, row);
    }
    KeptAgree(table, Where(e, s.conditions, values), Meeting(d, q.filters));
    UnitsAlike(e, q, catalog, s, values, Kept(table, Meeting(d, q.filters)));
  }

  // Executing the compiled statement answers the query, cells shown as the columns want.
  lemma StatementMeansQuery(e: Engine, q: Query, catalog: Catalog, s: Statement, values: seq<string>, table: seq<Row>)
    requires IsCompiled(q, catalog, s, values) && Accepted(q, catalog) && Escaping.KeepsLikeSpecials(e.letterCase)
    ensures Execute(e, s, values, table) == Each(Answer(q, SqlDialect(e), table), Displayed(e, q, catalog))
  {
    hide Escaping.KeepsLikeSpecials, Units, StatementUnits, SortWith, Each, Take, Kept, Where, SelectedBy, Displayed,
      Cells, Accepted;
    var d, n := SqlDialect(e), q.limit + 1;
    var units := Units(q, d, table);
    StatementUnitsMean(e, q, catalog, s, values, table);
    TargetsSelected(q, catalog);
    forall x, y | x in units && y in units ensures StatementOrder(e, s.orderBy)(x, y) == UnitOrder(q, d)(x, y) {
      OrdersAlike(e, q, q.orderBy, s.orderBy, x, y);
    }
    SortAgree(units, StatementOrder(e, s.orderBy), UnitOrder(q, d));
    var taken := Take(SortWith(units, UnitOrder(q, d)), n);
    forall unit | unit in taken ensures Displayed(e, q, catalog)(Cells(q, d)(unit)) == SelectedBy(e, s)(unit) {
      CellsDisplayed(e, q, catalog, s, values, unit);
    }
    EachEach(taken, Cells(q, d), Displayed(e, q, catalog), SelectedBy(e, s));
  }

  // ---------------------------------------------------------------- the query

  function ShowRow(e: Engine, q: Query): seq<Value> -> Json {
    cells => RowOf(e, q, cells)
  }

  function RowOf(e: Engine, q: Query, cells: seq<Value>): Json {
    var names := q.columns + Aliases(q);
    RowJson(names, seq(|names|, i requires 0 <= i < |names| =>
      if i < |cells| then ShowCell(e.show, cells[i]) else Json.Null))
  }

  // Such a query is refused for want of a filter that narrows the rows.
  predicate AsksForFilter(policy: Policy, filters: seq<Filter>) {
    !policy.allowUnfiltered && !HasBoundedFilter(filters, policy.filterColumns)
  }

  // A value as text, cut to a cell.
  ghost predicate ShowsText(e: Engine, v: Value, shown: Json) {
    if Nothing(v) then shown == Json.Null
    else shown.Str? && SanitizedTo(if |e.cast(v)| <= 500 then e.cast(v) else e.cast(v)[..500], shown.s)
  }

  /** The shown row has the selected columns and then the aliases as names, and under each the
      value of that column or aggregate: texts, exact numbers and aggregates as text. */
  ghost predicate ShowsAnswer(e: Engine, q: Query, catalog: Catalog, cells: seq<Value>, row: Json) {
    var n := |q.columns|;
    && row.Obj? && |row.fields| == n + |q.aggregates| == |cells|
    && (forall i :: 0 <= i < n && q.columns[i] in catalog ==>
          var c := catalog[q.columns[i]];
          && row.fields[i].key == q.columns[i]
          && if c.category == StringColumn || c.exact then ShowsText(e, cells[i], row.fields[i].value)
             else CellShows(e.show, cells[i], row.fields[i].value))
    && forall i :: n <= i < |cells| ==>
         row.fields[i].key == q.aggregates[i - n].alias && ShowsText(e, cells[i], row.fields[i].value)
  }

  lemma ShortenedShown(e: Engine, v: Value)
    ensures ShowsText(e, v, ShowCell(e.show, Shortened(e, v, MAX_CELL_CHARACTERS)))
  {
    hide SanitizedTo, Sanitize;
    ShowCellShows(e.show, Shortened(e, v, MAX_CELL_CHARACTERS));
  }

  lemma RowShown(e: Engine, q: Query, catalog: Catalog, cells: seq<Value>)
    requires |cells| == |q.columns| + |q.aggregates|
    ensures ShowsAnswer(e, q, catalog, cells, ShowRow(e, q)(Displayed(e, q, catalog)(cells)))
  {
    hide ShowCell, ShowsText, CellShows, Shortened;
    var shown, n := DisplayedCells(e, q, catalog, cells), |q.columns|;
    var row := RowOf(e, q, shown);
    forall i | 0 <= i < n && q.columns[i] in catalog
      ensures var c, value := catalog[q.columns[i]], row.fields[i].value;
        if c.category == StringColumn || c.exact then ShowsText(e, cells[i], value)
        else CellShows(e.show, cells[i], value)
    {
      assert row.fields[i].value == ShowCell(e.show, shown[i]);
      ShortenedShown(e, cells[i]);
      ShowCellShows(e.show, cells[i]);
    }
    forall i | n <= i < |cells| ensures ShowsText(e, cells[i], row.fields[i].value) {
      assert row.fields[i].value == ShowCell(e.show, shown[i]);
      ShortenedShown(e, cells[i]);
    }
  }

  lemma RowsShown(e: Engine, q: Query, catalog: Catalog, table: seq<Row>, rows: seq<Json>)
    requires |rows| <= |FullAnswer(e, q, catalog, table)| && rows == FullAnswer(e, q, catalog, table)[..|rows|]
    ensures |rows| <= |Answer(q, SqlDialect(e), table)|
    ensures forall k :: 0 <= k < |rows| ==> ShowsAnswer(e, q, catalog, Answer(q, SqlDialect(e), table)[k], rows[k])
  {
    hide ShowsAnswer, ShowRow, Displayed, Units, SortWith, UnitOrder, Take;
    forall k | 0 <= k < |rows| ensures ShowsAnswer(e, q, catalog, Answer(q, SqlDialect(e), table)[k], rows[k]) {
      RowShown(e, q, catalog, Answer(q, SqlDialect(e), table)[k]);
    }
  }

  // What the relation's answer looks like before it is cut.
  ghost function FullAnswer(e: Engine, q: Query, catalog: Catalog, table: seq<Row>): seq<Json> {
    Each(Each(Answer(q, SqlDialect(e), table), Displayed(e, q, catalog)), ShowRow(e, q))
  }

  /** query: refused by the first check that fails, or answered with the longest part of the
      query's answer within the limits. */
  method RunQuery(e: Engine, q: Query, policies: map<string, Policy>, allowed: set<string>,
                  catalogs: map<string, Catalog>, table: seq<Row>)
    returns (r: Result<QueryResult, QueryError>)
    requires Escaping.KeepsLikeSpecials(e.letterCase)
    ensures r.Ok? <==>
      && q.relation in policies && q.relation in allowed && q.relation in catalogs
      && !AsksForFilter(policies[q.relation], q.filters)
      && Accepted(q, catalogs[q.relation])
    ensures r == Err(FilterRequired) <==>
      && q.relation in policies && q.relation in allowed && AsksForFilter(policies[q.relation], q.filters)
    ensures r == Err(UnknownRelation) ==>
      q.relation !in policies || q.relation !in allowed || q.relation !in catalogs
    ensures r.Err? && r.error != UnknownRelation ==>
      && q.relation in policies && q.relation in allowed
      && (r.error != FilterRequired ==>
            && q.relation in catalogs
            && var catalog := catalogs[q.relation];
               Complains(r.error, q, catalog.Keys, FiltersFit(catalog, q), AggregatesFit(catalog, q), true))
    ensures r.Ok? ==> r.value.relation == q.relation && r.value.columns == q.columns + Aliases(q)
    ensures r.Ok? ==> r.value.rowCount == |r.value.rows|
    ensures r.Ok? ==> IsBounded(FullAnswer(e, q, catalogs[q.relation], table), q.limit, r.value.rows, r.value.truncated)
    ensures r.Ok? ==>
      && |r.value.rows| <= |Answer(q, SqlDialect(e), table)|
      && forall k :: 0 <= k < |r.value.rows| ==>
           ShowsAnswer(e, q, catalogs[q.relation], Answer(q, SqlDialect(e), table)[k], r.value.rows[k])
  {
    hide Accepted, IsCompiled, Execute, Each, ShowRow, ShowsAnswer, Size, HasBoundedFilter, Escaping.KeepsLikeSpecials,
      ValidateQuery, Displayed, Answer, Complains, FiltersFit, AggregatesFit;
    if q.relation !in policies || q.relation !in allowed {
      return Err(UnknownRelation);
    }
    var policy := policies[q.relation];
    if AsksForFilter(policy, q.filters) {
      return Err(FilterRequired);
    }
    if q.relation !in catalogs {
      return Err(UnknownRelation);
    }
    var catalog := catalogs[q.relation];
    ValidateAccepts(q, catalog);
    ComplaintIsSo(q, catalog);
    var complaint := ValidateQuery(q, catalog);
    if complaint.Some? {
      return Err(complaint.value);
    }
    var s, values := CompileStatement(q, catalog);
    StatementMeansQuery(e, q, catalog, s, values, table);
    var rows, truncated := BoundedRows(Each(Execute(e, s, values, table), ShowRow(e, q)), q.limit);
    RowsShown(e, q, catalog, table, rows);
    return Ok(QueryResult(q.relation, q.columns + Aliases(q), rows, |rows|, truncated));
  }

  predicate FiltersFit(catalog: Catalog, q: Query) {
    forall i :: 0 <= i < |q.filters| ==> FilterFits(catalog, q.filters[i])
  }

  predicate AggregatesFit(catalog: Catalog, q: Query) {
    forall i :: 0 <= i < |q.aggregates| ==> AggregateFits(catalog, q.aggregates[i])
  }

  // The complaint is justified, whichever comes first.
  lemma ComplaintIsSo(q: Query, catalog: Catalog)
    ensures ValidateQuery(q, catalog).Some? ==>
      Complains(ValidateQuery(q, catalog).value, q, catalog.Keys, FiltersFit(catalog, q), AggregatesFit(catalog, q),
                true)
    ensures ValidateQuery(q, catalog) != Some(UnknownRelation) && ValidateQuery(q, catalog) != Some(FilterRequired)
  {
    hide Unique, OperandsHold;
    FirstErrorIs(q.filters, FilterCheck(catalog));
    FirstErrorIs(q.aggregates, AggregateCheck(catalog));
    forall i | 0 <= i < |q.orderBy| ensures Targets(q)[i] == q.orderBy[i].target {
    }
  }

  lemma {:induction false} FirstErrorIs<T>(items: seq<T>, check: T -> Option<QueryError>)
    ensures FirstError(items, check).Some? ==>
      exists i :: 0 <= i < |items| && check(items[i]) == FirstError(items, check)
  {
    if items != [] && check(items[0]).None? && FirstError(items[1..], check).Some? {
      FirstErrorIs(items[1..], check);
      var i :| 0 <= i < |items[1..]| && check(items[1..][i]) == FirstError(items[1..], check);
      assert items[i + 1] == items[1..][i];
    }
  }
}
