/**
 Structured queries over one relation, and what they mean.

 A query is a record of names and strings; its meaning (`Answer`) is given once, over rows
 that map field names to values, with the points where the two engines differ collected in
 a `Dialect`.  The compilers are proved against it in SqlQuery and MongoQuery.
 */
module Queries {
  import opened Wrappers
  import opened Json
  import SplitText

  datatype Operator = Eq | Ne | Lt | Lte | Gt | Gte | Contains | StartsWith | In | IsNull | IsNotNull

  datatype Filter = Filter(column: string, operator: Operator, value: Option<string>, values: seq<string>)

  datatype AggregateFunction = Count | Sum | Avg | Min | Max

  datatype Aggregate = Aggregate(kind: AggregateFunction, column: Option<string>, alias: string)

  datatype Direction = Asc | Desc

  datatype Order = Order(target: string, direction: Direction)

  datatype Query = Query(relation: string, columns: seq<string>, filters: seq<Filter>, groupBy: seq<string>,
                         aggregates: seq<Aggregate>, orderBy: seq<Order>, limit: nat)

  // Absent: a document does not have the field.
  datatype Value = Absent | Null | Truth(b: bool) | Number(n: real) | Text(s: string) | Moment(ms: int)

  type Row = map<string, Value>

  function Lookup(row: Row, field: string): Value {
    if field in row then row[field] else Absent
  }

  /** Where the engines differ: which rows a filter keeps, what an aggregate computes, how
      values compare, and whether aggregating nothing without a grouping still gives a row. */
  datatype Dialect = Dialect(meets: (Filter, Row) -> bool, aggregate: (Aggregate, seq<Row>) -> Value,
                             compare: (Value, Value) -> int, scalarRow: bool)

  // ---------------------------------------------------------------- collections

  function Kept<T>(s: seq<T>, keep: T -> bool): (r: seq<T>)
    ensures |r| <= |s| && forall x :: x in r ==> x in s
  {
    if s == [] then [] else (if keep(s[0]) then [s[0]] else []) + Kept(s[1..], keep)
  }

  lemma {:induction false} KeptAgree<T(!new)>(s: seq<T>, keep: T -> bool, other: T -> bool)
    requires forall x :: x in s ==> keep(x) == other(x)
    ensures Kept(s, keep) == Kept(s, other)
  {
    if s != [] {
      KeptAgree(s[1..], keep, other);
    }
  }

  lemma {:induction false} KeptHas<T(!new)>(s: seq<T>, keep: T -> bool, x: T)
    ensures x in Kept(s, keep) <==> x in s && keep(x)
  {
    if s != [] {
      assert s == [s[0]] + s[1..];
      KeptHas(s[1..], keep, x);
    }
  }

  // The rows with the same key, groups and members in the order of first appearance.
  function GroupsBy<T, K(==)>(s: seq<T>, key: T -> K): seq<seq<T>>
    decreases |s|
  {
    if s == [] then [] else
    var k := key(s[0]);
    [[s[0]] + Kept(s[1..], x => key(x) == k)] + GroupsBy(Kept(s[1..], x => key(x) != k), key)
  }

  // Only which rows share a key matters.
  lemma {:induction false} GroupsAgree<T(!new), K, L>(s: seq<T>, key: T -> K, other: T -> L)
    requires forall x, y :: x in s && y in s ==> (key(x) == key(y) <==> other(x) == other(y))
    ensures GroupsBy(s, key) == GroupsBy(s, other)
    decreases |s|
  {
    if s != [] {
      var k, l := key(s[0]), other(s[0]);
      KeptAgree(s[1..], x => key(x) == k, x => other(x) == l);
      KeptAgree(s[1..], x => key(x) != k, x => other(x) != l);
      GroupsAgree(Kept(s[1..], x => key(x) != k), key, other);
    }
  }

  // Every group has members, all with one key.
  lemma {:induction false} GroupsShareKey<T(!new), K>(s: seq<T>, key: T -> K, i: nat)
    requires i < |GroupsBy(s, key)|
    ensures GroupsBy(s, key)[i] != []
    ensures forall x :: x in GroupsBy(s, key)[i] ==> x in s && key(x) == key(GroupsBy(s, key)[i][0])
    decreases |s|
  {
    var k := key(s[0]);
    if i == 0 {
      forall x | x in GroupsBy(s, key)[0] ensures x in s && key(x) == k {
        KeptHas(s[1..], x => key(x) == k, x);
        assert x == s[0] || x in s[1..];
      }
    } else {
      GroupsShareKey(Kept(s[1..], x => key(x) != k), key, i - 1);
    }
  }

  // A stable sort: x goes before the first element that is not smaller.
  function Place<T>(x: T, s: seq<T>, compare: (T, T) -> int): seq<T> {
    if s != [] && compare(s[0], x) < 0 then [s[0]] + Place(x, s[1..], compare) else [x] + s
  }

  function SortWith<T>(s: seq<T>, compare: (T, T) -> int): (r: seq<T>)
    ensures |r| == |s|
  {
    if s == [] then [] else
    PlaceLength(s[0], SortWith(s[1..], compare), compare);
    Place(s[0], SortWith(s[1..], compare), compare)
  }

  lemma {:induction false} PlaceLength<T>(x: T, s: seq<T>, compare: (T, T) -> int)
    ensures |Place(x, s, compare)| == |s| + 1
  {
    if s != [] {
      PlaceLength(x, s[1..], compare);
    }
  }

  lemma {:induction false} SortHas<T(!new)>(s: seq<T>, compare: (T, T) -> int, x: T)
    ensures x in SortWith(s, compare) <==> x in s
  {
    if s != [] {
      assert s == [s[0]] + s[1..];
      SortHas(s[1..], compare, x);
      PlaceHas(s[0], SortWith(s[1..], compare), compare, x);
    }
  }

  lemma {:induction false} PlaceHas<T(!new)>(y: T, s: seq<T>, compare: (T, T) -> int, x: T)
    ensures x in Place(y, s, compare) <==> x == y || x in s
  {
    if s != [] {
      assert s == [s[0]] + s[1..];
      PlaceHas(y, s[1..], compare, x);
    }
  }

  function Each<T, U>(s: seq<T>, f: T -> U): (r: seq<U>)
    ensures |r| == |s| && forall i :: 0 <= i < |s| ==> r[i] == f(s[i])
  {
    seq(|s|, i requires 0 <= i < |s| => f(s[i]))
  }

  // Sorting commutes with a change of representation that the comparison does not see.
  lemma {:induction false} SortEach<T(!new), U(!new)>(s: seq<T>, f: T -> U, compare: (T, T) -> int,
                                                      other: (U, U) -> int)
    requires forall x, y :: x in s && y in s ==> compare(x, y) == other(f(x), f(y))
    ensures Each(SortWith(s, compare), f) == SortWith(Each(s, f), other)
    decreases |s|
  {
    if s == [] {
      assert Each(s, f) == [];
    } else {
      assert s == [s[0]] + s[1..];
      SortEach(s[1..], f, compare, other);
      assert Each(s, f)[1..] == Each(s[1..], f);
      var t := SortWith(s[1..], compare);
      forall x | x in t ensures compare(x, s[0]) == other(f(x), f(s[0])) {
        SortHas(s[1..], compare, x);
      }
      PlaceEach(s[0], t, f, compare, other);
    }
  }

  lemma {:induction false} PlaceEach<T(!new), U(!new)>(x: T, s: seq<T>, f: T -> U, compare: (T, T) -> int,
                                                       other: (U, U) -> int)
    requires forall y :: y in s ==> compare(y, x) == other(f(y), f(x))
    ensures Each(Place(x, s, compare), f) == Place(f(x), Each(s, f), other)
    decreases |s|
  {
    if s != [] {
      assert s[0] in s;
      assert Each(s, f)[1..] == Each(s[1..], f);
      if compare(s[0], x) < 0 {
        PlaceEach(x, s[1..], f, compare, other);
        EachConcat([s[0]], Place(x, s[1..], compare), f);
      } else {
        EachConcat([x], s, f);
      }
    }
  }

  lemma EachConcat<T(!new), U(!new)>(s: seq<T>, t: seq<T>, f: T -> U)
    ensures Each(s + t, f) == Each(s, f) + Each(t, f)
  {
  }

  lemma EachEach<T(!new), U(!new), V(!new)>(s: seq<T>, f: T -> U, g: U -> V, h: T -> V)
    requires forall x :: x in s ==> g(f(x)) == h(x)
    ensures Each(Each(s, f), g) == Each(s, h)
  {
  }

  lemma EachAgree<T(!new), U(!new)>(s: seq<T>, f: T -> U, g: T -> U)
    requires forall x :: x in s ==> f(x) == g(x)
    ensures Each(s, f) == Each(s, g)
  {
  }

  function Take<T>(s: seq<T>, n: nat): seq<T> {
    if |s| <= n then s else s[..n]
  }

  lemma {:induction false} KeptAll<T(!new)>(s: seq<T>, keep: T -> bool)
    requires forall x :: x in s ==> keep(x)
    ensures Kept(s, keep) == s
  {
    if s != [] {
      KeptAll(s[1..], keep);
    }
  }

  lemma {:induction false} SortAgree<T(!new)>(s: seq<T>, compare: (T, T) -> int, other: (T, T) -> int)
    requires forall x, y :: x in s && y in s ==> compare(x, y) == other(x, y)
    ensures SortWith(s, compare) == SortWith(s, other)
  {
    if s != [] {
      SortAgree(s[1..], compare, other);
      var t := SortWith(s[1..], compare);
      forall y | y in t ensures compare(y, s[0]) == other(y, s[0]) {
        SortHas(s[1..], compare, y);
      }
      PlaceAgree(s[0], t, compare, other);
    }
  }

  lemma {:induction false} PlaceAgree<T(!new)>(x: T, s: seq<T>, compare: (T, T) -> int, other: (T, T) -> int)
    requires forall y :: y in s ==> compare(y, x) == other(y, x)
    ensures Place(x, s, compare) == Place(x, s, other)
  {
    if s != [] && compare(s[0], x) < 0 {
      PlaceAgree(x, s[1..], compare, other);
    }
  }

  // One key for all: one group.
  lemma OneGroup<T(!new), K>(s: seq<T>, key: T -> K)
    requires s != [] && forall x, y :: x in s && y in s ==> key(x) == key(y)
    ensures GroupsBy(s, key) == [s]
  {
    var k := key(s[0]);
    KeptAll(s[1..], x => key(x) == k);
    KeptNone(s[1..], x => key(x) != k);
    assert s == [s[0]] + s[1..];
  }

  lemma {:induction false} KeptNone<T(!new)>(s: seq<T>, keep: T -> bool)
    requires forall x :: x in s ==> !keep(x)
    ensures Kept(s, keep) == []
  {
    if s != [] {
      KeptNone(s[1..], keep);
    }
  }

  lemma {:induction false} SortNothing<T(!new)>(s: seq<T>, compare: (T, T) -> int)
    requires forall x, y :: compare(x, y) == 0
    ensures SortWith(s, compare) == s
  {
    if s != [] {
      SortNothing(s[1..], compare);
    }
  }

  lemma TakeEach<T(!new), U(!new)>(s: seq<T>, f: T -> U, n: nat)
    ensures Take(Each(s, f), n) == Each(Take(s, n), f)
    ensures forall x :: x in Take(s, n) ==> x in s
  {
  }

  // ---------------------------------------------------------------- the meaning of a query

  function Key(row: Row, fields: seq<string>): (key: seq<Value>)
    ensures |key| == |fields| && forall i :: 0 <= i < |fields| ==> key[i] == Lookup(row, fields[i])
  {
    seq(|fields|, i requires 0 <= i < |fields| => Lookup(row, fields[i]))
  }

  ghost predicate MeetsAll(d: Dialect, filters: seq<Filter>, row: Row) {
    forall i :: 0 <= i < |filters| ==> d.meets(filters[i], row)
  }

  function Singles(rows: seq<Row>): (units: seq<seq<Row>>)
    ensures |units| == |rows| && forall i :: 0 <= i < |rows| ==> units[i] == [rows[i]]
  {
    seq(|rows|, i requires 0 <= i < |rows| => [rows[i]])
  }

  ghost function Meeting(d: Dialect, filters: seq<Filter>): Row -> bool {
    row => MeetsAll(d, filters, row)
  }

  function ByKey(fields: seq<string>): Row -> seq<Value> {
    row => Key(row, fields)
  }

  // The rows behind each row of the answer.
  ghost function Units(q: Query, d: Dialect, table: seq<Row>): seq<seq<Row>> {
    var kept := Kept(table, Meeting(d, q.filters));
    if q.aggregates == [] then Singles(kept) else
    var groups := GroupsBy(kept, ByKey(q.groupBy));
    if kept == [] && q.groupBy == [] && d.scalarRow then [[]] else groups
  }

  // A selected column has one value throughout a unit.
  function ColumnValue(unit: seq<Row>, column: string): Value {
    if unit == [] then Absent else Lookup(unit[0], column)
  }

  function AliasIndex(aggregates: seq<Aggregate>, alias: string): (i: nat)
    ensures i <= |aggregates|
    ensures i < |aggregates| <==> exists j :: 0 <= j < |aggregates| && aggregates[j].alias == alias
    ensures i < |aggregates| ==> aggregates[i].alias == alias
  {
    if aggregates == [] || aggregates[0].alias == alias then 0 else 1 + AliasIndex(aggregates[1..], alias)
  }

  // An order target names a selected column or an aggregate.
  function TargetValue(q: Query, d: Dialect, unit: seq<Row>, target: string): Value {
    if target in q.columns then ColumnValue(unit, target) else
    var i := AliasIndex(q.aggregates, target);
    if i < |q.aggregates| then d.aggregate(q.aggregates[i], unit) else Absent
  }

  function Directed(direction: Direction, c: int): int {
    if direction == Asc then c else -c
  }

  function CompareUnits(q: Query, d: Dialect, orders: seq<Order>, x: seq<Row>, y: seq<Row>): int {
    if orders == [] then 0 else
    var c := d.compare(TargetValue(q, d, x, orders[0].target), TargetValue(q, d, y, orders[0].target));
    if c != 0 then Directed(orders[0].direction, c) else CompareUnits(q, d, orders[1..], x, y)
  }

  function UnitOrder(q: Query, d: Dialect): (seq<Row>, seq<Row>) -> int {
    (x, y) => CompareUnits(q, d, q.orderBy, x, y)
  }

  function UnitCells(q: Query, d: Dialect, unit: seq<Row>): (cells: seq<Value>)
    ensures |cells| == |q.columns| + |q.aggregates|
    ensures forall i :: 0 <= i < |q.columns| ==> cells[i] == ColumnValue(unit, q.columns[i])
    ensures forall i :: |q.columns| <= i < |cells| ==> cells[i] == d.aggregate(q.aggregates[i - |q.columns|], unit)
  {
    seq(|q.columns| + |q.aggregates|, i requires 0 <= i < |q.columns| + |q.aggregates| =>
      if i < |q.columns| then ColumnValue(unit, q.columns[i]) else d.aggregate(q.aggregates[i - |q.columns|], unit))
  }

  function Cells(q: Query, d: Dialect): seq<Row> -> seq<Value> {
    unit => UnitCells(q, d, unit)
  }

  // The rows of the answer; one more than the limit, to see that there are more.
  ghost function Answer(q: Query, d: Dialect, table: seq<Row>): seq<seq<Value>> {
    Each(Take(SortWith(Units(q, d, table), UnitOrder(q, d)), q.limit + 1), Cells(q, d))
  }

  // ---------------------------------------------------------------- validation

  datatype QueryError =
    | UnknownRelation | FilterRequired | InvalidQuery | UnknownColumn | InvalidFilter
    | InvalidAggregate | InvalidGroup | InvalidOrder

  predicate Unique(s: seq<string>) {
    forall i, j :: 0 <= i < j < |s| ==> s[i] != s[j]
  }

  function Aliases(q: Query): (aliases: seq<string>)
    ensures |aliases| == |q.aggregates| && forall i :: 0 <= i < |aliases| ==> aliases[i] == q.aggregates[i].alias
  {
    seq(|q.aggregates|, i requires 0 <= i < |q.aggregates| => q.aggregates[i].alias)
  }

  predicate AllIn(s: seq<string>, names: set<string>) {
    forall i :: 0 <= i < |s| ==> s[i] in names
  }

  function Targets(q: Query): (targets: seq<string>)
    ensures |targets| == |q.orderBy| && forall i :: 0 <= i < |targets| ==> targets[i] == q.orderBy[i].target
  {
    seq(|q.orderBy|, i requires 0 <= i < |q.orderBy| => q.orderBy[i].target)
  }

  // What both repositories check of the names in a query.
  predicate NamesHold(q: Query, known: set<string>) {
    && (q.columns != [] || q.aggregates != [])
    && Unique(q.columns) && Unique(q.groupBy) && Unique(Aliases(q))
    && (forall i :: 0 <= i < |q.aggregates| ==> q.aggregates[i].alias !in q.columns)
    && AllIn(q.columns, known) && AllIn(q.groupBy, known)
    && (forall i :: 0 <= i < |q.filters| ==> q.filters[i].column in known)
    && (forall i :: 0 <= i < |q.aggregates| ==> q.aggregates[i].column.Some? ==> q.aggregates[i].column.value in known)
    && (if q.aggregates == [] then q.groupBy == [] else forall i :: 0 <= i < |q.columns| ==> q.columns[i] in q.groupBy)
    && (forall i :: 0 <= i < |q.orderBy| ==> q.orderBy[i].target in q.columns || q.orderBy[i].target in Aliases(q))
  }

  // A filter on an approved column that narrows the rows.
  predicate Bounding(filter: Filter, approved: seq<string>) {
    filter.column in approved &&
    match filter.operator
    case Eq | Lt | Lte | Gt | Gte => filter.value.Some? && filter.value.value != ""
    case StartsWith => filter.value.Some? && |SplitText.Trim(filter.value.value)| >= 3
    case In => exists i :: 0 <= i < |filter.values| && filter.values[i] != ""
    case Ne | Contains | IsNull | IsNotNull => false
  }

  predicate HasBoundedFilter(filters: seq<Filter>, approved: seq<string>) {
    exists i :: 0 <= i < |filters| && Bounding(filters[i], approved)
  }

  // One value, no value or values only, as the operator wants; text matching wants text.
  predicate OperandsHold(filter: Filter, isText: bool) {
    match filter.operator
    case IsNull | IsNotNull => filter.value.None? && filter.values == []
    case In => filter.value.None? && filter.values != []
    case _ => filter.value.Some? && filter.values == [] && (filter.operator in {Contains, StartsWith} ==> isText)
  }

  /** What a refusal says is so.  known: the columns there are; filtersFit, aggregatesFit:
      whether all operands and all aggregates fit their columns; filtered: whether the filters
      that the relation asks for are there. */
  predicate Complains(error: QueryError, q: Query, known: set<string>, filtersFit: bool, aggregatesFit: bool,
                      filtered: bool)
  {
    match error
    case InvalidQuery =>
      || (q.columns == [] && q.aggregates == [])
      || !Unique(q.columns) || !Unique(q.groupBy) || !Unique(Aliases(q))
    case UnknownColumn =>
      || !AllIn(q.columns, known) || !AllIn(q.groupBy, known)
      || (exists i :: 0 <= i < |q.filters| && q.filters[i].column !in known)
      || exists i ::
           0 <= i < |q.aggregates| && q.aggregates[i].column.Some? && q.aggregates[i].column.value !in known
    case InvalidFilter => !filtersFit
    case InvalidAggregate =>
      !aggregatesFit || exists i :: 0 <= i < |q.aggregates| && q.aggregates[i].alias in q.columns
    case InvalidGroup =>
      if q.aggregates == [] then q.groupBy != []
      else exists i :: 0 <= i < |q.columns| && q.columns[i] !in q.groupBy
    case InvalidOrder =>
      exists i :: 0 <= i < |q.orderBy| && q.orderBy[i].target !in q.columns && q.orderBy[i].target !in Aliases(q)
    case FilterRequired => !filtered
    case UnknownRelation => false
  }

  // ---------------------------------------------------------------- the result

  const MAX_RESULT_BYTES: nat := 16000

  const MAX_CELL_CHARACTERS: nat := 500

  // Control characters other than tab, line feed and carriage return, and direction marks.
  predicate Removed(c: char) {
    c <= '\U{8}' || c == '\U{B}' || c == '\U{C}' || '\U{E}' <= c <= '\U{1F}' || c == '\U{7F}'
    || '\U{202A}' <= c <= '\U{202E}' || '\U{2066}' <= c <= '\U{2069}'
  }

  function Seen(text: string): string { Kept(text, c => !Removed(c)) }

  function Sanitize(text: string): string { Take(Seen(text), MAX_CELL_CHARACTERS) }

  // normalizeCell; undefined falls through to String(value).
  function ShowCell(show: Value -> Json, v: Value): Json {
    match v
    case Absent => Str("undefined")
    case Null => Json.Null
    case Truth(b) => Bool(b)
    case Text(s) => Str(Sanitize(s))
    case Number(_) | Moment(_) => show(v)
  }

  datatype QueryResult = QueryResult(relation: string, columns: seq<string>, rows: seq<Json>, rowCount: nat,
                                     truncated: bool)

  function RowJson(names: seq<string>, cells: seq<Json>): Json
    requires |names| == |cells|
  {
    Obj(seq(|names|, i requires 0 <= i < |names| => Field(names[i], cells[i])))
  }

  lemma {:induction false} ItemsSizeGrows(items: seq<Json>, more: seq<Json>, leading: bool)
    ensures ItemsSize(items, leading) <= ItemsSize(items + more, leading)
  {
    if items == [] {
    } else {
      assert (items + more)[1..] == items[1..] + more;
      ItemsSizeGrows(items[1..], more, false);
    }
  }

  /** The rows that are sent: the longest part of the answer that keeps to the row limit and
      the byte limit, and whether anything was left out. */
  predicate IsBounded(rawRows: seq<Json>, limit: nat, rows: seq<Json>, truncated: bool) {
    && |rows| <= |rawRows| && |rows| <= limit && rows == rawRows[..|rows|]
    && Size(Arr(rows)) <= MAX_RESULT_BYTES
    && (forall n :: |rows| < n <= |rawRows| && n <= limit ==> Size(Arr(rawRows[..n])) > MAX_RESULT_BYTES)
    && (truncated <==> |rows| < |rawRows|)
  }

  method BoundedRows(rawRows: seq<Json>, limit: nat) returns (rows: seq<Json>, truncated: bool)
    ensures IsBounded(rawRows, limit, rows, truncated)
  {
    truncated := |rawRows| > limit;
    rows := [];
    var kept := Take(rawRows, limit);
    var k := 0;
    while k < |kept|
      invariant 0 <= k <= |kept| && rows == rawRows[..k] && Size(Arr(rows)) <= MAX_RESULT_BYTES
      invariant truncated <==> |rawRows| > limit
    {
      var candidate := rows + [kept[k]];
      assert candidate == rawRows[..k + 1];
      if Size(Arr(candidate)) > MAX_RESULT_BYTES {
        truncated := true;
        forall n | k < n <= |rawRows| && n <= limit ensures Size(Arr(rawRows[..n])) > MAX_RESULT_BYTES {
          assert rawRows[..n] == candidate + rawRows[k + 1..n];
          ItemsSizeGrows(candidate, rawRows[k + 1..n], true);
        }
        break;
      }
      rows := rows + [kept[k]];
      k := k + 1;
    }
  }
}
