/**
 When the two query backends answer a whole query alike.

 Filters are compared in Dialects.  What is left are the three other points where the engines
 differ: an aggregation of nothing, aggregates over rows without a value, and the place of rows
 without a value in the order.
 */
module DialectAnswers {
  import opened FieldTypes
  import opened Queries
  import opened Dialects
  import Sql = SqlQuery
  import Mongo = MongoQuery

  // ---------------------------------------------------------------- the engines' laws

  /** Aggregates other than count look at the values that are there; over none of them, SUM is
      NULL in SQL, $sum is zero, and the others agree. */
  ghost predicate FoldsAlike(sql: Sql.Engine, mongo: Mongo.Engine) {
    forall kind, vs: seq<Value> :: kind != Count ==>
      var present := Kept(vs, Sql.Present());
      if kind == Sum && present == [] then sql.fold(kind, present) == Null && mongo.fold(kind, vs) == Number(0.0)
      else sql.fold(kind, present) == mongo.fold(kind, vs)
  }

  /** Values that are there sort alike; where there is none, it sorts after all values in SQL
      and before them in MongoDB. */
  ghost predicate SortsAlike(sql: Sql.Engine, mongo: Mongo.Engine) {
    forall v, w ::
      && (!Sql.Nothing(v) && !Sql.Nothing(w) ==> sql.compare(v, w) == mongo.compare(v, w))
      && (Sql.Nothing(v) && Sql.Nothing(w) ==> sql.compare(v, w) == 0 == mongo.compare(v, w))
      && (Sql.Nothing(v) && !Sql.Nothing(w) ==>
            sql.compare(v, w) > 0 > sql.compare(w, v) && mongo.compare(v, w) < 0 < mongo.compare(w, v))
  }

  // A query whose filters keep the same rows in both.
  ghost predicate FiltersPortable(sql: Sql.Engine, mongo: Mongo.Engine, policy: Mongo.Policy, q: Query) {
    forall i :: 0 <= i < |q.filters| ==>
      && Mongo.FilterFits(mongo, policy, q.filters[i]) && Portable(policy, q.filters[i])
      && EnginesAlike(sql, mongo, Mongo.TypeOf(policy, q.filters[i].column))
  }

  ghost function Selection(sql: Sql.Engine, q: Query, table: seq<Row>): seq<Row> {
    Kept(table, Meeting(Sql.SqlDialect(sql), q.filters))
  }

  lemma SelectionsAgree(sql: Sql.Engine, mongo: Mongo.Engine, policy: Mongo.Policy, q: Query, table: seq<Row>)
    requires FiltersPortable(sql, mongo, policy, q)
    ensures Selection(sql, q, table) == Kept(table, Meeting(Mongo.MongoDialect(mongo, policy), q.filters))
  {
    hide EnginesAlike, Mongo.FilterFits, Sql.Meets, Mongo.Meets, Portable;
    var s, m := Sql.SqlDialect(sql), Mongo.MongoDialect(mongo, policy);
    forall row | row in table ensures Meeting(s, q.filters)(row) == Meeting(m, q.filters)(row) {
      forall i | 0 <= i < |q.filters| ensures s.meets(q.filters[i], row) == m.meets(q.filters[i], row) {
        PortableAgrees(sql, mongo, policy, q.filters[i], row);
      }
    }
    KeptAgree(table, Meeting(s, q.filters), Meeting(m, q.filters));
  }

  // ---------------------------------------------------------------- aggregating nothing

  // An aggregation without grouping that no row meets.
  ghost predicate AggregatesNothing(sql: Sql.Engine, q: Query, table: seq<Row>) {
    q.aggregates != [] && q.groupBy == [] && Selection(sql, q, table) == []
  }

  /** The answers have the same number of rows except exactly when nothing is aggregated
      without grouping, which gives one row in SQL and none in MongoDB. */
  lemma AnswerSizesAgreeIff(sql: Sql.Engine, mongo: Mongo.Engine, policy: Mongo.Policy, q: Query, table: seq<Row>)
    requires FiltersPortable(sql, mongo, policy, q)
    ensures |Answer(q, Sql.SqlDialect(sql), table)| == |Answer(q, Mongo.MongoDialect(mongo, policy), table)|
       <==> !AggregatesNothing(sql, q, table)
  {
    hide Meeting, FiltersPortable;
    SelectionsAgree(sql, mongo, policy, q, table);
    UnitsAgree(sql, mongo, policy, q, table);
  }

  lemma UnitsAgree(sql: Sql.Engine, mongo: Mongo.Engine, policy: Mongo.Policy, q: Query, table: seq<Row>)
    requires Selection(sql, q, table) == Kept(table, Meeting(Mongo.MongoDialect(mongo, policy), q.filters))
    ensures var s, m := Units(q, Sql.SqlDialect(sql), table), Units(q, Mongo.MongoDialect(mongo, policy), table);
      if AggregatesNothing(sql, q, table) then s == [[]] && m == []
      else s == m && forall unit :: unit in s ==> unit != []
  {
    hide Meeting;
    var rows := Selection(sql, q, table);
    if q.aggregates != [] {
      Mongo.UnitsHaveRows(rows, ByKey(q.groupBy));
    }
  }

  // No row at all: whatever the filters say.
  lemma EmptyTable(sql: Sql.Engine, mongo: Mongo.Engine, policy: Mongo.Policy, q: Query)
    requires q.aggregates != [] && q.groupBy == []
    ensures |Answer(q, Sql.SqlDialect(sql), [])| == 1 && Answer(q, Mongo.MongoDialect(mongo, policy), []) == []
  {
    hide Meeting;
  }

  // ---------------------------------------------------------------- aggregates

  // What decides whether one aggregate agrees on the rows of a group.
  predicate AggregatePortable(a: Aggregate, unit: seq<Row>) {
    match a.kind
    case Count => a.column.Some? ==> forall row :: row in unit ==> !Sql.Nothing(Lookup(row, a.column.value))
    case Sum => a.column.Some? ==> exists row :: row in unit && !Sql.Nothing(Lookup(row, a.column.value))
    case _ => true
  }

  lemma AggregateAgreesIff(sql: Sql.Engine, mongo: Mongo.Engine, a: Aggregate, unit: seq<Row>)
    requires FoldsAlike(sql, mongo) && (a.kind != Count ==> a.column.Some?)
    ensures Sql.AggregateValue(sql, a.kind, a.column, unit) == Mongo.AggregateValue(mongo, a, unit)
       <==> AggregatePortable(a, unit)
  {
    if a.column.Some? {
      var cells := Sql.CellsOf(unit, a.column.value);
      if a.kind == Count {
        CountsAgreeIff(sql, mongo, a.column.value, unit, a.alias);
      } else {
        assert Mongo.FieldValues(unit, a.column) == cells;
        ValueFound(unit, a.column.value);
      }
    }
  }

  lemma ValueFound(unit: seq<Row>, column: string)
    ensures Sql.ColumnValues(unit, column) == [] <==> forall row :: row in unit ==> Sql.Nothing(Lookup(row, column))
  {
    var cells := Sql.CellsOf(unit, column);
    if row :| row in unit && !Sql.Nothing(Lookup(row, column)) {
      var i :| 0 <= i < |unit| && unit[i] == row;
      assert cells[i] in cells;
      KeptHas(cells, Sql.Present(), cells[i]);
    } else {
      KeptNone(cells, Sql.Present());
    }
  }

  // ---------------------------------------------------------------- the order

  // Some groups have a value for the target and some have none.
  ghost predicate Mixed(q: Query, d: Dialect, units: seq<seq<Row>>, target: string) {
    && (exists unit :: unit in units && Sql.Nothing(TargetValue(q, d, unit, target)))
    && (exists unit :: unit in units && !Sql.Nothing(TargetValue(q, d, unit, target)))
  }

  // The targets have the same values in both dialects.
  ghost predicate TargetsAgree(q: Query, s: Dialect, m: Dialect, orders: seq<Order>, units: seq<seq<Row>>) {
    forall unit, i :: unit in units && 0 <= i < |orders| ==>
      TargetValue(q, s, unit, orders[i].target) == TargetValue(q, m, unit, orders[i].target)
  }

  lemma {:induction false} ComparesAgree(q: Query, s: Dialect, m: Dialect, orders: seq<Order>, units: seq<seq<Row>>,
                                         x: seq<Row>, y: seq<Row>)
    requires TargetsAgree(q, s, m, orders, units) && x in units && y in units
    requires forall v, w :: (Sql.Nothing(v) <==> Sql.Nothing(w)) ==> s.compare(v, w) == m.compare(v, w)
    requires forall i :: 0 <= i < |orders| ==> !Mixed(q, s, units, orders[i].target)
    ensures CompareUnits(q, s, orders, x, y) == CompareUnits(q, m, orders, x, y)
    decreases |orders|
  {
    hide TargetValue;
    if orders != [] {
      assert forall i :: 0 <= i < |orders[1..]| ==> orders[1..][i] == orders[i + 1];
      assert !Mixed(q, s, units, orders[0].target);
      ComparesAgree(q, s, m, orders[1..], units, x, y);
    }
  }

  lemma SortedAlike(q: Query, s: Dialect, m: Dialect, units: seq<seq<Row>>)
    requires TargetsAgree(q, s, m, q.orderBy, units)
    requires forall v, w :: (Sql.Nothing(v) <==> Sql.Nothing(w)) ==> s.compare(v, w) == m.compare(v, w)
    requires forall i :: 0 <= i < |q.orderBy| ==> !Mixed(q, s, units, q.orderBy[i].target)
    ensures SortWith(units, UnitOrder(q, s)) == SortWith(units, UnitOrder(q, m))
  {
    hide TargetsAgree, Mixed, CompareUnits;
    forall x, y | x in units && y in units ensures UnitOrder(q, s)(x, y) == UnitOrder(q, m)(x, y) {
      ComparesAgree(q, s, m, q.orderBy, units, x, y);
    }
    SortAgree(units, UnitOrder(q, s), UnitOrder(q, m));
  }

  // Sorting puts one of the elements first that precede all others.
  lemma {:induction false} HeadIsFirst<T(!new)>(units: seq<T>, compare: (T, T) -> int, first: T -> bool)
    requires exists x :: x in units && first(x)
    requires forall x, y :: x in units && y in units && first(x) && !first(y) ==> compare(x, y) < 0 <= compare(y, x)
    ensures SortWith(units, compare) != [] && first(SortWith(units, compare)[0])
  {
    var rest := units[1..];
    assert units == [units[0]] + rest;
    var sorted := SortWith(rest, compare);
    if sorted != [] {
      SortHas(rest, compare, sorted[0]);
    }
    if x :| x in rest && first(x) {
      HeadIsFirst(rest, compare, first);
    } else {
      assert first(units[0]);
    }
  }

  // ---------------------------------------------------------------- whole answers

  // What both backends check of a query, and the laws its engines keep.
  ghost predicate Comparable(sql: Sql.Engine, mongo: Mongo.Engine, policy: Mongo.Policy, q: Query) {
    && FiltersPortable(sql, mongo, policy, q) && FoldsAlike(sql, mongo) && SortsAlike(sql, mongo)
    && forall i :: 0 <= i < |q.aggregates| && q.aggregates[i].kind != Count ==> q.aggregates[i].column.Some?
  }

  ghost predicate AggregatesPortable(q: Query, units: seq<seq<Row>>) {
    forall i, j :: 0 <= i < |units| && 0 <= j < |q.aggregates| ==> AggregatePortable(q.aggregates[j], units[i])
  }

  lemma CellsAgreeIff(sql: Sql.Engine, mongo: Mongo.Engine, policy: Mongo.Policy, q: Query, unit: seq<Row>)
    requires Comparable(sql, mongo, policy, q)
    ensures UnitCells(q, Sql.SqlDialect(sql), unit) == UnitCells(q, Mongo.MongoDialect(mongo, policy), unit)
       <==> forall j :: 0 <= j < |q.aggregates| ==> AggregatePortable(q.aggregates[j], unit)
  {
    hide Comparable, AggregatePortable, Sql.SqlDialect, Mongo.MongoDialect, UnitCells, ColumnValue;
    var s, m, n := Sql.SqlDialect(sql), Mongo.MongoDialect(mongo, policy), |q.columns|;
    var x, y := UnitCells(q, s, unit), UnitCells(q, m, unit);
    forall j | 0 <= j < |q.aggregates| ensures x[n + j] == y[n + j] <==> AggregatePortable(q.aggregates[j], unit) {
      CellAgreesIff(sql, mongo, policy, q, unit, j);
    }
    if forall j :: 0 <= j < |q.aggregates| ==> AggregatePortable(q.aggregates[j], unit) {
      forall i | 0 <= i < |x| ensures x[i] == y[i] {
        assert i >= n ==> x[n + (i - n)] == y[n + (i - n)];
      }
      assert x == y;
    }
  }

  lemma CellAgreesIff(sql: Sql.Engine, mongo: Mongo.Engine, policy: Mongo.Policy, q: Query, unit: seq<Row>, j: nat)
    requires Comparable(sql, mongo, policy, q) && j < |q.aggregates|
    ensures UnitCells(q, Sql.SqlDialect(sql), unit)[|q.columns| + j]
         == UnitCells(q, Mongo.MongoDialect(mongo, policy), unit)[|q.columns| + j]
       <==> AggregatePortable(q.aggregates[j], unit)
  {
    hide FiltersPortable, FoldsAlike, SortsAlike, AggregatePortable, Sql.AggregateValue, Mongo.AggregateValue,
      ColumnValue, UnitCells;
    AggregateAgreesIff(sql, mongo, q.aggregates[j], unit);
  }

  // The same groups in the same order: the answers differ in their aggregates only.
  lemma ShownAgreeIff(sql: Sql.Engine, mongo: Mongo.Engine, policy: Mongo.Policy, q: Query, units: seq<seq<Row>>)
    requires Comparable(sql, mongo, policy, q)
    ensures Each(units, Cells(q, Sql.SqlDialect(sql))) == Each(units, Cells(q, Mongo.MongoDialect(mongo, policy)))
       <==> AggregatesPortable(q, units)
  {
    hide Comparable, AggregatePortable, UnitCells;
    var s, m := Sql.SqlDialect(sql), Mongo.MongoDialect(mongo, policy);
    var x, y := Each(units, Cells(q, s)), Each(units, Cells(q, m));
    forall i | 0 <= i < |units|
      ensures x[i] == y[i] <==> forall j :: 0 <= j < |q.aggregates| ==> AggregatePortable(q.aggregates[j], units[i])
    {
      CellsAgreeIff(sql, mongo, policy, q, units[i]);
    }
    if AggregatesPortable(q, units) {
      assert forall i :: 0 <= i < |units| ==> x[i] == y[i];
    }
  }

  ghost predicate NoneMixed(q: Query, d: Dialect, units: seq<seq<Row>>) {
    forall i :: 0 <= i < |q.orderBy| ==> !Mixed(q, d, units, q.orderBy[i].target)
  }

  lemma ComparesPresent(sql: Sql.Engine, mongo: Mongo.Engine)
    requires SortsAlike(sql, mongo)
    ensures forall v, w :: (Sql.Nothing(v) <==> Sql.Nothing(w)) ==> sql.compare(v, w) == mongo.compare(v, w)
  {
  }

  lemma SameUnitsAgreeIff(sql: Sql.Engine, mongo: Mongo.Engine, policy: Mongo.Policy, q: Query, table: seq<Row>)
    requires Comparable(sql, mongo, policy, q) && !AggregatesNothing(sql, q, table)
    requires var s := Sql.SqlDialect(sql);
      && NoneMixed(q, s, Units(q, s, table))
      && TargetsAgree(q, s, Mongo.MongoDialect(mongo, policy), q.orderBy, Units(q, s, table))
    ensures Answer(q, Sql.SqlDialect(sql), table) == Answer(q, Mongo.MongoDialect(mongo, policy), table)
       <==> AggregatesPortable(q, Mongo.AnsweredUnits(q, Sql.SqlDialect(sql), table))
  {
    hide FiltersPortable, FoldsAlike, SortsAlike, Mixed, TargetsAgree, Units, SortWith, UnitOrder, Cells, Selection,
      Each, Take, AggregatesNothing, AggregatesPortable;
    var s, m := Sql.SqlDialect(sql), Mongo.MongoDialect(mongo, policy);
    assert Selection(sql, q, table) == Kept(table, Meeting(m, q.filters)) by {
      SelectionsAgree(sql, mongo, policy, q, table);
    }
    UnitsAgree(sql, mongo, policy, q, table);
    ComparesPresent(sql, mongo);
    SortedAlike(q, s, m, Units(q, s, table));
    ShownAgreeIff(sql, mongo, policy, q, Mongo.AnsweredUnits(q, s, table));
  }

  /** For all these queries: the answers are the same unless nothing is aggregated without
      grouping, if no order target is present in some groups and missing in others, and no
      aggregate of a group counts a column with a missing value or sums none. */
  lemma AnswersAgree(sql: Sql.Engine, mongo: Mongo.Engine, policy: Mongo.Policy, q: Query, table: seq<Row>)
    requires Comparable(sql, mongo, policy, q) && !AggregatesNothing(sql, q, table)
    requires NoneMixed(q, Sql.SqlDialect(sql), Units(q, Sql.SqlDialect(sql), table))
    requires AggregatesPortable(q, Units(q, Sql.SqlDialect(sql), table))
    ensures Answer(q, Sql.SqlDialect(sql), table) == Answer(q, Mongo.MongoDialect(mongo, policy), table)
  {
    hide FiltersPortable, Units, NoneMixed, AggregatePortable, Answer, SortWith, UnitOrder;
    var s, m := Sql.SqlDialect(sql), Mongo.MongoDialect(mongo, policy);
    var units := Units(q, s, table);
    forall unit, i | unit in units && 0 <= i < |q.orderBy|
      ensures TargetValue(q, s, unit, q.orderBy[i].target) == TargetValue(q, m, unit, q.orderBy[i].target)
    {
      var k :| 0 <= k < |units| && units[k] == unit;
      TargetAgrees(sql, mongo, policy, q, unit, q.orderBy[i].target);
    }
    SameUnitsAgreeIff(sql, mongo, policy, q, table);
    forall unit | unit in Mongo.AnsweredUnits(q, s, table) ensures unit in units {
      SortHas(units, UnitOrder(q, s), unit);
    }
    ShownPortable(q, units, Mongo.AnsweredUnits(q, s, table));
  }

  lemma ShownPortable(q: Query, units: seq<seq<Row>>, shown: seq<seq<Row>>)
    requires AggregatesPortable(q, units) && forall unit :: unit in shown ==> unit in units
    ensures AggregatesPortable(q, shown)
  {
    hide AggregatePortable;
    forall i, j | 0 <= i < |shown| && 0 <= j < |q.aggregates| ensures AggregatePortable(q.aggregates[j], shown[i]) {
      assert shown[i] in shown;
      var k :| 0 <= k < |units| && units[k] == shown[i];
    }
  }

  lemma TargetAgrees(sql: Sql.Engine, mongo: Mongo.Engine, policy: Mongo.Policy, q: Query, unit: seq<Row>,
                     target: string)
    requires Comparable(sql, mongo, policy, q)
    requires forall j :: 0 <= j < |q.aggregates| ==> AggregatePortable(q.aggregates[j], unit)
    ensures TargetValue(q, Sql.SqlDialect(sql), unit, target) ==
      TargetValue(q, Mongo.MongoDialect(mongo, policy), unit, target)
  {
    hide FiltersPortable, FoldsAlike, SortsAlike, AggregatePortable, Sql.AggregateValue, Mongo.AggregateValue;
    var i := AliasIndex(q.aggregates, target);
    if target !in q.columns && i < |q.aggregates| {
      AggregateAgreesIff(sql, mongo, q.aggregates[i], unit);
    }
  }

  // At most one order target, and that a selected column.
  predicate OrdersByColumn(q: Query) {
    |q.orderBy| <= 1 && forall i :: 0 <= i < |q.orderBy| ==> q.orderBy[i].target in q.columns
  }

  /** For queries that are ordered by a column, or not at all, that is the exact condition: the
      answers are the same if and only if it is not an aggregation of nothing, the order target
      is not mixed, and the aggregates of the groups shown are portable. */
  lemma AnswersAgreeIff(sql: Sql.Engine, mongo: Mongo.Engine, policy: Mongo.Policy, q: Query, table: seq<Row>)
    requires Comparable(sql, mongo, policy, q) && OrdersByColumn(q)
    ensures Answer(q, Sql.SqlDialect(sql), table) == Answer(q, Mongo.MongoDialect(mongo, policy), table)
       <==> && !AggregatesNothing(sql, q, table)
            && NoneMixed(q, Sql.SqlDialect(sql), Units(q, Sql.SqlDialect(sql), table))
            && AggregatesPortable(q, Mongo.AnsweredUnits(q, Sql.SqlDialect(sql), table))
  {
    hide FiltersPortable, FoldsAlike, SortsAlike, Mixed, Units, AggregatesPortable, Answer, AggregatesNothing,
      Mongo.AnsweredUnits;
    var s, m := Sql.SqlDialect(sql), Mongo.MongoDialect(mongo, policy);
    AnswerSizesAgreeIff(sql, mongo, policy, q, table);
    if !AggregatesNothing(sql, q, table) {
      if NoneMixed(q, s, Units(q, s, table)) {
        ColumnsAgree(q, s, m, Units(q, s, table));
        SameUnitsAgreeIff(sql, mongo, policy, q, table);
      } else {
        MixedDiffer(sql, mongo, policy, q, table);
      }
    }
  }

  lemma ColumnsAgree(q: Query, s: Dialect, m: Dialect, units: seq<seq<Row>>)
    requires OrdersByColumn(q)
    ensures TargetsAgree(q, s, m, q.orderBy, units)
  {
  }

  // Is the group one with a value for the target, or, if not valued, one without?
  ghost function Leads(q: Query, d: Dialect, target: string, valued: bool): seq<Row> -> bool {
    unit => Sql.Nothing(TargetValue(q, d, unit, target)) != valued
  }

  // The first rows of the answers: one has a value for the target and the other has none.
  lemma MixedDiffer(sql: Sql.Engine, mongo: Mongo.Engine, policy: Mongo.Policy, q: Query, table: seq<Row>)
    requires Comparable(sql, mongo, policy, q) && OrdersByColumn(q) && !AggregatesNothing(sql, q, table)
    requires !NoneMixed(q, Sql.SqlDialect(sql), Units(q, Sql.SqlDialect(sql), table))
    ensures Answer(q, Sql.SqlDialect(sql), table) != Answer(q, Mongo.MongoDialect(mongo, policy), table)
  {
    hide FiltersPortable, FoldsAlike, Units, AggregatesNothing, Selection, Meeting;
    var s, m := Sql.SqlDialect(sql), Mongo.MongoDialect(mongo, policy);
    assert Selection(sql, q, table) == Kept(table, Meeting(m, q.filters)) by {
      SelectionsAgree(sql, mongo, policy, q, table);
    }
    UnitsAgree(sql, mongo, policy, q, table);
    var units, target := Units(q, s, table), q.orderBy[0].target;
    assert Mixed(q, s, units, target);
    HeadsDiffer(sql, mongo, policy, q, units);
    var j :| 0 <= j < |q.columns| && q.columns[j] == target;
    var x, y := SortWith(units, UnitOrder(q, s))[0], SortWith(units, UnitOrder(q, m))[0];
    FirstRow(q, s, table, j);
    FirstRow(q, m, table, j);
  }

  lemma FirstRow(q: Query, d: Dialect, table: seq<Row>, j: nat)
    requires Units(q, d, table) != [] && j < |q.columns|
    ensures var first := SortWith(Units(q, d, table), UnitOrder(q, d))[0];
            Answer(q, d, table) != [] && Answer(q, d, table)[0][j] == ColumnValue(first, q.columns[j])
  {
    hide Units, SortWith, UnitOrder;
  }

  lemma HeadsDiffer(sql: Sql.Engine, mongo: Mongo.Engine, policy: Mongo.Policy, q: Query, units: seq<seq<Row>>)
    requires SortsAlike(sql, mongo) && OrdersByColumn(q) && q.orderBy != []
    requires Mixed(q, Sql.SqlDialect(sql), units, q.orderBy[0].target)
    ensures units != []
    ensures var s, m, target := Sql.SqlDialect(sql), Mongo.MongoDialect(mongo, policy), q.orderBy[0].target;
      Sql.Nothing(ColumnValue(SortWith(units, UnitOrder(q, s))[0], target))
      != Sql.Nothing(ColumnValue(SortWith(units, UnitOrder(q, m))[0], target))
  {
    hide ColumnValue;
    var s, m, target := Sql.SqlDialect(sql), Mongo.MongoDialect(mongo, policy), q.orderBy[0].target;
    var ascending := q.orderBy[0].direction == Asc;
    assert q.orderBy[1..] == [];
    HeadIsFirst(units, UnitOrder(q, s), Leads(q, s, target, ascending));
    HeadIsFirst(units, UnitOrder(q, m), Leads(q, m, target, !ascending));
  }
}
