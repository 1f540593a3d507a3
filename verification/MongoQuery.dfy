/**
 The MongoDB query compiler: filters become a match document, aggregate queries a pipeline
 over positional names, and the result is read back by those names.
 */
module MongoQuery {
  import opened Wrappers
  import opened Json
  import opened Numerals
  import opened FieldTypes
  import opened Queries
  import opened ShownRows
  import opened SortSpecs
  import Escaping

  datatype Policy = Policy(columns: seq<string>, fieldTypes: map<string, FieldType>, filterColumns: seq<string>,
                           allowUnfiltered: bool)

  /** What the engine brings: how two present values relate, in which order values sort, what
      an accumulator makes of its inputs, letter case, reading numbers and dates, cells. */
  datatype Engine = Engine(relates: (Operator, Value, Value) -> bool, compare: (Value, Value) -> int,
                           fold: (AggregateFunction, seq<Value>) -> Value, letterCase: Escaping.Fold,
                           parse: (FieldType, string) -> Option<Value>, show: Value -> Json)

  // ---------------------------------------------------------------- validation

  function AggregateError(q: Query, policy: Policy, a: Aggregate): Option<QueryError> {
    var fieldType := if a.column.Some? && a.column.value in policy.fieldTypes then
      Some(policy.fieldTypes[a.column.value]) else None;
    if a.alias in q.columns then Some(InvalidAggregate)
    else if a.kind != Count && a.column.None? then Some(InvalidAggregate)
    else if a.column.Some? && a.column.value !in policy.columns then Some(UnknownColumn)
    else if a.kind in {Sum, Avg} && fieldType != Some(NumberField) then Some(InvalidAggregate)
    else if a.kind in {Min, Max} && fieldType == Some(BooleanField) then Some(InvalidAggregate)
    else None
  }

  function FirstAggregateError(q: Query, policy: Policy, aggregates: seq<Aggregate>): Option<QueryError> {
    if aggregates == [] then None else
    var error := AggregateError(q, policy, aggregates[0]);
    if error.Some? then error else FirstAggregateError(q, policy, aggregates[1..])
  }

  function FilterColumns(q: Query): seq<string> {
    seq(|q.filters|, i requires 0 <= i < |q.filters| => q.filters[i].column)
  }

  // validateQuery: the first complaint.
  function ValidateQuery(q: Query, policy: Policy): Option<QueryError> {
    var approved := set c | c in policy.columns;
    if q.columns == [] && q.aggregates == [] then Some(InvalidQuery)
    else if !Unique(q.columns) || !Unique(q.groupBy) || !Unique(Aliases(q)) then Some(InvalidQuery)
    else if !AllIn(q.columns + q.groupBy + FilterColumns(q), approved) then Some(UnknownColumn)
    else if FirstAggregateError(q, policy, q.aggregates).Some? then FirstAggregateError(q, policy, q.aggregates)
    else if q.aggregates != [] && !AllIn(q.columns, set c | c in q.groupBy) then Some(InvalidGroup)
    else if q.aggregates == [] && q.groupBy != [] then Some(InvalidGroup)
    else if !AllIn(Targets(q), set t | t in q.columns + Aliases(q)) then Some(InvalidOrder)
    else if !policy.allowUnfiltered && !HasBoundedFilter(q.filters, policy.filterColumns) then Some(FilterRequired)
    else None
  }

  predicate AggregatesFit(q: Query, policy: Policy) {
    forall i :: 0 <= i < |q.aggregates| ==> AggregateFits(policy, q.aggregates[i])
  }

  predicate AggregateFits(policy: Policy, a: Aggregate) {
    match a.kind
    case Count => true
    case Sum | Avg => a.column.Some? && a.column.value in policy.fieldTypes &&
        policy.fieldTypes[a.column.value] == NumberField
    case Min | Max => a.column.Some? && (a.column.value in policy.fieldTypes ==>
      policy.fieldTypes[a.column.value] != BooleanField)
  }

  predicate Accepted(q: Query, policy: Policy) {
    && NamesHold(q, set c | c in policy.columns) && AggregatesFit(q, policy)
    && (policy.allowUnfiltered || HasBoundedFilter(q.filters, policy.filterColumns))
  }

  lemma {:induction false} FirstAggregateErrorIff(q: Query, policy: Policy, aggregates: seq<Aggregate>)
    ensures FirstAggregateError(q, policy, aggregates).None?
       <==> forall i :: 0 <= i < |aggregates| ==> AggregateError(q, policy, aggregates[i]).None?
  {
    if aggregates != [] {
      FirstAggregateErrorIff(q, policy, aggregates[1..]);
      assert aggregates == [aggregates[0]] + aggregates[1..];
    }
  }

  // No complaint: every name resolves and every aggregate fits its field.
  lemma ValidateAccepts(q: Query, policy: Policy)
    ensures ValidateQuery(q, policy).None? <==> Accepted(q, policy)
  {
    hide Unique, HasBoundedFilter;
    FirstAggregateErrorIff(q, policy, q.aggregates);
    var names, approved := q.columns + q.groupBy + FilterColumns(q), set c | c in policy.columns;
    var n, m := |q.columns|, |q.columns| + |q.groupBy|;
    assert forall i :: 0 <= i < n ==> names[i] == q.columns[i];
    assert forall i :: 0 <= i < |q.groupBy| ==> names[n + i] == q.groupBy[i];
    assert forall i :: 0 <= i < |q.filters| ==> names[m + i] == q.filters[i].column;
    assert AllIn(names, approved) <==>
      AllIn(q.columns, approved) && AllIn(q.groupBy, approved) && AllIn(FilterColumns(q), approved);
  }

  // ---------------------------------------------------------------- filters

  // coerceValue; None where it throws
  function Coerce(e: Engine, fieldType: FieldType, raw: string): Option<Value> {
    match fieldType
    case NumberField | DateField => e.parse(fieldType, raw)
    case BooleanField =>
      if raw == "true" then Some(Truth(true)) else if raw == "false" then Some(Truth(false)) else None
    case StringField => Some(Text(Sanitize(raw)))
  }

  function CoerceAll(e: Engine, fieldType: FieldType, raws: seq<string>): (r: Option<seq<Value>>)
    ensures r.Some? <==> forall i :: 0 <= i < |raws| ==> Coerce(e, fieldType, raws[i]).Some?
    ensures r.Some? ==> |r.value| == |raws| && forall i :: 0 <= i < |raws| ==>
      Coerce(e, fieldType, raws[i]) == Some(r.value[i])
  {
    if raws == [] then Some([]) else
    var head, tail := Coerce(e, fieldType, raws[0]), CoerceAll(e, fieldType, raws[1..]);
    assert raws == [raws[0]] + raws[1..];
    if head.Some? && tail.Some? then Some([head.value] + tail.value) else None
  }

  datatype Clause =
    | Is(field: string, value: Value)
    | IsNot(field: string, value: Value)
    | Ranges(field: string, operator: Operator, value: Value)
    | Regex(field: string, pattern: string)
    | OneOf(field: string, values: seq<Value>)
    | NullOrAbsent(field: string)
    | PresentNotNull(field: string)

  datatype MatchFilter = Everything | Single(clause: Clause) | And(clauses: seq<Clause>)

  predicate Related(e: Engine, operator: Operator, v: Value, w: Value) {
    !v.Absent? && !v.Null? && e.relates(operator, v, w)
  }

  // MongoDB's meaning of one clause; expressions ignore case.
  predicate Holds(e: Engine, clause: Clause, doc: Row) {
    var v := Lookup(doc, clause.field);
    match clause
    case Is(_, w) => Related(e, Eq, v, w)
    case IsNot(_, w) => !Related(e, Eq, v, w)
    case Ranges(_, operator, w) => Related(e, operator, v, w)
    case Regex(_, pattern) =>
      var atoms := Escaping.ParseRegex(pattern);
      v.Text? && atoms.Some? && Escaping.Finds(e.letterCase, atoms.value, v.s)
    case OneOf(_, ws) => exists i :: 0 <= i < |ws| && Related(e, Eq, v, ws[i])
    case NullOrAbsent(_) => v.Null? || v.Absent?
    case PresentNotNull(_) => !v.Null? && !v.Absent?
  }

  predicate Selects(e: Engine, filter: MatchFilter, doc: Row) {
    match filter
    case Everything => true
    case Single(clause) => Holds(e, clause, doc)
    case And(clauses) => forall i :: 0 <= i < |clauses| ==> Holds(e, clauses[i], doc)
  }

  function TypeOf(policy: Policy, field: string): FieldType {
    if field in policy.fieldTypes then policy.fieldTypes[field] else StringField
  }

  // A filter compileFilter does not reject.
  predicate FilterFits(e: Engine, policy: Policy, filter: Filter) {
    var fieldType := TypeOf(policy, filter.column);
    && OperandsHold(filter, fieldType == StringField)
    && (filter.value.Some? ==> Coerce(e, fieldType, filter.value.value).Some?)
    && (filter.operator == In ==> CoerceAll(e, fieldType, filter.values).Some?)
  }

  function Operand(e: Engine, policy: Policy, filter: Filter): Value
    requires FilterFits(e, policy, filter) && filter.value.Some?
  {
    Coerce(e, TypeOf(policy, filter.column), filter.value.value).value
  }

  // What the text of a filter stands for.
  lemma OperandStandsFor(e: Engine, policy: Policy, filter: Filter)
    requires FilterFits(e, policy, filter) && filter.value.Some?
    ensures var raw, operand := filter.value.value, Operand(e, policy, filter);
      if filter.column !in policy.fieldTypes then operand.Text? && SanitizedTo(raw, operand.s) else
      match policy.fieldTypes[filter.column]
      case BooleanField => operand.Truth? && raw == if operand.b then "true" else "false"
      case StringField => operand.Text? && SanitizedTo(raw, operand.s)
      case NumberField => e.parse(NumberField, raw) == Some(operand)
      case DateField => e.parse(DateField, raw) == Some(operand)
  {
    hide Sanitize, SanitizedTo;
    SanitizeIs(filter.value.value);
  }

  // What a filter asks of a document.
  ghost predicate Meets(e: Engine, policy: Policy, filter: Filter, doc: Row) {
    var v, fieldType := Lookup(doc, filter.column), TypeOf(policy, filter.column);
    if !FilterFits(e, policy, filter) then false else
    match filter.operator
    case IsNull => v.Null? || v.Absent?
    case IsNotNull => !v.Null? && !v.Absent?
    case In => exists i :: 0 <= i < |filter.values| && Related(e, Eq, v, Coerce(e, fieldType, filter.values[i]).value)
    case Ne => !Related(e, Eq, v, Operand(e, policy, filter))
    case Contains => v.Text? && Escaping.Contains(e.letterCase, v.s, Sanitize(filter.value.value))
    case StartsWith => v.Text? && Escaping.StartsWith(e.letterCase, v.s, Sanitize(filter.value.value))
    case Eq | Lt | Lte | Gt | Gte => Related(e, filter.operator, v, Operand(e, policy, filter))
  }

  // The clause for one filter.
  function ClauseOf(e: Engine, policy: Policy, filter: Filter): Clause
    requires FilterFits(e, policy, filter)
  {
    match filter.operator
    case IsNull => NullOrAbsent(filter.column)
    case IsNotNull => PresentNotNull(filter.column)
    case In => OneOf(filter.column, CoerceAll(e, TypeOf(policy, filter.column), filter.values).value)
    case Eq => Is(filter.column, Operand(e, policy, filter))
    case Ne => IsNot(filter.column, Operand(e, policy, filter))
    case Contains => Regex(filter.column, Escaping.EscapeRegex(Operand(e, policy, filter).s))
    case StartsWith => Regex(filter.column, "^" + Escaping.EscapeRegex(Operand(e, policy, filter).s))
    case Lt | Lte | Gt | Gte => Ranges(filter.column, filter.operator, Operand(e, policy, filter))
  }

  // A clause holds of the documents that meet its filter.
  lemma ClauseMeansFilter(e: Engine, policy: Policy, filter: Filter, doc: Row)
    requires FilterFits(e, policy, filter)
    ensures Holds(e, ClauseOf(e, policy, filter), doc) <==> Meets(e, policy, filter, doc)
  {
    hide Escaping.EscapeRegex, Sanitize;
    var v, fieldType := Lookup(doc, filter.column), TypeOf(policy, filter.column);
    if filter.operator == Contains && v.Text? {
      Escaping.ContainsRegex(e.letterCase, v.s, Sanitize(filter.value.value));
    } else if filter.operator == StartsWith && v.Text? {
      Escaping.StartsWithRegex(e.letterCase, v.s, Sanitize(filter.value.value));
    } else if filter.operator == In {
      var ws := CoerceAll(e, fieldType, filter.values).value;
      assert forall i :: 0 <= i < |ws| ==> ws[i] == Coerce(e, fieldType, filter.values[i]).value;
    }
  }

  ghost function Aggregated(e: Engine): (Aggregate, seq<Row>) -> Value {
    (a, unit) => AggregateValue(e, a, unit)
  }

  // count counts documents whether or not it names a field.
  function AggregateValue(e: Engine, a: Aggregate, unit: seq<Row>): Value {
    if a.kind == Count then Number(|unit| as real)
    else e.fold(a.kind, FieldValues(unit, a.column))
  }

  function FieldValues(unit: seq<Row>, field: Option<string>): seq<Value> {
    seq(|unit|, i requires 0 <= i < |unit| => if field.Some? then Lookup(unit[i], field.value) else Number(1.0))
  }

  ghost function MongoDialect(e: Engine, policy: Policy): Dialect {
    Dialect((filter, doc) => Meets(e, policy, filter, doc), Aggregated(e), e.compare, false)
  }

  // compileFilter
  method CompileFilter(e: Engine, q: Query, policy: Policy) returns (r: Result<MatchFilter, QueryError>)
    ensures r.Ok? <==> forall i :: 0 <= i < |q.filters| ==> FilterFits(e, policy, q.filters[i])
    ensures r.Err? ==> r.error == InvalidFilter
    ensures r.Ok? ==> forall doc: Row :: Selects(e, r.value, doc) <==> MeetsAll(MongoDialect(e, policy), q.filters, doc)
  {
    hide FilterFits, Holds, Meets;
    var clauses: seq<Clause> := [];
    for k := 0 to |q.filters|
      invariant |clauses| == k
      invariant forall i :: 0 <= i < k ==>
        FilterFits(e, policy, q.filters[i]) && clauses[i] == ClauseOf(e, policy, q.filters[i])
    {
      if !FilterFits(e, policy, q.filters[k]) {
        return Err(InvalidFilter);
      }
      clauses := clauses + [ClauseOf(e, policy, q.filters[k])];
    }
    var filter := if |clauses| == 0 then Everything else if |clauses| == 1 then Single(clauses[0]) else And(clauses);
    forall doc: Row ensures Selects(e, filter, doc) <==> MeetsAll(MongoDialect(e, policy), q.filters, doc) {
      assert Selects(e, filter, doc) <==> forall i :: 0 <= i < |clauses| ==> Holds(e, clauses[i], doc);
      forall i | 0 <= i < |clauses|
        ensures Holds(e, clauses[i], doc) <==> MongoDialect(e, policy).meets(q.filters[i], doc)
      {
        ClauseMeansFilter(e, policy, q.filters[i], doc);
      }
    }
    return Ok(filter);
  }

  // ---------------------------------------------------------------- pipelines

  datatype Accumulator = CountDocuments | Accumulate(kind: AggregateFunction, field: Option<string>)

  // Field paths name a value directly: "a0", or "_id.g0" inside the group key.
  datatype Stage =
    | Match(filter: MatchFilter)
    | Group(keys: Entries<string>, accumulators: Entries<Accumulator>)
    | Project(fields: Entries<string>)
    | Sort(sortKeys: Entries<Direction>)
    | Limit(n: nat)

  function IdPath(name: string): string { "_id." + name }

  // The document with these fields; an absent value leaves its field out.
  function Fill(fields: Entries<Value>): Row {
    if fields == [] then map[] else
    var rest := Fill(fields[1..]);
    if fields[0].1.Absent? then rest else rest[fields[0].0 := fields[0].1]
  }

  function IdFields(keys: Entries<string>, doc: Row): (fields: Entries<Value>)
    ensures |fields| == |keys| && forall i :: 0 <= i < |keys| ==>
      fields[i] == (IdPath(keys[i].0), Lookup(doc, keys[i].1))
  {
    seq(|keys|, i requires 0 <= i < |keys| => (IdPath(keys[i].0), Lookup(doc, keys[i].1)))
  }

  function Accumulated(e: Engine, accumulator: Accumulator, docs: seq<Row>): Value {
    match accumulator
    case CountDocuments => Number(|docs| as real)
    case Accumulate(kind, field) => e.fold(kind, FieldValues(docs, field))
  }

  function AccumulatedFields(e: Engine, accumulators: Entries<Accumulator>, docs: seq<Row>): (fields: Entries<Value>)
    ensures |fields| == |accumulators|
    ensures forall i :: 0 <= i < |accumulators| ==>
      fields[i] == (accumulators[i].0, Accumulated(e, accumulators[i].1, docs))
  {
    seq(|accumulators|, i requires 0 <= i < |accumulators| =>
      (accumulators[i].0, Accumulated(e, accumulators[i].1, docs)))
  }

  function ProjectedFields(fields: Entries<string>, doc: Row): (projected: Entries<Value>)
    ensures |projected| == |fields| && forall i :: 0 <= i < |fields| ==>
      projected[i] == (fields[i].0, Lookup(doc, fields[i].1))
  {
    seq(|fields|, i requires 0 <= i < |fields| => (fields[i].0, Lookup(doc, fields[i].1)))
  }

  function GroupId(keys: Entries<string>): Row -> Row {
    doc => Fill(IdFields(keys, doc))
  }

  function GroupDocument(e: Engine, keys: Entries<string>, accumulators: Entries<Accumulator>): seq<Row> -> Row {
    docs => Fill((if docs == [] then [] else IdFields(keys, docs[0])) + AccumulatedFields(e, accumulators, docs))
  }

  function Projected(fields: Entries<string>): Row -> Row {
    doc => Fill(ProjectedFields(fields, doc))
  }

  function DocumentOrder(e: Engine, keys: Entries<Direction>): (Row, Row) -> int {
    (x, y) => CompareBy(e.compare, keys, x, y)
  }

  function Selecting(e: Engine, filter: MatchFilter): Row -> bool {
    doc => Selects(e, filter, doc)
  }

  function RunStage(e: Engine, stage: Stage, docs: seq<Row>): seq<Row> {
    match stage
    case Match(filter) => Kept(docs, Selecting(e, filter))
    case Group(keys, accumulators) => Each(GroupsBy(docs, GroupId(keys)), GroupDocument(e, keys, accumulators))
    case Project(fields) => Each(docs, Projected(fields))
    case Sort(keys) => SortWith(docs, DocumentOrder(e, keys))
    case Limit(n) => Take(docs, n)
  }

  function RunPipeline(e: Engine, stages: seq<Stage>, docs: seq<Row>): seq<Row>
    decreases |stages|
  {
    if stages == [] then docs else RunPipeline(e, stages[1..], RunStage(e, stages[0], docs))
  }

  // ---------------------------------------------------------------- the aggregate branch

  function G(i: nat): string { "g" + Decimal(i) }

  function C(i: nat): string { "c" + Decimal(i) }

  function A(i: nat): string { "a" + Decimal(i) }

  function IndexOf(s: seq<string>, x: string): (i: nat)
    ensures i <= |s| && (i < |s| <==> x in s) && (i < |s| ==> s[i] == x)
  {
    if s == [] || s[0] == x then 0 else 1 + IndexOf(s[1..], x)
  }

  function GroupKeys(q: Query): (keys: Entries<string>)
    ensures |keys| == |q.groupBy| && forall i :: 0 <= i < |keys| ==> keys[i] == (G(i), q.groupBy[i])
  {
    seq(|q.groupBy|, i requires 0 <= i < |q.groupBy| => (G(i), q.groupBy[i]))
  }

  function AccumulatorOf(a: Aggregate): Accumulator {
    if a.kind == Count then CountDocuments else Accumulate(a.kind, a.column)
  }

  function Accumulators(q: Query): (accumulators: Entries<Accumulator>)
    ensures |accumulators| == |q.aggregates|
    ensures forall i :: 0 <= i < |accumulators| ==> accumulators[i] == (A(i), AccumulatorOf(q.aggregates[i]))
  {
    seq(|q.aggregates|, i requires 0 <= i < |q.aggregates| => (A(i), AccumulatorOf(q.aggregates[i])))
  }

  // `$_id.g${group_by.indexOf(field)}`
  function GroupPath(q: Query, field: string): string {
    var i := IndexOf(q.groupBy, field);
    IdPath(if i < |q.groupBy| then G(i) else "g-1")
  }

  function Projection(q: Query): (fields: Entries<string>)
    ensures |fields| == |q.columns| + |q.aggregates|
    ensures forall i :: 0 <= i < |q.columns| ==> fields[i] == (C(i), GroupPath(q, q.columns[i]))
    ensures forall i :: |q.columns| <= i < |fields| ==> fields[i] == (A(i - |q.columns|), A(i - |q.columns|))
  {
    seq(|q.columns| + |q.aggregates|, i requires 0 <= i < |q.columns| + |q.aggregates| =>
      if i < |q.columns| then (C(i), GroupPath(q, q.columns[i])) else (A(i - |q.columns|), A(i - |q.columns|)))
  }

  // sortTargets.get(target); an alias entered later would replace a column.
  function SortName(q: Query, target: string): string {
    var j, i := AliasIndex(q.aggregates, target), IndexOf(q.columns, target);
    if j < |q.aggregates| then A(j) else if i < |q.columns| then C(i) else "undefined"
  }

  function SortEntries(q: Query, orders: seq<Order>): (entries: Entries<Direction>)
    ensures |entries| == |orders|
    ensures forall i :: 0 <= i < |orders| ==> entries[i] == (SortName(q, orders[i].target), orders[i].direction)
  {
    seq(|orders|, i requires 0 <= i < |orders| => (SortName(q, orders[i].target), orders[i].direction))
  }

  function Pipeline(q: Query, filter: MatchFilter): seq<Stage> {
    (if filter.Everything? then [] else [Match(filter)])
    + [Group(FromEntries(GroupKeys(q)), FromEntries(Accumulators(q))), Project(FromEntries(Projection(q)))]
    + (if q.orderBy == [] then [] else [Sort(FromEntries(SortEntries(q, q.orderBy)))])
    + [Limit(q.limit + 1)]
  }

  // row[`c${index}`], row[`a${index - columns.length}`]
  function Extracted(q: Query): Row -> seq<Value> {
    doc => ExtractedCells(q, doc)
  }

  function ExtractedCells(q: Query, doc: Row): (cells: seq<Value>)
    ensures |cells| == |q.columns| + |q.aggregates|
    ensures forall i :: 0 <= i < |q.columns| ==> cells[i] == Lookup(doc, C(i))
    ensures forall i :: |q.columns| <= i < |cells| ==> cells[i] == Lookup(doc, A(i - |q.columns|))
  {
    seq(|q.columns| + |q.aggregates|, i requires 0 <= i < |q.columns| + |q.aggregates| =>
      if i < |q.columns| then Lookup(doc, C(i)) else Lookup(doc, A(i - |q.columns|)))
  }

  // ---------------------------------------------------------------- names do not clash

  lemma {:induction false} FillLookup(fields: Entries<Value>, i: nat)
    requires DistinctKeys(fields) && i < |fields|
    ensures Lookup(Fill(fields), fields[i].0) == fields[i].1
  {
    if i > 0 {
      assert fields[1..][i - 1] == fields[i];
      FillLookup(fields[1..], i - 1);
    } else {
      forall j | 0 <= j < |fields[1..]| ensures fields[1..][j].0 != fields[0].0 {
        assert fields[1..][j] == fields[j + 1];
      }
      FillAbsent(fields[1..], fields[0].0);
    }
  }

  lemma {:induction false} FillAbsent(fields: Entries<Value>, name: string)
    requires forall j :: 0 <= j < |fields| ==> fields[j].0 != name
    ensures Lookup(Fill(fields), name) == Absent
  {
    if fields != [] {
      FillAbsent(fields[1..], name);
    }
  }

  lemma NamesDiffer(i: nat, j: nat)
    ensures i != j ==> G(i) != G(j) && C(i) != C(j) && A(i) != A(j) && IdPath(G(i)) != IdPath(G(j))
    ensures C(i) != A(j) && IdPath(G(i)) != A(j)
  {
    if Decimal(i) == Decimal(j) {
      DecimalInjective(i, j);
    } else {
      assert G(i)[1..] == Decimal(i) && G(j)[1..] == Decimal(j);
      assert C(i)[1..] == Decimal(i) && C(j)[1..] == Decimal(j);
      assert A(i)[1..] == Decimal(i) && A(j)[1..] == Decimal(j);
      assert IdPath(G(i))[4..] == G(i) && IdPath(G(j))[4..] == G(j);
    }
    assert C(i)[0] == 'c' && A(j)[0] == 'a' && IdPath(G(i))[0] == '_';
  }

  lemma PipelineNamesDistinct(q: Query)
    ensures DistinctKeys(GroupKeys(q)) && DistinctKeys(Accumulators(q)) && DistinctKeys(Projection(q))
  {
    hide G, C, A, IdPath;
    forall i, j | 0 <= i < j < |GroupKeys(q)| ensures GroupKeys(q)[i].0 != GroupKeys(q)[j].0 {
      NamesDiffer(i, j);
    }
    forall i, j | 0 <= i < j < |Accumulators(q)| ensures Accumulators(q)[i].0 != Accumulators(q)[j].0 {
      NamesDiffer(i, j);
    }
    var n := |q.columns|;
    forall i, j | 0 <= i < j < |Projection(q)| ensures Projection(q)[i].0 != Projection(q)[j].0 {
      if i >= n {
        NamesDiffer(i - n, j - n);
      } else if j >= n {
        NamesDiffer(i, j - n);
      } else {
        NamesDiffer(i, j);
      }
    }
  }

  lemma IdFieldsDistinct(q: Query, doc: Row)
    ensures DistinctKeys(IdFields(GroupKeys(q), doc))
  {
    hide G, C, A, IdPath;
    forall i, j | 0 <= i < j < |q.groupBy| ensures IdPath(G(i)) != IdPath(G(j)) {
      NamesDiffer(i, j);
    }
  }

  // Two documents share a group key exactly when they agree on the grouping fields.
  lemma GroupIdIsKey(q: Query, x: Row, y: Row)
    ensures GroupId(GroupKeys(q))(x) == GroupId(GroupKeys(q))(y) <==> ByKey(q.groupBy)(x) == ByKey(q.groupBy)(y)
  {
    hide G, C, A, IdPath, Fill;
    var kx, ky := Key(x, q.groupBy), Key(y, q.groupBy);
    var fx, fy := IdFields(GroupKeys(q), x), IdFields(GroupKeys(q), y);
    if kx == ky {
      forall i | 0 <= i < |fx| ensures fx[i] == fy[i] {
        assert kx[i] == ky[i];
      }
      assert fx == fy;
    }
    if Fill(fx) == Fill(fy) {
      IdFieldsDistinct(q, x);
      IdFieldsDistinct(q, y);
      forall i | 0 <= i < |kx| ensures kx[i] == ky[i] {
        FillLookup(fx, i);
        FillLookup(fy, i);
      }
    }
  }

  // The document a unit becomes after grouping, and after projection.
  function GroupedUnit(e: Engine, q: Query, unit: seq<Row>): Row {
    GroupDocument(e, GroupKeys(q), Accumulators(q))(unit)
  }

  function DocumentOf(e: Engine, q: Query, unit: seq<Row>): Row {
    Fill(ProjectedFields(Projection(q), GroupedUnit(e, q, unit)))
  }

  function UnitDocument(e: Engine, q: Query): seq<Row> -> Row {
    unit => DocumentOf(e, q, unit)
  }

  function GroupedFields(e: Engine, q: Query, unit: seq<Row>): (fields: Entries<Value>)
    requires unit != []
    ensures |fields| == |q.groupBy| + |q.aggregates|
    ensures forall i :: 0 <= i < |q.groupBy| ==> fields[i] == (IdPath(G(i)), Lookup(unit[0], q.groupBy[i]))
    ensures forall i :: |q.groupBy| <= i < |fields| ==>
      fields[i] == (A(i - |q.groupBy|), Accumulated(e, AccumulatorOf(q.aggregates[i - |q.groupBy|]), unit))
    ensures GroupedUnit(e, q, unit) == Fill(fields)
  {
    IdFields(GroupKeys(q), unit[0]) + AccumulatedFields(e, Accumulators(q), unit)
  }

  lemma GroupedFieldsDistinct(e: Engine, q: Query, unit: seq<Row>)
    requires unit != []
    ensures DistinctKeys(GroupedFields(e, q, unit))
  {
    hide G, C, A, IdPath, GroupedFields, Accumulated, AccumulatorOf, Lookup, Fill, GroupedUnit;
    NamedFieldsDistinct(GroupedFields(e, q, unit), |q.groupBy|);
  }

  lemma NamedFieldsDistinct<V>(fields: Entries<V>, n: nat)
    requires n <= |fields| && forall i :: 0 <= i < n ==> fields[i].0 == IdPath(G(i))
    requires forall i :: n <= i < |fields| ==> fields[i].0 == A(i - n)
    ensures DistinctKeys(fields)
  {
    hide G, C, A, IdPath;
    forall i, j | 0 <= i < j < |fields| ensures fields[i].0 != fields[j].0 {
      if i >= n {
        NamesDiffer(i - n, j - n);
      } else if j >= n {
        NamesDiffer(i, j - n);
      } else {
        NamesDiffer(i, j);
      }
    }
  }

  // c_i holds the i-th selected column.
  lemma ColumnByName(e: Engine, q: Query, unit: seq<Row>, i: nat)
    requires unit != [] && i < |q.columns| && q.columns[i] in q.groupBy
    ensures Lookup(DocumentOf(e, q, unit), C(i)) == ColumnValue(unit, q.columns[i])
  {
    hide G, C, A, IdPath, Fill, GroupedFields, Projection, GroupedUnit;
    var fields, g := GroupedFields(e, q, unit), IndexOf(q.groupBy, q.columns[i]);
    GroupedFieldsDistinct(e, q, unit);
    FillLookup(fields, g);
    ProjectedByName(e, q, unit, i);
    assert Projection(q)[i] == (C(i), IdPath(G(g)));
  }

  // a_i holds the i-th aggregate.
  lemma AggregateByName(e: Engine, q: Query, unit: seq<Row>, i: nat)
    requires unit != [] && i < |q.aggregates|
    ensures Lookup(DocumentOf(e, q, unit), A(i)) == AggregateValue(e, q.aggregates[i], unit)
  {
    hide G, C, A, IdPath, Fill, GroupedFields, Projection, GroupedUnit;
    var fields, n := GroupedFields(e, q, unit), |q.groupBy|;
    GroupedFieldsDistinct(e, q, unit);
    FillLookup(fields, n + i);
    ProjectedByName(e, q, unit, |q.columns| + i);
    assert fields[n + i].0 == A(i);
    assert Projection(q)[|q.columns| + i] == (A(i), A(i));
  }

  lemma ProjectedByName(e: Engine, q: Query, unit: seq<Row>, i: nat)
    requires i < |Projection(q)|
    ensures Lookup(DocumentOf(e, q, unit), Projection(q)[i].0) == Lookup(GroupedUnit(e, q, unit), Projection(q)[i].1)
  {
    hide G, C, A, IdPath, Fill, GroupedFields, Projection, GroupedUnit;
    PipelineNamesDistinct(q);
    var fields := ProjectedFields(Projection(q), GroupedUnit(e, q, unit));
    FillLookup(fields, i);
  }

  // ---------------------------------------------------------------- the pipeline means the query

  function TargetEntries(orders: seq<Order>): (entries: Entries<Direction>)
    ensures |entries| == |orders|
    ensures forall i :: 0 <= i < |orders| ==> entries[i] == (orders[i].target, orders[i].direction)
  {
    seq(|orders|, i requires 0 <= i < |orders| => (orders[i].target, orders[i].direction))
  }

  predicate Selected(q: Query, target: string) {
    target in q.columns || target in Aliases(q)
  }

  lemma SelectedTargets(q: Query, target: string)
    requires forall i :: 0 <= i < |q.aggregates| ==> q.aggregates[i].alias !in q.columns
    requires Selected(q, target)
    ensures if target in q.columns then
              var i := IndexOf(q.columns, target); i < |q.columns| && SortName(q, target) == C(i)
            else
              var j := AliasIndex(q.aggregates, target); j < |q.aggregates| && SortName(q, target) == A(j)
  {
    hide C, A;
    if target !in q.columns {
      var j :| 0 <= j < |Aliases(q)| && Aliases(q)[j] == target;
      assert q.aggregates[j].alias == target;
    }
  }

  // A sort name stands for one target.
  lemma SortNameInjective(q: Query, s: string, t: string)
    requires forall i :: 0 <= i < |q.aggregates| ==> q.aggregates[i].alias !in q.columns
    requires Selected(q, s) && Selected(q, t)
    ensures SortName(q, s) == SortName(q, t) <==> s == t
  {
    hide C, A, SortName;
    SelectedTargets(q, s);
    SelectedTargets(q, t);
    NamesDiffer(IndexOf(q.columns, s), IndexOf(q.columns, t));
    NamesDiffer(AliasIndex(q.aggregates, s), AliasIndex(q.aggregates, t));
    NamesDiffer(IndexOf(q.columns, s), AliasIndex(q.aggregates, t));
    NamesDiffer(IndexOf(q.columns, t), AliasIndex(q.aggregates, s));
  }

  // The named field holds the value of the target.
  lemma TargetByName(e: Engine, policy: Policy, q: Query, unit: seq<Row>, target: string)
    requires NamesHold(q, set c | c in policy.columns) && q.aggregates != [] && unit != [] && Selected(q, target)
    ensures Lookup(DocumentOf(e, q, unit), SortName(q, target)) == TargetValue(q, MongoDialect(e, policy), unit, target)
  {
    hide C, A, SortName, DocumentOf, Unique;
    SelectedTargets(q, target);
    if target in q.columns {
      ColumnByName(e, q, unit, IndexOf(q.columns, target));
    } else {
      AggregateByName(e, q, unit, AliasIndex(q.aggregates, target));
    }
  }

  lemma {:induction false} SortsAlike(e: Engine, policy: Policy, q: Query, orders: seq<Order>, x: seq<Row>, y: seq<Row>)
    requires NamesHold(q, set c | c in policy.columns) && q.aggregates != [] && x != [] && y != []
    requires forall i :: 0 <= i < |orders| ==> Selected(q, orders[i].target)
    ensures CompareBy(e.compare, SortEntries(q, orders), DocumentOf(e, q, x), DocumentOf(e, q, y))
         == CompareUnits(q, MongoDialect(e, policy), orders, x, y)
    decreases |orders|
  {
    hide SortName, DocumentOf, NamesHold, TargetValue, Selected;
    if orders != [] {
      TargetByName(e, policy, q, x, orders[0].target);
      TargetByName(e, policy, q, y, orders[0].target);
      assert SortEntries(q, orders)[1..] == SortEntries(q, orders[1..]);
      SortsAlike(e, policy, q, orders[1..], x, y);
    }
  }

  // The sort document orders documents as the query orders its units.
  lemma SortDocumentMeansOrder(e: Engine, policy: Policy, q: Query, x: seq<Row>, y: seq<Row>)
    requires NamesHold(q, set c | c in policy.columns) && q.aggregates != [] && x != [] && y != []
    requires Settled(TargetEntries(q.orderBy))
    ensures DocumentOrder(e, FromEntries(SortEntries(q, q.orderBy)))(UnitDocument(e, q)(x), UnitDocument(e, q)(y))
         == UnitOrder(q, MongoDialect(e, policy))(x, y)
  {
    hide SortName, DocumentOf, CompareBy, CompareUnits, FromEntries, Settled, Unique;
    var entries, targets := SortEntries(q, q.orderBy), TargetEntries(q.orderBy);
    forall i, j | 0 <= i < j < |entries| ensures targets[i].0 == targets[j].0 <==> entries[i].0 == entries[j].0 {
      SortNameInjective(q, q.orderBy[i].target, q.orderBy[j].target);
    }
    SettledRenamed(targets, entries);
    CollapseSortsAlike(e.compare, entries, DocumentOf(e, q, x), DocumentOf(e, q, y));
    SortsAlike(e, policy, q, q.orderBy, x, y);
  }

  lemma {:induction false} RunConcat(e: Engine, a: seq<Stage>, b: seq<Stage>, docs: seq<Row>)
    ensures RunPipeline(e, a + b, docs) == RunPipeline(e, b, RunPipeline(e, a, docs))
    decreases |a|
  {
    if a == [] {
      assert a + b == b;
    } else {
      assert (a + b)[1..] == a[1..] + b;
      RunConcat(e, a[1..], b, RunStage(e, a[0], docs));
    }
  }

  lemma RunOne(e: Engine, stage: Stage, docs: seq<Row>)
    ensures RunPipeline(e, [stage], docs) == RunStage(e, stage, docs)
  {
  }

  // The stages one after the other.
  lemma PipelineRun(e: Engine, q: Query, filter: MatchFilter, docs: seq<Row>)
    ensures RunPipeline(e, Pipeline(q, filter), docs)
         == (var kept := if filter.Everything? then docs else RunStage(e, Match(filter), docs);
             var grouped := RunStage(e, Group(FromEntries(GroupKeys(q)), FromEntries(Accumulators(q))), kept);
             var projected := RunStage(e, Project(FromEntries(Projection(q))), grouped);
             var sorted := if q.orderBy == [] then projected
                           else RunStage(e, Sort(FromEntries(SortEntries(q, q.orderBy))), projected);
             Take(sorted, q.limit + 1))
  {
    hide RunStage, FromEntries;
    var first := if filter.Everything? then [] else [Match(filter)];
    var group := Group(FromEntries(GroupKeys(q)), FromEntries(Accumulators(q)));
    var project := Project(FromEntries(Projection(q)));
    var fourth := if q.orderBy == [] then [] else [Sort(FromEntries(SortEntries(q, q.orderBy)))];
    var d1 := RunPipeline(e, first, docs);
    var d2 := RunStage(e, group, d1);
    var d3 := RunStage(e, project, d2);
    RunConcat(e, first + [group, project] + fourth, [Limit(q.limit + 1)], docs);
    RunConcat(e, first + [group, project], fourth, docs);
    RunConcat(e, first, [group, project], docs);
    assert [group, project] == [group] + [project];
    RunConcat(e, [group], [project], d1);
    RunOne(e, group, d1);
    RunOne(e, project, d2);
    if q.orderBy != [] {
      RunOne(e, fourth[0], d3);
    }
    RunOne(e, Limit(q.limit + 1), RunPipeline(e, fourth, d3));
    LimitTakes(e, q.limit + 1, RunPipeline(e, fourth, d3));
  }

  lemma LimitTakes(e: Engine, n: nat, docs: seq<Row>)
    ensures RunStage(e, Limit(n), docs) == Take(docs, n)
  {
  }

  ghost predicate FilterMeans(e: Engine, policy: Policy, q: Query, filter: MatchFilter) {
    forall doc: Row :: Selects(e, filter, doc) <==> MeetsAll(MongoDialect(e, policy), q.filters, doc)
  }

  lemma MatchKeeps(e: Engine, policy: Policy, q: Query, filter: MatchFilter, docs: seq<Row>)
    requires FilterMeans(e, policy, q, filter)
    ensures (if filter.Everything? then docs else RunStage(e, Match(filter), docs))
         == Kept(docs, Meeting(MongoDialect(e, policy), q.filters))
  {
    hide Selects, MeetsAll;
    var d := MongoDialect(e, policy);
    forall doc: Row ensures Selecting(e, filter)(doc) == Meeting(d, q.filters)(doc) {
    }
    KeptAgree(docs, Selecting(e, filter), Meeting(d, q.filters));
    if filter.Everything? {
      forall doc: Row ensures Selecting(e, filter)(doc) {
        EverythingSelects(e, doc);
      }
      KeptAll(docs, Selecting(e, filter));
    }
  }

  lemma EverythingSelects(e: Engine, doc: Row)
    ensures Selects(e, Everything, doc)
  {
  }

  lemma GroupsAreByKey(q: Query, rows: seq<Row>)
    ensures GroupsBy(rows, GroupId(GroupKeys(q))) == GroupsBy(rows, ByKey(q.groupBy))
  {
    hide GroupsBy, GroupId, ByKey;
    forall x, y | x in rows && y in rows
      ensures GroupId(GroupKeys(q))(x) == GroupId(GroupKeys(q))(y) <==> ByKey(q.groupBy)(x) == ByKey(q.groupBy)(y)
    {
      GroupIdIsKey(q, x, y);
    }
    GroupsAgree(rows, GroupId(GroupKeys(q)), ByKey(q.groupBy));
  }

  // Grouping and projection turn the units into their documents.
  lemma GroupsBecomeDocuments(e: Engine, q: Query, kept: seq<Row>)
    ensures RunStage(e, Project(FromEntries(Projection(q))),
              RunStage(e, Group(FromEntries(GroupKeys(q)), FromEntries(Accumulators(q))), kept))
         == Each(GroupsBy(kept, ByKey(q.groupBy)), UnitDocument(e, q))
  {
    hide Fill, DistinctKeys, GroupsBy, GroupId, ByKey, Each, FromEntries;
    PipelineNamesDistinct(q);
    FromDistinct(GroupKeys(q));
    FromDistinct(Accumulators(q));
    FromDistinct(Projection(q));
    GroupsAreByKey(q, kept);
    var group, project := GroupDocument(e, GroupKeys(q), Accumulators(q)), Projected(Projection(q));
    forall unit: seq<Row> ensures project(group(unit)) == UnitDocument(e, q)(unit) {
      DocumentSteps(e, q, unit);
    }
    EachEach(GroupsBy(kept, ByKey(q.groupBy)), group, project, UnitDocument(e, q));
  }

  lemma DocumentSteps(e: Engine, q: Query, unit: seq<Row>)
    ensures Projected(Projection(q))(GroupDocument(e, GroupKeys(q), Accumulators(q))(unit)) == UnitDocument(e, q)(unit)
  {
    hide Fill;
  }

  lemma CellsByName(e: Engine, policy: Policy, q: Query, unit: seq<Row>)
    requires NamesHold(q, set c | c in policy.columns) && q.aggregates != [] && unit != []
    ensures Extracted(q)(UnitDocument(e, q)(unit)) == Cells(q, MongoDialect(e, policy))(unit)
  {
    hide C, A, DocumentOf, AggregateValue, ColumnValue, Lookup, Unique, UnitCells, ExtractedCells;
    var d, doc, n := MongoDialect(e, policy), DocumentOf(e, q, unit), |q.columns|;
    forall i | 0 <= i < n + |q.aggregates| ensures ExtractedCells(q, doc)[i] == UnitCells(q, d, unit)[i] {
      if i < n {
        ColumnByName(e, q, unit, i);
      } else {
        AggregateByName(e, q, unit, i - n);
      }
    }
    assert ExtractedCells(q, doc) == UnitCells(q, d, unit);
  }

  /** The pipeline over positional names, read back by name, answers the query, unless an
      order target is repeated and ends with another direction than it began with. */
  lemma PipelineMeansQuery(e: Engine, policy: Policy, q: Query, filter: MatchFilter, docs: seq<Row>)
    requires Accepted(q, policy) && q.aggregates != [] && FilterMeans(e, policy, q, filter)
    requires Settled(TargetEntries(q.orderBy))
    ensures Each(RunPipeline(e, Pipeline(q, filter), docs), Extracted(q)) == Answer(q, MongoDialect(e, policy), docs)
  {
    hide RunPipeline, Pipeline, GroupsBy, SortWith, Each, Kept, Take, NamesHold, AggregatesFit, HasBoundedFilter,
      FilterMeans,
      Settled, UnitOrder, UnitDocument, Units, Extracted, Cells, Meeting, ByKey;
    var d, n := MongoDialect(e, policy), q.limit + 1;
    var kept := Kept(docs, Meeting(d, q.filters));
    var units := GroupsBy(kept, ByKey(q.groupBy));
    UnitsAreGroups(e, policy, q, docs);
    UnitsHaveRows(kept, ByKey(q.groupBy));
    PipelineDocuments(e, policy, q, filter, docs, kept, units);
    CellsExtracted(e, policy, q, units, n);
  }

  lemma UnitsAreGroups(e: Engine, policy: Policy, q: Query, docs: seq<Row>)
    requires q.aggregates != []
    ensures Units(q, MongoDialect(e, policy), docs)
         == GroupsBy(Kept(docs, Meeting(MongoDialect(e, policy), q.filters)), ByKey(q.groupBy))
  {
    hide GroupsBy, Kept, Meeting, ByKey;
  }

  // The documents that leave the pipeline are those of the first sorted units.
  lemma PipelineDocuments(e: Engine, policy: Policy, q: Query, filter: MatchFilter, docs: seq<Row>,
                                             kept: seq<Row>, units: seq<seq<Row>>)
    requires NamesHold(q, set c | c in policy.columns) && q.aggregates != [] && FilterMeans(e, policy, q, filter)
    requires Settled(TargetEntries(q.orderBy))
    requires kept == Kept(docs, Meeting(MongoDialect(e, policy), q.filters)) &&
      units == GroupsBy(kept, ByKey(q.groupBy))
    ensures RunPipeline(e, Pipeline(q, filter), docs)
         == Each(Take(SortWith(units, UnitOrder(q, MongoDialect(e, policy))), q.limit + 1), UnitDocument(e, q))
  {
    hide RunStage, RunPipeline, Pipeline, FromEntries, Settled, GroupsBy, SortWith, Each, Kept, Take, FilterMeans,
      NamesHold;
    PipelineRun(e, q, filter, docs);
    MatchKeeps(e, policy, q, filter, docs);
    GroupsBecomeDocuments(e, q, kept);
    UnitsHaveRows(kept, ByKey(q.groupBy));
    UnitsSort(e, policy, q, units);
    TakeEach(SortWith(units, UnitOrder(q, MongoDialect(e, policy))), UnitDocument(e, q), q.limit + 1);
  }

  lemma CellsExtracted(e: Engine, policy: Policy, q: Query, units: seq<seq<Row>>, n: nat)
    requires NamesHold(q, set c | c in policy.columns) && q.aggregates != []
    requires forall unit :: unit in units ==> unit != []
    ensures var taken := Take(SortWith(units, UnitOrder(q, MongoDialect(e, policy))), n);
            Each(Each(taken, UnitDocument(e, q)), Extracted(q)) == Each(taken, Cells(q, MongoDialect(e, policy)))
  {
    hide SortWith, Each, Take, NamesHold, UnitDocument, Extracted, Cells, UnitOrder;
    var d, f := MongoDialect(e, policy), UnitDocument(e, q);
    var sorted := SortWith(units, UnitOrder(q, d));
    TakeEach(sorted, f, n);
    forall unit | unit in Take(sorted, n) ensures Extracted(q)(f(unit)) == Cells(q, d)(unit) {
      SortHas(units, UnitOrder(q, d), unit);
      CellsByName(e, policy, q, unit);
    }
    EachEach(Take(sorted, n), f, Extracted(q), Cells(q, d));
  }

  lemma UnitsHaveRows<K>(rows: seq<Row>, key: Row -> K)
    ensures forall unit :: unit in GroupsBy(rows, key) ==> unit != []
  {
    forall i | 0 <= i < |GroupsBy(rows, key)| ensures GroupsBy(rows, key)[i] != [] {
      GroupsShareKey(rows, key, i);
    }
  }

  // The optional sort stage puts the documents in the order of their units.
  lemma UnitsSort(e: Engine, policy: Policy, q: Query, units: seq<seq<Row>>)
    requires NamesHold(q, set c | c in policy.columns) && q.aggregates != []
    requires Settled(TargetEntries(q.orderBy))
    requires forall unit :: unit in units ==> unit != []
    ensures (if q.orderBy == [] then Each(units, UnitDocument(e, q))
             else RunStage(e, Sort(FromEntries(SortEntries(q, q.orderBy))), Each(units, UnitDocument(e, q))))
         == Each(SortWith(units, UnitOrder(q, MongoDialect(e, policy))), UnitDocument(e, q))
  {
    hide FromEntries, Settled, SortWith, Each, NamesHold, UnitDocument;
    var order, f := UnitOrder(q, MongoDialect(e, policy)), UnitDocument(e, q);
    if q.orderBy == [] {
      SortNothing(units, order);
    } else {
      var entries := FromEntries(SortEntries(q, q.orderBy));
      forall x, y | x in units && y in units ensures order(x, y) == DocumentOrder(e, entries)(f(x), f(y)) {
        SortDocumentMeansOrder(e, policy, q, x, y);
      }
      SortEach(units, f, order, DocumentOrder(e, entries));
    }
  }

  // ---------------------------------------------------------------- the find branch

  function ColumnEntries(q: Query): (entries: Entries<string>)
    ensures |entries| == |q.columns| && forall i :: 0 <= i < |q.columns| ==> entries[i] == (q.columns[i], q.columns[i])
  {
    seq(|q.columns|, i requires 0 <= i < |q.columns| => (q.columns[i], q.columns[i]))
  }

  // find(filter, { projection }).sort(sort).limit(limit + 1)
  function FindStages(q: Query, filter: MatchFilter): seq<Stage> {
    [Match(filter)] + (if q.orderBy == [] then [] else [Sort(FromEntries(TargetEntries(q.orderBy)))])
    + [Limit(q.limit + 1)] + [Project(FromEntries(ColumnEntries(q)))]
  }

  function FoundCells(q: Query, doc: Row): (cells: seq<Value>)
    ensures |cells| == |q.columns| && forall i :: 0 <= i < |q.columns| ==> cells[i] == Lookup(doc, q.columns[i])
  {
    Key(doc, q.columns)
  }

  function Found(q: Query): Row -> seq<Value> {
    doc => FoundCells(q, doc)
  }

  function AsUnit(): Row -> seq<Row> {
    doc => [doc]
  }

  lemma FindRun(e: Engine, q: Query, filter: MatchFilter, docs: seq<Row>)
    ensures RunPipeline(e, FindStages(q, filter), docs)
         == (var kept := RunStage(e, Match(filter), docs);
             var sorted := if q.orderBy == [] then kept
                           else RunStage(e, Sort(FromEntries(TargetEntries(q.orderBy))), kept);
             RunStage(e, Project(FromEntries(ColumnEntries(q))), Take(sorted, q.limit + 1)))
  {
    hide RunStage, FromEntries;
    var second := if q.orderBy == [] then [] else [Sort(FromEntries(TargetEntries(q.orderBy)))];
    var d1 := RunStage(e, Match(filter), docs);
    var d2 := RunPipeline(e, second, d1);
    var project := Project(FromEntries(ColumnEntries(q)));
    RunConcat(e, [Match(filter)] + second + [Limit(q.limit + 1)], [project], docs);
    RunConcat(e, [Match(filter)] + second, [Limit(q.limit + 1)], docs);
    RunConcat(e, [Match(filter)], second, docs);
    RunOne(e, Match(filter), docs);
    if q.orderBy != [] {
      RunOne(e, second[0], d1);
    }
    RunOne(e, Limit(q.limit + 1), d2);
    LimitTakes(e, q.limit + 1, d2);
    RunOne(e, project, Take(d2, q.limit + 1));
  }

  lemma {:induction false} DocumentsSortAlike(e: Engine, policy: Policy, q: Query, orders: seq<Order>, x: Row, y: Row)
    requires q.aggregates == [] && forall i :: 0 <= i < |orders| ==> orders[i].target in q.columns
    ensures CompareBy(e.compare, TargetEntries(orders), x, y) ==
      CompareUnits(q, MongoDialect(e, policy), orders, [x], [y])
    decreases |orders|
  {
    if orders != [] {
      assert TargetEntries(orders)[1..] == TargetEntries(orders[1..]);
      DocumentsSortAlike(e, policy, q, orders[1..], x, y);
    }
  }

  lemma FoundUnitsSort(e: Engine, policy: Policy, q: Query, kept: seq<Row>)
    requires NamesHold(q, set c | c in policy.columns) && q.aggregates == []
    requires Settled(TargetEntries(q.orderBy))
    ensures Each(if q.orderBy == [] then kept else RunStage(e, Sort(FromEntries(TargetEntries(q.orderBy))), kept),
                 AsUnit())
         == SortWith(Singles(kept), UnitOrder(q, MongoDialect(e, policy)))
  {
    hide FromEntries, Settled, SortWith, CompareBy, CompareUnits, Unique;
    var order, entries := UnitOrder(q, MongoDialect(e, policy)), FromEntries(TargetEntries(q.orderBy));
    assert Singles(kept) == Each(kept, AsUnit());
    if q.orderBy == [] {
      NoOrder(q, MongoDialect(e, policy));
      SortNothing(Singles(kept), order);
    } else {
      forall x, y | x in kept && y in kept ensures DocumentOrder(e, entries)(x, y) == order(AsUnit()(x), AsUnit()(y)) {
        CollapseSortsAlike(e.compare, TargetEntries(q.orderBy), x, y);
        DocumentsSortAlike(e, policy, q, q.orderBy, x, y);
      }
      SortEach(kept, AsUnit(), DocumentOrder(e, entries), order);
    }
  }

  lemma NoOrder(q: Query, d: Dialect)
    requires q.orderBy == []
    ensures forall x, y :: UnitOrder(q, d)(x, y) == 0
  {
  }

  lemma FoundByName(policy: Policy, q: Query, doc: Row)
    requires NamesHold(q, set c | c in policy.columns)
    ensures FoundCells(q, Fill(ProjectedFields(FromEntries(ColumnEntries(q)), doc))) == FoundCells(q, doc)
  {
    hide Fill, FromEntries;
    FromDistinct(ColumnEntries(q));
    var fields := ProjectedFields(ColumnEntries(q), doc);
    forall i | 0 <= i < |q.columns|
      ensures FoundCells(q, Fill(fields))[i] == FoundCells(q, doc)[i]
    {
      FillLookup(fields, i);
    }
  }

  // The find branch answers the query, under the same condition.
  lemma FindMeansQuery(e: Engine, policy: Policy, q: Query, filter: MatchFilter, docs: seq<Row>)
    requires Accepted(q, policy) && q.aggregates == [] && FilterMeans(e, policy, q, filter)
    requires Settled(TargetEntries(q.orderBy))
    ensures Each(RunPipeline(e, FindStages(q, filter), docs), Found(q)) == Answer(q, MongoDialect(e, policy), docs)
  {
    hide RunPipeline, FromEntries, Settled, SortWith, Each, Kept, Take, FilterMeans, Fill;
    var d, n := MongoDialect(e, policy), q.limit + 1;
    var kept := Kept(docs, Meeting(d, q.filters));
    assert RunStage(e, Match(filter), docs) == kept by { SelectionMeans(e, policy, q, filter, docs); }
    FindRun(e, q, filter, docs);
    var sorted := if q.orderBy == [] then kept else RunStage(e, Sort(FromEntries(TargetEntries(q.orderBy))), kept);
    FoundUnitsSort(e, policy, q, kept);
    TakeEach(sorted, AsUnit(), n);
    var taken := Take(sorted, n);
    forall doc: Row ensures Found(q)(Projected(FromEntries(ColumnEntries(q)))(doc)) == Found(q)(doc) {
      FoundByName(policy, q, doc);
    }
    EachEach(taken, Projected(FromEntries(ColumnEntries(q))), Found(q), Found(q));
    forall doc: Row ensures Cells(q, d)(AsUnit()(doc)) == Found(q)(doc) {
      assert UnitCells(q, d, [doc]) == FoundCells(q, doc);
    }
    EachEach(taken, AsUnit(), Cells(q, d), Found(q));
  }

  lemma SelectionMeans(e: Engine, policy: Policy, q: Query, filter: MatchFilter, docs: seq<Row>)
    requires FilterMeans(e, policy, q, filter)
    ensures RunStage(e, Match(filter), docs) == Kept(docs, Meeting(MongoDialect(e, policy), q.filters))
  {
    hide Selects, MeetsAll;
    KeptAgree(docs, Selecting(e, filter), Meeting(MongoDialect(e, policy), q.filters));
  }

  // ---------------------------------------------------------------- repeated order targets

  function OrdersOf(entries: Entries<Direction>): (orders: seq<Order>)
    ensures |orders| == |entries| && forall i :: 0 <= i < |orders| ==> orders[i] == Order(entries[i].0, entries[i].1)
  {
    seq(|entries|, i requires 0 <= i < |entries| => Order(entries[i].0, entries[i].1))
  }

  // The query with every order target once: where it first stands, with its last direction.
  function Collapsed(q: Query): Query {
    q.(orderBy := OrdersOf(FromEntries(TargetEntries(q.orderBy))))
  }

  function SortNames(q: Query): string -> string {
    target => SortName(q, target)
  }

  lemma CollapsedAccepted(q: Query, policy: Policy)
    requires Accepted(q, policy)
    ensures Accepted(Collapsed(q), policy) && Settled(TargetEntries(Collapsed(q).orderBy))
  {
    hide Unique, HasBoundedFilter, AggregatesFit, FromEntries, Settled;
    var entries, c := TargetEntries(q.orderBy), Collapsed(q);
    assert TargetEntries(c.orderBy) == FromEntries(entries);
    FromEntriesDistinct(entries);
    DistinctIsSettled(FromEntries(entries));
    SameAggregates(q, c, policy);
    assert Aliases(c) == Aliases(q);
    forall i | 0 <= i < |c.orderBy| ensures c.orderBy[i].target in q.columns || c.orderBy[i].target in Aliases(q) {
      var target := c.orderBy[i].target;
      assert HasKey(FromEntries(entries), target) by { assert FromEntries(entries)[i].0 == target; }
      FromEntriesValue(entries, target);
      var j :| 0 <= j < |entries| && entries[j].0 == target;
      assert q.orderBy[j].target == target;
    }
  }

  lemma SameAggregates(q: Query, c: Query, policy: Policy)
    requires AggregatesFit(q, policy) && c.aggregates == q.aggregates
    ensures AggregatesFit(c, policy)
  {
  }

  // The compiled query is the same: an object drops the repetitions either way.
  lemma CollapsedStages(q: Query, policy: Policy, filter: MatchFilter)
    requires Accepted(q, policy)
    ensures Pipeline(Collapsed(q), filter) == Pipeline(q, filter)
    ensures FindStages(Collapsed(q), filter) == FindStages(q, filter)
  {
    hide Unique, HasBoundedFilter, AggregatesFit, FromEntries, SortName, GroupPath, C, A, G;
    var entries, c := TargetEntries(q.orderBy), Collapsed(q);
    var folded := FromEntries(entries);
    assert TargetEntries(c.orderBy) == folded;
    FromEntriesDistinct(entries);
    FromDistinct(folded);
    SameNames(q, c);
    forall i, j | 0 <= i < j < |entries| && SortNames(q)(entries[i].0) == SortNames(q)(entries[j].0)
      ensures entries[i].0 == entries[j].0
    {
      SortNameInjective(q, q.orderBy[i].target, q.orderBy[j].target);
    }
    FromEntriesRenamed(entries, SortNames(q));
    assert Renamed(entries, SortNames(q)) == SortEntries(q, q.orderBy);
    assert Renamed(folded, SortNames(q)) == SortEntries(c, c.orderBy);
    FromEntriesDistinct(SortEntries(q, q.orderBy));
    FromDistinct(SortEntries(c, c.orderBy));
    assert q.orderBy == [] <==> c.orderBy == [] by { FoldedEmpty(entries); }
    assert GroupKeys(c) == GroupKeys(q) && Accumulators(c) == Accumulators(q);
    assert Projection(c) == Projection(q) && ColumnEntries(c) == ColumnEntries(q);
  }

  lemma FoldedEmpty<V>(entries: Entries<V>)
    ensures FromEntries(entries) == [] <==> entries == []
  {
  }

  // Names do not depend on the order.
  lemma SameNames(q: Query, c: Query)
    requires c == q.(orderBy := c.orderBy)
    ensures forall target :: SortName(c, target) == SortName(q, target)
    ensures forall field :: GroupPath(c, field) == GroupPath(q, field)
  {
  }

  /** Every accepted query is answered as if each order target stood once, with its last
      direction. */
  lemma AnswersCollapsed(e: Engine, policy: Policy, q: Query, filter: MatchFilter, docs: seq<Row>)
    requires Accepted(q, policy) && FilterMeans(e, policy, q, filter)
    ensures Each(RunPipeline(e, if q.aggregates == [] then FindStages(q, filter) else Pipeline(q, filter), docs),
                 if q.aggregates == [] then Found(q) else Extracted(q))
         == Answer(Collapsed(q), MongoDialect(e, policy), docs)
  {
    hide RunPipeline, Pipeline, FindStages, FilterMeans, Accepted, Settled, Answer, Each, TargetEntries, FromEntries;
    var c := Collapsed(q);
    CollapsedAccepted(q, policy);
    CollapsedStages(q, policy, filter);
    assert FilterMeans(e, policy, c, filter) by { SameFilters(e, policy, q, c, filter); }
    if q.aggregates == [] {
      FindMeansQuery(e, policy, c, filter, docs);
      EachAgree(RunPipeline(e, FindStages(q, filter), docs), Found(c), Found(q));
    } else {
      PipelineMeansQuery(e, policy, c, filter, docs);
      forall doc: Row ensures Extracted(c)(doc) == Extracted(q)(doc) {
        assert ExtractedCells(c, doc) == ExtractedCells(q, doc);
      }
      EachAgree(RunPipeline(e, Pipeline(q, filter), docs), Extracted(c), Extracted(q));
    }
  }

  lemma SameFilters(e: Engine, policy: Policy, q: Query, c: Query, filter: MatchFilter)
    requires FilterMeans(e, policy, q, filter) && c.filters == q.filters
    ensures FilterMeans(e, policy, c, filter)
  {
    hide Selects, MeetsAll;
  }

  // ---------------------------------------------------------------- the result

  // getPath ends in `?? null`; a field of a grouped row is read directly.
  function ReadCell(q: Query, v: Value): Value {
    if q.aggregates == [] && v.Absent? then Value.Null else v
  }

  function ShowRow(e: Engine, q: Query): seq<Value> -> Json {
    cells => RowOf(e, q, cells)
  }

  function RowOf(e: Engine, q: Query, cells: seq<Value>): Json {
    var names := q.columns + Aliases(q);
    RowJson(names, seq(|names|, i requires 0 <= i < |names| =>
      if i < |cells| then ShowCell(e.show, ReadCell(q, cells[i])) else Json.Null))
  }

  /** The shown row has the selected columns and then the aliases as names, and under each its
      value; what a plain row does not have is shown as null. */
  ghost predicate ShowsAnswer(e: Engine, q: Query, cells: seq<Value>, row: Json) {
    var n := |q.columns|;
    && row.Obj? && |row.fields| == n + |q.aggregates| == |cells|
    && forall i :: 0 <= i < |cells| ==>
         && row.fields[i].key == (if i < n then q.columns[i] else q.aggregates[i - n].alias)
         && (if q.aggregates == [] && cells[i].Absent? then row.fields[i].value == Json.Null
             else CellShows(e.show, cells[i], row.fields[i].value))
  }

  lemma RowShown(e: Engine, q: Query, cells: seq<Value>)
    requires |cells| == |q.columns| + |q.aggregates|
    ensures ShowsAnswer(e, q, cells, ShowRow(e, q)(cells))
  {
    hide ShowCell, CellShows;
    var row := RowOf(e, q, cells);
    forall i | 0 <= i < |cells|
      ensures if q.aggregates == [] && cells[i].Absent? then row.fields[i].value == Json.Null
              else CellShows(e.show, cells[i], row.fields[i].value)
    {
      assert row.fields[i].value == ShowCell(e.show, ReadCell(q, cells[i]));
      ShowCellShows(e.show, cells[i]);
      AbsentShown(e.show);
    }
  }

  lemma RowsShown(e: Engine, q: Query, answer: seq<seq<Value>>, rows: seq<Json>)
    requires forall k :: 0 <= k < |answer| ==> |answer[k]| == |q.columns| + |q.aggregates|
    requires |rows| <= |answer| && rows == Each(answer, ShowRow(e, q))[..|rows|]
    ensures forall k :: 0 <= k < |rows| ==> ShowsAnswer(e, q, answer[k], rows[k])
  {
    hide ShowsAnswer, ShowRow;
    forall k | 0 <= k < |rows| ensures ShowsAnswer(e, q, answer[k], rows[k]) {
      RowShown(e, q, answer[k]);
    }
  }

  lemma AnswerWidth(q: Query, c: Query, d: Dialect, docs: seq<Row>)
    requires c == q.(orderBy := c.orderBy)
    ensures forall k :: 0 <= k < |Answer(c, d, docs)| ==> |Answer(c, d, docs)[k]| == |q.columns| + |q.aggregates|
  {
    hide Units, SortWith, UnitOrder, Take;
  }

  // A request that is answered.
  predicate Answerable(e: Engine, q: Query, policies: map<string, Policy>, allowed: set<string>) {
    && q.relation in policies && q.relation in allowed
    && Accepted(q, policies[q.relation])
    && forall i :: 0 <= i < |q.filters| ==> FilterFits(e, policies[q.relation], q.filters[i])
  }

  /** query: a request is answered when every check passes, with the longest part within the
      limits of the answer to the query as collapsed; with settled order targets, of the answer
      to the query as it stands. */
  method RunQuery(e: Engine, q: Query, policies: map<string, Policy>, allowed: set<string>, docs: seq<Row>)
    returns (r: Result<QueryResult, QueryError>)
    ensures r.Ok? <==> Answerable(e, q, policies, allowed)
    ensures r == Err(UnknownRelation) <==> q.relation !in policies || q.relation !in allowed
    ensures r.Err? && r.error != UnknownRelation ==>
      var policy := policies[q.relation];
      Complains(r.error, q, (set c | c in policy.columns), FiltersFit(e, policy, q), AggregatesFit(q, policy),
                policy.allowUnfiltered || HasBoundedFilter(q.filters, policy.filterColumns))
    ensures r.Ok? ==> r.value.relation == q.relation && r.value.columns == q.columns + Aliases(q)
    ensures r.Ok? ==> r.value.rowCount == |r.value.rows| <= q.limit && Size(Arr(r.value.rows)) <= MAX_RESULT_BYTES
    ensures r.Ok? ==>
      IsBounded(Each(Answer(Collapsed(q), MongoDialect(e, policies[q.relation]), docs), ShowRow(e, q)), q.limit,
                r.value.rows, r.value.truncated)
    ensures r.Ok? ==>
      var answer := Answer(Collapsed(q), MongoDialect(e, policies[q.relation]), docs);
      && |r.value.rows| <= |answer|
      && forall k :: 0 <= k < |r.value.rows| ==> ShowsAnswer(e, q, answer[k], r.value.rows[k])
    ensures r.Ok? && Settled(TargetEntries(q.orderBy)) ==>
      IsBounded(Each(Answer(q, MongoDialect(e, policies[q.relation]), docs), ShowRow(e, q)), q.limit, r.value.rows,
                r.value.truncated)
  {
    hide Settled, Accepted, FilterFits, RunPipeline, Pipeline, FindStages, Each, ShowRow, Size, MeetsAll, Selects,
      ShowsAnswer, Complains;
    if q.relation !in policies || q.relation !in allowed {
      return Err(UnknownRelation);
    }
    var policy := policies[q.relation];
    ValidateAccepts(q, policy);
    ComplaintIsSo(e, q, policy);
    var complaint := ValidateQuery(q, policy);
    if complaint.Some? {
      return Err(complaint.value);
    }
    var filter :- CompileFilter(e, q, policy);
    assert FilterMeans(e, policy, q, filter);
    AnswersCollapsed(e, policy, q, filter, docs);
    var answer: seq<seq<Value>>;
    if q.aggregates == [] {
      answer := Each(RunPipeline(e, FindStages(q, filter), docs), Found(q));
      if Settled(TargetEntries(q.orderBy)) {
        FindMeansQuery(e, policy, q, filter, docs);
      }
    } else {
      answer := Each(RunPipeline(e, Pipeline(q, filter), docs), Extracted(q));
      if Settled(TargetEntries(q.orderBy)) {
        PipelineMeansQuery(e, policy, q, filter, docs);
      }
    }
    var rows, truncated := BoundedRows(Each(answer, ShowRow(e, q)), q.limit);
    AnswerWidth(q, Collapsed(q), MongoDialect(e, policy), docs);
    RowsShown(e, q, answer, rows);
    return Ok(QueryResult(q.relation, q.columns + Aliases(q), rows, |rows|, truncated));
  }

  predicate FiltersFit(e: Engine, policy: Policy, q: Query) {
    forall i :: 0 <= i < |q.filters| ==> FilterFits(e, policy, q.filters[i])
  }

  // The complaint is justified, whichever comes first.
  lemma ComplaintIsSo(e: Engine, q: Query, policy: Policy)
    ensures ValidateQuery(q, policy).Some? ==>
      Complains(ValidateQuery(q, policy).value, q, (set c | c in policy.columns), FiltersFit(e, policy, q),
                AggregatesFit(q, policy), policy.allowUnfiltered || HasBoundedFilter(q.filters, policy.filterColumns))
    ensures !FiltersFit(e, policy, q) ==>
      Complains(InvalidFilter, q, (set c | c in policy.columns), FiltersFit(e, policy, q), AggregatesFit(q, policy),
                policy.allowUnfiltered || HasBoundedFilter(q.filters, policy.filterColumns))
    ensures ValidateQuery(q, policy) != Some(UnknownRelation)
  {
    hide Unique, HasBoundedFilter, FilterFits;
    FirstAggregateErrorIs(q, policy, q.aggregates);
    var names, n, m := q.columns + q.groupBy + FilterColumns(q), |q.columns|, |q.columns| + |q.groupBy|;
    assert forall i :: 0 <= i < n ==> names[i] == q.columns[i];
    assert forall i :: n <= i < m ==> names[i] == q.groupBy[i - n];
    assert forall i :: m <= i < |names| ==> names[i] == q.filters[i - m].column;
    forall i | 0 <= i < |q.orderBy| ensures Targets(q)[i] == q.orderBy[i].target {
    }
  }

  lemma {:induction false} FirstAggregateErrorIs(q: Query, policy: Policy, aggregates: seq<Aggregate>)
    ensures FirstAggregateError(q, policy, aggregates).Some? ==>
      exists i :: 0 <= i < |aggregates| &&
        AggregateError(q, policy, aggregates[i]) == FirstAggregateError(q, policy, aggregates)
  {
    hide AggregateError;
    if aggregates != [] && AggregateError(q, policy, aggregates[0]).None? {
      FirstAggregateErrorIs(q, policy, aggregates[1..]);
      assert forall i :: 0 <= i < |aggregates[1..]| ==> aggregates[1..][i] == aggregates[i + 1];
    }
  }

  // ---------------------------------------------------------------- where the promise fails

  // For all pairs of documents: the sort document follows order_by exactly when no target
  // is repeated with another direction at the end.
  lemma SortFollowsOrderIff(e: Engine, policy: Policy, q: Query, a: Value, b: Value)
    requires Accepted(q, policy)
    requires e.compare(a, b) != 0 && forall v :: e.compare(v, v) == 0
    ensures (forall x, y :: CompareBy(e.compare, FromEntries(SortEntries(q, q.orderBy)), x, y)
                         == CompareBy(e.compare, SortEntries(q, q.orderBy), x, y))
       <==> Settled(TargetEntries(q.orderBy))
  {
    hide Settled, SortName, FromEntries, CompareBy, Unique, HasBoundedFilter;
    var entries, targets := SortEntries(q, q.orderBy), TargetEntries(q.orderBy);
    forall i, j | 0 <= i < j < |entries| ensures targets[i].0 == targets[j].0 <==> entries[i].0 == entries[j].0 {
      SortNameInjective(q, q.orderBy[i].target, q.orderBy[j].target);
    }
    if Settled(targets) {
      SettledRenamed(targets, entries);
    }
    if Settled(entries) {
      SettledRenamed(entries, targets);
    }
    CollapseAgreesIff(e.compare, entries, a, b);
  }

  lemma SortTwo<T>(x: T, y: T, compare: (T, T) -> int)
    ensures SortWith([x, y], compare) == if compare(y, x) < 0 then [y, x] else [x, y]
  {
    assert [x, y][1..] == [y] && [y][1..] == [];
    assert SortWith([y], compare) == Place(y, [], compare) == [y];
    assert Place(x, [], compare) == [x];
    assert Place(x, [y], compare) == if compare(y, x) < 0 then [y] + Place(x, [], compare) else [x] + [y];
  }

  const NUMBERS: Policy := Policy(["n"], map["n" := NumberField], [], true)

  function Both(): Query {
    Query("shop.sales", ["n"], [], [], [], [Order("n", Asc), Order("n", Desc)], 10)
  }

  // order_by [n asc, n desc]: accepted, and sorted descending.
  lemma RepeatedTargetSortsBackwards(e: Engine, x: Row, y: Row)
    requires x == map["n" := Number(1.0)] && y == map["n" := Number(2.0)]
    requires e.compare(Number(1.0), Number(2.0)) == -1 && e.compare(Number(2.0), Number(1.0)) == 1
    ensures Accepted(Both(), NUMBERS)
    ensures Answer(Both(), MongoDialect(e, NUMBERS), [x, y]) == [[Number(1.0)], [Number(2.0)]]
    ensures Each(RunPipeline(e, FindStages(Both(), Everything), [x, y]), Found(Both())) ==
      [[Number(2.0)], [Number(1.0)]]
  {
    RepeatedTargetAnswer(e, x, y);
    RepeatedTargetFind(e, x, y);
  }

  lemma RepeatedTargetAnswer(e: Engine, x: Row, y: Row)
    requires x == map["n" := Number(1.0)] && y == map["n" := Number(2.0)] && e.compare(Number(2.0), Number(1.0)) == 1
    ensures Answer(Both(), MongoDialect(e, NUMBERS), [x, y]) == [[Number(1.0)], [Number(2.0)]]
  {
    hide Kept, SortWith;
    var q, d := Both(), MongoDialect(e, NUMBERS);
    KeptAll([x, y], Meeting(d, q.filters));
    assert Singles([x, y]) == [[x], [y]];
    SortTwo([x], [y], UnitOrder(q, d));
    assert UnitOrder(q, d)([y], [x]) == 1;
    assert UnitCells(q, d, [x]) == [Number(1.0)] && UnitCells(q, d, [y]) == [Number(2.0)];
  }

  lemma RepeatedTargetFind(e: Engine, x: Row, y: Row)
    requires x == map["n" := Number(1.0)] && y == map["n" := Number(2.0)] && e.compare(Number(2.0), Number(1.0)) == 1
    ensures Each(RunPipeline(e, FindStages(Both(), Everything), [x, y]), Found(Both())) ==
      [[Number(2.0)], [Number(1.0)]]
  {
    hide Kept, SortWith, FromEntries, Fill, RunPipeline;
    var q := Both();
    var entries := FromEntries(TargetEntries(q.orderBy));
    assert entries == [("n", Desc)] by { RepeatedTargetCollapses(); }
    FindRun(e, q, Everything, [x, y]);
    KeptAll([x, y], Selecting(e, Everything));
    SortTwo(x, y, DocumentOrder(e, entries));
    assert DocumentOrder(e, entries)(y, x) == -1;
    FromDistinct(ColumnEntries(q));
    var fields := ColumnEntries(q);
    assert FoundCells(q, y) == [Number(2.0)] && FoundCells(q, x) == [Number(1.0)];
    assert NamesHold(q, set c | c in NUMBERS.columns);
    FoundByName(NUMBERS, q, y);
    FoundByName(NUMBERS, q, x);
  }

  lemma RepeatedTargetCollapses()
    ensures FromEntries(TargetEntries(Both().orderBy)) == [("n", Desc)]
  {
    var entries := TargetEntries(Both().orderBy);
    assert entries == [("n", Asc), ("n", Desc)];
    assert entries[1..] == [("n", Desc)];
    assert Without([("n", Desc)], "n") == [];
  }

  // The row with null for a selected column that is missing, as plain rows show it.
  function FilledRow(e: Engine, q: Query): seq<Value> -> Json {
    cells => RowOf(e, q, FilledCells(q, cells))
  }

  function FilledCells(q: Query, cells: seq<Value>): (filled: seq<Value>)
    ensures |filled| == |cells|
    ensures forall i :: 0 <= i < |cells| ==>
      filled[i] == if i < |q.columns| && cells[i].Absent? then Value.Null else cells[i]
  {
    seq(|cells|, i requires 0 <= i < |cells| => if i < |q.columns| && cells[i].Absent? then Value.Null else cells[i])
  }

  // The units behind the rows of the answer.
  ghost function AnsweredUnits(q: Query, d: Dialect, docs: seq<Row>): seq<seq<Row>> {
    Take(SortWith(Units(q, d, docs), UnitOrder(q, d)), q.limit + 1)
  }

  // Every selected column is present in the documents behind the first n rows.
  ghost predicate KeysPresent(q: Query, d: Dialect, docs: seq<Row>, n: nat) {
    forall i, j :: 0 <= i < |AnsweredUnits(q, d, docs)| && i < n && 0 <= j < |q.columns| ==>
      !ColumnValue(AnsweredUnits(q, d, docs)[i], q.columns[j]).Absent?
  }

  /** The rows of an aggregate query show a missing key as null exactly when no key is
      missing: otherwise it is shown as the text "undefined".  The rows are those that
      RunQuery sends. */
  lemma MissingKeyShownIff(e: Engine, policy: Policy, q: Query, docs: seq<Row>, rows: seq<Json>, truncated: bool)
    requires Accepted(q, policy) && q.aggregates != []
    requires IsBounded(Each(Answer(Collapsed(q), MongoDialect(e, policy), docs), ShowRow(e, q)), q.limit, rows,
                       truncated)
    ensures rows == Each(Answer(Collapsed(q), MongoDialect(e, policy), docs), FilledRow(e, q))[..|rows|]
       <==> KeysPresent(Collapsed(q), MongoDialect(e, policy), docs, |rows|)
  {
    hide Accepted, MongoDialect, OrdersOf, TargetEntries, FromEntries, Answer, KeysPresent, Each, Size, ShowRow,
      FilledRow;
    var c, d := Collapsed(q), MongoDialect(e, policy);
    assert rows == Each(Answer(c, d, docs), ShowRow(e, q))[..|rows|];
    assert |rows| <= |Answer(c, d, docs)|;
    KeysShownIff(e, q, c, d, docs, |rows|);
  }

  lemma KeysShownIff(e: Engine, q: Query, c: Query, d: Dialect, docs: seq<Row>, n: nat)
    requires q.aggregates != [] && c == q.(orderBy := c.orderBy) && n <= |Answer(c, d, docs)|
    ensures Each(Answer(c, d, docs), ShowRow(e, q))[..n] == Each(Answer(c, d, docs), FilledRow(e, q))[..n]
       <==> KeysPresent(c, d, docs, n)
  {
    hide ShowRow, FilledRow, SortWith, Units, UnitOrder, ColumnValue, UnitCells, Take;
    var units, shown := AnsweredUnits(c, d, docs), Each(Answer(c, d, docs), ShowRow(e, q));
    var filled := Each(Answer(c, d, docs), FilledRow(e, q));
    assert Answer(c, d, docs) == Each(units, Cells(c, d));
    forall i | 0 <= i < n
      ensures shown[i] == filled[i] <==> forall j :: 0 <= j < |q.columns| ==>
        !ColumnValue(units[i], q.columns[j]).Absent?
    {
      var cells := UnitCells(c, d, units[i]);
      RowShownIff(e, q, cells);
      assert forall j :: 0 <= j < |q.columns| ==> cells[j] == ColumnValue(units[i], q.columns[j]);
    }
    if shown[..n] == filled[..n] {
      assert forall i :: 0 <= i < n ==> shown[i] == shown[..n][i] == filled[..n][i] == filled[i];
    } else {
      var i :| 0 <= i < n && shown[..n][i] != filled[..n][i];
      assert shown[i] != filled[i];
    }
  }

  lemma RowShownIff(e: Engine, q: Query, cells: seq<Value>)
    requires q.aggregates != [] && |cells| == |q.columns| + |q.aggregates|
    ensures ShowRow(e, q)(cells) == FilledRow(e, q)(cells) <==> forall i :: 0 <= i < |q.columns| ==> !cells[i].Absent?
  {
    hide ShowCell;
    var filled := FilledCells(q, cells);
    if i :| 0 <= i < |q.columns| && cells[i].Absent? {
      AbsentShown(e.show);
      assert RowOf(e, q, cells).fields[i].value == Str("undefined");
      assert RowOf(e, q, filled).fields[i].value == Json.Null;
    } else {
      assert filled == cells;
    }
  }

  lemma AbsentShown(show: Value -> Json)
    ensures ShowCell(show, Absent) == Str("undefined") && ShowCell(show, Value.Null) == Json.Null
  {
  }

  function Grouped(): Query {
    Query("shop.sales", ["n"], [], ["n"], [Aggregate(Count, None, "total")], [], 10)
  }

  /** group_by n over one document without the field n: accepted, and answered with the row
      n = "undefined", total = 1. */
  lemma MissingKeyShown(e: Engine, doc: Row)
    requires doc == map[]
    ensures Accepted(Grouped(), NUMBERS) && Settled(TargetEntries(Grouped().orderBy))
    ensures Each(Each(RunPipeline(e, Pipeline(Grouped(), Everything), [doc]), Extracted(Grouped())),
                 ShowRow(e, Grouped()))
         == [Obj([Field("n", Str("undefined")), Field("total", e.show(Number(1.0)))])]
  {
    hide RunPipeline, Pipeline, SortWith, Kept, GroupsBy;
    var q, d := Grouped(), MongoDialect(e, NUMBERS);
    assert TargetEntries(q.orderBy) == [];
    forall x: Row ensures Selects(e, Everything, x) <==> MeetsAll(d, q.filters, x) {
      EverythingSelects(e, x);
    }
    PipelineMeansQuery(e, NUMBERS, q, Everything, [doc]);
    KeptAll([doc], Meeting(d, q.filters));
    OneGroup([doc], ByKey(q.groupBy));
    NoOrder(q, d);
    SortNothing([[doc]], UnitOrder(q, d));
    var cells := UnitCells(q, d, [doc]);
    assert cells == [Absent, Number(1.0)];
    assert Answer(q, d, [doc]) == [cells];
    assert q.columns + Aliases(q) == ["n", "total"];
    AbsentShown(e.show);
    assert RowOf(e, q, cells).fields == [Field("n", Str("undefined")), Field("total", e.show(Number(1.0)))];
  }
}
