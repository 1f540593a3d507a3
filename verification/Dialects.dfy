/**
 Where the two query backends treat one filter or one count differently, and exactly when.
 DialectAnswers compares whole answers.
 */
module Dialects {
  import opened Wrappers
  import opened FieldTypes
  import opened Queries
  import Escaping
  import Sql = SqlQuery
  import Mongo = MongoQuery

  // The value a filter text stands for; MongoDB sanitises a text first (coerceValue), SQL does not.
  function Literal(mongo: Mongo.Engine, fieldType: FieldType, raw: string): Option<Value> {
    if fieldType == StringField then Some(Text(raw)) else Mongo.Coerce(mongo, fieldType, raw)
  }

  // Given the same operands, the engines compare present values alike.
  ghost predicate EnginesAlike(sql: Sql.Engine, mongo: Mongo.Engine, fieldType: FieldType) {
    && sql.letterCase == mongo.letterCase
    && forall v, raw :: !Sql.Nothing(v) && Literal(mongo, fieldType, raw).Some? ==>
         && (forall op :: op in {Eq, Lt, Lte, Gt, Gte} ==>
               sql.relates(op, v, raw) == mongo.relates(op, v, Literal(mongo, fieldType, raw).value))
         && sql.relates(Ne, v, raw) == !sql.relates(Eq, v, raw)
  }

  // Texts are ordered totally, as MongoDB's binary comparison orders them.
  ghost predicate OrdersTexts(e: Mongo.Engine) {
    forall s, t: string ::
      && (e.relates(Eq, Text(s), Text(t)) <==> s == t)
      && !e.relates(Lt, Text(s), Text(s)) && e.relates(Lte, Text(s), Text(s))
      && (s != t ==> e.relates(Lt, Text(s), Text(t)) || e.relates(Lt, Text(t), Text(s)))
      && (s != t ==> !e.relates(Lte, Text(s), Text(t)) || !e.relates(Lte, Text(t), Text(s)))
      && (e.relates(Gt, Text(s), Text(t)) <==> e.relates(Lt, Text(t), Text(s)))
      && (e.relates(Gte, Text(s), Text(t)) <==> e.relates(Lte, Text(t), Text(s)))
  }

  // What can be checked of a filter before it is sent.
  predicate Portable(policy: Mongo.Policy, filter: Filter) {
    match filter.operator
    case IsNull | IsNotNull => true
    case Ne => false
    case In => Mongo.TypeOf(policy, filter.column) == StringField ==>
      SameTexts(filter.values, SanitizedAll(filter.values))
    case _ => Mongo.TypeOf(policy, filter.column) == StringField && filter.value.Some? ==>
                Sanitize(filter.value.value) == filter.value.value
  }

  function SanitizedAll(raws: seq<string>): (texts: seq<string>)
    ensures |texts| == |raws| && forall i :: 0 <= i < |raws| ==> texts[i] == Sanitize(raws[i])
  {
    seq(|raws|, i requires 0 <= i < |raws| => Sanitize(raws[i]))
  }

  predicate SameTexts(s: seq<string>, t: seq<string>) {
    (forall x :: x in s ==> x in t) && (forall x :: x in t ==> x in s)
  }

  /** A filter that MongoDB accepts keeps the same rows in both backends, whatever the table
      holds, if and only if it is portable: `ne` never is, because it keeps nulls in MongoDB
      only, and on a text field the texts must survive sanitising. */
  lemma FiltersAgreeIff(sql: Sql.Engine, mongo: Mongo.Engine, policy: Mongo.Policy, filter: Filter)
    requires Mongo.FilterFits(mongo, policy, filter)
    requires EnginesAlike(sql, mongo, Mongo.TypeOf(policy, filter.column)) && OrdersTexts(mongo)
    ensures (forall row: Row :: Sql.Meets(sql, filter, row) <==> Mongo.Meets(mongo, policy, filter, row))
       <==> Portable(policy, filter)
  {
    hide EnginesAlike, OrdersTexts, Mongo.FilterFits, Sql.Meets, Mongo.Meets, Portable;
    if Portable(policy, filter) {
      forall row: Row ensures Sql.Meets(sql, filter, row) <==> Mongo.Meets(mongo, policy, filter, row) {
        PortableAgrees(sql, mongo, policy, filter, row);
      }
    } else {
      var row := RowThatDiffers(sql, mongo, policy, filter);
    }
  }

  lemma PortableAgrees(sql: Sql.Engine, mongo: Mongo.Engine, policy: Mongo.Policy, filter: Filter, row: Row)
    requires Mongo.FilterFits(mongo, policy, filter) && Portable(policy, filter)
    requires EnginesAlike(sql, mongo, Mongo.TypeOf(policy, filter.column))
    ensures Sql.Meets(sql, filter, row) <==> Mongo.Meets(mongo, policy, filter, row)
  {
    hide Sanitize, SameTexts;
    var v, fieldType := Lookup(row, filter.column), Mongo.TypeOf(policy, filter.column);
    if Sql.Nothing(v) {
    } else if filter.operator == In {
      ListAgrees(sql, mongo, fieldType, filter.values, v);
    } else if filter.value.Some? && filter.operator !in {Contains, StartsWith} {
      assert Literal(mongo, fieldType, filter.value.value) == Mongo.Coerce(mongo, fieldType, filter.value.value);
    }
  }

  lemma ListAgrees(sql: Sql.Engine, mongo: Mongo.Engine, fieldType: FieldType, raws: seq<string>, v: Value)
    requires EnginesAlike(sql, mongo, fieldType) && !Sql.Nothing(v)
    requires forall i :: 0 <= i < |raws| ==> Mongo.Coerce(mongo, fieldType, raws[i]).Some?
    requires fieldType == StringField ==> SameTexts(raws, SanitizedAll(raws))
    ensures (exists i :: 0 <= i < |raws| && sql.relates(Eq, v, raws[i]))
       <==> (exists i :: 0 <= i < |raws| && Mongo.Related(mongo, Eq, v, Mongo.Coerce(mongo, fieldType, raws[i]).value))
  {
    hide Sanitize;
    if i :| 0 <= i < |raws| && sql.relates(Eq, v, raws[i]) {
      assert mongo.relates(Eq, v, Literal(mongo, fieldType, raws[i]).value);
      if fieldType == StringField {
        assert raws[i] in SanitizedAll(raws);
        var j :| 0 <= j < |raws| && Sanitize(raws[j]) == raws[i];
        assert Mongo.Related(mongo, Eq, v, Mongo.Coerce(mongo, fieldType, raws[j]).value);
      } else {
        assert Mongo.Related(mongo, Eq, v, Mongo.Coerce(mongo, fieldType, raws[i]).value);
      }
    }
    if i :| 0 <= i < |raws| && Mongo.Related(mongo, Eq, v, Mongo.Coerce(mongo, fieldType, raws[i]).value) {
      if fieldType == StringField {
        assert SanitizedAll(raws)[i] in raws;
        var j :| 0 <= j < |raws| && raws[j] == Sanitize(raws[i]);
        assert sql.relates(Eq, v, raws[j]);
      } else {
        assert sql.relates(Eq, v, raws[i]);
      }
    }
  }

  lemma {:induction false} KeptLength<T(!new)>(s: seq<T>, keep: T -> bool)
    ensures |Kept(s, keep)| == |s| <==> forall i :: 0 <= i < |s| ==> keep(s[i])
  {
    if s != [] {
      KeptLength(s[1..], keep);
      assert s == [s[0]] + s[1..];
    }
  }

  // Sanitising that changes a text makes it shorter.
  lemma SanitizeShortens(text: string)
    ensures |Sanitize(text)| <= |text| && (|Sanitize(text)| == |text| ==> Sanitize(text) == text)
  {
    var keep := (c: char) => !Removed(c);
    KeptLength(text, keep);
    if |Kept(text, keep)| == |text| {
      KeptAll(text, keep);
    }
  }

  lemma RowThatDiffers(sql: Sql.Engine, mongo: Mongo.Engine, policy: Mongo.Policy, filter: Filter) returns (row: Row)
    requires Mongo.FilterFits(mongo, policy, filter) && !Portable(policy, filter)
    requires EnginesAlike(sql, mongo, Mongo.TypeOf(policy, filter.column)) && OrdersTexts(mongo)
    ensures !(Sql.Meets(sql, filter, row) <==> Mongo.Meets(mongo, policy, filter, row))
  {
    hide Sanitize, OrdersTexts, SameTexts, Escaping.FoldText;
    row := map[];
    if filter.operator == In {
      var x := ListDiffers(mongo, filter.values);
      row := row[filter.column := Text(x)];
      ListsMean(sql, mongo, filter.values, x);
    } else if filter.operator in {Contains, StartsWith} {
      var raw, text := filter.value.value, Sanitize(filter.value.value);
      SanitizeShortens(raw);
      TextItself(mongo.letterCase, text, raw);
      row := row[filter.column := Text(text)];
    } else if filter.operator != Ne {
      var x := TextApart(mongo, filter.operator, filter.value.value, Sanitize(filter.value.value));
      row := row[filter.column := Text(x)];
      assert Literal(mongo, StringField, filter.value.value) == Some(Text(filter.value.value));
    }
  }

  // A text contains itself and begins with itself, but not with a longer one.
  lemma TextItself(fold: Escaping.Fold, text: string, longer: string)
    requires |text| < |longer|
    ensures Escaping.Contains(fold, text, text) && !Escaping.Contains(fold, text, longer)
    ensures Escaping.StartsWith(fold, text, text) && !Escaping.StartsWith(fold, text, longer)
  {
    assert Escaping.HasAt(Escaping.FoldText(fold, text), Escaping.FoldText(fold, text), 0);
  }

  lemma ListDiffers(mongo: Mongo.Engine, raws: seq<string>) returns (x: string)
    requires !SameTexts(raws, SanitizedAll(raws))
    ensures !(x in raws <==> x in SanitizedAll(raws))
  {
    if y :| y in raws && y !in SanitizedAll(raws) {
      x := y;
    } else {
      x :| x in SanitizedAll(raws) && x !in raws;
    }
  }

  lemma ListsMean(sql: Sql.Engine, mongo: Mongo.Engine, raws: seq<string>, x: string)
    requires EnginesAlike(sql, mongo, StringField) && OrdersTexts(mongo)
    ensures (exists i :: 0 <= i < |raws| && sql.relates(Eq, Text(x), raws[i])) <==> x in raws
    ensures (exists i :: 0 <= i < |raws| &&
               Mongo.Related(mongo, Eq, Text(x), Mongo.Coerce(mongo, StringField, raws[i]).value))
       <==> x in SanitizedAll(raws)
  {
    hide Sanitize;
    forall i | 0 <= i < |raws|
      ensures sql.relates(Eq, Text(x), raws[i]) <==> x == raws[i]
      ensures Mongo.Related(mongo, Eq, Text(x), Mongo.Coerce(mongo, StringField, raws[i]).value) <==>
        x == SanitizedAll(raws)[i]
    {
      assert Literal(mongo, StringField, raws[i]) == Some(Text(raws[i]));
    }
  }

  // Two texts are told apart by each comparison.
  lemma TextApart(e: Mongo.Engine, op: Operator, s: string, t: string) returns (x: string)
    requires OrdersTexts(e) && s != t && op in {Eq, Lt, Lte, Gt, Gte}
    ensures e.relates(op, Text(x), Text(s)) != e.relates(op, Text(x), Text(t))
  {
    x := if e.relates(op, Text(s), Text(s)) != e.relates(op, Text(s), Text(t)) then s else t;
  }

  // contains "\u0001b": accepted by both, and the text "b" meets it in MongoDB only.
  lemma ControlCharacterDiffers(sql: Sql.Engine, mongo: Mongo.Engine, policy: Mongo.Policy, column: string)
    requires Mongo.TypeOf(policy, column) == StringField
    ensures var filter, row := Filter(column, Contains, Some("\U{1}b"), []), map[column := Text("b")];
      && Mongo.FilterFits(mongo, policy, filter) && OperandsHold(filter, true)
      && Mongo.Meets(mongo, policy, filter, row) && !Sql.Meets(sql, filter, row)
  {
    var raw := "\U{1}b";
    assert raw[1..] == "b" && raw[1..][1..] == "";
    assert Sanitize(raw) == "b";
    TextItself(mongo.letterCase, "b", raw);
    TextItself(sql.letterCase, "b", raw);
  }

  // count(column) agrees exactly when no row of the unit lacks a value.
  lemma CountsAgreeIff(sql: Sql.Engine, mongo: Mongo.Engine, column: string, unit: seq<Row>, alias: string)
    ensures (Sql.AggregateValue(sql, Count, Some(column), unit)
             == Mongo.AggregateValue(mongo, Aggregate(Count, Some(column), alias), unit))
       <==> forall i :: 0 <= i < |unit| ==> !Sql.Nothing(Lookup(unit[i], column))
  {
    var cells := Sql.CellsOf(unit, column);
    KeptLength(cells, Sql.Present());
    assert forall i :: 0 <= i < |cells| ==> (Sql.Present()(cells[i]) <==> !Sql.Nothing(Lookup(unit[i], column)));
    RealsDiffer(|Sql.ColumnValues(unit, column)|, |unit|);
  }

  lemma RealsDiffer(m: nat, n: nat)
    ensures m as real == n as real <==> m == n
  {
  }
}
