/**
 What the listing of a relation tells the model, and that queries are held to it: the columns
 are those of the catalog or the manifest, and the query policy says which queries are refused
 for want of a filter.
 */
module SchemaListing {
  import opened Wrappers
  import opened FieldTypes
  import opened SchemaPages
  import opened Queries
  import Discovery
  import Sql = SqlQuery
  import Mongo = MongoQuery
  import SplitText

  // A text as the listing shows it: an empty description is left out.
  predicate ShowsText(shown: Option<string>, text: Option<string>) {
    if text.Some? && text.value != "" then shown == text else shown.None?
  }

  predicate ShowsFieldText(shown: Option<string>, p: Discovery.Policy, name: string) {
    ShowsText(shown, if name in p.fieldDescriptions then Some(p.fieldDescriptions[name]) else None)
  }

  // A PostgreSQL relation is listed as the catalog has it, with the manifest's descriptions.
  lemma PostgresListed(p: Discovery.Policy, catalog: seq<Discovery.CatalogColumn>)
    ensures var r := Discovery.PostgresRelation(p, catalog);
      && r.name == p.relation && r.source == "postgres" && r.kind == "view" && ShowsText(r.description, p.description)
      && |r.columns| == |catalog|
      && forall i :: 0 <= i < |catalog| ==>
           && r.columns[i].name == catalog[i].name && r.columns[i].dataType == catalog[i].dataType
           && (r.columns[i].nullable <==> catalog[i].nullable)
           && ShowsFieldText(r.columns[i].description, p, catalog[i].name)
  {
  }

  // A MongoDB relation is listed as the manifest has it; every field may be missing.
  lemma MongoListed(p: Discovery.Policy)
    requires Discovery.FieldsTyped(p)
    ensures var r := Discovery.MongoRelation(p);
      && r.name == p.relation && r.source == "mongodb" && r.kind == "collection"
      && ShowsText(r.description, p.description)
      && |r.columns| == |p.columns|
      && forall i :: 0 <= i < |p.columns| ==>
           && r.columns[i].name == p.columns[i] && r.columns[i].nullable
           && r.columns[i].dataType == (match p.fieldTypes[p.columns[i]]
                                        case NumberField => "number"
                                        case DateField => "date"
                                        case BooleanField => "boolean"
                                        case StringField => "string")
           && ShowsFieldText(r.columns[i].description, p, p.columns[i])
  {
  }

  // ---------------------------------------------------------------- queries are held to the listing

  function SqlPolicy(p: Discovery.Policy): Sql.Policy { Sql.Policy(p.filterColumns, p.allowUnfiltered) }

  function MongoPolicy(p: Discovery.Policy): Mongo.Policy {
    Mongo.Policy(p.columns, p.fieldTypes, p.filterColumns, p.allowUnfiltered)
  }

  // The operators as the model writes them.
  function OperatorName(operator: Operator): string {
    match operator
    case Eq => "eq"
    case Ne => "ne"
    case Lt => "lt"
    case Lte => "lte"
    case Gt => "gt"
    case Gte => "gte"
    case Contains => "contains"
    case StartsWith => "starts_with"
    case In => "in"
    case IsNull => "is_null"
    case IsNotNull => "is_not_null"
  }

  // A filter on the column with this operator that meets the demand for one.
  ghost predicate MayNarrow(p: Discovery.Policy, column: string, operator: Operator) {
    exists filter: Filter ::
      filter.column == column && filter.operator == operator && HasBoundedFilter([filter], p.filterColumns)
  }

  /** The listing asks for a filter if and only if PostgreSQL refuses every query without one,
      and the columns and operators it approves are exactly those that meet the demand. */
  lemma PostgresPolicyListed(p: Discovery.Policy, catalog: seq<Discovery.CatalogColumn>, column: string,
                             operator: Operator)
    ensures var r := Discovery.PostgresRelation(p, catalog);
      && (r.requiresFilter <==> Sql.AsksForFilter(SqlPolicy(p), []))
      && (r.requiresFilter ==>
            (column in r.filterColumns && OperatorName(operator) in r.approvedOperators
             <==> MayNarrow(p, column, operator)))
  {
    ApprovedOperators(operator);
    Narrowing(p, column, operator);
  }

  lemma MongoPolicyListed(p: Discovery.Policy, column: string, operator: Operator)
    requires Discovery.FieldsTyped(p) && p.columns != []
    ensures var r := Discovery.MongoRelation(p);
      && (r.requiresFilter <==> forall q: Query :: q.filters == [] ==> !Mongo.Accepted(q, MongoPolicy(p)))
      && (r.requiresFilter ==>
            (column in r.filterColumns && OperatorName(operator) in r.approvedOperators
             <==> MayNarrow(p, column, operator)))
  {
    ApprovedOperators(operator);
    Narrowing(p, column, operator);
    var r := Discovery.MongoRelation(p);
    if !r.requiresFilter {
      var q := Query(p.relation, [p.columns[0]], [], [], [], [], 10);
      assert Aliases(q) == [];
      assert Mongo.Accepted(q, MongoPolicy(p));
    }
  }

  lemma ApprovedOperators(operator: Operator)
    ensures OperatorName(operator) in Discovery.BOUNDED_FILTER_OPERATORS <==>
      operator != Ne && operator != Contains && operator != IsNull && operator != IsNotNull
  {
    var ops := Discovery.BOUNDED_FILTER_OPERATORS;
    assert ops[0] == "eq" && ops[1] == "lt" && ops[2] == "lte" && ops[3] == "gt" && ops[4] == "gte" && ops[5] == "in"
        && ops[6] == "starts_with";
  }

  lemma Narrowing(p: Discovery.Policy, column: string, operator: Operator)
    ensures MayNarrow(p, column, operator) <==>
      column in p.filterColumns && operator != Ne && operator != Contains && operator != IsNull && operator != IsNotNull
  {
    if column in p.filterColumns && operator !in {Ne, Contains, IsNull, IsNotNull} {
      var filter := if operator == In then Filter(column, In, None, ["abc"])
                    else Filter(column, operator, Some("abc"), []);
      assert SplitText.Trim("abc") == "abc";
      assert Bounding(filter, p.filterColumns) by {
        if operator == In { assert filter.values[0] != ""; }
      }
      assert [filter][0] == filter;
    }
  }
}
