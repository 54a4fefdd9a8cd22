/**
  The Django `execute_sql_query` tool (src/tidewave/django/tools/sql.py).
  The cursor is a parameter: executing yields the cursor description (None
  or empty when the statement returns no rows) and all fetched rows, or an
  error that propagates.
*/
module DjangoSql {
  import opened Wrappers
  import SqlResult

  /** One entry of `cursor.description`; its first element is the column name. */
  datatype Column = Column(name: string)

  datatype Executed<C> = Executed(description: Option<seq<Column>>, rows: seq<seq<C>>)

  /** `[col[0] for col in cursor.description]`. */
  function ColumnNames(description: seq<Column>): (names: seq<string>)
    ensures |names| == |description|
    ensures forall k :: 0 <= k < |description| ==> names[k] == description[k].name
  {
    seq(|description|, k requires 0 <= k < |description| => description[k].name)
  }

  /** `cursor.description` is truthy: the statement returned columns. */
  predicate HasColumns<C>(x: Executed<C>)
  {
    x.description.Some? && x.description.value != []
  }

  /** `execute_sql_query`: the arguments (None read as []) always go with the
      query; a database error propagates. */
  function ExecuteSqlQuery<C>(query: string, arguments: Option<seq<C>>,
                              execute: (string, seq<C>) -> Result<Executed<C>, string>,
                              repr: SqlResult.ResultDict<C> -> string): Result<string, string>
  {
    match execute(query, arguments.GetOr([]))
    case Failure(e) => Failure(e)
    case Success(x) =>
      if HasColumns(x) then
        Success(SqlResult.Render(ColumnNames(x.description.value), x.rows, repr))
      else Success("OK")
  }

  /** With no description the answer is "OK"; otherwise the dict names the
      description's columns and holds at most 50 rows, a prefix of those
      fetched. The arguments go with the query, None as []. */
  lemma ExecuteSqlQuerySpec<C>(query: string, arguments: Option<seq<C>>,
                               execute: (string, seq<C>) -> Result<Executed<C>, string>,
                               repr: SqlResult.ResultDict<C> -> string)
    ensures arguments.None? ==> execute(query, arguments.GetOr([])) == execute(query, [])
    ensures execute(query, arguments.GetOr([])).Failure? ==>
      ExecuteSqlQuery(query, arguments, execute, repr) == Failure(execute(query, arguments.GetOr([])).error)
    ensures execute(query, arguments.GetOr([])).Success? && !HasColumns(execute(query, arguments.GetOr([])).value) ==>
      ExecuteSqlQuery(query, arguments, execute, repr) == Success("OK")
    ensures execute(query, arguments.GetOr([])).Success? && HasColumns(execute(query, arguments.GetOr([])).value) ==>
      var x := execute(query, arguments.GetOr([])).value;
      var d := SqlResult.Shape(ColumnNames(x.description.value), x.rows).1;
      && ExecuteSqlQuery(query, arguments, execute, repr) ==
           Success(SqlResult.Shape(ColumnNames(x.description.value), x.rows).0 + repr(d))
      && |d.columns| == |x.description.value|
      && d.numRows == |d.rows| <= SqlResult.Limit
      && d.rows == x.rows[..|d.rows|]
  {
    var x := execute(query, arguments.GetOr([]));
    if x.Success? && HasColumns(x.value) {
      SqlResult.ShapeSpec(ColumnNames(x.value.description.value), x.value.rows);
    }
  }
}
