/**
  The SQLAlchemy `execute_sql_query` tool (src/tidewave/sqlalchemy/sql.py).
  The engine is a parameter: it runs a statement, with or without a
  parameter tuple, and either fails (the exception propagates) or yields
  whether rows are returned, the result keys and all fetched rows.
*/
module SqlalchemySql {
  import opened Wrappers
  import SqlResult

  /** What is handed to `exec_driver_sql`. */
  datatype Statement<C> = Plain(query: string) | WithParams(query: string, params: seq<C>)

  datatype Fetched<C> = Fetched(returnsRows: bool, keys: seq<string>, rows: seq<seq<C>>)

  /** The statement the tool runs: a parameter tuple only when arguments
      were given and are non-empty. */
  function StatementFor<C>(query: string, arguments: Option<seq<C>>): (s: Statement<C>)
    ensures s.query == query
    ensures s.WithParams? <==> arguments.Some? && arguments.value != []
    ensures s.WithParams? ==> s.params == arguments.value
  {
    var args := arguments.GetOr([]);
    if args != [] then WithParams(query, args) else Plain(query)
  }

  /** The inner `execute_sql_query`. A failing statement propagates its
      error; the commit is not modelled. */
  function ExecuteSqlQuery<C>(query: string, arguments: Option<seq<C>>,
                              run: Statement<C> -> Result<Fetched<C>, string>,
                              repr: SqlResult.ResultDict<C> -> string): Result<string, string>
  {
    match run(StatementFor(query, arguments))
    case Failure(e) => Failure(e)
    case Success(f) =>
      if f.returnsRows then Success(SqlResult.Render(f.keys, f.rows, repr))
      else Success("OK")
  }

  /** A statement that returns no rows answers "OK"; otherwise the answer is
      the preamble and the repr of the truncated dict, whose columns are the
      result keys in order. */
  lemma ExecuteSqlQuerySpec<C>(query: string, arguments: Option<seq<C>>,
                               run: Statement<C> -> Result<Fetched<C>, string>,
                               repr: SqlResult.ResultDict<C> -> string)
    ensures run(StatementFor(query, arguments)).Failure? ==>
      ExecuteSqlQuery(query, arguments, run, repr) == Failure(run(StatementFor(query, arguments)).error)
    ensures run(StatementFor(query, arguments)).Success? && !run(StatementFor(query, arguments)).value.returnsRows ==>
      ExecuteSqlQuery(query, arguments, run, repr) == Success("OK")
    ensures run(StatementFor(query, arguments)).Success? && run(StatementFor(query, arguments)).value.returnsRows ==>
      var f := run(StatementFor(query, arguments)).value;
      var d := SqlResult.Shape(f.keys, f.rows).1;
      && ExecuteSqlQuery(query, arguments, run, repr) == Success(SqlResult.Shape(f.keys, f.rows).0 + repr(d))
      && d.columns == f.keys && d.numRows == |d.rows| <= SqlResult.Limit
      && d.rows == f.rows[..|d.rows|]
  {
    var f := run(StatementFor(query, arguments));
    if f.Success? {
      SqlResult.ShapeSpec(f.value.keys, f.value.rows);
    }
  }
}
