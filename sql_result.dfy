/**
  The result shaping shared by the two `execute_sql_query` tools
  (src/tidewave/sqlalchemy/sql.py and src/tidewave/django/tools/sql.py):
  at most 50 rows are returned, with a preamble when rows were dropped.
  `repr` of the result dict is a parameter.
*/
module SqlResult {
  import Text

  const Limit: nat := 50

  /** `{"columns": ..., "num_rows": ..., "rows": ...}`. */
  datatype ResultDict<C> = ResultDict(columns: seq<string>, numRows: nat, rows: seq<seq<C>>)

  const Opening: string := "Query returned "
  const Closing: string := " rows. Only the first "
  const Advice: string := " rows are included in the result. Use LIMIT + OFFSET in your query to show more rows if applicable.\n\n"

  /** The note put before a truncated result. */
  function Preamble(numRows: nat): (p: string)
    ensures p != []
  {
    Opening + Text.Decimal(numRows) + Closing + Text.Decimal(Limit) + Advice
  }

  /** The preamble and the dict for a row-returning statement. */
  function Shape<C>(columns: seq<string>, allRows: seq<seq<C>>): (string, ResultDict<C>)
  {
    if |allRows| > Limit then
      (Preamble(|allRows|), ResultDict(columns, Limit, allRows[..Limit]))
    else
      ("", ResultDict(columns, |allRows|, allRows))
  }

  /** The dict holds the first rows in order, at most 50 of them, counts them
      exactly and keeps the columns; the preamble appears exactly when rows
      were dropped. */
  lemma ShapeSpec<C>(columns: seq<string>, allRows: seq<seq<C>>)
    ensures Shape(columns, allRows).1.columns == columns
    ensures Shape(columns, allRows).1.numRows == |Shape(columns, allRows).1.rows| <= Limit
    ensures Shape(columns, allRows).1.rows == allRows[..|Shape(columns, allRows).1.rows|]
    ensures |allRows| <= Limit ==> Shape(columns, allRows).1.rows == allRows
    ensures |allRows| > Limit ==> |Shape(columns, allRows).1.rows| == Limit
    ensures Shape(columns, allRows).0 == "" <==> |allRows| <= Limit
  {
  }

  /** The preamble opens by naming how many rows the query returned. */
  lemma PreambleCountsRows(numRows: nat)
    ensures Text.StartsWith(Preamble(numRows), "Query returned " + Text.Decimal(numRows) + " rows.")
  {
    var head := Opening + Text.Decimal(numRows);
    assert Closing[..6] == " rows.";
    assert Preamble(numRows) == head + Closing + (Text.Decimal(Limit) + Advice);
    assert (head + Closing)[..|head| + 6] == head + " rows.";
  }

  /** The text the tool returns for a row-returning statement. */
  function Render<C>(columns: seq<string>, allRows: seq<seq<C>>, repr: ResultDict<C> -> string): string
  {
    var (preamble, d) := Shape(columns, allRows);
    preamble + repr(d)
  }
}
