/**
 * `v.db.select` from the moment the layer's attribute table and database
 * driver are known: build the SELECT statement, ask the driver for a cursor
 * on it, and print the result set.  The driver is the function `openCursor`
 * from statement text to the cursor it opens, or `None` when it cannot.
 */
module DbSelect {
  import opened Wrappers
  import opened SqlQuery
  import opened AttributePrinter

  /**
   * Lines 106-170.  The statement sent to the driver is the SELECT on the
   * table with the column list and condition given; if no cursor opens the
   * run ends fatally with nothing printed, otherwise it prints exactly the
   * output of the records the cursor delivers and ends as the cursor does.
   * The statement is built by `BuildQuerySized`, the corrected builder: the
   * program as written formats the column part into the 1024-byte `query`
   * and overruns it for column lists of 1011 bytes or more (see
   * `BuildQuery` and `LongColumnListOverflowsQuery`).
   */
  method Select(
    opts: Options, columns: Option<string>, table: string, where: Option<string>,
    openCursor: string -> Option<Cursor>)
    returns (sql: string, out: string, exit: Exit)
    requires OptionalCString(columns) && OptionalCString(where)
    requires forall q :: openCursor(q).Some? ==> Shaped(openCursor(q).value.columns, openCursor(q).value.rows)
    ensures sql == SelectQuery(columns, table, where)
    ensures openCursor(sql).None? ==> out == "" && exit == Failure(CursorNotOpened)
    ensures openCursor(sql).Some? ==>
      var cursor := openCursor(sql).value;
      && out == Output(opts, cursor.columns, cursor.rows)
      && exit == if cursor.failsAfterRows then Failure(FetchFailed(table)) else Success
  {
    sql := BuildQuerySized(columns, table, where);
    var answer := openCursor(sql);
    if answer.None? {
      return sql, "", Failure(CursorNotOpened);
    }
    out, exit := PrintAttributes(opts, table, answer.value);
  }
}
