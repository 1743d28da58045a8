/**
 * Construction of the SELECT statement that `v.db.select` sends to the
 * database driver: `SELECT <columns|*> FROM <table>`, optionally followed by
 * ` WHERE <condition>`.  The program formats the fixed parts with `sprintf`
 * into character buffers and copies the NUL-terminated result into a growable
 * database string; the buffers are modelled as arrays of `char`.  A `char`
 * stands for one byte of a C string, so lengths and capacities are in bytes.
 */
module SqlQuery {
  import opened Wrappers

  /** Size of the stack buffer `query` the column part is formatted into. */
  const QueryCapacity: nat := 1024

  const Nul: char := '\0'

  /** A string that can be passed as a C string: it has no NUL character in it. */
  predicate IsCString(s: string)
  {
    Nul !in s
  }

  predicate OptionalCString(o: Option<string>)
  {
    o.Some? ==> IsCString(o.value)
  }

  /** `SELECT <columns> FROM ` with `*` when no column list was given. */
  function SelectPrefix(columns: Option<string>): string
  {
    "SELECT " + (if columns.Some? then columns.value else "*") + " FROM "
  }

  function WhereClause(where: Option<string>): string
  {
    if where.Some? then " WHERE " + where.value else ""
  }

  /** The statement the driver is asked to run. */
  function SelectQuery(columns: Option<string>, table: string, where: Option<string>): string
  {
    SelectPrefix(columns) + table + WhereClause(where)
  }

  /** The shapes of the statement: with and without a column list, and what a condition adds. */
  lemma QueryShapes(columns: Option<string>, table: string, where: Option<string>)
    ensures columns.None? ==> SelectQuery(columns, table, None) == "SELECT * FROM " + table
    ensures columns.Some? ==> SelectQuery(columns, table, None) == "SELECT " + columns.value + " FROM " + table
    ensures where.None? ==> SelectQuery(columns, table, where) == SelectQuery(columns, table, None)
    ensures where.Some? ==>
      SelectQuery(columns, table, where) == SelectQuery(columns, table, None) + " WHERE " + where.value
  {
  }

  /** The heap buffer of `|where| + 8` characters holds the condition clause and its terminator with no room to spare. */
  lemma WhereBufferExactlyFits(where: string)
    ensures |" WHERE " + where| + 1 == |where| + 8
  {
  }

  /** `sprintf(buf, "%s", text)`: the characters of `text`, then the terminating NUL; the rest of `buf` is untouched. */
  method FormatInto(buf: array<char>, text: string)
    requires IsCString(text) && |text| < buf.Length
    modifies buf
    ensures buf[..|text|] == text && buf[|text|] == Nul
    ensures buf[|text| + 1..] == old(buf[|text| + 1..])
  {
    var i := 0;
    while i < |text|
      invariant 0 <= i <= |text|
      invariant buf[..i] == text[..i]
      invariant buf[i..] == old(buf[i..])
    {
      buf[i] := text[i];
      i := i + 1;
    }
    buf[|text|] := Nul;
  }

  /** The C string held by `buf`: the characters before its first NUL. */
  method ReadCString(buf: array<char>) returns (s: string)
    requires Nul in buf[..]
    ensures |s| < buf.Length && s == buf[..|s|] && buf[|s|] == Nul
    ensures IsCString(s)
  {
    var i := 0;
    while buf[i] != Nul
      invariant 0 <= i < buf.Length
      invariant Nul !in buf[..i]
      invariant Nul in buf[i..]
      decreases buf.Length - i
    {
      assert buf[i..] == [buf[i]] + buf[i + 1..];
      assert buf[..i + 1] == buf[..i] + [buf[i]];
      i := i + 1;
    }
    s := buf[..i];
  }

  /**
   * Formats `text` into `buf` and reads it back as a C string: the string
   * read is `text` itself, and `buf` holds it as `FormatInto` leaves it.
   */
  method FormatAndRead(buf: array<char>, text: string) returns (s: string)
    requires IsCString(text) && |text| < buf.Length
    modifies buf
    ensures s == text
    ensures buf[..|text|] == text && buf[|text|] == Nul
    ensures buf[|text| + 1..] == old(buf[|text| + 1..])
  {
    FormatInto(buf, text);
    assert Nul in buf[..] by {
      assert buf[..][|text|] == Nul;
    }
    s := ReadCString(buf);
  }

  /**
   * Lines 106-121 after the column part: the prefix is formatted into
   * `query`, copied into the database string, the table name appended, and,
   * when a condition is given, ` WHERE <condition>` formatted into a fresh
   * buffer of `|condition| + 8` characters and appended.
   */
  method AppendTableAndWhere(query: array<char>, columns: Option<string>, table: string, where: Option<string>)
    returns (sql: string)
    requires OptionalCString(columns) && OptionalCString(where)
    requires |SelectPrefix(columns)| < query.Length
    modifies query
    ensures sql == SelectQuery(columns, table, where)
    ensures var n := |SelectPrefix(columns)|;
            query[..n] == SelectPrefix(columns) && query[n] == Nul && query[n + 1..] == old(query[n + 1..])
  {
    var prefix := SelectPrefix(columns);
    assert IsCString(prefix);
    sql := FormatAndRead(query, prefix);
    sql := sql + table;
    if where.Some? {
      var buf := new char[|where.value| + 8];
      var clause := FormatAndRead(buf, " WHERE " + where.value);
      sql := sql + clause;
    }
  }

  /**
   * The query as the program builds it, with the column part formatted into
   * the fixed 1024-character buffer: the column list must leave room for
   * `SELECT `, ` FROM ` and the terminator.
   */
  method BuildQuery(columns: Option<string>, table: string, where: Option<string>) returns (sql: string)
    requires OptionalCString(columns) && OptionalCString(where)
    requires columns.Some? ==> |columns.value| + 13 < QueryCapacity
    ensures sql == SelectQuery(columns, table, where)
  {
    var query := new char[QueryCapacity];
    sql := AppendTableAndWhere(query, columns, table, where);
  }

  /**
   * A column list of 1011 bytes is an acceptable C string, yet the column
   * part then fills all 1024 bytes of `query` and its terminator is byte
   * 1025: `BuildQuery` cannot be called with it, and the program's `sprintf`
   * writes past the end of the buffer.
   */
  lemma LongColumnListOverflowsQuery()
    ensures var columns := seq(1011, _ => 'c');
      && IsCString(columns)
      && !(|columns| + 13 < QueryCapacity)
      && |SelectPrefix(Some(columns))| == QueryCapacity  // the text fills `query`: no byte is left for its NUL
  {
  }

  /**
   * The query with the column part formatted into a buffer sized from the
   * column list, as the condition clause already is: every column list gives
   * `SELECT <columns> FROM <table>`.
   */
  method BuildQuerySized(columns: Option<string>, table: string, where: Option<string>) returns (sql: string)
    requires OptionalCString(columns) && OptionalCString(where)
    ensures sql == SelectQuery(columns, table, where)
  {
    var query := new char[|SelectPrefix(columns)| + 1];
    sql := AppendTableAndWhere(query, columns, table, where);
  }
}
