/**
 * The attribute printer of `v.db.select`: the column-name header and the
 * fetch loop that writes every record of the select cursor to standard
 * output, horizontally (one line per record) or vertically (one line per
 * field).  Standard output is the string `out` the printer appends to; the
 * database cursor is a value holding the column names, the records it
 * delivers in order, and whether the fetch after the last of them fails.
 */
module AttributePrinter {
  import opened Wrappers
  import opened Text

  /** A column value of a fetched record: whether it is NULL, and its text as the driver converts it. */
  datatype Value = Value(isNull: bool, text: string)

  /** The parsed command-line options that shape the output. */
  datatype Options = Options(
    fieldSep: string,           // fs=
    recordSep: Option<string>,  // vs=, the vertical record separator
    nullValue: Option<string>,  // nv=, the null value indicator
    noColumnNames: bool,        // -c
    vertical: bool)             // -v

  /**
   * An open select cursor: the names of the result table's columns, the
   * records that successive fetches deliver, and whether the fetch after the
   * last of them fails instead of reporting that there are no more records.
   */
  datatype Cursor = Cursor(columns: seq<string>, rows: seq<seq<Value>>, failsAfterRows: bool)

  datatype Fetched = Record(values: seq<Value>) | NoMore | FetchError

  /** The fatal errors of the printer and its caller; each ends the program. */
  datatype Fatal = CursorNotOpened | FetchFailed(table: string)

  datatype Exit = Success | Failure(error: Fatal)

  /** The answer of the `pos`-th fetch on the cursor. */
  function Fetch(cursor: Cursor, pos: nat): Fetched
  {
    if pos < |cursor.rows| then Record(cursor.rows[pos])
    else if cursor.failsAfterRows then FetchError
    else NoMore
  }

  /** Every record has one value per column. */
  predicate Shaped(names: seq<string>, rows: seq<seq<Value>>)
  {
    forall k :: 0 <= k < |rows| ==> |rows[k]| == |names|
  }

  // ---------------------------------------------------------------------
  // The expected output, line by line

  /** What a value prints as: the null value indicator for a NULL when one was given, its text otherwise. */
  function FieldText(v: Value, nullValue: Option<string>): string
  {
    if nullValue.Some? && v.isNull then nullValue.value else v.text
  }

  function FieldTexts(row: seq<Value>, nullValue: Option<string>): seq<string>
  {
    seq(|row|, i requires 0 <= i < |row| => FieldText(row[i], nullValue))
  }

  /** The header: the column names joined by the field separator, in horizontal mode with column names only. */
  function HeaderLines(opts: Options, names: seq<string>): seq<string>
  {
    if !opts.vertical && !opts.noColumnNames then [Join(names, opts.fieldSep)] else []
  }

  /** A field in vertical mode: `name` + separator + value, or the bare value without column names. */
  function FieldLine(opts: Options, name: string, v: Value): string
  {
    (if opts.noColumnNames then "" else name + opts.fieldSep) + FieldText(v, opts.nullValue)
  }

  function FieldLines(opts: Options, names: seq<string>, row: seq<Value>): seq<string>
    requires |row| == |names|
  {
    seq(|row|, j requires 0 <= j < |row| => FieldLine(opts, names[j], row[j]))
  }

  /**
   * The lines of one record: horizontally one line of values joined by the
   * field separator; vertically a line per field, then the record separator
   * on its own line when one was given.
   */
  function RecordLines(opts: Options, names: seq<string>, row: seq<Value>): seq<string>
    requires |row| == |names|
  {
    if !opts.vertical then [Join(FieldTexts(row, opts.nullValue), opts.fieldSep)]
    else FieldLines(opts, names, row) + (if opts.recordSep.Some? then [opts.recordSep.value] else [])
  }

  function LinesPerRecord(opts: Options, ncols: nat): nat
  {
    if !opts.vertical then 1 else ncols + (if opts.recordSep.Some? then 1 else 0)
  }

  /** The lines of the records, in cursor order. */
  function RecordsLines(opts: Options, names: seq<string>, rows: seq<seq<Value>>): seq<string>
    requires Shaped(names, rows)
    decreases |rows|
  {
    if rows == [] then []
    else RecordsLines(opts, names, rows[..|rows| - 1]) + RecordLines(opts, names, rows[|rows| - 1])
  }

  function OutputLines(opts: Options, names: seq<string>, rows: seq<seq<Value>>): seq<string>
    requires Shaped(names, rows)
  {
    HeaderLines(opts, names) + RecordsLines(opts, names, rows)
  }

  /** Everything the printer writes for the given records. */
  function Output(opts: Options, names: seq<string>, rows: seq<seq<Value>>): string
    requires Shaped(names, rows)
  {
    Unlines(OutputLines(opts, names, rows))
  }

  /** What has been written of a record once its first `col` columns are done. */
  ghost function PartialRecord(opts: Options, names: seq<string>, row: seq<Value>, col: nat): string
    requires |row| == |names| && col <= |row|
  {
    if opts.vertical then Unlines(FieldLines(opts, names, row)[..col])
    else Join(FieldTexts(row, opts.nullValue)[..col], opts.fieldSep)
  }

  // ---------------------------------------------------------------------
  // The printer

  /** Lines 130-137: the column names separated by the field separator, then a newline. */
  method PrintHeader(opts: Options, names: seq<string>, out0: string) returns (out: string)
    requires !opts.vertical && !opts.noColumnNames
    ensures out == out0 + Unlines(HeaderLines(opts, names))
  {
    out := out0;
    var col := 0;
    while col < |names|
      invariant 0 <= col <= |names|
      invariant out == out0 + Join(names[..col], opts.fieldSep)
    {
      assert names[..col + 1] == names[..col] + [names[col]];
      if col > 0 {
        out := out + opts.fieldSep;
        JoinSnoc(names[..col], names[col], opts.fieldSep);
      }
      out := out + names[col];
      col := col + 1;
    }
    out := out + "\n";
    assert names[..|names|] == names;
  }

  /**
   * Lines 148-164: one column of a fetched record.  Written after the
   * record's first `col` columns, it leaves the first `col + 1` written.
   */
  method PrintColumn(opts: Options, names: seq<string>, row: seq<Value>, col: nat, ghost base: string, out0: string)
    returns (out: string)
    requires |row| == |names| && col < |row|
    requires out0 == base + PartialRecord(opts, names, row, col)
    ensures out == base + PartialRecord(opts, names, row, col + 1)
  {
    var text := row[col].text;
    var name := if !opts.noColumnNames && opts.vertical then names[col] + opts.fieldSep else "";
    var sep := if col > 0 && !opts.vertical then opts.fieldSep else "";
    var value := if opts.nullValue.Some? && row[col].isNull then opts.nullValue.value else text;
    var end := if opts.vertical then "\n" else "";
    var piece := name + sep + value + end;
    ColumnWritten(opts, names, row, col, base, out0, piece);
    out := out0 + piece;
  }

  /** Lines 147-169: one fetched record, column by column, then its terminator. */
  method PrintRecord(opts: Options, names: seq<string>, row: seq<Value>, out0: string) returns (out: string)
    requires |row| == |names|
    ensures out == out0 + Unlines(RecordLines(opts, names, row))
  {
    out := out0;
    var col := 0;
    assert PartialRecord(opts, names, row, 0) == "" by {
      if opts.vertical {
        assert FieldLines(opts, names, row)[..0] == [];
      } else {
        assert FieldTexts(row, opts.nullValue)[..0] == [];
      }
    }
    while col < |names|
      invariant 0 <= col <= |names|
      invariant out == out0 + PartialRecord(opts, names, row, col)
    {
      out := PrintColumn(opts, names, row, col, out0, out);
      col := col + 1;
    }
    if !opts.vertical {
      out := out + "\n";
    } else if opts.recordSep.Some? {
      out := out + opts.recordSep.value + "\n";
    }
    RecordTerminated(opts, names, row);
  }

  /**
   * Lines 129-170: prints the header, then fetches and prints records until
   * the cursor reports no more; a failing fetch is fatal.  Whatever happens,
   * the output is that of exactly the records delivered, each one complete.
   */
  method PrintAttributes(opts: Options, table: string, cursor: Cursor) returns (out: string, exit: Exit)
    requires Shaped(cursor.columns, cursor.rows)
    ensures out == Output(opts, cursor.columns, cursor.rows)
    ensures exit == if cursor.failsAfterRows then Failure(FetchFailed(table)) else Success
  {
    var names := cursor.columns;
    out := "";
    exit := Success;
    if !opts.vertical && !opts.noColumnNames {
      out := PrintHeader(opts, names, out);
    }

    var pos := 0;
    assert cursor.rows[..0] == [];
    assert out == Unlines(HeaderLines(opts, names) + RecordsLines(opts, names, cursor.rows[..0]));
    while true
      invariant 0 <= pos <= |cursor.rows|
      invariant out == Unlines(HeaderLines(opts, names) + RecordsLines(opts, names, cursor.rows[..pos]))
      decreases |cursor.rows| - pos
    {
      var fetched := Fetch(cursor, pos);
      if fetched.FetchError? {
        assert cursor.rows[..pos] == cursor.rows;
        exit := Failure(FetchFailed(table));
        return;
      }
      if fetched.NoMore? {
        assert cursor.rows[..pos] == cursor.rows;
        break;
      }
      assert fetched.values == cursor.rows[pos];
      out := PrintRecord(opts, names, fetched.values, out);
      RecordsLinesStep(opts, names, cursor.rows, pos);
      pos := pos + 1;
    }
  }

  /** Printing column `col` of a record extends its partial output by that column. */
  lemma RecordProgress(opts: Options, names: seq<string>, row: seq<Value>, col: nat)
    requires |row| == |names| && col < |row|
    ensures PartialRecord(opts, names, row, col + 1) ==
      PartialRecord(opts, names, row, col)
      + (if opts.vertical && !opts.noColumnNames then names[col] + opts.fieldSep else "")
      + (if !opts.vertical && col > 0 then opts.fieldSep else "")
      + FieldText(row[col], opts.nullValue)
      + (if opts.vertical then "\n" else "")
  {
    if opts.vertical {
      VerticalProgress(opts, names, row, col);
    } else {
      HorizontalProgress(opts, names, row, col);
    }
  }

  /** `RecordProgress` in vertical mode: the field's line and its newline. */
  lemma VerticalProgress(opts: Options, names: seq<string>, row: seq<Value>, col: nat)
    requires opts.vertical && |row| == |names| && col < |row|
    ensures PartialRecord(opts, names, row, col + 1) ==
      PartialRecord(opts, names, row, col)
      + (if opts.noColumnNames then "" else names[col] + opts.fieldSep)
      + FieldText(row[col], opts.nullValue)
      + "\n"
  {
    var lines := FieldLines(opts, names, row);
    var name := if opts.noColumnNames then "" else names[col] + opts.fieldSep;
    var value := FieldText(row[col], opts.nullValue);
    assert lines[col] == name + value;
    assert lines[..col + 1] == lines[..col] + [lines[col]];
    UnlinesAppend(lines[..col], [lines[col]]);
    assert Unlines([lines[col]]) == name + value + "\n";
    AppendAssoc(Unlines(lines[..col]), name, value);
    AppendAssoc(Unlines(lines[..col]), name + value, "\n");
  }

  /** `RecordProgress` in horizontal mode: the separator before all but the first value, then the value. */
  lemma HorizontalProgress(opts: Options, names: seq<string>, row: seq<Value>, col: nat)
    requires !opts.vertical && |row| == |names| && col < |row|
    ensures PartialRecord(opts, names, row, col + 1) ==
      PartialRecord(opts, names, row, col)
      + (if col > 0 then opts.fieldSep else "")
      + FieldText(row[col], opts.nullValue)
  {
    var texts := FieldTexts(row, opts.nullValue);
    assert texts[..col + 1] == texts[..col] + [texts[col]];
    if col > 0 {
      JoinSnoc(texts[..col], texts[col], opts.fieldSep);
    }
  }

  /** The step `PrintColumn` takes: what one column writes, after the first `col`, leaves `col + 1` written. */
  lemma ColumnWritten(opts: Options, names: seq<string>, row: seq<Value>, col: nat, base: string, out0: string, piece: string)
    requires |row| == |names| && col < |row|
    requires out0 == base + PartialRecord(opts, names, row, col)
    requires piece ==
      (if opts.vertical && !opts.noColumnNames then names[col] + opts.fieldSep else "")
      + (if !opts.vertical && col > 0 then opts.fieldSep else "")
      + FieldText(row[col], opts.nullValue)
      + (if opts.vertical then "\n" else "")
    ensures out0 + piece == base + PartialRecord(opts, names, row, col + 1)
  {
    var p := PartialRecord(opts, names, row, col);
    var name := if opts.vertical && !opts.noColumnNames then names[col] + opts.fieldSep else "";
    var sep := if !opts.vertical && col > 0 then opts.fieldSep else "";
    var value := FieldText(row[col], opts.nullValue);
    var end := if opts.vertical then "\n" else "";
    RecordProgress(opts, names, row, col);
    AppendAssoc(p, name, sep);
    AppendAssoc(p, name + sep, value);
    AppendAssoc(p, name + sep + value, end);
    AppendAssoc(base, p, piece);
  }

  /** All columns of a record followed by its terminator are exactly the record's lines. */
  lemma RecordTerminated(opts: Options, names: seq<string>, row: seq<Value>)
    requires |row| == |names|
    ensures PartialRecord(opts, names, row, |names|)
      + (if !opts.vertical then "\n" else if opts.recordSep.Some? then opts.recordSep.value + "\n" else "")
      == Unlines(RecordLines(opts, names, row))
  {
    if opts.vertical {
      var lines := FieldLines(opts, names, row);
      assert lines[..|names|] == lines;
      if opts.recordSep.Some? {
        UnlinesAppend(lines, [opts.recordSep.value]);
      } else {
        assert RecordLines(opts, names, row) == lines;
      }
    } else {
      var texts := FieldTexts(row, opts.nullValue);
      assert texts[..|names|] == texts;
    }
  }

  /** One more record printed after the output of the first `pos` records gives the output of the first `pos + 1`. */
  lemma RecordsLinesStep(opts: Options, names: seq<string>, rows: seq<seq<Value>>, pos: nat)
    requires Shaped(names, rows) && pos < |rows|
    ensures Unlines(HeaderLines(opts, names) + RecordsLines(opts, names, rows[..pos + 1])) ==
      Unlines(HeaderLines(opts, names) + RecordsLines(opts, names, rows[..pos]))
      + Unlines(RecordLines(opts, names, rows[pos]))
  {
    assert rows[..pos + 1][..pos] == rows[..pos];
    var done := HeaderLines(opts, names) + RecordsLines(opts, names, rows[..pos]);
    assert HeaderLines(opts, names) + RecordsLines(opts, names, rows[..pos + 1])
      == done + RecordLines(opts, names, rows[pos]);
    UnlinesAppend(done, RecordLines(opts, names, rows[pos]));
  }
}
