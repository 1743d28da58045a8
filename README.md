# v.db.select attribute printer, in Dafny

A model of the core of GRASS GIS's `v.db.select` module (`vector/v.db.select/main.c`). The module prints the attribute table of a vector map layer. It does two things:

1. It builds the SQL statement `SELECT <columns|*> FROM <table>`. When a condition is given it appends ` WHERE <condition>`. The column part is formatted with `sprintf` into the stack buffer `char query[1024]`. The condition clause is formatted into a heap buffer of `strlen(where) + 8` characters.
2. It opens a select cursor on that statement and writes the result to standard output. In horizontal mode the output is a header of column names (omitted with `-c`), followed by one line per record, with the values joined by the field separator `fs`. In vertical mode (`-v`) each field gets its own line, `name fs value` (or the bare value with `-c`). When `vs` is given, each record is followed by a line holding the record separator `vs`. When `nv` is given, NULL values print as that indicator.

Files and modules:

- `wrappers.dfy` (`Wrappers`): `Option`, for options that may be absent.
- `text.dfy` (`Text`): `Join`, `Unlines` and their inverse `Split`, with the round-trip lemmas. A reader of the printed text uses `Split` to take it apart again.
- `sql_query.dfy` (`SqlQuery`): the statement as a function (`SelectQuery`), and the methods that build it. They format into `char` arrays the way `sprintf` does, then read the NUL-terminated result back into the growable database string.
- `attribute_printer.dfy` (`AttributePrinter`): options, values, the cursor, and the expected output as a function (`Output`, built from `OutputLines`). It also holds the printing methods, which mirror the header loop, the fetch loop and the column loop. Standard output is the string `out` the methods append to.
- `output_layout.dfy` (`OutputLayout`): what the output looks like in each mode, proved about `Output`.
- `db_select.dfy` (`DbSelect`): `Select`, which goes from statement to cursor to printed output, as `main` does.

Abstractions:

- The database driver is the function `openCursor` from statement text to the cursor it opens (`None` when `db_open_select_cursor` fails).
- A cursor is its column names, the records that successive `db_fetch` calls deliver, and whether the fetch after the last of them fails. A fetch that fails after any number of records is therefore covered.
- Each value carries its NULL flag and the text `db_convert_column_value_to_string` produced.
- `G_fatal_error` becomes an `Exit` value (`Failure(CursorNotOpened)`, `Failure(FetchFailed(table))`). The output already written stays written.

## Model

| member | source | states |
|---|---|---|
| SqlQuery.QueryShapes | vector/v.db.select/main.c:106-121 | Without a column list the statement is `"SELECT * FROM " + table`; with one it is `"SELECT " + cols + " FROM " + table`. A condition appends exactly `" WHERE " + where`, and its absence appends nothing. |
| SqlQuery.WhereBufferExactlyFits | vector/v.db.select/main.c:117-118 | The `strlen(where) + 8` buffer holds `" WHERE " + where` and its terminator with no room to spare. |
| SqlQuery.FormatInto | vector/v.db.select/main.c:107-109 | `sprintf` into a buffer larger than the text: the text's characters, then NUL, and every byte after the terminator is left as it was. Requires the text to fit with its terminator. |
| SqlQuery.ReadCString | vector/v.db.select/main.c:111 | Reading a C string from a buffer gives the characters before its first NUL, and they contain no NUL. |
| SqlQuery.FormatAndRead | vector/v.db.select/main.c:107-111 | Formatting a NUL-free text into a buffer and reading it back gives the text unchanged. The buffer is left holding the text, its NUL, and its old bytes after that. |
| SqlQuery.AppendTableAndWhere | vector/v.db.select/main.c:111-121 | The column part formatted into `query`, plus the table name, plus the condition clause formatted into a buffer of `len(where) + 8` characters, is exactly `SelectQuery(columns, table, where)`. Afterwards `query` holds the column part and its NUL, and its later bytes are unchanged. |
| SqlQuery.BuildQuery | vector/v.db.select/main.c:106-121 | With the 1024-character `query` buffer declared at line 43, and a column list satisfying `len(cols) + 13 < 1024` (the precondition for the `sprintf` to fit), the statement built is exactly `SelectQuery(columns, table, where)`. |
| SqlQuery.LongColumnListOverflowsQuery | vector/v.db.select/main.c:106-107 | A 1011-byte column list is a valid C string. It violates `BuildQuery`'s precondition, and its column part alone fills all 1024 bytes of `query`, so the terminating NUL (byte 1025) falls outside it. |
| SqlQuery.BuildQuerySized | vector/v.db.select/main.c:106-121 | With the column buffer sized from the column list, every column list and condition gives exactly `SelectQuery(columns, table, where)`. |
| AttributePrinter.PrintHeader | vector/v.db.select/main.c:130-137 | The header loop writes the column names in table order, with `fs` between neighbours and none before the first or after the last, then a newline. |
| AttributePrinter.PrintColumn | vector/v.db.select/main.c:148-164 | Written after the record's first `col` columns, one more column leaves exactly the first `col + 1` written: the record's lines so far when vertical, the first `col + 1` printed values joined by `fs` when horizontal. |
| AttributePrinter.PrintRecord | vector/v.db.select/main.c:147-169 | A record's column loop plus its terminator writes exactly the record's lines: one `fs`-joined line horizontally; vertically a line per field, then `vs` when given. |
| AttributePrinter.PrintAttributes | vector/v.db.select/main.c:129-170 | The header and fetch loop write exactly `Output` of the records the cursor delivers, each complete, in cursor order. The run ends in `FetchFailed(table)` exactly when a fetch fails, and otherwise succeeds. |
| AttributePrinter.RecordProgress | vector/v.db.select/main.c:152-164 | Column `col` appends, in order: `name fs` only when vertical without `-c`; `fs` only when horizontal and not the first column; the value or `nv`; a newline only when vertical. |
| AttributePrinter.RecordTerminated | vector/v.db.select/main.c:166-169 | All columns plus the terminator (`"\n"` horizontally; `vs + "\n"` or nothing vertically) equal the record's lines. |
| AttributePrinter.RecordsLinesStep | vector/v.db.select/main.c:140-170 | One more fetched record extends the output of the previous records by exactly that record's lines. |
| OutputLayout.OutputSplitsIntoLines | vector/v.db.select/main.c:129-170 | When no name, value or separator contains a newline, splitting the output at newlines gives the header lines, then the record lines, then the empty remainder. |
| OutputLayout.RecordsLinesLength | vector/v.db.select/main.c:147-169 | Every record contributes the same number of lines: 1 horizontally, `ncols` (+1 with `vs`) vertically. |
| OutputLayout.RecordsLinesAt | vector/v.db.select/main.c:140-170 | Line `j` of record `k` is line `k * per + j` of the records' output, so records appear in cursor order. |
| OutputLayout.HorizontalRecordsAt | vector/v.db.select/main.c:147-167 | In horizontal mode, record `k` is the `k`-th record line: its printed values (`nv` for NULLs when given) joined by `fs`. |
| OutputLayout.VerticalRecordsAt | vector/v.db.select/main.c:152-169 | In vertical mode, line `j` of record `k` among the record lines is field `j`, either `name + fs + value` or the bare value with `-c`. After the last field comes the `vs` line when `vs` is given. |
| OutputLayout.OutputLineCount | vector/v.db.select/main.c:129-170 | The output has a header line only when neither `-v` nor `-c` is set, then `len(rows) * per` lines. Every line, the last included, ends with a newline: the output is empty exactly when there are no lines (with `-v` and no records, say), and otherwise its last character is a newline. |
| OutputLayout.HorizontalHeader | vector/v.db.select/main.c:130-137 | In horizontal mode without `-c`, splitting the first line at a one-character `fs` (not a newline) gives back the column names in order, with no leading or trailing separator, whenever no name contains `fs` or a newline. Values and `vs` may contain anything. |
| OutputLayout.HorizontalRecord | vector/v.db.select/main.c:147-167 | In horizontal mode, record `k` is exactly one line (after the header, if any). Splitting it at a one-character `fs` that occurs in no value and not in `nv` gives back the record's printed values in column order. The column names and `vs` are unrestricted here, except that names must be free of newlines when the header is printed. |
| OutputLayout.VerticalLayout | vector/v.db.select/main.c:152-169 | In vertical mode field `j` of record `k` is its own line: `name + fs + value`, or the bare value with `-c`. When `vs` is given, the record's next line is `vs`. |
| OutputLayout.HorizontalIgnoresRecordSeparator | vector/v.db.select/main.c:166-169 | In horizontal mode the output is the same whatever `vs` is: `vs` is never printed. |
| OutputLayout.NullValueSubstitutes | vector/v.db.select/main.c:158-161 | Printing with `nv` equals printing without it after each NULL value is replaced by `nv`. Without `nv` nothing is replaced, so a NULL prints as its converted text. |
| OutputLayout.OutputStreamsRecords | vector/v.db.select/main.c:140-145 | The output for a cursor is the output for its first `n` records followed by the lines of the rest. Output stopped after `n` records is a prefix of the full output and ends on a record boundary. |
| DbSelect.Select | vector/v.db.select/main.c:106-170 | The statement sent to the driver is `SelectQuery(columns, table, where)`. If no cursor opens, the run fails with nothing printed. Otherwise it prints `Output` of the delivered records and ends as the cursor's fetches do. |

## Findings

| source | as written | input that shows it | evidently intended | confidence | as-written member | corrected member |
|---|---|---|---|---|---|---|
| vector/v.db.select/main.c:106-107 | `sprintf(query, "SELECT %s FROM ", columns)` writes into `char query[1024]` (line 43) with no length check | `columns=` set to a 1011-byte column list: the formatted text plus terminator is 1025 bytes, which overruns the buffer | any column list yields `SELECT <cols> FROM <table>`, the way the condition clause already gets a buffer sized from its input (line 117) | high; not executed | SqlQuery.BuildQuery, SqlQuery.LongColumnListOverflowsQuery | SqlQuery.BuildQuerySized |

`DbSelect.Select` uses the corrected `BuildQuerySized`.

## Left out

- Option and flag declaration, `G_gisinit` and `G_parser` (lines 45-81). The parsed values are parameters: `Options` (`fs`, `vs`, `nv`, `-c`, `-v`), plus the column list and the condition.
- Finding and opening the vector map, looking up the layer's database connection, and starting and shutting down the driver (lines 84-104, 172-176). These are I/O and library calls. The check at line 172 cannot fail after line 102.
- The DBMI cursor and driver (`db_open_select_cursor`, `db_get_cursor_table`, `db_fetch`, `db_get_column_value`, `db_convert_column_value_to_string`). They are library code that is not part of this model. The driver is the `openCursor` parameter. A cursor is a value holding its column names, its records and whether its final fetch fails. Each value's text is the driver's conversion, taken as given.
- `G_fatal_error`: termination and the message text are not modelled. The run ends with an `Exit` value that names the error kind (and the table, for a failed fetch).
- Standard output is one string. How `fprintf` calls group characters and how stdout is buffered are not modelled.
- C strings: the column list and the condition pass through `sprintf` buffers, so they are required to contain no NUL character. No C string can contain one.
- Strings are C byte strings: one Dafny `char` stands for one byte, so `len(s)` is `strlen(s)`. Buffer sizes, the `len(where) + 8` buffer and the 1011-byte column list of the finding are all counted in bytes. A multi-byte UTF-8 character occupies several `char`s: 600 two-byte characters such as `й` are 1200 bytes and already overflow `query`. Character sets and encodings are not modelled.
- OutputLayout.HorizontalHeader: the round trip is stated for a one-character field separator that occurs in no name, and for at least one column. A longer or colliding separator still prints as stated by `Output`, but splitting cannot undo it. With zero columns the header is the empty line, and splitting it gives one empty name, not none.
- OutputLayout.HorizontalRecord: the round trip is stated for a one-character field separator that occurs in no value and not in `nv`, for at least one column, and for output without embedded newlines. With zero columns each record is an empty line, and splitting it gives one empty value, not none.
- Every layout lemma that splits the output at newlines assumes that nothing printed contains a newline of its own: no value, `nv` or `fs`, no column name unless `-c` is set, and no `vs` in vertical mode. Otherwise "lines" of the output are not records or fields. `Output` itself has no such restriction.
- Turning the printed text back into a table on the reader's side is represented only by `Text.Split`, which the round-trip lemmas use.
- `lib/imagery/testsuite/test_imagery_find.py` and `python/grass/jupyter/testsuite/interactivemap_test.py`: tests of other components (the imagery library's signature search, an interactive map widget). They involve files and rendering and are not part of this model.
