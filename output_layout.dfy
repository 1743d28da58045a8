/**
 * Properties of what `v.db.select` prints: how many lines there are, what
 * each line holds in horizontal and vertical mode, that a reader splitting
 * the text at newlines and field separators recovers the table, where the
 * record separator and the null value indicator can appear, and that records
 * are written in cursor order.
 */
module OutputLayout {
  import opened Wrappers
  import opened Text
  import opened AttributePrinter

  /** `c` occurs in no value's text and not in the null value indicator. */
  predicate ValuesAvoid(opts: Options, rows: seq<seq<Value>>, c: char)
  {
    && (opts.nullValue.Some? ==> c !in opts.nullValue.value)
    && forall k, j :: 0 <= k < |rows| && 0 <= j < |rows[k]| ==> c !in rows[k][j].text
  }

  /**
   * Nothing the printer writes contains a newline of its own: not the values,
   * not the field separator, not the column names when they are printed
   * (without `-c`), and not the record separator when it is printed
   * (vertically).
   */
  predicate SingleLineFields(opts: Options, names: seq<string>, rows: seq<seq<Value>>)
  {
    && ValuesAvoid(opts, rows, '\n')
    && '\n' !in opts.fieldSep
    && (!opts.noColumnNames ==> Free(names, '\n'))
    && (opts.vertical && opts.recordSep.Some? ==> '\n' !in opts.recordSep.value)
  }

  lemma FieldTextsAvoid(opts: Options, rows: seq<seq<Value>>, k: nat, c: char)
    requires ValuesAvoid(opts, rows, c) && k < |rows|
    ensures Free(FieldTexts(rows[k], opts.nullValue), c)
  {
  }

  lemma {:induction false} RecordsLinesSingleLine(opts: Options, names: seq<string>, rows: seq<seq<Value>>)
    requires Shaped(names, rows) && SingleLineFields(opts, names, rows)
    ensures Free(RecordsLines(opts, names, rows), '\n')
  {
    if rows != [] {
      var init := rows[..|rows| - 1];
      var last := |rows| - 1;
      RecordsLinesSingleLine(opts, names, init);
      FieldTextsAvoid(opts, rows, last, '\n');
      if !opts.vertical {
        JoinAvoids(FieldTexts(rows[last], opts.nullValue), opts.fieldSep, '\n');
      }
      var recordLines := RecordLines(opts, names, rows[last]);
      assert Free(recordLines, '\n');
      assert RecordsLines(opts, names, rows) == RecordsLines(opts, names, init) + recordLines;
    }
  }

  /** Every printed line is a line: none of them contains a newline of its own. */
  lemma OutputLinesSingleLine(opts: Options, names: seq<string>, rows: seq<seq<Value>>)
    requires Shaped(names, rows) && SingleLineFields(opts, names, rows)
    ensures Free(OutputLines(opts, names, rows), '\n')
  {
    if !opts.vertical && !opts.noColumnNames {
      JoinAvoids(names, opts.fieldSep, '\n');
    }
    RecordsLinesSingleLine(opts, names, rows);
  }

  /** Splitting the output at newlines gives the header and record lines, then the empty rest. */
  lemma OutputSplitsIntoLines(opts: Options, names: seq<string>, rows: seq<seq<Value>>)
    requires Shaped(names, rows) && SingleLineFields(opts, names, rows)
    ensures Split(Output(opts, names, rows), '\n')
      == HeaderLines(opts, names) + RecordsLines(opts, names, rows) + [""]
  {
    OutputLinesSingleLine(opts, names, rows);
    UnlinesThenSplit(OutputLines(opts, names, rows));
  }

  /** Where line `j` of record `k` sits among the record lines when every record has `per` lines. */
  function LineIndex(per: nat, k: nat, j: nat): nat
  {
    k * per + j
  }

  lemma MulSucc(n: nat, m: nat)
    ensures (n + 1) * m == n * m + m
  {
  }

  lemma MulBound(k: nat, n: nat, per: nat, j: nat)
    requires k < n && j < per
    ensures k * per + j < n * per
  {
    MulSucc(k, per);
    assert (k + 1) * per <= n * per;
  }

  /** Each record contributes the same number of lines. */
  lemma {:induction false} RecordsLinesLength(opts: Options, names: seq<string>, rows: seq<seq<Value>>)
    requires Shaped(names, rows)
    ensures |RecordsLines(opts, names, rows)| == |rows| * LinesPerRecord(opts, |names|)
  {
    if rows != [] {
      var per := LinesPerRecord(opts, |names|);
      var init := rows[..|rows| - 1];
      RecordsLinesLength(opts, names, init);
      assert |RecordLines(opts, names, rows[|rows| - 1])| == per;
      MulSucc(|init|, per);
    }
  }

  /** Line `j` of record `k` sits at position `k * per + j` of the record lines. */
  lemma {:induction false} RecordsLinesAt(opts: Options, names: seq<string>, rows: seq<seq<Value>>, k: nat, j: nat)
    requires Shaped(names, rows) && k < |rows| && j < LinesPerRecord(opts, |names|)
    ensures var i := LineIndex(LinesPerRecord(opts, |names|), k, j);
            i < |RecordsLines(opts, names, rows)| && RecordsLines(opts, names, rows)[i] == RecordLines(opts, names, rows[k])[j]
  {
    var per := LinesPerRecord(opts, |names|);
    var i := LineIndex(per, k, j);
    var init := rows[..|rows| - 1];
    var before := RecordsLines(opts, names, init);
    var last := RecordLines(opts, names, rows[|rows| - 1]);
    RecordsLinesLength(opts, names, init);
    assert RecordsLines(opts, names, rows) == before + last;
    if k < |init| {
      MulBound(k, |init|, per, j);
      RecordsLinesAt(opts, names, init, k, j);
      assert init[k] == rows[k];
      assert i < |before|;
    } else {
      assert i == |before| + j;
    }
  }

  /**
   * Horizontal mode without `-c`: the first line is the column names in
   * table order joined by the field separator.  With a one-character
   * separator other than newline that occurs in no name, and names without
   * newlines, splitting the line at it gives the names back: no separator
   * before the first or after the last.  Values and `vs` are unrestricted.
   */
  lemma HorizontalHeader(opts: Options, names: seq<string>, rows: seq<seq<Value>>, d: char)
    requires !opts.vertical && !opts.noColumnNames && opts.fieldSep == [d] && d != '\n'
    requires Shaped(names, rows) && |names| >= 1
    requires Free(names, d) && Free(names, '\n')
    ensures var lines := Split(Output(opts, names, rows), '\n');
            Split(lines[0], d) == names
  {
    var header := Join(names, [d]);
    var lines := OutputLines(opts, names, rows);
    assert lines[0] == header;
    assert Output(opts, names, rows) == header + "\n" + Unlines(lines[1..]);
    JoinAvoids(names, [d], '\n');
    SplitAtFirst(header, Unlines(lines[1..]), '\n');
    JoinThenSplit(names, d);
  }

  /** A record line of the split output sits after the header lines and before the empty rest. */
  lemma PickLine(lines: seq<string>, header: seq<string>, records: seq<string>, i: nat)
    requires lines == header + records + [""] && i < |records|
    ensures |header| + i < |lines| - 1 && lines[|header| + i] == records[i]
  {
  }

  /** In horizontal mode record `k` is the `k`-th of the record lines: its printed values joined by the field separator. */
  lemma HorizontalRecordsAt(opts: Options, names: seq<string>, rows: seq<seq<Value>>, k: nat)
    requires !opts.vertical && Shaped(names, rows) && k < |rows|
    ensures var records := RecordsLines(opts, names, rows);
            k < |records| && records[k] == Join(FieldTexts(rows[k], opts.nullValue), opts.fieldSep)
  {
    assert LineIndex(LinesPerRecord(opts, |names|), k, 0) == k;
    RecordsLinesAt(opts, names, rows, k, 0);
  }

  /**
   * Horizontal mode: record `k` is the single line after the header (if
   * any) and the `k` records before it, holding the record's printed values
   * in column order.  With a one-character field separator that occurs in no
   * value and not in `nv`, splitting the line at it gives those values back;
   * the column names and `vs` play no part.
   */
  lemma HorizontalRecord(opts: Options, names: seq<string>, rows: seq<seq<Value>>, d: char, k: nat)
    requires !opts.vertical && opts.fieldSep == [d]
    requires Shaped(names, rows) && |names| >= 1 && k < |rows|
    requires SingleLineFields(opts, names, rows) && ValuesAvoid(opts, rows, d)
    ensures var lines := Split(Output(opts, names, rows), '\n');
            var h := if opts.noColumnNames then 0 else 1;
            && h + k < |lines| - 1
            && Split(lines[h + k], d) == FieldTexts(rows[k], opts.nullValue)
  {
    var texts := FieldTexts(rows[k], opts.nullValue);
    OutputSplitsIntoLines(opts, names, rows);
    HorizontalRecordsAt(opts, names, rows, k);
    FieldTextsAvoid(opts, rows, k, d);
    JoinThenSplit(texts, d);
  }


  /**
   * The number of lines: a header line only in horizontal mode without `-c`;
   * then per record one line horizontally, or one per field plus one for the
   * record separator vertically.  Every line, the last included, ends with
   * a newline, so the text is empty exactly when there are no lines (with
   * `-v` and no records, say) and otherwise ends with a newline.
   */
  lemma OutputLineCount(opts: Options, names: seq<string>, rows: seq<seq<Value>>)
    requires Shaped(names, rows) && SingleLineFields(opts, names, rows)
    ensures var lines := Split(Output(opts, names, rows), '\n');
            var header := if !opts.vertical && !opts.noColumnNames then 1 else 0;
            var per := if !opts.vertical then 1 else |names| + (if opts.recordSep.Some? then 1 else 0);
            var out := Output(opts, names, rows);
            && |lines| == header + |rows| * per + 1
            && lines[|lines| - 1] == ""
            && (out == "" <==> header + |rows| * per == 0)
            && (out != "" ==> out[|out| - 1] == '\n')
  {
    OutputSplitsIntoLines(opts, names, rows);
    RecordsLinesLength(opts, names, rows);
    UnlinesEnd(OutputLines(opts, names, rows));
  }


  /** Line `j` of record `k` among the record lines printed vertically: field `j`, or after the last field the record separator. */
  lemma VerticalRecordsAt(opts: Options, names: seq<string>, rows: seq<seq<Value>>, k: nat, j: nat)
    requires opts.vertical && Shaped(names, rows)
    requires k < |rows| && j < |names| + (if opts.recordSep.Some? then 1 else 0)
    ensures var records := RecordsLines(opts, names, rows);
            var i := LineIndex(LinesPerRecord(opts, |names|), k, j);
            && i < |records|
            && records[i] ==
                 if j == |names| then opts.recordSep.value
                 else if opts.noColumnNames then FieldText(rows[k][j], opts.nullValue)
                 else names[j] + opts.fieldSep + FieldText(rows[k][j], opts.nullValue)
  {
    var records := RecordsLines(opts, names, rows);
    var record := RecordLines(opts, names, rows[k]);
    var i := LineIndex(LinesPerRecord(opts, |names|), k, j);
    assert i < |records| && records[i] == record[j] by {
      RecordsLinesAt(opts, names, rows, k, j);
    }
    if j < |names| {
      assert record[j] == FieldLines(opts, names, rows[k])[j] == FieldLine(opts, names[j], rows[k][j]);
    } else {
      assert record[j] == opts.recordSep.value;
    }
  }

  /**
   * Vertical mode: no header; record `k` occupies `|names|` lines, one per
   * field, holding `name + fs + value`, or the bare value with `-c`, followed
   * by one line holding the record separator when one is given.
   */
  lemma VerticalLayout(opts: Options, names: seq<string>, rows: seq<seq<Value>>, k: nat, j: nat)
    requires opts.vertical && Shaped(names, rows) && SingleLineFields(opts, names, rows)
    requires k < |rows| && j < |names| + (if opts.recordSep.Some? then 1 else 0)
    ensures var lines := Split(Output(opts, names, rows), '\n');
            var i := LineIndex(LinesPerRecord(opts, |names|), k, j);
            && i < |lines| - 1
            && lines[i] ==
                 if j == |names| then opts.recordSep.value
                 else if opts.noColumnNames then FieldText(rows[k][j], opts.nullValue)
                 else names[j] + opts.fieldSep + FieldText(rows[k][j], opts.nullValue)
  {
    var records := RecordsLines(opts, names, rows);
    OutputSplitsIntoLines(opts, names, rows);
    VerticalRecordsAt(opts, names, rows, k, j);
    PickLine(Split(Output(opts, names, rows), '\n'), HeaderLines(opts, names), records,
      LineIndex(LinesPerRecord(opts, |names|), k, j));
  }




  lemma {:induction false} RecordsLinesAgree(
    o1: Options, o2: Options, names: seq<string>, rows1: seq<seq<Value>>, rows2: seq<seq<Value>>)
    requires Shaped(names, rows1) && Shaped(names, rows2) && |rows1| == |rows2|
    requires forall k :: 0 <= k < |rows1| ==> RecordLines(o1, names, rows1[k]) == RecordLines(o2, names, rows2[k])
    ensures RecordsLines(o1, names, rows1) == RecordsLines(o2, names, rows2)
  {
    if rows1 != [] {
      var n := |rows1| - 1;
      assert forall k :: 0 <= k < n ==> rows1[..n][k] == rows1[k] && rows2[..n][k] == rows2[k];
      RecordsLinesAgree(o1, o2, names, rows1[..n], rows2[..n]);
      assert RecordLines(o1, names, rows1[n]) == RecordLines(o2, names, rows2[n]);
    }
  }

  /** In horizontal mode the vertical record separator is never printed: the output is the same whatever it is. */
  lemma HorizontalIgnoresRecordSeparator(
    opts: Options, names: seq<string>, rows: seq<seq<Value>>, recordSep: Option<string>)
    requires !opts.vertical && Shaped(names, rows)
    ensures Output(opts.(recordSep := recordSep), names, rows) == Output(opts, names, rows)
  {
    RecordsLinesAgree(opts.(recordSep := recordSep), opts, names, rows, rows);
  }

  /** A record with every NULL value replaced by a non-NULL value whose text is the indicator, when one is given. */
  function ReplaceNulls(row: seq<Value>, nullValue: Option<string>): seq<Value>
  {
    seq(|row|, i requires 0 <= i < |row| =>
      if nullValue.Some? && row[i].isNull then Value(false, nullValue.value) else row[i])
  }

  function ReplaceNullsInRows(rows: seq<seq<Value>>, nullValue: Option<string>): seq<seq<Value>>
  {
    seq(|rows|, k requires 0 <= k < |rows| => ReplaceNulls(rows[k], nullValue))
  }

  /**
   * The null value indicator acts on NULL values only: printing with it is
   * printing without it the records whose NULLs were replaced by it.  Without
   * an indicator nothing is replaced, and a NULL prints as its text.
   */
  lemma NullValueSubstitutes(opts: Options, names: seq<string>, rows: seq<seq<Value>>)
    requires Shaped(names, rows)
    ensures opts.nullValue.None? ==> ReplaceNullsInRows(rows, opts.nullValue) == rows
    ensures Shaped(names, ReplaceNullsInRows(rows, opts.nullValue))
    ensures Output(opts, names, rows)
      == Output(opts.(nullValue := None), names, ReplaceNullsInRows(rows, opts.nullValue))
  {
    var plain := opts.(nullValue := None);
    var replaced := ReplaceNullsInRows(rows, opts.nullValue);
    if opts.nullValue.None? {
      forall k | 0 <= k < |rows| ensures replaced[k] == rows[k] {
        assert ReplaceNulls(rows[k], None) == rows[k];
      }
    }
    forall k | 0 <= k < |rows|
      ensures RecordLines(opts, names, rows[k]) == RecordLines(plain, names, replaced[k])
    {
      assert FieldTexts(rows[k], opts.nullValue) == FieldTexts(replaced[k], None);
      assert FieldLines(opts, names, rows[k]) == FieldLines(plain, names, replaced[k]);
    }
    RecordsLinesAgree(opts, plain, names, rows, replaced);
  }

  lemma ConcatAssoc(x: seq<string>, y: seq<string>, z: seq<string>)
    ensures x + y + z == x + (y + z)
  {
  }

  /** Splitting off the last record of `a + b`, for a non-empty `b`. */
  lemma AppendParts(names: seq<string>, a: seq<seq<Value>>, b: seq<seq<Value>>)
    requires Shaped(names, a) && Shaped(names, b) && b != []
    ensures Shaped(names, a + b) && Shaped(names, b[..|b| - 1])
    ensures (a + b)[..|a + b| - 1] == a + b[..|b| - 1]
    ensures (a + b)[|a + b| - 1] == b[|b| - 1]
  {
    var init := b[..|b| - 1];
    forall k | 0 <= k < |init| ensures |init[k]| == |names| {
      assert init[k] == b[k];
    }
    forall k | 0 <= k < |a + b| ensures |(a + b)[k]| == |names| {
      if k >= |a| {
        assert (a + b)[k] == b[k - |a|];
      }
    }
  }

  lemma {:induction false} RecordsLinesAppend(
    opts: Options, names: seq<string>, a: seq<seq<Value>>, b: seq<seq<Value>>)
    requires Shaped(names, a) && Shaped(names, b)
    ensures Shaped(names, a + b)
    ensures RecordsLines(opts, names, a + b) == RecordsLines(opts, names, a) + RecordsLines(opts, names, b)
  {
    if b == [] {
      assert a + b == a;
    } else {
      var init := b[..|b| - 1];
      var last := RecordLines(opts, names, b[|b| - 1]);
      AppendParts(names, a, b);
      RecordsLinesAppend(opts, names, a, init);
      assert RecordsLines(opts, names, a + b) == RecordsLines(opts, names, a + init) + last;
      ConcatAssoc(RecordsLines(opts, names, a), RecordsLines(opts, names, init), last);
    }
  }

  /**
   * Records are written in cursor order, each complete before the next: the
   * output for a cursor is the output for its first `n` records followed by
   * the lines of the remaining ones.
   */
  lemma OutputStreamsRecords(opts: Options, names: seq<string>, rows: seq<seq<Value>>, n: nat)
    requires Shaped(names, rows) && n <= |rows|
    ensures Output(opts, names, rows)
      == Output(opts, names, rows[..n]) + Unlines(RecordsLines(opts, names, rows[n..]))
  {
    assert rows == rows[..n] + rows[n..];
    RecordsLinesAppend(opts, names, rows[..n], rows[n..]);
    var header := HeaderLines(opts, names);
    assert OutputLines(opts, names, rows)
      == (header + RecordsLines(opts, names, rows[..n])) + RecordsLines(opts, names, rows[n..]);
    UnlinesAppend(
      HeaderLines(opts, names) + RecordsLines(opts, names, rows[..n]),
      RecordsLines(opts, names, rows[n..]));
  }
}
