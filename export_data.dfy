/**
 * The SQL INSERT serialiser of daily_update/export_data.py.
 *
 * Each of the three daily tables is read from a start date on and written as
 * one `INSERT INTO t (cols) VALUES (vals);` line per row: `None` becomes
 * `NULL`, numbers are written bare, temporal values are quoted, and every
 * other value is quoted with its single quotes doubled. The whole export
 * succeeds only if every table does.
 */
module ExportData {
  import opened Common
  import opened Decimal

  /**
   * One cell of a query result, as the serialiser's `isinstance` chain sees
   * it. Numbers that are not integers and temporal values carry their `str()`
   * text; `OtherValue` is any other type (a `Decimal`, say).
   */
  datatype Value =
    | Null
    | IntValue(i: int)
    | FloatValue(text: string)
    | DateTimeValue(text: string)
    | DateValue(text: string)
    | TextValue(s: string)
    | OtherValue(text: string)

  /** The characters of Python's `str()` of a float: digits, sign, point, exponent, `nan` and `inf`. */
  const FloatChars: set<char> := {'0', '1', '2', '3', '4', '5', '6', '7', '8', '9', '-', '+', '.', 'e', 'n', 'a', 'i', 'f'}

  /** Text that `str()` of a float can produce. */
  predicate IsFloatText(t: string)
  {
    forall c :: c in t ==> c in FloatChars
  }

  /** The error a value can raise in the serialiser as written. */
  datatype RenderError = NameError

  /** What the query returned: an error, or the column names and rows. */
  datatype QueryResult = QueryFailed | Rows(columns: seq<string>, rows: seq<seq<Value>>)

  /**
   * The file written for one table: the "no data" comment alone, or the
   * header comments followed by INSERT lines. The comment text and the
   * export timestamp are not modelled.
   */
  datatype ExportFile = NoData(table: string, startDate: string) | Inserts(table: string, startDate: string, lines: seq<string>)

  // ---------------------------------------------------------------------------
  // String literals
  // ---------------------------------------------------------------------------

  /** `s.replace("'", "''")`. */
  function Escape(s: string): (r: string)
    ensures |r| == |s| + QuoteCount(s)
  {
    if s == [] then []
    else (if s[0] == '\'' then "''" else [s[0]]) + Escape(s[1..])
  }

  function QuoteCount(s: string): nat
  {
    if s == [] then 0 else (if s[0] == '\'' then 1 else 0) + QuoteCount(s[1..])
  }

  /** How a SQL reader undoes `Escape`: every `''` collapses to `'`. */
  function Unescape(t: string): string
  {
    if |t| >= 2 && t[0] == '\'' && t[1] == '\'' then "'" + Unescape(t[2..])
    else if t == [] then []
    else [t[0]] + Unescape(t[1..])
  }

  /** Collapsing `''` back to `'` recovers the original string. */
  lemma {:induction false} UnescapeEscape(s: string)
    ensures Unescape(Escape(s)) == s
  {
    if s != [] {
      UnescapeEscape(s[1..]);
      var rest := Escape(s[1..]);
      if s[0] == '\'' {
        assert Escape(s) == "''" + rest;
        assert (("''" + rest)[2..]) == rest;
      } else {
        assert Escape(s) == [s[0]] + rest;
        assert ([s[0]] + rest)[1..] == rest;
      }
      assert s == [s[0]] + s[1..];
    }
  }

  /** Every quote of an escaped string is one of a doubled pair. */
  lemma {:induction false} EscapedQuotesPaired(s: string, k: int)
    requires 0 <= k < |Escape(s)| && Escape(s)[k] == '\''
    ensures (k + 1 < |Escape(s)| && Escape(s)[k + 1] == '\'') || (k > 0 && Escape(s)[k - 1] == '\'')
  {
    var head := if s[0] == '\'' then "''" else [s[0]];
    assert Escape(s) == head + Escape(s[1..]);
    if k >= |head| {
      EscapedQuotesPaired(s[1..], k - |head|);
    }
  }

  /** A quoted SQL string literal. */
  function Quote(s: string): string
  {
    "'" + Escape(s) + "'"
  }

  /** A SQL reader's value of a quoted literal: strip the quotes and collapse `''`. */
  function Unquote(t: string): Option<string>
  {
    if |t| >= 2 && t[0] == '\'' && t[|t| - 1] == '\'' then Some(Unescape(t[1..|t| - 1])) else None
  }

  lemma QuoteRoundTrip(s: string)
    ensures Unquote(Quote(s)) == Some(s)
  {
    var q := Quote(s);
    assert q[1..|q| - 1] == Escape(s);
    UnescapeEscape(s);
  }

  // ---------------------------------------------------------------------------
  // Values
  // ---------------------------------------------------------------------------

  /**
   * The value's SQL text, with the temporal test as evidently intended:
   * `datetime` and `date` values are quoted as they are.
   */
  function RenderValue(v: Value): string
  {
    match v
    case Null => "NULL"
    case IntValue(i) => IntToString(i)
    case FloatValue(text) => text
    case DateTimeValue(text) => "'" + text + "'"
    case DateValue(text) => "'" + text + "'"
    case TextValue(s) => Quote(s)
    case OtherValue(text) => Quote(text)
  }

  /**
   * The value's SQL text as line 126 is written: the name `date` is never
   * imported, so the second `isinstance` raises `NameError` for every value
   * that reaches it, i.e. every value that is not `None`, a number or a
   * `datetime`.
   */
  function RenderValueAsWritten(v: Value): Result<string, RenderError>
  {
    match v
    case Null => Ok("NULL")
    case IntValue(i) => Ok(IntToString(i))
    case FloatValue(text) => Ok(text)
    case DateTimeValue(text) => Ok("'" + text + "'")
    case _ => Err(NameError)
  }

  /**
   * The SQL reader gets back what was exported: a string round-trips through
   * its literal, an integer through its digits, and a null is `NULL`.
   */
  lemma RenderValueReadsBack(v: Value)
    requires v.FloatValue? ==> IsFloatText(v.text)
    ensures v.TextValue? ==> Unquote(RenderValue(v)) == Some(v.s)
    ensures v.IntValue? ==> ParseInt(RenderValue(v)) == v.i
    ensures RenderValue(v) == "NULL" <==> v.Null?
  {
    match v
    case TextValue(s) => QuoteRoundTrip(s);
    case IntValue(i) =>
      ParseIntToString(i);
      DigitsNotNull(i);
    case Null =>
    case FloatValue(text) =>
      assert 'N' !in FloatChars;
      assert text == "NULL" ==> 'N' in text;
    case DateTimeValue(text) => assert RenderValue(v)[0] == '\'';
    case DateValue(text) => assert RenderValue(v)[0] == '\'';
    case OtherValue(text) => assert RenderValue(v)[0] == '\'';
  }

  /** An integer's digits end in a digit, so they never read as `NULL`. */
  lemma DigitsNotNull(i: int)
    ensures IntToString(i) != "NULL"
  {
    var digits := NatToString(if i < 0 then -i else i);
    var t := IntToString(i);
    assert t[|t| - 1] == digits[|digits| - 1];
  }

  /** The two renderings agree wherever the one as written does not raise. */
  lemma RenderValueAsWrittenAgrees(v: Value)
    ensures RenderValueAsWritten(v).Ok? ==> RenderValueAsWritten(v).value == RenderValue(v)
    ensures RenderValueAsWritten(v).Err? <==> v.DateValue? || v.TextValue? || v.OtherValue?
  {
  }

  // ---------------------------------------------------------------------------
  // INSERT lines
  // ---------------------------------------------------------------------------

  /** `sep.join(parts)`. */
  function Join(parts: seq<string>, sep: string): string
  {
    if parts == [] then ""
    else if |parts| == 1 then parts[0]
    else Join(parts[..|parts| - 1], sep) + sep + parts[|parts| - 1]
  }

  /** The joined text is the parts and one separator per gap between them. */
  lemma {:induction false} JoinLength(parts: seq<string>, sep: string)
    ensures parts != [] ==> |Join(parts, sep)| == (|parts| - 1) * |sep| + SumLengths(parts)
  {
    if |parts| > 1 {
      JoinLength(parts[..|parts| - 1], sep);
      assert SumLengths(parts) == SumLengths(parts[..|parts| - 1]) + |parts[|parts| - 1]|;
    }
  }

  function SumLengths(parts: seq<string>): nat
  {
    if parts == [] then 0 else SumLengths(parts[..|parts| - 1]) + |parts[|parts| - 1]|
  }

  /** One INSERT statement and its newline. */
  function InsertLine(table: string, columns: seq<string>, values: seq<string>): string
  {
    "INSERT INTO " + table + " (" + Join(columns, ", ") + ") VALUES (" + Join(values, ", ") + ");\n"
  }

  /** Every row has one value per column. */
  predicate WellShaped(columns: seq<string>, rows: seq<seq<Value>>)
  {
    forall r :: r in rows ==> |r| == |columns|
  }

  /** The rendered values of one row, in column order. */
  function RowValues(row: seq<Value>): (values: seq<string>)
    ensures |values| == |row|
  {
    seq(|row|, k requires 0 <= k < |row| => RenderValue(row[k]))
  }

  /** The INSERT lines of the rows, one per row, in query order. */
  function InsertLines(table: string, columns: seq<string>, rows: seq<seq<Value>>): (lines: seq<string>)
    ensures |lines| == |rows|
  {
    seq(|rows|, i requires 0 <= i < |rows| => InsertLine(table, columns, RowValues(rows[i])))
  }

  /** The value loop of one row. */
  method BuildValues(row: seq<Value>) returns (values: seq<string>)
    ensures |values| == |row|
    ensures forall k :: 0 <= k < |row| ==> values[k] == RenderValue(row[k])
  {
    values := [];
    for k := 0 to |row|
      invariant |values| == k
      invariant forall j :: 0 <= j < k ==> values[j] == RenderValue(row[j])
    {
      var value := row[k];
      var text: string;
      match value {
        case Null => text := "NULL";
        case IntValue(i) => text := IntToString(i);
        case FloatValue(t) => text := t;
        case DateTimeValue(t) => text := "'" + t + "'";
        case DateValue(t) => text := "'" + t + "'";
        case TextValue(s) => text := "'" + Escape(s) + "'";
        case OtherValue(t) => text := "'" + Escape(t) + "'";
      }
      values := values + [text];
    }
  }

  // ---------------------------------------------------------------------------
  // export_table_data
  // ---------------------------------------------------------------------------

  /**
   * The outcome of exporting one table: whether it succeeded and the file it
   * left. A failed query, or rows that do not fit the columns (the DataFrame
   * constructor raises), give `False` and no file. A frame without rows or
   * without columns is `empty`.
   */
  function TableExport(table: string, startDate: string, q: QueryResult): (bool, Option<ExportFile>)
  {
    if q.QueryFailed? || !WellShaped(q.columns, q.rows) then (false, None)
    else if q.rows == [] || q.columns == [] then (true, Some(NoData(table, startDate)))
    else (true, Some(Inserts(table, startDate, InsertLines(table, q.columns, q.rows))))
  }

  /**
   * The file of a successful export of rows holds one INSERT line per row,
   * each listing every column once and one value per column, and a string
   * cell reads back as the original string.
   */
  lemma TableExportLines(table: string, startDate: string, q: QueryResult, i: int, k: int)
    requires q.Rows? && WellShaped(q.columns, q.rows)
    requires 0 <= i < |q.rows| && 0 <= k < |q.columns|
    ensures var out := TableExport(table, startDate, q);
      && out.0
      && out.1 == Some(Inserts(table, startDate, InsertLines(table, q.columns, q.rows)))
      && |out.1.value.lines| == |q.rows|
      && out.1.value.lines[i] == InsertLine(table, q.columns, RowValues(q.rows[i]))
      && |RowValues(q.rows[i])| == |q.columns|
      && (q.rows[i][k].TextValue? ==> Unquote(RowValues(q.rows[i])[k]) == Some(q.rows[i][k].s))
  {
    assert q.rows[i] in q.rows;
    if q.rows[i][k].TextValue? {
      RenderValueReadsBack(q.rows[i][k]);
    }
  }

  lemma InsertLinesStep(table: string, columns: seq<string>, rows: seq<seq<Value>>, i: int)
    requires 0 <= i < |rows|
    ensures InsertLines(table, columns, rows[..i + 1]) ==
      InsertLines(table, columns, rows[..i]) + [InsertLine(table, columns, RowValues(rows[i]))]
  {
  }

  /** The row loop: one INSERT line per row. */
  method WriteInserts(table: string, columns: seq<string>, rows: seq<seq<Value>>) returns (lines: seq<string>)
    ensures lines == InsertLines(table, columns, rows)
  {
    lines := [];
    for i := 0 to |rows|
      invariant lines == InsertLines(table, columns, rows[..i])
    {
      var values := BuildValues(rows[i]);
      assert values == RowValues(rows[i]);
      InsertLinesStep(table, columns, rows, i);
      lines := lines + [InsertLine(table, columns, values)];
    }
    assert rows[..|rows|] == rows;
  }

  /** `export_table_data`, with the temporal test as evidently intended. */
  method ExportTable(table: string, startDate: string, q: QueryResult) returns (ok: bool, file: Option<ExportFile>)
    ensures (ok, file) == TableExport(table, startDate, q)
    ensures ok <==> q.Rows? && WellShaped(q.columns, q.rows)
  {
    if q.QueryFailed? || !WellShaped(q.columns, q.rows) {
      return false, None;
    }
    if |q.rows| == 0 || |q.columns| == 0 {
      return true, Some(NoData(table, startDate));
    }
    var lines := WriteInserts(table, q.columns, q.rows);
    ok, file := true, Some(Inserts(table, startDate, lines));
  }

  /** The rendered values of one row as written: the first `NameError` ends it. */
  function RowValuesAsWritten(row: seq<Value>): Result<seq<string>, RenderError>
  {
    if row == [] then Ok([])
    else match (RowValuesAsWritten(row[..|row| - 1]), RenderValueAsWritten(row[|row| - 1]))
      case (Ok(prefix), Ok(text)) => Ok(prefix + [text])
      case (Err(e), _) => Err(e)
      case (_, Err(e)) => Err(e)
  }

  /**
   * `export_table_data` as written: the first row holding a value that
   * raises ends the export with `False`, after the header and the lines of
   * the earlier rows are written.
   */
  function TableExportAsWritten(table: string, startDate: string, q: QueryResult): (bool, Option<ExportFile>)
  {
    if q.QueryFailed? || !WellShaped(q.columns, q.rows) then (false, None)
    else if q.rows == [] || q.columns == [] then (true, Some(NoData(table, startDate)))
    else
      var (ok, lines) := AsWrittenLines(table, q.columns, q.rows);
      (ok, Some(Inserts(table, startDate, lines)))
  }

  function AsWrittenLines(table: string, columns: seq<string>, rows: seq<seq<Value>>): (bool, seq<string>)
  {
    if rows == [] then (true, [])
    else
      var (ok, lines) := AsWrittenLines(table, columns, rows[..|rows| - 1]);
      if !ok then (false, lines)
      else match RowValuesAsWritten(rows[|rows| - 1])
        case Ok(values) => (true, lines + [InsertLine(table, columns, values)])
        case Err(_) => (false, lines)
  }

  lemma {:induction false} RowValuesAsWrittenFails(row: seq<Value>, k: int)
    requires 0 <= k < |row| && RenderValueAsWritten(row[k]).Err?
    ensures RowValuesAsWritten(row).Err?
  {
    if k < |row| - 1 {
      assert row[..|row| - 1][k] == row[k];
      RowValuesAsWrittenFails(row[..|row| - 1], k);
    }
  }

  lemma {:induction false} AsWrittenLinesFail(table: string, columns: seq<string>, rows: seq<seq<Value>>, i: int, k: int)
    requires 0 <= i < |rows| && 0 <= k < |rows[i]| && RenderValueAsWritten(rows[i][k]).Err?
    ensures !AsWrittenLines(table, columns, rows).0
  {
    if i < |rows| - 1 {
      assert rows[..|rows| - 1][i] == rows[i];
      AsWrittenLinesFail(table, columns, rows[..|rows| - 1], i, k);
    } else {
      RowValuesAsWrittenFails(rows[i], k);
    }
  }

  /**
   * As written, one string cell anywhere (every daily table has a text
   * `symbol` column) makes the table's export return `False`, where the
   * intended serialiser succeeds.
   */
  lemma NameErrorFailsExport(table: string, startDate: string, q: QueryResult, i: int, k: int)
    requires q.Rows? && WellShaped(q.columns, q.rows)
    requires 0 <= i < |q.rows| && 0 <= k < |q.columns| && q.rows[i][k].TextValue?
    ensures !TableExportAsWritten(table, startDate, q).0
    ensures TableExport(table, startDate, q).0
  {
    assert q.rows[i] in q.rows;
    AsWrittenLinesFail(table, q.columns, q.rows, i, k);
  }

  /** The smallest such input: one `daily_stock` row whose only column is the symbol. */
  lemma NameErrorExample()
    ensures !TableExportAsWritten("daily_stock", "2024-01-01", Rows(["symbol"], [[TextValue("000001")]])).0
    ensures TableExport("daily_stock", "2024-01-01", Rows(["symbol"], [[TextValue("000001")]])).0
  {
    var q := Rows(["symbol"], [[TextValue("000001")]]);
    NameErrorFailsExport("daily_stock", "2024-01-01", q, 0, 0);
  }

  /** Every cell of the rows renders as written, without `NameError`. */
  predicate RendersAsWritten(rows: seq<seq<Value>>)
  {
    forall row, v :: row in rows && v in row ==> RenderValueAsWritten(v).Ok?
  }

  lemma {:induction false} RowValuesAsWrittenOk(row: seq<Value>)
    requires forall v :: v in row ==> RenderValueAsWritten(v).Ok?
    ensures RowValuesAsWritten(row).Ok?
  {
    if row != [] {
      assert row[|row| - 1] in row;
      RowValuesAsWrittenOk(row[..|row| - 1]);
    }
  }

  lemma {:induction false} AsWrittenLinesOk(table: string, columns: seq<string>, rows: seq<seq<Value>>)
    requires RendersAsWritten(rows)
    ensures AsWrittenLines(table, columns, rows).0
  {
    if rows != [] {
      assert rows[|rows| - 1] in rows;
      RowValuesAsWrittenOk(rows[|rows| - 1]);
      AsWrittenLinesOk(table, columns, rows[..|rows| - 1]);
    }
  }

  /**
   * As written, a table's export succeeds exactly when its query succeeds
   * and no cell is a date, a string or another non-numeric value; every
   * daily table has a text `symbol` column, so only an empty table passes.
   */
  lemma TableExportAsWrittenSucceeds(table: string, startDate: string, q: QueryResult)
    ensures TableExportAsWritten(table, startDate, q).0 <==> q.Rows? && WellShaped(q.columns, q.rows) && RendersAsWritten(q.rows)
  {
    if q.Rows? && WellShaped(q.columns, q.rows) {
      if RendersAsWritten(q.rows) {
        AsWrittenLinesOk(table, q.columns, q.rows);
      } else {
        var row, v :| row in q.rows && v in row && RenderValueAsWritten(v).Err?;
        var i :| 0 <= i < |q.rows| && q.rows[i] == row;
        var k :| 0 <= k < |row| && row[k] == v;
        AsWrittenLinesFail(table, q.columns, q.rows, i, k);
      }
    }
  }

  /** Some cell of the rows is a string. */
  predicate HasTextCell(rows: seq<seq<Value>>)
  {
    exists row, v :: row in rows && v in row && v.TextValue?
  }

  lemma TextCellDoesNotRender(rows: seq<seq<Value>>)
    requires HasTextCell(rows)
    ensures !RendersAsWritten(rows)
  {
  }

  /** The value loop of one row as written: the first value that raises ends it. */
  method BuildValuesAsWritten(row: seq<Value>) returns (r: Result<seq<string>, RenderError>)
    ensures r == RowValuesAsWritten(row)
  {
    var values := [];
    for k := 0 to |row|
      invariant RowValuesAsWritten(row[..k]) == Ok(values)
    {
      assert row[..k + 1][..k] == row[..k];
      var text: string;
      match row[k] {
        case Null => text := "NULL";
        case IntValue(i) => text := IntToString(i);
        case FloatValue(t) => text := t;
        case DateTimeValue(t) => text := "'" + t + "'";
        case _ =>
          RowValuesAsWrittenFails(row, k);
          assert RowValuesAsWritten(row).error == NameError;
          return Err(NameError);
      }
      values := values + [text];
    }
    assert row[..|row|] == row;
    r := Ok(values);
  }

  /** Once the statements of a prefix of the rows fail, so do those of all rows, with the same lines. */
  lemma {:induction false} AsWrittenLinesStop(table: string, columns: seq<string>, rows: seq<seq<Value>>, n: int)
    requires 0 <= n <= |rows|
    requires !AsWrittenLines(table, columns, rows[..n]).0
    ensures AsWrittenLines(table, columns, rows) == AsWrittenLines(table, columns, rows[..n])
    decreases |rows| - n
  {
    if n < |rows| {
      assert rows[..n + 1][..n] == rows[..n];
      AsWrittenLinesStop(table, columns, rows, n + 1);
    } else {
      assert rows[..n] == rows;
    }
  }

  /** The row loop as written: the first row holding a value that raises ends it. */
  method WriteInsertsAsWritten(table: string, columns: seq<string>, rows: seq<seq<Value>>) returns (ok: bool, lines: seq<string>)
    ensures (ok, lines) == AsWrittenLines(table, columns, rows)
  {
    lines := [];
    for i := 0 to |rows|
      invariant AsWrittenLines(table, columns, rows[..i]) == (true, lines)
    {
      assert rows[..i + 1][..i] == rows[..i];
      var values := BuildValuesAsWritten(rows[i]);
      if values.Err? {
        AsWrittenLinesStop(table, columns, rows, i + 1);
        return false, lines;
      }
      lines := lines + [InsertLine(table, columns, values.value)];
    }
    assert rows[..|rows|] == rows;
    ok := true;
  }

  /** `export_table_data` as written. */
  method ExportTableAsWritten(table: string, startDate: string, q: QueryResult) returns (ok: bool, file: Option<ExportFile>)
    ensures (ok, file) == TableExportAsWritten(table, startDate, q)
  {
    if q.QueryFailed? || !WellShaped(q.columns, q.rows) {
      return false, None;
    }
    if |q.rows| == 0 || |q.columns| == 0 {
      return true, Some(NoData(table, startDate));
    }
    var lines;
    ok, lines := WriteInsertsAsWritten(table, q.columns, q.rows);
    file := Some(Inserts(table, startDate, lines));
  }

  // ---------------------------------------------------------------------------
  // export_data and main
  // ---------------------------------------------------------------------------

  /** The tables exported, in order. */
  const Tables: seq<string> := ["daily_stock", "daily_index", "daily_etf"]

  /**
   * `export_data`: every table is exported even after one fails, and the
   * result is true exactly when all three succeed. `queries[i]` is what the
   * query of `Tables[i]` returns.
   */
  method ExportAll(startDate: string, queries: seq<QueryResult>) returns (success: bool, files: seq<Option<ExportFile>>)
    requires |queries| == |Tables|
    ensures |files| == |Tables|
    ensures forall i :: 0 <= i < |Tables| ==> files[i] == TableExport(Tables[i], startDate, queries[i]).1
    ensures success <==> forall i :: 0 <= i < |Tables| ==> queries[i].Rows? && WellShaped(queries[i].columns, queries[i].rows)
  {
    success := true;
    files := [];
    for i := 0 to |Tables|
      invariant |files| == i
      invariant forall j :: 0 <= j < i ==> files[j] == TableExport(Tables[j], startDate, queries[j]).1
      invariant success <==> forall j :: 0 <= j < i ==> queries[j].Rows? && WellShaped(queries[j].columns, queries[j].rows)
    {
      var ok, file := ExportTable(Tables[i], startDate, queries[i]);
      if !ok {
        success := false;
      }
      files := files + [file];
    }
  }

  /**
   * `main`: a non-positive day count exits with status 1 before any export.
   * The start date, `days` before the clock's date, is a parameter; it is
   * `None` when that subtraction overflows, which `export_data` catches and
   * reports as failure, so nothing is exported and the status is 1.
   * Otherwise the status is 0 exactly when the export succeeds.
   */
  method RunExport(days: int, startDate: Option<string>, queries: seq<QueryResult>) returns (status: int, files: seq<Option<ExportFile>>)
    requires |queries| == |Tables|
    ensures days <= 0 ==> status == 1 && files == []
    ensures startDate.None? ==> status == 1 && files == []
    ensures days > 0 && startDate.Some? ==> |files| == |Tables|
    ensures days > 0 && startDate.Some? ==>
      (status == 0 <==> forall i :: 0 <= i < |Tables| ==> TableExport(Tables[i], startDate.value, queries[i]).0)
    ensures status == 0 || status == 1
  {
    if days <= 0 {
      return 1, [];
    }
    if startDate.None? {
      return 1, [];
    }
    var success;
    success, files := ExportAll(startDate.value, queries);
    status := if success then 0 else 1;
  }

  /**
   * `export_data` over the serialiser as written: every table is still
   * exported, and the result is true exactly when every query succeeds and
   * no table holds a date, text or other non-numeric cell.
   */
  method ExportAllAsWritten(startDate: string, queries: seq<QueryResult>) returns (success: bool, files: seq<Option<ExportFile>>)
    requires |queries| == |Tables|
    ensures |files| == |Tables|
    ensures forall i :: 0 <= i < |Tables| ==> files[i] == TableExportAsWritten(Tables[i], startDate, queries[i]).1
    ensures success <==> forall i :: 0 <= i < |Tables| ==>
      queries[i].Rows? && WellShaped(queries[i].columns, queries[i].rows) && RendersAsWritten(queries[i].rows)
  {
    success := true;
    files := [];
    for i := 0 to |Tables|
      invariant |files| == i
      invariant forall j :: 0 <= j < i ==> files[j] == TableExportAsWritten(Tables[j], startDate, queries[j]).1
      invariant success <==> forall j :: 0 <= j < i ==>
        queries[j].Rows? && WellShaped(queries[j].columns, queries[j].rows) && RendersAsWritten(queries[j].rows)
    {
      var ok, file := ExportTableAsWritten(Tables[i], startDate, queries[i]);
      TableExportAsWrittenSucceeds(Tables[i], startDate, queries[i]);
      if !ok {
        success := false;
      }
      files := files + [file];
    }
  }

  /**
   * `main` over the serialiser as written: a non-positive day count, or a
   * start date whose computation overflows, exits with status 1 before any
   * export; otherwise a table holding a text cell (any non-empty daily
   * table, through its `symbol` column) makes the status 1.
   */
  method RunExportAsWritten(days: int, startDate: Option<string>, queries: seq<QueryResult>) returns (status: int, files: seq<Option<ExportFile>>)
    requires |queries| == |Tables|
    ensures days <= 0 ==> status == 1 && files == []
    ensures startDate.None? ==> status == 1 && files == []
    ensures days > 0 && startDate.Some? ==> |files| == |Tables|
    ensures days > 0 && startDate.Some? ==>
      (status == 0 <==> forall i :: 0 <= i < |Tables| ==> TableExportAsWritten(Tables[i], startDate.value, queries[i]).0)
    ensures (exists i :: 0 <= i < |Tables| && queries[i].Rows? && HasTextCell(queries[i].rows)) ==> status == 1
  {
    if days <= 0 {
      return 1, [];
    }
    if startDate.None? {
      return 1, [];
    }
    var date := startDate.value;
    var success;
    success, files := ExportAllAsWritten(date, queries);
    forall i | 0 <= i < |Tables|
      ensures TableExportAsWritten(Tables[i], date, queries[i]).0 <==>
        queries[i].Rows? && WellShaped(queries[i].columns, queries[i].rows) && RendersAsWritten(queries[i].rows)
    {
      TableExportAsWrittenSucceeds(Tables[i], date, queries[i]);
    }
    if exists i :: 0 <= i < |Tables| && queries[i].Rows? && HasTextCell(queries[i].rows) {
      var i :| 0 <= i < |Tables| && queries[i].Rows? && HasTextCell(queries[i].rows);
      TextCellDoesNotRender(queries[i].rows);
    }
    status := if success then 0 else 1;
  }
}
