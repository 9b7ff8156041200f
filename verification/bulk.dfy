/**
 * Bulk user import and export.
 *
 * Import reads CSV text: the first non-blank line names the columns, and every
 * further non-blank line is a row that is validated and counted. Nothing is
 * stored; the result only reports which rows would be accepted. Export renders
 * users either as CSV with every value in double quotes or as tab-separated
 * text. The template is a header line and one sample row.
 */
module Bulk {
  import opened Outcomes
  import opened Text
  import opened Entities

  const NoHeaders := "Invalid CSV format: No headers found"
  const MissingFields := "Missing required fields: username, email, firstName, lastName"
  const BadEmail := "Invalid email format"

  /** A rejected row: its 1-based position among the non-blank lines, the message and the row as read. */
  datatype RowError<D> = RowError(row: int, error: string, data: D)

  /** The row object: each header's cell, as the import builds it. */
  type RowObject = map<string, string>

  datatype ImportResult = ImportResult(
    success: bool,
    totalProcessed: int,
    successCount: int,
    errorCount: int,
    errors: seq<RowError<RowObject>>)

  // ---------------------------------------------------------------- reading CSV

  /**
   * `filter(line => line.trim())`: the lines that are not all whitespace, in
   * order. A trimmed line is falsy exactly when it is empty, that is when the
   * line is blank.
   */
  function NonBlank(lines: seq<string>): (r: seq<string>)
    ensures |r| <= |lines|
    decreases |lines|
  {
    if |lines| == 0 then []
    else (if Blank(lines[0]) then [] else [lines[0]]) + NonBlank(lines[1..])
  }

  /** The filter keeps exactly the lines that are not blank. */
  lemma {:induction false} NonBlankMembers(lines: seq<string>)
    ensures forall x :: x in NonBlank(lines) <==> x in lines && !Blank(x)
    decreases |lines|
  {
    if |lines| > 0 {
      NonBlankMembers(lines[1..]);
      assert lines == [lines[0]] + lines[1..];
    }
  }

  /** Filtering keeps the order: it distributes over concatenation. */
  lemma {:induction false} NonBlankAppend(a: seq<string>, b: seq<string>)
    ensures NonBlank(a + b) == NonBlank(a) + NonBlank(b)
    decreases |a|
  {
    if |a| == 0 {
      assert a + b == b;
    } else {
      assert (a + b)[1..] == a[1..] + b;
      NonBlankAppend(a[1..], b);
    }
  }

  /** Lines none of which is blank all survive the filter. */
  lemma {:induction false} NonBlankKeeps(lines: seq<string>)
    requires forall k :: 0 <= k < |lines| ==> !Blank(lines[k])
    ensures NonBlank(lines) == lines
    decreases |lines|
  {
    if |lines| > 0 {
      NonBlankKeeps(lines[1..]);
      assert lines == [lines[0]] + lines[1..];
    }
  }

  /** The non-blank lines of the file. */
  function Lines(text: string): seq<string> {
    NonBlank(Split(text, '\n'))
  }

  /** `line.split(',').map(v => v.trim())`. */
  function Cells(line: string): (r: seq<string>)
    ensures |r| == |Split(line, ',')| >= 1
    ensures forall k :: 0 <= k < |r| ==> r[k] == Trim(Split(line, ',')[k])
  {
    var parts := Split(line, ',');
    seq(|parts|, k requires 0 <= k < |parts| => Trim(parts[k]))
  }

  /** `values[index] || ''`: a cell past the end of the row reads as the empty string. */
  function Cell(values: seq<string>, k: nat): string {
    if k < |values| then values[k] else ""
  }

  /** The row object: every header names the cell in its column, assigned left to right. */
  function RowData(headers: seq<string>, values: seq<string>): map<string, string>
    decreases |headers|
  {
    if |headers| == 0 then map[]
    else
      var n := |headers| - 1;
      RowData(headers[..n], values)[headers[n] := Cell(values, n)]
  }

  /** A repeated header keeps the cell of its last column. */
  lemma {:induction false} RowDataLookup(headers: seq<string>, values: seq<string>, name: string, k: nat)
    requires k < |headers| && headers[k] == name
    requires forall j :: k < j < |headers| ==> headers[j] != name
    ensures name in RowData(headers, values) && RowData(headers, values)[name] == Cell(values, k)
    decreases |headers|
  {
    if k < |headers| - 1 {
      RowDataLookup(headers[..|headers| - 1], values, name, k);
    }
  }

  /** A property of the row object as the validator reads it: a missing one is falsy like "". */
  function Field(data: map<string, string>, name: string): string {
    if name in data then data[name] else ""
  }

  // ---------------------------------------------------------------- validation

  /** No whitespace and no `@` in `s[lo..hi]`: a run of the character class `[^\s@]`. */
  predicate PlainRun(s: string, lo: int, hi: int)
    requires 0 <= lo <= hi <= |s|
  {
    forall k :: lo <= k < hi ==> !IsSpace(s[k]) && s[k] != '@'
  }

  /**
   * The email pattern `^[^\s@]+@[^\s@]+\.[^\s@]+$`: a non-empty run, `@`, a
   * non-empty run, a dot, a non-empty run, where no run holds whitespace or `@`.
   */
  ghost predicate EmailPattern(s: string) {
    exists i, j :: 0 < i && i + 1 < j < |s| - 1 && s[i] == '@' && s[j] == '.'
      && PlainRun(s, 0, i) && PlainRun(s, i + 1, j) && PlainRun(s, j + 1, |s|)
  }

  /** Decides the pattern without backtracking: split at the first `@`, then look for an inner dot. */
  function IsEmail(s: string): bool {
    match IndexOf(s, '@')
    case None => false
    case Some(i) =>
      0 < i && PlainRun(s, 0, i) && PlainRun(s, i + 1, |s|) && exists j :: i + 1 < j < |s| - 1 && s[j] == '.'
  }

  /** Whatever the decision procedure accepts matches the pattern. */
  lemma IsEmailSound(s: string)
    requires IsEmail(s)
    ensures EmailPattern(s)
  {
    var i := IndexOf(s, '@').value;
    var j :| i + 1 < j < |s| - 1 && s[j] == '.';
    assert PlainRun(s, i + 1, j) && PlainRun(s, j + 1, |s|);
  }

  /** An `@` with no `@` before it is the first one. */
  lemma {:induction false} FirstAt(s: string, i: nat)
    requires i < |s| && s[i] == '@' && PlainRun(s, 0, i)
    ensures IndexOf(s, '@') == Some(i)
    decreases i
  {
    if i > 0 {
      assert s[0] != '@';
      forall k | 0 <= k < i - 1
        ensures !IsSpace(s[1..][k]) && s[1..][k] != '@'
      {
        assert s[1..][k] == s[k + 1];
      }
      FirstAt(s[1..], i - 1);
    }
  }

  /** Two runs joined by a dot form one run. */
  lemma RunsJoin(s: string, lo: nat, dot: nat, hi: nat)
    requires lo <= dot < hi <= |s| && s[dot] == '.'
    requires PlainRun(s, lo, dot) && PlainRun(s, dot + 1, hi)
    ensures PlainRun(s, lo, hi)
  {
  }

  /** Whatever matches the pattern, the decision procedure accepts: the pattern's `@` is the first one. */
  lemma IsEmailComplete(s: string)
    requires EmailPattern(s)
    ensures IsEmail(s)
  {
    var i, j :| 0 < i && i + 1 < j < |s| - 1 && s[i] == '@' && s[j] == '.'
      && PlainRun(s, 0, i) && PlainRun(s, i + 1, j) && PlainRun(s, j + 1, |s|);
    FirstAt(s, i);
    RunsJoin(s, i + 1, j, |s|);
  }

  /** The decision procedure accepts exactly the strings the pattern matches. */
  lemma IsEmailMatchesPattern(s: string)
    ensures IsEmail(s) <==> EmailPattern(s)
  {
    if IsEmail(s) {
      IsEmailSound(s);
    }
    if EmailPattern(s) {
      IsEmailComplete(s);
    }
  }

  /** The checks one row goes through, in order: None when it passes, else the message it throws. */
  function Validate(data: map<string, string>): (r: Option<string>)
    ensures r.None? || r == Some(MissingFields) || r == Some(BadEmail)
    ensures Field(data, "username") == "" || Field(data, "email") == "" || Field(data, "firstName") == "" || Field(data, "lastName") == ""
      ==> r == Some(MissingFields)
    ensures r.None? ==> EmailPattern(Field(data, "email"))
  {
    if Field(data, "username") == "" || Field(data, "email") == "" || Field(data, "firstName") == "" || Field(data, "lastName") == "" then
      Some(MissingFields)
    else if !IsEmail(Field(data, "email")) then
      Some(BadEmail)
    else
      None
  }

  /**
   * A row is rejected for a missing field exactly when one of the four required
   * properties is empty or absent, for its email exactly when all four are there
   * but the email does not match the pattern, and it passes otherwise.
   */
  lemma ValidateVerdict(data: map<string, string>)
    ensures Validate(data) == Some(MissingFields) <==>
      Field(data, "username") == "" || Field(data, "email") == "" || Field(data, "firstName") == "" || Field(data, "lastName") == ""
    ensures Validate(data) == Some(BadEmail) <==>
      Field(data, "username") != "" && Field(data, "email") != "" && Field(data, "firstName") != "" && Field(data, "lastName") != ""
      && !EmailPattern(Field(data, "email"))
    ensures Validate(data).None? <==>
      Field(data, "username") != "" && Field(data, "email") != "" && Field(data, "firstName") != "" && Field(data, "lastName") != ""
      && EmailPattern(Field(data, "email"))
  {
    IsEmailMatchesPattern(Field(data, "email"));
  }

  // ---------------------------------------------------------------- import

  /** A data line as the loop sees it: the row object and the validator's verdict on it. */
  datatype Row<D> = Row(data: D, outcome: Option<string>)

  /** Reads one data line under the headers and validates it. */
  function ReadRow(headers: seq<string>, line: string): Row<RowObject> {
    var data := RowData(headers, Cells(line));
    Row(data, Validate(data))
  }

  /** The counters the row loop accumulates. */
  datatype Tally<D> = Tally(successCount: nat, errors: seq<RowError<D>>)

  /** The row loop over `rows`, the first of which is reported as row `first`. */
  function CheckRows<D>(rows: seq<Row<D>>, first: int): (t: Tally<D>)
    ensures t.successCount + |t.errors| == |rows|
    ensures forall k :: 0 <= k < |t.errors| ==> first <= t.errors[k].row < first + |rows|
    decreases |rows|
  {
    if |rows| == 0 then Tally(0, [])
    else
      var rest := CheckRows(rows[1..], first + 1);
      match rows[0].outcome
      case None => Tally(rest.successCount + 1, rest.errors)
      case Some(msg) => Tally(rest.successCount, [RowError(first, msg, rows[0].data)] + rest.errors)
  }

  /** Errors are reported in increasing row order, each row at most once. */
  lemma {:induction false} CheckRowsOrdered<D>(rows: seq<Row<D>>, first: int)
    ensures forall k, l :: 0 <= k < l < |CheckRows(rows, first).errors| ==>
      CheckRows(rows, first).errors[k].row < CheckRows(rows, first).errors[l].row
    decreases |rows|
  {
    if |rows| > 0 {
      CheckRowsOrdered(rows[1..], first + 1);
      var t := CheckRows(rows, first);
      var rest := CheckRows(rows[1..], first + 1);
      forall k, l | 0 <= k < l < |t.errors|
        ensures t.errors[k].row < t.errors[l].row
      {
        if rows[0].outcome.Some? {
          assert t.errors[l] == rest.errors[l - 1];
          if k > 0 {
            assert t.errors[k] == rest.errors[k - 1];
          } else {
            assert t.errors[k].row == first;
          }
        } else {
          assert t.errors[l] == rest.errors[l];
          assert t.errors[k] == rest.errors[k];
        }
      }
    }
  }

  /** The `k`-th reported error is a failing row, with its message and its row object. */
  lemma {:induction false} CheckRowsError<D>(rows: seq<Row<D>>, first: int, k: nat)
    requires k < |CheckRows(rows, first).errors|
    ensures first <= CheckRows(rows, first).errors[k].row < first + |rows|
    ensures rows[CheckRows(rows, first).errors[k].row - first].data == CheckRows(rows, first).errors[k].data
    ensures rows[CheckRows(rows, first).errors[k].row - first].outcome == Some(CheckRows(rows, first).errors[k].error)
    decreases |rows|
  {
    var t := CheckRows(rows, first);
    var rest := CheckRows(rows[1..], first + 1);
    var j := if rows[0].outcome.Some? then k - 1 else k;
    if j >= 0 {
      assert t.errors[k] == rest.errors[j];
      CheckRowsError(rows[1..], first + 1, j);
      var e := rest.errors[j];
      assert rows[1..][e.row - (first + 1)] == rows[e.row - first];
    }
  }

  /** Every reported error is a failing row, with its message and its row object. */
  lemma CheckRowsSound<D>(rows: seq<Row<D>>, first: int)
    ensures forall k :: 0 <= k < |CheckRows(rows, first).errors| ==>
      rows[CheckRows(rows, first).errors[k].row - first].data == CheckRows(rows, first).errors[k].data
      && rows[CheckRows(rows, first).errors[k].row - first].outcome == Some(CheckRows(rows, first).errors[k].error)
  {
    forall k | 0 <= k < |CheckRows(rows, first).errors| {
      CheckRowsError(rows, first, k);
    }
  }

  /** Some error names this row. */
  predicate Reported<D>(errors: seq<RowError<D>>, row: int) {
    exists k :: 0 <= k < |errors| && errors[k].row == row
  }

  /** Every failing row is reported. */
  lemma {:induction false} CheckRowsComplete<D>(rows: seq<Row<D>>, first: int)
    ensures forall j :: 0 <= j < |rows| && rows[j].outcome.Some? ==> Reported(CheckRows(rows, first).errors, first + j)
    decreases |rows|
  {
    if |rows| > 0 {
      CheckRowsComplete(rows[1..], first + 1);
      var t := CheckRows(rows, first);
      var rest := CheckRows(rows[1..], first + 1);
      var shift := if rows[0].outcome.Some? then 1 else 0;
      if rows[0].outcome.Some? {
        assert t.errors == [RowError(first, rows[0].outcome.value, rows[0].data)] + rest.errors;
      } else {
        assert t.errors == rest.errors;
      }
      forall j | 0 <= j < |rows| && rows[j].outcome.Some?
        ensures Reported(t.errors, first + j)
      {
        if j == 0 {
          assert t.errors[0].row == first;
        } else {
          assert rows[1..][j - 1] == rows[j];
          assert Reported(rest.errors, first + 1 + (j - 1));
          var k :| 0 <= k < |rest.errors| && rest.errors[k].row == first + 1 + (j - 1);
          assert t.errors[k + shift] == rest.errors[k];
          assert t.errors[k + shift].row == first + j;
        }
      }
    }
  }

  /** When every row passes, the loop counts them all and reports nothing. */
  lemma {:induction false} CheckRowsClean<D>(rows: seq<Row<D>>, first: int)
    requires forall j :: 0 <= j < |rows| ==> rows[j].outcome.None?
    ensures CheckRows(rows, first) == Tally(|rows|, [])
    decreases |rows|
  {
    if |rows| > 0 {
      assert forall j :: 0 <= j < |rows[1..]| ==> rows[1..][j] == rows[j + 1];
      CheckRowsClean(rows[1..], first + 1);
    }
  }

  /** Every line is blank (no line at all included). */
  predicate AllBlank(lines: seq<string>) {
    forall k :: 0 <= k < |lines| ==> Blank(lines[k])
  }

  /** The file has no non-blank line exactly when every piece between newlines is blank. */
  lemma LinesEmpty(text: string)
    ensures |Lines(text)| == 0 <==> AllBlank(Split(text, '\n'))
  {
    var pieces := Split(text, '\n');
    var lines := Lines(text);
    NonBlankMembers(pieces);
    if |lines| > 0 {
      assert lines[0] in lines;
      var k :| 0 <= k < |pieces| && pieces[k] == lines[0];
      assert !Blank(pieces[k]);
    }
    if !AllBlank(pieces) {
      var k :| 0 <= k < |pieces| && !Blank(pieces[k]);
      assert pieces[k] in lines;
    }
  }

  /** Each of `lines`, in order, read under `headers`. */
  function ReadRows(headers: seq<string>, lines: seq<string>): (r: seq<Row<RowObject>>)
    ensures |r| == |lines|
    decreases |lines|
  {
    if |lines| == 0 then [] else [ReadRow(headers, lines[0])] + ReadRows(headers, lines[1..])
  }

  /** Every row read carries the validator's verdict on its own row object. */
  lemma {:induction false} ReadRowsVerdict(headers: seq<string>, lines: seq<string>)
    ensures forall j :: 0 <= j < |lines| ==> ReadRows(headers, lines)[j].outcome == Validate(ReadRows(headers, lines)[j].data)
    decreases |lines|
  {
    if |lines| > 0 {
      ReadRowsVerdict(headers, lines[1..]);
    }
  }

  /** The `j`-th row read is the `j`-th line read under the headers. */
  lemma {:induction false} ReadRowsAt(headers: seq<string>, lines: seq<string>, j: nat)
    requires j < |lines|
    ensures ReadRows(headers, lines)[j].data == RowData(headers, Cells(lines[j]))
    ensures ReadRows(headers, lines)[j].outcome == Validate(RowData(headers, Cells(lines[j])))
    decreases |lines|
  {
    if j > 0 {
      ReadRowsAt(headers, lines[1..], j - 1);
      assert ReadRows(headers, lines)[j] == ReadRows(headers, lines[1..])[j - 1];
      assert lines[1..][j - 1] == lines[j];
    }
  }

  /** The data lines of a file with a header line, read under that header. */
  function DataRows(lines: seq<string>): (r: seq<Row<RowObject>>)
    requires |lines| >= 1
    ensures |r| == |lines| - 1
  {
    ReadRows(Cells(lines[0]), lines[1..])
  }

  /** The report for a file whose non-blank lines are `lines`, the first being the header. */
  function ImportLines(lines: seq<string>): ImportResult
    requires |lines| >= 1
  {
    var t := CheckRows(DataRows(lines), 2);
    ImportResult(|t.errors| == 0, |lines| - 1, t.successCount, |t.errors|, t.errors)
  }

  /**
   * `importUsers`: fails when the file has no non-blank line; otherwise every
   * line after the header is counted as a success or an error.
   */
  function ImportUsers(text: string): (r: Result<ImportResult>)
    ensures r.Failure? <==> AllBlank(Split(text, '\n'))
    ensures r.Failure? ==> r.message == NoHeaders
    ensures r.Success? ==>
      var res := r.value;
      res.totalProcessed == |Lines(text)| - 1
      && res.successCount + res.errorCount == res.totalProcessed
      && res.errorCount == |res.errors|
      && (res.success <==> res.errorCount == 0)
  {
    LinesEmpty(text);
    var lines := Lines(text);
    if |lines| == 0 then Failure(NoHeaders) else Success(ImportLines(lines))
  }

  /** The errors of a report name data lines, by 1-based line number, in increasing order. */
  lemma LineErrorRows(lines: seq<string>, errors: seq<RowError<RowObject>>)
    requires |lines| >= 1 && errors == ImportLines(lines).errors
    ensures forall k :: 0 <= k < |errors| ==> 2 <= errors[k].row <= |lines|
    ensures forall k, l :: 0 <= k < l < |errors| ==> errors[k].row < errors[l].row
  {
    CheckRowsOrdered(DataRows(lines), 2);
  }

  /** The errors of an import name data lines, by 1-based position among the non-blank lines, in increasing order. */
  lemma ImportErrorRows(text: string, errors: seq<RowError<RowObject>>)
    requires !AllBlank(Split(text, '\n')) && errors == ImportUsers(text).value.errors
    ensures forall k :: 0 <= k < |errors| ==> 2 <= errors[k].row <= |Lines(text)|
    ensures forall k, l :: 0 <= k < l < |errors| ==> errors[k].row < errors[l].row
  {
    LineErrorRows(Lines(text), errors);
  }

  /** The `k`-th error of a report is the error `CheckRows` reports for the rows of its data lines. */
  lemma LineErrorRow(lines: seq<string>, k: nat)
    requires |lines| >= 1 && k < |ImportLines(lines).errors|
    ensures k < |CheckRows(DataRows(lines), 2).errors|
    ensures ImportLines(lines).errors[k] == CheckRows(DataRows(lines), 2).errors[k]
  {
  }

  /** When each row holds what `read` makes of its line, each error holds what `read` makes of the line it names. */
  lemma ErrorReadsLine<D>(rows: seq<Row<D>>, lines: seq<string>, read: string -> D, k: nat)
    requires |rows| == |lines| && forall j :: 0 <= j < |rows| ==> rows[j].data == read(lines[j])
    requires k < |CheckRows(rows, 2).errors|
    ensures 2 <= CheckRows(rows, 2).errors[k].row < |lines| + 2
    ensures CheckRows(rows, 2).errors[k].data == read(lines[CheckRows(rows, 2).errors[k].row - 2])
  {
    CheckRowsError(rows, 2, k);
  }

  /** When every row's outcome is the verdict on its own data, every reported error carries that verdict. */
  lemma ErrorVerdict<D>(rows: seq<Row<D>>, validate: D -> Option<string>, k: nat)
    requires forall j :: 0 <= j < |rows| ==> rows[j].outcome == validate(rows[j].data)
    requires k < |CheckRows(rows, 2).errors|
    ensures validate(CheckRows(rows, 2).errors[k].data) == Some(CheckRows(rows, 2).errors[k].error)
  {
    CheckRowsError(rows, 2, k);
  }

  /** The `k`-th error of a report carries the row object of the data line it names. */
  lemma LineErrorData(lines: seq<string>, k: nat)
    requires |lines| >= 1 && k < |CheckRows(DataRows(lines), 2).errors|
    ensures 2 <= CheckRows(DataRows(lines), 2).errors[k].row <= |lines|
    ensures CheckRows(DataRows(lines), 2).errors[k].data
         == RowData(Cells(lines[0]), Cells(lines[CheckRows(DataRows(lines), 2).errors[k].row - 1]))
  {
    var read := (line: string) => RowData(Cells(lines[0]), Cells(line));
    forall j | 0 <= j < |lines| - 1
      ensures DataRows(lines)[j].data == read(lines[j + 1])
    {
      DataRowAt(lines, j);
    }
    ErrorReadsLine(DataRows(lines), lines[1..], read, k);
    var row := CheckRows(DataRows(lines), 2).errors[k].row;
    assert lines[1..][row - 2] == lines[row - 1];
  }

  /** The `k`-th error of a report carries the validator's message for the row it names. */
  lemma LineErrorVerdict(lines: seq<string>, k: nat)
    requires |lines| >= 1 && k < |CheckRows(DataRows(lines), 2).errors|
    ensures Validate(CheckRows(DataRows(lines), 2).errors[k].data) == Some(CheckRows(DataRows(lines), 2).errors[k].error)
  {
    ReadRowsVerdict(Cells(lines[0]), lines[1..]);
    ErrorVerdict(DataRows(lines), Validate, k);
  }

  /** The `k`-th error of a report names a data line, with that line's row object and the validator's message for it. */
  lemma LineErrorAt(lines: seq<string>, k: nat)
    requires |lines| >= 1 && k < |ImportLines(lines).errors|
    ensures 1 <= ImportLines(lines).errors[k].row - 1 < |lines|
    ensures ImportLines(lines).errors[k].data
         == RowData(Cells(lines[0]), Cells(lines[ImportLines(lines).errors[k].row - 1]))
    ensures Validate(ImportLines(lines).errors[k].data) == Some(ImportLines(lines).errors[k].error)
  {
    LineErrorRow(lines, k);
    LineErrorData(lines, k);
    LineErrorVerdict(lines, k);
  }

  /** Each error carries the row object read from the line it names and the message the validator gives it. */
  lemma LineErrorsSound(lines: seq<string>, errors: seq<RowError<RowObject>>)
    requires |lines| >= 1 && errors == ImportLines(lines).errors
    ensures forall k :: 0 <= k < |errors| ==>
      1 <= errors[k].row - 1 < |lines|
      && errors[k].data == RowData(Cells(lines[0]), Cells(lines[errors[k].row - 1]))
      && Validate(errors[k].data) == Some(errors[k].error)
  {
    forall k | 0 <= k < |errors|
      ensures 1 <= errors[k].row - 1 < |lines|
      ensures errors[k].data == RowData(Cells(lines[0]), Cells(lines[errors[k].row - 1]))
      ensures Validate(errors[k].data) == Some(errors[k].error)
    {
      LineErrorAt(lines, k);
    }
  }

  /** Each error of an import carries the row object read from the line it names and the message the validator gives it. */
  lemma ImportErrorsSound(text: string, errors: seq<RowError<RowObject>>)
    requires !AllBlank(Split(text, '\n')) && errors == ImportUsers(text).value.errors
    ensures forall k :: 0 <= k < |errors| ==>
      1 <= errors[k].row - 1 < |Lines(text)|
      && errors[k].data == RowData(Cells(Lines(text)[0]), Cells(Lines(text)[errors[k].row - 1]))
      && Validate(errors[k].data) == Some(errors[k].error)
  {
    LineErrorsSound(Lines(text), errors);
  }

  /** Every data line of a report that the validator rejects is named by an error. */
  lemma LineErrorsComplete(lines: seq<string>, errors: seq<RowError<RowObject>>)
    requires |lines| >= 1 && errors == ImportLines(lines).errors
    ensures forall i :: 1 <= i < |lines| && Validate(RowData(Cells(lines[0]), Cells(lines[i]))).Some? ==>
      Reported(errors, i + 1)
  {
    var rows := DataRows(lines);
    CheckRowsComplete(rows, 2);
    forall i | 1 <= i < |lines| && Validate(RowData(Cells(lines[0]), Cells(lines[i]))).Some?
      ensures Reported(errors, i + 1)
    {
      DataRowAt(lines, i - 1);
      assert rows[i - 1].outcome.Some?;
    }
  }

  /** Every data line the validator rejects is named by an error. */
  lemma ImportErrorsComplete(text: string, errors: seq<RowError<RowObject>>)
    requires !AllBlank(Split(text, '\n')) && errors == ImportUsers(text).value.errors
    ensures forall i :: 1 <= i < |Lines(text)| && Validate(RowData(Cells(Lines(text)[0]), Cells(Lines(text)[i]))).Some? ==>
      Reported(errors, i + 1)
  {
    LineErrorsComplete(Lines(text), errors);
  }

  // ---------------------------------------------------------------- import of clean files

  /** A cell that reads back unchanged: non-empty, no surrounding whitespace, no comma or newline. */
  predicate Tidy(c: string) {
    |c| > 0 && !IsSpace(c[0]) && !IsSpace(c[|c| - 1]) && Free(c, ',') && Free(c, '\n')
  }

  /** A line made of tidy cells splits back into exactly those cells. */
  lemma CellsOfJoin(cells: seq<string>)
    requires |cells| >= 1 && forall k :: 0 <= k < |cells| ==> Tidy(cells[k])
    ensures Cells(Join(cells, ",")) == cells
  {
    SplitJoin(cells, ',');
    forall k | 0 <= k < |cells| {
      TrimKeeps(cells[k]);
    }
  }

  /** A line made of tidy cells has no newline and is not blank. */
  lemma JoinedLine(cells: seq<string>)
    requires |cells| >= 1 && forall k :: 0 <= k < |cells| ==> Tidy(cells[k])
    ensures Free(Join(cells, ","), '\n') && !Blank(Join(cells, ","))
  {
    JoinFree(cells, ",", '\n');
    if |cells| > 1 {
      assert Join(cells, ",")[0] == cells[0][0];
    }
  }

  /** Lines without newlines, perhaps followed by an empty one, hold no newline. */
  lemma NewlineFree(parts: seq<string>, trailing: bool, all: seq<string>)
    requires forall k :: 0 <= k < |parts| ==> Free(parts[k], '\n')
    requires all == parts + (if trailing then [""] else [])
    ensures forall k :: 0 <= k < |all| ==> Free(all[k], '\n')
  {
    forall k | 0 <= k < |all|
      ensures Free(all[k], '\n')
    {
      if k < |parts| {
        assert all[k] == parts[k];
      }
    }
  }

  /** Non-blank lines, perhaps followed by an empty one, survive the filter as themselves. */
  lemma NonBlankTrailing(parts: seq<string>, trailing: bool)
    requires forall k :: 0 <= k < |parts| ==> !Blank(parts[k])
    ensures NonBlank(parts + (if trailing then [""] else [])) == parts
  {
    var tail: seq<string> := if trailing then [""] else [];
    NonBlankAppend(parts, tail);
    NonBlankKeeps(parts);
    assert NonBlank(tail) == [];
  }

  /** Non-blank lines without newlines, joined with newlines (and perhaps one final newline), read back as those lines. */
  lemma LinesOfJoin(parts: seq<string>, trailing: bool)
    requires |parts| >= 1
    requires forall k :: 0 <= k < |parts| ==> Free(parts[k], '\n') && !Blank(parts[k])
    ensures Lines(Join(parts + (if trailing then [""] else []), "\n")) == parts
  {
    NewlineFree(parts, trailing, parts + (if trailing then [""] else []));
    SplitJoin(parts + (if trailing then [""] else []), '\n');
    NonBlankTrailing(parts, trailing);
  }

  /** A row of at least one cell, every one of them tidy. */
  predicate TidyRow(cells: seq<string>) {
    |cells| >= 1 && forall k :: 0 <= k < |cells| ==> Tidy(cells[k])
  }

  /** The lines of a CSV file with the given header cells and rows of cells. */
  function CsvLines(header: seq<string>, rows: seq<seq<string>>): (r: seq<string>)
    ensures |r| == |rows| + 1
  {
    [Join(header, ",")] + seq(|rows|, i requires 0 <= i < |rows| => Join(rows[i], ","))
  }

  /** The line after the header is the `i`-th row joined with commas. */
  lemma CsvLineAt(header: seq<string>, rows: seq<seq<string>>, i: nat)
    requires i < |rows|
    ensures CsvLines(header, rows)[i + 1] == Join(rows[i], ",")
  {
  }

  /** The lines of a file of tidy rows hold no newline and none is blank. */
  lemma CsvLinesClean(header: seq<string>, rows: seq<seq<string>>)
    requires TidyRow(header) && forall i :: 0 <= i < |rows| ==> TidyRow(rows[i])
    ensures forall i :: 0 <= i < |rows| + 1 ==> Free(CsvLines(header, rows)[i], '\n') && !Blank(CsvLines(header, rows)[i])
  {
    var lines := CsvLines(header, rows);
    forall i | 0 <= i < |lines|
      ensures Free(lines[i], '\n') && !Blank(lines[i])
    {
      if i == 0 {
        JoinedLine(header);
      } else {
        assert lines[i] == Join(rows[i - 1], ",");
        JoinedLine(rows[i - 1]);
      }
    }
  }

  /** Each line of a file of tidy rows reads back as its cells. */
  lemma CsvLinesCells(header: seq<string>, rows: seq<seq<string>>)
    requires TidyRow(header) && forall i :: 0 <= i < |rows| ==> TidyRow(rows[i])
    ensures Cells(CsvLines(header, rows)[0]) == header
    ensures forall i :: 0 <= i < |rows| ==> Cells(CsvLines(header, rows)[i + 1]) == rows[i]
  {
    CellsOfJoin(header);
    forall i | 0 <= i < |rows|
      ensures Cells(CsvLines(header, rows)[i + 1]) == rows[i]
    {
      CsvLineAt(header, rows, i);
      CellsOfJoin(rows[i]);
    }
  }

  /** A file of tidy rows reads back as its lines, and each line as its cells. */
  lemma CsvLinesRead(header: seq<string>, rows: seq<seq<string>>, trailing: bool)
    requires TidyRow(header) && forall i :: 0 <= i < |rows| ==> TidyRow(rows[i])
    ensures Lines(Join(CsvLines(header, rows) + (if trailing then [""] else []), "\n")) == CsvLines(header, rows)
    ensures Cells(CsvLines(header, rows)[0]) == header
    ensures forall i :: 0 <= i < |rows| ==> Cells(CsvLines(header, rows)[i + 1]) == rows[i]
  {
    CsvLinesClean(header, rows);
    LinesOfJoin(CsvLines(header, rows), trailing);
    CsvLinesCells(header, rows);
  }

  /** The row the loop sees for a data line is that line read under the header. */
  lemma DataRowAt(lines: seq<string>, j: nat)
    requires j < |lines| - 1
    ensures DataRows(lines)[j].data == RowData(Cells(lines[0]), Cells(lines[j + 1]))
    ensures DataRows(lines)[j].outcome == Validate(RowData(Cells(lines[0]), Cells(lines[j + 1])))
  {
    ReadRowsAt(Cells(lines[0]), lines[1..], j);
    assert lines[1..][j] == lines[j + 1];
  }

  /** When every data line passes validation, so does every row the loop sees. */
  lemma DataRowsPass(lines: seq<string>)
    requires |lines| >= 1
    requires forall i :: 1 <= i < |lines| ==> Validate(RowData(Cells(lines[0]), Cells(lines[i]))).None?
    ensures forall j :: 0 <= j < |lines| - 1 ==> DataRows(lines)[j].outcome.None?
  {
    forall j | 0 <= j < |lines| - 1
      ensures DataRows(lines)[j].outcome.None?
    {
      DataRowAt(lines, j);
    }
  }

  /** A file whose every data line passes validation imports with every line counted and no error. */
  lemma ImportOfValidLines(lines: seq<string>)
    requires |lines| >= 1
    requires forall i :: 1 <= i < |lines| ==> Validate(RowData(Cells(lines[0]), Cells(lines[i]))).None?
    ensures ImportLines(lines) == ImportResult(true, |lines| - 1, |lines| - 1, 0, [])
  {
    DataRowsPass(lines);
    CheckRowsClean(DataRows(lines), 2);
  }

  /** A file of tidy cells whose every row passes validation imports with every row counted and no error. */
  lemma ImportClean(header: seq<string>, rows: seq<seq<string>>, trailing: bool)
    requires TidyRow(header) && forall i :: 0 <= i < |rows| ==> TidyRow(rows[i])
    requires forall i :: 0 <= i < |rows| ==> Validate(RowData(header, rows[i])).None?
    ensures ImportUsers(Join(CsvLines(header, rows) + (if trailing then [""] else []), "\n"))
         == Success(ImportResult(true, |rows|, |rows|, 0, []))
  {
    var lines := CsvLines(header, rows);
    CsvLinesRead(header, rows, trailing);
    forall i | 1 <= i < |lines|
      ensures Validate(RowData(Cells(lines[0]), Cells(lines[i]))).None?
    {
      assert Cells(lines[i]) == rows[i - 1];
    }
    ImportOfValidLines(lines);
  }

  // ---------------------------------------------------------------- template

  const TemplateHeaders: seq<string> := ["username", "email", "firstName", "lastName", "status", "organizationId"]
  const TemplateSample: seq<string> := ["john.doe", "john.doe@company.com", "John", "Doe", "active", "org-1"]

  /** `generateUserTemplate`: the header line and one sample row, each ending in a newline. */
  function GenerateUserTemplate(): string {
    Join(TemplateHeaders, ",") + "\n" + Join(TemplateSample, ",") + "\n"
  }

  /** The sample address matches the email pattern. */
  lemma SampleEmail()
    ensures EmailPattern(TemplateSample[1])
  {
    var email := TemplateSample[1];
    assert email[8] == '@' && email[16] == '.';
    assert PlainRun(email, 0, 8) && PlainRun(email, 9, 16) && PlainRun(email, 17, |email|);
  }

  /** Every header cell of the template reads back unchanged. */
  lemma TemplateHeadersTidy()
    ensures TidyRow(TemplateHeaders)
  {
    assert Tidy("username") && Tidy("email") && Tidy("firstName");
    assert Tidy("lastName") && Tidy("status") && Tidy("organizationId");
  }

  /** Every sample cell of the template reads back unchanged. */
  lemma TemplateSampleTidy()
    ensures TidyRow(TemplateSample)
  {
    assert Tidy("john.doe") && Tidy("john.doe@company.com") && Tidy("John");
    assert Tidy("Doe") && Tidy("active") && Tidy("org-1");
  }

  /** A row object with the four required properties set and a well-formed email passes validation. */
  lemma ValidatePasses(data: map<string, string>)
    requires Field(data, "username") != "" && Field(data, "email") != ""
    requires Field(data, "firstName") != "" && Field(data, "lastName") != ""
    requires EmailPattern(Field(data, "email"))
    ensures Validate(data).None?
  {
    IsEmailComplete(Field(data, "email"));
  }

  /** The sample row passes validation under the template headers. */
  lemma TemplateRowValid()
    ensures Validate(RowData(TemplateHeaders, TemplateSample)).None?
  {
    var data := RowData(TemplateHeaders, TemplateSample);
    RowDataLookup(TemplateHeaders, TemplateSample, "username", 0);
    RowDataLookup(TemplateHeaders, TemplateSample, "email", 1);
    RowDataLookup(TemplateHeaders, TemplateSample, "firstName", 2);
    RowDataLookup(TemplateHeaders, TemplateSample, "lastName", 3);
    assert Field(data, "username") == TemplateSample[0] != "";
    assert Field(data, "email") == TemplateSample[1];
    assert Field(data, "firstName") == TemplateSample[2] != "";
    assert Field(data, "lastName") == TemplateSample[3] != "";
    SampleEmail();
    ValidatePasses(data);
  }

  /** A header line and one valid row, each ending in a newline, import as one counted row. */
  lemma ImportOneRow(header: seq<string>, row: seq<string>, text: string)
    requires TidyRow(header) && TidyRow(row)
    requires Validate(RowData(header, row)).None?
    requires text == Join(header, ",") + "\n" + Join(row, ",") + "\n"
    ensures |Lines(text)| == 2 && Cells(Lines(text)[0]) == header
    ensures ImportUsers(text) == Success(ImportResult(true, 1, 1, 0, []))
  {
    var h := Join(header, ",");
    var s := Join(row, ",");
    var file := CsvLines(header, [row]) + [""];
    assert file == [h, s, ""];
    assert Join(file, "\n") == text by {
      JoinCons(s, [""], "\n");
      JoinCons(h, [s, ""], "\n");
      assert [h] + [s, ""] == [h, s, ""];
      assert [s] + [""] == [s, ""];
    }
    ImportClean(header, [row], true);
    CsvLinesRead(header, [row], true);
    assert ImportUsers(text) == Success(ImportResult(true, 1, 1, 0, []));
    assert Lines(text) == CsvLines(header, [row]);
  }

  /** The template imports cleanly: its header reads back as the six names, and its one sample row is counted and passes. */
  lemma TemplateImports()
    ensures |Lines(GenerateUserTemplate())| == 2
    ensures Cells(Lines(GenerateUserTemplate())[0]) == TemplateHeaders
    ensures ImportUsers(GenerateUserTemplate()) == Success(ImportResult(true, 1, 1, 0, []))
  {
    TemplateHeadersTidy();
    TemplateSampleTidy();
    TemplateRowValid();
    ImportOneRow(TemplateHeaders, TemplateSample, GenerateUserTemplate());
  }

  // ---------------------------------------------------------------- export

  datatype Format = Csv | Excel

  datatype ExportOptions = ExportOptions(format: Format, includeHeaders: bool, selectedFields: Option<seq<string>>)

  /** The fields exported when the caller selects none. */
  const DefaultFields: seq<string> := ["username", "email", "firstName", "lastName", "status", "roles", "organizationId", "createdAt"]

  /** The properties a user record has. */
  const UserKeys: seq<string> := ["id", "username", "email", "firstName", "lastName", "tenantId", "organizationId",
                                  "status", "roles", "lastLogin", "createdAt", "updatedAt"]

  /** `user[field]` as export renders it: a list joined with `;`, a missing value as "". */
  function FieldText(u: User, field: string): (r: string)
    ensures field !in UserKeys ==> r == ""
    ensures field == "roles" ==> r == Join(u.fields.roles, ";")
    ensures field == "organizationId" && u.fields.organizationId.None? ==> r == ""
    ensures field == "lastLogin" && u.fields.lastLogin.None? ==> r == ""
  {
    if field == "id" then u.id
    else if field == "username" then u.fields.username
    else if field == "email" then u.fields.email
    else if field == "firstName" then u.fields.firstName
    else if field == "lastName" then u.fields.lastName
    else if field == "tenantId" then u.tenantId
    else if field == "organizationId" then u.fields.organizationId.GetOr("")
    else if field == "status" then UserStatusName(u.fields.status)
    else if field == "roles" then Join(u.fields.roles, ";")
    else if field == "lastLogin" then u.fields.lastLogin.GetOr("")
    else if field == "createdAt" then u.createdAt
    else if field == "updatedAt" then u.updatedAt
    else ""
  }

  /** The value between double quotes, without escaping. */
  function Quote(v: string): string {
    "\"" + v + "\""
  }

  /** The column separator of a format. */
  function SeparatorOf(format: Format): char {
    if format == Csv then ',' else '\t'
  }

  /** One exported cell: quoted in CSV, bare in the Excel flavour. */
  function ExportCell(u: User, field: string, format: Format): string {
    if format == Csv then Quote(FieldText(u, field)) else FieldText(u, field)
  }

  /** One exported line: the cells of the selected fields joined with the separator. */
  function ExportRow(u: User, fields: seq<string>, format: Format): string {
    Join(seq(|fields|, k requires 0 <= k < |fields| => ExportCell(u, fields[k], format)), [SeparatorOf(format)])
  }

  /** The selected fields, or the defaults when none were given (an empty selection is kept). */
  function ExportFields(opts: ExportOptions): seq<string> {
    opts.selectedFields.GetOr(DefaultFields)
  }

  /** `exportUsers`: an optional header line, then one line per user, joined with newlines. */
  function ExportUsers(users: seq<User>, opts: ExportOptions): (r: string)
    ensures opts.includeHeaders ==> Join(ExportFields(opts), [SeparatorOf(opts.format)]) + "\n" <= r
    ensures !opts.includeHeaders && |users| >= 1 ==> ExportRow(users[0], ExportFields(opts), opts.format) <= r
    ensures |users| == 0 ==> r == if opts.includeHeaders then Join(ExportFields(opts), [SeparatorOf(opts.format)]) + "\n" else ""
  {
    var fields := ExportFields(opts);
    var header := if opts.includeHeaders then Join(fields, [SeparatorOf(opts.format)]) + "\n" else "";
    header + Join(seq(|users|, k requires 0 <= k < |users| => ExportRow(users[k], fields, opts.format)), "\n")
  }

  /** The exported text has one line per user, after the header line when there is one. */
  lemma ExportLines(users: seq<User>, opts: ExportOptions)
    requires |users| >= 1
    requires forall k :: 0 <= k < |ExportFields(opts)| ==> Free(ExportFields(opts)[k], '\n')
    requires forall i, k :: 0 <= i < |users| && 0 <= k < |ExportFields(opts)| ==> Free(FieldText(users[i], ExportFields(opts)[k]), '\n')
    ensures var fields := ExportFields(opts);
      Split(ExportUsers(users, opts), '\n')
        == (if opts.includeHeaders then [Join(fields, [SeparatorOf(opts.format)])] else [])
           + seq(|users|, k requires 0 <= k < |users| => ExportRow(users[k], fields, opts.format))
  {
    var fields := ExportFields(opts);
    var sep := [SeparatorOf(opts.format)];
    var rows := seq(|users|, k requires 0 <= k < |users| => ExportRow(users[k], fields, opts.format));
    assert Free(sep, '\n');
    forall i | 0 <= i < |users|
      ensures Free(rows[i], '\n')
    {
      var cells := seq(|fields|, k requires 0 <= k < |fields| => ExportCell(users[i], fields[k], opts.format));
      forall k | 0 <= k < |cells|
        ensures Free(cells[k], '\n')
      {
        assert Free(FieldText(users[i], fields[k]), '\n');
        assert Free("\"", '\n');
      }
      JoinFree(cells, sep, '\n');
    }
    if opts.includeHeaders {
      JoinFree(fields, sep, '\n');
      JoinCons(Join(fields, sep), rows, "\n");
      SplitJoin([Join(fields, sep)] + rows, '\n');
    } else {
      assert ExportUsers(users, opts) == Join(rows, "\n");
      SplitJoin(rows, '\n');
    }
  }

  /** With no users, the export is the header line and an empty line after it, or one empty line without headers. */
  lemma ExportLinesEmpty(opts: ExportOptions)
    requires forall k :: 0 <= k < |ExportFields(opts)| ==> Free(ExportFields(opts)[k], '\n')
    ensures Split(ExportUsers([], opts), '\n')
         == if opts.includeHeaders then [Join(ExportFields(opts), [SeparatorOf(opts.format)]), ""] else [""]
  {
    var header := Join(ExportFields(opts), [SeparatorOf(opts.format)]);
    if opts.includeHeaders {
      JoinFree(ExportFields(opts), [SeparatorOf(opts.format)], '\n');
      assert Join([header, ""], "\n") == header + "\n";
      SplitJoin([header, ""], '\n');
    } else {
      assert IndexOf("", '\n').None?;
    }
  }

  /** An exported line splits back into its cells when no value holds the separator. */
  lemma ExportRowCells(u: User, fields: seq<string>, format: Format)
    requires |fields| >= 1
    requires forall k :: 0 <= k < |fields| ==> Free(FieldText(u, fields[k]), SeparatorOf(format))
    ensures Split(ExportRow(u, fields, format), SeparatorOf(format))
         == seq(|fields|, k requires 0 <= k < |fields| => ExportCell(u, fields[k], format))
  {
    var cells := seq(|fields|, k requires 0 <= k < |fields| => ExportCell(u, fields[k], format));
    forall k | 0 <= k < |cells|
      ensures Free(cells[k], SeparatorOf(format))
    {
      assert Free(FieldText(u, fields[k]), SeparatorOf(format));
      assert Free("\"", SeparatorOf(format));
    }
    SplitJoin(cells, SeparatorOf(format));
  }

  /** A quoted value without commas or newlines is a tidy cell. */
  lemma QuoteTidy(v: string)
    requires Free(v, ',') && Free(v, '\n')
    ensures Tidy(Quote(v))
  {
    var q := Quote(v);
    forall k | 0 <= k < |q|
      ensures q[k] != ',' && q[k] != '\n'
    {
      if 0 < k < |q| - 1 {
        assert q[k] == v[k - 1];
      }
    }
  }

  /** Quoting keeps an address matching the email pattern: the quotes join the outer runs. */
  lemma QuoteEmail(e: string)
    requires EmailPattern(e)
    ensures EmailPattern(Quote(e))
  {
    var i, j :| 0 < i && i + 1 < j < |e| - 1 && e[i] == '@' && e[j] == '.'
      && PlainRun(e, 0, i) && PlainRun(e, i + 1, j) && PlainRun(e, j + 1, |e|);
    var q := Quote(e);
    assert forall k :: 1 <= k <= |e| ==> q[k] == e[k - 1];
    assert q[0] == '"' && q[|q| - 1] == '"';
    assert PlainRun(q, 0, i + 1);
    assert PlainRun(q, i + 2, j + 1);
    assert PlainRun(q, j + 2, |q|);
    assert q[i + 1] == '@' && q[j + 1] == '.';
  }

  /** The CSV cells of one user, under the default fields. */
  function DefaultCells(u: User): (r: seq<string>)
    ensures |r| == |DefaultFields|
  {
    seq(|DefaultFields|, k requires 0 <= k < |DefaultFields| => ExportCell(u, DefaultFields[k], Csv))
  }

  /** The exported cells of a user without commas or newlines in its values are tidy. */
  lemma ExportedRowTidy(u: User)
    requires forall k :: 0 <= k < |DefaultFields| ==> Free(FieldText(u, DefaultFields[k]), ',') && Free(FieldText(u, DefaultFields[k]), '\n')
    ensures TidyRow(DefaultCells(u))
  {
    var cells := DefaultCells(u);
    forall k | 0 <= k < |cells|
      ensures Tidy(cells[k])
    {
      QuoteTidy(FieldText(u, DefaultFields[k]));
    }
  }

  /** Among the default headers, the one at `k` (one of the first four) does not occur again later. */
  lemma DefaultFieldLast(k: nat)
    requires k < 4
    ensures forall j :: k < j < |DefaultFields| ==> DefaultFields[j] != DefaultFields[k]
  {
    var f := DefaultFields;
    forall j | k < j < |f|
      ensures f[j] != f[k]
    {
      if |f[j]| == |f[k]| {
        if j == 3 {
          assert f[j][0] != f[k][0];
        } else if j == 5 {
          assert f[j][0] != f[k][0];
        } else {
          assert j == 7 && f[j][0] != f[k][0];
        }
      }
    }
  }

  /** Under the default headers, the four required properties read the first four cells. */
  lemma DefaultRowFields(cells: seq<string>)
    requires |cells| == |DefaultFields|
    ensures Field(RowData(DefaultFields, cells), "username") == cells[0]
    ensures Field(RowData(DefaultFields, cells), "email") == cells[1]
    ensures Field(RowData(DefaultFields, cells), "firstName") == cells[2]
    ensures Field(RowData(DefaultFields, cells), "lastName") == cells[3]
  {
    DefaultFieldLast(0);
    RowDataLookup(DefaultFields, cells, "username", 0);
    DefaultFieldLast(1);
    RowDataLookup(DefaultFields, cells, "email", 1);
    DefaultFieldLast(2);
    RowDataLookup(DefaultFields, cells, "firstName", 2);
    DefaultFieldLast(3);
    RowDataLookup(DefaultFields, cells, "lastName", 3);
  }

  /** Read back under the default headers, the exported cells of a user with a well-formed email pass validation. */
  lemma ExportedRowValid(u: User)
    requires EmailPattern(u.fields.email)
    ensures Validate(RowData(DefaultFields, DefaultCells(u))).None?
  {
    var cells := DefaultCells(u);
    var data := RowData(DefaultFields, cells);
    DefaultRowFields(cells);
    assert Field(data, "username") == Quote(FieldText(u, "username"));
    assert Field(data, "email") == Quote(u.fields.email);
    assert Field(data, "firstName") == Quote(FieldText(u, "firstName"));
    assert Field(data, "lastName") == Quote(FieldText(u, "lastName"));
    QuoteEmail(u.fields.email);
    ValidatePasses(data);
  }

  /**
   * Exporting users as CSV with headers and the default fields, then importing
   * the text, counts every user and rejects none, provided no value holds a
   * comma or newline and every email matches the pattern. The values come back
   * still wrapped in their quotes.
   */
  lemma ImportAfterExport(users: seq<User>)
    requires forall i, k :: 0 <= i < |users| && 0 <= k < |DefaultFields| ==>
      Free(FieldText(users[i], DefaultFields[k]), ',') && Free(FieldText(users[i], DefaultFields[k]), '\n')
    requires forall i :: 0 <= i < |users| ==> EmailPattern(users[i].fields.email)
    ensures ImportUsers(ExportUsers(users, ExportOptions(Csv, true, None)))
         == Success(ImportResult(true, |users|, |users|, 0, []))
  {
    var cellRows := seq(|users|, i requires 0 <= i < |users| => DefaultCells(users[i]));
    ExportedRowsClean(users, cellRows);
    DefaultFieldsTidy();
    ImportClean(DefaultFields, cellRows, |users| == 0);
    ExportIsCsvLines(users, cellRows);
  }

  /** The default field names are tidy header cells. */
  lemma DefaultFieldsTidy()
    ensures TidyRow(DefaultFields)
  {
    assert Tidy("username") && Tidy("email") && Tidy("firstName") && Tidy("lastName");
    assert Tidy("status") && Tidy("roles") && Tidy("organizationId") && Tidy("createdAt");
  }

  /** Every user's exported cells are tidy and pass validation under the default headers. */
  lemma ExportedRowsClean(users: seq<User>, cellRows: seq<seq<string>>)
    requires cellRows == seq(|users|, i requires 0 <= i < |users| => DefaultCells(users[i]))
    requires forall i, k :: 0 <= i < |users| && 0 <= k < |DefaultFields| ==>
      Free(FieldText(users[i], DefaultFields[k]), ',') && Free(FieldText(users[i], DefaultFields[k]), '\n')
    requires forall i :: 0 <= i < |users| ==> EmailPattern(users[i].fields.email)
    ensures forall i :: 0 <= i < |cellRows| ==> TidyRow(cellRows[i]) && Validate(RowData(DefaultFields, cellRows[i])).None?
  {
    forall i | 0 <= i < |cellRows|
      ensures TidyRow(cellRows[i]) && Validate(RowData(DefaultFields, cellRows[i])).None?
    {
      ExportedRowTidy(users[i]);
      ExportedRowValid(users[i]);
    }
  }

  /** The default CSV export is the CSV file of the users' cells, with a final newline when there are no users. */
  lemma ExportIsCsvLines(users: seq<User>, cellRows: seq<seq<string>>)
    requires cellRows == seq(|users|, i requires 0 <= i < |users| => DefaultCells(users[i]))
    ensures ExportUsers(users, ExportOptions(Csv, true, None))
         == Join(CsvLines(DefaultFields, cellRows) + (if |users| == 0 then [""] else []), "\n")
  {
    var h := Join(DefaultFields, ",");
    var rows := seq(|users|, i requires 0 <= i < |users| => Join(cellRows[i], ","));
    assert rows == seq(|users|, k requires 0 <= k < |users| => ExportRow(users[k], DefaultFields, Csv));
    assert CsvLines(DefaultFields, cellRows) == [h] + rows;
    if |users| == 0 {
      assert [h] + rows + [""] == [h, ""];
    } else {
      JoinCons(h, rows, "\n");
      assert [h] + rows + [] == [h] + rows;
    }
  }
}
