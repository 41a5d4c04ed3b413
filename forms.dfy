/**
 * The pipe table of the FORMS section: a first pass keeps the data rows of
 * the table (at least six cells, neither the separator row nor the header
 * row), a second pass turns each row with a real form name into a form
 * record whose six fields are normalised.
 */
module Forms {
  import opened StrOps
  import opened Normalizer

  /** One row of the table; every field is normalised, so a sentinel becomes absent. */
  datatype FormRow = FormRow(
    name: Option<string>,
    formNumber: Option<string>,
    description: Option<string>,
    language: Option<string>,
    url: Option<string>,
    fileType: Option<string>)

  /** A field that went through `normalize`: absent, or non-empty, stripped and not a sentinel. */
  predicate IsNormal(field: Option<string>)
  {
    field.Some? ==> field.value != [] && IsTrimmed(field.value) && Lower(field.value) !in Sentinels
  }

  predicate IsNormalRow(f: FormRow)
  {
    IsNormal(f.name) && IsNormal(f.formNumber) && IsNormal(f.description) &&
    IsNormal(f.language) && IsNormal(f.url) && IsNormal(f.fileType)
  }

  /** A line of the section that starts with '|' once stripped, kept stripped. */
  function PipeLine(line: string): (r: Option<string>)
    ensures r.Some? ==> r.value != [] && r.value[0] == '|'
  {
    var l := Trim(line);
    if l != [] && l[0] == '|' then Some(l) else None
  }

  /** Each piece, stripped. */
  function TrimEach(parts: seq<string>): (r: seq<string>)
    ensures |r| == |parts|
    ensures forall i :: 0 <= i < |r| ==> r[i] == Trim(parts[i])
  {
    if parts == [] then [] else TrimEach(ButLast(parts)) + [Trim(parts[|parts| - 1])]
  }

  /** The cells of a table line: the line without its outer pipes, split on '|', each piece stripped. */
  function Cells(line: string): (cells: seq<string>)
    ensures |cells| >= 1
  {
    TrimEach(SplitOn(Strip(line, {'|'}), '|'))
  }

  /** A cell matching `^[-:]+$`. */
  predicate IsRuleCell(c: string)
  {
    c != [] && forall k :: 0 <= k < |c| ==> c[k] == '-' || c[k] == ':'
  }

  /** The separator row: every non-empty cell is a rule; a row of empty cells counts as one too. */
  predicate IsSeparatorRow(cells: seq<string>)
  {
    forall i :: 0 <= i < |cells| ==> cells[i] != [] ==> IsRuleCell(cells[i])
  }

  predicate IsHeaderRow(cells: seq<string>)
  {
    cells != [] && Lower(cells[0]) in {"form name", "form name "}
  }

  /** The first pass: the cells of a table line that is a data row. */
  function DataRow(line: string): (r: Option<seq<string>>)
    ensures r.Some? ==> |r.value| >= 6 && !IsSeparatorRow(r.value) && !IsHeaderRow(r.value)
  {
    var cells := Cells(line);
    if IsSeparatorRow(cells) then None
    else if IsHeaderRow(cells) then None
    else if |cells| >= 6 then Some(cells)
    else None
  }

  /** The six leading cells, each normalised. */
  function FormOf(row: seq<string>): (f: FormRow)
    requires |row| >= 6
    ensures IsNormalRow(f)
  {
    FormRow(Normalize(Some(row[0])), Normalize(Some(row[1])), Normalize(Some(row[2])),
            Normalize(Some(row[3])), Normalize(Some(row[4])), Normalize(Some(row[5])))
  }

  /** The second pass: a row becomes a form unless it has too few cells or no name. */
  function RowForm(row: seq<string>): (r: Option<FormRow>)
    ensures r.Some? ==> |row| >= 6 && Lower(row[0]) != "" && Lower(row[0]) != NotSpecified
    ensures r.Some? ==> IsNormalRow(r.value)
  {
    if |row| < 6 then None
    else if Lower(row[0]) in {"", NotSpecified} then None
    else Some(FormOf(row))
  }

  /** The forms of a sequence of lines, through both passes. */
  function FormsOfLines(lines: seq<string>): seq<FormRow>
  {
    FilterMap(RowForm, FilterMap(DataRow, FilterMap(PipeLine, lines)))
  }

  function FormTable(section: string): seq<FormRow>
  {
    FormsOfLines(SplitLines(section))
  }

  /** `extract_form_table`. */
  method ExtractFormTable(section: string) returns (forms: seq<FormRow>)
    ensures forms == FormTable(section)
    ensures |forms| <= |FilterMap(PipeLine, SplitLines(section))|
  {
    var lines := FilterMap(PipeLine, SplitLines(section));
    var dataRows: seq<seq<string>> := [];
    var i := 0;
    while i < |lines|
      invariant 0 <= i <= |lines|
      invariant dataRows == FilterMap(DataRow, lines[..i])
    {
      FilterMapStep(DataRow, lines, i);
      var row := DataRow(lines[i]);
      if row.Some? {
        dataRows := dataRows + [row.value];
      }
      i := i + 1;
    }
    TakeAll(lines);
    forms := [];
    var j := 0;
    while j < |dataRows|
      invariant 0 <= j <= |dataRows|
      invariant forms == FilterMap(RowForm, dataRows[..j])
    {
      FilterMapStep(RowForm, dataRows, j);
      var form := RowForm(dataRows[j]);
      if form.Some? {
        forms := forms + [form.value];
      }
      j := j + 1;
    }
    TakeAll(dataRows);
  }

  /** What a single line contributes: a form when it is a pipe line, a data row and a named row. */
  function LineForm(line: string): (r: Option<FormRow>)
    ensures r.Some? ==> PipeLine(line).Some? && DataRow(Trim(line)).Some?
    ensures r.Some? ==> r.value == FormOf(Cells(Trim(line)))
  {
    match PipeLine(line)
    case None => None
    case Some(l) =>
      match DataRow(l)
      case None => None
      case Some(row) => RowForm(row)
  }

  /** The table is read line by line: each line contributes at most one form, independently of the others. */
  lemma {:induction false} FormsLineByLine(lines: seq<string>)
    ensures FormsOfLines(lines) == FilterMap(LineForm, lines)
    decreases |lines|
  {
    if lines != [] {
      var last := lines[|lines| - 1];
      SnocButLast(lines);
      FormsOfLinesAppend(ButLast(lines), [last]);
      FormsOfLine(last);
      FormsLineByLine(ButLast(lines));
    }
  }

  lemma FormsOfLinesAppend(a: seq<string>, b: seq<string>)
    ensures FormsOfLines(a + b) == FormsOfLines(a) + FormsOfLines(b)
  {
    FilterMapAppend(PipeLine, a, b);
    FilterMapAppend(DataRow, FilterMap(PipeLine, a), FilterMap(PipeLine, b));
    FilterMapAppend(RowForm, FilterMap(DataRow, FilterMap(PipeLine, a)), FilterMap(DataRow, FilterMap(PipeLine, b)));
  }

  lemma FormsOfLine(line: string)
    ensures FormsOfLines([line]) == Opt(LineForm(line))
  {
    FilterMapSingle(PipeLine, line);
    match PipeLine(line)
    case None =>
    case Some(l) =>
      FilterMapSingle(DataRow, l);
      match DataRow(l)
      case None =>
      case Some(row) =>
        FilterMapSingle(RowForm, row);
  }

  /** Every field of every form is normalised. */
  lemma FormsAreNormal(section: string)
    ensures forall i :: 0 <= i < |FormTable(section)| ==> IsNormalRow(FormTable(section)[i])
  {
    var rows := FilterMap(DataRow, FilterMap(PipeLine, SplitLines(section)));
    FilterMapAll(RowForm, IsNormalRow, rows);
  }

  /** The name test looks at the raw cell: a form named "N/A" is kept, with its name absent. */
  lemma SentinelNameKept(rest: seq<string>)
    requires |rest| >= 5
    ensures RowForm(["N/A"] + rest).Some?
    ensures RowForm(["N/A"] + rest).value.name.None?
  {
    var row := ["N/A"] + rest;
    assert row[0] == "N/A";
    assert Lower("N/A") == "n/a";
    assert Trim("N/A") == "N/A";
  }
}
