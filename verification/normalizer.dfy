/** Normalisation of the scanner's CSV rows into issues (main.py lines
    110-123). A row is a header-keyed map, as `csv.DictReader` yields it. */
module Normalizer {
  import opened Wrappers
  import Numbers
  import Seqs

  type Row = map<string, string>

  /** The record written to result.json; `refs` is always empty. */
  datatype Issue = Issue(path: string, line: int, column: int, msg: string, rule: string, refs: seq<string>)

  /** One scanner row with its fields looked up and its numbers converted. */
  datatype Finding = Finding(path: string, line: int, column: int, msg: string, name: string)

  /** What aborts the loop: a `KeyError` for a missing column, a `ValueError`
      from `int()` on a Line or Column that is not a decimal integer. */
  datatype RowError = MissingField(field: string) | NotAnInteger(field: string, text: string)

  /** `row[name]`, raising `KeyError` when the column is missing. */
  function Field(row: Row, name: string): Result<string, RowError> {
    if name in row then Success(row[name]) else Failure(MissingField(name))
  }

  function IntField(row: Row, name: string): (r: Result<int, RowError>)
    ensures r.Success? <==> name in row && Numbers.ParseInt(row[name]).Some?
    ensures r.Success? ==> Numbers.ParseInt(row[name]) == Some(r.value)
  {
    var text :- Field(row, name);
    match Numbers.ParseInt(text)
    case Some(n) => Success(n)
    case None => Failure(NotAnInteger(name, text))
  }

  /** A row is usable when all five columns are present and Line and Column
      are decimal integers; the rule does not enter into it. */
  predicate WellFormed(row: Row) {
    && "File" in row && "Line" in row && "Column" in row && "Warning" in row && "Name" in row
    && Numbers.ParseInt(row["Line"]).Some? && Numbers.ParseInt(row["Column"]).Some?
  }

  /** The columns in the order the loop body reads them. */
  const Columns: seq<string> := ["File", "Line", "Column", "Warning", "Name"]

  /** Reading column `name` of `row` raises nothing: the column is present
      and, for Line and Column, holds a decimal integer. */
  predicate FieldOk(row: Row, name: string) {
    name in row && (name in {"Line", "Column"} ==> Numbers.ParseInt(row[name]).Some?)
  }

  /** The lookups of one loop iteration, in the source's order: File, Line,
      Column, Warning, Name. The first that fails decides the error. */
  function ParseRow(row: Row): (r: Result<Finding, RowError>)
    ensures r.Success? <==> WellFormed(row)
    ensures r.Success? ==> r.value.path == row["File"] && r.value.msg == row["Warning"] && r.value.name == row["Name"]
    ensures r.Success? ==> Numbers.ParseInt(row["Line"]) == Some(r.value.line)
    ensures r.Success? ==> Numbers.ParseInt(row["Column"]) == Some(r.value.column)
  {
    var path :- Field(row, "File");
    var line :- IntField(row, "Line");
    var column :- IntField(row, "Column");
    var msg :- Field(row, "Warning");
    var name :- Field(row, "Name");
    Success(Finding(path, line, column, msg, name))
  }

  /** The issue record built for an allowed finding. */
  function ToIssue(f: Finding): Issue {
    Issue(f.path, f.line, f.column, f.msg, f.name, [])
  }

  /** The error of a malformed row is that of the first column, in reading
      order, whose lookup raises: every earlier column reads cleanly, the
      error names that column, it is a missing-column error exactly when the
      column is absent, and otherwise it carries the column's text. */
  lemma ParseRowFirstError(row: Row)
    requires ParseRow(row).Failure?
    ensures var e := ParseRow(row).error;
      exists k :: 0 <= k < |Columns| && e.field == Columns[k]
        && !FieldOk(row, Columns[k])
        && (forall m :: 0 <= m < k ==> FieldOk(row, Columns[m]))
        && (e.MissingField? <==> Columns[k] !in row)
        && (e.NotAnInteger? ==> e.text == row[Columns[k]])
  {
    var e := ParseRow(row).error;
    var k :=
      if !FieldOk(row, "File") then 0
      else if !FieldOk(row, "Line") then 1
      else if !FieldOk(row, "Column") then 2
      else if !FieldOk(row, "Warning") then 3
      else 4;
    assert e.field == Columns[k];
  }

  /** The loop of lines 111-123: every row is parsed, in order, and only the
      rows whose rule is allowed become issues. The first malformed row
      aborts the whole loop, whether or not its rule is allowed. */
  function Normalize(rows: seq<Row>, rules: set<string>): (r: Result<seq<Issue>, RowError>)
    ensures r.Success? ==> |r.value| <= |rows|
    ensures r.Success? ==> forall i :: i in r.value ==> i.rule in rules && i.refs == []
    decreases |rows|
  {
    if |rows| == 0 then Success([])
    else
      var f :- ParseRow(rows[0]);
      var rest :- Normalize(rows[1..], rules);
      if f.name in rules then Success([ToIssue(f)] + rest) else Success(rest)
  }

  // ---------------------------------------------------------------------
  // Reference: parse everything first, then filter, then convert

  /** Parses every row, stopping at the first malformed one. */
  function ParseAll(rows: seq<Row>): (r: Result<seq<Finding>, RowError>)
    ensures r.Success? ==> |r.value| == |rows| && forall j :: 0 <= j < |rows| ==> ParseRow(rows[j]) == Success(r.value[j])
    decreases |rows|
  {
    if |rows| == 0 then Success([])
    else
      var f :- ParseRow(rows[0]);
      var rest :- ParseAll(rows[1..]);
      Success([f] + rest)
  }

  function AllowedBy(rules: set<string>): Finding -> bool {
    (f: Finding) => f.name in rules
  }

  /** Reference definition: parse every row, keep the allowed findings,
      convert each to an issue. */
  function ParseFilterMap(rows: seq<Row>, rules: set<string>): Result<seq<Issue>, RowError> {
    match ParseAll(rows)
    case Failure(e) => Failure(e)
    case Success(fs) => Success(Seqs.Map(ToIssue, Seqs.Filter(AllowedBy(rules), fs)))
  }

  /** The one-pass loop equals the three-stage reference. */
  lemma {:induction false} NormalizeIsParseFilterMap(rows: seq<Row>, rules: set<string>)
    ensures Normalize(rows, rules) == ParseFilterMap(rows, rules)
    decreases |rows|
  {
    if |rows| > 0 {
      NormalizeIsParseFilterMap(rows[1..], rules);
      var head := ParseRow(rows[0]);
      var tail := ParseAll(rows[1..]);
      if head.Success? && tail.Success? {
        ParseFilterMapStep(head.value, tail.value, rules);
      }
    }
  }

  /** One loop iteration of the reference: a parsed first row is prepended
      as an issue exactly when its rule is allowed. */
  lemma ParseFilterMapStep(f: Finding, fs: seq<Finding>, rules: set<string>)
    ensures Seqs.Map(ToIssue, Seqs.Filter(AllowedBy(rules), [f] + fs)) ==
      if f.name in rules then [ToIssue(f)] + Seqs.Map(ToIssue, Seqs.Filter(AllowedBy(rules), fs))
      else Seqs.Map(ToIssue, Seqs.Filter(AllowedBy(rules), fs))
  {
    var p := AllowedBy(rules);
    assert ([f] + fs)[1..] == fs;
    if p(f) {
      assert Seqs.Filter(p, [f] + fs) == [f] + Seqs.Filter(p, fs);
      Seqs.MapCons(ToIssue, f, Seqs.Filter(p, fs));
    }
  }

  /** Normalisation fails exactly when some row, allowed or not, is
      malformed; the error is that of the first malformed row. */
  lemma {:induction false} NormalizeFailsIff(rows: seq<Row>, rules: set<string>)
    ensures Normalize(rows, rules).Failure? <==> exists j :: 0 <= j < |rows| && !WellFormed(rows[j])
    ensures Normalize(rows, rules).Failure? ==>
      exists j :: 0 <= j < |rows| && ParseRow(rows[j]) == Failure(Normalize(rows, rules).error)
        && forall k :: 0 <= k < j ==> WellFormed(rows[k])
    decreases |rows|
  {
    if |rows| > 0 {
      NormalizeFailsIff(rows[1..], rules);
      if exists j :: 0 <= j < |rows| && !WellFormed(rows[j]) {
        var j :| 0 <= j < |rows| && !WellFormed(rows[j]);
        if j > 0 {
          assert rows[1..][j - 1] == rows[j];
        }
      }
      var r := Normalize(rows, rules);
      if r.Failure? && WellFormed(rows[0]) {
        var j :| 0 <= j < |rows[1..]| && ParseRow(rows[1..][j]) == Failure(r.error)
          && forall k :: 0 <= k < j ==> WellFormed(rows[1..][k]);
        assert ParseRow(rows[j + 1]) == Failure(r.error);
        forall k | 0 <= k < j + 1
          ensures WellFormed(rows[k])
        {
          if k > 0 {
            assert rows[k] == rows[1..][k - 1];
          }
        }
      }
    }
  }

  /** A row whose rule is not allowed is still parsed: a malformed Line or
      Column on it aborts the whole run rather than being skipped. */
  lemma DroppedRowStillAborts(rows: seq<Row>, rules: set<string>, j: int)
    requires 0 <= j < |rows|
    requires "Name" in rows[j] && rows[j]["Name"] !in rules
    requires !WellFormed(rows[j])
    ensures Normalize(rows, rules).Failure?
  {
    NormalizeFailsIff(rows, rules);
  }

  /** Normalisation fails with `e` exactly when `e` is what the first
      malformed row raises. */
  lemma NormalizeErrorIff(rows: seq<Row>, rules: set<string>, e: RowError)
    ensures Normalize(rows, rules) == Failure(e) <==>
      exists i :: 0 <= i < |rows| && ParseRow(rows[i]) == Failure(e)
        && forall k :: 0 <= k < i ==> WellFormed(rows[k])
  {
    NormalizeFailsIff(rows, rules);
    if exists i :: 0 <= i < |rows| && ParseRow(rows[i]) == Failure(e)
         && forall k :: 0 <= k < i ==> WellFormed(rows[k]) {
      var i :| 0 <= i < |rows| && ParseRow(rows[i]) == Failure(e)
        && forall k :: 0 <= k < i ==> WellFormed(rows[k]);
      var i' :| 0 <= i' < |rows| && ParseRow(rows[i']) == Failure(Normalize(rows, rules).error)
        && forall k :: 0 <= k < i' ==> WellFormed(rows[k]);
      assert i == i';
    }
  }

  /** `idx` lists, in strictly increasing order, the rows the issues come
      from, and every row with an allowed rule is listed. */
  ghost predicate TracedBy(rows: seq<Row>, rules: set<string>, issues: seq<Issue>, idx: seq<int>) {
    && |idx| == |issues|
    && (forall k, l :: 0 <= k < l < |idx| ==> idx[k] < idx[l])
    && (forall k :: 0 <= k < |idx| ==> 0 <= idx[k] < |rows| && IssueOf(rows[idx[k]], issues[k], rules))
    && (forall j :: 0 <= j < |rows| && "Name" in rows[j] && rows[j]["Name"] in rules ==> j in idx)
  }

  /** Each issue comes from the row at a strictly increasing position whose
      rule is allowed, with path = File, line = int(Line), column =
      int(Column), msg = Warning, rule = Name and no refs; and every row
      with an allowed rule yields one. */
  lemma NormalizeTracesRows(rows: seq<Row>, rules: set<string>)
    requires Normalize(rows, rules).Success?
    ensures exists idx: seq<int> :: TracedBy(rows, rules, Normalize(rows, rules).value, idx)
  {
    NormalizeIsParseFilterMap(rows, rules);
    assert ParseAll(rows).Success?;
    var fs := ParseAll(rows).value;
    var p := AllowedBy(rules);
    var kept := Seqs.Filter(p, fs);
    var idx := Seqs.IndicesFrom(p, fs, 0);
    Seqs.FilterPreservesOrder(p, fs);
    TraceFromFindings(rows, rules, fs, idx);
    assert Normalize(rows, rules).value == Seqs.Map(ToIssue, kept);
  }

  lemma TraceFromFindings(rows: seq<Row>, rules: set<string>, fs: seq<Finding>, idx: seq<int>)
    requires |fs| == |rows| && forall j :: 0 <= j < |rows| ==> ParseRow(rows[j]) == Success(fs[j])
    requires Seqs.SelectsFrom(AllowedBy(rules), fs, 0, Seqs.Filter(AllowedBy(rules), fs), idx)
    ensures TracedBy(rows, rules, Seqs.Map(ToIssue, Seqs.Filter(AllowedBy(rules), fs)), idx)
  {
    var p := AllowedBy(rules);
    var kept := Seqs.Filter(p, fs);
    var issues := Seqs.Map(ToIssue, kept);
    forall k | 0 <= k < |idx|
      ensures 0 <= idx[k] < |rows| && IssueOf(rows[idx[k]], issues[k], rules)
    {
      assert kept[k] == fs[idx[k]] && issues[k] == ToIssue(kept[k]);
      IssueOfFinding(rows[idx[k]], fs[idx[k]], rules);
    }
    forall j | 0 <= j < |rows| && "Name" in rows[j] && rows[j]["Name"] in rules
      ensures j in idx
    {
      assert ParseRow(rows[j]) == Success(fs[j]);
      assert p(fs[j]);
    }
  }

  lemma IssueOfFinding(row: Row, f: Finding, rules: set<string>)
    requires ParseRow(row) == Success(f) && f.name in rules
    ensures IssueOf(row, ToIssue(f), rules)
  {
  }

  /** `issue` is what the loop builds from `row` when its rule is allowed. */
  ghost predicate IssueOf(row: Row, issue: Issue, rules: set<string>) {
    && WellFormed(row)
    && issue.path == row["File"]
    && Numbers.ParseInt(row["Line"]) == Some(issue.line)
    && Numbers.ParseInt(row["Column"]) == Some(issue.column)
    && issue.msg == row["Warning"]
    && issue.rule == row["Name"] && issue.rule in rules
    && issue.refs == []
  }
}
