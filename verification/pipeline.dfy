/** `Flawfinder.run` as a pure function. Environment values, the rule list of
    the task-parameter file, the parsed diff list and the scanner itself are
    inputs; the result records the command handed to the scanner, if any, and
    how the run ended. */
module Pipeline {
  import opened Wrappers
  import opened Targets
  import Command
  import opened Normalizer

  /** The two environment values `run` reads: SOURCE_DIR and DIFF_FILES. */
  datatype Environment = Environment(sourceDir: Option<string>, diffFiles: Option<string>)

  /** What running the scanner produced: a failure (launch error, non-zero
      exit status, or the ten-second timeout), or a normal exit after which
      the CSV file was either read into rows or could not be read. */
  datatype ScanReport = ScannerFailed | ScannerExited(table: Option<seq<Row>>)

  /** Exceptions that escape `run`. */
  datatype Abort =
    | UnsetSourceDir        // `" ".join(cmd)` meets the `None` target
    | ScannerError          // `subprocess.run` raised
    | BadRow(error: RowError)

  /** How a run ends. Only `Written` produces result.json. */
  datatype Outcome = Skipped | ReadFailed | Written(issues: seq<Issue>) | Aborted(cause: Abort)

  /** `command` is the argument list the scanner was started with, or `None`
      when the scanner was never started. */
  datatype Trace = Trace(command: Option<seq<string>>, outcome: Outcome)

  /** The targets as strings, or `None` when the list holds Python `None`. */
  function Paths(list: ScanList): (r: Option<seq<string>>)
    ensures r.Some? ==> |r.value| == list.Count()
    ensures r.None? <==> list == Root(None)
  {
    match list
    case Files(ps) => Some(ps)
    case Root(d) => if d.Some? then Some([d.value]) else None
  }

  function Run(env: Environment, diffList: seq<string>, rules: set<string>, tool: string,
               scanner: seq<string> -> ScanReport): (t: Trace)
    ensures var list := Resolve(env.diffFiles, diffList, env.sourceDir);
      t.outcome.Skipped? <==> list.Count() == 0
    ensures t.outcome.Skipped? ==> t.command.None?
    ensures t.command.Some? ==>
      var list := Resolve(env.diffFiles, diffList, env.sourceDir);
      Paths(list).Some? && Command.Split(t.command.value) == Some((tool, Paths(list).value))
    ensures t.outcome.Written? ==> t.command.Some? && forall i :: i in t.outcome.issues ==> i.rule in rules
    ensures t.outcome == Aborted(ScannerError) <==> t.command.Some? && scanner(t.command.value) == ScannerFailed
    ensures t.outcome == ReadFailed <==> t.command.Some? && scanner(t.command.value) == ScannerExited(None)
  {
    var list := Resolve(env.diffFiles, diffList, env.sourceDir);
    if list.Count() == 0 then
      Trace(None, Skipped)
    else
      match Paths(list)
      case None => Trace(None, Aborted(UnsetSourceDir))
      case Some(paths) =>
        var cmd := Command.Build(tool, paths);
        Command.SplitBuild(tool, paths);
        var outcome :=
          match scanner(cmd)
          case ScannerFailed => Aborted(ScannerError)
          case ScannerExited(None) => ReadFailed
          case ScannerExited(Some(rows)) =>
            match Normalize(rows, rules)
            case Failure(e) => Aborted(BadRow(e))
            case Success(issues) => Written(issues);
        Trace(Some(cmd), outcome)
  }

  // ---------------------------------------------------------------------
  // Modes

  /** Incremental mode with at least one wanted entry runs the scanner on
      exactly the wanted entries, in order, whatever SOURCE_DIR is. */
  lemma IncrementalCommand(env: Environment, diffList: seq<string>, rules: set<string>, tool: string,
                           scanner: seq<string> -> ScanReport)
    requires Incremental(env.diffFiles)
    requires |IncrementalTargets(diffList)| > 0
    ensures Run(env, diffList, rules, tool, scanner).command == Some(Command.Build(tool, IncrementalTargets(diffList)))
    ensures Run(env, diffList, rules, tool, scanner) == Run(env.(sourceDir := None), diffList, rules, tool, scanner)
  {
  }

  /** Incremental mode with no wanted entry ends the run before the scanner
      is started and before anything is written. */
  lemma IncrementalNothingWanted(env: Environment, diffList: seq<string>, rules: set<string>, tool: string,
                                 scanner: seq<string> -> ScanReport)
    requires Incremental(env.diffFiles)
    requires forall j :: 0 <= j < |diffList| ==> !Wanted(diffList[j])
    ensures Run(env, diffList, rules, tool, scanner) == Trace(None, Skipped)
  {
    if |IncrementalTargets(diffList)| > 0 {
      var p := IncrementalTargets(diffList)[0];
      IncrementalMembership(diffList, p);
      assert false;
    }
  }

  /** Full mode never reaches the empty-target return: it scans the source
      root, or aborts at the join when SOURCE_DIR is unset. The diff list
      plays no part. */
  lemma FullModeNeverSkips(env: Environment, diffList: seq<string>, rules: set<string>, tool: string,
                           scanner: seq<string> -> ScanReport)
    requires !Incremental(env.diffFiles)
    ensures !Run(env, diffList, rules, tool, scanner).outcome.Skipped?
    ensures env.sourceDir.Some? ==>
      Run(env, diffList, rules, tool, scanner).command == Some(Command.Build(tool, [env.sourceDir.value]))
    ensures env.sourceDir.None? ==> Run(env, diffList, rules, tool, scanner) == Trace(None, Aborted(UnsetSourceDir))
    ensures Run(env, diffList, rules, tool, scanner) == Run(env, [], rules, tool, scanner)
  {
  }

  // ---------------------------------------------------------------------
  // Results

  /** result.json is written exactly when the scanner ran, its CSV was read
      and every row was well formed; what is written is the normalised list. */
  lemma WrittenIff(env: Environment, diffList: seq<string>, rules: set<string>, tool: string,
                   scanner: seq<string> -> ScanReport, issues: seq<Issue>)
    ensures Run(env, diffList, rules, tool, scanner).outcome == Written(issues) <==>
      var t := Run(env, diffList, rules, tool, scanner);
      && t.command.Some?
      && scanner(t.command.value).ScannerExited?
      && scanner(t.command.value).table.Some?
      && Normalize(scanner(t.command.value).table.value, rules) == Success(issues)
  {
  }

  /** Targets present and a CSV with a header but no data rows: an empty
      list is still written, unlike the skipped run. */
  lemma EmptyTableWritesEmptyList(env: Environment, diffList: seq<string>, rules: set<string>, tool: string,
                                  scanner: seq<string> -> ScanReport)
    requires var t := Run(env, diffList, rules, tool, scanner);
      t.command.Some? && scanner(t.command.value) == ScannerExited(Some([]))
    ensures Run(env, diffList, rules, tool, scanner).outcome == Written([])
  {
  }

  /** A malformed row aborts the run even when its rule is filtered out,
      and the error raised is that of the first malformed row. */
  lemma MalformedRowAborts(env: Environment, diffList: seq<string>, rules: set<string>, tool: string,
                           scanner: seq<string> -> ScanReport, j: int)
    requires var t := Run(env, diffList, rules, tool, scanner);
      && t.command.Some? && scanner(t.command.value).ScannerExited?
      && scanner(t.command.value).table.Some?
      && 0 <= j < |scanner(t.command.value).table.value|
      && !WellFormed(scanner(t.command.value).table.value[j])
    ensures var t := Run(env, diffList, rules, tool, scanner);
      var rows := scanner(t.command.value).table.value;
      && Normalize(rows, rules).Failure?
      && t.outcome == Aborted(BadRow(Normalize(rows, rules).error))
    ensures var t := Run(env, diffList, rules, tool, scanner);
      var rows := scanner(t.command.value).table.value;
      exists i :: 0 <= i <= j && ParseRow(rows[i]) == Failure(t.outcome.cause.error)
        && forall k :: 0 <= k < i ==> WellFormed(rows[k])
  {
    var t := Run(env, diffList, rules, tool, scanner);
    var rows := scanner(t.command.value).table.value;
    NormalizeFailsIff(rows, rules);
    var i :| 0 <= i < |rows| && ParseRow(rows[i]) == Failure(Normalize(rows, rules).error)
      && forall k :: 0 <= k < i ==> WellFormed(rows[k]);
  }

  /** The run ends with `BadRow(e)` exactly when the scanner ran, its CSV
      was read, and the first malformed row of that CSV raises `e`. */
  lemma AbortedBadRowIff(env: Environment, diffList: seq<string>, rules: set<string>, tool: string,
                         scanner: seq<string> -> ScanReport, e: RowError)
    ensures Run(env, diffList, rules, tool, scanner).outcome == Aborted(BadRow(e)) <==>
      var t := Run(env, diffList, rules, tool, scanner);
      && t.command.Some?
      && scanner(t.command.value).ScannerExited?
      && scanner(t.command.value).table.Some?
      && var rows := scanner(t.command.value).table.value;
         exists i :: 0 <= i < |rows| && ParseRow(rows[i]) == Failure(e)
           && forall k :: 0 <= k < i ==> WellFormed(rows[k])
  {
    var t := Run(env, diffList, rules, tool, scanner);
    if t.command.Some? && scanner(t.command.value).ScannerExited? && scanner(t.command.value).table.Some? {
      NormalizeErrorIff(scanner(t.command.value).table.value, rules, e);
    }
  }

  /** A worked example: with rules {"CWE-120"} an allowed row becomes
      one issue and a row with rule CWE-999 is dropped. */
  lemma WorkedExample(tool: string)
    ensures
      var rows: seq<Row> := [
        map["File" := "foo.c", "Line" := "10", "Column" := "3", "Warning" := "buffer overflow risk", "Name" := "CWE-120"],
        map["File" := "bar.c", "Line" := "7", "Column" := "1", "Warning" := "format string", "Name" := "CWE-999"]
      ];
      Run(Environment(Some("/src"), None), [], {"CWE-120"}, tool, cmd => ScannerExited(Some(rows))).outcome
        == Written([Issue("foo.c", 10, 3, "buffer overflow risk", "CWE-120", [])])
  {
    assert Numbers.ParseInt("10") == Some(10) by { Numbers.ParseShowRoundTrip(10); assert Numbers.Show(10) == "10"; }
    assert Numbers.ParseInt("3") == Some(3) by { Numbers.ParseShowRoundTrip(3); assert Numbers.Show(3) == "3"; }
    assert Numbers.ParseInt("7") == Some(7) by { Numbers.ParseShowRoundTrip(7); assert Numbers.Show(7) == "7"; }
    assert Numbers.ParseInt("1") == Some(1) by { Numbers.ParseShowRoundTrip(1); assert Numbers.Show(1) == "1"; }
  }
}
