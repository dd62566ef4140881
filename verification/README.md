# Flawfinder scan orchestration, modelled in Dafny

This project models `Flawfinder.run` from `main.py`, the wrapper that runs the
flawfinder C/C++ scanner for a code-analysis task. The wrapper does three things.

- It resolves the scan targets. In incremental mode these are the diff-list
  entries with a C/C++ suffix. In full mode the target is the source root.
- It builds the scanner command line.
- It turns the scanner's CSV rows into issue records, keeping only the rules the
  task allows.

Every step is a pure function. The inputs that the program reads at run time
become parameters:

- the `SOURCE_DIR` and `DIFF_FILES` environment values;
- the parsed diff list;
- the `rules` list from the task-parameter file;
- the absolute path of the scanner script;
- the scanner itself, as a function from the command line to a `ScanReport`.

Modules:

- `Wrappers`: `Option` and `Result`.
- `Seqs`: an order-preserving `Filter`, with lemmas on membership, multiplicity and order.
- `Numbers`: decimal parsing for the Line and Column fields, and `Show`, the rendering it inverts.
- `Targets`: the 17-entry suffix tuple, ASCII lower-casing, the mode switch and `Resolve`.
- `Command`: the eight-token prefix, `Build`, and its inverse `Split`.
- `Normalizer`: row to issue conversion, and the loop with its rule filter.
- `Pipeline`: `Run`. It returns the command the scanner was started with, if any, and an `Outcome`.

`Outcome` has four cases:

- `Skipped`: there were no targets.
- `ReadFailed`: the CSV could not be read.
- `Written(issues)`: `result.json` is written. `issues` may be empty.
- `Aborted(cause)`: an exception escapes `run`.

Where the code behaves differently from what it suggests, the model follows the code:

- **Suffix matching ignores case.** The tuple at main.py:44-62 lists `.C`,
  `.CPP`, `.CC` and `.H` beside their lower-case forms, which suggests
  case-sensitive matching. But the code lower-cases each path before
  `endswith` (main.py:70). So `FOO.CPP` and `x.C` are kept. The four
  upper-case entries can never match, because a lower-cased path has no
  upper-case letter (`UpperSuffixNeverMatches`).
- **The mode switch is the variable's value.** Incremental mode starts when the
  `DIFF_FILES` value is set and non-empty, not when the list is non-empty. An
  empty diff list in incremental mode gives `Skipped`.
- **An unset source directory aborts the run.** `os.environ.get("SOURCE_DIR",
  None)` suggests an unset value is tolerated, but it is not. In the code, full mode with `SOURCE_DIR` unset gives
  `scan_files == [None]`. That list is not empty. `" ".join(cmd)` at main.py:95
  then raises `TypeError` before the scanner starts. The model returns
  `Aborted(UnsetSourceDir)`.
- **Incremental targets come only from the diff list.** One might expect
  incremental targets never to include the source directory. That fails when
  `SOURCE_DIR` equals a wanted diff entry. What does hold is that in
  incremental mode the targets are the same whatever `SOURCE_DIR` is (`IncrementalIgnoresSourceDir`,
  `IncrementalCommand`).

## Model

| member | source | states |
|---|---|---|
| Targets.Lower | main.py:70 | Every upper-case ASCII letter becomes its lower-case partner, every other character is kept, and no upper-case letter is left. |
| Targets.Wanted | main.py:44-70 | A path is kept if and only if its lower-cased form ends with one of the 13 lower-case suffixes. A kept path has at least two characters. |
| Targets.Resolve | main.py:64-73 | Incremental mode (the helper `Incremental`: the diff-files value is set and not the empty string) gives only wanted entries of the diff list. Otherwise the list is exactly `[source_dir]`, of length one. |
| Targets.IncrementalMembership | main.py:69-71 | A path is an incremental target if and only if it is in the diff list and its lower-cased form ends with a listed suffix. |
| Targets.IncrementalMultiplicity | main.py:69-71 | No entry is added or duplicated. A wanted path appears as often as in the diff list, and an unwanted one not at all. |
| Targets.IncrementalOrder | main.py:69-71 | The targets are the diff list's wanted entries at strictly increasing positions, and every wanted position contributes one target. |
| Targets.IncrementalIgnoresSourceDir | main.py:64-73 | In incremental mode the resolved list does not depend on the source directory. It is the filtered diff list. |
| Targets.UpperSuffixNeverMatches | main.py:50-70 | A suffix ending in an upper-case letter never matches a lower-cased path, so `.C`, `.CPP`, `.CC` and `.H` are dead entries. |
| Targets.WantedIffLiveSuffix | main.py:44-70 | For a lower-cased path, matching against all 17 entries is the same as matching against the 13 lower-case ones. The upper-case entries add nothing. |
| Targets.WantedLastChar | main.py:44-70 | A wanted path ends, up to case, in `c`, `h`, `p`, `x` or `+`. |
| Targets.WantedIgnoresCase | main.py:70 | Two paths that agree letter by letter up to ASCII case are both kept or both dropped. |
| Targets.UpperCaseSpellingsKept | main.py:70 | `FOO.CPP` and `x.C` are kept. |
| Targets.OtherSuffixesDropped | main.py:44-70 | `setup.py` and `notes.txt` are dropped. |
| Command.Prefix | main.py:79-88 | The fixed prefix has eight tokens, and its last token is the `--` sentinel. |
| Command.Build | main.py:79-93 | The command has length 8 plus the number of targets, and target k is at position 8 + k. |
| Command.SplitBuild | main.py:79-93 | Every built command has the fixed shape. The tool path and the ordered targets can be read back from it. |
| Command.BuildSplit | main.py:79-93 | Every command line of the fixed shape is the one built from its tool path and targets. |
| Command.BuildInjective | main.py:79-93 | Different target lists give different command lines. |
| Numbers.ParseInt | main.py:114-115 | Text is accepted if and only if it is an optional `-` followed by one to 4300 ASCII digits. A negative value comes only from text starting with `-`. |
| Numbers.ParseShowRoundTrip | main.py:114-115 | The decimal rendering of any integer with at most 4300 digits parses back to that integer. |
| Numbers.ParseIntCanonical | main.py:114-115 | Conversely, accepted text is the rendering of its value once leading zeros are dropped and a `-` before zero is dropped, so `007` reads as 7 and `-0` as 0. |
| Numbers.ParseIntRejects | main.py:114-115 | Empty text, a lone `-`, `1.5` and `x10` are refused, as `int()` refuses them. |
| Normalizer.IntField | main.py:114-115 | A number field succeeds if and only if the column is present and holds decimal text. The result is the parsed value. |
| Normalizer.ParseRow | main.py:112-117 | A row converts if and only if all five columns are present and Line and Column are integers. The rule name plays no part. |
| Normalizer.ParseRowFirstError | main.py:113-117 | A row that fails to convert fails at the first of File, Line, Column, Warning and Name, in that order, that is missing or, for Line and Column, is not an integer. The error names that column. It is a missing-column error exactly when the column is absent, and otherwise it carries the column's text. |
| Normalizer.Normalize | main.py:110-123 | A successful result has no more issues than rows. Every issue's rule is allowed, and every issue has empty refs. |
| Normalizer.NormalizeIsParseFilterMap | main.py:110-123 | The one-pass loop equals a three-step pipeline: parse every row, keep the findings whose rule is allowed, convert each one to an issue. |
| Normalizer.NormalizeFailsIff | main.py:110-118 | The run fails if and only if some row, allowed or not, is malformed. The error comes from the first malformed row. |
| Normalizer.NormalizeErrorIff | main.py:110-118 | Normalisation fails with a given error if and only if that error is what the first malformed row raises. |
| Normalizer.DroppedRowStillAborts | main.py:114-119 | A malformed Line or Column on a row whose rule is filtered out still aborts normalisation. |
| Normalizer.NormalizeTracesRows | main.py:110-123 | Issue k comes from the row at the k-th of strictly increasing positions, and that row's rule is allowed. Its fields are path = File, line = int(Line), column = int(Column), msg = Warning, rule = Name and refs = []. Every row with an allowed rule yields an issue. The helper `ToIssue` builds each issue from its parsed row. |
| Pipeline.Paths | main.py:90-95 | The target strings number as many as the list entries. They are missing exactly when the list is `[None]`. |
| Pipeline.Run | main.py:27-127 | The run is skipped if and only if there are no targets, and then the scanner is never started. A started command has the fixed shape over the resolved targets. Written issues carry only allowed rules, and a write happens only after the scanner ran. A failed scanner, and only that, gives `Aborted(ScannerError)`. An unreadable CSV after a normal exit, and only that, gives `ReadFailed`. |
| Pipeline.IncrementalCommand | main.py:64-98 | In incremental mode with a wanted entry, the scanner runs on exactly the wanted entries in order, whatever the source directory is. |
| Pipeline.IncrementalNothingWanted | main.py:64-92 | In incremental mode with no wanted entry, the run is skipped, with no command and no result file. |
| Pipeline.FullModeNeverSkips | main.py:72-95 | Full mode never skips and ignores the diff list. It scans `[source_dir]`, or aborts at the join when the variable is unset. |
| Pipeline.WrittenIff | main.py:97-127 | `result.json` is written with a given list if and only if three things hold: the scanner ran, its CSV was read, and normalising the rows gave that list. |
| Pipeline.EmptyTableWritesEmptyList | main.py:110-127 | When the scanner ran and its CSV has no data rows, an empty list is still written. |
| Pipeline.MalformedRowAborts | main.py:110-119 | Any malformed row in the CSV aborts the run, even when its rule is filtered out. The cause is `BadRow(e)`, where `e` is the error of the first malformed row at or before that one. |
| Pipeline.AbortedBadRowIff | main.py:97-119 | The run ends in `Aborted(BadRow(e))` if and only if the scanner ran, its CSV was read, and `e` is the error of the first malformed row of that CSV. |
| Pipeline.WorkedExample | main.py:110-127 | With rules {CWE-120}, a `foo.c` row for CWE-120 becomes one issue, and a CWE-999 row is dropped. |

## Left out

- Reading environment variables, the task-parameter JSON file and the diff-list
  JSON file (main.py:16-25, 32, 64, 67-68). These are I/O, so their values are
  parameters. Failing to open or decode these files is not modelled. So is a diff
  list holding non-strings, or a `rules` value that is not a list.
- `rules` is a set of strings. Python's `in` on a JSON list has the same
  membership meaning. A `rules` value that is a string, where `in` would test for
  a substring, is not modelled.
- Opening and truncating `error_output.csv`, the subprocess call, its exit-status
  check and its 10-second timeout (main.py:97-98). The scanner is an external
  process, so it is a parameter returning `ScannerFailed` or
  `ScannerExited(table)`. The external scanner `tool/flawfinder.py` is not part of
  this model.
- CSV decoding with `errors="replace"` and `csv.DictReader` (main.py:103-105). The
  rows arrive parsed, as string-keyed maps. Short rows, where DictReader supplies
  `None` values, are not modelled. Any exception while reading becomes `ReadFailed`.
- JSON serialisation of `result.json` with two-space indentation, and all
  `print` logging. Output formatting is not modelled. `Written(issues)` stands for
  the file being written with that list.
- Numbers.ParseInt: approximates Python `int()`. It accepts an optional `-` and
  then ASCII digits only. Python also accepts surrounding whitespace, a `+` sign,
  underscores between digits and non-ASCII digits. The 4300-digit limit is
  the default from Python 3.11 and in the 3.7.14, 3.8.14, 3.9.14 and 3.10.7
  security releases. It can be changed with `PYTHONINTMAXSTRDIGITS`.
  Interpreters without the limit (before 3.11, apart from those releases)
  accept longer text. The model fixes the limit at 4300, so on such an
  interpreter a row with a longer Line or Column aborts in the model but not in
  the program.
- Targets.Lower: lower-cases ASCII letters only, while Python's
  `str.lower` is Unicode-aware. For the suffix test this makes no difference. The
  only non-ASCII characters that `str.lower` maps into ASCII are U+212A (to `k`)
  and U+0130 (to `i` plus a combining dot), and neither gives a suffix character.
- Running twice on the same CSV gives the same output. This holds because every
  function here is deterministic, so no lemma states it.
