/** The scanner command line of main.py lines 79-93: a fixed eight-token
    prefix ending in the `--` sentinel, then every target in order. */
module Command {
  import opened Wrappers

  const Sentinel: string := "--"

  /** Length of the fixed prefix. */
  const PrefixLength: nat := 8

  /** `python3 <tool> --columns --dataonly --quiet --singleline --csv --`;
      `tool` is the absolute path of the scanner script. */
  function Prefix(tool: string): (p: seq<string>)
    ensures |p| == PrefixLength && p[PrefixLength - 1] == Sentinel
  {
    ["python3", tool, "--columns", "--dataonly", "--quiet", "--singleline", "--csv", Sentinel]
  }

  /** `cmd.extend(scan_files)` on the prefix. */
  function Build(tool: string, targets: seq<string>): (cmd: seq<string>)
    ensures |cmd| == PrefixLength + |targets|
    ensures forall k :: 0 <= k < |targets| ==> cmd[PrefixLength + k] == targets[k]
  {
    Prefix(tool) + targets
  }

  /** Reads a command line back into its tool path and targets; `None` when
      it does not have the fixed shape. */
  function Split(cmd: seq<string>): Option<(string, seq<string>)> {
    if |cmd| >= PrefixLength && cmd[..PrefixLength] == Prefix(cmd[1]) then Some((cmd[1], cmd[PrefixLength..]))
    else None
  }

  /** Every built command has the fixed shape, and the tool and the targets,
      in order, are recovered from it. */
  lemma SplitBuild(tool: string, targets: seq<string>)
    ensures Split(Build(tool, targets)) == Some((tool, targets))
  {
    var cmd := Build(tool, targets);
    assert cmd[..PrefixLength] == Prefix(tool);
    assert cmd[PrefixLength..] == targets;
  }

  /** Conversely, a command line of the fixed shape is the one built from
      what it splits into: the command determines the targets and back. */
  lemma BuildSplit(cmd: seq<string>)
    requires Split(cmd).Some?
    ensures Build(Split(cmd).value.0, Split(cmd).value.1) == cmd
  {
    assert cmd == cmd[..PrefixLength] + cmd[PrefixLength..];
  }

  /** Distinct target lists give distinct command lines. */
  lemma BuildInjective(tool: string, t1: seq<string>, t2: seq<string>)
    requires Build(tool, t1) == Build(tool, t2)
    ensures t1 == t2
  {
    SplitBuild(tool, t1);
    SplitBuild(tool, t2);
  }
}
