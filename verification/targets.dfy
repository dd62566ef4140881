/** Scan-target resolution: full mode scans the source root, incremental mode
    scans the diff-list entries whose lower-cased path ends with a C/C++
    suffix. */
module Targets {
  import opened Wrappers
  import Seqs

  /** The seventeen entries of `want_suffix`, in source order. */
  const Vocabulary: seq<string> := [
    ".c", ".h", ".ec", ".ecp", ".pgc", ".C", ".cpp", ".CPP", ".cxx",
    ".cc", ".CC", ".c++", ".pcc", ".pc", ".sc", ".hpp", ".H"
  ]

  /** The lower-case entries of the vocabulary, the only ones that can match. */
  const LiveVocabulary: seq<string> := [
    ".c", ".h", ".ec", ".ecp", ".pgc", ".cpp", ".cxx",
    ".cc", ".c++", ".pcc", ".pc", ".sc", ".hpp"
  ]

  predicate IsUpper(c: char) {
    'A' <= c <= 'Z'
  }

  function LowerChar(c: char): char {
    if IsUpper(c) then (c as int - 'A' as int + 'a' as int) as char else c
  }

  /** `str.lower()` on ASCII letters: each upper-case letter becomes its
      lower-case partner, every other character is kept, and no upper-case
      letter is left. */
  function Lower(s: string): (r: string)
    ensures |r| == |s|
    ensures forall i :: 0 <= i < |r| ==> !IsUpper(r[i])
    ensures forall i :: 0 <= i < |s| && !IsUpper(s[i]) ==> r[i] == s[i]
    ensures forall i :: 0 <= i < |s| && IsUpper(s[i]) ==> r[i] as int == s[i] as int + ('a' as int - 'A' as int)
  {
    seq(|s|, i requires 0 <= i < |s| => LowerChar(s[i]))
  }

  /** `str.endswith` with a single suffix. */
  predicate EndsWith(s: string, suffix: string) {
    |suffix| <= |s| && s[|s| - |suffix|..] == suffix
  }

  /** `str.endswith` with a tuple of suffixes: true when any of them matches. */
  predicate EndsWithAny(s: string, suffixes: seq<string>) {
    exists k :: 0 <= k < |suffixes| && EndsWith(s, suffixes[k])
  }

  /** The filter applied to each diff-list entry (main.py line 70). In
      effect a path is wanted exactly when its lower-cased form ends with one
      of the thirteen lower-case entries; such a path has at least two
      characters. */
  function Wanted(path: string): (r: bool)
    ensures r <==> EndsWithAny(Lower(path), LiveVocabulary)
    ensures r ==> |path| >= 2
  {
    WantedIffLiveSuffix(path);
    EndsWithAny(Lower(path), Vocabulary)
  }

  /** The paths to scan. `Files` is the incremental list; `Root` is the
      one-element list `[source_dir]`, whose element is `None` when the
      source directory variable is unset. */
  datatype ScanList = Files(paths: seq<string>) | Root(dir: Option<string>) {
    /** Length of the Python list `scan_files`. */
    function Count(): nat {
      match this
      case Files(ps) => |ps|
      case Root(_) => 1
    }
  }

  /** The diff-files variable switches to incremental mode when it is
      truthy in Python: the falsy values of an optional string are exactly
      `None` and the empty string. */
  predicate Incremental(diffVar: Option<string>) {
    diffVar.Some? && diffVar.value != ""
  }

  function IncrementalTargets(diffList: seq<string>): seq<string> {
    Seqs.Filter(Wanted, diffList)
  }

  /** `scan_files` as computed by main.py lines 64-73. `diffList` is the
      parsed content of the file the diff-files variable names; it is only
      consulted in incremental mode. */
  function Resolve(diffVar: Option<string>, diffList: seq<string>, sourceDir: Option<string>): (t: ScanList)
    ensures Incremental(diffVar) ==> t.Files? && forall p :: p in t.paths ==> p in diffList && Wanted(p)
    ensures !Incremental(diffVar) ==> t == Root(sourceDir) && t.Count() == 1
  {
    if Incremental(diffVar) then Files(IncrementalTargets(diffList)) else Root(sourceDir)
  }

  // ---------------------------------------------------------------------
  // The incremental list is exactly the wanted entries, in order

  /** An entry is a target exactly when it is in the diff list and wanted. */
  lemma {:induction false} IncrementalMembership(diffList: seq<string>, p: string)
    ensures p in IncrementalTargets(diffList) <==> p in diffList && Wanted(p)
  {
    Seqs.FilterMembership(Wanted, diffList, p);
  }

  /** No entry is added or duplicated: each wanted path appears as often as
      in the diff list, every other path not at all. */
  lemma {:induction false} IncrementalMultiplicity(diffList: seq<string>, p: string)
    ensures multiset(IncrementalTargets(diffList))[p] == if Wanted(p) then multiset(diffList)[p] else 0
  {
    Seqs.FilterCount(Wanted, diffList, p);
  }

  /** The targets are the wanted entries at strictly increasing positions of
      the diff list, and every wanted position contributes. */
  lemma {:induction false} IncrementalOrder(diffList: seq<string>)
    ensures Seqs.SelectsFrom(Wanted, diffList, 0, IncrementalTargets(diffList), Seqs.IndicesFrom(Wanted, diffList, 0))
  {
    Seqs.FilterPreservesOrder(Wanted, diffList);
  }

  /** In incremental mode the source directory plays no part: the targets
      are the same whatever it is, and they come from the diff list only. */
  lemma IncrementalIgnoresSourceDir(diffVar: Option<string>, diffList: seq<string>, d1: Option<string>, d2: Option<string>)
    requires Incremental(diffVar)
    ensures Resolve(diffVar, diffList, d1) == Resolve(diffVar, diffList, d2)
    ensures Resolve(diffVar, diffList, d1) == Files(IncrementalTargets(diffList))
  {
  }

  // ---------------------------------------------------------------------
  // Case handling of the suffix match

  lemma {:induction false} EndsWithLastChar(s: string, suffix: string)
    requires |suffix| > 0 && EndsWith(s, suffix)
    ensures s[|s| - 1] == suffix[|suffix| - 1]
  {
    assert s[|s| - |suffix|..][|suffix| - 1] == s[|s| - 1];
  }

  /** A suffix ending in an upper-case letter never matches a lower-cased
      path; this makes `.C`, `.CPP`, `.CC` and `.H` dead entries. */
  lemma UpperSuffixNeverMatches(path: string, suffix: string)
    requires |suffix| > 0 && IsUpper(suffix[|suffix| - 1])
    ensures !EndsWith(Lower(path), suffix)
  {
    if EndsWith(Lower(path), suffix) {
      EndsWithLastChar(Lower(path), suffix);
      assert false;
    }
  }

  /** Each entry of the tuple is a lower-case entry or ends in an upper-case
      letter, and every lower-case entry is in the tuple. */
  lemma VocabularySplit()
    ensures forall k :: 0 <= k < |Vocabulary| ==>
      Vocabulary[k] in LiveVocabulary || (|Vocabulary[k]| > 0 && IsUpper(Vocabulary[k][|Vocabulary[k]| - 1]))
    ensures forall m :: 0 <= m < |LiveVocabulary| ==> LiveVocabulary[m] in Vocabulary
  {
  }

  /** The upper-case entries add nothing: matching against the full tuple is
      the same as matching against its thirteen lower-case entries, so a
      path is wanted exactly when its lower-cased form ends with one of them. */
  lemma WantedIffLiveSuffix(path: string)
    ensures EndsWithAny(Lower(path), Vocabulary) <==> EndsWithAny(Lower(path), LiveVocabulary)
  {
    var l := Lower(path);
    VocabularySplit();
    if EndsWithAny(l, Vocabulary) {
      var k :| 0 <= k < |Vocabulary| && EndsWith(l, Vocabulary[k]);
      if Vocabulary[k] !in LiveVocabulary {
        UpperSuffixNeverMatches(path, Vocabulary[k]);
      }
      var m :| 0 <= m < |LiveVocabulary| && LiveVocabulary[m] == Vocabulary[k];
      assert EndsWith(l, LiveVocabulary[m]);
    }
    if EndsWithAny(l, LiveVocabulary) {
      var m :| 0 <= m < |LiveVocabulary| && EndsWith(l, LiveVocabulary[m]);
      var k :| 0 <= k < |Vocabulary| && Vocabulary[k] == LiveVocabulary[m];
      assert EndsWith(l, Vocabulary[k]);
    }
  }

  /** A wanted path ends, up to case, in one of `c`, `h`, `p`, `x` or `+`. */
  lemma WantedLastChar(path: string)
    requires Wanted(path)
    ensures |path| > 0 && LowerChar(path[|path| - 1]) in "chpx+"
  {
    WantedIffLiveSuffix(path);
    var l := Lower(path);
    var m :| 0 <= m < |LiveVocabulary| && EndsWith(l, LiveVocabulary[m]);
    EndsWithLastChar(l, LiveVocabulary[m]);
    assert l[|l| - 1] == LowerChar(path[|path| - 1]);
  }

  /** Paths that agree letter by letter up to case are treated alike. */
  lemma WantedIgnoresCase(p: string, q: string)
    requires |p| == |q|
    requires forall i :: 0 <= i < |p| ==> LowerChar(p[i]) == LowerChar(q[i])
    ensures Wanted(p) == Wanted(q)
  {
    assert Lower(p) == Lower(q);
  }

  /** Upper-case spellings are kept through their lower-case counterparts. */
  lemma UpperCaseSpellingsKept()
    ensures Wanted("FOO.CPP")
    ensures Wanted("x.C")
  {
    assert Lower("FOO.CPP") == "foo.cpp";
    assert EndsWith("foo.cpp", Vocabulary[6]);
    assert Lower("x.C") == "x.c";
    assert EndsWith("x.c", Vocabulary[0]);
  }

  /** Unlisted suffixes are dropped. */
  lemma OtherSuffixesDropped()
    ensures !Wanted("setup.py")
    ensures !Wanted("notes.txt")
  {
    if Wanted("setup.py") {
      WantedLastChar("setup.py");
    }
    if Wanted("notes.txt") {
      WantedLastChar("notes.txt");
    }
  }
}
