/**
 * The TM-align driver: two structure files are looked up in the data
 * directory, the external aligner is run on them, and the TM-score normalised
 * by the first chain given to the aligner is read out of its report.
 *
 * The file system is the set of paths that exist and the aligner is a function
 * from its argument list to its exit code and captured output, so the driver
 * itself is a function returning the score or the exception it raises.
 */
module TmAlign {
  import opened Wrappers
  import opened Text

  /** The aligner executable, looked up relative to the working directory. */
  const Tool: string := ".\\TMalign.exe"

  /** The directory the endpoint keeps its structure files in. */
  const DataDir: string := "pdb_data"

  /** The text the reported score is introduced by, and the text that must follow the score. */
  const ScoreTag: string := "TM-score="
  const ScoreSuffix: string := "(if normalized by length of Chain_1"

  /** What `subprocess.run(..., capture_output=True, text=True)` hands back. */
  datatype Completed = Completed(returncode: int, stdout: string, stderr: string)

  /** The exceptions the driver raises. */
  datatype TmError =
    | FileNotFound(path: string)    // a structure file is missing
    | ToolMissing                   // the aligner is not in the working directory
    | ToolFailed(returncode: int, stderr: string)
    | ScoreMissing                  // the report holds no Chain_1-normalised score
    | NotAFloat(text: string)       // `float()` refuses the matched text

  // ---------------------------------------------------------------------------
  // re.search(r"TM-score=\s*([0-9.]+)\s*\(if normalized by length of Chain_1", out)
  // ---------------------------------------------------------------------------

  predicate HasAt(s: string, i: nat, t: string) {
    i + |t| <= |s| && s[i..i + |t|] == t
  }

  predicate IsScoreChar(c: char) { IsDigit(c) || c == '.' }

  /** The end of the run of whitespace that starts at `i` (what a greedy `\s*` consumes). */
  function SkipSpace(s: string, i: nat): (j: nat)
    requires i <= |s|
    ensures i <= j <= |s|
    ensures forall k :: i <= k < j ==> IsSpace(s[k])
    ensures j == |s| || !IsSpace(s[j])
    decreases |s| - i
  {
    if i < |s| && IsSpace(s[i]) then SkipSpace(s, i + 1) else i
  }

  /** The end of the run of digits and dots that starts at `i` (a greedy `[0-9.]*`). */
  function SkipScoreChars(s: string, i: nat): (j: nat)
    requires i <= |s|
    ensures i <= j <= |s|
    ensures forall k :: i <= k < j ==> IsScoreChar(s[k])
    ensures j == |s| || !IsScoreChar(s[j])
    decreases |s| - i
  {
    if i < |s| && IsScoreChar(s[i]) then SkipScoreChars(s, i + 1) else i
  }

  /**
   * The captured group when the pattern matches at position `p`. Neither a
   * whitespace character nor a digit or dot can start the text that follows
   * either `\s*` or the group, so the greedy runs are the only way to match:
   * backing off would leave a character the next part of the pattern refuses.
   */
  function MatchAt(s: string, p: nat): (r: Option<string>)
    ensures r.Some? ==> |r.value| > 0 && forall k :: 0 <= k < |r.value| ==> IsScoreChar(r.value[k])
  {
    if HasAt(s, p, ScoreTag) then
      var a := SkipSpace(s, p + |ScoreTag|);
      var b := SkipScoreChars(s, a);
      var c := SkipSpace(s, b);
      if a < b && HasAt(s, c, ScoreSuffix) then Some(s[a..b]) else None
    else None
  }

  /** `re.search` from position `from`: the leftmost match, if any. */
  function Search(s: string, from: nat): (r: Option<string>)
    ensures r.Some? ==> exists p :: from <= p <= |s| && MatchAt(s, p) == r
                                   && forall q :: from <= q < p ==> MatchAt(s, q).None?
    ensures r.None? ==> forall q :: from <= q <= |s| ==> MatchAt(s, q).None?
    decreases |s| + 1 - from
  {
    if from > |s| then None
    else if MatchAt(s, from).Some? then MatchAt(s, from)
    else Search(s, from + 1)
  }

  // ---------------------------------------------------------------------------
  // float(match.group(1))
  // ---------------------------------------------------------------------------

  function CountChar(s: string, c: char): nat {
    if s == [] then 0 else (if s[0] == c then 1 else 0) + CountChar(s[1..], c)
  }

  /** A run of digits and dots `float()` accepts: at least one digit and at most one dot. */
  predicate IsFloatLiteral(t: string) {
    (exists k :: 0 <= k < |t| && IsDigit(t[k])) && CountChar(t, '.') <= 1
  }

  // ---------------------------------------------------------------------------
  // compute_tm_score
  // ---------------------------------------------------------------------------

  /** The argument list the aligner is started with: the second file goes first. */
  function Command(pdb1Path: string, pdb2Path: string): seq<string> {
    [Tool, pdb2Path, pdb1Path]
  }

  /**
   * `compute_tm_score(pdb1, pdb2, dir)` with `existing` the paths that exist and
   * `run` the aligner. The score is the decimal text `float()` is applied to.
   */
  function ComputeTmScore(pdb1: string, pdb2: string, dir: string,
                          existing: set<string>, run: seq<string> -> Completed): Result<string, TmError>
  {
    var p1 := JoinPath(dir, pdb1);
    var p2 := JoinPath(dir, pdb2);
    if p1 !in existing then Err(FileNotFound(p1))
    else if p2 !in existing then Err(FileNotFound(p2))
    else if Tool !in existing then Err(ToolMissing)
    else
      var result := run(Command(p1, p2));
      if result.returncode != 0 then Err(ToolFailed(result.returncode, result.stderr))
      else match Search(result.stdout, 0)
        case None => Err(ScoreMissing)
        case Some(t) => if IsFloatLiteral(t) then Ok(t) else Err(NotAFloat(t))
  }

  // ---------------------------------------------------------------------------
  // Properties
  // ---------------------------------------------------------------------------

  /**
   * The checks run in the order first file, second file, aligner, and a missing
   * file is reported before the aligner is started, whatever it would print.
   */
  lemma MissingFileFirst(pdb1: string, pdb2: string, dir: string,
                         existing: set<string>, run: seq<string> -> Completed)
    ensures JoinPath(dir, pdb1) !in existing ==>
      ComputeTmScore(pdb1, pdb2, dir, existing, run) == Err(FileNotFound(JoinPath(dir, pdb1)))
    ensures JoinPath(dir, pdb1) in existing && JoinPath(dir, pdb2) !in existing ==>
      ComputeTmScore(pdb1, pdb2, dir, existing, run) == Err(FileNotFound(JoinPath(dir, pdb2)))
    ensures JoinPath(dir, pdb1) in existing && JoinPath(dir, pdb2) in existing && Tool !in existing ==>
      ComputeTmScore(pdb1, pdb2, dir, existing, run) == Err(ToolMissing)
  {
  }

  /**
   * The outcome depends on the aligner only through its run on
   * `[tool, pdb2_path, pdb1_path]`.
   */
  lemma OnlyThatRunCounts(pdb1: string, pdb2: string, dir: string, existing: set<string>,
                          run: seq<string> -> Completed, run': seq<string> -> Completed)
    requires run(Command(JoinPath(dir, pdb1), JoinPath(dir, pdb2)))
          == run'(Command(JoinPath(dir, pdb1), JoinPath(dir, pdb2)))
    ensures ComputeTmScore(pdb1, pdb2, dir, existing, run) == ComputeTmScore(pdb1, pdb2, dir, existing, run')
  {
  }

  /** Everything the driver can return, and when it returns a score. */
  lemma {:induction false} Outcomes(pdb1: string, pdb2: string, dir: string,
                                    existing: set<string>, run: seq<string> -> Completed)
    ensures var r := ComputeTmScore(pdb1, pdb2, dir, existing, run);
            var result := run(Command(JoinPath(dir, pdb1), JoinPath(dir, pdb2)));
            (r.Err? && r.error.ToolFailed? ==> result.returncode != 0 && r.error.stderr == result.stderr)
            && (r.Ok? <==> JoinPath(dir, pdb1) in existing && JoinPath(dir, pdb2) in existing
                           && Tool in existing && result.returncode == 0
                           && Search(result.stdout, 0).Some? && IsFloatLiteral(Search(result.stdout, 0).value))
            && (r.Ok? ==> |r.value| > 0
                          && forall k :: 0 <= k < |r.value| ==> IsScoreChar(r.value[k]))
            && (r.Ok? ==> r.value == Search(result.stdout, 0).value)
  {
    var r := ComputeTmScore(pdb1, pdb2, dir, existing, run);
    var result := run(Command(JoinPath(dir, pdb1), JoinPath(dir, pdb2)));
    if r.Ok? {
      var m := Search(result.stdout, 0);
      assert m.Some? && r.value == m.value;
      var p :| 0 <= p <= |result.stdout| && MatchAt(result.stdout, p) == m;
    }
  }

  /**
   * Once all three files exist, the aligner's run decides: a non-zero exit code
   * raises its stderr without any parse, no match raises the parse error, and a
   * match `float()` refuses raises the conversion error.
   */
  lemma RunOutcomes(pdb1: string, pdb2: string, dir: string,
                    existing: set<string>, run: seq<string> -> Completed)
    requires JoinPath(dir, pdb1) in existing && JoinPath(dir, pdb2) in existing && Tool in existing
    ensures var r := ComputeTmScore(pdb1, pdb2, dir, existing, run);
            var result := run(Command(JoinPath(dir, pdb1), JoinPath(dir, pdb2)));
            var m := Search(result.stdout, 0);
            (result.returncode != 0 ==> r == Err(ToolFailed(result.returncode, result.stderr)))
            && (result.returncode == 0 && m.None? ==> r == Err(ScoreMissing))
            && (result.returncode == 0 && m.Some? && !IsFloatLiteral(m.value) ==> r == Err(NotAFloat(m.value)))
            && (result.returncode == 0 && m.Some? && IsFloatLiteral(m.value) ==> r == Ok(m.value))
  {
  }

  /**
   * A report whose text starts with the score line, one space on each side of
   * the score, yields that score.
   */
  lemma {:induction false} ReportLine(d: string, rest: string)
    requires |d| > 0 && forall k :: 0 <= k < |d| ==> IsScoreChar(d[k])
    ensures Search(ScoreTag + " " + d + " " + ScoreSuffix + rest, 0) == Some(d)
  {
    var s := ScoreTag + " " + d + " " + ScoreSuffix + rest;
    var a := |ScoreTag| + 1;
    var b := a + |d|;
    assert s[..|ScoreTag|] == ScoreTag;
    assert HasAt(s, 0, ScoreTag);
    assert IsSpace(s[|ScoreTag|]);
    assert s[a] == d[0];
    assert SkipSpace(s, a) == a;
    assert SkipSpace(s, |ScoreTag|) == a;
    assert forall k :: a <= k < b ==> s[k] == d[k - a];
    ScoreRun(s, a, b);
    assert s[b] == ' ' && s[b + 1] == '(';
    assert SkipSpace(s, b + 1) == b + 1;
    assert SkipSpace(s, b) == b + 1;
    assert s[b + 1..b + 1 + |ScoreSuffix|] == ScoreSuffix;
    assert s[a..b] == d;
  }

  /** A run of digits and dots ended by a space is what the greedy group takes. */
  lemma {:induction false} ScoreRun(s: string, a: nat, b: nat)
    requires a <= b < |s| && !IsScoreChar(s[b])
    requires forall k :: a <= k < b ==> IsScoreChar(s[k])
    ensures SkipScoreChars(s, a) == b
    decreases b - a
  {
    if a < b { ScoreRun(s, a + 1, b); }
  }

  /** `TM-score= 0.8765 (if normalized by length of Chain_1` yields `0.8765`. */
  lemma ReportLineExample()
    ensures Search(ScoreTag + " " + "0.8765" + " " + ScoreSuffix + "", 0) == Some("0.8765")
  {
    var d := "0.8765";
    forall k | 0 <= k < |d| ensures IsScoreChar(d[k]) {
      assert '.' <= d[k] <= '9';
    }
    ReportLine(d, "");
  }
}
