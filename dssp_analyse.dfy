/**
 * `analyze_pdb_full` (server/dssp_analyse.py): the residue summary of the structure file
 * (the same fixed-column parser as `parse_pdb_custom`), then a sentence on the secondary
 * structure composition of the per-residue codes DSSP assigns, joined by a newline.
 */
module DsspAnalyse {
  import opened Wrappers
  import opened Text
  import PdbAnalyse

  // ---------------------------------------------------------------------------
  // Counter(ss): one entry per distinct code, in order of first occurrence
  // ---------------------------------------------------------------------------

  /** Insertion-ordered (key, count) entries, as a `dict` iterates them. */
  type Entries = seq<(string, nat)>

  predicate HasKey(es: Entries, k: string) {
    exists i :: 0 <= i < |es| && es[i].0 == k
  }

  predicate DistinctKeys(es: Entries) {
    forall i, j :: 0 <= i < j < |es| ==> es[i].0 != es[j].0
  }

  function Total(es: Entries): nat {
    if es == [] then 0 else Total(es[..|es| - 1]) + es[|es| - 1].1
  }

  /** `d[k] = v`: overwrite the value in place if `k` is a key, otherwise append `(k, v)`. */
  function Put(es: Entries, k: string, v: nat): (r: Entries)
    ensures |r| == if HasKey(es, k) then |es| else |es| + 1
    ensures forall i :: 0 <= i < |es| ==> r[i].0 == es[i].0
    ensures forall i :: 0 <= i < |es| && es[i].0 != k ==> r[i] == es[i]
    ensures DistinctKeys(es) ==> forall i :: 0 <= i < |es| && es[i].0 == k ==> r[i] == (k, v)
    ensures !HasKey(es, k) ==> r[|es|] == (k, v)
  {
    if es == [] then [(k, v)]
    else if es[0].0 == k then
      var r := [(k, v)] + es[1..];
      assert HasKey(es, k) by { assert es[0].0 == k; }
      assert forall i :: 0 < i < |es| ==> r[i] == es[i];
      r
    else
      var tail := es[1..];
      var rest := Put(tail, k, v);
      assert forall i :: 0 <= i < |tail| ==> tail[i] == es[i + 1];
      assert HasKey(es, k) <==> HasKey(tail, k) by {
        if HasKey(es, k) { var i :| 0 <= i < |es| && es[i].0 == k; assert tail[i - 1].0 == k; }
      }
      assert DistinctKeys(es) ==> DistinctKeys(tail);
      var r := [es[0]] + rest;
      assert forall i :: 0 < i < |r| ==> r[i] == rest[i - 1];
      r
  }

  /** The value stored under `k`, or 0 when `k` is no key. */
  function CountOf(es: Entries, k: string): nat {
    if es == [] then 0 else if es[0].0 == k then es[0].1 else CountOf(es[1..], k)
  }

  /** One more occurrence of `k`: `counter[k] += 1`. */
  function Bump(es: Entries, k: string): Entries {
    Put(es, k, CountOf(es, k) + 1)
  }

  /** `Counter(ss)`: the codes in order of first occurrence, each with its number of occurrences. */
  function Counts(ss: seq<string>): Entries
    decreases |ss|
  {
    if ss == [] then [] else Bump(Counts(ss[..|ss| - 1]), ss[|ss| - 1])
  }

  /** Index of the first occurrence of `k` in `ss`. */
  function FirstIndex(ss: seq<string>, k: string): (i: nat)
    requires k in ss
    ensures i < |ss| && ss[i] == k && k !in ss[..i]
  {
    if ss[0] == k then 0
    else
      var i := 1 + FirstIndex(ss[1..], k);
      assert ss[..i] == [ss[0]] + ss[1..][..i - 1];
      i
  }

  // ---------------------------------------------------------------------------
  // Labels: {ss_labels.get(k, k): v for k, v in ss_counts.items()}
  // ---------------------------------------------------------------------------

  /** The eight DSSP codes with a name; any other code is shown as it is. */
  function Label(code: string): string {
    match code
    case "H" => "alpha-helix"
    case "B" => "isolated beta-bridge"
    case "E" => "beta-sheet"
    case "G" => "3-10 helix"
    case "I" => "pi-helix"
    case "T" => "turn"
    case "S" => "bend"
    case "-" => "coil"
    case _ => code
  }

  predicate IsLabelName(s: string) {
    s in {"alpha-helix", "isolated beta-bridge", "beta-sheet", "3-10 helix", "pi-helix", "turn", "bend", "coil"}
  }

  /** The dict comprehension: a later entry whose label is already a key overwrites its count. */
  function Relabel(es: Entries): (r: Entries)
    ensures |r| <= |es|
    decreases |es|
  {
    if es == [] then []
    else
      var n := |es| - 1;
      Put(Relabel(es[..n]), Label(es[n].0), es[n].1)
  }

  /** Each entry under its label: what the comprehension yields when no two keys share a label. */
  function Labelled(es: Entries): (r: Entries)
    ensures |r| == |es|
    decreases |es|
  {
    if es == [] then [] else Labelled(es[..|es| - 1]) + [(Label(es[|es| - 1].0), es[|es| - 1].1)]
  }

  /** `readable_counts` for the codes `ss`. */
  function Readable(ss: seq<string>): Entries {
    Relabel(Counts(ss))
  }

  // ---------------------------------------------------------------------------
  // The composition sentence
  // ---------------------------------------------------------------------------

  /**
   * The percentage `count / total * 100` in tenths, rounded to the nearest tenth with ties
   * to even, as `:.1f` rounds the exact value.
   */
  function Tenths(count: nat, total: nat): (t: nat)
    requires total > 0
    ensures 2 * (t * total - count * 1000) <= total && 2 * (count * 1000 - t * total) <= total
  {
    var num := count * 1000;
    var q, rem := num / total, num % total;
    assert num == q * total + rem && 0 <= rem < total;
    assert (q + 1) * total == q * total + total;
    if 2 * rem > total || (2 * rem == total && q % 2 == 1) then q + 1 else q
  }

  /** A non-negative number of tenths with one decimal: `12.5`, `0.0`, `100.0`. */
  function FormatTenths(t: nat): string {
    NatToString(t / 10) + "." + [DigitChar(t % 10)]
  }

  /** `f"{count} residues ({fraction:.1f}%) in {label}"` */
  function Part(name: string, count: nat, total: nat): string
    requires total > 0
  {
    NatToString(count) + " residues (" + FormatTenths(Tenths(count, total)) + "%) in " + name
  }

  /** One part per readable entry, in the order the dict iterates them. */
  function PartsOf(es: Entries, total: nat): (parts: seq<string>)
    requires es != [] ==> total > 0
    ensures |parts| == |es|
    decreases |es|
  {
    if es == [] then []
    else
      var n := |es| - 1;
      PartsOf(es[..n], total) + [Part(es[n].0, es[n].1, total)]
  }

  /** The part at position `i` describes the `i`-th readable entry. */
  lemma {:induction false} PartsOfAt(es: Entries, total: nat)
    requires es != [] ==> total > 0
    ensures var parts := PartsOf(es, total);
      forall i :: 0 <= i < |es| ==> parts[i] == Part(es[i].0, es[i].1, total)
    decreases |es|
  {
    if es != [] {
      var n := |es| - 1;
      PartsOfAt(es[..n], total);
      assert forall i :: 0 <= i < n ==> es[..n][i] == es[i];
    }
  }

  /** `ss_summary` for the codes `ss`. */
  function CompositionText(ss: seq<string>): string {
    CountsLength(ss);
    "It is composed of " + Join(PartsOf(Readable(ss), |ss|), ", ") + "."
  }

  /** The loop of `parse_secondary_structure` that appends one formatted part per label. */
  method CompositionSummary(ss: seq<string>) returns (summary: string)
    ensures summary == CompositionText(ss)
  {
    var readable := Relabel(Counts(ss));
    var total := |ss|;
    CountsLength(ss);
    var parts: seq<string> := [];
    var i := 0;
    while i < |readable|
      invariant 0 <= i <= |readable|
      invariant parts == PartsOf(readable[..i], total)
    {
      assert readable[..i + 1][..i] == readable[..i];
      var (name, count) := readable[i];
      parts := parts + [Part(name, count, total)];
      i := i + 1;
    }
    assert readable[..i] == readable;
    summary := "It is composed of " + Join(parts, ", ") + ".";
  }

  // ---------------------------------------------------------------------------
  // The whole analysis
  // ---------------------------------------------------------------------------

  /** What escapes `analyze_pdb_full`: the parser's exception, or the DSSP step's. */
  datatype AnalysisError = ParseFailed(error: PdbAnalyse.ParseError) | DsspFailed(message: string)

  /** The result of `analyze_pdb_full` on a file with these lines, given what DSSP yields for it. */
  function AnalysisSummary(lines: seq<string>, dssp: Result<seq<string>, string>): Result<string, AnalysisError> {
    match PdbAnalyse.PdbSummary(lines)
    case Err(e) => Err(ParseFailed(e))
    case Ok(custom) =>
      match dssp
      case Err(m) => Err(DsspFailed(m))
      case Ok(ss) => Ok(custom + "\n" + CompositionText(ss))
  }

  /**
   * `analyze_pdb_full(pdb_file)`: the custom parse runs first (its exception escapes before
   * DSSP is consulted), then the composition of the DSSP codes, then the concatenation.
   * `dssp` stands for what `md.compute_dssp(md.load_pdb(pdb_file))[0]` returns or raises.
   */
  method AnalyzePdbFull(lines: seq<string>, dssp: Result<seq<string>, string>) returns (r: Result<string, AnalysisError>)
    ensures r == AnalysisSummary(lines, dssp)
  {
    var custom := PdbAnalyse.ParsePdbCustom(lines);
    if custom.Err? {
      return Err(ParseFailed(custom.error));
    }
    if dssp.Err? {
      return Err(DsspFailed(dssp.error));
    }
    var ssSummary := CompositionSummary(dssp.value);
    r := Ok(custom.value + "\n" + ssSummary);
  }

  // ---------------------------------------------------------------------------
  // Properties
  // ---------------------------------------------------------------------------

  /** Bumping a key adds one to its count and leaves every other count alone. */
  lemma {:induction false} BumpCounts(es: Entries, k: string)
    ensures forall x :: CountOf(Bump(es, k), x) == CountOf(es, x) + (if x == k then 1 else 0)
    ensures HasKey(Bump(es, k), k) && forall x :: HasKey(Bump(es, k), x) <==> HasKey(es, x) || x == k
  {
    forall x ensures CountOf(Put(es, k, CountOf(es, k) + 1), x) == CountOf(es, x) + (if x == k then 1 else 0) {
      PutCountOf(es, k, CountOf(es, k) + 1, x);
    }
    var r := Bump(es, k);
    forall x ensures HasKey(r, x) <==> HasKey(es, x) || x == k {
      if HasKey(es, x) {
        var i :| 0 <= i < |es| && es[i].0 == x;
        assert r[i].0 == x;
      }
      if HasKey(r, x) && x != k {
        var i :| 0 <= i < |r| && r[i].0 == x;
        if i < |es| { assert es[i].0 == x; } else { assert r[|es|].0 == k; }
      }
      if x == k {
        if HasKey(es, k) {
          var i :| 0 <= i < |es| && es[i].0 == k;
          assert r[i].0 == k;
        } else {
          assert r[|es|].0 == k;
        }
      }
    }
  }

  lemma {:induction false} PutCountOf(es: Entries, k: string, v: nat, x: string)
    ensures CountOf(Put(es, k, v), x) == if x == k then v else CountOf(es, x)
  {
    if es != [] && es[0].0 != k {
      PutCountOf(es[1..], k, v, x);
    }
  }

  /** Putting a key keeps the keys distinct and adds `v` to the total, minus what it overwrote. */
  lemma {:induction false} PutDistinct(es: Entries, k: string, v: nat)
    requires DistinctKeys(es)
    ensures DistinctKeys(Put(es, k, v))
    ensures Total(Put(es, k, v)) + CountOf(es, k) == Total(es) + v
  {
    var r := Put(es, k, v);
    forall i, j | 0 <= i < j < |r| ensures r[i].0 != r[j].0 {
      if j == |es| {
        assert !HasKey(es, k);
        assert es[i].0 != k;
      }
    }
    PutTotal(es, k, v);
  }

  lemma {:induction false} PutTotal(es: Entries, k: string, v: nat)
    requires DistinctKeys(es)
    ensures Total(Put(es, k, v)) + CountOf(es, k) == Total(es) + v
    decreases |es|
  {
    if es == [] {
      assert Put(es, k, v) == [(k, v)];
      assert [(k, v)][..0] == [];
    } else {
      TotalFront(es);
      var rest := es[1..];
      assert DistinctKeys(rest) by {
        forall i, j | 0 <= i < j < |rest| ensures rest[i].0 != rest[j].0 { assert rest[i] == es[i + 1] && rest[j] == es[j + 1]; }
      }
      if es[0].0 == k {
        var r := [(k, v)] + rest;
        TotalFront(r);
        assert r[1..] == rest;
        assert CountOf(rest, k) == 0 by { CountOfAbsent(rest, k); }
      } else {
        PutTotal(rest, k, v);
        var r := [es[0]] + Put(rest, k, v);
        TotalFront(r);
        assert r[1..] == Put(rest, k, v);
      }
    }
  }

  /** `Total` read from the front. */
  lemma {:induction false} TotalFront(es: Entries)
    requires es != []
    ensures Total(es) == es[0].1 + Total(es[1..])
    decreases |es|
  {
    if |es| > 1 {
      var n := |es| - 1;
      TotalFront(es[..n]);
      assert es[..n][1..] == es[1..][..n - 1];
      assert es[1..][n - 1] == es[n];
    } else {
      assert es[..0] == [] && es[1..] == [];
    }
  }

  lemma {:induction false} CountOfAbsent(es: Entries, k: string)
    requires forall i :: 0 <= i < |es| ==> es[i].0 != k
    ensures CountOf(es, k) == 0
  {
    if es != [] { CountOfAbsent(es[1..], k); }
  }

  /**
   * `Counter(ss)` has one entry per distinct code, each code's count is its number of
   * occurrences, and the counts add up to `len(ss)`.
   */
  lemma {:induction false} CountsContents(ss: seq<string>)
    ensures var es := Counts(ss);
      && DistinctKeys(es)
      && (forall x :: HasKey(es, x) <==> x in ss)
      && (forall x :: CountOf(es, x) == multiset(ss)[x])
      && Total(es) == |ss|
    decreases |ss|
  {
    if ss != [] {
      var n := |ss| - 1;
      var pre := ss[..n];
      var k := ss[n];
      assert ss == pre + [k];
      CountsContents(pre);
      var es := Counts(pre);
      var r := Counts(ss);
      assert r == Bump(es, k);
      BumpCounts(es, k);
      PutDistinct(es, k, CountOf(es, k) + 1);
      assert Total(r) == |ss|;
      forall x ensures CountOf(r, x) == multiset(ss)[x] {
        assert multiset(ss) == multiset(pre) + multiset{k};
      }
      forall x ensures HasKey(r, x) <==> x in ss {
        assert x in ss <==> x in pre || x == k;
      }
    }
  }

  /** A code list never has more distinct codes than codes. */
  lemma {:induction false} CountsLength(ss: seq<string>)
    ensures |Counts(ss)| <= |ss|
    decreases |ss|
  {
    if ss != [] {
      CountsLength(ss[..|ss| - 1]);
    }
  }

  /** The entries follow the order in which the codes first occur in `ss`. */
  lemma {:induction false} CountsInFirstOccurrenceOrder(ss: seq<string>)
    ensures var es := Counts(ss);
      forall i :: 0 <= i < |es| ==> es[i].0 in ss
    ensures var es := Counts(ss);
      forall i, j :: 0 <= i < j < |es| ==> FirstIndex(ss, es[i].0) < FirstIndex(ss, es[j].0)
    decreases |ss|
  {
    if ss != [] {
      var n := |ss| - 1;
      var pre := ss[..n];
      var k := ss[n];
      assert ss == pre + [k];
      CountsInFirstOccurrenceOrder(pre);
      CountsContents(pre);
      var es := Counts(pre);
      BumpKeys(es, k, pre, ss);
    }
  }

  /** The keys of `Bump(es, k)`: those of `es` in place, then `k` if it is new. */
  lemma {:induction false} BumpKeys(es: Entries, k: string, pre: seq<string>, ss: seq<string>)
    requires ss == pre + [k] && DistinctKeys(es)
    requires forall x :: HasKey(es, x) <==> x in pre
    requires forall i :: 0 <= i < |es| ==> es[i].0 in pre
    requires forall i, j :: 0 <= i < j < |es| ==> FirstIndex(pre, es[i].0) < FirstIndex(pre, es[j].0)
    ensures var r := Bump(es, k);
      && (forall i :: 0 <= i < |r| ==> r[i].0 in ss)
      && forall i, j :: 0 <= i < j < |r| ==> FirstIndex(ss, r[i].0) < FirstIndex(ss, r[j].0)
  {
    var r := Bump(es, k);
    assert forall i :: 0 <= i < |es| ==> r[i].0 == es[i].0;
    forall x | x in pre ensures x in ss && FirstIndex(ss, x) == FirstIndex(pre, x) {
      FirstIndexExtend(pre, k, x);
    }
    if HasKey(es, k) {
      assert |r| == |es|;
    } else {
      assert |r| == |es| + 1 && r[|es|].0 == k && k in ss;
      assert k !in pre;
      assert FirstIndex(ss, k) == |pre| by { assert ss[|pre|] == k; assert k !in ss[..|pre|]; }
      forall i | 0 <= i < |es| ensures FirstIndex(ss, r[i].0) < FirstIndex(ss, k) {
        assert es[i].0 in pre;
      }
    }
  }

  /** Appending a code does not move the first occurrence of a code already present. */
  lemma {:induction false} FirstIndexExtend(pre: seq<string>, k: string, x: string)
    requires x in pre
    ensures FirstIndex(pre + [k], x) == FirstIndex(pre, x)
    decreases |pre|
  {
    var ss := pre + [k];
    if pre[0] != x {
      assert ss[1..] == pre[1..] + [k];
      assert x in pre[1..] by { var i :| 0 <= i < |pre| && pre[i] == x; assert pre[1..][i - 1] == x; }
      FirstIndexExtend(pre[1..], k, x);
    }
  }

  /** The eight named codes get eight different names, and no name is itself a named code. */
  lemma {:induction false} LabelInjective(a: string, b: string)
    requires !IsLabelName(a) && !IsLabelName(b)
    ensures Label(a) == Label(b) ==> a == b
    ensures IsLabelName(Label(a)) || Label(a) == a
  {
  }

  /** Dropping the last entry keeps the keys distinct, and that entry's key is new to the rest. */
  lemma {:induction false} DistinctSnoc(es: Entries, e: (string, nat))
    requires DistinctKeys(es + [e])
    ensures DistinctKeys(es)
    ensures forall i :: 0 <= i < |es| ==> es[i].0 != e.0
  {
    var all := es + [e];
    assert forall i :: 0 <= i < |es| ==> all[i] == es[i];
    assert all[|es|] == e;
  }

  /** When no two keys share a label, relabelling overwrites no count. */
  lemma {:induction false} RelabelNoMerge(es: Entries)
    requires DistinctKeys(Labelled(es))
    ensures Relabel(es) == Labelled(es)
    decreases |es|
  {
    if es != [] {
      var n := |es| - 1;
      var pre := es[..n];
      var l := Labelled(pre);
      var last := (Label(es[n].0), es[n].1);
      assert Labelled(es) == l + [last];
      DistinctSnoc(l, last);
      RelabelNoMerge(pre);
      PutAbsent(l, last.0, last.1);
    }
  }

  lemma {:induction false} LabelledAt(es: Entries)
    ensures forall i :: 0 <= i < |es| ==> Labelled(es)[i] == (Label(es[i].0), es[i].1)
    decreases |es|
  {
    if es != [] {
      var n := |es| - 1;
      LabelledAt(es[..n]);
      assert forall i :: 0 <= i < n ==> es[..n][i] == es[i];
    }
  }

  /** Putting a key that is not there appends it. */
  lemma {:induction false} PutAbsent(es: Entries, k: string, v: nat)
    requires forall i :: 0 <= i < |es| ==> es[i].0 != k
    ensures Put(es, k, v) == es + [(k, v)]
  {
    assert !HasKey(es, k);
    var r := Put(es, k, v);
    assert forall i :: 0 <= i < |es| ==> r[i] == es[i];
  }

  lemma {:induction false} LabelledTotal(es: Entries)
    ensures Total(Labelled(es)) == Total(es)
    decreases |es|
  {
    if es != [] {
      var n := |es| - 1;
      LabelledTotal(es[..n]);
      assert Labelled(es)[..n] == Labelled(es[..n]);
    }
  }

  /**
   * For codes that are not themselves label names (DSSP's one-letter codes, say), the
   * readable entries are the counts under their labels: one per distinct code, in order
   * of first occurrence, and the counts add up to the number of classified residues.
   */
  lemma {:induction false} ReadableCounts(ss: seq<string>)
    requires forall i :: 0 <= i < |ss| ==> !IsLabelName(ss[i])
    ensures Readable(ss) == Labelled(Counts(ss))
    ensures Total(Readable(ss)) == |ss|
  {
    var es := Counts(ss);
    CountsContents(ss);
    CountsInFirstOccurrenceOrder(ss);
    LabelledAt(es);
    var l := Labelled(es);
    forall i, j | 0 <= i < j < |l| ensures l[i].0 != l[j].0 {
      var a, b := es[i].0, es[j].0;
      assert a in ss && b in ss;
      LabelInjective(a, b);
    }
    RelabelNoMerge(es);
    LabelledTotal(es);
  }

  /** The exact percentage of one entry. */
  function Percent(count: nat, total: nat): real
    requires total > 0
  {
    (count as real) * 100.0 / (total as real)
  }

  function PercentSum(es: Entries, total: nat): real
    requires total > 0
    decreases |es|
  {
    if es == [] then 0.0 else PercentSum(es[..|es| - 1], total) + Percent(es[|es| - 1].1, total)
  }

  lemma {:induction false} PercentSumIsTotal(es: Entries, total: nat)
    requires total > 0
    ensures PercentSum(es, total) == (Total(es) as real) * 100.0 / (total as real)
    decreases |es|
  {
    if es != [] {
      PercentSumIsTotal(es[..|es| - 1], total);
    }
  }

  /** With no count overwritten, the exact percentages of the parts add up to 100. */
  lemma {:induction false} PercentagesSumToHundred(ss: seq<string>)
    requires |ss| > 0 && forall i :: 0 <= i < |ss| ==> !IsLabelName(ss[i])
    ensures PercentSum(Readable(ss), |ss|) == 100.0
  {
    ReadableCounts(ss);
    PercentSumOfWhole(Readable(ss), |ss|);
  }

  lemma {:induction false} PercentSumOfWhole(es: Entries, total: nat)
    requires total > 0 && Total(es) == total
    ensures PercentSum(es, total) == 100.0
  {
    PercentSumIsTotal(es, total);
    var n := total as real;
    assert n * 100.0 / n == 100.0;
  }

  /** No classified residue: no part, no division, `"It is composed of ."`. */
  lemma {:induction false} EmptyComposition()
    ensures CompositionText([]) == "It is composed of ."
  {
  }

  /** The analysis is the custom summary, a newline, and the composition; either failure escapes. */
  lemma {:induction false} AnalysisCombines(lines: seq<string>, dssp: Result<seq<string>, string>)
    ensures AnalysisSummary(lines, dssp).Ok? <==> PdbAnalyse.PdbSummary(lines).Ok? && dssp.Ok?
    ensures PdbAnalyse.PdbSummary(lines).Err? ==>
      AnalysisSummary(lines, dssp) == Err(ParseFailed(PdbAnalyse.PdbSummary(lines).error))
    ensures AnalysisSummary(lines, dssp).Ok? ==>
      var custom := PdbAnalyse.PdbSummary(lines).value + "\n";
      StartsWith(AnalysisSummary(lines, dssp).value, custom)
      && AnalysisSummary(lines, dssp).value[|custom|..] == CompositionText(dssp.value)
  {
    if AnalysisSummary(lines, dssp).Ok? {
      var custom := PdbAnalyse.PdbSummary(lines).value + "\n";
      var s := AnalysisSummary(lines, dssp).value;
      assert s == custom + CompositionText(dssp.value);
      assert s[..|custom|] == custom;
    }
  }
}
