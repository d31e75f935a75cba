/**
 * `parse_pdb_custom` (server/pdb_analyse.py): one pass over the lines of a structure
 * file, cutting every ATOM/HETATM record at the fixed columns of the PDB ATOM record,
 * then a one-sentence summary of residues, chains and atoms.
 */
module PdbAnalyse {
  import opened Wrappers
  import opened Text

  /** One ATOM/HETATM record as the parser keeps it. */
  datatype Record = Record(chain: string, resSeq: int, resName: string)

  /** The exceptions that escape the line loop. */
  datatype ParseError =
    | ShortLine(line: string)   // IndexError from `line[21]`: the line has 21 characters or fewer
    | BadResSeq(field: string)  // ValueError from `int(...)`: the stripped columns 23-26 are no integer

  // Zero-based Python indices of the fields: chain id is column 22, resSeq columns 23-26,
  // resName columns 18-20 of the ATOM record (columns counted from 1).
  const ChainCol: nat := 21
  const ResSeqFrom: nat := 22
  const ResSeqTo: nat := 26
  const ResNameFrom: nat := 17
  const ResNameTo: nat := 20

  /** `line.startswith("ATOM") or line.startswith("HETATM")` */
  predicate IsAtomLine(line: string) {
    StartsWith(line, "ATOM") || StartsWith(line, "HETATM")
  }

  /** The stripped residue-number field `line[22:26].strip()`. */
  function ResSeqField(line: string): string {
    Strip(Slice(line, ResSeqFrom, ResSeqTo))
  }

  /**
   * The three fields of one atom line, in the order Python evaluates them:
   * `line[21].strip()`, `int(line[22:26].strip())`, `line[17:20].strip()`.
   */
  function ParseRecord(line: string): Result<Record, ParseError> {
    if |line| <= ChainCol then Err(ShortLine(line))
    else
      match ParseInt(ResSeqField(line))
      case None => Err(BadResSeq(ResSeqField(line)))
      case Some(resSeq) => Ok(Record(Strip([line[ChainCol]]), resSeq, Strip(Slice(line, ResNameFrom, ResNameTo))))
  }

  /**
   * A line of 21 characters or fewer raises IndexError; otherwise the line parses
   * exactly when the residue-number field is an integer. A blank chain column gives the
   * empty chain id, any other character is the chain id; the name has at most 3 characters.
   */
  lemma {:induction false} ParseRecordFields(line: string)
    ensures ParseRecord(line) == Err(ShortLine(line)) <==> |line| <= ChainCol
    ensures ParseRecord(line).Err? && |line| > ChainCol ==> ParseRecord(line) == Err(BadResSeq(ResSeqField(line)))
    ensures ParseRecord(line).Ok? <==> |line| > ChainCol && ParseInt(ResSeqField(line)).Some?
    ensures ParseRecord(line).Ok? ==> var r := ParseRecord(line).value;
      && ParseInt(ResSeqField(line)) == Some(r.resSeq)
      && |r.chain| <= 1 && (r.chain == "" <==> IsSpace(line[ChainCol]))
      && (!IsSpace(line[ChainCol]) ==> r.chain == [line[ChainCol]])
      && |r.resName| <= 3
  {
    if |line| > ChainCol {
      StripCases([line[ChainCol]]);
      StripShape([line[ChainCol]]);
      StripShape(Slice(line, ResNameFrom, ResNameTo));
    }
  }

  /** The loop's accumulators: `atom_count`, `residues_set` and the `chains` dict. */
  datatype Tally = Tally(atomCount: nat, residues: set<Record>, chains: map<string, map<int, string>>)

  const Empty := Tally(0, {}, map[])

  /** One parsed record: count the atom, add the triple, (over)write `chains[chain][resSeq]`. */
  function Step(t: Tally, rec: Record): Tally {
    var inner := if rec.chain in t.chains then t.chains[rec.chain] else map[];
    Tally(t.atomCount + 1, t.residues + {rec}, t.chains[rec.chain := inner[rec.resSeq := rec.resName]])
  }

  /** The loop over the file's lines, up to the first exception. */
  function Scan(lines: seq<string>): Result<Tally, ParseError>
    decreases |lines|
  {
    if lines == [] then Ok(Empty)
    else
      match Scan(lines[..|lines| - 1])
      case Err(e) => Err(e)
      case Ok(t) => ScanLine(t, lines[|lines| - 1])
  }

  /** One iteration of the line loop. */
  function ScanLine(t: Tally, line: string): Result<Tally, ParseError> {
    if !IsAtomLine(line) then Ok(t)
    else
      match ParseRecord(line)
      case Err(e) => Err(e)
      case Ok(rec) => Ok(Step(t, rec))
  }

  /** A well-formed atom line counts one more atom and records its fields. */
  lemma {:induction false} ScanAtomLine(t: Tally, line: string)
    requires IsAtomLine(line) && |line| > ChainCol && ParseInt(ResSeqField(line)).Some?
    ensures var rec := Record(Strip([line[ChainCol]]), ParseInt(ResSeqField(line)).value,
        Strip(Slice(line, ResNameFrom, ResNameTo)));
      var inner := if rec.chain in t.chains then t.chains[rec.chain] else map[];
      ScanLine(t, line) == Ok(Tally(t.atomCount + 1, t.residues + {rec}, t.chains[rec.chain := inner[rec.resSeq := rec.resName]]))
  {
  }

  // ---------------------------------------------------------------------------
  // The summary sentence
  // ---------------------------------------------------------------------------

  /** The residue numbers shown in a chain's preview: its min(5, n) smallest, ascending. */
  function PreviewKeys(residues: map<int, string>): (ks: seq<int>)
    ensures |ks| == Min(5, |residues|) && IntAscending(ks)
    ensures forall i :: 0 <= i < |ks| ==> ks[i] in residues
    ensures forall k, i :: k in residues && k !in ks && 0 <= i < |ks| ==> ks[i] < k
  {
    var sorted := SortedInts(residues.Keys);
    var ks := sorted[..Min(5, |sorted|)];
    assert IntAscending(ks);
    forall k | k in residues && k !in ks ensures forall i :: 0 <= i < |ks| ==> ks[i] < k {
      AscendingPrefixBelow(sorted, |ks|, k);
    }
    ks
  }

  /** In an ascending sequence, the first `n` elements are below any later element. */
  lemma {:induction false} AscendingPrefixBelow(xs: seq<int>, n: nat, k: int)
    requires IntAscending(xs) && n <= |xs| && k in xs && k !in xs[..n]
    ensures forall i :: 0 <= i < n ==> xs[..n][i] < k
  {
    var j :| 0 <= j < |xs| && xs[j] == k;
    assert forall i :: 0 <= i < n ==> xs[..n][i] == xs[i] != k;
    assert j >= n;
  }

  /** The residue names at the given numbers, concatenated. */
  function NamesAt(residues: map<int, string>, ks: seq<int>): string
    requires forall i :: 0 <= i < |ks| ==> ks[i] in residues
  {
    if ks == [] then "" else residues[ks[0]] + NamesAt(residues, ks[1..])
  }

  /** `"".join(...)` of the first five residue names of a chain by ascending resSeq. */
  function Preview(residues: map<int, string>): string {
    NamesAt(residues, PreviewKeys(residues))
  }

  function ChainPart(cid: string, residues: map<int, string>): string {
    "chain " + cid + " has " + NatToString(|residues|) + " residues, starting with " + Preview(residues)
  }

  /** The chain ids in the order the summary lists them: `sorted(chains.keys())`. */
  function ChainOrder(t: Tally): (ids: seq<string>)
    ensures |ids| == |t.chains| && StrAscending(ids)
    ensures forall c :: c in ids <==> c in t.chains
  {
    SortedStrings(t.chains.Keys)
  }

  /** One clause per listed chain, in the order listed. */
  function PartsFor(chains: map<string, map<int, string>>, ids: seq<string>): (parts: seq<string>)
    requires forall i :: 0 <= i < |ids| ==> ids[i] in chains
    ensures |parts| == |ids|
    decreases |ids|
  {
    if ids == [] then []
    else PartsFor(chains, ids[..|ids| - 1]) + [ChainPart(ids[|ids| - 1], chains[ids[|ids| - 1]])]
  }

  /** Listing one more chain adds its clause at the end. */
  lemma {:induction false} PartsForSnoc(chains: map<string, map<int, string>>, ids: seq<string>, k: nat)
    requires forall i :: 0 <= i < |ids| ==> ids[i] in chains
    requires k < |ids|
    ensures PartsFor(chains, ids[..k + 1]) == PartsFor(chains, ids[..k]) + [ChainPart(ids[k], chains[ids[k]])]
  {
    assert ids[..k + 1][..k] == ids[..k];
    assert ids[..k + 1][k] == ids[k];
  }

  lemma {:induction false} SnocPrefix(a: seq<string>, x: string, b: seq<string>, k: nat)
    requires |a| == k < |b| && a + [x] == b[..k + 1]
    ensures a == b[..k] && b[k] == x
  {
    assert a == (a + [x])[..k];
    assert b[k] == b[..k + 1][k];
  }

  /** The clauses of a prefix of the chains are a prefix of the clauses. */
  lemma {:induction false} PartsForPrefix(chains: map<string, map<int, string>>, ids: seq<string>, k: nat)
    requires forall i :: 0 <= i < |ids| ==> ids[i] in chains
    requires k <= |ids|
    ensures PartsFor(chains, ids[..k]) == PartsFor(chains, ids)[..k]
    decreases |ids| - k
  {
    if k < |ids| {
      PartsForPrefix(chains, ids, k + 1);
      PartsForSnoc(chains, ids, k);
      assert |ids[..k]| == k;
      SnocPrefix(PartsFor(chains, ids[..k]), ChainPart(ids[k], chains[ids[k]]), PartsFor(chains, ids), k);
    } else {
      assert ids[..k] == ids;
    }
  }

  /** The clause at position `i` is that of the `i`-th listed chain. */
  lemma {:induction false} PartsForAt(chains: map<string, map<int, string>>, ids: seq<string>)
    requires forall i :: 0 <= i < |ids| ==> ids[i] in chains
    ensures var parts := PartsFor(chains, ids);
      forall i :: 0 <= i < |ids| ==> parts[i] == ChainPart(ids[i], chains[ids[i]])
  {
    var parts := PartsFor(chains, ids);
    forall i | 0 <= i < |ids| ensures parts[i] == ChainPart(ids[i], chains[ids[i]]) {
      PartsForPrefix(chains, ids, i + 1);
      PartsForSnoc(chains, ids, i);
      assert |ids[..i]| == i;
      SnocPrefix(PartsFor(chains, ids[..i]), ChainPart(ids[i], chains[ids[i]]), parts, i);
    }
  }

  /** `parts`: one clause per chain, in ascending chain-id order. */
  function ChainParts(t: Tally): seq<string> {
    PartsFor(t.chains, ChainOrder(t))
  }

  function Header(t: Tally): string {
    "The protein contains " + NatToString(|t.residues|) + " residues across "
    + NatToString(|t.chains|) + " chain(s): "
  }

  function Footer(t: Tally): string {
    ". Total atoms in structure: " + NatToString(t.atomCount) + "."
  }

  function Render(t: Tally): string {
    Header(t) + Join(ChainParts(t), "; ") + Footer(t)
  }

  /** What `parse_pdb_custom` returns or raises for a file with these lines. */
  function PdbSummary(lines: seq<string>): Result<string, ParseError> {
    match Scan(lines)
    case Err(e) => Err(e)
    case Ok(t) => Ok(Render(t))
  }

  /**
   * `parse_pdb_custom(pdb_file)`, given the lines `for line in f` yields: the line loop
   * with its three accumulators, then the loop that builds one part per chain.
   */
  method ParsePdbCustom(lines: seq<string>) returns (r: Result<string, ParseError>)
    ensures r == PdbSummary(lines)
  {
    var chains: map<string, map<int, string>> := map[];
    var residues: set<Record> := {};
    var atomCount: nat := 0;
    var i := 0;
    while i < |lines|
      invariant 0 <= i <= |lines|
      invariant Scan(lines[..i]) == Ok(Tally(atomCount, residues, chains))
    {
      var line := lines[i];
      ghost var before := Tally(atomCount, residues, chains);
      ScanPrefixStep(lines, i);
      if IsAtomLine(line) {
        atomCount := atomCount + 1;
        if |line| <= ChainCol {
          r := Err(ShortLine(line));
          ScanStopsAtError(lines, i + 1);
          return;
        }
        var chainId := Strip([line[ChainCol]]);
        var resSeq := ParseInt(ResSeqField(line));
        if resSeq.None? {
          r := Err(BadResSeq(ResSeqField(line)));
          ScanStopsAtError(lines, i + 1);
          return;
        }
        var resName := Strip(Slice(line, ResNameFrom, ResNameTo));
        ScanAtomLine(before, line);
        ghost var inner := if chainId in chains then chains[chainId] else map[];
        if chainId !in chains {
          chains := chains[chainId := map[]];
        }
        chains := chains[chainId := chains[chainId][resSeq.value := resName]];
        residues := residues + {Record(chainId, resSeq.value, resName)};
        assert chains == before.chains[chainId := inner[resSeq.value := resName]];
      }
      i := i + 1;
    }
    assert lines[..i] == lines;
    var t := Tally(atomCount, residues, chains);
    var parts := RenderChains(t);
    r := Ok(Header(t) + Join(parts, "; ") + Footer(t));
  }

  /** The second loop of `parse_pdb_custom`: one clause per chain, by ascending chain id. */
  method RenderChains(t: Tally) returns (parts: seq<string>)
    ensures parts == ChainParts(t)
  {
    parts := RenderParts(t.chains, SortedStrings(t.chains.Keys));
  }

  /** The loop over the listed chains that appends one clause per chain. */
  method RenderParts(chains: map<string, map<int, string>>, ids: seq<string>) returns (parts: seq<string>)
    requires forall i :: 0 <= i < |ids| ==> ids[i] in chains
    ensures parts == PartsFor(chains, ids)
  {
    parts := [];
    var k := 0;
    while k < |ids|
      invariant 0 <= k <= |ids|
      invariant parts == PartsFor(chains, ids[..k])
    {
      PartsForSnoc(chains, ids, k);
      parts := parts + [ChainPart(ids[k], chains[ids[k]])];
      k := k + 1;
    }
    assert ids[..k] == ids;
  }

  // ---------------------------------------------------------------------------
  // Properties of the scan
  // ---------------------------------------------------------------------------

  /** Reading one more line of a prefix that parsed. */
  lemma {:induction false} ScanPrefixStep(lines: seq<string>, i: nat)
    requires i < |lines| && Scan(lines[..i]).Ok?
    ensures Scan(lines[..i + 1]) == ScanLine(Scan(lines[..i]).value, lines[i])
  {
    assert lines[..i + 1][..i] == lines[..i];
  }

  /** Once a prefix raised, the whole file raises the same exception. */
  lemma {:induction false} ScanStopsAtError(lines: seq<string>, i: nat)
    requires i <= |lines| && Scan(lines[..i]).Err?
    ensures Scan(lines) == Scan(lines[..i])
    decreases |lines|
  {
    if i < |lines| {
      var n := |lines| - 1;
      assert lines[..n][..i] == lines[..i];
      ScanStopsAtError(lines[..n], i);
    } else {
      assert lines[..i] == lines;
    }
  }

  /** Number of ATOM/HETATM lines. */
  function CountAtomLines(lines: seq<string>): nat
    decreases |lines|
  {
    if lines == [] then 0
    else CountAtomLines(lines[..|lines| - 1]) + (if IsAtomLine(lines[|lines| - 1]) then 1 else 0)
  }

  /** Every ATOM/HETATM line among the first `n` parses. */
  predicate AtomLinesParse(lines: seq<string>, n: nat)
    requires n <= |lines|
  {
    forall i :: 0 <= i < n && IsAtomLine(lines[i]) ==> ParseRecord(lines[i]).Ok?
  }

  /**
   * The file raises exactly when some ATOM/HETATM line is malformed, and then with the
   * exception of the first such line; later lines are never looked at.
   */
  lemma {:induction false} ScanFailsAtFirstBadLine(lines: seq<string>)
    ensures Scan(lines).Ok? <==> AtomLinesParse(lines, |lines|)
    ensures Scan(lines).Err? ==> exists i :: (0 <= i < |lines| && IsAtomLine(lines[i])
      && AtomLinesParse(lines, i) && ParseRecord(lines[i]).Err? && Scan(lines) == Err(ParseRecord(lines[i]).error))
    decreases |lines|
  {
    if lines != [] {
      var n := |lines| - 1;
      var pre := lines[..n];
      var line := lines[n];
      ScanFailsAtFirstBadLine(pre);
      AtomLinesParsePrefix(lines, n);
      if Scan(pre).Err? {
        var i :| 0 <= i < n && IsAtomLine(pre[i]) && AtomLinesParse(pre, i) && ParseRecord(pre[i]).Err?
          && Scan(pre) == Err(ParseRecord(pre[i]).error);
        AtomLinesParsePrefix(lines, i);
        assert pre[i] == lines[i];
      }
    }
  }

  /**
   * The first `k` lines of a file are the lines of its prefix, and every ATOM/HETATM
   * line among the first `k + 1` parses exactly when those among the first `k` do and
   * line `k` is not a malformed atom line.
   */
  lemma {:induction false} AtomLinesParsePrefix(lines: seq<string>, k: nat)
    requires k < |lines|
    ensures lines[..k] == lines[..k + 1][..k]
    ensures forall j :: 0 <= j < k ==> lines[..k][j] == lines[j]
    ensures AtomLinesParse(lines[..k], k) <==> AtomLinesParse(lines, k)
    ensures AtomLinesParse(lines, k + 1) <==>
      AtomLinesParse(lines, k) && (IsAtomLine(lines[k]) ==> ParseRecord(lines[k]).Ok?)
    ensures k + 1 == |lines| ==> lines[..k + 1] == lines
  {
  }

  /** The records of the well-formed ATOM/HETATM lines. */
  function RecordsOf(lines: seq<string>): set<Record> {
    set i | 0 <= i < |lines| && IsAtomLine(lines[i]) && ParseRecord(lines[i]).Ok? :: ParseRecord(lines[i]).value
  }

  /** The chain ids seen on ATOM/HETATM lines. */
  function ChainIdsOf(lines: seq<string>): set<string> {
    set r | r in RecordsOf(lines) :: r.chain
  }

  /** The (chain, resSeq) positions a set of records occupies. */
  function Sites(rs: set<Record>): set<(string, int)> {
    set r | r in rs :: (r.chain, r.resSeq)
  }

  /** Every (chain, resSeq) position carries a single residue name. */
  predicate OneNamePerSite(rs: set<Record>) {
    forall a, b :: a in rs && b in rs && a.chain == b.chain && a.resSeq == b.resSeq ==> a == b
  }

  /** What the accumulators always say about each other. */
  ghost predicate Consistent(t: Tally) {
    && |t.residues| <= t.atomCount
    && t.chains.Keys == (set r | r in t.residues :: r.chain)
    && (forall c :: c in t.chains ==> t.chains[c].Keys == (set r | r in t.residues && r.chain == c :: r.resSeq))
    && (forall c, k :: c in t.chains && k in t.chains[c] ==> Record(c, k, t.chains[c][k]) in t.residues)
  }

  lemma {:induction false} StepConsistent(t: Tally, rec: Record)
    requires Consistent(t)
    ensures Consistent(Step(t, rec))
  {
    var t' := Step(t, rec);
    assert |t'.residues| <= |t.residues| + 1 by {
      if rec in t.residues { assert t'.residues == t.residues; }
    }
    assert t'.chains.Keys == set r | r in t'.residues :: r.chain by {
      assert t'.chains.Keys == t.chains.Keys + {rec.chain};
    }
    forall c | c in t'.chains
      ensures t'.chains[c].Keys == set r | r in t'.residues && r.chain == c :: r.resSeq
    {
      if c == rec.chain {
        var inner := if rec.chain in t.chains then t.chains[rec.chain] else map[];
        assert inner.Keys == set r | r in t.residues && r.chain == c :: r.resSeq;
        assert t'.chains[c].Keys == inner.Keys + {rec.resSeq};
        assert (set r | r in t'.residues && r.chain == c :: r.resSeq)
            == (set r | r in t.residues && r.chain == c :: r.resSeq) + {rec.resSeq};
      } else {
        assert t'.chains[c] == t.chains[c];
        assert (set r | r in t'.residues && r.chain == c :: r.resSeq)
            == (set r | r in t.residues && r.chain == c :: r.resSeq);
      }
    }
  }

  /** Records of a file with one more line. */
  lemma {:induction false} RecordsOfSnoc(pre: seq<string>, line: string)
    ensures RecordsOf(pre + [line]) ==
      RecordsOf(pre) + (if IsAtomLine(line) && ParseRecord(line).Ok? then {ParseRecord(line).value} else {})
  {
    var lines := pre + [line];
    var extra := if IsAtomLine(line) && ParseRecord(line).Ok? then {ParseRecord(line).value} else {};
    forall r | r in RecordsOf(lines) ensures r in RecordsOf(pre) + extra {
      var i :| 0 <= i < |lines| && IsAtomLine(lines[i]) && ParseRecord(lines[i]).Ok? && r == ParseRecord(lines[i]).value;
      if i < |pre| { assert lines[i] == pre[i]; } else { assert lines[i] == line; }
    }
    forall r | r in RecordsOf(pre) ensures r in RecordsOf(lines) {
      var i :| 0 <= i < |pre| && IsAtomLine(pre[i]) && ParseRecord(pre[i]).Ok? && r == ParseRecord(pre[i]).value;
      assert lines[i] == pre[i];
    }
    if IsAtomLine(line) && ParseRecord(line).Ok? {
      assert lines[|pre|] == line;
    }
  }

  /**
   * On a file that parses, the accumulators hold: the atom count is the number of
   * ATOM/HETATM lines, the residue set is the set of their records, the chains are
   * the chain ids seen, and every chains[c][k] is the name of a record at (c, k).
   */
  lemma {:induction false} ScanContents(lines: seq<string>)
    requires Scan(lines).Ok?
    ensures var t := Scan(lines).value;
      && Consistent(t)
      && t.atomCount == CountAtomLines(lines)
      && t.residues == RecordsOf(lines)
      && t.chains.Keys == ChainIdsOf(lines)
    decreases |lines|
  {
    if lines == [] {
      assert RecordsOf(lines) == {};
    } else {
      var n := |lines| - 1;
      var pre := lines[..n];
      var line := lines[n];
      assert lines == pre + [line];
      ScanContents(pre);
      var t0 := Scan(pre).value;
      RecordsOfSnoc(pre, line);
      if IsAtomLine(line) {
        StepConsistent(t0, ParseRecord(line).value);
      }
    }
  }

  /** `total_residues <= atom_count`: duplicate atom records collapse into one residue. */
  lemma {:induction false} ResiduesAtMostAtoms(lines: seq<string>)
    requires Scan(lines).Ok?
    ensures |Scan(lines).value.residues| <= CountAtomLines(lines)
    ensures |Scan(lines).value.residues| == |RecordsOf(lines)|
  {
    ScanContents(lines);
  }

  /**
   * A later record at the same (chain, resSeq) overwrites the name: after a line parsing
   * to `rec`, followed by lines none of which is an atom line at that position, the
   * chain's map holds `rec.resName` there.
   */
  lemma {:induction false} LastRecordWins(pre: seq<string>, line: string, post: seq<string>)
    requires IsAtomLine(line) && ParseRecord(line).Ok?
    requires Scan(pre + [line] + post).Ok?
    requires forall i :: 0 <= i < |post| && IsAtomLine(post[i]) && ParseRecord(post[i]).Ok? ==>
      (ParseRecord(post[i]).value.chain, ParseRecord(post[i]).value.resSeq)
      != (ParseRecord(line).value.chain, ParseRecord(line).value.resSeq)
    ensures var rec := ParseRecord(line).value; var t := Scan(pre + [line] + post).value;
      rec.chain in t.chains && rec.resSeq in t.chains[rec.chain]
      && t.chains[rec.chain][rec.resSeq] == rec.resName
    decreases |post|
  {
    var all := pre + [line] + post;
    if post == [] {
      assert all[..|all| - 1] == pre;
    } else {
      var n := |post| - 1;
      assert all[..|all| - 1] == pre + [line] + post[..n];
      LastRecordWins(pre, line, post[..n]);
    }
  }

  // ---------------------------------------------------------------------------
  // Counting residues per chain
  // ---------------------------------------------------------------------------

  /** Sum of the per-chain residue counts over the listed chains. */
  function SumCounts(chains: map<string, map<int, string>>, ids: seq<string>): nat
    requires forall i :: 0 <= i < |ids| ==> ids[i] in chains
  {
    if ids == [] then 0 else |chains[ids[0]]| + SumCounts(chains, ids[1..])
  }

  /** The sum of the counts the summary prints, one per chain. */
  function ChainCountTotal(t: Tally): nat {
    SumCounts(t.chains, ChainOrder(t))
  }

  function PairsOf(chains: map<string, map<int, string>>, ids: seq<string>): set<(string, int)>
    requires forall i :: 0 <= i < |ids| ==> ids[i] in chains
  {
    set c, k | c in ids && k in chains[c] :: (c, k)
  }

  lemma {:induction false} PairsWithChainCard(c: string, ks: set<int>)
    ensures |set k | k in ks :: (c, k)| == |ks|
    decreases |ks|
  {
    if ks != {} {
      IntSetHasElement(ks);
      var k0 :| k0 in ks;
      PairsWithChainCard(c, ks - {k0});
      assert (set k | k in ks :: (c, k)) == (set k | k in ks - {k0} :: (c, k)) + {(c, k0)};
    } else {
      assert (set k | k in ks :: (c, k)) == {};
    }
  }

  lemma {:induction false} SumCountsIsPairs(chains: map<string, map<int, string>>, ids: seq<string>)
    requires forall i :: 0 <= i < |ids| ==> ids[i] in chains
    requires forall i, j :: 0 <= i < j < |ids| ==> ids[i] != ids[j]
    ensures SumCounts(chains, ids) == |PairsOf(chains, ids)|
  {
    if ids == [] {
      assert PairsOf(chains, ids) == {};
    } else {
      var c := ids[0];
      var rest := ids[1..];
      SumCountsIsPairs(chains, rest);
      var mine := set k | k in chains[c].Keys :: (c, k);
      PairsWithChainCard(c, chains[c].Keys);
      assert PairsOf(chains, ids) == mine + PairsOf(chains, rest) by {
        assert forall x :: x in ids <==> x == c || x in rest;
      }
      assert mine !! PairsOf(chains, rest) by {
        assert c !in rest;
      }
    }
  }

  /** The image of a set under a map is no larger; it is as large exactly when no two elements collide. */
  lemma {:induction false} SitesCard(rs: set<Record>)
    ensures |Sites(rs)| <= |rs|
    ensures |Sites(rs)| == |rs| <==> OneNamePerSite(rs)
    decreases |rs|
  {
    if rs == {} {
      assert Sites(rs) == {};
    } else {
      var x :| x in rs;
      var rest := rs - {x};
      SitesCard(rest);
      var s := (x.chain, x.resSeq);
      assert Sites(rs) == Sites(rest) + {s};
      if s in Sites(rest) {
        var y :| y in rest && (y.chain, y.resSeq) == s;
        assert !OneNamePerSite(rs) by { assert x != y; }
      } else {
        assert OneNamePerSite(rs) <==> OneNamePerSite(rest) by {
          if OneNamePerSite(rest) {
            forall a, b | a in rs && b in rs && a.chain == b.chain && a.resSeq == b.resSeq ensures a == b {
              if a != x { assert (a.chain, a.resSeq) in Sites(rest); }
              if b != x { assert (b.chain, b.resSeq) in Sites(rest); }
            }
          }
        }
      }
    }
  }

  /**
   * The per-chain counts add up to at most `total_residues`, and to exactly that
   * when no (chain, resSeq) position carries two residue names.
   */
  lemma {:induction false} ChainCountsAtMostResidues(lines: seq<string>)
    requires Scan(lines).Ok?
    ensures ChainCountTotal(Scan(lines).value) <= |Scan(lines).value.residues|
    ensures ChainCountTotal(Scan(lines).value) == |Scan(lines).value.residues|
      <==> OneNamePerSite(Scan(lines).value.residues)
  {
    var t := Scan(lines).value;
    ScanContents(lines);
    var ids := ChainOrder(t);
    assert forall i, j :: 0 <= i < j < |ids| ==> ids[i] != ids[j];
    SumCountsIsPairs(t.chains, ids);
    ChainPairsAreSites(t);
    SitesCard(t.residues);
  }

  /** In a consistent tally the (chain, resSeq) keys of `chains` are the sites of the residue set. */
  lemma {:induction false} ChainPairsAreSites(t: Tally)
    requires Consistent(t)
    ensures PairsOf(t.chains, ChainOrder(t)) == Sites(t.residues)
  {
    var ids := ChainOrder(t);
    forall p | p in Sites(t.residues) ensures p in PairsOf(t.chains, ids) {
      var r :| r in t.residues && p == (r.chain, r.resSeq);
      assert r.chain in t.chains;
      assert r.resSeq in t.chains[r.chain].Keys;
    }
    forall p | p in PairsOf(t.chains, ids) ensures p in Sites(t.residues) {
      var c, k :| c in ids && k in t.chains[c] && p == (c, k);
      assert Record(c, k, t.chains[c][k]) in t.residues;
    }
  }

  /**
   * End to end: the summary names the number of distinct residue triples, the number
   * of distinct chain ids on ATOM/HETATM lines, and, last, the number of those lines.
   */
  lemma {:induction false} SummaryReportsCounts(lines: seq<string>)
    requires PdbSummary(lines).Ok?
    ensures var s := PdbSummary(lines).value;
      var head := "The protein contains " + NatToString(|RecordsOf(lines)|) + " residues across "
        + NatToString(|ChainIdsOf(lines)|) + " chain(s): ";
      var foot := ". Total atoms in structure: " + NatToString(CountAtomLines(lines)) + ".";
      StartsWith(s, head) && |s| >= |foot| && s[|s| - |foot|..] == foot
  {
    ScanContents(lines);
    RenderFrame(Scan(lines).value);
  }

  /** The summary opens with the counts header and closes with the atom-count footer. */
  lemma {:induction false} RenderFrame(t: Tally)
    ensures var s := Render(t);
      StartsWith(s, Header(t)) && |s| >= |Footer(t)| && s[|s| - |Footer(t)|..] == Footer(t)
  {
    var h, m, f := Header(t), Join(ChainParts(t), "; "), Footer(t);
    var s := h + m + f;
    assert s[..|h|] == h;
    assert s[|s| - |f|..] == f;
  }

  /** A chain's clause in the summary, for each chain in ascending id order. */
  lemma {:induction false} SummaryListsChainsInOrder(lines: seq<string>)
    requires Scan(lines).Ok?
    ensures var t := Scan(lines).value; var ids := ChainOrder(t);
      && PdbSummary(lines) == Ok(Header(t) + Join(ChainParts(t), "; ") + Footer(t))
      && |ids| == |ChainIdsOf(lines)| && StrAscending(ids)
      && (forall c :: c in ids <==> c in ChainIdsOf(lines))
      && |ChainParts(t)| == |ids|
  {
    ScanContents(lines);
  }
}
