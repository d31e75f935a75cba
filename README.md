# Symbiosys structure pipeline, modelled in Dafny

This project models the server side of Symbiosys. A client submits a protein fold sequence, and the server handles it in these steps:

1. It fetches the sequence's predicted structure from a structure-prediction service. The structure goes through a content-addressed cache under `pdb_data/`.
2. It generates candidate sequences with a language model. The prompt is the sequence wrapped at 60 residues between `<|endoftext|>` sentinels. Each generated text is cleaned back to a bare sequence.
3. For every candidate, it fetches the structure and scores it against the original with the external TM-align tool.
4. It describes each candidate structure in words. The description has two parts:
   - a residue summary, parsed from fixed columns of the ATOM/HETATM records;
   - a secondary-structure composition.
5. It replies with the candidates' structures, scores and descriptions.

A separate routine writes a structure's secondary-structure codes into its atoms' B-factors, so that a viewer can colour by them.

Modules, one file each:

| file | module | models |
|---|---|---|
| `wrappers.dfy` | `Wrappers` | `Option` and `Result` (a raised exception is `Err`) |
| `text.dfy` | `Text` | the parts of Python's `str` the code relies on: `isspace`, `strip`, `''.join(s.split())`, `sep.join`, `int()`, `str(n)`, `sorted` on strings and integers, `os.path.join`, and reading a text-mode file line by line with universal newlines |
| `pdb_analyse.dfy` | `PdbAnalyse` | `parse_pdb_custom`: the line loop, the record fields, the tallies and the summary text |
| `dssp_analyse.dfy` | `DsspAnalyse` | `analyze_pdb_full`: the same parser followed by the composition text (`Counter`, the labels, the percentages, the final concatenation) |
| `fetch_biosimilars.dfy` | `Biosimilars` | `preprocess_sequence` and `clean_generated_sequence` |
| `tm_mech.dfy` | `TmAlign` | `compute_tm_score`: its checks, the command line, the exit-code check and the regular-expression search |
| `fetch_protein.dfy` | `FetchProtein` | `fetch_pdb`: the cache as a class with a map field, with hit, miss and store |
| `dssp_serve.dfy` | `DsspServe` | the `ss_map` table and the in-place B-factor loop of `run_dssp` |
| `main.dfy` | `Endpoint` | `fetch_pdb_endpoint`: the reference guard, the candidate loop, the three result lists and the counts |

Operations that change state are methods proved equal to a specification function of the old state. These include the parser's line loop, the composition loop, the prompt-wrapping loop, the cache, the B-factor loop and the endpoint's candidate loop. The lemmas state what the source promises about those functions.

The foreign calls become inputs to the model:

- the structure service's answers, or its transport failures: one for the fold sequence, and one per loop turn for the candidate at that index, so a candidate generated twice can be refused once and served the next time;
- the generator's texts;
- which paths exist;
- the TM-align run, as exit code, stdout and stderr;
- the per-residue codes that mdtraj's DSSP yields for a stored file;
- the SHA-256 digest, as an abstract function.

Two choices where the code and its description part ways. In both, the model follows the code:

- A cache hit re-reads the stored file in text mode, so the content comes back with its newlines translated. The cache is idempotent exactly for content without a carriage return; `FetchProtein.Idempotent` states both halves.
- With the integer resSeq, Biopython's `model[chain][n]` finds only a standard residue that has no insertion code. A key that names number `n` rewrites the standard residue `n` of its chain that has no insertion code, when one exists, and is skipped otherwise. So a key for residue `52A` rewrites residue `52`, and no hetero or insertion-coded residue is ever rewritten. `DsspServe.LastCodeWins` states this.

## Model

| member | source | states |
|---|---|---|
| Text.Slice | server/pdb_analyse.py:11-12 | Python slicing clips both bounds to the string; a start past the end gives the empty string |
| Text.TrimStartShape | server/pdb_analyse.py:10 | `lstrip` drops exactly a leading run of whitespace and leaves a non-space first character |
| Text.TrimEndShape | server/pdb_analyse.py:10 | `rstrip` drops exactly a trailing run of whitespace and leaves a non-space last character |
| Text.StripShape | server/pdb_analyse.py:10-12 | `strip` never lengthens and leaves no whitespace at either end |
| Text.StripCases | server/pdb_analyse.py:10 | `strip` keeps a space-free string unchanged, and gives "" exactly for an all-whitespace string (a blank chain column becomes the empty chain id) |
| Text.AllSpaceTrimStart | server/pdb_analyse.py:10 | `lstrip` of an all-whitespace string is empty |
| Text.RemoveSpace | server/fetch_biosimilars.py:54 | `''.join(s.split())` has no whitespace, is no longer than `s`, and takes only characters of `s` |
| Text.RemoveSpaceConcat | server/fetch_biosimilars.py:54 | removing whitespace distributes over concatenation |
| Text.RemoveSpaceEmpty | server/fetch_biosimilars.py:54 | removing whitespace gives "" exactly for a blank string |
| Text.RemoveSpaceOfUnspaced | server/fetch_biosimilars.py:54 | a space-free string is unchanged |
| Text.JoinPrefixed | server/pdb_analyse.py:38 | `sep.join(parts)` (`Join`) is the first part followed by every later part with the separator in front of it |
| Text.JoinLength | server/pdb_analyse.py:38 | the length of `sep.join(parts)` is the parts' total length plus one separator between each two |
| Text.ConcatLength | server/pdb_analyse.py:38 | concatenated parts are as long as the parts together |
| Text.JoinSnoc | server/pdb_analyse.py:38 | appending a part appends the separator and that part |
| Text.DigitChar | server/pdb_analyse.py:33 | the digit character of `d` has value `d` |
| Text.NatToString | server/pdb_analyse.py:33 | `str(n)` is a non-empty digit string with no leading zero unless `n == 0` |
| Text.ParseIntOfNatToString | server/pdb_analyse.py:11 | `int(str(n)) == n` |
| Text.DecimalValueOfNatToString | server/pdb_analyse.py:11 | the digits of `str(n)` read back as `n` |
| Text.StrLeTotal | server/pdb_analyse.py:35 | string order is total |
| Text.StrLeAntisymmetric | server/pdb_analyse.py:35 | string order is antisymmetric |
| Text.StrLeTransitive | server/pdb_analyse.py:35 | string order is transitive |
| Text.StrLeReflexive | server/pdb_analyse.py:35 | string order is reflexive |
| Text.StrMinExists | server/pdb_analyse.py:35 | a non-empty set of strings has a least element |
| Text.StrMin | server/pdb_analyse.py:35 | the least element is in the set and below all others |
| Text.SortedStrings | server/pdb_analyse.py:35 | `sorted(keys)` has the set's size, exactly its elements, in strictly ascending order |
| Text.IntMinExists | server/pdb_analyse.py:29 | a non-empty set of integers has a least element |
| Text.IntMin | server/pdb_analyse.py:29 | the least integer is in the set and below all others |
| Text.SortedInts | server/pdb_analyse.py:29 | `sorted` on integer keys has the set's size, exactly its elements, in strictly ascending order |
| Text.JoinPathShape | server/tm_mech.py:11-12 | `os.path.join` ends with the name, and starts with the directory when the name is relative |
| Text.TranslateNewlines | server/fetch_protein.py:23-24 | a text-mode read leaves no carriage return, and leaves a text without one unchanged |
| Text.NewlineIndex | server/pdb_analyse.py:7 | the index found is that of the first newline, or the length |
| Text.SplitLines | server/pdb_analyse.py:7 | iterating a file yields only non-empty lines |
| Text.SplitLinesConcat | server/pdb_analyse.py:6-7 | the lines put back together give the text; every line but the last ends in its only newline |
| PdbAnalyse.ParseRecordFields | server/pdb_analyse.py:10-12 | a record parses exactly when the line reaches column 22 and `int(line[22:26].strip())` succeeds; otherwise it fails with the short line or the bad field; the chain is `line[21].strip()` (empty when blank), resSeq the parsed field, resName at most 3 characters |
| PdbAnalyse.ScanAtomLine | server/pdb_analyse.py:8-20 | the one-step unfolding of the `ParsePdbCustom` loop for an atom line that parses (proof support; `ScanContents` and `LastRecordWins` state what the tallies hold) |
| PdbAnalyse.PreviewKeys | server/pdb_analyse.py:29 | the preview takes the `min(5, n)` smallest resSeq values of the chain, ascending |
| PdbAnalyse.AscendingPrefixBelow | server/pdb_analyse.py:29 | in an ascending list, every key of the prefix lies below any key outside it |
| PdbAnalyse.ChainOrder | server/pdb_analyse.py:35 | the chains are listed once each, all of them, in ascending id order |
| PdbAnalyse.PartsFor | server/pdb_analyse.py:34-36 | one summary part per listed chain |
| PdbAnalyse.PartsForAt | server/pdb_analyse.py:34-36 | part `i` is the clause `chain {cid} has {count} residues, starting with {preview}` (`ChainPart`) of the `i`-th listed chain |
| PdbAnalyse.PartsForPrefix | server/pdb_analyse.py:34-36 | the clauses of the first `k` listed chains are the first `k` clauses |
| PdbAnalyse.PartsForSnoc | server/pdb_analyse.py:34-36 | each turn of the parts loop appends the part of the next chain |
| PdbAnalyse.ParsePdbCustom | server/pdb_analyse.py:1-39 | the imperative line loop and summary assembly return exactly the summary function's value, or the error that aborts the loop |
| PdbAnalyse.RenderChains | server/pdb_analyse.py:34-36 | the parts loop builds the parts of the chains in sorted order |
| PdbAnalyse.RenderParts | server/pdb_analyse.py:34-36 | the loop over any list of chain ids appends exactly `PartsFor` of them, one clause per id in the order given |
| PdbAnalyse.ScanPrefixStep | server/pdb_analyse.py:7-20 | the scan of one more line is the scan so far followed by that line |
| PdbAnalyse.ScanStopsAtError | server/pdb_analyse.py:7-12 | once a line raises, later lines do not change the outcome |
| PdbAnalyse.ScanFailsAtFirstBadLine | server/pdb_analyse.py:7-12 | `Scan`: the parse succeeds exactly when every ATOM/HETATM line parses; a failure is the error of the first bad ATOM/HETATM line |
| PdbAnalyse.AtomLinesParsePrefix | server/pdb_analyse.py:8-12 | whether the first `k` lines all parse depends only on them, one line at a time |
| PdbAnalyse.StepConsistent | server/pdb_analyse.py:15-20 | adding a record keeps the chain map and the residue set in agreement |
| PdbAnalyse.RecordsOfSnoc | server/pdb_analyse.py:8-20 | a further line contributes its record exactly when it is an ATOM/HETATM line that parses |
| PdbAnalyse.ScanContents | server/pdb_analyse.py:8-22 | `Scan`: `atom_count` is the number of ATOM/HETATM lines, the residue set is their records, and the chain ids are those seen on them |
| PdbAnalyse.ResiduesAtMostAtoms | server/pdb_analyse.py:20-23 | `total_residues` is at most `atom_count` |
| PdbAnalyse.LastRecordWins | server/pdb_analyse.py:15-17 | within a chain, the last record for a resSeq gives that resSeq's name |
| PdbAnalyse.PairsWithChainCard | server/pdb_analyse.py:26 | pairing one chain id with a set of resSeq values keeps the set's size |
| PdbAnalyse.SumCountsIsPairs | server/pdb_analyse.py:26 | the per-chain counts add up to the number of distinct (chain, resSeq) pairs |
| PdbAnalyse.SitesCard | server/pdb_analyse.py:20 | there are at most as many (chain, resSeq) sites as triples, and equally many exactly when every site has one name |
| PdbAnalyse.ChainCountsAtMostResidues | server/pdb_analyse.py:17-26 | the per-chain counts add up to at most `total_residues`, with equality exactly when each (chain, resSeq) has one name |
| PdbAnalyse.ChainPairsAreSites | server/pdb_analyse.py:15-26 | the (chain, resSeq) pairs of the chain map are the sites of the residue set |
| PdbAnalyse.SummaryReportsCounts | server/pdb_analyse.py:33-38 | the summary opens with the residue and chain counts and ends with the atom count |
| PdbAnalyse.RenderFrame | server/pdb_analyse.py:33-38 | the summary starts with the header and ends with the footer |
| PdbAnalyse.SummaryListsChainsInOrder | server/pdb_analyse.py:33-38 | the summary is the header, the chain parts joined by "; " and the footer, with one part per chain seen, in ascending id order |
| DsspAnalyse.Put | server/dssp_analyse.py:73 | a dict assignment keeps the key order and the other entries; it replaces an existing key in place and appends a new one |
| DsspAnalyse.FirstIndex | server/dssp_analyse.py:62 | the index found is that of the first occurrence |
| DsspAnalyse.Relabel | server/dssp_analyse.py:73 | relabelling never adds categories |
| DsspAnalyse.Labelled | server/dssp_analyse.py:73 | labelling each entry keeps the number of entries |
| DsspAnalyse.Tenths | server/dssp_analyse.py:79-80 | the shown tenths of a percent are within half a tenth of `count*100/total` |
| DsspAnalyse.PartsOf | server/dssp_analyse.py:78-80 | one part per category |
| DsspAnalyse.PartsOfAt | server/dssp_analyse.py:78-80 | part `i` is `{count} residues ({fraction:.1f}%) in {label}` (`Part`) for the `i`-th readable entry |
| DsspAnalyse.CompositionSummary | server/dssp_analyse.py:73-82 | the loop over the readable counts builds exactly the composition text |
| DsspAnalyse.AnalyzePdbFull | server/dssp_analyse.py:5-90 | the imperative analysis returns exactly the specified summary or error |
| DsspAnalyse.BumpCounts | server/dssp_analyse.py:62 | counting one more code adds one to that code and nothing to the others |
| DsspAnalyse.PutCountOf | server/dssp_analyse.py:73 | after an assignment the key holds the new value and the others keep theirs |
| DsspAnalyse.PutDistinct | server/dssp_analyse.py:73 | an assignment keeps the keys distinct and changes the total by the difference |
| DsspAnalyse.PutTotal | server/dssp_analyse.py:73 | an assignment changes the total by the difference |
| DsspAnalyse.TotalFront | server/dssp_analyse.py:74 | the total is the first count plus the rest |
| DsspAnalyse.CountOfAbsent | server/dssp_analyse.py:62 | a code never seen has count 0 |
| DsspAnalyse.CountsContents | server/dssp_analyse.py:62-74 | `Counts`, the Counter, has distinct keys, exactly the codes that occur, each with its number of occurrences, summing to `len(ss)` |
| DsspAnalyse.CountsLength | server/dssp_analyse.py:62 | there are at most as many categories as residues |
| DsspAnalyse.CountsInFirstOccurrenceOrder | server/dssp_analyse.py:62-78 | categories appear in the order of their first occurrence in `ss` |
| DsspAnalyse.BumpKeys | server/dssp_analyse.py:62 | counting one more code keeps the first-occurrence order |
| DsspAnalyse.FirstIndexExtend | server/dssp_analyse.py:62 | appending a code does not move the first occurrence of a code already present |
| DsspAnalyse.LabelInjective | server/dssp_analyse.py:63-73 | two codes that are not label names get equal labels only if they are equal; a label is a label name or the raw code |
| DsspAnalyse.RelabelNoMerge | server/dssp_analyse.py:73 | when no two categories get the same label, the comprehension relabels entry by entry, in order |
| DsspAnalyse.LabelledAt | server/dssp_analyse.py:73 | each labelled entry is the label of the code with its count |
| DsspAnalyse.PutAbsent | server/dssp_analyse.py:73 | assigning a new key appends it |
| DsspAnalyse.LabelledTotal | server/dssp_analyse.py:73-74 | labelling keeps the total |
| DsspAnalyse.ReadableCounts | server/dssp_analyse.py:62-74 | with no raw code equal to a label name, the readable counts are the Counter's entries labelled in order, summing to `len(ss)` |
| DsspAnalyse.PercentSumIsTotal | server/dssp_analyse.py:79 | the exact percentages add up to `total_counted*100/len(ss)` |
| DsspAnalyse.PercentagesSumToHundred | server/dssp_analyse.py:74-79 | for a non-empty `ss` with no count overwritten, the exact percentages add up to 100 |
| DsspAnalyse.PercentSumOfWhole | server/dssp_analyse.py:74-79 | counts that add up to the total give percentages adding up to 100 |
| DsspAnalyse.EmptyComposition | server/dssp_analyse.py:76-81 | an empty `ss` gives "It is composed of ." with no division |
| DsspAnalyse.AnalysisCombines | server/dssp_analyse.py:36-89 | the analysis succeeds exactly when both steps do; a parse error escapes unchanged; the result is the residue summary, a newline, then the composition |
| Biosimilars.Chunks | server/fetch_biosimilars.py:57-59 | the 60-residue slices put back together give the sequence; each is non-empty and at most 60 long, and all but the last are exactly 60 |
| Biosimilars.WrapStep | server/fetch_biosimilars.py:58-59 | each turn appends the next slice and a newline |
| Biosimilars.WrapFrom | server/fetch_biosimilars.py:58-59 | the turn at index `i` takes `s[i:i+60]` and a newline off the front of what is left |
| Biosimilars.PreprocessSequence | server/fetch_biosimilars.py:48-64 | the loop's prompt is "<\|endoftext\|>\n", then every 60-residue slice of the unspaced input followed by a newline, then "<\|endoftext\|>" |
| Biosimilars.EndOfTextUnspaced | server/fetch_biosimilars.py:62-76 | the sentinel holds no whitespace |
| Biosimilars.PreprocessBlank | server/fetch_biosimilars.py:54-62 | the prompt is "<\|endoftext\|>\n<\|endoftext\|>" exactly when the input is blank |
| Biosimilars.RemoveSpaceOfWrap | server/fetch_biosimilars.py:54-59 | removing the whitespace from the wrapped text gives the unwrapped text |
| Biosimilars.RemoveEndOfText | server/fetch_biosimilars.py:76 | `replace('<\|endoftext\|>', '')` never lengthens and takes only characters of its input |
| Biosimilars.CleanUnspaced | server/fetch_biosimilars.py:73-76 | `Clean`: a cleaned sequence holds no whitespace |
| Biosimilars.RemoveEndOfTextSkips | server/fetch_biosimilars.py:76 | text without a '<' passes through the replacement unchanged |
| Biosimilars.RemoveSpaceAroundBreak | server/fetch_biosimilars.py:73 | the whitespace around the prompt's line break disappears when cleaning |
| Biosimilars.LeadingSentinel | server/fetch_biosimilars.py:76 | a leading sentinel is removed and the scan resumes after it |
| Biosimilars.BetweenSentinels | server/fetch_biosimilars.py:76 | between two sentinels, text without a '<' is all that is left |
| Biosimilars.RoundTrip | server/fetch_biosimilars.py:48-78 | `Clean` of the prompt `Preprocess(s)` gives `s` without its whitespace, when `s` has no '<' |
| TmAlign.SkipSpace | server/tm_mech.py:39 | greedy `\s*` stops at the first non-space |
| TmAlign.SkipScoreChars | server/tm_mech.py:39 | greedy `[0-9.]*` stops at the first other character |
| TmAlign.MatchAt | server/tm_mech.py:39 | a match captures a non-empty run of digits and dots |
| TmAlign.Search | server/tm_mech.py:39-41 | `re.search` returns the leftmost match, or none when no position matches |
| TmAlign.MissingFileFirst | server/tm_mech.py:16-21 | `ComputeTmScore`: the checks run in the order pdb1, pdb2, tool, whatever the aligner would print |
| TmAlign.OnlyThatRunCounts | server/tm_mech.py:24-35 | the outcome depends on the aligner only through its run on `[tool, pdb2_path, pdb1_path]` |
| TmAlign.Outcomes | server/tm_mech.py:16-49 | `ComputeTmScore`: a failed run reports its stderr; a score is returned exactly when all files exist, the exit code is 0, the pattern matches and `float()` accepts the group; the score returned is the group `re.search` matched, made of digits and dots |
| TmAlign.RunOutcomes | server/tm_mech.py:34-45 | `ComputeTmScore` with all three files present: a non-zero exit code raises `ToolFailed` with its stderr and no parse; no match raises `ScoreMissing`; a match `float()` refuses raises `NotAFloat`; otherwise the matched group is returned |
| TmAlign.ReportLine | server/tm_mech.py:39-43 | a report that opens with the score line yields that score |
| TmAlign.ScoreRun | server/tm_mech.py:39 | the greedy group takes the whole run of digits and dots |
| TmAlign.ReportLineExample | server/tm_mech.py:39-43 | `TM-score= 0.8765 (if normalized by length of Chain_1` yields `0.8765` |
| FetchProtein.StructureCache.FetchPdb | server/fetch_protein.py:9-39 | the method returns and stores exactly what the cache-step function gives for the old cache |
| FetchProtein.HitAsksNothing | server/fetch_protein.py:21-25 | `Fetch`: a hit returns the stored text as read back, writes nothing, and ignores the service |
| FetchProtein.MissOutcomes | server/fetch_protein.py:27-39 | `Fetch`: a miss succeeds exactly on status 200, and then stores and returns the body; another status gives `(False, None)`; a transport failure raises; neither of these writes anything |
| FetchProtein.OnlyThisKey | server/fetch_protein.py:33-34 | only this key's file can be written; every other file stays |
| FetchProtein.Idempotent | server/fetch_protein.py:21-34 | `Fetch`: after a successful call, the next call is a hit that writes nothing and returns the content as read back, the same content when it has no carriage return |
| FetchProtein.CachePathInjective | server/fetch_protein.py:17-18 | distinct digests name distinct cache files |
| DsspServe.WithBFactor | server/dssp_serve.py:35-36 | every atom of the residue gets the new B-factor and keeps everything else |
| DsspServe.Structure.SetResidueBFactor | server/dssp_serve.py:35-36 | the atom loop rewrites exactly that residue's atoms |
| DsspServe.Structure.EncodeSecondaryStructure | server/dssp_serve.py:29-38 | the key loop leaves the structure the specification function gives, skipping keys whose lookup fails |
| DsspServe.WithBFactorSnoc | server/dssp_serve.py:35-36 | the atom loop extends by one atom per turn |
| DsspServe.SsValueTable | server/dssp_serve.py:27-36 | the table gives each of H B E G I T S its own value from 1 to 7, and "-" and every other code 0 |
| DsspServe.SameButBFactorsTransitive | server/dssp_serve.py:29-38 | "differs only in B-factors" composes |
| DsspServe.EncodeOneShape | server/dssp_serve.py:32-36 | one key changes B-factors only |
| DsspServe.EncodeShape | server/dssp_serve.py:29-38 | `EncodeAll`: the whole loop changes B-factors only: every chain, residue and atom stays, with everything else as parsed |
| DsspServe.WithBFactorTwice | server/dssp_serve.py:36 | a later write of a residue's B-factor overrides an earlier one |
| DsspServe.LastCodeWins | server/dssp_serve.py:29-38 | `EncodeAll`: a standard residue without insertion code ends with the value of the last key naming its chain and number; every other residue, and every residue no key names, keeps its atoms |
| Endpoint.Candidates | server/fetch_biosimilars.py:39 | there are as many candidates as generated texts |
| Endpoint.HandleFetchPdb | server/main.py:40-127 | the endpoint method gives exactly the specified reply and cache, and takes the loop's pauses |
| Endpoint.EndpointOnSuccess | server/main.py:45-121 | past both guards, the reply lists what the candidate loop built, with the counts |
| Endpoint.HandleCandidates | server/main.py:62-109 | the candidate loop builds exactly the specified lists and cache |
| Endpoint.HandleCandidate | server/main.py:62-109 | one turn does exactly the specified step |
| Endpoint.LoopCounts | server/main.py:62-109 | one description per candidate, equally many results and scores, at most one result per candidate, and `n - 1` pauses for `n > 0` candidates |
| Endpoint.ReferenceGuard | server/main.py:45-56 | `FetchPdbEndpoint`: a reference fetch that raises answers 500 with its message; an unsuccessful or empty one answers 400 "Failed to fetch original PDB for input sequence"; either leaves the cache as that fetch left it, with no candidate fetched; a generator failure answers 500; the reply is a success exactly when none of these happens |
| Endpoint.SuccessCounts | server/main.py:112-121 | `FetchPdbEndpoint`: in a success, the descriptions equal the candidates in number, results and scores equal `successful_fetches`, and successes plus failures equal `total_generated` |
| Endpoint.StepOutcome | server/main.py:69-109 | a failed fetch adds only "Failed to fetch PDB."; a successful one adds the candidate with its content, its score as pdb1 against the original as pdb2 (0.0 when scoring raises), and its description |
| Endpoint.DescribedFromStoredFile | server/main.py:87-92 | after a successful fetch, the description is the analysis of the stored file, or "Failed to generate description." when it raises |
| Endpoint.Misaligned | server/main.py:94-108 | the lists are not index-aligned: when the first of two candidates fails and the second succeeds, the only result is the second candidate's while its description is at index 1 |
| Endpoint.RetryAfterRefusal | server/main.py:62-72 | every turn calls `fetch_pdb` afresh: a candidate generated twice, not cached and refused on its first turn, is fetched again on its second, and a success there gives its only result |

## Left out

- Network, SHA-256, mdtraj, Biopython and TM-align are not modelled as code: each is an input (status and body, digest function, code sequence, parsed structure, exit code and output).
- The PDB text that Biopython's parser reads and `PDBIO` writes in `run_dssp` is not modelled; the structure is taken as parsed. The undeleted temporary file is left out as well.
- `os.makedirs("pdb_data")` is left out: the cache is a map of files, and the directory is taken to exist.
- Floating point is left out. For `float(group)`, the model returns the matched decimal text once it is a valid literal. The percentages are exact rationals. The shown tenths round half to even on exact values. Python formats the nearest binary double, so a tie can round differently.
- The timing and concurrency of `asyncio.sleep`, `run_in_executor` and `to_thread` are left out. The endpoint only counts its one-second pauses.
- `generate_biosimilars_async` and the model loader are left out, because their behaviour lives in the language model. Only their cleaning of each generated text is modelled. The "model not loaded" error is the generator's exception.
- `fake_fetch_pdb_endpoint`, `/check`, the FastAPI/CORS/uvicorn setup, the React client, the ad-hoc scripts and all logging are not modelled.
- Paths use `/` as the separator. The tool path `.\TMalign.exe` is kept as a literal file name.
- Text-mode writes are taken as untranslated, as on POSIX.
- `int()` is modelled on ASCII digits only. Python also accepts other Unicode decimal digits.
- The composition labels cover the eight DSSP codes. mdtraj's default simplified codes are `H`, `E`, `C` and `NA`. `H` and `E` get the labels "alpha-helix" and "beta-sheet", while `C` and `NA` are not in the table and are labelled by their raw code.
- DsspAnalyse.RelabelNoMerge: that no count is overwritten is proved only when no two categories get the same label. A raw code equal to a label name (for example "coil") shares its key with that label in the comprehension. The later count then overwrites the earlier one, so the earlier count is lost. `Relabel` and `Put` compute that overwrite.
- DsspAnalyse.PercentagesSumToHundred: proved when no raw code is a label name.
- PdbAnalyse.SummaryListsChainsInOrder: states the number of chain parts and their order only. The text of each part is stated separately, by `PdbAnalyse.PartsForAt`.
- The record parser is duplicated in `server/pdb_analyse.py` and `server/dssp_analyse.py`. The two copies are identical, so it is modelled once and `DsspAnalyse` calls it.
- Endpoint.Candidates: its contract states only the number of candidates. That each candidate is the cleaned text is its definition, and is not restated as a contract.
