/**
 * The `/fetch_pdb` endpoint: the structure of the submitted fold sequence is
 * fetched, candidate sequences are generated from it, and for every candidate
 * the structure is fetched, scored against the original with TM-align and
 * described in words.
 *
 * The services the endpoint talks to are inputs: what the structure service
 * answers for the fold sequence and, call by call, for each candidate; what
 * the generator produced; whether the aligner is installed and what it
 * reports; and what the secondary-structure assignment yields for a stored
 * file.
 */
module Endpoint {
  import opened Wrappers
  import opened Text
  import Biosimilars
  import FetchProtein
  import TmAlign
  import DsspAnalyse

  /** Everything outside the server the endpoint depends on. */
  datatype World = World(
    reference: FetchProtein.Response,                  // the structure service's answer for the fold sequence
    service: (nat, string) -> FetchProtein.Response,   // its answer for the candidate at index i, one per call
    toolPresent: bool,                                 // whether the aligner is in the working directory
    run: seq<string> -> TmAlign.Completed,             // the aligner
    dssp: string -> Result<seq<string>, string>)       // per-residue codes for a stored file's text, or the failure

  /** The JSON body of a successful answer, or the HTTP error raised instead. */
  datatype Reply =
    | Success(original: string, pdbResults: seq<(string, string)>, tmScores: seq<string>,
              descriptions: seq<string>, totalGenerated: nat, successfulFetches: nat, failedFetches: int)
    | HttpError(status: nat, detail: string)

  const ReferenceFailed: string := "Failed to fetch original PDB for input sequence"
  const NoScore: string := "0.0"
  const NoDescription: string := "Failed to generate description."
  const FetchFailed: string := "Failed to fetch PDB."

  /** The text `success and pdb_content` lets through: a successful call with non-empty content. */
  function Content(r: Result<FetchProtein.Fetched, string>): Option<string> {
    if r.Ok? && r.value.success && r.value.content.Some? && r.value.content.value != "" then
      Some(r.value.content.value)
    else None
  }

  /** The paths `os.path.exists` finds. */
  function Existing(files: map<string, string>, w: World): set<string> {
    files.Keys + (if w.toolPresent then {TmAlign.Tool} else {})
  }

  /** `compute_tm_score(seq.pdb, original.pdb)`, or 0.0 when it raises. */
  function Score(files: map<string, string>, digest: string -> string, candidate: string, fold: string, w: World): string {
    var r := TmAlign.ComputeTmScore(digest(candidate) + ".pdb", digest(fold) + ".pdb", FetchProtein.CacheDir,
                                    Existing(files, w), w.run);
    if r.Ok? then r.value else NoScore
  }

  /** `analyze_pdb_full(seq_pdb_path)`, or the fallback text when it raises. */
  function Describe(files: map<string, string>, path: string, w: World): string {
    if path !in files then NoDescription
    else
      var r := DsspAnalyse.AnalysisSummary(FileLines(files[path]), w.dssp(files[path]));
      if r.Ok? then r.value else NoDescription
  }

  /** The lists the candidate loop builds, the cache, and the number of one-second pauses taken. */
  datatype Progress = Progress(files: map<string, string>, pdbResults: seq<(string, string)>,
                               tmScores: seq<string>, descriptions: seq<string>, delays: nat)

  /** One turn of the loop, for the candidate at index `i`. */
  function Step(p: Progress, i: nat, candidate: string, digest: string -> string, fold: string, w: World): Progress {
    var delays := if i > 0 then p.delays + 1 else p.delays;
    var fetched := FetchProtein.Fetch(p.files, FetchProtein.CachePath(digest(candidate)), w.service(i, candidate));
    var r, files := fetched.0, fetched.1;
    match Content(r)
    case None => Progress(files, p.pdbResults, p.tmScores, p.descriptions + [FetchFailed], delays)
    case Some(content) =>
      var score := Score(files, digest, candidate, fold, w);
      var description := Describe(files, FetchProtein.CachePath(digest(candidate)), w);
      Progress(files, p.pdbResults + [(candidate, content)], p.tmScores + [score],
               p.descriptions + [description], delays)
  }

  /** The loop run over `candidates`. */
  function Loop(p: Progress, candidates: seq<string>, digest: string -> string, fold: string, w: World): Progress
    decreases |candidates|
  {
    if candidates == [] then p
    else
      var k := |candidates| - 1;
      Step(Loop(p, candidates[..k], digest, fold, w), k, candidates[k], digest, fold, w)
  }

  /** The candidates as `generate_biosimilars_async` returns them: every generated text cleaned. */
  function Candidates(texts: seq<string>): (cs: seq<string>)
    ensures |cs| == |texts|
  {
    if texts == [] then [] else [Biosimilars.Clean(texts[0])] + Candidates(texts[1..])
  }

  /**
   * What the endpoint answers for fold sequence `fold`, with the cache `files`
   * and `generated` the generator's raw texts (or the exception it raised), and
   * the cache afterwards.
   */
  function FetchPdbEndpoint(files: map<string, string>, digest: string -> string, fold: string,
                            generated: Result<seq<string>, string>, w: World): (Reply, map<string, string>)
  {
    var reference := FetchProtein.Fetch(files, FetchProtein.CachePath(digest(fold)), w.reference);
    var r, files1 := reference.0, reference.1;
    if r.Err? then (HttpError(500, r.error), files1)
    else if Content(r).None? then (HttpError(400, ReferenceFailed), files1)
    else if generated.Err? then (HttpError(500, generated.error), files1)
    else
      var candidates := Candidates(generated.value);
      var p := Loop(Progress(files1, [], [], [], 0), candidates, digest, fold, w);
      (Success(Content(r).value, p.pdbResults, p.tmScores, p.descriptions,
               |candidates|, |p.pdbResults|, |candidates| - |p.pdbResults|), p.files)
  }

  /** `fetch_pdb_endpoint`, run against the cache object; it also reports the pauses it took. */
  method HandleFetchPdb(cache: FetchProtein.StructureCache, fold: string,
                        generated: Result<seq<string>, string>, w: World) returns (reply: Reply, delays: nat)
    modifies cache
    ensures (reply, cache.files) == FetchPdbEndpoint(old(cache.files), cache.digest, fold, generated, w)
    ensures reply.Success? ==>
      delays == Loop(Progress(FetchProtein.Fetch(old(cache.files), FetchProtein.CachePath(cache.digest(fold)),
                                                 w.reference).1, [], [], [], 0),
                     Candidates(generated.value), cache.digest, fold, w).delays
  {
    delays := 0;
    ghost var files0 := cache.files;
    var r := cache.FetchPdb(fold, w.reference);
    ghost var files1 := cache.files;
    assert (r, files1) == FetchProtein.Fetch(files0, FetchProtein.CachePath(cache.digest(fold)), w.reference);
    if r.Err? {
      reply := HttpError(500, r.error);
      return;
    }
    if Content(r).None? {
      reply := HttpError(400, ReferenceFailed);
      return;
    }
    if generated.Err? {
      reply := HttpError(500, generated.error);
      return;
    }
    var candidates := Candidates(generated.value);
    var pdbResults, tmScores, descriptions;
    pdbResults, tmScores, descriptions, delays := HandleCandidates(cache, candidates, fold, w);
    EndpointOnSuccess(files0, cache.digest, fold, generated, w, r, files1);
    reply := Success(Content(r).value, pdbResults, tmScores, descriptions,
                     |candidates|, |pdbResults|, |candidates| - |pdbResults|);
  }

  /** Past both guards, the answer lists what the candidate loop built. */
  lemma EndpointOnSuccess(files: map<string, string>, digest: string -> string, fold: string,
                          generated: Result<seq<string>, string>, w: World,
                          r: Result<FetchProtein.Fetched, string>, files1: map<string, string>)
    requires (r, files1) == FetchProtein.Fetch(files, FetchProtein.CachePath(digest(fold)), w.reference)
    requires Content(r).Some? && generated.Ok?
    ensures var candidates := Candidates(generated.value);
            var p := Loop(Progress(files1, [], [], [], 0), candidates, digest, fold, w);
            FetchPdbEndpoint(files, digest, fold, generated, w)
              == (Success(Content(r).value, p.pdbResults, p.tmScores, p.descriptions,
                          |candidates|, |p.pdbResults|, |candidates| - |p.pdbResults|), p.files)
  {
  }

  /** The candidate loop: `enumerate(biosimilars)`. */
  method HandleCandidates(cache: FetchProtein.StructureCache, candidates: seq<string>, fold: string, w: World)
    returns (pdbResults: seq<(string, string)>, tmScores: seq<string>, descriptions: seq<string>, delays: nat)
    modifies cache
    ensures Progress(cache.files, pdbResults, tmScores, descriptions, delays)
         == Loop(Progress(old(cache.files), [], [], [], 0), candidates, cache.digest, fold, w)
  {
    ghost var start := Progress(cache.files, [], [], [], 0);
    pdbResults, tmScores, descriptions, delays := [], [], [], 0;
    var i := 0;
    while i < |candidates|
      invariant 0 <= i <= |candidates|
      invariant Progress(cache.files, pdbResults, tmScores, descriptions, delays)
             == Loop(start, candidates[..i], cache.digest, fold, w)
    {
      assert candidates[..i + 1][..i] == candidates[..i];
      pdbResults, tmScores, descriptions, delays :=
        HandleCandidate(cache, i, candidates[i], fold, w, pdbResults, tmScores, descriptions, delays);
      i := i + 1;
    }
    assert candidates[..i] == candidates;
  }

  /** The body of the candidate loop, for the candidate at index `i`. */
  method HandleCandidate(cache: FetchProtein.StructureCache, i: nat, candidate: string, fold: string, w: World,
                         pdbResults: seq<(string, string)>, tmScores: seq<string>, descriptions: seq<string>,
                         delays: nat)
    returns (pdbResults': seq<(string, string)>, tmScores': seq<string>, descriptions': seq<string>, delays': nat)
    modifies cache
    ensures Progress(cache.files, pdbResults', tmScores', descriptions', delays')
         == Step(Progress(old(cache.files), pdbResults, tmScores, descriptions, delays), i, candidate,
                 cache.digest, fold, w)
  {
    delays' := delays;
    if i > 0 {
      delays' := delays + 1;
    }
    var fetched := cache.FetchPdb(candidate, w.service(i, candidate));
    var content := Content(fetched);
    if content.Some? {
      var score := Score(cache.files, cache.digest, candidate, fold, w);
      var path := FetchProtein.CachePath(cache.digest(candidate));
      var description := NoDescription;
      if path in cache.files {
        var analysis := DsspAnalyse.AnalyzePdbFull(FileLines(cache.files[path]), w.dssp(cache.files[path]));
        if analysis.Ok? {
          description := analysis.value;
        }
      }
      pdbResults', tmScores', descriptions' :=
        pdbResults + [(candidate, content.value)], tmScores + [score], descriptions + [description];
    } else {
      pdbResults', tmScores', descriptions' := pdbResults, tmScores, descriptions + [FetchFailed];
    }
  }

  // ---------------------------------------------------------------------------
  // Properties
  // ---------------------------------------------------------------------------

  /**
   * One description per candidate; one result and one score per successful
   * fetch; a pause before every candidate but the first.
   */
  lemma {:induction false} LoopCounts(p: Progress, candidates: seq<string>, digest: string -> string,
                                      fold: string, w: World)
    requires p.delays == 0 && |p.pdbResults| == |p.tmScores|
    ensures var q := Loop(p, candidates, digest, fold, w);
            |q.descriptions| == |p.descriptions| + |candidates|
            && |q.pdbResults| == |q.tmScores|
            && |q.pdbResults| - |p.pdbResults| <= |candidates|
            && q.delays == (if candidates == [] then 0 else |candidates| - 1)
    decreases |candidates|
  {
    if candidates != [] {
      LoopCounts(p, candidates[..|candidates| - 1], digest, fold, w);
    }
  }

  /**
   * A failed, empty or raising reference fetch answers 400 or 500 before
   * anything is generated or fetched; past it, a generator failure answers 500.
   */
  lemma ReferenceGuard(files: map<string, string>, digest: string -> string, fold: string,
                       generated: Result<seq<string>, string>, w: World)
    ensures var (r, files1) := FetchProtein.Fetch(files, FetchProtein.CachePath(digest(fold)), w.reference);
            var (reply, files') := FetchPdbEndpoint(files, digest, fold, generated, w);
            (r.Err? ==> reply == HttpError(500, r.error) && files' == files1)
            && (r.Ok? && Content(r).None? ==> reply == HttpError(400, ReferenceFailed) && files' == files1)
            && (Content(r).Some? && generated.Err? ==> reply == HttpError(500, generated.error) && files' == files1)
            && (reply.Success? <==> Content(r).Some? && generated.Ok?)
  {
  }

  /** The counts in a successful answer agree with its lists. */
  lemma SuccessCounts(files: map<string, string>, digest: string -> string, fold: string,
                      generated: Result<seq<string>, string>, w: World)
    requires FetchPdbEndpoint(files, digest, fold, generated, w).0.Success?
    ensures var reply := FetchPdbEndpoint(files, digest, fold, generated, w).0;
            reply.totalGenerated == |generated.value|
            && |reply.descriptions| == reply.totalGenerated
            && |reply.pdbResults| == |reply.tmScores| == reply.successfulFetches
            && reply.successfulFetches + reply.failedFetches == reply.totalGenerated
            && 0 <= reply.failedFetches
  {
    var (r, files1) := FetchProtein.Fetch(files, FetchProtein.CachePath(digest(fold)), w.reference);
    LoopCounts(Progress(files1, [], [], [], 0), Candidates(generated.value), digest, fold, w);
  }

  /**
   * What one turn adds: a failed fetch adds only the fetch-failure text; a
   * successful one adds the candidate with its content, its score against the
   * original (0.0 when scoring raises) and its description.
   */
  lemma StepOutcome(p: Progress, i: nat, candidate: string, digest: string -> string, fold: string, w: World)
    ensures var (r, files) := FetchProtein.Fetch(p.files, FetchProtein.CachePath(digest(candidate)), w.service(i, candidate));
            var q := Step(p, i, candidate, digest, fold, w);
            q.files == files
            && (Content(r).None? ==>
                  q.pdbResults == p.pdbResults && q.tmScores == p.tmScores
                  && q.descriptions == p.descriptions + [FetchFailed])
            && (Content(r).Some? ==>
                  var s := TmAlign.ComputeTmScore(digest(candidate) + ".pdb", digest(fold) + ".pdb",
                                                  FetchProtein.CacheDir, Existing(files, w), w.run);
                  q.pdbResults == p.pdbResults + [(candidate, Content(r).value)]
                  && q.tmScores == p.tmScores + [if s.Ok? then s.value else NoScore]
                  && q.descriptions == p.descriptions + [Describe(files, FetchProtein.CachePath(digest(candidate)), w)])
  {
  }

  /** After a successful fetch the candidate's file is in the cache, so its description is the analysis of that file. */
  lemma DescribedFromStoredFile(p: Progress, i: nat, candidate: string, digest: string -> string, fold: string, w: World)
    requires Content(FetchProtein.Fetch(p.files, FetchProtein.CachePath(digest(candidate)), w.service(i, candidate)).0).Some?
    ensures var files := Step(p, i, candidate, digest, fold, w).files;
            var path := FetchProtein.CachePath(digest(candidate));
            path in files
            && var a := DsspAnalyse.AnalysisSummary(FileLines(files[path]), w.dssp(files[path]));
               Step(p, i, candidate, digest, fold, w).descriptions[|p.descriptions|]
                 == (if a.Ok? then a.value else NoDescription)
  {
  }

  /**
   * The lists are not index-aligned: when the first of two candidates fails to
   * fetch and the second succeeds, the only result and score belong to the
   * second candidate while its description sits at index 1.
   */
  lemma {:induction false} Misaligned(p: Progress, c0: string, c1: string, digest: string -> string, fold: string, w: World)
    requires p.pdbResults == [] && p.tmScores == [] && p.descriptions == []
    requires Content(FetchProtein.Fetch(p.files, FetchProtein.CachePath(digest(c0)), w.service(0, c0)).0).None?
    requires var files := FetchProtein.Fetch(p.files, FetchProtein.CachePath(digest(c0)), w.service(0, c0)).1;
             Content(FetchProtein.Fetch(files, FetchProtein.CachePath(digest(c1)), w.service(1, c1)).0).Some?
    ensures var q := Loop(p, [c0, c1], digest, fold, w);
            |q.pdbResults| == |q.tmScores| == 1 && |q.descriptions| == 2
            && q.pdbResults[0].0 == c1 && q.descriptions[0] == FetchFailed
  {
    var q0 := Step(p, 0, c0, digest, fold, w);
    assert [c0, c1][..1] == [c0];
    assert [c0][..0] == [];
    assert Loop(p, [c0], digest, fold, w) == q0;
    StepOutcome(p, 0, c0, digest, fold, w);
    StepOutcome(q0, 1, c1, digest, fold, w);
  }
  /**
   * Every turn asks the service afresh: a candidate generated twice that is not
   * cached and is refused on its first turn is fetched again on its second,
   * and a success there gives its only result.
   */
  lemma {:induction false} RetryAfterRefusal(p: Progress, c: string, body: string, digest: string -> string,
                                             fold: string, w: World)
    requires p.pdbResults == [] && p.tmScores == [] && p.descriptions == []
    requires FetchProtein.CachePath(digest(c)) !in p.files
    requires w.service(0, c).Reply? && w.service(0, c).status != 200
    requires w.service(1, c) == FetchProtein.Reply(200, body) && body != ""
    ensures var q := Loop(p, [c, c], digest, fold, w);
            q.pdbResults == [(c, body)] && |q.tmScores| == 1
            && |q.descriptions| == 2 && q.descriptions[0] == FetchFailed
  {
    var q0 := Step(p, 0, c, digest, fold, w);
    assert [c, c][..1] == [c];
    assert [c][..0] == [];
    assert Loop(p, [c], digest, fold, w) == q0;
    StepOutcome(p, 0, c, digest, fold, w);
    assert q0.files == p.files;
    StepOutcome(q0, 1, c, digest, fold, w);
  }
}
