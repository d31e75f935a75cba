/**
 * The content-addressed structure cache in front of the structure-prediction
 * service. A fold sequence is keyed by the hex digest of its bytes; a cached
 * file is read back, otherwise the service is asked and a successful answer is
 * written under the key.
 */
module FetchProtein {
  import opened Wrappers
  import opened Text

  /** The directory the cache lives in. */
  const CacheDir: string := "pdb_data"

  /** The cache file of the sequence whose hex digest is `key`: `pdb_data/<key>.pdb`. */
  function CachePath(key: string): string {
    JoinPath(CacheDir, key + ".pdb")
  }

  /** The service's answer to the POST, or the exception the client raises instead. */
  datatype Response = Transport(reason: string) | Reply(status: int, body: string)

  /** The `(success, content)` pair `fetch_pdb` returns. */
  datatype Fetched = Fetched(success: bool, content: Option<string>)

  /**
   * One call of `fetch_pdb` on the cache `files` (path to stored text) for the
   * cache file `path`, with `response` what the service would answer. The result
   * is the returned pair, or the client's exception, and the cache afterwards.
   */
  function Fetch(files: map<string, string>, path: string, response: Response)
    : (Result<Fetched, string>, map<string, string>)
  {
    if path in files then (Ok(Fetched(true, Some(TranslateNewlines(files[path])))), files)
    else match response
      case Transport(reason) => (Err(reason), files)
      case Reply(status, body) =>
        if status == 200 then (Ok(Fetched(true, Some(body))), files[path := body])
        else (Ok(Fetched(false, None)), files)
  }

  /** The files under `pdb_data` that the endpoint reads and writes. */
  class StructureCache {
    /** SHA-256 of the sequence's UTF-8 bytes, as lower-case hex. */
    const digest: string -> string
    /** The stored text of every cache file, by path. */
    var files: map<string, string>

    constructor (digest: string -> string, files: map<string, string>)
      ensures this.digest == digest && this.files == files
    {
      this.digest := digest;
      this.files := files;
    }

    /** `file_path` for `foldSequence`. */
    function PathFor(foldSequence: string): string {
      CachePath(digest(foldSequence))
    }

    /** `fetch_pdb(foldSequence)`; `response` is consulted only on a miss. */
    method FetchPdb(foldSequence: string, response: Response) returns (r: Result<Fetched, string>)
      modifies this
      ensures (r, files) == Fetch(old(files), PathFor(foldSequence), response)
    {
      var path := PathFor(foldSequence);
      if path in files {
        r := Ok(Fetched(true, Some(TranslateNewlines(files[path]))));
        return;
      }
      match response {
        case Transport(reason) =>
          r := Err(reason);
        case Reply(status, body) =>
          if status == 200 {
            files := files[path := body];
            r := Ok(Fetched(true, Some(body)));
          } else {
            r := Ok(Fetched(false, None));
          }
      }
    }
  }

  // ---------------------------------------------------------------------------
  // Properties
  // ---------------------------------------------------------------------------

  /** A hit returns the stored text as a text-mode read gives it, whatever the service would say, and writes nothing. */
  lemma HitAsksNothing(files: map<string, string>, path: string, response: Response, response': Response)
    requires path in files
    ensures Fetch(files, path, response) == Fetch(files, path, response')
    ensures Fetch(files, path, response) == (Ok(Fetched(true, Some(TranslateNewlines(files[path])))), files)
  {
  }

  /** On a miss, the call succeeds exactly when the service answers 200, and then the answer is stored. */
  lemma MissOutcomes(files: map<string, string>, path: string, response: Response)
    requires path !in files
    ensures var (r, files') := Fetch(files, path, response);
            (r.Ok? && r.value.success <==> response.Reply? && response.status == 200)
            && (response.Reply? && response.status == 200 ==>
                  r == Ok(Fetched(true, Some(response.body))) && files' == files[path := response.body])
            && (response.Reply? && response.status != 200 ==> r == Ok(Fetched(false, None)) && files' == files)
            && (response.Transport? ==> r == Err(response.reason) && files' == files)
  {
  }

  /** Only the entry for this key is ever written; every other entry stays as it was. */
  lemma {:induction false} OnlyThisKey(files: map<string, string>, path: string, response: Response)
    ensures var files' := Fetch(files, path, response).1;
            files'.Keys <= files.Keys + {path}
            && (forall p :: p in files && p != path ==> p in files' && files'[p] == files[p])
            && (path in files ==> files' == files)
  {
  }

  /**
   * After a call that returns content, every later call for the same sequence
   * is a hit that returns the same content and writes nothing; it is the
   * content the first call returned unless that held a carriage return.
   */
  lemma {:induction false} Idempotent(files: map<string, string>, path: string,
                                      response: Response, response': Response)
    requires Fetch(files, path, response).0.Ok?
    requires Fetch(files, path, response).0.value.success
    ensures var (r1, files1) := Fetch(files, path, response);
            var (r2, files2) := Fetch(files1, path, response');
            path in files1 && files2 == files1
            && r2.Ok? && r2.value.success && r2.value.content.Some?
            && r2.value.content == Some(TranslateNewlines(r1.value.content.value))
            && ('\r' !in r1.value.content.value ==> r2 == r1)
  {
    var (r1, files1) := Fetch(files, path, response);
    if path in files {
      var t := TranslateNewlines(files[path]);
      assert r1.value.content == Some(t);
      assert TranslateNewlines(t) == t;
    } else {
      assert files1[path] == response.body;
    }
  }

  /** Distinct digests name distinct cache files. */
  lemma CachePathInjective(key: string, key': string)
    requires CachePath(key) == CachePath(key')
    ensures key == key'
  {
    var n, n' := key + ".pdb", key' + ".pdb";
    var p := CachePath(key);
    JoinPathShape(CacheDir, n);
    JoinPathShape(CacheDir, n');
    assert |n| == |n'| && n == p[|p| - |n|..] == n';
    assert key == n[..|key|] && key' == n'[..|key'|];
  }
}
