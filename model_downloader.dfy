/**
 * The artifact resolver of `app/lib/model-downloader.ts`: where the model
 * weights are found (the development file, the per-instance cache in
 * `/tmp`, or a download into that cache), and the wrapper that turns every
 * failure into the empty path.
 *
 * The file system is an object holding the set of existing paths; the
 * environment variables, the outcome of the HTTP request and the outcome
 * of the file write are inputs.
 */
module ModelDownloader {
  import opened Wrappers

  /** The static descriptor of the one known artifact. */
  datatype ModelInfo = ModelInfo(name: string, size: string, url: string, path: string)

  const ModelFileName: string := "ggml-model-i2_s.gguf"

  const BitnetModel: ModelInfo := ModelInfo(
    "BitNet 1.58 2B GGUF",
    "1.18GB",
    "https://huggingface.co/Microsoft/BitNet-b1_58-2B-instruct-GGUF/resolve/main/ggml-model-i2_s.gguf",
    "/tmp/ggml-model-i2_s.gguf")

  /** The cache path the download writes to. */
  const TmpPath: string := BitnetModel.path

  const TmpDir: string := "/tmp"

  /** `join(process.cwd(), 'public', 'ggml-model-i2_s.gguf')` for a working directory without a trailing slash. */
  function LocalPath(cwd: string): string {
    cwd + "/public/" + ModelFileName
  }

  /** `process.env.NODE_ENV`, `process.env.FORCE_MODEL_DOWNLOAD` (None when unset) and `process.cwd()`. */
  datatype Env = Env(nodeEnv: Option<string>, forceModelDownload: Option<string>, cwd: string)

  predicate IsDevelopment(env: Env) {
    env.nodeEnv == Some("development")
  }

  predicate ForceDownload(env: Env) {
    env.forceModelDownload == Some("true")
  }

  /** The local file is looked for only in development and only without the force flag. */
  predicate UsesLocalFile(env: Env) {
    IsDevelopment(env) && !ForceDownload(env)
  }

  /** What `fetch` does: it rejects, or answers with a status; `bodyRead` says whether `arrayBuffer()` resolved. */
  datatype FetchOutcome = NetworkError | HttpResponse(status: int, bodyRead: bool)

  /** `response.ok`. */
  predicate IsOk(status: int) {
    200 <= status <= 299
  }

  /** The inputs one resolution sees besides the file system. */
  datatype Io = Io(env: Env, fetch: FetchOutcome, writeSucceeds: bool)

  /** Why a download failed; the source wraps each in one thrown Error. */
  datatype DownloadError = HttpStatusError(status: int) | FetchError | BodyReadError | WriteError

  /** A finished resolution: what `downloadModel` returns or throws, and the paths that exist afterwards. */
  datatype Resolution = Resolution(result: Result<string, DownloadError>, paths: set<string>)

  /** The resolution order of `downloadModel`, first success wins. */
  function Resolve(io: Io, paths: set<string>): (r: Resolution)
    ensures paths <= r.paths <= paths + {TmpDir, TmpPath}
    ensures r.result.Success? ==> r.result.value in r.paths
  {
    if UsesLocalFile(io.env) && LocalPath(io.env.cwd) in paths then
      Resolution(Success(LocalPath(io.env.cwd)), paths)
    else if TmpPath in paths then
      Resolution(Success(TmpPath), paths)
    else
      var created := paths + {TmpDir};
      match io.fetch
      case NetworkError => Resolution(Failure(FetchError), created)
      case HttpResponse(status, bodyRead) =>
        if !IsOk(status) then Resolution(Failure(HttpStatusError(status)), created)
        else if !bodyRead then Resolution(Failure(BodyReadError), created)
        else if !io.writeSucceeds then Resolution(Failure(WriteError), created)
        else Resolution(Success(TmpPath), created + {TmpPath})
  }

  /** What `getModelPath` returns: the resolved path, or '' for any failure. */
  function ModelPathFor(io: Io, paths: set<string>): (p: string)
    ensures p == "" <==> Resolve(io, paths).result.Failure?
    ensures p == LocalPath(io.env.cwd) || p == TmpPath || p == ""
  {
    match Resolve(io, paths).result
    case Success(path) => path
    case Failure(_) => ""
  }

  /** The file system of the process, as the set of paths that exist. */
  class FileSystem {
    var paths: set<string>

    constructor (existing: set<string>)
      ensures paths == existing
    {
      paths := existing;
    }

    /** `existsSync(path)`. */
    method ExistsSync(path: string) returns (b: bool)
      ensures b <==> path in paths
    {
      b := path in paths;
    }

    /** `mkdirSync(path, { recursive: true })`. */
    method MkdirSync(path: string)
      modifies this
      ensures paths == old(paths) + {path}
    {
      paths := paths + {path};
    }

    /** `writeFile(path, data)`; `succeeds` is the outcome of the write. */
    method WriteFile(path: string, succeeds: bool) returns (ok: bool)
      modifies this
      ensures ok == succeeds
      ensures paths == if succeeds then old(paths) + {path} else old(paths)
    {
      ok := succeeds;
      if succeeds {
        paths := paths + {path};
      }
    }
  }

  /** `downloadModel()`: returns the path or the error it throws, and leaves the file system as `Resolve` says. */
  method DownloadModel(fs: FileSystem, io: Io) returns (r: Result<string, DownloadError>)
    modifies fs
    ensures Resolution(r, fs.paths) == Resolve(io, old(fs.paths))
  {
    if UsesLocalFile(io.env) {
      var localPath := LocalPath(io.env.cwd);
      var found := fs.ExistsSync(localPath);
      if found {
        return Success(localPath);
      }
    }
    var tmpPath := BitnetModel.path;
    var cached := fs.ExistsSync(tmpPath);
    if cached {
      return Success(tmpPath);
    }
    fs.MkdirSync(TmpDir);
    match io.fetch {
      case NetworkError =>
        return Failure(FetchError);
      case HttpResponse(status, bodyRead) =>
        if !IsOk(status) {
          return Failure(HttpStatusError(status));
        }
        if !bodyRead {
          return Failure(BodyReadError);
        }
        var written := fs.WriteFile(tmpPath, io.writeSucceeds);
        if !written {
          return Failure(WriteError);
        }
        return Success(tmpPath);
    }
  }

  /** `getModelPath()`: never fails; a failed download yields ''. */
  method GetModelPath(fs: FileSystem, io: Io) returns (path: string)
    modifies fs
    ensures path == ModelPathFor(io, old(fs.paths))
    ensures fs.paths == Resolve(io, old(fs.paths)).paths
  {
    var r := DownloadModel(fs, io);
    match r {
      case Success(p) => path := p;
      case Failure(_) => path := "";
    }
  }

  /** `getModelInfo()`. */
  function GetModelInfo(): (info: ModelInfo)
    ensures info.path == TmpPath
    ensures |ModelFileName| <= |info.url| && info.url[|info.url| - |ModelFileName|..] == ModelFileName
  {
    BitnetModel
  }

  // Properties of the resolution order

  lemma LocalPathIsNotCached(cwd: string)
    ensures LocalPath(cwd) != TmpPath && LocalPath(cwd) != TmpDir && LocalPath(cwd) != ""
  {
    assert |LocalPath(cwd)| == |cwd| + 28;
  }

  /** In development without the force flag an existing local file is returned and nothing else happens, whatever the network would do. */
  lemma DevelopmentLocalFileWins(env: Env, paths: set<string>, fetch: FetchOutcome, write: bool)
    requires UsesLocalFile(env) && LocalPath(env.cwd) in paths
    ensures Resolve(Io(env, fetch, write), paths) == Resolution(Success(LocalPath(env.cwd)), paths)
  {
  }

  /** With the force flag the local file is never the answer, in development or not: resolution proceeds as in production. */
  lemma ForceSkipsLocalFile(env: Env, paths: set<string>, fetch: FetchOutcome, write: bool)
    requires ForceDownload(env)
    ensures Resolve(Io(env, fetch, write), paths) == Resolve(Io(env.(nodeEnv := Some("production")), fetch, write), paths)
    ensures Resolve(Io(env, fetch, write), paths).result != Success(LocalPath(env.cwd))
  {
    LocalPathIsNotCached(env.cwd);
  }

  /** Otherwise an existing cache file is returned with no fetch and no write. */
  lemma CachedFileWins(io: Io, paths: set<string>)
    requires !(UsesLocalFile(io.env) && LocalPath(io.env.cwd) in paths)
    requires TmpPath in paths
    ensures Resolve(io, paths) == Resolution(Success(TmpPath), paths)
  {
  }

  /** A failure happens only on the download path and leaves `/tmp` created but no cache file. */
  lemma FailureLeavesNoCacheFile(io: Io, paths: set<string>)
    requires Resolve(io, paths).result.Failure?
    ensures TmpPath !in paths && TmpPath !in Resolve(io, paths).paths
    ensures Resolve(io, paths).paths == paths + {TmpDir}
  {
  }

  /** The download fails exactly on a rejected fetch, a non-OK status, an unread body or a failed write. */
  lemma DownloadFailureCases(io: Io, paths: set<string>)
    requires !(UsesLocalFile(io.env) && LocalPath(io.env.cwd) in paths) && TmpPath !in paths
    ensures Resolve(io, paths).result.Failure? <==>
      (io.fetch.NetworkError? || !IsOk(io.fetch.status) || !io.fetch.bodyRead || !io.writeSucceeds)
    ensures Resolve(io, paths).result.Success? ==>
      Resolve(io, paths) == Resolution(Success(TmpPath), paths + {TmpDir, TmpPath})
  {
  }

  /**
   * A successful resolution is stable: the next call in the same environment
   * returns the same path, whatever the network and the disk would do, and
   * changes no path. After a download that is the cache-hit branch.
   */
  lemma SuccessIsStable(env: Env, paths: set<string>, f1: FetchOutcome, w1: bool, f2: FetchOutcome, w2: bool)
    requires Resolve(Io(env, f1, w1), paths).result.Success?
    ensures var first := Resolve(Io(env, f1, w1), paths);
      Resolve(Io(env, f2, w2), first.paths) == first
  {
    LocalPathIsNotCached(env.cwd);
  }

  /** `getModelPath` yields '' exactly when `downloadModel` would throw; otherwise the local path or the cache path. */
  lemma ModelPathEmptyOnlyOnFailure(io: Io, paths: set<string>)
    ensures ModelPathFor(io, paths) == "" <==>
      (&& !(UsesLocalFile(io.env) && LocalPath(io.env.cwd) in paths)
       && TmpPath !in paths
       && (io.fetch.NetworkError? || !IsOk(io.fetch.status) || !io.fetch.bodyRead || !io.writeSucceeds))
  {
    LocalPathIsNotCached(io.env.cwd);
  }
}
