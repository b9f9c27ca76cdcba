/**
 The synchronous history collector of the older package: the same dispatch,
 memoisation and row shaping as the asynchronous one, but each branch saves
 to a fixed file under the project's `database` directory, the requests go
 to absolute URLs, and no version note is written.
 */
module SyncCollector {
  import opened Results
  import opened Files
  import opened Draws
  import Collector

  /** The project's database directory under `root` (the directory of the settings file). */
  function Database(root: seq<string>): seq<string> {
    root + ["database"]
  }

  /** `project.path_ssq` and `project.path_dlt`. */
  function ProjectPath(root: seq<string>, g: Game): (p: FilePath)
    ensures p.dir == Database(root)
  {
    match g
    case Ssq => FilePath(Database(root), "ssq.csv")
    case Dlt => FilePath(Database(root), "dlt.csv")
  }

  /** The two games never share a file. */
  lemma ProjectPathsDiffer(root: seq<string>)
    ensures ProjectPath(root, Ssq) != ProjectPath(root, Dlt)
  {
    assert ProjectPath(root, Ssq).name[0] == 's' != 'd' == ProjectPath(root, Dlt).name[0];
  }

  /** A sync collector: the shared state plus the path it saves to (`_sp`). */
  datatype SyncCollector = SyncCollector(history: History, sp: FilePath)

  /**
   `Collector.from_branch(branch, _sp=output)`: whatever `output` is passed,
   `__post_init__` overwrites `_sp` with the project path of the game; an
   unknown branch exits with status 1.
   */
  function Create(b: BranchArg, root: seq<string>, output: Option<FilePath>): (r: Result<SyncCollector>)
    ensures r.Ok? <==> Select(b).Some?
    ensures r.Err? ==> r.error == SystemExit(1)
    ensures r.Ok? ==> Draws.Create(b) == Ok(r.value.history)
    ensures r.Ok? ==> r.value.sp == ProjectPath(root, r.value.history.game)
  {
    match Draws.Create(b)
    case Err(e) => Err(e)
    case Ok(h) => Ok(SyncCollector(h, ProjectPath(root, h.game)))
  }

  /** The `url` property: the history table's absolute address. */
  function Url(c: SyncCollector): string {
    "https://datachart.500.com/" + Render(c.history.branch) + "/history/newinc/history.php"
  }

  /** The `api` address of `get_latest_term`. */
  function Api(c: SyncCollector): string {
    "https://datachart.500.com/" + Render(c.history.branch) + "/history/history.shtml"
  }

  /** Both absolute addresses are the site base of the branch followed by the page's path. */
  lemma AddressesOfBranch(c: SyncCollector)
    ensures Url(c) == TableUrl(SiteBase(c.history.branch))
    ensures Api(c) == TermUrl(SiteBase(c.history.branch))
  {
    var b := Render(c.history.branch);
    assert Url(c) == "https://datachart.500.com/" + b + "/history/newinc/history.php";
    assert ("https://datachart.500.com/" + b) + "/history/newinc/history.php"
        == "https://datachart.500.com/" + b + "/history/newinc/history.php";
  }

  /**
   `get_history`: a non-empty container is returned without a request;
   otherwise the term (memoised) is fetched from `api`, the table from
   `url` with `start=1, end=term`, and the parsed rows replace the container.
   */
  function GetHistory(c: SyncCollector, termReply: Result<Page>, tableReply: Result<Page>)
    : (r: (SyncCollector, Result<Option<seq<seq<string>>>>, seq<Request>))
    ensures r.0.sp == c.sp
    ensures |c.history.container| > 0 ==> r == (c, Ok(Some(c.history.container)), [])
    ensures |c.history.container| == 0 && c.history.latestTerm == "" ==>
              |r.2| >= 1 && r.2[0] == Request(Api(c), [])
    ensures |c.history.container| == 0 && r.1.Ok? ==>
              && r.1 == Ok(None)
              && |r.2| >= 1
              && r.2[|r.2| - 1] == Request(Url(c), [("start", "1"), ("end", r.0.history.latestTerm)])
  {
    AddressesOfBranch(c);
    var s := Draws.GetHistory(c.history, SiteBase(c.history.branch), termReply, tableReply);
    (c.(history := s.state), s.result, s.sent)
  }

  /** `save_history()`: the collector's own path is replaced by the header and every row; no other file changes. */
  function SaveHistory(c: SyncCollector, fs: FileSystem): (after: FileSystem)
    ensures after.Keys == fs.Keys + {c.sp}
    ensures after[c.sp] == Records([Header(c.history.game)] + c.history.container)
    ensures forall p :: p in fs && p != c.sp ==> after[p] == fs[p]
  {
    fs[c.sp := Records([Header(c.history.game)] + c.history.container)]
  }

  /** `_trace_history(branch=..., output=...)`: create, fetch, save. */
  function TraceHistory(b: BranchArg, root: seq<string>, output: Option<FilePath>, fs: FileSystem,
                        termReply: Result<Page>, tableReply: Result<Page>): (t: Collector.Trace)
    ensures t.result.Err? ==> t.fs == fs
    ensures Select(b).None? ==> t == Collector.Trace(fs, Err(SystemExit(1)), [])
    ensures t.result.Ok? ==> t.fs.Keys == fs.Keys + {ProjectPath(root, Select(b).value)}
  {
    match Create(b, root, output)
    case Err(e) => Collector.Trace(fs, Err(e), [])
    case Ok(c) =>
      var r := GetHistory(c, termReply, tableReply);
      match r.1
      case Err(e) => Collector.Trace(fs, Err(e), r.2)
      case Ok(_) => Collector.Trace(SaveHistory(r.0, fs), Ok(()), r.2)
  }

  /** The `output` handed to `_trace_history` has no effect: the file written is always the project path. */
  lemma OutputIgnored(b: BranchArg, root: seq<string>, o1: Option<FilePath>, o2: Option<FilePath>, fs: FileSystem,
                      termReply: Result<Page>, tableReply: Result<Page>)
    ensures TraceHistory(b, root, o1, fs, termReply, tableReply) == TraceHistory(b, root, o2, fs, termReply, tableReply)
  {
  }

  /** `trace_ssq_history()` and `trace_dlt_history()`. */
  function TraceSsqHistory(root: seq<string>, fs: FileSystem, termReply: Result<Page>, tableReply: Result<Page>)
    : Collector.Trace
  {
    TraceHistory(Named("ssq"), root, None, fs, termReply, tableReply)
  }

  function TraceDltHistory(root: seq<string>, fs: FileSystem, termReply: Result<Page>, tableReply: Result<Page>)
    : Collector.Trace
  {
    TraceHistory(Named("dlt"), root, None, fs, termReply, tableReply)
  }

  /**
   The two collectors agree on everything but the version note: for the
   same branch and the same replies they send the same requests, fail the
   same way, and the sync collector's CSV file at its project path holds
   what the async one writes to `output`.
   */
  lemma AgreesWithAsync(branch: string, root: seq<string>, output: FilePath, fs: FileSystem,
                        termReply: Result<Page>, tableReply: Result<Page>)
    requires Select(Named(branch)).Some?
    ensures var sync := TraceHistory(Named(branch), root, None, fs, termReply, tableReply);
            var async := Collector.Collect(fs, output, branch, termReply, tableReply);
            var fetched := Draws.GetHistory(Draws.Create(Named(branch)).value, SiteBase(Named(branch)), termReply, tableReply);
            && sync.sent == async.sent
            && sync.result == async.result
            && (sync.result.Ok? && output != Collector.SidecarPath(fetched.state, output) ==>
                  sync.fs[ProjectPath(root, Select(Named(branch)).value)] == async.fs[output])
  {
  }

  /** `trace_ssq_history` writes the double-colour-ball history to `database/ssq.csv`, with the eight-column header first. */
  lemma SsqSavesToProjectPath(root: seq<string>, fs: FileSystem, termReply: Result<Page>, tableReply: Result<Page>)
    requires TraceSsqHistory(root, fs, termReply, tableReply).result.Ok?
    ensures var after := TraceSsqHistory(root, fs, termReply, tableReply).fs;
            && FilePath(Database(root), "ssq.csv") in after
            && after[FilePath(Database(root), "ssq.csv")].Records?
            && after[FilePath(Database(root), "ssq.csv")].rows[0] == Header(Ssq)
  {
  }
}
