/**
 The asynchronous history collector: one collector per run, created from the
 branch the cache file's extension names, writing the history as CSV and a
 version note beside it, and skipping the whole fetch while the CSV file is
 younger than twelve hours.
 */
module Collector {
  import opened Results
  import opened Files
  import Text
  import opened Draws

  /** How long a saved history counts as fresh, in seconds. */
  const FreshFor: int := 43200

  /** The creation time of every existing file, in whole seconds. */
  type Stamps = map<FilePath, int>

  /** `output.exists() and time.time() - output.stat().st_ctime < 43200`. */
  predicate Fresh(fs: FileSystem, stamps: Stamps, now: int, output: FilePath)
    requires output in fs ==> output in stamps
  {
    output in fs && now - stamps[output] < FreshFor
  }

  /** The version note's name beside the CSV file: `f"{latest_term}.{branch}"`. */
  function SidecarPath(c: History, sp: FilePath): (p: FilePath)
    ensures p.dir == sp.dir
  {
    FilePath(sp.dir, c.latestTerm + "." + Render(c.branch))
  }

  /** What the version note holds: `{"version": latest_term}`. */
  function VersionNote(latest: string): Json {
    JObject(map["version" := JString(latest)])
  }

  /**
   `save_history(sp)`: the CSV file is replaced by the header and every
   row, then the version note is written beside it.
   */
  function SaveHistory(c: History, fs: FileSystem, sp: FilePath): (after: FileSystem)
    ensures after.Keys == fs.Keys + {sp, SidecarPath(c, sp)}
    ensures after[SidecarPath(c, sp)] == Document(VersionNote(c.latestTerm))
    ensures sp != SidecarPath(c, sp) ==> after[sp] == Records([Header(c.game)] + c.container)
    ensures forall p :: p in fs && p != sp && p != SidecarPath(c, sp) ==> after[p] == fs[p]
  {
    fs[sp := Records([Header(c.game)] + c.container)][SidecarPath(c, sp) := Document(VersionNote(c.latestTerm))]
  }

  /** The saved CSV holds the header first and then the rows in the collector's order. */
  lemma SavedRows(c: History, fs: FileSystem, sp: FilePath, i: nat)
    requires sp != SidecarPath(c, sp) && i < |c.container|
    ensures var rows := SaveHistory(c, fs, sp)[sp].rows;
            |rows| == |c.container| + 1 && rows[0] == Header(c.game) && |rows[0]| == 8
            && rows[i + 1] == c.container[i]
  {
    HeaderLayout(c.game);
  }

  /** The branch named by a cache file's extension: `ext.replace(".", "")`. */
  function BranchOf(ext: string): (branch: string)
    ensures '.' !in branch
  {
    Text.RemoveAllDrops(ext, '.');
    Text.RemoveAll(ext, '.')
  }

  /** What a run of `trace_history` leaves: the files afterwards, whether it raised, the requests sent. */
  datatype Trace = Trace(fs: FileSystem, result: Result<()>, sent: seq<Request>)

  /**
   The part of `trace_history` after the freshness test: a collector for
   `branch` fetches the whole history from that branch's site and saves it
   to `output`. An unknown branch exits with status 1, and a failed fetch
   leaves the files as they were.
   */
  function Collect(fs: FileSystem, output: FilePath, branch: string,
                   termReply: Result<Page>, tableReply: Result<Page>): (t: Trace)
    ensures t.result.Err? ==> t.fs == fs
    ensures t.result.Ok? ==> output in t.fs
    ensures Select(Named(branch)).None? ==> t == Trace(fs, Err(SystemExit(1)), [])
    ensures Select(Named(branch)).Some? ==>
              |t.sent| >= 1 && t.sent[0] == Request(TermUrl(SiteBase(Named(branch))), [])
  {
    match Create(Named(branch))
    case Err(e) => Trace(fs, Err(e), [])
    case Ok(created) =>
      var s := GetHistory(created, SiteBase(Named(branch)), termReply, tableReply);
      match s.result
      case Err(e) => Trace(fs, Err(e), s.sent)
      case Ok(_) => Trace(SaveHistory(s.state, fs, output), Ok(()), s.sent)
  }

  /**
   `trace_history(output, ext)`: nothing at all while `output` is fresh;
   otherwise the collection for the branch the extension names.
   */
  function TraceHistory(fs: FileSystem, stamps: Stamps, now: int, output: FilePath, ext: string,
                        termReply: Result<Page>, tableReply: Result<Page>): (t: Trace)
    requires output in fs ==> output in stamps
    ensures Fresh(fs, stamps, now, output) ==> t == Trace(fs, Ok(()), [])
    ensures !Fresh(fs, stamps, now, output) ==> t == Collect(fs, output, BranchOf(ext), termReply, tableReply)
  {
    if Fresh(fs, stamps, now, output) then Trace(fs, Ok(()), [])
    else Collect(fs, output, BranchOf(ext), termReply, tableReply)
  }

  /**
   A successful trace of a stale or missing file stores the table it read:
   the header, then one row per table row, each the first eight cells
   stripped; the note beside it records the term read from the site.
   */
  lemma TraceStoresTable(fs: FileSystem, stamps: Stamps, now: int, output: FilePath, ext: string,
                         termReply: Result<Page>, tableReply: Result<Page>)
    requires output in fs ==> output in stamps
    requires !Fresh(fs, stamps, now, output)
    requires TraceHistory(fs, stamps, now, output, ext, termReply, tableReply).result.Ok?
    ensures termReply.Ok? && LatestTermOf(termReply.value).Ok?
    ensures tableReply.Ok? && tableReply.value.table.Some?
    ensures var latest := LatestTermOf(termReply.value).value;
            var rows := ParseTable(Ssq, tableReply.value).value;
            var c := History(Named(BranchOf(ext)), Select(Named(BranchOf(ext))).value, latest, rows);
            var base := SiteBase(Named(BranchOf(ext)));
            && TraceHistory(fs, stamps, now, output, ext, termReply, tableReply)
               == Trace(SaveHistory(c, fs, output), Ok(()), [Request(TermUrl(base), []), TableRequest(base, latest)])
  {
    var branch := Named(BranchOf(ext));
    var created := Create(branch).value;
    var s := GetHistory(created, SiteBase(branch), termReply, tableReply);
    ShapeRowsAgree(tableReply.value.table.value);
  }

  /** The extension `.ssq` fetches the double-colour-ball history from `https://datachart.500.com/ssq`. */
  lemma SsqExtension(fs: FileSystem, stamps: Stamps, now: int, output: FilePath,
                     termReply: Result<Page>, tableReply: Result<Page>)
    requires output in fs ==> output in stamps
    requires !Fresh(fs, stamps, now, output)
    ensures var t := TraceHistory(fs, stamps, now, output, ".ssq", termReply, tableReply);
            |t.sent| >= 1 && t.sent[0] == Request(TermUrl(SiteBase(Named("ssq"))), [])
  {
    assert ".ssq" == "." + "ssq";
    ExtensionBranch("ssq");
  }

  /** A dotted extension names the branch after its dot: `".ssq"` gives `"ssq"`. */
  lemma ExtensionBranch(name: string)
    requires '.' !in name
    ensures BranchOf("." + name) == name
  {
    Text.RemoveAllCons('.', name, '.');
    Text.RemoveAllKeepsPrefix(name, [], '.');
    assert name + [] == name;
  }
}
