/**
 The front end of the older package: its history menu checks whether the
 saved CSV file needs refetching, then reads the term pair from the cache
 directory's listing. The collector it hands the fetch to is not part of
 this model, so a refetch is returned as a plan: which branch to collect
 and where to save it.
 */
module LegacyUi {
  import opened Results
  import opened Files
  import Collector
  import Ui

  /** The refetch test of `trace_ssq_history` and `trace_dlt_history` as written: `ctime - now > 43200`. */
  predicate RefetchAsWritten(present: bool, ctime: int, now: int) {
    !present || ctime - now > Collector.FreshFor
  }

  /**
   As written, an existing file is refetched only when its creation time
   lies more than twelve hours in the future; a file made at any time up
   to then is kept for ever.
   */
  lemma AsWrittenKeepsPastFiles(ctime: int, now: int)
    requires ctime <= now + Collector.FreshFor
    ensures !RefetchAsWritten(true, ctime, now)
  {
  }

  /** A file created a day ago is kept as written, though the newer collector counts it as stale. */
  lemma DayOldFileKeptAsWritten(output: FilePath, content: Content)
    ensures !RefetchAsWritten(true, 0, 86400)
    ensures !Collector.Fresh(map[output := content], map[output := 0], 86400, output)
  {
  }

  /** The intended test: the file is missing or older than twelve hours. */
  predicate Refetch(present: bool, ctime: int, now: int) {
    !present || now - ctime > Collector.FreshFor
  }

  /** A file more than twelve hours old is refetched by the intended test and kept by the written one. */
  lemma {:induction false} StaleFileRefetched(ctime: int, now: int)
    requires now - ctime > Collector.FreshFor
    ensures Refetch(true, ctime, now) && !RefetchAsWritten(true, ctime, now)
  {
  }

  /** The creation time of `output`, or 0 when it does not exist. */
  function CreatedAt(fs: FileSystem, stamps: Collector.Stamps, output: FilePath): int
    requires output in fs ==> output in stamps
  {
    if output in fs then stamps[output] else 0
  }

  /**
   The intended test agrees with the newer collector's freshness test,
   except for a file exactly twelve hours old, which the newer one
   refetches and this one keeps.
   */
  lemma RefetchAgreesWithFreshness(fs: FileSystem, stamps: Collector.Stamps, now: int, output: FilePath)
    requires output in fs ==> output in stamps
    ensures output in fs && now - stamps[output] == Collector.FreshFor ==>
              !Refetch(true, stamps[output], now) && !Collector.Fresh(fs, stamps, now, output)
    ensures !(output in fs && now - stamps[output] == Collector.FreshFor) ==>
              (Refetch(output in fs, CreatedAt(fs, stamps, output), now) <==> !Collector.Fresh(fs, stamps, now, output))
  {
  }

  /** What a trace asks of the collector: nothing, or collecting a branch into a file. */
  datatype Plan = Keep | Fetch(branch: string, output: FilePath)

  /** The trace with the intended refetch test: what `trace_ssq_history` and `trace_dlt_history` evidently mean. */
  function TraceBranch(branch: string, fs: FileSystem, stamps: Collector.Stamps, now: int, output: FilePath): (p: Plan)
    requires output in fs ==> output in stamps
    ensures p.Fetch? <==> Refetch(output in fs, CreatedAt(fs, stamps, output), now)
    ensures p.Fetch? ==> p == Fetch(branch, output)
  {
    if Refetch(output in fs, CreatedAt(fs, stamps, output), now) then Fetch(branch, output) else Keep
  }

  /** `trace_ssq_history(output)` and `trace_dlt_history(output)` as written, with the reversed test. */
  function TraceBranchAsWritten(branch: string, fs: FileSystem, stamps: Collector.Stamps, now: int, output: FilePath): (p: Plan)
    requires output in fs ==> output in stamps
    ensures p.Fetch? <==> RefetchAsWritten(output in fs, CreatedAt(fs, stamps, output), now)
    ensures p.Fetch? ==> p == Fetch(branch, output)
  {
    if RefetchAsWritten(output in fs, CreatedAt(fs, stamps, output), now) then Fetch(branch, output) else Keep
  }

  function TraceSsqHistory(fs: FileSystem, stamps: Collector.Stamps, now: int, output: FilePath): Plan
    requires output in fs ==> output in stamps
  {
    TraceBranchAsWritten("ssq", fs, stamps, now, output)
  }

  function TraceDltHistory(fs: FileSystem, stamps: Collector.Stamps, now: int, output: FilePath): Plan
    requires output in fs ==> output in stamps
  {
    TraceBranchAsWritten("dlt", fs, stamps, now, output)
  }

  /** `Home.root`, `Home.cache_dir`, and the two CSV files, kept in the cache directory itself. */
  function HomeRoot(home: seq<string>): seq<string> {
    home + ["Documents", "Hysteria Ticket"]
  }

  function CacheDir(home: seq<string>): seq<string> {
    HomeRoot(home) + ["cache"]
  }

  function PathSsq(home: seq<string>): FilePath {
    FilePath(CacheDir(home), "双色球.csv")
  }

  function PathDlt(home: seq<string>): FilePath {
    FilePath(CacheDir(home), "大乐透.csv")
  }

  /** One entry of `path2solution`: which trace runs (by its branch) and the extension of the term notes. */
  datatype Solution = Solution(branch: string, ext: string)

  /** `path2solution[output]`; any other path is no key. */
  function SolutionOf(home: seq<string>, output: FilePath): (r: Result<Solution>)
    ensures output == PathSsq(home) ==> r == Ok(Solution("ssq", ".ssq"))
    ensures output == PathDlt(home) ==> r == Ok(Solution("dlt", ".dlt"))
    ensures output != PathSsq(home) && output != PathDlt(home) ==> r == Err(KeyError)
  {
    assert PathSsq(home).name[0] != PathDlt(home).name[0];
    if output == PathSsq(home) then Ok(Solution("ssq", ".ssq"))
    else if output == PathDlt(home) then Ok(Solution("dlt", ".dlt"))
    else Err(KeyError)
  }

  /**
   Each legacy solution collects the branch its extension names, so both
   front ends fetch the same game for the same extension.
   */
  lemma {:induction false} SolutionBranchMatchesExtension(home: seq<string>, output: FilePath)
    requires SolutionOf(home, output).Ok?
    ensures var s := SolutionOf(home, output).value;
            s.branch == Collector.BranchOf(s.ext) && s.ext == "." + s.branch
  {
    var s := SolutionOf(home, output).value;
    assert s.ext == "." + s.branch;
    assert '.' !in s.branch;
    Collector.ExtensionBranch(s.branch);
  }

  /** What the menu produces: the collection plan and the term pair for the prompt. */
  datatype Menu = Menu(plan: Plan, terms: (int, int))

  /**
   `menu_get_history(output)`: look up the solution, run its trace as
   written, then read the term pair from the listing of the output's own
   directory. `listing` is that directory's contents once the plan has been
   carried out.
   */
  function MenuGetHistory(home: seq<string>, output: FilePath, fs: FileSystem, stamps: Collector.Stamps,
                          now: int, listing: seq<string>): (r: Result<Menu>)
    requires output in fs ==> output in stamps
    ensures SolutionOf(home, output).Err? ==> r == Err(KeyError)
    ensures SolutionOf(home, output).Ok? ==>
              var s := SolutionOf(home, output).value;
              && (r.Ok? <==> Ui.TermFormat(listing, s.ext).Ok?)
              && (r.Ok? ==> r.value == Menu(TraceBranchAsWritten(s.branch, fs, stamps, now, output), Ui.TermFormat(listing, s.ext).value))
    ensures r.Err? ==> r.error in {KeyError, ValueError}
  {
    var s :- SolutionOf(home, output);
    var plan := if s.branch == "ssq" then TraceSsqHistory(fs, stamps, now, output)
                else TraceDltHistory(fs, stamps, now, output);
    var terms :- Ui.TermFormat(listing, s.ext);
    Ok(Menu(plan, terms))
  }

  /** Choosing the double-colour-ball file plans a `ssq` collection into that file exactly when the written test fires. */
  lemma SsqMenuPlansSsq(home: seq<string>, fs: FileSystem, stamps: Collector.Stamps, now: int, listing: seq<string>)
    requires PathSsq(home) in fs ==> PathSsq(home) in stamps
    requires MenuGetHistory(home, PathSsq(home), fs, stamps, now, listing).Ok?
    ensures var m := MenuGetHistory(home, PathSsq(home), fs, stamps, now, listing).value;
            m.plan.Fetch? <==> RefetchAsWritten(PathSsq(home) in fs, CreatedAt(fs, stamps, PathSsq(home)), now)
    ensures var m := MenuGetHistory(home, PathSsq(home), fs, stamps, now, listing).value;
            m.plan.Fetch? ==> m.plan == Fetch("ssq", PathSsq(home))
  {
  }

  /**
   The menu as written keeps an existing history file whose creation time
   is not more than twelve hours in the future, whichever game it is for.
   */
  lemma MenuKeepsPastFiles(home: seq<string>, output: FilePath, fs: FileSystem, stamps: Collector.Stamps,
                           now: int, listing: seq<string>)
    requires output in fs && output in stamps && stamps[output] <= now + Collector.FreshFor
    requires MenuGetHistory(home, output, fs, stamps, now, listing).Ok?
    ensures MenuGetHistory(home, output, fs, stamps, now, listing).value.plan == Keep
  {
  }

  /**
   The double-colour-ball history created a day ago, with an empty cache
   listing: the menu as written keeps it and offers terms (0, 1), while the
   intended trace would collect it again.
   */
  lemma DayOldHistoryMenu(home: seq<string>, content: Content)
    ensures var fs, stamps := map[PathSsq(home) := content], map[PathSsq(home) := 0];
            && MenuGetHistory(home, PathSsq(home), fs, stamps, 86400, []) == Ok(Menu(Keep, (0, 1)))
            && TraceBranch("ssq", fs, stamps, 86400, PathSsq(home)) == Fetch("ssq", PathSsq(home))
  {
    var fs, stamps := map[PathSsq(home) := content], map[PathSsq(home) := 0];
    assert Ui.TermFormat([], ".ssq") == Ok((0, 1));
    assert CreatedAt(fs, stamps, PathSsq(home)) == 0;
  }
}
