/**
 The helpers of the chat-panel front end: the numbered menu entries, the
 latest term read back from the version notes in a directory listing, and
 the history menu's pipeline (collect the history, read the term, and for
 the double-colour ball only, load the kill numbers of the next term).
 */
module Ui {
  import opened Results
  import opened Files
  import Text
  import Numerals
  import Draws
  import Collector
  import Fns

  /** `setup_ordered_list`: `"{i + 1}. {v}"` for each entry, in order. */
  function OrderedList(order: seq<string>): (r: seq<string>)
    ensures |r| == |order|
  {
    seq(|order|, i requires 0 <= i < |order| => Numerals.NatToString(i + 1) + ". " + order[i])
  }

  /**
   Text made of digits and then a separator that does not start with a
   digit: the text before the first separator is the digits.
   */
  lemma {:induction false} DigitsBeforeSeparator(digits: string, sep: string, rest: string)
    requires Numerals.AllDigits(digits)
    requires sep != [] && !Numerals.IsDigit(sep[0])
    ensures Text.BeforeFirst(digits + sep + rest, sep) == digits
  {
    var s := digits + sep + rest;
    var r := Text.BeforeFirst(s, sep);
    assert Text.OccursAt(s, sep, |digits|) by {
      assert s[|digits|..|digits| + |sep|] == sep;
    }
    assert |r| <= |digits|;
    assert r == s[..|r|] == digits;
  }

  /** Each menu entry starts with its position, counted from 1, and ends with the entry itself. */
  lemma OrderedListNumbering(order: seq<string>, i: nat)
    requires i < |order|
    ensures var entry := OrderedList(order)[i];
            && Numerals.ParseInt(Text.BeforeFirst(entry, ". ")) == Ok(i + 1)
            && entry[|Numerals.NatToString(i + 1)| + 2..] == order[i]
  {
    var digits := Numerals.NatToString(i + 1);
    assert OrderedList(order)[i] == digits + ". " + order[i];
    DigitsBeforeSeparator(digits, ". ", order[i]);
    Numerals.NatToStringParses(i + 1);
  }

  /** `int(fn.split(ext)[0])`; an empty `ext` is not a valid separator. */
  function TermOfName(fn: string, ext: string): (r: Result<int>)
    ensures r.Err? ==> r.error == ValueError
  {
    if ext == [] then Err(ValueError) else Numerals.ParseInt(Text.BeforeFirst(fn, ext))
  }

  /**
   The loop of `get_term_format` over a directory listing: every name that
   ends with `ext` replaces the term, so the last such name wins, and the
   first such name that is not a number fails; 0 when no name matches.
   */
  function LatestTerm(names: seq<string>, ext: string): (r: Result<int>)
    ensures r.Err? ==> r.error == ValueError
    ensures (forall k :: 0 <= k < |names| ==> !Text.EndsWith(names[k], ext)) ==> r == Ok(0)
    decreases |names|
  {
    if names == [] then Ok(0)
    else
      var init, last := names[..|names| - 1], names[|names| - 1];
      assert forall k :: 0 <= k < |init| ==> init[k] == names[k];
      var prev := LatestTerm(init, ext);
      if prev.Err? then prev
      else if Text.EndsWith(last, ext) then TermOfName(last, ext)
      else prev
  }

  /** `get_term_format`: the latest term and the one after it. */
  function TermFormat(names: seq<string>, ext: string): (r: Result<(int, int)>)
    ensures r.Err? ==> r.error == ValueError
    ensures r.Ok? ==> r.value.1 == r.value.0 + 1
    ensures (forall k :: 0 <= k < |names| ==> !Text.EndsWith(names[k], ext)) ==> r == Ok((0, 1))
  {
    match LatestTerm(names, ext)
    case Err(e) => Err(e)
    case Ok(n) => Ok((n, n + 1))
  }

  /** The loop itself, name by name, computes the same pair. */
  method TermFormatLoop(names: seq<string>, ext: string) returns (r: Result<(int, int)>)
    ensures r == TermFormat(names, ext)
  {
    var latest := 0;
    var k := 0;
    while k < |names|
      invariant 0 <= k <= |names|
      invariant LatestTerm(names[..k], ext) == Ok(latest)
    {
      assert names[..k + 1][..k] == names[..k];
      if Text.EndsWith(names[k], ext) {
        var t := TermOfName(names[k], ext);
        if t.Err? {
          PrefixFailure(names, ext, k + 1);
          return Err(t.error);
        }
        latest := t.value;
      }
      k := k + 1;
    }
    assert names[..k] == names;
    return Ok((latest, latest + 1));
  }

  /** Once a prefix of the listing fails, the whole listing fails the same way. */
  lemma {:induction false} PrefixFailure(names: seq<string>, ext: string, k: nat)
    requires k <= |names| && LatestTerm(names[..k], ext).Err?
    ensures LatestTerm(names, ext) == LatestTerm(names[..k], ext)
    decreases |names| - k
  {
    if k < |names| {
      assert names[..k + 1][..k] == names[..k];
      PrefixFailure(names, ext, k + 1);
    } else {
      assert names[..k] == names;
    }
  }

  /** The term comes from the last name in listing order that ends with `ext`, not from the largest one. */
  lemma {:induction false} LastMatchWins(names: seq<string>, ext: string, j: nat)
    requires j < |names| && Text.EndsWith(names[j], ext)
    requires forall k :: j < k < |names| ==> !Text.EndsWith(names[k], ext)
    requires LatestTerm(names, ext).Ok?
    ensures LatestTerm(names, ext) == TermOfName(names[j], ext)
    decreases |names|
  {
    var init := names[..|names| - 1];
    if j < |names| - 1 {
      assert forall k :: j < k < |init| ==> init[k] == names[k];
      LastMatchWins(init, ext, j);
    }
  }

  /** A listing of one name that ends with `ext` gives that name's term and the next. */
  lemma SingleMatch(name: string, ext: string, n: int)
    requires Text.EndsWith(name, ext) && TermOfName(name, ext) == Ok(n)
    ensures TermFormat([name], ext) == Ok((n, n + 1))
  {
    assert [name][..0] == [];
    assert LatestTerm([name], ext) == Ok(n);
  }

  /** `"{n}{ext}"` split at an extension that starts with a dot gives `n` back. */
  lemma NumberedNameParses(n: nat, ext: string)
    requires ext != [] && ext[0] == '.'
    ensures Text.EndsWith(Numerals.NatToString(n) + ext, ext)
    ensures TermOfName(Numerals.NatToString(n) + ext, ext) == Ok(n)
  {
    var digits := Numerals.NatToString(n);
    var name := digits + ext;
    assert name[|name| - |ext|..] == ext;
    DigitsBeforeSeparator(digits, ext, []);
    assert digits + ext + [] == name;
    Numerals.NatToStringParses(n);
  }

  /**
   The version note the collector writes, `"{term}.{branch}"`, read back
   with the extension `"." + branch` gives that term and the next.
   */
  lemma VersionNoteGivesTerm(n: nat, branch: string)
    ensures TermFormat([Numerals.NatToString(n) + "." + branch], "." + branch) == Ok((n, n + 1))
  {
    var ext := "." + branch;
    var digits := Numerals.NatToString(n);
    assert digits + "." + branch == digits + ext;
    NumberedNameParses(n, ext);
    SingleMatch(digits + ext, ext, n);
  }

  /**
   The note the asynchronous collector saves beside the history, for a
   numeric latest term, is read back by the term scan as that term.
   */
  lemma CollectorNoteGivesTerm(c: Draws.History, sp: FilePath, n: nat, branch: string)
    requires c.latestTerm == Numerals.NatToString(n) && c.branch == Draws.Named(branch)
    ensures TermFormat([Collector.SidecarPath(c, sp).name], "." + branch) == Ok((n, n + 1))
  {
    assert Collector.SidecarPath(c, sp).name == Numerals.NatToString(n) + "." + branch;
    VersionNoteGivesTerm(n, branch);
  }

  /** The panel's directories under the user's home: `~/Documents/Hysteria Ticket`, its `cache` and `history`. */
  function PanelRoot(home: seq<string>): seq<string> {
    home + ["Documents", "Hysteria Ticket"]
  }

  function CacheDir(home: seq<string>): seq<string> {
    PanelRoot(home) + ["cache"]
  }

  function HistoryDir(home: seq<string>): seq<string> {
    PanelRoot(home) + ["history"]
  }

  /** Where each game's history is saved. */
  function PathSsq(home: seq<string>): FilePath {
    FilePath(HistoryDir(home), "双色球.csv")
  }

  function PathDlt(home: seq<string>): FilePath {
    FilePath(HistoryDir(home), "大乐透.csv")
  }

  /** `path2solution[output]`, reduced to the extension (the prompt template is left out); other paths are no key. */
  function SolutionExt(home: seq<string>, output: FilePath): (r: Result<string>)
    ensures output == PathSsq(home) ==> r == Ok(".ssq")
    ensures output == PathDlt(home) ==> r == Ok(".dlt")
    ensures output != PathSsq(home) && output != PathDlt(home) ==> r == Err(KeyError)
  {
    assert PathSsq(home).name[0] != PathDlt(home).name[0];
    if output == PathSsq(home) then Ok(".ssq")
    else if output == PathDlt(home) then Ok(".dlt")
    else Err(KeyError)
  }

  /** `gen_ignored_text`: the kill numbers, or nothing when loading them raised a `KeyError`. */
  function IgnoredNumbers(run: Fns.Run): (r: Result<Option<Fns.FnsContainer>>)
    ensures run.result.Ok? ==> r == Ok(Some(run.result.value))
    ensures run.result == Err(KeyError) ==> r == Ok(None)
    ensures run.result.Err? && run.result.error != KeyError ==> r == Err(run.result.error)
  {
    match run.result
    case Ok(c) => Ok(Some(c))
    case Err(e) => if e == KeyError then Ok(None) else Err(e)
  }

  /** What the prompt is filled with: the latest and next term, and the kill numbers when there are any. */
  datatype Prompt = Prompt(latest: int, next: int, ignored: Option<Fns.FnsContainer>)

  /** What the history menu leaves: the files afterwards, the prompt or the error, the requests sent. */
  datatype Menu = Menu(fs: FileSystem, result: Result<Prompt>, sent: seq<Request>)

  /** The kill-number file of the next term: `cache_dir / f"{next_term}{ext}"`. */
  function KillFile(home: seq<string>, next: int, ext: string): FilePath {
    FilePath(CacheDir(home), Numerals.IntToString(next) + ext)
  }

  /**
   The part of `menu_get_history` after the collection: the term pair from
   the history directory's listing and, when the extension ends with `ssq`,
   the kill numbers of the next term.
   */
  function PromptFor(home: seq<string>, ext: string, fs: FileSystem, listing: seq<string>, decode: Fns.Decoder,
                     redReply: Result<Fns.KillPage>, blueReply: Result<Fns.KillPage>): (m: Menu)
    ensures !Text.EndsWith(ext, "ssq") ==> m.sent == [] && m.fs == fs
    ensures !Text.EndsWith(ext, "ssq") && m.result.Ok? ==> m.result.value.ignored.None?
    ensures m.result.Ok? ==> TermFormat(listing, ext) == Ok((m.result.value.latest, m.result.value.next))
  {
    match TermFormat(listing, ext)
    case Err(e) => Menu(fs, Err(e), [])
    case Ok(terms) =>
      if Text.EndsWith(ext, "ssq") then
        var run := Fns.GetFnsContainer(fs, KillFile(home, terms.1, ext), decode, redReply, blueReply);
        match IgnoredNumbers(run)
        case Err(e) => Menu(run.fs, Err(e), run.sent)
        case Ok(ignored) => Menu(run.fs, Ok(Prompt(terms.0, terms.1, ignored)), run.sent)
      else Menu(fs, Ok(Prompt(terms.0, terms.1, None)), [])
  }

  /**
   `menu_get_history(output)`: the game's extension, the history collection
   for it, then the prompt. Directory creation, the browser, the clipboard
   and the dialog are left out; `listing` is what `os.listdir` returns for
   the history directory after the collection.
   */
  function MenuGetHistory(home: seq<string>, output: FilePath, fs: FileSystem, stamps: Collector.Stamps, now: int,
                          termReply: Result<Draws.Page>, tableReply: Result<Draws.Page>, listing: seq<string>,
                          decode: Fns.Decoder, redReply: Result<Fns.KillPage>, blueReply: Result<Fns.KillPage>): (m: Menu)
    requires output in fs ==> output in stamps
    ensures SolutionExt(home, output).Err? ==> m == Menu(fs, Err(KeyError), [])
    ensures SolutionExt(home, output).Ok? ==>
              var t := Collector.TraceHistory(fs, stamps, now, output, SolutionExt(home, output).value, termReply, tableReply);
              && (t.result.Err? ==> m == Menu(fs, Err(t.result.error), t.sent))
              && (t.result.Ok? ==>
                    var p := PromptFor(home, SolutionExt(home, output).value, t.fs, listing, decode, redReply, blueReply);
                    m == Menu(p.fs, p.result, t.sent + p.sent))
  {
    match SolutionExt(home, output)
    case Err(e) => Menu(fs, Err(e), [])
    case Ok(ext) =>
      var t := Collector.TraceHistory(fs, stamps, now, output, ext, termReply, tableReply);
      match t.result
      case Err(e) => Menu(fs, Err(e), t.sent)
      case Ok(_) =>
        var p := PromptFor(home, ext, t.fs, listing, decode, redReply, blueReply);
        Menu(p.fs, p.result, t.sent + p.sent)
  }

  /** The super-lotto menu never loads kill numbers: it sends only the collector's requests. */
  lemma DltLoadsNoKillNumbers(home: seq<string>, fs: FileSystem, stamps: Collector.Stamps, now: int,
                              termReply: Result<Draws.Page>, tableReply: Result<Draws.Page>, listing: seq<string>,
                              decode: Fns.Decoder, redReply: Result<Fns.KillPage>, blueReply: Result<Fns.KillPage>)
    requires PathDlt(home) in fs ==> PathDlt(home) in stamps
    ensures var m := MenuGetHistory(home, PathDlt(home), fs, stamps, now, termReply, tableReply, listing, decode, redReply, blueReply);
            var t := Collector.TraceHistory(fs, stamps, now, PathDlt(home), ".dlt", termReply, tableReply);
            && m.sent == t.sent
            && (m.result.Ok? ==> m.result.value.ignored.None?)
  {
    assert !Text.EndsWith(".dlt", "ssq");
  }

  /**
   The double-colour-ball menu loads the kill numbers of the next term from
   `cache/{next}.ssq`, a name with exactly one dot, so the kill-number
   loader accepts it exactly when the file's metadata reads.
   */
  lemma SsqKillFile(home: seq<string>, next: int, fs: FileSystem, decode: Fns.Decoder)
    ensures var f := KillFile(home, next, ".ssq");
            && Text.EndsWith(f.name, "ssq")
            && Text.Occurrences(f.name, '.') == 1
            && Fns.FromDb(fs, f, decode).Ok? == Fns.FromMetadata(fs, f, decode).Ok?
  {
    var digits := Numerals.IntToString(next);
    var name := digits + ".ssq";
    assert name[|name| - 3..] == "ssq";
    assert '.' !in digits by {
      if next < 0 {
        assert digits == "-" + Numerals.NatToString(-next);
      }
    }
    Text.OccurrencesAppend(digits, ".ssq", '.');
    Text.OccurrencesAbsent(digits, '.');
    assert ".ssq" == ['.'] + "ssq";
    Text.OccurrencesAppend(['.'], "ssq", '.');
    Text.OccurrencesAbsent("ssq", '.');
    Fns.FromDbNeedsOneDot(fs, KillFile(home, next, ".ssq"), decode);
  }
}
