/**
 What both history collectors share: the branch dispatch (which game, which
 CSV header, which row parser), the two pages of the results site as the
 collector reads them, the row shaping of the history table, and the
 memoising requests for the latest term and the history table.
 */
module Draws {
  import opened Results
  import opened Files
  import Text
  import Numerals

  /** What a caller passes as `branch`: a member of the `Branch` enum, or any string. */
  datatype BranchArg = SsqMember | DltMember | Named(name: string)

  /** The two games the collector knows: the double-colour ball and the super lotto. */
  datatype Game = Ssq | Dlt

  /** The dispatch of `__post_init__`: `branch in [Branch.SSQ, "ssq"]`, then the same for `dlt`, else nothing. */
  function Select(b: BranchArg): (g: Option<Game>)
    ensures g == Some(Ssq) <==> b == SsqMember || b == Named("ssq")
    ensures g == Some(Dlt) <==> b == DltMember || b == Named("dlt")
    ensures g.None? <==> b.Named? && b.name != "ssq" && b.name != "dlt"
  {
    match b
    case SsqMember => Some(Ssq)
    case DltMember => Some(Dlt)
    case Named(n) => if n == "ssq" then Some(Ssq) else if n == "dlt" then Some(Dlt) else None
  }

  /** `f"{branch}"`: a string renders as itself, an enum member as `Branch.NAME`. */
  function Render(b: BranchArg): string {
    match b
    case SsqMember => "Branch.SSQ"
    case DltMember => "Branch.DLT"
    case Named(n) => n
  }

  /** The game's display name (`_name`). */
  function GameName(g: Game): string {
    match g
    case Ssq => "双色球"
    case Dlt => "大乐透"
  }

  /** How many red and blue balls one draw of the game has. */
  function RedCount(g: Game): nat {
    match g
    case Ssq => 6
    case Dlt => 5
  }

  function BlueCount(g: Game): nat {
    match g
    case Ssq => 1
    case Dlt => 2
  }

  /** The column header written above the rows (`_container_head`). */
  function Header(g: Game): seq<string> {
    match g
    case Ssq => ["term", "red_1", "red_2", "red_3", "red_4", "red_5", "red_6", "blue_1"]
    case Dlt => ["term", "red_1", "red_2", "red_3", "red_4", "red_5", "blue_1", "blue_2"]
  }

  /** `[prefix + "1", ..., prefix + str(n)]`. */
  function Numbered(prefix: string, n: nat): (names: seq<string>)
    ensures |names| == n
    ensures forall i :: 0 <= i < n ==> names[i] == prefix + Numerals.NatToString(i + 1)
  {
    if n == 0 then [] else Numbered(prefix, n - 1) + [prefix + Numerals.NatToString(n)]
  }

  /**
   Each header is the term column, one `red_k` column per red ball and one
   `blue_k` per blue ball, numbered from 1: eight columns in both games.
   */
  lemma HeaderLayout(g: Game)
    ensures Header(g) == ["term"] + Numbered("red_", RedCount(g)) + Numbered("blue_", BlueCount(g))
    ensures |Header(g)| == 8 == 1 + RedCount(g) + BlueCount(g)
  {
    var reds, blues := Numbered("red_", RedCount(g)), Numbered("blue_", BlueCount(g));
    var layout := ["term"] + reds + blues;
    forall k | 1 <= k <= 6 ensures Numerals.NatToString(k) == [Numerals.Digit(k)] {}
    assert |layout| == 8;
    assert forall k :: 0 <= k < 8 ==> layout[k] == Header(g)[k];
  }

  /** The site's address for a branch: `https://datachart.500.com/{branch}`. */
  function SiteBase(b: BranchArg): string {
    "https://datachart.500.com/" + Render(b)
  }

  /** The page that carries the latest term, and the history table's endpoint. */
  function TermUrl(base: string): string {
    base + "/history/history.shtml"
  }

  function TableUrl(base: string): string {
    base + "/history/newinc/history.php"
  }

  /** The request for the whole history up to `latest`: `params={"start": 1, "end": latest}`. */
  function TableRequest(base: string, latest: string): Request {
    Request(TableUrl(base), [("start", "1"), ("end", latest)])
  }

  /** An HTML element with its attributes. */
  datatype Element = Element(attrs: map<string, string>)

  /**
   A fetched page, reduced to the two lookups the collector makes:
   `chart` is `None` when there is no `div.wrap_datachart`, `Some(None)` when
   that division holds no `input#end`, and the input otherwise; `table` is
   `None` when there is no `tbody#tdata`, and otherwise the text of every
   `td` of every `tr`, row by row.
   */
  datatype Page = Page(chart: Option<Option<Element>>, table: Option<seq<seq<string>>>)

  /**
   `soup.find("div", ...).find("input", id="end")["value"]`: a missing
   division fails on `.find` of `None`, a missing input on subscripting
   `None`, a missing attribute on the key.
   */
  function LatestTermOf(page: Page): (r: Result<string>)
    ensures r.Ok? <==> page.chart.Some? && page.chart.value.Some? && "value" in page.chart.value.value.attrs
    ensures r.Ok? ==> r.value == page.chart.value.value.attrs["value"]
    ensures page.chart.None? ==> r == Err(AttributeError)
    ensures page.chart == Some(None) ==> r == Err(TypeError)
    ensures page.chart.Some? && page.chart.value.Some? && r.Err? ==> r.error == KeyError
  {
    match page.chart
    case None => Err(AttributeError)
    case Some(input) =>
      match input
      case None => Err(TypeError)
      case Some(e) => if "value" in e.attrs then Ok(e.attrs["value"]) else Err(KeyError)
  }

  /** `[cells[i].strip() for i in range(lo, hi)]`. */
  function StripRange(cells: seq<string>, lo: nat, hi: nat): (r: seq<string>)
    requires lo <= hi <= |cells|
  {
    seq(hi - lo, k requires 0 <= k < hi - lo => Text.Strip(cells[lo + k]))
  }

  /** One row of `_parse_ssq_data`: cell 0, cells 1 to 6, cell 7; fewer than eight cells fail on an index. */
  function ShapeSsqRow(cells: seq<string>): Result<seq<string>> {
    if |cells| < 8 then Err(IndexError)
    else Ok([Text.Strip(cells[0])] + StripRange(cells, 1, 7) + [Text.Strip(cells[7])])
  }

  /** One row of `_parse_dlt_data`: cell 0, cells 1 to 5, cells 6 and 7. */
  function ShapeDltRow(cells: seq<string>): Result<seq<string>> {
    if |cells| < 8 then Err(IndexError)
    else Ok([Text.Strip(cells[0])] + StripRange(cells, 1, 6) + StripRange(cells, 6, 8))
  }

  function ShapeRow(g: Game, cells: seq<string>): Result<seq<string>> {
    match g
    case Ssq => ShapeSsqRow(cells)
    case Dlt => ShapeDltRow(cells)
  }

  /**
   Both row parsers keep exactly the first eight cells, stripped, in order,
   and ignore any further cell; a row with fewer cells is an index error.
   */
  lemma RowShape(g: Game, cells: seq<string>)
    ensures ShapeRow(g, cells).Ok? <==> |cells| >= 8
    ensures |cells| >= 8 ==> ShapeRow(g, cells) == Ok(StripRange(cells, 0, 8))
    ensures |cells| < 8 ==> ShapeRow(g, cells) == Err(IndexError)
  {
    if |cells| >= 8 {
      var all := StripRange(cells, 0, 8);
      StripRangeSlice(cells, 0, 1);
      StripRangeSlice(cells, 1, 6);
      StripRangeSlice(cells, 1, 7);
      StripRangeSlice(cells, 6, 8);
      StripRangeSlice(cells, 7, 8);
      assert [Text.Strip(cells[0])] == all[0..1];
      assert [Text.Strip(cells[7])] == all[7..8];
      assert all == all[0..1] + all[1..7] + all[7..8];
      assert all == all[0..1] + all[1..6] + all[6..8];
    }
  }

  /** A range of stripped cells is the matching slice of the first eight. */
  lemma StripRangeSlice(cells: seq<string>, lo: nat, hi: nat)
    requires lo <= hi <= 8 <= |cells|
    ensures StripRange(cells, lo, hi) == StripRange(cells, 0, 8)[lo..hi]
  {
  }

  /** The two parsers agree on every table row. */
  lemma ParsersAgree(cells: seq<string>)
    ensures ShapeSsqRow(cells) == ShapeDltRow(cells)
  {
    RowShape(Ssq, cells);
    RowShape(Dlt, cells);
  }

  /** The loop over `trs`: every row shaped in order, the first short row failing the whole parse. */
  function ShapeRows(g: Game, rows: seq<seq<string>>): (r: Result<seq<seq<string>>>)
    ensures r.Ok? <==> forall i :: 0 <= i < |rows| ==> ShapeRow(g, rows[i]).Ok?
    ensures r.Err? ==> r.error == IndexError
    ensures r.Ok? ==> |r.value| == |rows|
    ensures r.Ok? ==> forall i :: 0 <= i < |rows| ==> ShapeRow(g, rows[i]) == Ok(r.value[i])
    decreases |rows|
  {
    if rows == [] then Ok([])
    else
      match ShapeRow(g, rows[0])
      case Err(e) => Err(e)
      case Ok(row) =>
        match ShapeRows(g, rows[1..])
        case Err(e) => Err(e)
        case Ok(rest) =>
          assert forall i :: 1 <= i < |rows| ==> rows[i] == rows[1..][i - 1];
          Ok([row] + rest)
  }

  /** `_parser(response)`: a page without the history table fails on `.find_all` of `None`. */
  function ParseTable(g: Game, page: Page): (r: Result<seq<seq<string>>>)
    ensures page.table.None? ==> r == Err(AttributeError)
    ensures page.table.Some? ==> r == ShapeRows(g, page.table.value)
  {
    match page.table
    case None => Err(AttributeError)
    case Some(rows) => ShapeRows(g, rows)
  }

  /**
   A parsed history has one row per table row, each the first eight cells
   of that row, stripped; the result does not depend on the game.
   */
  lemma ParsedRows(g: Game, page: Page, i: nat)
    requires page.table.Some? && ParseTable(g, page).Ok?
    requires i < |page.table.value|
    ensures |ParseTable(g, page).value| == |page.table.value|
    ensures |page.table.value[i]| >= 8
    ensures ParseTable(g, page).value[i] == StripRange(page.table.value[i], 0, 8)
    ensures ParseTable(Ssq, page) == ParseTable(Dlt, page)
  {
    RowShape(g, page.table.value[i]);
    ShapeRowsAgree(page.table.value);
  }

  lemma {:induction false} ShapeRowsAgree(rows: seq<seq<string>>)
    ensures ShapeRows(Ssq, rows) == ShapeRows(Dlt, rows)
    decreases |rows|
  {
    if rows != [] {
      ParsersAgree(rows[0]);
      ShapeRowsAgree(rows[1..]);
    }
  }

  /** The state a collector keeps between calls: its branch and game, the memoised term and the history rows. */
  datatype History = History(branch: BranchArg, game: Game, latestTerm: string, container: seq<seq<string>>)

  /**
   The result of one step: the collector afterwards, what the call returned
   or raised, and the requests it sent, in order.
   */
  datatype Step<T> = Step(state: History, result: Result<T>, sent: seq<Request>)

  /**
   `__post_init__`: the container emptied, the header and parser chosen by
   the branch; an unknown branch exits with status 1.
   */
  function Create(b: BranchArg): (r: Result<History>)
    ensures r.Ok? <==> Select(b).Some?
    ensures r.Err? ==> r.error == SystemExit(1)
    ensures r.Ok? ==> r.value.game == Select(b).value && r.value.branch == b
    ensures r.Ok? ==> r.value.container == [] && r.value.latestTerm == ""
  {
    match Select(b)
    case None => Err(SystemExit(1))
    case Some(g) => Ok(History(b, g, "", []))
  }

  /**
   `get_latest_term`: a non-empty memoised term is returned without a
   request; otherwise the term page is fetched (the reply is `reply`) and a
   term read from it is memoised.
   */
  function GetLatestTerm(c: History, base: string, reply: Result<Page>): (s: Step<string>)
    ensures c.latestTerm != "" ==> s == Step(c, Ok(c.latestTerm), [])
    ensures c.latestTerm == "" ==> s.sent == [Request(TermUrl(base), [])]
    ensures s.state == c || (s.result.Ok? && s.state == c.(latestTerm := s.result.value))
    ensures c.latestTerm == "" && reply.Err? ==> s.result == Err(reply.error)
    ensures c.latestTerm == "" && reply.Ok? ==> s.result == LatestTermOf(reply.value)
  {
    if c.latestTerm != "" then Step(c, Ok(c.latestTerm), [])
    else
      var sent := [Request(TermUrl(base), [])];
      match reply
      case Err(e) => Step(c, Err(e), sent)
      case Ok(page) =>
        match LatestTermOf(page)
        case Err(e) => Step(c, Err(e), sent)
        case Ok(term) => Step(c.(latestTerm := term), Ok(term), sent)
  }

  /** Once a non-empty term has been read, asking again sends nothing and answers the same. */
  lemma LatestTermMemoised(c: History, base: string, reply: Result<Page>, again: Result<Page>)
    requires GetLatestTerm(c, base, reply).result.Ok?
    requires GetLatestTerm(c, base, reply).result.value != ""
    ensures var first := GetLatestTerm(c, base, reply);
            GetLatestTerm(first.state, base, again) == Step(first.state, first.result, [])
  {
  }

  /**
   `get_history`: a non-empty container is returned as it is, without a
   request; otherwise the latest term is obtained, the table is requested
   for terms 1 to that term, and the parsed rows replace the container while
   the call returns `None`.
   */
  function GetHistory(c: History, base: string, termReply: Result<Page>, tableReply: Result<Page>)
    : (s: Step<Option<seq<seq<string>>>>)
    ensures |c.container| > 0 ==> s == Step(c, Ok(Some(c.container)), [])
    ensures |c.container| == 0 && s.result.Ok? ==> s.result == Ok(None)
    ensures |c.container| == 0 && s.result.Ok? ==>
              && GetLatestTerm(c, base, termReply).result.Ok?
              && tableReply.Ok?
              && ParseTable(c.game, tableReply.value).Ok?
              && s.state == GetLatestTerm(c, base, termReply).state.(container := ParseTable(c.game, tableReply.value).value)
              && s.sent == GetLatestTerm(c, base, termReply).sent
                           + [TableRequest(base, GetLatestTerm(c, base, termReply).result.value)]
    ensures s.state.branch == c.branch && s.state.game == c.game
    ensures |c.container| == 0 && c.latestTerm == "" ==> |s.sent| >= 1 && s.sent[0] == Request(TermUrl(base), [])
  {
    if |c.container| > 0 then Step(c, Ok(Some(c.container)), [])
    else
      var t := GetLatestTerm(c, base, termReply);
      match t.result
      case Err(e) => Step(t.state, Err(e), t.sent)
      case Ok(term) =>
        var sent := t.sent + [TableRequest(base, term)];
        match tableReply
        case Err(e) => Step(t.state, Err(e), sent)
        case Ok(page) =>
          match ParseTable(c.game, page)
          case Err(e) => Step(t.state, Err(e), sent)
          case Ok(rows) => Step(t.state.(container := rows), Ok(None), sent)
  }

  /** A fetch that stored a non-empty history is not repeated: the next call returns the rows and sends nothing. */
  lemma HistoryMemoised(c: History, base: string, termReply: Result<Page>, tableReply: Result<Page>,
                        termAgain: Result<Page>, tableAgain: Result<Page>)
    requires GetHistory(c, base, termReply, tableReply).result.Ok?
    requires |GetHistory(c, base, termReply, tableReply).state.container| > 0
    ensures var first := GetHistory(c, base, termReply, tableReply);
            var second := GetHistory(first.state, base, termAgain, tableAgain);
            second.sent == [] && second.result == Ok(Some(first.state.container)) && second.state == first.state
  {
  }

  /** A new collector's first fetch asks for the term page and then the whole table, in that order. */
  lemma FirstFetchRequests(b: BranchArg, base: string, termReply: Result<Page>, tableReply: Result<Page>)
    requires Create(b).Ok?
    requires termReply.Ok? && LatestTermOf(termReply.value).Ok?
    ensures var s := GetHistory(Create(b).value, base, termReply, tableReply);
            s.sent == [Request(TermUrl(base), []), TableRequest(base, LatestTermOf(termReply.value).value)]
  {
  }
}
