/**
 The prize evaluator of the double-colour-ball game (six red balls and one
 blue ball per draw): counting a ticket's hits against a draw, resolving the
 hit pair to a prize level, the fixed payout and label tables, and the two
 batch scans, over one draw and over every draw of a cached history.
 */
module Prize {
  import opened Results
  import Text
  import Files

  /** The prize levels, best first; `NoPrize` is the source's `Level.none`. */
  datatype Level = NoPrize | First | Second | Third | Fourth | Fifth | Sixth

  /** The integer the source's `Level` class gives each level. */
  function Code(l: Level): (k: int)
    ensures 0 <= k <= 6
    ensures k == 0 <==> l == NoPrize
  {
    match l
    case NoPrize => 0
    case First => 1
    case Second => 2
    case Third => 3
    case Fourth => 4
    case Fifth => 5
    case Sixth => 6
  }

  /** How good a level is: `NoPrize` lowest, `First` highest. */
  function Rank(l: Level): nat {
    match l
    case NoPrize => 0
    case Sixth => 1
    case Fifth => 2
    case Fourth => 3
    case Third => 4
    case Second => 5
    case First => 6
  }

  /** For a winning level the source's code counts down from the best: code = 7 - rank. */
  lemma CodeIsReversedRank(l: Level)
    requires l != NoPrize
    ensures Code(l) == 7 - Rank(l)
  {
  }

  /** `Level.get_bonus`: the payout per level code; the top two levels pay the sentinel -1. */
  function GetBonus(level: int): (r: Result<int>)
    ensures r.Ok? <==> 0 <= level <= 6
    ensures r.Err? ==> r.error == KeyError
    ensures r.Ok? ==> (r.value == -1 <==> level == 1 || level == 2)
    ensures r.Ok? ==> r.value >= -1
    ensures level == 0 ==> r == Ok(0)
    ensures level == 6 ==> r == Ok(5)
    ensures level == 5 ==> r == Ok(10)
    ensures level == 4 ==> r == Ok(200)
    ensures level == 3 ==> r == Ok(3000)
  {
    var table := map[0 := 0, 6 := 5, 5 := 10, 4 := 200, 3 := 3000, 2 := -1, 1 := -1];
    if level in table then Ok(table[level]) else Err(KeyError)
  }

  /** Among the levels with a fixed payout, a better level pays strictly more. */
  lemma BonusGrowsWithRank(l1: Level, l2: Level)
    requires Rank(l1) < Rank(l2) <= Rank(Third)
    ensures 0 <= GetBonus(Code(l1)).value < GetBonus(Code(l2)).value
  {
  }

  /** `Level.get_zh_level`: the display label per level code. */
  function GetZhLevel(level: int): (r: Result<string>)
    ensures r.Ok? <==> 0 <= level <= 6
    ensures r.Err? ==> r.error == KeyError
  {
    var table := map[0 := "无", 6 := "六等奖", 5 := "五等奖", 4 := "四等奖", 3 := "三等奖", 2 := "二等奖", 1 := "一等奖"];
    if level in table then Ok(table[level]) else Err(KeyError)
  }

  /** Different levels carry different labels. */
  lemma ZhLevelInjective(l1: Level, l2: Level)
    requires l1 != l2
    ensures GetZhLevel(Code(l1)).value != GetZhLevel(Code(l2)).value
  {
  }

  /**
   The published prize rule, phrased as hit patterns: which (red, blue) hit
   pairs win each level.
   */
  predicate Awarded(l: Level, red: int, blue: int) {
    match l
    case First => red == 6 && blue == 1
    case Second => red == 6 && blue == 0
    case Third => red == 5 && blue == 1
    case Fourth => (red == 5 && blue == 0) || (red == 4 && blue == 1)
    case Fifth => (red == 4 && blue == 0) || (red == 3 && blue == 1)
    case Sixth => blue == 1 && 0 <= red <= 2
    case NoPrize => blue == 0 && 0 <= red <= 3
  }

  /**
   `is_bingo`: the decision table from the hit pair to a level. Both
   assertions of the source become the error path; inside the asserted range
   every pair gets exactly the level the prize rule awards.
   */
  function IsBingo(red: int, blue: int): (r: Result<Level>)
    ensures r.Ok? <==> 0 <= red <= 6 && 0 <= blue <= 1
    ensures r.Err? ==> r.error == AssertionError
    ensures r.Ok? ==> Awarded(r.value, red, blue)
    ensures r.Ok? ==> forall l :: Awarded(l, red, blue) ==> l == r.value
  {
    if !(0 <= red <= 6) || !(0 <= blue <= 1) then Err(AssertionError)
    else if blue == 0 then
      if red in [0, 1, 2, 3] then Ok(NoPrize)
      else if red == 4 then Ok(Fifth)
      else if red == 5 then Ok(Fourth)
      else Ok(Second)
    else
      if red in [0, 1, 2] then Ok(Sixth)
      else if red == 3 then Ok(Fifth)
      else if red == 4 then Ok(Fourth)
      else if red == 5 then Ok(Third)
      else Ok(First)
  }

  /** With the blue result fixed, more red hits never give a worse level. */
  lemma IsBingoMonotoneInRed(red1: int, red2: int, blue: int)
    requires 0 <= red1 <= red2 <= 6 && 0 <= blue <= 1
    ensures Rank(IsBingo(red1, blue).value) <= Rank(IsBingo(red2, blue).value)
  {
  }

  /** With the red hits fixed, hitting the blue ball never gives a worse level. */
  lemma IsBingoMonotoneInBlue(red: int)
    requires 0 <= red <= 6
    ensures Rank(IsBingo(red, 0).value) <= Rank(IsBingo(red, 1).value)
  {
  }

  /** `xs[:-1]`. */
  function Init(xs: seq<string>): seq<string> {
    if |xs| == 0 then [] else xs[..|xs| - 1]
  }

  /**
   How many slots of `ticket` hold a number that occurs in `draw`; each slot
   is tested on its own, so a repeated ticket number is counted each time.
   */
  function RedHits(ticket: seq<string>, draw: seq<string>): (n: nat)
    ensures n <= |ticket|
    ensures n == |ticket| <==> forall k :: 0 <= k < |ticket| ==> ticket[k] in draw
    ensures n == 0 <==> forall k :: 0 <= k < |ticket| ==> ticket[k] !in draw
    decreases |ticket|
  {
    if ticket == [] then 0
    else
      var init := ticket[..|ticket| - 1];
      var n := RedHits(init, draw);
      assert forall k :: 0 <= k < |init| ==> init[k] == ticket[k];
      n + (if ticket[|ticket| - 1] in draw then 1 else 0)
  }

  lemma {:induction false} RedHitsAppend(a: seq<string>, b: seq<string>, draw: seq<string>)
    ensures RedHits(a + b, draw) == RedHits(a, draw) + RedHits(b, draw)
    decreases |b|
  {
    if b == [] {
      assert a + b == a;
    } else {
      var b' := b[..|b| - 1];
      assert (a + b)[..|a + b| - 1] == a + b';
      RedHitsAppend(a, b', draw);
    }
  }

  /** Only the multiset of ticket numbers matters: reordering the ticket's red part changes nothing. */
  lemma {:induction false} RedHitsTicketPermutation(t1: seq<string>, t2: seq<string>, draw: seq<string>)
    requires multiset(t1) == multiset(t2)
    ensures RedHits(t1, draw) == RedHits(t2, draw)
    decreases |t1|
  {
    if t1 != [] {
      var x := t1[|t1| - 1];
      var p1 := t1[..|t1| - 1];
      assert t1 == p1 + [x];
      assert x in multiset(t2);
      var i :| 0 <= i < |t2| && t2[i] == x;
      var p2 := t2[..i] + t2[i + 1..];
      assert multiset(p1) == multiset(t1) - multiset{x} by {
        assert multiset(t1) == multiset(p1) + multiset{x};
      }
      RemoveAtMultiset(t2, i);
      RedHitsTicketPermutation(p1, p2, draw);
      RedHitsRemoveAt(t2, i, draw);
      RedHitsAppend(p1, [x], draw);
    } else {
      assert |multiset(t2)| == 0;
    }
  }

  /** Taking slot `i` out of a sequence takes one copy of its element out of the multiset. */
  lemma RemoveAtMultiset(t: seq<string>, i: nat)
    requires i < |t|
    ensures multiset(t[..i] + t[i + 1..]) == multiset(t) - multiset{t[i]}
  {
    assert t == t[..i] + [t[i]] + t[i + 1..];
    assert multiset(t) == multiset(t[..i]) + multiset{t[i]} + multiset(t[i + 1..]);
  }

  /** The hits of a ticket are the hits without slot `i` plus the hit of slot `i`. */
  lemma RedHitsRemoveAt(t: seq<string>, i: nat, draw: seq<string>)
    requires i < |t|
    ensures RedHits(t, draw) == RedHits(t[..i] + t[i + 1..], draw) + RedHits([t[i]], draw)
  {
    assert t == t[..i] + [t[i]] + t[i + 1..];
    RedHitsAppend(t[..i] + [t[i]], t[i + 1..], draw);
    RedHitsAppend(t[..i], [t[i]], draw);
    RedHitsAppend(t[..i], t[i + 1..], draw);
  }

  /** Only which numbers the draw holds matters: its order and repeats change nothing. */
  lemma {:induction false} RedHitsDrawMembership(ticket: seq<string>, d1: seq<string>, d2: seq<string>)
    requires forall x :: x in d1 <==> x in d2
    ensures RedHits(ticket, d1) == RedHits(ticket, d2)
    decreases |ticket|
  {
    if ticket != [] {
      RedHitsDrawMembership(ticket[..|ticket| - 1], d1, d2);
    }
  }

  /** The hit pair `compare_nums` returns. */
  datatype Hits = Hits(red: nat, blue: nat)

  /**
   `compare_nums`: red hits of the ticket's red part against the draw's red
   part, and one blue hit when the last numbers agree. An empty ticket or
   draw fails on the `[-1]` index.
   */
  function CompareNums(mc: seq<string>, bingoNums: seq<string>): (r: Result<Hits>)
    ensures r.Ok? <==> |mc| > 0 && |bingoNums| > 0
    ensures r.Err? ==> r.error == IndexError
    ensures r.Ok? ==> r.value.red == RedHits(mc[..|mc| - 1], bingoNums[..|bingoNums| - 1])
    ensures r.Ok? ==> r.value.red <= |mc| - 1 && r.value.blue <= 1
    ensures r.Ok? ==> (r.value.blue == 1 <==> mc[|mc| - 1] == bingoNums[|bingoNums| - 1])
  {
    var red := RedHits(Init(mc), Init(bingoNums));
    if |mc| == 0 || |bingoNums| == 0 then Err(IndexError)
    else Ok(Hits(red, if mc[|mc| - 1] == bingoNums[|bingoNums| - 1] then 1 else 0))
  }

  /** The loop of `compare_nums`, slot by slot, computes the same pair. */
  method CompareNumsLoop(mc: seq<string>, bingoNums: seq<string>) returns (r: Result<Hits>)
    ensures r == CompareNums(mc, bingoNums)
  {
    var reds := Init(mc);
    var drawReds := Init(bingoNums);
    var red := 0;
    for k := 0 to |reds|
      invariant red == RedHits(reds[..k], drawReds)
    {
      assert reds[..k + 1][..k] == reds[..k];
      if reds[k] in drawReds {
        red := red + 1;
      }
    }
    assert reds[..|reds|] == reds;
    if |mc| == 0 || |bingoNums| == 0 {
      return Err(IndexError);
    }
    var blue := if mc[|mc| - 1] == bingoNums[|bingoNums| - 1] then 1 else 0;
    r := Ok(Hits(red, blue));
  }

  /** Permuting the red part of the ticket or of the draw leaves the hit pair unchanged. */
  lemma CompareNumsPermutation(mc1: seq<string>, mc2: seq<string>, draw1: seq<string>, draw2: seq<string>)
    requires |mc1| > 0 && |mc2| == |mc1| && mc1[|mc1| - 1] == mc2[|mc2| - 1]
    requires multiset(mc1[..|mc1| - 1]) == multiset(mc2[..|mc2| - 1])
    requires |draw1| > 0 && |draw2| == |draw1| && draw1[|draw1| - 1] == draw2[|draw2| - 1]
    requires multiset(draw1[..|draw1| - 1]) == multiset(draw2[..|draw2| - 1])
    ensures CompareNums(mc1, draw1) == CompareNums(mc2, draw2)
  {
    var d1 := draw1[..|draw1| - 1];
    var d2 := draw2[..|draw2| - 1];
    forall x ensures x in d1 <==> x in d2 {
      assert x in d1 <==> x in multiset(d1);
      assert x in d2 <==> x in multiset(d2);
    }
    RedHitsDrawMembership(mc1[..|mc1| - 1], d1, d2);
    RedHitsTicketPermutation(mc1[..|mc1| - 1], mc2[..|mc2| - 1], d2);
  }

  /**
   `SSQResult`. The source's default for `term` is the `str` class object
   itself (`field(default=str)`), so a result that never had a term set
   carries `None` here.
   */
  datatype SsqResult = SsqResult(red: nat, blue: nat, level: int, bonus: int, zhLevel: string, term: Option<string>)

  /** The level a code stands for. */
  function LevelOf(code: int): Option<Level> {
    if code == 0 then Some(NoPrize)
    else if code == 1 then Some(First)
    else if code == 2 then Some(Second)
    else if code == 3 then Some(Third)
    else if code == 4 then Some(Fourth)
    else if code == 5 then Some(Fifth)
    else if code == 6 then Some(Sixth)
    else None
  }

  /** The level code, payout and label that one hit pair earns. */
  datatype Grade = Grade(level: int, bonus: int, zhLevel: string)

  /**
   `is_bingo` followed by the two table lookups: the level the prize rule
   awards to the pair, with that level's payout and label.
   */
  function GradeOf(red: int, blue: int): (r: Result<Grade>)
    ensures r.Ok? <==> 0 <= red <= 6 && 0 <= blue <= 1
    ensures r.Err? ==> r.error == AssertionError
    ensures r.Ok? ==>
              && LevelOf(r.value.level).Some?
              && Awarded(LevelOf(r.value.level).value, red, blue)
              && GetBonus(r.value.level) == Ok(r.value.bonus)
              && GetZhLevel(r.value.level) == Ok(r.value.zhLevel)
  {
    match IsBingo(red, blue)
    case Err(e) => Err(e)
    case Ok(level) =>
      var code := Code(level);
      assert LevelOf(code) == Some(level);
      Ok(Grade(code, GetBonus(code).value, GetZhLevel(code).value))
  }

  /**
   One ticket scored against one draw, as the body of both generators does
   it: hits, level, payout, label, and the term the caller supplies.
   */
  function Score(mc: seq<string>, bingoNums: seq<string>, term: Option<string>): (r: Result<SsqResult>)
    ensures r.Ok? <==> |mc| > 0 && |bingoNums| > 0 && RedHits(Init(mc), Init(bingoNums)) <= 6
    ensures r.Ok? ==>
              && Hits(r.value.red, r.value.blue) == CompareNums(mc, bingoNums).value
              && GradeOf(r.value.red, r.value.blue) == Ok(Grade(r.value.level, r.value.bonus, r.value.zhLevel))
              && r.value.term == term
  {
    match CompareNums(mc, bingoNums)
    case Err(e) => Err(e)
    case Ok(hits) =>
      match GradeOf(hits.red, hits.blue)
      case Err(e) => Err(e)
      case Ok(g) => Ok(SsqResult(hits.red, hits.blue, g.level, g.bonus, g.zhLevel, term))
  }

  /** A scored result carries the level the prize rule awards to its hits, and that level's payout and label. */
  lemma ScoreAwards(mc: seq<string>, bingoNums: seq<string>, term: Option<string>)
    requires Score(mc, bingoNums, term).Ok?
    ensures var res := Score(mc, bingoNums, term).value;
            && LevelOf(res.level).Some?
            && Awarded(LevelOf(res.level).value, res.red, res.blue)
            && GetBonus(res.level) == Ok(res.bonus)
            && GetZhLevel(res.level) == Ok(res.zhLevel)
  {
    var res := Score(mc, bingoNums, term).value;
    assert GradeOf(res.red, res.blue).Ok?;
  }

  /** A ticket or draw with no numbers fails on the `[-1]` index; too many red hits fail `is_bingo`'s assertion. */
  lemma ScoreErrors(mc: seq<string>, bingoNums: seq<string>, term: Option<string>)
    ensures Score(mc, bingoNums, term).Err? ==>
              Score(mc, bingoNums, term).error == (if |mc| == 0 || |bingoNums| == 0 then IndexError else AssertionError)
  {
  }

  /** A ticket of seven numbers is always scored against a non-empty draw: at most six red hits are possible. */
  lemma SevenSlotTicketScores(mc: seq<string>, bingoNums: seq<string>, term: Option<string>)
    requires |mc| == 7 && |bingoNums| > 0
    ensures Score(mc, bingoNums, term).Ok?
  {
  }

  /** What a generator yields before it stops, and the exception it stops with, if any. */
  datatype Stream = Stream(items: seq<(seq<string>, SsqResult)>, failure: Option<Error>)

  /**
   A generator over `tickets` whose step for ticket `i` has outcome
   `outcomes[i]`: it yields each ticket with its result, in order, and stops
   at the first step that raises.
   */
  function Yield(tickets: seq<seq<string>>, outcomes: seq<Result<SsqResult>>): (s: Stream)
    requires |outcomes| == |tickets|
    ensures |s.items| <= |tickets|
    ensures forall i :: 0 <= i < |s.items| ==> s.items[i].0 == tickets[i] && outcomes[i] == Ok(s.items[i].1)
    ensures s.failure.None? <==> |s.items| == |tickets|
    ensures s.failure.Some? ==> outcomes[|s.items|] == Err(s.failure.value)
    decreases |tickets|
  {
    if tickets == [] then Stream([], None)
    else
      var n := |tickets| - 1;
      var rest := Yield(tickets[..n], outcomes[..n]);
      if rest.failure.Some? then rest
      else
        match outcomes[n]
        case Err(e) => Stream(rest.items, Some(e))
        case Ok(res) => Stream(rest.items + [(tickets[n], res)], None)
  }

  /** The outcome of scoring each ticket. */
  function Outcomes(tickets: seq<seq<string>>, bingoNums: seq<string>, term: Option<string>): (rs: seq<Result<SsqResult>>)
    ensures |rs| == |tickets|
    ensures forall i :: 0 <= i < |tickets| ==> rs[i] == Score(tickets[i], bingoNums, term)
  {
    seq(|tickets|, i requires 0 <= i < |tickets| => Score(tickets[i], bingoNums, term))
  }

  /** Every ticket scored against one draw, in ticket order, stopping at the first failure. */
  function ScanTickets(tickets: seq<seq<string>>, bingoNums: seq<string>, term: Option<string>): (s: Stream)
    ensures |s.items| <= |tickets|
    ensures forall i :: 0 <= i < |s.items| ==>
              s.items[i].0 == tickets[i] && Score(tickets[i], bingoNums, term) == Ok(s.items[i].1)
    ensures s.failure.None? <==> |s.items| == |tickets|
    ensures s.failure.Some? ==> Score(tickets[|s.items|], bingoNums, term) == Err(s.failure.value)
  {
    Yield(tickets, Outcomes(tickets, bingoNums, term))
  }

  /**
   `SSQNumsChecker.get_results`: one `(mc, result)` per ticket, in ticket
   order, with the term left at its default.
   */
  function GetResults(myNums: seq<seq<string>>, bingoNums: seq<string>): (s: Stream)
    ensures |s.items| <= |myNums|
    ensures s.failure.None? <==> |s.items| == |myNums|
    ensures forall i :: 0 <= i < |s.items| ==>
              s.items[i].0 == myNums[i] && s.items[i].1.term == None
              && Score(myNums[i], bingoNums, None) == Ok(s.items[i].1)
    ensures s.failure.Some? ==> Score(myNums[|s.items|], bingoNums, None) == Err(s.failure.value)
  {
    ScanTickets(myNums, bingoNums, None)
  }

  /** With seven-number tickets and a non-empty draw, every ticket gets its result. */
  lemma GetResultsComplete(myNums: seq<seq<string>>, bingoNums: seq<string>)
    requires forall i :: 0 <= i < |myNums| ==> |myNums[i]| == 7
    requires |bingoNums| > 0
    ensures GetResults(myNums, bingoNums).failure.None?
    ensures |GetResults(myNums, bingoNums).items| == |myNums|
  {
    var s := GetResults(myNums, bingoNums);
    if s.failure.Some? {
      SevenSlotTicketScores(myNums[|s.items|], bingoNums, None);
    }
  }

  /** The lines `trace_results` keeps: every line after the first that is not empty. */
  function CacheLines(text: string): (lines: seq<string>)
    ensures forall k :: 0 <= k < |lines| ==> lines[k] != []
    ensures forall l :: l in lines <==> l in Text.Split(text, '\n')[1..] && l != []
  {
    Text.NonEmpty(Text.Split(text, '\n')[1..])
  }

  /**
   Text laid out as the CSV writer leaves it (a first line, then one line per
   row, each ended by a newline): the kept lines are exactly the row lines,
   in order and with repeats.
   */
  lemma CacheLinesOfCsv(first: string, lines: seq<string>)
    requires '\n' !in first
    requires forall k :: 0 <= k < |lines| ==> lines[k] != [] && '\n' !in lines[k]
    ensures CacheLines(Text.Join([first] + lines + [""], '\n')) == lines
  {
    var parts := [first] + lines + [""];
    SeparatorFree(first, lines);
    Text.SplitJoin(parts, '\n');
    DropFirst(first, lines);
    BlankLineDropped(lines);
  }

  lemma DropFirst(first: string, lines: seq<string>)
    ensures ([first] + lines + [""])[1..] == lines + [""]
  {
  }

  lemma SeparatorFree(first: string, lines: seq<string>)
    requires '\n' !in first
    requires forall k :: 0 <= k < |lines| ==> '\n' !in lines[k]
    ensures var parts := [first] + lines + [""];
            forall k :: 0 <= k < |parts| ==> '\n' !in parts[k]
  {
    var parts := [first] + lines + [""];
    forall k | 0 <= k < |parts|
      ensures '\n' !in parts[k]
    {
      if 1 <= k < |parts| - 1 {
        assert parts[k] == lines[k - 1];
      }
    }
  }

  /** The empty line after the last newline is dropped, and every other line is kept. */
  lemma BlankLineDropped(lines: seq<string>)
    requires forall k :: 0 <= k < |lines| ==> lines[k] != []
    ensures Text.NonEmpty(lines + [""]) == lines
  {
    Text.NonEmptyAppend(lines, [""]);
  }

  /** The rows the `csv` reader gives for the kept lines, one per line, in order. */
  function DecodedRows(text: string, decode: string -> seq<string>): (rows: seq<seq<string>>)
    ensures |rows| == |CacheLines(text)|
    ensures forall k :: 0 <= k < |rows| ==> rows[k] == decode(CacheLines(text)[k])
  {
    var lines := CacheLines(text);
    seq(|lines|, k requires 0 <= k < |lines| => decode(lines[k]))
  }

  /**
   Streams run one after another, as nested generator loops run: the items of
   each in turn, stopping at the first stream that fails.
   */
  function Chain(ss: seq<Stream>): (s: Stream)
    ensures s.failure.None? <==> forall j :: 0 <= j < |ss| ==> ss[j].failure.None?
    decreases |ss|
  {
    if ss == [] then Stream([], None)
    else if ss[0].failure.Some? then ss[0]
    else
      var rest := Chain(ss[1..]);
      assert forall j :: 1 <= j < |ss| ==> ss[j] == ss[1..][j - 1];
      Stream(ss[0].items + rest.items, rest.failure)
  }

  /**
   A chain whose stream `j` is the first to fail yields every item of the
   streams before it, then the partial items of stream `j`, and stops with
   stream `j`'s error.
   */
  lemma {:induction false} ChainFailure(ss: seq<Stream>, j: nat)
    requires j < |ss| && ss[j].failure.Some?
    requires forall k :: 0 <= k < j ==> ss[k].failure.None?
    ensures Chain(ss).failure == ss[j].failure
    ensures Chain(ss).items == Chain(ss[..j]).items + ss[j].items
    decreases j
  {
    if j == 0 {
      assert ss[..0] == [];
    } else {
      var tail := ss[1..];
      assert forall k :: 0 <= k < j - 1 ==> tail[k] == ss[k + 1];
      ChainFailure(tail, j - 1);
      ChainStep(ss);
      var prefix := ss[..j];
      assert prefix[0] == ss[0] && prefix[1..] == tail[..j - 1];
      ChainStep(prefix);
    }
  }

  /** A chain whose first stream completes is that stream's items followed by the rest of the chain. */
  lemma ChainStep(ss: seq<Stream>)
    requires ss != [] && ss[0].failure.None?
    ensures Chain(ss) == Stream(ss[0].items + Chain(ss[1..]).items, Chain(ss[1..]).failure)
  {
  }

  /** `j * n`, counted out block by block. */
  function Offset(j: nat, n: nat): nat {
    if j == 0 then 0 else Offset(j - 1, n) + n
  }

  lemma {:induction false} OffsetIsProduct(j: nat, n: nat)
    ensures Offset(j, n) == j * n
  {
    if j > 0 {
      OffsetIsProduct(j - 1, n);
      assert j * n == (j - 1) * n + n;
    }
  }

  /** When every stream yields `n` items, the chain yields `n` per stream. */
  lemma {:induction false} ChainLength(ss: seq<Stream>, n: nat)
    requires Chain(ss).failure.None?
    requires forall k :: 0 <= k < |ss| ==> |ss[k].items| == n
    ensures |Chain(ss).items| == Offset(|ss|, n)
    decreases |ss|
  {
    if ss != [] {
      assert ss[0].failure.None?;
      assert forall k :: 0 <= k < |ss[1..]| ==> ss[1..][k] == ss[k + 1];
      ChainLength(ss[1..], n);
    }
  }

  /** When every stream yields `n` items, stream `j`'s items are the `j`-th block of `n` in the chain. */
  lemma {:induction false} ChainBlock(ss: seq<Stream>, n: nat, j: nat)
    requires Chain(ss).failure.None?
    requires forall k :: 0 <= k < |ss| ==> |ss[k].items| == n
    requires j < |ss|
    ensures Offset(j, n) + n <= |Chain(ss).items|
    ensures Chain(ss).items[Offset(j, n)..Offset(j, n) + n] == ss[j].items
    decreases j
  {
    var rest := Chain(ss[1..]);
    assert ss[0].failure.None?;
    assert Chain(ss).items == ss[0].items + rest.items;
    if j == 0 {
      assert Offset(0, n) == 0;
      assert Chain(ss).items[0..n] == ss[0].items;
    } else {
      assert forall k :: 0 <= k < |ss[1..]| ==> ss[1..][k] == ss[k + 1];
      ChainBlock(ss[1..], n, j - 1);
      assert Chain(ss).items[n..] == rest.items;
    }
  }

  /** The results of every ticket against one row: `term = row[0]`, `bingo_nums = row[1:]`; an empty row fails on `row[0]`. */
  function RowScan(myNums: seq<seq<string>>, row: seq<string>): (s: Stream)
    ensures row == [] ==> s == Stream([], Some(IndexError))
    ensures row != [] ==> s == ScanTickets(myNums, row[1..], Some(row[0]))
  {
    if row == [] then Stream([], Some(IndexError)) else ScanTickets(myNums, row[1..], Some(row[0]))
  }

  /** The scan of each row, in row order. */
  function RowScans(myNums: seq<seq<string>>, rows: seq<seq<string>>): (ss: seq<Stream>)
    ensures |ss| == |rows|
    ensures forall j :: 0 <= j < |rows| ==> ss[j] == RowScan(myNums, rows[j])
  {
    seq(|rows|, j requires 0 <= j < |rows| => RowScan(myNums, rows[j]))
  }

  /** Every ticket against every row, draw-major. */
  function ScanDraws(myNums: seq<seq<string>>, rows: seq<seq<string>>): (s: Stream)
    ensures s.failure.None? <==> forall j :: 0 <= j < |rows| ==> RowScan(myNums, rows[j]).failure.None?
  {
    Chain(RowScans(myNums, rows))
  }

  /**
   `SSQNumsChecker.trace_results`: the cache text is split into lines, the
   header line and empty lines are dropped, `decode` (the `csv` reader) turns
   each remaining line into its fields, and every ticket is scored against
   every row. No row is checked for its field count.
   */
  function TraceResults(myNums: seq<seq<string>>, text: string, decode: string -> seq<string>): (s: Stream)
    ensures s.failure.None? <==>
              forall k :: 0 <= k < |CacheLines(text)| ==> RowScan(myNums, decode(CacheLines(text)[k])).failure.None?
  {
    ScanDraws(myNums, DecodedRows(text, decode))
  }

  /**
   `trace_results(cache_path)` on the file system: `read_text` of a missing
   file raises `FileNotFoundError` before anything is yielded; otherwise the
   file's text, as `readText` renders what was stored there, is scanned.
   */
  function TraceResultsAt(myNums: seq<seq<string>>, fs: Files.FileSystem, cachePath: Files.FilePath,
                          readText: Files.Content -> string, decode: string -> seq<string>): (s: Stream)
    ensures cachePath !in fs ==> s == Stream([], Some(FileNotFoundError))
    ensures cachePath in fs ==> (s.failure.None? <==>
              var lines := CacheLines(readText(fs[cachePath]));
              forall k :: 0 <= k < |lines| ==> RowScan(myNums, decode(lines[k])).failure.None?)
  {
    if cachePath in fs then TraceResults(myNums, readText(fs[cachePath]), decode)
    else Stream([], Some(FileNotFoundError))
  }

  /**
   The file scan is draw-major over the kept lines in file order: the
   result at `Offset(j, |tickets|) + i` is ticket `i` scored against the
   `j`-th kept line's fields after the first, with the first as its term.
   */
  lemma TraceResultsOrder(myNums: seq<seq<string>>, text: string, decode: string -> seq<string>, j: nat, i: nat)
    requires TraceResults(myNums, text, decode).failure.None?
    requires j < |CacheLines(text)| && i < |myNums|
    ensures var row, s := decode(CacheLines(text)[j]), TraceResults(myNums, text, decode);
            && row != []
            && Offset(j, |myNums|) + i < |s.items|
            && s.items[Offset(j, |myNums|) + i].0 == myNums[i]
            && Score(myNums[i], row[1..], Some(row[0])) == Ok(s.items[Offset(j, |myNums|) + i].1)
  {
    ScanDrawsOrder(myNums, DecodedRows(text, decode), j, i);
  }

  /**
   A scan whose row `j` is the first that fails yields the results for all
   earlier rows, then row `j`'s partial results, and stops with row `j`'s
   error: the generator does not withhold results already yielded.
   */
  lemma ScanDrawsFailure(myNums: seq<seq<string>>, rows: seq<seq<string>>, j: nat)
    requires j < |rows| && RowScan(myNums, rows[j]).failure.Some?
    requires forall k :: 0 <= k < j ==> RowScan(myNums, rows[k]).failure.None?
    ensures ScanDraws(myNums, rows).failure == RowScan(myNums, rows[j]).failure
    ensures ScanDraws(myNums, rows).items == ScanDraws(myNums, rows[..j]).items + RowScan(myNums, rows[j]).items
  {
    var ss := RowScans(myNums, rows);
    ChainFailure(ss, j);
    assert ss[..j] == RowScans(myNums, rows[..j]);
  }

  /**
   A good row followed by an empty one: the good row's result is yielded
   before the scan fails with `IndexError` on the empty row.
   */
  lemma EmptyRowAfterGoodRow(ticket: seq<string>, good: seq<string>)
    requires |ticket| == 7 && |good| >= 2
    ensures var s := ScanDraws([ticket], [good, []]);
            && s.failure == Some(IndexError)
            && |s.items| == 1 && s.items[0].0 == ticket
            && Score(ticket, good[1..], Some(good[0])) == Ok(s.items[0].1)
  {
    var rows := [good, []];
    SevenSlotTicketScores(ticket, good[1..], Some(good[0]));
    ScanDrawsFailure([ticket], rows, 1);
    assert rows[..1] == [good];
    ShortRowIsScored(ticket, good);
  }

  /** A complete scan yields one result per (row, ticket) pair. */
  lemma ScanDrawsLength(myNums: seq<seq<string>>, rows: seq<seq<string>>)
    requires ScanDraws(myNums, rows).failure.None?
    ensures |ScanDraws(myNums, rows).items| == |rows| * |myNums|
  {
    var ss := RowScans(myNums, rows);
    RowScansWidth(myNums, rows);
    ChainLength(ss, |myNums|);
    OffsetIsProduct(|rows|, |myNums|);
  }

  lemma RowScansWidth(myNums: seq<seq<string>>, rows: seq<seq<string>>)
    requires ScanDraws(myNums, rows).failure.None?
    ensures forall k :: 0 <= k < |rows| ==> |RowScans(myNums, rows)[k].items| == |myNums|
  {
  }

  /** Item `Offset(j, n) + i` of a complete chain is item `i` of stream `j`. */
  lemma ChainItem(ss: seq<Stream>, n: nat, j: nat, i: nat)
    requires Chain(ss).failure.None?
    requires forall k :: 0 <= k < |ss| ==> |ss[k].items| == n
    requires j < |ss| && i < n
    ensures ss[j].failure.None?
    ensures Offset(j, n) + i < |Chain(ss).items|
    ensures Chain(ss).items[Offset(j, n) + i] == ss[j].items[i]
  {
    ChainBlock(ss, n, j);
    var base := Offset(j, n);
    var c := Chain(ss).items;
    assert c[base..base + n][i] == c[base + i];
  }

  /**
   The scan is draw-major: the result for ticket `i` against row `j` sits at
   position `Offset(j, |tickets|) + i`, that is `j * |tickets| + i`, and is
   that ticket scored against that row with the row's term.
   */
  lemma ScanDrawsOrder(myNums: seq<seq<string>>, rows: seq<seq<string>>, j: nat, i: nat)
    requires ScanDraws(myNums, rows).failure.None?
    requires j < |rows| && i < |myNums|
    ensures rows[j] != []
    ensures Offset(j, |myNums|) + i < |ScanDraws(myNums, rows).items|
    ensures ScanDraws(myNums, rows).items[Offset(j, |myNums|) + i].0 == myNums[i]
    ensures Score(myNums[i], rows[j][1..], Some(rows[j][0])) == Ok(ScanDraws(myNums, rows).items[Offset(j, |myNums|) + i].1)
  {
    var ss := RowScans(myNums, rows);
    RowScansWidth(myNums, rows);
    ChainItem(ss, |myNums|, j, i);
    var here := RowScan(myNums, rows[j]);
    assert rows[j] != [];
    assert here == ScanTickets(myNums, rows[j][1..], Some(rows[j][0]));
    assert here.items[i].0 == myNums[i];
  }

  /** A row shorter than a full draw is still scored: the reader does no field-count validation. */
  lemma ShortRowIsScored(ticket: seq<string>, row: seq<string>)
    requires |ticket| == 7 && |row| >= 2
    ensures var s := ScanDraws([ticket], [row]);
            s.failure.None? && |s.items| == 1 && s.items[0].1.term == Some(row[0])
  {
    var here := ScanTickets([ticket], row[1..], Some(row[0]));
    assert Score(ticket, row[1..], Some(row[0])).Ok?;
    assert here.failure.None? && |here.items| == 1;
    var ss := RowScans([ticket], [row]);
    assert ss == [here];
    assert Chain(ss[1..]) == Stream([], None);
    assert Chain(ss).items == here.items;
  }

  /** A ticket with no red number in the draw but the right blue ball wins the sixth prize and pays 5. */
  lemma BlueOnlyWinsSixth(mc: seq<string>, bingoNums: seq<string>)
    requires |mc| == 7 && |bingoNums| > 0 && mc[6] == bingoNums[|bingoNums| - 1]
    requires forall k :: 0 <= k < 6 ==> mc[k] !in Init(bingoNums)
    ensures var r := Score(mc, bingoNums, None);
            && r.Ok? && r.value.red == 0 && r.value.blue == 1
            && r.value.level == Code(Sixth) && r.value.bonus == 5
  {
    assert RedHits(Init(mc), Init(bingoNums)) == 0;
  }

  /** A ticket with one red slot in the draw counts one red hit. */
  lemma SingleRedHit(ticket: seq<string>, draw: seq<string>, j: nat)
    requires j < |ticket| && ticket[j] in draw
    requires forall k :: 0 <= k < |ticket| && k != j ==> ticket[k] !in draw
    ensures RedHits(ticket, draw) == 1
  {
    var before, after := ticket[..j], ticket[j + 1..];
    assert ticket == before + [ticket[j]] + after;
    assert RedHits(before, draw) == 0 by {
      assert forall k :: 0 <= k < |before| ==> before[k] == ticket[k];
    }
    assert RedHits(after, draw) == 0 by {
      assert forall k :: 0 <= k < |after| ==> after[k] == ticket[j + 1 + k];
    }
    RedHitsAppend(before + [ticket[j]], after, draw);
    RedHitsAppend(before, [ticket[j]], draw);
  }

  /** One red hit and the wrong blue ball win nothing and pay 0. */
  lemma OneRedHitWinsNothing(mc: seq<string>, bingoNums: seq<string>, j: nat)
    requires |mc| == 7 && |bingoNums| > 0 && mc[6] != bingoNums[|bingoNums| - 1]
    requires j < 6 && mc[j] in Init(bingoNums)
    requires forall k :: 0 <= k < 6 && k != j ==> mc[k] !in Init(bingoNums)
    ensures var r := Score(mc, bingoNums, None);
            && r.Ok? && r.value.red == 1 && r.value.blue == 0
            && r.value.level == Code(NoPrize) && r.value.bonus == 0
  {
    SingleRedHit(Init(mc), Init(bingoNums), j);
  }

  /** A ticket whose red numbers are exactly the draw's: second prize without the blue, first with it; both pay the sentinel. */
  lemma AllRedHit(reds: seq<string>, blue: string, drawBlue: string)
    requires |reds| == 6
    ensures var r := Score(reds + [blue], reds + [drawBlue], None);
            && r.Ok? && r.value.red == 6
            && r.value.level == (if blue == drawBlue then 1 else 2)
            && r.value.bonus == -1
  {
    assert (reds + [blue])[..6] == reds;
    assert (reds + [drawBlue])[..6] == reds;
    assert RedHits(reds, reds) == 6;
  }

  /** A repeated ticket number that the draw holds is counted once per slot. */
  lemma RepeatedNumberCountsTwice(x: string, rest: seq<string>, draw: seq<string>)
    requires x in draw
    ensures RedHits([x, x] + rest, draw) == 2 + RedHits(rest, draw)
  {
    RedHitsAppend([x, x], rest, draw);
    assert [x, x][..1] == [x];
  }
}
