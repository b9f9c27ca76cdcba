/**
 The data flow from the history collector to the prize evaluator: the CSV
 file `save_history` writes is the cache file `trace_results` reads. The CSV
 writer and reader are parameters; the round trip holds for any pair in
 which the reader inverts the writer on the rows saved.
 */
module Pipeline {
  import opened Results
  import opened Files
  import Text
  import Draws
  import Collector
  import Prize

  /**
   The text of a CSV file: each row as `writeRow` renders it (up to, not
   including, its final newline), each followed by a newline.
   */
  function CsvText(rows: seq<seq<string>>, writeRow: seq<string> -> string): string {
    Text.Join(seq(|rows|, k requires 0 <= k < |rows| => writeRow(rows[k])) + [""], '\n')
  }

  /**
   What the round trip asks of the writer and reader on the data rows: each
   row is one non-empty line, and the reader gives the row back.
   */
  predicate RowsRoundTrip(rows: seq<seq<string>>, writeRow: seq<string> -> string, decode: string -> seq<string>) {
    forall k :: 0 <= k < |rows| ==>
      writeRow(rows[k]) != [] && '\n' !in writeRow(rows[k]) && decode(writeRow(rows[k])) == rows[k]
  }

  /** The lines of a CSV file after its header are its data rows, as the writer rendered them, in order. */
  lemma CsvDataLines(header: seq<string>, rows: seq<seq<string>>, writeRow: seq<string> -> string,
                     decode: string -> seq<string>)
    requires '\n' !in writeRow(header)
    requires RowsRoundTrip(rows, writeRow, decode)
    ensures Prize.DecodedRows(CsvText([header] + rows, writeRow), decode) == rows
  {
    var all := [header] + rows;
    var written := seq(|all|, k requires 0 <= k < |all| => writeRow(all[k]));
    var lines := seq(|rows|, k requires 0 <= k < |rows| => writeRow(rows[k]));
    assert written == [writeRow(header)] + lines;
    Prize.CacheLinesOfCsv(writeRow(header), lines);
  }

  /**
   Scoring the history file a collector saved scans exactly the collected
   rows, header dropped, one row after another in the collector's order:
   the same stream as scanning the container itself.
   */
  lemma SavedHistoryScored(myNums: seq<seq<string>>, c: Draws.History, fs: FileSystem, sp: FilePath,
                           readText: Content -> string, writeRow: seq<string> -> string,
                           decode: string -> seq<string>)
    requires sp != Collector.SidecarPath(c, sp)
    requires readText(Records([Draws.Header(c.game)] + c.container)) == CsvText([Draws.Header(c.game)] + c.container, writeRow)
    requires '\n' !in writeRow(Draws.Header(c.game))
    requires RowsRoundTrip(c.container, writeRow, decode)
    ensures Prize.TraceResultsAt(myNums, Collector.SaveHistory(c, fs, sp), sp, readText, decode)
            == Prize.ScanDraws(myNums, c.container)
  {
    var all := [Draws.Header(c.game)] + c.container;
    var after := Collector.SaveHistory(c, fs, sp);
    assert after[sp] == Records(all);
    CsvDataLines(Draws.Header(c.game), c.container, writeRow, decode);
  }

  /**
   In the scores of a saved history, the result at `Offset(j, |tickets|) + i`
   is ticket `i` scored against collected row `j`, with that row's term.
   */
  lemma SavedHistoryOrder(myNums: seq<seq<string>>, c: Draws.History, fs: FileSystem, sp: FilePath,
                          readText: Content -> string, writeRow: seq<string> -> string,
                          decode: string -> seq<string>, j: nat, i: nat)
    requires sp != Collector.SidecarPath(c, sp)
    requires readText(Records([Draws.Header(c.game)] + c.container)) == CsvText([Draws.Header(c.game)] + c.container, writeRow)
    requires '\n' !in writeRow(Draws.Header(c.game))
    requires RowsRoundTrip(c.container, writeRow, decode)
    requires Prize.TraceResultsAt(myNums, Collector.SaveHistory(c, fs, sp), sp, readText, decode).failure.None?
    requires j < |c.container| && i < |myNums|
    ensures var s := Prize.TraceResultsAt(myNums, Collector.SaveHistory(c, fs, sp), sp, readText, decode);
            && c.container[j] != []
            && Prize.Offset(j, |myNums|) + i < |s.items|
            && s.items[Prize.Offset(j, |myNums|) + i].0 == myNums[i]
            && Prize.Score(myNums[i], c.container[j][1..], Some(c.container[j][0]))
               == Ok(s.items[Prize.Offset(j, |myNums|) + i].1)
  {
    SavedHistoryScored(myNums, c, fs, sp, readText, writeRow, decode);
    Prize.ScanDrawsOrder(myNums, c.container, j, i);
  }

  /** Scoring before any history was saved fails at once with `FileNotFoundError`. */
  lemma MissingHistoryFails(myNums: seq<seq<string>>, fs: FileSystem, sp: FilePath,
                            readText: Content -> string, decode: string -> seq<string>)
    requires sp !in fs
    ensures Prize.TraceResultsAt(myNums, fs, sp, readText, decode).items == []
    ensures Prize.TraceResultsAt(myNums, fs, sp, readText, decode).failure == Some(FileNotFoundError)
  {
  }
}
