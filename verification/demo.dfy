/**
 The sample draw and tickets of the repository's demonstration script,
 scored by the prize evaluator.
 */
module Demo {
  import opened Results
  import opened Prize

  const DemoDraw: seq<string> := ["07", "09", "15", "16", "17", "26", "09"]
  const TicketOne: seq<string> := ["01", "07", "12", "18", "23", "25", "03"]
  const TicketTwo: seq<string> := ["02", "08", "13", "19", "21", "30", "09"]

  /** The first sample ticket shares only `07` with the draw and misses the blue ball: no prize. */
  lemma TicketOneWinsNothing()
    ensures var r := Score(TicketOne, DemoDraw, None);
            && r.Ok? && r.value.red == 1 && r.value.blue == 0
            && r.value.level == Code(NoPrize) && r.value.bonus == 0
  {
    assert Init(DemoDraw) == ["07", "09", "15", "16", "17", "26"];
    OneRedHitWinsNothing(TicketOne, DemoDraw, 1);
  }

  /** The second sample ticket shares no red number but holds the blue `09`: sixth prize, 5 yuan. */
  lemma TicketTwoWinsSixth()
    ensures var r := Score(TicketTwo, DemoDraw, None);
            && r.Ok? && r.value.red == 0 && r.value.blue == 1
            && r.value.level == Code(Sixth) && r.value.bonus == 5
  {
    assert Init(DemoDraw) == ["07", "09", "15", "16", "17", "26"];
    BlueOnlyWinsSixth(TicketTwo, DemoDraw);
  }
}
