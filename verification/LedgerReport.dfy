/** The equity figures of the audit report (tools/audit-sim-db/audit-sim-db.ts:352-378, 440-458, 533-534),
    for arbitrary marks, and when the printed "equity vs economic PnL" difference is zero. */
module LedgerReport {
  import opened Text
  import opened Ledger

  datatype PositionRow = PositionRow(
    id: int, status: string, quantity: real, entryPrice: real,
    entryFeesRemaining: Option<real>, realizedPnl: real)

  datatype Detail = Detail(id: int, value: real)

  predicate OpenLike(p: PositionRow) {
    p.status == "open" || p.status == "closing" || p.status == "pending_resolution"
  }

  predicate IsClosed(p: PositionRow) { p.status == "closed" }

  function Invested(p: PositionRow): real { p.quantity * p.entryPrice + ToNumber(p.entryFeesRemaining) }

  function DetailOf(p: PositionRow, mark: PositionRow -> real): Detail {
    Detail(p.id, p.quantity * mark(p))
  }

  function PositionsValue(rows: seq<PositionRow>, mark: PositionRow -> real): real {
    if rows == [] then 0.0
    else
      var p := rows[|rows| - 1];
      PositionsValue(rows[..|rows| - 1], mark) + if OpenLike(p) then p.quantity * mark(p) else 0.0
  }

  function OpenInvested(rows: seq<PositionRow>): real {
    if rows == [] then 0.0
    else
      var p := rows[|rows| - 1];
      OpenInvested(rows[..|rows| - 1]) + if OpenLike(p) then Invested(p) else 0.0
  }

  function ClosedRealized(rows: seq<PositionRow>): real {
    if rows == [] then 0.0
    else
      var p := rows[|rows| - 1];
      ClosedRealized(rows[..|rows| - 1]) + if IsClosed(p) then p.realizedPnl else 0.0
  }

  function Ids(rows: seq<PositionRow>): (ids: seq<int>)
    ensures |ids| == |rows|
    ensures forall i :: 0 <= i < |rows| ==> ids[i] == rows[i].id
  {
    seq(|rows|, i requires 0 <= i < |rows| => rows[i].id)
  }

  /** `openDetails.find(d => d.id === id)?.value ?? 0`: the first detail with that id. */
  function FindValue(details: seq<Detail>, id: int): real {
    if details == [] then 0.0
    else if details[0].id == id then details[0].value
    else FindValue(details[1..], id)
  }

  predicate Has(details: seq<Detail>, id: int) {
    details != [] && (details[0].id == id || Has(details[1..], id))
  }

  lemma {:induction false} FindInConcat(ds: seq<Detail>, extra: Detail, id: int)
    ensures Has(ds + [extra], id) == (Has(ds, id) || extra.id == id)
    ensures Has(ds, id) ==> FindValue(ds + [extra], id) == FindValue(ds, id)
    ensures !Has(ds, id) && extra.id == id ==> FindValue(ds + [extra], id) == extra.value
  {
    var all := ds + [extra];
    if ds == [] {
      assert all == [extra] && all[1..] == [];
    } else {
      assert all[0] == ds[0] && all[1..] == ds[1..] + [extra];
      FindInConcat(ds[1..], extra, id);
    }
  }

  /** What the first loop pushes for the open-like rows, in order. */
  function Details(rows: seq<PositionRow>, mark: PositionRow -> real): seq<Detail> {
    if rows == [] then []
    else
      var front, p := rows[..|rows| - 1], rows[|rows| - 1];
      if OpenLike(p) then Details(front, mark) + [DetailOf(p, mark)] else Details(front, mark)
  }

  lemma DetailsOfOne(p: PositionRow, mark: PositionRow -> real)
    ensures p.status in {"open", "closing", "pending_resolution"} ==>
      Details([p], mark) == [Detail(p.id, p.quantity * mark(p))]
    ensures p.status !in {"open", "closing", "pending_resolution"} ==> Details([p], mark) == []
  {
    var rows, d := [p], DetailOf(p, mark);
    assert rows[..|rows| - 1] == [] && rows[|rows| - 1] == p;
    assert Details(rows, mark) == if OpenLike(p) then [] + [d] else [];
    assert d == Detail(p.id, p.quantity * mark(p));
    assert [] + [d] == [d];
  }

  /** The details of two stretches of rows stand one after the other. */
  lemma {:induction false} DetailsInOrder(a: seq<PositionRow>, b: seq<PositionRow>, mark: PositionRow -> real)
    ensures Details(a + b, mark) == Details(a, mark) + Details(b, mark)
  {
    if b == [] {
      assert a + b == a;
    } else {
      var front, last := b[..|b| - 1], b[|b| - 1];
      assert (a + b)[..|a + b| - 1] == a + front && (a + b)[|a + b| - 1] == last;
      DetailsInOrder(a, front, mark);
      var before, d := Details(a, mark), DetailOf(last, mark);
      assert before + Details(front, mark) + [d] == before + (Details(front, mark) + [d]);
    }
  }

  lemma {:induction false} DetailIds(rows: seq<PositionRow>, mark: PositionRow -> real, id: int)
    ensures Has(Details(rows, mark), id) <==> exists i :: 0 <= i < |rows| && OpenLike(rows[i]) && rows[i].id == id
  {
    if rows != [] {
      var front, p := rows[..|rows| - 1], rows[|rows| - 1];
      DetailIds(front, mark, id);
      FindInConcat(Details(front, mark), DetailOf(p, mark), id);
      assert forall i :: 0 <= i < |front| ==> front[i] == rows[i];
      assert rows[|front|] == p;
    }
  }

  lemma {:induction false} DetailOfRow(rows: seq<PositionRow>, mark: PositionRow -> real, i: nat)
    requires i < |rows| && OpenLike(rows[i]) && Distinct(Ids(rows))
    ensures FindValue(Details(rows, mark), rows[i].id) == rows[i].quantity * mark(rows[i])
    decreases |rows|
  {
    var front, p := rows[..|rows| - 1], rows[|rows| - 1];
    assert Ids(front) == Ids(rows)[..|front|];
    DetailIds(front, mark, rows[i].id);
    FindInConcat(Details(front, mark), DetailOf(p, mark), rows[i].id);
    if i == |rows| - 1 {
      assert forall k :: 0 <= k < |front| ==> front[k].id == Ids(rows)[k];
      assert Ids(rows)[i] == p.id;
    } else {
      assert OpenLike(front[i]) && front[i].id == rows[i].id;
      DetailOfRow(front, mark, i);
    }
  }

  /** What the economic loop adds up. */
  function EconomicSum(rows: seq<PositionRow>, details: seq<Detail>): real {
    if rows == [] then 0.0
    else
      var p := rows[|rows| - 1];
      EconomicSum(rows[..|rows| - 1], details)
      + if OpenLike(p) then FindValue(details, p.id) - Invested(p) else 0.0
  }

  lemma {:induction false} EconomicIsValueMinusInvested(all: seq<PositionRow>, mark: PositionRow -> real, n: nat)
    requires n <= |all| && Distinct(Ids(all))
    ensures EconomicSum(all[..n], Details(all, mark)) == PositionsValue(all[..n], mark) - OpenInvested(all[..n])
  {
    if n > 0 {
      assert all[..n][..n - 1] == all[..n - 1] && all[..n][n - 1] == all[n - 1];
      EconomicIsValueMinusInvested(all, mark, n - 1);
      if OpenLike(all[n - 1]) { DetailOfRow(all, mark, n - 1); }
    }
  }

  method MarkPositions(rows: seq<PositionRow>, mark: PositionRow -> real)
    returns (positionsValue: real, openDetails: seq<Detail>)
    ensures positionsValue == PositionsValue(rows, mark)
    ensures openDetails == Details(rows, mark)
  {
    positionsValue, openDetails := 0.0, [];
    for i := 0 to |rows|
      invariant positionsValue == PositionsValue(rows[..i], mark)
      invariant openDetails == Details(rows[..i], mark)
    {
      var p := rows[i];
      assert rows[..i + 1][..i] == rows[..i];
      if OpenLike(p) {
        var value := p.quantity * mark(p);
        positionsValue := positionsValue + value;
        openDetails := openDetails + [DetailOf(p, mark)];
      }
    }
    assert rows[..|rows|] == rows;
  }

  /** The report's equity figures. The economic loop looks each open-like row up by id, so with the
      primary key's distinct ids it subtracts that row's invested cost from its own marked value. */
  method EquityFigures(rows: seq<PositionRow>, storedCash: real, netCashDelta: real, mark: PositionRow -> real)
    returns (equity: real, inferredInitialCapital: real, closedRealizedSum: real, openEconomicUnrl: real,
             equityVsEconomicPnlDelta: real)
    ensures equity == storedCash + PositionsValue(rows, mark)
    ensures inferredInitialCapital == storedCash - netCashDelta
    ensures closedRealizedSum == ClosedRealized(rows)
    ensures Distinct(Ids(rows)) ==> openEconomicUnrl == PositionsValue(rows, mark) - OpenInvested(rows)
    ensures equityVsEconomicPnlDelta == equity - (inferredInitialCapital + closedRealizedSum + openEconomicUnrl)
  {
    var positionsValue, openDetails := MarkPositions(rows, mark);
    equity := storedCash + positionsValue;
    inferredInitialCapital := storedCash - netCashDelta;
    closedRealizedSum, openEconomicUnrl := 0.0, 0.0;
    for i := 0 to |rows|
      invariant closedRealizedSum == ClosedRealized(rows[..i])
    {
      assert rows[..i + 1][..i] == rows[..i];
      if IsClosed(rows[i]) { closedRealizedSum := closedRealizedSum + rows[i].realizedPnl; }
    }
    for i := 0 to |rows|
      invariant openEconomicUnrl == EconomicSum(rows[..i], openDetails)
    {
      var p := rows[i];
      assert rows[..i + 1][..i] == rows[..i];
      if OpenLike(p) {
        var markValue, invested := FindValue(openDetails, p.id), Invested(p);
        openEconomicUnrl := openEconomicUnrl + (markValue - invested);
      }
    }
    assert rows[..|rows|] == rows;
    if Distinct(Ids(rows)) { EconomicIsValueMinusInvested(rows, mark, |rows|); }
    equityVsEconomicPnlDelta := equity - (inferredInitialCapital + closedRealizedSum + openEconomicUnrl);
  }

  // ---- the database rows agree with the replayed log -----------------------------------------

  /** The stored row says what the replay computes: open-like rows carry the replayed basis, every
      other position is flat, and closed rows store the replayed profit. */
  predicate RowAgrees(p: PositionRow, log: seq<Execution>) {
    && Cost(EntryAfter(log, p.id))
       == (if p.status in {"open", "closing", "pending_resolution"}
           then p.quantity * p.entryPrice + (match p.entryFeesRemaining case Some(fees) => fees case None => 0.0)
           else 0.0)
    && (p.status == "closed" ==> RealizedOf(log, p.id) == Some(p.realizedPnl))
  }

  predicate RowsAgree(rows: seq<PositionRow>, log: seq<Execution>) {
    && Distinct(Ids(rows)) && Covers(Ids(rows), log)
    && forall p :: p in rows ==> RowAgrees(p, log)
  }

  /** Profit already realized by partial sells of positions that are not closed yet. */
  function UnclosedRealized(rows: seq<PositionRow>, log: seq<Execution>): real {
    if rows == [] then 0.0
    else
      var p := rows[|rows| - 1];
      UnclosedRealized(rows[..|rows| - 1], log)
      + if p.status == "closed" then 0.0 else ToNumber(RealizedOf(log, p.id))
  }

  lemma {:induction false} SumsAgree(rows: seq<PositionRow>, log: seq<Execution>)
    requires forall p :: p in rows ==> RowAgrees(p, log)
    ensures Sum(Ids(rows), CostBy(log)) == OpenInvested(rows)
    ensures Sum(Ids(rows), RealizedBy(log)) == ClosedRealized(rows) + UnclosedRealized(rows, log)
  {
    if rows != [] {
      var front, p := rows[..|rows| - 1], rows[|rows| - 1];
      assert p in rows && RowAgrees(p, log);
      assert Ids(rows)[..|rows| - 1] == Ids(front);
      SumsAgree(front, log);
    }
  }

  /** Main result. For every log and every choice of marks, equity equals the inferred initial capital
      plus all replayed profit plus economic unrealized profit plus what was oversold; so the printed
      difference is the profit realized on positions not closed yet, plus what was oversold. */
  lemma EquityIdentity(rows: seq<PositionRow>, log: seq<Execution>, storedCash: real, mark: PositionRow -> real)
    requires RowsAgree(rows, log) && PositiveBuys(log)
    ensures var equity := storedCash + PositionsValue(rows, mark);
            var initial := storedCash - NetCash(log);
            var economic := PositionsValue(rows, mark) - OpenInvested(rows);
            var oversold := Sum(Ids(rows), LeakBy(log));
            && equity == initial + Sum(Ids(rows), RealizedBy(log)) + economic + oversold
            && equity - (initial + ClosedRealized(rows) + economic) == UnclosedRealized(rows, log) + oversold
  {
    CashConservation(log, Ids(rows));
    SumsAgree(rows, log);
  }

  lemma {:induction false} NothingOversold(log: seq<Execution>, p: int)
    requires NoOversell(log)
    ensures Leak(log, p) == 0.0
  {
    if log != [] {
      var front := log[..|log| - 1];
      forall i: nat | i < |front| ensures !OversellAt(front, i) {
        PrefixOversell(log, i);
      }
      NothingOversold(front, p);
      assert !OversellAt(log, |log| - 1);
    }
  }

  /** Main result. Without oversells, equity is initial capital plus realized plus economic unrealized
      profit for any marks, and the printed difference is zero exactly when the positions that are not
      closed have realized nothing. */
  lemma EquityWithoutOversell(rows: seq<PositionRow>, log: seq<Execution>, storedCash: real, mark: PositionRow -> real)
    requires RowsAgree(rows, log) && PositiveBuys(log) && NoOversell(log)
    ensures var equity := storedCash + PositionsValue(rows, mark);
            var initial := storedCash - NetCash(log);
            var economic := PositionsValue(rows, mark) - OpenInvested(rows);
            && equity == initial + Sum(Ids(rows), RealizedBy(log)) + economic
            && (equity - (initial + ClosedRealized(rows) + economic) == 0.0 <==> UnclosedRealized(rows, log) == 0.0)
  {
    EquityIdentity(rows, log, storedCash, mark);
    forall p | p in Ids(rows) ensures LeakBy(log)(p) == 0.0 {
      NothingOversold(log, p);
    }
    SumZeroIff(Ids(rows), LeakBy(log));
  }

  const EXAMPLE_BUY: Execution := Execution(1, 7, "BUY", None, Some(1.0), Some(20.0), 0.0, 0.0, "filled")
  const EXAMPLE_SELL: Execution := Execution(2, 7, "SELL", None, Some(1.5), Some(10.0), 0.0, 5.0, "filled")
  const EXAMPLE_ROW: PositionRow := PositionRow(7, "open", 10.0, 1.0, Some(0.0), 0.0)

  lemma ExampleSteps()
    ensures StepEntry(None, EXAMPLE_BUY) == Some(Entry(Some(1.0), 0.0, 20.0))
    ensures StepEntry(StepEntry(None, EXAMPLE_BUY), EXAMPLE_SELL) == Some(Entry(Some(1.0), 0.0, 10.0))
    ensures Pnl(StepEntry(None, EXAMPLE_BUY), EXAMPLE_SELL) == Some(5.0)
  {
  }

  lemma ReplayTwo(buy: Execution, sell: Execution)
    requires IsBuy(buy) && IsSell(sell) && buy.position == sell.position
    ensures var log := [buy, sell];
            && EntryAfter(log[..1], buy.position) == StepEntry(None, buy)
            && EntryAfter(log, buy.position) == StepEntry(StepEntry(None, buy), sell)
            && (Pnl(StepEntry(None, buy), sell).Some? ==>
                  && RealizedOf(log, buy.position).Some?
                  && RealizedOf(log, buy.position).value == Pnl(StepEntry(None, buy), sell).value)
  {
    var log := [buy, sell];
    assert log[..1] == [buy] && [buy][..0] == [];
    assert RealizedOf([], buy.position) == Some(0.0);
    assert RealizedOf([buy], buy.position).Some? && RealizedOf([buy], buy.position).value == 0.0;
  }

  lemma ExampleNotOversold()
    ensures NoOversell([EXAMPLE_BUY, EXAMPLE_SELL])
  {
    var log := [EXAMPLE_BUY, EXAMPLE_SELL];
    ReplayTwo(EXAMPLE_BUY, EXAMPLE_SELL);
    ExampleSteps();
    assert !OversellAt(log, 0) && !OversellAt(log, 1);
  }

  lemma ExampleCost()
    ensures Cost(EntryAfter([EXAMPLE_BUY, EXAMPLE_SELL], 7)) == 10.0 == Invested(EXAMPLE_ROW)
  {
    ReplayTwo(EXAMPLE_BUY, EXAMPLE_SELL);
    ExampleSteps();
  }

  lemma ExampleAgrees()
    ensures RowsAgree([EXAMPLE_ROW], [EXAMPLE_BUY, EXAMPLE_SELL])
  {
    var rows, log := [EXAMPLE_ROW], [EXAMPLE_BUY, EXAMPLE_SELL];
    ExampleCost();
    assert RowAgrees(EXAMPLE_ROW, log);
    assert Ids(rows)[0] == 7;
  }

  lemma ExampleRealized()
    ensures RealizedOf([EXAMPLE_BUY, EXAMPLE_SELL], 7).Some?
    ensures RealizedOf([EXAMPLE_BUY, EXAMPLE_SELL], 7).value == 5.0
  {
    ReplayTwo(EXAMPLE_BUY, EXAMPLE_SELL);
    ExampleSteps();
  }

  /** The report's equityVsEconomicPnlDelta, for given marks. */
  function ReportedDifference(rows: seq<PositionRow>, storedCash: real, netCashDelta: real,
                              mark: PositionRow -> real): real {
    var equity := storedCash + PositionsValue(rows, mark);
    var economic := PositionsValue(rows, mark) - OpenInvested(rows);
    equity - (storedCash - netCashDelta + ClosedRealized(rows) + economic)
  }

  lemma DifferenceWithoutOversell(rows: seq<PositionRow>, log: seq<Execution>, storedCash: real,
                                  mark: PositionRow -> real)
    requires RowsAgree(rows, log) && PositiveBuys(log) && NoOversell(log)
    ensures ReportedDifference(rows, storedCash, NetCash(log), mark) == UnclosedRealized(rows, log)
  {
    EquityIdentity(rows, log, storedCash, mark);
    forall p | p in Ids(rows) ensures LeakBy(log)(p) == 0.0 {
      NothingOversold(log, p);
    }
    SumZeroIff(Ids(rows), LeakBy(log));
  }

  /** The difference is not always zero: one open position, half sold at a profit of 5, shows 5 whatever the
      stored cash and the marks are. */
  lemma PartialSellShowsAsDifference() returns (rows: seq<PositionRow>, log: seq<Execution>)
    ensures RowsAgree(rows, log) && PositiveBuys(log) && NoOversell(log)
    ensures forall storedCash, mark :: ReportedDifference(rows, storedCash, NetCash(log), mark) == 5.0
  {
    rows, log := [EXAMPLE_ROW], [EXAMPLE_BUY, EXAMPLE_SELL];
    ExampleNotOversold();
    ExampleAgrees();
    ExampleRealized();
    assert rows[..0] == [] && UnclosedRealized([], log) == 0.0;
    forall storedCash, mark ensures ReportedDifference(rows, storedCash, NetCash(log), mark) == 5.0 {
      DifferenceWithoutOversell(rows, log, storedCash, mark);
    }
  }
}
