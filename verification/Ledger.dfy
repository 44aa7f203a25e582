/** The cash replay of the simulation audit tool (tools/audit-sim-db/audit-sim-db.ts).
    Money is `real`; a weighted entry price whose division is 0/0 or x/0 in the source is `None`
    ("not a finite number"), and stays so because every later price is computed from it. */
module Ledger {
  import opened Text

  datatype Execution = Execution(
    id: int, position: int, side: string, reason: Option<string>,
    fillPrice: Option<real>, fillQuantity: Option<real>,
    fees: real, realizedPnl: real, status: string)

  /** The cost basis kept for one position. */
  datatype Entry = Entry(price: Option<real>, fees: real, qty: real)

  datatype Settlement = Settlement(feeAlloc: real, exitFees: real, realizedPnl: Option<real>, cashCredit: real)

  function ToNumber(v: Option<real>): real { if v.Some? then v.value else 0.0 }

  predicate IsFilled(ex: Execution) { ex.status == "filled" || ex.status == "partial" }

  function Price(ex: Execution): real { ToNumber(ex.fillPrice) }

  function Qty(ex: Execution): real { ToNumber(ex.fillQuantity) }

  predicate IsBuy(ex: Execution) { IsFilled(ex) && ex.side == "BUY" }

  predicate IsSell(ex: Execution) { IsFilled(ex) && ex.side == "SELL" }

  function ComputeBuyCashDebit(fillPrice: real, fillQuantity: real, fees: real): real {
    fillPrice * fillQuantity + fees
  }

  function ComputeSellSettlement(isRedemption: bool, fillPrice: real, fillQuantity: real, inputFees: real,
                                 entryPrice: Option<real>, entryFeesRemaining: real,
                                 entryQuantityRemaining: real): Settlement
  {
    var feeAlloc := if entryQuantityRemaining > 0.0
                    then entryFeesRemaining * (fillQuantity / entryQuantityRemaining) else 0.0;
    var exitFees := if isRedemption then 0.0 else inputFees;
    var proceeds := fillPrice * fillQuantity;
    Settlement(
      feeAlloc, exitFees,
      if entryPrice.Some?
      then Some(proceeds - entryPrice.value * fillQuantity - exitFees - feeAlloc) else None,
      proceeds - exitFees)
  }

  /** What the replay loop computes for a sell, given the basis known so far. */
  function SettlementOf(e: Option<Entry>, ex: Execution): Settlement {
    ComputeSellSettlement(
      ex.reason == Some("REDEMPTION"), Price(ex), Qty(ex), ex.fees,
      if e.Some? then e.value.price else Some(0.0),
      if e.Some? then e.value.fees else 0.0,
      if e.Some? then e.value.qty else Qty(ex))
  }

  function MergedPrice(e: Entry, ex: Execution): Option<real> {
    if e.price.None? || e.qty + Qty(ex) == 0.0 then None
    else Some((e.qty * e.price.value + Qty(ex) * Price(ex)) / (e.qty + Qty(ex)))
  }

  function Max(a: real, b: real): real { if a < b then b else a }

  /** One execution's effect on its own position's basis. */
  function StepEntry(e: Option<Entry>, ex: Execution): Option<Entry> {
    if IsBuy(ex) then
      if e.None? then Some(Entry(Some(Price(ex)), ex.fees, Qty(ex)))
      else Some(Entry(MergedPrice(e.value, ex), e.value.fees + ex.fees, e.value.qty + Qty(ex)))
    else if IsSell(ex) && e.Some? then
      Some(e.value.(fees := e.value.fees - SettlementOf(e, ex).feeAlloc,
                    qty := Max(0.0, e.value.qty - Qty(ex))))
    else e
  }

  function CashEffect(ex: Execution): real {
    if IsBuy(ex) then -ComputeBuyCashDebit(Price(ex), Qty(ex), ex.fees)
    else if IsSell(ex) then SettlementOf(None, ex).cashCredit
    else 0.0
  }

  function Pnl(e: Option<Entry>, ex: Execution): Option<real> {
    if IsSell(ex) then SettlementOf(e, ex).realizedPnl else Some(0.0)
  }

  function AddNum(a: Option<real>, b: Option<real>): Option<real> {
    if a.Some? && b.Some? then Some(a.value + b.value) else None
  }

  // ---- one position's history inside an interleaved log ---------------------------------

  /** The basis of position p after `log`, starting from basis `e`. */
  function EntryFrom(e: Option<Entry>, log: seq<Execution>, p: int): Option<Entry> {
    if log == [] then e
    else
      var before := EntryFrom(e, log[..|log| - 1], p);
      var ex := log[|log| - 1];
      if ex.position == p then StepEntry(before, ex) else before
  }

  /** The profit realized by p's sells over `log`, as the replay computes it. */
  function RealizedFrom(e: Option<Entry>, log: seq<Execution>, p: int): Option<real> {
    if log == [] then Some(0.0)
    else
      var front := log[..|log| - 1];
      var ex := log[|log| - 1];
      if ex.position == p then AddNum(RealizedFrom(e, front, p), Pnl(EntryFrom(e, front, p), ex))
      else RealizedFrom(e, front, p)
  }

  /** Sell credits minus buy debits of p. */
  function CashOf(log: seq<Execution>, p: int): real {
    if log == [] then 0.0
    else
      var ex := log[|log| - 1];
      CashOf(log[..|log| - 1], p) + if ex.position == p then CashEffect(ex) else 0.0
  }

  function NetCash(log: seq<Execution>): real {
    if log == [] then 0.0 else NetCash(log[..|log| - 1]) + CashEffect(log[|log| - 1])
  }

  function EntryAfter(log: seq<Execution>, p: int): Option<Entry> { EntryFrom(None, log, p) }

  function RealizedOf(log: seq<Execution>, p: int): Option<real> { RealizedFrom(None, log, p) }

  /** Capital still locked in the position: basis times quantity, plus entry fees not yet allocated. */
  function Cost(e: Option<Entry>): real {
    if e.Some? && e.value.price.Some? then e.value.price.value * e.value.qty + e.value.fees else 0.0
  }

  /** Cash paid out for quantity the position did not hold, valued at the entry price. */
  function Oversold(e: Option<Entry>, ex: Execution): real {
    if IsSell(ex) && e.Some? && e.value.price.Some? && Qty(ex) > e.value.qty
    then e.value.price.value * (Qty(ex) - e.value.qty) else 0.0
  }

  function Leak(log: seq<Execution>, p: int): real {
    if log == [] then 0.0
    else
      var front := log[..|log| - 1];
      var ex := log[|log| - 1];
      Leak(front, p) + if ex.position == p then Oversold(EntryAfter(front, p), ex) else 0.0
  }

  predicate PositiveBuys(log: seq<Execution>) {
    forall i :: 0 <= i < |log| && IsBuy(log[i]) ==> Qty(log[i]) > 0.0
  }

  predicate PositiveBuysOf(log: seq<Execution>, p: int) {
    forall i :: 0 <= i < |log| && log[i].position == p && IsBuy(log[i]) ==> Qty(log[i]) > 0.0
  }

  predicate OversellAt(log: seq<Execution>, i: nat)
    requires i < |log|
  {
    var e := EntryAfter(log[..i], log[i].position);
    IsSell(log[i]) && e.Some? && Qty(log[i]) > e.value.qty
  }

  predicate NoOversell(log: seq<Execution>) {
    forall i: nat :: i < |log| ==> !OversellAt(log, i)
  }

  // ---- the replay loop --------------------------------------------------------------------

  method ReplayExecutions(executions: seq<Execution>) returns (netCashDelta: real, positionState: map<int, Entry>)
    ensures netCashDelta == NetCash(executions)
    ensures forall p :: p in positionState <==> EntryAfter(executions, p).Some?
    ensures forall p :: p in positionState ==> Some(positionState[p]) == EntryAfter(executions, p)
  {
    netCashDelta := 0.0;
    positionState := map[];
    for i := 0 to |executions|
      invariant netCashDelta == NetCash(executions[..i])
      invariant forall p :: p in positionState <==> EntryAfter(executions[..i], p).Some?
      invariant forall p :: p in positionState ==> Some(positionState[p]) == EntryAfter(executions[..i], p)
    {
      var ex := executions[i];
      assert executions[..i + 1][..i] == executions[..i];
      if !IsFilled(ex) { continue; }
      var price, qty := ToNumber(ex.fillPrice), ToNumber(ex.fillQuantity);
      if ex.side == "BUY" {
        netCashDelta := netCashDelta - ComputeBuyCashDebit(price, qty, ex.fees);
        if ex.position !in positionState {
          positionState := positionState[ex.position := Entry(Some(price), ex.fees, qty)];
        } else {
          var st := positionState[ex.position];
          positionState := positionState[ex.position :=
            Entry(MergedPrice(st, ex), st.fees + ex.fees, st.qty + qty)];
        }
      } else if ex.side == "SELL" {
        var known := if ex.position in positionState then Some(positionState[ex.position]) else None;
        var settlement := SettlementOf(known, ex);
        netCashDelta := netCashDelta + settlement.cashCredit;
        if known.Some? {
          var st := known.value;
          positionState := positionState[ex.position :=
            st.(fees := st.fees - settlement.feeAlloc, qty := Max(0.0, st.qty - qty))];
        }
      }
    }
    assert executions[..|executions|] == executions;
  }

  // ---- conservation -------------------------------------------------------------------------

  lemma DivTimes(x: real, y: real)
    requires y != 0.0
    ensures x / y * y == x
  {
  }

  lemma SellConserves(e: Entry, ex: Execution)
    requires IsSell(ex) && e.price.Some? && e.qty >= 0.0
    ensures Pnl(Some(e), ex).Some?
    ensures CashEffect(ex)
         == Pnl(Some(e), ex).value - (Cost(StepEntry(Some(e), ex)) - Cost(Some(e))) + Oversold(Some(e), ex)
  {
    var E, R, q := e.price.value, e.qty, Qty(ex);
    var s := SettlementOf(Some(e), ex);
    var after := Entry(Some(E), e.fees - s.feeAlloc, Max(0.0, R - q));
    assert StepEntry(Some(e), ex) == Some(after);
    assert s.realizedPnl.value == s.cashCredit - E * q - s.feeAlloc;
    if q > R {
      assert E * (q - R) == E * q - E * R;
    } else {
      assert E * (R - q) == E * R - E * q;
    }
  }

  lemma BuyConserves(e: Option<Entry>, ex: Execution)
    requires IsBuy(ex)
    requires e.Some? ==> e.value.price.Some? && e.value.qty + Qty(ex) != 0.0
    ensures CashEffect(ex) == Cost(e) - Cost(StepEntry(e, ex))
  {
    if e.Some? {
      var total := e.value.qty * e.value.price.value + Qty(ex) * Price(ex);
      DivTimes(total, e.value.qty + Qty(ex));
    }
  }

  /** A single execution moves cash by realized profit minus the change in locked capital,
      plus whatever was oversold. */
  lemma StepConserves(e: Option<Entry>, ex: Execution)
    requires e.Some? ==> e.value.price.Some?
    requires IsBuy(ex) && e.Some? ==> e.value.qty + Qty(ex) != 0.0
    requires e.Some? ==> e.value.qty >= 0.0
    ensures Pnl(e, ex).Some?
    ensures CashEffect(ex) == Pnl(e, ex).value - (Cost(StepEntry(e, ex)) - Cost(e)) + Oversold(e, ex)
  {
    if IsBuy(ex) {
      BuyConserves(e, ex);
    } else if IsSell(ex) && e.Some? {
      SellConserves(e.value, ex);
    }
  }

  lemma {:induction false} QuantityStaysDefined(log: seq<Execution>, p: int)
    requires PositiveBuysOf(log, p)
    ensures var e := EntryAfter(log, p); e.Some? ==> e.value.price.Some? && e.value.qty >= 0.0
  {
    if log != [] {
      QuantityStaysDefined(log[..|log| - 1], p);
    }
  }

  /** Per position, over every log with positive buys of it: sell credits minus buy debits equal realized
      profit minus locked capital, plus the oversold amounts. */
  lemma {:induction false} PositionConservation(log: seq<Execution>, p: int)
    requires PositiveBuysOf(log, p)
    ensures RealizedOf(log, p).Some?
    ensures CashOf(log, p) == RealizedOf(log, p).value - Cost(EntryAfter(log, p)) + Leak(log, p)
  {
    if log != [] {
      var front, ex := log[..|log| - 1], log[|log| - 1];
      PositionConservation(front, p);
      QuantityStaysDefined(front, p);
      if ex.position == p { StepConserves(EntryAfter(front, p), ex); }
    }
  }

  // ---- summing over positions -------------------------------------------------------------

  predicate Distinct(ids: seq<int>) {
    forall i, j :: 0 <= i < j < |ids| ==> ids[i] != ids[j]
  }

  predicate Covers(ids: seq<int>, log: seq<Execution>) {
    forall i :: 0 <= i < |log| ==> log[i].position in ids
  }

  function Sum(ids: seq<int>, f: int -> real): real {
    if ids == [] then 0.0 else Sum(ids[..|ids| - 1], f) + f(ids[|ids| - 1])
  }

  lemma {:induction false} SumBump(ids: seq<int>, f: int -> real, g: int -> real, k: int, d: real)
    requires Distinct(ids)
    requires forall i :: i in ids && i != k ==> g(i) == f(i)
    requires k in ids ==> g(k) == f(k) + d
    ensures Sum(ids, g) == Sum(ids, f) + if k in ids then d else 0.0
  {
    if ids != [] {
      var front := ids[..|ids| - 1];
      assert ids == front + [ids[|ids| - 1]];
      SumBump(front, f, g, k, d);
    }
  }

  lemma {:induction false} SumCombines(ids: seq<int>, a: int -> real, b: int -> real, c: int -> real, d: int -> real)
    requires forall i :: i in ids ==> a(i) == b(i) - c(i) + d(i)
    ensures Sum(ids, a) == Sum(ids, b) - Sum(ids, c) + Sum(ids, d)
  {
    if ids != [] {
      var front := ids[..|ids| - 1];
      var last := ids[|ids| - 1];
      assert ids == front + [last] && last in ids;
      SumCombines(front, a, b, c, d);
    }
  }

  function CashBy(log: seq<Execution>): int -> real { p => CashOf(log, p) }

  function RealizedBy(log: seq<Execution>): int -> real { p => ToNumber(RealizedOf(log, p)) }

  function CostBy(log: seq<Execution>): int -> real { p => Cost(EntryAfter(log, p)) }

  function LeakBy(log: seq<Execution>): int -> real { p => Leak(log, p) }

  lemma {:induction false} SumZeroIff(ids: seq<int>, f: int -> real)
    requires forall i :: i in ids ==> f(i) >= 0.0
    ensures Sum(ids, f) >= 0.0
    ensures Sum(ids, f) == 0.0 <==> forall i :: i in ids ==> f(i) == 0.0
  {
    if ids != [] {
      var front := ids[..|ids| - 1];
      var last := ids[|ids| - 1];
      assert ids == front + [last] && last in ids;
      SumZeroIff(front, f);
    }
  }

  lemma {:induction false} NetCashSplitsByPosition(log: seq<Execution>, ids: seq<int>)
    requires Distinct(ids) && Covers(ids, log)
    ensures NetCash(log) == Sum(ids, CashBy(log))
  {
    if log == [] {
      SumZeroIff(ids, CashBy([]));
    } else {
      var front := log[..|log| - 1];
      var ex := log[|log| - 1];
      NetCashSplitsByPosition(front, ids);
      SumBump(ids, CashBy(front), CashBy(log), ex.position, CashEffect(ex));
    }
  }

  /** The conservation law with its exact error term, over every log and any covering id list. */
  lemma CashConservation(log: seq<Execution>, ids: seq<int>)
    requires PositiveBuys(log) && Distinct(ids) && Covers(ids, log)
    ensures NetCash(log) == Sum(ids, RealizedBy(log)) - Sum(ids, CostBy(log)) + Sum(ids, LeakBy(log))
  {
    NetCashSplitsByPosition(log, ids);
    forall p | p in ids
      ensures CashBy(log)(p) == RealizedBy(log)(p) - CostBy(log)(p) + LeakBy(log)(p)
    {
      PositionConservation(log, p);
    }
    SumCombines(ids, CashBy(log), RealizedBy(log), CostBy(log), LeakBy(log));
  }

  // ---- when the law holds without the error term ----------------------------------------

  predicate PositivePrices(log: seq<Execution>) {
    forall i :: 0 <= i < |log| && IsBuy(log[i]) ==> Price(log[i]) > 0.0
  }

  lemma MeanPositive(r: real, e: real, q: real, p: real)
    requires r >= 0.0 && q > 0.0 && e > 0.0 && p > 0.0
    ensures (r * e + q * p) / (r + q) > 0.0
  {
    assert r * e >= 0.0 && q * p > 0.0;
  }

  lemma {:induction false} EntryPricePositive(log: seq<Execution>, p: int)
    requires PositiveBuys(log) && PositivePrices(log)
    ensures var e := EntryAfter(log, p);
            e.Some? ==> e.value.price.Some? && e.value.price.value > 0.0 && e.value.qty >= 0.0
  {
    if log != [] {
      var front, ex := log[..|log| - 1], log[|log| - 1];
      EntryPricePositive(front, p);
      var e := EntryAfter(front, p);
      if ex.position == p && IsBuy(ex) && e.Some? {
        MeanPositive(e.value.qty, e.value.price.value, Qty(ex), Price(ex));
      }
    }
  }

  predicate NoOversellOf(log: seq<Execution>, p: int) {
    forall i: nat :: i < |log| && log[i].position == p ==> !OversellAt(log, i)
  }

  lemma PrefixOversell(log: seq<Execution>, i: nat)
    requires i < |log| - 1
    ensures OversellAt(log[..|log| - 1], i) == OversellAt(log, i)
  {
    assert log[..|log| - 1][..i] == log[..i];
  }

  lemma NoOversellGrows(log: seq<Execution>, p: int)
    requires log != []
    ensures var k := |log| - 1;
            NoOversellOf(log, p) <==>
              NoOversellOf(log[..k], p) && (log[k].position == p ==> !OversellAt(log, k))
  {
    var k := |log| - 1;
    var front := log[..k];
    forall i: nat | i < k ensures front[i] == log[i] && OversellAt(front, i) == OversellAt(log, i) {
      PrefixOversell(log, i);
    }
  }

  lemma OversoldSign(e: Option<Entry>, ex: Execution)
    requires e.Some? ==> e.value.price.Some? && e.value.price.value > 0.0
    ensures Oversold(e, ex) >= 0.0
    ensures Oversold(e, ex) == 0.0 <==> !(IsSell(ex) && e.Some? && Qty(ex) > e.value.qty)
  {
  }

  /** With positive prices the error term never helps: it is zero exactly when nothing was oversold. */
  lemma {:induction false} LeakSign(log: seq<Execution>, p: int)
    requires PositiveBuys(log) && PositivePrices(log)
    ensures Leak(log, p) >= 0.0
    ensures Leak(log, p) == 0.0 <==> NoOversellOf(log, p)
  {
    if log != [] {
      var front, ex := log[..|log| - 1], log[|log| - 1];
      LeakSign(front, p);
      EntryPricePositive(front, p);
      OversoldSign(EntryAfter(front, p), ex);
      NoOversellGrows(log, p);
    }
  }

  /** Main result. With positive buy quantities and prices, replayed cash equals realized profit minus
      locked capital if and only if no sell exceeds the quantity its position still holds. */
  lemma ConservationExactlyWithoutOversell(log: seq<Execution>, ids: seq<int>)
    requires PositiveBuys(log) && PositivePrices(log) && Distinct(ids) && Covers(ids, log)
    ensures NetCash(log) == Sum(ids, RealizedBy(log)) - Sum(ids, CostBy(log)) <==> NoOversell(log)
  {
    CashConservation(log, ids);
    forall p ensures Leak(log, p) >= 0.0 && (Leak(log, p) == 0.0 <==> NoOversellOf(log, p)) {
      LeakSign(log, p);
    }
    SumZeroIff(ids, LeakBy(log));
    if Sum(ids, LeakBy(log)) == 0.0 {
      forall i: nat | i < |log| ensures !OversellAt(log, i) {
        assert LeakBy(log)(log[i].position) == 0.0;
        assert NoOversellOf(log, log[i].position);
      }
    }
    if NoOversell(log) {
      forall p | p in ids ensures LeakBy(log)(p) == 0.0 {
        assert NoOversellOf(log, p);
      }
    }
  }
}
