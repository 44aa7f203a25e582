/** The replay told in plain sums over the log's executions (tools/audit-sim-db/audit-sim-db.ts:53-87, 392-438):
    turnover, fees charged, quantities bought and sold. Nothing here is defined through the replay's own
    settlement. */
module LedgerCash {
  import opened Text
  import opened Ledger
  import opened LedgerLaws

  predicate Counts(ex: Execution) { ex.status in {"filled", "partial"} }

  predicate Buys(ex: Execution) { Counts(ex) && ex.side == "BUY" }

  predicate Sells(ex: Execution) { Counts(ex) && ex.side == "SELL" }

  /** Price times quantity; a missing one counts as zero. */
  function Amount(ex: Execution): real {
    match (ex.fillPrice, ex.fillQuantity)
    case (Some(price), Some(quantity)) => price * quantity
    case _ => 0.0
  }

  function Turnover(ex: Execution): real {
    if Sells(ex) then Amount(ex) else if Buys(ex) then -Amount(ex) else 0.0
  }

  /** The fees an execution is charged: a redemption has none, whatever the row says. */
  function Charged(ex: Execution): real {
    if Buys(ex) || (Sells(ex) && ex.reason != Some("REDEMPTION")) then ex.fees else 0.0
  }

  function Bought(ex: Execution): real { if Buys(ex) && ex.fillQuantity.Some? then ex.fillQuantity.value else 0.0 }

  function Sold(ex: Execution): real { if Sells(ex) && ex.fillQuantity.Some? then ex.fillQuantity.value else 0.0 }

  function Total(log: seq<Execution>, f: Execution -> real): real {
    if log == [] then 0.0 else Total(log[..|log| - 1], f) + f(log[|log| - 1])
  }

  /** The same over the executions of p alone. */
  function TotalOf(log: seq<Execution>, p: int, f: Execution -> real): real {
    if log == [] then 0.0
    else
      var ex := log[|log| - 1];
      TotalOf(log[..|log| - 1], p, f) + if ex.position == p then f(ex) else 0.0
  }

  /** What one execution moves. */
  lemma EffectIsTurnoverLessFees(ex: Execution)
    ensures CashEffect(ex) == Turnover(ex) - Charged(ex)
  {
    assert Price(ex) * Qty(ex) == Amount(ex) by {
      if ex.fillPrice.None? { assert 0.0 * Qty(ex) == 0.0; }
      if ex.fillQuantity.None? { assert Price(ex) * 0.0 == 0.0; }
    }
  }

  /** Main result. Over every log the replayed cash is what was sold for, less what was paid, less the fees
      charged: those of buys and of sells that are no redemption. */
  lemma {:induction false} CashIsTurnoverLessFees(log: seq<Execution>)
    ensures NetCash(log) == Total(log, Turnover) - Total(log, Charged)
  {
    if log != [] {
      CashIsTurnoverLessFees(log[..|log| - 1]);
      EffectIsTurnoverLessFees(log[|log| - 1]);
    }
  }

  /** The same for one position. */
  lemma {:induction false} PositionCashIsTurnoverLessFees(log: seq<Execution>, p: int)
    ensures CashOf(log, p) == TotalOf(log, p, Turnover) - TotalOf(log, p, Charged)
  {
    if log != [] {
      PositionCashIsTurnoverLessFees(log[..|log| - 1], p);
      EffectIsTurnoverLessFees(log[|log| - 1]);
    }
  }

  /** A sell's fees lower its credit one for one; a redemption's do not count. */
  lemma FeesLowerTheCredit(ex: Execution, f: real, g: real)
    requires Sells(ex)
    ensures CashEffect(ex.(fees := f)) - CashEffect(ex.(fees := g))
         == if ex.reason == Some("REDEMPTION") then 0.0 else g - f
  {
    EffectIsTurnoverLessFees(ex.(fees := f));
    EffectIsTurnoverLessFees(ex.(fees := g));
  }

  // ---- quantities --------------------------------------------------------------------------------

  /** Positive buys and no negative sells of p, and at no moment more of it sold than bought. */
  predicate NeverShort(log: seq<Execution>, p: int) {
    log == [] ||
    (var ex := log[|log| - 1];
     && NeverShort(log[..|log| - 1], p)
     && (ex.position == p && Buys(ex) ==> Bought(ex) > 0.0)
     && (ex.position == p ==> Sold(ex) >= 0.0)
     && TotalOf(log, p, Sold) <= TotalOf(log, p, Bought))
  }

  predicate HasBought(log: seq<Execution>, p: int) {
    exists i :: 0 <= i < |log| && log[i].position == p && Buys(log[i])
  }

  lemma HasBoughtGrows(log: seq<Execution>, p: int)
    requires log != []
    ensures var k := |log| - 1;
            HasBought(log, p) <==> HasBought(log[..k], p) || (log[k].position == p && Buys(log[k]))
  {
    var k := |log| - 1;
    if HasBought(log, p) {
      var i :| 0 <= i < |log| && log[i].position == p && Buys(log[i]);
      if i < k { assert log[..k][i] == log[i]; }
    }
    if HasBought(log[..k], p) {
      var i :| 0 <= i < k && log[..k][i].position == p && Buys(log[..k][i]);
      assert log[i] == log[..k][i];
    }
  }

  /** A log that is never short buys positively and never oversells, and the basis holds what was bought and
      not sold. */
  lemma {:induction false} HeldIsBoughtLessSold(log: seq<Execution>, p: int)
    requires NeverShort(log, p)
    ensures PositiveBuysOf(log, p) && NoOversellOf(log, p)
    ensures EntryAfter(log, p).Some? <==> HasBought(log, p)
    ensures var held := if EntryAfter(log, p).Some? then EntryAfter(log, p).value.qty else 0.0;
            held == TotalOf(log, p, Bought) - TotalOf(log, p, Sold) >= 0.0
  {
    if log != [] {
      var front, ex := log[..|log| - 1], log[|log| - 1];
      HeldIsBoughtLessSold(front, p);
      NoOversellGrows(log, p);
      HasBoughtGrows(log, p);
      assert forall i :: 0 <= i < |front| ==> log[i] == front[i];
    }
  }

  /** Main result. A position never short that has sold all it bought has realized what it was sold for, less
      what it cost, less the fees charged. */
  lemma SoldOutRealizes(log: seq<Execution>, p: int)
    requires NeverShort(log, p) && HasBought(log, p) && TotalOf(log, p, Bought) == TotalOf(log, p, Sold)
    ensures RealizedOf(log, p) == Some(TotalOf(log, p, Turnover) - TotalOf(log, p, Charged))
  {
    HeldIsBoughtLessSold(log, p);
    FlatPositionPnl(log, p);
    PositionCashIsTurnoverLessFees(log, p);
  }

  lemma TotalOfTwo(a: Execution, b: Execution, f: Execution -> real)
    requires a.position == b.position
    ensures TotalOf([a, b], a.position, f) == f(a) + f(b)
    ensures TotalOf([a], a.position, f) == f(a)
  {
    assert [a, b][..1] == [a] && [a][..0] == [];
    assert TotalOf([a][..0], a.position, f) == 0.0;
    assert TotalOf([a], a.position, f) == f(a);
  }

  lemma OnceIsNeverShort(buy: Execution, sell: Execution, q: real)
    requires Buys(buy) && buy.fillQuantity == Some(q) && q > 0.0
    requires Sells(sell) && sell.fillQuantity == Some(q) && buy.position == sell.position
    ensures var log, p := [buy, sell], buy.position;
            NeverShort(log, p) && HasBought(log, p) && TotalOf(log, p, Bought) == TotalOf(log, p, Sold)
  {
    var p, log := buy.position, [buy, sell];
    assert log[..1] == [buy] && [buy][..0] == [];
    TotalOfTwo(buy, sell, Bought);
    TotalOfTwo(buy, sell, Sold);
    assert NeverShort([], p) && NeverShort([buy], p);
    assert log[0] == buy;
  }

  /** Bought and sold once: q at two prices, less both fees, or less the entry fee alone when redeemed. */
  lemma BuyThenSell(buy: Execution, sell: Execution, q: real, entry: real, exit: real)
    requires Buys(buy) && buy.fillPrice == Some(entry) && buy.fillQuantity == Some(q) && q > 0.0
    requires Sells(sell) && sell.fillPrice == Some(exit) && sell.fillQuantity == Some(q)
    requires buy.position == sell.position
    ensures RealizedOf([buy, sell], buy.position)
         == Some(q * (exit - entry) - buy.fees - if sell.reason == Some("REDEMPTION") then 0.0 else sell.fees)
  {
    var p, log := buy.position, [buy, sell];
    OnceIsNeverShort(buy, sell, q);
    TotalOfTwo(buy, sell, Turnover);
    TotalOfTwo(buy, sell, Charged);
    assert Turnover(sell) == exit * q && Turnover(buy) == -(entry * q);
    assert q * (exit - entry) == exit * q - entry * q;
    assert TotalOf(log, p, Turnover) == exit * q - entry * q;
    SoldOutRealizes(log, p);
  }

  // ---- entry fees ----------------------------------------------------------------------------------

  /** Sells of p alone, none negative and together within `held`. */
  predicate SellsWithin(sells: seq<Execution>, p: int, held: real) {
    sells == [] ||
    (var ex := sells[|sells| - 1];
     && SellsWithin(sells[..|sells| - 1], p, held)
     && ex.position == p && Sells(ex) && Sold(ex) >= 0.0 && TotalOf(sells, p, Sold) <= held)
  }

  lemma SellShrinksFees(e: Entry, ex: Execution)
    requires Sells(ex) && 0.0 <= Sold(ex) <= e.qty && e.qty > 0.0
    ensures var after := StepEntry(Some(e), ex);
            && after.Some? && after.value.price == e.price && after.value.qty == e.qty - Sold(ex)
            && after.value.fees * e.qty == e.fees * after.value.qty
  {
    var x := Qty(ex) / e.qty;
    DivTimes(Qty(ex), e.qty);
    assert (e.fees - e.fees * x) * e.qty == e.fees * e.qty - e.fees * (x * e.qty);
  }

  lemma RatioStep(f: real, q: real, f1: real, q1: real, f2: real, q2: real)
    requires f1 * q == f * q1 && f2 * q1 == f1 * q2 && q1 != 0.0
    ensures f2 * q == f * q2
  {
    assert (f2 * q) * q1 == (f2 * q1) * q == (f1 * q2) * q == (f1 * q) * q2 == (f * q1) * q2 == (f * q2) * q1;
    Cancel(f2 * q, q1, f * q2, q1);
  }

  /** What is left of a holding once `sold` of it is sold: the price stays, the fees in proportion to the quantity. */
  predicate LeftOf(e: Entry, sold: real, after: Option<Entry>) {
    && after.Some? && after.value.price == e.price && after.value.qty == e.qty - sold
    && after.value.fees * e.qty == e.fees * after.value.qty
  }

  lemma SellLeaves(e: Entry, sold: real, before: Entry, ex: Execution)
    requires e.qty > 0.0 && LeftOf(e, sold, Some(before))
    requires Sells(ex) && 0.0 <= Sold(ex) <= before.qty
    ensures LeftOf(e, sold + Sold(ex), StepEntry(Some(before), ex))
  {
    if before.qty > 0.0 {
      SellShrinksFees(before, ex);
      var after := StepEntry(Some(before), ex).value;
      RatioStep(e.fees, e.qty, before.fees, before.qty, after.fees, after.qty);
    }
  }

  /** Main result. However a holding is sold off, the entry fees not yet allocated stay in proportion to the
      quantity left, and the entry price stays. */
  lemma {:induction false} FeesFollowQuantity(e: Entry, sells: seq<Execution>, p: int)
    requires e.qty > 0.0 && SellsWithin(sells, p, e.qty)
    ensures LeftOf(e, TotalOf(sells, p, Sold), EntryFrom(Some(e), sells, p))
  {
    if sells == [] {
      assert e.qty - 0.0 == e.qty;
    } else {
      var front, ex := sells[..|sells| - 1], sells[|sells| - 1];
      FeesFollowQuantity(e, front, p);
      var sold, before := TotalOf(front, p, Sold), EntryFrom(Some(e), front, p);
      assert TotalOf(sells, p, Sold) == sold + Sold(ex);
      assert EntryFrom(Some(e), sells, p) == StepEntry(before, ex);
      SellLeaves(e, sold, before.value, ex);
    }
  }
}
