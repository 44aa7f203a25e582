/** Laws of the replay that relate different logs: splitting a sell, reordering buys, and the
    bounds every legal log keeps (tools/audit-sim-db/audit-sim-db.ts:61-87, 397-437). */
module LedgerLaws {
  import opened Text
  import opened Ledger

  // ---- one log inside another ---------------------------------------------------------------

  /** Two stretches of executions that position p cannot tell apart when it starts from basis e. */
  predicate SameEffect(e: Option<Entry>, a: seq<Execution>, b: seq<Execution>, p: int) {
    && EntryFrom(e, a, p) == EntryFrom(e, b, p)
    && RealizedFrom(e, a, p) == RealizedFrom(e, b, p)
    && CashOf(a, p) == CashOf(b, p)
  }

  lemma {:induction false} ConcatEffect(e: Option<Entry>, a: seq<Execution>, b: seq<Execution>, p: int)
    ensures EntryFrom(e, a + b, p) == EntryFrom(EntryFrom(e, a, p), b, p)
    ensures RealizedFrom(e, a + b, p)
         == AddNum(RealizedFrom(e, a, p), RealizedFrom(EntryFrom(e, a, p), b, p))
    ensures CashOf(a + b, p) == CashOf(a, p) + CashOf(b, p)
  {
    if b == [] {
      assert a + b == a;
    } else {
      var front, last := b[..|b| - 1], b[|b| - 1];
      ConcatEffect(e, a, front, p);
      assert (a + b)[..|a + b| - 1] == a + front && (a + b)[|a + b| - 1] == last;
    }
  }

  lemma SameEffectExtends(e: Option<Entry>, a: seq<Execution>, b: seq<Execution>, post: seq<Execution>, p: int)
    requires SameEffect(e, a, b, p)
    ensures SameEffect(e, a + post, b + post, p)
  {
    ConcatEffect(e, a, post, p);
    ConcatEffect(e, b, post, p);
  }

  /** Replacing a stretch by one of the same effect changes nothing, whatever surrounds it. */
  lemma SameEffectInContext(pre: seq<Execution>, a: seq<Execution>, b: seq<Execution>,
                            post: seq<Execution>, p: int)
    requires SameEffect(EntryAfter(pre, p), a, b, p)
    ensures SameEffect(None, pre + a + post, pre + b + post, p)
  {
    ConcatEffect(None, pre, a, p);
    ConcatEffect(None, pre, b, p);
    SameEffectExtends(None, pre + a, pre + b, post, p);
  }

  // ---- splitting a sell ---------------------------------------------------------------------

  function TotalQty(parts: seq<Execution>): real {
    if parts == [] then 0.0 else TotalQty(parts[..|parts| - 1]) + Qty(parts[|parts| - 1])
  }

  function TotalFees(parts: seq<Execution>): real {
    if parts == [] then 0.0 else TotalFees(parts[..|parts| - 1]) + parts[|parts| - 1].fees
  }

  /** A partial fill of `whole`: same position, price, side and reason, its own quantity and fees. */
  predicate PartOf(part: Execution, whole: Execution) {
    && IsSell(part) && part.position == whole.position && Price(part) == Price(whole)
    && part.reason == whole.reason && Qty(part) >= 0.0
  }

  function Merged(whole: Execution, parts: seq<Execution>): Execution {
    whole.(fillQuantity := Some(TotalQty(parts)), fees := TotalFees(parts))
  }

  lemma DivUnique(v: real, n: real, d: real)
    requires d != 0.0 && v * d == n
    ensures v == n / d
  {
  }

  /** Taking the pro-rata fee of q1 and then of q2 takes the pro-rata fee of q1 + q2. */
  lemma ProRataTwice(F: real, R: real, q1: real, q2: real)
    requires R > 0.0 && R - q1 > 0.0
    ensures F * (q1 / R) + (F - F * (q1 / R)) * (q2 / (R - q1)) == F * ((q1 + q2) / R)
  {
    var x, y := q1 / R, q2 / (R - q1);
    assert x * R == q1 && y * (R - q1) == q2;
    assert (1.0 - x) * R == R - q1;
    assert ((1.0 - x) * y) * R == y * ((1.0 - x) * R);
    assert (x + (1.0 - x) * y) * R == q1 + q2;
    DivUnique(x + (1.0 - x) * y, q1 + q2, R);
    assert F * x + (F - F * x) * y == F * (x + (1.0 - x) * y);
  }

  lemma Cancel(v: real, d: real, w: real, d2: real)
    requires d != 0.0 && d == d2 && v * d == w * d2
    ensures v == w
  {
    DivUnique(v, w * d, d);
    DivUnique(w, w * d, d);
  }

  /** The basis left by two partial sells is the basis left by their sum. */
  lemma SellTwiceBasis(b: Entry, s1: Execution, s2: Execution, whole: Execution)
    requires IsSell(whole) && PartOf(s1, whole) && PartOf(s2, whole)
    requires Qty(whole) == Qty(s1) + Qty(s2) && b.qty >= Qty(whole)
    ensures StepEntry(StepEntry(Some(b), s1), s2) == StepEntry(Some(b), whole)
    ensures SettlementOf(Some(b), s1).feeAlloc + SettlementOf(StepEntry(Some(b), s1), s2).feeAlloc
         == SettlementOf(Some(b), whole).feeAlloc
  {
    var q1, q2 := Qty(s1), Qty(s2);
    var mid := StepEntry(Some(b), s1).value;
    assert mid.qty == b.qty - q1;
    if b.qty > 0.0 {
      assert SettlementOf(Some(b), s1).feeAlloc == b.fees * (q1 / b.qty);
      if b.qty - q1 > 0.0 { ProRataTwice(b.fees, b.qty, q1, q2); }
    }
    var after, once := StepEntry(Some(mid), s2).value, StepEntry(Some(b), whole).value;
    assert after.fees == once.fees && after.qty == once.qty;
  }

  lemma Distribute(p: real, q1: real, q2: real)
    ensures p * (q1 + q2) == p * q1 + p * q2
  {
  }

  lemma CashTwice(s1: Execution, s2: Execution, whole: Execution)
    requires IsSell(whole) && PartOf(s1, whole) && PartOf(s2, whole)
    requires Qty(whole) == Qty(s1) + Qty(s2) && whole.fees == s1.fees + s2.fees
    ensures CashEffect(s1) + CashEffect(s2) == CashEffect(whole)
  {
    Distribute(Price(whole), Qty(s1), Qty(s2));
  }

  lemma ZeroFees(q: real)
    ensures q > 0.0 ==> 0.0 * (q / q) == 0.0
  {
  }

  /** A sell's profit in terms of its cash credit: the sold share of the basis is taken off. */
  lemma SellPnl(e: Option<Entry>, ex: Execution)
    requires IsSell(ex)
    ensures SettlementOf(e, ex).cashCredit == CashEffect(ex)
    ensures e.None? ==> Pnl(e, ex).Some? && Pnl(e, ex).value == CashEffect(ex)
    ensures e.Some? && e.value.price.Some? ==>
      && Pnl(e, ex).Some?
      && Pnl(e, ex).value == CashEffect(ex) - e.value.price.value * Qty(ex) - SettlementOf(e, ex).feeAlloc
  {
    if e.None? { ZeroFees(Qty(ex)); }
  }

  /** The profits of two partial sells, given that their fee shares and cash credits add up. */
  lemma PnlTwice(e: Option<Entry>, e1: Option<Entry>, s1: Execution, s2: Execution, whole: Execution)
    requires IsSell(whole) && IsSell(s1) && IsSell(s2)
    requires Qty(whole) == Qty(s1) + Qty(s2) && CashEffect(s1) + CashEffect(s2) == CashEffect(whole)
    requires e.None? <==> e1.None?
    requires e.Some? ==> e1.value.price == e.value.price
    requires e.Some? ==>
      SettlementOf(e, s1).feeAlloc + SettlementOf(e1, s2).feeAlloc == SettlementOf(e, whole).feeAlloc
    ensures AddNum(Pnl(e, s1), Pnl(e1, s2)) == Pnl(e, whole)
  {
    if e.None? || e.value.price.Some? {
      SellPnl(e, s1);
      SellPnl(e1, s2);
      SellPnl(e, whole);
      if e.Some? { Distribute(e.value.price.value, Qty(s1), Qty(s2)); }
      assert Pnl(e, s1).value + Pnl(e1, s2).value == Pnl(e, whole).value;
    }
  }

  /** Two partial sells of one position, against the sell of their sum. */
  lemma SellTwice(e: Option<Entry>, s1: Execution, s2: Execution, whole: Execution)
    requires IsSell(whole) && PartOf(s1, whole) && PartOf(s2, whole)
    requires Qty(whole) == Qty(s1) + Qty(s2) && whole.fees == s1.fees + s2.fees
    requires e.Some? ==> e.value.qty >= Qty(whole)
    ensures StepEntry(StepEntry(e, s1), s2) == StepEntry(e, whole)
    ensures AddNum(Pnl(e, s1), Pnl(StepEntry(e, s1), s2)) == Pnl(e, whole)
    ensures CashEffect(s1) + CashEffect(s2) == CashEffect(whole)
  {
    CashTwice(s1, s2, whole);
    if e.Some? { SellTwiceBasis(e.value, s1, s2, whole); }
    PnlTwice(e, StepEntry(e, s1), s1, s2, whole);
  }

  lemma {:induction false} QtyNonNegative(parts: seq<Execution>, whole: Execution)
    requires forall i :: 0 <= i < |parts| ==> PartOf(parts[i], whole)
    ensures TotalQty(parts) >= 0.0
  {
    if parts != [] {
      QtyNonNegative(parts[..|parts| - 1], whole);
    }
  }

  /** A sell fill split into any number of fills at the same price, with additive exit
      fees and within the held quantity, has exactly the effect of the single fill. */
  lemma {:induction false} SplitSell(e: Option<Entry>, whole: Execution, parts: seq<Execution>)
    requires IsSell(whole) && parts != []
    requires forall i :: 0 <= i < |parts| ==> PartOf(parts[i], whole)
    requires Qty(whole) == TotalQty(parts) && whole.fees == TotalFees(parts)
    requires e.Some? ==> e.value.qty >= Qty(whole)
    ensures SameEffect(e, parts, [whole], whole.position)
    decreases |parts|
  {
    var p := whole.position;
    var front, last := parts[..|parts| - 1], parts[|parts| - 1];
    assert [whole][..0] == [];
    assert EntryFrom(e, [whole], p) == StepEntry(e, whole);
    assert RealizedFrom(e, [whole], p) == AddNum(Some(0.0), Pnl(e, whole));
    assert CashOf([whole], p) == CashEffect(whole);
    if front == [] {
      assert TotalQty(front) == 0.0 && TotalFees(front) == 0.0;
    } else {
      var merged := Merged(whole, front);
      assert Qty(last) >= 0.0;
      QtyNonNegative(front, whole);
      assert IsSell(merged) && Qty(merged) == TotalQty(front);
      forall i | 0 <= i < |front| ensures PartOf(front[i], merged) {
        assert PartOf(parts[i], whole);
      }
      SplitSell(e, merged, front);
      assert [merged][..0] == [];
      SellTwice(e, merged, last, whole);
    }
  }

  /** Executions of other positions leave p alone. */
  lemma {:induction false} OtherPositions(e: Option<Entry>, xs: seq<Execution>, p: int)
    requires forall x :: x in xs ==> x.position != p
    ensures EntryFrom(e, xs, p) == e && RealizedFrom(e, xs, p) == Some(0.0) && CashOf(xs, p) == 0.0
  {
    if xs != [] {
      var front, last := xs[..|xs| - 1], xs[|xs| - 1];
      assert last in xs;
      OtherPositions(e, front, p);
    }
  }

  /** Main result. Inside any log, splitting a sell that stays within the held quantity changes
      neither the basis, the realized profit nor the cash of any position. */
  lemma SplitSellInLog(pre: seq<Execution>, whole: Execution, parts: seq<Execution>, post: seq<Execution>, p: int)
    requires IsSell(whole) && parts != []
    requires forall i :: 0 <= i < |parts| ==> PartOf(parts[i], whole)
    requires Qty(whole) == TotalQty(parts) && whole.fees == TotalFees(parts)
    requires var e := EntryAfter(pre, whole.position); e.Some? ==> e.value.qty >= Qty(whole)
    ensures SameEffect(None, pre + parts + post, pre + [whole] + post, p)
  {
    var e := EntryAfter(pre, p);
    if p == whole.position {
      SplitSell(e, whole, parts);
    } else {
      OtherPositions(e, parts, p);
      OtherPositions(e, [whole], p);
    }
    SameEffectInContext(pre, parts, [whole], post, p);
  }

  // ---- reordering buys ------------------------------------------------------------------------

  predicate IsPositiveBuy(x: Execution) { IsBuy(x) && Qty(x) > 0.0 }

  predicate AllBuys(xs: seq<Execution>) { forall x :: x in xs ==> IsPositiveBuy(x) }

  lemma AllBuysConcat(a: seq<Execution>, b: seq<Execution>)
    ensures AllBuys(a + b) <==> AllBuys(a) && AllBuys(b)
  {
    assert forall x :: x in a + b <==> x in a || x in b;
  }

  lemma LastBuy(xs: seq<Execution>)
    requires xs != [] && AllBuys(xs)
    ensures AllBuys(xs[..|xs| - 1]) && IsPositiveBuy(xs[|xs| - 1])
  {
    assert xs == xs[..|xs| - 1] + [xs[|xs| - 1]];
    AllBuysConcat(xs[..|xs| - 1], [xs[|xs| - 1]]);
    assert xs[|xs| - 1] in xs;
  }

  lemma EntrySnoc(e: Option<Entry>, xs: seq<Execution>, x: Execution, p: int)
    ensures EntryFrom(e, xs + [x], p)
         == if x.position == p then StepEntry(EntryFrom(e, xs, p), x) else EntryFrom(e, xs, p)
  {
    assert (xs + [x])[..|xs|] == xs;
  }

  predicate Held(e: Option<Entry>) { e.Some? ==> e.value.qty >= 0.0 }

  /** Averaging in two buys one after the other averages them in together. */
  lemma MergeBoth(e: Entry, b1: Execution, b2: Execution)
    requires e.price.Some? && IsBuy(b1) && IsBuy(b2) && e.qty >= 0.0 && Qty(b1) > 0.0 && Qty(b2) > 0.0
    ensures var after := StepEntry(StepEntry(Some(e), b1), b2);
            && after.Some? && after.value.price.Some?
            && after.value.fees == e.fees + (b1.fees + b2.fees)
            && after.value.qty == e.qty + (Qty(b1) + Qty(b2))
            && after.value.price.value * after.value.qty
               == e.qty * e.price.value + (Qty(b1) * Price(b1) + Qty(b2) * Price(b2))
  {
    var mid := MergedPrice(e, b1).value;
    DivTimes(e.qty * e.price.value + Qty(b1) * Price(b1), e.qty + Qty(b1));
    DivTimes((e.qty + Qty(b1)) * mid + Qty(b2) * Price(b2), e.qty + Qty(b1) + Qty(b2));
  }

  lemma MergeFirst(b1: Execution, b2: Execution)
    requires IsBuy(b1) && IsBuy(b2) && Qty(b1) > 0.0 && Qty(b2) > 0.0
    ensures var after := StepEntry(StepEntry(None, b1), b2);
            && after.Some? && after.value.price.Some? && after.value.qty == Qty(b1) + Qty(b2)
            && after.value.price.value * after.value.qty == Qty(b1) * Price(b1) + Qty(b2) * Price(b2)
  {
    DivTimes(Qty(b1) * Price(b1) + Qty(b2) * Price(b2), Qty(b1) + Qty(b2));
  }

  lemma BuysSwapHeld(e: Entry, b1: Execution, b2: Execution)
    requires e.price.Some? && e.qty >= 0.0 && IsPositiveBuy(b1) && IsPositiveBuy(b2)
    ensures StepEntry(StepEntry(Some(e), b1), b2) == StepEntry(StepEntry(Some(e), b2), b1)
  {
    MergeBoth(e, b1, b2);
    MergeBoth(e, b2, b1);
    var l, r := StepEntry(StepEntry(Some(e), b1), b2), StepEntry(StepEntry(Some(e), b2), b1);
    Cancel(l.value.price.value, l.value.qty, r.value.price.value, r.value.qty);
  }

  lemma BuysSwapFirst(b1: Execution, b2: Execution)
    requires IsPositiveBuy(b1) && IsPositiveBuy(b2)
    ensures StepEntry(StepEntry(None, b1), b2) == StepEntry(StepEntry(None, b2), b1)
  {
    MergeFirst(b1, b2);
    MergeFirst(b2, b1);
    var l, r := StepEntry(StepEntry(None, b1), b2), StepEntry(StepEntry(None, b2), b1);
    Cancel(l.value.price.value, l.value.qty, r.value.price.value, r.value.qty);
  }

  lemma BuysSwap(e: Option<Entry>, b1: Execution, b2: Execution)
    requires Held(e) && IsPositiveBuy(b1) && IsPositiveBuy(b2)
    ensures StepEntry(StepEntry(e, b1), b2) == StepEntry(StepEntry(e, b2), b1)
  {
    if e.None? {
      BuysSwapFirst(b1, b2);
    } else if e.value.price.Some? {
      BuysSwapHeld(e.value, b1, b2);
    }
  }

  lemma {:induction false} BuysKeepHeld(e: Option<Entry>, xs: seq<Execution>, p: int)
    requires Held(e) && AllBuys(xs)
    ensures Held(EntryFrom(e, xs, p))
  {
    if xs != [] {
      LastBuy(xs);
      BuysKeepHeld(e, xs[..|xs| - 1], p);
    }
  }

  lemma BuyPairSwap(e: Option<Entry>, xs: seq<Execution>, x: Execution, y: Execution, p: int)
    requires Held(e) && AllBuys(xs) && IsPositiveBuy(x) && IsPositiveBuy(y)
    ensures EntryFrom(e, xs + [x] + [y], p) == EntryFrom(e, xs + [y] + [x], p)
  {
    BuysKeepHeld(e, xs, p);
    EntrySnoc(e, xs, x, p);
    EntrySnoc(e, xs + [x], y, p);
    EntrySnoc(e, xs, y, p);
    EntrySnoc(e, xs + [y], x, p);
    BuysSwap(EntryFrom(e, xs, p), x, y);
  }

  lemma Regroup(xs: seq<Execution>, x: Execution, ys: seq<Execution>)
    requires ys != []
    ensures var front, y := ys[..|ys| - 1], ys[|ys| - 1];
            xs + [x] + front + [y] == xs + [x] + ys && xs + front + [y] + [x] == xs + ys + [x]
  {
    assert ys == ys[..|ys| - 1] + [ys[|ys| - 1]];
  }

  /** One buy can be moved behind any number of other buys. */
  lemma {:induction false} BuyToBack(e: Option<Entry>, xs: seq<Execution>, x: Execution, ys: seq<Execution>, p: int)
    requires Held(e) && AllBuys(xs) && IsPositiveBuy(x) && AllBuys(ys)
    ensures EntryFrom(e, xs + [x] + ys, p) == EntryFrom(e, xs + ys + [x], p)
    decreases |ys|
  {
    if ys == [] {
      assert xs + [x] + ys == xs + ys + [x];
    } else {
      var front, y := ys[..|ys| - 1], ys[|ys| - 1];
      LastBuy(ys);
      AllBuysConcat(xs, front);
      BuyToBack(e, xs, x, front, p);
      EntrySnoc(e, xs + [x] + front, y, p);
      EntrySnoc(e, xs + front + [x], y, p);
      BuyPairSwap(e, xs + front, x, y, p);
      Regroup(xs, x, ys);
    }
  }

  lemma {:induction false} BuysRealizeNothing(e: Option<Entry>, xs: seq<Execution>, p: int)
    requires AllBuys(xs)
    ensures RealizedFrom(e, xs, p) == Some(0.0)
  {
    if xs != [] {
      LastBuy(xs);
      BuysRealizeNothing(e, xs[..|xs| - 1], p);
    }
  }

  lemma MoveToBack(e: Option<Entry>, left: seq<Execution>, x: Execution, right: seq<Execution>, p: int)
    requires Held(e) && AllBuys(left + [x] + right)
    ensures SameEffect(e, left + [x] + right, left + right + [x], p)
  {
    AllBuysConcat(left + [x], right);
    AllBuysConcat(left, [x]);
    AllBuysConcat(left, right);
    AllBuysConcat(left + right, [x]);
    assert x in [x];
    BuyToBack(e, left, x, right, p);
    BuysRealizeNothing(e, left + [x] + right, p);
    BuysRealizeNothing(e, left + right + [x], p);
    ConcatEffect(None, left, [x], p);
    ConcatEffect(None, left + [x], right, p);
    ConcatEffect(None, left, right, p);
    ConcatEffect(None, left + right, [x], p);
  }

  lemma WithoutOne(front: seq<Execution>, x: Execution, left: seq<Execution>, right: seq<Execution>)
    requires multiset(front + [x]) == multiset(left + [x] + right)
    ensures multiset(front) == multiset(left + right)
  {
    assert multiset(front) == multiset(front + [x]) - multiset{x};
    assert multiset(left + right) == multiset(left + [x] + right) - multiset{x};
  }

  lemma BuysInAnyOrder(a: seq<Execution>, b: seq<Execution>)
    requires AllBuys(a) && multiset(a) == multiset(b)
    ensures AllBuys(b) && |a| == |b|
  {
    assert |a| == |multiset(a)| == |b|;
    forall x | x in b ensures IsPositiveBuy(x) {
      assert x in multiset(a);
    }
  }

  /** Consecutive buys may be replayed in any order from any basis. */
  lemma {:induction false} BuysCommute(e: Option<Entry>, a: seq<Execution>, b: seq<Execution>, p: int)
    requires Held(e) && AllBuys(a) && multiset(a) == multiset(b)
    ensures SameEffect(e, a, b, p)
    decreases |a|
  {
    BuysInAnyOrder(a, b);
    if a != [] {
      var front, x := a[..|a| - 1], a[|a| - 1];
      assert a == front + [x];
      assert x in multiset(b);
      var k :| 0 <= k < |b| && b[k] == x;
      var left, right := b[..k], b[k + 1..];
      assert b == left + [x] + right;
      MoveToBack(e, left, x, right, p);
      WithoutOne(front, x, left, right);
      BuysCommute(e, front, left + right, p);
      SameEffectExtends(e, front, left + right, [x], p);
    }
  }

  /** Main result. Inside any log, permuting a stretch of consecutive buys leaves the basis, realized profit and
      cash of every position whose earlier buys are positive unchanged. */
  lemma BuysCommuteInLog(pre: seq<Execution>, a: seq<Execution>, b: seq<Execution>, post: seq<Execution>, p: int)
    requires PositiveBuysOf(pre, p) && AllBuys(a) && multiset(a) == multiset(b)
    ensures SameEffect(None, pre + a + post, pre + b + post, p)
  {
    QuantityStaysDefined(pre, p);
    BuysCommute(EntryAfter(pre, p), a, b, p);
    SameEffectInContext(pre, a, b, post, p);
  }

  // ---- bounds -----------------------------------------------------------------------------------

  /** A log the exchange could have produced for p: positive buys, no negative fees, sells within
      the held quantity. */
  predicate Legal(log: seq<Execution>, p: int) {
    log == [] ||
    (var front, ex := log[..|log| - 1], log[|log| - 1];
     && Legal(front, p)
     && (ex.position == p && IsBuy(ex) ==> Qty(ex) > 0.0 && ex.fees >= 0.0)
     && (ex.position == p && IsSell(ex) && EntryAfter(front, p).Some? ==>
           0.0 <= Qty(ex) <= EntryAfter(front, p).value.qty))
  }

  predicate BuyPricesWithin(log: seq<Execution>, p: int, lo: real, hi: real) {
    forall i :: 0 <= i < |log| && log[i].position == p && IsBuy(log[i]) ==> lo <= Price(log[i]) <= hi
  }

  lemma MeanWithin(r: real, e: real, q: real, p: real, lo: real, hi: real)
    requires r >= 0.0 && q > 0.0 && lo <= e <= hi && lo <= p <= hi
    ensures lo <= (r * e + q * p) / (r + q) <= hi
  {
    var m := (r * e + q * p) / (r + q);
    DivTimes(r * e + q * p, r + q);
    assert r * (e - lo) >= 0.0 && q * (p - lo) >= 0.0;
    assert (m - lo) * (r + q) >= 0.0;
    assert r * (hi - e) >= 0.0 && q * (hi - p) >= 0.0;
    assert (hi - m) * (r + q) >= 0.0;
  }

  lemma MergedWithin(e: Entry, ex: Execution, lo: real, hi: real)
    requires e.qty >= 0.0 && Qty(ex) > 0.0 && e.price.Some?
    requires lo <= e.price.value <= hi && lo <= Price(ex) <= hi
    ensures MergedPrice(e, ex).Some? && lo <= MergedPrice(e, ex).value <= hi
  {
    MeanWithin(e.qty, e.price.value, Qty(ex), Price(ex), lo, hi);
  }

  lemma PartialFee(F: real, q: real, R: real)
    requires F >= 0.0 && 0.0 <= q <= R && R > 0.0
    ensures 0.0 <= F - F * (q / R)
    ensures q == R ==> F - F * (q / R) == 0.0
  {
    var x := q / R;
    assert x * R == q;
    assert 0.0 <= x <= 1.0;
    assert F - F * x == F * (1.0 - x);
    DivUnique(1.0, R, R);
  }

  /** Every legal log keeps remaining fees non-negative and zero once the position is flat, and the
      entry price between the lowest and the highest price paid. */
  lemma {:induction false} BasisBounds(log: seq<Execution>, p: int, lo: real, hi: real)
    requires Legal(log, p) && BuyPricesWithin(log, p, lo, hi)
    ensures var e := EntryAfter(log, p);
            e.Some? ==> && e.value.qty >= 0.0 && e.value.fees >= 0.0
                        && (e.value.qty == 0.0 ==> e.value.fees == 0.0)
                        && e.value.price.Some? && lo <= e.value.price.value <= hi
  {
    if log != [] {
      var front, ex := log[..|log| - 1], log[|log| - 1];
      BasisBounds(front, p, lo, hi);
      var e := EntryAfter(front, p);
      if ex.position == p && e.Some? {
        if IsBuy(ex) {
          assert log[|log| - 1] == ex;
          MergedWithin(e.value, ex, lo, hi);
        } else if IsSell(ex) && e.value.qty > 0.0 {
          PartialFee(e.value.fees, Qty(ex), e.value.qty);
        }
      }
    }
  }

  lemma FlatStep(e: Option<Entry>, ex: Execution)
    requires e.Some? ==> e.value.price.Some? && e.value.qty >= 0.0 && (e.value.qty == 0.0 ==> e.value.fees == 0.0)
    requires IsBuy(ex) ==> Qty(ex) > 0.0
    requires IsSell(ex) && e.Some? ==> Qty(ex) <= e.value.qty
    ensures var after := StepEntry(e, ex); after.Some? && after.value.qty == 0.0 ==> after.value.fees == 0.0
    ensures Oversold(e, ex) == 0.0
  {
    if IsSell(ex) && e.Some? && Qty(ex) == e.value.qty > 0.0 {
      assert Qty(ex) / e.value.qty == 1.0;
    }
  }

  /** Without oversells the basis keeps no fees once the position is flat. */
  lemma {:induction false} FlatHoldsNoFees(log: seq<Execution>, p: int)
    requires PositiveBuysOf(log, p) && NoOversellOf(log, p)
    ensures var e := EntryAfter(log, p); e.Some? && e.value.qty == 0.0 ==> e.value.fees == 0.0
    ensures Leak(log, p) == 0.0
  {
    if log != [] {
      var k, front, ex := |log| - 1, log[..|log| - 1], log[|log| - 1];
      NoOversellGrows(log, p);
      FlatHoldsNoFees(front, p);
      QuantityStaysDefined(front, p);
      if ex.position == p { FlatStep(EntryAfter(front, p), ex); }
    }
  }

  /** A flat position's realized profit is its sell credits minus its buy debits, in every log with positive buys
      of it in which it was never oversold. */
  lemma FlatPositionPnl(log: seq<Execution>, p: int)
    requires PositiveBuysOf(log, p) && NoOversellOf(log, p)
    requires EntryAfter(log, p).Some? && EntryAfter(log, p).value.qty == 0.0
    ensures RealizedOf(log, p) == Some(CashOf(log, p))
  {
    PositionConservation(log, p);
    QuantityStaysDefined(log, p);
    FlatHoldsNoFees(log, p);
    var e := EntryAfter(log, p).value;
    assert e.price.value * e.qty == 0.0;
    assert Cost(EntryAfter(log, p)) == 0.0;
    assert RealizedOf(log, p).value == CashOf(log, p);
  }
}
