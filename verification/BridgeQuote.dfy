/** The bridge deposit quote loop (packages/backend/src/polymarket/bridge-quote.ts:79-112, 155-194). */
module BridgeQuote {
  /** A quote; a refusal whose message marks the amount as too small; any other failure. */
  datatype Reply = Quote(estOut: nat) | TooSmall | Fails

  /** The bridge's answer in a round, at a retry, to an amount. */
  type Bridge = (nat, nat, int) -> Reply

  const RETRIES: nat := 5
  const ROUNDS: nat := 8

  datatype Answer = Answered(estOut: nat, attempt: int) | Thrown

  function Request(bridge: Bridge, round: nat, retry: nat, attempt: int, minFrom: int): Answer
    decreases RETRIES - retry
  {
    if retry >= RETRIES then Thrown
    else match bridge(round, retry, attempt)
      case Quote(estOut) => Answered(estOut, attempt)
      case TooSmall =>
        if attempt < minFrom * 32 then Request(bridge, round, retry + 1, attempt * 2, minFrom) else Thrown
      case Fails => Thrown
  }

  method RequestBridgeQuote(bridge: Bridge, round: nat, fromGuess: int, minFrom: int) returns (a: Answer)
    ensures a == Request(bridge, round, 0, if fromGuess < minFrom then minFrom else fromGuess, minFrom)
  {
    var attempt := if fromGuess < minFrom then minFrom else fromGuess;
    ghost var expected := Request(bridge, round, 0, attempt, minFrom);
    for retry := 0 to RETRIES
      invariant expected == Request(bridge, round, retry, attempt, minFrom)
    {
      var reply := bridge(round, retry, attempt);
      match reply
      case Quote(estOut) => return Answered(estOut, attempt);
      case Fails => return Thrown;
      case TooSmall =>
        if !(attempt < minFrom * 32) { return Thrown; }
        attempt := attempt * 2;
    }
    return Thrown;
  }

  predicate InBand(estOut: nat, target: nat) { target * 98 / 100 <= estOut <= target * 102 / 100 }

  function Adjusted(fromGuess: int, target: nat, estOut: nat): int
    requires estOut != 0
  {
    fromGuess * target / estOut
  }

  function NextGuess(fromGuess: int, target: nat, estOut: nat, minFrom: int): int
    requires estOut != 0
  {
    var adjusted := Adjusted(fromGuess, target, estOut);
    if adjusted > minFrom then adjusted else minFrom
  }

  /** What the loop ends with: the amount it returns, the last estimate, the amount that estimate was
      asked for, and how many quotes were taken. */
  datatype Result = Settled(from: int, estOut: nat, asked: int, quotes: nat) | Threw

  function Rounds(bridge: Bridge, round: nat, fromGuess: int, minFrom: int, target: nat, estOut: nat, asked: int)
    : Result
    decreases ROUNDS - round
  {
    if round >= ROUNDS then Settled(fromGuess, estOut, asked, round)
    else match Request(bridge, round, 0, if fromGuess < minFrom then minFrom else fromGuess, minFrom)
      case Thrown => Threw
      case Answered(est, attempt) =>
        if est == 0 || InBand(est, target) then Settled(fromGuess, est, attempt, round + 1)
        else Rounds(bridge, round + 1, NextGuess(fromGuess, target, est, minFrom), minFrom, target, est, attempt)
  }

  method QuoteLoop(bridge: Bridge, initialGuess: int, minFrom: int, target: nat) returns (r: Result)
    requires minFrom >= 1 && initialGuess >= minFrom
    ensures r == Rounds(bridge, 0, initialGuess, minFrom, target, 0, 0)
  {
    ghost var expected := Rounds(bridge, 0, initialGuess, minFrom, target, 0, 0);
    var fromGuess, asked := initialGuess, 0;
    var i: nat, estOut: nat := 0, 0;
    while i < ROUNDS
      invariant i <= ROUNDS && fromGuess >= minFrom
      invariant expected == Rounds(bridge, i, fromGuess, minFrom, target, estOut, asked)
    {
      var quote := RequestBridgeQuote(bridge, i, fromGuess, minFrom);
      if quote.Thrown? { return Threw; }
      estOut, asked := quote.estOut, quote.attempt;
      if estOut == 0 { return Settled(fromGuess, estOut, asked, i + 1); }
      if estOut >= target * 98 / 100 && estOut <= target * 102 / 100 {
        assert InBand(estOut, target);
        return Settled(fromGuess, estOut, asked, i + 1);
      }
      var adjusted := Adjusted(fromGuess, target, estOut);
      fromGuess := if adjusted > minFrom then adjusted else minFrom;
      i := i + 1;
    }
    r := Settled(fromGuess, estOut, asked, i);
  }

  // ---- what one round asks for ---------------------------------------------------------------------------

  function Doubled(amount: int, times: nat): int { if times == 0 then amount else Doubled(amount, times - 1) * 2 }

  /** The first k tries were refused as too small, and at amounts that still allowed another. */
  predicate RefusedUpTo(bridge: Bridge, round: nat, guess: int, minFrom: int, k: nat) {
    forall j: nat :: j < k ==> bridge(round, j, Doubled(guess, j)).TooSmall? && Doubled(guess, j) < 32 * minFrom
  }

  predicate AnsweredAt(bridge: Bridge, round: nat, guess: int, minFrom: int, k: nat) {
    RefusedUpTo(bridge, round, guess, minFrom, k) && bridge(round, k, Doubled(guess, k)).Quote?
  }

  lemma {:induction false} RequestFrom(bridge: Bridge, round: nat, guess: int, minFrom: int, retry: nat)
    requires retry <= 5 && RefusedUpTo(bridge, round, guess, minFrom, retry)
    ensures var a := Request(bridge, round, retry, Doubled(guess, retry), minFrom);
      && (a.Answered? ==> exists k: nat :: retry <= k < 5 && AnsweredAt(bridge, round, guess, minFrom, k))
      && forall k: nat :: retry <= k < 5 && AnsweredAt(bridge, round, guess, minFrom, k) ==>
           a == Answered(bridge(round, k, Doubled(guess, k)).estOut, Doubled(guess, k))
    decreases 5 - retry
  {
    if retry < 5 {
      var reply := bridge(round, retry, Doubled(guess, retry));
      if reply.TooSmall? && Doubled(guess, retry) < 32 * minFrom {
        assert RefusedUpTo(bridge, round, guess, minFrom, retry + 1);
        RequestFrom(bridge, round, guess, minFrom, retry + 1);
      } else {
        assert forall k: nat :: k > retry ==> !RefusedUpTo(bridge, round, guess, minFrom, k);
        assert reply.Quote? ==> AnsweredAt(bridge, round, guess, minFrom, retry);
      }
    }
  }

  /** Main result. A round is answered if and only if one of its five tries, each at twice the amount before, is
      quoted, all before it having been refused as too small at amounts below 32 times the minimum; and then with that
      quote, at that amount. */
  lemma RequestExactly(bridge: Bridge, round: nat, guess: int, minFrom: int)
    ensures var a := Request(bridge, round, 0, guess, minFrom);
      && (a.Answered? <==> exists k: nat :: k < 5 && AnsweredAt(bridge, round, guess, minFrom, k))
      && forall k: nat :: k < 5 && AnsweredAt(bridge, round, guess, minFrom, k) ==>
           a == Answered(bridge(round, k, Doubled(guess, k)).estOut, Doubled(guess, k))
  {
    RequestFrom(bridge, round, guess, minFrom, 0);
  }

  // ---- the band in numbers ------------------------------------------------------------------------------

  /** At most 2% above the target, and less than one unit short of 98% of it. */
  predicate WithinTwoPercent(e: nat, T: nat) { 98 * T < 100 * (e + 1) && 100 * e <= 102 * T }

  lemma BandInNumbers(e: nat, T: nat)
    ensures InBand(e, T) <==> WithinTwoPercent(e, T)
  {
  }

  // ---- a bridge with a fixed rate ----------------------------------------------------------------------

  /** pay(x) is x times a/b rounded down, said without dividing. */
  ghost predicate FloorRate(pay: nat -> nat, a: nat, b: nat) {
    b >= 1 && forall x: nat :: pay(x) * b <= x * a < pay(x) * b + b
  }

  /** The bridge always quotes pay, and never fails. */
  ghost predicate Pays(bridge: Bridge, pay: nat -> nat) {
    forall round: nat, retry: nat, x: nat :: bridge(round, retry, x) == Quote(pay(x))
  }

  lemma FloorBounds(n: nat, d: nat)
    requires d >= 1
    ensures n / d >= 0 && n / d * d <= n < n / d * d + d
  {
  }

  lemma TimesMonotone(x: int, y: int, d: int)
    requires d >= 0 && x <= y
    ensures x * d <= y * d
  {
    assert (y - x) * d >= 0;
  }

  lemma StrictMonotone(x: int, y: int, d: int)
    requires d >= 1 && x < y
    ensures x * d < y * d
  {
    assert (y - x) * d >= 1;
  }

  lemma LessByFactor(x: int, y: int, d: int)
    requires d >= 0 && x * d < y * d
    ensures x < y
  {
    if x >= y { TimesMonotone(y, x, d); }
  }

  lemma Swap(x: int, y: int, z: int)
    ensures x * y * z == x * z * y
  {
  }

  /** Correcting by target over estimate overshoots by less than T in the numerator. */
  lemma OvershootBelow(g: nat, a: nat, b: nat, T: nat, e0: nat, g1: nat, e1: nat)
    requires b >= 1 && T >= 1
    requires g * a < (e0 + 1) * b && g1 * e0 <= g * T && e1 * b <= g1 * a
    ensures e1 * e0 < (e0 + 1) * T
  {
    calc {
      e1 * e0 * b;
      == { Swap(e1, e0, b); }
      e1 * b * e0;
      <= { TimesMonotone(e1 * b, g1 * a, e0); }
      g1 * a * e0;
      == { Swap(g1, a, e0); }
      g1 * e0 * a;
      <= { TimesMonotone(g1 * e0, g * T, a); }
      g * T * a;
      == { Swap(g, T, a); }
      g * a * T;
      < { StrictMonotone(g * a, (e0 + 1) * b, T); }
      (e0 + 1) * b * T;
      == { Swap(e0 + 1, b, T); }
      (e0 + 1) * T * b;
    }
    LessByFactor(e1 * e0, (e0 + 1) * T, b);
  }

  lemma Distribute(e0: int, T: int)
    ensures (e0 + 1) * T == e0 * T + T && e0 * T == T * e0
  {
  }

  lemma Group(k: int, x: int, y: int)
    ensures k * (x * y) == k * x * y
  {
  }

  lemma AdjustedNotTooHigh(T: nat, e0: nat, e1: nat)
    requires e0 >= 50 && e1 * e0 < (e0 + 1) * T
    ensures 50 * e1 < 51 * T
  {
    TimesMonotone(50, e0, T);
    Distribute(e0, T);
    assert 50 * (e1 * e0) < 51 * (T * e0);
    Group(50, e1, e0);
    Group(51, T, e0);
    LessByFactor(50 * e1, 51 * T, e0);
  }

  lemma Product3(x: int, y: int, z: int)
    ensures x * y * z == y * z * x
  {
  }

  /** Rounding twice loses less than a + b in the numerator. */
  lemma UndershootAbove(g: nat, a: nat, b: nat, T: nat, e0: nat, g1: nat, e1: nat)
    requires a >= 1 && e0 >= 1
    requires e0 * b <= g * a && g * T < (g1 + 1) * e0 && g1 * a < e1 * b + b
    ensures T * b < e1 * b + b + a
  {
    calc {
      T * b * e0;
      == { Swap(T, b, e0); Product3(T, e0, b); }
      e0 * b * T;
      <= { TimesMonotone(e0 * b, g * a, T); }
      g * a * T;
      == { Swap(g, a, T); }
      g * T * a;
      < { StrictMonotone(g * T, (g1 + 1) * e0, a); }
      (g1 + 1) * e0 * a;
      == { Swap(g1 + 1, e0, a); }
      (g1 + 1) * a * e0;
    }
    LessByFactor(T * b, (g1 + 1) * a, e0);
    assert (g1 + 1) * a == g1 * a + a;
  }

  lemma AdjustedNotTooLow(a: nat, b: nat, T: nat, e1: nat)
    requires b >= 1 && T * b < e1 * b + b + a && 50 * (a + b) <= T * b
    ensures 49 * T < 50 * e1
  {
    Group(49, T, b);
    Group(50, e1, b);
    LessByFactor(49 * T, 50 * e1, b);
  }

  lemma PercentBand(e: nat, T: nat)
    requires 49 * T < 50 * e && 50 * e < 51 * T
    ensures InBand(e, T)
  {
  }

  lemma RateIsPositive(pay: nat -> nat, a: nat, b: nat, g: nat)
    requires FloorRate(pay, a, b) && pay(g) >= 1
    ensures a >= 1
  {
    TimesMonotone(1, pay(g), b);
    assert g * a >= b;
    assert a == 0 ==> g * a == 0;
  }

  /** The second estimate of a fixed-rate bridge falls inside the band. */
  lemma SecondQuoteInBand(pay: nat -> nat, a: nat, b: nat, g: nat, T: nat, g1: nat)
    requires FloorRate(pay, a, b) && pay(g) >= 50 && 50 * (a + b) <= T * b
    requires g1 * pay(g) <= g * T < (g1 + 1) * pay(g)
    ensures InBand(pay(g1), T)
  {
    var e0, e1 := pay(g), pay(g1);
    RateIsPositive(pay, a, b, g);
    assert T >= 1 by { assert T == 0 ==> T * b == 0; }
    Distribute(e0, b);
    OvershootBelow(g, a, b, T, e0, g1, e1);
    AdjustedNotTooHigh(T, e0, e1);
    UndershootAbove(g, a, b, T, e0, g1, e1);
    AdjustedNotTooLow(a, b, T, e1);
    PercentBand(e1, T);
  }

  lemma AdjustedBounds(g: nat, T: nat, e0: nat)
    requires e0 >= 1
    ensures Adjusted(g, T, e0) >= 0
    ensures Adjusted(g, T, e0) * e0 <= g * T < (Adjusted(g, T, e0) + 1) * e0
  {
    assert g * T >= 0;
    FloorBounds(g * T, e0);
    Distribute(Adjusted(g, T, e0), e0);
  }

  lemma FirstRound(bridge: Bridge, pay: nat -> nat, round: nat, guess: nat, minFrom: nat, T: nat, est: nat, asked: int)
    requires Pays(bridge, pay) && guess >= minFrom && round < ROUNDS && pay(guess) != 0
    ensures Rounds(bridge, round, guess, minFrom, T, est, asked)
         == if InBand(pay(guess), T) then Settled(guess, pay(guess), guess, round + 1)
            else Rounds(bridge, round + 1, NextGuess(guess, T, pay(guess), minFrom), minFrom, T, pay(guess), guess)
  {
  }

  /** Settled inside the band after at most two quotes, and the amount returned is the one quoted. */
  ghost predicate SettledInTwo(r: Result, pay: nat -> nat, T: nat) {
    && r.Settled? && r.quotes <= 2 && WithinTwoPercent(r.estOut, T)
    && r.from >= 0 && r.asked == r.from && r.estOut == pay(r.from)
  }

  lemma BandNotZero(e: nat, T: nat, a: nat, b: nat)
    requires InBand(e, T) && b >= 1 && 50 * (a + b) <= T * b
    ensures e != 0
  {
    Distribute(b, 50);
    assert T >= 50 by { if T < 50 { TimesMonotone(T, 49, b); } }
  }

  lemma SecondRound(bridge: Bridge, pay: nat -> nat, a: nat, b: nat, guess: nat, minFrom: nat, T: nat)
    requires FloorRate(pay, a, b) && Pays(bridge, pay) && minFrom >= 1
    requires pay(guess) >= 50 && 50 * (a + b) <= T * b
    requires Adjusted(guess, T, pay(guess)) >= minFrom
    ensures var next := NextGuess(guess, T, pay(guess), minFrom);
            SettledInTwo(Rounds(bridge, 1, next, minFrom, T, pay(guess), guess), pay, T)
  {
    var e0 := pay(guess);
    AdjustedBounds(guess, T, e0);
    var g1: nat := Adjusted(guess, T, e0);
    SecondQuoteInBand(pay, a, b, guess, T, g1);
    BandNotZero(pay(g1), T, a, b);
    BandInNumbers(pay(g1), T);
    FirstRound(bridge, pay, 1, g1, minFrom, T, e0, guess);
  }

  /** Main result. A fixed-rate bridge with a first estimate of at least 50 and a target of at least
      50 (a/b + 1), whose adjusted amount is not below the minimum, is settled in at most two quotes,
      inside the 98-102% band, and the amount returned is exactly the one quoted. */
  lemma FixedRateSettlesInTwo(bridge: Bridge, pay: nat -> nat, a: nat, b: nat, guess: nat, minFrom: nat, T: nat)
    requires FloorRate(pay, a, b) && Pays(bridge, pay) && minFrom >= 1 && guess >= minFrom
    requires pay(guess) >= 50 && 50 * (a + b) <= T * b
    requires Adjusted(guess, T, pay(guess)) >= minFrom
    ensures SettledInTwo(Rounds(bridge, 0, guess, minFrom, T, 0, 0), pay, T)
  {
    BandInNumbers(pay(guess), T);
    FirstRound(bridge, pay, 0, guess, minFrom, T, 0, 0);
    SecondRound(bridge, pay, a, b, guess, minFrom, T);
  }

  // ---- a fixed rate above the band at the minimum -----------------------------------------------------------

  lemma PayMonotone(pay: nat -> nat, a: nat, b: nat, x: nat, y: nat)
    requires FloorRate(pay, a, b) && x <= y
    ensures pay(x) <= pay(y)
  {
    TimesMonotone(x, y, a);
    assert (pay(y) + 1) * b == pay(y) * b + b;
    assert pay(x) * b < (pay(y) + 1) * b;
    LessByFactor(pay(x), pay(y) + 1, b);
  }

  /** An estimate above the target never raises the amount. */
  lemma HighEstimateLowers(g: nat, T: nat, est: nat)
    requires est > T
    ensures Adjusted(g, T, est) <= g
  {
    AdjustedBounds(g, T, est);
    TimesMonotone(T, est, g);
    LessByFactor(Adjusted(g, T, est), g + 1, est);
  }

  /** Once the amount is the minimum and the minimum pays too much, it stays the minimum. */
  lemma {:induction false} StuckAtMinimum(bridge: Bridge, pay: nat -> nat, round: nat, minFrom: nat, T: nat, est: nat,
                                          asked: int)
    requires Pays(bridge, pay) && minFrom >= 1 && pay(minFrom) > T * 102 / 100 && round <= ROUNDS
    requires round == ROUNDS ==> est == pay(minFrom) && asked == minFrom
    ensures Rounds(bridge, round, minFrom, minFrom, T, est, asked) == Settled(minFrom, pay(minFrom), minFrom, ROUNDS)
    decreases ROUNDS - round
  {
    if round < ROUNDS {
      var e := pay(minFrom);
      HighEstimateLowers(minFrom, T, e);
      FirstRound(bridge, pay, round, minFrom, minFrom, T, est, asked);
      StuckAtMinimum(bridge, pay, round + 1, minFrom, T, e, minFrom);
    }
  }

  /** The correction would fall below the minimum: the minimum itself is asked for next. */
  lemma ClampedRound(bridge: Bridge, pay: nat -> nat, a: nat, b: nat, guess: nat, minFrom: nat, T: nat)
    requires FloorRate(pay, a, b) && Pays(bridge, pay) && minFrom >= 1
    requires pay(guess) >= 50 && 50 * (a + b) <= T * b
    requires Adjusted(guess, T, pay(guess)) < minFrom
    ensures var r := Rounds(bridge, 1, minFrom, minFrom, T, pay(guess), guess);
            r == Settled(minFrom, pay(minFrom), minFrom, if InBand(pay(minFrom), T) then 2 else ROUNDS)
    ensures InBand(pay(minFrom), T) <==> pay(minFrom) <= T * 102 / 100
  {
    var e0 := pay(guess);
    AdjustedBounds(guess, T, e0);
    var g1: nat := Adjusted(guess, T, e0);
    SecondQuoteInBand(pay, a, b, guess, T, g1);
    PayMonotone(pay, a, b, g1, minFrom);
    if InBand(pay(minFrom), T) {
      BandNotZero(pay(minFrom), T, a, b);
      FirstRound(bridge, pay, 1, minFrom, minFrom, T, e0, guess);
    } else {
      StuckAtMinimum(bridge, pay, 1, minFrom, T, e0, guess);
    }
  }

  /** The correction is not below the minimum: the minimum does not pay too much. */
  lemma UnclampedRound(bridge: Bridge, pay: nat -> nat, a: nat, b: nat, guess: nat, minFrom: nat, T: nat)
    requires FloorRate(pay, a, b) && Pays(bridge, pay) && minFrom >= 1 && guess >= minFrom
    requires pay(guess) >= 50 && 50 * (a + b) <= T * b && Adjusted(guess, T, pay(guess)) >= minFrom
    ensures pay(minFrom) <= T * 102 / 100
    ensures SettledInTwo(Rounds(bridge, 0, guess, minFrom, T, 0, 0), pay, T)
  {
    AdjustedBounds(guess, T, pay(guess));
    var g1: nat := Adjusted(guess, T, pay(guess));
    SecondQuoteInBand(pay, a, b, guess, T, g1);
    PayMonotone(pay, a, b, minFrom, g1);
    FixedRateSettlesInTwo(bridge, pay, a, b, guess, minFrom, T);
  }

  /** Main result. A fixed-rate bridge with a first estimate of at least 50 and a target of at least
      50 (a/b + 1): the amount returned is always the one last quoted, and its estimate is inside the 98-102%
      band, after at most two quotes, if and only if the minimum amount does not pay more than 102% of the
      target. Otherwise all eight rounds are spent and the minimum is returned, quoted and above the band. */
  lemma FixedRateClassified(bridge: Bridge, pay: nat -> nat, a: nat, b: nat, guess: nat, minFrom: nat, T: nat)
    requires FloorRate(pay, a, b) && Pays(bridge, pay) && minFrom >= 1 && guess >= minFrom
    requires pay(guess) >= 50 && 50 * (a + b) <= T * b
    ensures var r := Rounds(bridge, 0, guess, minFrom, T, 0, 0);
            if 100 * pay(minFrom) <= 102 * T then SettledInTwo(r, pay, T)
            else r == Settled(minFrom, pay(minFrom), minFrom, 8)
  {
    BandInNumbers(pay(guess), T);
    BandInNumbers(pay(minFrom), T);
    if InBand(pay(guess), T) {
      FirstRound(bridge, pay, 0, guess, minFrom, T, 0, 0);
      PayMonotone(pay, a, b, minFrom, guess);
    } else if Adjusted(guess, T, pay(guess)) < minFrom {
      FirstRound(bridge, pay, 0, guess, minFrom, T, 0, 0);
      ClampedRound(bridge, pay, a, b, guess, minFrom, T);
    } else {
      UnclampedRound(bridge, pay, a, b, guess, minFrom, T);
    }
  }

  // ---- any bridge -----------------------------------------------------------------------------------------

  predicate Converged(r: Result, target: nat)
    requires r.Settled?
  {
    r.estOut == 0 || WithinTwoPercent(r.estOut, target)
  }

  /** Main result. Over every bridge, a loop that ends before its eighth quote ends on a zero estimate or inside the
      band, here in numbers. */
  lemma {:induction false} EarlyEndIsInBand(bridge: Bridge, round: nat, guess: int, minFrom: int, target: nat,
                                            est: nat, asked: int)
    ensures var r := Rounds(bridge, round, guess, minFrom, target, est, asked);
            r.Settled? && r.quotes < 8 && r.estOut != 0 ==>
              98 * target < 100 * (r.estOut + 1) && 100 * r.estOut <= 102 * target
    decreases ROUNDS - round
  {
    if round < ROUNDS {
      var answer := Request(bridge, round, 0, if guess < minFrom then minFrom else guess, minFrom);
      if answer.Answered? && answer.estOut != 0 {
        BandInNumbers(answer.estOut, target);
        EarlyEndIsInBand(bridge, round + 1, NextGuess(guess, target, answer.estOut, minFrom), minFrom, target,
                         answer.estOut, answer.attempt);
      }
    }
  }

  lemma {:induction false} RetriesRaise(bridge: Bridge, round: nat, retry: nat, attempt: int, minFrom: int)
    requires attempt >= 1
    ensures var a := Request(bridge, round, retry, attempt, minFrom);
            a.Answered? ==>
              && a.attempt >= attempt
              && (a.attempt == attempt <==> retry < RETRIES && bridge(round, retry, attempt).Quote?)
    decreases RETRIES - retry
  {
    if retry < RETRIES && bridge(round, retry, attempt).TooSmall? {
      RetriesRaise(bridge, round, retry + 1, attempt * 2, minFrom);
    }
  }

  /** Main result. Over every bridge, when the loop ends on a zero estimate or inside the band, the amount it
      returns is the amount last quoted if and only if the bridge answered that amount at the first try: a
      retry doubles the amount asked for, and the doubled amount is forgotten. */
  lemma {:induction false} ConvergedAmountIsQuotedIff(bridge: Bridge, round: nat, guess: int, minFrom: int, target: nat,
                                                      est: nat, asked: int)
    requires minFrom >= 1 && guess >= minFrom && round <= ROUNDS
    requires round > 0 ==> est != 0 && !InBand(est, target)
    ensures var r := Rounds(bridge, round, guess, minFrom, target, est, asked);
            r.Settled? && Converged(r, target) ==>
              && 1 <= r.quotes <= ROUNDS
              && (r.from == r.asked <==> bridge(r.quotes - 1, 0, r.from).Quote?)
    decreases ROUNDS - round
  {
    BandInNumbers(est, target);
    if round < ROUNDS {
      RetriesRaise(bridge, round, 0, guess, minFrom);
      var answer := Request(bridge, round, 0, guess, minFrom);
      if answer.Answered? { BandInNumbers(answer.estOut, target); }
      if answer.Answered? && answer.estOut != 0 && !InBand(answer.estOut, target) {
        ConvergedAmountIsQuotedIff(bridge, round + 1, NextGuess(guess, target, answer.estOut, minFrom), minFrom, target,
                                   answer.estOut, answer.attempt);
      }
    }
  }

  // ---- eight misses -----------------------------------------------------------------------------------------

  ghost predicate NeverTooSmall(bridge: Bridge) {
    forall round: nat, retry: nat, x: int :: !bridge(round, retry, x).TooSmall?
  }

  /** What a caller can check on an amount and the estimate quoted for it: correcting the amount by the
      estimate gives less than one unit more, and it is the minimum or the estimate is not above the target. */
  predicate Stationary(asked: int, target: nat, est: nat, minFrom: int) {
    asked * target < (asked + 1) * est && (asked == minFrom || est <= target)
  }

  lemma NextGuessStaysIff(asked: nat, target: nat, est: nat, minFrom: int)
    requires est >= 1 && asked >= minFrom >= 1
    ensures NextGuess(asked, target, est, minFrom) == asked <==> Stationary(asked, target, est, minFrom)
  {
    var adjusted := Adjusted(asked, target, est);
    AdjustedBounds(asked, target, est);
    if asked * target < (asked + 1) * est {
      LessByFactor(adjusted, asked + 1, est);
    } else {
      LessByFactor(asked + 1, adjusted + 1, est);
    }
    if est <= target {
      TimesMonotone(est, target, asked);
      LessByFactor(asked, adjusted + 1, est);
    } else {
      StrictMonotone(target, est, asked);
      LessByFactor(adjusted, asked, est);
    }
  }

  /** Main result. Over any bridge that never answers "too small", when all eight rounds miss the band the
      amount returned is the correction of the eighth amount quoted: it is that amount itself, so quoted, if
      and only if that amount is stationary under its estimate. */
  lemma {:induction false} EightMissesQuotedIff(bridge: Bridge, round: nat, guess: int, minFrom: int, target: nat,
                                                est: nat, asked: int)
    requires NeverTooSmall(bridge) && minFrom >= 1 && guess >= minFrom && round <= ROUNDS
    requires round > 0 ==>
      && est != 0 && !InBand(est, target) && asked >= minFrom && bridge(round - 1, 0, asked) == Quote(est)
      && guess == NextGuess(asked, target, est, minFrom)
    ensures var r := Rounds(bridge, round, guess, minFrom, target, est, asked);
            r.Settled? && !Converged(r, target) ==>
              && r.quotes == ROUNDS && r.asked >= minFrom && bridge(ROUNDS - 1, 0, r.asked) == Quote(r.estOut)
              && r.from == NextGuess(r.asked, target, r.estOut, minFrom)
              && (r.from == r.asked <==> Stationary(r.asked, target, r.estOut, minFrom))
    decreases ROUNDS - round
  {
    BandInNumbers(est, target);
    if round == ROUNDS {
      NextGuessStaysIff(asked, target, est, minFrom);
    } else {
      assert !bridge(round, 0, guess).TooSmall?;
      var answer := Request(bridge, round, 0, guess, minFrom);
      if answer.Answered? { BandInNumbers(answer.estOut, target); }
      if answer.Answered? && answer.estOut != 0 && !InBand(answer.estOut, target) {
        EightMissesQuotedIff(bridge, round + 1, NextGuess(guess, target, answer.estOut, minFrom), minFrom, target,
                             answer.estOut, answer.attempt);
      }
    }
  }

  /** Both happen. A bridge that always offers one unit against a target of 1000 returns an amount it was not
      last asked for. */
  lemma {:induction false} StubbornBridge(bridge: Bridge, round: nat, guess: int, est: nat, asked: int)
    requires forall i: nat, j: nat, x: int :: bridge(i, j, x) == Quote(1)
    requires guess >= 1 && round <= ROUNDS && (round == ROUNDS ==> guess == 1000 * asked && asked >= 1 && est == 1)
    ensures var r := Rounds(bridge, round, guess, 1, 1000, est, asked);
            r.Settled? && r.estOut == 1 && !InBand(r.estOut, 1000) && r.from == 1000 * r.asked && r.asked >= 1
    decreases ROUNDS - round
  {
    if round < ROUNDS {
      assert bridge(round, 0, guess) == Quote(1);
      assert Adjusted(guess, 1000, 1) == 1000 * guess;
      StubbornBridge(bridge, round + 1, NextGuess(guess, 1000, 1, 1), 1, guess);
    }
  }

  /** A bridge that always offers 1000 against a target of 100 is asked for the minimum of 10 eight times, and
      that is what is returned. */
  lemma {:induction false} OverpayingBridge(bridge: Bridge, round: nat, est: nat, asked: int)
    requires forall i: nat, j: nat, x: int :: bridge(i, j, x) == Quote(1000)
    requires round <= ROUNDS && (round == ROUNDS ==> est == 1000 && asked == 10)
    ensures Rounds(bridge, round, 10, 10, 100, est, asked) == Settled(10, 1000, 10, ROUNDS)
    decreases ROUNDS - round
  {
    if round < ROUNDS {
      assert bridge(round, 0, 10) == Quote(1000);
      OverpayingBridge(bridge, round + 1, 1000, 10);
    }
  }
}
