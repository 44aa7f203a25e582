/** Batching of live percent updates (packages/crypto-algo/src/algo-percent-publisher.ts). Prices are real
    numbers; time is in milliseconds and one handler runs at one clock reading. */
module PercentPublisher {
  import opened Text

  const MIN_PERCENT_CHANGE: real := 0.0005
  const BATCH_MAX_SIZE: nat := 50
  const BATCH_FLUSH_MS: int := 250

  datatype OutcomePrice = OutcomePrice(outcome: string, price: real)

  datatype Update = Update(conditionId: string, outcomePrices: seq<OutcomePrice>, updatedAt: string)

  /** The publisher's fields; an armed flush timer is known by when it is due. */
  datatype Publisher = Publisher(lastPrice: map<string, real>, pending: seq<Update>, flushTimer: Option<int>)

  const CREATED: Publisher := Publisher(map[], [], None)

  predicate Near(a: real, b: real) { -MIN_PERCENT_CHANGE < a - b < MIN_PERCENT_CHANGE }

  /** Every outcome name in lower case, everything else as it was. */
  function Normalized(u: Update): (n: Update)
    ensures n.conditionId == u.conditionId && n.updatedAt == u.updatedAt && |n.outcomePrices| == |u.outcomePrices|
    ensures forall i :: 0 <= i < |u.outcomePrices| ==>
      n.outcomePrices[i] == OutcomePrice(Lower(u.outcomePrices[i].outcome), u.outcomePrices[i].price)
  {
    u.(outcomePrices := seq(|u.outcomePrices|, i requires 0 <= i < |u.outcomePrices| =>
      OutcomePrice(Lower(u.outcomePrices[i].outcome), u.outcomePrices[i].price)))
  }

  /** The price a book update shows for its asset, if any. */
  function Seen(update: Option<Update>): Option<real> {
    if update.Some? && update.value.outcomePrices != [] then Some(update.value.outcomePrices[0].price) else None
  }

  predicate Accepts(p: Publisher, asset: string, update: Option<Update>) {
    && Seen(update).Some?
    && (asset in p.lastPrice ==> !Near(p.lastPrice[asset], Seen(update).value))
  }

  /** An outgoing call to pushUpdates, if there is one. */
  function Batch(updates: seq<Update>): seq<seq<Update>> { if updates == [] then [] else [updates] }

  function Emptied(p: Publisher): Publisher { p.(pending := [], flushTimer := None) }

  function Buffered(p: Publisher, asset: string, u: Update, now: int): Publisher
    requires u.outcomePrices != []
  {
    var pending := p.pending + [Normalized(u)];
    Publisher(p.lastPrice[asset := u.outcomePrices[0].price], pending,
              if p.flushTimer.Some? || |pending| >= BATCH_MAX_SIZE then p.flushTimer else Some(now + BATCH_FLUSH_MS))
  }

  /** The state after a handler and the batch it handed over (empty for none). */
  function Handled(p: Publisher, asset: string, update: Option<Update>, now: int): (Publisher, seq<Update>) {
    if !Accepts(p, asset, update) then (p, [])
    else
      var q := Buffered(p, asset, update.value, now);
      if |q.pending| >= BATCH_MAX_SIZE then (Emptied(q), q.pending) else (q, [])
  }

  class AlgoMarketPercentPublisher {
    var lastPrice: map<string, real>
    var pending: seq<Update>
    var flushTimer: Option<int>
    /** The batches handed to pushUpdates. */
    var pushed: seq<seq<Update>>

    constructor ()
      ensures View() == CREATED && pushed == []
    {
      lastPrice, pending, flushTimer, pushed := map[], [], None, [];
    }

    ghost function View(): Publisher
      reads this
    {
      Publisher(lastPrice, pending, flushTimer)
    }

    method HandleBookUpdate(assetId: string, update: Option<Update>, now: int)
      modifies this
      ensures View() == Handled(old(View()), assetId, update, now).0
      ensures pushed == old(pushed) + Batch(Handled(old(View()), assetId, update, now).1)
    {
      if update.None? || |update.value.outcomePrices| == 0 { return; }
      var outcome := update.value.outcomePrices[0];
      if assetId in lastPrice {
        var difference := lastPrice[assetId] - outcome.price;
        if (if difference < 0.0 then -difference else difference) < MIN_PERCENT_CHANGE { return; }
      }
      lastPrice := lastPrice[assetId := outcome.price];
      pending := pending + [Normalized(update.value)];
      if |pending| >= BATCH_MAX_SIZE {
        Flush();
        return;
      }
      ScheduleFlush(now);
    }

    method Flush()
      modifies this`pending, this`flushTimer, this`pushed
      ensures View() == Emptied(old(View())) && pushed == old(pushed) + Batch(old(pending))
    {
      if flushTimer.Some? { flushTimer := None; }
      if |pending| == 0 { return; }
      var updates := pending;
      pending := [];
      PushUpdates(updates);
    }

    /** The call leaves the process here; what the backend answers changes nothing. */
    method PushUpdates(updates: seq<Update>)
      modifies this`pushed
      ensures pushed == old(pushed) + Batch(updates)
    {
      if |updates| == 0 { return; }
      pushed := pushed + [updates];
    }

    method ScheduleFlush(now: int)
      modifies this`flushTimer
      ensures flushTimer == if old(flushTimer).Some? then old(flushTimer) else Some(now + BATCH_FLUSH_MS)
    {
      if flushTimer.Some? { return; }
      flushTimer := Some(now + BATCH_FLUSH_MS);
    }

    method TimerFires()
      modifies this`pending, this`flushTimer, this`pushed
      ensures View() == Emptied(old(View())) && pushed == old(pushed) + Batch(old(pending))
    {
      flushTimer := None;
      Flush();
    }
  }

  // ---- every run ----------------------------------------------------------------------------------------

  datatype Event = Book(at: int, asset: string, update: Option<Update>) | FlushCall(at: int) | Timer(at: int)

  /** An update the publisher took, and when; a batch it handed over, and when. */
  datatype Taken = Taken(at: int, asset: string, price: real, update: Update)
  datatype Push = Push(at: int, updates: seq<Update>)

  datatype World = World(pub: Publisher, taken: seq<Taken>, pushes: seq<Push>)

  const START: World := World(CREATED, [], [])

  predicate Enabled(w: World, e: Event) {
    e.Timer? ==> w.pub.flushTimer.Some? && w.pub.flushTimer.value <= e.at
  }

  function Pushed(at: int, updates: seq<Update>): (pushes: seq<Push>)
    ensures pushes == if updates == [] then [] else [Push(at, updates)]
  {
    seq(|Batch(updates)|, i requires 0 <= i < |Batch(updates)| => Push(at, Batch(updates)[i]))
  }

  function TakenBy(w: World, e: Event): seq<Taken> {
    if e.Book? && Accepts(w.pub, e.asset, e.update)
    then [Taken(e.at, e.asset, Seen(e.update).value, Normalized(e.update.value))] else []
  }

  function Step(w: World, e: Event): World {
    var (pub, batch) := if e.Book? then Handled(w.pub, e.asset, e.update, e.at) else (Emptied(w.pub), w.pub.pending);
    World(pub, w.taken + TakenBy(w, e), w.pushes + Pushed(e.at, batch))
  }

  predicate Run(w: World, es: seq<Event>, end: World)
    decreases |es|
  {
    if es == [] then w == end else Enabled(w, es[0]) && Run(Step(w, es[0]), es[1..], end)
  }

  function UpdatesOf(taken: seq<Taken>): (us: seq<Update>)
    ensures |us| == |taken| && forall i :: 0 <= i < |us| ==> us[i] == taken[i].update
  {
    seq(|taken|, i requires 0 <= i < |taken| => taken[i].update)
  }

  /** All updates handed over, batch after batch. */
  function Handed(pushes: seq<Push>): seq<Update> {
    if pushes == [] then [] else Handed(pushes[..|pushes| - 1]) + pushes[|pushes| - 1].updates
  }

  /** When each of them was handed over. */
  function HandedAt(pushes: seq<Push>): (ts: seq<int>)
    ensures |ts| == |Handed(pushes)|
  {
    if pushes == [] then []
    else
      var last := pushes[|pushes| - 1];
      HandedAt(pushes[..|pushes| - 1]) + seq(|last.updates|, _ => last.at)
  }

  lemma HandedMore(pushes: seq<Push>, at: int, updates: seq<Update>)
    ensures Handed(pushes + Pushed(at, updates)) == Handed(pushes) + updates
    ensures HandedAt(pushes + Pushed(at, updates)) == HandedAt(pushes) + seq(|updates|, _ => at)
  {
    if updates == [] {
      assert pushes + [] == pushes;
    } else {
      var all := pushes + [Push(at, updates)];
      assert all[..|all| - 1] == pushes;
    }
  }

  // ---- nothing lost, doubled or reordered ------------------------------------------------------------------

  /** Batches, then what is still pending, are what was taken. */
  predicate InOrder(w: World) {
    Handed(w.pushes) + w.pub.pending == UpdatesOf(w.taken)
  }

  predicate Sized(w: World) {
    && |w.pub.pending| < 50
    && (forall i :: 0 <= i < |w.pushes| ==> 1 <= |w.pushes[i].updates| <= 50)
  }

  /** The timer belongs to the oldest pending item. */
  predicate TimerOfOldest(w: World) {
    && |w.pub.pending| <= |w.taken|
    && w.pub.flushTimer ==
       if w.pub.pending == [] then None else Some(w.taken[|w.taken| - |w.pub.pending|].at + 250)
  }

  predicate Inv(w: World) { InOrder(w) && Sized(w) && TimerOfOldest(w) }

  /** What is pending when a step has taken its update and before it hands anything over. */
  function Waiting(w: World, more: seq<Taken>): seq<Update> { w.pub.pending + UpdatesOf(more) }

  /** A step takes at most one update, and hands over all that waits or none of it. */
  predicate Moves(w: World, more: seq<Taken>, at: int, next: World) {
    && |more| <= 1 && |w.pub.pending| + |more| <= BATCH_MAX_SIZE
    && (forall t :: t in more ==> t.at == at)
    && next.taken == w.taken + more
    && if next.pub.pending == []
       then next.pushes == w.pushes + Pushed(at, Waiting(w, more)) && next.pub.flushTimer == None
       else && next.pub.pending == Waiting(w, more) && next.pushes == w.pushes
            && |w.pub.pending| + |more| < BATCH_MAX_SIZE
            && next.pub.flushTimer == if w.pub.pending == [] then Some(at + BATCH_FLUSH_MS) else w.pub.flushTimer
  }

  lemma StepMoves(w: World, e: Event)
    requires Inv(w)
    ensures Moves(w, TakenBy(w, e), e.at, Step(w, e))
  {
    var more := TakenBy(w, e);
    assert w.pushes + [] == w.pushes;
    if more == [] {
      assert Waiting(w, more) == w.pub.pending;
    } else {
      assert UpdatesOf(more) == [Normalized(e.update.value)];
    }
  }

  lemma MoveKeepsOrder(w: World, more: seq<Taken>, at: int, next: World)
    requires InOrder(w) && Moves(w, more, at, next)
    ensures InOrder(next)
  {
    assert UpdatesOf(next.taken) == UpdatesOf(w.taken) + UpdatesOf(more);
    assert Handed(w.pushes) + Waiting(w, more) == (Handed(w.pushes) + w.pub.pending) + UpdatesOf(more);
    if next.pub.pending == [] {
      HandedMore(w.pushes, at, Waiting(w, more));
      assert Handed(next.pushes) + [] == Handed(next.pushes);
    }
  }

  lemma MoveKeepsTimer(w: World, more: seq<Taken>, at: int, next: World)
    requires TimerOfOldest(w) && Moves(w, more, at, next)
    ensures TimerOfOldest(next)
  {
  }

  lemma MoveKeepsSized(w: World, more: seq<Taken>, at: int, next: World)
    requires Sized(w) && Moves(w, more, at, next)
    ensures Sized(next)
  {
  }

  lemma MoveKeepsInv(w: World, more: seq<Taken>, at: int, next: World)
    requires Inv(w) && Moves(w, more, at, next)
    ensures Inv(next)
  {
    MoveKeepsOrder(w, more, at, next);
    MoveKeepsSized(w, more, at, next);
    MoveKeepsTimer(w, more, at, next);
  }

  lemma StepKeepsInv(w: World, e: Event)
    requires Inv(w)
    ensures Inv(Step(w, e))
  {
    StepMoves(w, e);
    MoveKeepsInv(w, TakenBy(w, e), e.at, Step(w, e));
  }

  lemma {:induction false} RunKeepsInv(w: World, es: seq<Event>, end: World)
    requires Inv(w) && Run(w, es, end)
    ensures Inv(end)
    decreases |es|
  {
    if es != [] {
      StepKeepsInv(w, es[0]);
      RunKeepsInv(Step(w, es[0]), es[1..], end);
    }
  }

  lemma StartInv()
    ensures Inv(START)
  {
  }

  /** Main result. In every run the batches handed over, followed by the pending items, are exactly the
      updates taken, in order; a batch has 1 to 50 items and fewer than 50 are ever pending; the timer is
      armed exactly when something is pending, 250 ms after the oldest pending item was taken. */
  lemma BatchesAreWhatWasTaken(es: seq<Event>, end: World)
    requires Run(START, es, end)
    ensures InOrder(end) && Sized(end) && TimerOfOldest(end)
  {
    StartInv();
    RunKeepsInv(START, es, end);
  }

  // ---- no more calls than needed ------------------------------------------------------------------------------

  /** Batches of fewer than fifty updates. */
  function Partial(pushes: seq<Push>): nat {
    if pushes == [] then 0
    else Partial(pushes[..|pushes| - 1]) + if |pushes[|pushes| - 1].updates| < 50 then 1 else 0
  }

  /** Timers fired, and calls of flush from outside. */
  function Flushes(es: seq<Event>): nat {
    if es == [] then 0 else (if es[0].Book? then 0 else 1) + Flushes(es[1..])
  }

  lemma PartialMore(pushes: seq<Push>, at: int, updates: seq<Update>)
    ensures Partial(pushes + Pushed(at, updates)) == Partial(pushes) + if 0 < |updates| < 50 then 1 else 0
  {
    if updates == [] {
      assert pushes + [] == pushes;
    } else {
      var all := pushes + [Push(at, updates)];
      assert all[..|all| - 1] == pushes;
    }
  }

  lemma StepPartial(w: World, e: Event)
    requires Sized(w)
    ensures Partial(Step(w, e).pushes) <= Partial(w.pushes) + if e.Book? then 0 else 1
  {
    if e.Book? {
      PartialMore(w.pushes, e.at, Handled(w.pub, e.asset, e.update, e.at).1);
    } else {
      PartialMore(w.pushes, e.at, w.pub.pending);
    }
  }

  /** Main result. In every run a batch of fewer than fifty updates is handed over only by a timer or a call of flush,
      at most one by each: a book update hands over full batches alone. */
  lemma {:induction false} PartialBatchesNeedFlushes(w: World, es: seq<Event>, end: World)
    requires Inv(w) && Run(w, es, end)
    ensures Partial(end.pushes) <= Partial(w.pushes) + Flushes(es)
    decreases |es|
  {
    if es != [] {
      StepPartial(w, es[0]);
      StepKeepsInv(w, es[0]);
      PartialBatchesNeedFlushes(Step(w, es[0]), es[1..], end);
    }
  }

  // ---- in time -----------------------------------------------------------------------------------------------

  /** A monotone clock, and timers that fire at most `late` ms after they are due. */
  predicate OnTime(w: World, clock: int, e: Event, late: nat) {
    clock <= e.at && (w.pub.flushTimer.Some? ==> e.at <= w.pub.flushTimer.value + late)
  }

  predicate TimelyRun(w: World, clock: int, es: seq<Event>, end: World, late: nat)
    decreases |es|
  {
    if es == [] then w == end
    else Enabled(w, es[0]) && OnTime(w, clock, es[0], late) && TimelyRun(Step(w, es[0]), es[0].at, es[1..], end, late)
  }

  predicate TakenBefore(taken: seq<Taken>, clock: int) {
    && (forall i :: 0 <= i < |taken| ==> taken[i].at <= clock)
    && (forall i, j :: 0 <= i < j < |taken| ==> taken[i].at <= taken[j].at)
  }

  predicate Prompt(taken: seq<Taken>, handedAt: seq<int>, late: nat) {
    && |handedAt| <= |taken|
    && forall i :: 0 <= i < |handedAt| ==> taken[i].at <= handedAt[i] <= taken[i].at + 250 + late
  }

  /** Nothing is left pending after its time, and nothing was handed over after it. */
  predicate InTime(w: World, clock: int, late: nat) {
    && |HandedAt(w.pushes)| + |w.pub.pending| == |w.taken|
    && TakenBefore(w.taken, clock)
    && Prompt(w.taken, HandedAt(w.pushes), late)
    && (w.pub.flushTimer.Some? ==> clock <= w.pub.flushTimer.value + late)
  }

  /** Handing over everything at one moment is prompt when it is prompt for the oldest item. */
  lemma HandOverAll(taken: seq<Taken>, handedAt: seq<int>, at: int, late: nat)
    requires Prompt(taken, handedAt, late) && TakenBefore(taken, at)
    requires |handedAt| < |taken| ==> at <= taken[|handedAt|].at + 250 + late
    ensures Prompt(taken, handedAt + seq(|taken| - |handedAt|, _ => at), late)
  {
  }

  lemma MoveTakesLater(w: World, clock: int, more: seq<Taken>, at: int, next: World)
    requires TakenBefore(w.taken, clock) && clock <= at && Moves(w, more, at, next)
    ensures TakenBefore(next.taken, at)
  {
    assert forall i :: |w.taken| <= i < |next.taken| ==> next.taken[i] in more;
  }

  lemma MoveInTime(w: World, clock: int, more: seq<Taken>, at: int, next: World, late: nat)
    requires TimerOfOldest(w) && InTime(w, clock, late) && Moves(w, more, at, next) && clock <= at
    requires w.pub.flushTimer.Some? ==> at <= w.pub.flushTimer.value + late
    ensures InTime(next, at, late)
  {
    MoveTakesLater(w, clock, more, at, next);
    assert |Waiting(w, more)| == |w.pub.pending| + |more|;
    if next.pub.pending == [] {
      HandedMore(w.pushes, at, Waiting(w, more));
      HandOverAll(next.taken, HandedAt(w.pushes), at, late);
    }
  }

  lemma StepInTime(w: World, clock: int, e: Event, late: nat)
    requires Inv(w) && InTime(w, clock, late) && OnTime(w, clock, e, late)
    ensures InTime(Step(w, e), e.at, late)
  {
    StepMoves(w, e);
    MoveInTime(w, clock, TakenBy(w, e), e.at, Step(w, e), late);
  }

  /** The clock reading at the last event. */
  function EndClock(clock: int, es: seq<Event>): int { if es == [] then clock else es[|es| - 1].at }

  lemma EndClockOfRest(clock: int, es: seq<Event>)
    requires es != []
    ensures EndClock(clock, es) == EndClock(es[0].at, es[1..])
  {
  }

  lemma {:induction false} RunInTime(w: World, clock: int, es: seq<Event>, end: World, late: nat)
    requires Inv(w) && InTime(w, clock, late) && TimelyRun(w, clock, es, end, late)
    ensures Inv(end) && InTime(end, EndClock(clock, es), late)
    decreases |es|
  {
    if es != [] {
      StepKeepsInv(w, es[0]);
      StepInTime(w, clock, es[0], late);
      RunInTime(Step(w, es[0]), es[0].at, es[1..], end, late);
      EndClockOfRest(clock, es);
    }
  }

  lemma PendingIsRecent(w: World, clock: int, late: nat, k: nat)
    requires TimerOfOldest(w) && InTime(w, clock, late) && |HandedAt(w.pushes)| <= k < |w.taken|
    ensures clock <= w.taken[k].at + 250 + late
  {
    var oldest := |HandedAt(w.pushes)|;
    assert w.taken[oldest].at <= w.taken[k].at;
  }

  /** Main result. With timers at most `late` ms late, every update is handed over within 250 + late ms of
      being taken: the k-th item handed over is the k-th item taken and was handed over in that time, and an
      item not handed over yet was taken at most 250 + late ms before the last event. (A look at the clock
      without effect is a book update that shows nothing.) */
  lemma HandedOverInTime(clock: int, es: seq<Event>, end: World, late: nat)
    requires TimelyRun(START, clock, es, end, late)
    ensures InOrder(end) && Prompt(end.taken, HandedAt(end.pushes), late)
    ensures forall k :: |HandedAt(end.pushes)| <= k < |end.taken| ==>
      EndClock(clock, es) <= end.taken[k].at + 250 + late
  {
    StartInv();
    assert InTime(START, clock, late);
    RunInTime(START, clock, es, end, late);
    forall k | |HandedAt(end.pushes)| <= k < |end.taken|
      ensures EndClock(clock, es) <= end.taken[k].at + 250 + late
    {
      PendingIsRecent(end, EndClock(clock, es), late, k);
    }
  }

  // ---- shown prices --------------------------------------------------------------------------------------------

  /** The first outcome's price, where an event shows a book of the asset with an outcome. */
  predicate Shows(e: Event, asset: string) {
    e.Book? && e.asset == asset && e.update.Some? && |e.update.value.outcomePrices| > 0
  }

  /** The last price a run's book updates show for an asset. */
  function LastSeen(asset: string, es: seq<Event>): Option<real> {
    if es == [] then None
    else
      var e := es[|es| - 1];
      if Shows(e, asset) then Some(e.update.value.outcomePrices[0].price) else LastSeen(asset, es[..|es| - 1])
  }

  /** The price of the last update taken for an asset. */
  function LastTaken(asset: string, taken: seq<Taken>): Option<real> {
    if taken == [] then None
    else if taken[|taken| - 1].asset == asset then Some(taken[|taken| - 1].price)
    else LastTaken(asset, taken[..|taken| - 1])
  }

  function Known(p: Publisher, asset: string): Option<real> {
    if asset in p.lastPrice then Some(p.lastPrice[asset]) else None
  }

  predicate Close(a: real, b: real) { a < b + 0.0005 && b < a + 0.0005 }

  /** Neither known, or both within the threshold. */
  predicate Agree(shown: Option<real>, seen: Option<real>) {
    (shown.Some? <==> seen.Some?) && (shown.Some? ==> Close(shown.value, seen.value))
  }

  /** No update of an asset is within the threshold of the one taken before it. */
  predicate NoNoise(taken: seq<Taken>) {
    forall k :: 0 <= k < |taken| ==>
      var before := LastTaken(taken[k].asset, taken[..k]);
      before.Some? ==> !Close(before.value, taken[k].price)
  }

  ghost predicate Follows(w: World, es: seq<Event>) {
    && NoNoise(w.taken)
    && (forall asset: string :: LastTaken(asset, w.taken) == Known(w.pub, asset))
    && (forall asset: string :: Agree(Known(w.pub, asset), LastSeen(asset, es)))
  }

  lemma TakenMore(asset: string, taken: seq<Taken>, t: Taken)
    ensures LastTaken(asset, taken + [t]) == if t.asset == asset then Some(t.price) else LastTaken(asset, taken)
  {
  }

  lemma NoNoiseMore(taken: seq<Taken>, t: Taken)
    requires NoNoise(taken)
    requires LastTaken(t.asset, taken).Some? ==> !Close(LastTaken(t.asset, taken).value, t.price)
    ensures NoNoise(taken + [t])
  {
    var all := taken + [t];
    forall k | 0 <= k < |all|
      ensures var before := LastTaken(all[k].asset, all[..k]); before.Some? ==> !Close(before.value, all[k].price)
    {
      if k < |taken| {
        assert all[..k] == taken[..k];
      } else {
        assert all[..k] == taken;
      }
    }
  }

  lemma SeenMore(asset: string, done: seq<Event>, e: Event)
    ensures LastSeen(asset, done + [e])
         == if Shows(e, asset) then Some(e.update.value.outcomePrices[0].price) else LastSeen(asset, done)
  {
  }

  /** What a step does to what is known of one asset. */
  lemma StepKnows(w: World, e: Event, asset: string, seen: Option<real>)
    requires Agree(Known(w.pub, asset), seen)
    ensures var more := TakenBy(w, e);
      && Known(Step(w, e).pub, asset)
         == (if more != [] && more[0].asset == asset then Some(more[0].price) else Known(w.pub, asset))
      && Agree(Known(Step(w, e).pub, asset),
               if Shows(e, asset) then Some(e.update.value.outcomePrices[0].price) else seen)
  {
  }

  lemma StepKeepsNoNoise(w: World, e: Event)
    requires NoNoise(w.taken)
    requires e.Book? ==> LastTaken(e.asset, w.taken) == Known(w.pub, e.asset)
    ensures NoNoise(w.taken + TakenBy(w, e))
  {
    var more := TakenBy(w, e);
    if more == [] {
      assert w.taken + more == w.taken;
    } else {
      NoNoiseMore(w.taken, more[0]);
    }
  }

  lemma StepFollows(w: World, done: seq<Event>, e: Event)
    requires Follows(w, done)
    ensures Follows(Step(w, e), done + [e])
  {
    var next, more := Step(w, e), TakenBy(w, e);
    StepKeepsNoNoise(w, e);
    forall asset: string
      ensures LastTaken(asset, next.taken) == Known(next.pub, asset)
      ensures Agree(Known(next.pub, asset), LastSeen(asset, done + [e]))
    {
      StepKnows(w, e, asset, LastSeen(asset, done));
      SeenMore(asset, done, e);
      if more == [] { assert next.taken == w.taken; } else { TakenMore(asset, w.taken, more[0]); }
    }
  }

  lemma {:induction false} RunFollows(w: World, done: seq<Event>, es: seq<Event>, end: World)
    requires Follows(w, done) && Run(w, es, end)
    ensures Follows(end, done + es)
    decreases |es|
  {
    if es == [] {
      assert done + es == done;
    } else {
      StepFollows(w, done, es[0]);
      RunFollows(Step(w, es[0]), done + [es[0]], es[1..], end);
      assert done + [es[0]] + es[1..] == done + es;
    }
  }

  /** Main result. In every run, the last price taken for an asset is within 0.0005 of the last price seen
      for it, and consecutive updates taken for one asset are never that close. */
  lemma TakenFollowsSeen(es: seq<Event>, end: World, asset: string)
    requires Run(START, es, end)
    ensures Agree(LastTaken(asset, end.taken), LastSeen(asset, es))
    ensures NoNoise(end.taken)
  {
    assert [] + es == es;
    RunFollows(START, [], es, end);
  }
}
