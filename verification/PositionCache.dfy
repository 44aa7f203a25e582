/** Coalesced refreshes of the position metrics cache (packages/crypto-algo/src/position-context-cache.ts),
    as the atomic stretches of code between awaits. */
module PositionCache {
  import opened Text

  datatype Metrics = Metrics(count: int, exposureUsd: real, unrealizedPnl: real)

  const EMPTY_METRICS: Metrics := Metrics(0, 0.0, 0.0)

  /** What a reader is told about a condition. */
  function MetricsIn(metrics: map<string, Metrics>, conditionId: string): Metrics {
    if conditionId in metrics then metrics[conditionId] else EMPTY_METRICS
  }

  type Ids = s: seq<string> | s != [] witness ["c"]

  /** The three fields of the cache; a promise is identified by the number of the load behind it. */
  datatype Cache = Cache(
    metrics: map<string, Metrics>, inFlight: Option<nat>, pending: Option<Ids>, nextLoad: nat)

  /** A load to be started: doRefresh has run up to its own await. */
  datatype Start = Load(id: nat, ids: Ids) | Nothing

  function Refreshed(c: Cache, ids: Ids): (Cache, Start) {
    if c.inFlight.Some? then (c.(pending := Some(ids)), Nothing)
    else (c.(inFlight := Some(c.nextLoad), nextLoad := c.nextLoad + 1), Load(c.nextLoad, ids))
  }

  /** doRefresh after its await: on success the metrics are replaced, on failure kept. */
  function Loaded(c: Cache, ids: Ids, result: Option<string -> Metrics>): Cache {
    if result.None? then c else c.(metrics := map id | id in ids :: result.value(id))
  }

  /** The owner of the in-flight load after its await: the finally block, then the deferred request. */
  function Resumed(c: Cache): (Cache, Start) {
    var free := c.(inFlight := None);
    if c.pending.None? then (free, Nothing) else Refreshed(free.(pending := None), c.pending.value)
  }

  class PositionContextCache {
    var metricsByCondition: map<string, Metrics>
    var refreshInFlight: Option<nat>
    var pendingConditionIds: Option<Ids>
    var nextLoad: nat

    constructor ()
      ensures View() == Cache(map[], None, None, 0)
    {
      metricsByCondition, refreshInFlight, pendingConditionIds, nextLoad := map[], None, None, 0;
    }

    ghost function View(): Cache
      reads this
    {
      Cache(metricsByCondition, refreshInFlight, pendingConditionIds, nextLoad)
    }

    method GetMetrics(conditionId: string) returns (m: Metrics)
      ensures m == MetricsIn(metricsByCondition, conditionId)
    {
      m := if conditionId in metricsByCondition then metricsByCondition[conditionId] else EMPTY_METRICS;
    }

    /** refresh up to its first await. An empty request clears the cache instead. */
    method Refresh(conditionIds: seq<string>) returns (start: Start)
      modifies this
      ensures conditionIds == [] ==> View() == old(View()).(metrics := map[]) && start == Nothing
      ensures conditionIds != [] ==> (View(), start) == Refreshed(old(View()), conditionIds)
    {
      if |conditionIds| == 0 {
        metricsByCondition := map[];
        return Nothing;
      }
      if refreshInFlight.Some? {
        pendingConditionIds := Some(conditionIds);
        return Nothing;
      }
      start := Load(nextLoad, conditionIds);
      refreshInFlight, nextLoad := Some(nextLoad), nextLoad + 1;
    }

    method LoadSettled(conditionIds: Ids, result: Option<string -> Metrics>)
      modifies this`metricsByCondition
      ensures View() == Loaded(old(View()), conditionIds, result)
    {
      if result.None? { return; }
      var next: map<string, Metrics> := map[];
      for i := 0 to |conditionIds|
        invariant next == map id | id in conditionIds[..i] :: result.value(id)
      {
        next := next[conditionIds[i] := result.value(conditionIds[i])];
        assert conditionIds[..i + 1] == conditionIds[..i] + [conditionIds[i]];
      }
      assert conditionIds[..|conditionIds|] == conditionIds;
      metricsByCondition := next;
    }

    method OwnerResumed() returns (start: Start)
      modifies this
      ensures (View(), start) == Resumed(old(View()))
    {
      refreshInFlight := None;
      if pendingConditionIds.None? { return Nothing; }
      var next := pendingConditionIds.value;
      pendingConditionIds := None;
      start := Refresh(next);
    }
  }

  // ---- every interleaving ---------------------------------------------------------------------------

  /** Non-empty requests, loads settling, and owners resuming after their load has settled. */
  datatype Event = Request(ids: Ids) | Settle(load: nat, result: Option<string -> Metrics>) | Resume(load: nat)

  /** The cache among its promises: loads still running, settled loads whose owner has not resumed yet,
      the most recent request, the ids of the last load started, and how the last load settled ended. */
  datatype World = World(
    cache: Cache, running: map<nat, Ids>, settled: set<nat>,
    requested: Option<Ids>, started: Option<Ids>, lastResult: Option<string -> Metrics>)

  const INITIAL: World := World(Cache(map[], None, None, 0), map[], {}, None, None, None)

  predicate Enabled(w: World, e: Event) {
    match e
    case Request(_) => true
    case Settle(load, _) => load in w.running
    case Resume(load) => load in w.settled
  }

  function Launch(w: World, cache: Cache, start: Start): World {
    match start
    case Nothing => w.(cache := cache)
    case Load(id, ids) => w.(cache := cache, running := w.running[id := ids], started := Some(ids))
  }

  function Step(w: World, e: Event): World
    requires Enabled(w, e)
  {
    match e
    case Request(ids) =>
      var (cache, start) := Refreshed(w.cache, ids);
      Launch(w.(requested := Some(ids)), cache, start)
    case Settle(load, result) =>
      w.(cache := Loaded(w.cache, w.running[load], result), running := w.running - {load},
         settled := w.settled + {load}, lastResult := result)
    case Resume(load) =>
      var (cache, start) := Resumed(w.cache);
      Launch(w.(settled := w.settled - {load}), cache, start)
  }

  ghost predicate Run(w: World, es: seq<Event>, end: World)
    decreases |es|
  {
    if es == [] then w == end else Enabled(w, es[0]) && Run(Step(w, es[0]), es[1..], end)
  }

  /** The cache holds exactly the requested ids, each with the metrics the load found for it. */
  ghost predicate Reflects(metrics: map<string, Metrics>, ids: Ids, result: string -> Metrics) {
    && (forall id :: id in metrics <==> id in ids)
    && (forall id :: id in ids ==> metrics[id] == result(id))
  }

  ghost predicate Idle(w: World) {
    && w.running == map[] && w.settled == {} && w.cache.pending == None && w.started == w.requested
    && (w.requested.Some? && w.lastResult.Some? ==> Reflects(w.cache.metrics, w.requested.value, w.lastResult.value))
  }

  ghost predicate Busy(w: World, load: nat) {
    && load < w.cache.nextLoad && w.started.Some? && w.requested.Some?
    && (|| (w.running == map[load := w.started.value] && w.settled == {})
        || (w.running == map[] && w.settled == {load}
            && (w.lastResult.Some? ==> Reflects(w.cache.metrics, w.started.value, w.lastResult.value))))
    && (w.cache.pending == None ==> w.started == w.requested)
    && (w.cache.pending != None ==> w.cache.pending == w.requested)
  }

  ghost predicate Inv(w: World) {
    match w.cache.inFlight
    case None => Idle(w)
    case Some(load) => Busy(w, load)
  }

  lemma StepKeepsInv(w: World, e: Event)
    requires Inv(w) && Enabled(w, e)
    ensures Inv(Step(w, e))
  {
  }

  lemma {:induction false} RunKeepsInv(w: World, es: seq<Event>, end: World)
    requires Inv(w) && Run(w, es, end)
    ensures Inv(end)
    decreases |es|
  {
    if es != [] {
      StepKeepsInv(w, es[0]);
      RunKeepsInv(Step(w, es[0]), es[1..], end);
    }
  }

  /** Main result. Over every interleaving of non-empty requests, at most one load runs at a time. */
  lemma OneLoadAtATime(es: seq<Event>, end: World)
    requires Run(INITIAL, es, end)
    ensures |end.running| <= 1
    ensures end.running != map[] ==> end.cache.inFlight.Some? && end.running.Keys == {end.cache.inFlight.value}
  {
    RunKeepsInv(INITIAL, es, end);
  }

  /** Main result. The most recent request is never lost: it is what the last load was started for, or it
      is pending behind a load in flight whose owner will start it. */
  lemma LatestRequestSurvives(es: seq<Event>, end: World)
    requires Run(INITIAL, es, end)
    ensures end.started == end.requested || (end.cache.inFlight.Some? && end.cache.pending == end.requested)
    ensures end.cache.inFlight.Some? ==> end.cache.inFlight.value in end.running.Keys + end.settled
  {
    RunKeepsInv(INITIAL, es, end);
  }

  /** Main result. With nothing in flight, the last load was started for the most recent request; if it
      succeeded, the cache holds its result for exactly the requested ids. */
  lemma IdleCacheIsCurrent(es: seq<Event>, end: World)
    requires Run(INITIAL, es, end) && end.cache.inFlight == None
    ensures end.started == end.requested && end.cache.pending == None && end.running == map[]
    ensures end.requested.Some? && end.lastResult.Some? ==>
      Reflects(end.cache.metrics, end.requested.value, end.lastResult.value)
  {
    RunKeepsInv(INITIAL, es, end);
  }

  /** The ids of the last request in a run. */
  function LastRequest(es: seq<Event>): (ids: Option<Ids>)
    ensures ids == None <==> forall e :: e in es ==> !e.Request?
  {
    if es == [] then None
    else
      var last := es[|es| - 1];
      assert es == es[..|es| - 1] + [last];
      if last.Request? then Some(last.ids) else LastRequest(es[..|es| - 1])
  }

  lemma {:induction false} LastRequestTail(es: seq<Event>)
    requires es != []
    ensures LastRequest(es) == if LastRequest(es[1..]) != None then LastRequest(es[1..])
                               else if es[0].Request? then Some(es[0].ids) else None
  {
    var front := es[..|es| - 1];
    if front != [] && !es[|es| - 1].Request? {
      LastRequestTail(front);
      assert front[1..] == es[1..][..|es| - 2];
    }
  }

  lemma {:induction false} RequestedOfRun(w: World, es: seq<Event>, end: World)
    requires Run(w, es, end)
    ensures end.requested == if LastRequest(es) == None then w.requested else LastRequest(es)
    decreases |es|
  {
    if es != [] {
      RequestedOfRun(Step(w, es[0]), es[1..], end);
      LastRequestTail(es);
    }
  }

  /** The last request of the run, seen from outside: an idle cache whose last load succeeded holds exactly
      the ids of the last request made, whatever was asked for in between. */
  lemma IdleCacheAnswersLastRequest(es: seq<Event>, end: World, ids: Ids)
    requires Run(INITIAL, es, end) && end.cache.inFlight == None && LastRequest(es) == Some(ids)
    ensures end.started == Some(ids)
    ensures end.lastResult.Some? ==> Reflects(end.cache.metrics, ids, end.lastResult.value)
  {
    RunKeepsInv(INITIAL, es, end);
    RequestedOfRun(INITIAL, es, end);
  }

  /** What readers are then told: the last load's metrics for each id of the last request, and empty metrics for
      every other condition, also one that an earlier load had filled. */
  lemma IdleCacheTellsLastRequest(es: seq<Event>, end: World, ids: Ids, conditionId: string)
    requires Run(INITIAL, es, end) && end.cache.inFlight == None && LastRequest(es) == Some(ids)
    requires end.lastResult.Some?
    ensures MetricsIn(end.cache.metrics, conditionId)
         == if conditionId in ids then end.lastResult.value(conditionId) else Metrics(0, 0.0, 0.0)
  {
    IdleCacheAnswersLastRequest(es, end, ids);
  }

  function Finish(w: World, result: Option<string -> Metrics>): World
    requires w.cache.inFlight.Some? && w.cache.inFlight.value in w.running
  {
    Step(Step(w, Settle(w.cache.inFlight.value, result)), Resume(w.cache.inFlight.value))
  }

  /** Progress: finishing the load in flight leaves the cache idle, or starts the pending request, and
      finishing that one leaves it idle. */
  lemma TwoLoadsSettleEverything(es: seq<Event>, w: World, first: Option<string -> Metrics>,
                                 second: Option<string -> Metrics>)
    requires Run(INITIAL, es, w) && w.running != map[]
    ensures w.cache.inFlight.Some? && w.cache.inFlight.value in w.running
    ensures var next := Finish(w, first);
      if w.cache.pending == None then next.cache.inFlight == None
      else next.started == w.requested && next.cache.pending == None && next.cache.inFlight.Some?
           && next.cache.inFlight.value in next.running && Finish(next, second).cache.inFlight == None
  {
    RunKeepsInv(INITIAL, es, w);
  }
}
