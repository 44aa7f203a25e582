/** Whole runs of the price feed: the indexes stay inverse to each other, and the debounce bounds
    latency and rate (packages/crypto-algo/src/price-feed.ts:183-257, 343-487). */
module PriceFeedRuns {
  import opened Text
  import opened MidHistory
  import opened PriceFeed

  // ---- the indexes --------------------------------------------------------------------------------

  /** assetToCondition is the exact inverse of conditionToAssets. */
  ghost predicate Inverse(f: Feed) {
    forall a, c :: a in TokensOf(f, c) <==> a in f.owner && f.owner[a] == c
  }

  ghost predicate Indexed(f: Feed) {
    && Inverse(f)
    && f.book.Keys <= f.owner.Keys
    && f.pending.Keys <= f.tokens.Keys
    && f.lastEval.Keys <= f.tokens.Keys
    && f.mid.samples.Keys <= f.owner.Keys && f.mid.lastRecordedAt.Keys <= f.owner.Keys
  }

  /** What a subscription may say: the condition keeps the tokens it had, and takes none from another. */
  predicate SafeSubscription(f: Feed, c: string, t: Tokens) {
    && TokensOf(f, c) <= Toks(t)
    && forall a :: a in Toks(t) && a in f.owner ==> f.owner[a] == c
  }

  lemma SubscribedTokens(f: Feed, c: string, t: Tokens, d: string)
    ensures TokensOf(Subscribe(f, c, t), d) == if d == c then Toks(t) else TokensOf(f, d)
  {
  }

  /** Main result. A subscription keeps the two maps inverse exactly when it is safe. */
  lemma SubscribeKeepsInverseIff(f: Feed, c: string, t: Tokens)
    requires Inverse(f)
    ensures Inverse(Subscribe(f, c, t)) <==> SafeSubscription(f, c, t)
  {
    var g := Subscribe(f, c, t);
    assert TokensOf(g, c) == Toks(t);
    if SafeSubscription(f, c, t) {
      forall a, d ensures a in TokensOf(g, d) <==> a in g.owner && g.owner[a] == d {
        SubscribedTokens(f, c, t, d);
        assert a in TokensOf(f, d) <==> a in f.owner && f.owner[a] == d;
      }
    }
    if Inverse(g) {
      forall a | a in TokensOf(f, c) ensures a in Toks(t) {
        assert a in f.owner && f.owner[a] == c;
        assert a in g.owner && g.owner[a] == c;
        assert a in TokensOf(g, c);
      }
      forall a | a in Toks(t) && a in f.owner ensures f.owner[a] == c {
        var d := f.owner[a];
        SubscribedTokens(f, c, t, d);
        assert a in TokensOf(f, d);
        assert a in TokensOf(g, c) && g.owner[a] == c;
        assert a in TokensOf(g, d) <==> g.owner[a] == d;
      }
    }
  }

  lemma DropKeepsIndexed(f: Feed, gone: set<string>)
    requires Indexed(f)
    ensures Indexed(Drop(f, gone))
  {
    var g := Drop(f, gone);
    var stale := Stale(f, gone);
    forall a, c ensures a in TokensOf(g, c) <==> a in g.owner && g.owner[a] == c {
      assert a in TokensOf(f, c) <==> a in f.owner && f.owner[a] == c;
      if a in TokensOf(f, c) && c !in gone {
        assert forall d :: a in TokensOf(f, d) ==> d == c;
        assert a !in stale;
      }
      if a in g.owner && g.owner[a] == c {
        assert a in f.owner && f.owner[a] == c && a in TokensOf(f, c);
        assert c !in gone;
      }
    }
    assert g.pending.Keys <= g.tokens.Keys && g.lastEval.Keys <= g.tokens.Keys;
  }

  lemma ClearKeepsIndexed(f: Feed, c: string)
    requires Indexed(f)
    ensures Indexed(ClearTopOfBook(f, c))
  {
    var g := ClearTopOfBook(f, c);
    assert forall d :: TokensOf(g, d) == TokensOf(f, d);
  }

  lemma RefreshKeepsIndexed(f: Feed, asset: string, top: TopOfBook)
    requires Indexed(f) && asset in f.owner
    ensures Indexed(Refreshed(f, asset, top))
  {
    assert forall d :: TokensOf(Refreshed(f, asset, top), d) == TokensOf(f, d);
    RecordingKeys(f.mid, asset, top.mid, top.updatedAt);
  }

  lemma DebounceKeepsIndexed(f: Feed, D: int, c: string, asset: string, now: int)
    requires Indexed(f) && c in f.tokens
    ensures Indexed(Debounce(f, D, c, asset, now))
  {
    assert forall d :: TokensOf(Debounce(f, D, c, asset, now), d) == TokensOf(f, d);
  }

  lemma UpdateKeepsIndexed(f: Feed, D: int, asset: string, book: Option<OrderBook>, now: int)
    requires Indexed(f)
    ensures Indexed(BookUpdate(f, D, asset, book, now))
  {
    if AcceptedFor(f, asset, book).Some? {
      var c, top := f.owner[asset], TopOf(book.value, now);
      assert asset in TokensOf(f, c) && c in f.tokens;
      RefreshKeepsIndexed(f, asset, top);
      DebounceKeepsIndexed(Refreshed(f, asset, top), D, c, asset, now);
    }
  }

  lemma FireKeepsIndexed(f: Feed, c: string, now: int)
    requires Indexed(f) && c in f.pending
    ensures Indexed(Fire(f, c, now))
  {
    var g := Fire(f, c, now);
    assert forall d :: TokensOf(g, d) == TokensOf(f, d);
  }

  lemma SameIndex(f: Feed, g: Feed)
    requires Indexed(f) && g.tokens == f.tokens && g.owner == f.owner && g.lastEval == f.lastEval
    requires g.book.Keys <= f.book.Keys && g.pending.Keys <= f.pending.Keys
    requires g.mid.samples.Keys <= f.mid.samples.Keys && g.mid.lastRecordedAt.Keys <= f.mid.lastRecordedAt.Keys
    ensures Indexed(g)
  {
    assert forall d :: TokensOf(g, d) == TokensOf(f, d);
  }

  /** Main result. After unsubscribeStale the WebSocket client is reconciled to exactly the assets the
      index still knows: the tokens of the kept conditions. */
  lemma ReconciledExactly(f: Feed, active: set<string>, a: string)
    requires Indexed(f)
    ensures var g := UnsubscribeStale(f, active);
            && g.tokens.Keys == f.tokens.Keys * active
            && (a in g.owner <==> exists c :: c in g.tokens && a in Toks(g.tokens[c]))
            && (forall c :: c in g.tokens ==> g.tokens[c] == f.tokens[c])
  {
    var g := UnsubscribeStale(f, active);
    DropKeepsIndexed(f, f.tokens.Keys - active);
    if a in g.owner {
      var c := g.owner[a];
      assert a in TokensOf(g, c);
    }
    if c :| c in g.tokens && a in Toks(g.tokens[c]) {
      assert a in TokensOf(g, c);
    }
  }

  // ---- events ------------------------------------------------------------------------------------------

  datatype Event =
    | Tick(t: int)
    | Connect
    | Sub(c: string, tokens: Tokens)
    | Unsub(active: set<string>)
    | Update(asset: string, book: Option<OrderBook>)
    | Expire(c: string)
    | Clear(c: string)
    | Reconnect
    | Disconnect

  /** The feed, the clock, and for one watched condition all its evaluation times, across every subscription,
      and the oldest accepted update not yet followed by an evaluation or a cancellation. */
  datatype World = World(feed: Feed, now: int, evals: seq<int>, waiting: Option<int>)

  const INITIAL: World := World(EMPTY, 0, [], None)

  function NextFeed(f: Feed, D: int, now: int, e: Event): Feed {
    match e
    case Tick(_) => f
    case Connect => f.(connected := true)
    case Sub(c, t) => Subscribe(f, c, t)
    case Unsub(active) => UnsubscribeStale(f, active)
    case Update(asset, book) => BookUpdate(f, D, asset, book, now)
    case Expire(c) => Fire(f, c, now)
    case Clear(c) => ClearTopOfBook(f, c)
    case Reconnect => f.(book := map[], mid := NO_HISTORY)
    case Disconnect => f.(pending := map[], book := map[], connected := false, mid := NO_HISTORY)
  }

  /** An update of condition c that is evaluated without waiting. */
  predicate AtOnce(w: World, D: int, e: Event, c: string) {
    e.Update? && EvaluatedAtOnce(w.feed, D, e.asset, e.book, w.now) == Some(c)
  }

  predicate AcceptsUpdate(w: World, e: Event, c: string) {
    e.Update? && AcceptedFor(w.feed, e.asset, e.book) == Some(c)
  }

  predicate Evaluates(w: World, D: int, e: Event, c: string) { AtOnce(w, D, e, c) || e == Expire(c) }

  /** unsubscribeStale drops c, and with it the time of its last evaluation. */
  predicate Drops(w: World, e: Event, c: string) { e.Unsub? && c in w.feed.tokens && c !in e.active }

  /** Whether the event cancels what condition c is waiting for. */
  predicate Cancels(w: World, e: Event, c: string) { Drops(w, e, c) || e == Clear(c) || e.Disconnect? }

  function Step(w: World, D: int, e: Event, c: string): World {
    var evaluated := Evaluates(w, D, e, c);
    World(
      NextFeed(w.feed, D, w.now, e),
      if e.Tick? then e.t else w.now,
      if evaluated then w.evals + [w.now] else w.evals,
      if evaluated || Cancels(w, e, c) then None
      else if AcceptsUpdate(w, e, c) && w.waiting.None? then Some(w.now)
      else w.waiting)
  }

  /** The world after a run, watching condition c. */
  function After(D: int, es: seq<Event>, c: string): World {
    if es == [] then INITIAL else Step(After(D, es[..|es| - 1], c), D, es[|es| - 1], c)
  }

  lemma AfterSnoc(D: int, front: seq<Event>, e: Event, c: string)
    ensures After(D, front + [e], c) == Step(After(D, front, c), D, e, c)
  {
    assert (front + [e])[..|front|] == front;
  }

  // ---- the indexes over every run ---------------------------------------------------------------------------

  /** A timer callback runs only while its timer is armed; when it runs, and what the clock does, is open. */
  predicate Possible(f: Feed, e: Event) { e.Expire? ==> e.c in f.pending }

  predicate Safe(f: Feed, e: Event) { e.Sub? ==> SafeSubscription(f, e.c, e.tokens) }

  predicate PossibleRun(D: int, es: seq<Event>, c: string) {
    es == [] || (PossibleRun(D, es[..|es| - 1], c) && Possible(After(D, es[..|es| - 1], c).feed, es[|es| - 1]))
  }

  /** Every subscription of the run is safe when it comes. */
  predicate SafeRun(D: int, es: seq<Event>, c: string) {
    es == [] || (SafeRun(D, es[..|es| - 1], c) && Safe(After(D, es[..|es| - 1], c).feed, es[|es| - 1]))
  }

  /** The feed is indexed after every event of the run. */
  ghost predicate IndexedThroughout(D: int, es: seq<Event>, c: string) {
    Indexed(After(D, es, c).feed) && (es == [] || IndexedThroughout(D, es[..|es| - 1], c))
  }

  /** One event keeps the indexes exactly when it is safe. */
  lemma NextIndexedIff(f: Feed, D: int, now: int, e: Event)
    requires Indexed(f) && Possible(f, e)
    ensures Indexed(NextFeed(f, D, now, e)) <==> Safe(f, e)
  {
    match e
    case Sub(c, t) => SubscribeKeepsInverseIff(f, c, t);
    case Unsub(active) => DropKeepsIndexed(f, f.tokens.Keys - active);
    case Update(asset, book) => UpdateKeepsIndexed(f, D, asset, book, now);
    case Expire(c) => FireKeepsIndexed(f, c, now);
    case Clear(c) => ClearKeepsIndexed(f, c);
    case _ => SameIndex(f, NextFeed(f, D, now, e));
  }

  /** Main result. In every run, with timers firing early or late and any clock, the asset index is at every
      moment the inverse of the condition index, with books and mid history only for indexed assets and timers
      and evaluation times only for subscribed conditions, if and only if every subscription is safe. */
  lemma {:induction false} IndexedIffSafe(D: int, es: seq<Event>, c: string)
    requires PossibleRun(D, es, c)
    ensures IndexedThroughout(D, es, c) <==> SafeRun(D, es, c)
  {
    if es != [] {
      var front, e := es[..|es| - 1], es[|es| - 1];
      IndexedIffSafe(D, front, c);
      var w := After(D, front, c);
      if Indexed(w.feed) { NextIndexedIff(w.feed, D, w.now, e); }
    }
  }

  /** A catalogue that gives every condition its tokens for good, and no token to two conditions. */
  ghost predicate Catalogue(cat: string -> Tokens) {
    forall c, d, a :: a in Toks(cat(c)) && a in Toks(cat(d)) ==> c == d
  }

  predicate FollowsCatalogue(es: seq<Event>, cat: string -> Tokens) {
    forall i :: 0 <= i < |es| && es[i].Sub? ==> es[i].tokens == cat(es[i].c)
  }

  ghost predicate Catalogued(f: Feed, cat: string -> Tokens) { forall d :: d in f.tokens ==> f.tokens[d] == cat(d) }

  lemma CatalogueSubscriptionIsSafe(cat: string -> Tokens, f: Feed, e: Event)
    requires Catalogue(cat) && Indexed(f) && Catalogued(f, cat)
    requires e.Sub? ==> e.tokens == cat(e.c)
    ensures Safe(f, e)
  {
    if e.Sub? {
      forall a | a in Toks(e.tokens) && a in f.owner ensures f.owner[a] == e.c {
        assert a in TokensOf(f, f.owner[a]);
      }
    }
  }

  lemma NextCatalogued(cat: string -> Tokens, f: Feed, D: int, now: int, e: Event)
    requires Catalogued(f, cat) && (e.Sub? ==> e.tokens == cat(e.c))
    ensures Catalogued(NextFeed(f, D, now, e), cat)
  {
  }

  lemma FollowsFront(es: seq<Event>, cat: string -> Tokens)
    requires es != [] && FollowsCatalogue(es, cat)
    ensures FollowsCatalogue(es[..|es| - 1], cat)
  {
  }

  /** Main result. If every token belongs to one condition for good, every run, however its timers fire, keeps
      the two indexes inverse and everything recorded inside them. */
  lemma {:induction false} CatalogueRunsStayIndexed(cat: string -> Tokens, D: int, es: seq<Event>, c: string)
    requires Catalogue(cat) && FollowsCatalogue(es, cat) && PossibleRun(D, es, c)
    ensures IndexedThroughout(D, es, c) && Catalogued(After(D, es, c).feed, cat)
  {
    if es != [] {
      var front, e := es[..|es| - 1], es[|es| - 1];
      FollowsFront(es, cat);
      CatalogueRunsStayIndexed(cat, D, front, c);
      var w := After(D, front, c);
      CatalogueSubscriptionIsSafe(cat, w.feed, e);
      NextIndexedIff(w.feed, D, w.now, e);
      NextCatalogued(cat, w.feed, D, w.now, e);
    }
  }

  // ---- timely runs -------------------------------------------------------------------------------------------

  predicate Enabled(w: World, e: Event) {
    match e
    case Tick(t) => t >= w.now
    case Expire(c) => c in w.feed.pending && w.feed.pending[c].due <= w.now
    case _ => true
  }

  /** Timers are served in time: the clock does not pass a deadline still armed. */
  predicate Timely(w: World, e: Event) {
    e.Tick? ==> forall c :: c in w.feed.pending ==> e.t <= w.feed.pending[c].due
  }

  predicate Allowed(w: World, e: Event) { Enabled(w, e) && Timely(w, e) }

  /** The clock is monotone and timers fire when they are due. Subscriptions may be unsafe: the debounce does not
      depend on the indexes. */
  predicate TimelyRun(D: int, es: seq<Event>, c: string) {
    es == [] || (TimelyRun(D, es[..|es| - 1], c) && Allowed(After(D, es[..|es| - 1], c), es[|es| - 1]))
  }

  // ---- the debounce invariant ------------------------------------------------------------------------

  predicate Ordered(evals: seq<int>, now: int) {
    && (forall i :: 0 <= i < |evals| ==> evals[i] <= now)
    && (forall i, j :: 0 <= i <= j < |evals| ==> evals[i] <= evals[j])
  }

  predicate Paced(w: World, D: int, c: string) {
    var last, n := LastEval(w.feed, c), |w.evals|;
    && 0 <= last <= w.now
    && Ordered(w.evals, w.now)
    && (c in w.feed.lastEval ==> n >= 1 && last == w.evals[n - 1])
    && (c in w.feed.pending ==>
          var due := w.feed.pending[c].due;
          && w.now <= due < last + 2 * D
          && (n >= 1 && c !in w.feed.lastEval ==> due - w.evals[n - 1] >= D)
          && (n >= 2 ==> due - w.evals[n - 2] >= D))
    && (w.waiting.Some? ==>
          && last <= w.waiting.value <= w.now
          && c in w.feed.pending && w.feed.pending[c].due < w.waiting.value + 2 * D)
  }

  /** A step that neither evaluates nor schedules c keeps its pace. */
  lemma QuietKeepsPaced(w: World, next: World, D: int, c: string)
    requires Paced(w, D, c) && next.evals == w.evals && next.now >= w.now
    requires (c in next.feed.lastEval <==> c in w.feed.lastEval) && LastEval(next.feed, c) == LastEval(w.feed, c)
    requires c in next.feed.pending ==>
      c in w.feed.pending && next.feed.pending[c] == w.feed.pending[c] && next.now <= w.feed.pending[c].due
    requires next.waiting.Some? ==> next.waiting == w.waiting && c in next.feed.pending
    ensures Paced(next, D, c)
  {
  }

  lemma EvaluationKeepsPaced(w: World, next: World, D: int, c: string)
    requires Paced(w, D, c) && next.now == w.now && next.evals == w.evals + [w.now] && next.waiting == None
    requires c in next.feed.lastEval && next.feed.lastEval[c] == w.now
    requires || (c in w.feed.pending && w.feed.pending[c].due <= w.now && c !in next.feed.pending)
             || (w.now - LastEval(w.feed, c) >= D && (c in next.feed.pending ==>
                   c in w.feed.pending && next.feed.pending[c] == w.feed.pending[c]))
    ensures Paced(next, D, c)
  {
  }

  lemma SchedulingKeepsPaced(w: World, next: World, D: int, c: string)
    requires Paced(w, D, c) && next.now == w.now && next.evals == w.evals
    requires w.now - LastEval(w.feed, c) < D && next.feed.lastEval == w.feed.lastEval
    requires c in next.feed.pending && next.feed.pending[c].due == w.now + D
    requires next.waiting == if w.waiting.None? then Some(w.now) else w.waiting
    ensures Paced(next, D, c)
  {
  }

  lemma UpdateKeepsPaced(w: World, D: int, e: Event, c: string)
    requires e.Update? && Paced(w, D, c)
    ensures Paced(Step(w, D, e, c), D, c)
  {
    var next := Step(w, D, e, c);
    var k := AcceptedFor(w.feed, e.asset, e.book);
    if Evaluates(w, D, e, c) {
      EvaluationKeepsPaced(w, next, D, c);
    } else if k == Some(c) {
      SchedulingKeepsPaced(w, next, D, c);
    } else {
      QuietKeepsPaced(w, next, D, c);
    }
  }

  lemma UnsubKeepsPaced(w: World, D: int, e: Event, c: string)
    requires e.Unsub? && Paced(w, D, c)
    ensures Paced(Step(w, D, e, c), D, c)
  {
    if !Drops(w, e, c) { QuietKeepsPaced(w, Step(w, D, e, c), D, c); }
  }

  lemma ExpiryKeepsPaced(w: World, D: int, e: Event, c: string)
    requires e.Expire? && Paced(w, D, c) && Allowed(w, e)
    ensures Paced(Step(w, D, e, c), D, c)
  {
    if e.c == c {
      EvaluationKeepsPaced(w, Step(w, D, e, c), D, c);
    } else {
      QuietKeepsPaced(w, Step(w, D, e, c), D, c);
    }
  }

  lemma OtherKeepsPaced(w: World, D: int, e: Event, c: string)
    requires !e.Update? && !e.Unsub? && !e.Expire? && Paced(w, D, c) && Allowed(w, e)
    ensures Paced(Step(w, D, e, c), D, c)
  {
    QuietKeepsPaced(w, Step(w, D, e, c), D, c);
  }

  lemma StepKeepsPaced(w: World, D: int, e: Event, c: string)
    requires Paced(w, D, c) && Allowed(w, e)
    ensures Paced(Step(w, D, e, c), D, c)
  {
    match e
    case Update(_, _) => UpdateKeepsPaced(w, D, e, c);
    case Unsub(_) => UnsubKeepsPaced(w, D, e, c);
    case Expire(_) => ExpiryKeepsPaced(w, D, e, c);
    case _ => OtherKeepsPaced(w, D, e, c);
  }

  lemma {:induction false} RunKeepsPaced(D: int, es: seq<Event>, c: string)
    requires TimelyRun(D, es, c)
    ensures Paced(After(D, es, c), D, c)
  {
    if es != [] {
      RunKeepsPaced(D, es[..|es| - 1], c);
      StepKeepsPaced(After(D, es[..|es| - 1], c), D, es[|es| - 1], c);
    }
  }

  /** Main result. In every timely run, no accepted update waits 2D or longer, and a pending deadline is
      below the last evaluation plus 2D. */
  lemma LatencyBound(D: int, es: seq<Event>, c: string)
    requires TimelyRun(D, es, c)
    ensures var end := After(D, es, c);
            && (end.waiting.Some? ==> end.now < end.waiting.value + 2 * D)
            && (c in end.feed.pending ==> end.feed.pending[c].due < LastEval(end.feed, c) + 2 * D)
  {
    RunKeepsPaced(D, es, c);
  }

  /** The i-th event is an accepted update of c, and nothing after it cancels what c waits for. */
  predicate AcceptedForGood(D: int, es: seq<Event>, c: string, i: nat) {
    && i < |es| && AcceptsUpdate(After(D, es[..i], c), es[i], c)
    && forall k :: i < k < |es| ==> !Cancels(After(D, es[..k], c), es[k], c)
  }

  /** At time t an update accepted at u has been evaluated: at once, or before u + 2D. */
  predicate InTime(u: int, t: int, D: int) { u <= t && (t == u || t < u + 2 * D) }

  /** From world w, in which an update is accepted, to a later world v: it waits, or has been evaluated. */
  predicate Served(w: World, v: World, D: int) {
    && v.now >= w.now
    && (|| (v.waiting.Some? && v.waiting.value <= w.now && |v.evals| == |w.evals|)
        || (|v.evals| > |w.evals| && InTime(w.now, v.evals[|w.evals|], D)))
  }

  lemma StepServes(w: World, v: World, D: int, e: Event, c: string)
    requires Served(w, v, D) && Paced(v, D, c) && Allowed(v, e) && !Cancels(v, e, c)
    ensures Served(w, Step(v, D, e, c), D)
  {
  }

  lemma AcceptanceServes(w: World, D: int, e: Event, c: string)
    requires Paced(w, D, c) && AcceptsUpdate(w, e, c)
    ensures Served(w, Step(w, D, e, c), D)
  {
  }

  lemma FrontForGood(D: int, es: seq<Event>, c: string, i: nat)
    requires AcceptedForGood(D, es, c, i) && i < |es| - 1
    ensures AcceptedForGood(D, es[..|es| - 1], c, i)
    ensures !Cancels(After(D, es[..|es| - 1], c), es[|es| - 1], c)
  {
    var front := es[..|es| - 1];
    forall k | i <= k < |front| ensures front[..k] == es[..k] && front[k] == es[k] {
    }
  }

  lemma {:induction false} UpdateIsServed(D: int, es: seq<Event>, c: string, i: nat)
    requires TimelyRun(D, es, c) && AcceptedForGood(D, es, c, i)
    ensures Served(After(D, es[..i], c), After(D, es, c), D)
  {
    var front, e := es[..|es| - 1], es[|es| - 1];
    RunKeepsPaced(D, front, c);
    if i == |front| {
      AcceptanceServes(After(D, front, c), D, e, c);
    } else {
      FrontForGood(D, es, c, i);
      UpdateIsServed(D, front, c, i);
      assert front[..i] == es[..i];
      StepServes(After(D, es[..i], c), After(D, front, c), D, e, c);
    }
  }

  /** Main result. Every accepted update at time u whose condition is neither dropped nor cleared after it is
      followed by an evaluation in [u, u + 2D), or at u itself, once the clock has reached u + 2D. */
  lemma UpdateIsEvaluated(D: int, es: seq<Event>, c: string, i: nat)
    requires TimelyRun(D, es, c) && AcceptedForGood(D, es, c, i)
    requires After(D, es, c).now >= After(D, es[..i], c).now + 2 * D
    ensures var w, end := After(D, es[..i], c), After(D, es, c);
            |end.evals| > |w.evals| && InTime(w.now, end.evals[|w.evals|], D)
  {
    UpdateIsServed(D, es, c, i);
    LatencyBound(D, es, c);
  }

  // ---- evaluations forgotten by a drop --------------------------------------------------------------------

  /** c was dropped and has not been evaluated since. */
  predicate DroppedSince(D: int, es: seq<Event>, c: string) {
    && es != []
    && var w, e := After(D, es[..|es| - 1], c), es[|es| - 1];
       Drops(w, e, c) || (DroppedSince(D, es[..|es| - 1], c) && !Evaluates(w, D, e, c))
  }

  lemma KnownStep(w: World, D: int, e: Event, c: string)
    ensures c in Step(w, D, e, c).feed.lastEval <==> Evaluates(w, D, e, c) || (c in w.feed.lastEval && !Drops(w, e, c))
  {
  }

  lemma {:induction false} KnownUnlessDropped(D: int, es: seq<Event>, c: string)
    ensures var w := After(D, es, c); c in w.feed.lastEval <==> w.evals != [] && !DroppedSince(D, es, c)
  {
    if es != [] {
      KnownUnlessDropped(D, es[..|es| - 1], c);
      KnownStep(After(D, es[..|es| - 1], c), D, es[|es| - 1], c);
    }
  }

  /** An update is evaluated at once as the first since a drop, less than D after the evaluation `back` places
      before it. */
  predicate ForgetsAt(D: int, front: seq<Event>, e: Event, c: string, back: nat)
    requires back >= 1
  {
    var w := After(D, front, c);
    && AtOnce(w, D, e, c) && DroppedSince(D, front, c)
    && |w.evals| >= back && w.now - w.evals[|w.evals| - back] < D
  }

  /** That happens somewhere in the run. */
  predicate Forgets(D: int, es: seq<Event>, c: string, back: nat)
    requires back >= 1
  {
    es != [] && (Forgets(D, es[..|es| - 1], c, back) || ForgetsAt(D, es[..|es| - 1], es[|es| - 1], c, back))
  }

  predicate NeverDropped(D: int, es: seq<Event>, c: string) {
    es == [] || (NeverDropped(D, es[..|es| - 1], c) && !Drops(After(D, es[..|es| - 1], c), es[|es| - 1], c))
  }

  lemma {:induction false} NeverDroppedNeverForgets(D: int, es: seq<Event>, c: string, back: nat)
    requires back >= 1 && NeverDropped(D, es, c)
    ensures !DroppedSince(D, es, c) && !Forgets(D, es, c, back)
  {
    if es != [] { NeverDroppedNeverForgets(D, es[..|es| - 1], c, back); }
  }

  // ---- at most two in a window of D ------------------------------------------------------------------------

  /** Any window shorter than D holds at most two evaluations. */
  predicate TwoPerWindow(evals: seq<int>, D: int) {
    forall i, k :: 0 <= i && i + 2 <= k < |evals| ==> evals[k] - evals[i] >= D
  }

  lemma TwoPerWindowAppend(evals: seq<int>, D: int, now: int)
    requires Ordered(evals, now)
    ensures TwoPerWindow(evals + [now], D) <==>
      TwoPerWindow(evals, D) && (|evals| >= 2 ==> now - evals[|evals| - 2] >= D)
  {
    var all := evals + [now];
    assert forall i :: 0 <= i < |evals| ==> all[i] == evals[i];
    assert all[|evals|] == now;
    if TwoPerWindow(all, D) {
      assert forall i, k :: 0 <= i && i + 2 <= k < |evals| ==> all[k] - all[i] >= D;
    }
  }

  lemma StepTwoPerWindow(D: int, front: seq<Event>, e: Event, c: string)
    requires var w := After(D, front, c); Paced(w, D, c) && Allowed(w, e)
    ensures var w := After(D, front, c);
            TwoPerWindow(Step(w, D, e, c).evals, D) <==> TwoPerWindow(w.evals, D) && !ForgetsAt(D, front, e, c, 2)
  {
    var w := After(D, front, c);
    KnownUnlessDropped(D, front, c);
    if Evaluates(w, D, e, c) { TwoPerWindowAppend(w.evals, D, w.now); }
  }

  /** Main result. In every timely run, any window shorter than D holds at most two evaluations of a condition,
      across all its subscriptions, if and only if no update is evaluated at once as the first since the
      condition was dropped, less than D after the last evaluation but one before the drop. */
  lemma {:induction false} RateBoundIff(D: int, es: seq<Event>, c: string)
    requires TimelyRun(D, es, c)
    ensures TwoPerWindow(After(D, es, c).evals, D) <==> !Forgets(D, es, c, 2)
  {
    if es != [] {
      var front, e := es[..|es| - 1], es[|es| - 1];
      RateBoundIff(D, front, c);
      RunKeepsPaced(D, front, c);
      StepTwoPerWindow(D, front, e, c);
    }
  }

  /** While a condition stays subscribed: of three evaluations, the last is at least D after the first. */
  lemma RateBound(D: int, es: seq<Event>, c: string, i: nat, j: nat, k: nat)
    requires TimelyRun(D, es, c) && NeverDropped(D, es, c) && i < j < k < |After(D, es, c).evals|
    ensures var evals := After(D, es, c).evals; evals[k] - evals[i] >= D
  {
    RateBoundIff(D, es, c);
    NeverDroppedNeverForgets(D, es, c, 2);
  }

  // ---- when D is a minimum gap ----------------------------------------------------------------------------

  /** No two evaluations are closer than D. */
  predicate Gapped(evals: seq<int>, D: int) {
    forall i, j :: 0 <= i < j < |evals| ==> evals[j] - evals[i] >= D
  }

  /** The timer of c is armed anew, cancelled, or fires. */
  predicate Settles(w: World, D: int, e: Event, c: string) {
    (AcceptsUpdate(w, e, c) && !AtOnce(w, D, e, c)) || Cancels(w, e, c) || e == Expire(c)
  }

  /** Event i evaluates c at once while a timer of c is armed, and to the end of es that timer is left alone. */
  predicate Overtaken(D: int, es: seq<Event>, c: string, i: nat) {
    && i < |es|
    && var front, e, w := es[..|es| - 1], es[|es| - 1], After(D, es[..|es| - 1], c);
       if i == |front| then c in w.feed.pending && AtOnce(w, D, e, c)
       else Overtaken(D, front, c, i) && !Settles(w, D, e, c)
  }

  predicate TimerOvertaken(D: int, es: seq<Event>, c: string) {
    exists i :: 0 <= i < |es| && Overtaken(D, es, c, i)
  }

  /** At some event of the run an overtaken timer fires. */
  predicate FiresOvertaken(D: int, es: seq<Event>, c: string) {
    && es != []
    && (FiresOvertaken(D, es[..|es| - 1], c) || (es[|es| - 1] == Expire(c) && TimerOvertaken(D, es[..|es| - 1], c)))
  }

  /** The armed timer would fire less than D after the last evaluation. */
  predicate StaleTimer(w: World, D: int, c: string) {
    c in w.feed.pending && w.evals != [] && w.feed.pending[c].due - D < w.evals[|w.evals| - 1]
  }

  lemma UpdateStale(w: World, D: int, e: Event, c: string)
    requires e.Update? && Paced(w, D, c) && Allowed(w, e)
    ensures StaleTimer(Step(w, D, e, c), D, c) <==>
      (c in w.feed.pending && AtOnce(w, D, e, c)) || (StaleTimer(w, D, c) && !Settles(w, D, e, c))
  {
  }

  lemma OtherStale(w: World, D: int, e: Event, c: string)
    requires !e.Update? && Paced(w, D, c) && Allowed(w, e)
    ensures StaleTimer(Step(w, D, e, c), D, c) <==>
      (c in w.feed.pending && AtOnce(w, D, e, c)) || (StaleTimer(w, D, c) && !Settles(w, D, e, c))
  {
  }

  lemma StaleStep(w: World, D: int, e: Event, c: string)
    requires Paced(w, D, c) && Allowed(w, e)
    ensures StaleTimer(Step(w, D, e, c), D, c) <==>
      (c in w.feed.pending && AtOnce(w, D, e, c)) || (StaleTimer(w, D, c) && !Settles(w, D, e, c))
  {
    if e.Update? { UpdateStale(w, D, e, c); } else { OtherStale(w, D, e, c); }
  }

  lemma OvertakenStep(D: int, es: seq<Event>, c: string)
    requires es != []
    ensures var front, w, e := es[..|es| - 1], After(D, es[..|es| - 1], c), es[|es| - 1];
            TimerOvertaken(D, es, c) <==>
              (c in w.feed.pending && AtOnce(w, D, e, c)) || (TimerOvertaken(D, front, c) && !Settles(w, D, e, c))
  {
    var n, front, w, e := |es| - 1, es[..|es| - 1], After(D, es[..|es| - 1], c), es[|es| - 1];
    assert Overtaken(D, es, c, n) <==> c in w.feed.pending && AtOnce(w, D, e, c);
    forall i: nat | i < n ensures Overtaken(D, es, c, i) <==> Overtaken(D, front, c, i) && !Settles(w, D, e, c) {
    }
    assert AtOnce(w, D, e, c) ==> !Settles(w, D, e, c);
  }

  lemma {:induction false} StaleIffOvertaken(D: int, es: seq<Event>, c: string)
    requires TimelyRun(D, es, c)
    ensures StaleTimer(After(D, es, c), D, c) <==> TimerOvertaken(D, es, c)
  {
    if es != [] {
      var front, e := es[..|es| - 1], es[|es| - 1];
      StaleIffOvertaken(D, front, c);
      RunKeepsPaced(D, front, c);
      StaleStep(After(D, front, c), D, e, c);
      OvertakenStep(D, es, c);
    }
  }

  lemma GappedAppend(evals: seq<int>, D: int, now: int)
    requires Ordered(evals, now)
    ensures Gapped(evals + [now], D) <==> Gapped(evals, D) && (evals != [] ==> now - evals[|evals| - 1] >= D)
  {
    var all := evals + [now];
    assert forall i :: 0 <= i < |evals| ==> all[i] == evals[i];
    assert all[|evals|] == now;
    if Gapped(all, D) {
      assert forall i, j :: 0 <= i < j < |evals| ==> all[j] - all[i] >= D;
    }
  }

  lemma StepGapped(D: int, front: seq<Event>, e: Event, c: string)
    requires var w := After(D, front, c); Paced(w, D, c) && Allowed(w, e)
    ensures var w := After(D, front, c);
            Gapped(Step(w, D, e, c).evals, D) <==>
              Gapped(w.evals, D) && !(e == Expire(c) && StaleTimer(w, D, c)) && !ForgetsAt(D, front, e, c, 1)
  {
    var w := After(D, front, c);
    KnownUnlessDropped(D, front, c);
    if Evaluates(w, D, e, c) { GappedAppend(w.evals, D, w.now); }
  }

  /** Main result. In every timely run, the evaluations of a condition, across all its subscriptions, keep the
      documented minimum gap of D if and only if neither of two things happens: an update is evaluated at once
      while a timer of the condition is armed that later fires without having been armed anew or cancelled in
      between; or an update is evaluated at once as the first since the condition was dropped, less than D after
      the last evaluation before the drop. */
  lemma {:induction false} MinimumGapIff(D: int, es: seq<Event>, c: string)
    requires TimelyRun(D, es, c)
    ensures Gapped(After(D, es, c).evals, D) <==> !FiresOvertaken(D, es, c) && !Forgets(D, es, c, 1)
  {
    if es != [] {
      var front, e := es[..|es| - 1], es[|es| - 1];
      MinimumGapIff(D, front, c);
      RunKeepsPaced(D, front, c);
      StepGapped(D, front, e, c);
      StaleIffOvertaken(D, front, c);
    }
  }

  // ---- the limits of these results ----------------------------------------------------------------------

  /** Dropping a token from a condition breaks the inverse: the old token stays in the asset index. */
  lemma LostTokenBreaksInverse() returns (f: Feed, t: Tokens)
    ensures Indexed(f) && !Inverse(Subscribe(f, "c", t))
  {
    f := EMPTY.(tokens := map["c" := Tokens(Some("y"), Some("n"))], owner := map["y" := "c", "n" := "c"]);
    t := Tokens(Some("y"), None);
    forall a, c ensures a in TokensOf(f, c) <==> a in f.owner && f.owner[a] == c {
    }
    assert "n" in TokensOf(f, "c") && "n" !in Toks(t);
    SubscribeKeepsInverseIff(f, "c", t);
  }

  /** Dropping a condition forgets its last evaluation: after subscribing again the next update is evaluated at
      once however recent that evaluation was. */
  lemma ResubscribingForgets(f: Feed, D: int, c: string, t: Tokens, asset: string, book: OrderBook, now: int)
    requires Indexed(f) && c in f.tokens && c != "" && f.connected && asset in Toks(t) && now >= D
    ensures var g := Subscribe(UnsubscribeStale(f, f.tokens.Keys - {c}), c, t);
            EvaluatedAtOnce(g, D, asset, Some(book), now) == Some(c)
  {
  }

  const NO_LEVELS: OrderBook := OrderBook(None, None)

  lemma Extend(before: seq<Event>, e: Event, w: World) returns (es: seq<Event>, next: World)
    requires TimelyRun(5000, before, "c") && w == After(5000, before, "c") && Allowed(w, e)
    ensures es == before + [e]
    ensures TimelyRun(5000, es, "c") && next == After(5000, es, "c") == Step(w, 5000, e, "c")
  {
    es := before + [e];
    next := After(5000, es, "c");
    AfterSnoc(5000, before, e, "c");
    assert es[..|es| - 1] == before;
  }

  predicate NoExpiry(es: seq<Event>) { forall e :: e in es ==> !e.Expire? }

  lemma {:induction false} NoExpiryNothingFires(D: int, es: seq<Event>, c: string)
    requires NoExpiry(es)
    ensures !FiresOvertaken(D, es, c)
  {
    if es != [] {
      var front, e := es[..|es| - 1], es[|es| - 1];
      assert e in es && forall x :: x in front ==> x in es;
      NoExpiryNothingFires(D, front, c);
    }
  }

  /** c is connected and subscribed with the one token y, no timer is armed. */
  predicate Quiet(w: World) {
    w.feed.connected && w.feed.tokens.Keys == {"c"} && w.feed.owner == map["y" := "c"] && w.feed.pending == map[]
  }

  const ONLY_Y: Tokens := Tokens(Some("y"), None)

  lemma SubscribedAfresh(f: Feed)
    requires f.tokens == map[] && f.owner == map[]
    ensures var g := Subscribe(f, "c", ONLY_Y);
            g.tokens.Keys == {"c"} && g.owner == map["y" := "c"] && TokensOf(g, "c") == {"y"}
  {
    assert Toks(ONLY_Y) == {"y"};
  }

  lemma ConnectedAt(t: int) returns (es: seq<Event>, w: World)
    requires t >= 0
    ensures TimelyRun(5000, es, "c") && w == After(5000, es, "c") && NoExpiry(es)
    ensures w == World(EMPTY.(connected := true), t, [], None)
  {
    es, w := Extend([], Connect, INITIAL);
    es, w := Extend(es, Tick(t), w);
  }

  lemma SubscribedAt(t: int) returns (es: seq<Event>, w: World)
    requires t >= 0
    ensures TimelyRun(5000, es, "c") && w == After(5000, es, "c") && w.now == t && w.evals == []
    ensures NoExpiry(es) && Quiet(w) && w.feed.lastEval == map[] && TokensOf(w.feed, "c") == {"y"}
  {
    es, w := ConnectedAt(t);
    SubscribedAfresh(w.feed);
    es, w := Extend(es, Sub("c", ONLY_Y), w);
  }

  /** c was evaluated at 10000. */
  lemma EvaluatedOnce() returns (es: seq<Event>, w: World)
    ensures TimelyRun(5000, es, "c") && w == After(5000, es, "c") && w.now == 10_000 && w.evals == [10_000]
    ensures NoExpiry(es) && Quiet(w) && LastEval(w.feed, "c") == 10_000 && TokensOf(w.feed, "c") == {"y"}
  {
    es, w := SubscribedAt(10_000);
    es, w := Extend(es, Update("y", Some(NO_LEVELS)), w);
  }

  lemma ThenArmed(before: seq<Event>, w: World) returns (es: seq<Event>, next: World)
    requires TimelyRun(5000, before, "c") && w == After(5000, before, "c") && w.now == 10_000 && w.evals == [10_000]
    requires Quiet(w) && LastEval(w.feed, "c") == 10_000
    ensures TimelyRun(5000, es, "c") && next == After(5000, es, "c") && next.now == 10_001 && next.evals == [10_000]
    ensures next.feed.connected && next.feed.owner == w.feed.owner && LastEval(next.feed, "c") == 10_000
    ensures next.feed.pending == map["c" := Timer(15_001, "y")]
  {
    es, next := Extend(before, Tick(10_001), w);
    es, next := Extend(es, Update("y", Some(NO_LEVELS)), next);
  }

  lemma ThenOvertaken(before: seq<Event>, w: World) returns (es: seq<Event>, next: World)
    requires TimelyRun(5000, before, "c") && w == After(5000, before, "c") && w.now == 10_001 && w.evals == [10_000]
    requires w.feed.connected && w.feed.owner == map["y" := "c"]
    requires LastEval(w.feed, "c") == 10_000 && w.feed.pending == map["c" := Timer(15_001, "y")]
    ensures TimelyRun(5000, es, "c") && next == After(5000, es, "c")
    ensures next.now == 15_000 && next.evals == [10_000, 15_000]
    ensures next.feed.pending == map["c" := Timer(15_001, "y")]
  {
    es, next := Extend(before, Tick(15_000), w);
    es, next := Extend(es, Update("y", Some(NO_LEVELS)), next);
  }

  lemma ThenFired(before: seq<Event>, w: World) returns (es: seq<Event>, next: World)
    requires TimelyRun(5000, before, "c") && w == After(5000, before, "c") && w.now == 15_000
    requires w.feed.pending == map["c" := Timer(15_001, "y")]
    ensures TimelyRun(5000, es, "c") && next == After(5000, es, "c") && next.evals == w.evals + [15_001]
  {
    es, next := Extend(before, Tick(15_001), w);
    es, next := Extend(es, Expire("c"), next);
  }

  /** D is not a minimum gap: an immediate evaluation leaves an earlier timer armed. With D = 5000 two
      evaluations come one millisecond apart, without a drop. */
  lemma GapBelowDebounce() returns (es: seq<Event>)
    ensures TimelyRun(5000, es, "c") && After(5000, es, "c").evals == [10_000, 15_000, 15_001]
  {
    var w;
    es, w := EvaluatedOnce();
    es, w := ThenArmed(es, w);
    es, w := ThenOvertaken(es, w);
    es, w := ThenFired(es, w);
  }

  lemma QuietDropped(f: Feed)
    requires f.tokens.Keys == {"c"} && f.owner == map["y" := "c"] && f.pending == map[] && TokensOf(f, "c") == {"y"}
    ensures var g := UnsubscribeStale(f, {});
            && g.tokens == map[] && g.owner == map[] && g.pending == map[] && "c" !in g.lastEval
            && g.connected == f.connected
  {
    assert f.tokens.Keys - {} == {"c"};
    DropOne(f, "c");
  }

  lemma ThenDropped(before: seq<Event>, w: World) returns (es: seq<Event>, next: World)
    requires TimelyRun(5000, before, "c") && w == After(5000, before, "c") && NoExpiry(before)
    requires Quiet(w) && TokensOf(w.feed, "c") == {"y"}
    ensures TimelyRun(5000, es, "c") && next == After(5000, es, "c") && NoExpiry(es)
    ensures next.feed.tokens == map[] && next.feed.owner == map[] && next.feed.pending == map[] && next.feed.connected
    ensures next.now == w.now && next.evals == w.evals && "c" !in next.feed.lastEval
  {
    QuietDropped(w.feed);
    es, next := Extend(before, Unsub({}), w);
  }

  /** c is dropped and subscribed again. */
  lemma ThenResubscribed(before: seq<Event>, w: World) returns (es: seq<Event>, next: World)
    requires TimelyRun(5000, before, "c") && w == After(5000, before, "c") && NoExpiry(before)
    requires Quiet(w) && TokensOf(w.feed, "c") == {"y"}
    ensures TimelyRun(5000, es, "c") && next == After(5000, es, "c") && NoExpiry(es)
    ensures Quiet(next) && TokensOf(next.feed, "c") == {"y"}
    ensures next.now == w.now && next.evals == w.evals && "c" !in next.feed.lastEval
  {
    es, next := ThenDropped(before, w);
    SubscribedAfresh(next.feed);
    es, next := Extend(es, Sub("c", ONLY_Y), next);
  }

  lemma ThenEvaluated(before: seq<Event>, w: World) returns (es: seq<Event>, next: World)
    requires TimelyRun(5000, before, "c") && w == After(5000, before, "c") && NoExpiry(before)
    requires Quiet(w) && TokensOf(w.feed, "c") == {"y"} && "c" !in w.feed.lastEval && w.now >= 5000
    ensures TimelyRun(5000, es, "c") && next == After(5000, es, "c") && NoExpiry(es)
    ensures Quiet(next) && TokensOf(next.feed, "c") == {"y"}
    ensures next.now == w.now && next.evals == w.evals + [w.now]
  {
    es, next := Extend(before, Update("y", Some(NO_LEVELS)), w);
  }

  lemma ThenAgainAtOnce(before: seq<Event>, w: World) returns (es: seq<Event>, next: World)
    requires TimelyRun(5000, before, "c") && w == After(5000, before, "c") && NoExpiry(before)
    requires Quiet(w) && TokensOf(w.feed, "c") == {"y"} && w.now >= 5000
    ensures TimelyRun(5000, es, "c") && next == After(5000, es, "c") && NoExpiry(es)
    ensures Quiet(next) && TokensOf(next.feed, "c") == {"y"}
    ensures next.now == w.now && next.evals == w.evals + [w.now]
  {
    es, next := ThenResubscribed(before, w);
    es, next := ThenEvaluated(es, next);
  }

  /** Nor is two in a window a bound across subscriptions: dropped and subscribed again twice, c is evaluated
      three times in one millisecond, although no timer ever fires. */
  lemma ThreeAtOnce() returns (es: seq<Event>)
    ensures TimelyRun(5000, es, "c") && !FiresOvertaken(5000, es, "c")
    ensures After(5000, es, "c").evals == [10_000, 10_000, 10_000]
  {
    var w;
    es, w := EvaluatedOnce();
    es, w := ThenAgainAtOnce(es, w);
    es, w := ThenAgainAtOnce(es, w);
    NoExpiryNothingFires(5000, es, "c");
  }
}
