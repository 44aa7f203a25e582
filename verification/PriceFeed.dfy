/** The crypto price feed's subscription indexes and evaluation debounce
    (packages/crypto-algo/src/price-feed.ts). Time is in milliseconds; one event handler runs at one
    clock reading. */
module PriceFeed {
  import opened Text
  import opened MidHistory

  datatype Tokens = Tokens(yes: Option<string>, no: Option<string>)

  /** Best level of one side; a price or size that is not a number is None. */
  datatype Level = Level(price: Option<real>, size: Option<real>)

  datatype OrderBook = OrderBook(bid: Option<Level>, ask: Option<Level>)

  datatype TopOfBook = TopOfBook(
    bid: Option<real>, ask: Option<real>, bidSize: Option<real>, askSize: Option<real>,
    spread: Option<real>, mid: Option<real>, spreadPercent: Option<real>, updatedAt: int)

  /** An armed setTimeout: when it is due and the asset its closure captured. */
  datatype Timer = Timer(due: int, asset: string)

  datatype Feed = Feed(
    tokens: map<string, Tokens>, owner: map<string, string>, book: map<string, TopOfBook>,
    lastEval: map<string, int>, pending: map<string, Timer>, connected: bool, mid: History)

  const EMPTY: Feed := Feed(map[], map[], map[], map[], map[], false, NO_HISTORY)

  function Toks(t: Tokens): set<string> { Named(t.yes) + Named(t.no) }

  function TokensOf(f: Feed, c: string): set<string> { if c in f.tokens then Toks(f.tokens[c]) else {} }

  function Positive(v: Option<real>): Option<real> { if v.Some? && v.value > 0.0 then v else None }

  /** The price kept of one side is its best price if positive; the size, its size if that is positive too. */
  predicate Side(level: Option<Level>, price: Option<real>, size: Option<real>) {
    && (price.Some? <==> level.Some? && level.value.price.Some? && level.value.price.value > 0.0)
    && (price.Some? ==> price == level.value.price)
    && (size.Some? <==> price.Some? && level.value.size.Some? && level.value.size.value > 0.0)
    && (size.Some? ==> size == level.value.size)
  }

  /** Both sides have a positive best price, and they do not cross. */
  predicate TwoSided(b: OrderBook) {
    && b.bid.Some? && b.bid.value.price.Some? && b.ask.Some? && b.ask.value.price.Some?
    && 0.0 < b.bid.value.price.value <= b.ask.value.price.value
  }

  /** Halfway between bid and ask, their distance, and that distance in percent of the ask. */
  predicate Middle(bid: real, ask: real, mid: real, spread: real, percent: real) {
    mid - bid == ask - mid && spread == ask - bid && percent * ask == 100.0 * spread
  }

  /** The top of book tells that order book. */
  predicate Describes(b: OrderBook, t: TopOfBook, now: int) {
    && t.updatedAt == now && Side(b.bid, t.bid, t.bidSize) && Side(b.ask, t.ask, t.askSize)
    && (t.mid.Some? <==> TwoSided(b)) && (t.spread.Some? <==> TwoSided(b)) && (t.spreadPercent.Some? <==> TwoSided(b))
    && (TwoSided(b) ==> Middle(t.bid.value, t.ask.value, t.mid.value, t.spread.value, t.spreadPercent.value))
  }

  lemma PercentTimes(part: real, whole: real)
    requires whole != 0.0
    ensures part / whole * 100.0 * whole == 100.0 * part
  {
    assert part / whole * whole == part;
    assert part / whole * 100.0 * whole == 100.0 * (part / whole * whole);
  }

  function PercentOf(part: real, whole: real): (percent: real)
    requires whole != 0.0
    ensures percent * whole == 100.0 * part
  {
    PercentTimes(part, whole);
    part / whole * 100.0
  }

  function TopOf(b: OrderBook, now: int): (t: TopOfBook)
    ensures Describes(b, t, now)
  {
    var bid := if b.bid.Some? then Positive(b.bid.value.price) else None;
    var ask := if b.ask.Some? then Positive(b.ask.value.price) else None;
    var bidSize := if bid.Some? then Positive(b.bid.value.size) else None;
    var askSize := if ask.Some? then Positive(b.ask.value.size) else None;
    if bid.Some? && ask.Some? && bid.value <= ask.value then
      var spread := ask.value - bid.value;
      TopOfBook(bid, ask, bidSize, askSize, Some(spread), Some((bid.value + ask.value) / 2.0),
                Some(PercentOf(spread, ask.value)), now)
    else TopOfBook(bid, ask, bidSize, askSize, None, None, None, now)
  }

  // ---- steps on values ------------------------------------------------------------------------

  function Subscribe(f: Feed, c: string, t: Tokens): Feed {
    f.(tokens := f.tokens[c := t], owner := f.owner + map a | a in Toks(t) :: c)
  }

  /** Every token of the given conditions. */
  function Stale(f: Feed, gone: set<string>): set<string> {
    set c, a | c in gone && a in TokensOf(f, c) :: a
  }

  /** Everything recorded about the given conditions is dropped. */
  function Drop(f: Feed, gone: set<string>): Feed {
    var stale := Stale(f, gone);
    Feed(f.tokens - gone, f.owner - stale, f.book - stale, f.lastEval - gone, f.pending - gone, f.connected,
         Forgotten(f.mid, stale))
  }

  function UnsubscribeStale(f: Feed, active: set<string>): Feed { Drop(f, f.tokens.Keys - active) }

  function ClearTopOfBook(f: Feed, c: string): Feed {
    f.(pending := f.pending - {c}, book := f.book - TokensOf(f, c), mid := Forgotten(f.mid, TokensOf(f, c)))
  }

  function LastEval(f: Feed, c: string): int { if c in f.lastEval then f.lastEval[c] else 0 }

  /** The condition a book update for this asset counts for, if the handler accepts it. */
  function AcceptedFor(f: Feed, asset: string, book: Option<OrderBook>): Option<string> {
    if f.connected && asset in f.owner && f.owner[asset] != "" && book.Some? then Some(f.owner[asset]) else None
  }

  function Debounce(f: Feed, D: int, c: string, asset: string, now: int): Feed {
    if now - LastEval(f, c) < D then f.(pending := f.pending[c := Timer(now + D, asset)])
    else f.(lastEval := f.lastEval[c := now])
  }

  /** The book replaced, and its mid recorded if it has one. */
  function Refreshed(f: Feed, asset: string, top: TopOfBook): Feed {
    f.(book := f.book[asset := top],
       mid := if top.mid.Some? then Recording(f.mid, asset, top.mid, top.updatedAt) else f.mid)
  }

  function BookUpdate(f: Feed, D: int, asset: string, book: Option<OrderBook>, now: int): Feed {
    var c := AcceptedFor(f, asset, book);
    if c.None? then f
    else Debounce(Refreshed(f, asset, TopOf(book.value, now)), D, c.value, asset, now)
  }

  /** The condition an accepted update evaluates without waiting for a timer. */
  function EvaluatedAtOnce(f: Feed, D: int, asset: string, book: Option<OrderBook>, now: int): Option<string> {
    var c := AcceptedFor(f, asset, book);
    if c.Some? && now - LastEval(f, c.value) >= D then c else None
  }

  function Fire(f: Feed, c: string, now: int): Feed {
    f.(pending := f.pending - {c}, lastEval := f.lastEval[c := now])
  }

  // ---- what an update leaves behind ---------------------------------------------------------------------

  predicate Watched(f: Feed, asset: string) { f.connected && asset in f.owner && |f.owner[asset]| > 0 }

  predicate SameAsset(f: Feed, g: Feed, asset: string) {
    && (asset in f.book <==> asset in g.book) && (asset in f.book ==> f.book[asset] == g.book[asset])
    && TrackIn(f.mid, asset) == TrackIn(g.mid, asset)
  }

  /** The debounce leaves books and mids alone. */
  lemma UpdateStores(f: Feed, D: int, asset: string, b: OrderBook, now: int)
    requires Watched(f, asset)
    ensures var after, top := BookUpdate(f, D, asset, Some(b), now), TopOf(b, now);
            after.book == f.book[asset := top] && after.mid == Recording(f.mid, asset, top.mid, now)
  {
  }

  lemma StoringTouchesOne(f: Feed, g: Feed, asset: string, top: TopOfBook, now: int, other: string)
    requires g.book == f.book[asset := top] && g.mid == Recording(f.mid, asset, top.mid, now) && other != asset
    ensures SameAsset(f, g, other)
  {
    RecordingIsPerAsset(f.mid, asset, top.mid, now, other);
  }

  /** Main result. An update of a watched asset with a book leaves that book's description in the store, records
      its mid if it has one and 500 ms have passed, and touches no other asset; any other update changes
      nothing. */
  lemma UpdateTellsTheBook(f: Feed, D: int, asset: string, book: Option<OrderBook>, now: int)
    ensures var after := BookUpdate(f, D, asset, book, now);
            if Watched(f, asset) && book.Some? then
              && asset in after.book && Describes(book.value, after.book[asset], now)
              && Samples(TrackIn(f.mid, asset), after.book[asset].mid, now, TrackIn(after.mid, asset))
              && forall a :: a != asset ==> SameAsset(f, after, a)
            else after == f
  {
    if Watched(f, asset) && book.Some? {
      var after, top := BookUpdate(f, D, asset, book, now), TopOf(book.value, now);
      UpdateStores(f, D, asset, book.value, now);
      RecordingSamples(f.mid, asset, top.mid, now);
      forall a | a != asset ensures SameAsset(f, after, a) {
        StoringTouchesOne(f, after, asset, top, now, a);
      }
    }
  }

  // ---- facts about dropping --------------------------------------------------------------------------

  lemma DropNone(f: Feed)
    ensures Drop(f, {}) == f
  {
  }

  lemma DropOne(f: Feed, c: string)
    ensures Drop(f, {c}) == Feed(f.tokens - {c}, f.owner - TokensOf(f, c), f.book - TokensOf(f, c),
                                 f.lastEval - {c}, f.pending - {c}, f.connected, Forgotten(f.mid, TokensOf(f, c)))
  {
    assert Stale(f, {c}) == TokensOf(f, c);
  }

  lemma MinusTwice<V>(m: map<string, V>, a: set<string>, b: set<string>)
    ensures m - a - b == m - (a + b)
  {
  }

  /** Forgetting the two tokens of a mapping one after the other. */
  lemma ForgetBoth(h: History, yes: set<string>, no: set<string>)
    ensures Forgotten(Forgotten(h, yes), no) == Forgotten(h, yes + no)
    ensures Forgotten(h, {}) == h
  {
    MinusTwice(h.samples, yes, no);
    MinusTwice(h.lastRecordedAt, yes, no);
  }

  lemma StaleMore(f: Feed, gone: set<string>, c: string)
    ensures Stale(f, gone + {c}) == Stale(f, gone) + TokensOf(f, c)
  {
  }

  lemma DropMore(f: Feed, gone: set<string>, c: string)
    requires c !in gone
    ensures Drop(Drop(f, gone), {c}) == Drop(f, gone + {c})
  {
    var g, h := Drop(f, gone), Drop(f, gone + {c});
    DropOne(g, c);
    assert TokensOf(g, c) == TokensOf(f, c);
    StaleMore(f, gone, c);
    MinusTwice(f.owner, Stale(f, gone), TokensOf(f, c));
    MinusTwice(f.book, Stale(f, gone), TokensOf(f, c));
    MinusTwice(f.tokens, gone, {c});
    MinusTwice(f.lastEval, gone, {c});
    MinusTwice(f.pending, gone, {c});
    ForgetBoth(f.mid, Stale(f, gone), TokensOf(f, c));
  }

  // ---- the object --------------------------------------------------------------------------------

  class CryptoAlgoPriceFeed {
    const midHistory: MidHistoryBuffer
    var topOfBook: map<string, TopOfBook>
    var conditionToAssets: map<string, Tokens>
    var assetToCondition: map<string, string>
    var lastEval: map<string, int>
    var pendingEvals: map<string, Timer>
    var debounceMs: int
    var connected: bool

    constructor (debounceMs: int)
      ensures View() == EMPTY && this.debounceMs == debounceMs && fresh(midHistory)
    {
      midHistory := new MidHistoryBuffer();
      topOfBook, conditionToAssets, assetToCondition := map[], map[], map[];
      lastEval, pendingEvals := map[], map[];
      this.debounceMs, connected := debounceMs, false;
    }

    ghost function View(): Feed
      reads this, midHistory
    {
      Feed(conditionToAssets, assetToCondition, topOfBook, lastEval, pendingEvals, connected, midHistory.View())
    }

    method CancelPendingEval(conditionId: string)
      modifies this`pendingEvals
      ensures pendingEvals == old(pendingEvals) - {conditionId}
    {
      if conditionId in pendingEvals { pendingEvals := pendingEvals - {conditionId}; }
    }

    /** One iteration of subscribeToMarkets, for a market that was found. */
    method SubscribeOne(conditionId: string, market: Tokens) returns (assetIds: seq<string>)
      modifies this`conditionToAssets, this`assetToCondition
      ensures View() == Subscribe(old(View()), conditionId, market)
      ensures forall a :: a in assetIds <==> a in Toks(market)
    {
      assetIds := [];
      conditionToAssets := conditionToAssets[conditionId := market];
      if market.yes.Some? && market.yes.value != "" {
        assetToCondition := assetToCondition[market.yes.value := conditionId];
        assetIds := assetIds + [market.yes.value];
      }
      if market.no.Some? && market.no.value != "" {
        assetToCondition := assetToCondition[market.no.value := conditionId];
        assetIds := assetIds + [market.no.value];
      }
      assert assetToCondition == old(assetToCondition) + map a | a in Toks(market) :: conditionId;
    }

    method ForgetToken(token: Option<string>)
      modifies this`assetToCondition, this`topOfBook, midHistory
      ensures assetToCondition == old(assetToCondition) - Named(token)
      ensures topOfBook == old(topOfBook) - Named(token)
      ensures midHistory.View() == Forgotten(old(midHistory.View()), Named(token))
    {
      if token.Some? && token.value != "" {
        assetToCondition := assetToCondition - {token.value};
        topOfBook := topOfBook - {token.value};
        midHistory.Clear(token.value);
      }
    }

    method ForgetTokens(conditionId: string)
      modifies this`assetToCondition, this`topOfBook, midHistory
      ensures assetToCondition == old(assetToCondition) - old(TokensOf(View(), conditionId))
      ensures topOfBook == old(topOfBook) - old(TokensOf(View(), conditionId))
      ensures midHistory.View() == Forgotten(old(midHistory.View()), old(TokensOf(View(), conditionId)))
    {
      ghost var before := View();
      DropOne(before, conditionId);
      if conditionId in conditionToAssets {
        var mapping := conditionToAssets[conditionId];
        ForgetToken(mapping.yes);
        ForgetToken(mapping.no);
      }
    }

    method RemoveCondition(conditionId: string)
      modifies this, midHistory
      ensures View() == Drop(old(View()), {conditionId}) && debounceMs == old(debounceMs)
    {
      ghost var before := View();
      CancelPendingEval(conditionId);
      ForgetTokens(conditionId);
      conditionToAssets := conditionToAssets - {conditionId};
      lastEval := lastEval - {conditionId};
      DropOne(before, conditionId);
    }

    /** Returns the asset list the WebSocket client is reconciled to. */
    method Unsubscribe(active: set<string>) returns (remainingAssets: seq<string>)
      modifies this, midHistory
      ensures View() == UnsubscribeStale(old(View()), active) && debounceMs == old(debounceMs)
      ensures forall a :: a in remainingAssets <==>
        exists c :: c in conditionToAssets && a in Toks(conditionToAssets[c])
    {
      ghost var before := View();
      ghost var gone: set<string> := {};
      var toRemove := set c | c in conditionToAssets.Keys && c !in active;
      assert toRemove == before.tokens.Keys - active;
      DropNone(before);
      while toRemove != {}
        invariant gone + toRemove == before.tokens.Keys - active && gone !! toRemove
        invariant View() == Drop(before, gone) && debounceMs == old(debounceMs)
        decreases toRemove
      {
        var c :| c in toRemove;
        RemoveCondition(c);
        DropMore(before, gone, c);
        toRemove, gone := toRemove - {c}, gone + {c};
      }
      assert gone == before.tokens.Keys - active;
      remainingAssets := CollectAssets();
    }

    method CollectAssets() returns (assets: seq<string>)
      ensures forall a :: a in assets <==> exists c :: c in conditionToAssets && a in Toks(conditionToAssets[c])
    {
      assets := [];
      var todo := conditionToAssets.Keys;
      while todo != {}
        invariant todo <= conditionToAssets.Keys
        invariant forall a :: a in assets <==>
          exists c :: c in conditionToAssets && c !in todo && a in Toks(conditionToAssets[c])
        decreases todo
      {
        var c :| c in todo;
        ghost var before, was := assets, todo;
        var mapping := conditionToAssets[c];
        if mapping.yes.Some? && mapping.yes.value != "" { assets := assets + [mapping.yes.value]; }
        if mapping.no.Some? && mapping.no.value != "" { assets := assets + [mapping.no.value]; }
        todo := todo - {c};
        assert forall a :: a in assets <==> a in before || a in Toks(mapping);
        forall a
          ensures a in assets <==> exists d :: d in conditionToAssets && d !in todo && a in Toks(conditionToAssets[d])
        {
          if a in before {
            var d :| d in conditionToAssets && d !in was && a in Toks(conditionToAssets[d]);
            assert d !in todo;
          } else if a in Toks(mapping) {
            assert c !in todo;
          }
        }
      }
    }

    method ClearBook(conditionId: string)
      modifies this`pendingEvals, this`topOfBook, midHistory
      ensures View() == ClearTopOfBook(old(View()), conditionId)
    {
      CancelPendingEval(conditionId);
      if conditionId !in conditionToAssets {
        assert topOfBook - {} == topOfBook;
        return;
      }
      var mapping := conditionToAssets[conditionId];
      if mapping.yes.Some? && mapping.yes.value != "" { topOfBook := topOfBook - {mapping.yes.value}; }
      if mapping.no.Some? && mapping.no.value != "" { topOfBook := topOfBook - {mapping.no.value}; }
      midHistory.ClearCondition(mapping.yes, mapping.no);
      assert topOfBook == old(topOfBook) - Toks(mapping);
    }

    /** The condition evaluated at once, if any. */
    method HandleBookUpdate(assetId: string, book: Option<OrderBook>, now: int) returns (evaluated: Option<string>)
      modifies this`topOfBook, this`lastEval, this`pendingEvals, midHistory
      ensures View() == BookUpdate(old(View()), debounceMs, assetId, book, now)
      ensures evaluated == EvaluatedAtOnce(old(View()), debounceMs, assetId, book, now)
    {
      if !connected { return None; }
      if assetId !in assetToCondition { return None; }
      var conditionId := assetToCondition[assetId];
      if conditionId == "" { return None; }
      if book.None? { return None; }
      var top := TopOf(book.value, now);
      topOfBook := topOfBook[assetId := top];
      if top.mid.Some? { midHistory.Record(assetId, top.mid, top.updatedAt); }
      var lastTime := if conditionId in lastEval then lastEval[conditionId] else 0;
      if now - lastTime < debounceMs {
        ScheduleEvaluation(conditionId, assetId, now);
        return None;
      }
      TriggerEvaluation(conditionId, now);
      return Some(conditionId);
    }

    method ScheduleEvaluation(conditionId: string, assetId: string, now: int)
      modifies this`pendingEvals
      ensures pendingEvals == old(pendingEvals)[conditionId := Timer(now + debounceMs, assetId)]
    {
      pendingEvals := pendingEvals[conditionId := Timer(now + debounceMs, assetId)];
    }

    method TriggerEvaluation(conditionId: string, now: int)
      modifies this`lastEval
      ensures lastEval == old(lastEval)[conditionId := now]
    {
      lastEval := lastEval[conditionId := now];
    }

    /** The body of an armed timer. */
    method FireTimer(conditionId: string, now: int)
      requires conditionId in pendingEvals
      modifies this`pendingEvals, this`lastEval
      ensures View() == Fire(old(View()), conditionId, now)
    {
      pendingEvals := pendingEvals - {conditionId};
      TriggerEvaluation(conditionId, now);
    }

    method HandleWsReconnect()
      modifies this`topOfBook, midHistory
      ensures View() == old(View()).(book := map[], mid := NO_HISTORY)
    {
      midHistory.ClearAll();
      topOfBook := map[];
    }

    method Disconnect()
      modifies this`pendingEvals, this`topOfBook, this`connected, midHistory
      ensures View() == old(View()).(pending := map[], book := map[], connected := false, mid := NO_HISTORY)
    {
      pendingEvals := map[];
      midHistory.ClearAll();
      topOfBook := map[];
      connected := false;
    }
  }
}
