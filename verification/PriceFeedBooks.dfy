/** What the price feed shows of an asset after a run of events (packages/crypto-algo/src/price-feed.ts:205-257,
    325-345, 391-453): the last book, and the mids heard, since the asset was last forgotten. */
module PriceFeedBooks {
  import opened Text
  import opened PriceFeed
  import opened PriceFeedRuns
  import MidHistory

  /** After the event nothing is remembered of the asset. */
  predicate Loses(f: Feed, e: Event, asset: string) {
    match e
    case Reconnect => true
    case Disconnect => true
    case Clear(c) => asset in TokensOf(f, c)
    case Unsub(active) => exists c :: c in f.tokens && c !in active && asset in TokensOf(f, c)
    case _ => false
  }

  /** The event is a book update of the asset that the handler takes. */
  predicate Hears(f: Feed, e: Event, asset: string) {
    e.Update? && e.asset == asset && Watched(f, asset) && e.book.Some?
  }

  lemma LostTokens(f: Feed, active: set<string>, asset: string)
    ensures asset in Stale(f, f.tokens.Keys - active) <==> Loses(f, Unsub(active), asset)
  {
    if Loses(f, Unsub(active), asset) {
      var c :| c in f.tokens && c !in active && asset in TokensOf(f, c);
      assert c in f.tokens.Keys - active;
    }
  }

  lemma LosesBook(f: Feed, D: int, now: int, e: Event, asset: string)
    requires Loses(f, e, asset)
    ensures asset !in NextFeed(f, D, now, e).book
    ensures MidHistory.TrackIn(NextFeed(f, D, now, e).mid, asset) == MidHistory.EMPTY_TRACK
  {
    if e.Unsub? { LostTokens(f, e.active, asset); }
  }

  lemma HearsBook(f: Feed, D: int, now: int, e: Event, asset: string)
    requires Hears(f, e, asset)
    ensures var g := NextFeed(f, D, now, e);
      && asset in g.book && Describes(e.book.value, g.book[asset], now)
      && MidHistory.TrackIn(g.mid, asset)
         == MidHistory.RecordTrack(MidHistory.TrackIn(f.mid, asset), TopOf(e.book.value, now).mid, now)
  {
    UpdateTellsTheBook(f, D, asset, e.book, now);
    UpdateStores(f, D, asset, e.book.value, now);
    MidHistory.RecordingIsPerAsset(f.mid, asset, TopOf(e.book.value, now).mid, now, asset);
  }

  lemma LeavesBook(f: Feed, D: int, now: int, e: Event, asset: string)
    requires !Loses(f, e, asset) && !Hears(f, e, asset)
    ensures SameAsset(f, NextFeed(f, D, now, e), asset)
  {
    if e.Unsub? { LostTokens(f, e.active, asset); }
    if e.Update? { UpdateTellsTheBook(f, D, e.asset, e.book, now); }
  }

  // ---- over whole runs ----------------------------------------------------------------------------------

  /** A book and when it was shown. */
  datatype Sight = Sight(book: OrderBook, at: int)

  /** The last book a run shows for the asset since it was forgotten. */
  function LastShown(D: int, es: seq<Event>, c: string, asset: string): Option<Sight> {
    if es == [] then None
    else
      var w, e := After(D, es[..|es| - 1], c), es[|es| - 1];
      if Loses(w.feed, e, asset) then None
      else if Hears(w.feed, e, asset) then Some(Sight(e.book.value, w.now))
      else LastShown(D, es[..|es| - 1], c, asset)
  }

  /** Main result. In every run, whatever the timers do, the feed knows a book for an asset exactly if one was shown
      since the asset was last forgotten, and then it describes the last one, at the time it was shown. */
  lemma {:induction false} BookIsLastShown(D: int, es: seq<Event>, c: string, asset: string)
    ensures var book := After(D, es, c).feed.book;
      match LastShown(D, es, c, asset)
      case None => asset !in book
      case Some(sight) => asset in book && Describes(sight.book, book[asset], sight.at)
  {
    if es != [] {
      var front, e := es[..|es| - 1], es[|es| - 1];
      BookIsLastShown(D, front, c, asset);
      var w := After(D, front, c);
      if Loses(w.feed, e, asset) {
        LosesBook(w.feed, D, w.now, e, asset);
      } else if Hears(w.feed, e, asset) {
        HearsBook(w.feed, D, w.now, e, asset);
      } else {
        LeavesBook(w.feed, D, w.now, e, asset);
      }
    }
  }

  /** The mids of the asset's books as they came, and when it was forgotten. */
  function Heard(D: int, es: seq<Event>, c: string, asset: string): seq<MidHistory.Event> {
    if es == [] then []
    else
      var before, w, e := Heard(D, es[..|es| - 1], c, asset), After(D, es[..|es| - 1], c), es[|es| - 1];
      if Loses(w.feed, e, asset) then before + [MidHistory.Cleared]
      else if Hears(w.feed, e, asset) then before + [MidHistory.Recorded(TopOf(e.book.value, w.now).mid, w.now)]
      else before
  }

  lemma BufferedMore(heard: seq<MidHistory.Event>, e: MidHistory.Event)
    ensures MidHistory.Buffered(heard + [e])
         == match e
            case Recorded(mid, now) => MidHistory.RecordTrack(MidHistory.Buffered(heard), mid, now)
            case Cleared => MidHistory.EMPTY_TRACK
  {
    assert (heard + [e])[..|heard|] == heard;
  }

  /** Main result. In every run the feed's history of an asset is the mid buffer fed with what was heard of it. */
  lemma {:induction false} HistoryIsBuffered(D: int, es: seq<Event>, c: string, asset: string)
    ensures MidHistory.TrackIn(After(D, es, c).feed.mid, asset) == MidHistory.Buffered(Heard(D, es, c, asset))
  {
    if es != [] {
      var front, e := es[..|es| - 1], es[|es| - 1];
      HistoryIsBuffered(D, front, c, asset);
      var w, heard := After(D, front, c), Heard(D, front, c, asset);
      if Loses(w.feed, e, asset) {
        LosesBook(w.feed, D, w.now, e, asset);
        BufferedMore(heard, MidHistory.Cleared);
      } else if Hears(w.feed, e, asset) {
        HearsBook(w.feed, D, w.now, e, asset);
        BufferedMore(heard, MidHistory.Recorded(TopOf(e.book.value, w.now).mid, w.now));
      } else {
        LeavesBook(w.feed, D, w.now, e, asset);
      }
    }
  }

  /** The sample is the mid of a book of the asset shown since the asset was last forgotten. */
  predicate HeardSince(D: int, es: seq<Event>, c: string, asset: string, x: MidHistory.Sample) {
    es != [] &&
    (var w, e := After(D, es[..|es| - 1], c), es[|es| - 1];
     && !Loses(w.feed, e, asset)
     && ((Hears(w.feed, e, asset) && TopOf(e.book.value, w.now).mid == Some(x.mid) && x.t == w.now)
         || HeardSince(D, es[..|es| - 1], c, asset, x)))
  }

  lemma {:induction false} DropOldDrops(s: seq<MidHistory.Sample>, cutoff: int, x: MidHistory.Sample)
    requires x in MidHistory.DropOld(s, cutoff)
    ensures x in s
  {
    if s != [] && s[0].t < cutoff { DropOldDrops(s[1..], cutoff, x); }
  }

  /** Recording adds one sample at most. */
  lemma RecordedFrom(track: MidHistory.Track, mid: Option<real>, now: int, x: MidHistory.Sample)
    requires x in MidHistory.RecordTrack(track, mid, now).series
    ensures x in track.series || (mid == Some(x.mid) && x.t == now)
  {
    if MidHistory.Accepts(track.lastAt, mid, now) {
      var more := track.series + [MidHistory.Sample(now, mid.value)];
      DropOldDrops(more, now - MidHistory.BUFFER_MAX_MS, x);
    }
  }

  /** Main result. In every run each sample the feed holds of an asset was heard since the asset was last forgotten: a
      curve never spans a reconnect, a disconnect, a clear or a drop. */
  lemma {:induction false} CurveSpansNoGap(D: int, es: seq<Event>, c: string, asset: string, x: MidHistory.Sample)
    requires x in MidHistory.TrackIn(After(D, es, c).feed.mid, asset).series
    ensures HeardSince(D, es, c, asset, x)
  {
    if es != [] {
      var front, e := es[..|es| - 1], es[|es| - 1];
      var w := After(D, front, c);
      var track := MidHistory.TrackIn(w.feed.mid, asset);
      if Loses(w.feed, e, asset) {
        LosesBook(w.feed, D, w.now, e, asset);
      } else if Hears(w.feed, e, asset) {
        HearsBook(w.feed, D, w.now, e, asset);
        RecordedFrom(track, TopOf(e.book.value, w.now).mid, w.now, x);
        if x in track.series { CurveSpansNoGap(D, front, c, asset, x); }
      } else {
        LeavesBook(w.feed, D, w.now, e, asset);
        CurveSpansNoGap(D, front, c, asset, x);
      }
    }
  }

  function VerdictOn(series: seq<MidHistory.Sample>, p: MidHistory.GateParams, now: int): Option<MidHistory.Verdict> {
    MidHistory.EvaluateGate(MidHistory.Since(series, now - p.lookbackMs), p)
  }

  lemma {:induction false} GateOnBuffered(heard: seq<MidHistory.Event>, p: MidHistory.GateParams, now: int)
    requires p.lookbackMs <= 60_000
    requires var log := MidHistory.Unpruned(heard); log != [] ==> now >= log[|log| - 1].t
    ensures VerdictOn(MidHistory.Buffered(heard).series, p, now) == VerdictOn(MidHistory.Unpruned(heard), p, now)
  {
    MidHistory.GateEqualsUnpruned(heard, p, now);
  }

  /** Main result, end to end. The curve gate, asked of the feed, decides as on every mid heard since the asset was
      forgotten that was accepted, with nothing ever dropped: for any lookback up to a minute and any time not before
      the last of them. */
  lemma {:induction false} FeedGateEqualsUnpruned(D: int, es: seq<Event>, c: string, asset: string,
                                                  p: MidHistory.GateParams, now: int)
    requires p.lookbackMs <= 60_000
    requires var log := MidHistory.Unpruned(Heard(D, es, c, asset)); log != [] ==> now >= log[|log| - 1].t
    ensures var kept, all := MidHistory.TrackIn(After(D, es, c).feed.mid, asset).series,
                             MidHistory.Unpruned(Heard(D, es, c, asset));
            VerdictOn(kept, p, now) == VerdictOn(all, p, now)
  {
    HistoryIsBuffered(D, es, c, asset);
    GateOnBuffered(Heard(D, es, c, asset), p, now);
  }

  /** The feed counts as connected from a connection to the next disconnection. */
  function LastConnected(es: seq<Event>): bool {
    if es == [] then false
    else match es[|es| - 1]
      case Connect => true
      case Disconnect => false
      case _ => LastConnected(es[..|es| - 1])
  }

  lemma ConnectedNext(f: Feed, D: int, now: int, e: Event)
    ensures NextFeed(f, D, now, e).connected == (e.Connect? || (f.connected && !e.Disconnect?))
  {
  }

  lemma {:induction false} ConnectedSinceLast(D: int, es: seq<Event>, c: string)
    ensures After(D, es, c).feed.connected == LastConnected(es)
  {
    if es != [] {
      var front := es[..|es| - 1];
      ConnectedSinceLast(D, front, c);
      ConnectedNext(After(D, front, c).feed, D, After(D, front, c).now, es[|es| - 1]);
    }
  }
}
