/** The decimated, pruned mid-price buffer and the curve gate that reads it
    (packages/crypto-algo/src/mid-history-buffer.ts, packages/crypto-algo/src/curve-descending-gate.ts). */
module MidHistory {
  import opened Text

  const SAMPLE_INTERVAL_MS: int := 500
  const BUFFER_MAX_MS: int := 60_000

  datatype Sample = Sample(t: int, mid: real)

  /** What the buffer keeps for one asset. */
  datatype Track = Track(series: seq<Sample>, lastAt: Option<int>)

  const EMPTY_TRACK: Track := Track([], None)

  /** A non-finite mid is None. */
  predicate Accepts(lastAt: Option<int>, mid: Option<real>, now: int) {
    && mid.Some? && mid.value > 0.0
    && now - (if lastAt.Some? then lastAt.value else 0) >= SAMPLE_INTERVAL_MS
  }

  /** Shift samples off the front while they are older than the cutoff. */
  function DropOld(series: seq<Sample>, cutoff: int): seq<Sample> {
    if series == [] || series[0].t >= cutoff then series else DropOld(series[1..], cutoff)
  }

  function PruneTrack(track: Track, now: int): Track {
    var kept := DropOld(track.series, now - BUFFER_MAX_MS);
    if kept == [] then EMPTY_TRACK else Track(kept, track.lastAt)
  }

  function RecordTrack(track: Track, mid: Option<real>, now: int): Track {
    if !Accepts(track.lastAt, mid, now) then track
    else PruneTrack(Track(track.series + [Sample(now, mid.value)], Some(now)), now)
  }

  /** `series.filter(s => s.t >= cutoff)`. */
  function Since(series: seq<Sample>, cutoff: int): seq<Sample> {
    if series == [] then []
    else (if series[0].t >= cutoff then [series[0]] else []) + Since(series[1..], cutoff)
  }

  /** The token id of a possibly null or empty field. */
  function Named(id: Option<string>): set<string> {
    if id.Some? && id.value != "" then {id.value} else {}
  }

  // ---- all assets together ------------------------------------------------------------------------

  datatype History = History(samples: map<string, seq<Sample>>, lastRecordedAt: map<string, int>)

  const NO_HISTORY: History := History(map[], map[])

  function TrackIn(h: History, asset: string): Track {
    Track(if asset in h.samples then h.samples[asset] else [],
          if asset in h.lastRecordedAt then Some(h.lastRecordedAt[asset]) else None)
  }

  function Forgotten(h: History, assets: set<string>): History {
    History(h.samples - assets, h.lastRecordedAt - assets)
  }

  function Pruned(h: History, asset: string, now: int): History {
    if asset !in h.samples then h
    else
      var kept := DropOld(h.samples[asset], now - BUFFER_MAX_MS);
      if kept == [] then Forgotten(h, {asset}) else h.(samples := h.samples[asset := kept])
  }

  function Recording(h: History, asset: string, mid: Option<real>, now: int): History {
    var track := TrackIn(h, asset);
    if !Accepts(track.lastAt, mid, now) then h
    else
      var series := track.series + [Sample(now, mid.value)];
      Pruned(History(h.samples[asset := series], h.lastRecordedAt[asset := now]), asset, now)
  }

  /** Recording touches one asset only, and treats it as it treats a single track. */
  lemma RecordingIsPerAsset(h: History, asset: string, mid: Option<real>, now: int, other: string)
    ensures TrackIn(Recording(h, asset, mid, now), other)
         == if other == asset then RecordTrack(TrackIn(h, asset), mid, now) else TrackIn(h, other)
  {
  }

  lemma {:induction false} DropOldKeepsLast(series: seq<Sample>, cutoff: int)
    requires series != [] && series[|series| - 1].t >= cutoff
    ensures var kept := DropOld(series, cutoff); kept != [] && kept[|kept| - 1] == series[|series| - 1]
  {
    if series[0].t < cutoff { DropOldKeepsLast(series[1..], cutoff); }
  }

  /** What recording a mid makes of a track: a new last sample if the mid is positive and the last one accepted is
      500 ms back or more (a track without one counts from time 0), and nothing otherwise. */
  predicate Samples(was: Track, mid: Option<real>, now: int, after: Track) {
    if mid.Some? && mid.value > 0.0 && now >= 500 + (match was.lastAt case Some(t) => t case None => 0)
    then after.lastAt == Some(now) && after.series != [] && after.series[|after.series| - 1] == Sample(now, mid.value)
    else after == was
  }

  lemma RecordingSamples(h: History, asset: string, mid: Option<real>, now: int)
    ensures Samples(TrackIn(h, asset), mid, now, TrackIn(Recording(h, asset, mid, now), asset))
  {
    RecordingIsPerAsset(h, asset, mid, now, asset);
    var track := TrackIn(h, asset);
    if Accepts(track.lastAt, mid, now) {
      DropOldKeepsLast(track.series + [Sample(now, mid.value)], now - BUFFER_MAX_MS);
    }
  }

  lemma RecordingKeys(h: History, asset: string, mid: Option<real>, now: int)
    ensures Recording(h, asset, mid, now).samples.Keys <= h.samples.Keys + {asset}
    ensures Recording(h, asset, mid, now).lastRecordedAt.Keys <= h.lastRecordedAt.Keys + {asset}
  {
  }

  // ---- the buffer -----------------------------------------------------------------------------

  class MidHistoryBuffer {
    var samples: map<string, seq<Sample>>
    var lastRecordedAt: map<string, int>

    constructor ()
      ensures View() == NO_HISTORY
    {
      samples, lastRecordedAt := map[], map[];
    }

    ghost function View(): History
      reads this
    {
      History(samples, lastRecordedAt)
    }

    method Record(asset: string, mid: Option<real>, now: int)
      modifies this
      ensures View() == Recording(old(View()), asset, mid, now)
    {
      if mid.None? || mid.value <= 0.0 { return; }
      var lastAt := if asset in lastRecordedAt then lastRecordedAt[asset] else 0;
      if now - lastAt < SAMPLE_INTERVAL_MS { return; }
      var series := if asset in samples then samples[asset] else [];
      samples := samples[asset := series + [Sample(now, mid.value)]];
      lastRecordedAt := lastRecordedAt[asset := now];
      Prune(asset, now);
    }

    method Prune(asset: string, now: int)
      modifies this
      ensures View() == Pruned(old(View()), asset, now)
    {
      if asset !in samples { return; }
      var series := samples[asset];
      var cutoff := now - BUFFER_MAX_MS;
      while |series| > 0 && series[0].t < cutoff
        invariant DropOld(series, cutoff) == DropOld(samples[asset], cutoff)
      {
        series := series[1..];
      }
      samples := samples[asset := series];
      if |series| == 0 {
        samples := samples - {asset};
        lastRecordedAt := lastRecordedAt - {asset};
      }
    }

    method GetWindow(asset: string, lookbackMs: int, now: int) returns (window: seq<Sample>)
      ensures window == Since(TrackIn(View(), asset).series, now - lookbackMs)
    {
      if asset !in samples || |samples[asset]| == 0 { return []; }
      window := Since(samples[asset], now - lookbackMs);
    }

    method Clear(asset: string)
      modifies this
      ensures View() == Forgotten(old(View()), {asset})
    {
      samples := samples - {asset};
      lastRecordedAt := lastRecordedAt - {asset};
    }

    method ClearCondition(yes: Option<string>, no: Option<string>)
      modifies this
      ensures View() == Forgotten(old(View()), Named(yes) + Named(no))
    {
      if yes.Some? && yes.value != "" { Clear(yes.value); }
      if no.Some? && no.value != "" { Clear(no.value); }
    }

    method ClearAll()
      modifies this
      ensures View() == NO_HISTORY
    {
      samples, lastRecordedAt := map[], map[];
    }
  }

  // ---- one asset over a whole run, against a log that is never pruned ----------------------------

  datatype Event = Recorded(mid: Option<real>, now: int) | Cleared

  function Buffered(es: seq<Event>): Track {
    if es == [] then EMPTY_TRACK
    else match es[|es| - 1]
      case Recorded(mid, now) => RecordTrack(Buffered(es[..|es| - 1]), mid, now)
      case Cleared => EMPTY_TRACK
  }

  function LastTime(log: seq<Sample>): Option<int> {
    if log == [] then None else Some(log[|log| - 1].t)
  }

  /** Every accepted sample since the last clear, with nothing ever dropped. */
  function Unpruned(es: seq<Event>): seq<Sample> {
    if es == [] then []
    else
      var before := Unpruned(es[..|es| - 1]);
      match es[|es| - 1]
      case Recorded(mid, now) =>
        if Accepts(LastTime(before), mid, now) then before + [Sample(now, mid.value)] else before
      case Cleared => []
  }

  /** Consecutive samples are at least the sampling interval apart. */
  predicate Spaced(s: seq<Sample>) {
    forall i, j :: 0 <= i < j < |s| ==> s[j].t - s[i].t >= (j - i) * SAMPLE_INTERVAL_MS
  }

  lemma {:induction false} DropOldIsSuffix(s: seq<Sample>, cutoff: int) returns (k: nat)
    ensures k <= |s| && DropOld(s, cutoff) == s[k..]
    ensures forall i :: 0 <= i < k ==> s[i].t < cutoff
    ensures k < |s| ==> s[k].t >= cutoff
  {
    if s == [] || s[0].t >= cutoff {
      k := 0;
    } else {
      var j := DropOldIsSuffix(s[1..], cutoff);
      k := j + 1;
      assert forall i :: 1 <= i < k ==> s[i] == s[1..][i - 1];
    }
  }

  lemma {:induction false} DropTwice(s: seq<Sample>, x: Sample, early: int, late: int)
    requires early <= late
    ensures DropOld(DropOld(s, early) + [x], late) == DropOld(s + [x], late)
  {
    if s == [] || s[0].t >= early {
    } else {
      assert (s + [x])[1..] == s[1..] + [x];
      DropTwice(s[1..], x, early, late);
    }
  }

  lemma SpacedAppend(s: seq<Sample>, x: Sample)
    requires Spaced(s) && (s != [] ==> x.t - s[|s| - 1].t >= SAMPLE_INTERVAL_MS)
    ensures Spaced(s + [x])
  {
  }

  /** The buffer is the log with everything older than a minute before its last sample dropped, and
      it remembers the last accepted time. */
  predicate Prunes(track: Track, log: seq<Sample>) {
    && Spaced(log) && track.lastAt == LastTime(log)
    && track.series == if log == [] then [] else DropOld(log, log[|log| - 1].t - BUFFER_MAX_MS)
  }

  lemma KeepsNewest(log: seq<Sample>, x: Sample)
    ensures DropOld(log + [x], x.t - BUFFER_MAX_MS) != []
  {
    var k := DropOldIsSuffix(log + [x], x.t - BUFFER_MAX_MS);
    assert (log + [x])[|log|] == x;
  }

  lemma AcceptedKeepsPrunes(track: Track, log: seq<Sample>, mid: real, now: int)
    requires Prunes(track, log) && Accepts(track.lastAt, Some(mid), now)
    ensures Prunes(RecordTrack(track, Some(mid), now), log + [Sample(now, mid)])
  {
    var x := Sample(now, mid);
    SpacedAppend(log, x);
    KeepsNewest(log, x);
    if log != [] {
      DropTwice(log, x, log[|log| - 1].t - BUFFER_MAX_MS, now - BUFFER_MAX_MS);
    }
    assert (log + [x])[|log + [x]| - 1] == x;
  }

  /** For any clock, even one running backwards, the buffer prunes the log. */
  lemma {:induction false} BufferIsPrunedLog(es: seq<Event>)
    ensures Prunes(Buffered(es), Unpruned(es))
  {
    if es != [] {
      var front, last := es[..|es| - 1], es[|es| - 1];
      BufferIsPrunedLog(front);
      if last.Recorded? && Accepts(Buffered(front).lastAt, last.mid, last.now) {
        AcceptedKeepsPrunes(Buffered(front), Unpruned(front), last.mid.value, last.now);
      }
    }
  }

  lemma SpacedSuffix(s: seq<Sample>, k: nat)
    requires Spaced(s) && k <= |s|
    ensures Spaced(s[k..])
  {
  }

  lemma SpacedOrder(s: seq<Sample>, i: nat, j: nat)
    requires Spaced(s) && i <= j < |s|
    ensures s[i].t <= s[j].t
  {
  }

  lemma SpanBoundsCount(s: seq<Sample>)
    requires Spaced(s) && (s != [] ==> s[|s| - 1].t - s[0].t <= BUFFER_MAX_MS)
    ensures |s| <= 121
    ensures forall i, j :: 0 <= i < j < |s| ==> s[j].t - s[i].t <= BUFFER_MAX_MS
  {
    if |s| > 1 {
      assert s[|s| - 1].t - s[0].t >= (|s| - 1 - 0) * SAMPLE_INTERVAL_MS;
      forall i, j | 0 <= i < j < |s| ensures s[j].t - s[i].t <= BUFFER_MAX_MS {
        SpacedOrder(s, 0, i);
        SpacedOrder(s, j, |s| - 1);
      }
    }
  }

  /** What is left of a spaced log after dropping everything older than a minute before its last sample. */
  lemma RetainedSpan(log: seq<Sample>)
    requires Spaced(log) && log != []
    ensures var s := DropOld(log, log[|log| - 1].t - BUFFER_MAX_MS);
            Spaced(s) && (s != [] ==> s[|s| - 1].t - s[0].t <= BUFFER_MAX_MS)
  {
    var k := DropOldIsSuffix(log, log[|log| - 1].t - BUFFER_MAX_MS);
    SpacedSuffix(log, k);
    assert k < |log| ==> log[k..][0] == log[k] && log[k..][|log| - k - 1] == log[|log| - 1];
  }

  lemma PrunedBounds(track: Track, log: seq<Sample>)
    requires Prunes(track, log)
    ensures var s := track.series;
            && Spaced(s)
            && (forall i, j :: 0 <= i < j < |s| ==> s[j].t - s[i].t <= BUFFER_MAX_MS)
            && |s| <= 121
  {
    if log != [] { RetainedSpan(log); }
    SpanBoundsCount(track.series);
  }

  /** Main result. Whatever the clock does, retained samples are at least 500 ms apart and span at most
      60 s, so there are never more than 121 of them. */
  lemma BufferBounds(es: seq<Event>)
    ensures var s := Buffered(es).series;
            && Spaced(s)
            && (forall i, j :: 0 <= i < j < |s| ==> s[j].t - s[i].t <= BUFFER_MAX_MS)
            && |s| <= 121
  {
    BufferIsPrunedLog(es);
    PrunedBounds(Buffered(es), Unpruned(es));
  }

  predicate Ascending(s: seq<Sample>) { forall i, j :: 0 <= i < j < |s| ==> s[i].t <= s[j].t }

  lemma {:induction false} SinceIsShorter(s: seq<Sample>, dropped: int, cutoff: int)
    ensures |Since(DropOld(s, dropped), cutoff)| <= |Since(s, cutoff)|
  {
    if s != [] && s[0].t < dropped { SinceIsShorter(s[1..], dropped, cutoff); }
  }

  /** Dropping the samples before `dropped` leaves a window alone exactly when it holds none of them. */
  lemma {:induction false} SinceAfterDropIff(s: seq<Sample>, dropped: int, cutoff: int)
    requires Ascending(s)
    ensures Since(DropOld(s, dropped), cutoff) == Since(s, cutoff) <==>
      forall x :: x in s && x.t >= cutoff ==> x.t >= dropped
  {
    if s != [] {
      assert s == [s[0]] + s[1..] && forall x :: x in s <==> x == s[0] || x in s[1..];
      if s[0].t >= dropped {
        assert forall x :: x in s ==> x.t >= s[0].t;
      } else {
        SinceAfterDropIff(s[1..], dropped, cutoff);
        SinceIsShorter(s[1..], dropped, cutoff);
      }
    }
  }

  lemma SpacedAscends(s: seq<Sample>)
    requires Spaced(s)
    ensures Ascending(s)
  {
    forall i, j | 0 <= i < j < |s| ensures s[i].t <= s[j].t { SpacedOrder(s, i, j); }
  }

  /** Main result. A window on the pruned buffer is the same as on the log nothing was ever dropped from if and
      only if every sample it holds there is at most a minute older than the last accepted one. */
  lemma {:induction false} WindowEqualsUnprunedIff(es: seq<Event>, cutoff: int)
    requires Unpruned(es) != []
    ensures var log := Unpruned(es);
            Since(Buffered(es).series, cutoff) == Since(log, cutoff) <==>
              forall x :: x in log && x.t >= cutoff ==> x.t >= log[|log| - 1].t - BUFFER_MAX_MS
  {
    var log := Unpruned(es);
    BufferIsPrunedLog(es);
    SpacedAscends(log);
    SinceAfterDropIff(log, log[|log| - 1].t - BUFFER_MAX_MS, cutoff);
  }

  /** So it is for a window that does not reach back beyond a minute before the last accepted sample. */
  lemma WindowEqualsUnpruned(es: seq<Event>, lookbackMs: int, now: int)
    requires var log := Unpruned(es); log != [] ==> now - lookbackMs >= log[|log| - 1].t - BUFFER_MAX_MS
    ensures Since(Buffered(es).series, now - lookbackMs) == Since(Unpruned(es), now - lookbackMs)
  {
    BufferIsPrunedLog(es);
    if Unpruned(es) != [] { WindowEqualsUnprunedIff(es, now - lookbackMs); }
  }

  // ---- the gate -------------------------------------------------------------------------------------

  datatype Verdict = Pass | Insufficient | Descending

  datatype GateParams = GateParams(minDelta: real, lookbackMs: int, minPoints: Option<int>, minSpanRatio: Option<real>)

  const CURVE_MIN_POINTS: int := 3
  const CURVE_MIN_SPAN_RATIO: real := 0.5

  function MinPoints(p: GateParams): int { if p.minPoints.Some? then p.minPoints.value else CURVE_MIN_POINTS }

  function MinSpan(p: GateParams): real {
    p.lookbackMs as real * if p.minSpanRatio.Some? then p.minSpanRatio.value else CURVE_MIN_SPAN_RATIO
  }

  /** The span asked for, or half the lookback. */
  predicate FarEnough(spanMs: int, p: GateParams) {
    match p.minSpanRatio
    case Some(ratio) => spanMs as real >= p.lookbackMs as real * ratio
    case None => 2 * spanMs >= p.lookbackMs
  }

  /** Enough points, three unless asked otherwise, far enough apart. */
  predicate Sufficient(series: seq<Sample>, p: GateParams) {
    && (match p.minPoints case Some(least) => |series| >= least case None => |series| >= 3)
    && (series != [] ==> FarEnough(series[|series| - 1].t - series[0].t, p))
  }

  /** None: reading the first sample of an empty series throws, which only a minimum of no points allows. */
  function EvaluateGate(series: seq<Sample>, p: GateParams): (r: Option<Verdict>)
    ensures r == None <==> series == [] && p.minPoints.Some? && p.minPoints.value <= 0
    ensures r == Some(Insufficient) <==> !Sufficient(series, p)
    ensures r == Some(Descending) ==> series != [] && series[|series| - 1].mid < series[0].mid - p.minDelta
    ensures r == Some(Pass) ==> series != [] && series[|series| - 1].mid >= series[0].mid - p.minDelta
  {
    if |series| < MinPoints(p) then Some(Insufficient)
    else if series == [] then None
    else
      var first, last := series[0], series[|series| - 1];
      var spanMs := last.t - first.t;
      if spanMs as real < MinSpan(p) then Some(Insufficient)
      else if last.mid - first.mid < -p.minDelta then Some(Descending)
      else Some(Pass)
  }

  /** What lies between the ends does not matter, once there are enough points. */
  lemma GateLooksAtEnds(a: seq<Sample>, b: seq<Sample>, p: GateParams)
    requires a != [] && b != [] && |a| >= MinPoints(p) && |b| >= MinPoints(p)
    requires a[0] == b[0] && a[|a| - 1] == b[|b| - 1]
    ensures EvaluateGate(a, p) == EvaluateGate(b, p)
  {
  }

  lemma {:induction false} SinceIsPart(s: seq<Sample>, cutoff: int, x: Sample)
    ensures x in Since(s, cutoff) <==> x in s && x.t >= cutoff
  {
    if s != [] {
      SinceIsPart(s[1..], cutoff, x);
      assert s == [s[0]] + s[1..];
    }
  }

  /** Main result. For any run, any lookback up to a minute and any time not before the last accepted
      sample, the gate gives the same verdict as on the unpruned log. */
  lemma GateEqualsUnpruned(es: seq<Event>, p: GateParams, now: int)
    requires p.lookbackMs <= BUFFER_MAX_MS
    requires var log := Unpruned(es); log != [] ==> now >= log[|log| - 1].t
    ensures EvaluateGate(Since(Buffered(es).series, now - p.lookbackMs), p)
         == EvaluateGate(Since(Unpruned(es), now - p.lookbackMs), p)
  {
    WindowEqualsUnpruned(es, p.lookbackMs, now);
  }

  /** Main result. A descending verdict on the buffer is a real drop in what was recorded: two accepted
      samples inside the lookback, at least the demanded span apart, the later one lower by more than the
      threshold. */
  lemma DescendingIsARealDrop(es: seq<Event>, p: GateParams, now: int) returns (early: Sample, late: Sample)
    requires p.lookbackMs <= BUFFER_MAX_MS
    requires var log := Unpruned(es); log != [] ==> now >= log[|log| - 1].t
    requires EvaluateGate(Since(Buffered(es).series, now - p.lookbackMs), p) == Some(Descending)
    ensures early in Unpruned(es) && late in Unpruned(es)
    ensures now - p.lookbackMs <= early.t && now - p.lookbackMs <= late.t
    ensures FarEnough(late.t - early.t, p) && late.mid < early.mid - p.minDelta
  {
    GateEqualsUnpruned(es, p, now);
    var window := Since(Unpruned(es), now - p.lookbackMs);
    early, late := window[0], window[|window| - 1];
    SinceIsPart(Unpruned(es), now - p.lookbackMs, early);
    SinceIsPart(Unpruned(es), now - p.lookbackMs, late);
  }

  /** One accepted sample after a run. */
  lemma RecordedOneMore(es: seq<Event>, mid: real, now: int)
    ensures var all := es + [Recorded(Some(mid), now)];
            && Buffered(all) == RecordTrack(Buffered(es), Some(mid), now)
            && (Accepts(LastTime(Unpruned(es)), Some(mid), now) ==> Unpruned(all) == Unpruned(es) + [Sample(now, mid)])
  {
    assert (es + [Recorded(Some(mid), now)])[..|es|] == es;
  }

  lemma OldSampleDrops(a: Sample, b: Sample, cutoff: int)
    requires a.t < cutoff <= b.t
    ensures DropOld([a, b], cutoff) == [b] && Since([b], a.t) == [b] && Since([a, b], a.t) == [a, b]
  {
    assert [a, b][1..] == [b] && [b][1..] == [];
    assert DropOld([b], cutoff) == [b];
    assert Since([b], a.t) == [b];
  }

  /** A longer lookback can change the verdict: two samples 61 s apart, of which the buffer keeps one. */
  lemma LongLookbackDiffers() returns (es: seq<Event>, p: GateParams, now: int)
    ensures EvaluateGate(Since(Buffered(es).series, now - p.lookbackMs), p) == Some(Insufficient)
    ensures EvaluateGate(Since(Unpruned(es), now - p.lookbackMs), p) == Some(Descending)
  {
    p, now := GateParams(0.01, 61_000, Some(2), None), 62_000;
    var a, b := Sample(1_000, 0.6), Sample(62_000, 0.5);
    var first := [] + [Recorded(Some(0.6), 1_000)];
    es := first + [Recorded(Some(0.5), 62_000)];
    RecordedOneMore([], 0.6, 1_000);
    assert DropOld([a], 1_000 - BUFFER_MAX_MS) == [a];
    assert Unpruned(first) == [a] && Buffered(first) == Track([a], Some(1_000));
    RecordedOneMore(first, 0.5, 62_000);
    OldSampleDrops(a, b, 2_000);
    assert [a] + [b] == [a, b];
    assert Unpruned(es) == [a, b] && Buffered(es) == Track([b], Some(62_000));
  }
}
