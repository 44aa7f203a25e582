/** Reading a whole transfer history through a capped-page API by walking over block ranges
    (packages/backend/src/polymarket/polygonscan-client.ts:158-222). */
module BlockWalk {
  import opened Text

  const PAGE: nat := 1000
  const MAX_WINDOWS: int := 1000

  /** blockNumber and timeStamp are what `Number(...)` yields; None stands for NaN. */
  datatype Row = Row(
    blockNumber: Option<int>, timeStamp: Option<int>, hash: string, from: string, to: string,
    value: string, tokenDecimal: string, contractAddress: string, logIndex: Option<string>)

  datatype ErrorCode = MissingApiKey | InvalidApiKey | RateLimit | ApiError

  datatype Response = Rows(rows: seq<Row>) | Error(code: ErrorCode)

  /** What the API answers in each window to a query from a start block. */
  type Api = (nat, int) -> Response

  datatype WalkResult = Fetched(rows: seq<Row>, truncated: bool) | Failed(code: ErrorCode)

  function NextStart(startBlock: int, lastBlock: int): int {
    if lastBlock <= startBlock then lastBlock + 1 else lastBlock
  }

  /** What one window leads to: the end of the walk, or the state the next window starts from. */
  datatype Outcome = Done(result: WalkResult) | Onward(startBlock: int, all: seq<Row>, truncated: bool)

  function Window(response: Response, isLast: bool, startBlock: int, all: seq<Row>, truncated: bool): Outcome {
    match response
    case Error(code) => Done(if |all| > 0 then Fetched(all, true) else Failed(code))
    case Rows(batch) =>
      if |batch| < PAGE then Done(Fetched(all + batch, truncated))
      else if batch[|batch| - 1].blockNumber.None? then Done(Fetched(all + batch, true))
      else
        var lastBlock := batch[|batch| - 1].blockNumber.value;
        Onward(NextStart(startBlock, lastBlock), all + batch, truncated || lastBlock <= startBlock || isLast)
  }

  /** The walk from window w on, having collected `all`. */
  function Walk(api: Api, maxWindows: nat, w: nat, startBlock: int, all: seq<Row>, truncated: bool): WalkResult
    decreases maxWindows - w
  {
    if w >= maxWindows then Fetched(all, truncated)
    else match Window(api(w, startBlock), w == maxWindows - 1, startBlock, all, truncated)
      case Done(result) => result
      case Onward(next, collected, flag) => Walk(api, maxWindows, w + 1, next, collected, flag)
  }

  /** The start blocks the walk queries, one per window. */
  function Queries(api: Api, maxWindows: nat, w: nat, startBlock: int): seq<int>
    decreases maxWindows - w
  {
    if w >= maxWindows then []
    else match Window(api(w, startBlock), w == maxWindows - 1, startBlock, [], false)
      case Done(_) => [startBlock]
      case Onward(next, _, _) => [startBlock] + Queries(api, maxWindows, w + 1, next)
  }

  /** The last window from w on that is queried. */
  function LastQuery(api: Api, maxWindows: nat, w: nat, startBlock: int): (last: nat)
    requires w < maxWindows
    ensures w <= last < maxWindows
    decreases maxWindows - w
  {
    match Window(api(w, startBlock), w == maxWindows - 1, startBlock, [], false)
    case Done(_) => w
    case Onward(next, _, _) => if w + 1 < maxWindows then LastQuery(api, maxWindows, w + 1, next) else w
  }

  lemma {:induction false} OneQueryPerWindow(api: Api, maxWindows: nat, w: nat, b: int)
    requires w < maxWindows
    ensures |Queries(api, maxWindows, w, b)| == LastQuery(api, maxWindows, w, b) - w + 1
    decreases maxWindows - w
  {
    var o := Window(api(w, b), w == maxWindows - 1, b, [], false);
    if o.Onward? && w + 1 < maxWindows { OneQueryPerWindow(api, maxWindows, w + 1, o.startBlock); }
  }

  /** How a window leads on depends on the answer and the start block only. */
  lemma WindowLeadsOn(response: Response, isLast: bool, b: int, all: seq<Row>, truncated: bool)
    ensures var o, p := Window(response, isLast, b, all, truncated), Window(response, isLast, b, [], false);
            (o.Onward? <==> p.Onward?) && (o.Onward? ==> o.startBlock == p.startBlock && (isLast ==> o.truncated))
  {
  }

  // ---- what a walk returns, for any API -----------------------------------------------------------

  /** The rows of an answer; an error has none. */
  function RowsIn(response: Response): seq<Row> { if response.Rows? then response.rows else [] }

  /** The rows answered to the given queries, from window w on, in order. */
  function Answered(api: Api, queries: seq<int>, w: nat): seq<Row> {
    if queries == [] then [] else RowsIn(api(w, queries[0])) + Answered(api, queries[1..], w + 1)
  }

  lemma AnsweredOneMore(api: Api, b: int, rest: seq<int>, w: nat)
    ensures Answered(api, [b] + rest, w) == RowsIn(api(w, b)) + Answered(api, rest, w + 1)
  {
    assert ([b] + rest)[1..] == rest;
  }

  lemma RowsAssoc(a: seq<Row>, b: seq<Row>, c: seq<Row>)
    ensures (a + b) + c == a + (b + c) && b + [] == b
  {
  }

  /** One window fails with nothing in hand, or adds what it was answered. */
  lemma WindowAdds(response: Response, isLast: bool, b: int, all: seq<Row>, truncated: bool)
    ensures var o := Window(response, isLast, b, all, truncated);
      if response.Error? && all == [] then o == Done(Failed(response.code))
      else if o.Done? then o.result.Fetched? && o.result.rows == all + RowsIn(response)
      else o.all == all + RowsIn(response) != []
  {
    assert all + [] == all;
  }

  /** The walk fails exactly when it has nothing and its next query fails, with that error; otherwise it returns all
      it had and every row answered, also when a later query fails. */
  lemma {:induction false} WalkReturnsWhatWasAnswered(api: Api, maxWindows: nat, w: nat, b: int, all: seq<Row>,
                                                      truncated: bool)
    ensures var r := Walk(api, maxWindows, w, b, all, truncated);
      if w < maxWindows && all == [] && api(w, b).Error? then r == Failed(api(w, b).code)
      else r.Fetched? && r.rows == all + Answered(api, Queries(api, maxWindows, w, b), w)
    decreases maxWindows - w
  {
    if w >= maxWindows {
      assert all + [] == all;
    } else {
      var isLast := w == maxWindows - 1;
      WindowLeadsOn(api(w, b), isLast, b, all, truncated);
      WindowAdds(api(w, b), isLast, b, all, truncated);
      var o := Window(api(w, b), isLast, b, all, truncated);
      if o.Onward? {
        var rest := Queries(api, maxWindows, w + 1, o.startBlock);
        WalkReturnsWhatWasAnswered(api, maxWindows, w + 1, o.startBlock, o.all, o.truncated);
        AnsweredOneMore(api, b, rest, w);
        RowsAssoc(all, RowsIn(api(w, b)), Answered(api, rest, w + 1));
      } else {
        AnsweredOneMore(api, b, [], w);
        RowsAssoc(all, RowsIn(api(w, b)), []);
      }
    }
  }

  /** An answer after which the history may be incomplete: an error, or a full page that ends on no block, or on no
      later block than it was asked from, or in the last window allowed. */
  predicate Doubtful(response: Response, startBlock: int, isLast: bool) {
    match response
    case Error(_) => true
    case Rows(rows) =>
      |rows| >= 1000 &&
      (var last := rows[|rows| - 1].blockNumber; last.None? || last.value <= startBlock || isLast)
  }

  predicate AnyDoubtful(api: Api, maxWindows: nat, w: nat, queries: seq<int>) {
    exists i :: 0 <= i < |queries| && Doubtful(api(w + i, queries[i]), queries[i], w + i == maxWindows - 1)
  }

  lemma AnyDoubtfulStep(api: Api, maxWindows: nat, w: nat, b: int, rest: seq<int>)
    ensures AnyDoubtful(api, maxWindows, w, [b] + rest) <==>
      Doubtful(api(w, b), b, w == maxWindows - 1) || AnyDoubtful(api, maxWindows, w + 1, rest)
  {
    var qs := [b] + rest;
    if AnyDoubtful(api, maxWindows, w + 1, rest) {
      var i :| 0 <= i < |rest| && Doubtful(api(w + 1 + i, rest[i]), rest[i], w + 1 + i == maxWindows - 1);
      assert qs[i + 1] == rest[i];
      assert Doubtful(api(w + (i + 1), qs[i + 1]), qs[i + 1], w + (i + 1) == maxWindows - 1);
    }
    if AnyDoubtful(api, maxWindows, w, qs) {
      var i :| 0 <= i < |qs| && Doubtful(api(w + i, qs[i]), qs[i], w + i == maxWindows - 1);
      if i > 0 {
        assert qs[i] == rest[i - 1];
        assert Doubtful(api(w + 1 + (i - 1), rest[i - 1]), rest[i - 1], w + 1 + (i - 1) == maxWindows - 1);
      }
    }
    if Doubtful(api(w, b), b, w == maxWindows - 1) {
      assert qs[0] == b && Doubtful(api(w + 0, qs[0]), qs[0], w + 0 == maxWindows - 1);
    }
  }

  /** Main result. For any API, a walk that returns rows is flagged if and only if the answer to one of its queries
      was doubtful. */
  lemma {:induction false} FlaggedIffDoubtful(api: Api, maxWindows: nat, w: nat, b: int, all: seq<Row>, truncated: bool)
    ensures var r := Walk(api, maxWindows, w, b, all, truncated);
      r.Fetched? ==> (r.truncated <==> truncated || AnyDoubtful(api, maxWindows, w, Queries(api, maxWindows, w, b)))
    decreases maxWindows - w
  {
    if w < maxWindows {
      var isLast := w == maxWindows - 1;
      WindowLeadsOn(api(w, b), isLast, b, all, truncated);
      var o := Window(api(w, b), isLast, b, all, truncated);
      if o.Onward? {
        AnyDoubtfulStep(api, maxWindows, w, b, Queries(api, maxWindows, w + 1, o.startBlock));
        FlaggedIffDoubtful(api, maxWindows, w + 1, o.startBlock, o.all, o.truncated);
      } else {
        AnyDoubtfulStep(api, maxWindows, w, b, []);
      }
    }
  }

  method FetchAll(api: Api, maxWindowsOption: Option<int>) returns (result: WalkResult)
    ensures var m := if maxWindowsOption.Some? then maxWindowsOption.value else 1000;
            result == Walk(api, if m < 1 then 1 else m, 0, 0, [], false)
  {
    var m := if maxWindowsOption.Some? then maxWindowsOption.value else MAX_WINDOWS;
    var maxWindows: nat := if m < 1 then 1 else m;
    ghost var expected := Walk(api, maxWindows, 0, 0, [], false);
    var all: seq<Row> := [];
    var startBlock, truncated := 0, false;
    var window := 0;
    while window < maxWindows
      invariant 0 <= window <= maxWindows
      invariant expected == Walk(api, maxWindows, window, startBlock, all, truncated)
    {
      var response := api(window, startBlock);
      if response.Error? {
        if |all| > 0 {
          truncated := true;
          assert expected == Fetched(all, truncated);
          break;
        }
        return Failed(response.code);
      }
      var batch := response.rows;
      ghost var before := all;
      all := all + batch;
      if |batch| < PAGE {
        assert expected == Fetched(all, truncated);
        break;
      }
      var last := batch[|batch| - 1].blockNumber;
      if last.None? {
        truncated := true;
        assert expected == Fetched(all, truncated);
        break;
      }
      ghost var was, start := truncated, startBlock;
      if last.value <= startBlock {
        startBlock := last.value + 1;
        truncated := true;
      } else {
        startBlock := last.value;
      }
      if window == maxWindows - 1 {
        truncated := true;
      }
      assert truncated == (was || last.value <= start || window == maxWindows - 1);
      assert startBlock == NextStart(start, last.value);
      window := window + 1;
    }
    result := Fetched(all, truncated);
  }

  // ---- an honest API over a growing history -----------------------------------------------------

  predicate Sorted(h: seq<Row>) {
    && (forall i :: 0 <= i < |h| ==> h[i].blockNumber.Some? && h[i].blockNumber.value >= 0)
    && (forall i, j :: 0 <= i < j < |h| ==> h[i].blockNumber.value <= h[j].blockNumber.value)
  }

  /** How many leading rows lie before block b. */
  function Before(h: seq<Row>, b: int): (n: nat)
    requires Sorted(h)
    ensures n <= |h|
  {
    if h == [] || h[0].blockNumber.value >= b then 0 else 1 + Before(h[1..], b)
  }

  lemma {:induction false} BeforeSplits(h: seq<Row>, b: int)
    requires Sorted(h)
    ensures forall i :: 0 <= i < Before(h, b) ==> h[i].blockNumber.value < b
    ensures forall i :: Before(h, b) <= i < |h| ==> h[i].blockNumber.value >= b
  {
    if h != [] && h[0].blockNumber.value < b { BeforeSplits(h[1..], b); }
  }

  /** The first thousand rows, in block order, from block b. */
  function PageOf(h: seq<Row>, b: int): seq<Row>
    requires Sorted(h)
  {
    var n := Before(h, b);
    h[n..if n + PAGE <= |h| then n + PAGE else |h|]
  }

  /** The history at each window: it only grows, by appending. */
  ghost predicate Grows(hist: nat -> seq<Row>) {
    && (forall w: nat :: Sorted(hist(w)))
    && (forall v: nat, w: nat :: v <= w ==> hist(v) <= hist(w))
  }

  ghost predicate Honest(api: Api, hist: nat -> seq<Row>)
    requires Grows(hist)
  {
    forall w: nat, b: int :: api(w, b).Rows? ==> api(w, b).rows == PageOf(hist(w), b)
  }

  /** How often a row occurs. */
  function Copies(rows: seq<Row>, row: Row): nat { multiset(rows)[row] }

  lemma CopiesConcat(a: seq<Row>, b: seq<Row>, row: Row)
    ensures Copies(a + b, row) == Copies(a, row) + Copies(b, row)
  {
  }

  lemma CopiesOfPrefix(a: seq<Row>, b: seq<Row>, row: Row)
    requires a <= b
    ensures Copies(a, row) <= Copies(b, row)
  {
    assert b == a + b[|a|..];
  }

  lemma CopiesOfCut(h: seq<Row>, i: nat, j: nat, row: Row)
    requires i <= j <= |h|
    ensures Copies(h[..j], row) == Copies(h[..i], row) + Copies(h[i..j], row) <= Copies(h, row)
  {
    assert h[..j] == h[..i] + h[i..j];
    CopiesOfPrefix(h[..j], h, row);
  }

  /** The copies of the row that lie before block b have been collected. */
  predicate Covered(h: seq<Row>, b: int, all: seq<Row>, row: Row)
    requires Sorted(h)
  {
    Copies(h[..Before(h, b)], row) <= Copies(all, row)
  }

  lemma ShortPageCovers(h: seq<Row>, b: int, all: seq<Row>, row: Row)
    requires Sorted(h) && Covered(h, b, all, row) && |PageOf(h, b)| < PAGE
    ensures Copies(h, row) <= Copies(all + PageOf(h, b), row)
  {
    CopiesOfCut(h, Before(h, b), |h|, row);
    assert h[..|h|] == h && PageOf(h, b) == h[Before(h, b)..|h|];
    CopiesConcat(all, PageOf(h, b), row);
  }

  lemma BeforeLastOfPage(h: seq<Row>, later: seq<Row>, b: int) returns (last: int, n: nat)
    requires Sorted(h) && Sorted(later) && h <= later && |PageOf(h, b)| == PAGE
    ensures last == PageOf(h, b)[PAGE - 1].blockNumber.value >= b
    ensures n == Before(later, last) < Before(h, b) + PAGE <= |h| && later[..n] == h[..n]
  {
    BeforeSplits(h, b);
    var k := Before(h, b) + PAGE - 1;
    last := h[k].blockNumber.value;
    assert PageOf(h, b)[PAGE - 1] == h[k] == later[k];
    n := Before(later, last);
    BeforeSplits(later, last);
    assert n <= k;
  }

  lemma FullPageCovers(h: seq<Row>, later: seq<Row>, b: int, all: seq<Row>, row: Row)
    requires Sorted(h) && Sorted(later) && h <= later && Covered(h, b, all, row) && |PageOf(h, b)| == PAGE
    ensures var last := PageOf(h, b)[PAGE - 1].blockNumber.value;
            last >= b && Covered(later, last, all + PageOf(h, b), row)
  {
    var last, n := BeforeLastOfPage(h, later, b);
    var m := Before(h, b) + PAGE;
    assert PageOf(h, b) == h[Before(h, b)..m];
    CopiesOfCut(h, Before(h, b), m, row);
    CopiesOfCut(h, n, m, row);
    CopiesConcat(all, PageOf(h, b), row);
  }

  /** Page by page: before(w, b) copies of the row lie before block b in the history at window w, total(w) in all
      of it; a short page holds the rest, and a full one all up to its last block, in the history then and later. */
  predicate PageCovers(page: seq<Row>, w: nat, b: int, row: Row, before: (nat, int) -> nat, total: nat -> nat) {
    && (|page| < PAGE ==> total(w) <= before(w, b) + Copies(page, row))
    && (|page| >= PAGE && page[|page| - 1].blockNumber.Some? ==>
          before(w + 1, page[|page| - 1].blockNumber.value) <= before(w, b) + Copies(page, row))
  }

  ghost predicate PagesCover(api: Api, row: Row, before: (nat, int) -> nat, total: nat -> nat) {
    forall w: nat, b: int :: api(w, b).Rows? ==> PageCovers(api(w, b).rows, w, b, row, before, total)
  }

  /** One window keeps the covering, or ends the walk with everything. */
  lemma WindowCovers(response: Response, isLast: bool, w: nat, b: int, all: seq<Row>, truncated: bool, row: Row,
                     before: (nat, int) -> nat, total: nat -> nat)
    requires response.Rows? ==> PageCovers(response.rows, w, b, row, before, total)
    requires truncated || before(w, b) <= Copies(all, row)
    ensures var o := Window(response, isLast, b, all, truncated);
      if o.Onward? then o.truncated || before(w + 1, o.startBlock) <= Copies(o.all, row)
      else o.result.Fetched? && !o.result.truncated ==> total(w) <= Copies(o.result.rows, row)
  {
    if response.Rows? { CopiesConcat(all, response.rows, row); }
  }

  lemma {:induction false} WalkAccumulates(api: Api, maxWindows: nat, w: nat, b: int, all: seq<Row>, truncated: bool,
                                           row: Row, before: (nat, int) -> nat, total: nat -> nat)
    requires PagesCover(api, row, before, total) && w < maxWindows
    requires truncated || before(w, b) <= Copies(all, row)
    ensures var r := Walk(api, maxWindows, w, b, all, truncated);
            r.Fetched? && !r.truncated ==> total(LastQuery(api, maxWindows, w, b)) <= Copies(r.rows, row)
    decreases maxWindows - w
  {
    var o := Window(api(w, b), w == maxWindows - 1, b, all, truncated);
    WindowLeadsOn(api(w, b), w == maxWindows - 1, b, all, truncated);
    WindowCovers(api(w, b), w == maxWindows - 1, w, b, all, truncated, row, before, total);
    if o.Onward? && w + 1 < maxWindows {
      WalkAccumulates(api, maxWindows, w + 1, o.startBlock, o.all, o.truncated, row, before, total);
    }
  }

  ghost function BeforeIn(hist: nat -> seq<Row>, row: Row): (nat, int) -> nat
    requires Grows(hist)
  {
    (w: nat, b: int) => Copies(hist(w)[..Before(hist(w), b)], row)
  }

  ghost function TotalIn(hist: nat -> seq<Row>, row: Row): nat -> nat { (w: nat) => Copies(hist(w), row) }

  lemma PageOfCovers(h: seq<Row>, later: seq<Row>, b: int, row: Row)
    requires Sorted(h) && Sorted(later) && h <= later
    ensures |PageOf(h, b)| < PAGE ==> Copies(h, row) <= Copies(h[..Before(h, b)], row) + Copies(PageOf(h, b), row)
    ensures |PageOf(h, b)| == PAGE ==>
      Copies(later[..Before(later, PageOf(h, b)[PAGE - 1].blockNumber.value)], row)
      <= Copies(h[..Before(h, b)], row) + Copies(PageOf(h, b), row)
  {
    var all := h[..Before(h, b)];
    CopiesConcat(all, PageOf(h, b), row);
    if |PageOf(h, b)| < PAGE {
      ShortPageCovers(h, b, all, row);
    } else {
      FullPageCovers(h, later, b, all, row);
    }
  }

  lemma HonestPageCovers(hist: nat -> seq<Row>, w: nat, b: int, row: Row)
    requires Grows(hist)
    ensures PageCovers(PageOf(hist(w), b), w, b, row, BeforeIn(hist, row), TotalIn(hist, row))
  {
    assert hist(w) <= hist(w + 1);
    PageOfCovers(hist(w), hist(w + 1), b, row);
  }

  lemma HonestPagesCover(api: Api, hist: nat -> seq<Row>, row: Row)
    requires Grows(hist) && Honest(api, hist)
    ensures PagesCover(api, row, BeforeIn(hist, row), TotalIn(hist, row))
  {
    forall w: nat, b: int | api(w, b).Rows?
      ensures PageCovers(api(w, b).rows, w, b, row, BeforeIn(hist, row), TotalIn(hist, row))
    {
      HonestPageCovers(hist, w, b, row);
    }
  }

  /** From any window, an untruncated end holds the whole history as of the last query. */
  lemma WalkCovers(api: Api, hist: nat -> seq<Row>, maxWindows: nat, w: nat, b: int, all: seq<Row>, truncated: bool,
                   row: Row)
    requires Grows(hist) && Honest(api, hist) && w < maxWindows
    requires truncated || Covered(hist(w), b, all, row)
    ensures var r, h := Walk(api, maxWindows, w, b, all, truncated), hist(LastQuery(api, maxWindows, w, b));
            r.Fetched? && !r.truncated ==> Copies(h, row) <= Copies(r.rows, row)
  {
    HonestPagesCover(api, hist, row);
    WalkAccumulates(api, maxWindows, w, b, all, truncated, row, BeforeIn(hist, row), TotalIn(hist, row));
  }

  /** Main result. When the walk reports no truncation, it holds every row at least as often as the history does
      as of its last query, even if the history grew meanwhile: no transfer is missing. */
  lemma UntruncatedIsComplete(api: Api, hist: nat -> seq<Row>, maxWindows: nat, row: Row)
    requires Grows(hist) && Honest(api, hist) && maxWindows >= 1
    requires var r := Walk(api, maxWindows, 0, 0, [], false); r.Fetched? && !r.truncated
    ensures var rows, h := Walk(api, maxWindows, 0, 0, [], false).rows, hist(LastQuery(api, maxWindows, 0, 0));
            Copies(h, row) <= Copies(rows, row) && (row in h ==> row in rows)
  {
    BeforeSplits(hist(0), 0);
    assert Before(hist(0), 0) == 0;
    WalkCovers(api, hist, maxWindows, 0, 0, [], false, row);
  }

  /** Every row of the result came with some answer. */
  lemma {:induction false} WalkCollects(api: Api, maxWindows: nat, w: nat, b: int, all: seq<Row>, truncated: bool,
                                        row: Row) returns (v: nat, c: int)
    requires var r := Walk(api, maxWindows, w, b, all, truncated); r.Fetched? && row in r.rows
    requires row !in all
    ensures v < maxWindows && api(v, c).Rows? && row in api(v, c).rows
    decreases maxWindows - w
  {
    var o := Window(api(w, b), w == maxWindows - 1, b, all, truncated);
    v, c := w, b;
    if !(api(w, b).Rows? && row in api(w, b).rows) {
      v, c := WalkCollects(api, maxWindows, w + 1, o.startBlock, o.all, o.truncated, row);
    }
  }

  /** Every row the walk returns was in the history when it was read. */
  lemma WalkInvents(api: Api, hist: nat -> seq<Row>, maxWindows: nat, row: Row)
    requires Grows(hist) && Honest(api, hist)
    requires var r := Walk(api, maxWindows, 0, 0, [], false); r.Fetched? && row in r.rows
    ensures exists v: nat :: v < maxWindows && row in hist(v)
  {
    var v, c := WalkCollects(api, maxWindows, 0, 0, [], false, row);
    assert row in PageOf(hist(v), c) && row in hist(v);
  }

  predicate PageAdvances(page: seq<Row>, b: int) {
    |page| >= PAGE && page[|page| - 1].blockNumber.Some? ==> page[|page| - 1].blockNumber.value >= b
  }

  /** A full page does not end before the block it was asked from. */
  ghost predicate PagesAdvance(api: Api) {
    forall w: nat, b: int :: api(w, b).Rows? ==> PageAdvances(api(w, b).rows, b)
  }

  lemma HonestPagesAdvance(api: Api, hist: nat -> seq<Row>)
    requires Grows(hist) && Honest(api, hist)
    ensures PagesAdvance(api)
  {
    forall w: nat, b: int | api(w, b).Rows? ensures PageAdvances(api(w, b).rows, b) {
      BeforeSplits(hist(w), b);
    }
  }

  predicate Increasing(qs: seq<int>) { forall i, j :: 0 <= i < j < |qs| ==> qs[i] < qs[j] }

  predicate IncreasingFrom(qs: seq<int>, b: int) { (qs != [] ==> qs[0] == b) && Increasing(qs) }

  lemma IncreasingCons(b: int, qs: seq<int>)
    requires Increasing(qs) && (qs != [] ==> b < qs[0])
    ensures IncreasingFrom([b] + qs, b)
  {
  }

  /** The queries after the one from block b. */
  function Further(api: Api, maxWindows: nat, w: nat, b: int): seq<int>
    requires w < maxWindows
  {
    var o := Window(api(w, b), w == maxWindows - 1, b, [], false);
    if o.Onward? then Queries(api, maxWindows, w + 1, o.startBlock) else []
  }

  lemma QueriesStep(api: Api, maxWindows: nat, w: nat, b: int)
    requires w < maxWindows
    ensures Queries(api, maxWindows, w, b) == [b] + Further(api, maxWindows, w, b)
  {
  }

  lemma {:induction false} QueriesIncrease(api: Api, maxWindows: nat, w: nat, b: int)
    requires PagesAdvance(api)
    ensures IncreasingFrom(Queries(api, maxWindows, w, b), b)
    decreases maxWindows - w, 1
  {
    if w < maxWindows {
      FurtherIncrease(api, maxWindows, w, b);
      QueriesStep(api, maxWindows, w, b);
      IncreasingCons(b, Further(api, maxWindows, w, b));
    }
  }

  lemma {:induction false} FurtherIncrease(api: Api, maxWindows: nat, w: nat, b: int)
    requires PagesAdvance(api) && w < maxWindows
    ensures var rest := Further(api, maxWindows, w, b); Increasing(rest) && (rest != [] ==> b < rest[0])
    decreases maxWindows - w, 0
  {
    var o := Window(api(w, b), w == maxWindows - 1, b, [], false);
    if o.Onward? {
      assert PageAdvances(api(w, b).rows, b) && o.startBlock > b;
      QueriesIncrease(api, maxWindows, w + 1, o.startBlock);
    }
  }

  /** Main result. Start blocks strictly increase from one full page to the next. */
  lemma StartBlocksIncrease(api: Api, hist: nat -> seq<Row>, maxWindows: nat)
    requires Grows(hist) && Honest(api, hist)
    ensures Increasing(Queries(api, maxWindows, 0, 0))
  {
    HonestPagesAdvance(api, hist);
    QueriesIncrease(api, maxWindows, 0, 0);
  }

  // ---- multiplicity -------------------------------------------------------------------------------

  /** How often a row can have been collected once the walk stands at start block b, if the history holds it m
      times. */
  function Bound(row: Row, b: int, m: nat): nat {
    if row.blockNumber.None? then 0
    else if row.blockNumber.value < b then 2 * m
    else if row.blockNumber.value == b then m
    else 0
  }

  /** What a page from block b may hold of a row that the history holds m times. */
  predicate PageFits(page: seq<Row>, b: int, row: Row, m: nat) {
    && |page| <= PAGE && Copies(page, row) <= m
    && (row in page ==> row.blockNumber.Some? && row.blockNumber.value >= b)
    && (|page| == PAGE ==>
          && page[PAGE - 1].blockNumber.Some? && page[PAGE - 1].blockNumber.value >= b
          && (row in page ==> row.blockNumber.value <= page[PAGE - 1].blockNumber.value))
  }

  ghost predicate PagesFit(api: Api, last: nat, row: Row, m: nat) {
    forall w: nat, b: int :: w <= last && api(w, b).Rows? ==> PageFits(api(w, b).rows, b, row, m)
  }

  lemma RowsOfPage(h: seq<Row>, b: int, row: Row)
    requires Sorted(h) && row in PageOf(h, b)
    ensures row.blockNumber.Some? && row.blockNumber.value >= b
    ensures |PageOf(h, b)| == PAGE ==> row.blockNumber.value <= h[Before(h, b) + PAGE - 1].blockNumber.value
  {
    var page, n := PageOf(h, b), Before(h, b);
    var i :| 0 <= i < |page| && page[i] == row;
    assert row == h[n + i];
    BeforeSplits(h, b);
  }

  lemma LastOfPage(h: seq<Row>, b: int)
    requires Sorted(h) && |PageOf(h, b)| == PAGE
    ensures Before(h, b) + PAGE <= |h| && PageOf(h, b)[PAGE - 1] == h[Before(h, b) + PAGE - 1]
    ensures h[Before(h, b) + PAGE - 1].blockNumber.value >= b
  {
    BeforeSplits(h, b);
  }

  lemma PageOfFits(h: seq<Row>, b: int, row: Row, m: nat)
    requires Sorted(h) && Copies(h, row) <= m
    ensures PageFits(PageOf(h, b), b, row, m)
  {
    CopiesOfCut(h, Before(h, b), Before(h, b) + |PageOf(h, b)|, row);
    if row in PageOf(h, b) { RowsOfPage(h, b, row); }
    if |PageOf(h, b)| == PAGE { LastOfPage(h, b); }
  }

  lemma HonestPagesFit(api: Api, hist: nat -> seq<Row>, last: nat, row: Row)
    requires Grows(hist) && Honest(api, hist)
    ensures PagesFit(api, last, row, Copies(hist(last), row))
  {
    forall w: nat, b: int | w <= last && api(w, b).Rows?
      ensures PageFits(api(w, b).rows, b, row, Copies(hist(last), row))
    {
      assert hist(w) <= hist(last);
      CopiesOfPrefix(hist(w), hist(last), row);
      PageOfFits(hist(w), b, row, Copies(hist(last), row));
    }
  }

  /** A window whose page fits keeps the bound, or ends the walk within it. */
  lemma WindowWithinBound(response: Response, isLast: bool, b: int, all: seq<Row>, truncated: bool, row: Row, m: nat)
    requires Copies(all, row) <= Bound(row, b, m)
    requires response.Rows? ==> PageFits(response.rows, b, row, m)
    ensures var o := Window(response, isLast, b, all, truncated);
      if o.Onward? then Copies(o.all, row) <= Bound(row, o.startBlock, m)
      else o.result.Fetched? ==> Copies(o.result.rows, row) <= 2 * m
  {
    if response.Rows? {
      CopiesConcat(all, response.rows, row);
      assert row !in response.rows ==> Copies(response.rows, row) == 0;
    }
  }

  lemma {:induction false} WalkMultiplicity(api: Api, maxWindows: nat, w: nat, b: int, all: seq<Row>, truncated: bool,
                                            last: nat, row: Row, m: nat)
    requires PagesFit(api, last, row, m) && Copies(all, row) <= Bound(row, b, m)
    requires w < maxWindows ==> last == LastQuery(api, maxWindows, w, b)
    ensures var r := Walk(api, maxWindows, w, b, all, truncated); r.Fetched? ==> Copies(r.rows, row) <= 2 * m
    decreases maxWindows - w
  {
    if w < maxWindows {
      var o := Window(api(w, b), w == maxWindows - 1, b, all, truncated);
      WindowLeadsOn(api(w, b), w == maxWindows - 1, b, all, truncated);
      WindowWithinBound(api(w, b), w == maxWindows - 1, b, all, truncated, row, m);
      if o.Onward? {
        WalkMultiplicity(api, maxWindows, w + 1, o.startBlock, o.all, o.truncated, last, row, m);
      }
    }
  }

  /** Main result. The overlap of neighbouring windows repeats a row at most once: a walk, truncated or not, holds
      it at most twice as often as the history does as of its last query. */
  lemma AtMostTwice(api: Api, hist: nat -> seq<Row>, maxWindows: nat, row: Row)
    requires Grows(hist) && Honest(api, hist) && maxWindows >= 1
    ensures var r, h := Walk(api, maxWindows, 0, 0, [], false), hist(LastQuery(api, maxWindows, 0, 0));
            r.Fetched? ==> Copies(r.rows, row) <= 2 * Copies(h, row)
  {
    var last := LastQuery(api, maxWindows, 0, 0);
    HonestPagesFit(api, hist, last, row);
    WalkMultiplicity(api, maxWindows, 0, 0, [], false, last, row, Copies(hist(last), row));
  }

  // ---- when the walk is not truncated --------------------------------------------------------------

  /** No block holds a thousand transfers. */
  predicate SparseBlocks(h: seq<Row>) {
    forall i :: 0 <= i && i + PAGE <= |h| ==> h[i].blockNumber != h[i + PAGE - 1].blockNumber
  }

  /** The API answers from one history that does not change, and never fails. */
  ghost predicate Answers(api: Api, h: seq<Row>)
    requires Sorted(h)
  {
    forall w: nat, b: int :: api(w, b) == Rows(PageOf(h, b))
  }

  /** A full page reaches beyond b in a sparse history: the next window starts where the page ends. */
  lemma FullPageAdvances(h: seq<Row>, b: int) returns (last: int)
    requires Sorted(h) && SparseBlocks(h) && Before(h, b) + PAGE <= |h|
    ensures last == h[Before(h, b) + PAGE - 1].blockNumber.value > b
    ensures Before(h, b) < Before(h, last) < Before(h, b) + PAGE
    ensures h[Before(h, last)].blockNumber == Some(last)
  {
    BeforeSplits(h, b);
    var n := Before(h, b);
    last := h[n + PAGE - 1].blockNumber.value;
    assert h[n].blockNumber != h[n + PAGE - 1].blockNumber;
    assert b <= h[n].blockNumber.value < last;
    BeforeSplits(h, last);
    assert n < Before(h, last);
    assert Before(h, last) <= n + PAGE - 1;
    assert h[Before(h, last)].blockNumber.value <= h[n + PAGE - 1].blockNumber.value;
  }

  /** Two full pages in a row leave a thousand rows behind. */
  lemma TwoPagesAdvance(h: seq<Row>, b: int) returns (middle: int, last: int)
    requires Sorted(h) && SparseBlocks(h) && Before(h, b) + PAGE <= |h|
    ensures middle == h[Before(h, b) + PAGE - 1].blockNumber.value > b
    ensures Before(h, middle) + PAGE <= |h| ==>
      last == h[Before(h, middle) + PAGE - 1].blockNumber.value > middle && Before(h, last) >= Before(h, b) + PAGE
  {
    middle := FullPageAdvances(h, b);
    last := middle;
    if Before(h, middle) + PAGE <= |h| {
      last := FullPageAdvances(h, middle);
      BeforeSplits(h, last);
      var k := Before(h, b) + PAGE - 1;
      assert h[k].blockNumber.value == middle < last;
      assert k < Before(h, last);
    }
  }

  /** The API never fails. */
  ghost predicate NeverFails(api: Api) { forall w: nat, b: int :: api(w, b).Rows? }

  /** Without failures the walk ends with rows, and a raised flag stays up. */
  lemma {:induction false} FlagStays(api: Api, maxWindows: nat, w: nat, b: int, all: seq<Row>, truncated: bool)
    requires NeverFails(api)
    ensures var r := Walk(api, maxWindows, w, b, all, truncated); r.Fetched? && (truncated ==> r.truncated)
    decreases maxWindows - w
  {
    if w < maxWindows {
      var o := Window(api(w, b), w == maxWindows - 1, b, all, truncated);
      if o.Onward? { FlagStays(api, maxWindows, w + 1, o.startBlock, o.all, o.truncated); }
    }
  }

  // A sparse history, seen through its pages: pos(b) rows lie before block b, next(b) is the last block of a full
  // page from b, and two full pages leave a thousand rows behind.

  predicate SparsePage(page: seq<Row>, b: int, pos: int -> nat, next: int -> int, total: nat) {
    if pos(b) + PAGE > total then |page| < PAGE
    else && |page| == PAGE && page[PAGE - 1].blockNumber == Some(next(b)) && next(b) > b
         && (pos(next(b)) + PAGE <= total ==> pos(next(next(b))) >= pos(b) + PAGE)
  }

  ghost predicate SparsePages(api: Api, pos: int -> nat, next: int -> int, total: nat) {
    forall w: nat, b: int :: api(w, b).Rows? && SparsePage(api(w, b).rows, b, pos, next, total)
  }

  /** Two windows per thousand rows are enough. */
  lemma {:induction false} SparseWalkFinishes(api: Api, maxWindows: nat, w: nat, b: int, all: seq<Row>,
                                              pos: int -> nat, next: int -> int, total: nat)
    requires SparsePages(api, pos, next, total) && w < maxWindows
    requires 2 * (total - pos(b)) < PAGE * (maxWindows - w)
    ensures var r := Walk(api, maxWindows, w, b, all, false); r.Fetched? && !r.truncated
    decreases maxWindows - w
  {
    var o := Window(api(w, b), w == maxWindows - 1, b, all, false);
    assert SparsePage(api(w, b).rows, b, pos, next, total);
    if o.Onward? {
      assert w + 2 < maxWindows && o.startBlock == next(b) && !o.truncated;
      var p := Window(api(w + 1, next(b)), w + 1 == maxWindows - 1, next(b), o.all, false);
      assert SparsePage(api(w + 1, next(b)).rows, next(b), pos, next, total);
      if p.Onward? {
        assert p.startBlock == next(next(b)) && !p.truncated;
        SparseWalkFinishes(api, maxWindows, w + 2, next(next(b)), p.all, pos, next, total);
      }
    }
  }

  ghost function PosIn(h: seq<Row>): int -> nat
    requires Sorted(h)
  {
    (b: int) => Before(h, b)
  }

  ghost function NextIn(h: seq<Row>): int -> int
    requires Sorted(h)
  {
    (b: int) => if Before(h, b) + PAGE <= |h| then h[Before(h, b) + PAGE - 1].blockNumber.value else b
  }

  lemma SparseAnswers(api: Api, h: seq<Row>)
    requires Sorted(h) && SparseBlocks(h) && Answers(api, h)
    ensures SparsePages(api, PosIn(h), NextIn(h), |h|)
  {
    forall w: nat, b: int ensures api(w, b).Rows? && SparsePage(api(w, b).rows, b, PosIn(h), NextIn(h), |h|) {
      assert api(w, b) == Rows(PageOf(h, b));
      if Before(h, b) + PAGE <= |h| {
        var middle, last := TwoPagesAdvance(h, b);
        assert PageOf(h, b)[PAGE - 1] == h[Before(h, b) + PAGE - 1];
      }
    }
  }

  // A history with a dense block, seen through its pages.

  predicate PageStopsAt(page: seq<Row>, k: int) {
    |page| == PAGE && page[PAGE - 1].blockNumber.Some? && page[PAGE - 1].blockNumber.value <= k
  }

  /** From at or before block k every page is full and ends at or before it. */
  ghost predicate StopsAt(api: Api, k: int) {
    forall w: nat, b: int :: b <= k ==> api(w, b).Rows? && PageStopsAt(api(w, b).rows, k)
  }

  /** Such a walk cannot get past block k unflagged. */
  lemma {:induction false} StoppedWalkIsFlagged(api: Api, maxWindows: nat, w: nat, b: int, all: seq<Row>, k: int)
    requires NeverFails(api) && StopsAt(api, k) && b <= k && w < maxWindows
    ensures var r := Walk(api, maxWindows, w, b, all, false); r.Fetched? && r.truncated
    decreases maxWindows - w
  {
    var o := Window(api(w, b), w == maxWindows - 1, b, all, false);
    assert PageStopsAt(api(w, b).rows, k);
    if o.truncated {
      FlagStays(api, maxWindows, w + 1, o.startBlock, o.all, true);
    } else {
      StoppedWalkIsFlagged(api, maxWindows, w + 1, o.startBlock, o.all, k);
    }
  }

  /** A page from at or before a dense block is full and ends at or before it. */
  lemma PageBeforeDense(h: seq<Row>, b: int, i: nat)
    requires Sorted(h) && i + PAGE <= |h| && b <= h[i].blockNumber.value
    ensures PageStopsAt(PageOf(h, b), h[i + PAGE - 1].blockNumber.value)
  {
    BeforeSplits(h, b);
    var n := Before(h, b);
    assert n <= i;
    assert PageOf(h, b)[PAGE - 1] == h[n + PAGE - 1];
    assert h[n + PAGE - 1].blockNumber.value <= h[i + PAGE - 1].blockNumber.value;
  }

  lemma AnswersNeverFail(api: Api, h: seq<Row>)
    requires Sorted(h) && Answers(api, h)
    ensures NeverFails(api)
  {
    forall w: nat, b: int ensures api(w, b).Rows? {
      assert api(w, b) == Rows(PageOf(h, b));
    }
  }

  /** A walk that starts at or before a block of a thousand transfers ends truncated: it cannot step over
      that block without a page that lies inside it. */
  lemma WalkMeetsDenseBlock(api: Api, h: seq<Row>, maxWindows: nat, w: nat, b: int, all: seq<Row>, i: nat)
    requires Sorted(h) && i + PAGE <= |h|
    requires h[i].blockNumber == h[i + PAGE - 1].blockNumber && b <= h[i].blockNumber.value
    requires Answers(api, h) && w < maxWindows
    ensures var r := Walk(api, maxWindows, w, b, all, false); r.Fetched? && r.truncated
  {
    var k := h[i].blockNumber.value;
    AnswersNeverFail(api, h);
    forall v: nat, c: int | c <= k ensures api(v, c).Rows? && PageStopsAt(api(v, c).rows, k) {
      assert api(v, c) == Rows(PageOf(h, c));
      PageBeforeDense(h, c, i);
    }
    StoppedWalkIsFlagged(api, maxWindows, w, b, all, k);
  }

  lemma SparseIsUntruncated(api: Api, h: seq<Row>, maxWindows: nat)
    requires Sorted(h) && Answers(api, h) && 2 * |h| < PAGE * maxWindows && SparseBlocks(h)
    ensures var r := Walk(api, maxWindows, 0, 0, [], false); r.Fetched? && !r.truncated
  {
    SparseAnswers(api, h);
    SparseWalkFinishes(api, maxWindows, 0, 0, [], PosIn(h), NextIn(h), |h|);
  }

  /** Main result. Over a fixed history without failures, with two windows for every thousand rows, the walk
      ends untruncated if and only if no block holds a thousand transfers: at the deployed thousand windows
      for every history below half a million rows. */
  lemma UntruncatedIffSparse(api: Api, h: seq<Row>, maxWindows: nat)
    requires Sorted(h) && Answers(api, h) && 2 * |h| < PAGE * maxWindows
    ensures var r := Walk(api, maxWindows, 0, 0, [], false); r.Fetched? && (!r.truncated <==> SparseBlocks(h))
  {
    if SparseBlocks(h) {
      SparseIsUntruncated(api, h, maxWindows);
    } else {
      var i: int :| 0 <= i && i + PAGE <= |h| && h[i].blockNumber == h[i + PAGE - 1].blockNumber;
      WalkMeetsDenseBlock(api, h, maxWindows, 0, 0, [], i);
    }
  }

  lemma BeforeUniform(h: seq<Row>, k: int, b: int)
    requires Sorted(h) && h != [] && forall i :: 0 <= i < |h| ==> h[i].blockNumber == Some(k)
    ensures Before(h, b) == if b <= k then 0 else |h|
  {
    BeforeSplits(h, b);
  }

  lemma PagesOfUniform(h: seq<Row>, k: int)
    requires |h| == PAGE && k >= 1 && Sorted(h) && forall i :: 0 <= i < |h| ==> h[i].blockNumber == Some(k)
    ensures PageOf(h, 0) == h && PageOf(h, k) == h && PageOf(h, k + 1) == []
  {
    BeforeUniform(h, k, 0);
    BeforeUniform(h, k, k);
    BeforeUniform(h, k, k + 1);
  }

  lemma FullWindow(api: Api, maxWindows: nat, w: nat, b: int, all: seq<Row>, truncated: bool, batch: seq<Row>, k: int)
    requires w + 1 < maxWindows && api(w, b) == Rows(batch) && |batch| == PAGE
    requires batch[|batch| - 1].blockNumber == Some(k)
    ensures Walk(api, maxWindows, w, b, all, truncated)
         == Walk(api, maxWindows, w + 1, NextStart(b, k), all + batch, truncated || k <= b)
  {
  }

  lemma ShortWindow(api: Api, maxWindows: nat, w: nat, b: int, all: seq<Row>, truncated: bool)
    requires w < maxWindows && api(w, b) == Rows([])
    ensures Walk(api, maxWindows, w, b, all, truncated) == Fetched(all, truncated)
  {
  }

  lemma FlaggedWalk(api: Api, h: seq<Row>, k: int, maxWindows: nat, w: nat, b: int, all: seq<Row>)
    requires |h| == PAGE && b < k && w + 3 <= maxWindows && h[|h| - 1].blockNumber == Some(k)
    requires api(w, b) == Rows(h) && api(w + 1, k) == Rows(h) && api(w + 2, k + 1) == Rows([])
    ensures Walk(api, maxWindows, w, b, all, false) == Fetched(all + h + h, true)
  {
    FullWindow(api, maxWindows, w, b, all, false, h, k);
    FullWindow(api, maxWindows, w + 1, k, all + h, false, h, k);
    ShortWindow(api, maxWindows, w + 2, k + 1, all + h + h, true);
  }

  /** The converse fails: exactly one full page in a single block raises the flag although every row
      was read, and read twice, so the bound of two occurrences is reached. */
  lemma FullBlockFlaggedThoughComplete(api: Api, h: seq<Row>, k: int, maxWindows: nat)
    requires |h| == PAGE && k >= 1 && maxWindows >= 3
    requires Sorted(h) && Answers(api, h) && forall i :: 0 <= i < |h| ==> h[i].blockNumber == Some(k)
    ensures Walk(api, maxWindows, 0, 0, [], false) == Fetched(h + h, true)
  {
    PagesOfUniform(h, k);
    FlaggedWalk(api, h, k, maxWindows, 0, 0, []);
    assert [] + h + h == h + h;
  }
}
