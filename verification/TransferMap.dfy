/** Accumulating the walks of every watched wallet and token into one deduplicating map
    (packages/backend/src/polymarket/trader-funding-fetcher.ts:33-53, 111-183). */
module TransferMap {
  import opened Text
  import opened BlockWalk

  /** The analysis input of one row: its token slug, value and time and, copied from the row, the rest. */
  datatype TransferInput = TransferInput(token: string, valueUsdc: real, timestamp: int, row: Row)

  /** What lies outside: the core package's collateralTokenSlugForAddress, and the reading of a row's value
      and decimals, None where BigInt throws. */
  datatype Reader = Reader(slug: string -> Option<string>, usdc: (string, string) -> Option<real>)

  /** A row is skipped, converted, or its value is malformed and the conversion throws. */
  datatype Conversion = Skipped | Converted(input: TransferInput) | Malformed

  function LogIndexText(row: Row): string { if row.logIndex.Some? then row.logIndex.value else "0" }

  function TransferKey(row: Row): string {
    Lower(row.hash) + ":" + (LogIndexText(row) + ":" + Lower(row.contractAddress))
  }

  function RowToTransferInput(reader: Reader, row: Row): Conversion {
    var token := reader.slug(row.contractAddress);
    if token.None? || token.value == "" then Skipped
    else if row.timeStamp.None? || row.timeStamp.value <= 0 then Skipped
    else
      var usdc := reader.usdc(row.value, row.tokenDecimal);
      if usdc.None? then Malformed else Converted(TransferInput(token.value, usdc.value, row.timeStamp.value, row))
  }

  /** A known token at a known time, said of the row and the reader alone. */
  predicate Relevant(reader: Reader, row: Row) {
    && reader.slug(row.contractAddress).Some? && |reader.slug(row.contractAddress).value| > 0
    && row.timeStamp.Some? && row.timeStamp.value > 0
  }

  predicate Convertible(reader: Reader, row: Row) {
    Relevant(reader, row) && reader.usdc(row.value, row.tokenDecimal).Some?
  }

  /** The row's value throws. */
  predicate Unreadable(reader: Reader, row: Row) {
    Relevant(reader, row) && reader.usdc(row.value, row.tokenDecimal).None?
  }

  /** The input tells that row: its token, its value in USDC, its time, and the row itself. */
  predicate Tells(reader: Reader, row: Row, input: TransferInput) {
    && reader.slug(row.contractAddress) == Some(input.token)
    && reader.usdc(row.value, row.tokenDecimal) == Some(input.valueUsdc)
    && row.timeStamp == Some(input.timestamp) && input.row == row
  }

  /** Which rows are converted, to what, and which throw. */
  lemma ConversionsExactly(reader: Reader, row: Row)
    ensures RowToTransferInput(reader, row).Converted? <==> Convertible(reader, row)
    ensures RowToTransferInput(reader, row).Malformed? <==> Unreadable(reader, row)
    ensures Convertible(reader, row) ==> Tells(reader, row, RowToTransferInput(reader, row).input)
  {
  }

  predicate PlainFields(row: Row) {
    ColonFree(row.hash) && (row.logIndex.Some? ==> ColonFree(row.logIndex.value))
  }

  /** Equal log indexes, where an absent one counts as 0. */
  predicate SameLogIndex(a: Row, b: Row) {
    match (a.logIndex, b.logIndex)
    case (Some(i), Some(j)) => i == j
    case (Some(i), None) => i == "0"
    case (None, Some(j)) => j == "0"
    case (None, None) => true
  }

  /** For colon-free fields, equal keys mean equal transaction, log index (absent counts as 0) and
      contract, up to letter case. */
  lemma KeyIdentifiesLogEntry(a: Row, b: Row)
    requires PlainFields(a) && PlainFields(b)
    ensures TransferKey(a) == TransferKey(b) <==>
      SameUpToCase(a.hash, b.hash) && SameLogIndex(a, b) && SameUpToCase(a.contractAddress, b.contractAddress)
  {
    LowerSame(a.hash, b.hash);
    LowerSame(a.contractAddress, b.contractAddress);
    if TransferKey(a) == TransferKey(b) {
      LowerColonFree(a.hash);
      LowerColonFree(b.hash);
      FirstField(Lower(a.hash), LogIndexText(a) + ":" + Lower(a.contractAddress),
                 Lower(b.hash), LogIndexText(b) + ":" + Lower(b.contractAddress));
      FirstField(LogIndexText(a), Lower(a.contractAddress), LogIndexText(b), Lower(b.contractAddress));
    }
  }

  // ---- the accumulation --------------------------------------------------------------------------

  type Transfers = map<string, TransferInput>

  /** The map after the loop over rows, and whether a malformed row ended it early. */
  datatype Insertion = Insertion(transfers: Transfers, failed: bool)

  function Insert(reader: Reader, m: Transfers, rows: seq<Row>): Insertion {
    if rows == [] then Insertion(m, false)
    else
      var before, row := Insert(reader, m, rows[..|rows| - 1]), rows[|rows| - 1];
      if before.failed then before
      else match RowToTransferInput(reader, row)
        case Skipped => before
        case Converted(input) => Insertion(before.transfers[TransferKey(row) := input], false)
        case Malformed => Insertion(before.transfers, true)
  }

  predicate WellFormed(reader: Reader, rows: seq<Row>) {
    forall r :: r in rows ==> !Unreadable(reader, r)
  }

  lemma WellFormedGrows(reader: Reader, front: seq<Row>, row: Row)
    ensures WellFormed(reader, front + [row]) <==> WellFormed(reader, front) && !Unreadable(reader, row)
  {
    assert row in front + [row] && forall r :: r in front ==> r in front + [row];
  }

  lemma InsertFailureGrows(reader: Reader, m: Transfers, front: seq<Row>, row: Row)
    ensures Insert(reader, m, front + [row]).failed
       <==> Insert(reader, m, front).failed || RowToTransferInput(reader, row).Malformed?
  {
    assert (front + [row])[..|front|] == front;
  }

  lemma {:induction false} InsertFailsIffMalformed(reader: Reader, m: Transfers, rows: seq<Row>)
    ensures Insert(reader, m, rows).failed <==> !WellFormed(reader, rows)
  {
    if rows != [] {
      var front, row := rows[..|rows| - 1], rows[|rows| - 1];
      InsertFailsIffMalformed(reader, m, front);
      assert rows == front + [row];
      InsertFailureGrows(reader, m, front, row);
      WellFormedGrows(reader, front, row);
      ConversionsExactly(reader, row);
    }
  }

  lemma {:induction false} FailureIsFinal(reader: Reader, m: Transfers, rows: seq<Row>, n: nat)
    requires n <= |rows| && Insert(reader, m, rows[..n]).failed
    ensures Insert(reader, m, rows) == Insert(reader, m, rows[..n])
    decreases |rows| - n
  {
    if n == |rows| {
      assert rows[..n] == rows;
    } else {
      assert rows[..n + 1][..n] == rows[..n];
      FailureIsFinal(reader, m, rows, n + 1);
    }
  }

  method InsertRows(reader: Reader, m: Transfers, rows: seq<Row>) returns (r: Insertion)
    ensures r == Insert(reader, m, rows)
  {
    var transferMap := m;
    for i := 0 to |rows|
      invariant Insertion(transferMap, false) == Insert(reader, m, rows[..i])
    {
      assert rows[..i + 1][..i] == rows[..i];
      var conversion := RowToTransferInput(reader, rows[i]);
      match conversion
      case Skipped => continue;
      case Converted(input) => transferMap := transferMap[TransferKey(rows[i]) := input];
      case Malformed =>
        FailureIsFinal(reader, m, rows, i + 1);
        return Insertion(transferMap, true);
    }
    assert rows[..|rows|] == rows;
    r := Insertion(transferMap, false);
  }

  /** One wallet and token contract to be walked. */
  datatype Target = Target(wallet: string, contract: string)

  type Fetch = Target -> WalkResult

  datatype Progress = Progress(transfers: Transfers, completed: nat, truncated: bool, partialFetch: bool,
                               lastError: Option<ErrorCode>, fatal: Option<ErrorCode>)

  const START: Progress := Progress(map[], 0, false, false, None, None)

  predicate IsFatal(code: ErrorCode) { !code.ApiError? }

  function FetchOne(reader: Reader, fetch: Fetch, p: Progress, t: Target): Progress {
    if p.fatal.Some? then p
    else match fetch(t)
      case Fetched(rows, truncated) =>
        var inserted := Insert(reader, p.transfers, rows);
        p.(transfers := inserted.transfers, completed := p.completed + 1, truncated := p.truncated || truncated,
           partialFetch := p.partialFetch || inserted.failed,
           lastError := if inserted.failed then Some(ApiError) else p.lastError)
      case Failed(code) =>
        p.(partialFetch := true, lastError := Some(code), fatal := if IsFatal(code) then Some(code) else None)
  }

  function FetchEach(reader: Reader, fetch: Fetch, p: Progress, targets: seq<Target>): Progress {
    if targets == [] then p
    else FetchOne(reader, fetch, FetchEach(reader, fetch, p, targets[..|targets| - 1]), targets[|targets| - 1])
  }

  function TargetsOf(wallet: string, contracts: seq<string>): (ts: seq<Target>)
    ensures |ts| == |contracts|
  {
    seq(|contracts|, i requires 0 <= i < |contracts| => Target(wallet, contracts[i]))
  }

  /** Every token of every wallet, in the order of the nested loops. */
  function Targets(wallets: seq<string>, contracts: seq<string>): (ts: seq<Target>)
    ensures |ts| == |wallets| * |contracts|
  {
    if wallets == [] then []
    else Targets(wallets[..|wallets| - 1], contracts) + TargetsOf(wallets[|wallets| - 1], contracts)
  }

  datatype Outcome =
    | Funding(transfers: Transfers, truncated: bool, completed: nat, total: nat, partialFetch: bool)
    | Refused(code: ErrorCode)
    | Unexplained   // nothing completed and nothing failed: no target at all

  function OutcomeOf(p: Progress, total: nat): Outcome {
    if p.fatal.Some? then Refused(p.fatal.value)
    else if p.completed == 0 then (if p.lastError.Some? then Refused(p.lastError.value) else Unexplained)
    else Funding(p.transfers, p.truncated || p.completed < total, p.completed, total,
                 p.partialFetch || p.completed < total)
  }

  lemma {:induction false} FetchEachConcat(reader: Reader, fetch: Fetch, p: Progress, a: seq<Target>, b: seq<Target>)
    ensures FetchEach(reader, fetch, p, a + b) == FetchEach(reader, fetch, FetchEach(reader, fetch, p, a), b)
  {
    if b == [] {
      assert a + b == a;
    } else {
      FetchEachConcat(reader, fetch, p, a, b[..|b| - 1]);
      assert (a + b)[..|a + b| - 1] == a + b[..|b| - 1];
    }
  }

  lemma {:induction false} FatalIsFinal(reader: Reader, fetch: Fetch, p: Progress, ts: seq<Target>)
    requires p.fatal.Some?
    ensures FetchEach(reader, fetch, p, ts) == p
  {
    if ts != [] { FatalIsFinal(reader, fetch, p, ts[..|ts| - 1]); }
  }

  /** One token of one wallet: the body of the inner loop. */
  method FetchToken(reader: Reader, fetch: Fetch, t: Target, before: Progress) returns (p: Progress)
    requires before.fatal.None?
    ensures p == FetchOne(reader, fetch, before, t)
  {
    p := before;
    var result := fetch(t);
    match result
    case Fetched(rows, truncated) =>
      p := p.(completed := p.completed + 1);
      if truncated { p := p.(truncated := true); }
      var inserted := InsertRows(reader, p.transfers, rows);
      p := p.(transfers := inserted.transfers);
      if inserted.failed { p := p.(lastError := Some(ApiError), partialFetch := true); }
    case Failed(code) =>
      p := p.(lastError := Some(code), partialFetch := true);
      if IsFatal(code) { p := p.(fatal := Some(code)); }
  }

  /** The tokens of one wallet, with the early return on a fatal error. */
  method FetchWallet(reader: Reader, fetch: Fetch, wallet: string, contracts: seq<string>, before: Progress)
    returns (p: Progress)
    requires before.fatal.None?
    ensures p == FetchEach(reader, fetch, before, TargetsOf(wallet, contracts))
  {
    p := before;
    var ts := TargetsOf(wallet, contracts);
    for j := 0 to |contracts|
      invariant p == FetchEach(reader, fetch, before, ts[..j]) && p.fatal.None?
    {
      assert ts[..j + 1][..j] == ts[..j];
      p := FetchToken(reader, fetch, ts[j], p);
      if p.fatal.Some? {
        FatalIsFinal(reader, fetch, p, ts[j + 1..]);
        FetchEachConcat(reader, fetch, before, ts[..j + 1], ts[j + 1..]);
        assert ts == ts[..j + 1] + ts[j + 1..];
        return;
      }
    }
    assert ts[..|ts|] == ts;
  }

  lemma {:induction false} RestAfterFatal(reader: Reader, fetch: Fetch, p: Progress, wallets: seq<string>,
                                          contracts: seq<string>, n: nat)
    requires n <= |wallets| && p.fatal.Some?
    requires p == FetchEach(reader, fetch, START, Targets(wallets[..n], contracts))
    ensures p == FetchEach(reader, fetch, START, Targets(wallets, contracts))
    decreases |wallets| - n
  {
    if n == |wallets| {
      assert wallets[..n] == wallets;
    } else {
      assert wallets[..n + 1][..n] == wallets[..n];
      var more := TargetsOf(wallets[n], contracts);
      FetchEachConcat(reader, fetch, START, Targets(wallets[..n], contracts), more);
      FatalIsFinal(reader, fetch, p, more);
      RestAfterFatal(reader, fetch, p, wallets, contracts, n + 1);
    }
  }

  method FetchFunding(reader: Reader, fetch: Fetch, wallets: seq<string>, contracts: seq<string>) returns (r: Outcome)
    ensures r == OutcomeOf(FetchEach(reader, fetch, START, Targets(wallets, contracts)), |wallets| * |contracts|)
  {
    var p := START;
    for i := 0 to |wallets|
      invariant p == FetchEach(reader, fetch, START, Targets(wallets[..i], contracts)) && p.fatal.None?
    {
      assert wallets[..i + 1][..i] == wallets[..i];
      FetchEachConcat(reader, fetch, START, Targets(wallets[..i], contracts), TargetsOf(wallets[i], contracts));
      p := FetchWallet(reader, fetch, wallets[i], contracts, p);
      if p.fatal.Some? {
        RestAfterFatal(reader, fetch, p, wallets, contracts, i + 1);
        return Refused(p.fatal.value);
      }
    }
    assert wallets[..|wallets|] == wallets;
    r := OutcomeOf(p, |wallets| * |contracts|);
  }

  // ---- what the map holds ---------------------------------------------------------------------------

  /** The row is in the map under its own key, with its token, value and time. */
  predicate Maps(reader: Reader, m: Transfers, row: Row) {
    TransferKey(row) in m && Tells(reader, row, m[TransferKey(row)])
  }

  /** The map holds exactly the convertible rows of `seen`, each under its own key. */
  ghost predicate Holds(reader: Reader, m: Transfers, seen: set<Row>) {
    && (forall r :: r in seen && Convertible(reader, r) ==> Maps(reader, m, r))
    && (forall k :: k in m ==> exists r :: r in seen && Convertible(reader, r) && TransferKey(r) == k)
  }

  ghost predicate InjectiveKeys(rows: set<Row>) {
    forall a, b :: a in rows && b in rows && TransferKey(a) == TransferKey(b) ==> a == b
  }

  lemma InsertOneHolds(reader: Reader, before: Transfers, row: Row, was: set<Row>, chain: set<Row>)
    requires Holds(reader, before, was) && InjectiveKeys(chain) && was <= chain && row in chain
    ensures var c := RowToTransferInput(reader, row);
            Holds(reader, if c.Converted? then before[TransferKey(row) := c.input] else before, was + {row})
  {
  }

  ghost function SetOf(rows: seq<Row>): set<Row> { set r | r in rows }

  lemma SetOfSnoc(front: seq<Row>, row: Row)
    ensures SetOf(front + [row]) == SetOf(front) + {row}
  {
  }

  lemma InsertSnocHolds(reader: Reader, m: Transfers, front: seq<Row>, row: Row, was: set<Row>, chain: set<Row>)
    requires Holds(reader, Insert(reader, m, front).transfers, was) && !Insert(reader, m, front).failed
    requires InjectiveKeys(chain) && was <= chain && row in chain
    ensures Holds(reader, Insert(reader, m, front + [row]).transfers, was + {row})
  {
    assert (front + [row])[..|front|] == front;
    InsertOneHolds(reader, Insert(reader, m, front).transfers, row, was, chain);
  }

  lemma {:induction false} InsertHolds(reader: Reader, m: Transfers, rows: seq<Row>, seen: set<Row>, chain: set<Row>)
    requires Holds(reader, m, seen) && InjectiveKeys(chain) && !Insert(reader, m, rows).failed
    requires seen + SetOf(rows) <= chain
    ensures Holds(reader, Insert(reader, m, rows).transfers, seen + SetOf(rows))
  {
    if rows == [] {
      assert seen + SetOf(rows) == seen;
    } else {
      var front, row := rows[..|rows| - 1], rows[|rows| - 1];
      assert rows == front + [row];
      SetOfSnoc(front, row);
      assert seen + SetOf(rows) == seen + SetOf(front) + {row};
      InsertHolds(reader, m, front, seen, chain);
      InsertSnocHolds(reader, m, front, row, seen + SetOf(front), chain);
    }
  }

  ghost function RowsOf(fetch: Fetch, t: Target): set<Row> {
    if fetch(t).Fetched? then SetOf(fetch(t).rows) else {}
  }

  ghost function AllRows(fetch: Fetch, targets: seq<Target>): set<Row> {
    if targets == [] then {}
    else AllRows(fetch, targets[..|targets| - 1]) + RowsOf(fetch, targets[|targets| - 1])
  }

  /** How many rows come before the first malformed one. */
  function Readable(reader: Reader, rows: seq<Row>): (k: nat)
    ensures k <= |rows| && WellFormed(reader, rows[..k])
    ensures k < |rows| ==> Unreadable(reader, rows[k])
  {
    if rows == [] || Unreadable(reader, rows[0]) then 0
    else
      var k := 1 + Readable(reader, rows[1..]);
      assert rows[..k] == [rows[0]] + rows[1..][..k - 1];
      k
  }

  /** The rows of a walk that the loop reads. */
  function ReadPart(reader: Reader, rows: seq<Row>): seq<Row> { rows[..Readable(reader, rows)] }

  lemma ReadsAllIffWellFormed(reader: Reader, rows: seq<Row>)
    ensures ReadPart(reader, rows) == rows <==> WellFormed(reader, rows)
  {
    var k := Readable(reader, rows);
    assert rows[..|rows|] == rows;
    if k < |rows| { assert rows[k] in rows; }
  }

  /** The loop inserts the readable part, and fails if and only if that is not all. */
  lemma InsertReads(reader: Reader, m: Transfers, rows: seq<Row>)
    ensures !Insert(reader, m, ReadPart(reader, rows)).failed
    ensures Insert(reader, m, rows)
         == Insertion(Insert(reader, m, ReadPart(reader, rows)).transfers, |ReadPart(reader, rows)| < |rows|)
  {
    var k := Readable(reader, rows);
    InsertFailsIffMalformed(reader, m, rows[..k]);
    if k == |rows| {
      assert rows[..k] == rows;
    } else {
      assert rows[..k + 1][..k] == rows[..k];
      FailureIsFinal(reader, m, rows, k + 1);
    }
  }

  /** What was read of one target, and of all of them. */
  ghost function ReadOf(reader: Reader, fetch: Fetch, t: Target): set<Row> {
    if fetch(t).Fetched? then SetOf(ReadPart(reader, fetch(t).rows)) else {}
  }

  ghost function ReadRows(reader: Reader, fetch: Fetch, targets: seq<Target>): set<Row> {
    if targets == [] then {}
    else ReadRows(reader, fetch, targets[..|targets| - 1]) + ReadOf(reader, fetch, targets[|targets| - 1])
  }

  lemma {:induction false} ReadRowsIff(reader: Reader, fetch: Fetch, targets: seq<Target>, row: Row)
    ensures row in ReadRows(reader, fetch, targets) <==> exists t :: t in targets && row in ReadOf(reader, fetch, t)
  {
    if targets != [] {
      var front, last := targets[..|targets| - 1], targets[|targets| - 1];
      ReadRowsIff(reader, fetch, front, row);
      assert targets == front + [last] && last in targets;
      assert forall t :: t in targets <==> t in front || t == last;
    }
  }

  lemma {:induction false} ReadRowsAreFetched(reader: Reader, fetch: Fetch, targets: seq<Target>)
    ensures ReadRows(reader, fetch, targets) <= AllRows(fetch, targets)
  {
    if targets != [] { ReadRowsAreFetched(reader, fetch, targets[..|targets| - 1]); }
  }

  lemma {:induction false} FetchEachHolds(reader: Reader, fetch: Fetch, targets: seq<Target>, chain: set<Row>)
    requires InjectiveKeys(chain) && ReadRows(reader, fetch, targets) <= chain
    ensures var p := FetchEach(reader, fetch, START, targets);
            p.fatal.None? ==> Holds(reader, p.transfers, ReadRows(reader, fetch, targets))
  {
    if targets != [] {
      var front, t := targets[..|targets| - 1], targets[|targets| - 1];
      FetchEachHolds(reader, fetch, front, chain);
      var before, was := FetchEach(reader, fetch, START, front), ReadRows(reader, fetch, front);
      if before.fatal.None? {
        if fetch(t).Fetched? {
          var rows := fetch(t).rows;
          InsertReads(reader, before.transfers, rows);
          InsertHolds(reader, before.transfers, ReadPart(reader, rows), was, chain);
        } else {
          assert was + {} == was;
        }
      }
    }
  }

  lemma {:induction false} KeysCount(rows: set<Row>, keys: set<string>)
    requires InjectiveKeys(rows)
    requires forall r :: r in rows ==> TransferKey(r) in keys
    requires forall k :: k in keys ==> exists r :: r in rows && TransferKey(r) == k
    ensures |rows| == |keys|
  {
    if rows == {} {
      assert keys == {};
    } else {
      var r :| r in rows;
      var rest, others := rows - {r}, keys - {TransferKey(r)};
      forall k | k in others ensures exists q :: q in rest && TransferKey(q) == k {
        var q :| q in rows && TransferKey(q) == k;
        assert q in rest;
      }
      KeysCount(rest, others);
      assert |rows| == |rest| + 1 && |keys| == |others| + 1;
    }
  }

  lemma EntriesMatchRows(reader: Reader, m: Transfers, seen: set<Row>)
    requires Holds(reader, m, seen) && InjectiveKeys(seen)
    ensures |m| == |set r | r in seen && Convertible(reader, r)|
  {
    var rows := set r | r in seen && Convertible(reader, r);
    KeysCount(rows, m.Keys);
    assert |m| == |m.Keys|;
  }

  /** Main result. Whatever the flags say, if keys are injective on the rows read and no fetch failed fatally, the
      map has exactly one entry per convertible row that was read: per row before the first malformed one of some
      walk. */
  lemma MapHoldsWhatWasRead(reader: Reader, fetch: Fetch, targets: seq<Target>)
    requires InjectiveKeys(ReadRows(reader, fetch, targets))
    ensures var p, read := FetchEach(reader, fetch, START, targets), ReadRows(reader, fetch, targets);
            p.fatal.None? ==>
              Holds(reader, p.transfers, read) && |p.transfers| == |set r | r in read && Convertible(reader, r)|
  {
    var p, read := FetchEach(reader, fetch, START, targets), ReadRows(reader, fetch, targets);
    FetchEachHolds(reader, fetch, targets, read);
    if p.fatal.None? { EntriesMatchRows(reader, p.transfers, read); }
  }

  /** Main result. If keys are injective on the rows fetched and no fetch failed fatally, a convertible row that was
      fetched is missing from the map if and only if every walk that returned it has a malformed row before it. */
  lemma MappedIffRead(reader: Reader, fetch: Fetch, targets: seq<Target>, row: Row)
    requires InjectiveKeys(AllRows(fetch, targets)) && row in AllRows(fetch, targets) && Convertible(reader, row)
    requires FetchEach(reader, fetch, START, targets).fatal.None?
    ensures var m := FetchEach(reader, fetch, START, targets).transfers;
            && (TransferKey(row) in m <==> exists t :: t in targets && row in ReadOf(reader, fetch, t))
            && (TransferKey(row) in m ==> Maps(reader, m, row))
  {
    ReadRowsAreFetched(reader, fetch, targets);
    MapHoldsWhatWasRead(reader, fetch, targets);
    ReadRowsIff(reader, fetch, targets, row);
  }

  /** Every walk ended, none was truncated, and no row it returned is malformed. */
  predicate AllRead(reader: Reader, fetch: Fetch, targets: seq<Target>) {
    forall t :: t in targets ==> fetch(t).Fetched? && !fetch(t).truncated && WellFormed(reader, fetch(t).rows)
  }

  lemma {:induction false} AllReadReadsAll(reader: Reader, fetch: Fetch, targets: seq<Target>)
    requires AllRead(reader, fetch, targets)
    ensures ReadRows(reader, fetch, targets) == AllRows(fetch, targets)
  {
    if targets != [] {
      var front, t := targets[..|targets| - 1], targets[|targets| - 1];
      assert targets == front + [t] && t in targets;
      AllReadReadsAll(reader, fetch, front);
      ReadsAllIffWellFormed(reader, fetch(t).rows);
    }
  }

  predicate Unflagged(p: Progress, total: nat) {
    p.fatal.None? && p.completed == total && !p.truncated && !p.partialFetch
  }

  /** The two flags of a result together are honest: neither is raised if and only if every walk ended
      untruncated and every row it returned could be read. */
  lemma {:induction false} FlagsAreHonest(reader: Reader, fetch: Fetch, targets: seq<Target>)
    ensures var p := FetchEach(reader, fetch, START, targets);
            && p.completed <= |targets|
            && (Unflagged(p, |targets|) <==> AllRead(reader, fetch, targets))
  {
    if targets != [] {
      var front, t := targets[..|targets| - 1], targets[|targets| - 1];
      FlagsAreHonest(reader, fetch, front);
      assert targets == front + [t] && t in targets;
      var before := FetchEach(reader, fetch, START, front);
      if fetch(t).Fetched? { InsertFailsIffMalformed(reader, before.transfers, fetch(t).rows); }
    }
  }

  // ---- what the outcome says -----------------------------------------------------------------------

  /** The first of the errors that end the whole fetch. */
  function FirstFatal(fetch: Fetch, targets: seq<Target>): Option<ErrorCode> {
    if targets == [] then None
    else
      var before := FirstFatal(fetch, targets[..|targets| - 1]);
      match fetch(targets[|targets| - 1])
      case Failed(code) =>
        if before.None? && code in {MissingApiKey, InvalidApiKey, RateLimit} then Some(code) else before
      case Fetched(_, _) => before
  }

  /** The last error met, where a row that cannot be read is an error of the API. */
  function LastError(reader: Reader, fetch: Fetch, targets: seq<Target>): Option<ErrorCode> {
    if targets == [] then None
    else match fetch(targets[|targets| - 1])
      case Failed(code) => Some(code)
      case Fetched(rows, _) =>
        if WellFormed(reader, rows) then LastError(reader, fetch, targets[..|targets| - 1]) else Some(ApiError)
  }

  /** How many walks ended. */
  function Ended(fetch: Fetch, targets: seq<Target>): (n: nat)
    ensures n <= |targets|
  {
    if targets == [] then 0
    else Ended(fetch, targets[..|targets| - 1]) + if fetch(targets[|targets| - 1]).Fetched? then 1 else 0
  }

  predicate TruncatedOne(fetch: Fetch, t: Target) { fetch(t).Fetched? && fetch(t).truncated }

  predicate FailedOne(reader: Reader, fetch: Fetch, t: Target) {
    fetch(t).Failed? || !WellFormed(reader, fetch(t).rows)
  }

  predicate AnyTruncated(fetch: Fetch, targets: seq<Target>) { exists t :: t in targets && TruncatedOne(fetch, t) }

  predicate AnyFailed(reader: Reader, fetch: Fetch, targets: seq<Target>) {
    exists t :: t in targets && FailedOne(reader, fetch, t)
  }

  lemma AnyGrows(reader: Reader, fetch: Fetch, front: seq<Target>, t: Target)
    ensures AnyTruncated(fetch, front + [t]) <==> AnyTruncated(fetch, front) || TruncatedOne(fetch, t)
    ensures AnyFailed(reader, fetch, front + [t]) <==> AnyFailed(reader, fetch, front) || FailedOne(reader, fetch, t)
  {
    assert t in front + [t] && forall u :: u in front ==> u in front + [t];
  }

  /** The counters, flags and errors after fetching the targets, while no error was fatal. */
  predicate Reports(reader: Reader, fetch: Fetch, targets: seq<Target>, p: Progress) {
    && p.fatal == FirstFatal(fetch, targets)
    && (p.fatal.None? ==>
          && p.completed == Ended(fetch, targets) && p.lastError == LastError(reader, fetch, targets)
          && (p.truncated <==> AnyTruncated(fetch, targets)) && (p.partialFetch <==> AnyFailed(reader, fetch, targets)))
  }

  lemma ReportsOneMore(reader: Reader, fetch: Fetch, front: seq<Target>, t: Target, p: Progress)
    requires Reports(reader, fetch, front, p)
    ensures Reports(reader, fetch, front + [t], FetchOne(reader, fetch, p, t))
  {
    assert (front + [t])[..|front|] == front;
    AnyGrows(reader, fetch, front, t);
    if fetch(t).Fetched? { InsertFailsIffMalformed(reader, p.transfers, fetch(t).rows); }
  }

  lemma {:induction false} FetchEachReports(reader: Reader, fetch: Fetch, targets: seq<Target>)
    ensures Reports(reader, fetch, targets, FetchEach(reader, fetch, START, targets))
  {
    if targets != [] {
      var front, t := targets[..|targets| - 1], targets[|targets| - 1];
      assert targets == front + [t];
      FetchEachReports(reader, fetch, front);
      ReportsOneMore(reader, fetch, front, t, FetchEach(reader, fetch, START, front));
    }
  }

  lemma {:induction false} NoneEnded(reader: Reader, fetch: Fetch, targets: seq<Target>)
    ensures Ended(fetch, targets) == 0 && targets != [] ==> LastError(reader, fetch, targets).Some?
    ensures Ended(fetch, targets) < |targets| ==> AnyFailed(reader, fetch, targets)
  {
    if targets != [] {
      var front, t := targets[..|targets| - 1], targets[|targets| - 1];
      assert targets == front + [t];
      NoneEnded(reader, fetch, front);
      AnyGrows(reader, fetch, front, t);
    }
  }

  /** Main result. The first fatal error refuses the whole fetch; otherwise, if no walk ended, the last error does;
      otherwise there is an analysis with the number of walks that ended, truncated if and only if one of them was or
      not all ended, and partial if and only if a walk failed or has a row that cannot be read. */
  lemma OutcomeExactly(reader: Reader, fetch: Fetch, wallets: seq<string>, contracts: seq<string>)
    ensures var ts, total := Targets(wallets, contracts), |wallets| * |contracts|;
      var r := OutcomeOf(FetchEach(reader, fetch, START, ts), total);
      if FirstFatal(fetch, ts).Some? then r == Refused(FirstFatal(fetch, ts).value)
      else if total == 0 then r == Unexplained
      else if Ended(fetch, ts) == 0 then
        LastError(reader, fetch, ts).Some? && r == Refused(LastError(reader, fetch, ts).value)
      else
        && r.Funding? && r.completed == Ended(fetch, ts) && r.total == total
        && (r.truncated <==> AnyTruncated(fetch, ts) || Ended(fetch, ts) < total)
        && (r.partialFetch <==> AnyFailed(reader, fetch, ts))
  {
    FetchEachReports(reader, fetch, Targets(wallets, contracts));
    NoneEnded(reader, fetch, Targets(wallets, contracts));
  }

  /** The outcome carries an analysis flagged neither as truncated nor as partial. */
  predicate ClaimsComplete(reader: Reader, fetch: Fetch, wallets: seq<string>, contracts: seq<string>) {
    var r := OutcomeOf(FetchEach(reader, fetch, START, Targets(wallets, contracts)), |wallets| * |contracts|);
    r.Funding? && !r.truncated && !r.partialFetch
  }

  /** Main result. If the outcome is flagged neither truncated nor partial and keys are injective on
      the rows fetched, the map has exactly one entry per convertible row, however often and through however many
      watched wallets that row was fetched. */
  lemma OneEntryPerTransfer(reader: Reader, fetch: Fetch, wallets: seq<string>, contracts: seq<string>)
    requires ClaimsComplete(reader, fetch, wallets, contracts)
    requires InjectiveKeys(AllRows(fetch, Targets(wallets, contracts)))
    ensures var ts := Targets(wallets, contracts);
            var m := FetchEach(reader, fetch, START, ts).transfers;
            && AllRead(reader, fetch, ts)
            && Holds(reader, m, AllRows(fetch, ts))
            && |m| == |set r | r in AllRows(fetch, ts) && Convertible(reader, r)|
  {
    var ts := Targets(wallets, contracts);
    FlagsAreHonest(reader, fetch, ts);
    AllReadReadsAll(reader, fetch, ts);
    MapHoldsWhatWasRead(reader, fetch, ts);
  }

  lemma {:induction false} FetchedRowsAreAll(fetch: Fetch, targets: seq<Target>, t: Target)
    requires t in targets
    ensures RowsOf(fetch, t) <= AllRows(fetch, targets)
  {
    var front := targets[..|targets| - 1];
    if t != targets[|targets| - 1] {
      FetchedRowsAreAll(fetch, front, t);
    }
  }

  /** Main result, end to end. When a target is read by the block-range walk of an honest API over a
      growing history and the outcome is flagged neither truncated nor partial, every convertible transfer the
      history held at that target's last query is in the map under its own key. */
  lemma EveryTransferIsMapped(reader: Reader, fetch: Fetch, wallets: seq<string>, contracts: seq<string>,
                              t: Target, api: Api, hist: nat -> seq<Row>, row: Row)
    requires ClaimsComplete(reader, fetch, wallets, contracts)
    requires InjectiveKeys(AllRows(fetch, Targets(wallets, contracts)))
    requires t in Targets(wallets, contracts)
    requires Grows(hist) && Honest(api, hist)
    requires fetch(t) == Walk(api, MAX_WINDOWS, 0, 0, [], false)
    requires row in hist(LastQuery(api, MAX_WINDOWS, 0, 0)) && Convertible(reader, row)
    ensures Maps(reader, FetchEach(reader, fetch, START, Targets(wallets, contracts)).transfers, row)
  {
    OneEntryPerTransfer(reader, fetch, wallets, contracts);
    UntruncatedIsComplete(api, hist, MAX_WINDOWS, row);
    FetchedRowsAreAll(fetch, Targets(wallets, contracts), t);
    assert row in RowsOf(fetch, t);
  }

  /** Injectivity is a real demand: without a log index, two transfers of one token in one transaction
      share a key, and the map keeps only the second. */
  lemma MissingLogIndexCollides(reader: Reader, a: Row)
    requires Convertible(reader, a) && a.logIndex == None && a.from != a.to
    ensures var b := a.(from := a.to, to := a.from);
            && a != b && Convertible(reader, b)
            && var m := Insert(reader, map[], [a, b]).transfers; |m| == 1 && Maps(reader, m, b)
  {
    var b := a.(from := a.to, to := a.from);
    assert [a, b][..1] == [a] && [a][..0] == [];
    assert TransferKey(a) == TransferKey(b);
    assert Insert(reader, map[], [a]) == Insertion(map[TransferKey(a) := RowToTransferInput(reader, a).input], false);
    assert Insert(reader, map[], [a, b]).transfers == map[TransferKey(b) := RowToTransferInput(reader, b).input];
  }

  /** The truncated flag alone is not honest: a malformed value ends the loop over its walk's rows, which
      counts as completed. The rows behind it are missing, and only partialFetch says so. */
  lemma MalformedRowHidesTheNext(reader: Reader, wallet: string, contract: string, bad: Row, good: Row)
    requires Unreadable(reader, bad) && Convertible(reader, good)
    ensures var p := FetchEach(reader, _ => Fetched([bad, good], false), START, Targets([wallet], [contract]));
            OutcomeOf(p, 1) == Funding(map[], false, 1, 1, true)
  {
    var fetch: Fetch := _ => Fetched([bad, good], false);
    var t := Target(wallet, contract);
    assert [bad, good][..1] == [bad] && [bad][..0] == [];
    assert Insert(reader, map[], [bad]) == Insertion(map[], true);
    assert Insert(reader, map[], [bad, good]) == Insertion(map[], true);
    assert Targets([], [contract]) == [] && [wallet][..0] == [];
    assert Targets([wallet], [contract]) == [t] && [t][..0] == [];
    assert FetchEach(reader, fetch, START, [t]) == FetchOne(reader, fetch, START, t);
  }
}
