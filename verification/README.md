# Verified models of Polywatch's stateful core

Dafny models of the parts of Polywatch where one step's mistake only shows many steps later: the audit
tool's cash replay, the relayer's idempotency protocol and the store it runs on, the transfer walk that
feeds trader funding, the crypto price feed with its debounce and history, bridge quoting, and the small
asynchronous state machines around them. Each model keeps the code's branches, constants and error paths;
the main lemmas speak about every log, every run or every interleaving.

`dafny verify dfyconfig.toml` checks everything. There is one module per source component, in the file of
the same name:

- `Text` - decimal numerals, lower case, colon-separated fields, shared by the keys and the printer.
- `Ledger`, `LedgerLaws`, `LedgerCash`, `LedgerReport` - the cash replay, its laws, the same told in plain sums,
  and the report's equity figures.
- `MockRedis`, `JobQueue`, `JobQueueOrder` - the expiring store and in-place lists of the mock, the reliable queue
  on them, and where its jobs go in which order.
- `Relayer`, `RelayerAnswers` - withdrawals and wraps as interleaved calls over one expiring store, and what their
  callers are answered.
- `BlockWalk`, `TransferMap` - the capped-page walk and the deduplicating map built from many walks.
- `MidHistory`, `PriceFeed`, `PriceFeedRuns`, `PriceFeedBooks` - the mid buffer and curve gate, the feed, the feed's
  runs, and what it shows of an asset after one.
- `TokenAmount`, `BridgeQuote` - the amount printer and the quote loop.
- `PositionCache`, `LogPipes`, `PercentPublisher`, `PostEntryTimers` - the small state machines.

Objects whose methods update fields are classes. Each such method is proved equal to a step on values
(`View()` before and after), and whole runs of those steps are what the lemmas are about. Money and prices
are `real`, token base units `int`, time `int` milliseconds. The clock, the network, the database and the
exchange appear as parameters or as events that may happen at any point.

## What the models show about the code

- **Cash replay.** Cash is conserved if and only if nothing is oversold: the quantity is clamped at zero
  (`audit-sim-db.ts:435`) while the credit is not, so each oversell of known basis adds entry price times the
  excess. The reported difference between equity and economic profit is not zero in general: it is exactly
  the profit realized by partial sells of positions not yet closed.
- **Price feed.** `DEFAULT_DEBOUNCE_MS` is described as the minimum time between evaluations
  (`price-feed.ts:13-17`). It fails in exactly two ways, which `MinimumGapIff` states: an immediate evaluation
  leaves an earlier timer armed, and dropping a condition forgets its last evaluation (`price-feed.ts:244`), so that
  the next update after a re-subscription is evaluated at once. Only the second can put three evaluations into a
  window of D (`RateBoundIff`); the latency bound 2D holds in every timely run. The two index maps stay inverse
  exactly as long as a re-subscription neither loses a token nor takes another condition's, whatever the clock and
  the timers do.
- **Transfer walk.** The flag of a walk is honest: without it nothing is missing. It is raised exactly when some
  block holds a thousand transfers (given enough windows and no failure), sometimes although everything was read.
- **Funding map.** The `truncated` flag of the analysis is not honest alone: a row whose value cannot be read ends
  the loop over its walk's rows after the walk was counted as completed (`trader-funding-fetcher.ts:129-138`), so
  only `partialFetch` tells. What is missing is exactly what every walk has behind an unreadable row. Without log
  indexes, two transfers of one token in one transaction share a key.
- **Relayer.** Exclusion and no double submission rest on each holder finishing within the 300 s TTL; a key gets two
  holders only through one that overruns, and then both can submit. Provenance of returned hashes needs no timing.
- **Job queue.** A job is lost exactly when the process dies between taking it off one list and pushing it
  on the next (`redis-queue.ts:154-173`, `redis-queue.ts:183-185`). Jobs are appended to and taken from the same end
  (`redis-queue.ts:57`, `redis-queue.ts:135`), so the newest is handled first, a failed job is taken again at once,
  and a job put back after a crash is taken last. Dead letters are replayed in order.
- **Bridge quotes.** After eight misses the returned amount is one more correction of the amount last quoted. It is
  that amount itself exactly when the correction changes nothing, as when the minimum pays more than 102% of the
  target; otherwise it differs from it. A retry doubles the amount asked for, and the loop
  returns the amount before doubling.
- **Log pipes.** `flush` keeps the remainders, so a second one repeats unfinished lines.

## Model

| member | source | states |
|---|---|---|
| `Ledger.ReplayExecutions` | tools/audit-sim-db/audit-sim-db.ts:380-438 | The replay loop over the whole execution log ends with exactly the cash of the log and with exactly the positions that were bought, each with its own weighted basis, whatever the interleaving |
| `Ledger.StepConserves` | tools/audit-sim-db/audit-sim-db.ts:61-87 | One execution moves cash by realized profit minus the change in locked capital, plus the entry value of whatever was sold beyond the holding |
| `Ledger.PositionConservation` | tools/audit-sim-db/audit-sim-db.ts:392-438 | For every log with positive buys of a position, its sell credits minus buy debits are its realized profit minus entryPrice times quantity and remaining fees, plus its oversold value |
| `Ledger.NetCashSplitsByPosition` | tools/audit-sim-db/audit-sim-db.ts:389-438 | The single running cash delta is the sum of the per-position cash flows |
| `Ledger.CashConservation` | tools/audit-sim-db/audit-sim-db.ts:392-438 | Cash delta = total realized profit − total locked capital + total oversold value, over every log and any list of position ids that covers it |
| `Ledger.LeakSign` | tools/audit-sim-db/audit-sim-db.ts:433-436 | With positive prices the oversold term is never negative and is zero exactly when the position was never oversold |
| `Ledger.ConservationExactlyWithoutOversell` | tools/audit-sim-db/audit-sim-db.ts:392-438 | The conservation law holds without an error term if and only if no sell exceeds the remaining quantity of a known position |
| `LedgerLaws.ConcatEffect` | tools/audit-sim-db/audit-sim-db.ts:392-438 | Replaying two stretches one after the other is replaying their concatenation, for basis, realized profit and cash |
| `LedgerLaws.SplitSell` | tools/audit-sim-db/audit-sim-db.ts:413-436 | Splitting a sell within the holding into any number of fills at its price with additive quantities and exit fees gives the same basis, realized profit and cash, from any basis |
| `LedgerLaws.SplitSellInLog` | tools/audit-sim-db/audit-sim-db.ts:413-436 | The same inside any log, seen by any position |
| `LedgerLaws.BuysSwap` | tools/audit-sim-db/audit-sim-db.ts:397-412 | Two buys give the same weighted price, fees and quantity in either order |
| `LedgerLaws.BuysCommute` | tools/audit-sim-db/audit-sim-db.ts:397-412 | Any permutation of a stretch of buys, of any positions, has the same effect from any basis |
| `LedgerLaws.BuysCommuteInLog` | tools/audit-sim-db/audit-sim-db.ts:397-412 | The same inside any log, for every position whose earlier buys are positive |
| `LedgerLaws.BasisBounds` | tools/audit-sim-db/audit-sim-db.ts:397-437 | Along every legal log remaining fees are non-negative, zero once the quantity is zero, and the entry price stays between the lowest and highest buy price |
| `LedgerLaws.FlatPositionPnl` | tools/audit-sim-db/audit-sim-db.ts:61-87 | In every log with positive buys of a position that was never oversold, once the position is flat its realized profit is its sell credits minus its buy debits |
| `LedgerCash.CashIsTurnoverLessFees` | tools/audit-sim-db/audit-sim-db.ts:53-87 | Over every log the cash delta is what was sold for, less what was paid, less the fees charged: those of buys and of sells that are no redemption, told without the settlement |
| `LedgerCash.PositionCashIsTurnoverLessFees` | tools/audit-sim-db/audit-sim-db.ts:392-438 | The same for each position of an interleaved log |
| `LedgerCash.FeesLowerTheCredit` | tools/audit-sim-db/audit-sim-db.ts:75-85 | A sell's fees lower its cash credit one for one, and a redemption's do not count |
| `LedgerCash.HeldIsBoughtLessSold` | tools/audit-sim-db/audit-sim-db.ts:397-436 | While a position is never sold beyond what was bought, the replay holds exactly what was bought and not sold, and knows the position exactly when it was bought |
| `LedgerCash.SoldOutRealizes` | tools/audit-sim-db/audit-sim-db.ts:61-87 | Once all that was bought is sold, whatever the fills, the realized profit is turnover less fees charged |
| `LedgerCash.BuyThenSell` | tools/audit-sim-db/audit-sim-db.ts:75-85 | A buy of q and a sell of q realize q times the price difference less the entry fee and, unless redeemed, the exit fee |
| `LedgerCash.FeesFollowQuantity` | tools/audit-sim-db/audit-sim-db.ts:70-74 | However a holding is sold off, the entry fees not yet allocated stay in proportion to the quantity left, and the entry price stays |
| `LedgerReport.MarkPositions` | tools/audit-sim-db/audit-sim-db.ts:352-376 | The marking loop over the position rows values exactly the open-like rows and records one detail each, in order |
| `LedgerReport.EquityFigures` | tools/audit-sim-db/audit-sim-db.ts:378-458 | Equity, inferred initial capital, closed realized sum, economic unrealized (through the look-up by id) and their difference, as sums over the rows |
| `LedgerReport.DetailOfRow` | tools/audit-sim-db/audit-sim-db.ts:450-457 | With distinct ids, the look-up by id finds each open-like row's own value |
| `LedgerReport.DetailsInOrder` | tools/audit-sim-db/audit-sim-db.ts:352-376 | The details of two stretches of rows stand one after the other |
| `LedgerReport.DetailsOfOne` | tools/audit-sim-db/audit-sim-db.ts:352-376 | One row yields its id and marked value exactly if its status is open, closing or pending_resolution |
| `LedgerReport.EquityIdentity` | tools/audit-sim-db/audit-sim-db.ts:440-458 | For every log and all marks, equity = inferred initial + all realized + economic unrealized + oversold; and the reported difference is exactly the profit realized on positions not yet closed plus the oversold value |
| `LedgerReport.EquityWithoutOversell` | tools/audit-sim-db/audit-sim-db.ts:533-534 | Without oversells the reported difference is zero if and only if the positions not closed have realized nothing net |
| `LedgerReport.PartialSellShowsAsDifference` | tools/audit-sim-db/audit-sim-db.ts:533-534 | A concrete legal log whose reported difference is 5, whatever the stored cash and the marks: half of an open position sold at a profit |
| `MockRedis.RemoveFirstCut` | e2e/crypto-algo/helpers/redis-mock.ts:147-161 | Removing the first n matches empties a prefix of matches and leaves everything behind it as it was; the number removed is the smaller of n and the matches |
| `MockRedis.RemoveLastCut` | e2e/crypto-algo/helpers/redis-mock.ts:147-161 | Removing the last n matches does the same to a suffix |
| `MockRedis.RemoveFirstKeepsOthers` | e2e/crypto-algo/helpers/redis-mock.ts:147-161 | All other elements stay, in order, and exactly the counted matches go |
| `MockRedis.RemoveLastKeepsOthers` | e2e/crypto-algo/helpers/redis-mock.ts:147-161 | The same from the back |
| `MockRedis.RemoveOneMultiset` | e2e/crypto-algo/helpers/redis-mock.ts:135-164 | A removal of one present value takes exactly one occurrence out of the multiset |
| `MockRedis.RemoveAll` | e2e/crypto-algo/helpers/redis-mock.ts:139-145 | The backward splice loop leaves exactly the non-matching elements in order and counts the matches |
| `MockRedis.RemoveSome` | e2e/crypto-algo/helpers/redis-mock.ts:147-161 | The counted splice loop, in place and in either direction, removes the first or the last matches and returns how many |
| `MockRedis.Client.Get` | e2e/crypto-algo/helpers/redis-mock.ts:12-20 | Answers the unexpired value; dropping an expired entry is invisible to every later reader |
| `MockRedis.Client.Set` | e2e/crypto-algo/helpers/redis-mock.ts:27-47 | With NX succeeds exactly when no unexpired value is there; on success stores value and expiry and touches no other key, on refusal changes nothing observable |
| `MockRedis.Client.Del` | e2e/crypto-algo/helpers/redis-mock.ts:73-79 | Removes that key only |
| `MockRedis.Client.RPush` | e2e/crypto-algo/helpers/redis-mock.ts:105-110 | Appends to that list only and returns its length |
| `MockRedis.Client.LPop` | e2e/crypto-algo/helpers/redis-mock.ts:112-118 | Takes the head of that list only; an emptied list disappears |
| `MockRedis.Client.RPopLPush` | e2e/crypto-algo/helpers/redis-mock.ts:120-129 | Moves the tail of the source to the head of the destination, also when both are one shared array; no other list changes |
| `MockRedis.Client.LRem` | e2e/crypto-algo/helpers/redis-mock.ts:135-164 | All three counting modes, the returned number, and no other list changed |
| `JobQueue.RedisQueue.Enqueue` | packages/core/src/worker-shared/redis-queue.ts:56-58 | Appends the job to the waiting list of the shared store; the other two lists are untouched |
| `JobQueue.RedisQueue.Take` | packages/core/src/worker-shared/redis-queue.ts:135-140 | Moves the tail of the waiting list to the head of the processing list and answers it |
| `JobQueue.RedisQueue.Acknowledge` | packages/core/src/worker-shared/redis-queue.ts:146-154 | Takes one occurrence of the job off the processing list |
| `JobQueue.RedisQueue.Bury` | packages/core/src/worker-shared/redis-queue.ts:164-165 | Appends the job to the dead letters |
| `JobQueue.RedisQueue.Reinject` | packages/core/src/worker-shared/redis-queue.ts:125-127 | One round of recovery moves one job back, and the loop goes on exactly while there was one |
| `JobQueue.RedisQueue.RecoverOrphans` | packages/core/src/worker-shared/redis-queue.ts:122-128 | Left alone, the recovery loop puts the whole processing list, in its order, before the queue and empties it |
| `JobQueue.RedisQueue.ReplayDead` | packages/core/src/worker-shared/redis-queue.ts:179-189 | Left alone, moves the oldest dead jobs up to the limit, in their order, behind the queue and counts them |
| `JobQueue.StepConserves` | packages/core/src/worker-shared/redis-queue.ts:122-190 | Every step keeps the number of copies of every job, up to what it enqueues; only a crash takes away what its process holds alone |
| `JobQueue.NothingDuplicated` | packages/core/src/worker-shared/redis-queue.ts:122-190 | Over every run, crashes included, the copies waiting, processing, dead, in hand and settled never exceed those enqueued |
| `JobQueue.CompleteIffNoCrashInGap` | packages/core/src/worker-shared/redis-queue.ts:154-187 | After any run every enqueued job is still accounted for, as often as it was enqueued, if and only if no crash fell between a failed job's LREM and its RPUSH, or between the LPOP and RPUSH of a replay |
| `JobQueueOrder.StepFlows` | packages/core/src/worker-shared/redis-queue.ts:122-189 | Each event adds the job it moves to the list it enters, takes it from the list it leaves and touches no other |
| `JobQueueOrder.PlacesBalance` | packages/core/src/worker-shared/redis-queue.ts:122-189 | After every run, crashes included, each list and the settled jobs hold a job as often as it was moved in and not out again |
| `JobQueueOrder.DeadLettersKeepOrder` | packages/core/src/worker-shared/redis-queue.ts:164-189 | In every run the jobs buried are, in order, those replayed followed by the dead letters: first in, first out |
| `JobQueueOrder.HandlingTheNewest` | packages/core/src/worker-shared/redis-queue.ts:135-173 | The job taken is the newest; settled or buried, it leaves all others as they stood; requeued after a failure, the queue is exactly as before |
| `JobQueueOrder.CrashPutsItLast` | packages/core/src/worker-shared/redis-queue.ts:122-140 | A job whose handling crashed is put back in front of the queue, to be taken last |
| `JobQueueOrder.FirstMayWaitForever` | packages/core/src/worker-shared/redis-queue.ts:56-58 | The queue is last in, first out: however many later jobs are handled, the first may still wait |
| `Relayer.KeyIdentifiesWithdrawal` | packages/backend/src/polymarket/relayer-client.ts:65-72 | For colon-free addresses, equal keys if and only if same deposit and recipient up to letter case, same raw amount and same asset |
| `Relayer.ColonsCollide` | packages/backend/src/polymarket/relayer-client.ts:65-72 | The condition is needed: a colon in an address lets two withdrawals share a key |
| `Relayer.RunKeepsInv` | packages/backend/src/polymarket/relayer-client.ts:86-114 | In every timely run the store entry under a holder's or a confirmed call's key is that call's own, unexpired, and no two such calls share a key |
| `Relayer.AtMostOneHolder` | packages/backend/src/polymarket/relayer-client.ts:285-345 | With every holder ending within its 300 s TTL, at most one call per key is between its SET NX and its end, over every interleaving of any number of calls and of lost or dropped Redis writes |
| `Relayer.NoSubmitWhileConfirmed` | packages/backend/src/polymarket/relayer-client.ts:330-341 | While the TTL of a call that has its hash is in force, no other call on that key is in submission or can submit, even if both completion writes fail |
| `Relayer.TtlOnlyGrows` | packages/backend/src/polymarket/relayer-client.ts:104-106 | No step shortens the TTL a confirmed call relies on, nor changes its hash |
| `Relayer.SecondHolderIffOutlived` | packages/backend/src/polymarket/relayer-client.ts:86-114 | In every run, timely or not, a key has two holders at some moment if and only if at some moment a SET NX takes it while an earlier holder of it has outlived its entry |
| `Relayer.OverrunSubmitsTwice` | packages/backend/src/polymarket/relayer-client.ts:79-102 | Such a run exists, and both holders submit the same withdrawal |
| `Relayer.RunKeepsTraceable` | packages/backend/src/polymarket/relayer-client.ts:97-106 | In every run every stored value is the marker or a hash some call on that key confirmed |
| `Relayer.ReturnedHashWasConfirmed` | packages/backend/src/polymarket/relayer-client.ts:298-331 | A returned hash was confirmed by a call with the same deposit, recipient up to case, raw amount and asset, in timely and untimely runs alike |
| `Relayer.ReserveOrGet` | packages/backend/src/polymarket/relayer-client.ts:86-102 | Against the mock store: reserved, existing or in flight exactly as the store stands at the two reads; a refusal changes nothing observable |
| `Relayer.MarkCompleted` | packages/backend/src/polymarket/relayer-client.ts:104-106 | The hash is readable until the TTL ends and not after; no other key changes |
| `Relayer.ClearReservation` | packages/backend/src/polymarket/relayer-client.ts:108-114 | Uninterrupted, deletes a live marker and nothing else |
| `Relayer.RetryAfter` | packages/backend/src/polymarket/relayer-client.ts:285-345 | A retry in time after an uninterrupted first call gets the hash if there is one, and the reservation if the first call was cleared |
| `RelayerAnswers.ConfirmedCallReturnsItsHash` | packages/backend/src/polymarket/relayer-client.ts:330-340 | In every run, timely or not, a call whose transaction was confirmed never throws, and at most two marks, whatever becomes of the writes, end it with its own hash |
| `RelayerAnswers.MarkStores` | packages/backend/src/polymarket/relayer-client.ts:104-106 | A mark that reaches the store makes the hash readable for 300 s and no longer |
| `RelayerAnswers.HashStays` | packages/backend/src/polymarket/relayer-client.ts:86-114 | Until its expiry no timely run takes a stored hash away |
| `RelayerAnswers.RetryIsGivenTheHash` | packages/backend/src/polymarket/relayer-client.ts:95-101 | Once a confirmed hash is stored, in every timely continuation until its expiry a call for the same withdrawal that reserves is refused, and when it reads it returns that hash |
| `RelayerAnswers.RunningIsReported` | packages/backend/src/polymarket/relayer-client.ts:297-301 | While a call without a hash holds the reservation, a second call for the same withdrawal is refused and throws when it reads |
| `RelayerAnswers.ClearedCanStartAgain` | packages/backend/src/polymarket/relayer-client.ts:108-114 | In every timely run a call that threw without a hash finds its own marker and deletes it, and then a new call takes the reservation for 300 s |
| `RelayerAnswers.FreshCallSucceeds` | packages/backend/src/polymarket/relayer-client.ts:285-331 | From every state with nothing live under its key a new call can reserve, submit, be confirmed and return its hash, which the key then holds |
| `RelayerAnswers.CallIsReserveOrGet` | packages/backend/src/polymarket/relayer-client.ts:86-102 | The two interleaved steps of a call read the store as the uninterrupted helper does |
| `RelayerAnswers.CallIsClearReservation` | packages/backend/src/polymarket/relayer-client.ts:108-114 | The two steps of clearing delete a live marker, never a hash, and nothing when the read fails |
| `RelayerAnswers.WritesReachOrNot` | packages/backend/src/polymarket/relayer-client.ts:86-114 | A dropped write leaves the store as it was, one whose reply is lost changes it as if acknowledged, and a reservation not acknowledged ends its call |
| `BlockWalk.FetchAll` | packages/backend/src/polymarket/polygonscan-client.ts:159-222 | The loop of windows computes the walk, with windows clamped to at least one, and every way of ending it |
| `BlockWalk.WalkReturnsWhatWasAnswered` | packages/backend/src/polymarket/polygonscan-client.ts:171-191 | For any API, the walk fails exactly when its first query fails, with that error; otherwise it returns every row answered, in order, also when a later query fails |
| `BlockWalk.FlaggedIffDoubtful` | packages/backend/src/polymarket/polygonscan-client.ts:183-218 | For any API, the result is flagged if and only if some query failed or was answered by a full page that ends on no block, on no later block than it was asked from, or in the last window |
| `BlockWalk.WalkCovers` | packages/backend/src/polymarket/polygonscan-client.ts:169-219 | From any window on: unless flagged, every copy of a row before the current start block has been collected, so an unflagged end holds the whole history as of the last query |
| `BlockWalk.UntruncatedIsComplete` | packages/backend/src/polymarket/polygonscan-client.ts:159-222 | truncated == false implies the result holds every row at least as often as the history does as of the last query, also when the history grows between windows |
| `BlockWalk.WalkInvents` | packages/backend/src/polymarket/polygonscan-client.ts:191 | Every returned row was in the history when some window was read |
| `BlockWalk.StartBlocksIncrease` | packages/backend/src/polymarket/polygonscan-client.ts:204-214 | Start blocks strictly increase over the whole walk |
| `BlockWalk.OneQueryPerWindow` | packages/backend/src/polymarket/polygonscan-client.ts:169-219 | The last query is the last of as many queries as windows were walked |
| `BlockWalk.AtMostTwice` | packages/backend/src/polymarket/polygonscan-client.ts:211-213 | A walk, flagged or not, holds every row at most twice as often as the history does as of the last query |
| `BlockWalk.TwoPagesAdvance` | packages/backend/src/polymarket/polygonscan-client.ts:204-214 | In a sparse history a full page reaches beyond its start block, and two full pages in a row leave a thousand rows behind |
| `BlockWalk.WalkMeetsDenseBlock` | packages/backend/src/polymarket/polygonscan-client.ts:204-218 | A walk at or before a block of a thousand transfers cannot get past it unflagged |
| `BlockWalk.UntruncatedIffSparse` | packages/backend/src/polymarket/polygonscan-client.ts:164-218 | Over a fixed history with two windows for every thousand rows (below half a million rows at the deployed thousand windows), the flag stays down if and only if no block holds a thousand transfers |
| `BlockWalk.FullBlockFlaggedThoughComplete` | packages/backend/src/polymarket/polygonscan-client.ts:204-210 | A block of exactly a thousand transfers raises the flag although every row was read, and each comes back twice |
| `TransferMap.KeyIdentifiesLogEntry` | packages/backend/src/polymarket/trader-funding-fetcher.ts:33-35 | For colon-free hash and log index, equal keys if and only if same transaction, log index (absent counts as 0) and contract, up to case |
| `TransferMap.ConversionsExactly` | packages/backend/src/polymarket/trader-funding-fetcher.ts:37-53 | A row is converted if and only if its slug is known and not empty, its time is there and positive and its value reads; it throws if and only if only the last fails; the input has that slug, value and time |
| `TransferMap.InsertRows` | packages/backend/src/polymarket/trader-funding-fetcher.ts:131-135 | The inner loop inserts the convertible rows in order, later ones overwriting, and ends at the first row whose value cannot be read |
| `TransferMap.FetchToken` | packages/backend/src/polymarket/trader-funding-fetcher.ts:122-157 | The body of the inner loop: a walk counts as completed before its rows are read, and a row that cannot be read makes the fetch partial |
| `TransferMap.FetchWallet` | packages/backend/src/polymarket/trader-funding-fetcher.ts:121-158 | One wallet's loop over the tokens, with the error that ends it early |
| `TransferMap.FetchFunding` | packages/backend/src/polymarket/trader-funding-fetcher.ts:113-183 | The nested loops, their counters, the fatal and non-fatal errors, and the outcome |
| `TransferMap.InsertFailsIffMalformed` | packages/backend/src/polymarket/trader-funding-fetcher.ts:131-136 | The loop over a walk is cut short if and only if some row of a known token with a positive time has an unreadable value |
| `TransferMap.InsertReads` | packages/backend/src/polymarket/trader-funding-fetcher.ts:131-136 | Exactly the rows before the first unreadable one are inserted, and the loop fails if and only if that is not all of them |
| `TransferMap.InsertHolds` | packages/backend/src/polymarket/trader-funding-fetcher.ts:131-135 | Inserting rows that can all be read keeps the map equal to the convertible rows seen, each under its own key |
| `TransferMap.MapHoldsWhatWasRead` | packages/backend/src/polymarket/trader-funding-fetcher.ts:111-183 | Whatever the flags say, if keys are injective on the rows read and no fetch failed fatally, the map holds exactly one entry per row of known token, positive time and readable value that stands before the first unreadable row of some walk, with its token, value and time |
| `TransferMap.MappedIffRead` | packages/backend/src/polymarket/trader-funding-fetcher.ts:129-138 | Under injective keys, a convertible row that was fetched is in the map if and only if some walk has it before its first unreadable row |
| `TransferMap.FlagsAreHonest` | packages/backend/src/polymarket/trader-funding-fetcher.ts:123-169 | Neither truncated nor partialFetch is raised if and only if every walk ended untruncated and every row it returned could be read |
| `TransferMap.OutcomeExactly` | packages/backend/src/polymarket/trader-funding-fetcher.ts:113-183 | The first fatal error refuses the fetch; with no walk ended the last error does; otherwise the analysis carries the number of walks that ended, truncated if and only if one of them was or not all ended, and partial if and only if a walk failed or has an unreadable row |
| `TransferMap.MalformedRowHidesTheNext` | packages/backend/src/polymarket/trader-funding-fetcher.ts:129-138 | The truncated flag alone is not honest: a row with an unreadable value hides the rows behind it while its walk counts as completed; only partialFetch says so |
| `TransferMap.OneEntryPerTransfer` | packages/backend/src/polymarket/trader-funding-fetcher.ts:111-183 | If keys are injective on the fetched rows and neither flag is raised, the map holds exactly one entry per convertible row, also when both endpoints are watched |
| `TransferMap.EveryTransferIsMapped` | packages/backend/src/polymarket/trader-funding-fetcher.ts:111-183 | End to end with the walk: if neither flag is raised, every row of known token, positive time and readable value in the history of any target, as of its last query, is in the map under its key with its token, value and time |
| `TransferMap.MissingLogIndexCollides` | packages/backend/src/polymarket/trader-funding-fetcher.ts:33-35 | Injectivity is a real demand: without log indexes a transfer and its reverse in one transaction share a key and the later one wins |
| `MidHistory.MidHistoryBuffer.Record` | packages/crypto-algo/src/mid-history-buffer.ts:21-36 | Accept, decimate, append and prune one asset's series |
| `MidHistory.RecordingIsPerAsset` | packages/crypto-algo/src/mid-history-buffer.ts:21-36 | Recording treats its asset as a single track and leaves every other asset's track alone |
| `MidHistory.RecordingSamples` | packages/crypto-algo/src/mid-history-buffer.ts:21-36 | A mid becomes the last sample if it is positive and 500 ms have passed since the last one accepted; otherwise nothing changes |
| `MidHistory.MidHistoryBuffer.Prune` | packages/crypto-algo/src/mid-history-buffer.ts:65-77 | The shifting loop drops exactly the old front and forgets an emptied asset |
| `MidHistory.MidHistoryBuffer.GetWindow` | packages/crypto-algo/src/mid-history-buffer.ts:38-48 | The samples not older than the lookback, in order; empty for an unknown asset |
| `MidHistory.MidHistoryBuffer.Clear` | packages/crypto-algo/src/mid-history-buffer.ts:50-53 | Forgets that asset only |
| `MidHistory.MidHistoryBuffer.ClearCondition` | packages/crypto-algo/src/mid-history-buffer.ts:55-58 | Forgets both token ids that are present, and nothing else |
| `MidHistory.BufferIsPrunedLog` | packages/crypto-algo/src/mid-history-buffer.ts:21-36 | For every sequence of clock values, also running backwards, the buffer is the never-pruned log of accepted samples without those older than a minute before its last one |
| `MidHistory.BufferBounds` | packages/crypto-algo/src/mid-history-buffer.ts:21-36 | Retained samples are at least 500 ms apart, span at most 60 s, and are at most 121 |
| `MidHistory.WindowEqualsUnprunedIff` | packages/crypto-algo/src/mid-history-buffer.ts:38-48 | A window on the buffer equals that of the never-pruned log if and only if every sample it holds there is at most a minute older than the last accepted one |
| `MidHistory.WindowEqualsUnpruned` | packages/crypto-algo/src/mid-history-buffer.ts:38-48 | So it is for every window not reaching back beyond a minute before the last sample |
| `MidHistory.EvaluateGate` | packages/crypto-algo/src/curve-descending-gate.ts:22-46 | Insufficient exactly when points or span are too few; descending and passing tell on which side of the threshold the newest mid lies; fails exactly on an empty series when no points are demanded |
| `MidHistory.GateLooksAtEnds` | packages/crypto-algo/src/curve-descending-gate.ts:33-45 | With enough points only the first and last samples decide |
| `MidHistory.DescendingIsARealDrop` | packages/crypto-algo/src/curve-descending-gate.ts:22-46 | A descending verdict on the buffer means two accepted samples inside the lookback, at least the demanded span apart, the later lower by more than the threshold |
| `MidHistory.GateEqualsUnpruned` | packages/crypto-algo/src/curve-descending-gate.ts:22-46 | For a lookback up to 60 s the gate's verdict on the buffer is its verdict on the never-pruned log |
| `MidHistory.LongLookbackDiffers` | packages/crypto-algo/src/mid-history-buffer.ts:11 | Beyond 60 s the verdict can differ: a concrete run |
| `PriceFeed.TopOf` | packages/crypto-algo/src/price-feed.ts:405-447 | Prices and sizes are the positive ones of the book; there is a mid if and only if both best prices are positive and do not cross, halfway between them, with their distance and its percentage of the ask |
| `PriceFeed.UpdateTellsTheBook` | packages/crypto-algo/src/price-feed.ts:391-453 | An update of a watched asset with a book stores that description, records its mid if 500 ms have passed and touches no other asset; any other update changes nothing |
| `PriceFeed.CryptoAlgoPriceFeed.SubscribeOne` | packages/crypto-algo/src/price-feed.ts:190-208 | Records the condition's tokens, points each at the condition and lists them; nothing else changes |
| `PriceFeed.CryptoAlgoPriceFeed.RemoveCondition` | packages/crypto-algo/src/price-feed.ts:228-245 | Drops everything recorded about one condition and its tokens |
| `PriceFeed.CryptoAlgoPriceFeed.Unsubscribe` | packages/crypto-algo/src/price-feed.ts:218-258 | Drops everything about every inactive condition, whatever the order, and reconciles to exactly the tokens of the kept ones |
| `PriceFeed.CryptoAlgoPriceFeed.CollectAssets` | packages/crypto-algo/src/price-feed.ts:247-251 | The assets listed are exactly the tokens of the subscribed conditions |
| `PriceFeed.CryptoAlgoPriceFeed.ClearBook` | packages/crypto-algo/src/price-feed.ts:343-357 | Cancels the pending evaluation and clears the books and mid history of one condition only |
| `PriceFeed.CryptoAlgoPriceFeed.HandleBookUpdate` | packages/crypto-algo/src/price-feed.ts:391-463 | Ignores an update when disconnected, unknown or without book; otherwise refreshes the book and mid history and either schedules or evaluates |
| `PriceFeed.CryptoAlgoPriceFeed.FireTimer` | packages/crypto-algo/src/price-feed.ts:476-481 | The trailing timer clears itself and evaluates |
| `PriceFeed.CryptoAlgoPriceFeed.HandleWsReconnect` | packages/crypto-algo/src/price-feed.ts:165-169 | Clears all books and mid history and nothing else |
| `PriceFeed.CryptoAlgoPriceFeed.Disconnect` | packages/crypto-algo/src/price-feed.ts:148-162 | Clears timers, books and mid history; subscriptions stay |
| `PriceFeed.DropMore` | packages/crypto-algo/src/price-feed.ts:228-245 | Dropping conditions one after another drops their union |
| `PriceFeedRuns.SubscribeKeepsInverseIff` | packages/crypto-algo/src/price-feed.ts:196-208 | A subscription keeps the two maps inverse if and only if the condition loses no token and takes none from another condition |
| `PriceFeedRuns.LostTokenBreaksInverse` | packages/crypto-algo/src/price-feed.ts:196-208 | A re-subscription with one token fewer leaves the old token in the asset index |
| `PriceFeedRuns.ReconciledExactly` | packages/crypto-algo/src/price-feed.ts:218-258 | After dropping stale conditions the kept ones are unchanged and the asset index holds exactly their tokens |
| `PriceFeedRuns.IndexedIffSafe` | packages/crypto-algo/src/price-feed.ts:183-257 | In every run, with timers firing early or late and any clock, the asset index is at every moment the exact inverse of the condition index, with book and mid-history keys inside it and pending and last-evaluation keys inside the subscribed conditions, if and only if every subscription is safe |
| `PriceFeedRuns.CatalogueRunsStayIndexed` | packages/crypto-algo/src/price-feed.ts:183-257 | If every token belongs to one condition for good, every run, timely or not, stays indexed throughout |
| `PriceFeedRuns.RunKeepsPaced` | packages/crypto-algo/src/price-feed.ts:455-487 | The debounce invariant of every timely run, safe subscriptions or not: a pending deadline is below last evaluation + 2D, waiting updates have a timer, evaluations across all subscriptions are ordered |
| `PriceFeedRuns.LatencyBound` | packages/crypto-algo/src/price-feed.ts:455-487 | In every timely run no accepted update waits 2D or longer, and a pending deadline is always below last evaluation + 2D |
| `PriceFeedRuns.UpdateIsEvaluated` | packages/crypto-algo/src/price-feed.ts:455-487 | In every timely run, each accepted update at u whose condition is neither dropped nor cleared after it is followed by an evaluation at u or in [u, u + 2D), once the clock has reached u + 2D |
| `PriceFeedRuns.KnownUnlessDropped` | packages/crypto-algo/src/price-feed.ts:243-244 | The feed knows the last evaluation of a condition exactly when it was evaluated and not dropped since |
| `PriceFeedRuns.RateBoundIff` | packages/crypto-algo/src/price-feed.ts:455-487 | Across all subscriptions of a condition, any window shorter than D holds at most two of its evaluations if and only if no update is evaluated at once as the first since a drop, less than D after the last evaluation but one before it |
| `PriceFeedRuns.RateBound` | packages/crypto-algo/src/price-feed.ts:455-487 | While a condition is never dropped, any window shorter than D holds at most two of its evaluations |
| `PriceFeedRuns.MinimumGapIff` | packages/crypto-algo/src/price-feed.ts:13-17 | Across all subscriptions, the documented minimum time D between evaluations holds if and only if no update is evaluated at once while a timer of its condition is armed that later fires without having been armed anew or cancelled in between, and none is evaluated at once as the first since a drop, less than D after the last evaluation before it |
| `PriceFeedRuns.GapBelowDebounce` | packages/crypto-algo/src/price-feed.ts:13-17 | A run with D = 5000 in which two evaluations are one millisecond apart because of an overtaken timer |
| `PriceFeedRuns.ThreeAtOnce` | packages/crypto-algo/src/price-feed.ts:218-245 | A run with D = 5000 in which a condition, dropped and subscribed again twice, is evaluated three times at one clock reading, and no timer fires |
| `PriceFeedRuns.ResubscribingForgets` | packages/crypto-algo/src/price-feed.ts:243-244 | After unsubscribing and subscribing again the next update is evaluated at once, however recent the last evaluation was |
| `PriceFeedBooks.BookIsLastShown` | packages/crypto-algo/src/price-feed.ts:391-449 | In every run, whatever the timers do, the feed knows a book for an asset exactly if one was shown since the asset was last forgotten (a drop, a clear, a reconnect or a disconnect), and then it describes the last one shown |
| `PriceFeedBooks.HistoryIsBuffered` | packages/crypto-algo/src/price-feed.ts:451-453 | In every run the feed's history of an asset is the mid buffer fed with the mids of its books as they came, emptied whenever the asset was forgotten |
| `PriceFeedBooks.CurveSpansNoGap` | packages/crypto-algo/src/price-feed.ts:164-169 | In every run each sample the feed holds of an asset is the mid of a book shown since the asset was last forgotten, so that a curve never spans an outage |
| `PriceFeedBooks.FeedGateEqualsUnpruned` | packages/crypto-algo/src/price-feed.ts:354-361 | End to end: the curve gate asked of the feed decides as on every accepted mid heard since the asset was forgotten, with nothing ever dropped, for any lookback up to a minute |
| `PriceFeedBooks.ConnectedSinceLast` | packages/crypto-algo/src/price-feed.ts:391-394 | The feed counts as connected exactly from a connection to the next disconnection |
| `TokenAmount.FormatRoundTrips` | packages/backend/src/polymarket/bridge-quote.ts:39-44 | Reading the printed text at the same scale gives the amount back, for every amount and every number of decimals |
| `TokenAmount.FormatIsCanonical` | packages/backend/src/polymarket/bridge-quote.ts:39-44 | The fraction never ends in 0 and there is a point exactly when the amount is not whole |
| `TokenAmount.FractionDenotes` | packages/backend/src/polymarket/bridge-quote.ts:42 | Padding and stripping the remainder's digits keeps its value at the scale, and gives the empty fraction exactly for zero |
| `BridgeQuote.RequestBridgeQuote` | packages/backend/src/polymarket/bridge-quote.ts:79-112 | The retry loop: clamped start, doubling on too-small answers below 32 times the minimum, at most five requests |
| `BridgeQuote.RequestExactly` | packages/backend/src/polymarket/bridge-quote.ts:87-111 | A round is answered if and only if one of its five tries, each at twice the amount before, is quoted after all before were too small below 32 times the minimum; and then with that quote |
| `BridgeQuote.QuoteLoop` | packages/backend/src/polymarket/bridge-quote.ts:161-182 | The quoting loop: at most eight rounds, exit on a zero estimate or inside the band, otherwise the corrected guess, never below the minimum |
| `BridgeQuote.EarlyEndIsInBand` | packages/backend/src/polymarket/bridge-quote.ts:173-178 | Over every bridge, a loop that ends before its eighth quote ends on a zero estimate or on one at most 2% above the target and less than a unit short of 98% of it |
| `BridgeQuote.SecondQuoteInBand` | packages/backend/src/polymarket/bridge-quote.ts:173-181 | After two floors, one correction of a fixed-rate quote lands between 98% and 102% of the target |
| `BridgeQuote.FixedRateSettlesInTwo` | packages/backend/src/polymarket/bridge-quote.ts:155-182 | At a fixed rate a/b rounded down, a first estimate of at least 50, target at least 50(a/b + 1) and a correction not below the minimum, the loop settles within two quotes, inside the band, on the amount that was quoted |
| `BridgeQuote.FixedRateClassified` | packages/backend/src/polymarket/bridge-quote.ts:155-192 | Without assuming that the correction stays above the minimum: the returned amount is always the one last quoted, and the loop settles in the band within two quotes if and only if the minimum amount does not pay more than 102% of the target; otherwise the minimum is quoted to the eighth round and returned, above the band |
| `BridgeQuote.ConvergedAmountIsQuotedIff` | packages/backend/src/polymarket/bridge-quote.ts:87-109 | Over every bridge, when the loop ends on a zero estimate or in the band, the returned amount is the one last quoted if and only if the bridge answered it at the first try |
| `BridgeQuote.EightMissesQuotedIff` | packages/backend/src/polymarket/bridge-quote.ts:165-182 | Over every bridge that never answers too small, after eight misses the returned amount is the correction of the eighth amount quoted, and is that amount itself if and only if the correction gains less than one unit and the amount is the minimum or its estimate is not above the target |
| `BridgeQuote.StubbornBridge` | packages/backend/src/polymarket/bridge-quote.ts:165-192 | A bridge that offers one unit: the returned amount is a thousand times the one last quoted |
| `BridgeQuote.OverpayingBridge` | packages/backend/src/polymarket/bridge-quote.ts:165-192 | A bridge that offers ten times the target for the minimum: the minimum is asked for eight times and returned |
| `PositionCache.PositionContextCache.Refresh` | packages/crypto-algo/src/position-context-cache.ts:32-48 | Clears on an empty request, defers behind a load in flight, otherwise starts a load |
| `PositionCache.PositionContextCache.LoadSettled` | packages/crypto-algo/src/position-context-cache.ts:58-77 | A successful load replaces the whole cache by its ids, each with its metrics; a failed one changes nothing |
| `PositionCache.PositionContextCache.OwnerResumed` | packages/crypto-algo/src/position-context-cache.ts:45-56 | The owner frees the slot and starts the deferred request |
| `PositionCache.OneLoadAtATime` | packages/crypto-algo/src/position-context-cache.ts:38-49 | At most one load runs at a time, and it is the one marked in flight |
| `PositionCache.LatestRequestSurvives` | packages/crypto-algo/src/position-context-cache.ts:38-56 | The most recent request is what the last load was started for, or is deferred behind a load that will start it |
| `PositionCache.IdleCacheIsCurrent` | packages/crypto-algo/src/position-context-cache.ts:32-77 | With nothing in flight the last load was for the most recent request, and if it succeeded the cache holds exactly its ids |
| `PositionCache.IdleCacheAnswersLastRequest` | packages/crypto-algo/src/position-context-cache.ts:32-77 | The same, with the most recent request read off the run itself |
| `PositionCache.IdleCacheTellsLastRequest` | packages/crypto-algo/src/position-context-cache.ts:28-30 | With nothing in flight and the last load successful, getMetrics answers that load's metrics for each id of the most recent request and the empty metrics for every other condition |
| `PositionCache.TwoLoadsSettleEverything` | packages/crypto-algo/src/position-context-cache.ts:44-56 | From any busy state, finishing two loads settles every request made so far, and the second is for the most recent one |
| `LogPipes.JoinOfSplit` | packages/backend/src/e2e/process.ts:59-62 | Splitting on newline loses nothing |
| `LogPipes.SplitOfJoin` | packages/backend/src/e2e/process.ts:59-62 | Splitting is the only way to cut a text into newline-free parts that join to it |
| `LogPipes.SplitGivesLines` | packages/backend/src/e2e/process.ts:59-62 | No part of a split text contains a newline |
| `LogPipes.SplitOfConcat` | packages/backend/src/e2e/process.ts:60-61 | Only the unfinished last part of a text matters for what follows it |
| `LogPipes.ProcessLogPipes.OnStdout` | packages/backend/src/e2e/process.ts:59-64 | Emits the finished lines of remainder and chunk in order and keeps the rest; the other remainder is untouched |
| `LogPipes.ProcessLogPipes.OnStderr` | packages/backend/src/e2e/process.ts:66-71 | The same for the other stream |
| `LogPipes.ProcessLogPipes.Flush` | packages/backend/src/e2e/process.ts:73-78 | Emits the non-empty remainders, standard output first |
| `LogPipes.RunReassembles` | packages/backend/src/e2e/process.ts:52-79 | For every cutting into chunks and every interleaving, a stream's emitted lines after one flush are its whole text split on newline without an empty last part |
| `LogPipes.NothingIsLost` | packages/backend/src/e2e/process.ts:52-79 | The emitted lines, each with its newline, are the stream's text again, up to one added final newline |
| `LogPipes.SecondFlushHarmlessIff` | packages/backend/src/e2e/process.ts:73-78 | A second flush adds nothing if and only if both texts are empty or end in a newline |
| `LogPipes.ChunkEmitsWhatItFinishes` | packages/backend/src/e2e/process.ts:59-71 | A chunk emits at once, behind everything emitted before, the lines its own stream has gained by it, in order, and no other |
| `LogPipes.FlushEmitsStdoutFirst` | packages/backend/src/e2e/process.ts:73-78 | Flushing emits the unfinished end of standard output, then that of standard error |
| `PercentPublisher.Normalized` | packages/crypto-algo/src/algo-percent-publisher.ts:69-75 | Outcome names in lower case, prices, order and all other fields kept |
| `PercentPublisher.AlgoMarketPercentPublisher.HandleBookUpdate` | packages/crypto-algo/src/algo-percent-publisher.ts:49-88 | Skips missing updates, empty outcomes and changes below 0.0005; otherwise buffers, and flushes at 50 or arms the timer |
| `PercentPublisher.AlgoMarketPercentPublisher.Flush` | packages/crypto-algo/src/algo-percent-publisher.ts:90-100 | Disarms the timer and hands over everything pending as one batch, none if nothing is pending |
| `PercentPublisher.AlgoMarketPercentPublisher.ScheduleFlush` | packages/crypto-algo/src/algo-percent-publisher.ts:118-124 | Arms the timer only if none is armed |
| `PercentPublisher.AlgoMarketPercentPublisher.TimerFires` | packages/crypto-algo/src/algo-percent-publisher.ts:120-123 | The timer disarms itself and flushes |
| `PercentPublisher.BatchesAreWhatWasTaken` | packages/crypto-algo/src/algo-percent-publisher.ts:49-124 | In every run batches followed by pending items are exactly the updates taken, in order; batches have 1 to 50 items; the timer is armed exactly when something is pending, 250 ms after the oldest pending item |
| `PercentPublisher.PartialBatchesNeedFlushes` | packages/crypto-algo/src/algo-percent-publisher.ts:82-124 | In every run batches of fewer than 50 are handed over only by a timer or a call of flush, at most one by each |
| `PercentPublisher.HandedOverInTime` | packages/crypto-algo/src/algo-percent-publisher.ts:118-124 | With timers at most L ms late, every update is handed over within 250 + L ms, the k-th handed over being the k-th taken, and one still pending was taken at most 250 + L ms before the last event |
| `PercentPublisher.TakenFollowsSeen` | packages/crypto-algo/src/algo-percent-publisher.ts:61-67 | In every run the last price taken for an asset is within 0.0005 of the last one seen, and consecutive ones taken never are |
| `PostEntryTimers.OffsetsOf` | packages/crypto-algo/src/post-entry-mid-logger.ts:73 | The offsets asked for, otherwise 1, 5 and 30 seconds, which are distinct |
| `PostEntryTimers.WithoutElements` | packages/crypto-algo/src/post-entry-mid-logger.ts:97-98 | The splice takes exactly that timer out of a list without duplicates |
| `PostEntryTimers.PostEntryMidLogger.CancelHandle` | packages/crypto-algo/src/post-entry-mid-logger.ts:80-91 | Clears every still active timer of the handle, empties its list and forgets its position |
| `PostEntryTimers.PostEntryMidLogger.CancelForPosition` | packages/crypto-algo/src/post-entry-mid-logger.ts:55-60 | Cancels the registered handle of that position only, and answers whether there was one |
| `PostEntryTimers.PostEntryMidLogger.ClearTimers` | packages/crypto-algo/src/post-entry-mid-logger.ts:46-52 | Clears every timer and every handle |
| `PostEntryTimers.PostEntryMidLogger.ArmAll` | packages/crypto-algo/src/post-entry-mid-logger.ts:93-148 | The loop arms one timer per offset, in order, due at the offset after the fill or at once if that has passed |
| `PostEntryTimers.PostEntryMidLogger.Schedule` | packages/crypto-algo/src/post-entry-mid-logger.ts:70-157 | Arms the new timers, then cancels and replaces the position's previous handle |
| `PostEntryTimers.PostEntryMidLogger.Fire` | packages/crypto-algo/src/post-entry-mid-logger.ts:95-109 | Takes the timer out of the active set and of its handle, forgets the position when the handle is empty, and samples |
| `PostEntryTimers.ScheduleCancelsFirst` | packages/crypto-algo/src/post-entry-mid-logger.ts:93-155 | Although the old handle is cancelled after the new timers are armed, the effect is as if it were cancelled before |
| `PostEntryTimers.HandlesListLiveTimers` | packages/crypto-algo/src/post-entry-mid-logger.ts:46-157 | In every run a registered handle lists exactly its position's live timers, each once, and every live timer of a position is listed |
| `PostEntryTimers.FireForgetsIff` | packages/crypto-algo/src/post-entry-mid-logger.ts:96-101 | A timer of a position that fires leaves the position registered if and only if it leaves another timer of it |
| `PostEntryTimers.OneTimerPerOffset` | packages/crypto-algo/src/post-entry-mid-logger.ts:93-155 | With distinct offsets a position never has two live timers for one offset |
| `PostEntryTimers.NoEarlierSample` | packages/crypto-algo/src/post-entry-mid-logger.ts:46-60 | After a cancel, a clear or a re-schedule of a position, a timer that can fire for it was armed by that event or later |
| `PostEntryTimers.SampledOnce` | packages/crypto-algo/src/post-entry-mid-logger.ts:80-109 | A timer nothing cancels, clears or replaces fires exactly once if it is gone and not at all if it is still armed |
| `PostEntryTimers.NeverEarlyNorTwice` | packages/crypto-algo/src/post-entry-mid-logger.ts:94-101 | No sample is taken before its offset after the fill, and none twice by one timer |
| `PostEntryTimers.EachOffsetIsArmed` | packages/crypto-algo/src/post-entry-mid-logger.ts:93-94 | In every run a schedule arms each of its offsets, due at the offset after the fill, or at the moment of the schedule if that is later |
| `PostEntryTimers.EachOffsetInTime` | packages/crypto-algo/src/post-entry-mid-logger.ts:93-109 | An armed offset that nothing cancels, clears or replaces is sampled exactly once, or its timer is still armed and can fire from its due time on |

## Left out

- Rounding of floating-point money and prices: `real` arithmetic. A division by zero and NaN are kept as the absent price; infinities are not distinguished from it.
- The audit tool's list of cash issues (a threshold on stored against computed profit), `getPositionMarkPrice` and `unrealizedPnl`: the theorems hold for all marks. SQL, printing and every other report figure.
- `minFromBaseUnits`, `initialFromGuess` and the BTC approximation (floating point): the loop is proved for every minimum of at least 1 and every guess not below it.
- BridgeQuote.EightMissesQuotedIff: says nothing of a bridge that answers too small on the way to eight misses, because the retry doubles the amount asked without telling the loop (`bridge-quote.ts:103-105`); when the loop converges, retries are covered.
- The mock's variadic SET arguments (NX and a TTL are parameters), INCR, EXPIRE, SCAN, LRANGE and publish/subscribe. A blocking BRPOPLPUSH is an ordinary move.
- JobQueue.CompleteIffNoCrashInGap: the retry counter that chooses between requeue and dead letter is a free choice, a failed Redis command inside the consumer is a crash, and one consumer and one replay run at a time. A settled job whose LREM fails is not modelled. Recovery may interleave with taking jobs, which is more than the workers do. Jobs are non-empty texts, as JSON is.
- Relayer calls that end before the reservation (missing signer, unparsable amount), readiness checks, signing and the relayer itself: submitting, confirming and throwing are events. A call that throws before it has a hash clears its reservation, so that a withdrawal is submitted at most once in all is not claimed.
- Addresses and hashes are ASCII: letter case is the ASCII one.
- `fetchPolygonscanTokenTransfers` is a function from window and start block to rows or an error: its throttling, retries and response parsing are not modelled. Its error codes are reduced to the three fatal ones and the rest.
- TransferMap.FetchFunding: takes each fetch as a result and the reading of a row's value as an arbitrary function that may throw, and leaves out the funding cache, the parsed numeric log index in the stored input, and the analysis built from the map (`buildTraderFundingAnalysis` is not part of this model).
- TransferMap.OneEntryPerTransfer: counts distinct rows, so two transfers the API reports as rows equal in every field are one entry.
- Non-finite mids are absent values; NaN clock values are not modelled.
- PriceFeed.CryptoAlgoPriceFeed.SubscribeOne: one market of `subscribeToMarkets`, run without interruption; its await per market, the markets not found and the partial subscription after a failure appear as several or missing subscription events, and its reconcile call is not modelled. Several clock readings in one handler are one.
- The debounce is constant in a run; `setDebounceMs` during one is not modelled. The read-only getters of the feed and market-resolved events add nothing to its state.
- PositionCache.IdleCacheIsCurrent: runs hold non-empty requests; `refresh([])` and `clear()` empty the map even while a load is in flight, so they are modelled as single calls only. Aggregation of positions is an arbitrary function of the condition id.
- LogPipes.RunReassembles: chunks are text; a multi-byte character cut across two chunks is decoded by `Buffer.toString` per chunk and may be garbled, which is not modelled. Process spawning is left out.
- PercentPublisher.HandedOverInTime: speaks of handing a batch to `pushUpdates`; a failed or refused request is logged and its batch dropped by the code.
- PostEntryTimers.NoEarlierSample: covers the module's own operations; an outside call to the `cancel` of a handle that was already replaced would forget its successor and is not modelled. The prices sampled and errors thrown by the sample callback are left out. An anonymous schedule (no position id) is modelled, but nothing is claimed about its handle's list.
- React and Solid clients, routes, configuration schemas, error-to-status maps, metrics registration, log regexes, weather and sizing strategies: plumbing or single-branch facts.
