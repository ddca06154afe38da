# Verified models of QuantDinger's stateful core

A Dafny project that models seven parts of the QuantDinger backend that keep state over time, and
proves what whole runs of them do.

| files | what they model |
|---|---|
| `SingleFlight.dfy`, `SingleFlightSafety.dfy`, `SingleFlightServing.dfy`, `SingleFlightBurst.dfy`, `SingleFlightLimits.dfy` | the cache-first wrapper: per-key locks, background refresh, stale-while-revalidate envelopes, as a state machine with one step per lock, cache or clock operation; what every run keeps, what is served and when it is computed, what a cold burst computes, and where those promises end |
| `Universe*.dfy` | the point-in-time membership table that `apply_snapshot` maintains |
| `CredentialEnvelope.dfy`, `CredentialMigration.dfy`, `MigrationTheorems.dfy` | the crash-resumable re-encryption of stored credentials |
| `Bars.dfy`, `Resampling.dfy`, `TimeBuckets.dfy`, `KlineWindow.dfy` | candles, their aggregation by count and by time, the final window and limit |
| `Pagination.dfy`, `PaginationCoverage.dfy`, `PartialFetches.dfy`, `CandlePipeline.dfy`, `RequestedWindow.dfy`, `LatestCandles.dfy` | the paginated candle fetch against an arbitrary exchange, what it reaches and what it keeps when it is cut short, the stages of a request, and what a whole request with or without a lower bound answers |
| `DataCache*.dfy`, `CircuitBreaker.dfy`, `RateLimiter.dfy` | the TTL/LRU cache, the circuit breaker and the rate limiter over any history of calls |
| `LegMerge*.dfy`, `LegRows.dfy` | the merge of duplicate position legs under the table's unique constraint |
| `Common.dfy`, `SortedKeys.dfy` | options, results, and the ascending sequence of a set of keys |

Code that updates things in place is modelled by classes and loops, each proved equal to a function of
the old state; the theorems are about those functions and sequences of them. Clocks, randomness, the
exchange, the cipher and the database's fetch order are parameters, so every statement holds for all of
their answers. Prices, sizes and times that the source keeps as floats are exact reals.

Where the code and its own words disagree, the model follows the code:

- `half_open_max_calls` is described as the number of trial requests, but half-open calls are never
  counted (`HalfOpenAdmitsIff`; the promise is kept exactly as `HalfOpenLimitKeptIff` says).
- `_pick_resample_source` says it picks the finest source; the table order makes it the coarsest
  (`PicksFinestIff`).
- `filter_and_limit` calls its limit a maximum; a limit of 0 keeps everything (`LimitRespectedIff`).
- The cache calls itself LRU; overwriting a key evicts another entry when full and does not make the
  key recent (`OverwriteEvicts`; exactly when is `OverwriteKeepsOthersIff` and `OverwriteIsRecentIff`).
- A dry run of the migration does not look at the write guard, so it can promise conversions that the
  real run refuses (`DryRunPredictsIff`).
- The leg merge renames the kept row before it deletes the others, so the unique constraint refuses a
  group whose canonical spelling belongs to a later row (`CanonicalTwinRefused`).
- A None result of `compute` is stored but reads back as a miss, so it is computed again
  (`NoneIsComputedAgain`): n callers compute n times (`NoneIsComputedByEveryCaller`), where a value is
  computed once (`ColdBurstCompletes`).
- A request for [after, before) that is merged can end in a candle that takes in prices from `before` on,
  because the last fetched page is merged before it is cut (`PriceFromAfterTheRequest`); `LooksAheadIff`
  says exactly when.
- A request without `after` in whose history nothing is listed can be answered with an older candle, because the
  fallback asks for the latest ones (`OlderCandleReturned`); `LatestRequestIff` says exactly when.
- A negative limit drops candles from the front (`NegativeLimitDrops`).
- The leg merge calls its merged entry weighted; for a total that is not positive it is the entry of the
  first row, so value can be lost (`MergeConservesNotionalIff`, `MixedSignsLoseNotional`).

## Model

| member | source | states |
|---|---|---|
| SingleFlightSafety.AtMostOneCompute | backend_api_python/app/data_providers/__init__.py:230-239 | In every reachable state at most one unforced caller or refresher is inside the compute section of a key, and it holds the key's lock |
| SingleFlightSafety.LockNeverReplaced | backend_api_python/app/data_providers/__init__.py:103-113 | Once `_get_lock` has created a key's lock it stays that key's lock for the rest of the run, and no other key shares it |
| SingleFlightSafety.RefreshMarkedExactlyWhileOutstanding | backend_api_python/app/data_providers/__init__.py:259-293 | A key is in `_bg_refreshing` exactly while one refresh for it is being submitted, queued or running, never two; with none outstanding the set is empty |
| SingleFlightSafety.ProvenanceAndAge | backend_api_python/app/data_providers/__init__.py:122-187 | A value returned from an envelope was produced for that key and written by a recorded write of this process or of an earlier one; it was read less than SWR_MULTIPLIER times the writer's TTL after it landed, and without `allow_stale` (or from `get_cached`) judged younger than that TTL |
| SingleFlightSafety.FailedComputeNeverWrites | backend_api_python/app/data_providers/__init__.py:242-256 | A caller whose compute raised returns None and has written nothing |
| SingleFlightSafety.EntriesOnlyComeFromWrites | backend_api_python/app/data_providers/__init__.py:242-256 | Over a whole run the entry of a key is the one it started with or one recorded as written during the run |
| SingleFlightSafety.ApplyKeepsInv | backend_api_python/app/data_providers/__init__.py:190-293 | Every atomic step of every thread keeps the lock, mark and data invariants |
| SingleFlightSafety.RunKeepsInv | backend_api_python/app/data_providers/__init__.py:190-293 | Every schedule of any number of callers, setters, getters and background jobs keeps the invariants |
| SingleFlightSafety.CacheChangesByWrites | backend_api_python/app/data_providers/__init__.py:177-187 | One step leaves an entry alone or replaces it by the write it records |
| SingleFlightBurst.ColdBurstComputesOnce | backend_api_python/app/data_providers/__init__.py:213-256 | From any reachable state in which a key reads as absent and every earlier call for it has returned, any interleaving of unforced callers computes it at most once more and every returned caller of the burst has that one value; computes return something other than None, backend calls succeed, nobody drops the key and the clock stays before the new hard deadline |
| SingleFlightBurst.ColdBurstCompletes | backend_api_python/app/data_providers/__init__.py:213-256 | When such a burst has at least one caller and no thread can step any more, all have returned, exactly one computation was made and all callers of the burst hold its value |
| SingleFlightBurst.EveryScheduleIsBounded | backend_api_python/app/data_providers/__init__.py:190-293 | Without new calls a schedule has a bounded number of steps: no thread loops |
| SingleFlightBurst.SomeoneCanStep | backend_api_python/app/data_providers/__init__.py:230-239 | While some call or job is unfinished, some thread can step: no deadlock |
| SingleFlightBurst.StepReducesWork | backend_api_python/app/data_providers/__init__.py:190-293 | Every step of any thread, including one that submits a refresher, reduces the total work left |
| SingleFlightServing.FreshValueIsServed | backend_api_python/app/data_providers/__init__.py:167-222 | In any run: a getter or unforced caller whose first read finds, unexpired in the backend, an entry with a value other than None and judges it before its hard deadline (a raw legacy entry: at any time) returns that value and never computes |
| SingleFlightServing.StaleValueIsServed | backend_api_python/app/data_providers/__init__.py:224-228 | In any run: a caller that accepts stale values and judges what it read after the deadline goes on to schedule a refresh and to return that value, and never computes |
| SingleFlightServing.StaleReadIsRefreshed | backend_api_python/app/data_providers/__init__.py:259-267 | Once such a call has passed the mark step the key is marked and a refresh of it is outstanding |
| SingleFlightServing.StaleReadSchedules | backend_api_python/app/data_providers/__init__.py:259-293 | The call returns at once when the key was marked before; otherwise it submits, and a submission that succeeds starts a refresher with the key and TTL |
| SingleFlightServing.OtherwiseItMisses | backend_api_python/app/data_providers/__init__.py:167-230 | Whatever else the first read finds (nothing, None, a stale value not accepted) a getter returns None and a caller goes for the lock |
| SingleFlightServing.FreshValueEndsTheWait | backend_api_python/app/data_providers/__init__.py:230-239 | Under the lock a value found fresh is returned and never computed |
| SingleFlightServing.OtherwiseItComputes | backend_api_python/app/data_providers/__init__.py:230-239 | Under the lock anything else is computed |
| SingleFlightServing.RefresherComputesIff | backend_api_python/app/data_providers/__init__.py:269-283 | A refresher that finds the lock free takes it and begins to compute; one that does not skips |
| SingleFlightServing.ComputedValueIsReturned | backend_api_python/app/data_providers/__init__.py:242-256 | What a computation returned is what its call returns, stored or not |
| SingleFlightServing.RaisedComputeReturnsNone | backend_api_python/app/data_providers/__init__.py:242-250 | A computation that raised makes its call return None, with no write after it |
| SingleFlightServing.StoredValueLands | backend_api_python/app/data_providers/__init__.py:177-187 | A successful write leaves the value under the key, fresh for max(1, TTL) from the wrapping and readable for 5 TTLs from the landing; a failed one changes nothing |
| SingleFlightServing.SetterDelivers | backend_api_python/app/data_providers/__init__.py:177-187 | `set_cached` writes the value it is given |
| SingleFlightServing.CallsBegin | backend_api_python/app/data_providers/__init__.py:213-218 | A forced caller computes at once; an unforced caller and a getter read; a refresher looks for the lock |
| SingleFlightServing.InvalidatedIsGone | backend_api_python/app/data_providers/__init__.py:296-305 | A key that was invalidated holds only what was written under it since |
| SingleFlightLimits.ForcedCallersOverlap | backend_api_python/app/data_providers/__init__.py:213-216 | Witness that the promise stops at `force`: two forced callers compute one key at the same time |
| SingleFlightLimits.NoneIsComputedAgain | backend_api_python/app/data_providers/__init__.py:213-256 | Witness: a None result is stored, unexpired, and reads as a miss, so the next unforced caller is computing the key again |
| SingleFlightLimits.NoneIsNeverShared | backend_api_python/app/data_providers/__init__.py:213-256 | From any reachable state in which a key reads as absent and earlier calls have returned, while its computations return None or raise, any interleaving makes exactly one computation for each caller that has started one, every returned caller among them, and they return None |
| SingleFlightLimits.NoneIsComputedByEveryCaller | backend_api_python/app/data_providers/__init__.py:213-256 | When no thread can step any more, such a key has been computed once for every caller that came: n times for n callers |
| UniverseSnapshots.Universe.ApplySnapshot | backend_api_python/scripts/refresh_public_universe_snapshots.py:288-368 | The whole new table, its id sequence, the snapshot date and the reported counts; a dry run, an unknown universe and a rejected insert leave these as they were; unless it is a dry run the Hong Kong members are in the symbol master afterwards, even when the transaction fails |
| UniverseSnapshots.RegisteredIs | backend_api_python/scripts/refresh_public_universe_snapshots.py:292-301 | Every Hong Kong member of a cleaned snapshot is registered under its name and no other name in the symbol master changes |
| UniverseSnapshots.CleanMembers | backend_api_python/scripts/refresh_public_universe_snapshots.py:289 | The loop that drops nameless members and keeps the last one per symbol |
| UniverseSnapshots.RetireMembers | backend_api_python/scripts/refresh_public_universe_snapshots.py:314-329 | The DELETE of rows opened that day or later and the UPDATE that closes the others, together one table function |
| UniverseSnapshots.EnterMembers | backend_api_python/scripts/refresh_public_universe_snapshots.py:330-353 | The loop that updates active rows and inserts the others, stopped by the unique constraint |
| UniverseSnapshots.CleanIsLastPerSymbol | backend_api_python/scripts/refresh_public_universe_snapshots.py:289 | A cleaned snapshot holds exactly the last member given for each non-empty symbol |
| UniverseSnapshots.CleanIsInOrder | backend_api_python/scripts/refresh_public_universe_snapshots.py:289 | It lists them in the order in which their symbols were first given |
| UniverseSnapshots.RetireEffect | backend_api_python/scripts/refresh_public_universe_snapshots.py:314-329 | After retiring, exactly the kept symbols are open and the table is still well-formed |
| UniverseSnapshots.EnterAllEffect | backend_api_python/scripts/refresh_public_universe_snapshots.py:330-353 | After entering, the open symbols and every as-of answer are those of the snapshot added to what was there |
| UniverseSnapshots.ApplyKeepsWellFormed | backend_api_python/scripts/refresh_public_universe_snapshots.py:288-353 | One application keeps intervals non-empty, at most one open row per symbol, and leaves the input symbols open |
| UniverseHistory.AsOfIsTheSnapshotInForce | backend_api_python/scripts/refresh_public_universe_snapshots.py:288-353 | After any snapshots with non-decreasing dates none has aborted, intervals are disjoint and the as-of query of every date returns the symbols of the last snapshot dated on or before it |
| UniverseHistory.AsOfAfterApply | backend_api_python/app/services/universe.py:292-305 | One more snapshot changes the as-of answers from its date on to its own symbols and no earlier answer |
| UniverseHistory.StaysDisjointIff | backend_api_python/scripts/refresh_public_universe_snapshots.py:314-353 | An application keeps a symbol's intervals disjoint exactly when it does not reopen a symbol at a date before the end of one of its past intervals |
| UniverseHistory.AbortsIff | backend_api_python/migrations/init.sql:942-945 | An application is rejected exactly when it would insert a (symbol, market, date) that the table already holds |
| UniverseHistory.BackDatedRunOverlaps | backend_api_python/scripts/refresh_public_universe_snapshots.py:288-353 | Witness that dates must not decrease: three accepted snapshots leave one symbol with two rows in force |
| UniverseHistory.ReapplyingChangesNothing | backend_api_python/scripts/refresh_public_universe_snapshots.py:288-368 | Applying the same snapshot again on the same date is the identity, and active rows carry the snapshot's attributes |
| UniverseHistory.CountsBalance | backend_api_python/scripts/refresh_public_universe_snapshots.py:368 | The open symbols are the snapshot's and open rows after = open rows before + added - removed |
| UniverseHistory.OneOpenRowPerSymbol | backend_api_python/scripts/refresh_public_universe_snapshots.py:288-353 | There are as many open rows as open symbols |
| UniverseRows.RowsAfterApply | backend_api_python/scripts/refresh_public_universe_snapshots.py:312-353 | Every row after an application: closed rows byte-identical; open rows of members with their market and interval and the member's attributes; rows of symbols that left deleted or closed, all else as it was; and new rows for exactly the inactive members, with their market, symbol and attributes, opened on the date |
| UniverseRows.OpenRowsCarryTheirStint | backend_api_python/scripts/refresh_public_universe_snapshots.py:330-353 | After any chronological snapshots an open row starts when its symbol's unbroken membership began and carries the market it was given then |
| UniverseRows.RowsInForceCarryTheirMarket | backend_api_python/app/services/universe.py:292-305 | And the rows in force on any date carry the market their symbol was given when its membership, unbroken up to that date, began |
| CredentialEnvelope.ParseFormat | backend_api_python/app/utils/credential_crypto.py:223-231 | Parsing a formatted envelope gives it back |
| CredentialEnvelope.FormatParse | backend_api_python/app/utils/credential_crypto.py:223-231 | Formatting a parsed envelope gives the text back |
| CredentialEnvelope.EncryptRoundTrip | backend_api_python/app/utils/credential_crypto.py:150-220 | Encryption round-trips under its own purpose only, names the active key, and never reads as a legacy blob |
| CredentialEnvelope.DecryptIff | backend_api_python/app/utils/credential_crypto.py:174-220 | Decryption yields a text exactly when the stripped blob is an envelope under the purpose that names a configured key which opens its token to that text, or is blank and the text is empty |
| CredentialEnvelope.DecryptLegacyIff | backend_api_python/app/utils/credential_crypto.py:248-279 | Legacy decryption yields a text exactly when the stripped blob is no envelope and the first legacy key that opens it gives the text, or it is blank and the text is empty |
| CredentialEnvelope.StripIs | backend_api_python/app/utils/credential_crypto.py:188-191 | Stripping takes white space off both ends and nothing else, until none is left there |
| CredentialEnvelope.ThirdField | backend_api_python/app/commands/migrate_credentials.py:182 | The logged target key id is the third of at least four colon-separated fields |
| CredentialMigration.Migration.FetchBatch | backend_api_python/app/commands/migrate_credentials.py:73-79 | Keyset page: the next n keys above `after_key`, in order, with their blobs |
| CredentialMigration.Migration.ProcessRow | backend_api_python/app/commands/migrate_credentials.py:143-188 | One row's transaction: blob and log entry change together or not at all |
| CredentialMigration.Migration.ProcessBatch | backend_api_python/app/commands/migrate_credentials.py:143-188 | The rows of a page in order, cut off at any row by a crash |
| CredentialMigration.Migration.ScanTarget | backend_api_python/app/commands/migrate_credentials.py:133-188 | The batch loop of one table equals one sweep over its positive keys in order, for every batch size |
| CredentialMigration.Migration.Run | backend_api_python/app/commands/migrate_credentials.py:119-195 | A run killed after any number of rows equals the same prefix of one sweep over both tables |
| CredentialMigration.NextPage | backend_api_python/app/commands/migrate_credentials.py:73-79 | What follows a page of the scan is the scan behind the last key of the page |
| MigrationTheorems.EveryRowVisitedOnce | backend_api_python/app/commands/migrate_credentials.py:48-51 | A complete run visits every row with a positive key of the two tables exactly once, under its table's purpose |
| MigrationTheorems.TurnFinishesRow | backend_api_python/app/commands/migrate_credentials.py:94-116 | A row's turn leaves it on the active key with its plaintext when recoverable, byte-identical otherwise |
| MigrationTheorems.FinishedRowsRest | backend_api_python/app/commands/migrate_credentials.py:94-116 | A finished row is never rewritten |
| MigrationTheorems.CrashResume | backend_api_python/app/commands/migrate_credentials.py:119-195 | Any launches cut off anywhere and then one complete launch leave every recoverable row converted and every other byte-identical; a further launch writes neither row nor log |
| MigrationTheorems.SealedTextsSurvive | backend_api_python/app/commands/migrate_credentials.py:94-195 | In terms of the cipher alone: a row sealed for a text, as a legacy token that no earlier legacy key opens or in an envelope under its table's purpose, decrypts to that text on the active key after interrupted launches and a complete one |
| MigrationTheorems.ScopeIs | backend_api_python/app/commands/migrate_credentials.py:48-51 | Rows with positive keys of the two tables, and the purpose of each table |
| MigrationTheorems.AuditChain | backend_api_python/app/commands/migrate_credentials.py:94-116 | A sweep under any keys keeps each row's log a chain of checksums ending at the stored blob; the row's latest entry names the purpose and key its envelope is on; the sweep adds exactly one entry for each time it rewrites the row, and without one the blob is as it was |
| MigrationTheorems.AuditChainAcrossRotations | backend_api_python/app/commands/migrate_credentials.py:143-188 | The same from an empty log over any number of interrupted, dry or complete launches, each with its own keys: a row has as many entries as it was rewritten, and they lead from its first checksum to its last |
| MigrationTheorems.TotalsAddUp | backend_api_python/app/commands/migrate_credentials.py:143-188 | Totals sum to the rows visited, log entries equal the legacy and envelope rows counted, a dry run writes nothing |
| MigrationTheorems.TotalsByKind | backend_api_python/app/commands/migrate_credentials.py:147-156 | Each of the five totals counts exactly the rows of its kind: blank, on the active key, recovered from a legacy token, recovered from another envelope, or failed |
| MigrationTheorems.EntryNamesTheSource | backend_api_python/app/commands/migrate_credentials.py:165-183 | The log entry of a rewritten row names what it was before: a legacy token, or an envelope and its key |
| MigrationTheorems.AnnouncedIff | backend_api_python/app/commands/migrate_credentials.py:94-116 | A dry run announces a conversion exactly for rows that need one |
| MigrationTheorems.DryRunPredictsIff | backend_api_python/app/commands/migrate_credentials.py:94-116 | A dry run reports the real totals exactly when the process may write credentials or no row has a recoverable plaintext that is not on the configured key yet; otherwise the real run has more errors |
| Bars.AggregateBounds | backend_api_python/app/data_sources/crypto.py:708-716 | An aggregated candle has the first time and open, the last close, the exact maximum and minimum, and stays sane |
| Bars.AggregateConcat | backend_api_python/app/data_sources/crypto.py:708-716 | Aggregating two runs and then the two results is aggregating all at once |
| Bars.SortIsPermutation | backend_api_python/app/data_sources/base.py:128 | The list sorted in place holds the same candles in time order, and a list already in order stays as it is |
| Bars.SortIsStable | backend_api_python/app/data_sources/base.py:128 | Candles of equal time keep their order: the sort is stable |
| Resampling.CryptoResample | backend_api_python/app/data_sources/crypto.py:693-717 | The ranged loop with its early break computes the complete runs; bucket sizes up to 1 and empty input are returned as they are |
| Resampling.AsiaMerge | backend_api_python/app/data_sources/asia_stock_kline.py:541-557 | The while loop computes the complete runs; short input is returned as it is |
| Resampling.UsMerge | backend_api_python/app/data_sources/us_stock.py:555-570 | Sorts first, then merges the complete runs; short input is returned as it is |
| Resampling.MergeRuns | backend_api_python/app/data_sources/us_stock.py:559-569 | The ranged loop over the whole runs |
| Resampling.MergedBarIsItsRun | backend_api_python/app/data_sources/crypto.py:705-716 | There are len / n merged candles and the j-th is the aggregate of input candles j*n to (j+1)*n |
| Resampling.MergingComposes | backend_api_python/app/data_sources/crypto.py:693-717 | Merging by a and then by b is merging by a*b, dropped tails included |
| Resampling.MergingConserves | backend_api_python/app/data_sources/crypto.py:705-716 | Only the volume of the dropped tail is lost |
| Resampling.MergingKeepsSane | backend_api_python/app/data_sources/crypto.py:705-716 | Merged candles keep low <= open, close <= high |
| Resampling.CryptoAgreesWithAsiaIff | backend_api_python/app/data_sources/asia_stock_kline.py:541-543 | The crypto and Asian loops differ exactly on non-empty input shorter than one bucket |
| Resampling.UsAgreesWithAsiaOnSorted | backend_api_python/app/data_sources/us_stock.py:555-570 | On sorted input the US and Asian merges agree |
| Resampling.UsMergesByTime | backend_api_python/app/data_sources/us_stock.py:555-570 | Whatever the order of its input the US loop merges the sorted list, and its result is in time order |
| Resampling.PickedSourceFits | backend_api_python/app/data_sources/crypto.py:135-139 | A picked source is supported and bucket times source length is the target length; none is picked exactly when no candidate is supported |
| Resampling.PicksIff | backend_api_python/app/data_sources/crypto.py:135-139 | A source is picked exactly for 3m from 1m, 4h from 2h or 1h, and 1w from 1d |
| Resampling.PicksFinestIff | backend_api_python/app/data_sources/crypto.py:679-691 | The documented choice of the finest source holds except for 4h with both 2h and 1h offered, where the coarser one is taken |
| Resampling.FourHourRoutesAgree | backend_api_python/app/data_sources/crypto.py:135-139 | Both routes from one hourly series to 4h give the same candles |
| TimeBuckets.Resample | backend_api_python/app/data_sources/moex.py:125-155 | The fold with a current bucket computes the bucket function; a non-positive target returns the input |
| TimeBuckets.BucketingComposes | backend_api_python/app/data_sources/moex.py:125-155 | Resampling to t1 and then to a multiple of t1 is resampling to that multiple, for any input order |
| TimeBuckets.BucketsAscend | backend_api_python/app/data_sources/moex.py:255-258 | From sorted input the bucket times are strictly ascending |
| TimeBuckets.BucketsOnGrid | backend_api_python/app/data_sources/moex.py:133-136 | Bucket times are multiples of the target |
| TimeBuckets.BucketAggregatesItsBars | backend_api_python/app/data_sources/moex.py:137-152 | Each bucket is the aggregate of exactly the candles that fall into it |
| TimeBuckets.BucketExistsIff | backend_api_python/app/data_sources/moex.py:137-152 | There is a bucket for a start exactly when some candle falls into it |
| TimeBuckets.EveryBarInOneBucket | backend_api_python/app/data_sources/moex.py:137-152 | Every candle is in exactly one bucket |
| TimeBuckets.BucketsConserve | backend_api_python/app/data_sources/moex.py:148-152 | Total volume is conserved and sane candles give sane buckets |
| TimeBuckets.CollectPages | backend_api_python/app/data_sources/moex.py:203-221 | The page loop collects what the page function says, for any answers of the listing |
| TimeBuckets.PagesOfTable | backend_api_python/app/data_sources/moex.py:203-221 | From a fixed listing the loop collects a prefix: the rows the remaining pages can hold |
| TimeBuckets.AllRowsCollectedIff | backend_api_python/app/data_sources/moex.py:200-201 | The whole listing is collected exactly when it has at most 25000 rows |
| KlineWindow.FilterAndLimit | backend_api_python/app/data_sources/base.py:106-138 | The caller's list ends sorted and the result is the cut copy |
| KlineWindow.WindowIsExact | backend_api_python/app/data_sources/base.py:128-133 | Without truncation the result is sorted and holds each input candle of the window as often as it was passed in, and no other |
| KlineWindow.LimitKeepsTheLast | backend_api_python/app/data_sources/base.py:135-136 | With a positive limit the result is the last min(limit, n) candles of the window |
| KlineWindow.LimitRespectedIff | backend_api_python/app/data_sources/base.py:135-136 | The result fits the limit exactly for limits of at least 1, or a limit of 0 on an empty window: 0 keeps everything |
| KlineWindow.NegativeLimitDrops | backend_api_python/app/data_sources/base.py:135-136 | A negative limit drops as many candles from the front instead of keeping the last ones |
| Pagination.RequestWithRetries | backend_api_python/app/data_sources/crypto.py:814-832 | The retry loop gives the first answer, or the last error after three attempts |
| Pagination.TakeTurn | backend_api_python/app/data_sources/crypto.py:833-857 | One batch: stop or go on, from which start and with which streak of empty pages |
| Pagination.Paginate | backend_api_python/app/data_sources/crypto.py:804-857 | The loop computes the collected rows and the error that ended it; its start strictly approaches the end, which is why it terminates |
| Pagination.FetchOhlcv | backend_api_python/app/data_sources/crypto.py:859-892 | What the fetch returns for what was collected: nothing for an unknown symbol, partial rows after another error, the fallback when there is nothing |
| Pagination.AfterReply | backend_api_python/app/data_sources/crypto.py:840-857 | Whenever a batch lets the loop go on, the next start is strictly later |
| Pagination.CapBoundsNothing | backend_api_python/app/data_sources/crypto.py:785 | For any exchange, once end - since batches are allowed a larger cap changes nothing |
| Pagination.UnusedCap | backend_api_python/app/data_sources/crypto.py:785-804 | For any exchange, a cap that the batches used do not exceed changes nothing |
| Pagination.RowsAreServed | backend_api_python/app/data_sources/crypto.py:848 | Every collected row comes from a page the exchange served for a start inside the window |
| Pagination.ByTimeHolds | backend_api_python/app/data_sources/crypto.py:859 | The dictionary by timestamp holds a time exactly when a complete row has it |
| Pagination.OutcomeIsAscending | backend_api_python/app/data_sources/crypto.py:859-860 | For any exchange and any error the returned candles are strictly ascending by time, each a collected complete row |
| PartialFetches.PartialOutcome | backend_api_python/app/data_sources/crypto.py:859-892 | For any exchange that then fails a batch for good: an unknown symbol gives no candle and no fallback; any other error gives the candles collected before, the last complete row for each time; the fallback only when no row came |
| PartialFetches.PartialFetchIsAStretch | backend_api_python/app/data_sources/crypto.py:804-892 | On an exchange that serves its listing and then fails, the outcome is exactly what is listed from the start of the window to where the failing batch starts |
| PartialFetches.LateFetchIsAStretch | backend_api_python/app/data_sources/crypto.py:807-812 | The same when the time budget is found spent before a batch |
| PartialFetches.AskedHasWalk | backend_api_python/app/data_sources/crypto.py:804-857 | Every batch that is asked for has a walk of starts leading to it, as those two suppose |
| PartialFetches.RepeatedAttemptsLeaveNoTrace | backend_api_python/app/data_sources/crypto.py:814-832 | When each batch is answered within three attempts, everything collected is what it would have been without the failures |
| PartialFetches.ThreeAttempts | backend_api_python/app/data_sources/crypto.py:814-832 | A batch's answer is the first of three attempts that is no error, or the third error |
| PartialFetches.BrokenPageEndsTheFetch | backend_api_python/app/data_sources/crypto.py:847-849 | A page whose last row is blank ends the fetch with an error, and its other rows are kept |
| PartialFetches.ByTimeKeepsTheLast | backend_api_python/app/data_sources/crypto.py:859 | For each time the dictionary keeps the last complete row given |
| PaginationCoverage.CollectedIffReachable | backend_api_python/app/data_sources/crypto.py:804-857 | On an exchange that serves each page faithfully, a wanted candle is collected exactly when no candle up to it lies 620 or more missing slots behind the previous one |
| PaginationCoverage.FetchReaches | backend_api_python/app/data_sources/crypto.py:782-860 | The same for the whole fetch, whenever the batches the window needs fit the cap of 6000; returned candles are as listed |
| PaginationCoverage.WindowServedIff | backend_api_python/app/data_sources/crypto.py:782-860 | When the needed batches fit the cap, the whole window is served exactly when no candle of it is isolated by such a gap |
| PaginationCoverage.LaterCollectedIff | backend_api_python/app/data_sources/crypto.py:804-857 | A candle from the end of the window on is collected exactly when the last page, whose start the listing decides, holds it |
| PaginationCoverage.ShortWindowFits | backend_api_python/app/data_sources/crypto.py:785 | Windows of up to 192000 slots need no more than the 6000 batches, whatever is listed |
| PaginationCoverage.FetchedIsSlice | backend_api_python/app/data_sources/crypto.py:782-860 | Without an isolated candle the fetch yields one unbroken stretch of the listing: the window and what its last page holds beyond it |
| PaginationCoverage.FallbackIff | backend_api_python/app/data_sources/crypto.py:859-892 | The fetch resorts to its fallback exactly when nothing is listed where it looks: the pages of at most six starts |
| PaginationCoverage.EnoughNext | backend_api_python/app/data_sources/crypto.py:785 | Two batches always advance by at least 64 slots: the argument that the cap does not bind |
| PaginationCoverage.ReachIsSharp | backend_api_python/app/data_sources/crypto.py:787-843 | Witness that one more missing slot loses a candle |
| CandlePipeline.PlanCoversIff | backend_api_python/app/data_sources/crypto.py:741-779 | The planned window covers the request exactly when the exchange still keeps its start |
| CandlePipeline.PlanCoversSpanIff | backend_api_python/app/data_sources/crypto.py:741-779 | With or without `after`, the plan covers the whole history the limit asks for exactly when the exchange still keeps its start, and without `after` starts exactly there |
| CandlePipeline.StartIsPast | backend_api_python/app/data_sources/crypto.py:757-759 | No history is asked for from the future |
| CandlePipeline.GetKline | backend_api_python/app/data_sources/crypto.py:541-613 | Plan the window, fetch it or ask the fallback for one page from its start and then for the latest candles, merge, convert to seconds, filter and limit, with the empty cases |
| CandlePipeline.TooOldIsEmpty | backend_api_python/app/data_sources/crypto.py:763-773 | A request that ends before what the exchange still keeps is answered with nothing, without asking |
| CandlePipeline.FallbackPrefersTheWindow | backend_api_python/app/data_sources/crypto.py:925-960 | The fallback asks for at most 300 rows, from the start first, and for the latest only when it got nothing from there, not of an unknown symbol |
| CandlePipeline.ShortRowsArePassedOver | backend_api_python/app/data_sources/crypto.py:595-597 | Without merging exactly the rows with at least six cells are used |
| CandlePipeline.ShortRowSpoilsTheMerge | backend_api_python/app/data_sources/crypto.py:700-716 | With merging a short row among the whole runs leaves nothing; one behind them does no harm |
| CandlePipeline.Finish | backend_api_python/app/data_sources/crypto.py:582-613 | The stages after the fetch |
| CandlePipeline.ReturnedShape | backend_api_python/app/data_sources/crypto.py:577-613 | For any exchange the result is sorted, inside [after, before), and without `after` the last `limit` candles before `before` |
| RequestedWindow.FallbackIsListed | backend_api_python/app/data_sources/crypto.py:896-960 | On an exchange that answers with listed candles the fallback yields listed candles only |
| RequestedWindow.UnmergedRequest | backend_api_python/app/data_sources/crypto.py:577-613 | A backtest request without merging returns exactly the listed candles of [after, before), whether or not the fallback is asked, for any limit |
| RequestedWindow.UnmergedRequestIff | backend_api_python/app/data_sources/crypto.py:577-613 | Whatever gaps the listing has: when something is listed where the fetch looks, the answer is exactly the listed candles of [after, before) if and only if each of them is reachable, no candle from the planned start up to it being isolated |
| RequestedWindow.MergedRequest | backend_api_python/app/data_sources/crypto.py:577-613 | A merged request returns exactly the merged whole runs of the planned window that start in [after, before), and one more candle when the window ends in an incomplete run that starts there and the last page lists enough candles to complete it |
| RequestedWindow.LooksAheadIff | backend_api_python/app/data_sources/crypto.py:693-716 | The answer stays within those whole runs exactly when it does not look ahead in that way; when it does, its last candle closes with a candle from `before` on |
| RequestedWindow.PriceFromAfterTheRequest | backend_api_python/app/data_sources/crypto.py:693-716 | Witness: two candles a minute apart, merged in twos; a request for the first minute is answered with the closing price of the second |
| LatestCandles.LatestRequest | backend_api_python/app/data_sources/crypto.py:541-613 | A request without `after` and without merging, when a candle is listed in the history it asks for, is answered with exactly the last min(limit, n) of the n candles listed there |
| LatestCandles.LatestRequestIff | backend_api_python/app/data_sources/crypto.py:541-613 | That holds unless the fetch has nothing and the fallback's own answers hold an older candle |
| LatestCandles.MergedLatestRequest | backend_api_python/app/data_sources/crypto.py:541-613 | With merging: the last `limit` of the merged whole runs of the planned history, and of the one more when the request looks ahead |
| LatestCandles.OlderCandleReturned | backend_api_python/app/data_sources/crypto.py:941-955 | Witness: a request for the last minute, in which nothing is listed, is answered with a candle from long before |
| DataCache.Cache.Get | backend_api_python/app/data_sources/cache_manager.py:69-94 | Result and whole new cache of a get: miss, expired, or hit moved to the end |
| DataCache.Cache.Set | backend_api_python/app/data_sources/cache_manager.py:96-122 | Whole new cache of a set: eviction loop, overwrite in place or append; raises exactly when max_size is below 1 |
| DataCache.Cache.Delete | backend_api_python/app/data_sources/cache_manager.py:124-131 | Reports whether the key was there and removes it |
| DataCache.Cache.CleanupExpired | backend_api_python/app/data_sources/cache_manager.py:141-153 | Keeps, in order, the entries that are unexpired when their turn comes, the clock being read for each, and counts the others |
| DataCacheRuns.RunIsSound | backend_api_python/app/data_sources/cache_manager.py:69-153 | Every run keeps distinct keys and the size limit, and hits + misses grows by one per get |
| DataCacheRuns.HeldIsLatest | backend_api_python/app/data_sources/cache_manager.py:96-139 | Every entry is the last value set for its key and not deleted or cleared since |
| DataCacheRuns.HitIsLatest | backend_api_python/app/data_sources/cache_manager.py:69-94 | A hit returns the last value set and not deleted or cleared, within its time to live |
| DataCacheRuns.HitIsTheLastSet | backend_api_python/app/data_sources/cache_manager.py:34-94 | A hit returns what the last set of the key gave, no longer after it than the time to live given with it or the default, with no delete of the key and no clear since |
| DataCacheRuns.ExpiredIsDropped | backend_api_python/app/data_sources/cache_manager.py:83-87 | A get that finds its entry expired drops that entry and no other and is a miss |
| DataCacheRuns.CleanupKeepsIff | backend_api_python/app/data_sources/cache_manager.py:141-153 | A cleanup keeps exactly the entries that live when their turn comes |
| DataCacheRuns.CountersAreExact | backend_api_python/app/data_sources/cache_manager.py:69-94 | Over any run hits counts the gets answered with a value and misses the others |
| DataCacheRuns.NoRoomStoresNothing | backend_api_python/app/data_sources/cache_manager.py:112-118 | A cache of size below 1 is emptied by a set, which stores nothing |
| DataCacheRuns.RunKeepsSafe | backend_api_python/app/data_sources/cache_manager.py:69-153 | Each get or set takes at most one from the slack (place plus free room) of any key; deletes of others and cleanups take none |
| DataCacheRuns.JustTouched | backend_api_python/app/data_sources/cache_manager.py:88-122 | A hit or an inserting set leaves max_size - 1 of slack |
| DataCacheRuns.RecentEntryIsServed | backend_api_python/app/data_sources/cache_manager.py:69-153 | An entry just hit or inserted is still served after any max_size - 1 further gets and sets while it has not expired |
| DataCacheRuns.NewValueIsServed | backend_api_python/app/data_sources/cache_manager.py:69-122 | A value set under a new key is served until its time to live is over, the given one or the default, whatever up to max_size - 1 other gets and sets come in between |
| DataCacheRuns.OldEntryIsEvicted | backend_api_python/app/data_sources/cache_manager.py:112-121 | The bound is exact: in a full cache an entry survives n inserts of new keys exactly when n entries are older |
| DataCacheRuns.OverwriteEvicts | backend_api_python/app/data_sources/cache_manager.py:112-121 | Overwriting a key of a full cache that is not its oldest evicts the oldest entry and does not refresh the key's place |
| DataCacheRuns.OverwriteKeepsOthersIff | backend_api_python/app/data_sources/cache_manager.py:112-121 | Overwriting keeps every other key exactly when the cache has room or the key is its oldest |
| DataCacheRuns.OverwriteIsRecentIff | backend_api_python/app/data_sources/cache_manager.py:112-121 | Overwriting leaves the key the most recent exactly when it was that already, or was the oldest of a full cache |
| CircuitBreaker.Breaker.IsAvailable | backend_api_python/app/data_sources/circuit_breaker.py:66-96 | The answer and the whole new state of a check |
| CircuitBreaker.Breaker.RecordFailure | backend_api_python/app/data_sources/circuit_breaker.py:110-128 | The whole new state after a failure |
| CircuitBreaker.Breaker.RecordSuccess | backend_api_python/app/data_sources/circuit_breaker.py:98-108 | The whole new state after a success |
| CircuitBreaker.Breaker.ResetSource | backend_api_python/app/data_sources/circuit_breaker.py:141-149 | Resets one source, or all for a missing or empty name |
| CircuitBreaker.StateIsClosedForm | backend_api_python/app/data_sources/circuit_breaker.py:54-149 | After any history the state of a source is a function of its failures since the last success or reset, its last failure and whether it was probed; no half-open call is ever counted |
| CircuitBreaker.AvailableIff | backend_api_python/app/data_sources/circuit_breaker.py:66-96 | For all thresholds, cooldowns, limits and clocks: available exactly when not tripped, or probed with a limit of at least 1, or not yet probed and cooled down |
| CircuitBreaker.AvailableByCooldown | backend_api_python/app/data_sources/circuit_breaker.py:66-96 | With a monotone clock and a limit of at least 1: available exactly when failures are below the threshold or the last failure is at least the cooldown ago |
| CircuitBreaker.OthersDoNotMatter | backend_api_python/app/data_sources/circuit_breaker.py:54-64 | Removing all events that do not concern a source leaves its state as it is |
| CircuitBreaker.HalfOpenAdmitsIff | backend_api_python/app/data_sources/circuit_breaker.py:90-94 | After the cooldown, with trial requests at any times and any events of other sources among them: the next one is admitted exactly when it is the first or the limit is at least 1 |
| CircuitBreaker.HalfOpenLimitKeptIff | backend_api_python/app/data_sources/circuit_breaker.py:90-94 | Of such trial requests at most `half_open_max_calls` are admitted exactly when no more than that many are made |
| CircuitBreaker.ResetFrees | backend_api_python/app/data_sources/circuit_breaker.py:141-149 | After a reset the source, or every source for a missing or empty name, is available with nothing counted, and no other is affected |
| RateLimiter.Limiter.Wait | backend_api_python/app/data_sources/rate_limiter.py:89-102 | The new mark, the exact seconds it asked to sleep, and the spacing to the previous mark |
| RateLimiter.MarksAreSpaced | backend_api_python/app/data_sources/rate_limiter.py:89-102 | Over any run successive marks are at least min_interval + jitter_min apart, whenever the waits are called |
| RateLimiter.MarksAreExact | backend_api_python/app/data_sources/rate_limiter.py:89-102 | No wait is longer than it must be: each mark is the later of the call and the end of the interval, plus jitter and what the sleeps overrun |
| RateLimiter.SpacedMarksInWindow | backend_api_python/app/data_sources/rate_limiter.py:89-102 | A window of length W holds at most floor(W / gap) + 1 marks that are a gap apart |
| RateLimiter.RateBound | backend_api_python/app/data_sources/rate_limiter.py:89-102 | Any window of length W sees at most floor(W / (min_interval + jitter_min)) + 1 requests |
| RateLimiter.EagerMarks | backend_api_python/app/data_sources/rate_limiter.py:89-102 | The spacing is attained by waits called back to back with the least jitter |
| LegMerge.Positions.MergeDuplicateLegs | backend_api_python/scripts/migrate_canonical_symbols.py:125-180 | The new table and the number of merged groups; a dry run and a refused update change nothing |
| LegMerge.GroupRows | backend_api_python/scripts/migrate_canonical_symbols.py:141-147 | The grouping dictionary in order of first appearance, each group in fetch order |
| LegMerge.ProcessGroups | backend_api_python/scripts/migrate_canonical_symbols.py:149-180 | The loop over the groups inside the transaction |
| LegMergeTheorems.MergeIsOutcome | backend_api_python/scripts/migrate_canonical_symbols.py:149-177 | Every group of several rows ends as its least id with the combined values; the others are gone and no other row changes |
| LegMergeTheorems.SurvivorIsLeast | backend_api_python/scripts/migrate_canonical_symbols.py:157-158 | After the merge the rows of a group are its least id alone |
| LegRows.LeftIffFirst | backend_api_python/scripts/migrate_canonical_symbols.py:141-177 | A row is left exactly when it has the least id of the rows that agree with it in strategy, market type, side and canonical spelling |
| LegRows.RowsAfterMerge | backend_api_python/scripts/migrate_canonical_symbols.py:149-177 | A row left alone is unchanged; one that had company keeps its strategy, market type and side and gets the spelling, total size and merged entry of its leg |
| LegMergeTheorems.MergeConservesSize | backend_api_python/scripts/migrate_canonical_symbols.py:152 | Every group keeps its total size |
| LegMergeTheorems.MergeConservesNotionalIff | backend_api_python/scripts/migrate_canonical_symbols.py:152-156 | Size times entry is kept exactly when the group is single, has a positive total, or its sizes times the differences of its entries from the first one sum to zero |
| LegMergeTheorems.MergeConservesNotional | backend_api_python/scripts/migrate_canonical_symbols.py:152-156 | It is kept whenever no size is negative |
| LegMergeTheorems.MixedSignsLoseNotional | backend_api_python/scripts/migrate_canonical_symbols.py:156 | Witness: a table of two legs of one group, with sizes of both signs, that the merge turns into one row whose value is not the legs' value |
| LegMergeTheorems.MergedEntryBetween | backend_api_python/scripts/migrate_canonical_symbols.py:153-156 | For non-negative sizes the merged entry lies between the group's least and greatest entries |
| LegMergeTheorems.SecondRunMergesNothing | backend_api_python/scripts/migrate_canonical_symbols.py:125-180 | A second run finds no group to merge and changes nothing |
| LegMergeTheorems.CommitsIff | backend_api_python/migrations/init.sql:389-410 | The merge goes through exactly when, group by group, no other row stands under the canonical symbol with the kept row's strategy and side |
| LegRows.NullsNeverBlock | backend_api_python/migrations/init.sql:389-410 | A group whose kept row has a NULL strategy or side is never refused |
| LegMergeTheorems.CanonicalTwinRefused | backend_api_python/scripts/migrate_canonical_symbols.py:166-177 | A group whose canonical spelling is held by a row other than its least id, in the same strategy and side, fails the whole merge: the update comes before the delete |

## Left out

- ColdBurstComputesOnce: the TTLs of the calls are at least 1, computes return something other than None, backend calls succeed, nobody drops the key and the clock stays before the hard deadline of the new entry; without them a second compute is intended behaviour, `ForcedCallersOverlap` shows one case and `NoneIsComputedByEveryCaller` settles that of None. A burst that begins while earlier calls for the key are still under way is covered by AtMostOneCompute alone.
- FetchReaches: makes no claim about a window whose batches exceed the cap of 6000, which cuts the fetch.
- WindowServedIff: the same condition on the batches as FetchReaches.
- UnmergedRequest: for candles at or after 1970 of which none is listed from the future, a fetch that no isolated candle and no cap cuts short, and the exchange keeping the start of the request, which is the condition of PlanCoversIff; the fallback's single requests are answered with listed candles only, whichever, or fail.
- UnmergedRequestIff: makes no claim when nothing is listed on the pages the fetch looks at and an isolated candle lies further on: the fallback may then return it.
- LatestRequest: the conditions of UnmergedRequest for the same request with the start of its history as `after`, and a limit of at least 1.
- MergedLatestRequest: the same conditions, and something listed in the planned window or its last page.
- MergedRequest: the same conditions as UnmergedRequest; the runs are counted from the start of the planned window.
- MergeConservesNotional: requires non-negative sizes; MergeConservesNotionalIff gives the exact condition.
- RateBound: for one thread between two resets; `reset` forgets the mark and so starts a new run, and concurrent waits share the mark without a lock.
- The four workers of the refresh pool and other processes on the same backend cache: jobs run whenever the schedule lets them, and other writers appear only as dropped entries.
- Rounding of prices and volumes to 4 and 2 digits, and all floating-point error.
- Environment parsing of the credential keys, Unicode whitespace, and NULL blobs as distinct from empty ones: the keys are given as a key ring.
- The insides of Fernet and SHA-256: a cipher with the laws round trip, trimmed output and colon-free fingerprints.
- The un-windowed candle request and the failover to other exchanges.
- Calendar parsing, column lookup and HTTP of the MOEX source; only its page loop and its fold are modelled.
- `stats`, `get_status`, `generate_kline_cache_key`, request headers and the retry decorator of the rate limiter: read off one body.
- The backfill of canonical symbols before the leg merge and the text rules of `normalize_strategy_symbol`: the text functions are parameters, with idempotent upper-casing assumed where a row must stay in its group.
- What the symbol master holds beside the names of Hong Kong symbols, its own errors, and the transport that fetches universe snapshots.
- Scheduler leader election, the forex calendar aggregation, classification tables and Flask routes.
