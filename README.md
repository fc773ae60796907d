# CryptoTrading scheduler and market-data ingestion, modelled in Dafny

This project models two parts of the CryptoTrading system.

**The scheduler (`Agendamentos`).** A background `Worker` keeps a working list of schedule entries (`Agendamento`: Id, Cron, Route, IsActive and the runtime-only next occurrence). On every tick it may reload the active entries from the store, with a bounded retry on transient errors. It reconciles them with the working list by Id. It then fires each entry whose next occurrence falls in the tick's minute, by a GET to its route.

**The market-data ingestion (`Dados`).** `DataIngestionService` keeps the Symbols, Tickers, OrderBooks and Trades tables restricted to a fixed list of 50 BRL pairs. It prunes every row outside the list, gathers one exchange response per target symbol, and upserts the collected rows by their configured keys.

Files:

- `wrappers.dfy`: `Option`.
- `strings.dfy`: ordinal `Contains`, `EndsWith`, and `String.Replace(pattern, "")` as `RemoveAll`.
- `cron.dfy`: instants (whole seconds since `DateTime.MinValue`, so `0` is `default(DateTime)`) and minutes.
  - The cron library is a value `Evaluator(parses, next)`, passed in as a parameter.
  - `Sound` states what the scheduler relies on: the next occurrence is strictly later and falls on a minute boundary.
  - A hand-written evaluator for four expressions serves the worked examples.
- `agendamento.dfy`: the `Agendamento` class, its value view `Entry`, and the persisted row `Row`.
- `errors.dfy`: exceptions as values with their inner-exception chain, and `IsTransientError`.
- `loader.dfy`: `LoadAgendamentosWithRetryAsync`.
- `scheduling.dfy`: the logic on entry values:
  - reconciliation (`Reconcile`), the due-check of one entry (`Step`) and the dispatch outcome;
  - the life of one entry across ticks and reloads (`Replay`).
- `worker.dfy`: the `Worker` class. Its methods change the `Agendamento` objects in place and are proved against the functions of `scheduling.dfy`.
- `symbols.dfy`: the 50-pair list and `GetUniqueAssetsFromSymbols`.
- `tables.dfy`: keyed tables as maps, and the three steps every collection repeats: prune, gather, and the change-tracker upsert.
- `ingestion.dfy`: the rows of the four tables and their keys, the symbol, ticker and trade collections, the order-book prune, and the `DataIngestionService` class.

Every reading of `DateTime.Now`/`DateTime.UtcNow`, every answer of the store, of the exchange client and of the HTTP endpoints is a parameter.

The upsert loops look rows up in the stored table and add new rows to EF Core's change tracker. They are modelled with that behaviour:

- a stored key is updated in the tracked row, so two rows of one batch with a stored key are applied in order;
- a key that is not stored is added;
- adding a second row under a key that is not stored makes the tracker throw, and nothing of the batch is saved.

Symbols and tickers always carry distinct keys, so their upserts always save. The trades of one collection can repeat a `(Symbol, Tid)`, for instance two trades of one symbol without a `Tid` (both become `Tid` 0). The model states exactly when the trades upsert then fails.

## Model

| member | source | states |
|---|---|---|
| Schedules.Agendamento.FromRow | Agendamentos/Entities/Agendamento.cs:7-13 | an object materialised from a row carries the four mapped columns and the default next occurrence, since ProximaOcorrencia is not mapped |
| Schedules.Agendamento.AdicionarProximaOcorrencia | Agendamentos/Entities/Agendamento.cs:14-17 | sets the next occurrence and leaves Id, Cron, Route and IsActive as they were |
| Schedules.DistinctIdsDistinctObjects | Agendamentos/Worker.cs:118-125 | objects whose Ids are distinct are distinct objects, so updating one in place never changes another |
| Errors.IsTransientError | Agendamentos/Worker.cs:204-210 | the exception is a timeout or an HTTP request exception, or an invalid operation whose message contains "transient failure", or its inner exception is transient |
| Errors.TransientIffSomeInChain | Agendamentos/Worker.cs:204-210 | an exception is transient iff some exception of its inner chain is transient in itself |
| Errors.WrappingKeepsTransient | Agendamentos/Worker.cs:209 | wrapping a transient exception in any outer exception keeps it transient |
| Errors.MarkerOnlyCountsOnInvalidOperation | Agendamentos/Worker.cs:208 | the "transient failure" text, anywhere in the message, makes an InvalidOperationException (or a subclass of it) transient, but not an exception of any type outside the three recognised ones |
| Loader.ActiveRows | Agendamentos/Worker.cs:84-87 | the query keeps exactly the active rows, and keeps them free of repeated Ids |
| Loader.StopAttempt | Agendamentos/Worker.cs:77-107 | the loop stops at an attempt between the first and the third; every earlier attempt failed transiently, and an early stop is on a success or a non-transient failure |
| Loader.LoadResult | Agendamentos/Worker.cs:75-110 | null iff every attempt made threw; an early null follows a non-transient error; a list is the successful attempt's load, holding exactly its active rows |
| Loader.LoadAgendamentosWithRetry | Agendamentos/Worker.cs:75-110 | the loop returns LoadResult after StopAttempt attempts, having waited 5000 ms after each failed attempt but the last |
| Scheduling.FindById | Agendamentos/Worker.cs:118 | FirstOrDefault by Id: the position found holds the Id and no earlier position does; none is found iff no entry has the Id |
| Scheduling.Reconcile | Agendamentos/Worker.cs:112-135 | one entry per loaded entry, in load order, with its persisted columns; a known Id keeps the next occurrence of its first match in the working list; a new Id is the loaded entry; Ids not loaded are dropped |
| Scheduling.ReconcileIdempotent | Agendamentos/Worker.cs:112-135 | reconciling the same load twice gives the same list as once |
| Scheduling.ReconcileIsReloaded | Agendamentos/Worker.cs:118-125 | reconciling a loaded entry whose Id is already in the list is the same as applying a reload to the known entry: loaded Cron, Route and IsActive, the known next occurrence |
| Scheduling.ReconcileWellFormed | Agendamentos/Worker.cs:112-135 | a load of active entries with distinct Ids keeps the working list active, of distinct Ids and minute-aligned |
| Scheduling.ExecuteAgendamento | Agendamentos/Worker.cs:171-202 | the outcome is logged at Debug iff the route answered with a 2xx status, and at Warning iff it answered with another status; every other outcome is an Error and never escapes |
| Scheduling.Step | Agendamentos/Worker.cs:137-169 | an entry with an empty or unparsable expression is left alone; otherwise a set next occurrence fires iff the tick is in its minute; a firing sets the next occurrence to the cron's next after the firing-time reading; a set occurrence that does not fire is kept; an unset one is seeded with the cron's next after the seeding-time reading; a fired dispatch carries the entry's Id, its route and the logged outcome; the persisted columns never change |
| Scheduling.ProcessAll | Agendamentos/Worker.cs:137-169 | the pass gives one result per entry, in order; each entry is stepped on its own, with its own clock readings, and no entry affects another |
| Scheduling.NeverFiresOnSeedingTick | Agendamentos/Worker.cs:152-158 | when the clock readings are not before the tick (ClockFollows), the tick that seeds an unset next occurrence never fires the entry, and leaves the occurrence set |
| Scheduling.FiringMovesPastTheMinute | Agendamentos/Worker.cs:158-161 | when the clock readings are not before the tick (ClockFollows), after a firing the next occurrence lies in a later minute than the tick, so a second pass in that minute does not fire |
| Scheduling.StepKeepsAligned | Agendamentos/Worker.cs:149-161 | a pass keeps every next occurrence on a minute boundary |
| Scheduling.ApplyMovesForward | Agendamentos/Worker.cs:152-161 | when the clock readings are not before the tick (ClockFollows), one tick or reload either fires the entry in the minute of its set next occurrence and moves that occurrence to a later minute, or keeps a set next occurrence |
| Scheduling.AtMostOncePerMinute | Agendamentos/Worker.cs:35-55 | over any sequence of ticks and reloads whose clock readings are not before their tick (ClockFollows), the minutes in which an entry fires strictly increase and none comes before its next occurrence |
| Scheduling.StallsWhenMinuteMissed | Agendamentos/Worker.cs:152-161 | an entry whose set next occurrence's minute is skipped by every later tick never fires again and keeps that next occurrence, across reloads too |
| Scheduling.EveryMinuteJobStallsAfterMissedMinute | Agendamentos/Worker.cs:152-161 | an every-minute job seeded at 00:00:30 for 00:01 stops for good if the next pass comes at 00:02 or later |
| Scheduling.DailyJobFiresAtNextMidnight | Agendamentos/Worker.cs:152-161 | a daily midnight job first seen after a midnight fires once at the next midnight and is then due a day later |
| Workers.LoadedEntries | Agendamentos/Worker.cs:37-41 | the entries handed to the reconciliation are active, minute-aligned and of distinct Ids when the store's Ids are distinct |
| Workers.Worker.constructor | Agendamentos/Worker.cs:18-20 | a new worker starts with the first-run flag set, the last check at DateTime.MinValue and an empty working list |
| Workers.Worker.FindExisting | Agendamentos/Worker.cs:118 | the loop returns the position FindById specifies |
| Workers.Worker.Materialize | Agendamentos/Worker.cs:84-87 | new objects whose views are the materialised rows |
| Workers.Worker.Overwrite | Agendamentos/Worker.cs:122-124 | an existing object takes the loaded Cron, Route and IsActive and keeps its Id and next occurrence |
| Workers.Worker.SyncAgendamentos | Agendamentos/Worker.cs:112-135 | the new list's views are exactly Reconcile of the old views and the loaded views, and each position holds the reused object or the loaded one |
| Workers.Worker.ProcessAgendamento | Agendamentos/Worker.cs:141-167 | the entry's new view and the dispatch are exactly Step of its old view |
| Workers.Worker.ProcessAgendamentosAsync | Agendamentos/Worker.cs:137-169 | the views after the pass and the dispatched GETs are exactly those of ProcessAll on the views before it |
| Workers.AfterRun | Agendamentos/Worker.cs:35-44 | the first-run flag and last check time after a run of iterations; once the flag is cleared no iteration sets it again |
| Workers.StampKept | Agendamentos/Worker.cs:39-43 | from a successful reload until the next one, the first-run flag stays clear and the last check time stays that reload's stamp |
| Workers.ReloadCadence | Agendamentos/Worker.cs:35-43 | after a successful reload, and none since, an iteration attempts a reload iff its tick is at second 0 or its clock reading is more than a minute after that reload's stamp |
| Workers.RetriesUntilLoaded | Agendamentos/Worker.cs:35-44 | while no load has returned a list, the first-run flag and check time are unchanged and every iteration attempts a reload |
| Workers.Worker.Refresh | Agendamentos/Worker.cs:35-45 | a reload is attempted iff it is the first run, more than a minute passed since the last check, or the tick is at second 0; a successful load reconciles the list and stamps the check time; a failed load changes nothing |
| Workers.Worker.Reload | Agendamentos/Worker.cs:39-44 | a successful load reconciles the working list, clears the first-run flag and stamps the check time |
| Workers.Worker.SyncLoaded | Agendamentos/Worker.cs:37-41 | the rows are materialised and reconciled, and the result holds old or new objects only |
| Workers.Worker.Tick | Agendamentos/Worker.cs:32-55 | one iteration: the reload step, then the pass over the working list at the tick instant; the working list stays active, of distinct Ids and minute-aligned |
| Workers.Worker.ExecuteAsync | Agendamentos/Worker.cs:23-73 | over any finite run of iterations the working list stays well formed, each iteration reports its dispatches, and the first-run flag and last check time end as AfterRun gives them |
| Workers.ProcessAllKeepsWellFormed | Agendamentos/Worker.cs:137-169 | a pass keeps the working list active, of distinct Ids and minute-aligned |
| Cron.NextIsInLaterMinute | Agendamentos/Worker.cs:154 | an occurrence computed at or after the tick lies in a later minute and is never the default date |
| Cron.ExamplesSound | Agendamentos/Worker.cs:149-161 | the hand-written evaluator meets the assumed cron contract |
| Cron.DailyAtMidnight | Agendamentos/Worker.cs:161 | "0 0 * * *" evaluated during a day gives the next midnight |
| Symbols.TopTierBasesShape | Dados/Services/DataIngestionService.cs:91-152 | the list's 50 base assets are distinct, non-empty and free of '-' |
| Symbols.PairsShape | Dados/Services/DataIngestionService.cs:91-152 | distinct base assets give distinct BRL pairs |
| Symbols.GetTopTier50CryptocurrencyList | Dados/Services/DataIngestionService.cs:89-152 | the list has 50 symbols; TopTier50Shape states the rest |
| Symbols.TopTier50Shape | Dados/Services/DataIngestionService.cs:89-152 | the list holds exactly 50 distinct symbols, each a base asset followed by "-BRL" |
| Symbols.PairOfAsset | Dados/Services/DataIngestionService.cs:91-152 | pairing an asset and taking the base asset back are inverse, and distinct assets give distinct pairs |
| Symbols.Distinct | Dados/Services/DataIngestionService.cs:39 | Distinct() keeps every element once, with nothing added |
| Symbols.DistinctOfNoDup | Dados/Services/DataIngestionService.cs:39 | a list without repetitions is its own Distinct() |
| Symbols.GetUniqueAssetsFromSymbols | Dados/Services/DataIngestionService.cs:35-41 | the assets have no repetitions and are exactly the symbols with every "-BRL" removed |
| Symbols.PairStripsToBase | Dados/Services/DataIngestionService.cs:38 | removing "-BRL" from an asset's pair gives the asset back |
| Symbols.BrlPairStripsToBase | Dados/Services/DataIngestionService.cs:174 | removing "-BRL" from a BRL pair gives its base asset |
| Symbols.AssetsOfPairs | Dados/Services/DataIngestionService.cs:35-41 | the pairs of distinct assets give those assets back, in order |
| Symbols.TopTier50Assets | Dados/Services/DataIngestionService.cs:35-41 | the 50 symbols give their 50 distinct base assets, in list order |
| Symbols.ReplaceDropsRepeatedSuffix | Dados/Services/DataIngestionService.cs:38 | Replace removes every occurrence: "BTC-BRL-BRL" gives "BTC" |
| Symbols.ReplaceDropsLeadingSuffix | Dados/Services/DataIngestionService.cs:38 | Replace removes an occurrence at the front: "-BRLETH" gives "ETH" |
| Symbols.EqualStripsKeptOnce | Dados/Services/DataIngestionService.cs:37-40 | symbols that strip to the same text give one asset |
| Strings.RemoveAll | Dados/Services/DataIngestionService.cs:38 | removing occurrences never lengthens the text |
| Strings.RemoveAllFirstOccurrence | Dados/Services/DataIngestionService.cs:38 | the first occurrence is dropped and the scan resumes after it: the text before it is kept, and the rest is the removal from the text after it |
| Strings.RemoveAllWithoutOccurrence | Dados/Services/DataIngestionService.cs:38 | text without an occurrence of the pattern is returned unchanged |
| Tables.Prune | Dados/Services/DataIngestionService.cs:260-267 | a row stays iff its symbol is in the targets, and a kept row is unchanged |
| Tables.PruneRemovesExactlyOutside | Dados/Services/DataIngestionService.cs:361-368 | the rows removed are exactly those whose symbol is outside the targets, and a second prune removes nothing |
| Tables.UpsertRow | Dados/Services/DataIngestionService.cs:317-336 | a stored key is updated in its tracked row, a new key is added, and a second add of a new key throws; every other tracked row is unchanged |
| Tables.Upsert | Dados/Services/DataIngestionService.cs:508-529 | a saved upsert keeps every stored key and holds every key of the batch |
| Tables.UpsertKeys | Dados/Services/DataIngestionService.cs:508-529 | a saved upsert holds exactly the stored keys and the batch's keys, and every other stored row is unchanged |
| Tables.UpsertFailsIffConflict | Dados/Services/DataIngestionService.cs:508-529 | the upsert fails exactly when two rows of the batch add one key that is not stored |
| Tables.UpsertDistinct | Dados/Services/DataIngestionService.cs:317-339 | a batch of distinct keys always saves; a stored key gets the update of its stored row, a new key its row |
| Tables.UpsertLaterWins | Dados/Services/DataIngestionService.cs:508-527 | with an update that overwrites every non-key field, a saved table is keyed and holds, under each key, the batch's last row with that key |
| Tables.UpsertBatch | Dados/Services/DataIngestionService.cs:508-529 | the row-by-row loop computes exactly Upsert, stopping at the first conflict |
| Tables.Gathered | Dados/Services/DataIngestionService.cs:274-310 | successes and failures together are one per target |
| Tables.GatheredExactly | Dados/Services/DataIngestionService.cs:274-310 | a failure does not stop the loop: exactly the successful outcomes of the targets are gathered |
| Tables.Flatten | Dados/Services/DataIngestionService.cs:465-479 | the flattened list holds exactly the elements of the batches; FlattenSnoc gives the order |
| Tables.FlattenSnoc | Dados/Services/DataIngestionService.cs:458-486 | one more symbol's trades, each added to the list in response order, come after all the trades of the symbols before it |
| Ingestion.UpdateSymbolRefreshes | Dados/Services/DataIngestionService.cs:209-221 | updating a stored symbol with its entity leaves exactly the entity, except for CollectedAt, which takes the update-time reading |
| Ingestion.SymbolTableShape | Dados/Services/DataIngestionService.cs:171-227 | a committed table of distinct BRL pairs has one row per pair; each row's base currency is the pair's base asset, the quote is BRL, the status ACTIVE, the precisions 8, 2 and 8; a stored symbol carries the update time and a new one the creation time |
| Ingestion.SymbolTableRows | Dados/Services/DataIngestionService.cs:166-227 | after a committed collection the table has exactly the 50 target symbols as keys, each row built as above |
| Ingestion.SymbolEntitiesKeys | Dados/Services/DataIngestionService.cs:171-183 | entities of distinct symbols have distinct keys, exactly the target symbols |
| Ingestion.SymbolUpsertRows | Dados/Services/DataIngestionService.cs:194-229 | the prune and upsert of the transaction save and hold, under each key, the row SymbolTable holds |
| Ingestion.CollectSymbolsSaves | Dados/Services/DataIngestionService.cs:194-229 | the prune and upsert of the transaction save exactly SymbolTable, keyed by Symbol |
| Ingestion.CollectTopSymbolsSaves | Dados/Services/DataIngestionService.cs:166-229 | the same, for the 50 target symbols |
| Ingestion.CollectSymbolsTwice | Dados/Services/DataIngestionService.cs:194-227 | collecting twice leaves one row per target, stamped by the second run's update time |
| Ingestion.TickerOutcome | Dados/Services/DataIngestionService.cs:276-307 | a symbol yields a ticker iff the call returned a non-empty response; the ticker is TickerRowFor of the response's first element: for that symbol, stamped with the collection time |
| Ingestion.GatherTickers | Dados/Services/DataIngestionService.cs:271-310 | the loop collects exactly the gathered tickers, counts each target once as a success or an error, and the counts add up to the targets |
| Ingestion.UpdateTickerOverwrites | Dados/Services/DataIngestionService.cs:322-332 | the ticker update overwrites every field but the key |
| Ingestion.GatheredTickers | Dados/Services/DataIngestionService.cs:274-310 | the tickers of distinct targets have distinct symbols, each is its symbol's outcome, and every answering target is collected |
| Ingestion.TickerTableWhenAllFail | Dados/Services/DataIngestionService.cs:259-341 | when no target answers, the collection leaves exactly the pruned table |
| Ingestion.TickerTableIdempotent | Dados/Services/DataIngestionService.cs:259-341 | collecting again with the same responses leaves the table as the first collection left it |
| Ingestion.TickerUpsertRows | Dados/Services/DataIngestionService.cs:314-339 | the ticker upsert saves and holds, under each symbol, the row TickerTable holds |
| Ingestion.CollectTickersSaves | Dados/Services/DataIngestionService.cs:259-341 | prune, gather and upsert save exactly TickerTable: targets only, a fresh ticker where one came, the stored row elsewhere; keyed by Symbol |
| Ingestion.CollectTopTickersSaves | Dados/Services/DataIngestionService.cs:257-341 | the same, for the 50 target symbols |
| Ingestion.TickerRowFor | Dados/Services/DataIngestionService.cs:281-292 | the entity carries the symbol, the response's Last, High, Low, Vol, Buy and Sell, its Date or 0 when missing, and the collection time |
| Ingestion.TradeRowFor | Dados/Services/DataIngestionService.cs:469-478 | a trade's key is its symbol and its Tid, with 0 for a missing Tid; the entity carries the trade's Date (0 when missing), Price, Type and Amount, and the collection time |
| Ingestion.TradeOutcome | Dados/Services/DataIngestionService.cs:460-498 | a symbol fails only when the call throws; a null or empty response is a success with no trades; otherwise the rows are the response's trades mapped by TradeRowFor, in order, each for that symbol and stamped with the collection time |
| Ingestion.GatherTrades | Dados/Services/DataIngestionService.cs:454-501 | the nested loop collects the trades of every answering symbol in order, counts each target once, and the counts add up to the targets |
| Ingestion.UpdateTradeOverwrites | Dados/Services/DataIngestionService.cs:513-521 | the trade update overwrites every field but the (Symbol, Tid) key |
| Ingestion.CollectTradesSaves | Dados/Services/DataIngestionService.cs:443-529 | the trades upsert fails iff two collected trades share a key the pruned table lacks; otherwise the table is keyed, has the pruned keys and the batch's keys, each batch key holds the last trade with it, and other rows are unchanged |
| Ingestion.MissingTidsCollide | Dados/Services/DataIngestionService.cs:472 | two trades of one symbol without a Tid share key (symbol, 0), and the batch is not saved when that key is not stored |
| Ingestion.DataIngestionService.constructor | Dados/Data/CryptoTradingDbContext.cs:26-43 | the four tables start as given, each row under its configured key |
| Ingestion.DataIngestionService.CollectSymbols | Dados/Services/DataIngestionService.cs:159-246 | a committed collection leaves exactly SymbolTable for the 50 symbols; a failure in the transaction rolls back and leaves the table as it was; other tables unchanged |
| Ingestion.DataIngestionService.CollectTickers | Dados/Services/DataIngestionService.cs:252-348 | the Tickers table becomes TickerTable for the 50 symbols; success and error counts add up to 50; other tables unchanged |
| Ingestion.DataIngestionService.PruneOrderBooks | Dados/Services/DataIngestionService.cs:358-368 | the order books outside the 50 symbols are removed and nothing else changes |
| Ingestion.DataIngestionService.CollectTrades | Dados/Services/DataIngestionService.cs:435-542 | the table is pruned, then holds the upsert of every collected trade if it saves, or stays pruned if the tracker throws; counts add up to 50; other tables unchanged |

## Left out

- Cancellation (`OperationCanceledException`, the stopping token) and the loop's catch-all handler (`Agendamentos/Worker.cs:57-66`) are not modelled. `ExecuteAsync` is modelled as a finite run of iterations. No exception escapes the modelled steps.
- Waits (`Task.Delay`) are not performed. The loader reports the total back-off it would wait. The 100/150 ms rate-limit waits of the collections are dropped.
- Reading `DateTime.Now` or `DateTime.UtcNow` is a parameter. As a simplification, several readings the source takes separately are collapsed into one value, so rows of one run that the source could stamp with different `CollectedAt` values carry the same one here:
  - the symbol collection has one creation time (`createdAt`) for every entity, where the source reads the clock per entity (`DataIngestionService.cs:182`), and one update time (`updatedAt`) for every stored symbol, where the source reads it per symbol after a database query (`DataIngestionService.cs:220`). Ingestion.SymbolTableShape, Ingestion.SymbolTableRows and Ingestion.CollectSymbolsTwice state their timestamps under this simplification;
  - the ticker and trade collections have one time per symbol response, where the trades collection reads the clock per trade (`DataIngestionService.cs:477`).
- Scheduling.ClockFollows: the scheduling lemmas (NeverFiresOnSeedingTick, FiringMovesPastTheMinute, ApplyMovesForward, AtMostOncePerMinute) assume the local clock never goes back between the tick and the readings of its pass, so every reading is at or after the tick. A clock moved back (a daylight-saving fall-back of `DateTime.Now`, a manual correction) is outside the model, and the source can then fire an entry twice in one wall-clock minute.
- Workers.ShouldRefresh: instants are whole seconds, so `DateTime.Now - _lastDbCheck > 1 minute` is compared on whole seconds. The source compares fractional `TimeSpan`s: with a check at 10.1 s and a tick at 70.9 s the source reloads (60.8 s) while the model, at 10 and 70, does not.
- Workers.Worker: the `_schedule` field is modelled as a value local to one entry's processing, since no other code reads it.
- Workers.Worker.ExecuteAsync: states that the working list stays well formed, that one dispatch list is logged per iteration and how the reload bookkeeping evolves, but not the working list's views after the run. What each iteration does to them is stated by Workers.Worker.Tick.
- The cron library (NCrontab) is not part of this model. Its parse and next-occurrence functions are parameters, constrained only by `Cron.Sound`.
- Logging, the HTTP client, EF Core's execution strategy and its retries are not modelled. A transaction failure is a single input (`failure`).
- Database failures outside the symbol transaction (a failing `SaveChanges` of a prune) are not modelled.
- `ParseDecimal` and `ParseLong` are not part of this model. Client responses carry values already parsed as `real`, and `x ?? 0` is modelled for the optional Tid, Date and ticker Date.
- The per-trade mapping `catch` (`DataIngestionService.cs:481-484`) is not modelled: the model assumes every numeric field parses. In the source a `double` or `float` payload that is NaN, infinite or beyond `decimal`'s range makes the cast in `ParseDecimal` throw, and that trade is then skipped.
- `CollectOrderBookAsync` beyond its prune is not part of this model: the order-book client, the JSON serialisation and the order-book upsert.
- Also not part of this model:
  - `CollectCandlesAsync` and the asset fee and network stubs;
  - the controller, program bootstrap, seeding, migrations and tests.
- Ingestion.DataIngestionService.CollectSymbols: the transaction's prune is not saved before the upserts. The model applies the upserts to the pruned table. This gives the same result, because every entity's symbol is a target and so never a pruned key.
- Ingestion.DataIngestionService.CollectTrades, Ingestion.DataIngestionService.CollectTickers and Ingestion.DataIngestionService.PruneOrderBooks: the rows of the dropped tables' own fields are stated only through the tables' maps. Row identity and the order of rows in the database are not modelled.
