# async-dependent-queue, modelled in Dafny

This project models the core of `async-dependent-queue`, a TypeScript library that runs caller-supplied asynchronous resolvers over items in a typed dependent queue. The model has three parts:

- **The executor** (`src/Executor/index.ts`). There is one executor per item type. It repeatedly peeks at the head of its type's ready queue and awaits the head's resolver. On success it polls the entry and emits `resolve`; on failure it moves the entry to the tail. A counter enforces a per-window `limit`, and `resetCounter` opens the next window.
- **The batch coordinator in its compiled form** (`dist/AsyncQueue/index.js`). Static state is shared by every batch: capacities per type, executors per type, the item → entry map, the dependent queue and the reset clock's flags. Each batch instance collects offers, adds them to the queue, subscribes one-shot resolve handlers, starts the executors and resolves once every offer has an outcome.
- **The older coordinator** (`src/AsyncQueue/index.ts`). It has the same registry with fewer side effects.

Modules:

| file | module | contents |
|---|---|---|
| `wrappers.dfy` | `Wrappers` | `Option` |
| `dependent_queue.dfy` | `DependentQueue` | the dependent queue's interface as the core uses it: a ready FIFO per type and a count of blocked entries |
| `handler_lists.dfy` | `HandlerLists` | `indexOf` and remove-first-occurrence on handler lists |
| `executor_spec.dfy` | `ExecutorSpec` | the executor's step and loop as pure functions over a `Snapshot`, and their properties |
| `executor.dfy` | `Executor` | the executor as a class; the steps that drive it (`Emit`, `Start`, `ResetCounter`, `ExistItemsHandler`, `EndHandler`, `Next`, `Settle`, `Run`) are proved against `ExecutorSpec` through `View()`, while the accessors, `SetLimit`, `On`, `Off` and `Stop` state their effect on the fields directly |
| `queue_common.dfy` | `QueueCommon` | capacity lookup, get-or-insert, the dependency-presence check and the add-failure test, shared by both coordinators |
| `batch_records.dfy` | `BatchRecords` | `OffersSpec`, the fold of one offer's step over a batch's offers (results, subscribed handlers, item map, handler lists), its properties, and how a batch's state matches it; shared by both coordinators' `execute` |
| `async_queue.dfy` | `AsyncQueue` | `Registry` (the static fields and methods) and `Batch` (one instance) of the compiled coordinator |
| `async_queue_legacy.dfy` | `AsyncQueueLegacy` | `LegacyRegistry` and `LegacyBatch` of the older coordinator, plus the as-written failure test |

### How the asynchrony is modelled

`next()` has exactly one suspension point, `await resolver(item)`, so it is split there:

- **`Executor.Next`** is the synchronous part. It checks "not executing", then `count >= limit`, then "no head", emits the matching event, and otherwise returns `Awaiting(entry)`.
- **`Executor.Settle(entry, completion)`** is the continuation. The resolver's answer and the `Date.now()` reading arrive as a `Completion` input.
- **`Executor.Run(completions)`** is the chain that `next()` forms by re-invoking itself.

The pure functions `Decide`, `AfterNext`, `Settled` and `RunSpec` state the same steps on snapshots, and the loop properties are proved about them.

Other modelling choices:

- Handler invocations are recorded in a `calls` log, in order.
- Items, resolvers and handler closures are identities (`nat`).
- The dependent queue's reply to `offer` is an input parameter.
- The type getter is a Dafny function value.
- The default capacity and the default reset interval are constructor parameters, because `constants.ts` is not part of this model.

Variant differences:

| | dist/AsyncQueue/index.js | src/AsyncQueue/index.ts |
|---|---|---|
| `setCapacity` | also sets every existing executor's limit | capacities only |
| `setTypeGetter` | new dependent queue, executors dropped | new dependent queue, executors kept (still bound to the old queue) |
| `getExecutor` | new executor gets `getCapacity(type)` | new executor keeps its default limit 1 |
| resolve handler | deletes the item from the item map and unsubscribes itself | records `true` only; stays subscribed |
| `execute` | starts the collected executors and the reset clock; asks the clock to stop when the queue is empty | neither |
| add-failure test | wraps a scalar result in an array | calls `.some` on it directly (see Findings) |

## Model

| member | source | states |
|---|---|---|
| HandlerLists.IndexOf | src/Executor/index.ts:45 | the result is -1 exactly when the handler is absent; otherwise it is the position of the handler's first occurrence |
| HandlerLists.WithoutFirst | src/Executor/index.ts:42-47 | an absent handler leaves the list unchanged; otherwise the list is spliced at the first occurrence of the handler |
| HandlerLists.WithoutFirstCounts | src/Executor/index.ts:42-47 | `off` removes exactly one copy of the handler and keeps every other handler (multiset) |
| HandlerLists.WithoutFirstUndoesPush | src/Executor/index.ts:36-47 | `off` after `on` of a handler that was not yet subscribed restores the list |
| HandlerLists.WithoutFirstKeepsOthers | src/Executor/index.ts:42-47 | removing one handler keeps every other handler subscribed |
| ExecutorSpec.CallsOf | src/Executor/index.ts:84-130 | the emit helpers call every handler of the event exactly once, in list order, with the item passed only by `resolve` |
| ExecutorSpec.Consumed | src/Executor/index.ts:65-82 | a run never uses more resolver completions than it is given |
| ExecutorSpec.SettledOutcome | src/Executor/index.ts:73-78 | on success the head is polled and `resolve` is emitted with its item; on failure the same entry goes to the tail, nothing is removed and nothing is emitted |
| ExecutorSpec.RunKeepsSettings | src/Executor/index.ts:65-82 | a run changes neither the limit, the running flag, the handler lists nor the blocked entries |
| ExecutorSpec.RunCount | src/Executor/index.ts:69-81 | after a run, `count` has grown by exactly the number of resolver calls made |
| ExecutorSpec.RunWithinQuota | src/Executor/index.ts:66-69 | a run makes at most `limit - count` resolver calls, so `count <= limit` is preserved |
| ExecutorSpec.RunConservesEntries | src/Executor/index.ts:73-78 | no entry is lost: the remaining ready queue plus the polled entries is the original ready queue (multiset) |
| ExecutorSpec.SettledKeepsEntries | src/Executor/index.ts:73-78 | one resolver call keeps every entry: it stays in the ready queue, or is polled on success (multiset) |
| ExecutorSpec.FailuresRotate | src/Executor/index.ts:76-78 | when the first k resolver calls all fail, nothing is polled and the ready queue is rotated by k |
| ExecutorSpec.LimitedRunIdles | src/Executor/index.ts:69 | a step taken at or over the limit emits `limit` and changes neither `count` nor the queue |
| ExecutorSpec.StoppedRunIdles | src/Executor/index.ts:68 | a step of a stopped executor emits `stop` and does nothing else |
| ExecutorSpec.RunRoom | src/Executor/index.ts:65-82 | a run of `next()` makes at most `limit - count` resolver calls (none once `count >= limit`) and leaves exactly the rest of that room |
| ExecutorSpec.ChainWithinRoom | src/Executor/index.ts:65-82 | runs of `next()` that each start from the count and limit the previous one ended with make together at most the room the first one starts with |
| ExecutorSpec.WindowQuota | src/Executor/index.ts:28-34 | after `resetCounter`, every run of `next()` until the next reset together (the one `resetCounter` re-enters, those `start()` and `existItemsHandler` re-enter after a refill, src/Executor/index.ts:49-53 and 132-137) makes at most `limit` resolver calls, whatever the resolvers answer, as long as the limit is not changed |
| ExecutorSpec.ResumesAfterCounterReset | tests/src/Executor/index.test.ts:35-55 | with four entries and limit 1, one successful call stops on the limit with the second entry at the head; after a reset, limit 2 and two more successful calls the fourth entry is at the head |
| ExecutorSpec.AfterStartIdempotent | src/Executor/index.ts:49-53 | `start()` leaves the executor running, and starting it a second time changes nothing |
| Executor.Executor.constructor | src/Executor/index.ts:5-18 | a new executor has limit 1, count 0, timestamp 0, is not running and has no handlers |
| Executor.Executor.SetLimit | src/Executor/index.ts:20-22 | the limit becomes the argument |
| Executor.Executor.GetCount | src/Executor/index.ts:24-26 | returns the count |
| Executor.Executor.GetExecuteTimestamp | src/Executor/index.ts:61-63 | returns the time of the last resolver completion |
| Executor.Executor.On | src/Executor/index.ts:36-40 | creates the event's list if it is missing and appends the handler at its tail |
| Executor.Executor.Off | src/Executor/index.ts:42-47 | no-op without a list or without the handler; otherwise removes the first occurrence (`WithoutFirst`) |
| Executor.Executor.Emit | src/Executor/index.ts:84-130 | appends to the call log exactly the calls `CallsOf` gives for the event's current list |
| Executor.Executor.Start | src/Executor/index.ts:49-53 | no-op when already running; otherwise sets running and takes one `next()` step from that state |
| Executor.Executor.Stop | src/Executor/index.ts:55-59 | no-op when not running; otherwise unsubscribes from `existType` and clears running |
| Executor.Executor.ResetCounter | src/Executor/index.ts:28-34 | `count` becomes 0; `resume` is emitted and `next()` re-entered if and only if the executor is running (limited or not) |
| Executor.Executor.ExistItemsHandler | src/Executor/index.ts:132-137 | does nothing unless the type matches and the executor runs; otherwise unsubscribes, then takes a `next()` step |
| Executor.Executor.EndHandler | src/Executor/index.ts:91-95 | subscribes to `existType`, then emits `finish` if the type's queue is empty, else `wait` |
| Executor.Executor.Next | src/Executor/index.ts:65-71 | decides in the source's order (stop, limit, end, run the head) and leaves the state `AfterNext` describes |
| Executor.Executor.Settle | src/Executor/index.ts:72-80 | poll and emit `resolve`, or move the entry to the tail, then count the call; other types' queues are untouched |
| Executor.Executor.Run | src/Executor/index.ts:65-82 | the loop of `next()` calls reaches exactly `RunSpec` and uses exactly `Consumed` completions |
| QueueCommon.GetCapacity | dist/AsyncQueue/index.js:67-71 | the default capacity without a type and for a type whose capacity is missing or 0; otherwise the type's capacity |
| QueueCommon.GetCapacityAfterSet | dist/AsyncQueue/index.js:17-25 | after setting a type's capacity, only that type's lookup changes (to n, or the default when n is 0) |
| QueueCommon.GetOrInsert | dist/AsyncQueue/index.js:54-66 | an existing entry is returned and never replaced; an absent item without a resolver gives null and no change; otherwise `{item, resolver}` is inserted |
| QueueCommon.GetOrInsertIdempotent | src/AsyncQueue/index.ts:48-57 | once an item is registered, later lookups with any resolver return the same entry and leave the map alone |
| QueueCommon.MissingDependencyRejected | dist/AsyncQueue/index.js:80-100 | with an unknown dependency the item is not registered; the reply is one presence bool per dependency in order (or `false` for a scalar dependency) and counts as failed |
| QueueCommon.PresentDependenciesRegister | dist/AsyncQueue/index.js:101-107 | with every dependency known, the item is registered get-or-insert style and the queue's reply is returned, or `false` without a resolver or a queue |
| QueueCommon.AddFailsExactlyWhenRejected | dist/AsyncQueue/index.js:174-181 | the normalised failure test holds exactly when a dependency is missing, the item has neither an entry nor a resolver, there is no queue, or the queue's reply holds a false flag |
| QueueCommon.IsAddFailedWrapped | dist/AsyncQueue/index.js:175-177 | the failure test `IsAddFailed` holds exactly when the reply is falsy (the scalar `false`) or the reply, with a scalar wrapped in an array, holds a false flag; an empty array does not fail |
| QueueCommon.LookupDependencies | src/AsyncQueue/index.ts:80-88 | one lookup per dependency in order, without inserting; the error flag is set exactly when one is missing |
| QueueCommon.AddItem | src/AsyncQueue/index.ts:75-102 | reply and new item map are exactly `AddOutcome` |
| AsyncQueue.Registry.constructor | dist/AsyncQueue/index.js:195-203 | the static initial values: no capacities, no executors, no items, no clock, a settled stop promise, type getter `() => '1'` |
| AsyncQueue.Registry.SetCapacity | dist/AsyncQueue/index.js:17-25 | changes only the type's capacity (or only the default), then every executor's limit equals its type's capacity |
| AsyncQueue.Registry.UpdateExecutorsCapacity | dist/AsyncQueue/index.js:36-41 | every stored executor's limit equals `getCapacity` of its type |
| AsyncQueue.Registry.SetResetInterval | dist/AsyncQueue/index.js:26-28 | records the period |
| AsyncQueue.Registry.SetTypeGetter | dist/AsyncQueue/index.js:29-32 | keeps the old getter when none is given, creates an empty dependent queue, drops every executor |
| AsyncQueue.Registry.WaitStop | dist/AsyncQueue/index.js:33-35 | the stop promise has settled exactly when no reset clock runs |
| AsyncQueue.Registry.GetExecutor | dist/AsyncQueue/index.js:42-53 | the stored executor for a known type; null without a queue; otherwise a new stored executor on the current queue whose limit is `getCapacity(type)` |
| AsyncQueue.Registry.GetDependQueueItem | dist/AsyncQueue/index.js:57-66 | get-or-insert on the item map (`GetOrInsert`) |
| AsyncQueue.Registry.AddItemToQueue | dist/AsyncQueue/index.js:80-108 | reply and item map as `AddOutcome` with the current queue |
| AsyncQueue.Registry.StopResetInterval | dist/AsyncQueue/index.js:109-112 | sets the stop flag only while a clock runs |
| AsyncQueue.Registry.StartResetInterval | dist/AsyncQueue/index.js:113-122 | clears a pending stop; creates a clock and a new stop promise only if none exists |
| AsyncQueue.Registry.ResetAllCounters | dist/AsyncQueue/index.js:124-127 | every executor takes exactly a `resetCounter` step |
| AsyncQueue.Registry.ResetExecutors | dist/AsyncQueue/index.js:123-134 | every executor counter is reset first; only when a stop was requested are the flag, the clock and the stop promise cleared |
| AsyncQueue.Batch.constructor | dist/AsyncQueue/index.js:12-16 | an empty result map, offer list and executor list |
| AsyncQueue.Batch.Offer | dist/AsyncQueue/index.js:156-158 | appends the offer and changes nothing else |
| AsyncQueue.Batch.ExecuteOffer | dist/AsyncQueue/index.js:159-193 | one offer takes exactly the step `OfferEffect` describes: without a queue the item records `false` and nothing else changes; with one the type ends with a stored executor (new ones with no handlers) and the item map is the add outcome's; a failed add records its reply and changes no handler list; a successful one waits on the next handler identity, appends it to that executor's `resolve` list and collects the executor, changing no other handler list |
| AsyncQueue.Batch.OfferQueued | dist/AsyncQueue/index.js:167-193 | `executeOffer` with a dependent queue takes exactly the queued half of `OfferEffect` |
| AsyncQueue.Batch.FetchExecutor | dist/AsyncQueue/index.js:168-172 | with a dependent queue `getExecutor` always yields the executor stored under the type, a new one with no handlers when there was none, so the null branch never runs |
| AsyncQueue.Batch.AddAndSubscribe | dist/AsyncQueue/index.js:173-192 | the add outcome decides: a failed add records its reply only; a successful one collects the executor and appends a fresh handler to its `resolve` list, keeping every waiting handler subscribed |
| AsyncQueue.Batch.HandleResolve | dist/AsyncQueue/index.js:183-190 | another item changes nothing, and every executor keeps its handlers; the matching item is deleted from the item map, records `true`, its handler leaves the waiting set and is removed from its executor's `resolve` list with `off`; every other executor keeps its handlers and every other waiting handler stays subscribed |
| AsyncQueue.Batch.ExecuteOffers | dist/AsyncQueue/index.js:142-144 | running every offer in order leaves the results, the waiting handlers, the item map, the next handler identity, the stored executors and every executor's handler lists exactly as the fold `OffersSpec` of the per-offer step gives them; every offer is accounted for; the executor list holds, in order, the executor of each new handler; executors stored before stay stored |
| AsyncQueue.Batch.ExecuteOfferAt | dist/AsyncQueue/index.js:142-143 | a state that matches `OffersSpec` of the first i offers matches `OffersSpec` of the first i + 1 after `executeOffer(offerList[i])`, and the executor list stays aligned with the handler identities |
| AsyncQueue.Batch.StartExecutors | dist/AsyncQueue/index.js:151 | every collected executor took exactly one `start()` step (`AfterStart`, once even when listed twice) and is running afterwards |
| AsyncQueue.Batch.Execute | dist/AsyncQueue/index.js:135-155 | memoised on the promise, with nothing changed; the result map at once, with nothing changed, for an empty offer list; otherwise the promise, with the offers' outcome exactly `OffersSpec`, every collected executor stored and running, the reset clock running with no stop pending, and each executor stored before equal to its old state with the new handler lists, after one `start()` step (`AfterStart`) exactly when it was collected |
| AsyncQueue.Batch.Launch | dist/AsyncQueue/index.js:141-153 | the promise body: the offers' outcome is exactly `OffersSpec`, then each collected executor takes one `start()` step from its state after the offers, is stored and is running, and the reset clock runs; an executor stored before that was not collected differs from its old state in its handler lists only |
| AsyncQueue.Batch.RunOffers | dist/AsyncQueue/index.js:141-144 | sets the promise and runs the offers with outcome `OffersSpec`; an executor stored before differs from its old state in its handler lists only |
| AsyncQueue.Batch.StartAll | dist/AsyncQueue/index.js:151-152 | every collected executor takes exactly one `start()` step (`AfterStart`) and is running afterwards; every other stored executor is unchanged; no handler list changes; the reset clock runs with no stop pending |
| AsyncQueue.CollectedStep | dist/AsyncQueue/index.js:182 | appending the executor of the next handler keeps the executor list aligned with the handler identities |
| AsyncQueue.ListedAreStored | dist/AsyncQueue/index.js:168-182 | every collected executor is a stored executor of the registry |
| BatchRecords.OfferStepGrows | dist/AsyncQueue/index.js:159-193 | one offer removes no result, handler or type, and leaves its item with a result or with the next handler identity waiting for it; a result it writes is a failed add with a queue and `false` without one |
| BatchRecords.OffersSpecGrows | dist/AsyncQueue/index.js:142-144 | running offers removes no result, handler or type and never hands out a handler identity twice |
| BatchRecords.OffersSpecAccounts | dist/AsyncQueue/index.js:142-150 | after the offers, every offered item has a result or a handler waiting for it, so the batch can conclude only when each has an outcome |
| BatchRecords.OffersSpecResults | dist/AsyncQueue/index.js:163-181 | every result the offers write belongs to an offered item and is a failed add (with a queue) or `false` (without); earlier results no offer touched stay |
| BatchRecords.OfferStepAppended | dist/AsyncQueue/index.js:182-191 | one offer keeps this: a handler identity is on a type's appended list exactly when it waits for an item of that type |
| BatchRecords.OffersSpecAppended | dist/AsyncQueue/index.js:182-191 | after the offers, a handler identity is on a type's appended `resolve` list exactly when it waits for an item of that type, and identities lie between the first and the next |
| BatchRecords.OffersSpecWithoutQueue | dist/AsyncQueue/index.js:163-166 | without a dependent queue every offered item records `false` and nothing else changes |
| BatchRecords.WithAppendedPush | src/Executor/index.ts:36-40 | one more `on('resolve', h)` extends the appended handlers by h |
| BatchRecords.HandlersAfterOne | dist/AsyncQueue/index.js:168 | storing an executor under one type changes the handler view at that type only |
| BatchRecords.LedgerNoQueue | dist/AsyncQueue/index.js:163-166 | a state matching the ledger still matches it after an offer without a queue records `false` |
| BatchRecords.LedgerFailedAdd | dist/AsyncQueue/index.js:174-181 | a state matching the ledger still matches it after an offer whose add failed |
| BatchRecords.LedgerSubscribe | dist/AsyncQueue/index.js:182-191 | a state matching the ledger still matches it after an offer that subscribed the next handler |
| BatchRecords.QueuedEffect | dist/AsyncQueue/index.js:167-193 | fetching the executor, then adding and subscribing, makes up the queued step of `OfferEffect` |
| BatchRecords.OfferEffectKeepsWaiters | dist/AsyncQueue/index.js:159-193 | one offer's step keeps every handler that was already waiting |
| BatchRecords.LedgerStep | dist/AsyncQueue/index.js:142-143 | a state matching the ledger of some offers that takes one `OfferEffect` step matches the ledger with that offer added |
| BatchRecords.LedgerAccounts | dist/AsyncQueue/index.js:142-150 | a state matching the ledger of all offers accounts for every offer |
| AsyncQueue.Batch.Conclude | dist/AsyncQueue/index.js:144-150 | concludes exactly when every offer has settled; a stop is then requested if the whole queue is empty, and the batch resolves |
| AsyncQueueLegacy.AddFailedAsWritten | src/AsyncQueue/index.ts:145-146 | throws exactly on the scalar `true` reply; on every other reply it agrees with `IsAddFailed` |
| AsyncQueueLegacy.ScalarSuccessThrows | src/AsyncQueue/index.ts:143-150 | an offer with a resolver and no dependency that the queue accepts with `true` makes the as-written test throw |
| AsyncQueueLegacy.LegacyRegistry.constructor | src/AsyncQueue/index.ts:36-42 | the static initial values, type getter `() => '1'` |
| AsyncQueueLegacy.LegacyRegistry.SetCapacity | src/AsyncQueue/index.ts:13-16 | changes only the type's capacity (or only the default); executor limits are unchanged |
| AsyncQueueLegacy.LegacyRegistry.SetResetInterval | src/AsyncQueue/index.ts:18-20 | records the period |
| AsyncQueueLegacy.LegacyRegistry.SetTypeGetter | src/AsyncQueue/index.ts:22-24 | new empty queue, getter kept when none is given; stored executors stay, none on the new queue |
| AsyncQueueLegacy.LegacyRegistry.GetExecutor | src/AsyncQueue/index.ts:26-34 | memoised per type; a new executor keeps limit 1 |
| AsyncQueueLegacy.LegacyRegistry.GetDependQueueItem | src/AsyncQueue/index.ts:48-57 | get-or-insert on the item map |
| AsyncQueueLegacy.LegacyRegistry.AddItemToQueue | src/AsyncQueue/index.ts:75-102 | reply and item map as `AddOutcome` |
| AsyncQueueLegacy.LegacyBatch.Offer | src/AsyncQueue/index.ts:123-125 | appends the offer only |
| AsyncQueueLegacy.LegacyBatch.constructor | src/AsyncQueue/index.ts:104-106 | an empty result map and offer list and no promise |
| AsyncQueueLegacy.LegacyBatch.ExecuteOffer | src/AsyncQueue/index.ts:127-158 | one offer takes exactly the step `OfferEffect` describes, as for the compiled variant but collecting no executor; settled handlers stay as they are |
| AsyncQueueLegacy.LegacyBatch.OfferQueued | src/AsyncQueue/index.ts:137-157 | `executeOffer` with a dependent queue takes exactly the queued half of `OfferEffect` |
| AsyncQueueLegacy.LegacyBatch.FetchExecutor | src/AsyncQueue/index.ts:138-142 | with a dependent queue `getExecutor` always yields the executor stored under the type, a new one with no handlers, so the null branch never runs |
| AsyncQueueLegacy.LegacyBatch.AddAndSubscribe | src/AsyncQueue/index.ts:143-156 | a failed add records its reply only; a successful one appends a fresh handler to the executor's `resolve` list, keeping every batch handler subscribed |
| AsyncQueueLegacy.LegacyBatch.Subscribe | src/AsyncQueue/index.ts:151-156 | `executor.on('resolve', handler)`: the next handler identity waits for the item and is appended to the executor's `resolve` list |
| AsyncQueueLegacy.LegacyBatch.HandleResolve | src/AsyncQueue/index.ts:151-156 | records `true` only for the handler's own item; a waiting handler then counts as settled, a settled one records `true` again; nothing is unsubscribed or deleted and the executors listened to stay the same |
| AsyncQueueLegacy.SettleKeepsListeners | src/AsyncQueue/index.ts:151-156 | settling a handler keeps the set of executors the batch listens to |
| AsyncQueueLegacy.LegacyBatch.ExecuteOffers | src/AsyncQueue/index.ts:116-118 | running every offer in order leaves the results, the waiting handlers, the item map, the next handler identity, the stored executors and their handler lists exactly as `OffersSpec` gives them; every offer is accounted for; nothing is settled |
| AsyncQueueLegacy.LegacyBatch.ExecuteOfferAt | src/AsyncQueue/index.ts:116-117 | a state that matches `OffersSpec` of the first i offers matches `OffersSpec` of the first i + 1 after `executeOffer(offerList[i])` |
| AsyncQueueLegacy.LegacyBatch.Execute | src/AsyncQueue/index.ts:108-121 | memoised, with nothing changed; the result map at once, with nothing changed, for an empty list; otherwise the promise, with the offers' outcome exactly `OffersSpec` and every executor stored before equal to its old state except for its handler lists (none is started) |
| AsyncQueueLegacy.LegacyBatch.RunOffers | src/AsyncQueue/index.ts:113-118 | sets the promise and runs the offers with outcome `OffersSpec`, nothing settled and nothing resolved; an executor stored before differs from its old state in its handler lists only |
| AsyncQueueLegacy.LegacyBatch.Conclude | src/AsyncQueue/index.ts:116-118 | resolves exactly when every offer has settled |

## Left out

- The dependent queue's internals: `offer`, dependency promotion from blocked to ready, deduplication and the `existType` event. The queue is an external library not part of this model. The queue's reply to `offer` is an input, and the model does not add the offered entry to any ready queue.
- Promises, `async`/`await`, `Promise.all`, `setInterval`/`clearInterval` and `Date.now`. A resolver's answer and the clock reading are `Completion` inputs. A clock tick is a call of `ResetExecutors`. A batch's completion is a call of `Conclude`. A rejected promise is not represented.
- Interleavings: several executors running at once, and `resetCounter` or `existItemsHandler` re-entering `next()` while a resolver is awaited. Only sequential steps are modelled.
- Executor.Executor.Settle: does not re-check that the settled entry is still at the head. Without interleaving, the head is the entry `next()` peeked.
- Executor.Executor.Emit: records the handler list as it was when the event fired. A handler that unsubscribes itself during `forEach` makes JavaScript skip the next handler in the list; that skip is not modelled.
- Handlers are recorded as calls rather than run. The batch's resolve handlers are separate methods (`HandleResolve`), called by whoever drives the model.
- AsyncQueue.Batch.Conclude: the stop check calls `checkQueueEmpty()` without a type. The model takes that to mean "the whole queue is empty", because the library's behaviour for a missing type is not part of this model.
- `constants.ts` is not part of this model: `DEFAULT_CAPACITY` and `ONE_SECOND_MILLISECONDS` are constructor parameters.
- `dist/Executor/index.js` is a compiled copy of `src/Executor/index.ts` and is not modelled separately.
- Declaration files, interfaces, test fixtures and the lodash helpers carry no behaviour.
- Executor.Executor.Settle: states that the blocked entries and other types' ready queues are unchanged. A real `poll` may promote entries that depended on the polled one; the dependent queue's promotion is not part of this model, so polls are taken to promote nothing.
- Executor.Executor.Run: states that the blocked entries and other types' ready queues are unchanged, taking every poll to promote nothing, as for `Settle`.
- ExecutorSpec.RunKeepsSettings: says the blocked entries are unchanged by a run, taking every poll to promote nothing, as for `Settle`.
- DependentQueue.TypedQueue.Poll: drops the head of its type's ready queue only; the promotion of entries that depended on it is not modelled.
- DependentQueue.TypedQueue.MoveEnd: moves the head of its type's ready queue to its tail only, and promotes nothing.
- QueueCommon.AddItem: follows `if (depend)` only for a missing dependency (`NoDepend`). A falsy scalar dependency such as `0`, `''` or `false` is treated as a dependency, while the source treats it as none. Items and dependencies are taken to be truthy identities.
- AsyncQueue.Registry.AddItemToQueue: has the same truthiness limit as `QueueCommon.AddItem`.
- AsyncQueueLegacy.LegacyRegistry.AddItemToQueue: has the same truthiness limit as `QueueCommon.AddItem`.
- A JavaScript `number` is modelled as an unbounded `int`. Lost with it: `capacity[type] || defaultCapacity` (dist/AsyncQueue/index.js:70) also falls back for `NaN` and `undefined`, where `QueueCommon.GetCapacity` falls back only for a missing entry or 0; `count >= limit` (src/Executor/index.ts:69) is never true for a `NaN` or `undefined` limit, so such an executor is never limited, which `ExecutorSpec.Decide` cannot express; fractional limits and capacities cannot be written; and the plain objects `capacity` and `executors` also answer inherited keys such as `toString` or `constructor`, while the model's maps hold only what was stored.
- AsyncQueue.Batch.Execute: states the new state of an executor the batch itself created only through `OffersSpec` (it is stored under its type and holds exactly the batch's handlers) and, when it was collected, that it is running. Its limit, count and call log, and hence the exact `start()` step it took, are not stated: `AsyncQueue.Registry.GetExecutor` states them at creation, but carrying that description through every offer of the batch is beyond what the verifier proves within its resource limit.
- AsyncQueue.Batch.Launch: has the same limit as `Execute` for executors the batch created.
- AsyncQueueLegacy.LegacyBatch.Execute: likewise states an executor the batch created only through `OffersSpec`, not its limit 1, count or flags.
- AsyncQueueLegacy.LegacyBatch.ExecuteOffer: uses the corrected failure test `IsAddFailed`. The as-written test is `AddFailedAsWritten` (see Findings).
- AsyncQueueLegacy.LegacyBatch.OfferQueued: uses the corrected failure test `IsAddFailed`, so a scalar `true` reply counts as a success where src/AsyncQueue/index.ts:146 throws (see Findings).
- AsyncQueueLegacy.LegacyBatch.AddAndSubscribe: uses the corrected failure test `IsAddFailed` in the same way; its failed and successful branches follow the corrected test, not the throwing one.
- AsyncQueueLegacy.LegacyBatch.ExecuteOfferAt: inherits the corrected failure test through `LegacyBatch.ExecuteOffer`.
- AsyncQueueLegacy.LegacyBatch.ExecuteOffers: inherits the corrected failure test through `LegacyBatch.ExecuteOfferAt`. In the source the throw rejects only that offer's promise, so the other offers still run, as here.
- AsyncQueueLegacy.LegacyBatch.RunOffers: inherits the corrected failure test through `LegacyBatch.ExecuteOffers`.
- AsyncQueueLegacy.LegacyBatch.Execute: inherits the corrected failure test through `LegacyBatch.RunOffers`. In the source a scalar `true` reply makes `Promise.all` reject, so the promise of `execute()` never resolves; the model records that offer as accepted instead.

## Findings

One observation about the tests, not executed: the test at tests/src/Executor/index.test.ts:35-55 waits 110 ms between its checks, and each resolver answers after 100 ms (tests/src/Executor/BaseType.ts:13). Read as text, only `second` completes in the second wait, and `third` is still at the head when the test expects `fourth`. `ExecutorSpec.ResumesAfterCounterReset` states the outcome after two completed calls, which is what the test's expectation describes.


| source | as written | input that shows it | evidently intended | confidence | as-written member | corrected member |
|---|---|---|---|---|---|---|
| src/AsyncQueue/index.ts:145-146 | `!r \|\| (r as boolean[]).some(v => !v)` calls `.some` on a scalar result, and the scalar `true` is not an array, so this throws a TypeError | `offer({ item, resolver })` with no dependency, accepted by the dependent queue with `true`: the executeOffer promise rejects, no handler is subscribed, and the batch promise never resolves | wrap a scalar in an array first, as dist/AsyncQueue/index.js:175-177 does: the add failed if any flag is false (`IsAddFailed`); `AsyncQueueLegacy.ScalarSuccessThrows` exhibits the throw | medium, not executed | AsyncQueueLegacy.AddFailedAsWritten | QueueCommon.AddFailsExactlyWhenRejected |
