/**
 * The batch coordinator of dist/AsyncQueue/index.js.
 *
 * `Registry` holds what the source keeps in static fields of `AsyncQueue`
 * (capacities, executors per type, the item map, the dependent queue, the
 * reset-clock flags); `Batch` is one `AsyncQueue` instance (its offer list,
 * result map, memoised execute promise and the executors it started).
 */
module AsyncQueue {
  import opened Wrappers
  import opened DependentQueue
  import opened HandlerLists
  import opened ExecutorSpec
  import opened Executor
  import opened QueueCommon
  import opened BatchRecords

  class Registry {
    var capacity: map<string, int>
    var defaultCapacity: int
    var resetInterval: int
    var typeGetter: Item -> string
    var dq: TypedQueue?
    var executors: map<string, Executor>
    var itemMap: map<Item, Entry>
    var stopOnNextStep: bool
    /** Whether a reset interval is installed (`resetIntervalInstance`). */
    var intervalActive: bool
    /** Whether the promise `waitStop()` hands out has settled. */
    var stopSettled: bool
    /** Identity for the next resolve handler a batch creates (each closure is a new object). */
    var nextHandler: Handler

    /**
     * Each executor is stored under its own type and works on the current
     * dependent queue; a pending stop needs a running clock; the stop promise
     * is settled exactly when no clock runs.
     */
    ghost predicate Valid()
      reads this
    {
      && (forall t :: t in executors ==> executors[t].typ == t && executors[t].dq == dq)
      && (stopOnNextStep ==> intervalActive)
      && (intervalActive <==> !stopSettled)
    }

    /** The static initial values; `DEFAULT_CAPACITY` and `ONE_SECOND_MILLISECONDS` are parameters. */
    constructor (defaultCapacity: int, resetInterval: int)
      ensures Valid()
      ensures capacity == map[] && this.defaultCapacity == defaultCapacity && this.resetInterval == resetInterval
      ensures dq == null && executors == map[] && itemMap == map[]
      ensures !stopOnNextStep && !intervalActive && stopSettled
      ensures forall x :: typeGetter(x) == "1"
    {
      capacity := map[];
      this.defaultCapacity := defaultCapacity;
      this.resetInterval := resetInterval;
      typeGetter := _ => "1";
      dq := null;
      executors := map[];
      itemMap := map[];
      stopOnNextStep, intervalActive, stopSettled := false, false, true;
      nextHandler := 0;
    }

    /** `getCapacity(type)` for a type name. */
    function Capacity(t: string): int
      reads this
    {
      GetCapacity(capacity, defaultCapacity, Some(t))
    }

    /** `setCapacity(n, type)`: one capacity changes, then every existing executor gets its type's capacity. */
    method SetCapacity(n: int, t: Option<string>)
      requires Valid()
      modifies this`capacity, this`defaultCapacity, executors.Values`limit
      ensures Valid()
      ensures (capacity, defaultCapacity) == CapacityAfterSet(old(capacity), old(defaultCapacity), n, t)
      ensures forall u :: u in executors ==> executors[u].limit == Capacity(u)
    {
      if HasType(t) {
        capacity := capacity[t.value := n];
      } else {
        defaultCapacity := n;
      }
      UpdateExecutorsCapacity();
    }

    /** `updateExecutorsCapacity()`: `setLimit(getCapacity(type))` on every executor. */
    method UpdateExecutorsCapacity()
      requires Valid()
      modifies executors.Values`limit
      ensures forall u :: u in executors ==> executors[u].limit == Capacity(u)
    {
      var todo := executors.Keys;
      while todo != {}
        invariant todo <= executors.Keys
        invariant forall u :: u in executors && u !in todo ==> executors[u].limit == Capacity(u)
        decreases todo
      {
        var u :| u in todo;
        executors[u].SetLimit(Capacity(u));
        todo := todo - {u};
      }
    }

    method SetResetInterval(ms: int)
      modifies this`resetInterval
      ensures resetInterval == ms
    {
      resetInterval := ms;
    }

    /** `setTypeGetter(fn)`: keeps the old getter when none is given, makes a new queue, drops every executor. */
    method SetTypeGetter(fn: Option<Item -> string>)
      requires Valid()
      modifies this`typeGetter, this`dq, this`executors
      ensures Valid()
      ensures typeGetter == if fn.Some? then fn.value else old(typeGetter)
      ensures dq != null && fresh(dq) && dq.ready == map[] && dq.blocked == map[]
      ensures executors == map[]
    {
      if fn.Some? {
        typeGetter := fn.value;
      }
      dq := new TypedQueue();
      executors := map[];
    }

    /** `waitStop()`: whether the reset clock has fully stopped. */
    method WaitStop() returns (stopped: bool)
      requires Valid()
      ensures stopped <==> !intervalActive
    {
      stopped := stopSettled;
    }

    /**
     * `getExecutor(type)`: the stored executor for a known type; null without
     * a dependent queue; otherwise a new executor with the type's capacity as
     * its limit, stored under the type.
     */
    method GetExecutor(t: string) returns (e: Executor?)
      requires Valid()
      modifies this`executors
      ensures Valid()
      ensures t in old(executors) ==> e == old(executors)[t] && executors == old(executors)
      ensures t !in old(executors) && dq == null ==> e == null && executors == old(executors)
      ensures t !in old(executors) && dq != null ==>
        && e != null && fresh(e) && executors == old(executors)[t := e]
        && e.typ == t && e.dq == dq && e.limit == Capacity(t)
        && e.count == 0 && !e.isExecuting && e.handlers == map[] && !e.listening && e.calls == []
    {
      if t in executors {
        return executors[t];
      }
      if dq == null {
        return null;
      }
      e := new Executor(dq, t);
      e.SetLimit(Capacity(t));
      executors := executors[t := e];
    }

    /** `getDependQueueItem(item, resolver)`: get-or-insert on the item map. */
    method GetDependQueueItem(item: Item, resolver: Option<Resolver>) returns (e: Option<Entry>)
      modifies this`itemMap
      ensures (e, itemMap) == GetOrInsert(old(itemMap), item, resolver)
    {
      var r := GetOrInsert(itemMap, item, resolver);
      e, itemMap := r.0, r.1;
    }

    /** `addItemToQueue(offer)`; `offered` is the dependent queue's own reply to `offer`. */
    method AddItemToQueue(o: Offer, offered: AddResult) returns (r: AddResult)
      modifies this`itemMap
      ensures (r, itemMap) == AddOutcome(old(itemMap), o, dq != null, offered)
    {
      r, itemMap := AddItem(itemMap, o, dq != null, offered);
    }

    /** `stopResetInterval()`: asks for a stop at the next tick, and only while a clock runs. */
    method StopResetInterval()
      requires Valid()
      modifies this`stopOnNextStep
      ensures Valid()
      ensures stopOnNextStep == (old(stopOnNextStep) || intervalActive)
    {
      if intervalActive {
        stopOnNextStep := true;
      }
    }

    /** `startResetInterval()`: cancels a pending stop; installs a clock (and a new stop promise) only if none runs. */
    method StartResetInterval()
      requires Valid()
      modifies this`stopOnNextStep, this`intervalActive, this`stopSettled
      ensures Valid()
      ensures !stopOnNextStep && intervalActive
      ensures old(intervalActive) ==> stopSettled == old(stopSettled)
    {
      if stopOnNextStep {
        stopOnNextStep := false;
      }
      if !intervalActive {
        stopSettled := false;
        intervalActive := true;
      }
    }

    /** The first half of `resetExecutors()`: `resetCounter()` on every executor. */
    method ResetAllCounters()
      requires Valid()
      modifies executors.Values`count, executors.Values`calls, executors.Values`listening
      ensures forall u :: u in executors ==> executors[u].View() == AfterReset(old(executors[u].View()))
    {
      var todo := executors.Values;
      while todo != {}
        invariant todo <= executors.Values
        invariant forall e :: e in executors.Values && e !in todo ==> e.View() == AfterReset(old(e.View()))
        invariant forall e :: e in todo ==> e.count == old(e.count) && e.calls == old(e.calls) && e.listening == old(e.listening)
        decreases todo
      {
        var e :| e in todo;
        assert e.View() == old(e.View());
        var d := e.ResetCounter();
        todo := todo - {e};
      }
      forall u | u in executors
        ensures executors[u].View() == AfterReset(old(executors[u].View()))
      {
        assert executors[u] in executors.Values;
      }
    }

    /**
     * `resetExecutors()`, one clock tick: every executor's counter is reset
     * first; then, only if a stop was requested, the flag is cleared, the
     * clock removed and the stop promise settled.
     */
    method ResetExecutors()
      requires Valid()
      modifies this`stopOnNextStep, this`intervalActive, this`stopSettled
      modifies executors.Values`count, executors.Values`calls, executors.Values`listening
      ensures Valid()
      ensures forall u :: u in executors ==> executors[u].View() == AfterReset(old(executors[u].View()))
      ensures forall u :: u in executors ==> executors[u].count == 0
      ensures old(stopOnNextStep) ==> !stopOnNextStep && !intervalActive && stopSettled
      ensures !old(stopOnNextStep) ==>
        !stopOnNextStep && intervalActive == old(intervalActive) && stopSettled == old(stopSettled)
    {
      ResetAllCounters();
      if stopOnNextStep {
        stopOnNextStep := false;
        intervalActive := false;
        stopSettled := true;
      }
    }
  }

  /** Handler `h` is waiting on executor `e`. */
  ghost predicate WaitsOn(waiting: map<Handler, Waiter>, h: Handler, e: Executor)
  {
    h in waiting && waiting[h].executor == e
  }

  /** The j-th collected executor is the executor of the handler with identity `next0 + j`. */
  ghost predicate Collected(executorList: seq<Executor>, waiting: map<Handler, Waiter>, next0: Handler)
  {
    forall j: nat :: j < |executorList| ==> WaitsOn(waiting, next0 + j, executorList[j])
  }

  /** Every collected executor is the stored executor of its offer's type. */
  lemma ListedAreStored(list: seq<Executor>, waiting: map<Handler, Waiter>, next0: Handler,
                        pending: map<Handler, Item>, typeOf: Item -> string, executors: map<string, Executor>)
    requires Collected(list, waiting, next0) && WaitersMatch(waiting, pending, typeOf, executors)
    ensures forall e :: e in list ==> e in executors.Values
  {
    forall e | e in list
      ensures e in executors.Values
    {
      var j :| 0 <= j < |list| && list[j] == e;
      assert WaitsOn(waiting, next0 + j, list[j]);
    }
  }

  /** Collecting nothing, or the executor of the next handler, keeps `Collected`. */
  lemma {:induction false} CollectedStep(list: seq<Executor>, list1: seq<Executor>, waiting: map<Handler, Waiter>,
                                         waiting1: map<Handler, Waiter>, next0: Handler, next: Handler)
    requires Collected(list1, waiting1, next0) && next0 + |list1| == next
    requires forall g :: g in waiting1 ==> g in waiting && waiting[g] == waiting1[g]
    requires list == list1 || (next in waiting && list == list1 + [waiting[next].executor])
    ensures Collected(list, waiting, next0)
  {
    forall j: nat | j < |list|
      ensures WaitsOn(waiting, next0 + j, list[j])
    {
      if j < |list1| {
        assert list[j] == list1[j];
        assert WaitsOn(waiting1, next0 + j, list1[j]);
      }
    }
  }

  /** What `execute()` hands back: the batch's one memoised promise, or the result map at once. */
  datatype ExecuteReply = BatchPromise | ResolvedWith(result: map<Item, AddResult>)

  class Batch {
    const reg: Registry
    var result: map<Item, AddResult>
    var offerList: seq<Offer>
    /** Whether `executePromise` has been created. */
    var executePromise: bool
    var executorList: seq<Executor>
    /** The resolve handlers of offers that have not settled yet. */
    var waiting: map<Handler, Waiter>
    /** Whether `executePromise` has resolved. */
    var resolved: bool

    /**
     * Every waiting handler identity was handed out before the registry's
     * next one, and is still subscribed to its executor's 'resolve' event.
     */
    ghost predicate Subscribed()
      reads this, reg`nextHandler, WaitingExecutors()`handlers
    {
      && (forall h :: h in waiting ==> h < reg.nextHandler)
      && (forall h :: h in waiting ==> h in HandlersFor(waiting[h].executor.handlers, ResolveEvent))
    }

    /** Before `execute()` nothing has been started or subscribed. */
    ghost predicate Valid()
      reads this, reg`nextHandler, WaitingExecutors()`handlers
    {
      && (!executePromise ==> executorList == [] && waiting == map[] && !resolved)
      && Subscribed()
    }

    constructor (reg: Registry)
      ensures Valid()
      ensures this.reg == reg && result == map[] && offerList == [] && !executePromise
    {
      this.reg := reg;
      result, offerList, executePromise := map[], [], false;
      executorList, waiting, resolved := [], map[], false;
    }

    /** `offer(params)`: only appends to the offer list. */
    method Offer(o: Offer)
      requires Valid()
      modifies this`offerList
      ensures Valid()
      ensures offerList == old(offerList) + [o]
    {
      offerList := offerList + [o];
    }

    /**
     * `executeOffer(offer)`: without a dependent queue the item records false.
     * Otherwise the item's executor is fetched or created and the item added;
     * a failed add records the add result; a successful one remembers the
     * executor and subscribes a one-shot resolve handler for the item to it.
     * No other executor's handlers change.
     */
    method ExecuteOffer(o: Offer, offered: AddResult)
      requires reg.Valid() && Subscribed()
      modifies this`result, this`executorList, this`waiting
      modifies reg`executors, reg`itemMap, reg`nextHandler, reg.executors.Values`handlers
      ensures reg.Valid() && Subscribed()
      ensures OfferEffect(o, offered, reg.dq != null, reg.typeGetter,
                          old(result), old(waiting), old(reg.itemMap), old(reg.nextHandler), old(reg.executors),
                          old(HandlersNow(reg.executors)),
                          result, waiting, reg.itemMap, reg.nextHandler, reg.executors, HandlersNow(reg.executors))
      ensures || (executorList == old(executorList) && reg.nextHandler == old(reg.nextHandler))
              || (&& reg.nextHandler == old(reg.nextHandler) + 1 && old(reg.nextHandler) in waiting
                  && executorList == old(executorList) + [waiting[old(reg.nextHandler)].executor])
      ensures forall t :: t in reg.executors ==> t in old(reg.executors) || fresh(reg.executors[t])
    {
      if reg.dq == null {
        result := result[o.item := Flag(false)];
        return;
      }
      OfferQueued(o, offered);
    }

    /** `executeOffer(offer)` when there is a dependent queue: find the executor, then add and subscribe. */
    method OfferQueued(o: Offer, offered: AddResult)
      requires reg.Valid() && Subscribed() && reg.dq != null
      modifies this`result, this`executorList, this`waiting
      modifies reg`executors, reg`itemMap, reg`nextHandler, reg.executors.Values`handlers
      ensures reg.Valid() && Subscribed()
      ensures OfferEffect(o, offered, reg.dq != null, reg.typeGetter,
                          old(result), old(waiting), old(reg.itemMap), old(reg.nextHandler), old(reg.executors),
                          old(HandlersNow(reg.executors)),
                          result, waiting, reg.itemMap, reg.nextHandler, reg.executors, HandlersNow(reg.executors))
      ensures || (executorList == old(executorList) && reg.nextHandler == old(reg.nextHandler))
              || (&& reg.nextHandler == old(reg.nextHandler) + 1 && old(reg.nextHandler) in waiting
                  && executorList == old(executorList) + [waiting[old(reg.nextHandler)].executor])
      ensures forall t :: t in reg.executors ==> t in old(reg.executors) || fresh(reg.executors[t])
    {
      var t := reg.typeGetter(o.item);
      var executor := FetchExecutor(t);
      ghost var eh0 := executor.handlers;
      var r := AddAndSubscribe(o, offered, executor);
      HandlersAfterOne(old(reg.executors), reg.executors, t, executor, old(HandlersNow(reg.executors)));
      QueuedEffect(o, offered, reg.dq != null, reg.typeGetter, old(result), old(waiting), old(reg.itemMap),
                   old(reg.nextHandler), old(reg.executors), old(HandlersNow(reg.executors)), executor, eh0,
                   executor.handlers, r, result, waiting, reg.itemMap,
                   reg.nextHandler, reg.executors, HandlersNow(reg.executors));
    }

    /**
     * `getExecutor(type)` inside `executeOffer`: with a dependent queue it
     * always yields an executor, stored under the type, so the source's null
     * check never fires. A new executor starts with no handlers.
     */
    method FetchExecutor(t: string) returns (e: Executor)
      requires reg.Valid() && reg.dq != null
      modifies reg`executors
      ensures reg.Valid()
      ensures e.typ == t && reg.executors == old(reg.executors)[t := e] && (t in old(reg.executors) ==> old(reg.executors)[t] == e)
      ensures t !in old(reg.executors) ==> fresh(e)
      ensures e.handlers == if t in old(reg.executors) then old(reg.executors[t].handlers) else map[]
    {
      var found := reg.GetExecutor(t);
      if found == null {
        assert false;
      }
      e := found;
    }

    /**
     * The part of `executeOffer` after the executor is found: add the item;
     * a failed add records the add result, a successful one remembers the
     * executor and subscribes a new one-shot handler to it.
     */
    method AddAndSubscribe(o: Offer, offered: AddResult, e: Executor) returns (r: AddResult)
      requires reg.dq != null && Subscribed() && reg.Valid() && e.typ in reg.executors && reg.executors[e.typ] == e
      modifies this`result, this`executorList, this`waiting, reg`itemMap, reg`nextHandler, e`handlers
      ensures Subscribed() && reg.Valid()
      ensures o.item in result || (old(reg.nextHandler) in waiting && waiting[old(reg.nextHandler)].item == o.item)
      ensures (r, reg.itemMap) == AddOutcome(old(reg.itemMap), o, true, offered)
      ensures
        && (IsAddFailed(r) ==>
              && result == old(result)[o.item := r] && waiting == old(waiting) && executorList == old(executorList)
              && reg.nextHandler == old(reg.nextHandler) && e.handlers == old(e.handlers))
        && (!IsAddFailed(r) ==>
              && result == old(result)
              && executorList == old(executorList) + [e]
              && reg.nextHandler == old(reg.nextHandler) + 1
              && waiting == old(waiting)[old(reg.nextHandler) := Waiter(o.item, e)]
              && e.handlers == old(e.handlers)[ResolveEvent := HandlersFor(old(e.handlers), ResolveEvent) + [old(reg.nextHandler)]])
    {
      r := reg.AddItemToQueue(o, offered);
      if IsAddFailed(r) {
        result := result[o.item := r];
        return;
      }
      executorList := executorList + [e];
      var h := reg.nextHandler;
      reg.nextHandler := reg.nextHandler + 1;
      waiting := waiting[h := Waiter(o.item, e)];
      e.On(ResolveEvent, h);
    }

    /** The executors that batch handlers still listen to. */
    function WaitingExecutors(): set<Executor>
      reads this
    {
      set h | h in waiting :: waiting[h].executor
    }

    /**
     * The one-shot resolve handler `h` called with `resolveItem`: for another
     * item nothing happens; for its own item the item leaves the item map,
     * records true, and the handler unsubscribes itself from its executor,
     * leaving every other handler subscribed.
     */
    method HandleResolve(h: Handler, resolveItem: Item)
      requires Subscribed()
      modifies this`result, this`waiting, reg`itemMap, WaitingExecutors()`handlers
      ensures Subscribed()
      ensures !(h in old(waiting) && old(waiting)[h].item == resolveItem) ==>
        && result == old(result) && waiting == old(waiting) && reg.itemMap == old(reg.itemMap)
        && (forall e :: e in old(WaitingExecutors()) ==> e.handlers == old(e.handlers))
      ensures h in old(waiting) && old(waiting)[h].item == resolveItem ==>
        var e := old(waiting)[h].executor;
        && reg.itemMap == old(reg.itemMap) - {resolveItem}
        && result == old(result)[resolveItem := Flag(true)]
        && waiting == old(waiting) - {h}
        && ResolveEvent in old(e.handlers)
        && e.handlers == old(e.handlers)[ResolveEvent := WithoutFirst(old(e.handlers)[ResolveEvent], h)]
        && (forall f :: f in old(WaitingExecutors()) && f != e ==> f.handlers == old(f.handlers))
    {
      if h !in waiting || waiting[h].item != resolveItem {
        return;
      }
      var e := waiting[h].executor;
      ghost var hs := e.handlers[ResolveEvent];
      reg.itemMap := reg.itemMap - {resolveItem};
      result := result[resolveItem := Flag(true)];
      e.Off(ResolveEvent, h);
      waiting := waiting - {h};
      forall g | g in waiting
        ensures g in HandlersFor(waiting[g].executor.handlers, ResolveEvent)
      {
        if waiting[g].executor == e {
          WithoutFirstKeepsOthers(hs, h, g);
        }
      }
    }

    /** True when every offered item has a result or a handler still waiting for it. */
    ghost predicate OffersAccounted()
      reads this
    {
      Accounted(offerList, |offerList|, result, waiting)
    }

    /**
     * The `Promise.all(offerList.map(executeOffer))` part of `execute()`;
     * `reply(i)` answers the i-th offer. Results, handlers, the item map, the
     * stored executors and their handler lists end as `OffersSpec` says, and
     * the executor list holds the executor of each new handler in order.
     */
    method ExecuteOffers(reply: nat -> AddResult)
      requires reg.Valid() && Subscribed() && executorList == [] && waiting == map[]
      modifies this`result, this`executorList, this`waiting
      modifies reg`executors, reg`itemMap, reg`nextHandler, reg.executors.Values`handlers
      ensures reg.Valid() && Subscribed() && OffersAccounted()
      ensures LedgerMatches(OffersSpec(offerList, |offerList|, reply, reg.typeGetter, reg.dq != null,
                                       Opening(old(result), old(reg.itemMap), old(reg.nextHandler))),
                            result, waiting, reg.itemMap, reg.nextHandler, reg.typeGetter, reg.executors,
                            HandlersNow(reg.executors), old(HandlersNow(reg.executors)))
      ensures |executorList| == reg.nextHandler - old(reg.nextHandler) && Collected(executorList, waiting, old(reg.nextHandler))
      ensures forall t :: t in old(reg.executors) ==> t in reg.executors && reg.executors[t] == old(reg.executors)[t]
      ensures forall e :: e in executorList ==> e in old(reg.executors.Values) || fresh(e)
    {
      for i := 0 to |offerList|
        invariant reg.Valid() && Subscribed()
        invariant forall t :: t in reg.executors ==> t in old(reg.executors) || fresh(reg.executors[t])
        invariant forall t :: t in old(reg.executors) ==> t in reg.executors && reg.executors[t] == old(reg.executors)[t]
        invariant forall e :: e in executorList ==> e in old(reg.executors.Values) || fresh(e)
        invariant LedgerMatches(OffersSpec(offerList, i, reply, reg.typeGetter, reg.dq != null,
                                           Opening(old(result), old(reg.itemMap), old(reg.nextHandler))),
                                result, waiting, reg.itemMap, reg.nextHandler, reg.typeGetter, reg.executors,
                                HandlersNow(reg.executors), old(HandlersNow(reg.executors)))
        invariant |executorList| == reg.nextHandler - old(reg.nextHandler) && Collected(executorList, waiting, old(reg.nextHandler))
      {
        ExecuteOfferAt(i, reply, Opening(old(result), old(reg.itemMap), old(reg.nextHandler)), old(HandlersNow(reg.executors)));
      }
      LedgerAccounts(offerList, reply, reg.typeGetter, reg.dq != null, Opening(old(result), old(reg.itemMap), old(reg.nextHandler)),
                     result, waiting, reg.executors);
    }

    /**
     * One `executeOffer(offerList[i])` of the batch: the state that matched
     * the ledger of the first i offers (from `l0`, with handlers `hs0` before
     * the batch) matches the ledger of the first i + 1.
     */
    method ExecuteOfferAt(i: nat, reply: nat -> AddResult, ghost l0: Ledger,
                          ghost hs0: map<string, map<EventName, seq<Handler>>>)
      requires i < |offerList| && reg.Valid() && Subscribed()
      requires LedgerMatches(OffersSpec(offerList, i, reply, reg.typeGetter, reg.dq != null, l0),
                             result, waiting, reg.itemMap, reg.nextHandler, reg.typeGetter, reg.executors,
                             HandlersNow(reg.executors), hs0)
      requires |executorList| == reg.nextHandler - l0.nextHandler && Collected(executorList, waiting, l0.nextHandler)
      modifies this`result, this`executorList, this`waiting
      modifies reg`executors, reg`itemMap, reg`nextHandler, reg.executors.Values`handlers
      ensures reg.Valid() && Subscribed()
      ensures LedgerMatches(OffersSpec(offerList, i + 1, reply, reg.typeGetter, reg.dq != null, l0),
                            result, waiting, reg.itemMap, reg.nextHandler, reg.typeGetter, reg.executors,
                            HandlersNow(reg.executors), hs0)
      ensures |executorList| == reg.nextHandler - l0.nextHandler && Collected(executorList, waiting, l0.nextHandler)
      ensures forall t :: t in old(reg.executors) ==> t in reg.executors && reg.executors[t] == old(reg.executors)[t]
      ensures forall t :: t in reg.executors ==> t in old(reg.executors) || fresh(reg.executors[t])
    {
      var o := offerList[i];
      ExecuteOffer(o, reply(i));
      OfferEffectKeepsWaiters(o, reply(i), reg.dq != null, reg.typeGetter, old(result), old(waiting), old(reg.itemMap),
                              old(reg.nextHandler), old(reg.executors), old(HandlersNow(reg.executors)),
                              result, waiting, reg.itemMap, reg.nextHandler, reg.executors, HandlersNow(reg.executors));
      LedgerStep(OffersSpec(offerList, i, reply, reg.typeGetter, reg.dq != null, l0), o, reply(i), reg.dq != null,
                 reg.typeGetter, old(result), old(waiting), old(reg.itemMap),
                 old(reg.nextHandler), old(reg.executors), old(HandlersNow(reg.executors)),
                 result, waiting, reg.itemMap, reg.nextHandler, reg.executors, HandlersNow(reg.executors), hs0);
      CollectedStep(executorList, old(executorList), waiting, old(waiting), l0.nextHandler, old(reg.nextHandler));
    }

    /** `executorList.forEach(e => e.start())`: each collected executor is started once. */
    method StartExecutors()
      modifies executorList`isExecuting, executorList`calls, executorList`listening
      ensures forall e :: e in executorList ==> e.View() == AfterStart(old(e.View()))
      ensures forall e :: e in executorList ==> e.isExecuting
    {
      ghost var started: set<Executor> := {};
      for j := 0 to |executorList|
        invariant forall k :: 0 <= k < j ==> executorList[k] in started
        invariant forall e :: e in started ==> e in executorList
        invariant forall e :: e in started ==> e.View() == AfterStart(old(e.View()))
        invariant forall e :: e in executorList && e !in started ==> e.View() == old(e.View())
      {
        var e := executorList[j];
        if e in started {
          AfterStartIdempotent(old(e.View()));
        }
        var d := e.Start();
        started := started + {e};
      }
      forall e | e in executorList
        ensures e.isExecuting
      {
        AfterStartIdempotent(old(e.View()));
      }
    }

    /**
     * `execute()`: returns the memoised promise when there is one, the result
     * map at once when nothing was offered; otherwise runs every offer,
     * starts the executors it collected and starts the reset clock.
     * `reply(i)` is the dependent queue's reply to the i-th offer. An
     * executor stored before differs from its old state in its handler
     * lists, and has taken one `start()` step when it was collected.
     */
    method Execute(reply: nat -> AddResult) returns (r: ExecuteReply)
      requires Valid() && reg.Valid()
      modifies this, reg`executors, reg`itemMap, reg`nextHandler, reg`stopOnNextStep, reg`intervalActive, reg`stopSettled
      modifies reg.executors.Values`handlers, reg.executors.Values`isExecuting
      modifies reg.executors.Values`calls, reg.executors.Values`listening
      ensures Valid() && reg.Valid()
      ensures old(executePromise) ==> r == BatchPromise && unchanged(this, reg)
      ensures !old(executePromise) && old(offerList) == [] ==> r == ResolvedWith(old(result)) && unchanged(this, reg)
      ensures !old(executePromise) && old(offerList) != [] ==>
        && r == BatchPromise && executePromise && offerList == old(offerList) && resolved == old(resolved)
        && reg.intervalActive && !reg.stopOnNextStep
        && OffersAccounted()
        && LedgerMatches(OffersSpec(offerList, |offerList|, reply, reg.typeGetter, reg.dq != null,
                                    Opening(old(result), old(reg.itemMap), old(reg.nextHandler))),
                         result, waiting, reg.itemMap, reg.nextHandler, reg.typeGetter, reg.executors,
                         HandlersNow(reg.executors), old(HandlersNow(reg.executors)))
        && |executorList| == reg.nextHandler - old(reg.nextHandler) && Collected(executorList, waiting, old(reg.nextHandler))
        && (forall e :: e in executorList ==> e in reg.executors.Values && e.isExecuting)
        && (forall t :: t in old(reg.executors) ==> t in reg.executors && reg.executors[t] == old(reg.executors)[t])
        && (forall t :: t in old(reg.executors) ==>
              var before := old(reg.executors[t].View()).(handlers := reg.executors[t].handlers);
              reg.executors[t].View() == if reg.executors[t] in executorList then AfterStart(before) else before)
    {
      if executePromise {
        return BatchPromise;
      }
      if |offerList| == 0 {
        return ResolvedWith(result);
      }
      Launch(reply);
      r := BatchPromise;
    }

    /** The body of the promise `execute()` creates: run every offer, start the collected executors and the reset clock. */
    method Launch(reply: nat -> AddResult)
      requires Valid() && reg.Valid() && !executePromise
      modifies this, reg`executors, reg`itemMap, reg`nextHandler, reg`stopOnNextStep, reg`intervalActive, reg`stopSettled
      modifies reg.executors.Values`handlers, reg.executors.Values`isExecuting
      modifies reg.executors.Values`calls, reg.executors.Values`listening
      ensures Valid() && reg.Valid()
      ensures executePromise && offerList == old(offerList) && resolved == old(resolved)
      ensures reg.intervalActive && !reg.stopOnNextStep
      ensures OffersAccounted()
      ensures LedgerMatches(OffersSpec(offerList, |offerList|, reply, reg.typeGetter, reg.dq != null,
                                       Opening(old(result), old(reg.itemMap), old(reg.nextHandler))),
                            result, waiting, reg.itemMap, reg.nextHandler, reg.typeGetter, reg.executors,
                            HandlersNow(reg.executors), old(HandlersNow(reg.executors)))
      ensures |executorList| == reg.nextHandler - old(reg.nextHandler) && Collected(executorList, waiting, old(reg.nextHandler))
      ensures forall e :: e in executorList ==> e in reg.executors.Values && e.isExecuting
      ensures forall t :: t in old(reg.executors) ==> t in reg.executors && reg.executors[t] == old(reg.executors)[t]
      ensures forall t :: t in old(reg.executors) ==>
        var before := old(reg.executors[t].View()).(handlers := reg.executors[t].handlers);
        reg.executors[t].View() == if reg.executors[t] in executorList then AfterStart(before) else before
    {
      RunOffers(reply);
      ListedAreStored(executorList, waiting, old(reg.nextHandler),
                      OffersSpec(offerList, |offerList|, reply, reg.typeGetter, reg.dq != null,
                                 Opening(old(result), old(reg.itemMap), old(reg.nextHandler))).pending,
                      reg.typeGetter, reg.executors);
      label ran:
      StartAll();
      forall t | t in old(reg.executors)
        ensures reg.executors[t].handlers == old@ran(reg.executors[t].handlers)
        ensures old@ran(reg.executors[t].View()) == old(reg.executors[t].View()).(handlers := reg.executors[t].handlers)
      {
      }
    }

    /**
     * The part of `execute()` before any executor starts: `executePromise`
     * is set and every offer runs; an executor stored before differs from
     * its old state in the handler lists only.
     */
    method RunOffers(reply: nat -> AddResult)
      requires Valid() && reg.Valid() && !executePromise
      modifies this, reg`executors, reg`itemMap, reg`nextHandler, reg.executors.Values`handlers
      ensures Valid() && reg.Valid()
      ensures executePromise && offerList == old(offerList) && resolved == old(resolved)
      ensures OffersAccounted()
      ensures LedgerMatches(OffersSpec(offerList, |offerList|, reply, reg.typeGetter, reg.dq != null,
                                       Opening(old(result), old(reg.itemMap), old(reg.nextHandler))),
                            result, waiting, reg.itemMap, reg.nextHandler, reg.typeGetter, reg.executors,
                            HandlersNow(reg.executors), old(HandlersNow(reg.executors)))
      ensures |executorList| == reg.nextHandler - old(reg.nextHandler) && Collected(executorList, waiting, old(reg.nextHandler))
      ensures forall e :: e in executorList ==> e in old(reg.executors.Values) || fresh(e)
      ensures forall t :: t in old(reg.executors) ==> t in reg.executors && reg.executors[t] == old(reg.executors)[t]
      ensures forall t :: t in old(reg.executors) ==>
        reg.executors[t].View() == old(reg.executors[t].View()).(handlers := reg.executors[t].handlers)
    {
      executePromise := true;
      assert HandlersNow(reg.executors) == old(HandlersNow(reg.executors));
      ExecuteOffers(reply);
      forall t | t in old(reg.executors)
        ensures reg.executors[t].View() == old(reg.executors[t].View()).(handlers := reg.executors[t].handlers)
      {
        OnlyHandlersChanged(old(reg.executors)[t]);
      }
    }

    /** `executorList.forEach(e => e.start())` followed by `startResetInterval()`. */
    method StartAll()
      requires Valid() && reg.Valid()
      modifies executorList`isExecuting, executorList`calls, executorList`listening
      modifies reg`stopOnNextStep, reg`intervalActive, reg`stopSettled
      ensures Valid() && reg.Valid()
      ensures reg.intervalActive && !reg.stopOnNextStep
      ensures forall e :: e in executorList ==> e.View() == AfterStart(old(e.View())) && e.isExecuting
      ensures HandlersNow(reg.executors) == old(HandlersNow(reg.executors))
      ensures forall t :: t in reg.executors ==> reg.executors[t].handlers == old(reg.executors[t].handlers)
      ensures forall t :: t in reg.executors && reg.executors[t] !in executorList ==>
        reg.executors[t].View() == old(reg.executors[t].View())
    {
      StartExecutors();
      reg.StartResetInterval();
      forall t | t in reg.executors && reg.executors[t] !in executorList
        ensures reg.executors[t].View() == old(reg.executors[t].View())
      {
        Untouched(reg.executors[t]);
      }
    }

    /**
     * The continuation once every offer has settled (no handler is still
     * waiting): stop the reset clock at its next tick if the whole dependent
     * queue is empty, and resolve the batch promise.
     */
    method Conclude() returns (done: bool)
      requires reg.Valid()
      modifies this`resolved, reg`stopOnNextStep
      ensures reg.Valid()
      ensures done <==> executePromise && waiting == map[]
      ensures done ==> resolved
      ensures done ==> (reg.stopOnNextStep ==
        (old(reg.stopOnNextStep) || (reg.dq != null && reg.dq.CheckAllEmpty() && reg.intervalActive)))
      ensures !done ==> resolved == old(resolved) && reg.stopOnNextStep == old(reg.stopOnNextStep)
    {
      if !executePromise || waiting != map[] {
        return false;
      }
      if reg.dq != null && reg.dq.CheckAllEmpty() {
        reg.StopResetInterval();
      }
      resolved := true;
      done := true;
    }
  }
}
