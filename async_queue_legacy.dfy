/**
 * The older batch coordinator of src/AsyncQueue/index.ts (`AsyncQueueClass`).
 *
 * It shares the item map, capacity lookup and add logic with the compiled
 * variant, but differs in what it does around them: `setCapacity` does not
 * touch existing executors, `setTypeGetter` keeps them (bound to the old
 * dependent queue), `getExecutor` leaves the limit at the executor's default,
 * `execute` neither starts executors nor runs a reset clock, and a resolve
 * handler never unsubscribes or clears the item map.
 */
module AsyncQueueLegacy {
  import opened Wrappers
  import opened DependentQueue
  import opened HandlerLists
  import opened ExecutorSpec
  import opened Executor
  import opened QueueCommon
  import opened BatchRecords

  /**
   * The failure test of `executeOffer` as written: `!r || r.some(v => !v)`
   * applied to the add result without first wrapping a scalar in an array.
   * `None` stands for the TypeError that `.some` on the boolean `true` throws.
   */
  function AddFailedAsWritten(r: AddResult): (f: Option<bool>)
    ensures f.None? <==> r == Flag(true)
    ensures f.Some? ==> f.value == IsAddFailed(r)
  {
    match r
    case Flag(b) => if !b then Some(true) else None
    case Flags(bs) => Some(exists i :: 0 <= i < |bs| && !bs[i])
  }

  /**
   * The input that shows it: an offer with a resolver and no dependencies,
   * which the dependent queue accepts with a plain `true`, makes the test
   * throw, although the intended test calls the add a success.
   */
  lemma ScalarSuccessThrows(m: map<Item, Entry>, x: Item, res: Resolver)
    ensures var r := AddOutcome(m, Offer(x, Some(res), NoDepend), true, Flag(true)).0;
      r == Flag(true) && AddFailedAsWritten(r) == None && !IsAddFailed(r)
  {
    PresentDependenciesRegister(m, Offer(x, Some(res), NoDepend), true, Flag(true));
  }

  class LegacyRegistry {
    var capacity: map<string, int>
    var defaultCapacity: int
    var resetInterval: int
    var typeGetter: Item -> string
    var dq: TypedQueue?
    var executors: map<string, Executor>
    var itemMap: map<Item, Entry>
    /** Identity for the next resolve handler a batch creates. */
    var nextHandler: Handler

    /** Each executor is stored under its own type. */
    ghost predicate Valid()
      reads this
    {
      forall t :: t in executors ==> executors[t].typ == t
    }

    constructor (defaultCapacity: int, resetInterval: int)
      ensures Valid()
      ensures capacity == map[] && this.defaultCapacity == defaultCapacity && this.resetInterval == resetInterval
      ensures dq == null && executors == map[] && itemMap == map[]
      ensures forall x :: typeGetter(x) == "1"
    {
      capacity := map[];
      this.defaultCapacity := defaultCapacity;
      this.resetInterval := resetInterval;
      typeGetter := _ => "1";
      dq := null;
      executors := map[];
      itemMap := map[];
      nextHandler := 0;
    }

    /** `setCapacity(capacity, type)`: records the capacity only; existing executors keep their limits. */
    method SetCapacity(n: int, t: Option<string>)
      modifies this`capacity, this`defaultCapacity
      ensures (capacity, defaultCapacity) == CapacityAfterSet(old(capacity), old(defaultCapacity), n, t)
      ensures forall u :: u in executors ==> executors[u].limit == old(executors[u].limit)
    {
      if !HasType(t) {
        defaultCapacity := n;
        return;
      }
      capacity := capacity[t.value := n];
    }

    method SetResetInterval(ms: int)
      modifies this`resetInterval
      ensures resetInterval == ms
    {
      resetInterval := ms;
    }

    /**
     * `setTypeGetter(fn)`: a new dependent queue, while the stored executors
     * stay and keep working on the queue they were created with.
     */
    method SetTypeGetter(fn: Option<Item -> string>)
      requires Valid()
      modifies this`typeGetter, this`dq
      ensures Valid()
      ensures typeGetter == if fn.Some? then fn.value else old(typeGetter)
      ensures dq != null && fresh(dq) && dq.ready == map[] && dq.blocked == map[]
      ensures executors == old(executors)
      ensures forall t :: t in executors ==> executors[t].dq != dq
    {
      if fn.Some? {
        typeGetter := fn.value;
      }
      dq := new TypedQueue();
    }

    /** `getExecutor(type)`: memoised per type; the new executor keeps the default limit. */
    method GetExecutor(t: string) returns (e: Executor?)
      requires Valid()
      modifies this`executors
      ensures Valid()
      ensures t in old(executors) ==> e == old(executors)[t] && executors == old(executors)
      ensures t !in old(executors) && dq == null ==> e == null && executors == old(executors)
      ensures t !in old(executors) && dq != null ==>
        && e != null && fresh(e) && executors == old(executors)[t := e]
        && e.typ == t && e.dq == dq && e.limit == 1
        && e.count == 0 && !e.isExecuting && e.handlers == map[]
    {
      if t in executors {
        return executors[t];
      }
      if dq == null {
        return null;
      }
      e := new Executor(dq, t);
      executors := executors[t := e];
    }

    /** `getDependQueueItem(item, resolver)`: get-or-insert on the item map. */
    method GetDependQueueItem(item: Item, resolver: Option<Resolver>) returns (e: Option<Entry>)
      modifies this`itemMap
      ensures (e, itemMap) == GetOrInsert(old(itemMap), item, resolver)
    {
      var r := GetOrInsert(itemMap, item, resolver);
      e, itemMap := r.0, r.1;
    }

    /** `addItemToQueue(offerData)`; `offered` is the dependent queue's own reply to `offer`. */
    method AddItemToQueue(o: Offer, offered: AddResult) returns (r: AddResult)
      modifies this`itemMap
      ensures (r, itemMap) == AddOutcome(old(itemMap), o, dq != null, offered)
    {
      r, itemMap := AddItem(itemMap, o, dq != null, offered);
    }
  }

  /** The executors that the handlers of `waiting` and of `settled` listen to. */
  function Listeners(waiting: map<Handler, Waiter>, settled: map<Handler, Waiter>): set<Executor>
  {
    (set h | h in waiting :: waiting[h].executor) + (set h | h in settled :: settled[h].executor)
  }

  /** Settling a waiting handler moves it between the maps and keeps the executors listened to. */
  lemma {:induction false} SettleKeepsListeners(waiting: map<Handler, Waiter>, settled: map<Handler, Waiter>, h: Handler)
    requires h in waiting && waiting.Keys !! settled.Keys
    ensures Listeners(waiting - {h}, settled[h := waiting[h]]) == Listeners(waiting, settled)
  {
    var waiting1, settled1 := waiting - {h}, settled[h := waiting[h]];
    forall e | e in Listeners(waiting, settled)
      ensures e in Listeners(waiting1, settled1)
    {
      if g :| g in waiting && waiting[g].executor == e {
        if g == h {
          assert settled1[h].executor == e;
        } else {
          assert waiting1[g].executor == e;
        }
      } else {
        var g :| g in settled && settled[g].executor == e;
        assert settled1[g].executor == e;
      }
    }
    forall e | e in Listeners(waiting1, settled1)
      ensures e in Listeners(waiting, settled)
    {
      if g :| g in waiting1 && waiting1[g].executor == e {
        assert waiting[g].executor == e;
      } else {
        var g :| g in settled1 && settled1[g].executor == e;
        if g == h {
          assert waiting[h].executor == e;
        } else {
          assert settled[g].executor == e;
        }
      }
    }
  }

  /** What `execute()` hands back: the memoised promise, or the result map at once. */
  datatype ExecuteReply = BatchPromise | ResolvedWith(result: map<Item, AddResult>)

  class LegacyBatch {
    const reg: LegacyRegistry
    var result: map<Item, AddResult>
    var offerList: seq<Offer>
    var executePromise: bool
    /** The resolve handlers of offers that have not settled yet. */
    var waiting: map<Handler, Waiter>
    /** The resolve handlers whose offer has settled; they stay subscribed. */
    var settled: map<Handler, Waiter>
    var resolved: bool

    /** The executors that batch handlers listen to, settled or not. */
    function ListeningExecutors(): set<Executor>
      reads this
    {
      Listeners(waiting, settled)
    }

    /**
     * No handler is both waiting and settled; every one was handed out
     * before the registry's next identity and is still subscribed to its
     * executor's 'resolve' event.
     */
    ghost predicate Subscribed()
      reads this, reg`nextHandler, ListeningExecutors()`handlers
    {
      && waiting.Keys !! settled.Keys
      && (forall h :: h in waiting ==> h < reg.nextHandler)
      && (forall h :: h in settled ==> h < reg.nextHandler)
      && (forall h :: h in waiting ==> h in HandlersFor(waiting[h].executor.handlers, ResolveEvent))
      && (forall h :: h in settled ==> h in HandlersFor(settled[h].executor.handlers, ResolveEvent))
    }

    /** Before `execute()` nothing has been subscribed. */
    ghost predicate Valid()
      reads this, reg`nextHandler, ListeningExecutors()`handlers
    {
      && (!executePromise ==> waiting == map[] && settled == map[] && !resolved)
      && Subscribed()
    }

    constructor (reg: LegacyRegistry)
      ensures Valid()
      ensures this.reg == reg && result == map[] && offerList == [] && !executePromise
    {
      this.reg := reg;
      result, offerList, executePromise := map[], [], false;
      waiting, settled, resolved := map[], map[], false;
    }

    method Offer(o: Offer)
      requires Valid()
      modifies this`offerList
      ensures Valid()
      ensures offerList == old(offerList) + [o]
    {
      offerList := offerList + [o];
    }

    /**
     * `executeOffer(offerData)` with the add-failure test corrected: as the
     * compiled variant, but a successful add only subscribes a handler and
     * collects no executor. Settled handlers stay as they are.
     */
    method ExecuteOffer(o: Offer, offered: AddResult)
      requires reg.Valid() && Subscribed()
      modifies this`result, this`waiting
      modifies reg`executors, reg`itemMap, reg`nextHandler, reg.executors.Values`handlers
      ensures reg.Valid() && Subscribed() && settled == old(settled)
      ensures OfferEffect(o, offered, reg.dq != null, reg.typeGetter,
                          old(result), old(waiting), old(reg.itemMap), old(reg.nextHandler), old(reg.executors),
                          old(HandlersNow(reg.executors)),
                          result, waiting, reg.itemMap, reg.nextHandler, reg.executors, HandlersNow(reg.executors))
      ensures forall t :: t in reg.executors ==> t in old(reg.executors) || fresh(reg.executors[t])
    {
      if reg.dq == null {
        result := result[o.item := Flag(false)];
        return;
      }
      OfferQueued(o, offered);
    }

    /** `executeOffer(offer)` when there is a dependent queue: find the executor, then add and subscribe. */
    method OfferQueued(o: Offer, offered: AddResult)
      requires reg.Valid() && Subscribed() && reg.dq != null
      modifies this`result, this`waiting
      modifies reg`executors, reg`itemMap, reg`nextHandler, reg.executors.Values`handlers
      ensures reg.Valid() && Subscribed() && settled == old(settled)
      ensures OfferEffect(o, offered, reg.dq != null, reg.typeGetter,
                          old(result), old(waiting), old(reg.itemMap), old(reg.nextHandler), old(reg.executors),
                          old(HandlersNow(reg.executors)),
                          result, waiting, reg.itemMap, reg.nextHandler, reg.executors, HandlersNow(reg.executors))
      ensures forall t :: t in reg.executors ==> t in old(reg.executors) || fresh(reg.executors[t])
    {
      var t := reg.typeGetter(o.item);
      var executor := FetchExecutor(t);
      ghost var eh0 := executor.handlers;
      var r := AddAndSubscribe(o, offered, executor);
      HandlersAfterOne(old(reg.executors), reg.executors, t, executor, old(HandlersNow(reg.executors)));
      QueuedEffect(o, offered, reg.dq != null, reg.typeGetter, old(result), old(waiting), old(reg.itemMap),
                   old(reg.nextHandler), old(reg.executors), old(HandlersNow(reg.executors)), executor, eh0,
                   executor.handlers, r, result, waiting, reg.itemMap,
                   reg.nextHandler, reg.executors, HandlersNow(reg.executors));
    }

    /**
     * `getExecutor(type)` inside `executeOffer`: with a dependent queue it
     * always yields an executor, stored under the type, so the source's null
     * check never fires. A new executor starts with no handlers.
     */
    method FetchExecutor(t: string) returns (e: Executor)
      requires reg.Valid() && reg.dq != null
      modifies reg`executors
      ensures reg.Valid()
      ensures e.typ == t && reg.executors == old(reg.executors)[t := e] && (t in old(reg.executors) ==> old(reg.executors)[t] == e)
      ensures t !in old(reg.executors) ==> fresh(e)
      ensures e.handlers == if t in old(reg.executors) then old(reg.executors[t].handlers) else map[]
    {
      var found := reg.GetExecutor(t);
      if found == null {
        assert false;
      }
      e := found;
    }

    /**
     * The body of the promise `executeOffer` creates: add the item; a failed
     * add records the add result, a successful one subscribes a new resolve
     * handler to the executor.
     */
    method AddAndSubscribe(o: Offer, offered: AddResult, e: Executor) returns (r: AddResult)
      requires reg.dq != null && Subscribed()
      modifies this`result, this`waiting, reg`itemMap, reg`nextHandler, e`handlers
      ensures Subscribed()
      ensures (r, reg.itemMap) == AddOutcome(old(reg.itemMap), o, true, offered)
      ensures
        && (IsAddFailed(r) ==>
              && result == old(result)[o.item := r] && waiting == old(waiting)
              && reg.nextHandler == old(reg.nextHandler) && e.handlers == old(e.handlers))
        && (!IsAddFailed(r) ==>
              && result == old(result)
              && reg.nextHandler == old(reg.nextHandler) + 1
              && waiting == old(waiting)[old(reg.nextHandler) := Waiter(o.item, e)]
              && e.handlers == old(e.handlers)[ResolveEvent := HandlersFor(old(e.handlers), ResolveEvent) + [old(reg.nextHandler)]])
    {
      r := reg.AddItemToQueue(o, offered);
      if IsAddFailed(r) {
        result := result[o.item := r];
        return;
      }
      Subscribe(o.item, e);
    }

    /** `executor.on('resolve', handler)` for a new handler waiting for `item`, under the next identity. */
    method Subscribe(item: Item, e: Executor)
      requires Subscribed()
      modifies this`waiting, reg`nextHandler, e`handlers
      ensures Subscribed()
      ensures reg.nextHandler == old(reg.nextHandler) + 1
      ensures waiting == old(waiting)[old(reg.nextHandler) := Waiter(item, e)]
      ensures e.handlers == old(e.handlers)[ResolveEvent := HandlersFor(old(e.handlers), ResolveEvent) + [old(reg.nextHandler)]]
    {
      var h := reg.nextHandler;
      reg.nextHandler := reg.nextHandler + 1;
      waiting := waiting[h := Waiter(item, e)];
      e.On(ResolveEvent, h);
    }

    /**
     * The resolve handler `h` called with `resolveItem`: for its own item it
     * records true and settles its offer (again, when it has settled
     * before); it stays subscribed, every executor keeps its handlers and
     * the item stays in the item map.
     */
    method HandleResolve(h: Handler, resolveItem: Item)
      requires Valid()
      modifies this`result, this`waiting, this`settled
      ensures Valid()
      ensures ListeningExecutors() == old(ListeningExecutors())
      ensures h in old(waiting) && old(waiting)[h].item == resolveItem ==>
        && result == old(result)[resolveItem := Flag(true)]
        && waiting == old(waiting) - {h} && settled == old(settled)[h := old(waiting)[h]]
      ensures h in old(settled) && old(settled)[h].item == resolveItem ==>
        result == old(result)[resolveItem := Flag(true)] && waiting == old(waiting) && settled == old(settled)
      ensures (!(h in old(waiting) && old(waiting)[h].item == resolveItem)
               && !(h in old(settled) && old(settled)[h].item == resolveItem)) ==>
        result == old(result) && waiting == old(waiting) && settled == old(settled)
    {
      if h in waiting && waiting[h].item == resolveItem {
        result := result[resolveItem := Flag(true)];
        SettleKeepsListeners(waiting, settled, h);
        var w := waiting[h];
        settled := settled[h := w];
        waiting := waiting - {h};
      } else if h in settled && settled[h].item == resolveItem {
        result := result[resolveItem := Flag(true)];
      }
    }

    /** True when every offered item has a result or a handler still waiting for it. */
    ghost predicate OffersAccounted()
      reads this
    {
      Accounted(offerList, |offerList|, result, waiting)
    }

    /**
     * `execute()`: memoised; resolves at once when nothing was offered;
     * otherwise runs every offer and starts no executor: results, handlers,
     * the item map, the stored executors and their handler lists end as
     * `OffersSpec` says, and an executor stored before differs from its old
     * state in its handler lists only. `reply(i)` is the dependent queue's
     * reply to the i-th offer.
     */
    method Execute(reply: nat -> AddResult) returns (r: ExecuteReply)
      requires Valid() && reg.Valid()
      modifies this, reg`executors, reg`itemMap, reg`nextHandler, reg.executors.Values`handlers
      ensures Valid() && reg.Valid()
      ensures old(executePromise) ==> r == BatchPromise && unchanged(this, reg)
      ensures !old(executePromise) && old(offerList) == [] ==> r == ResolvedWith(old(result)) && unchanged(this, reg)
      ensures !old(executePromise) && old(offerList) != [] ==>
        && r == BatchPromise && executePromise && offerList == old(offerList) && settled == map[] && !resolved
        && OffersAccounted()
        && LedgerMatches(OffersSpec(offerList, |offerList|, reply, reg.typeGetter, reg.dq != null,
                                    Opening(old(result), old(reg.itemMap), old(reg.nextHandler))),
                         result, waiting, reg.itemMap, reg.nextHandler, reg.typeGetter, reg.executors,
                         HandlersNow(reg.executors), old(HandlersNow(reg.executors)))
        && (forall t :: t in old(reg.executors) ==> t in reg.executors && reg.executors[t] == old(reg.executors)[t])
        && (forall t :: t in old(reg.executors) ==>
              reg.executors[t].View() == old(reg.executors[t].View()).(handlers := reg.executors[t].handlers))
    {
      if executePromise {
        return BatchPromise;
      }
      if |offerList| == 0 {
        return ResolvedWith(result);
      }
      RunOffers(reply);
      r := BatchPromise;
    }

    /** The body of the promise `execute()` creates: `executePromise` is set and every offer runs. */
    method RunOffers(reply: nat -> AddResult)
      requires Valid() && reg.Valid() && !executePromise
      modifies this, reg`executors, reg`itemMap, reg`nextHandler, reg.executors.Values`handlers
      ensures Valid() && reg.Valid()
      ensures executePromise && offerList == old(offerList) && settled == map[] && !resolved
      ensures OffersAccounted()
      ensures LedgerMatches(OffersSpec(offerList, |offerList|, reply, reg.typeGetter, reg.dq != null,
                                       Opening(old(result), old(reg.itemMap), old(reg.nextHandler))),
                            result, waiting, reg.itemMap, reg.nextHandler, reg.typeGetter, reg.executors,
                            HandlersNow(reg.executors), old(HandlersNow(reg.executors)))
      ensures forall t :: t in old(reg.executors) ==> t in reg.executors && reg.executors[t] == old(reg.executors)[t]
      ensures forall t :: t in old(reg.executors) ==>
        reg.executors[t].View() == old(reg.executors[t].View()).(handlers := reg.executors[t].handlers)
    {
      executePromise := true;
      assert HandlersNow(reg.executors) == old(HandlersNow(reg.executors));
      ExecuteOffers(reply);
      assert executePromise && Subscribed();
      assert Valid();
      forall t | t in old(reg.executors)
        ensures reg.executors[t].View() == old(reg.executors[t].View()).(handlers := reg.executors[t].handlers)
      {
        OnlyHandlersChanged(old(reg.executors)[t]);
      }
    }

    /**
     * The `Promise.all(offerList.map(executeOffer))` part of `execute()`;
     * `reply(i)` answers the i-th offer. Results, handlers, the item map, the
     * stored executors and their handler lists end as `OffersSpec` says.
     */
    method ExecuteOffers(reply: nat -> AddResult)
      requires reg.Valid() && Subscribed() && settled == map[] && waiting == map[]
      modifies this`result, this`waiting
      modifies reg`executors, reg`itemMap, reg`nextHandler, reg.executors.Values`handlers
      ensures reg.Valid() && Subscribed() && settled == map[] && OffersAccounted()
      ensures LedgerMatches(OffersSpec(offerList, |offerList|, reply, reg.typeGetter, reg.dq != null,
                                       Opening(old(result), old(reg.itemMap), old(reg.nextHandler))),
                            result, waiting, reg.itemMap, reg.nextHandler, reg.typeGetter, reg.executors,
                            HandlersNow(reg.executors), old(HandlersNow(reg.executors)))
      ensures forall t :: t in old(reg.executors) ==> t in reg.executors && reg.executors[t] == old(reg.executors)[t]
    {
      for i := 0 to |offerList|
        invariant reg.Valid() && Subscribed() && settled == map[]
        invariant forall t :: t in reg.executors ==> t in old(reg.executors) || fresh(reg.executors[t])
        invariant forall t :: t in old(reg.executors) ==> t in reg.executors && reg.executors[t] == old(reg.executors)[t]
        invariant LedgerMatches(OffersSpec(offerList, i, reply, reg.typeGetter, reg.dq != null,
                                           Opening(old(result), old(reg.itemMap), old(reg.nextHandler))),
                                result, waiting, reg.itemMap, reg.nextHandler, reg.typeGetter, reg.executors,
                                HandlersNow(reg.executors), old(HandlersNow(reg.executors)))
      {
        ExecuteOfferAt(i, reply, Opening(old(result), old(reg.itemMap), old(reg.nextHandler)), old(HandlersNow(reg.executors)));
      }
      LedgerAccounts(offerList, reply, reg.typeGetter, reg.dq != null, Opening(old(result), old(reg.itemMap), old(reg.nextHandler)),
                     result, waiting, reg.executors);
    }

    /**
     * One `executeOffer(offerList[i])` of the batch: the state that matched
     * the ledger of the first i offers (from `l0`, with handlers `hs0` before
     * the batch) matches the ledger of the first i + 1.
     */
    method ExecuteOfferAt(i: nat, reply: nat -> AddResult, ghost l0: Ledger,
                          ghost hs0: map<string, map<EventName, seq<Handler>>>)
      requires i < |offerList| && reg.Valid() && Subscribed()
      requires LedgerMatches(OffersSpec(offerList, i, reply, reg.typeGetter, reg.dq != null, l0),
                             result, waiting, reg.itemMap, reg.nextHandler, reg.typeGetter, reg.executors,
                             HandlersNow(reg.executors), hs0)
      modifies this`result, this`waiting
      modifies reg`executors, reg`itemMap, reg`nextHandler, reg.executors.Values`handlers
      ensures reg.Valid() && Subscribed() && settled == old(settled)
      ensures LedgerMatches(OffersSpec(offerList, i + 1, reply, reg.typeGetter, reg.dq != null, l0),
                            result, waiting, reg.itemMap, reg.nextHandler, reg.typeGetter, reg.executors,
                            HandlersNow(reg.executors), hs0)
      ensures forall t :: t in old(reg.executors) ==> t in reg.executors && reg.executors[t] == old(reg.executors)[t]
      ensures forall t :: t in reg.executors ==> t in old(reg.executors) || fresh(reg.executors[t])
    {
      var o := offerList[i];
      ExecuteOffer(o, reply(i));
      LedgerStep(OffersSpec(offerList, i, reply, reg.typeGetter, reg.dq != null, l0), o, reply(i), reg.dq != null,
                 reg.typeGetter, old(result), old(waiting), old(reg.itemMap),
                 old(reg.nextHandler), old(reg.executors), old(HandlersNow(reg.executors)),
                 result, waiting, reg.itemMap, reg.nextHandler, reg.executors, HandlersNow(reg.executors), hs0);
    }

    /** The continuation once every offer has settled: resolve the batch promise with the result map. */
    method Conclude() returns (done: bool)
      modifies this`resolved
      ensures done <==> executePromise && waiting == map[]
      ensures done ==> resolved
      ensures !done ==> resolved == old(resolved)
    {
      if !executePromise || waiting != map[] {
        return false;
      }
      resolved := true;
      done := true;
    }
  }
}
