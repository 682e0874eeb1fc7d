/**
 * What a batch's `execute()` does with its offers, one after another, as a
 * fold over the offer list (`OffersSpec`), the properties of that fold, and
 * how the batch's heap state corresponds to it. Both batch variants
 * (dist/AsyncQueue/index.js and src/AsyncQueue/index.ts) run their offers
 * with the same `executeOffer` bookkeeping and are proved against it.
 */

module BatchRecords {
  import opened DependentQueue
  import opened HandlerLists
  import opened ExecutorSpec
  import opened Executor
  import opened QueueCommon

  /** A subscribed resolve handler: the item it waits for and the executor it listens to. */
  datatype Waiter = Waiter(item: Item, executor: Executor)

  /**
   * The batch's offers so far, as values: the result map, the resolve
   * handlers subscribed (identity to item), the item map, the next handler
   * identity, the handler identities appended to each type's `resolve` list,
   * and the types whose executor was fetched or created.
   */
  datatype Ledger = Ledger(
    result: map<Item, AddResult>, pending: map<Handler, Item>, itemMap: map<Item, Entry>,
    nextHandler: Handler, appended: map<string, seq<Handler>>, types: set<string>)

  /** The ledger before the first offer runs. */
  function Opening(result: map<Item, AddResult>, itemMap: map<Item, Entry>, nextHandler: Handler): Ledger
  {
    Ledger(result, map[], itemMap, nextHandler, map[], {})
  }

  /** The handlers the batch has appended to type `t`'s `resolve` list. */
  function AppendedFor(l: Ledger, t: string): seq<Handler>
  {
    if t in l.appended then l.appended[t] else []
  }

  /**
   * One `executeOffer(o)`, `offered` being the dependent queue's reply and
   * `queue` whether a dependent queue exists: without one the item records
   * false; otherwise the item's type gets an executor and the item is added;
   * a failed add records the add result, a successful one subscribes the next
   * handler identity for the item to that type's executor.
   */
  function OfferStep(l: Ledger, o: Offer, offered: AddResult, typeOf: Item -> string, queue: bool): Ledger
  {
    if !queue then l.(result := l.result[o.item := Flag(false)])
    else
      var t := typeOf(o.item);
      var added := AddOutcome(l.itemMap, o, true, offered);
      if IsAddFailed(added.0) then
        l.(result := l.result[o.item := added.0], itemMap := added.1, types := l.types + {t})
      else
        l.(itemMap := added.1, pending := l.pending[l.nextHandler := o.item], nextHandler := l.nextHandler + 1,
           appended := l.appended[t := AppendedFor(l, t) + [l.nextHandler]], types := l.types + {t})
  }

  /** The first `n` offers run in order from `l0`; `reply(k)` is the dependent queue's reply to the k-th. */
  function OffersSpec(offers: seq<Offer>, n: nat, reply: nat -> AddResult, typeOf: Item -> string, queue: bool,
                      l0: Ledger): Ledger
    requires n <= |offers|
  {
    if n == 0 then l0
    else OfferStep(OffersSpec(offers, n - 1, reply, typeOf, queue, l0), offers[n - 1], reply(n - 1), typeOf, queue)
  }

  /** Every subscribed handler has an identity below the next one. */
  ghost predicate IdentitiesBelow(l: Ledger)
  {
    forall h :: h in l.pending ==> h < l.nextHandler
  }

  /** One offer never removes a result, a handler or a type, and hands out at most the next identity. */
  lemma OfferStepGrows(l: Ledger, o: Offer, offered: AddResult, typeOf: Item -> string, queue: bool)
    requires IdentitiesBelow(l)
    ensures var l' := OfferStep(l, o, offered, typeOf, queue);
      && IdentitiesBelow(l')
      && l.result.Keys <= l'.result.Keys && l.types <= l'.types && l.nextHandler <= l'.nextHandler
      && (forall h :: h in l.pending ==> h in l'.pending && l'.pending[h] == l.pending[h])
      && (o.item in l'.result || (l.nextHandler in l'.pending && l'.pending[l.nextHandler] == o.item))
      && (forall x :: x in l'.result && !(x in l.result && l'.result[x] == l.result[x]) ==>
            x == o.item && (if queue then IsAddFailed(l'.result[x]) else l'.result[x] == Flag(false)))
  {
  }

  /** The offers never remove a result, a handler or a type, and never hand out an identity twice. */
  lemma {:induction false} OffersSpecGrows(offers: seq<Offer>, n: nat, reply: nat -> AddResult, typeOf: Item -> string,
                                           queue: bool, l0: Ledger)
    requires n <= |offers| && IdentitiesBelow(l0)
    ensures var l := OffersSpec(offers, n, reply, typeOf, queue, l0);
      && IdentitiesBelow(l)
      && l0.result.Keys <= l.result.Keys && l0.types <= l.types && l0.nextHandler <= l.nextHandler
      && (forall h :: h in l0.pending ==> h in l.pending && l.pending[h] == l0.pending[h])
  {
    if n > 0 {
      OffersSpecGrows(offers, n - 1, reply, typeOf, queue, l0);
      OfferStepGrows(OffersSpec(offers, n - 1, reply, typeOf, queue, l0), offers[n - 1], reply(n - 1), typeOf, queue);
    }
  }

  /** After the first `n` offers each offered item has a result or a handler subscribed for it. */
  lemma {:induction false} OffersSpecAccounts(offers: seq<Offer>, n: nat, reply: nat -> AddResult,
                                              typeOf: Item -> string, queue: bool, l0: Ledger)
    requires n <= |offers| && IdentitiesBelow(l0)
    ensures var l := OffersSpec(offers, n, reply, typeOf, queue, l0);
      forall k :: 0 <= k < n ==>
        offers[k].item in l.result || exists h :: h in l.pending && l.pending[h] == offers[k].item
  {
    if n > 0 {
      OffersSpecAccounts(offers, n - 1, reply, typeOf, queue, l0);
      OffersSpecGrows(offers, n - 1, reply, typeOf, queue, l0);
      var l1 := OffersSpec(offers, n - 1, reply, typeOf, queue, l0);
      var l := OfferStep(l1, offers[n - 1], reply(n - 1), typeOf, queue);
      OfferStepGrows(l1, offers[n - 1], reply(n - 1), typeOf, queue);
      forall k | 0 <= k < n
        ensures offers[k].item in l.result || exists h :: h in l.pending && l.pending[h] == offers[k].item
      {
        if k == n - 1 {
          if offers[k].item !in l.result {
            assert l.pending[l1.nextHandler] == offers[k].item;
          }
        } else if offers[k].item !in l1.result {
          var h :| h in l1.pending && l1.pending[h] == offers[k].item;
          assert h in l.pending && l.pending[h] == offers[k].item;
        }
      }
    }
  }

  /**
   * Every result the offers wrote is for an offered item: with a dependent
   * queue it is a failed add, without one it is false. Results from before
   * the batch that no offer touched stay as they were.
   */
  lemma {:induction false} OffersSpecResults(offers: seq<Offer>, n: nat, reply: nat -> AddResult,
                                             typeOf: Item -> string, queue: bool, l0: Ledger)
    requires n <= |offers| && IdentitiesBelow(l0)
    ensures var l := OffersSpec(offers, n, reply, typeOf, queue, l0);
      forall x :: x in l.result ==>
        || (x in l0.result && l.result[x] == l0.result[x])
        || ((exists k :: 0 <= k < n && offers[k].item == x)
            && (if queue then IsAddFailed(l.result[x]) else l.result[x] == Flag(false)))
  {
    if n > 0 {
      OffersSpecResults(offers, n - 1, reply, typeOf, queue, l0);
      OffersSpecGrows(offers, n - 1, reply, typeOf, queue, l0);
      var l1 := OffersSpec(offers, n - 1, reply, typeOf, queue, l0);
      var l := OfferStep(l1, offers[n - 1], reply(n - 1), typeOf, queue);
      OfferStepGrows(l1, offers[n - 1], reply(n - 1), typeOf, queue);
      forall x | x in l.result
        ensures || (x in l0.result && l.result[x] == l0.result[x])
                || ((exists k :: 0 <= k < n && offers[k].item == x)
                    && (if queue then IsAddFailed(l.result[x]) else l.result[x] == Flag(false)))
      {
        if x in l1.result && l.result[x] == l1.result[x] {
          if !(x in l0.result && l.result[x] == l0.result[x]) {
            var k :| 0 <= k < n - 1 && offers[k].item == x;
            assert 0 <= k < n;
          }
        } else {
          assert offers[n - 1].item == x;
        }
      }
    }
  }

  /**
   * The handler identities of a ledger lie between `first` and the next one,
   * and one is on type `t`'s appended list exactly when it is subscribed for
   * an item of type `t`.
   */
  ghost predicate AppendedExactly(l: Ledger, first: Handler, typeOf: Item -> string)
  {
    && first <= l.nextHandler
    && (forall h :: h in l.pending ==> first <= h < l.nextHandler)
    && (forall t, h :: h in AppendedFor(l, t) <==> h in l.pending && typeOf(l.pending[h]) == t)
  }

  /** One offer keeps `AppendedExactly`. */
  lemma {:induction false} OfferStepAppended(l: Ledger, o: Offer, offered: AddResult, typeOf: Item -> string,
                                             queue: bool, first: Handler)
    requires AppendedExactly(l, first, typeOf)
    ensures AppendedExactly(OfferStep(l, o, offered, typeOf, queue), first, typeOf)
  {
    var l' := OfferStep(l, o, offered, typeOf, queue);
    if queue && !IsAddFailed(AddOutcome(l.itemMap, o, true, offered).0) {
      var u := typeOf(o.item);
      assert l.nextHandler !in l.pending;
      forall t, h
        ensures h in AppendedFor(l', t) <==> h in l'.pending && typeOf(l'.pending[h]) == t
      {
        if t == u {
          assert AppendedFor(l', t) == AppendedFor(l, t) + [l.nextHandler];
        } else {
          assert AppendedFor(l', t) == AppendedFor(l, t);
        }
      }
    } else {
      assert l'.pending == l.pending && l'.appended == l.appended && l'.nextHandler == l.nextHandler;
      assert forall t :: AppendedFor(l', t) == AppendedFor(l, t);
    }
  }

  /**
   * Starting from no handlers, a handler identity is on type `t`'s appended
   * list exactly when it is subscribed for an item of type `t`; every
   * identity handed out lies between the first and the next one.
   */
  lemma {:induction false} OffersSpecAppended(offers: seq<Offer>, n: nat, reply: nat -> AddResult,
                                              typeOf: Item -> string, queue: bool, l0: Ledger)
    requires n <= |offers| && l0.pending == map[] && l0.appended == map[]
    ensures AppendedExactly(OffersSpec(offers, n, reply, typeOf, queue, l0), l0.nextHandler, typeOf)
  {
    if n > 0 {
      OffersSpecAppended(offers, n - 1, reply, typeOf, queue, l0);
      OfferStepAppended(OffersSpec(offers, n - 1, reply, typeOf, queue, l0), offers[n - 1], reply(n - 1),
                        typeOf, queue, l0.nextHandler);
    }
  }

  /** Without a dependent queue every offered item records false and nothing else changes. */
  lemma {:induction false} OffersSpecWithoutQueue(offers: seq<Offer>, n: nat, reply: nat -> AddResult,
                                                  typeOf: Item -> string, l0: Ledger)
    requires n <= |offers|
    ensures var l := OffersSpec(offers, n, reply, typeOf, false, l0);
      && l == l0.(result := l.result)
      && (forall k :: 0 <= k < n ==> offers[k].item in l.result && l.result[offers[k].item] == Flag(false))
  {
    if n > 0 {
      OffersSpecWithoutQueue(offers, n - 1, reply, typeOf, l0);
    }
  }

  /** `waiting` holds exactly the ledger's handlers, each on the executor stored for its item's type. */
  ghost predicate WaitersMatch(waiting: map<Handler, Waiter>, pending: map<Handler, Item>, typeOf: Item -> string,
                               executors: map<string, Executor>)
  {
    && waiting.Keys == pending.Keys
    && forall h :: h in waiting ==>
         && waiting[h].item == pending[h] && typeOf(pending[h]) in executors
         && waiting[h].executor == executors[typeOf(pending[h])]
  }

  /** The handlers an executor had before the batch (`hs0` per type); none for one the batch created. */
  function BeforeFor(hs0: map<string, map<EventName, seq<Handler>>>, t: string): map<EventName, seq<Handler>>
  {
    if t in hs0 then hs0[t] else map[]
  }

  /** Handlers `hs` with `added` appended to the `resolve` list by successive `on('resolve', h)` calls. */
  function WithAppended(hs: map<EventName, seq<Handler>>, added: seq<Handler>): map<EventName, seq<Handler>>
  {
    if added == [] then hs else hs[ResolveEvent := HandlersFor(hs, ResolveEvent) + added]
  }

  /** One more `on('resolve', h)` appends one more handler. */
  lemma WithAppendedPush(hs: map<EventName, seq<Handler>>, added: seq<Handler>, h: Handler)
    ensures WithAppended(hs, added + [h])
      == WithAppended(hs, added)[ResolveEvent := HandlersFor(WithAppended(hs, added), ResolveEvent) + [h]]
  {
    if added == [] {
      assert added + [h] == [h];
    } else {
      assert HandlersFor(WithAppended(hs, added), ResolveEvent) == HandlersFor(hs, ResolveEvent) + added;
      assert HandlersFor(hs, ResolveEvent) + (added + [h]) == HandlersFor(hs, ResolveEvent) + added + [h];
    }
  }

  /** Every stored executor's handlers, by type. */
  function HandlersNow(executors: map<string, Executor>): map<string, map<EventName, seq<Handler>>>
    reads executors.Values`handlers
  {
    map t | t in executors :: executors[t].handlers
  }

  /**
   * When `e` is now stored under `t` and every other stored executor still
   * has the handlers `hs0` gave it, the handler view is `hs0` changed at `t` only.
   */
  lemma HandlersAfterOne(executors0: map<string, Executor>, executors: map<string, Executor>, t: string,
                         e: Executor, hs0: map<string, map<EventName, seq<Handler>>>)
    requires executors == executors0[t := e] && hs0.Keys == executors0.Keys
    requires forall u :: u in executors0 && u != t ==> executors0[u].handlers == hs0[u]
    ensures HandlersNow(executors) == hs0[t := e.handlers]
  {
  }

  /**
   * The executors now (`hs`, by type) are those from before the batch plus
   * one for each type the ledger touched, and each has its old handlers
   * (none when new) with the ledger's handlers for its type appended.
   */
  ghost predicate HandlersMatch(hs: map<string, map<EventName, seq<Handler>>>,
                                hs0: map<string, map<EventName, seq<Handler>>>, l: Ledger)
  {
    && hs.Keys == hs0.Keys + l.types
    && l.appended.Keys <= l.types
    && forall t :: t in hs ==> hs[t] == WithAppended(BeforeFor(hs0, t), AppendedFor(l, t))
  }

  /** The batch's and the registry's state is exactly what the ledger `l` describes. */
  ghost predicate LedgerMatches(l: Ledger, result: map<Item, AddResult>, waiting: map<Handler, Waiter>,
                                itemMap: map<Item, Entry>, nextHandler: Handler, typeOf: Item -> string,
                                executors: map<string, Executor>, hs: map<string, map<EventName, seq<Handler>>>,
                                hs0: map<string, map<EventName, seq<Handler>>>)
  {
    && result == l.result && itemMap == l.itemMap && nextHandler == l.nextHandler
    && WaitersMatch(waiting, l.pending, typeOf, executors)
    && HandlersMatch(hs, hs0, l)
  }

  /** An offer made without a dependent queue records false, as `OfferStep` says. */
  lemma LedgerNoQueue(l: Ledger, o: Offer, offered: AddResult, typeOf: Item -> string,
                      result: map<Item, AddResult>, waiting: map<Handler, Waiter>, executors: map<string, Executor>,
                      hs: map<string, map<EventName, seq<Handler>>>, hs0: map<string, map<EventName, seq<Handler>>>)
    requires LedgerMatches(l, l.result, waiting, l.itemMap, l.nextHandler, typeOf, executors, hs, hs0)
    requires result == l.result[o.item := Flag(false)]
    ensures LedgerMatches(OfferStep(l, o, offered, typeOf, false), result, waiting, l.itemMap, l.nextHandler,
                          typeOf, executors, hs, hs0)
  {
  }

  /** An offer whose add failed records the reply and fetches or creates its type's executor, as `OfferStep` says. */
  lemma {:induction false} LedgerFailedAdd(l: Ledger, o: Offer, offered: AddResult, typeOf: Item -> string,
                                           result: map<Item, AddResult>, waiting: map<Handler, Waiter>,
                                           executors: map<string, Executor>, executors1: map<string, Executor>,
                                           hs: map<string, map<EventName, seq<Handler>>>,
                                           hs1: map<string, map<EventName, seq<Handler>>>,
                                           hs0: map<string, map<EventName, seq<Handler>>>)
    requires IsAddFailed(AddOutcome(l.itemMap, o, true, offered).0)
    requires LedgerMatches(l, l.result, waiting, l.itemMap, l.nextHandler, typeOf, executors1, hs1, hs0)
    requires forall u :: u in executors1 ==> u in executors && executors[u] == executors1[u]
    requires hs == hs1[typeOf(o.item) := BeforeFor(hs1, typeOf(o.item))]
    requires result == l.result[o.item := AddOutcome(l.itemMap, o, true, offered).0]
    ensures LedgerMatches(OfferStep(l, o, offered, typeOf, true), result, waiting,
                          AddOutcome(l.itemMap, o, true, offered).1, l.nextHandler, typeOf, executors, hs, hs0)
  {
    var t := typeOf(o.item);
    var l' := OfferStep(l, o, offered, typeOf, true);
    forall u | u in hs
      ensures hs[u] == WithAppended(BeforeFor(hs0, u), AppendedFor(l', u))
    {
      if u == t && t !in hs1 {
        assert t !in l.appended;
      }
    }
  }

  /** An offer whose add succeeded subscribes the next handler to its type's executor, as `OfferStep` says. */
  lemma {:induction false} LedgerSubscribe(l: Ledger, o: Offer, offered: AddResult, typeOf: Item -> string,
                                           waiting: map<Handler, Waiter>, waiting1: map<Handler, Waiter>,
                                           executors: map<string, Executor>, executors1: map<string, Executor>,
                                           hs: map<string, map<EventName, seq<Handler>>>,
                                           hs1: map<string, map<EventName, seq<Handler>>>,
                                           hs0: map<string, map<EventName, seq<Handler>>>)
    requires !IsAddFailed(AddOutcome(l.itemMap, o, true, offered).0)
    requires LedgerMatches(l, l.result, waiting1, l.itemMap, l.nextHandler, typeOf, executors1, hs1, hs0)
    requires l.nextHandler !in waiting1
    requires forall u :: u in executors1 ==> u in executors && executors[u] == executors1[u]
    requires typeOf(o.item) in executors
    requires waiting == waiting1[l.nextHandler := Waiter(o.item, executors[typeOf(o.item)])]
    requires var before := BeforeFor(hs1, typeOf(o.item));
      hs == hs1[typeOf(o.item) := before[ResolveEvent := HandlersFor(before, ResolveEvent) + [l.nextHandler]]]
    ensures LedgerMatches(OfferStep(l, o, offered, typeOf, true), l.result, waiting,
                          AddOutcome(l.itemMap, o, true, offered).1, l.nextHandler + 1, typeOf, executors, hs, hs0)
  {
    var t := typeOf(o.item);
    var l' := OfferStep(l, o, offered, typeOf, true);
    forall u | u in hs
      ensures hs[u] == WithAppended(BeforeFor(hs0, u), AppendedFor(l', u))
    {
      if u == t {
        if t !in hs1 {
          assert t !in l.appended;
        }
        WithAppendedPush(BeforeFor(hs0, t), AppendedFor(l, t), l.nextHandler);
      }
    }
  }

  /**
   * What one `executeOffer` does to the batch and the registry, from the
   * state before (`…0`) to the state after. Without a dependent queue the
   * item records false and nothing else changes. With one, the item's type
   * ends with a stored executor and the add updates the item map; a failed
   * add records its result and leaves every handler list alone (a new
   * executor starts with none); a successful one takes the next handler
   * identity, waits on the type's executor and appends the handler to that
   * executor's resolve list, leaving every other executor's lists alone.
   */
  ghost predicate OfferEffect(o: Offer, offered: AddResult, queue: bool, typeOf: Item -> string,
                              result0: map<Item, AddResult>, waiting0: map<Handler, Waiter>, itemMap0: map<Item, Entry>,
                              next0: Handler, executors0: map<string, Executor>,
                              hs0: map<string, map<EventName, seq<Handler>>>,
                              result: map<Item, AddResult>, waiting: map<Handler, Waiter>, itemMap: map<Item, Entry>,
                              next: Handler, executors: map<string, Executor>,
                              hs: map<string, map<EventName, seq<Handler>>>)
  {
    if !queue then
      && result == result0[o.item := Flag(false)] && waiting == waiting0 && itemMap == itemMap0
      && next == next0 && executors == executors0 && hs == hs0
    else
      var t := typeOf(o.item);
      var r := AddOutcome(itemMap0, o, true, offered).0;
      var before := BeforeFor(hs0, t);
      && t in executors && executors.Keys == executors0.Keys + {t}
      && (forall u :: u in executors0 ==> executors[u] == executors0[u])
      && itemMap == AddOutcome(itemMap0, o, true, offered).1
      && (IsAddFailed(r) ==>
            && result == result0[o.item := r] && waiting == waiting0 && next == next0
            && hs == hs0[t := before])
      && (!IsAddFailed(r) ==>
            && result == result0 && next == next0 + 1
            && waiting == waiting0[next0 := Waiter(o.item, executors[t])]
            && hs == hs0[t := before[ResolveEvent := HandlersFor(before, ResolveEvent) + [next0]]])
  }

  /**
   * The queued case of `OfferEffect` from its two halves: `getExecutor`
   * yields `e` for the item's type (the stored one, or a new one with no
   * handlers, now stored), then the add and the subscription change only
   * `e`'s handler lists (from `eh0` to `eh`).
   */
  lemma QueuedEffect(o: Offer, offered: AddResult, queue: bool, typeOf: Item -> string,
                     result0: map<Item, AddResult>, waiting0: map<Handler, Waiter>, itemMap0: map<Item, Entry>,
                     next0: Handler, executors0: map<string, Executor>, hs0: map<string, map<EventName, seq<Handler>>>,
                     e: Executor, eh0: map<EventName, seq<Handler>>, eh: map<EventName, seq<Handler>>,
                     r: AddResult,
                     result: map<Item, AddResult>, waiting: map<Handler, Waiter>, itemMap: map<Item, Entry>,
                     next: Handler, executors: map<string, Executor>, hs: map<string, map<EventName, seq<Handler>>>)
    requires queue
    requires var t := typeOf(o.item); executors == executors0[t := e] && (t in executors0 ==> executors0[t] == e)
    requires eh0 == BeforeFor(hs0, typeOf(o.item))
    requires hs == hs0[typeOf(o.item) := eh]
    requires (r, itemMap) == AddOutcome(itemMap0, o, true, offered)
    requires
      && (IsAddFailed(r) ==> result == result0[o.item := r] && waiting == waiting0 && next == next0 && eh == eh0)
      && (!IsAddFailed(r) ==>
            && result == result0 && next == next0 + 1 && waiting == waiting0[next0 := Waiter(o.item, e)]
            && eh == eh0[ResolveEvent := HandlersFor(eh0, ResolveEvent) + [next0]])
    ensures OfferEffect(o, offered, queue, typeOf, result0, waiting0, itemMap0, next0, executors0, hs0,
                        result, waiting, itemMap, next, executors, hs)
  {
  }

  /** One offer's step keeps every handler that was already waiting. */
  lemma OfferEffectKeepsWaiters(o: Offer, offered: AddResult, queue: bool, typeOf: Item -> string,
                                result0: map<Item, AddResult>, waiting0: map<Handler, Waiter>, itemMap0: map<Item, Entry>,
                                next0: Handler, executors0: map<string, Executor>,
                                hs0: map<string, map<EventName, seq<Handler>>>,
                                result: map<Item, AddResult>, waiting: map<Handler, Waiter>, itemMap: map<Item, Entry>,
                                next: Handler, executors: map<string, Executor>,
                                hs: map<string, map<EventName, seq<Handler>>>)
    requires next0 !in waiting0
    requires OfferEffect(o, offered, queue, typeOf, result0, waiting0, itemMap0, next0, executors0, hs0,
                         result, waiting, itemMap, next, executors, hs)
    ensures forall g :: g in waiting0 ==> g in waiting && waiting[g] == waiting0[g]
  {
  }

  /** A state matching ledger `l` that takes one `OfferEffect` step matches `OfferStep` of it. */
  lemma LedgerStep(l: Ledger, o: Offer, offered: AddResult, queue: bool, typeOf: Item -> string,
                   result0: map<Item, AddResult>, waiting0: map<Handler, Waiter>, itemMap0: map<Item, Entry>,
                   next0: Handler, executors0: map<string, Executor>, hs1: map<string, map<EventName, seq<Handler>>>,
                   result: map<Item, AddResult>, waiting: map<Handler, Waiter>, itemMap: map<Item, Entry>,
                   next: Handler, executors: map<string, Executor>,
                   hs: map<string, map<EventName, seq<Handler>>>, hs0: map<string, map<EventName, seq<Handler>>>)
    requires LedgerMatches(l, result0, waiting0, itemMap0, next0, typeOf, executors0, hs1, hs0)
    requires next0 !in waiting0
    requires OfferEffect(o, offered, queue, typeOf, result0, waiting0, itemMap0, next0, executors0, hs1,
                         result, waiting, itemMap, next, executors, hs)
    ensures LedgerMatches(OfferStep(l, o, offered, typeOf, queue), result, waiting, itemMap, next, typeOf,
                          executors, hs, hs0)
  {
    if !queue {
      LedgerNoQueue(l, o, offered, typeOf, result, waiting, executors, hs, hs0);
    } else if IsAddFailed(AddOutcome(l.itemMap, o, true, offered).0) {
      LedgerFailedAdd(l, o, offered, typeOf, result, waiting, executors, executors0, hs, hs1, hs0);
    } else {
      LedgerSubscribe(l, o, offered, typeOf, waiting, waiting0, executors, executors0, hs, hs1, hs0);
    }
  }

  /** Every one of the first `n` offered items has a result or a handler waiting for it. */
  ghost predicate Accounted(offers: seq<Offer>, n: nat, result: map<Item, AddResult>, waiting: map<Handler, Waiter>)
  {
    forall k :: 0 <= k < n && k < |offers| ==>
      offers[k].item in result || exists h :: h in waiting && waiting[h].item == offers[k].item
  }

  /** A state that matches the ledger of all offers accounts for every offer. */
  lemma {:induction false} LedgerAccounts(offers: seq<Offer>, reply: nat -> AddResult, typeOf: Item -> string,
                                          queue: bool, l0: Ledger, result: map<Item, AddResult>,
                                          waiting: map<Handler, Waiter>, executors: map<string, Executor>)
    requires IdentitiesBelow(l0)
    requires var l := OffersSpec(offers, |offers|, reply, typeOf, queue, l0);
      result == l.result && WaitersMatch(waiting, l.pending, typeOf, executors)
    ensures Accounted(offers, |offers|, result, waiting)
  {
    var l := OffersSpec(offers, |offers|, reply, typeOf, queue, l0);
    OffersSpecAccounts(offers, |offers|, reply, typeOf, queue, l0);
    forall k | 0 <= k < |offers| && k < |offers|
      ensures offers[k].item in result || exists h :: h in waiting && waiting[h].item == offers[k].item
    {
      if offers[k].item !in result {
        var h :| h in l.pending && l.pending[h] == offers[k].item;
        assert waiting[h].item == offers[k].item;
      }
    }
  }
}
