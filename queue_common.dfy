/**
 * The parts of the batch coordinator that the two AsyncQueue variants
 * (dist/AsyncQueue/index.js and the older src/AsyncQueue/index.ts) share:
 * capacity lookup, the get-or-insert item registry, the dependency
 * presence check of `addItemToQueue`, and the "did the add fail" test.
 */
module QueueCommon {
  import opened Wrappers
  import opened DependentQueue

  /** The `depend` field of an offer: absent, a single item, or an array of items. */
  datatype Depend = NoDepend | DependOn(item: Item) | DependOnAll(items: seq<Item>)

  /** An offer `{ item, resolver, depend }`; the resolver is optional in src/AsyncQueue/IAsyncQueue.ts. */
  datatype Offer = Offer(item: Item, resolver: Option<Resolver>, depend: Depend)

  /** `boolean | boolean[]`: what `addItemToQueue` returns and what the result map stores. */
  datatype AddResult = Flag(b: bool) | Flags(bs: seq<bool>)

  /** JavaScript truthiness of an optional type name: absent and "" are both falsy. */
  predicate HasType(t: Option<string>)
  {
    t.Some? && t.value != ""
  }

  /** `getCapacity(type)`: the type's own capacity, unless the type is falsy or its capacity is missing or 0. */
  function GetCapacity(capacity: map<string, int>, defaultCapacity: int, t: Option<string>): (r: int)
    ensures !HasType(t) ==> r == defaultCapacity
    ensures HasType(t) && t.value !in capacity ==> r == defaultCapacity
    ensures HasType(t) && t.value in capacity && capacity[t.value] == 0 ==> r == defaultCapacity
    ensures HasType(t) && t.value in capacity && capacity[t.value] != 0 ==> r == capacity[t.value]
    ensures r != defaultCapacity ==> HasType(t) && t.value in capacity && r == capacity[t.value] != 0
  {
    if !HasType(t) then defaultCapacity
    else if t.value in capacity && capacity[t.value] != 0 then capacity[t.value]
    else defaultCapacity
  }

  /** The capacity settings after `setCapacity(n, type)`: with a type only its entry, else only the default. */
  function CapacityAfterSet(capacity: map<string, int>, defaultCapacity: int, n: int, t: Option<string>)
    : (map<string, int>, int)
  {
    if HasType(t) then (capacity[t.value := n], defaultCapacity) else (capacity, n)
  }

  /**
   * What `getCapacity` answers after `setCapacity(n, t)`: the set type gets
   * `n` (or the default when `n` is 0), every other type keeps its answer;
   * without a type, every type that has no nonzero capacity of its own gets `n`.
   */
  lemma GetCapacityAfterSet(capacity: map<string, int>, defaultCapacity: int, n: int, t: Option<string>, u: string)
    ensures var (c, d) := CapacityAfterSet(capacity, defaultCapacity, n, t);
      && (HasType(t) && u == t.value ==> GetCapacity(c, d, Some(u)) == if n != 0 then n else defaultCapacity)
      && (HasType(t) && u != t.value ==> GetCapacity(c, d, Some(u)) == GetCapacity(capacity, defaultCapacity, Some(u)))
      && (!HasType(t) ==> GetCapacity(c, d, Some(u)) == if u != "" && u in capacity && capacity[u] != 0 then capacity[u] else n)
  {
  }

  /**
   * `getDependQueueItem(item, resolver)` on the item map: an existing entry is
   * returned untouched (the resolver is ignored); an absent item without a
   * resolver gives null and changes nothing; otherwise `{item, resolver}` is
   * inserted and returned.
   */
  function GetOrInsert(m: map<Item, Entry>, item: Item, resolver: Option<Resolver>): (r: (Option<Entry>, map<Item, Entry>))
    ensures item in m ==> r.0 == Some(m[item]) && r.1 == m
    ensures item !in m && resolver.None? ==> r.0 == None && r.1 == m
    ensures item !in m && resolver.Some? ==> r.0 == Some(Entry(item, resolver.value))
    ensures r.0.Some? <==> item in m || resolver.Some?
    ensures r.0.Some? ==> item in r.1 && r.1[item] == r.0.value
    ensures forall k :: k in m ==> k in r.1 && r.1[k] == m[k]
    ensures r.1.Keys == m.Keys + (if r.0.Some? then {item} else {})
  {
    if item in m then (Some(m[item]), m)
    else if resolver.None? then (None, m)
    else var e := Entry(item, resolver.value); (Some(e), m[item := e])
  }

  /** Asking twice gives the same entry and the same map: registration is idempotent. */
  lemma GetOrInsertIdempotent(m: map<Item, Entry>, item: Item, resolver: Option<Resolver>, again: Option<Resolver>)
    ensures var (e, m1) := GetOrInsert(m, item, resolver);
            e.Some? ==> GetOrInsert(m1, item, again) == (e, m1)
  {
  }

  /** The dependencies of an offer, as the array `addItemToQueue` maps over. */
  function DependList(d: Depend): seq<Item>
  {
    match d
    case NoDepend => []
    case DependOn(x) => [x]
    case DependOnAll(xs) => xs
  }

  /** Some dependency is not registered (`isDependError`). */
  predicate MissingDependency(m: map<Item, Entry>, d: Depend)
  {
    exists x :: x in DependList(d) && x !in m
  }

  /** The presence report returned on a missing dependency: one bool per array element, or one bool. */
  function PresenceReport(m: map<Item, Entry>, d: Depend): AddResult
  {
    match d
    case DependOnAll(xs) => Flags(seq(|xs|, i requires 0 <= i < |xs| => xs[i] in m))
    case DependOn(x) => Flag(x in m)
    case NoDepend => Flag(true)
  }

  /**
   * `addItemToQueue(offer)`: the reply and the new item map. `hasQueue`
   * says whether a dependent queue exists and `offered` is the dependent
   * queue's own reply to `offer`.
   */
  function AddOutcome(m: map<Item, Entry>, o: Offer, hasQueue: bool, offered: AddResult): (AddResult, map<Item, Entry>)
  {
    if MissingDependency(m, o.depend) then (PresenceReport(m, o.depend), m)
    else
      var (e, m1) := GetOrInsert(m, o.item, o.resolver);
      if e.None? || !hasQueue then (Flag(false), m1) else (offered, m1)
  }

  /** `isAddFailed` as dist/AsyncQueue/index.js:175-177 computes it: a false flag anywhere. */
  predicate IsAddFailed(r: AddResult)
  {
    match r
    case Flag(b) => !b
    case Flags(bs) => exists i :: 0 <= i < |bs| && !bs[i]
  }

  /** The flags `.some` looks at: a scalar reply wrapped in an array, an array as it is. */
  function Wrapped(r: AddResult): seq<bool>
  {
    match r
    case Flag(b) => [b]
    case Flags(bs) => bs
  }

  /** The add failed exactly when the reply is falsy (the scalar false) or a wrapped flag is false. */
  lemma IsAddFailedWrapped(r: AddResult)
    ensures IsAddFailed(r) <==> r == Flag(false) || false in Wrapped(r)
  {
  }

  /**
   * With a missing dependency the item is not registered, the reply gives
   * each dependency's presence in order (one bool for a single dependency,
   * then false), and the reply counts as a failed add.
   */
  lemma MissingDependencyRejected(m: map<Item, Entry>, o: Offer, hasQueue: bool, offered: AddResult)
    requires MissingDependency(m, o.depend)
    ensures AddOutcome(m, o, hasQueue, offered).1 == m
    ensures o.depend.DependOnAll? ==>
      var r := AddOutcome(m, o, hasQueue, offered).0;
      r.Flags? && |r.bs| == |o.depend.items| && forall i :: 0 <= i < |r.bs| ==> r.bs[i] == (o.depend.items[i] in m)
    ensures o.depend.DependOn? ==> AddOutcome(m, o, hasQueue, offered).0 == Flag(false)
    ensures IsAddFailed(AddOutcome(m, o, hasQueue, offered).0)
  {
    var x :| x in DependList(o.depend) && x !in m;
    if o.depend.DependOnAll? {
      var xs := o.depend.items;
      var i :| 0 <= i < |xs| && xs[i] == x;
      var r := PresenceReport(m, o.depend);
      assert !r.bs[i];
    }
  }

  /**
   * With every dependency registered, the item is registered get-or-insert
   * style and the reply is the dependent queue's own, or false when there is
   * no resolver for a new item or no dependent queue.
   */
  lemma PresentDependenciesRegister(m: map<Item, Entry>, o: Offer, hasQueue: bool, offered: AddResult)
    requires !MissingDependency(m, o.depend)
    ensures var (r, m1) := AddOutcome(m, o, hasQueue, offered);
      && m1 == GetOrInsert(m, o.item, o.resolver).1
      && (o.item in m || o.resolver.Some? ==> o.item in m1)
      && ((o.item in m || o.resolver.Some?) && hasQueue ==> r == offered)
      && ((o.item !in m && o.resolver.None?) || !hasQueue ==> r == Flag(false))
  {
  }

  /**
   * With the failure test normalised, an add counts as failed exactly when a
   * dependency is missing, the item has no entry and no resolver, there is
   * no dependent queue, or the queue's own reply holds a false flag.
   */
  lemma AddFailsExactlyWhenRejected(m: map<Item, Entry>, o: Offer, hasQueue: bool, offered: AddResult)
    ensures IsAddFailed(AddOutcome(m, o, hasQueue, offered).0) <==>
      || MissingDependency(m, o.depend)
      || (o.item !in m && o.resolver.None?)
      || !hasQueue
      || IsAddFailed(offered)
  {
    if MissingDependency(m, o.depend) {
      MissingDependencyRejected(m, o, hasQueue, offered);
    } else {
      PresentDependenciesRegister(m, o, hasQueue, offered);
    }
  }

  /**
   * The dependency lookups of `addItemToQueue`: `getDependQueueItem` for
   * each dependency in order, raising `isDependError` on the first miss.
   */
  method LookupDependencies(m: map<Item, Entry>, deps: seq<Item>) returns (found: seq<Option<Entry>>, missing: bool)
    ensures |found| == |deps|
    ensures forall i :: 0 <= i < |deps| ==> found[i] == if deps[i] in m then Some(m[deps[i]]) else None
    ensures missing <==> exists i :: 0 <= i < |deps| && deps[i] !in m
  {
    found, missing := [], false;
    for i := 0 to |deps|
      invariant |found| == i
      invariant forall k :: 0 <= k < i ==> found[k] == if deps[k] in m then Some(m[deps[k]]) else None
      invariant missing <==> exists k :: 0 <= k < i && deps[k] !in m
    {
      var (e, _) := GetOrInsert(m, deps[i], None);
      if e.None? {
        missing := true;
      }
      found := found + [e];
    }
  }

  /** `addItemToQueue` on the item map, proved against `AddOutcome`. */
  method AddItem(m: map<Item, Entry>, o: Offer, hasQueue: bool, offered: AddResult)
    returns (r: AddResult, m1: map<Item, Entry>)
    ensures (r, m1) == AddOutcome(m, o, hasQueue, offered)
  {
    var deps := DependList(o.depend);
    var found, missing := LookupDependencies(m, deps);
    assert missing <==> MissingDependency(m, o.depend) by {
      if missing {
        var i :| 0 <= i < |deps| && deps[i] !in m;
        assert deps[i] in DependList(o.depend);
      }
    }
    if o.depend != NoDepend && missing {
      if o.depend.DependOnAll? {
        r := Flags(seq(|found|, i requires 0 <= i < |found| => found[i].Some?));
        assert r.bs == PresenceReport(m, o.depend).bs;
      } else {
        r := Flag(found[0].Some?);
        assert r == PresenceReport(m, o.depend);
      }
      return r, m;
    }
    var (e, registered) := GetOrInsert(m, o.item, o.resolver);
    m1 := registered;
    if e.None? || !hasQueue {
      return Flag(false), m1;
    }
    r := offered;
  }
}
