/**
 * The dependent queue, as the executors and the registry see it.
 *
 * The queue itself belongs to an external library whose source is not part
 * of this model. Only the interface the core relies on is modelled: one
 * ready FIFO per type, a count of blocked entries destined for each type,
 * `peek`, `poll` (drop the head), `moveEnd` (move the head to the tail) and
 * the two emptiness checks. Dependency promotion is not modelled.
 */
module DependentQueue {
  import opened Wrappers

  /** Items are caller-defined values compared by identity; the model names each one by a number. */
  type Item = nat

  /** A caller-supplied resolver, identified by the function object it is. */
  type Resolver = nat

  /** The queue entry `{ item, resolver }` (DependentQueueItemType in src/types.ts). */
  datatype Entry = Entry(item: Item, resolver: Resolver)

  /** The ready queue once its head has been polled; polling an empty queue changes nothing. */
  function Dropped(q: seq<Entry>): seq<Entry>
  {
    if q == [] then [] else q[1..]
  }

  /** The ready queue once its head has been moved to the tail (the failure-retry path). */
  function Rotated(q: seq<Entry>): seq<Entry>
  {
    if q == [] then [] else q[1..] + [q[0]]
  }

  class TypedQueue {
    /** Ready (and requeued) entries per type, head first. */
    var ready: map<string, seq<Entry>>
    /** Number of blocked entries that will join each type's ready queue once promoted. */
    var blocked: map<string, nat>

    constructor ()
      ensures ready == map[] && blocked == map[]
    {
      ready := map[];
      blocked := map[];
    }

    function ReadyOf(t: string): seq<Entry>
      reads this
    {
      if t in ready then ready[t] else []
    }

    function BlockedOf(t: string): nat
      reads this
    {
      if t in blocked then blocked[t] else 0
    }

    /** `peek(type)`: the head of the type's ready queue, left in place. */
    function Peek(t: string): (r: Option<Entry>)
      reads this
      ensures r.None? <==> ReadyOf(t) == []
      ensures r.Some? ==> r.value == ReadyOf(t)[0]
    {
      if ReadyOf(t) == [] then None else Some(ReadyOf(t)[0])
    }

    /** `checkQueueEmpty(type)`: nothing ready and nothing blocked for the type. */
    predicate CheckQueueEmpty(t: string)
      reads this
    {
      ReadyOf(t) == [] && BlockedOf(t) == 0
    }

    /** `checkQueueEmpty()` without a type: the whole queue is empty. */
    predicate CheckAllEmpty()
      reads this
    {
      (forall t :: t in ready ==> ready[t] == []) && (forall t :: t in blocked ==> blocked[t] == 0)
    }

    /** `poll(type)`: removes the head of the type's ready queue. */
    method Poll(t: string)
      modifies this
      ensures ready == old(ready)[t := Dropped(old(ReadyOf(t)))]
      ensures blocked == old(blocked)
    {
      ready := ready[t := Dropped(ReadyOf(t))];
    }

    /** `moveEnd(entry)` for the head entry of type `t`: requeues it at the tail. */
    method MoveEnd(t: string)
      modifies this
      ensures ready == old(ready)[t := Rotated(old(ReadyOf(t)))]
      ensures blocked == old(blocked)
    {
      ready := ready[t := Rotated(ReadyOf(t))];
    }
  }
}
