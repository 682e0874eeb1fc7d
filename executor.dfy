/**
 * The per-type, rate-limited executor of src/Executor/index.ts as a class
 * whose fields the methods update in place. The steps that drive it (`Emit`,
 * `Start`, `ResetCounter`, `ExistItemsHandler`, `EndHandler`, `Next`,
 * `Settle`, `Run`) are proved against the pure functions of ExecutorSpec
 * through `View()`; the accessors, `SetLimit`, `On`, `Off` and `Stop` state
 * their effect on the fields directly.
 */
module Executor {
  import opened Wrappers
  import opened DependentQueue
  import opened HandlerLists
  import opened ExecutorSpec

  class Executor {
    var limit: int
    var count: int
    var executeTimestamp: int
    var isExecuting: bool
    var handlers: map<EventName, seq<Handler>>
    /** Whether `existItemsHandler` is subscribed to the queue's `existType` event. */
    var listening: bool
    /** Every handler invocation made so far, in order. */
    var calls: seq<Call>
    const dq: TypedQueue
    const typ: string

    /** The executor's state together with its type's part of the dependent queue. */
    function View(): Snapshot
      reads this, dq
    {
      Snapshot(limit, count, executeTimestamp, isExecuting, listening, handlers, calls,
               dq.ReadyOf(typ), dq.BlockedOf(typ))
    }

    /** A new executor: limit 1, count 0, not running, no handlers. */
    constructor (dq: TypedQueue, typ: string)
      ensures this.dq == dq && this.typ == typ
      ensures limit == 1 && count == 0 && executeTimestamp == 0 && !isExecuting
      ensures handlers == map[] && !listening && calls == []
    {
      this.dq := dq;
      this.typ := typ;
      limit, count, executeTimestamp, isExecuting := 1, 0, 0, false;
      handlers, listening, calls := map[], false, [];
    }

    method SetLimit(n: int)
      modifies this`limit
      ensures limit == n
    {
      limit := n;
    }

    method GetCount() returns (c: int)
      ensures c == count
    {
      c := count;
    }

    method GetExecuteTimestamp() returns (t: int)
      ensures t == executeTimestamp
    {
      t := executeTimestamp;
    }

    /** `on(name, handler)`: creates the list if missing, then appends the handler at its tail. */
    method On(ev: EventName, h: Handler)
      modifies this`handlers
      ensures handlers == old(handlers)[ev := HandlersFor(old(handlers), ev) + [h]]
    {
      if ev !in handlers {
        handlers := handlers[ev := []];
      }
      handlers := handlers[ev := handlers[ev] + [h]];
    }

    /** `off(name, handler)`: no-op without a list; otherwise splices out the first occurrence. */
    method Off(ev: EventName, h: Handler)
      modifies this`handlers
      ensures ev !in old(handlers) ==> handlers == old(handlers)
      ensures ev in old(handlers) ==> handlers == old(handlers)[ev := WithoutFirst(old(handlers)[ev], h)]
      ensures ev in old(handlers) && h !in old(handlers)[ev] ==> handlers == old(handlers)
    {
      if ev !in handlers {
        return;
      }
      var list := handlers[ev];
      var index := IndexOf(list, h);
      if index >= 0 {
        handlers := handlers[ev := list[..index] + list[index + 1..]];
      }
    }

    /** The emit helpers (`resolveHandler`, `finishHandler`, ...): call every handler of `ev` in list order. */
    method Emit(ev: EventName, arg: Option<Item>)
      modifies this`calls
      ensures calls == old(calls) + CallsOf(HandlersFor(handlers, ev), ev, arg)
      ensures View() == Emitted(old(View()), ev, arg)
    {
      var hs := HandlersFor(handlers, ev);
      for i := 0 to |hs|
        invariant |calls| == |old(calls)| + i
        invariant calls[..|old(calls)|] == old(calls)
        invariant forall k :: 0 <= k < i ==> calls[|old(calls)| + k] == Call(hs[k], ev, arg)
      {
        calls := calls + [Call(hs[i], ev, arg)];
      }
      assert calls == old(calls) + CallsOf(hs, ev, arg);
    }

    /** `start()`: no-op when already running; otherwise mark running and enter `next()`. */
    method Start() returns (d: Option<Decision>)
      modifies this`isExecuting, this`calls, this`listening
      ensures old(isExecuting) ==> d == None && View() == old(View())
      ensures !old(isExecuting) ==> isExecuting
      ensures !old(isExecuting) ==> d == Some(Decide(old(View()).(running := true)))
      ensures !old(isExecuting) ==> View() == AfterNext(old(View()).(running := true))
      ensures View() == AfterStart(old(View()))
    {
      if isExecuting {
        return None;
      }
      isExecuting := true;
      var n := Next();
      d := Some(n);
    }

    /** `stop()`: no-op when not running; otherwise unsubscribe from `existType` and clear the flag. */
    method Stop()
      modifies this`isExecuting, this`listening
      ensures !isExecuting
      ensures old(isExecuting) ==> !listening
      ensures !old(isExecuting) ==> listening == old(listening)
    {
      if !isExecuting {
        return;
      }
      listening := false;
      isExecuting := false;
    }

    /**
     * `resetCounter()`: the count becomes 0; when running (limited or not)
     * `resume` is emitted and `next()` is re-entered.
     */
    method ResetCounter() returns (d: Option<Decision>)
      modifies this`count, this`calls, this`listening
      ensures View() == AfterReset(old(View()))
      ensures count == 0
      ensures d.Some? <==> old(isExecuting)
      ensures d.Some? ==> d.value == Decide(old(View()).(count := 0))
      ensures !old(isExecuting) ==> calls == old(calls) && listening == old(listening)
    {
      count := 0;
      if isExecuting {
        Emit(ResumeEvent, None);
        var n := Next();
        d := Some(n);
      } else {
        d := None;
      }
    }

    /** `existItemsHandler(type)`: for this type while running, unsubscribe and re-enter `next()`. */
    method ExistItemsHandler(t: Option<string>) returns (d: Option<Decision>)
      modifies this`calls, this`listening
      ensures !(t == Some(typ) && old(isExecuting)) ==> d == None && View() == old(View())
      ensures t == Some(typ) && old(isExecuting) ==>
                d == Some(Decide(old(View()))) && View() == AfterNext(old(View()).(listening := false))
    {
      if t == Some(typ) && isExecuting {
        listening := false;
        var n := Next();
        d := Some(n);
      } else {
        d := None;
      }
    }

    /** `endHandler()`: subscribe to `existType`, then emit `finish` if the type is empty, else `wait`. */
    method EndHandler() returns (d: Decision)
      modifies this`calls, this`listening
      ensures listening
      ensures d == (if old(dq.CheckQueueEmpty(typ)) then Finished else Waiting)
      ensures View() == Emitted(old(View()).(listening := true), if d == Finished then FinishEvent else WaitEvent, None)
    {
      listening := true;
      if dq.CheckQueueEmpty(typ) {
        Emit(FinishEvent, None);
        d := Finished;
      } else {
        Emit(WaitEvent, None);
        d := Waiting;
      }
    }

    /**
     * The synchronous part of `next()`: peek, then check "not executing",
     * "count >= limit" and "no head" in that order; past all three the head's
     * resolver is called and awaited.
     */
    method Next() returns (d: Decision)
      modifies this`calls, this`listening
      ensures d == Decide(old(View()))
      ensures View() == AfterNext(old(View()))
    {
      var head := dq.Peek(typ);
      if !isExecuting {
        Emit(StopEvent, None);
        return Stopped;
      }
      if count >= limit {
        Emit(LimitEvent, None);
        return Limited;
      }
      if head.None? {
        d := EndHandler();
        return;
      }
      d := Awaiting(head.value);
    }

    /** The rest of `next()` once the resolver of `e` answered: poll or requeue, then count the call. */
    method Settle(e: Entry, c: Completion)
      modifies this`calls, this`count, this`executeTimestamp, dq
      ensures View() == Settled(old(View()), e, c)
      ensures dq.blocked == old(dq.blocked)
      ensures forall t :: t != typ ==> dq.ReadyOf(t) == old(dq.ReadyOf(t))
    {
      if c.success {
        dq.Poll(typ);
        Emit(ResolveEvent, Some(e.item));
      } else {
        dq.MoveEnd(typ);
      }
      count := count + 1;
      executeTimestamp := c.at;
    }

    /** The loop `next()` forms by re-invoking itself, fed the resolver completions `cs`. */
    method Run(cs: seq<Completion>) returns (d: Decision, used: nat)
      modifies this`calls, this`listening, this`count, this`executeTimestamp, dq
      ensures View() == RunSpec(old(View()), cs)
      ensures used == Consumed(old(View()), cs)
      ensures d == Decide(View())
      ensures d.Awaiting? ==> used == |cs|
      ensures dq.blocked == old(dq.blocked)
      ensures forall t :: t != typ ==> dq.ReadyOf(t) == old(dq.ReadyOf(t))
    {
      ghost var pre := View();
      d := Next();
      used := 0;
      while d.Awaiting? && used < |cs|
        invariant 0 <= used <= |cs|
        invariant RunSpec(old(View()), cs) == RunSpec(pre, cs[used..])
        invariant Consumed(old(View()), cs) == used + Consumed(pre, cs[used..])
        invariant d == Decide(pre) && View() == AfterNext(pre)
        invariant dq.blocked == old(dq.blocked)
        invariant forall t :: t != typ ==> dq.ReadyOf(t) == old(dq.ReadyOf(t))
        decreases |cs| - used
      {
        assert cs[used..][1..] == cs[used + 1..];
        Settle(d.entry, cs[used]);
        pre := View();
        d := Next();
        used := used + 1;
      }
    }
  }

  /** An executor of which only the handler lists changed shows the same state with the new lists. */
  twostate lemma OnlyHandlersChanged(e: Executor)
    requires unchanged(e.dq)
    requires e.limit == old(e.limit) && e.count == old(e.count) && e.executeTimestamp == old(e.executeTimestamp)
    requires e.isExecuting == old(e.isExecuting) && e.listening == old(e.listening) && e.calls == old(e.calls)
    ensures e.View() == old(e.View()).(handlers := e.handlers)
  {
  }

  /** An executor none of whose fields changed shows the same state. */
  twostate lemma Untouched(e: Executor)
    requires unchanged(e, e.dq)
    ensures e.View() == old(e.View())
  {
  }
}
