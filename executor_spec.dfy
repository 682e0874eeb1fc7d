/**
 * The executor's loop (src/Executor/index.ts) as pure functions over a
 * snapshot of its state, and the properties of that loop.
 *
 * One call of `next()` is split at its only suspension point, the
 * `await resolver(item)`: `Decide`/`AfterNext` are what happens before it
 * (the checks in their fixed order and the halting events), `Settled` is what
 * happens once the resolver has answered, and `RunSpec` chains them, the way
 * `next()` re-invokes itself, over a sequence of resolver completions.
 */
module ExecutorSpec {
  import opened Wrappers
  import opened DependentQueue
  import opened HandlerLists

  /** The six event channels of ExecutorEventMapType (src/types.ts). */
  datatype EventName = ResolveEvent | WaitEvent | ResumeEvent | LimitEvent | FinishEvent | StopEvent

  /** One invocation of a subscribed handler, with the item passed to it (only `resolve` passes one). */
  datatype Call = Call(handler: Handler, event: EventName, arg: Option<Item>)

  /** What an awaited resolver call produced, and the clock reading `Date.now()` taken right after. */
  datatype Completion = Completion(success: bool, at: int)

  /** What the synchronous part of `next()` decided. */
  datatype Decision =
    | Stopped                 // not executing: `stop` emitted
    | Limited                 // count >= limit: `limit` emitted
    | Finished                // nothing ready, type empty: `finish` emitted
    | Waiting                 // nothing ready, blocked entries remain: `wait` emitted
    | Awaiting(entry: Entry)  // the head's resolver has been called

  /**
   * An executor's state together with the part of the dependent queue it
   * works on: the ready queue and the blocked count of its own type.
   * `calls` records every handler invocation in order; `listening` says
   * whether `existItemsHandler` is subscribed to the queue's `existType`.
   */
  datatype Snapshot = Snapshot(
    limit: int, count: int, stamp: int, running: bool, listening: bool,
    handlers: map<EventName, seq<Handler>>, calls: seq<Call>,
    ready: seq<Entry>, blocked: nat)

  /** `this.eventHandlers[name] || []`. */
  function HandlersFor(handlers: map<EventName, seq<Handler>>, ev: EventName): seq<Handler>
  {
    if ev in handlers then handlers[ev] else []
  }

  /** The invocations `handlers.forEach(h => h(arg))` makes: every handler once, in list order. */
  function CallsOf(hs: seq<Handler>, ev: EventName, arg: Option<Item>): (r: seq<Call>)
    ensures |r| == |hs|
    ensures forall i :: 0 <= i < |hs| ==> r[i] == Call(hs[i], ev, arg)
  {
    if hs == [] then [] else [Call(hs[0], ev, arg)] + CallsOf(hs[1..], ev, arg)
  }

  /** The state after emitting `ev`. */
  function Emitted(s: Snapshot, ev: EventName, arg: Option<Item>): Snapshot
  {
    s.(calls := s.calls + CallsOf(HandlersFor(s.handlers, ev), ev, arg))
  }

  /** The decision of `next()` (src/Executor/index.ts:66-71), checks in source order. */
  function Decide(s: Snapshot): Decision
  {
    if !s.running then Stopped
    else if s.count >= s.limit then Limited
    else if s.ready == [] then (if s.blocked == 0 then Finished else Waiting)
    else Awaiting(s.ready[0])
  }

  /** The state after the synchronous part of `next()`; `endHandler` subscribes to `existType` first. */
  function AfterNext(s: Snapshot): Snapshot
  {
    match Decide(s)
    case Stopped => Emitted(s, StopEvent, None)
    case Limited => Emitted(s, LimitEvent, None)
    case Finished => Emitted(s.(listening := true), FinishEvent, None)
    case Waiting => Emitted(s.(listening := true), WaitEvent, None)
    case Awaiting(_) => s
  }

  /** The continuation of `next()` after the resolver of `e` answered (src/Executor/index.ts:73-80). */
  function Settled(s: Snapshot, e: Entry, c: Completion): Snapshot
  {
    var s1 := if c.success then Emitted(s.(ready := Dropped(s.ready)), ResolveEvent, Some(e.item))
              else s.(ready := Rotated(s.ready));
    s1.(count := s1.count + 1, stamp := c.at)
  }

  /** `next()` and its re-invocations, fed the resolver completions `cs` in order. */
  function RunSpec(s: Snapshot, cs: seq<Completion>): Snapshot
    decreases |cs|
  {
    if Decide(s).Awaiting? && cs != [] then RunSpec(Settled(s, Decide(s).entry, cs[0]), cs[1..])
    else AfterNext(s)
  }

  /** How many of the completions a run uses; it never uses more than it is given. */
  function Consumed(s: Snapshot, cs: seq<Completion>): (n: nat)
    ensures n <= |cs|
    decreases |cs|
  {
    if Decide(s).Awaiting? && cs != [] then 1 + Consumed(Settled(s, Decide(s).entry, cs[0]), cs[1..])
    else 0
  }

  /** The entries a run polls (those whose resolver returned true), in order. */
  function Resolved(s: Snapshot, cs: seq<Completion>): seq<Entry>
    decreases |cs|
  {
    if Decide(s).Awaiting? && cs != [] then
      (if cs[0].success then [Decide(s).entry] else []) + Resolved(Settled(s, Decide(s).entry, cs[0]), cs[1..])
    else []
  }

  /** `resetCounter()` (src/Executor/index.ts:28-34): zero the count; re-enter `next()` whenever running. */
  function AfterReset(s: Snapshot): Snapshot
  {
    var z := s.(count := 0);
    if s.running then AfterNext(Emitted(z, ResumeEvent, None)) else z
  }

  /** `start()` (src/Executor/index.ts:49-53): nothing when running; otherwise mark running and enter `next()`. */
  function AfterStart(s: Snapshot): Snapshot
  {
    if s.running then s else AfterNext(s.(running := true))
  }

  /** Starting twice is starting once, so an executor listed twice in a batch is started once. */
  lemma AfterStartIdempotent(s: Snapshot)
    ensures AfterStart(s).running
    ensures AfterStart(AfterStart(s)) == AfterStart(s)
  {
    if !s.running {
      var r := s.(running := true);
      assert AfterNext(r).running == r.running by {
        match Decide(r)
        case Stopped =>
        case Limited =>
        case Finished =>
        case Waiting =>
        case Awaiting(_) =>
      }
    }
  }

  /** How many more resolver calls the current window admits. */
  function Quota(s: Snapshot): nat
  {
    if s.running && s.count < s.limit then s.limit - s.count else 0
  }

  /**
   * On success the head is polled and `resolve` is emitted with its item; on
   * failure the same entry goes to the tail, nothing is removed and nothing
   * is emitted.
   */
  lemma SettledOutcome(s: Snapshot, c: Completion)
    requires s.ready != []
    ensures var r := Settled(s, s.ready[0], c);
      if c.success then
        r.ready == s.ready[1..]
        && r.calls == s.calls + CallsOf(HandlersFor(s.handlers, ResolveEvent), ResolveEvent, Some(s.ready[0].item))
      else
        r.ready == s.ready[1..] + [s.ready[0]] && r.calls == s.calls
        && multiset(r.ready) == multiset(s.ready)
  {
    if !c.success {
      assert s.ready == [s.ready[0]] + s.ready[1..];
    }
  }

  /** A run changes neither the limit, the running flag, the handler lists nor the blocked count. */
  lemma {:induction false} RunKeepsSettings(s: Snapshot, cs: seq<Completion>)
    ensures RunSpec(s, cs).limit == s.limit && RunSpec(s, cs).running == s.running
    ensures RunSpec(s, cs).handlers == s.handlers && RunSpec(s, cs).blocked == s.blocked
    decreases |cs|
  {
    if Decide(s).Awaiting? && cs != [] {
      RunKeepsSettings(Settled(s, Decide(s).entry, cs[0]), cs[1..]);
    }
  }

  /** Every resolver call of a run adds one to the count and nothing else does. */
  lemma {:induction false} RunCount(s: Snapshot, cs: seq<Completion>)
    ensures RunSpec(s, cs).count == s.count + Consumed(s, cs)
    decreases |cs|
  {
    if Decide(s).Awaiting? && cs != [] {
      RunCount(Settled(s, Decide(s).entry, cs[0]), cs[1..]);
    }
  }

  /**
   * The rate limit: a run calls at most `limit - count` resolvers, so a run
   * that starts with `count <= limit` ends with `count <= limit`.
   */
  lemma {:induction false} RunWithinQuota(s: Snapshot, cs: seq<Completion>)
    ensures Consumed(s, cs) <= Quota(s)
    ensures s.count <= s.limit ==> RunSpec(s, cs).count <= s.limit
    decreases |cs|
  {
    RunCount(s, cs);
    if Decide(s).Awaiting? && cs != [] {
      RunWithinQuota(Settled(s, Decide(s).entry, cs[0]), cs[1..]);
    }
  }

  /** One resolver call of a run: the run, its use of completions and its polls continue from the settled state. */
  lemma RunUnfolds(s: Snapshot, cs: seq<Completion>)
    requires Decide(s).Awaiting? && cs != []
    ensures var s' := Settled(s, Decide(s).entry, cs[0]);
      && RunSpec(s, cs) == RunSpec(s', cs[1..])
      && Consumed(s, cs) == 1 + Consumed(s', cs[1..])
      && Resolved(s, cs) == (if cs[0].success then [Decide(s).entry] else []) + Resolved(s', cs[1..])
  {
  }

  /** Failure never destroys an entry: what is still ready plus what was polled is what was ready. */
  lemma {:induction false} RunConservesEntries(s: Snapshot, cs: seq<Completion>)
    ensures multiset(RunSpec(s, cs).ready) + multiset(Resolved(s, cs)) == multiset(s.ready)
    decreases |cs|
  {
    if Decide(s).Awaiting? && cs != [] {
      RunUnfolds(s, cs);
      RunConservesEntries(Settled(s, Decide(s).entry, cs[0]), cs[1..]);
      SettledKeepsEntries(s, cs[0]);
    } else {
      assert RunSpec(s, cs).ready == s.ready;
    }
  }

  /** One settled step keeps every entry: in the queue, or polled on success. */
  lemma SettledKeepsEntries(s: Snapshot, c: Completion)
    requires s.ready != []
    ensures multiset(Settled(s, s.ready[0], c).ready) + (if c.success then multiset{s.ready[0]} else multiset{})
            == multiset(s.ready)
  {
    assert s.ready == [s.ready[0]] + s.ready[1..];
  }

  /**
   * Failed entries are retried after their siblings: when the first `|cs|`
   * resolver calls all fail, the ready queue ends up rotated by `|cs|`.
   */
  lemma {:induction false} FailuresRotate(s: Snapshot, cs: seq<Completion>)
    requires s.running && s.count + |cs| <= s.limit && |cs| <= |s.ready|
    requires forall i :: 0 <= i < |cs| ==> !cs[i].success
    ensures RunSpec(s, cs).ready == s.ready[|cs|..] + s.ready[..|cs|]
    ensures Consumed(s, cs) == |cs| && Resolved(s, cs) == []
    decreases |cs|
  {
    var q := s.ready;
    if cs != [] {
      var s' := Settled(s, q[0], cs[0]);
      assert Decide(s) == Awaiting(q[0]);
      RunUnfolds(s, cs);
      assert s'.ready == Rotated(q) && s'.running && s'.count == s.count + 1 && s'.limit == s.limit;
      FailuresRotate(s', cs[1..]);
      RotatedAgain(q, |cs|);
    } else {
      assert RunSpec(s, cs).ready == q;
    }
  }

  /** Rotating once more by `k - 1` after one rotation is rotating by `k`. */
  lemma RotatedAgain(q: seq<Entry>, k: nat)
    requires 1 <= k <= |q|
    ensures Rotated(q)[k - 1..] + Rotated(q)[..k - 1] == q[k..] + q[..k]
  {
    var r := Rotated(q);
    assert r[k - 1..] == q[k..] + [q[0]];
    assert r[..k - 1] == q[1..k];
    assert q[..k] == [q[0]] + q[1..k];
  }

  /** A step taken at or over the limit emits `limit` and leaves the count and the queue alone. */
  lemma LimitedRunIdles(s: Snapshot, cs: seq<Completion>)
    requires s.running && s.count >= s.limit
    ensures RunSpec(s, cs) == Emitted(s, LimitEvent, None)
    ensures Consumed(s, cs) == 0
  {
  }

  /** A stopped executor only emits `stop`. */
  lemma StoppedRunIdles(s: Snapshot, cs: seq<Completion>)
    requires !s.running
    ensures RunSpec(s, cs) == Emitted(s, StopEvent, None)
    ensures Consumed(s, cs) == 0
  {
  }

  /** What is left of the current window: `limit - count`, or nothing once the count has reached the limit. */
  function Room(s: Snapshot): nat
  {
    if s.count < s.limit then s.limit - s.count else 0
  }

  /** A run uses at most the room it starts with and leaves exactly the rest of it. */
  lemma RunRoom(s: Snapshot, cs: seq<Completion>)
    ensures Consumed(s, cs) <= Room(s)
    ensures Room(RunSpec(s, cs)) == Room(s) - Consumed(s, cs)
  {
    RunWithinQuota(s, cs);
    RunCount(s, cs);
    RunKeepsSettings(s, cs);
  }

  /**
   * Runs of `next()` one after another within one window: each run starts
   * with the count and the limit the previous run ended with. Anything else
   * may change in between: the dependent queue is refilled and
   * `existItemsHandler` re-enters `next()`, or `stop()` and `start()` run.
   */
  predicate Chained(starts: seq<Snapshot>, runs: seq<seq<Completion>>)
  {
    && |starts| == |runs|
    && forall i :: 0 <= i < |starts| - 1 ==>
         starts[i + 1].count == RunSpec(starts[i], runs[i]).count && starts[i + 1].limit == starts[i].limit
  }

  /** The resolver calls of all the runs together. */
  function CallsIn(starts: seq<Snapshot>, runs: seq<seq<Completion>>): nat
    requires |starts| == |runs|
    decreases |starts|
  {
    if starts == [] then 0 else Consumed(starts[0], runs[0]) + CallsIn(starts[1..], runs[1..])
  }

  /** Chained runs together use at most the room the first one starts with. */
  lemma {:induction false} ChainWithinRoom(starts: seq<Snapshot>, runs: seq<seq<Completion>>)
    requires Chained(starts, runs)
    ensures CallsIn(starts, runs) <= if starts == [] then 0 else Room(starts[0])
    decreases |starts|
  {
    if starts != [] {
      RunRoom(starts[0], runs[0]);
      if |starts| > 1 {
        assert Chained(starts[1..], runs[1..]) by {
          forall i | 0 <= i < |starts| - 2
            ensures starts[1..][i + 1].count == RunSpec(starts[1..][i], runs[1..][i]).count
          {
            assert starts[1..][i + 1] == starts[i + 2] && starts[1..][i] == starts[i + 1] && runs[1..][i] == runs[i + 1];
          }
        }
        ChainWithinRoom(starts[1..], runs[1..]);
        RunKeepsSettings(starts[0], runs[0]);
        assert Room(starts[1]) == Room(RunSpec(starts[0], runs[0]));
      }
    }
  }

  /**
   * One reset window: after `resetCounter`, whatever the resolvers answer and
   * however often `next()` is re-entered, the executor calls at most `limit`
   * resolvers until the next reset, as long as the limit is not changed.
   */
  lemma WindowQuota(s: Snapshot, starts: seq<Snapshot>, runs: seq<seq<Completion>>)
    requires Chained(starts, runs)
    requires starts != [] ==> starts[0].count == AfterReset(s).count && starts[0].limit == AfterReset(s).limit
    ensures CallsIn(starts, runs) <= if s.limit > 0 then s.limit else 0
  {
    ChainWithinRoom(starts, runs);
  }

  /**
   * The first scenario of tests/src/Executor/index.test.ts: four ready
   * entries and limit 1. One successful call freezes the executor on its
   * limit with the second entry at the head; a reset, the limit raised to 2
   * and two more successful calls leave the fourth entry at the head.
   */
  lemma ResumesAfterCounterReset(s: Snapshot, ok: Completion)
    requires s.running && s.limit == 1 && s.count == 0 && |s.ready| == 4 && ok.success
    ensures RunSpec(s, [ok]).count == 1 && RunSpec(s, [ok]).ready == s.ready[1..]
    ensures Decide(RunSpec(s, [ok])) == Limited
    ensures RunSpec(AfterReset(RunSpec(s, [ok])).(limit := 2), [ok, ok]).ready == [s.ready[3]]
  {
    var q := s.ready;
    var s1 := Settled(s, q[0], ok);
    assert s1.ready == q[1..] && s1.count == 1;
    assert RunSpec(s, [ok]) == RunSpec(s1, []);
    var r := AfterReset(RunSpec(s, [ok])).(limit := 2);
    assert r.ready == q[1..] && r.count == 0 && r.running;
    var s2 := Settled(r, q[1], ok);
    assert s2.ready == q[2..] && s2.count == 1;
    var s3 := Settled(s2, q[2], ok);
    assert s3.ready == q[3..] && s3.count == 2;
    assert [ok, ok][1..] == [ok];
    assert RunSpec(r, [ok, ok]) == RunSpec(s2, [ok]);
    assert RunSpec(s2, [ok]) == RunSpec(s3, []);
  }
}
