/**
 * The per-event handler lists of an executor (`eventHandlers` in
 * src/Executor/index.ts): `on` pushes a handler onto the tail of its event's
 * list and `off` splices out the first occurrence found by `indexOf`.
 */
module HandlerLists {

  /** A subscribed callback, identified by the function object it is. */
  type Handler = nat

  /** `list.indexOf(h)`: the first position of `h`, or -1 when it is absent. */
  function IndexOf(hs: seq<Handler>, h: Handler): (i: int)
    ensures -1 <= i < |hs|
    ensures i >= 0 ==> hs[i] == h && h !in hs[..i]
    ensures i < 0 <==> h !in hs
  {
    if hs == [] then -1
    else if hs[0] == h then 0
    else
      var j := IndexOf(hs[1..], h);
      if j < 0 then -1
      else
        assert hs[..j + 1] == [hs[0]] + hs[1..][..j];
        j + 1
  }

  /** `off`: the list with the first occurrence of `h` spliced out; unchanged when `h` is absent. */
  function WithoutFirst(hs: seq<Handler>, h: Handler): (r: seq<Handler>)
    ensures h !in hs ==> r == hs
    ensures h in hs ==> exists i :: 0 <= i < |hs| && hs[i] == h && h !in hs[..i] && r == hs[..i] + hs[i + 1..]
  {
    var i := IndexOf(hs, h);
    if i < 0 then hs else hs[..i] + hs[i + 1..]
  }

  /** Removing a handler takes exactly one copy of it out of the list and keeps every other one. */
  lemma WithoutFirstCounts(hs: seq<Handler>, h: Handler)
    ensures multiset(WithoutFirst(hs, h)) == multiset(hs) - multiset{h}
  {
    var i := IndexOf(hs, h);
    if i >= 0 {
      assert hs == hs[..i] + [hs[i]] + hs[i + 1..];
      assert multiset(hs) == multiset(hs[..i]) + multiset{h} + multiset(hs[i + 1..]);
    } else {
      assert multiset(hs)[h] == 0;
    }
  }

  /** Removing one handler leaves every other subscribed handler subscribed. */
  lemma WithoutFirstKeepsOthers(hs: seq<Handler>, h: Handler, g: Handler)
    requires g in hs && g != h
    ensures g in WithoutFirst(hs, h)
  {
    WithoutFirstCounts(hs, h);
    assert multiset(hs)[g] > 0;
    assert multiset(WithoutFirst(hs, h))[g] == multiset(hs)[g];
  }

  /** `off` undoes an `on` of a handler that was not yet subscribed. */
  lemma WithoutFirstUndoesPush(hs: seq<Handler>, h: Handler)
    requires h !in hs
    ensures WithoutFirst(hs + [h], h) == hs
  {
    var i := IndexOf(hs + [h], h);
    assert (hs + [h])[|hs|] == h;
    assert (hs + [h])[..|hs|] == hs;
  }
}
