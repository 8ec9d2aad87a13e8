/** The small emulation of node.js's EventEmitter that the viewer extends:
    per-event listener lists, `on`, `once`, `removeListener` and an `emit`
    that stops at the first listener whose result is truthy or exactly false. */
module Events {
  import opened JsRuntime

  /** A listener function.  Listeners are compared by identity, as JavaScript
      compares functions.  `once` is `Some(l)` for the wrapper that `once(event, l)`
      registers: when called it unregisters itself, calls `l` and returns
      undefined. */
  class Listener {
    const once: Option<Listener>

    constructor Handler()
      ensures once == None
    {
      once := None;
    }

    constructor RunOnce(listener: Listener)
      ensures once == Some(listener)
    {
      once := Some(listener);
    }
  }

  /** `res || res === false`: a listener result at which `emit` returns. */
  predicate Settles(r: JsValue) {
    Truthy(r) || r == Bool(false)
  }

  /** The list registered for `event`, or none. */
  function Registered(events: map<string, seq<Listener>>, event: string): seq<Listener> {
    if event in events then events[event] else []
  }

  /** What one `emit` does to a listener list: the value it returns, the
      listeners it calls (in order) and the list it leaves behind. */
  datatype Dispatched = Dispatched(result: JsValue, called: seq<Listener>, remaining: seq<Listener>)

  /** The for-of loop of `emit` from index `i` on.  The loop walks the live
      array, so a once-wrapper that splices itself out shifts the rest of the
      list under the loop's index.  `respond` gives each plain listener's
      result for this call's arguments. */
  function Dispatch(ls: seq<Listener>, i: nat, respond: Listener -> JsValue): Dispatched
    decreases |ls| - i
  {
    if i >= |ls| then Dispatched(Undefined, [], ls)
    else if ls[i].once.Some? then
      var rest := Dispatch(RemoveFirst(ls, ls[i]), i + 1, respond);
      Dispatched(rest.result, [ls[i]] + rest.called, rest.remaining)
    else if Settles(respond(ls[i])) then
      Dispatched(respond(ls[i]), [ls[i]], ls)
    else
      var rest := Dispatch(ls, i + 1, respond);
      Dispatched(rest.result, [ls[i]] + rest.called, rest.remaining)
  }

  /** The once-wrappers among the called listeners. */
  function OnceWrappers(called: seq<Listener>): multiset<Listener> {
    if called == [] then multiset{}
    else (if called[0].once.Some? then multiset{called[0]} else multiset{}) + OnceWrappers(called[1..])
  }

  /** The list update of `removeListener`: splice out the listener at its
      `indexOf`, when that is not -1. */
  method SpliceListener(listeners: seq<Listener>, listener: Listener) returns (r: seq<Listener>)
    ensures r == RemoveFirst(listeners, listener)
  {
    r := listeners;
    var index := IndexOf(listeners, listener);
    if index > -1 {
      r := RemoveAt(listeners, index);
    }
  }

  class EventEmitter {
    var events: map<string, seq<Listener>>

    constructor ()
      ensures events == map[]
    {
      events := map[];
    }

    /** `on`: append the listener to the event's list, creating the list if
        absent; the other events' lists stay as they are. */
    method On(event: string, listener: Listener)
      modifies this
      ensures events == old(events)[event := Registered(old(events), event) + [listener]]
    {
      if event !in events {
        events := events[event := []];
      }
      events := events[event := events[event] + [listener]];
    }

    /** `once`: register a fresh wrapper around the listener.  The wrapper is
        returned so that callers of the model can name it; JavaScript keeps it
        inside the closure. */
    method Once(event: string, listener: Listener) returns (wrapper: Listener)
      modifies this
      ensures fresh(wrapper) && wrapper.once == Some(listener)
      ensures events == old(events)[event := Registered(old(events), event) + [wrapper]]
    {
      wrapper := new Listener.RunOnce(listener);
      On(event, wrapper);
    }

    /** `removeListener`: drop the first occurrence of the listener from the
        event's list; nothing happens for an unknown event or listener. */
    method RemoveListener(event: string, listener: Listener)
      modifies this
      ensures event in old(events) ==> events == old(events)[event := RemoveFirst(old(events)[event], listener)]
      ensures event !in old(events) ==> events == old(events)
    {
      if event !in events {
        return;
      }
      var listeners := SpliceListener(events[event], listener);
      events := events[event := listeners];
    }

    /** `emit`: call the event's listeners in order until one settles.  With no
        list for the event it returns undefined and calls nothing. */
    method Emit(event: string, respond: Listener -> JsValue) returns (result: JsValue, called: seq<Listener>)
      modifies this
      ensures event !in old(events) ==> result == Undefined && called == [] && events == old(events)
      ensures event in old(events) ==>
        var d := Dispatch(old(events)[event], 0, respond);
        result == d.result && called == d.called && events == old(events)[event := d.remaining]
    {
      if event !in events {
        return Undefined, [];
      }
      var remaining;
      result, called, remaining := RunListeners(events[event], respond);
      events := events[event := remaining];
    }
  }

  /** The for-of loop of `emit` over the live list `ls` of one event.  A
      once-wrapper unregisters itself (`removeListener` on that same list)
      before calling the listener it wraps, and drops its result. */
  method RunListeners(ls: seq<Listener>, respond: Listener -> JsValue)
    returns (result: JsValue, called: seq<Listener>, remaining: seq<Listener>)
    ensures Dispatched(result, called, remaining) == Dispatch(ls, 0, respond)
  {
    called, remaining := [], ls;
    var i := 0;
    assert After([], Dispatch(ls, 0, respond)) == Dispatch(ls, 0, respond);
    while i < |remaining|
      invariant Dispatch(ls, 0, respond) == After(called, Dispatch(remaining, i, respond))
      decreases |remaining| - i
    {
      var listener := remaining[i];
      ghost var rest;
      if listener.once.Some? {
        remaining := SpliceListener(remaining, listener);
        rest := Dispatch(remaining, i + 1, respond);
      } else {
        var res := respond(listener);
        if Settles(res) {
          result, called := res, called + [listener];
          return;
        }
        rest := Dispatch(remaining, i + 1, respond);
      }
      AfterCons(called, listener, rest);
      called := called + [listener];
      i := i + 1;
    }
    result := Undefined;
  }

  /** The outcome of a dispatch whose listeners `called` were already called. */
  function After(called: seq<Listener>, d: Dispatched): Dispatched {
    Dispatched(d.result, called + d.called, d.remaining)
  }

  lemma AfterCons(called: seq<Listener>, l: Listener, d: Dispatched)
    ensures After(called, Dispatched(d.result, [l] + d.called, d.remaining)) == After(called + [l], d)
  {
    assert called + ([l] + d.called) == (called + [l]) + d.called;
  }

  /** Without once-wrappers, `emit` calls the listeners in registration order,
      up to and including the first whose result settles, returns that result
      (undefined when none settles, after calling them all) and leaves the
      list as it was. */
  lemma {:induction false} DispatchInOrder(ls: seq<Listener>, i: nat, respond: Listener -> JsValue)
    requires i <= |ls|
    requires forall k :: i <= k < |ls| ==> ls[k].once.None?
    decreases |ls| - i
    ensures var d := Dispatch(ls, i, respond);
      && d.remaining == ls
      && i + |d.called| <= |ls| && d.called == ls[i..i + |d.called|]
      && (forall k :: 0 <= k < |d.called| - 1 ==> !Settles(respond(d.called[k])))
      && (d.result == Undefined || (d.called != [] && Settles(d.result) && d.result == respond(d.called[|d.called| - 1])))
      && (d.result == Undefined ==> d.called == ls[i..] && forall k :: 0 <= k < |d.called| ==> !Settles(respond(d.called[k])))
  {
    if i < |ls| && !Settles(respond(ls[i])) {
      DispatchInOrder(ls, i + 1, respond);
      var rest := Dispatch(ls, i + 1, respond);
      var d := Dispatch(ls, i, respond);
      assert d.called == [ls[i]] + rest.called && d.result == rest.result && d.remaining == ls;
      assert ls[i..i + 1 + |rest.called|] == [ls[i]] + ls[i + 1..i + 1 + |rest.called|];
      assert ls[i..] == [ls[i]] + ls[i + 1..];
      forall k | 0 <= k < |d.called| ensures d.called[k] == if k == 0 then ls[i] else rest.called[k - 1] {
      }
    } else if i < |ls| {
      assert ls[i..i + 1] == [ls[i]];
    }
  }

  /** Every once-wrapper that `emit` reaches is taken off the list (one
      occurrence each); nothing else is removed. */
  lemma {:induction false} DispatchDropsCalledWrappers(ls: seq<Listener>, i: nat, respond: Listener -> JsValue)
    decreases |ls| - i
    ensures var d := Dispatch(ls, i, respond);
      multiset(d.remaining) == multiset(ls) - OnceWrappers(d.called)
  {
    if i < |ls| {
      var l := ls[i];
      if l.once.Some? {
        DispatchDropsCalledWrappers(RemoveFirst(ls, l), i + 1, respond);
        var rest := Dispatch(RemoveFirst(ls, l), i + 1, respond);
        assert ([l] + rest.called)[1..] == rest.called;
      } else if !Settles(respond(l)) {
        DispatchDropsCalledWrappers(ls, i + 1, respond);
        var rest := Dispatch(ls, i + 1, respond);
        assert ([l] + rest.called)[1..] == rest.called;
      } else {
        assert [l][1..] == [];
      }
    }
  }

  /** A listener registered once with `once` runs at most once: after an
      `emit` that called it, it is no longer on the list. */
  lemma OnceRunsAtMostOnce(ls: seq<Listener>, respond: Listener -> JsValue, w: Listener)
    requires multiset(ls)[w] == 1
    requires w in Dispatch(ls, 0, respond).called && w.once.Some?
    ensures w !in Dispatch(ls, 0, respond).remaining
  {
    var d := Dispatch(ls, 0, respond);
    DispatchDropsCalledWrappers(ls, 0, respond);
    OnceWrapperCounted(d.called, w);
  }

  lemma {:induction false} OnceWrapperCounted(called: seq<Listener>, w: Listener)
    requires w in called && w.once.Some?
    ensures OnceWrappers(called)[w] >= 1
  {
    if called[0] != w {
      OnceWrapperCounted(called[1..], w);
    }
  }

  /** The wrapper splices itself out while the for-of loop is on it, so the
      listener registered right after a once-wrapper is skipped by that emit. */
  lemma OnceWrapperSkipsNext(w: Listener, h: Listener, respond: Listener -> JsValue)
    requires w.once.Some? && h.once.None?
    ensures Dispatch([w, h], 0, respond).called == [w]
  {
    assert w != h;
    assert RemoveFirst([w, h], w) == [h];
  }
}
