/** The cascading delete behind "collapse": a worklist sweep that removes from
    a live collection, and from the id-keyed dictionary beside it, every item
    whose provenance parent is swept, where the swept ids grow from the start
    id by the ids the removed items suggest. */
module Sweep {
  import opened JsRuntime

  /** What the sweep reads of an edge endpoint: its id and provenance parent. */
  datatype Endpoint = Endpoint(id: int, parent: Option<int>)

  /** What the sweep reads of a vertex or an edge: its type, id, provenance
      parent (`parentVertexId`, None for null) and, for an edge, its endpoints. */
  datatype Item =
    | VertexItem(id: int, parent: Option<int>)
    | EdgeItem(id: int, parent: Option<int>, source: Endpoint, target: Endpoint)

  /** An item is removed once its provenance parent is among the swept ids. */
  predicate Swept(x: Item, swept: set<int>) {
    x.parent.Some? && x.parent.value in swept
  }

  /** The ids a removed item puts on the worklist: a vertex its own id, an
      edge those of its endpoints that have a provenance parent. */
  function Suggested(x: Item): set<int> {
    match x
    case VertexItem(id, _) => {id}
    case EdgeItem(_, _, s, t) =>
      (if s.parent.Some? then {s.id} else {}) + (if t.parent.Some? then {t.id} else {})
  }

  function Items<T>(c: seq<T>, view: T -> Item): seq<Item> {
    seq(|c|, k requires 0 <= k < |c| => view(c[k]))
  }

  /** The items that are not swept, in their original order. */
  function Survivors<T>(c: seq<T>, view: T -> Item, swept: set<int>): seq<T> {
    if |c| == 0 then []
    else
      var last := c[|c| - 1];
      Survivors(c[..|c| - 1], view, swept) + (if Swept(view(last), swept) then [] else [last])
  }

  /** The ids of the swept items. */
  function RemovedIds<T>(c: seq<T>, view: T -> Item, swept: set<int>): set<int> {
    if |c| == 0 then {}
    else
      var last := view(c[|c| - 1]);
      RemovedIds(c[..|c| - 1], view, swept) + (if Swept(last, swept) then {last.id} else {})
  }

  /** Everything the swept items suggest. */
  function Offspring<T>(c: seq<T>, view: T -> Item, swept: set<int>): set<int> {
    if |c| == 0 then {}
    else
      var last := view(c[|c| - 1]);
      Offspring(c[..|c| - 1], view, swept) + (if Swept(last, swept) then Suggested(last) else {})
  }

  /** A set of ids that already holds everything its swept items suggest. */
  predicate Closed<T>(c: seq<T>, view: T -> Item, swept: set<int>) {
    Offspring(c, view, swept) <= swept
  }

  /** The smallest closed set that holds `start`: exactly the ids the sweep
      from `start` ends up popping. */
  ghost predicate LeastClosed<T>(start: int, c: seq<T>, view: T -> Item, swept: set<int>) {
    && start in swept
    && Closed(c, view, swept)
    && forall other: set<int> :: start in other && Closed(c, view, other) ==> swept <= other
  }

  /** Put `nid` on the worklist unless it is the id being processed or is
      already waiting (`nid !== id && ids.indexOf(nid) === -1`). */
  function Enqueue(ids: seq<int>, current: int, nid: int): (r: seq<int>)
    ensures Elems(ids) <= Elems(r) <= Elems(ids) + {nid}
    ensures nid != current ==> nid in r
    ensures |r| <= |ids| + 1
  {
    if nid != current && IndexOf(ids, nid) == -1 then ids + [nid] else ids
  }

  /** What the loop body does with a removed item: an edge suggests each
      endpoint that has a provenance parent (`suggestParent`), a vertex its own id. */
  function EnqueueSuggested(ids: seq<int>, current: int, x: Item): (r: seq<int>)
    ensures Elems(ids) <= Elems(r) <= Elems(ids) + Suggested(x)
    ensures Suggested(x) <= Elems(r) + {current}
    ensures |r| <= |ids| + 2
  {
    match x
    case EdgeItem(_, _, source, target) =>
      var afterSource := if source.parent.Some? then Enqueue(ids, current, source.id) else ids;
      if target.parent.Some? then Enqueue(afterSource, current, target.id) else afterSource
    case VertexItem(nid, _) =>
      Enqueue(ids, current, nid)
  }

  /** One pass of the inner `for` loop of `_deleteChildrenFromCollection`:
      remove every item whose parent is `id` from the container and its id
      from the dictionary, putting the ids those items suggest on the
      worklist. */
  method SweepChildren<T, V>(id: int, container: seq<T>, dictionary: map<int, V>, ids: seq<int>, view: T -> Item)
    returns (survivors: seq<T>, remaining: map<int, V>, removed: nat, pending: seq<int>)
    ensures survivors == Survivors(container, view, {id})
    ensures remaining == dictionary - RemovedIds(container, view, {id})
    ensures removed == |container| - |survivors|
    ensures Elems(ids) <= Elems(pending) <= Elems(ids) + Offspring(container, view, {id})
    ensures Offspring(container, view, {id}) <= Elems(pending) + {id}
    ensures |pending| <= |ids| + 2 * removed
  {
    survivors, remaining, removed, pending := container, dictionary, 0, ids;
    var i := 0;
    ghost var j := 0;
    while i < |survivors|
      invariant 0 <= j <= |container|
      invariant survivors == Survivors(container[..j], view, {id}) + container[j..]
      invariant i == |Survivors(container[..j], view, {id})|
      invariant remaining == dictionary - RemovedIds(container[..j], view, {id})
      invariant removed == j - i
      invariant Elems(ids) <= Elems(pending) <= Elems(ids) + Offspring(container[..j], view, {id})
      invariant Offspring(container[..j], view, {id}) <= Elems(pending) + {id}
      invariant |pending| <= |ids| + 2 * removed
      decreases |container| - j
    {
      PrefixStep(container, view, {id}, j);
      SurvivorStep(container, view, {id}, j, survivors);
      var x := view(survivors[i]);
      if x.parent == Some(id) {
        pending := EnqueueSuggested(pending, id, x);
        MinusStep(dictionary, RemovedIds(container[..j], view, {id}), {x.id});
        remaining := remaining - {x.id};
        survivors := RemoveAt(survivors, i);
        removed := removed + 1;
      } else {
        assert RemovedIds(container[..j + 1], view, {id}) == RemovedIds(container[..j], view, {id});
        i := i + 1;
      }
      j := j + 1;
    }
    assert container[..j] == container;
  }

  /** `_deleteChildrenFromCollection(start, container, dictionary)`: the
      container keeps exactly the items whose parent is not swept, in order,
      the dictionary loses exactly their ids, and the count is the number of
      items removed.  `swept` is the set of ids the worklist popped: the least
      closed set holding `start`.  The static JavaScript helper splices the
      caller's array and deletes the caller's keys in place; here the caller
      gets the new collection and dictionary back and stores them. */
  method DeleteChildren<T, V>(start: int, container: seq<T>, dictionary: map<int, V>, view: T -> Item)
    returns (survivors: seq<T>, remaining: map<int, V>, affected: nat, ghost swept: set<int>)
    ensures LeastClosed(start, container, view, swept)
    ensures survivors == Survivors(container, view, swept)
    ensures remaining == dictionary - RemovedIds(container, view, swept)
    ensures affected == |container| - |survivors|
  {
    var ids := [start];
    survivors, remaining, affected := container, dictionary, 0;
    swept := {};
    EmptySweep(container, view);
    while |ids| > 0
      invariant survivors == Survivors(container, view, swept)
      invariant remaining == dictionary - RemovedIds(container, view, swept)
      invariant affected == |container| - |survivors|
      invariant start in swept + Elems(ids)
      invariant Offspring(container, view, swept) <= swept + Elems(ids)
      invariant forall other: set<int> :: start in other && Closed(container, view, other) ==> swept + Elems(ids) <= other
      decreases 2 * |survivors| + |ids|
    {
      var id := ids[|ids| - 1];
      ghost var waiting := ids;
      ids := ids[..|ids| - 1];
      assert Elems(waiting) == Elems(ids) + {id} by {
        assert waiting == ids + [id];
      }
      var removed;
      ghost var before := survivors;
      survivors, remaining, removed, ids := SweepChildren(id, survivors, remaining, ids, view);
      affected := affected + removed;
      SurvivorsCompose(container, view, swept, id);
      RemovedIdsCompose(container, view, swept, id);
      MinusStep(dictionary, RemovedIds(container, view, swept), RemovedIds(before, view, {id}));
      WorklistStep(start, container, view, swept, id, waiting[..|waiting| - 1], ids);
      swept := swept + {id};
    }
  }

  /** Popping `id` and sweeping its children keeps the worklist's two
      invariants: everything swept so far suggests only ids that are swept or
      waiting, and every swept or waiting id lies in each closed set that
      holds `start`. */
  lemma WorklistStep<T>(start: int, c: seq<T>, view: T -> Item, swept: set<int>, id: int, popped: seq<int>, pending: seq<int>)
    requires Offspring(c, view, swept) <= swept + Elems(popped) + {id}
    requires forall other: set<int> :: start in other && Closed(c, view, other) ==> swept + Elems(popped) + {id} <= other
    requires Elems(popped) <= Elems(pending) <= Elems(popped) + Offspring(Survivors(c, view, swept), view, {id})
    requires Offspring(Survivors(c, view, swept), view, {id}) <= Elems(pending) + {id}
    ensures Offspring(c, view, swept + {id}) <= swept + {id} + Elems(pending)
    ensures forall other: set<int> :: start in other && Closed(c, view, other) ==> swept + {id} + Elems(pending) <= other
  {
    OffspringCompose(c, view, swept, id);
    forall other: set<int> | start in other && Closed(c, view, other)
      ensures swept + {id} + Elems(pending) <= other
    {
      OffspringMonotone(c, view, swept + {id}, other);
    }
  }

  /** The live collection during the inner loop: the survivors of the
      scanned prefix followed by the unscanned rest. */
  lemma SurvivorStep<T>(c: seq<T>, view: T -> Item, swept: set<int>, j: nat, live: seq<T>)
    requires j < |c| && live == Survivors(c[..j], view, swept) + c[j..]
    ensures var i := |Survivors(c[..j], view, swept)|;
      && i < |live| && live[i] == c[j]
      && (Swept(view(c[j]), swept) ==> RemoveAt(live, i) == Survivors(c[..j + 1], view, swept) + c[j + 1..])
      && (!Swept(view(c[j]), swept) ==>
            (live == Survivors(c[..j + 1], view, swept) + c[j + 1..] && |Survivors(c[..j + 1], view, swept)| == i + 1))
  {
    PrefixStep(c, view, swept, j);
    var kept := Survivors(c[..j], view, swept);
    assert c[j..] == [c[j]] + c[j + 1..];
    assert live == kept + [c[j]] + c[j + 1..];
    if Swept(view(c[j]), swept) {
      assert RemoveAt(live, |kept|) == kept + c[j + 1..];
    }
  }

  lemma MinusStep<V>(m: map<int, V>, a: set<int>, b: set<int>)
    ensures m - a - b == m - (a + b)
  {
  }

  /** How the sweep of a prefix grows by one item. */
  lemma PrefixStep<T>(c: seq<T>, view: T -> Item, swept: set<int>, j: nat)
    requires j < |c|
    ensures var x := view(c[j]);
      && Survivors(c[..j + 1], view, swept) == Survivors(c[..j], view, swept) + (if Swept(x, swept) then [] else [c[j]])
      && RemovedIds(c[..j + 1], view, swept) == RemovedIds(c[..j], view, swept) + (if Swept(x, swept) then {x.id} else {})
      && Offspring(c[..j + 1], view, swept) == Offspring(c[..j], view, swept) + (if Swept(x, swept) then Suggested(x) else {})
  {
    assert c[..j + 1] == c[..j] + [c[j]];
    SurvivorsAppend(c[..j], c[j], view, swept);
  }

  lemma SurvivorsAppend<T>(c: seq<T>, b: T, view: T -> Item, swept: set<int>)
    ensures Survivors(c + [b], view, swept) == Survivors(c, view, swept) + (if Swept(view(b), swept) then [] else [b])
    ensures RemovedIds(c + [b], view, swept) == RemovedIds(c, view, swept) + (if Swept(view(b), swept) then {view(b).id} else {})
    ensures Offspring(c + [b], view, swept) == Offspring(c, view, swept) + (if Swept(view(b), swept) then Suggested(view(b)) else {})
  {
    assert (c + [b])[..|c|] == c;
  }

  /** Sweeping `swept` and then `id` leaves what sweeping both at once leaves. */
  lemma {:induction false} SurvivorsCompose<T>(c: seq<T>, view: T -> Item, swept: set<int>, id: int)
    ensures Survivors(Survivors(c, view, swept), view, {id}) == Survivors(c, view, swept + {id})
  {
    if |c| > 0 {
      var init, last := c[..|c| - 1], c[|c| - 1];
      SurvivorsCompose(init, view, swept, id);
      var s := Survivors(init, view, swept);
      if Swept(view(last), swept) {
        assert Survivors(c, view, swept) == s + [] == s;
      } else {
        assert Survivors(c, view, swept) == s + [last];
        SurvivorsAppend(s, last, view, {id});
      }
    }
  }

  lemma {:induction false} RemovedIdsCompose<T>(c: seq<T>, view: T -> Item, swept: set<int>, id: int)
    ensures RemovedIds(c, view, swept + {id}) == RemovedIds(c, view, swept) + RemovedIds(Survivors(c, view, swept), view, {id})
  {
    if |c| > 0 {
      var init, last := c[..|c| - 1], c[|c| - 1];
      RemovedIdsCompose(init, view, swept, id);
      var s := Survivors(init, view, swept);
      if Swept(view(last), swept) {
        assert Survivors(c, view, swept) == s + [] == s;
      } else {
        assert Survivors(c, view, swept) == s + [last];
        SurvivorsAppend(s, last, view, {id});
      }
    }
  }

  lemma {:induction false} OffspringCompose<T>(c: seq<T>, view: T -> Item, swept: set<int>, id: int)
    ensures Offspring(c, view, swept + {id}) == Offspring(c, view, swept) + Offspring(Survivors(c, view, swept), view, {id})
  {
    if |c| > 0 {
      var init, last := c[..|c| - 1], c[|c| - 1];
      OffspringCompose(init, view, swept, id);
      var s := Survivors(init, view, swept);
      if Swept(view(last), swept) {
        assert Survivors(c, view, swept) == s + [] == s;
      } else {
        assert Survivors(c, view, swept) == s + [last];
        SurvivorsAppend(s, last, view, {id});
      }
    }
  }

  /** Sweeping nothing removes nothing. */
  lemma {:induction false} EmptySweep<T>(c: seq<T>, view: T -> Item)
    ensures Survivors(c, view, {}) == c
    ensures RemovedIds(c, view, {}) == {} && Offspring(c, view, {}) == {}
  {
    if |c| > 0 {
      EmptySweep(c[..|c| - 1], view);
      assert c[..|c| - 1] + [c[|c| - 1]] == c;
    }
  }

  /** More swept ids never suggest fewer ids. */
  lemma {:induction false} OffspringMonotone<T>(c: seq<T>, view: T -> Item, smaller: set<int>, larger: set<int>)
    requires smaller <= larger
    ensures Offspring(c, view, smaller) <= Offspring(c, view, larger)
  {
    if |c| > 0 {
      OffspringMonotone(c[..|c| - 1], view, smaller, larger);
    }
  }

  /** The survivors are exactly the items that are not swept. */
  lemma {:induction false} SurvivorsExact<T>(c: seq<T>, view: T -> Item, swept: set<int>)
    ensures forall x :: x in Items(Survivors(c, view, swept), view) <==> x in Items(c, view) && !Swept(x, swept)
  {
    if |c| > 0 {
      var init, last := c[..|c| - 1], c[|c| - 1];
      SurvivorsExact(init, view, swept);
      assert Items(c, view) == Items(init, view) + [view(last)];
      var s := Survivors(init, view, swept);
      if Swept(view(last), swept) {
        assert Survivors(c, view, swept) == s + [] == s;
      } else {
        assert Survivors(c, view, swept) == s + [last];
        assert Items(s + [last], view) == Items(s, view) + [view(last)];
      }
    }
  }

  /** The removed ids are exactly the ids of the swept items. */
  lemma {:induction false} RemovedIdsExact<T>(c: seq<T>, view: T -> Item, swept: set<int>)
    ensures forall n :: n in RemovedIds(c, view, swept) <==> exists k :: 0 <= k < |c| && Swept(view(c[k]), swept) && view(c[k]).id == n
  {
    if |c| > 0 {
      var init, last := c[..|c| - 1], c[|c| - 1];
      RemovedIdsExact(init, view, swept);
      forall n | n in RemovedIds(c, view, swept)
        ensures exists k :: 0 <= k < |c| && Swept(view(c[k]), swept) && view(c[k]).id == n
      {
        if n in RemovedIds(init, view, swept) {
          var k :| 0 <= k < |init| && Swept(view(init[k]), swept) && view(init[k]).id == n;
          assert c[k] == init[k];
        } else {
          assert c[|c| - 1] == last;
        }
      }
      forall n | exists k :: 0 <= k < |c| && Swept(view(c[k]), swept) && view(c[k]).id == n
        ensures n in RemovedIds(c, view, swept)
      {
        var k :| 0 <= k < |c| && Swept(view(c[k]), swept) && view(c[k]).id == n;
        if k < |init| {
          assert init[k] == c[k];
        }
      }
    }
  }

  /** There is one least closed set, so the sweep's result does not depend on
      the order the worklist is processed in. */
  lemma LeastClosedUnique<T>(start: int, c: seq<T>, view: T -> Item, s1: set<int>, s2: set<int>)
    requires LeastClosed(start, c, view, s1) && LeastClosed(start, c, view, s2)
    ensures s1 == s2
  {
  }

  // ---------------------------------------------------------------------
  // Collections indexed by id

  function IdSet<T>(c: seq<T>, view: T -> Item): set<int> {
    set k | 0 <= k < |c| :: view(c[k]).id
  }

  predicate DistinctIds<T>(c: seq<T>, view: T -> Item) {
    forall i, j :: 0 <= i < j < |c| ==> view(c[i]).id != view(c[j]).id
  }

  /** A live collection and the dictionary beside it hold the same items:
      the dictionary's keys are the collection's ids, each key maps to the
      item with that id, and no id occurs twice. */
  ghost predicate Indexes<T>(c: seq<T>, view: T -> Item, dict: map<int, T>) {
    && DistinctIds(c, view)
    && dict.Keys == IdSet(c, view)
    && forall k :: 0 <= k < |c| ==> dict[view(c[k]).id] == c[k]
  }

  lemma IndexesAppend<T>(c: seq<T>, view: T -> Item, dict: map<int, T>, b: T)
    requires Indexes(c, view, dict) && view(b).id !in dict
    ensures Indexes(c + [b], view, dict[view(b).id := b])
  {
    var c' := c + [b];
    assert IdSet(c', view) == IdSet(c, view) + {view(b).id} by {
      forall n | n in IdSet(c', view) ensures n in IdSet(c, view) + {view(b).id} {
        var k :| 0 <= k < |c'| && view(c'[k]).id == n;
        if k < |c| { assert c'[k] == c[k]; }
      }
      forall n | n in IdSet(c, view) ensures n in IdSet(c', view) {
        var k :| 0 <= k < |c| && view(c[k]).id == n;
        assert c'[k] == c[k];
      }
      assert c'[|c|] == b;
    }
  }

  lemma IndexesDropLast<T>(c: seq<T>, view: T -> Item, dict: map<int, T>)
    requires |c| > 0 && Indexes(c, view, dict)
    ensures Indexes(c[..|c| - 1], view, dict - {view(c[|c| - 1]).id})
  {
    var init, last := c[..|c| - 1], c[|c| - 1];
    assert IdSet(init, view) == IdSet(c, view) - {view(last).id} by {
      forall n | n in IdSet(c, view) - {view(last).id} ensures n in IdSet(init, view) {
        var k :| 0 <= k < |c| && view(c[k]).id == n;
        assert init[k] == c[k];
      }
      forall n | n in IdSet(init, view) ensures n in IdSet(c, view) - {view(last).id} {
        var k :| 0 <= k < |init| && view(init[k]).id == n;
        assert init[k] == c[k];
      }
    }
  }

  lemma {:induction false} RemovedIdsWithin<T>(c: seq<T>, view: T -> Item, swept: set<int>)
    ensures RemovedIds(c, view, swept) <= IdSet(c, view)
  {
    if |c| > 0 {
      var init := c[..|c| - 1];
      RemovedIdsWithin(init, view, swept);
      forall n | n in IdSet(init, view) ensures n in IdSet(c, view) {
        var k :| 0 <= k < |init| && view(init[k]).id == n;
        assert init[k] == c[k];
      }
    }
  }

  lemma {:induction false} SurvivorIdsWithin<T>(c: seq<T>, view: T -> Item, swept: set<int>)
    ensures IdSet(Survivors(c, view, swept), view) <= IdSet(c, view)
  {
    if |c| > 0 {
      var init, last := c[..|c| - 1], c[|c| - 1];
      var s := Survivors(init, view, swept);
      SurvivorIdsWithin(init, view, swept);
      forall n | n in IdSet(Survivors(c, view, swept), view) ensures n in IdSet(c, view) {
        var s' := Survivors(c, view, swept);
        var k :| 0 <= k < |s'| && view(s'[k]).id == n;
        if k < |s| {
          assert s'[k] == s[k];
          assert view(s[k]).id in IdSet(s, view);
          var m :| 0 <= m < |init| && view(init[m]).id == n;
          assert init[m] == c[m];
        } else {
          assert s'[k] == last == c[|c| - 1];
        }
      }
    }
  }

  /** The sweep keeps a collection and its dictionary in step: the survivors
      are indexed by the dictionary minus the removed ids. */
  lemma {:induction false} SweepKeepsIndex<T>(c: seq<T>, view: T -> Item, dict: map<int, T>, swept: set<int>)
    requires Indexes(c, view, dict)
    ensures Indexes(Survivors(c, view, swept), view, dict - RemovedIds(c, view, swept))
  {
    if |c| > 0 {
      var init, last := c[..|c| - 1], c[|c| - 1];
      var bid := view(last).id;
      IndexesDropLast(c, view, dict);
      SweepKeepsIndex(init, view, dict - {bid}, swept);
      var s := Survivors(init, view, swept);
      var rest := dict - {bid} - RemovedIds(init, view, swept);
      if Swept(view(last), swept) {
        assert Survivors(c, view, swept) == s + [] == s;
        assert RemovedIds(c, view, swept) == RemovedIds(init, view, swept) + {bid};
        assert dict - RemovedIds(c, view, swept) == rest;
      } else {
        RemovedIdsWithin(init, view, swept);
        assert bid !in IdSet(init, view);
        assert dict - RemovedIds(c, view, swept) == rest[bid := last];
        IndexesAppend(s, view, rest, last);
      }
    }
  }

  // ---------------------------------------------------------------------
  // Worked examples

  /** Items viewed as themselves. */
  function ItemView(x: Item): Item {
    x
  }

  /** An item that is swept contributes its suggestions. */
  lemma {:induction false} OffspringHas<T>(c: seq<T>, view: T -> Item, swept: set<int>, k: nat)
    requires k < |c| && Swept(view(c[k]), swept)
    ensures Suggested(view(c[k])) <= Offspring(c, view, swept)
  {
    if k < |c| - 1 {
      OffspringHas(c[..|c| - 1], view, swept, k);
    }
  }

  /** Offspring is bounded by any set holding every swept item's suggestions. */
  lemma {:induction false} OffspringWithin<T>(c: seq<T>, view: T -> Item, swept: set<int>, bound: set<int>)
    requires forall k :: 0 <= k < |c| && Swept(view(c[k]), swept) ==> Suggested(view(c[k])) <= bound
    ensures Offspring(c, view, swept) <= bound
  {
    if |c| > 0 {
      OffspringWithin(c[..|c| - 1], view, swept, bound);
    }
  }

  /** The survivors of a four-item collection, item by item. */
  lemma SurvivorsOfFour(w: Item, x: Item, y: Item, z: Item, swept: set<int>)
    ensures Survivors([w, x, y, z], ItemView, swept) ==
      (if Swept(w, swept) then [] else [w]) + (if Swept(x, swept) then [] else [x]) +
      (if Swept(y, swept) then [] else [y]) + (if Swept(z, swept) then [] else [z])
  {
    var s := swept;
    assert [w, x, y, z][..3] == [w, x, y] && [w, x, y][..2] == [w, x] && [w, x][..1] == [w] && [w][..0] == [];
    assert Survivors([w], ItemView, s) == (if Swept(w, s) then [] else [w]);
    assert Survivors([w, x], ItemView, s) == Survivors([w], ItemView, s) + (if Swept(x, s) then [] else [x]);
    assert Survivors([w, x, y], ItemView, s) == Survivors([w, x], ItemView, s) + (if Swept(y, s) then [] else [y]);
  }

  /** The example of the collapse documentation: A, itself spawned by a
      vertex 0 outside the collection, spawns B, and B spawns C and D.
      Collapsing B removes C and D only; collapsing A removes B, C and D. */
  lemma CollapseExample()
    ensures var a, b := VertexItem(1, Some(0)), VertexItem(2, Some(1));
      var c, d := VertexItem(3, Some(2)), VertexItem(4, Some(2));
      var nodes := [a, b, c, d];
      && LeastClosed(2, nodes, ItemView, {2, 3, 4})
      && Survivors(nodes, ItemView, {2, 3, 4}) == [a, b]
      && LeastClosed(1, nodes, ItemView, {1, 2, 3, 4})
      && Survivors(nodes, ItemView, {1, 2, 3, 4}) == [a]
  {
    var a, b := VertexItem(1, Some(0)), VertexItem(2, Some(1));
    var c, d := VertexItem(3, Some(2)), VertexItem(4, Some(2));
    var nodes := [a, b, c, d];
    SurvivorsOfFour(a, b, c, d, {2, 3, 4});
    SurvivorsOfFour(a, b, c, d, {1, 2, 3, 4});
    OffspringWithin(nodes, ItemView, {2, 3, 4}, {3, 4});
    OffspringWithin(nodes, ItemView, {1, 2, 3, 4}, {2, 3, 4});
    forall other: set<int> | 2 in other && Closed(nodes, ItemView, other)
      ensures {2, 3, 4} <= other
    {
      OffspringHas(nodes, ItemView, other, 2);
      OffspringHas(nodes, ItemView, other, 3);
    }
    forall other: set<int> | 1 in other && Closed(nodes, ItemView, other)
      ensures {1, 2, 3, 4} <= other
    {
      OffspringHas(nodes, ItemView, other, 1);
      OffspringHas(nodes, ItemView, other, 2);
      OffspringHas(nodes, ItemView, other, 3);
    }
  }

  /** The edge sweep is not confined to the collapsed subtree.  Root R (1)
      spawned A (2); A spawned B (3) and F (4); expanding B also brought an
      edge back to A, whose provenance is B.  Collapsing B sweeps that edge,
      which suggests its endpoint A, and then every edge spawned by A goes,
      including the edge between A and B's sibling F. */
  lemma EdgeSweepClimbsToParent()
    ensures var r, a := Endpoint(1, None), Endpoint(2, Some(1));
      var b, f := Endpoint(3, Some(2)), Endpoint(4, Some(2));
      var rootToA := EdgeItem(10, Some(1), r, a);
      var aToB := EdgeItem(20, Some(2), a, b);
      var aToF := EdgeItem(21, Some(2), a, f);
      var bToA := EdgeItem(30, Some(3), b, a);
      var links := [rootToA, aToB, aToF, bToA];
      && LeastClosed(3, links, ItemView, {2, 3, 4})
      && Survivors(links, ItemView, {2, 3, 4}) == [rootToA]
  {
    var r, a := Endpoint(1, None), Endpoint(2, Some(1));
    var b, f := Endpoint(3, Some(2)), Endpoint(4, Some(2));
    var rootToA := EdgeItem(10, Some(1), r, a);
    var aToB := EdgeItem(20, Some(2), a, b);
    var aToF := EdgeItem(21, Some(2), a, f);
    var bToA := EdgeItem(30, Some(3), b, a);
    var links := [rootToA, aToB, aToF, bToA];
    SurvivorsOfFour(rootToA, aToB, aToF, bToA, {2, 3, 4});
    OffspringWithin(links, ItemView, {2, 3, 4}, {2, 3, 4});
    forall other: set<int> | 3 in other && Closed(links, ItemView, other)
      ensures {2, 3, 4} <= other
    {
      OffspringHas(links, ItemView, other, 3);
      OffspringHas(links, ItemView, other, 2);
    }
  }

  /** With cyclic provenance (X's parent is Y and Y's parent is X, as after
      Y is removed with `removeVertex`, which sweeps nothing, and fetched
      again by expanding X) collapsing X removes X itself. */
  lemma CyclicProvenanceSweepsStart()
    ensures var x, y := VertexItem(5, Some(6)), VertexItem(6, Some(5));
      && LeastClosed(5, [x, y], ItemView, {5, 6})
      && Survivors([x, y], ItemView, {5, 6}) == []
  {
    var x, y := VertexItem(5, Some(6)), VertexItem(6, Some(5));
    assert [] + [x] == [x] && [x] + [y] == [x, y];
    forall swept: set<int> ensures
      && Survivors([x, y], ItemView, swept) == (if Swept(x, swept) then [] else [x]) + (if Swept(y, swept) then [] else [y])
      && Offspring([x, y], ItemView, swept) == (if Swept(x, swept) then {5} else {}) + (if Swept(y, swept) then {6} else {})
    {
      SurvivorsAppend([], x, ItemView, swept);
      SurvivorsAppend([x], y, ItemView, swept);
    }
  }
}
