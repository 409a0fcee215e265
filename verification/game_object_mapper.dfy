/** `GameObjectMapper`: assigns registry ids to game objects in the order a
    breadth-first walk of their transform hierarchy reaches them. */
module GameObjectMapper {
  import opened Results
  import opened ObjectMapper
  import opened Hierarchy

  /** The objects of xs, first occurrences only, that are not already in seen. */
  function Fresh<R(==)>(seen: seq<R>, xs: seq<R>): seq<R>
    decreases |xs|
  {
    if xs == [] then []
    else if xs[0] in seen then Fresh(seen, xs[1..])
    else [xs[0]] + Fresh(seen + [xs[0]], xs[1..])
  }

  lemma {:induction false} FreshConcat<R>(seen: seq<R>, a: seq<R>, b: seq<R>)
    ensures Fresh(seen, a + b) == Fresh(seen, a) + Fresh(seen + Fresh(seen, a), b)
    decreases |a|
  {
    if a == [] {
      assert a + b == b;
      assert seen + [] == seen;
    } else {
      assert (a + b)[0] == a[0] && (a + b)[1..] == a[1..] + b;
      if a[0] in seen {
        FreshConcat(seen, a[1..], b);
      } else {
        var s1 := seen + [a[0]];
        FreshConcat(s1, a[1..], b);
        assert Fresh(seen, a) == [a[0]] + Fresh(s1, a[1..]);
        assert Fresh(seen, a + b) == [a[0]] + Fresh(s1, a[1..] + b);
        assert s1 + Fresh(s1, a[1..]) == seen + Fresh(seen, a);
      }
    }
  }

  /** An object is fresh exactly when it occurs in xs and was not seen. */
  lemma {:induction false} FreshMembers<R>(seen: seq<R>, xs: seq<R>)
    ensures forall x :: x in Fresh(seen, xs) <==> x in xs && x !in seen
    decreases |xs|
  {
    if xs != [] {
      FreshMembers(seen, xs[1..]);
      FreshMembers(seen + [xs[0]], xs[1..]);
      assert forall x :: x in xs <==> x == xs[0] || x in xs[1..];
    }
  }

  /** Appending one object adds it to the fresh objects unless it occurred
      before. */
  lemma FreshSnoc<R>(xs: seq<R>, x: R)
    ensures Fresh([], xs + [x]) == Fresh([], xs) + (if x in xs then [] else [x])
  {
    FreshConcat([], xs, [x]);
    FreshMembers([], xs);
    assert [] + Fresh([], xs) == Fresh([], xs);
    assert [x][1..] == [];
  }

  /** Registering each object of xs in turn with `getId(obj)`. */
  function RegisterAll<R(==)>(reg: Registry<R>, xs: seq<R>): (r: Registry<R>)
    requires Consistent(reg)
    ensures Consistent(r)
    ensures r.objectMap.Keys == reg.objectMap.Keys + (set x | x in xs)
    ensures forall x :: x in reg.objectMap ==> r.objectMap[x] == reg.objectMap[x]
    decreases |xs|
  {
    if xs == [] then reg
    else RegisterAll(GetId(reg, Some(xs[0])).reg, xs[1..])
  }

  /** One step of `RegisterAll`: a listed object leaves the registry as it
      was, an unlisted one is appended. */
  lemma RegisterAllStep<R>(reg: Registry<R>, xs: seq<R>) returns (next: Registry<R>)
    requires Consistent(reg) && xs != []
    ensures Consistent(next) && RegisterAll(reg, xs) == RegisterAll(next, xs[1..])
    ensures next.objectList == if xs[0] in reg.objectList then reg.objectList
                               else reg.objectList + [xs[0]]
  {
    MapKeysAreListed(reg);
    next := GetId(reg, Some(xs[0])).reg;
  }

  /** The list a sequence of registrations leaves behind, computed on the
      list alone. */
  function AppendUnseen<R(==)>(list: seq<R>, xs: seq<R>): seq<R>
    decreases |xs|
  {
    if xs == [] then list
    else if xs[0] in list then AppendUnseen(list, xs[1..])
    else AppendUnseen(list + [xs[0]], xs[1..])
  }

  lemma {:induction false} AppendUnseenIsFresh<R>(list: seq<R>, xs: seq<R>)
    ensures AppendUnseen(list, xs) == list + Fresh(list, xs)
    decreases |xs|
  {
    if xs == [] {
      assert list + [] == list;
    } else {
      var x, t := xs[0], xs[1..];
      if x in list {
        AppendUnseenIsFresh(list, t);
      } else {
        AppendUnseenIsFresh(list + [x], t);
        assert (list + [x]) + Fresh(list + [x], t) == list + ([x] + Fresh(list + [x], t));
      }
    }
  }

  lemma {:induction false} RegisterAllIsAppendUnseen<R>(reg: Registry<R>, xs: seq<R>)
    requires Consistent(reg)
    ensures RegisterAll(reg, xs).objectList == AppendUnseen(reg.objectList, xs)
    decreases |xs|
  {
    if xs != [] {
      var next := RegisterAllStep(reg, xs);
      RegisterAllIsAppendUnseen(next, xs[1..]);
    }
  }

  /** Registration appends the unseen objects, in first-occurrence order. */
  lemma RegisterAllAppendsFresh<R>(reg: Registry<R>, xs: seq<R>)
    requires Consistent(reg)
    ensures RegisterAll(reg, xs).objectList == reg.objectList + Fresh(reg.objectList, xs)
  {
    RegisterAllIsAppendUnseen(reg, xs);
    AppendUnseenIsFresh(reg.objectList, xs);
  }

  /** The registry grows by the number of distinct objects it had not seen. */
  lemma RegisterAllCount<R>(reg: Registry<R>, xs: seq<R>)
    requires Consistent(reg)
    ensures |RegisterAll(reg, xs).objectList|
         == |reg.objectList| + |(set x | x in xs) - reg.objectMap.Keys|
  {
    var r := RegisterAll(reg, xs);
    MapSizeIsCount(reg);
    MapSizeIsCount(r);
    KeysGrowth(reg.objectMap.Keys, r.objectMap.Keys, set x | x in xs);
  }

  lemma KeysGrowth<T>(before: set<T>, after: set<T>, added: set<T>)
    requires after == before + added
    ensures |after| == |before| + |added - before|
  {
    assert after == before + (added - before);
    assert before * (added - before) == {};
  }

  /** The private `gatherObjectIds(queue)` loop: every non-null object
      dequeued is given an id (created if missing), then its non-null
      children are queued in transform order. */
  function GatherQueue<R(==)>(reg: Registry<R>, q: Queue<R>): (r: Registry<R>)
    requires Consistent(reg)
    ensures r == RegisterAll(reg, Bfs(q))
    decreases SumSizes(q)
  {
    if q == [] then reg
    else
      DequeueSmaller(q);
      match q[0]
      case None => GatherQueue(reg, q[1..])
      case Some(n) =>
        var next := q[1..] + NonNull(n.children);
        assert ([n.obj] + Bfs(next))[0] == n.obj && ([n.obj] + Bfs(next))[1..] == Bfs(next);
        GatherQueue(GetId(reg, Some(n.obj)).reg, next)
  }

  /** What one gathering pass over a queue promises: the reachable objects
      are registered, earlier ids are kept, and the new ones are appended in
      breadth-first order. */
  ghost predicate GatheredFrom<R>(reg: Registry<R>, q: Queue<R>, r: Registry<R>) {
    && Consistent(r)
    && r.objectList == reg.objectList + Fresh(reg.objectList, Bfs(q))
    && (forall x :: x in Bfs(q) ==> x in r.objectMap)
    && (forall x :: x in reg.objectMap ==> x in r.objectMap && r.objectMap[x] == reg.objectMap[x])
    && |r.objectList| == |reg.objectList| + |(set x | x in Bfs(q)) - reg.objectMap.Keys|
  }

  lemma GatherQueueGathers<R>(reg: Registry<R>, q: Queue<R>)
    requires Consistent(reg)
    ensures GatheredFrom(reg, q, GatherQueue(reg, q))
  {
    RegisterAllAppendsFresh(reg, Bfs(q));
    RegisterAllCount(reg, Bfs(q));
  }

  /** `gatherObjectIds(GameObject obj)`: one root, queued alone. */
  function GatherObjectIds<R(==)>(reg: Registry<R>, obj: Option<Node<R>>): (r: Registry<R>)
    requires Consistent(reg)
    ensures GatheredFrom(reg, [obj], r)
  {
    GatherQueueGathers(reg, [obj]);
    GatherQueue(reg, [obj])
  }

  /** `gatherObjectIds(GameObject[] objs)`: all roots queued in array order
      before the walk starts; a null array throws in the `foreach`. */
  function GatherObjectIdsFromArray<R(==)>(reg: Registry<R>, objs: Option<seq<Option<Node<R>>>>)
    : (r: Result<Registry<R>>)
    requires Consistent(reg)
    ensures r.Failure? <==> objs.None?
    ensures r.Failure? ==> r.error == NullReference
    ensures r.Success? ==> GatheredFrom(reg, objs.value, r.value)
  {
    match objs
    case None => Failure(NullReference)
    case Some(q) =>
      GatherQueueGathers(reg, q);
      Success(GatherQueue(reg, q))
  }

  /** Ids are assigned level by level: from an empty registry the id order is
      the level order of the roots' hierarchies, first occurrences only. */
  lemma GatherFollowsLevelOrder<R>(q: Queue<R>)
    ensures var r := GatherObjectIdsFromArray(Empty<R>(), Some(q));
            r.Success? && r.value.objectList == Fresh([], LevelOrder(q))
  {
    var r := GatherObjectIdsFromArray(Empty<R>(), Some(q));
    assert r.value.objectList == [] + Fresh([], Bfs(q));
    BfsIsLevelOrder(q);
  }

  /** The roots come first, in array order. */
  lemma GatherSeedsFirst<R>(q: Queue<R>)
    ensures var r := GatherObjectIdsFromArray(Empty<R>(), Some(q));
            r.Success? && Fresh([], Objs(q)) <= r.value.objectList
  {
    var r := GatherObjectIdsFromArray(Empty<R>(), Some(q));
    assert r.value.objectList == [] + Fresh([], Bfs(q));
    BfsStartsWithSeeds(q);
    FreshConcat([], Objs(q), Bfs(Kids(q)));
  }
}
