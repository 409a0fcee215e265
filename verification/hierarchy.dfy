/** Transform hierarchies as the exporter walks them: a GameObject with the
    game objects of its child transforms, in transform order. The two
    breadth-first loops of the exporter (`GameObjectMapper.gatherObjectIds`
    and `ExportUtility.walkHierarchy`) are modelled here over a queue, with a
    level-by-level traversal as their independent reference. */
module Hierarchy {
  import opened Results

  /** A game object and its child slots. A slot is `None` when the child
      transform, or its game object, is null; such a child is never queued. */
  datatype Node<R> = Node(obj: R, children: seq<Option<Node<R>>>)

  /** A queue of possibly-null game objects, head first. */
  type Queue<R> = seq<Option<Node<R>>>

  /** Number of slots in a subtree (a null slot counts one); the queue's
      total size bounds the work left in a breadth-first loop. */
  function Size<R>(o: Option<Node<R>>): (n: nat)
    ensures n >= 1
    decreases o
  {
    match o
    case None => 1
    case Some(node) => 1 + SumSizes(node.children)
  }

  function SumSizes<R>(q: Queue<R>): nat
    decreases q
  {
    if q == [] then 0 else Size(q[0]) + SumSizes(q[1..])
  }

  lemma {:induction false} SumSizesConcat<R>(a: Queue<R>, b: Queue<R>)
    ensures SumSizes(a + b) == SumSizes(a) + SumSizes(b)
  {
    if a != [] {
      assert (a + b)[1..] == a[1..] + b;
      SumSizesConcat(a[1..], b);
    } else {
      assert a + b == b;
    }
  }

  /** The queued entries of a child list: the non-null slots, in order. */
  function NonNull<R>(q: Queue<R>): (r: Queue<R>)
    ensures |r| <= |q|
    ensures forall i :: 0 <= i < |r| ==> r[i].Some?
  {
    if q == [] then []
    else (if q[0].Some? then [q[0]] else []) + NonNull(q[1..])
  }

  lemma {:induction false} NonNullSmaller<R>(q: Queue<R>)
    ensures SumSizes(NonNull(q)) <= SumSizes(q)
  {
    if q != [] {
      NonNullSmaller(q[1..]);
      SumSizesConcat(if q[0].Some? then [q[0]] else [], NonNull(q[1..]));
    }
  }

  lemma {:induction false} NonNullConcat<R>(a: Queue<R>, b: Queue<R>)
    ensures NonNull(a + b) == NonNull(a) + NonNull(b)
  {
    if a == [] {
      assert a + b == b;
    } else {
      assert (a + b)[1..] == a[1..] + b;
      NonNullConcat(a[1..], b);
    }
  }

  /** Dequeuing one entry and queuing its non-null children leaves strictly
      less work. */
  lemma DequeueSmaller<R>(q: Queue<R>)
    requires q != []
    ensures q[0].None? ==> SumSizes(q[1..]) < SumSizes(q)
    ensures q[0].Some? ==> SumSizes(q[1..] + NonNull(q[0].value.children)) < SumSizes(q)
  {
    if q[0].Some? {
      SumSizesConcat(q[1..], NonNull(q[0].value.children));
      NonNullSmaller(q[0].value.children);
    }
  }

  /** The breadth-first loop of `gatherObjectIds`: dequeue, skip null,
      visit, queue the non-null children in transform order. */
  function Bfs<R>(q: Queue<R>): seq<R>
    decreases SumSizes(q)
  {
    if q == [] then []
    else
      DequeueSmaller(q);
      match q[0]
      case None => Bfs(q[1..])
      case Some(n) => [n.obj] + Bfs(q[1..] + NonNull(n.children))
  }

  /** The objects of the non-null entries of a level, in order. */
  function Objs<R>(q: Queue<R>): seq<R> {
    if q == [] then []
    else (match q[0] case None => [] case Some(n) => [n.obj]) + Objs(q[1..])
  }

  /** The next level: the non-null children of the non-null entries, in order. */
  function Kids<R>(q: Queue<R>): Queue<R> {
    if q == [] then []
    else (match q[0] case None => [] case Some(n) => NonNull(n.children)) + Kids(q[1..])
  }

  lemma {:induction false} KidsSmaller<R>(q: Queue<R>)
    ensures SumSizes(Kids(q)) + |q| <= SumSizes(q)
  {
    if q != [] {
      KidsSmaller(q[1..]);
      match q[0]
      case None =>
        assert Kids(q) == Kids(q[1..]);
      case Some(n) =>
        SumSizesConcat(NonNull(n.children), Kids(q[1..]));
        NonNullSmaller(n.children);
    }
  }

  /** Reference order: every object of one level before any of the next. */
  function LevelOrder<R>(q: Queue<R>): seq<R>
    decreases SumSizes(q)
  {
    if q == [] then []
    else
      KidsSmaller(q);
      Objs(q) + LevelOrder(Kids(q))
  }

  /** Draining a queue prefix q before the entries r behind it: q's objects
      come first, and q's children are queued behind r. */
  lemma {:induction false} BfsSplit<R>(q: Queue<R>, r: Queue<R>)
    ensures Bfs(q + r) == Objs(q) + Bfs(r + Kids(q))
    decreases |q|
  {
    if q == [] {
      assert q + r == r;
      assert r + Kids(q) == r;
    } else {
      var t := q[1..];
      assert (q + r)[0] == q[0];
      assert (q + r)[1..] == t + r;
      match q[0]
      case None =>
        BfsSplit(t, r);
        assert Objs(q) == Objs(t) && Kids(q) == Kids(t);
      case Some(n) =>
        var c := NonNull(n.children);
        assert (t + r) + c == t + (r + c);
        BfsSplit(t, r + c);
        assert r + Kids(q) == (r + c) + Kids(t);
    }
  }

  /** The queue loop visits objects level by level. */
  lemma {:induction false} BfsIsLevelOrder<R>(q: Queue<R>)
    ensures Bfs(q) == LevelOrder(q)
    decreases SumSizes(q)
  {
    if q != [] {
      BfsSplit(q, []);
      assert q + [] == q;
      assert [] + Kids(q) == Kids(q);
      KidsSmaller(q);
      BfsIsLevelOrder(Kids(q));
    }
  }

  /** The seeded entries are visited first, in queue order. */
  lemma BfsStartsWithSeeds<R>(q: Queue<R>)
    ensures Bfs(q) == Objs(q) + Bfs(Kids(q))
  {
    BfsSplit(q, []);
    assert q + [] == q;
    assert [] + Kids(q) == Kids(q);
  }

  /** The loop of `walkHierarchy(queue, callback)`: every non-null entry is
      visited; its children are queued only when the callback returns true. */
  function Walk<R>(q: Queue<R>, keep: R -> bool): seq<R>
    decreases SumSizes(q)
  {
    if q == [] then []
    else
      DequeueSmaller(q);
      match q[0]
      case None => Walk(q[1..], keep)
      case Some(n) =>
        if keep(n.obj) then [n.obj] + Walk(q[1..] + NonNull(n.children), keep)
        else [n.obj] + Walk(q[1..], keep)
  }

  /** Reference for pruning: cut the children of every node the callback
      rejects. */
  function Prune<R>(o: Option<Node<R>>, keep: R -> bool): (p: Option<Node<R>>)
    ensures p.Some? <==> o.Some?
    decreases o
  {
    match o
    case None => None
    case Some(n) => Some(Node(n.obj, if keep(n.obj) then PruneAll(n.children, keep) else []))
  }

  function PruneAll<R>(q: Queue<R>, keep: R -> bool): (p: Queue<R>)
    ensures |p| == |q|
    decreases q
  {
    if q == [] then [] else [Prune(q[0], keep)] + PruneAll(q[1..], keep)
  }

  lemma {:induction false} PruneAllConcat<R>(a: Queue<R>, b: Queue<R>, keep: R -> bool)
    ensures PruneAll(a + b, keep) == PruneAll(a, keep) + PruneAll(b, keep)
  {
    if a == [] {
      assert a + b == b;
    } else {
      assert (a + b)[1..] == a[1..] + b;
      PruneAllConcat(a[1..], b, keep);
    }
  }

  lemma {:induction false} PruneAllNonNull<R>(q: Queue<R>, keep: R -> bool)
    ensures NonNull(PruneAll(q, keep)) == PruneAll(NonNull(q), keep)
  {
    if q != [] {
      PruneAllNonNull(q[1..], keep);
      if q[0].Some? {
        assert NonNull(q) == [q[0]] + NonNull(q[1..]);
      } else {
        assert NonNull(q) == NonNull(q[1..]);
        assert PruneAll(q, keep)[0].None? && PruneAll(q, keep)[1..] == PruneAll(q[1..], keep);
      }
    }
  }

  /** A pruning walk visits exactly what a plain breadth-first walk visits
      over the pruned forest: rejecting a node hides its whole subtree and
      nothing else. */
  lemma {:induction false} WalkIsBfsOfPruned<R>(q: Queue<R>, keep: R -> bool)
    ensures Walk(q, keep) == Bfs(PruneAll(q, keep))
    decreases SumSizes(q)
  {
    if q != [] {
      DequeueSmaller(q);
      var t := q[1..];
      var p := PruneAll(q, keep);
      assert p[0] == Prune(q[0], keep) && p[1..] == PruneAll(t, keep);
      match q[0]
      case None =>
        WalkIsBfsOfPruned(t, keep);
      case Some(n) =>
        if keep(n.obj) {
          var c := NonNull(n.children);
          WalkIsBfsOfPruned(t + c, keep);
          PruneAllConcat(t, c, keep);
          PruneAllNonNull(n.children, keep);
        } else {
          WalkIsBfsOfPruned(t, keep);
          assert PruneAll(t, keep) + NonNull([]) == PruneAll(t, keep);
        }
    }
  }

  lemma {:induction false} PruneKeepAll<R>(o: Option<Node<R>>, keep: R -> bool)
    requires forall x :: keep(x)
    ensures Prune(o, keep) == o
    decreases o
  {
    match o
    case None =>
    case Some(n) => PruneAllKeepAll(n.children, keep);
  }

  lemma {:induction false} PruneAllKeepAll<R>(q: Queue<R>, keep: R -> bool)
    requires forall x :: keep(x)
    ensures PruneAll(q, keep) == q
    decreases q
  {
    if q != [] {
      PruneKeepAll(q[0], keep);
      PruneAllKeepAll(q[1..], keep);
    }
  }

  /** With a callback that always continues, the walk is the plain
      breadth-first order. */
  lemma WalkKeepAllIsBfs<R>(q: Queue<R>, keep: R -> bool)
    requires forall x :: keep(x)
    ensures Walk(q, keep) == Bfs(q)
  {
    WalkIsBfsOfPruned(q, keep);
    PruneAllKeepAll(q, keep);
  }
}
