/** `ExportUtility`: the exporter's hierarchy helpers. */
module ExportUtility {
  import opened Results
  import opened Hierarchy
  import ObjectMapper

  // ---------------------------------------------------------------------
  // Mesh collider usage

  /** `MeshUsageFlags`, as `getMeshUsageFlags` produces it (`NoUsage` is
      `MeshUsageFlags.None`). */
  datatype MeshUsageFlags = NoUsage | ConvexCollider | TriangleCollider

  datatype MeshCollider = MeshCollider(convex: bool)

  /** `getMeshUsageFlags`: which collision role a mesh plays for its collider. */
  function GetMeshUsageFlags(collider: Option<MeshCollider>): (f: MeshUsageFlags)
    ensures f == NoUsage <==> collider.None?
    ensures f == ConvexCollider <==> collider.Some? && collider.value.convex
    ensures f == TriangleCollider <==> collider.Some? && !collider.value.convex
  {
    if collider.None? then NoUsage
    else if collider.value.convex then ConvexCollider
    else TriangleCollider
  }

  // ---------------------------------------------------------------------
  // Supported components

  datatype ComponentKind =
    | MeshRenderer | Light | SkinnedMeshRenderer | ReflectionProbe | Terrain
    | AudioSource | MeshFilter | Collider | Rigidbody | Animator | OtherComponent

  /** The component kinds the importer can rebuild. */
  const SupportedKinds: set<ComponentKind> :=
    {MeshRenderer, Light, SkinnedMeshRenderer, ReflectionProbe, Terrain}

  /** `hasSupportedComponents`: a null object is an argument error; otherwise
      true iff the object carries one of the supported kinds. */
  function HasSupportedComponents(obj: Option<set<ComponentKind>>): (r: Result<bool>)
    ensures r.Failure? <==> obj.None?
    ensures r.Failure? ==> r.error == ArgumentNull
    ensures r.Success? ==> (r.value <==> obj.value * SupportedKinds != {})
  {
    match obj
    case None => Failure(ArgumentNull)
    case Some(comps) =>
      var found :=
        MeshRenderer in comps || Light in comps || SkinnedMeshRenderer in comps
        || ReflectionProbe in comps || Terrain in comps;
      assert found ==> comps * SupportedKinds != {} by {
        if MeshRenderer in comps { assert MeshRenderer in comps * SupportedKinds; }
        else if Light in comps { assert Light in comps * SupportedKinds; }
        else if SkinnedMeshRenderer in comps { assert SkinnedMeshRenderer in comps * SupportedKinds; }
        else if ReflectionProbe in comps { assert ReflectionProbe in comps * SupportedKinds; }
        else if Terrain in comps { assert Terrain in comps * SupportedKinds; }
      }
      Success(found)
  }

  // ---------------------------------------------------------------------
  // Hierarchy walks

  /** `walkHierarchy(Queue<GameObject>, HierarchyWalker)`: the objects the
      callback is called on, in order. */
  function WalkHierarchy<R>(objects: Option<Queue<R>>, callback: Option<R -> bool>): (r: Result<seq<R>>)
    ensures r.Failure? <==> objects.None? || callback.None?
    ensures r.Failure? ==> r.error == ArgumentNull
    // a rejected object's subtree is skipped and nothing else is
    ensures r.Success? ==> r.value == Bfs(PruneAll(objects.value, callback.value))
    // the queued objects are visited first, in queue order
    ensures r.Success? ==> Objs(objects.value) <= r.value
  {
    if objects.None? || callback.None? then Failure(ArgumentNull)
    else
      var q, keep := objects.value, callback.value;
      WalkIsBfsOfPruned(q, keep);
      WalkVisitsSeedsFirst(q, keep);
      Success(Walk(q, keep))
  }

  lemma WalkVisitsSeedsFirst<R>(q: Queue<R>, keep: R -> bool)
    ensures Objs(q) <= Walk(q, keep)
  {
    WalkIsBfsOfPruned(q, keep);
    BfsStartsWithSeeds(PruneAll(q, keep));
    PrunedObjs(q, keep);
  }

  lemma {:induction false} PrunedObjs<R>(q: Queue<R>, keep: R -> bool)
    ensures Objs(PruneAll(q, keep)) == Objs(q)
  {
    if q != [] {
      PrunedObjs(q[1..], keep);
    }
  }

  /** `walkHierarchy(GameObject, HierarchyWalker)` as written: the queue it
      builds is never given the object, so nothing is visited. */
  function WalkHierarchyFromObject<R>(obj: Option<Node<R>>, callback: Option<R -> bool>): (r: Result<seq<R>>)
    ensures r.Failure? <==> callback.None?
    ensures r.Success? ==> r.value == []
  {
    WalkHierarchy(Some([]), callback)
  }

  /** The evidently intended single-object walk: the object is queued first. */
  function WalkHierarchyFromObjectFixed<R>(obj: Option<Node<R>>, callback: Option<R -> bool>): (r: Result<seq<R>>)
    ensures r.Failure? <==> callback.None?
    ensures r.Success? ==> r.value == Bfs(PruneAll([obj], callback.value))
    ensures r.Success? && obj.Some? ==> |r.value| > 0 && r.value[0] == obj.value.obj
  {
    WalkHierarchy(Some([obj]), callback)
  }

  /** The single-object walk visits nothing, while the object itself was
      meant to be visited first. */
  lemma WalkFromObjectVisitsNothing<R>(n: Node<R>, keep: R -> bool)
    ensures WalkHierarchyFromObject(Some(n), Some(keep)) == Success([])
    ensures WalkHierarchyFromObjectFixed(Some(n), Some(keep)).value[0] == n.obj
  {
  }

  /** `walkHierarchy(GameObject[], HierarchyWalker)`: a null array walks an
      empty queue; otherwise the array seeds the queue in order. */
  function WalkHierarchyFromArray<R>(objs: Option<seq<Option<Node<R>>>>, callback: Option<R -> bool>)
    : (r: Result<seq<R>>)
    ensures r.Failure? <==> callback.None?
    ensures r.Success? && objs.None? ==> r.value == []
    ensures r.Success? && objs.Some? ==>
      r.value == Bfs(PruneAll(objs.value, callback.value)) && Objs(objs.value) <= r.value
  {
    match objs
    case None => WalkHierarchy(Some([]), callback)
    case Some(q) => WalkHierarchy(Some(q), callback)
  }

  // ---------------------------------------------------------------------
  // Ids and paths

  /** `isValidId(int)`. */
  predicate IsValidId(id: int) {
    id >= 0
  }

  /** The integer check agrees with the registry: a looked-up id passes it
      exactly when the object is registered. */
  lemma IsValidIdMatchesRegistry<R>(reg: ObjectMapper.Registry<R>, obj: Option<R>)
    requires ObjectMapper.Consistent(reg)
    ensures IsValidId(ObjectMapper.FindId(reg, obj).objectIndex) <==> ObjectMapper.HasObject(reg, obj)
    ensures IsValidId(ObjectMapper.Invalid.objectIndex) == false
  {
  }

  /** A game object seen from below: its name and its transform's parent. */
  datatype Placed = Placed(name: string, parent: Option<Placed>)

  /** `getObjectPath`: the slash-separated names from the root down. */
  function GetObjectPath(obj: Option<Placed>): string
    decreases obj
  {
    match obj
    case None => "(null)"
    case Some(o) =>
      if o.parent.None? then o.name
      else GetObjectPath(o.parent) + "/" + o.name
  }

  /** Names from the root down to the object. */
  function Ancestry(o: Placed): (names: seq<string>)
    ensures |names| >= 1 && names[|names| - 1] == o.name
    decreases o
  {
    if o.parent.None? then [o.name] else Ancestry(o.parent.value) + [o.name]
  }

  /** Joins path components left to right with '/'. */
  function JoinPath(parts: seq<string>): string
    requires |parts| >= 1
  {
    if |parts| == 1 then parts[0] else parts[0] + "/" + JoinPath(parts[1..])
  }

  lemma {:induction false} JoinPathSnoc(parts: seq<string>, last: string)
    requires |parts| >= 1
    ensures JoinPath(parts + [last]) == JoinPath(parts) + "/" + last
  {
    if |parts| == 1 {
      assert (parts + [last])[1..] == [last];
    } else {
      assert (parts + [last])[1..] == parts[1..] + [last];
      JoinPathSnoc(parts[1..], last);
    }
  }

  /** The path is the object's ancestry, root first, joined with '/'. */
  lemma {:induction false} ObjectPathIsAncestry(o: Placed)
    ensures GetObjectPath(Some(o)) == JoinPath(Ancestry(o))
    decreases o
  {
    if o.parent.Some? {
      ObjectPathIsAncestry(o.parent.value);
      JoinPathSnoc(Ancestry(o.parent.value), o.name);
    }
  }

  // ---------------------------------------------------------------------
  // Component conversion

  /** A converter as the exporter's callers use it: besides the component it
      sees how many times it has been called before (a collider's index is
      that count), so a conversion may depend on the calls before it. */
  type Converter<-C, J> = (nat, C) -> J

  /** Reference: the converted non-null components, in order, each converted
      with the number of conversions made before it. */
  function MapPresent<C, J>(comps: seq<Option<C>>, f: Converter<C, J>): seq<J>
    decreases |comps|
  {
    if comps == [] then []
    else
      var n := |comps| - 1;
      var before := MapPresent(comps[..n], f);
      before + (if comps[n].Some? then [f(|before|, comps[n].value)] else [])
  }

  /** How many non-null components precede position i. */
  function PresentBefore<C>(comps: seq<Option<C>>, i: nat): nat
    requires i <= |comps|
  {
    if i == 0 then 0 else PresentBefore(comps, i - 1) + (if comps[i - 1].Some? then 1 else 0)
  }

  lemma MapPresentSnoc<C, J>(comps: seq<Option<C>>, c: Option<C>, f: Converter<C, J>)
    ensures MapPresent(comps + [c], f) ==
            MapPresent(comps, f) + (if c.Some? then [f(|MapPresent(comps, f)|, c.value)] else [])
  {
    assert (comps + [c])[..|comps|] == comps;
  }

  lemma {:induction false} PresentBeforePrefix<C>(comps: seq<Option<C>>, k: nat, i: nat)
    requires i <= k <= |comps|
    ensures PresentBefore(comps[..k], i) == PresentBefore(comps, i)
  {
    if i > 0 {
      PresentBeforePrefix(comps, k, i - 1);
    }
  }

  lemma {:induction false} PresentCount<C, J>(comps: seq<Option<C>>, f: Converter<C, J>)
    ensures |MapPresent(comps, f)| == PresentBefore(comps, |comps|)
    decreases |comps|
  {
    if comps != [] {
      var n := |comps| - 1;
      PresentCount(comps[..n], f);
      PresentBeforePrefix(comps, n, n);
    }
  }

  /** Order is preserved and the converter is called once per non-null
      component: the i-th component, when non-null, is converted on call
      number k, the count of non-null components before it, and lands in
      slot k. */
  lemma {:induction false} ConvertedSlot<C, J>(comps: seq<Option<C>>, f: Converter<C, J>, i: nat)
    requires i < |comps| && comps[i].Some?
    ensures PresentBefore(comps, i) < |MapPresent(comps, f)|
    ensures MapPresent(comps, f)[PresentBefore(comps, i)] == f(PresentBefore(comps, i), comps[i].value)
    decreases |comps|
  {
    var n := |comps| - 1;
    PresentCount(comps[..n], f);
    PresentBeforePrefix(comps, n, i);
    if i < n {
      ConvertedSlot(comps[..n], f, i);
      assert comps[..n][i] == comps[i];
    }
  }

  /** `convertComponentsList`: one converted item per non-null component, in
      component order; a null object or converter is an argument error. */
  method ConvertComponentsList<C, J>(gameObject: Option<seq<Option<C>>>, converter: Option<Converter<C, J>>)
    returns (r: Result<seq<J>>)
    ensures r.Failure? <==> gameObject.None? || converter.None?
    ensures r.Failure? ==> r.error == ArgumentNull
    ensures r.Success? ==> r.value == MapPresent(gameObject.value, converter.value)
  {
    if gameObject.None? || converter.None? {
      return Failure(ArgumentNull);
    }
    var comps, f := gameObject.value, converter.value;
    var items: seq<J> := [];
    var i := 0;
    while i < |comps|
      invariant 0 <= i <= |comps|
      invariant items == MapPresent(comps[..i], f)
    {
      MapPresentSnoc(comps[..i], comps[i], f);
      assert comps[..i + 1] == comps[..i] + [comps[i]];
      if comps[i].Some? {
        items := items + [f(|items|, comps[i].value)];
      }
      i := i + 1;
    }
    assert comps[..i] == comps;
    return Success(items);
  }

  /** `convertComponents`: the same items as an array. */
  method ConvertComponents<C, J>(gameObject: Option<seq<Option<C>>>, converter: Option<Converter<C, J>>)
    returns (r: Result<seq<J>>)
    ensures r.Failure? <==> gameObject.None? || converter.None?
    ensures r.Failure? ==> r.error == ArgumentNull
    ensures r.Success? ==> |r.value| == PresentBefore(gameObject.value, |gameObject.value|)
    ensures r.Success? ==> forall i :: 0 <= i < |gameObject.value| && gameObject.value[i].Some? ==>
      PresentBefore(gameObject.value, i) < |r.value|
      && r.value[PresentBefore(gameObject.value, i)]
         == converter.value(PresentBefore(gameObject.value, i), gameObject.value[i].value)
  {
    r := ConvertComponentsList(gameObject, converter);
    if r.Success? {
      PresentCount(gameObject.value, converter.value);
      forall i | 0 <= i < |gameObject.value| && gameObject.value[i].Some?
        ensures PresentBefore(gameObject.value, i) < |r.value|
        ensures r.value[PresentBefore(gameObject.value, i)]
                == converter.value(PresentBefore(gameObject.value, i), gameObject.value[i].value)
      {
        ConvertedSlot(gameObject.value, converter.value, i);
      }
    }
  }
}
