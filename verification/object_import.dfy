/** `JsonImporter::importObject`: the decisions that turn one exported game
    object into Unreal actors and components. The builders, blank-node
    creation and every other host call are given as their results; what is
    modelled is which objects become the root, who is parented under whom,
    which actor is created for the outer, and what ends up registered. */
module ObjectImport {
  import opened Results

  type Actor = nat
  type Component = nat

  /** `ImportedObject`: an actor, a component, or neither (invalid). */
  datatype Imported = Imported(actor: Option<Actor>, component: Option<Component>) {
    predicate IsValid() {
      actor.Some? || component.Some?
    }
    predicate HasActor() {
      actor.Some?
    }
    predicate HasComponent() {
      component.Some?
    }
  }

  const Invalid: Imported := Imported(None, None)

  /** The parts of a `JsonGameObject` the import decisions read. */
  datatype GameObjectInfo = GameObjectInfo(
    id: int, parentId: int, usesPrefab: bool, isPrefabRoot: bool, hasAnimators: bool)

  // ---------------------------------------------------------------------
  // registerImportedObject

  /** `registerImportedObject`: nothing without an output array, nothing for
      an invalid object, otherwise the object appended. */
  function RegisterImportedObject(out: Option<seq<Imported>>, arg: Imported): (r: Option<seq<Imported>>)
    ensures out.None? ==> r.None?
    ensures out.Some? ==> && r.Some? && |r.value| == |out.value| + (if arg.IsValid() then 1 else 0)
                          && r.value[..|out.value|] == out.value
    ensures out.Some? && arg.IsValid() ==> r.value[|out.value|] == arg
  {
    if out.None? then out
    else if !arg.IsValid() then out
    else Some(out.value + [arg])
  }

  /** A builder's objects handed to `registerImportedObject` in turn. */
  function RegisterAll(out: Option<seq<Imported>>, args: seq<Imported>): (r: Option<seq<Imported>>)
    ensures r.None? <==> out.None?
    decreases |args|
  {
    if args == [] then out
    else RegisterImportedObject(RegisterAll(out, args[..|args| - 1]), args[|args| - 1])
  }

  /** The valid objects of a sequence, in order. */
  function ValidOnly(args: seq<Imported>): (v: seq<Imported>)
    ensures forall i :: 0 <= i < |v| ==> v[i].IsValid()
    decreases |args|
  {
    if args == [] then []
    else if args[0].IsValid() then [args[0]] + ValidOnly(args[1..])
    else ValidOnly(args[1..])
  }

  lemma ValidOnlySnoc(args: seq<Imported>, a: Imported)
    ensures ValidOnly(args + [a]) == ValidOnly(args) + (if a.IsValid() then [a] else [])
    decreases |args|
  {
    if args != [] {
      assert (args + [a])[1..] == args[1..] + [a];
      ValidOnlySnoc(args[1..], a);
    } else {
      assert [a][1..] == [];
    }
  }

  /** Registering into a present array appends exactly the valid objects;
      with no array nothing is kept. */
  lemma {:induction false} RegisterAllKeepsValid(out: Option<seq<Imported>>, args: seq<Imported>)
    ensures out.None? ==> RegisterAll(out, args).None?
    ensures out.Some? ==> RegisterAll(out, args) == Some(out.value + ValidOnly(args))
    decreases |args|
  {
    if args != [] {
      var n := |args| - 1;
      RegisterAllKeepsValid(out, args[..n]);
      assert args == args[..n] + [args[n]];
      ValidOnlySnoc(args[..n], args[n]);
      if out.Some? {
        var v := out.value + ValidOnly(args[..n]);
        assert RegisterAll(out, args) == RegisterImportedObject(Some(v), args[n]);
        assert ValidOnly(args) == ValidOnly(args[..n]) + (if args[n].IsValid() then [args[n]] else []);
        if args[n].IsValid() {
          assert RegisterImportedObject(Some(v), args[n]) == Some(v + [args[n]]);
          assert v + [args[n]] == out.value + (ValidOnly(args[..n]) + [args[n]]);
        } else {
          assert ValidOnly(args[..n]) + [] == ValidOnly(args[..n]);
        }
      }
    } else if out.Some? {
      assert out.value + [] == out.value;
    }
  }

  // ---------------------------------------------------------------------
  // Decision flags

  /** The switch that enables rebuilding prefabs with components. */
  const RebuildPrefabsWithComponents: bool := true

  datatype Flags = Flags(objectIsPrefab: bool, mustCreateBlankNodes: bool, createActorNodes: bool, rootMustBeActor: bool)

  /** An object is a prefab part when it uses a prefab; blank nodes are made
      for prefab parts or on request; actor nodes for a prefab root, a
      non-prefab object, or an object without a parent (no other outer
      exists for it); the root must then be an actor. */
  function DecideFlags(obj: GameObjectInfo, hasParent: bool, createEmptyTransforms: bool): (f: Flags)
    ensures f.objectIsPrefab == obj.usesPrefab
    ensures f.mustCreateBlankNodes <==> obj.usesPrefab || createEmptyTransforms
    ensures f.createActorNodes <==> obj.isPrefabRoot || !obj.usesPrefab || !hasParent
    ensures f.rootMustBeActor == f.createActorNodes
    // an object that does not get actor nodes is a prefab part, so it always gets blank nodes
    ensures !f.createActorNodes ==> f.mustCreateBlankNodes
  {
    var objectIsPrefab := obj.usesPrefab && RebuildPrefabsWithComponents;
    var mustCreateBlankNodes := objectIsPrefab || createEmptyTransforms;
    var createActorNodes := (obj.isPrefabRoot || !objectIsPrefab) || !hasParent;
    Flags(objectIsPrefab, mustCreateBlankNodes, createActorNodes, createActorNodes)
  }

  // ---------------------------------------------------------------------
  // The outer creator

  /** The variables the outer-creating closure captures: the outer found
      among imported objects, the root actor a builder made, the actor the
      closure made itself, the actor `createBlankActor` hands out, and how
      many blank actors the closure has asked for. */
  datatype OuterState = OuterState(
    existingOuter: Option<nat>, existingRootActor: Option<Actor>,
    createdRootActor: Option<Actor>, blank: Actor, blanksCreated: nat)

  /** The closure creates a blank actor at most once: it has asked for one
      exactly when it holds one. */
  predicate OuterInv(st: OuterState) {
    st.blanksCreated == if st.createdRootActor.Some? then 1 else 0
  }

  /** One call of the closure: the existing outer, else the existing root
      actor, else the actor it created, creating it on the first such call. */
  function CallOuter(st: OuterState): (r: (nat, OuterState))
    ensures st.existingOuter.Some? ==> r == (st.existingOuter.value, st)
    ensures st.existingOuter.None? && st.existingRootActor.Some? ==> r == (st.existingRootActor.value, st)
    ensures st.existingOuter.None? && st.existingRootActor.None? ==>
      && r.1.createdRootActor.Some? && r.0 == r.1.createdRootActor.value
      && r.1 == st.(createdRootActor := r.1.createdRootActor,
                    blanksCreated := st.blanksCreated + (if st.createdRootActor.None? then 1 else 0))
      && (st.createdRootActor.Some? ==> r.1 == st)
    ensures OuterInv(st) ==> OuterInv(r.1)
  {
    if st.existingOuter.Some? then (st.existingOuter.value, st)
    else if st.existingRootActor.Some? then (st.existingRootActor.value, st)
    else
      var st' := if st.createdRootActor.None?
        then st.(createdRootActor := Some(st.blank), blanksCreated := st.blanksCreated + 1)
        else st;
      (st'.createdRootActor.value, st')
  }

  /** Memoisation: a second call returns what the first did and changes
      nothing more. */
  lemma CallOuterIdempotent(st: OuterState)
    ensures var (o1, s1) := CallOuter(st); CallOuter(s1) == (o1, s1)
  {
  }

  /** n calls in a row. */
  function CallOuterN(st: OuterState, n: nat): (r: OuterState)
    decreases n
  {
    if n == 0 then st else CallOuterN(CallOuter(st).1, n - 1)
  }

  /** However many calls, the captured outer and root actor are untouched,
      at most one blank actor is created, and once one exists nothing
      changes. */
  lemma {:induction false} CallOuterNFacts(st: OuterState, n: nat)
    ensures var r := CallOuterN(st, n);
      && r.existingOuter == st.existingOuter && r.existingRootActor == st.existingRootActor && r.blank == st.blank
      && (OuterInv(st) ==> OuterInv(r))
      && (st.createdRootActor.Some? ==> r == st)
      && (st.existingOuter.Some? || st.existingRootActor.Some? ==> r == st)
      && (n > 0 && st.existingOuter.None? && st.existingRootActor.None? ==> r.createdRootActor.Some?)
      && (r.createdRootActor.Some? ==> r.createdRootActor == st.createdRootActor || r.createdRootActor == Some(st.blank))
    decreases n
  {
    if n > 0 {
      var s1 := CallOuter(st).1;
      CallOuterNFacts(s1, n - 1);
    }
  }

  // ---------------------------------------------------------------------
  // Root selection, reparenting, repair

  datatype Selection = Selection(root: Imported, blankNodeMade: bool)

  /** The root by the number of created objects: with several, the geometry
      root if valid, else a blank node; with one, that one; with none, a
      blank node only when blank nodes must be made. */
  function SelectRoot(created: seq<Imported>, geometryRoot: Imported, mustCreateBlankNodes: bool,
                      blankNode: Imported): (s: Selection)
    ensures |created| == 1 ==> s == Selection(created[0], false)
    ensures |created| > 1 ==> s == if geometryRoot.IsValid() then Selection(geometryRoot, false) else Selection(blankNode, true)
    ensures |created| == 0 ==> s == if mustCreateBlankNodes then Selection(blankNode, true) else Selection(geometryRoot, false)
  {
    if |created| > 1 then
      if !geometryRoot.IsValid() then Selection(blankNode, true) else Selection(geometryRoot, false)
    else if |created| == 1 then Selection(created[0], false)
    else if mustCreateBlankNodes then Selection(blankNode, true)
    else Selection(geometryRoot, false)
  }

  /** A `setObjectHierarchy` call: child placed under parent (none for a
      top-level object). */
  datatype Edge = Edge(child: Imported, parent: Option<Imported>)

  /** The reparenting loop: every valid created object other than the root
      goes under the root. */
  function ReparentEdges(created: seq<Imported>, root: Imported): (es: seq<Edge>)
    ensures forall i :: 0 <= i < |es| ==> es[i].parent == Some(root) && es[i].child.IsValid() && es[i].child != root
    decreases |created|
  {
    if created == [] then []
    else
      var cur := created[0];
      var rest := ReparentEdges(created[1..], root);
      if !cur.IsValid() || cur == root then rest else [Edge(cur, Some(root))] + rest
  }

  /** The objects a run of placements places, in order. */
  function Children(es: seq<Edge>): (cs: seq<Imported>)
    ensures |cs| == |es|
    decreases |es|
  {
    if es == [] then [] else [es[0].child] + Children(es[1..])
  }

  lemma ChildrenCons(e: Edge, es: seq<Edge>)
    ensures Children([e] + es) == [e.child] + Children(es)
  {
    assert ([e] + es)[1..] == es;
  }

  /** Every valid non-root created object is placed under the root, and
      nothing else is placed. */
  lemma {:induction false} ReparentCovers(created: seq<Imported>, root: Imported)
    ensures forall c :: c in Children(ReparentEdges(created, root)) <==> c in created && c.IsValid() && c != root
    decreases |created|
  {
    if created != [] {
      var cur := created[0];
      var rest := ReparentEdges(created[1..], root);
      ReparentCovers(created[1..], root);
      assert created == [cur] + created[1..];
      if cur.IsValid() && cur != root {
        ChildrenCons(Edge(cur, Some(root)), rest);
      }
    }
  }

  /** No object occurs twice. */
  predicate Distinct(s: seq<Imported>) {
    forall i, j :: 0 <= i < j < |s| ==> s[i] != s[j]
  }

  /** When the builders returned distinct objects, none is placed twice. */
  lemma {:induction false} ReparentOnce(created: seq<Imported>, root: Imported)
    requires Distinct(created)
    ensures Distinct(Children(ReparentEdges(created, root)))
    decreases |created|
  {
    if created != [] {
      var cur := created[0];
      var rest := ReparentEdges(created[1..], root);
      assert Distinct(created[1..]) by {
        forall i, j | 0 <= i < j < |created[1..]| ensures created[1..][i] != created[1..][j] {
          assert created[1..][i] == created[i + 1] && created[1..][j] == created[j + 1];
        }
      }
      ReparentOnce(created[1..], root);
      if cur.IsValid() && cur != root {
        ReparentCovers(created[1..], root);
        assert cur !in created[1..];
        ChildrenCons(Edge(cur, Some(root)), rest);
        var cs := Children(ReparentEdges(created, root));
        assert cs == [cur] + Children(rest);
        assert cs[1..] == Children(rest);
        assert cur !in cs[1..];
        var tail := Children(rest);
        assert Distinct(tail);
        forall i, j | 0 <= i < j < |cs| ensures cs[i] != cs[j] {
          assert cs[j] == tail[j - 1];
          if i == 0 {
            assert cs[0] == cur;
            assert tail[j - 1] in tail;
          } else {
            assert cs[i] == tail[i - 1];
          }
        }
      }
    }
  }

  datatype Repaired = Repaired(root: Imported, rootComponents: map<Actor, Component>)

  /** The repair: a root that must be an actor but is only a component is
      replaced by the actor the outer creator made, which must exist and
      must not have a root component yet; that actor then takes the old
      root as its root component. */
  function Repair(root: Imported, rootMustBeActor: bool, createdRootActor: Option<Actor>,
                  rootComponents: map<Actor, Component>): (r: Result<Repaired>)
    requires root.IsValid()
    ensures r.Failure? <==> rootMustBeActor && !root.HasActor() &&
                            (createdRootActor.None? || createdRootActor.value in rootComponents)
    ensures r.Failure? ==> r.error == CheckFailed
    ensures r.Success? && rootMustBeActor ==> r.value.root.HasActor()
    ensures r.Success? && (!rootMustBeActor || root.HasActor()) ==> r.value == Repaired(root, rootComponents)
    ensures r.Success? && rootMustBeActor && !root.HasActor() ==>
      && r.value.root == Imported(createdRootActor, None)
      && createdRootActor.value !in rootComponents
      && r.value.rootComponents == rootComponents[createdRootActor.value := root.component.value]
  {
    if rootMustBeActor && !root.HasActor() then
      // a valid object without an actor holds a component
      assert root.HasComponent();
      if createdRootActor.None? then Failure(CheckFailed)
      else if createdRootActor.value in rootComponents then Failure(CheckFailed)
      else
        var a := createdRootActor.value;
        Success(Repaired(Imported(Some(a), None), rootComponents[a := root.component.value]))
    else Success(Repaired(root, rootComponents))
  }

  // ---------------------------------------------------------------------
  // importObject

  /** What the host calls return during one import: the outer found for the
      object, the actor `createBlankActor` hands out, the geometry builder's
      root and how often it asks for the outer, the other builders' objects
      (probes, lights, terrain, skinned meshes, in that order) and their
      outer requests, the blank node and its outer requests, and the blank
      actor made for an animated object. */
  datatype HostRun = HostRun(
    existingOuter: Option<nat>, blankActor: Actor,
    geometryRoot: Imported, geometryOuterCalls: nat,
    components: seq<Imported>, componentOuterCalls: nat,
    blankNode: Imported, blankNodeOuterCalls: nat,
    animatorActor: Actor)

  /** The importer's state: whether there is a world, the objects registered
      by game-object id, the placements made, each actor's root component,
      and the blank actors created. */
  datatype Context = Context(
    hasWorld: bool, imported: map<int, Imported>, edges: seq<Edge>,
    rootComponents: map<Actor, Component>, blankActors: seq<Actor>)

  datatype Outcome = Outcome(root: Imported, ctx: Context)

  function FindImported(ctx: Context, id: int): Option<Imported> {
    if id in ctx.imported then Some(ctx.imported[id]) else None
  }

  /** The objects created before the root is chosen: the geometry root when
      valid, then the builders' valid objects. */
  function Created(host: HostRun): seq<Imported> {
    RegisterAll(Some(if host.geometryRoot.IsValid() then [host.geometryRoot] else []), host.components).value
  }

  /** The outer creator's state after the builders and the blank node. */
  function OuterAfter(host: HostRun, sel: Selection): OuterState {
    var st1 := CallOuterN(OuterState(host.existingOuter, None, None, host.blankActor, 0), host.geometryOuterCalls);
    var geo := host.geometryRoot;
    var st2 := if geo.IsValid() && geo.HasActor() then st1.(existingRootActor := geo.actor) else st1;
    var st3 := CallOuterN(st2, host.componentOuterCalls);
    if sel.blankNodeMade then CallOuterN(st3, host.blankNodeOuterCalls) else st3
  }

  /** The animator fallback: an animated object that still has no node gets
      a blank actor, placed under the parent and registered. */
  function Animate(ctx: Context, obj: GameObjectInfo, parent: Option<Imported>, actor: Actor): (c: Context)
    ensures obj.id in c.imported
    ensures c.hasWorld == ctx.hasWorld && c.rootComponents == ctx.rootComponents
    ensures obj.id in ctx.imported ==> c == ctx
    ensures obj.id !in ctx.imported ==>
      c.imported == ctx.imported[obj.id := Imported(Some(actor), None)] && c.blankActors == ctx.blankActors + [actor]
  {
    if obj.id in ctx.imported then ctx
    else
      var blank := Imported(Some(actor), None);
      ctx.(imported := ctx.imported[obj.id := blank],
           edges := ctx.edges + [Edge(blank, parent)],
           blankActors := ctx.blankActors + [actor])
  }

  function ImportObject(ctx: Context, obj: GameObjectInfo, createEmptyTransforms: bool, host: HostRun): (r: Result<Outcome>)
    ensures !ctx.hasWorld ==> r == Success(Outcome(Invalid, ctx))
    ensures r.Failure? ==> r.error == CheckFailed
  {
    if !ctx.hasWorld then Success(Outcome(Invalid, ctx))
    else
      var parent := FindImported(ctx, obj.parentId);
      var f := DecideFlags(obj, parent.Some?, createEmptyTransforms);
      var created := Created(host);
      var sel := SelectRoot(created, host.geometryRoot, f.mustCreateBlankNodes, host.blankNode);
      var st := OuterAfter(host, sel);
      var made := if st.createdRootActor.Some? then [st.blank] else [];
      var ctx1 := ctx.(blankActors := ctx.blankActors + made);
      if sel.blankNodeMade && !sel.root.IsValid() then Failure(CheckFailed)
      else if sel.root.IsValid() then
        match Repair(sel.root, f.rootMustBeActor, st.createdRootActor, ctx.rootComponents)
        case Failure(e) => Failure(e)
        case Success(rep) =>
          var ctx2 := ctx1.(
            imported := ctx.imported[obj.id := rep.root],
            edges := ctx.edges + ReparentEdges(created, sel.root) + [Edge(rep.root, parent)],
            rootComponents := rep.rootComponents);
          var ctx3 := if obj.hasAnimators then Animate(ctx2, obj, parent, host.animatorActor) else ctx2;
          Success(Outcome(rep.root, ctx3))
      else
        var ctx3 := if obj.hasAnimators then Animate(ctx1, obj, parent, host.animatorActor) else ctx1;
        Success(Outcome(sel.root, ctx3))
  }

  // ---------------------------------------------------------------------
  // Properties of importObject

  /** The created objects are the valid ones among the geometry root and the
      builders' objects. */
  lemma CreatedAreValid(host: HostRun)
    ensures Created(host) == ValidOnly([host.geometryRoot] + host.components)
  {
    var g := host.geometryRoot;
    RegisterAllKeepsValid(Some(if g.IsValid() then [g] else []), host.components);
    assert ([g] + host.components)[1..] == host.components;
  }

  /** A valid root is registered under the object's id, and that is the only
      change to the registry; the reparenting placed every other valid
      created object under the chosen root, and the root under the parent. */
  lemma ImportRegistersRoot(ctx: Context, obj: GameObjectInfo, createEmptyTransforms: bool, host: HostRun)
    requires ctx.hasWorld
    requires var r := ImportObject(ctx, obj, createEmptyTransforms, host); r.Success? && r.value.root.IsValid()
    ensures var r := ImportObject(ctx, obj, createEmptyTransforms, host).value;
            var created := Created(host);
            var f := DecideFlags(obj, FindImported(ctx, obj.parentId).Some?, createEmptyTransforms);
            var sel := SelectRoot(created, host.geometryRoot, f.mustCreateBlankNodes, host.blankNode);
      && r.ctx.imported == ctx.imported[obj.id := r.root]
      && r.ctx.edges == ctx.edges + ReparentEdges(created, sel.root) + [Edge(r.root, FindImported(ctx, obj.parentId))]
      && (f.rootMustBeActor ==> r.root.HasActor())
  {
  }

  /** When no root is chosen, nothing is registered or placed except an
      animated object's blank actor. */
  lemma ImportWithoutRoot(ctx: Context, obj: GameObjectInfo, createEmptyTransforms: bool, host: HostRun)
    requires ctx.hasWorld
    requires var r := ImportObject(ctx, obj, createEmptyTransforms, host); r.Success? && !r.value.root.IsValid()
    ensures var r := ImportObject(ctx, obj, createEmptyTransforms, host).value;
      && (!obj.hasAnimators || obj.id in ctx.imported ==> r.ctx.imported == ctx.imported && r.ctx.edges == ctx.edges)
      && (obj.hasAnimators && obj.id !in ctx.imported ==>
            r.ctx.imported == ctx.imported[obj.id := Imported(Some(host.animatorActor), None)])
  {
  }

  /** With no objects created and no blank nodes required, the root stays
      invalid. */
  lemma NothingCreatedNoRoot(ctx: Context, obj: GameObjectInfo, createEmptyTransforms: bool, host: HostRun)
    requires ctx.hasWorld && Created(host) == []
    requires !DecideFlags(obj, FindImported(ctx, obj.parentId).Some?, createEmptyTransforms).mustCreateBlankNodes
    ensures var r := ImportObject(ctx, obj, createEmptyTransforms, host);
            r.Success? && r.value.root == Invalid
  {
    var g := host.geometryRoot;
    RegisterAllKeepsValid(Some(if g.IsValid() then [g] else []), host.components);
  }

  /** With exactly one created object, it is the root (repaired into the
      created actor if it must be an actor). */
  lemma OneCreatedIsRoot(ctx: Context, obj: GameObjectInfo, createEmptyTransforms: bool, host: HostRun)
    requires ctx.hasWorld && |Created(host)| == 1
    requires var f := DecideFlags(obj, FindImported(ctx, obj.parentId).Some?, createEmptyTransforms);
             !f.rootMustBeActor || Created(host)[0].HasActor()
    ensures var r := ImportObject(ctx, obj, createEmptyTransforms, host);
            r.Success? && r.value.root == Created(host)[0]
  {
    CreatedAreValid(host);
    assert Created(host)[0].IsValid();
  }

  /** The outer creator asks for at most one blank actor in a whole import,
      and the blank actors added are at most that one and the animator's. */
  lemma ImportCreatesFewActors(ctx: Context, obj: GameObjectInfo, createEmptyTransforms: bool, host: HostRun)
    requires ctx.hasWorld
    ensures var f := DecideFlags(obj, FindImported(ctx, obj.parentId).Some?, createEmptyTransforms);
            var sel := SelectRoot(Created(host), host.geometryRoot, f.mustCreateBlankNodes, host.blankNode);
            OuterAfter(host, sel).blanksCreated <= 1
    ensures var r := ImportObject(ctx, obj, createEmptyTransforms, host);
            r.Success? ==> |ctx.blankActors| <= |r.value.ctx.blankActors| <= |ctx.blankActors| + 2
  {
    var f := DecideFlags(obj, FindImported(ctx, obj.parentId).Some?, createEmptyTransforms);
    var sel := SelectRoot(Created(host), host.geometryRoot, f.mustCreateBlankNodes, host.blankNode);
    OuterAfterInv(host, sel);
  }

  /** Through the whole import the outer creator keeps its at-most-once
      invariant. */
  lemma OuterAfterInv(host: HostRun, sel: Selection)
    ensures OuterInv(OuterAfter(host, sel)) && OuterAfter(host, sel).blank == host.blankActor
  {
    var st0 := OuterState(host.existingOuter, None, None, host.blankActor, 0);
    CallOuterNFacts(st0, host.geometryOuterCalls);
    var st1 := CallOuterN(st0, host.geometryOuterCalls);
    var geo := host.geometryRoot;
    var st2 := if geo.IsValid() && geo.HasActor() then st1.(existingRootActor := geo.actor) else st1;
    CallOuterNFacts(st2, host.componentOuterCalls);
    var st3 := CallOuterN(st2, host.componentOuterCalls);
    CallOuterNFacts(st3, host.blankNodeOuterCalls);
  }
}
