/** The exporter's `JsonScene`: the objects of a scene, or of a set of root
    game objects, listed in id order, and the scene's own JSON fields. */
module JsonScene {
  import opened Results
  import opened ObjectMapper
  import opened Hierarchy
  import opened GameObjectMapper
  import opened FastJsonWriter
  import opened JsonValueObject

  /** The `JsonGameObject` fields the scene-level logic reads or writes:
      the Unity object it was made from, its name, its own id, its parent's
      id, and the two fields `fixNameClashes` sets. */
  datatype SceneObject<R> = SceneObject(
    source: R, name: string, id: ResId, parent: ResId,
    nameClash: bool, uniqueName: string)

  /** `JsonScene`: name and path stay null unless `fromScene` sets them,
      the build index defaults to -1. */
  datatype Scene<R> = Scene(name: Option<string>, path: Option<string>,
                            buildIndex: int, objects: seq<SceneObject<R>>)

  /** A Unity scene as `fromScene` sees it; `GetRootGameObjects` never
      returns a null array. */
  datatype UnityScene<R> = UnityScene(name: string, path: string, buildIndex: int,
                                      roots: seq<Option<Node<R>>>)

  /** The objects a scene lists, in order. */
  function Sources<R>(objs: seq<SceneObject<R>>): (s: seq<R>)
    ensures |s| == |objs| && forall i :: 0 <= i < |objs| ==> s[i] == objs[i].source
  {
    seq(|objs|, i requires 0 <= i < |objs| => objs[i].source)
  }

  /** The `JsonGameObject` constructor's identity fields: the object's own
      id from `getId`, and its transform parent's id from `findId` (invalid
      for a root). `nameOf` and `parentOf` stand for Unity's `obj.name` and
      `obj.transform.parent.gameObject`. */
  function NewSceneObject<R(==)>(reg: Registry<R>, obj: R,
                                 nameOf: R -> string, parentOf: R -> Option<R>): SceneObject<R>
    requires Consistent(reg)
  {
    SceneObject(obj, nameOf(obj), GetId(reg, Some(obj)).id, FindId(reg, parentOf(obj)), false, "")
  }

  /** The `foreach` over `args`: each root gathered on its own, in array
      order. */
  function GatherEach<R(==)>(reg: Registry<R>, args: seq<Option<Node<R>>>): (r: Registry<R>)
    requires Consistent(reg)
    ensures Consistent(r)
    decreases |args|
  {
    if args == [] then reg else GatherEach(GatherObjectIds(reg, args[0]), args[1..])
  }

  /** Each root's breadth-first order, one root after another. */
  function RootOrders<R>(args: seq<Option<Node<R>>>): seq<R>
    decreases |args|
  {
    if args == [] then [] else Bfs([args[0]]) + RootOrders(args[1..])
  }

  /** Gathering the roots one by one appends every object they reach, first
      occurrences only, root after root. */
  lemma {:induction false} GatherEachAppends<R>(reg: Registry<R>, args: seq<Option<Node<R>>>)
    requires Consistent(reg)
    ensures GatherEach(reg, args).objectList == reg.objectList + Fresh(reg.objectList, RootOrders(args))
    decreases |args|
  {
    if args == [] {
      assert reg.objectList + [] == reg.objectList;
    } else {
      var reg1 := GatherObjectIds(reg, args[0]);
      var a, b := Bfs([args[0]]), RootOrders(args[1..]);
      var L := reg.objectList;
      var fa := Fresh(L, a);
      GatherEachAppends(reg1, args[1..]);
      GatherOneAppends(reg, args[0]);
      FreshConcat(L, a, b);
      SeqAssoc(L, fa, Fresh(L + fa, b));
    }
  }

  lemma SeqAssoc<T>(a: seq<T>, b: seq<T>, c: seq<T>)
    ensures (a + b) + c == a + (b + c)
  {
  }

  lemma GatherOneAppends<R>(reg: Registry<R>, arg: Option<Node<R>>)
    requires Consistent(reg)
    ensures GatherObjectIds(reg, arg).objectList == reg.objectList + Fresh(reg.objectList, Bfs([arg]))
  {
  }

  /** The first position of x in s. */
  function IndexOf<T(==)>(s: seq<T>, x: T): (i: nat)
    requires x in s
    ensures i < |s| && s[i] == x && x !in s[..i]
  {
    if s[0] == x then 0
    else
      var j := IndexOf(s[1..], x);
      assert s[..j + 1] == [s[0]] + s[1..][..j];
      j + 1
  }

  /** A parent id computed from the object list alone: the parent's position
      when it is listed, invalid otherwise. */
  function ParentId<R(==)>(list: seq<R>, p: Option<R>): ResId {
    if p.Some? && p.value in list then ResId(IndexOf(list, p.value)) else Invalid
  }

  /** `findId` on a consistent registry is the position in its list. */
  lemma FindIdIsPosition<R>(reg: Registry<R>, p: Option<R>)
    requires Consistent(reg)
    ensures FindId(reg, p) == ParentId(reg.objectList, p)
  {
    MapKeysAreListed(reg);
    ConsistentHasNoDuplicates(reg);
    if p.Some? && p.value in reg.objectList {
      var i := IndexOf(reg.objectList, p.value);
      assert reg.objectMap[reg.objectList[i]] == ResId(i);
    }
  }

  /** The constructor's fields for each listed object, in terms of the list
      alone. */
  ghost predicate ListedAs<R>(objs: seq<SceneObject<R>>, list: seq<R>,
                              nameOf: R -> string, parentOf: R -> Option<R>) {
    && |objs| == |list|
    && forall i :: 0 <= i < |list| ==>
         objs[i] == SceneObject(list[i], nameOf(list[i]), ResId(i),
                                ParentId(list, parentOf(list[i])), false, "")
  }

  /** The loop over the object list: one `JsonGameObject` per listed object,
      in id order. */
  function NewSceneObjects<R(==)>(reg: Registry<R>, nameOf: R -> string, parentOf: R -> Option<R>)
    : (objs: seq<SceneObject<R>>)
    requires Consistent(reg)
    ensures ListedAs(objs, reg.objectList, nameOf, parentOf)
  {
    var list := reg.objectList;
    var objs := seq(|list|, i requires 0 <= i < |list| => NewSceneObject(reg, list[i], nameOf, parentOf));
    forall i | 0 <= i < |list|
      ensures objs[i] == SceneObject(list[i], nameOf(list[i]), ResId(i),
                                     ParentId(list, parentOf(list[i])), false, "")
    {
      FindIdIsPosition(reg, parentOf(list[i]));
    }
    objs
  }

  /** `fromObjects`: a null array throws in the `foreach`; otherwise one
      scene object per gathered object, in id order, with name and path
      unset and build index -1. */
  function FromObjects<R(==)>(args: Option<seq<Option<Node<R>>>>,
                              nameOf: R -> string, parentOf: R -> Option<R>): (r: Result<Scene<R>>)
    ensures r.Failure? <==> args.None?
    ensures r.Failure? ==> r.error == NullReference
    ensures r.Success? ==> r.value.name.None? && r.value.path.None? && r.value.buildIndex == -1
    ensures r.Success? ==> ListedAs(r.value.objects, GatherEach(Empty(), args.value).objectList, nameOf, parentOf)
  {
    match args
    case None => Failure(NullReference)
    case Some(a) => Success(Scene(None, None, -1, NewSceneObjects(GatherEach(Empty(), a), nameOf, parentOf)))
  }

  /** The objects of `fromObjects` are every object the roots reach, each
      once, root by root and level by level within a root. */
  lemma FromObjectsOrder<R>(args: seq<Option<Node<R>>>, nameOf: R -> string, parentOf: R -> Option<R>)
    ensures var r := FromObjects(Some(args), nameOf, parentOf);
            r.Success? && Sources(r.value.objects) == Fresh([], RootOrders(args))
  {
    GatherEachAppends(Empty(), args);
  }

  /** A scene object's id is its position in the list. */
  ghost predicate WellIndexed<R>(objs: seq<SceneObject<R>>) {
    forall j :: 0 <= j < |objs| ==> objs[j].id == ResId(j)
  }

  /** The objects of `fromObjects` are indexed by position, and a parent id
      is valid exactly when the parent is listed, where it names it. */
  lemma FromObjectsIds<R>(args: seq<Option<Node<R>>>, nameOf: R -> string, parentOf: R -> Option<R>)
    ensures var r := FromObjects(Some(args), nameOf, parentOf);
      && r.Success? && WellIndexed(r.value.objects)
      && forall j :: 0 <= j < |r.value.objects| ==>
           var o := r.value.objects[j];
           && (o.parent.IsValid() <==> parentOf(o.source).Some? && parentOf(o.source).value in Sources(r.value.objects))
           && (o.parent.IsValid() ==>
                 && 0 <= o.parent.objectIndex < |r.value.objects|
                 && r.value.objects[o.parent.objectIndex].source == parentOf(o.source).value)
  {
    var r := FromObjects(Some(args), nameOf, parentOf);
    ListedIds(r.value.objects, GatherEach(Empty(), args).objectList, nameOf, parentOf);
  }

  lemma ListedIds<R>(objs: seq<SceneObject<R>>, list: seq<R>, nameOf: R -> string, parentOf: R -> Option<R>)
    requires ListedAs(objs, list, nameOf, parentOf)
    ensures Sources(objs) == list && WellIndexed(objs)
    ensures forall j :: 0 <= j < |objs| ==>
      && (objs[j].parent.IsValid() <==> parentOf(list[j]).Some? && parentOf(list[j]).value in list)
      && (objs[j].parent.IsValid() ==>
            && 0 <= objs[j].parent.objectIndex < |objs|
            && list[objs[j].parent.objectIndex] == parentOf(list[j]).value)
  {
  }

  /** `fromObject`: the same as `fromObjects` of a one-element array. */
  function FromObject<R(==)>(arg: Option<Node<R>>, nameOf: R -> string, parentOf: R -> Option<R>)
    : (r: Result<Scene<R>>)
    ensures r.Success? && Sources(r.value.objects) == Fresh([], Bfs([arg]))
    ensures r.value.name.None? && r.value.path.None? && r.value.buildIndex == -1
  {
    FromObjectsOrder([arg], nameOf, parentOf);
    RootOrdersSingle(arg);
    FromObjects(Some([arg]), nameOf, parentOf)
  }

  lemma RootOrdersSingle<R>(arg: Option<Node<R>>)
    ensures RootOrders([arg]) == Bfs([arg])
  {
    assert RootOrders([arg]) == Bfs([arg]) + RootOrders([]);
    assert Bfs([arg]) + [] == Bfs([arg]);
  }

  /** `fromScene`: the roots' scene, then the scene's name, path and build
      index copied over; the objects are those of the roots. */
  function FromScene<R(==)>(scene: UnityScene<R>, nameOf: R -> string, parentOf: R -> Option<R>)
    : (r: Scene<R>)
    ensures r.name == Some(scene.name) && r.path == Some(scene.path)
    ensures r.buildIndex == scene.buildIndex
    ensures Sources(r.objects) == Fresh([], RootOrders(scene.roots))
    ensures WellIndexed(r.objects)
  {
    FromObjectsOrder(scene.roots, nameOf, parentOf);
    FromObjectsIds(scene.roots, nameOf, parentOf);
    var res := FromObjects(Some(scene.roots), nameOf, parentOf).value;
    res.(name := Some(scene.name), path := Some(scene.path), buildIndex := scene.buildIndex)
  }

  // ---------------------------------------------------------------------
  // The scene's JSON

  /** One entry line at `indent`, as the writer lays it out. */
  function Line(indent: int, key: string, value: string): string {
    Tabs(indent) + "\"" + key + "\": " + value
  }

  /** The text of a scene object at indentation `indent`: name, path, build
      index and objects, in that order, one per line inside a brace pair. */
  function SceneText(indent: int, nameText: string, pathText: string,
                     buildIndexText: string, objectsText: string): string {
    "{\n"
      + Line(indent + 1, "name", nameText) + ",\n"
      + Line(indent + 1, "path", pathText) + ",\n"
      + Line(indent + 1, "buildIndex", buildIndexText) + ",\n"
      + Line(indent + 1, "objects", objectsText)
      + "\n" + Tabs(indent) + "}"
  }

  /** `writeRawJsonValue` of a scene, given the text each value writer
      produces (`writeJsonObjectFields` contributes the objects). */
  function WriteScene(w: Writer, nameText: string, pathText: string,
                      buildIndexText: string, objectsText: string): (r: Result<Writer>)
    ensures r.Success? && r.value.indent == w.indent && r.value.valCount == w.valCount
    ensures r.value.text == w.text + SceneText(w.indent, nameText, pathText, buildIndexText, objectsText)
  {
    var fields := [Field("name", nameText), Field("path", pathText),
                   Field("buildIndex", buildIndexText)] + [Field("objects", objectsText)];
    SceneRender(w.indent, fields);
    WriteRawJsonValue(w, fields)
  }

  lemma SceneRender(indent: int, fields: seq<Field>)
    requires |fields| == 4
    ensures RenderObject(indent, fields)
      == SceneText(indent, fields[0].value, fields[1].value, fields[2].value, fields[3].value)
    requires fields[0].key == "name" && fields[1].key == "path"
    requires fields[2].key == "buildIndex" && fields[3].key == "objects"
  {
    var i := indent + 1;
    var l0, l1 := Line(i, "name", fields[0].value), Line(i, "path", fields[1].value);
    var l2, l3 := Line(i, "buildIndex", fields[2].value), Line(i, "objects", fields[3].value);
    var s := ",\n";
    SceneBody(i, fields);
    PrefixThrough("{\n", l0, s, l1, s, l2, s, l3);
  }

  lemma PrefixThrough(p: string, x1: string, x2: string, x3: string, x4: string,
                      x5: string, x6: string, x7: string)
    ensures p + ((((((x1 + x2) + x3) + x4) + x5) + x6) + x7)
         == ((((((p + x1) + x2) + x3) + x4) + x5) + x6) + x7
  {
    ConcatAssoc(p, (((((x1 + x2) + x3) + x4) + x5) + x6), x7);
    ConcatAssoc(p, ((((x1 + x2) + x3) + x4) + x5), x6);
    ConcatAssoc(p, (((x1 + x2) + x3) + x4), x5);
    ConcatAssoc(p, ((x1 + x2) + x3), x4);
    ConcatAssoc(p, (x1 + x2), x3);
    ConcatAssoc(p, x1, x2);
  }

  lemma SceneBody(indent: int, fields: seq<Field>)
    requires |fields| == 4
    ensures Join(",\n", Entries(indent, fields))
      == Line(indent, fields[0].key, fields[0].value) + ",\n"
       + Line(indent, fields[1].key, fields[1].value) + ",\n"
       + Line(indent, fields[2].key, fields[2].value) + ",\n"
       + Line(indent, fields[3].key, fields[3].value)
  {
    var es := Entries(indent, fields);
    forall i | 0 <= i < 4 ensures es[i] == Line(indent, fields[i].key, fields[i].value) {
      assert es[i] == Tabs(indent) + ("\"" + fields[i].key + "\"") + ": " + fields[i].value;
    }
    var s := ",\n";
    assert es[1..][1..][1..] == [es[3]];
    assert Join(s, es[1..][1..]) == es[2] + s + es[3];
    assert Join(s, es[1..]) == es[1] + s + (es[2] + s + es[3]);
    assert Join(s, es) == es[0] + s + (es[1] + s + (es[2] + s + es[3]));
    ConcatAssoc(es[1] + s, es[2] + s, es[3]);
    ConcatAssoc(es[1] + s, es[2], s);
    ConcatAssoc(es[0] + s, es[1] + s + es[2] + s, es[3]);
    ConcatAssoc(es[0] + s, es[1] + s + es[2], s);
    ConcatAssoc(es[0] + s, es[1] + s, es[2]);
    ConcatAssoc(es[0] + s, es[1], s);
  }
}
