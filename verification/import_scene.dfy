/** The importer's `JsonScene`: the objects read from a scene file and an
    index from Unity instance ids to object ids. */
module JsonSceneImport {
  import opened Results

  /** The parts of an imported `JsonGameObject` the scene index reads. */
  datatype ImportedObject = ImportedObject(id: int, instanceId: int, hasTerrain: bool)

  /** A scene's fields as read from its JSON. */
  datatype SceneData = SceneData(name: string, path: string, buildIndex: int, objects: seq<ImportedObject>)

  datatype ImportedScene = ImportedScene(name: string, path: string, buildIndex: int,
                                         objects: seq<ImportedObject>,
                                         instanceIdMap: map<int, int>)

  /** No later object carries the same instance id as objects[i]. */
  ghost predicate LastWithInstId(objects: seq<ImportedObject>, i: nat)
    requires i < |objects|
  {
    forall j :: i < j < |objects| ==> objects[j].instanceId != objects[i].instanceId
  }

  /** The index the importer keeps: its keys are the instance ids present,
      and each maps to the id of the last object carrying it. */
  ghost predicate IndexesLast(objects: seq<ImportedObject>, m: map<int, int>) {
    && (forall k :: k in m <==> exists i :: 0 <= i < |objects| && objects[i].instanceId == k)
    && (forall i :: 0 <= i < |objects| && LastWithInstId(objects, i) ==>
          objects[i].instanceId in m && m[objects[i].instanceId] == objects[i].id)
  }

  /** `buildInstanceIdMap`: starting from an empty map, each object in turn
      replaces any entry for its instance id (removed with a warning, then
      added). */
  function BuildInstanceIdMap(objects: seq<ImportedObject>): (m: map<int, int>)
    ensures IndexesLast(objects, m)
    decreases |objects|
  {
    if objects == [] then map[]
    else
      var n := |objects| - 1;
      var prev := BuildInstanceIdMap(objects[..n]);
      var o := objects[n];
      var cleared := if o.instanceId in prev then prev - {o.instanceId} else prev;
      var m := cleared[o.instanceId := o.id];
      IndexStep(objects, prev, m);
      m
  }

  lemma IndexStep(objects: seq<ImportedObject>, prev: map<int, int>, m: map<int, int>)
    requires objects != []
    requires IndexesLast(objects[..|objects| - 1], prev)
    requires m == prev[objects[|objects| - 1].instanceId := objects[|objects| - 1].id]
    ensures IndexesLast(objects, m)
  {
    var n := |objects| - 1;
    var p := objects[..n];
    forall k ensures k in m <==> exists i :: 0 <= i < |objects| && objects[i].instanceId == k {
      if k in prev {
        var i :| 0 <= i < |p| && p[i].instanceId == k;
        assert objects[i].instanceId == k;
      }
      if exists i :: 0 <= i < |objects| && objects[i].instanceId == k {
        var i :| 0 <= i < |objects| && objects[i].instanceId == k;
        if i < n {
          assert p[i].instanceId == k;
        }
      }
    }
    forall i | 0 <= i < |objects| && LastWithInstId(objects, i)
      ensures objects[i].instanceId in m && m[objects[i].instanceId] == objects[i].id
    {
      if i < n {
        assert objects[n].instanceId != objects[i].instanceId;
        assert LastWithInstId(p, i);
      }
    }
  }

  /** `load`: the fields, the objects, then the index rebuilt from them. */
  function Load(data: SceneData): (s: ImportedScene)
    ensures s.name == data.name && s.path == data.path && s.buildIndex == data.buildIndex
    ensures s.objects == data.objects
    ensures IndexesLast(s.objects, s.instanceIdMap)
  {
    ImportedScene(data.name, data.path, data.buildIndex, data.objects, BuildInstanceIdMap(data.objects))
  }

  /** `containsTerrain`: the first object with a terrain ends the search. */
  function ContainsTerrain(objects: seq<ImportedObject>): (b: bool)
    ensures b <==> exists i :: 0 <= i < |objects| && objects[i].hasTerrain
    decreases |objects|
  {
    if objects == [] then false
    else if objects[0].hasTerrain then true
    else
      var b := ContainsTerrain(objects[1..]);
      assert forall i :: 1 <= i < |objects| ==> objects[i] == objects[1..][i - 1];
      b
  }

  /** `JsonObjects::isValidId`, which is not part of this model: taken to be
      the exporter's rule that negative ids are invalid. */
  predicate IsValidId(id: int) {
    id >= 0
  }

  /** `findJsonObject`: no object for an invalid id, the id-th object
      otherwise; the array is indexed unchecked, so an id past the end is an
      out-of-range error. */
  function FindJsonObject(objects: seq<ImportedObject>, id: int): (r: Result<Option<ImportedObject>>)
    ensures r.Failure? <==> id >= |objects|
    ensures r.Failure? ==> r.error == IndexOutOfRange
    ensures r.Success? ==> (r.value.Some? <==> 0 <= id)
    ensures r.Success? && r.value.Some? ==> r.value.value == objects[id]
  {
    if !IsValidId(id) then Success(None)
    else if id >= |objects| then Failure(IndexOutOfRange)
    else Success(Some(objects[id]))
  }

  /** `findJsonObjectByInstId`: the object whose id the index holds for the
      instance id, nothing for an unknown instance id. */
  function FindJsonObjectByInstId(s: ImportedScene, instId: int): (r: Result<Option<ImportedObject>>)
    ensures instId !in s.instanceIdMap ==> r == Success(None)
    ensures instId in s.instanceIdMap ==> r == FindJsonObject(s.objects, s.instanceIdMap[instId])
  {
    if instId in s.instanceIdMap then FindJsonObject(s.objects, s.instanceIdMap[instId])
    else Success(None)
  }

  /** Each object's id is its position. */
  ghost predicate IdsArePositions(objects: seq<ImportedObject>) {
    forall i :: 0 <= i < |objects| ==> objects[i].id == i
  }

  /** After `load`, looking up an instance id finds the last object that
      carries it, and nothing when no object does. */
  lemma FindByInstIdFindsLast(data: SceneData, instId: int)
    requires IdsArePositions(data.objects)
    ensures var s := Load(data); var r := FindJsonObjectByInstId(s, instId);
      && r.Success?
      && (r.value.None? <==> forall i :: 0 <= i < |data.objects| ==> data.objects[i].instanceId != instId)
      && (forall i ::
            0 <= i < |data.objects| && data.objects[i].instanceId == instId && LastWithInstId(data.objects, i)
            ==> r.value == Some(data.objects[i]))
  {
    var s := Load(data);
    var objs := data.objects;
    if instId in s.instanceIdMap {
      var i := LastIndexOf(objs, instId);
      assert s.instanceIdMap[instId] == i;
    }
  }

  /** The last position carrying an instance id that some object carries. */
  lemma LastIndexOf(objects: seq<ImportedObject>, instId: int) returns (i: nat)
    requires exists j :: 0 <= j < |objects| && objects[j].instanceId == instId
    ensures i < |objects| && objects[i].instanceId == instId && LastWithInstId(objects, i)
    decreases |objects|
  {
    var n := |objects| - 1;
    if objects[n].instanceId == instId {
      i := n;
    } else {
      var j :| 0 <= j < |objects| && objects[j].instanceId == instId;
      assert objects[..n][j].instanceId == instId;
      i := LastIndexOf(objects[..n], instId);
      assert objects[..n][i] == objects[i];
    }
  }
}
