# ProjectExodus core, modelled in Dafny

ProjectExodus moves Unity scenes into Unreal in two steps. A C# exporter
inside the Unity editor writes a scene as JSON. A C++ importer plugin inside
the Unreal editor reads that JSON back and rebuilds the scene. This project
models the engine-independent core of both halves:

- **Exporter id registry** (`ObjectMapper`). An object list and a dictionary
  kept in step, so that an object's id is its position in the list.
- **Breadth-first id gathering** (`Hierarchy`, `GameObjectMapper`). Transform
  hierarchies are walked level by level and ids are assigned in that order.
- **Hierarchy helpers** (`ExportUtility`). The pruning hierarchy walk, the
  component filter and converter, object paths and mesh usage flags.
- **Streaming JSON writer** (`FastJsonWriter`). Writes text while keeping a
  stack of per-container value counts. `JsonValueObject` renders a whole
  object with it.
- **Exported scene** (`JsonScene`). Scenes are built from root objects, and
  the scene's JSON is laid out from them.
- **Name-clash repair** (`NameClashes`). Every later object that shares a name
  under the same parent is flagged and renamed "name-#i", with a GUID suffix
  while that name is itself taken.
- **Importer scene index** (`JsonSceneImport`). Maps Unity instance ids to
  object ids, with the last object carrying an instance id winning.
- **Static mesh setup** (`StaticMeshBuilder`). Flat Unity mesh arrays become
  the raw mesh streams Unreal builds from. Vertex positions come in threes,
  triangles are rewound a, c, b, UVs are flipped, and colours and face
  entries are added.
- **Object import** (`ObjectImport`). Decides how one game object is rebuilt:
  which flags apply, which imported object becomes the root, how the other
  created objects are placed under it, and when the root must be replaced by
  a fresh actor.

Engine objects are type parameters or natural numbers. A null reference is
`Option.None`. Thrown exceptions and `check` failures are `Result.Failure`
values with an error kind (`results.dfy`). Engine and host calls the core
depends on are passed in as parameters:

- transform lookups;
- `Guid.NewGuid` as a stream of distinct strings;
- `unityPosToUe` and the `getIdxVector` readers;
- in `ObjectImport`, the objects the builders and blank-node creators return.

Every property below is proved for every value of those parameters.

## Model

| member | source | states |
|---|---|---|
| ObjectMapper.Empty | ExodusExport/Scripts/Editor/Exporter/ObjectMapper.cs:9-10 | a fresh mapper has no objects and already satisfies the list/dictionary invariant |
| ObjectMapper.ConsistentHasNoDuplicates | ExodusExport/Scripts/Editor/Exporter/ObjectMapper.cs:76-86 | the invariant that adding keeps implies that no object is listed twice |
| ObjectMapper.MapSizeIsCount | ExodusExport/Scripts/Editor/Exporter/ObjectMapper.cs:76-86 | the dictionary holds exactly one entry per listed object |
| ObjectMapper.MapKeysAreListed | ExodusExport/Scripts/Editor/Exporter/ObjectMapper.cs:76-86 | an object is a dictionary key exactly when it is in the list |
| ObjectMapper.ValidIdsAreIssued | ExodusExport/Scripts/Editor/Exporter/ObjectMapper.cs:20-22 | an id passes `isValidObjectId` exactly when some registered object was given it |
| ObjectMapper.AddNewObjectInternal | ExodusExport/Scripts/Editor/Exporter/ObjectMapper.cs:76-86 | a duplicate key is the logic-error exception; otherwise the object gets the next dense id, is appended to both structures, earlier ids are kept, and the invariant holds |
| ObjectMapper.GetIdFull | ExodusExport/Scripts/Editor/Exporter/ObjectMapper.cs:92-116 | fails exactly when throwIfExists meets a known object or throwIfMissing meets an unknown one that may not be created; null and uncreated misses give the invalid id; a valid id names the requested object; the state changes only by appending a new object |
| ObjectMapper.GetId | ExodusExport/Scripts/Editor/Exporter/ObjectMapper.cs:68-70 | a non-null object always comes back with a valid id that the dictionary now maps it to; a known object keeps its id and the registry is unchanged, while a new one is appended with id = old count; null gives the invalid id |
| ObjectMapper.RegisterObject | ExodusExport/Scripts/Editor/Exporter/ObjectMapper.cs:88-90 | registering is the same lookup-or-create as `getId(obj)` and lists the object at its id |
| ObjectMapper.FindId | ExodusExport/Scripts/Editor/Exporter/ObjectMapper.cs:64-66 | the id is valid exactly for a registered non-null object, and then it is that object's position |
| ObjectMapper.HasObject | ExodusExport/Scripts/Editor/Exporter/ObjectMapper.cs:56-58 | true exactly for a non-null object in the list |
| ObjectMapper.GetObject | ExodusExport/Scripts/Editor/Exporter/ObjectMapper.cs:44-48 | an id outside the list is an argument error; otherwise the listed object at that id |
| ObjectMapper.GetObjectByIndex | ExodusExport/Scripts/Editor/Exporter/ObjectMapper.cs:50-54 | a negative or too-large index is an argument error; otherwise the object at that index |
| ObjectMapper.FindAfterGetId | ExodusExport/Scripts/Editor/Exporter/ObjectMapper.cs:64-70 | after `getId` hands out an id, `findId` finds the same id and `getObject` returns the object (round trip) |
| ObjectMapper.GetIdIdempotent | ExodusExport/Scripts/Editor/Exporter/ObjectMapper.cs:98-105 | a second `getId` of the same object returns the same id and changes nothing |
| ObjectMapper.FlagsOnKnownAndUnknown | ExodusExport/Scripts/Editor/Exporter/ObjectMapper.cs:98-113 | re-registering with throwIfExists throws; looking up an unknown object without createMissing leaves the registry unchanged, or throws with throwIfMissing |
| Hierarchy.DequeueSmaller | ExodusExport/Scripts/Editor/Exporter/GameObjectMapper.cs:7-24 | dequeuing one entry and queuing its non-null children leaves strictly less work, so the queue loop ends |
| Hierarchy.BfsSplit | ExodusExport/Scripts/Editor/Exporter/GameObjectMapper.cs:7-24 | draining a queue prefix visits its objects first and queues its children behind the rest of the queue |
| Hierarchy.BfsIsLevelOrder | ExodusExport/Scripts/Editor/Exporter/GameObjectMapper.cs:7-24 | the queue loop visits objects in level order: every object of one level before any object of the next |
| Hierarchy.BfsStartsWithSeeds | ExodusExport/Scripts/Editor/Exporter/GameObjectMapper.cs:7-24 | the non-null seeds are visited first, in queue order |
| Hierarchy.WalkIsBfsOfPruned | ExodusExport/Scripts/Editor/Exporter/ExportUtility.cs:60-83 | the callback-driven walk visits exactly what a plain breadth-first walk visits over the forest in which every rejected node's children are cut away |
| Hierarchy.WalkKeepAllIsBfs | ExodusExport/Scripts/Editor/Exporter/ExportUtility.cs:60-83 | with a callback that always continues, the walk is the plain breadth-first order |
| GameObjectMapper.FreshConcat | ExodusExport/Scripts/Editor/Exporter/GameObjectMapper.cs:7-24 | taking first occurrences of a concatenation is first occurrences of the first part, then the rest's objects not yet seen |
| GameObjectMapper.RegisterAll | ExodusExport/Scripts/Editor/Exporter/GameObjectMapper.cs:13 | registering objects in turn keeps the invariant and the keys become the old keys plus the objects |
| GameObjectMapper.RegisterAllAppendsFresh | ExodusExport/Scripts/Editor/Exporter/GameObjectMapper.cs:13 | registration appends exactly the unseen objects, in first-occurrence order, and keeps the existing list |
| GameObjectMapper.RegisterAllCount | ExodusExport/Scripts/Editor/Exporter/GameObjectMapper.cs:13 | the registry grows by the number of distinct objects it had not seen |
| GameObjectMapper.GatherQueue | ExodusExport/Scripts/Editor/Exporter/GameObjectMapper.cs:7-24 | the queue loop registers the objects in breadth-first visiting order |
| GameObjectMapper.GatherQueueGathers | ExodusExport/Scripts/Editor/Exporter/GameObjectMapper.cs:7-24 | after gathering, every reachable object is registered, earlier ids are kept, and the new ones are appended in breadth-first order |
| GameObjectMapper.GatherObjectIds | ExodusExport/Scripts/Editor/Exporter/GameObjectMapper.cs:26-30 | gathering one root is a gathering pass over a queue holding that root alone |
| GameObjectMapper.GatherObjectIdsFromArray | ExodusExport/Scripts/Editor/Exporter/GameObjectMapper.cs:32-38 | a null array throws; otherwise all roots are queued in array order before the walk |
| GameObjectMapper.GatherFollowsLevelOrder | ExodusExport/Scripts/Editor/Exporter/GameObjectMapper.cs:32-38 | from an empty mapper the ids follow the roots' level order, first occurrences only |
| GameObjectMapper.GatherSeedsFirst | ExodusExport/Scripts/Editor/Exporter/GameObjectMapper.cs:32-38 | the roots receive the first ids, in array order |
| ExportUtility.GetMeshUsageFlags | ExodusExport/Scripts/Editor/Exporter/ExportUtility.cs:11-17 | no collider gives no usage, a convex collider gives convex usage, any other gives triangle usage, each as an iff |
| ExportUtility.HasSupportedComponents | ExodusExport/Scripts/Editor/Exporter/ExportUtility.cs:19-30 | null is an argument error; otherwise true iff the object has a mesh renderer, light, skinned mesh renderer, reflection probe or terrain |
| ExportUtility.WalkHierarchy | ExodusExport/Scripts/Editor/Exporter/ExportUtility.cs:60-83 | a null queue or callback is an argument error; otherwise a rejected object's subtree is skipped and nothing else is |
| ExportUtility.WalkVisitsSeedsFirst | ExodusExport/Scripts/Editor/Exporter/ExportUtility.cs:60-83 | the callback sees every non-null queued object before any child, whatever it answers |
| ExportUtility.PrunedObjs | ExodusExport/Scripts/Editor/Exporter/ExportUtility.cs:60-83 | pruning never removes a queued object itself, only its descendants |
| ExportUtility.WalkHierarchyFromObject | ExodusExport/Scripts/Editor/Exporter/ExportUtility.cs:85-88 | as written, the single-object walk visits nothing (see Findings) |
| ExportUtility.WalkHierarchyFromObjectFixed | ExodusExport/Scripts/Editor/Exporter/ExportUtility.cs:85-88 | the corrected single-object walk is the pruned breadth-first walk from the object, and visits the object first |
| ExportUtility.WalkFromObjectVisitsNothing | ExodusExport/Scripts/Editor/Exporter/ExportUtility.cs:85-88 | for any object, the as-written walk returns no objects while the corrected one starts with the object |
| ExportUtility.WalkHierarchyFromArray | ExodusExport/Scripts/Editor/Exporter/ExportUtility.cs:90-97 | a null array walks an empty queue; otherwise the array seeds the queue in order |
| ExportUtility.IsValidIdMatchesRegistry | ExodusExport/Scripts/Editor/Exporter/ExportUtility.cs:103-105 | the integer id check accepts a looked-up id exactly when the object is registered, and rejects the invalid id |
| ExportUtility.ObjectPathIsAncestry | ExodusExport/Scripts/Editor/Exporter/ExportUtility.cs:107-113 | the path is the names from the root down to the object, joined with '/' |
| ExportUtility.ConvertedSlot | ExodusExport/Scripts/Editor/Exporter/ExportUtility.cs:137-161 | the converter is called once per non-null component, in component order: the i-th component, when non-null, is converted on call number k, the count of non-null components before it, and lands in slot k |
| ExportUtility.PresentCount | ExodusExport/Scripts/Editor/Exporter/ExportUtility.cs:137-161 | there is one converted item per non-null component |
| ExportUtility.ConvertComponentsList | ExodusExport/Scripts/Editor/Exporter/ExportUtility.cs:137-161 | a null object or converter is an argument error; otherwise the non-null components, in component order, each converted with the number of earlier calls |
| ExportUtility.ConvertComponents | ExodusExport/Scripts/Editor/Exporter/ExportUtility.cs:163-168 | a null object or converter is an argument error; otherwise one item per non-null component, and the k-th non-null component's item is the converter applied to k and that component |
| FastJsonWriter.Tabs | ExodusExport/Scripts/Editor/Exporter/FastJsonWriter/FastJsonWriter.cs:23-26 | exactly n tab characters, none for a non-positive level |
| FastJsonWriter.WriteIndent | ExodusExport/Scripts/Editor/Exporter/FastJsonWriter/FastJsonWriter.cs:23-26 | appends one tab per indentation level and changes nothing else |
| FastJsonWriter.WriteString | ExodusExport/Scripts/Editor/Exporter/FastJsonWriter/FastJsonWriter.cs:104-108 | a key is written between two double quotes |
| FastJsonWriter.ProcessCommaWith | ExodusExport/Scripts/Editor/Exporter/FastJsonWriter/FastJsonWriter.cs:44-55 | with no open container the stack pop fails; otherwise the innermost count goes up by one and text is only appended |
| FastJsonWriter.CommaSeparatesValues | ExodusExport/Scripts/Editor/Exporter/FastJsonWriter/FastJsonWriter.cs:44-55 | a comma is written exactly when the container already holds a value, and a line break exactly for such a comma in line mode; inline the text is ", " (or nothing for the first value), in line mode ",\n" (or nothing) followed by the indentation tabs |
| FastJsonWriter.ProcessComma | ExodusExport/Scripts/Editor/Exporter/FastJsonWriter/FastJsonWriter.cs:36-42 | the parameterless overload is the line-indented one |
| FastJsonWriter.BeginRawObjectWith | ExodusExport/Scripts/Editor/Exporter/FastJsonWriter/FastJsonWriter.cs:63-70 | indents one level deeper, pushes a zero count, and appends exactly "{\n" when asked for a new line and "{" otherwise |
| FastJsonWriter.BeginRawObject | ExodusExport/Scripts/Editor/Exporter/FastJsonWriter/FastJsonWriter.cs:57-61 | the parameterless overload opens on a new line |
| FastJsonWriter.BeginRawArray | ExodusExport/Scripts/Editor/Exporter/FastJsonWriter/FastJsonWriter.cs:90-94 | appends "[" and a line break, indents one level deeper, pushes a zero count |
| FastJsonWriter.EndObjectWith | ExodusExport/Scripts/Editor/Exporter/FastJsonWriter/FastJsonWriter.cs:72-80 | fails with no open container; otherwise pops the count, dedents one level and appends "}", preceded by a line break and the outer indentation in line mode |
| FastJsonWriter.EndObjectText | ExodusExport/Scripts/Editor/Exporter/FastJsonWriter/FastJsonWriter.cs:72-88 | `endObject()` appends a line break, the outer indentation and '}', and pops the count |
| FastJsonWriter.EndObject | ExodusExport/Scripts/Editor/Exporter/FastJsonWriter/FastJsonWriter.cs:82-88 | the parameterless overload closes on its own line |
| FastJsonWriter.EndArray | ExodusExport/Scripts/Editor/Exporter/FastJsonWriter/FastJsonWriter.cs:96-102 | fails with no open container; otherwise pops the count, dedents one level and appends a line break, the outer indentation and "]" |
| FastJsonWriter.WriteKeyWith | ExodusExport/Scripts/Editor/Exporter/FastJsonWriter/FastJsonWriter.cs:104-108 | fails with no open container; otherwise counts one more value and appends the separator (", " inline or ",\n" plus indentation in line mode, nothing before the first value), then the quoted key and ": " |
| FastJsonWriter.WriteKey | ExodusExport/Scripts/Editor/Exporter/FastJsonWriter/FastJsonWriter.cs:110-112 | the one-argument overload is the line-indented one |
| FastJsonWriter.BeginKeyArray | ExodusExport/Scripts/Editor/Exporter/FastJsonWriter/FastJsonWriter.cs:114-117 | fails with no open container; otherwise appends what `writeKey` writes and then "[\n", counts the key as a value of the outer container, and opens a new container with a zero count one level deeper |
| FastJsonWriter.BeginKeyObject | ExodusExport/Scripts/Editor/Exporter/FastJsonWriter/FastJsonWriter.cs:119-122 | fails with no open container; otherwise appends what `writeKey` writes and then "{\n", counts the key as a value of the outer container, and opens a new container with a zero count one level deeper |
| FastJsonWriter.ApplyKeepsShape | ExodusExport/Scripts/Editor/Exporter/FastJsonWriter/FastJsonWriter.cs:11-14 | every writer call only appends text and keeps indentation minus nesting depth constant |
| FastJsonWriter.RunKeepsShape | ExodusExport/Scripts/Editor/Exporter/FastJsonWriter/FastJsonWriter.cs:11-14 | any successful sequence of writer calls only appends and keeps indentation minus depth constant |
| FastJsonWriter.BalancedRunRestoresIndent | ExodusExport/Scripts/Editor/Exporter/FastJsonWriter/FastJsonWriter.cs:11-14 | a sequence that ends at the depth it started at is back at its starting indentation |
| JsonValueObject.WriteRawJsonValue | ExodusExport/Scripts/Editor/Exporter/JsonValueObject.cs:11-16 | never fails, leaves indentation and the enclosing counts as it found them, and appends exactly the reference rendering of the object |
| JsonValueObject.WriteKeyValText | ExodusExport/Scripts/Editor/Exporter/FastJsonWriter/FastJsonWriter.cs:104-112 | one key/value call appends the separator and one entry line and counts one value |
| JsonValueObject.WriteFieldsText | ExodusExport/Scripts/Editor/Exporter/JsonValueObject.cs:8-9 | writing fields appends a separator when the container was not empty, then the entries joined by ",\n", and counts them |
| JsonValueObject.RawValueText | ExodusExport/Scripts/Editor/Exporter/JsonValueObject.cs:11-16 | open brace, fields and close brace together give the brace-pair rendering with entries one level deeper |
| JsonValueObject.EmptyObjectText | ExodusExport/Scripts/Editor/Exporter/JsonValueObject.cs:8-16 | an object with no fields is "{", an empty line, and "}" at the writer's indentation: three lines |
| JsonScene.GatherEach | ExodusExport/Scripts/Editor/Exporter/JsonScene.cs:38-40 | gathering root after root keeps the mapper invariant |
| JsonScene.GatherEachAppends | ExodusExport/Scripts/Editor/Exporter/JsonScene.cs:38-40 | gathering the roots one by one appends every reachable object once, root after root |
| JsonScene.FindIdIsPosition | ExodusExport/Scripts/Editor/Exporter/ObjectMapper.cs:64-66 | `findId` on a consistent mapper is the first position of the object in the list, or invalid |
| JsonScene.NewSceneObjects | ExodusExport/Scripts/Editor/Exporter/JsonScene.cs:47-57 | one scene object per listed object, in id order, with its own id and its parent's id computed from the list alone |
| JsonScene.FromObjects | ExodusExport/Scripts/Editor/Exporter/JsonScene.cs:31-65 | a null array throws; otherwise name and path are unset, the build index is -1, and the objects are the gathered ones in id order |
| JsonScene.FromObjectsOrder | ExodusExport/Scripts/Editor/Exporter/JsonScene.cs:31-65 | the objects are every object the roots reach, each once, root by root and level by level within a root |
| JsonScene.FromObjectsIds | ExodusExport/Scripts/Editor/Exporter/JsonScene.cs:47-57 | ids are positions, and a parent id is valid exactly when the parent is listed, in which case it names the parent |
| JsonScene.ListedIds | ExodusExport/Scripts/Editor/Exporter/JsonScene.cs:47-57 | objects built from a list carry that list's objects, are indexed by position, and point at their listed parent |
| JsonScene.FromObject | ExodusExport/Scripts/Editor/Exporter/JsonScene.cs:27-29 | one root's scene holds its breadth-first objects, with name and path unset and build index -1 |
| JsonScene.FromScene | ExodusExport/Scripts/Editor/Exporter/JsonScene.cs:18-25 | the scene's name, path and build index are copied, and the objects are the roots' objects, indexed by position |
| JsonScene.WriteScene | ExodusExport/Scripts/Editor/Exporter/JsonScene.cs:71-78 | the scene is written as a brace pair holding name, path, buildIndex and objects in that order, and the writer's depth and counts are restored |
| JsonScene.SceneRender | ExodusExport/Scripts/Editor/Exporter/JsonScene.cs:71-78 | the generic object rendering of the four scene fields is the scene layout |
| NameClashes.MembersFacts | ExodusExport/Scripts/Editor/Exporter/JsonScene.cs:81-87 | a key's group is exactly the positions holding that key, in increasing order |
| NameClashes.RankFinds | ExodusExport/Scripts/Editor/Exporter/JsonScene.cs:81-87 | an object's rank (earlier namesakes under its parent) is its index within its group |
| NameClashes.BuildClashTable | ExodusExport/Scripts/Editor/Exporter/JsonScene.cs:81-87 | the dictionary has one entry per distinct (name, parent); the list under each key is the ids of the objects with that key, in list order; keys are enumerated once each in order of first occurrence |
| NameClashes.GroupIdsAreMembers | ExodusExport/Scripts/Editor/Exporter/JsonScene.cs:81-87 | for any ids, the list under a key holds, in order, the id of each object at a position with that key |
| NameClashes.ClashTableGroups | ExodusExport/Scripts/Editor/Exporter/JsonScene.cs:81-87 | when ids are positions, the list under each key is its group of ids in list order |
| NameClashes.GuidNameInjective | ExodusExport/Scripts/Editor/Exporter/JsonScene.cs:105-110 | different GUIDs give different GUID-suffixed names |
| NameClashes.TakenBound | ExodusExport/Scripts/Editor/Exporter/JsonScene.cs:106-110 | with distinct GUIDs, at most as many candidates as there are dictionary keys can be taken, so the retry loop ends |
| NameClashes.RetryGuid | ExodusExport/Scripts/Editor/Exporter/JsonScene.cs:106-110 | the loop ends with a GUID-suffixed name that is free under the parent |
| NameClashes.PickName | ExodusExport/Scripts/Editor/Exporter/JsonScene.cs:105-110 | the chosen name is free under the parent; it is "name-#i" when that is free, drawing no GUID, and otherwise "name-#i(guid)" where guid is the last GUID drawn from the sequence |
| NameClashes.FixMember | ExodusExport/Scripts/Editor/Exporter/JsonScene.cs:96-112 | fails with an out-of-range index exactly when the check admits an id equal to the object count |
| NameClashes.FixGroup | ExodusExport/Scripts/Editor/Exporter/JsonScene.cs:95-113 | with the corrected check a group never fails; any failure is the out-of-range index |
| NameClashes.FixAll | ExodusExport/Scripts/Editor/Exporter/JsonScene.cs:89-114 | with the corrected check the dictionary loop never fails; any failure is the out-of-range index |
| NameClashes.FixNameClashesWith | ExodusExport/Scripts/Editor/Exporter/JsonScene.cs:80-115 | only the clash flag and unique name of objects change, and the corrected check never fails |
| NameClashes.FixNameClashesAsWritten | ExodusExport/Scripts/Editor/Exporter/JsonScene.cs:98-102 | as written, a success changes only clash flags and unique names, and a failure is the out-of-range index |
| NameClashes.FixNameClashes | ExodusExport/Scripts/Editor/Exporter/JsonScene.cs:80-115 | the corrected repair always succeeds and changes only clash flags and unique names |
| NameClashes.FixSceneNameClashes | ExodusExport/Scripts/Editor/Exporter/JsonScene.cs:80-115 | on a scene, with the corrected id check, the repair always succeeds and only the objects change |
| NameClashes.FixGroupRenames | ExodusExport/Scripts/Editor/Exporter/JsonScene.cs:95-113 | each group member from the i-th on is flagged and named "name-#t" by its index t within the group, or "name-#t(guid)" when that name is taken; every other object is untouched |
| NameClashes.FixAllRenames | ExodusExport/Scripts/Editor/Exporter/JsonScene.cs:89-114 | over the entries from q on, an object of a visited group with rank r >= 1 is flagged and named "name-#r", or "name-#r(guid)" when that is taken; every other object is left alone |
| NameClashes.FixNameClashesRenames | ExodusExport/Scripts/Editor/Exporter/JsonScene.cs:80-115 | when ids are positions and GUIDs do not repeat: an object with no earlier namesake under its parent is untouched; the one with rank r is flagged and named "name-#r" when that is not in the dictionary under its parent, and "name-#r(guid)" otherwise, never a name in the dictionary |
| NameClashes.AsWrittenAgrees | ExodusExport/Scripts/Editor/Exporter/JsonScene.cs:98-102 | when ids are positions, as they are after `fromObjects`, the as-written check behaves as the corrected one |
| NameClashes.AsWrittenIndexesPastEnd | ExodusExport/Scripts/Editor/Exporter/JsonScene.cs:98-104 | two same-named roots, the second with id 2 in a list of two, make the as-written check index past the end; the corrected one skips the id |
| JsonSceneImport.BuildInstanceIdMap | ExodusImport/Source/ExodusImport/Private/JsonObjects/JsonScene.cpp:18-34 | the index's keys are exactly the instance ids present, and each maps to the id of the last object carrying it |
| JsonSceneImport.Load | ExodusImport/Source/ExodusImport/Private/JsonObjects/JsonScene.cpp:6-16 | the fields and objects are copied and the index is rebuilt from the objects |
| JsonSceneImport.ContainsTerrain | ExodusImport/Source/ExodusImport/Private/JsonObjects/JsonScene.cpp:36-42 | true exactly when some object has a terrain |
| JsonSceneImport.FindJsonObject | ExodusImport/Source/ExodusImport/Private/JsonObjects/JsonScene.cpp:44-49 | an invalid id finds nothing, an id past the end is an out-of-range access, and any other id finds the object at that position |
| JsonSceneImport.FindJsonObjectByInstId | ExodusImport/Source/ExodusImport/Private/JsonObjects/JsonScene.cpp:51-57 | an unknown instance id finds nothing; a known one is looked up through the index |
| JsonSceneImport.FindByInstIdFindsLast | ExodusImport/Source/ExodusImport/Private/JsonObjects/JsonScene.cpp:18-57 | after loading, looking up an instance id finds the last object carrying it, and nothing exactly when no object does |
| StaticMeshBuilder.VertexPositions | ExodusImport/Source/ExodusImport/Private/MeshBuilder/StaticMesh.cpp:56-59 | one converted position per whole float triple, in order |
| StaticMeshBuilder.AddUvs | ExodusImport/Source/ExodusImport/Private/MeshBuilder/StaticMesh.cpp:121-134 | every one of the eight channels grows by exactly that channel's UV output for the wedge |
| StaticMeshBuilder.SubCorners | ExodusImport/Source/ExodusImport/Private/MeshBuilder/StaticMesh.cpp:156-160 | three corners per whole triangle of a sub-mesh |
| StaticMeshBuilder.EmitAllWedges | ExodusImport/Source/ExodusImport/Private/MeshBuilder/StaticMesh.cpp:107-109 | processing corners appends their original vertex indices to the wedge indices |
| StaticMeshBuilder.EmitAllColors | ExodusImport/Source/ExodusImport/Private/MeshBuilder/StaticMesh.cpp:136-148 | processing corners appends one colour per corner when the mesh has colours, none otherwise |
| StaticMeshBuilder.EmitAllUvs | ExodusImport/Source/ExodusImport/Private/MeshBuilder/StaticMesh.cpp:121-134 | each channel receives the flipped UVs when it has data; channel 0 without data receives the position's XY placeholder; other channels receive nothing |
| StaticMeshBuilder.EmitAllFaces | ExodusImport/Source/ExodusImport/Private/MeshBuilder/StaticMesh.cpp:150-153 | a face material index and a zero smoothing mask are appended once per triangle, for the corner with index divisible by 3, which is the first of the triangle's corners to be processed (the order is t, t+2, t+1) |
| StaticMeshBuilder.ProcessTrianglesEmits | ExodusImport/Source/ExodusImport/Private/MeshBuilder/StaticMesh.cpp:156-160 | the triangle loop processes the corners t, t+2, t+1 of each triangle, in order |
| StaticMeshBuilder.ProcessSubMeshesEmits | ExodusImport/Source/ExodusImport/Private/MeshBuilder/StaticMesh.cpp:97-171 | the sub-mesh loop processes every corner of every sub-mesh, sub-mesh by sub-mesh |
| StaticMeshBuilder.SetupEmits | ExodusImport/Source/ExodusImport/Private/MeshBuilder/StaticMesh.cpp:84-171 | setup is the cleared mesh followed by processing all corners in wedge order |
| StaticMeshBuilder.FacesFollowSubMeshes | ExodusImport/Source/ExodusImport/Private/MeshBuilder/StaticMesh.cpp:150-160 | the face stream gives each triangle its sub-mesh index, with three corners per face |
| StaticMeshBuilder.SetupRawMeshStreams | ExodusImport/Source/ExodusImport/Private/MeshBuilder/StaticMesh.cpp:38-171 | after the corrected setup, each stream is exactly what the corners in wedge order produce: positions, wedges, colours, faces, zero smoothing masks and UV channels |
| StaticMeshBuilder.SetupRawMeshCounts | ExodusImport/Source/ExodusImport/Private/MeshBuilder/StaticMesh.cpp:38-171 | one position per float triple; three wedges and one face per triangle; channel 0 always has one UV per wedge and other channels only with data; colours one per wedge or none |
| StaticMeshBuilder.SetupRawMeshWinding | ExodusImport/Source/ExodusImport/Private/MeshBuilder/StaticMesh.cpp:156-160 | triangle (a, b, c) of a sub-mesh becomes wedges a, c, b at that sub-mesh's wedge offset |
| StaticMeshBuilder.CornersWinding | ExodusImport/Source/ExodusImport/Private/MeshBuilder/StaticMesh.cpp:156-160 | the corner order of a triangle is t, t+2, t+1 at its offset |
| StaticMeshBuilder.SetupKeepsLoadedFaces | ExodusImport/Source/ExodusImport/Private/MeshBuilder/StaticMesh.cpp:84-94 | as written, the loaded mesh's face entries stay in front of the new ones |
| StaticMeshBuilder.KeptFacesMismatch | ExodusImport/Source/ExodusImport/Private/MeshBuilder/StaticMesh.cpp:84-94 | as written, a loaded mesh with one face and an empty new mesh give a face with no wedges |
| StaticMeshBuilder.ClearedFacesMatch | ExodusImport/Source/ExodusImport/Private/MeshBuilder/StaticMesh.cpp:84-94 | the corrected setup always has one face entry per three wedges |
| StaticMeshBuilder.SetupRawMesh | ExodusImport/Source/ExodusImport/Private/MeshBuilder/StaticMesh.cpp:38-171 | the corrected setup keeps faces and wedges in step and has one position per float triple |
| StaticMeshBuilder.MeshBuildSettings | ExodusImport/Source/ExodusImport/Private/MeshBuilder/StaticMesh.cpp:191-192 | normals are never recomputed; tangents are recomputed exactly when tangents or normals are missing |
| StaticMeshBuilder.CollisionTraceFlag | ExodusImport/Source/ExodusImport/Private/MeshBuilder/StaticMesh.cpp:216-239 | without a body setup nothing is set; a convex collider uses simple as complex, a triangle collider uses complex as simple, and otherwise, or after a failed build, the flag stays |
| ObjectImport.RegisterImportedObject | ExodusImport/Source/ExodusImport/Private/JsonImporter/Object.cpp:383-389 | a null output list stays null; otherwise an object is appended exactly when it is valid, and the existing entries are kept |
| ObjectImport.RegisterAll | ExodusImport/Source/ExodusImport/Private/JsonImporter/Object.cpp:383-389 | a run of registrations has an output list exactly when it started with one |
| ObjectImport.ValidOnly | ExodusImport/Source/ExodusImport/Private/JsonImporter/Object.cpp:383-389 | the filtered list holds only valid objects |
| ObjectImport.RegisterAllKeepsValid | ExodusImport/Source/ExodusImport/Private/JsonImporter/Object.cpp:383-389 | a run of registrations appends exactly the valid objects, in order |
| ObjectImport.DecideFlags | ExodusImport/Source/ExodusImport/Private/JsonImporter/Object.cpp:127-147 | blank nodes are needed for a prefab instance or when empty transforms are requested; actor nodes are made for a prefab root, a non-prefab object or a parentless object; the root must be an actor exactly when actor nodes are made; without actor nodes blank nodes are always needed |
| ObjectImport.CallOuter | ExodusImport/Source/ExodusImport/Private/JsonImporter/Object.cpp:154-164 | the outer is the existing outer, else the existing root actor, else a blank actor created on first use and reused afterwards |
| ObjectImport.CallOuterIdempotent | ExodusImport/Source/ExodusImport/Private/JsonImporter/Object.cpp:154-164 | a second call returns the same outer and changes nothing |
| ObjectImport.CallOuterNFacts | ExodusImport/Source/ExodusImport/Private/JsonImporter/Object.cpp:150-164 | however many builders ask for the outer, at most one blank actor is created and the other fields never change |
| ObjectImport.SelectRoot | ExodusImport/Source/ExodusImport/Private/JsonImporter/Object.cpp:230-253 | one created object is the root; several make the geometry root or else a blank node the root; none makes a blank node the root when blank nodes are required, the geometry root otherwise |
| ObjectImport.ReparentEdges | ExodusImport/Source/ExodusImport/Private/JsonImporter/Object.cpp:255-266 | every recorded placement puts a valid non-root object under the root |
| ObjectImport.ReparentCovers | ExodusImport/Source/ExodusImport/Private/JsonImporter/Object.cpp:255-266 | an object is placed under the root exactly when it was created, is valid and is not the root |
| ObjectImport.ReparentOnce | ExodusImport/Source/ExodusImport/Private/JsonImporter/Object.cpp:255-266 | distinct created objects are each placed once |
| ObjectImport.Repair | ExodusImport/Source/ExodusImport/Private/JsonImporter/Object.cpp:268-280 | the check fails exactly when the root must be an actor, has none, and no fresh root actor is available or its slot is taken; otherwise an actor root is guaranteed where required |
| ObjectImport.Animate | ExodusImport/Source/ExodusImport/Private/JsonImporter/Object.cpp:355-367 | an animated object that was not registered gets a blank actor under its parent; a registered one changes nothing |
| ObjectImport.ImportObject | ExodusImport/Source/ExodusImport/Private/JsonImporter/Object.cpp:110-370 | with no world the import returns an invalid object and changes nothing; every failure is a failed check |
| ObjectImport.CreatedAreValid | ExodusImport/Source/ExodusImport/Private/JsonImporter/Object.cpp:171-206 | the created list is the valid ones of the geometry root and the builders' objects, in order |
| ObjectImport.ImportRegistersRoot | ExodusImport/Source/ExodusImport/Private/JsonImporter/Object.cpp:255-293 | a valid root is registered under the object's id, the other created objects are placed under it, it is placed under the parent, and it is an actor when it must be |
| ObjectImport.ImportWithoutRoot | ExodusImport/Source/ExodusImport/Private/JsonImporter/Object.cpp:230-300 | without a valid root the registry and placements change only through the animator fallback |
| ObjectImport.NothingCreatedNoRoot | ExodusImport/Source/ExodusImport/Private/JsonImporter/Object.cpp:241-253 | with nothing created and no blank nodes required, the import yields an invalid root |
| ObjectImport.OneCreatedIsRoot | ExodusImport/Source/ExodusImport/Private/JsonImporter/Object.cpp:230-233 | a single created object becomes the root |
| ObjectImport.ImportCreatesFewActors | ExodusImport/Source/ExodusImport/Private/JsonImporter/Object.cpp:150-367 | one import creates at most one blank outer actor, and logs at most two blank actors |
| ObjectImport.OuterAfterInv | ExodusImport/Source/ExodusImport/Private/JsonImporter/Object.cpp:150-164 | after all builders ran, the outer creator's bookkeeping holds and the blank actor is the host's |

## Left out

- Exceptions are modelled as `Failure` results. State that the source mutates before it throws (for example a partly gathered mapper) is not modelled.
- C# and C++ integers are modelled as unbounded. The value counts of the JSON writer and the object ids never approach 32 bits.
- Floating point mesh data is modelled as `real`. Coordinate conversion (`unityPosToUe`) and the `getIdxVector2/3` readers are parameters, because their arithmetic is engine code.
- The platform newline (`AppendLine`) is taken as "\n".
- FastJsonWriter.WriteString: character escaping is not modelled; a string is written between two quotes.
- FastJsonWriter.beginDocument/endDocument are left out, because they are aliases for `beginRawObject`/`endObject`. `getString` is left out too, because it only returns the buffer.
- The typed `writeKeyVal` overloads for values are left out. A value is given as the text its writer produces. `JsonGameObject` field extraction and `resMap.gatherPrefabData` are not part of this model.
- Progress bars, `showGui`, `getSelectedGameObjects`, logging and the prefab lookups in ExportUtility.cs (lines 37-58) are left out. They are editor UI and asset-database queries.
- ObjectMapper.RegisterObject: the `onAddCallback` notification is not modelled, because the callback is foreign code.
- NameClashes.FixNameClashes: dictionary enumeration is taken to be first-insertion order, as .NET's `Dictionary` gives when nothing is removed. `Guid.NewGuid` is a parameter assumed never to repeat a value.
- JsonScene.FromObjects: the `JsonGameObject` constructor is assumed to register nothing with the mapper, so the object count read before construction is the id each object receives. The source re-reads the count at JsonScene.cs lines 47-57. The constructor (JsonGameObject.cs lines 172-175) is not part of this model.
- ExportUtility.WalkHierarchy: the callback is a fixed predicate on objects. Its side effects, and any change of its answer between calls, are not modelled.
- NameClashes.BuildClashTable: `NameClashKey` is not part of this model. It is taken to compare by name and parent id, as a value. The dictionary grouping and the `ContainsKey` retry rely on that equality.
- ObjectImport.Repair: builders that set a root component on the created actor are not modelled. The "slot taken" failure arises only from a root component that the repair itself has set.
- ExportUtility.ConvertComponentsList: the converter is a function of the call count and the component. Its other state (the object and resource maps its callers pass it), its other side effects and its exceptions are not modelled.
- `ResId` and `JsonObjects::isValidId` are not part of this model. Both are taken as "index >= 0 is valid". `getObject`'s `rawId` is taken to be the same index as `objectIndex`.
- StaticMeshBuilder.SetupRawMesh: the tangent and normal streams (`processTangent`) are not modelled. Neither are the host-side steps: LOD setup, lighting-map settings, `Build`, `SaveRawMesh`, material slots, KDop/box collision generation and the validity warnings.
- StaticMeshBuilder.SetupRawMesh: unchecked colour indexing becomes a precondition (`ColorsCover`). The source reads past the colour array on a short mesh, which is undefined behaviour, not a handled error.
- ObjectImport.ImportObject: a parameter stands for what the engine-side calls return. Those calls are the builders (mesh, light, probe, terrain, skinned mesh), `createBlankNode`, `createBlankActor`, folder placement, visibility, instance conversion and `processAnimators`. The builders are assumed to register through `registerImportedObject`, and `processAnimators` is assumed to leave the registry alone. `setObjectHierarchy` is recorded as a placement edge.
- ObjectImport.ImportObject: the empty block at Object.cpp lines 296-300 is left out, because it has no effect. `loadSkeletalMeshById` is left out, because it only looks up an asset.
- `ImportedObject` is not part of this model. It is taken as an optional actor plus an optional component, compared structurally.
- Editor UI and plugin glue are not part of this model: ExporterWindow.cs, JsonImport.cpp, JsonImportStyle.cpp, JsonImportCommands, JsonObjects.cpp, JsonProject.cpp and MaterialBuilder.h.

## Findings

| source | as written | input that shows it | evidently intended | confidence | as-written member | corrected member |
|---|---|---|---|---|---|---|
| ExodusExport/Scripts/Editor/Exporter/ExportUtility.cs:85-88 | the single-object `walkHierarchy` builds an empty queue and never enqueues `obj`, so the callback is never called | any non-null object and any callback: the walk visits nothing | queue `obj` first, as the array overload does for its elements | not executed | ExportUtility.WalkFromObjectVisitsNothing | ExportUtility.WalkHierarchyFromObjectFixed |
| ExodusExport/Scripts/Editor/Exporter/JsonScene.cs:98-102 | the bound check skips ids greater than `objects.Count`, so an id equal to the count reaches `objects[curId.objectIndex]` and throws; the commented-out line above it uses `>=` | two objects named "a" under no parent, the second carrying id 2 | skip ids `>= objects.Count`; with ids that are positions, as `fromObjects` produces, the two agree | not executed | NameClashes.AsWrittenIndexesPastEnd | NameClashes.FixNameClashesRenames |
| ExodusImport/Source/ExodusImport/Private/MeshBuilder/StaticMesh.cpp:84-94 | the wedge, colour and UV streams are emptied before the sub-mesh loop, but the face material and smoothing arrays of the loaded raw mesh are not, so new faces follow the old ones | a loaded raw mesh holding one triangle (three wedges, one face) and a new mesh with no sub-meshes: the result has one face and zero wedges | empty the face arrays too, so that there is one face per three wedges | not executed | StaticMeshBuilder.KeptFacesMismatch | StaticMeshBuilder.ClearedFacesMatch |
