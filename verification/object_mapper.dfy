/** The exporter's id registry (`ObjectMapper<Resource>`): a list of objects
    in registration order and a dictionary from object to its id, kept in
    step so that the id of an object is its position in the list. */
module ObjectMapper {
  import opened Results

  /** `ResId`: a dense object index; `ResId.invalid` carries -1. */
  datatype ResId = ResId(objectIndex: int) {
    predicate IsValid() { objectIndex >= 0 }
  }

  const Invalid: ResId := ResId(-1)

  datatype Registry<R(==)> = Registry(objectList: seq<R>, objectMap: map<R, ResId>)

  /** The result of a registry call that may add an object. */
  datatype Step<R(==)> = Step(reg: Registry<R>, id: ResId)

  /** The class invariant: the i-th listed object maps to id i, and every
      mapped object sits at the position its id names. */
  ghost predicate Consistent<R>(reg: Registry<R>) {
    && (forall i :: 0 <= i < |reg.objectList| ==>
          reg.objectList[i] in reg.objectMap && reg.objectMap[reg.objectList[i]] == ResId(i))
    && (forall x :: x in reg.objectMap ==>
          0 <= reg.objectMap[x].objectIndex < |reg.objectList|
          && reg.objectList[reg.objectMap[x].objectIndex] == x)
  }

  /** No object is listed twice. */
  ghost predicate NoDuplicates<R>(s: seq<R>) {
    forall i, j :: 0 <= i < j < |s| ==> s[i] != s[j]
  }

  function Empty<R(==)>(): (r: Registry<R>)
    ensures Consistent(r) && |r.objectList| == 0
  {
    Registry([], map[])
  }

  function NumObjects<R(==)>(reg: Registry<R>): nat {
    |reg.objectList|
  }

  predicate IsValidObjectId<R(==)>(reg: Registry<R>, id: ResId) {
    0 <= id.objectIndex < |reg.objectList|
  }

  predicate IsValidObjectIndex<R(==)>(reg: Registry<R>, index: int) {
    0 <= index < |reg.objectList|
  }

  /** A consistent registry lists no object twice. */
  lemma ConsistentHasNoDuplicates<R>(reg: Registry<R>)
    requires Consistent(reg)
    ensures NoDuplicates(reg.objectList)
  {
    forall i, j | 0 <= i < j < |reg.objectList| ensures reg.objectList[i] != reg.objectList[j] {
      assert reg.objectMap[reg.objectList[i]] == ResId(i);
    }
  }

  /** A consistent registry has one dictionary entry per listed object. */
  lemma MapSizeIsCount<R>(reg: Registry<R>)
    requires Consistent(reg)
    ensures |reg.objectMap| == |reg.objectList|
  {
    var image := set i | 0 <= i < |reg.objectList| :: reg.objectList[i];
    assert reg.objectMap.Keys == image by {
      forall x | x in reg.objectMap ensures x in image {
        assert reg.objectList[reg.objectMap[x].objectIndex] == x;
      }
    }
    IndexImageCard(reg, |reg.objectList|);
  }

  /** The first n listed objects are n distinct keys. */
  lemma {:induction false} IndexImageCard<R>(reg: Registry<R>, n: nat)
    requires Consistent(reg) && n <= |reg.objectList|
    ensures |set i | 0 <= i < n :: reg.objectList[i]| == n
  {
    if n > 0 {
      var prev := set i | 0 <= i < n - 1 :: reg.objectList[i];
      var all := set i | 0 <= i < n :: reg.objectList[i];
      assert all == prev + {reg.objectList[n - 1]};
      forall k | 0 <= k < n - 1 ensures reg.objectList[k] != reg.objectList[n - 1] {
        assert reg.objectMap[reg.objectList[k]] == ResId(k);
      }
      assert reg.objectList[n - 1] !in prev;
      IndexImageCard(reg, n - 1);
    }
  }

  /** The dictionary's keys are exactly the listed objects. */
  lemma MapKeysAreListed<R>(reg: Registry<R>)
    requires Consistent(reg)
    ensures forall x :: x in reg.objectMap <==> x in reg.objectList
  {
    forall x | x in reg.objectMap ensures x in reg.objectList {
      assert reg.objectList[reg.objectMap[x].objectIndex] == x;
    }
  }

  /** A valid id is exactly an id the registry handed out. */
  lemma ValidIdsAreIssued<R>(reg: Registry<R>, id: ResId)
    requires Consistent(reg)
    ensures IsValidObjectId(reg, id) <==> exists x :: x in reg.objectMap && reg.objectMap[x] == id
  {
    if IsValidObjectId(reg, id) {
      var x := reg.objectList[id.objectIndex];
      assert x in reg.objectMap && reg.objectMap[x] == id;
    }
  }

  /** `addNewObjectInternal`: the new object receives the next dense id and
      is appended to both the list and the dictionary. Adding a key that is
      already present is a logic error. */
  function AddNewObjectInternal<R(==)>(reg: Registry<R>, obj: R): (r: Result<Step<R>>)
    requires Consistent(reg)
    ensures r.Failure? <==> obj in reg.objectMap
    ensures r.Failure? ==> r.error == DuplicateRegistration
    ensures r.Success? ==>
      && Consistent(r.value.reg)
      && r.value.id == ResId(|reg.objectList|)
      && r.value.reg.objectList == reg.objectList + [obj]
      && r.value.reg.objectMap.Keys == reg.objectMap.Keys + {obj}
      && (forall x :: x in reg.objectMap ==> r.value.reg.objectMap[x] == reg.objectMap[x])
  {
    if obj in reg.objectMap then Failure(DuplicateRegistration)
    else
      var id := ResId(|reg.objectList|);
      Success(Step(Registry(reg.objectList + [obj], reg.objectMap[obj := id]), id))
  }

  /** `getId(obj, createMissing, onAddCallback, throwIfMissing, throwIfExists)`. */
  function GetIdFull<R(==)>(reg: Registry<R>, obj: Option<R>, createMissing: bool,
                            throwIfMissing: bool, throwIfExists: bool): (r: Result<Step<R>>)
    requires Consistent(reg)
    // the call fails exactly when a flag asks it to
    ensures r.Failure? <==>
      obj.Some? && ((obj.value in reg.objectMap && throwIfExists)
                    || (obj.value !in reg.objectMap && !createMissing && throwIfMissing))
    ensures r.Failure? ==> r.error == (if obj.value in reg.objectMap then AlreadyExists else NotFound)
    ensures r.Success? ==> Consistent(r.value.reg)
    // an invalid id comes back only for null, or for a missing object that may not be created
    ensures r.Success? ==>
      (!r.value.id.IsValid() <==> obj.None? || (obj.value !in reg.objectMap && !createMissing))
    // a valid id names the object it was asked for
    ensures r.Success? && r.value.id.IsValid() ==>
      obj.Some? && IsValidObjectId(r.value.reg, r.value.id)
      && r.value.reg.objectList[r.value.id.objectIndex] == obj.value
    // the state changes only by appending a new object
    ensures r.Success? && r.value.reg != reg ==>
      obj.Some? && obj.value !in reg.objectMap && createMissing
      && r.value.reg.objectList == reg.objectList + [obj.value]
    ensures r.Success? && r.value.reg == reg ==> obj.None? || obj.value in reg.objectMap || !createMissing
  {
    if obj.None? then Success(Step(reg, Invalid))
    else if obj.value in reg.objectMap then
      if throwIfExists then Failure(AlreadyExists) else Success(Step(reg, reg.objectMap[obj.value]))
    else if !createMissing then
      if throwIfMissing then Failure(NotFound) else Success(Step(reg, Invalid))
    else AddNewObjectInternal(reg, obj.value)
  }

  /** `getId(obj)`: look the object up, registering it if it is new. */
  function GetId<R(==)>(reg: Registry<R>, obj: Option<R>): (s: Step<R>)
    requires Consistent(reg)
    ensures Consistent(s.reg)
    ensures s.id.IsValid() <==> obj.Some?
    ensures obj.Some? ==> obj.value in s.reg.objectMap && s.reg.objectMap[obj.value] == s.id
    ensures obj.Some? && obj.value in reg.objectMap ==> s == Step(reg, reg.objectMap[obj.value])
    ensures obj.Some? && obj.value !in reg.objectMap ==>
      s.id == ResId(|reg.objectList|) && s.reg.objectList == reg.objectList + [obj.value]
    ensures obj.None? ==> s == Step(reg, Invalid)
  {
    var r := GetIdFull(reg, obj, true, false, false);
    assert r.Success?;
    r.value
  }

  /** `registerObject(obj)`: the same lookup-or-create call as `getId(obj)`,
      plus a notification callback that this model leaves out. */
  function RegisterObject<R(==)>(reg: Registry<R>, obj: Option<R>): (s: Step<R>)
    requires Consistent(reg)
    ensures s == GetId(reg, obj)
    ensures Consistent(s.reg) && (obj.Some? ==> s.reg.objectList[s.id.objectIndex] == obj.value)
  {
    var r := GetIdFull(reg, obj, true, false, false);
    assert r.Success?;
    r.value
  }

  /** `findId(obj)`: a lookup that never creates. */
  function FindId<R(==)>(reg: Registry<R>, obj: Option<R>): (id: ResId)
    requires Consistent(reg)
    ensures id.IsValid() <==> obj.Some? && obj.value in reg.objectMap
    ensures id.IsValid() ==> IsValidObjectId(reg, id) && reg.objectList[id.objectIndex] == obj.value
    ensures !id.IsValid() ==> id == Invalid
  {
    var r := GetIdFull(reg, obj, false, false, false);
    assert r.Success?;
    r.value.id
  }

  /** `hasObject(obj)`. */
  function HasObject<R(==)>(reg: Registry<R>, obj: Option<R>): (b: bool)
    requires Consistent(reg)
    ensures b <==> obj.Some? && obj.value in reg.objectList
  {
    FindId(reg, obj).IsValid()
  }

  /** `getObject(id)`: the object an id names; an id outside the list is an
      argument error. The model reads `rawId` and `objectIndex` as the one
      index a `ResId` carries. */
  function GetObject<R(==)>(reg: Registry<R>, id: ResId): (r: Result<R>)
    requires Consistent(reg)
    ensures r.Success? <==> IsValidObjectId(reg, id)
    ensures r.Failure? ==> r.error == InvalidArgument
    // the id the registry reports for the result is the id asked for
    ensures r.Success? ==> FindId(reg, Some(r.value)) == id
  {
    if !IsValidObjectId(reg, id) then Failure(InvalidArgument)
    else Success(reg.objectList[id.objectIndex])
  }

  /** `getObjectByIndex(index)`. */
  function GetObjectByIndex<R(==)>(reg: Registry<R>, index: int): (r: Result<R>)
    requires Consistent(reg)
    ensures r.Success? <==> IsValidObjectIndex(reg, index)
    ensures r.Failure? ==> r.error == InvalidArgument
    ensures r.Success? ==> FindId(reg, Some(r.value)) == ResId(index)
  {
    if index < 0 || index >= |reg.objectList| then Failure(InvalidArgument)
    else Success(reg.objectList[index])
  }

  /** Looking an object up after `getId` returned its id gives the id back. */
  lemma FindAfterGetId<R>(reg: Registry<R>, obj: R)
    requires Consistent(reg)
    ensures var s := GetId(reg, Some(obj));
            FindId(s.reg, Some(obj)) == s.id && GetObject(s.reg, s.id) == Success(obj)
  {
  }

  /** `getId` is idempotent: a second call returns the same id and changes
      nothing. */
  lemma GetIdIdempotent<R>(reg: Registry<R>, obj: Option<R>)
    requires Consistent(reg)
    ensures var s := GetId(reg, obj);
            GetId(s.reg, obj) == s
  {
  }

  /** Re-registering with `throwIfExists` fails; looking up an unknown object
      without `createMissing` leaves the registry as it was. */
  lemma FlagsOnKnownAndUnknown<R>(reg: Registry<R>, obj: R)
    requires Consistent(reg)
    ensures var s := GetId(reg, Some(obj));
            GetIdFull(s.reg, Some(obj), true, false, true) == Failure(AlreadyExists)
    ensures obj !in reg.objectMap ==>
      GetIdFull(reg, Some(obj), false, false, false) == Success(Step(reg, Invalid))
      && GetIdFull(reg, Some(obj), false, true, false) == Failure(NotFound)
  {
  }
}
