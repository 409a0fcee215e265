/** `JsonScene.fixNameClashes`: objects that share a name under the same
    parent are grouped in list order, the first of each group keeps its
    name, and every later one is flagged and given "name-#i" (with a GUID
    suffix while that name is itself taken under the parent). */
module NameClashes {
  import opened Results
  import opened ObjectMapper
  import opened JsonScene
  import opened GameObjectMapper

  /** `NameClashKey`: a name under a parent id. */
  datatype ClashKey = ClashKey(name: string, parentId: ResId)

  function KeyOf<R>(o: SceneObject<R>): ClashKey {
    ClashKey(o.name, o.parent)
  }

  function KeysOf<R>(objs: seq<SceneObject<R>>): (ks: seq<ClashKey>)
    ensures |ks| == |objs| && forall j :: 0 <= j < |objs| ==> ks[j] == KeyOf(objs[j])
  {
    seq(|objs|, j requires 0 <= j < |objs| => KeyOf(objs[j]))
  }

  /** Everything but the two fields the repair sets is as it was. */
  ghost predicate SameExceptNames<R>(a: SceneObject<R>, b: SceneObject<R>) {
    b == a.(nameClash := b.nameClash, uniqueName := b.uniqueName)
  }

  ghost predicate Frame<R>(a: seq<SceneObject<R>>, b: seq<SceneObject<R>>) {
    |a| == |b| && forall j :: 0 <= j < |a| ==> SameExceptNames(a[j], b[j])
  }

  // ---------------------------------------------------------------------
  // Grouping, as a reference

  /** The positions holding key k, in list order. */
  function Members(ks: seq<ClashKey>, k: ClashKey): seq<nat>
    decreases |ks|
  {
    if ks == [] then []
    else
      var n := |ks| - 1;
      Members(ks[..n], k) + (if ks[n] == k then [n] else [])
  }

  /** Members is the filter it is meant to be: exactly the positions with
      key k, in increasing order. */
  lemma {:induction false} MembersFacts(ks: seq<ClashKey>, k: ClashKey)
    ensures var m := Members(ks, k);
      && (forall t :: 0 <= t < |m| ==> m[t] < |ks| && ks[m[t]] == k)
      && (forall t, u :: 0 <= t < u < |m| ==> m[t] < m[u])
      && (forall j :: 0 <= j < |ks| && ks[j] == k ==> j in m)
      && (k !in ks ==> m == [])
    decreases |ks|
  {
    if ks != [] {
      var n := |ks| - 1;
      MembersFacts(ks[..n], k);
      var mp := Members(ks[..n], k);
      var m := Members(ks, k);
      assert m == mp + (if ks[n] == k then [n] else []);
      forall t | 0 <= t < |m| ensures m[t] < |ks| && ks[m[t]] == k {
        if t < |mp| {
          assert m[t] == mp[t] && ks[..n][mp[t]] == k;
        }
      }
      forall t, u | 0 <= t < u < |m| ensures m[t] < m[u] {
        assert m[t] == mp[t];
        if u < |mp| {
          assert m[u] == mp[u];
        } else {
          assert mp[t] < n;
        }
      }
      forall j | 0 <= j < |ks| && ks[j] == k ensures j in m {
        if j < n {
          assert ks[..n][j] == k;
        }
      }
      if k !in ks {
        assert k !in ks[..n] by {
          forall i | 0 <= i < n ensures ks[..n][i] != k {
            assert ks[..n][i] == ks[i];
          }
        }
      }
    }
  }

  /** How many earlier objects share the object's name and parent. */
  function Rank(ks: seq<ClashKey>, j: nat): nat
    requires j < |ks|
  {
    |Members(ks[..j], ks[j])|
  }

  lemma {:induction false} MembersPrefix(ks: seq<ClashKey>, p: nat, k: ClashKey)
    requires p <= |ks|
    ensures Members(ks[..p], k) <= Members(ks, k)
    decreases |ks|
  {
    if p < |ks| {
      var n := |ks| - 1;
      MembersPrefix(ks[..n], p, k);
      assert ks[..n][..p] == ks[..p];
    } else {
      assert ks[..p] == ks;
    }
  }

  /** An object's rank is its index within its group. */
  lemma RankFinds(ks: seq<ClashKey>, j: nat)
    requires j < |ks|
    ensures Rank(ks, j) < |Members(ks, ks[j])| && Members(ks, ks[j])[Rank(ks, j)] == j
  {
    assert ks[..j + 1][..j] == ks[..j];
    assert Members(ks[..j + 1], ks[j]) == Members(ks[..j], ks[j]) + [j];
    MembersPrefix(ks, j + 1, ks[j]);
  }

  /** The t-th member of a group has rank t. */
  lemma RankOfMember(ks: seq<ClashKey>, k: ClashKey, t: nat)
    requires t < |Members(ks, k)|
    ensures Members(ks, k)[t] < |ks| && Rank(ks, Members(ks, k)[t]) == t
  {
    MembersFacts(ks, k);
    RankFinds(ks, Members(ks, k)[t]);
  }

  // ---------------------------------------------------------------------
  // The dictionary

  /** The `nameClashes` dictionary: keys in the order they were first added
      (the order its enumeration visits them) and the ids listed under each. */
  datatype ClashTable = ClashTable(order: seq<ClashKey>, ids: map<ClashKey, seq<ResId>>)

  ghost predicate TableWellFormed(t: ClashTable) {
    forall k :: k in t.order ==> k in t.ids
  }

  /** The first loop: each object's id appended to the list under its key. */
  function BuildClashTable<R>(objs: seq<SceneObject<R>>): (t: ClashTable)
    ensures forall k :: k in t.order <==> k in t.ids
    ensures forall k :: k in t.ids <==> k in KeysOf(objs)
    ensures NoDuplicates(t.order)
    // keys are enumerated in the order of their first occurrence
    ensures t.order == Fresh([], KeysOf(objs))
    // each key lists the ids of its objects, in list order
    ensures forall k :: k in t.ids ==> t.ids[k] == GroupIds(objs, k)
    decreases |objs|
  {
    if objs == [] then ClashTable([], map[])
    else
      var n := |objs| - 1;
      var t := BuildClashTable(objs[..n]);
      assert KeysOf(objs[..n]) == KeysOf(objs)[..n];
      assert KeysOf(objs) == KeysOf(objs)[..n] + [KeyOf(objs[n])];
      var k := KeyOf(objs[n]);
      FreshSnoc(KeysOf(objs)[..n], k);
      GroupIdsAbsent(objs[..n], k);
      if k in t.ids then ClashTable(t.order, t.ids[k := t.ids[k] + [objs[n].id]])
      else ClashTable(t.order + [k], t.ids[k := [objs[n].id]])
  }

  /** The ids of the objects with key k, in list order. */
  function GroupIds<R>(objs: seq<SceneObject<R>>, k: ClashKey): seq<ResId>
    decreases |objs|
  {
    if objs == [] then []
    else
      var n := |objs| - 1;
      GroupIds(objs[..n], k) + (if KeyOf(objs[n]) == k then [objs[n].id] else [])
  }

  lemma {:induction false} GroupIdsAbsent<R>(objs: seq<SceneObject<R>>, k: ClashKey)
    ensures k !in KeysOf(objs) ==> GroupIds(objs, k) == []
    decreases |objs|
  {
    if objs != [] {
      var n := |objs| - 1;
      GroupIdsAbsent(objs[..n], k);
      assert KeyOf(objs[n]) == KeysOf(objs)[n];
      assert KeysOf(objs[..n]) == KeysOf(objs)[..n];
    }
  }

  /** The ids under a key are those of the objects at its member positions,
      whatever the ids are. */
  lemma {:induction false} GroupIdsAreMembers<R>(objs: seq<SceneObject<R>>, k: ClashKey)
    ensures var g, m := GroupIds(objs, k), Members(KeysOf(objs), k);
            |g| == |m| && forall u :: 0 <= u < |g| ==> m[u] < |objs| && g[u] == objs[m[u]].id
    decreases |objs|
  {
    if objs != [] {
      var n := |objs| - 1;
      var ks := KeysOf(objs);
      GroupIdsAreMembers(objs[..n], k);
      assert KeysOf(objs[..n]) == ks[..n];
      var gp, mp := GroupIds(objs[..n], k), Members(ks[..n], k);
      var g, m := GroupIds(objs, k), Members(ks, k);
      assert m == mp + (if ks[n] == k then [n] else []);
      assert g == gp + (if KeyOf(objs[n]) == k then [objs[n].id] else []);
      forall u | 0 <= u < |g| ensures m[u] < |objs| && g[u] == objs[m[u]].id {
        if u < |gp| {
          assert g[u] == gp[u] && m[u] == mp[u];
          assert objs[..n][mp[u]] == objs[mp[u]];
        }
      }
    }
  }

  /** Position j as an id. */
  function ToIds(m: seq<nat>): (ids: seq<ResId>)
    ensures |ids| == |m| && forall t :: 0 <= t < |m| ==> ids[t] == ResId(m[t])
  {
    seq(|m|, t requires 0 <= t < |m| => ResId(m[t]))
  }

  /** When ids are positions, the list under each key is its group. */
  lemma {:induction false} ClashTableGroups<R>(objs: seq<SceneObject<R>>)
    requires WellIndexed(objs)
    ensures var t := BuildClashTable(objs);
            forall k :: k in t.ids ==> t.ids[k] == ToIds(Members(KeysOf(objs), k))
    decreases |objs|
  {
    if objs != [] {
      var n := |objs| - 1;
      var p := objs[..n];
      var ks, kp := KeysOf(objs), KeysOf(p);
      ClashTableGroups(p);
      assert kp == ks[..n];
      var tp, t := BuildClashTable(p), BuildClashTable(objs);
      var k0 := ks[n];
      assert objs[n].id == ResId(n);
      assert t == if k0 in tp.ids then ClashTable(tp.order, tp.ids[k0 := tp.ids[k0] + [ResId(n)]])
                  else ClashTable(tp.order + [k0], tp.ids[k0 := [ResId(n)]]);
      forall k | k in t.ids ensures t.ids[k] == ToIds(Members(ks, k)) {
        GroupSnoc(ks, n, k, if k in tp.ids then tp.ids[k] else []);
      }
    }
  }

  /** The list under a key after the last object is added. */
  lemma GroupSnoc(ks: seq<ClashKey>, n: nat, k: ClashKey, before: seq<ResId>)
    requires n == |ks| - 1
    requires k in ks[..n] ==> before == ToIds(Members(ks[..n], k))
    requires k !in ks[..n] ==> before == []
    ensures k == ks[n] ==> before + [ResId(n)] == ToIds(Members(ks, k))
    ensures k != ks[n] && k in ks[..n] ==> before == ToIds(Members(ks, k))
  {
    var m := Members(ks[..n], k);
    assert Members(ks, k) == m + (if ks[n] == k then [n] else []);
    MembersFacts(ks[..n], k);
    ToIdsSnoc(m, n);
  }

  lemma ToIdsSnoc(m: seq<nat>, n: nat)
    ensures ToIds(m + [n]) == ToIds(m) + [ResId(n)]
  {
  }

  // ---------------------------------------------------------------------
  // New names

  function DigitChar(d: nat): char
    requires d < 10
  {
    "0123456789"[d]
  }

  /** `int.ToString()` of a non-negative number. */
  function NatToString(n: nat): string
    decreases n
  {
    if n < 10 then [DigitChar(n)] else NatToString(n / 10) + [DigitChar(n % 10)]
  }

  /** `string.Format("{0}-#{1}", name, i)`. */
  function AltName(name: string, i: nat): string {
    name + "-#" + NatToString(i)
  }

  /** `string.Format("{0}-#{1}({2})", name, i, guid)`. */
  function GuidName(name: string, i: nat, guid: string): string {
    AltName(name, i) + "(" + guid + ")"
  }

  /** `Guid.NewGuid()` as a stream: the n-th call returns guid(n), and no
      two calls return the same text. */
  ghost predicate GuidsUnique(guid: nat -> string) {
    forall a: nat, b: nat :: a != b ==> guid(a) != guid(b)
  }

  lemma GuidNameInjective(name: string, i: nat, g1: string, g2: string)
    ensures g1 != g2 ==> GuidName(name, i, g1) != GuidName(name, i, g2)
  {
    var p := AltName(name, i) + "(";
    if GuidName(name, i, g1) == GuidName(name, i, g2) {
      assert |g1| == |g2|;
      assert g1 == (p + g1 + ")")[|p|..|p| + |g1|];
      assert g2 == (p + g2 + ")")[|p|..|p| + |g2|];
    }
  }

  /** The key the j-th GUID candidate would have. */
  function Candidate(key: ClashKey, i: nat, guid: nat -> string, j: nat): ClashKey {
    ClashKey(GuidName(key.name, i, guid(j)), key.parentId)
  }

  /** The candidates from GUID calls next .. next + k - 1 were all taken. */
  ghost predicate AllTaken(keys: set<ClashKey>, key: ClashKey, i: nat, guid: nat -> string, next: nat, k: nat) {
    forall j: nat :: next <= j < next + k ==> Candidate(key, i, guid, j) in keys
  }

  /** Distinct GUIDs give distinct candidates, so at most |keys| of them
      can be taken: the retry loop ends. */
  lemma {:induction false} TakenBound(keys: set<ClashKey>, key: ClashKey, i: nat, guid: nat -> string,
                                      next: nat, k: nat)
    requires GuidsUnique(guid) && AllTaken(keys, key, i, guid, next, k)
    ensures k <= |keys|
    decreases k
  {
    if k > 0 {
      var last := next + k - 1;
      var c := Candidate(key, i, guid, last);
      assert c in keys;
      forall j: nat | next <= j < next + k - 1 ensures Candidate(key, i, guid, j) in keys - {c} {
        assert guid(j) != guid(last);
        GuidNameInjective(key.name, i, guid(j), guid(last));
        assert Candidate(key, i, guid, j) in keys;
      }
      TakenBound(keys - {c}, key, i, guid, next, k - 1);
    }
  }

  /** The `while` loop after its first k rounds: draw GUIDs until the
      candidate is free. Returns the name and the next unused GUID call. */
  function RetryGuid(keys: set<ClashKey>, key: ClashKey, i: nat, guid: nat -> string,
                     next: nat, k: nat): (r: (string, nat))
    requires GuidsUnique(guid) && AllTaken(keys, key, i, guid, next, k)
    ensures ClashKey(r.0, key.parentId) !in keys
    ensures next + k < r.1 && r.0 == GuidName(key.name, i, guid(r.1 - 1))
    decreases |keys| - k
  {
    TakenBound(keys, key, i, guid, next, k);
    if Candidate(key, i, guid, next + k) !in keys then (GuidName(key.name, i, guid(next + k)), next + k + 1)
    else RetryGuid(keys, key, i, guid, next, k + 1)
  }

  /** The name given to the i-th member of a group: "name-#i" when that is
      free under the parent, a GUID-suffixed variant otherwise. */
  function PickName(keys: set<ClashKey>, key: ClashKey, i: nat, guid: nat -> string, next: nat)
    : (r: (string, nat))
    requires GuidsUnique(guid)
    ensures ClashKey(r.0, key.parentId) !in keys
    ensures AltName(key.name, i) <= r.0
    ensures ClashKey(AltName(key.name, i), key.parentId) !in keys ==> r.0 == AltName(key.name, i)
    ensures ClashKey(AltName(key.name, i), key.parentId) in keys ==> exists g :: r.0 == GuidName(key.name, i, g)
    ensures next <= r.1
    // a free "name-#i" draws no GUID; otherwise the suffix is the last GUID drawn
    ensures ClashKey(AltName(key.name, i), key.parentId) !in keys ==> r.1 == next
    ensures ClashKey(AltName(key.name, i), key.parentId) in keys ==>
              next < r.1 && r.0 == GuidName(key.name, i, guid(r.1 - 1))
  {
    if ClashKey(AltName(key.name, i), key.parentId) !in keys then (AltName(key.name, i), next)
    else
      var r := RetryGuid(keys, key, i, guid, next, 0);
      assert r.0 == AltName(key.name, i) + ("(" + guid(r.1 - 1) + ")");
      r
  }

  // ---------------------------------------------------------------------
  // The second loop

  /** The id check before the indexer. As written it skips an invalid id or
      one greater than the count, letting an id equal to the count through;
      the corrected check skips one greater than or equal to it. */
  datatype Guard = AsWritten | Corrected

  predicate Admits(g: Guard, id: ResId, count: nat) {
    id.IsValid() && (if g.AsWritten? then id.objectIndex <= count else id.objectIndex < count)
  }

  /** One round of the inner `for`: the i-th id of the group. */
  function FixMember<R>(g: Guard, objs: seq<SceneObject<R>>, keys: set<ClashKey>, key: ClashKey,
                        i: nat, id: ResId, guid: nat -> string, next: nat)
    : (r: Result<(seq<SceneObject<R>>, nat)>)
    requires GuidsUnique(guid)
    ensures r.Failure? <==> Admits(g, id, |objs|) && id.objectIndex == |objs|
    ensures r.Failure? ==> r.error == IndexOutOfRange
    ensures r.Success? ==> Frame(objs, r.value.0)
  {
    if !Admits(g, id, |objs|) then Success((objs, next))
    else if id.objectIndex == |objs| then Failure(IndexOutOfRange)
    else
      var p := PickName(keys, key, i, guid, next);
      Success((objs[id.objectIndex := objs[id.objectIndex].(nameClash := true, uniqueName := p.0)], p.1))
  }

  /** The inner `for` from index i on. */
  function FixGroup<R>(g: Guard, objs: seq<SceneObject<R>>, keys: set<ClashKey>, key: ClashKey,
                       ids: seq<ResId>, i: nat, guid: nat -> string, next: nat)
    : (r: Result<(seq<SceneObject<R>>, nat)>)
    requires GuidsUnique(guid)
    ensures g.Corrected? ==> r.Success?
    ensures r.Failure? ==> r.error == IndexOutOfRange
    ensures r.Success? ==> Frame(objs, r.value.0)
    decreases |ids| - i
  {
    if i >= |ids| then Success((objs, next))
    else
      match FixMember(g, objs, keys, key, i, ids[i], guid, next)
      case Failure(e) => Failure(e)
      case Success(s) => FixGroup(g, s.0, keys, key, ids, i + 1, guid, s.1)
  }

  /** The `foreach` over the dictionary from entry q on; groups of one are
      skipped. */
  function FixAll<R>(g: Guard, objs: seq<SceneObject<R>>, t: ClashTable, keys: set<ClashKey>,
                     q: nat, guid: nat -> string, next: nat)
    : (r: Result<(seq<SceneObject<R>>, nat)>)
    requires GuidsUnique(guid) && TableWellFormed(t)
    ensures g.Corrected? ==> r.Success?
    ensures r.Failure? ==> r.error == IndexOutOfRange
    ensures r.Success? ==> Frame(objs, r.value.0)
    decreases |t.order| - q
  {
    if q >= |t.order| then Success((objs, next))
    else
      var key := t.order[q];
      var ids := t.ids[key];
      var step := if |ids| <= 1 then Success((objs, next)) else FixGroup(g, objs, keys, key, ids, 1, guid, next);
      match step
      case Failure(e) => Failure(e)
      case Success(s) => FixAll(g, s.0, t, keys, q + 1, guid, s.1)
  }

  /** `fixNameClashes` with the given id check; an index the check lets
      through past the end throws. */
  function FixNameClashesWith<R>(g: Guard, objs: seq<SceneObject<R>>, guid: nat -> string)
    : (r: Result<seq<SceneObject<R>>>)
    requires GuidsUnique(guid)
    ensures g.Corrected? ==> r.Success?
    ensures r.Failure? ==> r.error == IndexOutOfRange
    ensures r.Success? ==> Frame(objs, r.value)
  {
    var t := BuildClashTable(objs);
    match FixAll(g, objs, t, t.ids.Keys, 0, guid, 0)
    case Failure(e) => Failure(e)
    case Success(s) => Success(s.0)
  }

  /** `fixNameClashes` as written. */
  function FixNameClashesAsWritten<R>(objs: seq<SceneObject<R>>, guid: nat -> string)
    : (r: Result<seq<SceneObject<R>>>)
    requires GuidsUnique(guid)
    ensures r.Failure? ==> r.error == IndexOutOfRange
    ensures r.Success? ==> Frame(objs, r.value)
  {
    FixNameClashesWith(AsWritten, objs, guid)
  }

  /** `fixNameClashes` with the bound check the commented-out line intends. */
  function FixNameClashes<R>(objs: seq<SceneObject<R>>, guid: nat -> string)
    : (r: Result<seq<SceneObject<R>>>)
    requires GuidsUnique(guid)
    ensures r.Success? && Frame(objs, r.value)
  {
    FixNameClashesWith(Corrected, objs, guid)
  }

  /** `JsonScene.fixNameClashes` on a scene, with the corrected id check: only
      the objects change. */
  function FixSceneNameClashes<R>(s: Scene<R>, guid: nat -> string): (r: Scene<R>)
    requires GuidsUnique(guid)
    ensures r.name == s.name && r.path == s.path && r.buildIndex == s.buildIndex
    ensures Frame(s.objects, r.objects)
  {
    s.(objects := FixNameClashes(s.objects, guid).value)
  }

  // ---------------------------------------------------------------------
  // What the repair does

  /** The object was flagged and named "name-#rank" when that name is free
      under its parent, or "name-#rank(guid)" for some GUID otherwise; either
      way the new name's key is not in the dictionary. */
  ghost predicate Renamed<R>(o: SceneObject<R>, r: SceneObject<R>, rank: nat, keys: set<ClashKey>) {
    && SameExceptNames(o, r)
    && r.nameClash
    && AltName(o.name, rank) <= r.uniqueName
    && (ClashKey(AltName(o.name, rank), o.parent) !in keys ==> r.uniqueName == AltName(o.name, rank))
    && (ClashKey(AltName(o.name, rank), o.parent) in keys ==> exists g :: r.uniqueName == GuidName(o.name, rank, g))
    && ClashKey(r.uniqueName, o.parent) !in keys
  }

  lemma {:induction false} FixGroupRenames<R>(g: Guard, objs: seq<SceneObject<R>>, keys: set<ClashKey>,
                                              key: ClashKey, m: seq<nat>, i: nat,
                                              guid: nat -> string, next: nat)
    requires GuidsUnique(guid) && i <= |m|
    requires forall t, u :: 0 <= t < u < |m| ==> m[t] < m[u]
    requires forall t :: 0 <= t < |m| ==> m[t] < |objs| && KeyOf(objs[m[t]]) == key
    ensures var r := FixGroup(g, objs, keys, key, ToIds(m), i, guid, next);
      && r.Success?
      && (forall t :: i <= t < |m| ==> Renamed(objs[m[t]], r.value.0[m[t]], t, keys))
      && (forall j :: 0 <= j < |objs| && j !in m[i..] ==> r.value.0[j] == objs[j])
    decreases |m| - i
  {
    if i < |m| {
      var ids := ToIds(m);
      var x := m[i];
      var p := PickName(keys, key, i, guid, next);
      var objs1 := objs[x := objs[x].(nameClash := true, uniqueName := p.0)];
      assert FixMember(g, objs, keys, key, i, ids[i], guid, next) == Success((objs1, p.1));
      FixGroupRenames(g, objs1, keys, key, m, i + 1, guid, p.1);
      var r := FixGroup(g, objs, keys, key, ids, i, guid, next);
      assert r == FixGroup(g, objs1, keys, key, ids, i + 1, guid, p.1);
      forall t | i <= t < |m| ensures Renamed(objs[m[t]], r.value.0[m[t]], t, keys) {
        if t == i {
          assert x !in m[i + 1..];
        }
      }
      forall j | 0 <= j < |objs| && j !in m[i..] ensures r.value.0[j] == objs[j] {
        assert j != x && j !in m[i + 1..];
      }
    }
  }

  /** The dictionary loop from entry q on, over objects whose keys are ks:
      an object of a visited group with rank at least 1 is renamed, every
      other object is left alone. */
  lemma {:induction false} FixAllRenames<R>(g: Guard, objs: seq<SceneObject<R>>, t: ClashTable,
                                            keys: set<ClashKey>, q: nat, guid: nat -> string,
                                            next: nat, ks: seq<ClashKey>)
    requires GuidsUnique(guid) && TableWellFormed(t) && q <= |t.order|
    requires KeysOf(objs) == ks && NoDuplicates(t.order)
    requires forall k :: k in t.ids ==> t.ids[k] == ToIds(Members(ks, k))
    ensures var r := FixAll(g, objs, t, keys, q, guid, next);
      && r.Success?
      && (forall j :: 0 <= j < |objs| && ks[j] in t.order[q..] && Rank(ks, j) >= 1 ==>
            Renamed(objs[j], r.value.0[j], Rank(ks, j), keys))
      && (forall j :: 0 <= j < |objs| && !(ks[j] in t.order[q..] && Rank(ks, j) >= 1) ==>
            r.value.0[j] == objs[j])
    decreases |t.order| - q
  {
    if q < |t.order| {
      var key := t.order[q];
      var objs1, next1 := GroupEffect(g, objs, keys, key, t.ids[key], guid, next, ks);
      assert FixAll(g, objs, t, keys, q, guid, next) == FixAll(g, objs1, t, keys, q + 1, guid, next1);
      FixAllRenames(g, objs1, t, keys, q + 1, guid, next1, ks);
      var r := FixAll(g, objs1, t, keys, q + 1, guid, next1).value.0;
      SliceCons(t.order, q);
      CombineGroups(objs, objs1, r, keys, key, t.order[q + 1..], ks);
    }
  }

  lemma SliceCons<T>(s: seq<T>, q: nat)
    requires q < |s|
    ensures s[q..] == [s[q]] + s[q + 1..]
  {
  }

  /** One group, then the rest of the entries: the effects compose because a
      key is visited once. */
  lemma CombineGroups<R>(objs: seq<SceneObject<R>>, objs1: seq<SceneObject<R>>, r: seq<SceneObject<R>>,
                         keys: set<ClashKey>, key: ClashKey, rest: seq<ClashKey>, ks: seq<ClashKey>)
    requires |ks| == |objs| == |objs1| == |r| && key !in rest
    requires forall j :: 0 <= j < |objs| && ks[j] == key && Rank(ks, j) >= 1 ==>
               Renamed(objs[j], objs1[j], Rank(ks, j), keys)
    requires forall j :: 0 <= j < |objs| && !(ks[j] == key && Rank(ks, j) >= 1) ==> objs1[j] == objs[j]
    requires forall j :: 0 <= j < |objs| && ks[j] in rest && Rank(ks, j) >= 1 ==>
               Renamed(objs1[j], r[j], Rank(ks, j), keys)
    requires forall j :: 0 <= j < |objs| && !(ks[j] in rest && Rank(ks, j) >= 1) ==> r[j] == objs1[j]
    ensures forall j :: 0 <= j < |objs| && ks[j] in [key] + rest && Rank(ks, j) >= 1 ==>
              Renamed(objs[j], r[j], Rank(ks, j), keys)
    ensures forall j :: 0 <= j < |objs| && !(ks[j] in [key] + rest && Rank(ks, j) >= 1) ==> r[j] == objs[j]
  {
  }

  /** One entry of the dictionary loop: the group's members of rank at least
      1 are renamed, nothing else changes. */
  lemma GroupEffect<R>(g: Guard, objs: seq<SceneObject<R>>, keys: set<ClashKey>, key: ClashKey,
                       ids: seq<ResId>, guid: nat -> string, next: nat, ks: seq<ClashKey>)
    returns (objs1: seq<SceneObject<R>>, next1: nat)
    requires GuidsUnique(guid) && KeysOf(objs) == ks && ids == ToIds(Members(ks, key))
    ensures (if |ids| <= 1 then Success((objs, next)) else FixGroup(g, objs, keys, key, ids, 1, guid, next))
         == Success((objs1, next1))
    ensures KeysOf(objs1) == ks
    ensures forall j :: 0 <= j < |objs| && ks[j] == key && Rank(ks, j) >= 1 ==>
              Renamed(objs[j], objs1[j], Rank(ks, j), keys)
    ensures forall j :: 0 <= j < |objs| && !(ks[j] == key && Rank(ks, j) >= 1) ==> objs1[j] == objs[j]
  {
    var m := Members(ks, key);
    MembersFacts(ks, key);
    if |ids| <= 1 {
      objs1, next1 := objs, next;
    } else {
      FixGroupRenames(g, objs, keys, key, m, 1, guid, next);
      var s := FixGroup(g, objs, keys, key, ids, 1, guid, next).value;
      objs1, next1 := s.0, s.1;
      assert Later(m) == m[1..];
    }
    assert KeysOf(objs1) == ks;
    RenamedByRank(objs, objs1, keys, key, ks);
    UnchangedOutsideGroup(objs, objs1, key, ks);
  }

  /** Group members renamed by their index within the group are renamed by
      their rank. */
  lemma RenamedByRank<R>(objs: seq<SceneObject<R>>, objs1: seq<SceneObject<R>>, keys: set<ClashKey>,
                         key: ClashKey, ks: seq<ClashKey>)
    requires KeysOf(objs) == ks && |objs1| == |objs|
    requires var m := Members(ks, key);
      forall t :: 1 <= t < |m| ==> m[t] < |objs| && Renamed(objs[m[t]], objs1[m[t]], t, keys)
    ensures forall j :: 0 <= j < |objs| && ks[j] == key && Rank(ks, j) >= 1 ==>
              Renamed(objs[j], objs1[j], Rank(ks, j), keys)
  {
    forall j | 0 <= j < |objs| && ks[j] == key && Rank(ks, j) >= 1
      ensures Renamed(objs[j], objs1[j], Rank(ks, j), keys)
    {
      RankFinds(ks, j);
    }
  }

  /** Objects outside the group's later members are untouched. */
  lemma UnchangedOutsideGroup<R>(objs: seq<SceneObject<R>>, objs1: seq<SceneObject<R>>,
                                 key: ClashKey, ks: seq<ClashKey>)
    requires KeysOf(objs) == ks && |objs1| == |objs|
    requires forall j :: 0 <= j < |objs| && j !in Later(Members(ks, key)) ==> objs1[j] == objs[j]
    ensures forall j :: 0 <= j < |objs| && !(ks[j] == key && Rank(ks, j) >= 1) ==> objs1[j] == objs[j]
  {
    var m := Members(ks, key);
    MembersFacts(ks, key);
    forall j | 0 <= j < |objs| && !(ks[j] == key && Rank(ks, j) >= 1) ensures objs1[j] == objs[j] {
      RankFinds(ks, j);
      if ks[j] == key {
        assert j == m[0];
        assert j !in m[1..];
      } else {
        assert j !in m;
      }
    }
  }

  /** A group's members after its first. */
  function Later(m: seq<nat>): seq<nat> {
    if m == [] then [] else m[1..]
  }

  /** The repair, object by object: an object with no earlier namesake
      under the same parent is untouched; the one with rank r is flagged
      and named "name-#r", or that with a GUID suffix, and the new name is
      not an existing name under the parent. */
  lemma FixNameClashesRenames<R>(objs: seq<SceneObject<R>>, guid: nat -> string)
    requires WellIndexed(objs) && GuidsUnique(guid)
    ensures var r := FixNameClashes(objs, guid).value; var ks := KeysOf(objs);
      && |r| == |objs|
      && (forall j :: 0 <= j < |objs| && Rank(ks, j) == 0 ==> r[j] == objs[j])
      && (forall j :: 0 <= j < |objs| && Rank(ks, j) >= 1 ==>
            && SameExceptNames(objs[j], r[j]) && r[j].nameClash
            && AltName(objs[j].name, Rank(ks, j)) <= r[j].uniqueName
            && (ClashKey(AltName(objs[j].name, Rank(ks, j)), objs[j].parent) !in ks ==>
                  r[j].uniqueName == AltName(objs[j].name, Rank(ks, j)))
            && (ClashKey(AltName(objs[j].name, Rank(ks, j)), objs[j].parent) in ks ==>
                  exists g :: r[j].uniqueName == GuidName(objs[j].name, Rank(ks, j), g))
            && ClashKey(r[j].uniqueName, objs[j].parent) !in ks)
  {
    var t := BuildClashTable(objs);
    var ks := KeysOf(objs);
    ClashTableGroups(objs);
    FixAllRenames(Corrected, objs, t, t.ids.Keys, 0, guid, 0, ks);
    assert t.order[0..] == t.order;
    forall j | 0 <= j < |objs| ensures ks[j] in t.order {
      assert ks[j] in ks;
    }
  }

  /** With ids that are positions, the as-written check agrees with the
      corrected one. */
  lemma AsWrittenAgrees<R>(objs: seq<SceneObject<R>>, guid: nat -> string)
    requires WellIndexed(objs) && GuidsUnique(guid)
    ensures FixNameClashesAsWritten(objs, guid) == FixNameClashes(objs, guid)
  {
    var t := BuildClashTable(objs);
    TableIdsInRange(objs);
    AllGuardsAgree(objs, t, t.ids.Keys, 0, guid, 0);
  }

  lemma TableIdsInRange<R>(objs: seq<SceneObject<R>>)
    requires WellIndexed(objs)
    ensures IdsInRange(BuildClashTable(objs), |objs|)
  {
    var t, ks := BuildClashTable(objs), KeysOf(objs);
    ClashTableGroups(objs);
    forall k, u | k in t.ids && 0 <= u < |t.ids[k]| ensures t.ids[k][u].objectIndex < |objs| {
      var m := Members(ks, k);
      MembersFacts(ks, k);
      assert t.ids[k] == ToIds(m);
      assert t.ids[k][u].objectIndex == m[u];
    }
  }

  ghost predicate IdsInRange(t: ClashTable, count: nat) {
    forall k, u :: k in t.ids && 0 <= u < |t.ids[k]| ==> t.ids[k][u].objectIndex < count
  }

  lemma {:induction false} AllGuardsAgree<R>(objs: seq<SceneObject<R>>, t: ClashTable, keys: set<ClashKey>,
                                             q: nat, guid: nat -> string, next: nat)
    requires GuidsUnique(guid) && TableWellFormed(t) && IdsInRange(t, |objs|)
    ensures FixAll(AsWritten, objs, t, keys, q, guid, next) == FixAll(Corrected, objs, t, keys, q, guid, next)
    decreases |t.order| - q
  {
    if q < |t.order| {
      var ids := t.ids[t.order[q]];
      if |ids| > 1 {
        GroupGuardsAgree(objs, keys, t.order[q], ids, 1, guid, next);
        var s := FixGroup(Corrected, objs, keys, t.order[q], ids, 1, guid, next).value;
        AllGuardsAgree(s.0, t, keys, q + 1, guid, s.1);
      } else {
        AllGuardsAgree(objs, t, keys, q + 1, guid, next);
      }
    }
  }

  lemma {:induction false} GroupGuardsAgree<R>(objs: seq<SceneObject<R>>, keys: set<ClashKey>, key: ClashKey,
                                               ids: seq<ResId>, i: nat, guid: nat -> string, next: nat)
    requires GuidsUnique(guid)
    requires forall u :: 0 <= u < |ids| ==> ids[u].objectIndex < |objs|
    ensures FixGroup(AsWritten, objs, keys, key, ids, i, guid, next)
         == FixGroup(Corrected, objs, keys, key, ids, i, guid, next)
    decreases |ids| - i
  {
    if i < |ids| {
      assert Admits(AsWritten, ids[i], |objs|) == Admits(Corrected, ids[i], |objs|);
      var s := FixMember(Corrected, objs, keys, key, i, ids[i], guid, next).value;
      GroupGuardsAgree(s.0, keys, key, ids, i + 1, guid, s.1);
    }
  }

  /** The as-written check lets an id equal to the object count reach the
      indexer: two same-named roots, the second listed with id 2. */
  lemma AsWrittenIndexesPastEnd(guid: nat -> string)
    requires GuidsUnique(guid)
    ensures var a := SceneObject(0, "a", ResId(0), Invalid, false, "");
            var b := SceneObject(1, "a", ResId(2), Invalid, false, "");
            && FixNameClashesAsWritten([a, b], guid) == Failure(IndexOutOfRange)
            && FixNameClashes([a, b], guid) == Success([a, b])
  {
    var a := SceneObject(0, "a", ResId(0), Invalid, false, "");
    var b := SceneObject(1, "a", ResId(2), Invalid, false, "");
    var k := ClashKey("a", Invalid);
    var objs := [a, b];
    assert objs[..1] == [a];
    assert [a][..0] == [];
    var t1 := BuildClashTable([a]);
    assert BuildClashTable(objs[..1]) == t1;
    assert t1 == ClashTable([k], map[k := [ResId(0)]]);
    var t := BuildClashTable(objs);
    assert [ResId(0)] + [ResId(2)] == [ResId(0), ResId(2)];
    assert t.ids == map[k := [ResId(0), ResId(2)]];
    assert t == ClashTable([k], map[k := [ResId(0), ResId(2)]]);
    var ids := [ResId(0), ResId(2)];
    assert FixMember(AsWritten, objs, t.ids.Keys, k, 1, ResId(2), guid, 0) == Failure(IndexOutOfRange);
    assert FixGroup(AsWritten, objs, t.ids.Keys, k, ids, 1, guid, 0) == Failure(IndexOutOfRange);
    assert FixAll(AsWritten, objs, t, t.ids.Keys, 0, guid, 0) == Failure(IndexOutOfRange);
    assert FixMember(Corrected, objs, t.ids.Keys, k, 1, ResId(2), guid, 0) == Success((objs, 0));
    assert FixGroup(Corrected, objs, t.ids.Keys, k, ids, 2, guid, 0) == Success((objs, 0));
    assert FixGroup(Corrected, objs, t.ids.Keys, k, ids, 1, guid, 0) == Success((objs, 0));
    assert FixAll(Corrected, objs, t, t.ids.Keys, 1, guid, 0) == Success((objs, 0));
    assert FixAll(Corrected, objs, t, t.ids.Keys, 0, guid, 0) == Success((objs, 0));
  }
}
