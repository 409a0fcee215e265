/** `MeshBuilder::setupStaticMesh`: a Unity mesh's flat arrays turned into
    the raw mesh Unreal builds from. Vertex positions come in threes; each
    sub-mesh's triangles become wedges with the winding reversed, one UV per
    wedge and channel, an optional colour per wedge, and one face entry per
    triangle. */
module StaticMeshBuilder {
  import opened Results

  /** The number of UV channels read from the mesh and kept on the raw mesh. */
  const MaxUvs: nat := 8

  type Byte = b: int | 0 <= b < 256

  datatype Vec2 = Vec2(x: real, y: real)
  datatype Vec3 = Vec3(x: real, y: real, z: real)
  datatype Color = Color(r: Byte, g: Byte, b: Byte, a: Byte)

  datatype SubMesh = SubMesh(triangles: seq<int>)

  /** `JsonMesh`: flat float arrays, one RGBA byte quadruple per vertex,
      up to eight UV channels (a channel past the end counts as empty), the
      sub-meshes and the collider flags. */
  datatype JsonMesh = JsonMesh(
    verts: seq<real>, normals: seq<real>, tangents: seq<real>, colors: seq<Byte>,
    uvs: seq<seq<real>>, subMeshes: seq<SubMesh>,
    convexCollider: bool, triangleCollider: bool)

  /** Host helpers: `unityPosToUe` and the `getIdxVector2/3` readers of the
      index-th pair or triple of a float array. */
  datatype Host = Host(
    toUe: Vec3 -> Vec3,
    idx2: (seq<real>, int) -> Vec2,
    idx3: (seq<real>, int) -> Vec3)

  /** The eight texture channels of a raw mesh. */
  type Channels = s: seq<seq<Vec2>> | |s| == MaxUvs
    witness [[], [], [], [], [], [], [], []]

  /** `FRawMesh` without its tangent streams. */
  datatype RawMesh = RawMesh(
    vertexPositions: seq<Vec3>, wedgeIndices: seq<int>, wedgeTexCoords: Channels,
    wedgeColors: seq<Color>, faceMaterialIndices: seq<int>, faceSmoothingMasks: seq<int>)

  function NoChannels(): (c: Channels)
    ensures forall ch :: 0 <= ch < MaxUvs ==> c[ch] == []
  {
    [[], [], [], [], [], [], [], []]
  }

  // ---------------------------------------------------------------------
  // Vertex positions

  /** The vertex loop from float triple j on: while a whole triple is left,
      convert it and append it. */
  function VertexPositions(verts: seq<real>, toUe: Vec3 -> Vec3, j: nat): (ps: seq<Vec3>)
    requires j <= |verts| / 3
    ensures |ps| == |verts| / 3 - j
    ensures forall u :: 0 <= u < |ps| ==>
      ps[u] == toUe(Vec3(verts[3 * (j + u)], verts[3 * (j + u) + 1], verts[3 * (j + u) + 2]))
    decreases |verts| - 3 * j
  {
    if 3 * j + 2 < |verts| then
      [toUe(Vec3(verts[3 * j], verts[3 * j + 1], verts[3 * j + 2]))] + VertexPositions(verts, toUe, j + 1)
    else []
  }

  // ---------------------------------------------------------------------
  // One wedge

  /** A triangle corner: sub-mesh index and position in its index array. */
  datatype Corner = Corner(sub: nat, k: nat)

  predicate ValidCorner(mesh: JsonMesh, c: Corner) {
    c.sub < |mesh.subMeshes| && c.k < |mesh.subMeshes[c.sub].triangles|
  }

  /** The vertex index a corner refers to. */
  function Orig(mesh: JsonMesh, c: Corner): int
    requires ValidCorner(mesh, c)
  {
    mesh.subMeshes[c.sub].triangles[c.k]
  }

  function HasUv(mesh: JsonMesh, ch: nat): bool {
    ch < |mesh.uvs| && |mesh.uvs[ch]| != 0
  }

  function HasColors(mesh: JsonMesh): bool {
    |mesh.colors| > 0
  }

  /** The colour bytes of vertex i are indexed unchecked: they must exist
      whenever the mesh has colours. */
  predicate ColorOk(mesh: JsonMesh, i: int) {
    HasColors(mesh) ==> 0 <= i && 4 * i + 3 < |mesh.colors|
  }

  ghost predicate ColorsCover(mesh: JsonMesh) {
    forall c :: ValidCorner(mesh, c) ==> ColorOk(mesh, Orig(mesh, c))
  }

  function ColorAt(mesh: JsonMesh, i: int): Color
    requires HasColors(mesh) && ColorOk(mesh, i)
  {
    Color(mesh.colors[4 * i], mesh.colors[4 * i + 1], mesh.colors[4 * i + 2], mesh.colors[4 * i + 3])
  }

  /** A stored UV with V flipped: Unity's V runs up, Unreal's down. */
  function FlipV(uv: Vec2): Vec2 {
    Vec2(uv.x, 1.0 - uv.y)
  }

  /** The placeholder UV of a vertex: its raw x and y. */
  function XY(p: Vec3): Vec2 {
    Vec2(p.x, p.y)
  }

  /** What one wedge adds to channel ch: the stored UV with V flipped, or
      for a missing channel 0 the vertex's x and y unflipped, or nothing. */
  function UvOut(mesh: JsonMesh, host: Host, ch: nat, i: int): seq<Vec2> {
    if HasUv(mesh, ch) then [FlipV(host.idx2(mesh.uvs[ch], i))]
    else if ch == 0 then [XY(host.idx3(mesh.verts, i))]
    else []
  }

  function ColorOut(mesh: JsonMesh, i: int): seq<Color>
    requires ColorOk(mesh, i)
  {
    if HasColors(mesh) then [ColorAt(mesh, i)] else []
  }

  function AddUvs(chs: Channels, mesh: JsonMesh, host: Host, i: int): (r: Channels)
    ensures forall ch :: 0 <= ch < MaxUvs ==> r[ch] == chs[ch] + UvOut(mesh, host, ch, i)
  {
    seq(MaxUvs, ch requires 0 <= ch < MaxUvs => chs[ch] + UvOut(mesh, host, ch, i))
  }

  /** A corner inside its sub-mesh whose colour bytes, if any, exist. */
  predicate Good(mesh: JsonMesh, c: Corner) {
    ValidCorner(mesh, c) && ColorOk(mesh, Orig(mesh, c))
  }

  /** `processTriangleIndex`: the wedge index, a UV per channel, a colour,
      and on the first corner of a triangle its face entries. */
  function Emit(raw: RawMesh, mesh: JsonMesh, host: Host, c: Corner): RawMesh
    requires Good(mesh, c)
  {
    var i := Orig(mesh, c);
    var first := c.k % 3 == 0;
    RawMesh(
      raw.vertexPositions,
      raw.wedgeIndices + [i],
      AddUvs(raw.wedgeTexCoords, mesh, host, i),
      raw.wedgeColors + ColorOut(mesh, i),
      raw.faceMaterialIndices + (if first then [c.sub] else []),
      raw.faceSmoothingMasks + (if first then [0] else []))
  }

  ghost predicate AllValid(mesh: JsonMesh, cs: seq<Corner>) {
    forall u :: 0 <= u < |cs| ==> Good(mesh, cs[u])
  }

  /** The corners emitted in turn. */
  function EmitAll(raw: RawMesh, mesh: JsonMesh, host: Host, cs: seq<Corner>): RawMesh
    requires AllValid(mesh, cs)
    decreases |cs|
  {
    if cs == [] then raw
    else Emit(EmitAll(raw, mesh, host, cs[..|cs| - 1]), mesh, host, cs[|cs| - 1])
  }

  // ---------------------------------------------------------------------
  // The loops, as written

  /** The corners of triangle t of sub-mesh s in the order they are
      processed: the first, the third, then the second. */
  function Tri(s: nat, t: nat): seq<Corner> {
    [Corner(s, 3 * t), Corner(s, 3 * t + 2), Corner(s, 3 * t + 1)]
  }

  lemma TriValid(mesh: JsonMesh, s: nat, t: nat)
    requires s < |mesh.subMeshes| && ColorsCover(mesh)
    requires 3 * t + 2 < |mesh.subMeshes[s].triangles|
    ensures AllValid(mesh, Tri(s, t))
  {
    forall u | 0 <= u < 3 ensures Good(mesh, Tri(s, t)[u]) {
    }
  }

  /** The triangle loop of one sub-mesh from triangle t on: while a whole
      triangle is left, its corners in the order of `Tri`. */
  function ProcessTriangles(raw: RawMesh, mesh: JsonMesh, host: Host, s: nat, t: nat): RawMesh
    requires s < |mesh.subMeshes| && ColorsCover(mesh)
    decreases |mesh.subMeshes[s].triangles| - 3 * t
  {
    if 3 * t + 2 < |mesh.subMeshes[s].triangles| then
      TriValid(mesh, s, t);
      ProcessTriangles(EmitAll(raw, mesh, host, Tri(s, t)), mesh, host, s, t + 1)
    else raw
  }

  /** The sub-mesh loop from sub-mesh s on. */
  function ProcessSubMeshes(raw: RawMesh, mesh: JsonMesh, host: Host, s: nat): RawMesh
    requires ColorsCover(mesh)
    decreases |mesh.subMeshes| - s
  {
    if s < |mesh.subMeshes| then ProcessSubMeshes(ProcessTriangles(raw, mesh, host, s, 0), mesh, host, s + 1)
    else raw
  }

  /** Which raw-mesh streams are emptied before the mesh is filled in: as
      written the face material indices and smoothing masks of the loaded
      raw mesh are kept; corrected, they are emptied like the others. */
  datatype FaceReset = KeepLoadedFaces | ClearFaces

  /** The loaded raw mesh with its streams emptied and the vertex positions
      filled in. */
  function Cleared(reset: FaceReset, loaded: RawMesh, mesh: JsonMesh, host: Host): RawMesh {
    var keep := reset.KeepLoadedFaces?;
    RawMesh(
      VertexPositions(mesh.verts, host.toUe, 0), [], NoChannels(), [],
      if keep then loaded.faceMaterialIndices else [],
      if keep then loaded.faceSmoothingMasks else [])
  }

  /** The raw-mesh part of `setupStaticMesh`, from the raw mesh loaded out of
      the source model. */
  function SetupRawMeshWith(reset: FaceReset, loaded: RawMesh, mesh: JsonMesh, host: Host): RawMesh
    requires ColorsCover(mesh)
  {
    var cleared := Cleared(reset, loaded, mesh, host);
    if |mesh.subMeshes| > 0 then ProcessSubMeshes(cleared, mesh, host, 0) else cleared
  }

  // ---------------------------------------------------------------------
  // Reference: the corners in wedge order

  /** Wedge j of a triangle is corner Perm(j): a, c, b. */
  function Perm(j: nat): nat
    requires j < 3
  {
    if j == 0 then 0 else if j == 1 then 2 else 1
  }

  /** The corners of sub-mesh s with n indices: whole triangles only, each
      reversed. */
  function SubCorners(s: nat, n: nat): (cs: seq<Corner>)
    ensures |cs| == 3 * (n / 3)
  {
    seq(3 * (n / 3), w requires 0 <= w < 3 * (n / 3) => Corner(s, 3 * (w / 3) + Perm(w % 3)))
  }

  function SubCornerCount(mesh: JsonMesh, s: nat): nat
    requires s < |mesh.subMeshes|
  {
    3 * (|mesh.subMeshes[s].triangles| / 3)
  }

  /** The corners of sub-meshes s onward, sub-mesh after sub-mesh. */
  function CornersFrom(mesh: JsonMesh, s: nat): seq<Corner>
    decreases |mesh.subMeshes| - s
  {
    if s < |mesh.subMeshes| then SubCorners(s, |mesh.subMeshes[s].triangles|) + CornersFrom(mesh, s + 1)
    else []
  }

  function Corners(mesh: JsonMesh): seq<Corner> {
    CornersFrom(mesh, 0)
  }

  /** Whole triangles of sub-meshes s onward. */
  function TrianglesFrom(mesh: JsonMesh, s: nat): nat
    decreases |mesh.subMeshes| - s
  {
    if s < |mesh.subMeshes| then |mesh.subMeshes[s].triangles| / 3 + TrianglesFrom(mesh, s + 1) else 0
  }

  /** The face entries of a run of corners: the sub-mesh index for every
      corner that starts a triangle. */
  function FaceStream(cs: seq<Corner>): seq<int>
    decreases |cs|
  {
    if cs == [] then []
    else FaceStream(cs[..|cs| - 1]) + (if cs[|cs| - 1].k % 3 == 0 then [cs[|cs| - 1].sub] else [])
  }

  /** The expected face material indices: sub-mesh s once per whole
      triangle, sub-mesh after sub-mesh. */
  function FaceRef(mesh: JsonMesh, s: nat): seq<int>
    decreases |mesh.subMeshes| - s
  {
    if s < |mesh.subMeshes| then
      seq(|mesh.subMeshes[s].triangles| / 3, _ => s) + FaceRef(mesh, s + 1)
    else []
  }

  function Zeros(n: nat): (z: seq<int>)
    ensures |z| == n && forall i :: 0 <= i < n ==> z[i] == 0
  {
    seq(n, _ => 0)
  }

  /** The per-wedge streams a run of corners should produce. */
  function WedgeStream(mesh: JsonMesh, cs: seq<Corner>): seq<int>
    requires AllValid(mesh, cs)
  {
    seq(|cs|, u requires 0 <= u < |cs| => Orig(mesh, cs[u]))
  }

  function UvStream(mesh: JsonMesh, host: Host, ch: nat, cs: seq<Corner>): (uv: seq<Vec2>)
    requires AllValid(mesh, cs)
  {
    if HasUv(mesh, ch) then seq(|cs|, u requires 0 <= u < |cs| => FlipV(host.idx2(mesh.uvs[ch], Orig(mesh, cs[u]))))
    else if ch == 0 then seq(|cs|, u requires 0 <= u < |cs| => XY(host.idx3(mesh.verts, Orig(mesh, cs[u]))))
    else []
  }

  function ColorStream(mesh: JsonMesh, cs: seq<Corner>): seq<Color>
    requires AllValid(mesh, cs)
  {
    if HasColors(mesh) then seq(|cs|, u requires 0 <= u < |cs| => ColorAt(mesh, Orig(mesh, cs[u])))
    else []
  }

  // ---------------------------------------------------------------------
  // Emitting a run of corners appends the streams

  lemma AllValidPrefix(mesh: JsonMesh, cs: seq<Corner>, n: nat)
    requires AllValid(mesh, cs) && n <= |cs|
    ensures AllValid(mesh, cs[..n])
  {
    forall u | 0 <= u < n ensures Good(mesh, cs[..n][u]) {
      assert cs[..n][u] == cs[u];
    }
  }

  /** The wedge indices are the corners' vertex indices, in order. */
  lemma {:induction false} EmitAllWedges(raw: RawMesh, mesh: JsonMesh, host: Host, cs: seq<Corner>)
    requires AllValid(mesh, cs)
    ensures EmitAll(raw, mesh, host, cs).wedgeIndices == raw.wedgeIndices + WedgeStream(mesh, cs)
    decreases |cs|
  {
    if cs != [] {
      var n := |cs| - 1;
      AllValidPrefix(mesh, cs, n);
      EmitAllWedges(raw, mesh, host, cs[..n]);
      assert WedgeStream(mesh, cs) == WedgeStream(mesh, cs[..n]) + [Orig(mesh, cs[n])];
    }
  }

  /** Emitting corners leaves the vertex positions alone. */
  lemma {:induction false} EmitAllPositions(raw: RawMesh, mesh: JsonMesh, host: Host, cs: seq<Corner>)
    requires AllValid(mesh, cs)
    ensures EmitAll(raw, mesh, host, cs).vertexPositions == raw.vertexPositions
    decreases |cs|
  {
    if cs != [] {
      var n := |cs| - 1;
      AllValidPrefix(mesh, cs, n);
      EmitAllPositions(raw, mesh, host, cs[..n]);
    }
  }

  /** Colours: one per corner when the mesh has any, none otherwise. */
  lemma {:induction false} EmitAllColors(raw: RawMesh, mesh: JsonMesh, host: Host, cs: seq<Corner>)
    requires AllValid(mesh, cs)
    ensures EmitAll(raw, mesh, host, cs).wedgeColors == raw.wedgeColors + ColorStream(mesh, cs)
    decreases |cs|
  {
    if cs != [] {
      var n := |cs| - 1;
      AllValidPrefix(mesh, cs, n);
      EmitAllColors(raw, mesh, host, cs[..n]);
      ColorStreamSnoc(mesh, cs);
    }
  }

  lemma ColorStreamSnoc(mesh: JsonMesh, cs: seq<Corner>)
    requires AllValid(mesh, cs) && cs != []
    ensures AllValid(mesh, cs[..|cs| - 1])
    ensures ColorStream(mesh, cs) == ColorStream(mesh, cs[..|cs| - 1]) + ColorOut(mesh, Orig(mesh, cs[|cs| - 1]))
  {
    AllValidPrefix(mesh, cs, |cs| - 1);
  }

  /** Channel ch: one UV per corner when present (always for channel 0),
      none otherwise. */
  lemma {:induction false} EmitAllUvs(raw: RawMesh, mesh: JsonMesh, host: Host, cs: seq<Corner>, ch: nat)
    requires AllValid(mesh, cs) && ch < MaxUvs
    ensures EmitAll(raw, mesh, host, cs).wedgeTexCoords[ch] == raw.wedgeTexCoords[ch] + UvStream(mesh, host, ch, cs)
    decreases |cs|
  {
    if cs != [] {
      var n := |cs| - 1;
      AllValidPrefix(mesh, cs, n);
      EmitAllUvs(raw, mesh, host, cs[..n], ch);
      UvStreamSnoc(mesh, host, ch, cs);
      var prev := EmitAll(raw, mesh, host, cs[..n]);
      assert EmitAll(raw, mesh, host, cs).wedgeTexCoords[ch]
          == prev.wedgeTexCoords[ch] + UvOut(mesh, host, ch, Orig(mesh, cs[n]));
    }
  }

  lemma UvStreamSnoc(mesh: JsonMesh, host: Host, ch: nat, cs: seq<Corner>)
    requires AllValid(mesh, cs) && cs != []
    ensures AllValid(mesh, cs[..|cs| - 1])
    ensures UvStream(mesh, host, ch, cs)
         == UvStream(mesh, host, ch, cs[..|cs| - 1]) + UvOut(mesh, host, ch, Orig(mesh, cs[|cs| - 1]))
  {
    AllValidPrefix(mesh, cs, |cs| - 1);
  }

  /** One material index and one zero smoothing mask per corner that starts
      a triangle. */
  lemma {:induction false} EmitAllFaces(raw: RawMesh, mesh: JsonMesh, host: Host, cs: seq<Corner>)
    requires AllValid(mesh, cs)
    ensures var r := EmitAll(raw, mesh, host, cs);
      && r.faceMaterialIndices == raw.faceMaterialIndices + FaceStream(cs)
      && r.faceSmoothingMasks == raw.faceSmoothingMasks + Zeros(|FaceStream(cs)|)
    decreases |cs|
  {
    if cs != [] {
      var n := |cs| - 1;
      AllValidPrefix(mesh, cs, n);
      EmitAllFaces(raw, mesh, host, cs[..n]);
      assert Zeros(|FaceStream(cs)|) == Zeros(|FaceStream(cs[..n])|) + (if cs[n].k % 3 == 0 then [0] else []);
    }
  }

  lemma AllValidConcat(mesh: JsonMesh, a: seq<Corner>, b: seq<Corner>)
    requires AllValid(mesh, a) && AllValid(mesh, b)
    ensures AllValid(mesh, a + b)
  {
    forall u | 0 <= u < |a + b| ensures Good(mesh, (a + b)[u]) {
      if u >= |a| {
        assert (a + b)[u] == b[u - |a|];
      }
    }
  }

  lemma {:induction false} EmitAllConcat(raw: RawMesh, mesh: JsonMesh, host: Host, a: seq<Corner>, b: seq<Corner>)
    requires AllValid(mesh, a) && AllValid(mesh, b)
    ensures AllValid(mesh, a + b)
    ensures EmitAll(raw, mesh, host, a + b) == EmitAll(EmitAll(raw, mesh, host, a), mesh, host, b)
    decreases |b|
  {
    AllValidConcat(mesh, a, b);
    if b == [] {
      assert a + b == a;
    } else {
      var n := |b| - 1;
      assert (a + b)[..|a + b| - 1] == a + b[..n];
      AllValidPrefix(mesh, b, n);
      EmitAllConcat(raw, mesh, host, a, b[..n]);
    }
  }

  // ---------------------------------------------------------------------
  // The loops follow the reference order

  lemma SubCornersAt(s: nat, n: nat, t: nat)
    requires 3 * t + 2 < n
    ensures 3 * t + 2 < |SubCorners(s, n)|
    ensures SubCorners(s, n)[3 * t] == Corner(s, 3 * t)
    ensures SubCorners(s, n)[3 * t + 1] == Corner(s, 3 * t + 2)
    ensures SubCorners(s, n)[3 * t + 2] == Corner(s, 3 * t + 1)
  {
  }

  /** The next three reference corners are those of triangle t. */
  lemma SubCornersStep(s: nat, n: nat, t: nat)
    requires 3 * t + 2 < n
    ensures SubCorners(s, n)[3 * t..] == Tri(s, t) + SubCorners(s, n)[3 * t + 3..]
  {
    SubCornersAt(s, n, t);
  }

  /** The corners the triangle loop visits from triangle t on. */
  function TrisFrom(s: nat, n: nat, t: nat): seq<Corner>
    decreases n - 3 * t
  {
    if 3 * t + 2 < n then Tri(s, t) + TrisFrom(s, n, t + 1) else []
  }

  /** They are the reference corners from wedge 3t on. */
  lemma {:induction false} TrisFromIsSuffix(s: nat, n: nat, t: nat)
    requires t <= n / 3
    ensures TrisFrom(s, n, t) == SubCorners(s, n)[3 * t..]
    decreases n - 3 * t
  {
    if 3 * t + 2 < n {
      SubCornersStep(s, n, t);
      TrisFromIsSuffix(s, n, t + 1);
      assert SubCorners(s, n)[3 * t + 3..] == SubCorners(s, n)[3 * (t + 1)..];
    } else {
      assert 3 * t == |SubCorners(s, n)|;
    }
  }

  lemma {:induction false} TrisValid(mesh: JsonMesh, s: nat, t: nat)
    requires s < |mesh.subMeshes| && ColorsCover(mesh)
    ensures AllValid(mesh, TrisFrom(s, |mesh.subMeshes[s].triangles|, t))
    decreases |mesh.subMeshes[s].triangles| - 3 * t
  {
    var n := |mesh.subMeshes[s].triangles|;
    if 3 * t + 2 < n {
      TrisValid(mesh, s, t + 1);
      TriValid(mesh, s, t);
      AllValidConcat(mesh, Tri(s, t), TrisFrom(s, n, t + 1));
    }
  }

  lemma {:induction false} ProcessTrianglesEmits(raw: RawMesh, mesh: JsonMesh, host: Host, s: nat, t: nat)
    requires s < |mesh.subMeshes| && ColorsCover(mesh)
    requires AllValid(mesh, TrisFrom(s, |mesh.subMeshes[s].triangles|, t))
    ensures ProcessTriangles(raw, mesh, host, s, t) == EmitAll(raw, mesh, host, TrisFrom(s, |mesh.subMeshes[s].triangles|, t))
    decreases |mesh.subMeshes[s].triangles| - 3 * t
  {
    if 3 * t + 2 < |mesh.subMeshes[s].triangles| {
      TriValid(mesh, s, t);
      TrisValid(mesh, s, t + 1);
      ProcessTrianglesEmits(EmitAll(raw, mesh, host, Tri(s, t)), mesh, host, s, t + 1);
      ChainTriangle(raw, mesh, host, s, t);
    } else {
      assert TrisFrom(s, |mesh.subMeshes[s].triangles|, t) == [];
    }
  }

  /** One triangle followed by the rest of the loop is the loop from that
      triangle. */
  lemma ChainTriangle(raw: RawMesh, mesh: JsonMesh, host: Host, s: nat, t: nat)
    requires s < |mesh.subMeshes| && ColorsCover(mesh)
    requires 3 * t + 2 < |mesh.subMeshes[s].triangles|
    requires AllValid(mesh, Tri(s, t)) && AllValid(mesh, TrisFrom(s, |mesh.subMeshes[s].triangles|, t + 1))
    requires ProcessTriangles(raw, mesh, host, s, t)
          == EmitAll(EmitAll(raw, mesh, host, Tri(s, t)), mesh, host, TrisFrom(s, |mesh.subMeshes[s].triangles|, t + 1))
    ensures AllValid(mesh, TrisFrom(s, |mesh.subMeshes[s].triangles|, t))
    ensures ProcessTriangles(raw, mesh, host, s, t) == EmitAll(raw, mesh, host, TrisFrom(s, |mesh.subMeshes[s].triangles|, t))
  {
    var n := |mesh.subMeshes[s].triangles|;
    assert TrisFrom(s, n, t) == Tri(s, t) + TrisFrom(s, n, t + 1);
    EmitAllConcat(raw, mesh, host, Tri(s, t), TrisFrom(s, n, t + 1));
  }

  lemma {:induction false} ProcessSubMeshesEmits(raw: RawMesh, mesh: JsonMesh, host: Host, s: nat)
    requires ColorsCover(mesh)
    ensures AllValid(mesh, CornersFrom(mesh, s))
    ensures ProcessSubMeshes(raw, mesh, host, s) == EmitAll(raw, mesh, host, CornersFrom(mesh, s))
    decreases |mesh.subMeshes| - s
  {
    if s < |mesh.subMeshes| {
      var n := |mesh.subMeshes[s].triangles|;
      var sub := SubCorners(s, n);
      TrisValid(mesh, s, 0);
      ProcessTrianglesEmits(raw, mesh, host, s, 0);
      TrisFromIsSuffix(s, n, 0);
      assert sub[0..] == sub;
      ProcessSubMeshesEmits(ProcessTriangles(raw, mesh, host, s, 0), mesh, host, s + 1);
      EmitAllConcat(raw, mesh, host, sub, CornersFrom(mesh, s + 1));
    } else {
      assert CornersFrom(mesh, s) == [];
    }
  }

  /** The whole setup is the cleared raw mesh with every reference corner
      emitted in turn. */
  lemma SetupEmits(reset: FaceReset, loaded: RawMesh, mesh: JsonMesh, host: Host)
    requires ColorsCover(mesh)
    ensures AllValid(mesh, Corners(mesh))
    ensures SetupRawMeshWith(reset, loaded, mesh, host)
         == EmitAll(Cleared(reset, loaded, mesh, host), mesh, host, Corners(mesh))
  {
    ProcessSubMeshesEmits(Cleared(reset, loaded, mesh, host), mesh, host, 0);
    if |mesh.subMeshes| == 0 {
      assert Corners(mesh) == [];
    }
  }

  // ---------------------------------------------------------------------
  // Counting and ordering facts about the reference

  lemma {:induction false} FaceStreamConcat(a: seq<Corner>, b: seq<Corner>)
    ensures FaceStream(a + b) == FaceStream(a) + FaceStream(b)
    decreases |b|
  {
    if b == [] {
      assert a + b == a;
    } else {
      var n := |b| - 1;
      assert (a + b)[..|a + b| - 1] == a + b[..n];
      FaceStreamConcat(a, b[..n]);
    }
  }

  /** A reversed triangle gives one face entry, from its first corner. */
  lemma TriangleFaces(s: nat, t: nat)
    ensures FaceStream(Tri(s, t)) == [s]
  {
    var a, b, c := Corner(s, 3 * t), Corner(s, 3 * t + 2), Corner(s, 3 * t + 1);
    assert (3 * t) % 3 == 0 && (3 * t + 2) % 3 == 2 && (3 * t + 1) % 3 == 1;
    assert [a, b, c][..2] == [a, b];
    assert [a, b][..1] == [a];
    assert [a][..0] == [];
    assert FaceStream([a]) == [s];
    assert FaceStream([a, b]) == [s];
  }

  /** The first u triangles of a sub-mesh give u face entries. */
  lemma {:induction false} SubFacesPrefix(s: nat, n: nat, u: nat)
    requires u <= n / 3
    ensures FaceStream(SubCorners(s, n)[..3 * u]) == seq(u, _ => s)
    decreases u
  {
    var cs := SubCorners(s, n);
    if u == 0 {
      assert cs[..0] == [];
    } else {
      var t := u - 1;
      SubFacesPrefix(s, n, t);
      var tri := Tri(s, t);
      assert cs[..3 * u] == cs[..3 * t] + tri by {
        SubCornersStep(s, n, t);
      }
      FaceStreamConcat(cs[..3 * t], tri);
      TriangleFaces(s, t);
      assert seq(u, _ => s) == seq(t, _ => s) + [s];
    }
  }

  lemma {:induction false} FacesFollowSubMeshes(mesh: JsonMesh, s: nat)
    ensures FaceStream(CornersFrom(mesh, s)) == FaceRef(mesh, s)
    ensures |CornersFrom(mesh, s)| == 3 * TrianglesFrom(mesh, s) == 3 * |FaceRef(mesh, s)|
    decreases |mesh.subMeshes| - s
  {
    if s < |mesh.subMeshes| {
      var n := |mesh.subMeshes[s].triangles|;
      var sub := SubCorners(s, n);
      FacesFollowSubMeshes(mesh, s + 1);
      FaceStreamConcat(sub, CornersFrom(mesh, s + 1));
      SubFacesPrefix(s, n, n / 3);
      assert sub[..3 * (n / 3)] == sub;
    }
  }

  /** Where sub-mesh s2's corners start among those of sub-meshes s onward. */
  function Base(mesh: JsonMesh, s: nat, s2: nat): nat
    requires s <= s2 <= |mesh.subMeshes|
    decreases s2 - s
  {
    if s == s2 then 0 else SubCornerCount(mesh, s) + Base(mesh, s + 1, s2)
  }

  lemma {:induction false} CornersAt(mesh: JsonMesh, s: nat, s2: nat, w: nat)
    requires s <= s2 < |mesh.subMeshes| && w < SubCornerCount(mesh, s2)
    ensures Base(mesh, s, s2) + w < |CornersFrom(mesh, s)|
    ensures CornersFrom(mesh, s)[Base(mesh, s, s2) + w] == SubCorners(s2, |mesh.subMeshes[s2].triangles|)[w]
    decreases s2 - s
  {
    if s < s2 {
      CornersAt(mesh, s + 1, s2, w);
    }
  }

  // ---------------------------------------------------------------------
  // setupStaticMesh's raw mesh

  /** The corrected setup: positions in threes, and every stream exactly
      what the corners in wedge order produce. */
  lemma SetupRawMeshStreams(loaded: RawMesh, mesh: JsonMesh, host: Host)
    requires ColorsCover(mesh)
    ensures var r := SetupRawMeshWith(ClearFaces, loaded, mesh, host); var cs := Corners(mesh);
      && AllValid(mesh, cs)
      && r.vertexPositions == VertexPositions(mesh.verts, host.toUe, 0)
      && r.wedgeIndices == WedgeStream(mesh, cs)
      && r.wedgeColors == ColorStream(mesh, cs)
      && r.faceMaterialIndices == FaceRef(mesh, 0)
      && r.faceSmoothingMasks == Zeros(|FaceRef(mesh, 0)|)
      && forall ch :: 0 <= ch < MaxUvs ==> r.wedgeTexCoords[ch] == UvStream(mesh, host, ch, cs)
  {
    var cs := Corners(mesh);
    var cleared := Cleared(ClearFaces, loaded, mesh, host);
    SetupEmits(ClearFaces, loaded, mesh, host);
    EmitAllPositions(cleared, mesh, host, cs);
    EmitAllWedges(cleared, mesh, host, cs);
    EmitAllColors(cleared, mesh, host, cs);
    EmitAllFaces(cleared, mesh, host, cs);
    forall ch | 0 <= ch < MaxUvs
      ensures SetupRawMeshWith(ClearFaces, loaded, mesh, host).wedgeTexCoords[ch] == UvStream(mesh, host, ch, cs)
    {
      EmitAllUvs(cleared, mesh, host, cs, ch);
    }
    FacesFollowSubMeshes(mesh, 0);
  }

  /** Counts: one position per whole float triple, three wedges and one
      face per whole triangle, and UV channel 0 always one per wedge. */
  lemma SetupRawMeshCounts(loaded: RawMesh, mesh: JsonMesh, host: Host)
    requires ColorsCover(mesh)
    ensures var r := SetupRawMeshWith(ClearFaces, loaded, mesh, host);
      && |r.vertexPositions| == |mesh.verts| / 3
      && |r.wedgeIndices| == 3 * TrianglesFrom(mesh, 0)
      && |r.faceMaterialIndices| == |r.faceSmoothingMasks| == TrianglesFrom(mesh, 0)
      && |r.wedgeTexCoords[0]| == |r.wedgeIndices|
      && (forall ch :: 0 < ch < MaxUvs ==> |r.wedgeTexCoords[ch]| == if HasUv(mesh, ch) then |r.wedgeIndices| else 0)
      && |r.wedgeColors| == if HasColors(mesh) then |r.wedgeIndices| else 0
  {
    SetupRawMeshStreams(loaded, mesh, host);
    FacesFollowSubMeshes(mesh, 0);
  }

  /** Winding: triangle t of sub-mesh s, with indices (a, b, c), becomes the
      wedges a, c, b where that sub-mesh's wedges start. */
  lemma SetupRawMeshWinding(loaded: RawMesh, mesh: JsonMesh, host: Host, s: nat, t: nat)
    requires ColorsCover(mesh)
    requires s < |mesh.subMeshes| && 3 * t + 2 < |mesh.subMeshes[s].triangles|
    ensures var r := SetupRawMeshWith(ClearFaces, loaded, mesh, host);
            var tr := mesh.subMeshes[s].triangles;
            var w := Base(mesh, 0, s) + 3 * t;
      && w + 2 < |r.wedgeIndices|
      && r.wedgeIndices[w] == tr[3 * t]
      && r.wedgeIndices[w + 1] == tr[3 * t + 2]
      && r.wedgeIndices[w + 2] == tr[3 * t + 1]
  {
    SetupWedges(loaded, mesh, host);
    WedgeWinding(mesh, s, t);
  }

  lemma WedgeWinding(mesh: JsonMesh, s: nat, t: nat)
    requires ColorsCover(mesh) && AllValid(mesh, Corners(mesh))
    requires s < |mesh.subMeshes| && 3 * t + 2 < |mesh.subMeshes[s].triangles|
    ensures var ws := WedgeStream(mesh, Corners(mesh));
            var tr := mesh.subMeshes[s].triangles;
            var w := Base(mesh, 0, s) + 3 * t;
      && w + 2 < |ws|
      && ws[w] == tr[3 * t] && ws[w + 1] == tr[3 * t + 2] && ws[w + 2] == tr[3 * t + 1]
  {
    CornersWinding(mesh, s, t);
  }

  lemma SetupWedges(loaded: RawMesh, mesh: JsonMesh, host: Host)
    requires ColorsCover(mesh)
    ensures AllValid(mesh, Corners(mesh))
    ensures SetupRawMeshWith(ClearFaces, loaded, mesh, host).wedgeIndices == WedgeStream(mesh, Corners(mesh))
  {
    SetupEmits(ClearFaces, loaded, mesh, host);
    EmitAllWedges(Cleared(ClearFaces, loaded, mesh, host), mesh, host, Corners(mesh));
  }

  /** Triangle t of sub-mesh s sits in the corner order reversed. */
  lemma CornersWinding(mesh: JsonMesh, s: nat, t: nat)
    requires s < |mesh.subMeshes| && 3 * t + 2 < |mesh.subMeshes[s].triangles|
    ensures var cs := Corners(mesh); var w := Base(mesh, 0, s) + 3 * t;
      && w + 2 < |cs|
      && cs[w] == Corner(s, 3 * t) && cs[w + 1] == Corner(s, 3 * t + 2) && cs[w + 2] == Corner(s, 3 * t + 1)
  {
    CornerOfTriangle(mesh, s, t, 0);
    CornerOfTriangle(mesh, s, t, 1);
    CornerOfTriangle(mesh, s, t, 2);
  }

  lemma CornerOfTriangle(mesh: JsonMesh, s: nat, t: nat, j: nat)
    requires s < |mesh.subMeshes| && 3 * t + 2 < |mesh.subMeshes[s].triangles| && j < 3
    ensures Base(mesh, 0, s) + 3 * t + j < |Corners(mesh)|
    ensures Corners(mesh)[Base(mesh, 0, s) + 3 * t + j] == Corner(s, 3 * t + Perm(j))
  {
    var n := |mesh.subMeshes[s].triangles|;
    CornersAt(mesh, 0, s, 3 * t + j);
    assert (3 * t + j) / 3 == t && (3 * t + j) % 3 == j;
  }

  /** As written, the face streams of the loaded raw mesh stay in front of
      the new ones. */
  lemma SetupKeepsLoadedFaces(loaded: RawMesh, mesh: JsonMesh, host: Host)
    requires ColorsCover(mesh)
    ensures var r := SetupRawMeshWith(KeepLoadedFaces, loaded, mesh, host);
      && r.faceMaterialIndices == loaded.faceMaterialIndices + FaceRef(mesh, 0)
      && |r.faceMaterialIndices| == |loaded.faceMaterialIndices| + |r.wedgeIndices| / 3
  {
    var cs := Corners(mesh);
    var cleared := Cleared(KeepLoadedFaces, loaded, mesh, host);
    SetupEmits(KeepLoadedFaces, loaded, mesh, host);
    EmitAllWedges(cleared, mesh, host, cs);
    EmitAllFaces(cleared, mesh, host, cs);
    FacesFollowSubMeshes(mesh, 0);
  }

  /** A raw mesh is valid only with one face entry per three wedges. */
  predicate FacesMatchWedges(r: RawMesh) {
    |r.faceMaterialIndices| * 3 == |r.wedgeIndices| && |r.faceSmoothingMasks| * 3 == |r.wedgeIndices|
  }

  /** The corrected setup always leaves face and wedge counts in step. */
  lemma ClearedFacesMatch(loaded: RawMesh, mesh: JsonMesh, host: Host)
    requires ColorsCover(mesh)
    ensures FacesMatchWedges(SetupRawMeshWith(ClearFaces, loaded, mesh, host))
  {
    SetupRawMeshCounts(loaded, mesh, host);
  }

  /** As written, a source model that already held one face yields a raw
      mesh with a face and no wedges when the new mesh has no sub-meshes. */
  lemma KeptFacesMismatch(host: Host)
    ensures var loaded := RawMesh([], [0, 1, 2], NoChannels(), [], [0], [0]);
            var mesh := JsonMesh([], [], [], [], [], [], false, false);
            !FacesMatchWedges(SetupRawMeshWith(KeepLoadedFaces, loaded, mesh, host))
  {
  }

  /** `setupStaticMesh` as corrected. */
  function SetupRawMesh(loaded: RawMesh, mesh: JsonMesh, host: Host): (r: RawMesh)
    requires ColorsCover(mesh)
    ensures FacesMatchWedges(r)
    ensures |r.vertexPositions| == |mesh.verts| / 3
  {
    ClearedFacesMatch(loaded, mesh, host);
    SetupRawMeshCounts(loaded, mesh, host);
    SetupRawMeshWith(ClearFaces, loaded, mesh, host)
  }

  // ---------------------------------------------------------------------
  // Build settings and collision

  datatype BuildSettings = BuildSettings(recomputeNormals: bool, recomputeTangents: bool)

  /** Normals are never recomputed; tangents are unless the mesh brings
      both tangents and normals. */
  function MeshBuildSettings(mesh: JsonMesh): (b: BuildSettings)
    ensures !b.recomputeNormals
    ensures b.recomputeTangents <==> |mesh.tangents| == 0 || |mesh.normals| == 0
  {
    BuildSettings(false, !(|mesh.tangents| != 0 && |mesh.normals| != 0))
  }

  datatype TraceFlag = UseDefault | UseSimpleAndComplex | UseSimpleAsComplex | UseComplexAsSimple

  /** The collision trace flag after the build: only when the build reported
      no errors and a body setup exists; convex wins over triangle, and with
      neither flag the body setup keeps its flag. */
  function CollisionTraceFlag(mesh: JsonMesh, buildOk: bool, body: Option<TraceFlag>): (r: Option<TraceFlag>)
    ensures r.None? <==> body.None?
    ensures r.Some? && (!buildOk || (!mesh.convexCollider && !mesh.triangleCollider)) ==> r == body
    ensures r.Some? && buildOk && mesh.convexCollider ==> r.value == UseSimpleAsComplex
    ensures r.Some? && buildOk && !mesh.convexCollider && mesh.triangleCollider ==> r.value == UseComplexAsSimple
  {
    match body
    case None => None
    case Some(flag) =>
      if !buildOk then body
      else if mesh.convexCollider then Some(UseSimpleAsComplex)
      else if mesh.triangleCollider then Some(UseComplexAsSimple)
      else Some(flag)
  }
}
