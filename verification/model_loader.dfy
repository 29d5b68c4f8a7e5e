/**
 `ModelLoader::Load`: runs an `objl::Loader` on the file and copies what it
 loaded into the engine's mesh record, converting every vertex field by
 field and narrowing both counts to a C++ `int`.
 */
module ModelLoader {
  import opened ObjTypes
  import opened CornerToken
  import opened ObjLoader

  /** The DirectX `XMFLOAT2` / `XMFLOAT3` members of the engine's vertex. */
  datatype Float2 = Float2(x: real, y: real)
  datatype Float3 = Float3(x: real, y: real, z: real)

  /** The engine's vertex: position, texture coordinate and normal. */
  datatype SimpleVertex = SimpleVertex(Pos: Float3, Tex: Float2, Normal: Float3)

  /** The mesh record `Load` hands to the renderer. */
  datatype LoadData = LoadData(name: string, vertex: seq<SimpleVertex>, index: seq<nat>, numVertex: int, numIndex: int)

  /** A default-constructed `LoadData`: no name, no data, zero counts. */
  const DefaultLoadData: LoadData := LoadData("", [], [], 0, 0)

  /** The value `resize` fills new vertex slots with. */
  const ZeroVertex: SimpleVertex := SimpleVertex(Float3(0.0, 0.0, 0.0), Float2(0.0, 0.0), Float3(0.0, 0.0, 0.0))

  /** `sv` carries the eight components of `v`, each in its own slot:
      Pos from Position, Tex from TextureCoordinate, Normal from Normal. */
  predicate CopiedFrom(sv: SimpleVertex, v: Vertex) {
    && sv.Pos.x == v.Position.X && sv.Pos.y == v.Position.Y && sv.Pos.z == v.Position.Z
    && sv.Tex.x == v.TextureCoordinate.X && sv.Tex.y == v.TextureCoordinate.Y
    && sv.Normal.x == v.Normal.X && sv.Normal.y == v.Normal.Y && sv.Normal.z == v.Normal.Z
  }

  /** The back conversion, used to show that the copy loses nothing. */
  function ToObjVertex(sv: SimpleVertex): Vertex {
    Vertex(Vector3(sv.Pos.x, sv.Pos.y, sv.Pos.z),
           Vector3(sv.Normal.x, sv.Normal.y, sv.Normal.z),
           Vector2(sv.Tex.x, sv.Tex.y))
  }

  /** The copy is lossless and determined by its source: converting back
      gives the loader's vertex, and two copies of one vertex are equal. */
  lemma CopiedFromInverse(sv: SimpleVertex, v: Vertex)
    ensures CopiedFrom(sv, v) <==> ToObjVertex(sv) == v
  {
  }

  /** `(int)n` for an unsigned `size_t` count on a two's-complement target:
      the value modulo 2^32, read as a signed 32-bit integer. */
  function Int32Cast(n: nat): (r: int)
    ensures IntMin <= r <= IntMax
    ensures (n - r) % 0x1_0000_0000 == 0
    ensures n <= IntMax ==> r == n
  {
    var m := n % 0x1_0000_0000;
    if m <= IntMax then m else m - 0x1_0000_0000
  }

  /** `ModelLoader::Load`. A failed `LoadFile` yields a default record;
      otherwise the name is the file name, every loaded vertex is copied
      component by component into the same slot, the index list is copied
      as is, and the counts are the two list lengths cast to `int`. An error
      of the parser (an exception or undefined behaviour in the source) is
      passed on. */
  method Load(objFileName: string, file: ObjFile) returns (r: Result<LoadData>)
    ensures LoadFile(file).Err? <==> r.Err?
    ensures r.Err? ==> r.error == LoadFile(file).error
    ensures r.Ok? && !LoadFile(file).value.loaded ==> r.value == DefaultLoadData
    ensures r.Ok? && LoadFile(file).value.loaded ==>
      && r.value.name == objFileName
      && |r.value.vertex| == |LoadFile(file).value.loader.LoadedVertices|
      && (forall i :: 0 <= i < |r.value.vertex| ==>
            CopiedFrom(r.value.vertex[i], LoadFile(file).value.loader.LoadedVertices[i]))
      && r.value.index == LoadFile(file).value.loader.LoadedIndices
      && r.value.numVertex == Int32Cast(|r.value.vertex|)
      && r.value.numIndex == Int32Cast(|r.value.index|)
  {
    var outcome :- LoadFile(file);
    if !outcome.loaded {
      // the error is logged and the default record returned
      return Ok(DefaultLoadData);
    }
    var loaded := outcome.loader.LoadedVertices;
    var vertexCount := |loaded|;
    var vertex := seq(vertexCount, _ => ZeroVertex);
    var i := 0;
    while i < |vertex|
      invariant |vertex| == vertexCount
      invariant 0 <= i <= vertexCount
      invariant forall k :: 0 <= k < i ==> CopiedFrom(vertex[k], loaded[k])
    {
      var v := loaded[i];
      vertex := vertex[i := SimpleVertex(Float3(v.Position.X, v.Position.Y, v.Position.Z),
                                         Float2(v.TextureCoordinate.X, v.TextureCoordinate.Y),
                                         Float3(v.Normal.X, v.Normal.Y, v.Normal.Z))];
      i := i + 1;
    }
    var index := outcome.loader.LoadedIndices;
    r := Ok(LoadData(objFileName, vertex, index, Int32Cast(vertexCount), Int32Cast(|index|)));
  }
}
