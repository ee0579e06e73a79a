/**
 * `MeshZHeader` and `MeshZ` (walle_fmt/mesh.rs): the mesh object. The
 * header is exact and reports its `crc32s` as soft links; the body is not
 * exact, and carries vertex buffers whose stride selects one of four vertex
 * layouts, and index buffers whose count precedes the indices. A vertex
 * component (`VertexVectorComponent`) is taken to be one byte.
 */
module WalleMesh {
  import opened Bytes
  import opened Codec
  import opened Schemas
  import opened Objects
  import opened Vectors

  /** `FixedVec<u8, 3>`: a packed tangent or normal. */
  type Bytes3 = s: seq<u8> | |s| == 3 witness [0, 0, 0]
  /** `FixedVec<f32, N>` and `FixedVec<u32, N>`. */
  type F32s4 = s: seq<f32> | |s| == 4 witness [0, 0, 0, 0]
  type F32s5 = s: seq<f32> | |s| == 5 witness [0, 0, 0, 0, 0]
  type U32s3 = s: seq<u32> | |s| == 3 witness [0, 0, 0]
  type U32s4 = s: seq<u32> | |s| == 4 witness [0, 0, 0, 0]
  /** `FixedVec<u8, 24>`. */
  type Bytes24 = s: seq<u8> | |s| == 24 witness seq(24, _ => 0)

  /** A position-and-texture vertex (mesh.rs:54-58): 24 bytes. */
  datatype VertexLayoutPositionUV = VertexLayoutPositionUV(
    position: Vec3f,
    unknown0: f32,
    uv: Vec2f)

  const VertexLayoutPositionUVLayout: Kind :=
    Then(Then(Words(F32, 3), // position
    Word(F32)), // unknown0
    Words(F32, 2)) // uv

  function VertexLayoutPositionUVVal(x: VertexLayoutPositionUV): Val {
    Pair(Pair(Nums(x.position), // position
    Num(x.unknown0)), // unknown0
    Nums(x.uv)) // uv
  }

  function VertexLayoutPositionUVOf(v: Val): VertexLayoutPositionUV {
    VertexLayoutPositionUV(
      AsWords(F32, 3, First(First(v))),
      AsWord(F32, Second(First(v))),
      AsWords(F32, 2, Second(v)))
  }

  lemma VertexLayoutPositionUVConforms(pr: Prims, x: VertexLayoutPositionUV)
    ensures Conforms(pr, VertexLayoutPositionUVLayout, VertexLayoutPositionUVVal(x))
  {
    U32sInRange(x.position);
    U32sInRange(x.uv);
  }

  lemma VertexLayoutPositionUVOfVal(pr: Prims, x: VertexLayoutPositionUV)
    ensures VertexLayoutPositionUVOf(VertexLayoutPositionUVVal(x)) == x
  {
  }

  lemma VertexLayoutPositionUVFrom(pr: Prims, v: Val)
    requires Conforms(pr, VertexLayoutPositionUVLayout, v)
    ensures VertexLayoutPositionUVVal(VertexLayoutPositionUVOf(v)) == v
  {
  }

  function VertexLayoutPositionUVView(): View<VertexLayoutPositionUV> {
    View(VertexLayoutPositionUVLayout, VertexLayoutPositionUVVal, VertexLayoutPositionUVOf, _ => true)
  }

  lemma VertexLayoutPositionUVFaithful(pr: Prims)
    ensures Faithful(pr, VertexLayoutPositionUVView())
  {
    forall x | true ensures Conforms(pr, VertexLayoutPositionUVLayout, VertexLayoutPositionUVVal(x)) && VertexLayoutPositionUVOf(VertexLayoutPositionUVVal(x)) == x {
      VertexLayoutPositionUVConforms(pr, x);
      VertexLayoutPositionUVOfVal(pr, x);
    }
    forall v | Conforms(pr, VertexLayoutPositionUVLayout, v) ensures VertexLayoutPositionUVVal(VertexLayoutPositionUVOf(v)) == v {
      VertexLayoutPositionUVFrom(pr, v);
    }
  }

  /** A vertex without blending (mesh.rs:65-73): 36 bytes. */
  datatype VertexLayoutNoBlend = VertexLayoutNoBlend(
    position: Vec3f,
    tangent: Bytes3,
    pad0: u8,
    normal: Bytes3,
    pad1: u8,
    uv: Vec2f,
    luv: Vec2f)

  const VertexLayoutNoBlendLayout: Kind :=
    Then(Then(Then(Words(F32, 3), // position
    Words(U8, 3)), // tangent
    Then(Word(U8), // pad0
    Words(U8, 3))), // normal
    Then(Then(Word(U8), // pad1
    Words(F32, 2)), // uv
    Words(F32, 2))) // luv

  function VertexLayoutNoBlendVal(x: VertexLayoutNoBlend): Val {
    Pair(Pair(Pair(Nums(x.position), // position
    Nums(x.tangent)), // tangent
    Pair(Num(x.pad0), // pad0
    Nums(x.normal))), // normal
    Pair(Pair(Num(x.pad1), // pad1
    Nums(x.uv)), // uv
    Nums(x.luv))) // luv
  }

  function VertexLayoutNoBlendOf(v: Val): VertexLayoutNoBlend {
    VertexLayoutNoBlend(
      AsWords(F32, 3, First(First(First(v)))),
      AsWords(U8, 3, Second(First(First(v)))),
      AsWord(U8, First(Second(First(v)))),
      AsWords(U8, 3, Second(Second(First(v)))),
      AsWord(U8, First(First(Second(v)))),
      AsWords(F32, 2, Second(First(Second(v)))),
      AsWords(F32, 2, Second(Second(v))))
  }

  // fields `position` to `normal`
  lemma VertexLayoutNoBlendConformsL(pr: Prims, x: VertexLayoutNoBlend)
    ensures Conforms(pr, VertexLayoutNoBlendLayout.first, First(VertexLayoutNoBlendVal(x)))
  {
    U32sInRange(x.position);
    U8sInRange(x.tangent);
    U8sInRange(x.normal);
  }

  // fields `pad1` to `luv`
  lemma VertexLayoutNoBlendConformsR(pr: Prims, x: VertexLayoutNoBlend)
    ensures Conforms(pr, VertexLayoutNoBlendLayout.second, Second(VertexLayoutNoBlendVal(x)))
  {
    U32sInRange(x.uv);
    U32sInRange(x.luv);
  }

  lemma VertexLayoutNoBlendConforms(pr: Prims, x: VertexLayoutNoBlend)
    ensures Conforms(pr, VertexLayoutNoBlendLayout, VertexLayoutNoBlendVal(x))
  {
    VertexLayoutNoBlendConformsL(pr, x);
    VertexLayoutNoBlendConformsR(pr, x);
  }

  lemma VertexLayoutNoBlendOfVal(pr: Prims, x: VertexLayoutNoBlend)
    ensures VertexLayoutNoBlendOf(VertexLayoutNoBlendVal(x)) == x
  {
  }

  // fields `position` to `normal`
  lemma VertexLayoutNoBlendFromL(pr: Prims, v: Val)
    requires Conforms(pr, VertexLayoutNoBlendLayout.first, First(v))
    ensures First(VertexLayoutNoBlendVal(VertexLayoutNoBlendOf(v))) == First(v)
  {
  }

  // fields `pad1` to `luv`
  lemma VertexLayoutNoBlendFromR(pr: Prims, v: Val)
    requires Conforms(pr, VertexLayoutNoBlendLayout.second, Second(v))
    ensures Second(VertexLayoutNoBlendVal(VertexLayoutNoBlendOf(v))) == Second(v)
  {
  }

  lemma VertexLayoutNoBlendFrom(pr: Prims, v: Val)
    requires Conforms(pr, VertexLayoutNoBlendLayout, v)
    ensures VertexLayoutNoBlendVal(VertexLayoutNoBlendOf(v)) == v
  {
    VertexLayoutNoBlendFromL(pr, v);
    VertexLayoutNoBlendFromR(pr, v);
  }

  function VertexLayoutNoBlendView(): View<VertexLayoutNoBlend> {
    View(VertexLayoutNoBlendLayout, VertexLayoutNoBlendVal, VertexLayoutNoBlendOf, _ => true)
  }

  lemma VertexLayoutNoBlendFaithful(pr: Prims)
    ensures Faithful(pr, VertexLayoutNoBlendView())
  {
    forall x | true ensures Conforms(pr, VertexLayoutNoBlendLayout, VertexLayoutNoBlendVal(x)) && VertexLayoutNoBlendOf(VertexLayoutNoBlendVal(x)) == x {
      VertexLayoutNoBlendConforms(pr, x);
      VertexLayoutNoBlendOfVal(pr, x);
    }
    forall v | Conforms(pr, VertexLayoutNoBlendLayout, v) ensures VertexLayoutNoBlendVal(VertexLayoutNoBlendOf(v)) == v {
      VertexLayoutNoBlendFrom(pr, v);
    }
  }

  /** A vertex with one blend (mesh.rs:85-93): 48 bytes; the blend index is carried as its f32. */
  datatype VertexLayout1Blend = VertexLayout1Blend(
    position: Vec3f,
    tangent: Bytes3,
    pad0: u8,
    normal: Bytes3,
    pad1: u8,
    uv: Vec2f,
    unknown0: F32s5)

  const VertexLayout1BlendLayout: Kind :=
    Then(Then(Then(Words(F32, 3), // position
    Words(U8, 3)), // tangent
    Then(Word(U8), // pad0
    Words(U8, 3))), // normal
    Then(Then(Word(U8), // pad1
    Words(F32, 2)), // uv
    Words(F32, 5))) // unknown0

  function VertexLayout1BlendVal(x: VertexLayout1Blend): Val {
    Pair(Pair(Pair(Nums(x.position), // position
    Nums(x.tangent)), // tangent
    Pair(Num(x.pad0), // pad0
    Nums(x.normal))), // normal
    Pair(Pair(Num(x.pad1), // pad1
    Nums(x.uv)), // uv
    Nums(x.unknown0))) // unknown0
  }

  function VertexLayout1BlendOf(v: Val): VertexLayout1Blend {
    VertexLayout1Blend(
      AsWords(F32, 3, First(First(First(v)))),
      AsWords(U8, 3, Second(First(First(v)))),
      AsWord(U8, First(Second(First(v)))),
      AsWords(U8, 3, Second(Second(First(v)))),
      AsWord(U8, First(First(Second(v)))),
      AsWords(F32, 2, Second(First(Second(v)))),
      AsWords(F32, 5, Second(Second(v))))
  }

  // fields `position` to `normal`
  lemma VertexLayout1BlendConformsL(pr: Prims, x: VertexLayout1Blend)
    ensures Conforms(pr, VertexLayout1BlendLayout.first, First(VertexLayout1BlendVal(x)))
  {
    U32sInRange(x.position);
    U8sInRange(x.tangent);
    U8sInRange(x.normal);
  }

  // fields `pad1` to `unknown0`
  lemma VertexLayout1BlendConformsR(pr: Prims, x: VertexLayout1Blend)
    ensures Conforms(pr, VertexLayout1BlendLayout.second, Second(VertexLayout1BlendVal(x)))
  {
    U32sInRange(x.uv);
    U32sInRange(x.unknown0);
  }

  lemma VertexLayout1BlendConforms(pr: Prims, x: VertexLayout1Blend)
    ensures Conforms(pr, VertexLayout1BlendLayout, VertexLayout1BlendVal(x))
  {
    VertexLayout1BlendConformsL(pr, x);
    VertexLayout1BlendConformsR(pr, x);
  }

  lemma VertexLayout1BlendOfVal(pr: Prims, x: VertexLayout1Blend)
    ensures VertexLayout1BlendOf(VertexLayout1BlendVal(x)) == x
  {
  }

  // fields `position` to `normal`
  lemma VertexLayout1BlendFromL(pr: Prims, v: Val)
    requires Conforms(pr, VertexLayout1BlendLayout.first, First(v))
    ensures First(VertexLayout1BlendVal(VertexLayout1BlendOf(v))) == First(v)
  {
  }

  // fields `pad1` to `unknown0`
  lemma VertexLayout1BlendFromR(pr: Prims, v: Val)
    requires Conforms(pr, VertexLayout1BlendLayout.second, Second(v))
    ensures Second(VertexLayout1BlendVal(VertexLayout1BlendOf(v))) == Second(v)
  {
  }

  lemma VertexLayout1BlendFrom(pr: Prims, v: Val)
    requires Conforms(pr, VertexLayout1BlendLayout, v)
    ensures VertexLayout1BlendVal(VertexLayout1BlendOf(v)) == v
  {
    VertexLayout1BlendFromL(pr, v);
    VertexLayout1BlendFromR(pr, v);
  }

  function VertexLayout1BlendView(): View<VertexLayout1Blend> {
    View(VertexLayout1BlendLayout, VertexLayout1BlendVal, VertexLayout1BlendOf, _ => true)
  }

  lemma VertexLayout1BlendFaithful(pr: Prims)
    ensures Faithful(pr, VertexLayout1BlendView())
  {
    forall x | true ensures Conforms(pr, VertexLayout1BlendLayout, VertexLayout1BlendVal(x)) && VertexLayout1BlendOf(VertexLayout1BlendVal(x)) == x {
      VertexLayout1BlendConforms(pr, x);
      VertexLayout1BlendOfVal(pr, x);
    }
    forall v | Conforms(pr, VertexLayout1BlendLayout, v) ensures VertexLayout1BlendVal(VertexLayout1BlendOf(v)) == v {
      VertexLayout1BlendFrom(pr, v);
    }
  }

  /** A vertex with four blends (mesh.rs:98-107): 60 bytes; a `VertexBlendIndex` is its one f32. */
  datatype VertexLayout4Blend = VertexLayout4Blend(
    position: Vec3f,
    tangent: Bytes3,
    pad0: u8,
    normal: Bytes3,
    pad1: u8,
    uv: Vec2f,
    blendIndices: F32s4,
    blendWeights: F32s4)

  const VertexLayout4BlendLayout: Kind :=
    Then(Then(Then(Words(F32, 3), // position
    Words(U8, 3)), // tangent
    Then(Word(U8), // pad0
    Words(U8, 3))), // normal
    Then(Then(Word(U8), // pad1
    Words(F32, 2)), // uv
    Then(Words(F32, 4), // blendIndices
    Words(F32, 4)))) // blendWeights

  function VertexLayout4BlendVal(x: VertexLayout4Blend): Val {
    Pair(Pair(Pair(Nums(x.position), // position
    Nums(x.tangent)), // tangent
    Pair(Num(x.pad0), // pad0
    Nums(x.normal))), // normal
    Pair(Pair(Num(x.pad1), // pad1
    Nums(x.uv)), // uv
    Pair(Nums(x.blendIndices), // blendIndices
    Nums(x.blendWeights)))) // blendWeights
  }

  function VertexLayout4BlendOf(v: Val): VertexLayout4Blend {
    VertexLayout4Blend(
      AsWords(F32, 3, First(First(First(v)))),
      AsWords(U8, 3, Second(First(First(v)))),
      AsWord(U8, First(Second(First(v)))),
      AsWords(U8, 3, Second(Second(First(v)))),
      AsWord(U8, First(First(Second(v)))),
      AsWords(F32, 2, Second(First(Second(v)))),
      AsWords(F32, 4, First(Second(Second(v)))),
      AsWords(F32, 4, Second(Second(Second(v)))))
  }

  // fields `position` to `normal`
  lemma VertexLayout4BlendConformsL(pr: Prims, x: VertexLayout4Blend)
    ensures Conforms(pr, VertexLayout4BlendLayout.first, First(VertexLayout4BlendVal(x)))
  {
    U32sInRange(x.position);
    U8sInRange(x.tangent);
    U8sInRange(x.normal);
  }

  // fields `pad1` to `blendWeights`
  lemma VertexLayout4BlendConformsR(pr: Prims, x: VertexLayout4Blend)
    ensures Conforms(pr, VertexLayout4BlendLayout.second, Second(VertexLayout4BlendVal(x)))
  {
    U32sInRange(x.uv);
    U32sInRange(x.blendIndices);
    U32sInRange(x.blendWeights);
  }

  lemma VertexLayout4BlendConforms(pr: Prims, x: VertexLayout4Blend)
    ensures Conforms(pr, VertexLayout4BlendLayout, VertexLayout4BlendVal(x))
  {
    VertexLayout4BlendConformsL(pr, x);
    VertexLayout4BlendConformsR(pr, x);
  }

  lemma VertexLayout4BlendOfVal(pr: Prims, x: VertexLayout4Blend)
    ensures VertexLayout4BlendOf(VertexLayout4BlendVal(x)) == x
  {
  }

  // fields `position` to `normal`
  lemma VertexLayout4BlendFromL(pr: Prims, v: Val)
    requires Conforms(pr, VertexLayout4BlendLayout.first, First(v))
    ensures First(VertexLayout4BlendVal(VertexLayout4BlendOf(v))) == First(v)
  {
  }

  // fields `pad1` to `blendWeights`
  lemma VertexLayout4BlendFromR(pr: Prims, v: Val)
    requires Conforms(pr, VertexLayout4BlendLayout.second, Second(v))
    ensures Second(VertexLayout4BlendVal(VertexLayout4BlendOf(v))) == Second(v)
  {
  }

  lemma VertexLayout4BlendFrom(pr: Prims, v: Val)
    requires Conforms(pr, VertexLayout4BlendLayout, v)
    ensures VertexLayout4BlendVal(VertexLayout4BlendOf(v)) == v
  {
    VertexLayout4BlendFromL(pr, v);
    VertexLayout4BlendFromR(pr, v);
  }

  function VertexLayout4BlendView(): View<VertexLayout4Blend> {
    View(VertexLayout4BlendLayout, VertexLayout4BlendVal, VertexLayout4BlendOf, _ => true)
  }

  lemma VertexLayout4BlendFaithful(pr: Prims)
    ensures Faithful(pr, VertexLayout4BlendView())
  {
    forall x | true ensures Conforms(pr, VertexLayout4BlendLayout, VertexLayout4BlendVal(x)) && VertexLayout4BlendOf(VertexLayout4BlendVal(x)) == x {
      VertexLayout4BlendConforms(pr, x);
      VertexLayout4BlendOfVal(pr, x);
    }
    forall v | Conforms(pr, VertexLayout4BlendLayout, v) ensures VertexLayout4BlendVal(VertexLayout4BlendOf(v)) == v {
      VertexLayout4BlendFrom(pr, v);
    }
  }

  /** A vertex group (mesh.rs:261-273): 44 bytes. */
  datatype VertexGroup = VertexGroup(
    zeros: U32s3,
    maybePrimitive: u32,
    vertexOffsetInBuffer: u16,
    unknown0: u16,
    vertexCount: u32,
    indexBufferOffset: u32,
    faceCount: u32,
    unknown1: u32,
    unknown2: u32,
    vertexSize: u16,
    cdcdcdcd: u16)

  const VertexGroupLayout: Kind :=
    Then(Then(Then(Then(Words(U32, 3), // zeros
    Word(U32)), // maybePrimitive
    Word(U16)), // vertexOffsetInBuffer
    Then(Then(Word(U16), // unknown0
    Word(U32)), // vertexCount
    Word(U32))), // indexBufferOffset
    Then(Then(Then(Word(U32), // faceCount
    Word(U32)), // unknown1
    Word(U32)), // unknown2
    Then(Word(U16), // vertexSize
    Word(U16)))) // cdcdcdcd

  function VertexGroupVal(x: VertexGroup): Val {
    Pair(Pair(Pair(Pair(Nums(x.zeros), // zeros
    Num(x.maybePrimitive)), // maybePrimitive
    Num(x.vertexOffsetInBuffer)), // vertexOffsetInBuffer
    Pair(Pair(Num(x.unknown0), // unknown0
    Num(x.vertexCount)), // vertexCount
    Num(x.indexBufferOffset))), // indexBufferOffset
    Pair(Pair(Pair(Num(x.faceCount), // faceCount
    Num(x.unknown1)), // unknown1
    Num(x.unknown2)), // unknown2
    Pair(Num(x.vertexSize), // vertexSize
    Num(x.cdcdcdcd)))) // cdcdcdcd
  }

  function VertexGroupOf(v: Val): VertexGroup {
    VertexGroup(
      AsWords(U32, 3, First(First(First(First(v))))),
      AsWord(U32, Second(First(First(First(v))))),
      AsWord(U16, Second(First(First(v)))),
      AsWord(U16, First(First(Second(First(v))))),
      AsWord(U32, Second(First(Second(First(v))))),
      AsWord(U32, Second(Second(First(v)))),
      AsWord(U32, First(First(First(Second(v))))),
      AsWord(U32, Second(First(First(Second(v))))),
      AsWord(U32, Second(First(Second(v)))),
      AsWord(U16, First(Second(Second(v)))),
      AsWord(U16, Second(Second(Second(v)))))
  }

  // fields `zeros` to `vertexOffsetInBuffer`
  lemma VertexGroupConformsLL(pr: Prims, x: VertexGroup)
    ensures Conforms(pr, VertexGroupLayout.first.first, First(First(VertexGroupVal(x))))
  {
    U32sInRange(x.zeros);
  }

  // fields `unknown0` to `indexBufferOffset`
  lemma VertexGroupConformsLR(pr: Prims, x: VertexGroup)
    ensures Conforms(pr, VertexGroupLayout.first.second, Second(First(VertexGroupVal(x))))
  {
  }

  // fields `faceCount` to `unknown2`
  lemma VertexGroupConformsRL(pr: Prims, x: VertexGroup)
    ensures Conforms(pr, VertexGroupLayout.second.first, First(Second(VertexGroupVal(x))))
  {
  }

  // fields `vertexSize` to `cdcdcdcd`
  lemma VertexGroupConformsRR(pr: Prims, x: VertexGroup)
    ensures Conforms(pr, VertexGroupLayout.second.second, Second(Second(VertexGroupVal(x))))
  {
  }

  // fields `zeros` to `indexBufferOffset`
  lemma VertexGroupConformsL(pr: Prims, x: VertexGroup)
    ensures Conforms(pr, VertexGroupLayout.first, First(VertexGroupVal(x)))
  {
    VertexGroupConformsLL(pr, x);
    VertexGroupConformsLR(pr, x);
  }

  // fields `faceCount` to `cdcdcdcd`
  lemma VertexGroupConformsR(pr: Prims, x: VertexGroup)
    ensures Conforms(pr, VertexGroupLayout.second, Second(VertexGroupVal(x)))
  {
    VertexGroupConformsRL(pr, x);
    VertexGroupConformsRR(pr, x);
  }

  lemma VertexGroupConforms(pr: Prims, x: VertexGroup)
    ensures Conforms(pr, VertexGroupLayout, VertexGroupVal(x))
  {
    VertexGroupConformsL(pr, x);
    VertexGroupConformsR(pr, x);
  }

  lemma VertexGroupOfVal(pr: Prims, x: VertexGroup)
    ensures VertexGroupOf(VertexGroupVal(x)) == x
  {
  }

  // fields `zeros` to `vertexOffsetInBuffer`
  lemma VertexGroupFromLL(pr: Prims, v: Val)
    requires Conforms(pr, VertexGroupLayout.first.first, First(First(v)))
    ensures First(First(VertexGroupVal(VertexGroupOf(v)))) == First(First(v))
  {
  }

  // fields `unknown0` to `indexBufferOffset`
  lemma VertexGroupFromLR(pr: Prims, v: Val)
    requires Conforms(pr, VertexGroupLayout.first.second, Second(First(v)))
    ensures Second(First(VertexGroupVal(VertexGroupOf(v)))) == Second(First(v))
  {
  }

  // fields `faceCount` to `unknown2`
  lemma VertexGroupFromRL(pr: Prims, v: Val)
    requires Conforms(pr, VertexGroupLayout.second.first, First(Second(v)))
    ensures First(Second(VertexGroupVal(VertexGroupOf(v)))) == First(Second(v))
  {
  }

  // fields `vertexSize` to `cdcdcdcd`
  lemma VertexGroupFromRR(pr: Prims, v: Val)
    requires Conforms(pr, VertexGroupLayout.second.second, Second(Second(v)))
    ensures Second(Second(VertexGroupVal(VertexGroupOf(v)))) == Second(Second(v))
  {
  }

  // fields `zeros` to `indexBufferOffset`
  lemma VertexGroupFromL(pr: Prims, v: Val)
    requires Conforms(pr, VertexGroupLayout.first, First(v))
    ensures First(VertexGroupVal(VertexGroupOf(v))) == First(v)
  {
    VertexGroupFromLL(pr, v);
    VertexGroupFromLR(pr, v);
  }

  // fields `faceCount` to `cdcdcdcd`
  lemma VertexGroupFromR(pr: Prims, v: Val)
    requires Conforms(pr, VertexGroupLayout.second, Second(v))
    ensures Second(VertexGroupVal(VertexGroupOf(v))) == Second(v)
  {
    VertexGroupFromRL(pr, v);
    VertexGroupFromRR(pr, v);
  }

  lemma VertexGroupFrom(pr: Prims, v: Val)
    requires Conforms(pr, VertexGroupLayout, v)
    ensures VertexGroupVal(VertexGroupOf(v)) == v
  {
    VertexGroupFromL(pr, v);
    VertexGroupFromR(pr, v);
  }

  function VertexGroupView(): View<VertexGroup> {
    View(VertexGroupLayout, VertexGroupVal, VertexGroupOf, _ => true)
  }

  lemma VertexGroupFaithful(pr: Prims)
    ensures Faithful(pr, VertexGroupView())
  {
    forall x | true ensures Conforms(pr, VertexGroupLayout, VertexGroupVal(x)) && VertexGroupOf(VertexGroupVal(x)) == x {
      VertexGroupConforms(pr, x);
      VertexGroupOfVal(pr, x);
    }
    forall v | Conforms(pr, VertexGroupLayout, v) ensures VertexGroupVal(VertexGroupOf(v)) == v {
      VertexGroupFrom(pr, v);
    }
  }

  /** The fields of a `MeshZ` before its vertex buffers (mesh.rs:280-292). */
  datatype MeshZLead = MeshZLead(
    unknown0: u32,
    unknown1: u32,
    morpher: PascalArray<u32>,
    unknown2s: U32s4,
    materialCrc32s: PascalArray<u32>,
    unknown3s: Bytes24,
    sphereColCount: u32,
    boxColCount: u32,
    cylinderColCount: u32,
    aabbColRelCount: u32,
    aabbColCount: u32,
    vertices: PascalArray<Vec3i16>,
    unknown4: u32)

  const MeshZLeadLayout: Kind :=
    Then(Then(Then(Then(Word(U32), // unknown0
    Word(U32)), // unknown1
    Then(WordArray(U32), // morpher
    Words(U32, 4))), // unknown2s
    Then(Then(WordArray(U32), // materialCrc32s
    Words(U8, 24)), // unknown3s
    Word(U32))), // sphereColCount
    Then(Then(Then(Word(U32), // boxColCount
    Word(U32)), // cylinderColCount
    Word(U32)), // aabbColRelCount
    Then(Then(Word(U32), // aabbColCount
    Array(Vec3i16Layout)), // vertices
    Word(U32)))) // unknown4

  function MeshZLeadVal(x: MeshZLead): Val {
    Pair(Pair(Pair(Pair(Num(x.unknown0), // unknown0
    Num(x.unknown1)), // unknown1
    Pair(Nums(x.morpher), // morpher
    Nums(x.unknown2s))), // unknown2s
    Pair(Pair(Nums(x.materialCrc32s), // materialCrc32s
    Nums(x.unknown3s)), // unknown3s
    Num(x.sphereColCount))), // sphereColCount
    Pair(Pair(Pair(Num(x.boxColCount), // boxColCount
    Num(x.cylinderColCount)), // cylinderColCount
    Num(x.aabbColRelCount)), // aabbColRelCount
    Pair(Pair(Num(x.aabbColCount), // aabbColCount
    Vals(MapVals(Vec3i16Val, x.vertices))), // vertices
    Num(x.unknown4)))) // unknown4
  }

  function MeshZLeadOf(v: Val): MeshZLead {
    MeshZLead(
      AsWord(U32, First(First(First(First(v))))),
      AsWord(U32, Second(First(First(First(v))))),
      AsWordArray(U32, First(Second(First(First(v))))),
      AsWords(U32, 4, Second(Second(First(First(v))))),
      AsWordArray(U32, First(First(Second(First(v))))),
      AsWords(U8, 24, Second(First(Second(First(v))))),
      AsWord(U32, Second(Second(First(v)))),
      AsWord(U32, First(First(First(Second(v))))),
      AsWord(U32, Second(First(First(Second(v))))),
      AsWord(U32, Second(First(Second(v)))),
      AsWord(U32, First(First(Second(Second(v))))),
      AsRecords(Vec3i16Of, Second(First(Second(Second(v))))),
      AsWord(U32, Second(Second(Second(v)))))
  }

  // fields `unknown0` to `unknown2s`
  lemma MeshZLeadConformsLL(pr: Prims, x: MeshZLead)
    ensures Conforms(pr, MeshZLeadLayout.first.first, First(First(MeshZLeadVal(x))))
  {
    U32sInRange(x.morpher);
    U32sInRange(x.unknown2s);
  }

  // fields `materialCrc32s` to `sphereColCount`
  lemma MeshZLeadConformsLR(pr: Prims, x: MeshZLead)
    ensures Conforms(pr, MeshZLeadLayout.first.second, Second(First(MeshZLeadVal(x))))
  {
    U32sInRange(x.materialCrc32s);
    U8sInRange(x.unknown3s);
  }

  // fields `boxColCount` to `aabbColRelCount`
  lemma MeshZLeadConformsRL(pr: Prims, x: MeshZLead)
    ensures Conforms(pr, MeshZLeadLayout.second.first, First(Second(MeshZLeadVal(x))))
  {
  }

  // fields `aabbColCount` to `unknown4`
  lemma MeshZLeadConformsRR(pr: Prims, x: MeshZLead)
    ensures Conforms(pr, MeshZLeadLayout.second.second, Second(Second(MeshZLeadVal(x))))
  {
    Vec3i16Faithful(pr);
    ElementsConform(pr, Vec3i16View(), x.vertices);
  }

  // fields `unknown0` to `sphereColCount`
  lemma MeshZLeadConformsL(pr: Prims, x: MeshZLead)
    ensures Conforms(pr, MeshZLeadLayout.first, First(MeshZLeadVal(x)))
  {
    MeshZLeadConformsLL(pr, x);
    MeshZLeadConformsLR(pr, x);
  }

  // fields `boxColCount` to `unknown4`
  lemma MeshZLeadConformsR(pr: Prims, x: MeshZLead)
    ensures Conforms(pr, MeshZLeadLayout.second, Second(MeshZLeadVal(x)))
  {
    MeshZLeadConformsRL(pr, x);
    MeshZLeadConformsRR(pr, x);
  }

  lemma MeshZLeadConforms(pr: Prims, x: MeshZLead)
    ensures Conforms(pr, MeshZLeadLayout, MeshZLeadVal(x))
  {
    MeshZLeadConformsL(pr, x);
    MeshZLeadConformsR(pr, x);
  }

  lemma MeshZLeadOfVal(pr: Prims, x: MeshZLead)
    ensures MeshZLeadOf(MeshZLeadVal(x)) == x
  {
    Vec3i16Faithful(pr);
    ElementsOfVal(pr, Vec3i16View(), x.vertices);
  }

  // fields `unknown0` to `unknown2s`
  lemma MeshZLeadFromLL(pr: Prims, v: Val)
    requires Conforms(pr, MeshZLeadLayout.first.first, First(First(v)))
    ensures First(First(MeshZLeadVal(MeshZLeadOf(v)))) == First(First(v))
  {
  }

  // fields `materialCrc32s` to `sphereColCount`
  lemma MeshZLeadFromLR(pr: Prims, v: Val)
    requires Conforms(pr, MeshZLeadLayout.first.second, Second(First(v)))
    ensures Second(First(MeshZLeadVal(MeshZLeadOf(v)))) == Second(First(v))
  {
  }

  // fields `boxColCount` to `aabbColRelCount`
  lemma MeshZLeadFromRL(pr: Prims, v: Val)
    requires Conforms(pr, MeshZLeadLayout.second.first, First(Second(v)))
    ensures First(Second(MeshZLeadVal(MeshZLeadOf(v)))) == First(Second(v))
  {
  }

  // fields `aabbColCount` to `unknown4`
  lemma MeshZLeadFromRR(pr: Prims, v: Val)
    requires Conforms(pr, MeshZLeadLayout.second.second, Second(Second(v)))
    ensures Second(Second(MeshZLeadVal(MeshZLeadOf(v)))) == Second(Second(v))
  {
    Vec3i16Faithful(pr);
    ElementsFrom(pr, Vec3i16View(), Second(First(Second(Second(v)))));
  }

  // fields `unknown0` to `sphereColCount`
  lemma MeshZLeadFromL(pr: Prims, v: Val)
    requires Conforms(pr, MeshZLeadLayout.first, First(v))
    ensures First(MeshZLeadVal(MeshZLeadOf(v))) == First(v)
  {
    MeshZLeadFromLL(pr, v);
    MeshZLeadFromLR(pr, v);
  }

  // fields `boxColCount` to `unknown4`
  lemma MeshZLeadFromR(pr: Prims, v: Val)
    requires Conforms(pr, MeshZLeadLayout.second, Second(v))
    ensures Second(MeshZLeadVal(MeshZLeadOf(v))) == Second(v)
  {
    MeshZLeadFromRL(pr, v);
    MeshZLeadFromRR(pr, v);
  }

  lemma MeshZLeadFrom(pr: Prims, v: Val)
    requires Conforms(pr, MeshZLeadLayout, v)
    ensures MeshZLeadVal(MeshZLeadOf(v)) == v
  {
    MeshZLeadFromL(pr, v);
    MeshZLeadFromR(pr, v);
  }

  function MeshZLeadView(): View<MeshZLead> {
    View(MeshZLeadLayout, MeshZLeadVal, MeshZLeadOf, _ => true)
  }

  lemma MeshZLeadFaithful(pr: Prims)
    ensures Faithful(pr, MeshZLeadView())
  {
    forall x | true ensures Conforms(pr, MeshZLeadLayout, MeshZLeadVal(x)) && MeshZLeadOf(MeshZLeadVal(x)) == x {
      MeshZLeadConforms(pr, x);
      MeshZLeadOfVal(pr, x);
    }
    forall v | Conforms(pr, MeshZLeadLayout, v) ensures MeshZLeadVal(MeshZLeadOf(v)) == v {
      MeshZLeadFrom(pr, v);
    }
  }

  /** The fields of a `MeshZ` after its index buffers (mesh.rs:295-296). */
  datatype MeshZTail = MeshZTail(
    vertexGroups: PascalArray<VertexGroup>,
    pad0: U32s4)

  const MeshZTailLayout: Kind :=
    Then(Array(VertexGroupLayout), // vertexGroups
    Words(U32, 4)) // pad0

  function MeshZTailVal(x: MeshZTail): Val {
    Pair(Vals(MapVals(VertexGroupVal, x.vertexGroups)), // vertexGroups
    Nums(x.pad0)) // pad0
  }

  function MeshZTailOf(v: Val): MeshZTail {
    MeshZTail(
      AsRecords(VertexGroupOf, First(v)),
      AsWords(U32, 4, Second(v)))
  }

  lemma MeshZTailConforms(pr: Prims, x: MeshZTail)
    ensures Conforms(pr, MeshZTailLayout, MeshZTailVal(x))
  {
    VertexGroupFaithful(pr);
    ElementsConform(pr, VertexGroupView(), x.vertexGroups);
    U32sInRange(x.pad0);
  }

  lemma MeshZTailOfVal(pr: Prims, x: MeshZTail)
    ensures MeshZTailOf(MeshZTailVal(x)) == x
  {
    VertexGroupFaithful(pr);
    ElementsOfVal(pr, VertexGroupView(), x.vertexGroups);
  }

  lemma MeshZTailFrom(pr: Prims, v: Val)
    requires Conforms(pr, MeshZTailLayout, v)
    ensures MeshZTailVal(MeshZTailOf(v)) == v
  {
    VertexGroupFaithful(pr);
    ElementsFrom(pr, VertexGroupView(), First(v));
  }

  function MeshZTailView(): View<MeshZTail> {
    View(MeshZTailLayout, MeshZTailVal, MeshZTailOf, _ => true)
  }

  lemma MeshZTailFaithful(pr: Prims)
    ensures Faithful(pr, MeshZTailView())
  {
    forall x | true ensures Conforms(pr, MeshZTailLayout, MeshZTailVal(x)) && MeshZTailOf(MeshZTailVal(x)) == x {
      MeshZTailConforms(pr, x);
      MeshZTailOfVal(pr, x);
    }
    forall v | Conforms(pr, MeshZTailLayout, v) ensures MeshZTailVal(MeshZTailOf(v)) == v {
      MeshZTailFrom(pr, v);
    }
  }

  /** The mesh header (mesh.rs:303-312), fields in declared order. */
  datatype MeshZHeader = MeshZHeader(
    friendlyNameCrc32: u32,
    crc32s: PascalArray<u32>,
    meshDataCrc32: u32,
    rot: Quat,
    transform: Mat4f,
    radius: f32,
    flags: u32,
    meshType: u16)

  const MeshZHeaderLayout: Kind :=
    Then(Then(Then(Word(U32), // friendlyNameCrc32
    WordArray(U32)), // crc32s
    Then(Word(U32), // meshDataCrc32
    Words(F32, 4))), // rot
    Then(Then(Words(F32, 16), // transform
    Word(F32)), // radius
    Then(Word(U32), // flags
    Word(U16)))) // meshType

  function MeshZHeaderVal(x: MeshZHeader): Val {
    Pair(Pair(Pair(Num(x.friendlyNameCrc32), // friendlyNameCrc32
    Nums(x.crc32s)), // crc32s
    Pair(Num(x.meshDataCrc32), // meshDataCrc32
    Nums(x.rot))), // rot
    Pair(Pair(Nums(x.transform), // transform
    Num(x.radius)), // radius
    Pair(Num(x.flags), // flags
    Num(x.meshType)))) // meshType
  }

  function MeshZHeaderOf(v: Val): MeshZHeader {
    MeshZHeader(
      AsWord(U32, First(First(First(v)))),
      AsWordArray(U32, Second(First(First(v)))),
      AsWord(U32, First(Second(First(v)))),
      AsWords(F32, 4, Second(Second(First(v)))),
      AsWords(F32, 16, First(First(Second(v)))),
      AsWord(F32, Second(First(Second(v)))),
      AsWord(U32, First(Second(Second(v)))),
      AsWord(U16, Second(Second(Second(v)))))
  }

  // fields `friendlyNameCrc32` to `rot`
  lemma MeshZHeaderConformsL(pr: Prims, x: MeshZHeader)
    ensures Conforms(pr, MeshZHeaderLayout.first, First(MeshZHeaderVal(x)))
  {
    U32sInRange(x.crc32s);
    U32sInRange(x.rot);
  }

  // fields `transform` to `meshType`
  lemma MeshZHeaderConformsR(pr: Prims, x: MeshZHeader)
    ensures Conforms(pr, MeshZHeaderLayout.second, Second(MeshZHeaderVal(x)))
  {
    U32sInRange(x.transform);
  }

  lemma MeshZHeaderConforms(pr: Prims, x: MeshZHeader)
    ensures Conforms(pr, MeshZHeaderLayout, MeshZHeaderVal(x))
  {
    MeshZHeaderConformsL(pr, x);
    MeshZHeaderConformsR(pr, x);
  }

  lemma MeshZHeaderOfVal(pr: Prims, x: MeshZHeader)
    ensures MeshZHeaderOf(MeshZHeaderVal(x)) == x
  {
  }

  // fields `friendlyNameCrc32` to `rot`
  lemma MeshZHeaderFromL(pr: Prims, v: Val)
    requires Conforms(pr, MeshZHeaderLayout.first, First(v))
    ensures First(MeshZHeaderVal(MeshZHeaderOf(v))) == First(v)
  {
  }

  // fields `transform` to `meshType`
  lemma MeshZHeaderFromR(pr: Prims, v: Val)
    requires Conforms(pr, MeshZHeaderLayout.second, Second(v))
    ensures Second(MeshZHeaderVal(MeshZHeaderOf(v))) == Second(v)
  {
  }

  lemma MeshZHeaderFrom(pr: Prims, v: Val)
    requires Conforms(pr, MeshZHeaderLayout, v)
    ensures MeshZHeaderVal(MeshZHeaderOf(v)) == v
  {
    MeshZHeaderFromL(pr, v);
    MeshZHeaderFromR(pr, v);
  }

  function MeshZHeaderView(): View<MeshZHeader> {
    View(MeshZHeaderLayout, MeshZHeaderVal, MeshZHeaderOf, _ => true)
  }

  lemma MeshZHeaderFaithful(pr: Prims)
    ensures Faithful(pr, MeshZHeaderView())
  {
    forall x | true ensures Conforms(pr, MeshZHeaderLayout, MeshZHeaderVal(x)) && MeshZHeaderOf(MeshZHeaderVal(x)) == x {
      MeshZHeaderConforms(pr, x);
      MeshZHeaderOfVal(pr, x);
    }
    forall v | Conforms(pr, MeshZHeaderLayout, v) ensures MeshZHeaderVal(MeshZHeaderOf(v)) == v {
      MeshZHeaderFrom(pr, v);
    }
  }

  /** `#[nom(Exact)]`: the whole header is one `MeshZHeader`. */
  function MeshZHeaderSchema(): Schema<MeshZHeader> {
    RecordSchema(NoPrims, MeshZHeaderView(), true)
  }

  lemma MeshZHeaderSchemaLawful()
    ensures LawfulSchema(MeshZHeaderSchema())
  {
    NoPrimsLawful();
    MeshZHeaderFaithful(NoPrims);
    RecordSchemaLawful(NoPrims, MeshZHeaderView(), true);
  }

  // ---------------------------------------------------------------------
  // Vertex buffers: the stride selects the element layout.

  datatype VertexBufferData =
    | VertexLayout4BlendCase(blend4: seq<VertexLayout4Blend>)
    | VertexLayout1BlendCase(blend1: seq<VertexLayout1Blend>)
    | VertexLayoutNoBlendCase(noBlend: seq<VertexLayoutNoBlend>)
    | VertexLayoutPositionUVCase(positionUV: seq<VertexLayoutPositionUV>)

  /** The number of vertices, whichever the layout. */
  function VertexCount(d: VertexBufferData): nat {
    match d
    case VertexLayout4BlendCase(xs) => |xs|
    case VertexLayout1BlendCase(xs) => |xs|
    case VertexLayoutNoBlendCase(xs) => |xs|
    case VertexLayoutPositionUVCase(xs) => |xs|
  }

  /** The stride that selects each layout in `VertexBufferData::parse`. */
  function Stride(d: VertexBufferData): u32 {
    match d
    case VertexLayout4BlendCase(_) => 60
    case VertexLayout1BlendCase(_) => 48
    case VertexLayoutNoBlendCase(_) => 36
    case VertexLayoutPositionUVCase(_) => 24
  }

  /** Each vertex layout is as wide as the stride that selects it. */
  lemma VertexLayoutWidths()
    ensures Width(VertexLayout4BlendLayout) == Some(60)
    ensures Width(VertexLayout1BlendLayout) == Some(48)
    ensures Width(VertexLayoutNoBlendLayout) == Some(36)
    ensures Width(VertexLayoutPositionUVLayout) == Some(24)
  {
  }

  /** `VertexBufferData::parse`: `count` vertices of the layout the stride selects; any other stride fails. */
  function ParseVertexData(size: u32, count: nat, s: seq<u8>): Result<(VertexBufferData, seq<u8>)> {
    if size == 60 then
      var x :- Parse(NoPrims, Repeat(VertexLayout4BlendLayout, count), s);
      Ok((VertexLayout4BlendCase(AsRepeat(VertexLayout4BlendOf, count, x.0)), x.1))
    else if size == 48 then
      var x :- Parse(NoPrims, Repeat(VertexLayout1BlendLayout, count), s);
      Ok((VertexLayout1BlendCase(AsRepeat(VertexLayout1BlendOf, count, x.0)), x.1))
    else if size == 36 then
      var x :- Parse(NoPrims, Repeat(VertexLayoutNoBlendLayout, count), s);
      Ok((VertexLayoutNoBlendCase(AsRepeat(VertexLayoutNoBlendOf, count, x.0)), x.1))
    else if size == 24 then
      var x :- Parse(NoPrims, Repeat(VertexLayoutPositionUVLayout, count), s);
      Ok((VertexLayoutPositionUVCase(AsRepeat(VertexLayoutPositionUVOf, count, x.0)), x.1))
    else
      Err(UnmatchedVariant(size))
  }

  /** The writer emits the present variant's vertices, and no tag. */
  function EmitVertexData(d: VertexBufferData, tail: seq<u8>): seq<u8> {
    match d
    case VertexLayout4BlendCase(xs) => Emit(Repeat(VertexLayout4BlendLayout, |xs|), Vals(MapVals(VertexLayout4BlendVal, xs)), tail)
    case VertexLayout1BlendCase(xs) => Emit(Repeat(VertexLayout1BlendLayout, |xs|), Vals(MapVals(VertexLayout1BlendVal, xs)), tail)
    case VertexLayoutNoBlendCase(xs) => Emit(Repeat(VertexLayoutNoBlendLayout, |xs|), Vals(MapVals(VertexLayoutNoBlendVal, xs)), tail)
    case VertexLayoutPositionUVCase(xs) => Emit(Repeat(VertexLayoutPositionUVLayout, |xs|), Vals(MapVals(VertexLayoutPositionUVVal, xs)), tail)
  }

  /** Vertices written without a tag parse back with the stride and count of their variant. */
  lemma VertexDataRecovers(d: VertexBufferData, t: seq<u8>)
    ensures ParseVertexData(Stride(d), VertexCount(d), EmitVertexData(d, t)) == Ok((d, t))
  {
    NoPrimsLawful();
    match d
    case VertexLayout4BlendCase(xs) =>
      VertexLayout4BlendFaithful(NoPrims);
      ElementsConform(NoPrims, VertexLayout4BlendView(), xs);
      Recover(NoPrims, Repeat(VertexLayout4BlendLayout, |xs|), Vals(MapVals(VertexLayout4BlendVal, xs)), t);
      ElementsRepeatOfVal(NoPrims, VertexLayout4BlendView(), |xs|, xs);
    case VertexLayout1BlendCase(xs) =>
      VertexLayout1BlendFaithful(NoPrims);
      ElementsConform(NoPrims, VertexLayout1BlendView(), xs);
      Recover(NoPrims, Repeat(VertexLayout1BlendLayout, |xs|), Vals(MapVals(VertexLayout1BlendVal, xs)), t);
      ElementsRepeatOfVal(NoPrims, VertexLayout1BlendView(), |xs|, xs);
    case VertexLayoutNoBlendCase(xs) =>
      VertexLayoutNoBlendFaithful(NoPrims);
      ElementsConform(NoPrims, VertexLayoutNoBlendView(), xs);
      Recover(NoPrims, Repeat(VertexLayoutNoBlendLayout, |xs|), Vals(MapVals(VertexLayoutNoBlendVal, xs)), t);
      ElementsRepeatOfVal(NoPrims, VertexLayoutNoBlendView(), |xs|, xs);
    case VertexLayoutPositionUVCase(xs) =>
      VertexLayoutPositionUVFaithful(NoPrims);
      ElementsConform(NoPrims, VertexLayoutPositionUVView(), xs);
      Recover(NoPrims, Repeat(VertexLayoutPositionUVLayout, |xs|), Vals(MapVals(VertexLayoutPositionUVVal, xs)), t);
      ElementsRepeatOfVal(NoPrims, VertexLayoutPositionUVView(), |xs|, xs);
  }

  /** A run of `count` records of a fixed-width view takes `width * count` bytes and re-emits to its input. */
  lemma RepeatAccounts<T(!new)>(c: View<T>, width: nat, count: nat, s: seq<u8>)
    requires Faithful(NoPrims, c) && Width(c.k) == Some(width) && Parse(NoPrims, Repeat(c.k, count), s).Ok?
    ensures var x := Parse(NoPrims, Repeat(c.k, count), s).value;
      var xs := AsRepeat(c.ofVal, count, x.0);
      && Emit(Repeat(c.k, |xs|), Vals(MapVals(c.toVal, xs)), x.1) == s
      && |s| == width * count + |x.1|
  {
    NoPrimsLawful();
    Account(NoPrims, Repeat(c.k, count), s);
    var x := Parse(NoPrims, Repeat(c.k, count), s).value;
    Length(NoPrims, Repeat(c.k, count), x.0, x.1);
    WidthLen(NoPrims, Repeat(c.k, count), x.0);
    ElementsRepeatFrom(NoPrims, c, count, x.0);
  }

  /**
   * Strides 60, 48, 36 and 24 select the 4Blend, 1Blend, NoBlend and
   * PositionUV layouts, `count` vertices take `count * stride` bytes, and the
   * vertices re-emit to the bytes they came from; any other stride fails.
   */
  lemma VertexDataAccounts(size: u32, count: nat, s: seq<u8>)
    ensures size != 60 && size != 48 && size != 36 && size != 24 ==> ParseVertexData(size, count, s) == Err(UnmatchedVariant(size))
    ensures ParseVertexData(size, count, s).Ok? ==>
      var d, r := ParseVertexData(size, count, s).value.0, ParseVertexData(size, count, s).value.1;
      && Stride(d) == size && VertexCount(d) == count
      && |s| == size as int * count + |r|
      && EmitVertexData(d, r) == s
  {
    if ParseVertexData(size, count, s).Ok? {
      VertexLayoutWidths();
      if size == 60 {
        VertexLayout4BlendFaithful(NoPrims);
        RepeatAccounts(VertexLayout4BlendView(), 60, count, s);
      } else if size == 48 {
        VertexLayout1BlendFaithful(NoPrims);
        RepeatAccounts(VertexLayout1BlendView(), 48, count, s);
      } else if size == 36 {
        VertexLayoutNoBlendFaithful(NoPrims);
        RepeatAccounts(VertexLayoutNoBlendView(), 36, count, s);
      } else {
        VertexLayoutPositionUVFaithful(NoPrims);
        RepeatAccounts(VertexLayoutPositionUVView(), 24, count, s);
      }
    }
  }

  lemma VertexDataAppends(d: VertexBufferData, t: seq<u8>)
    ensures EmitVertexData(d, t) == EmitVertexData(d, []) + t
  {
    match d
    case VertexLayout4BlendCase(xs) => EmitAppends(Repeat(VertexLayout4BlendLayout, |xs|), Vals(MapVals(VertexLayout4BlendVal, xs)), t);
    case VertexLayout1BlendCase(xs) => EmitAppends(Repeat(VertexLayout1BlendLayout, |xs|), Vals(MapVals(VertexLayout1BlendVal, xs)), t);
    case VertexLayoutNoBlendCase(xs) => EmitAppends(Repeat(VertexLayoutNoBlendLayout, |xs|), Vals(MapVals(VertexLayoutNoBlendVal, xs)), t);
    case VertexLayoutPositionUVCase(xs) => EmitAppends(Repeat(VertexLayoutPositionUVLayout, |xs|), Vals(MapVals(VertexLayoutPositionUVVal, xs)), t);
  }

  /** A vertex buffer: its count and stride as stored, its id and its vertices. */
  datatype VertexBufferExt = VertexBufferExt(vertexCount: u32, vertexSize: u32, vertexBufferId: u32, vertices: VertexBufferData)

  function ParseVertexBufferExt(s: seq<u8>): Result<(VertexBufferExt, seq<u8>)> {
    var count :- ParseU32(s);
    var size :- ParseU32(count.1);
    var id :- ParseU32(size.1);
    var d :- ParseVertexData(size.0, count.0, id.1);
    Ok((VertexBufferExt(count.0, size.0, id.0, d.0), d.1))
  }

  /** The stored count and stride are written as they are, then the vertices. */
  function EmitVertexBufferExt(x: VertexBufferExt, tail: seq<u8>): seq<u8> {
    EmitU32(x.vertexCount, EmitU32(x.vertexSize, EmitU32(x.vertexBufferId, EmitVertexData(x.vertices, tail))))
  }

  /** The stored count and stride agree with the vertices. */
  predicate WfVertexBufferExt(x: VertexBufferExt) {
    x.vertexSize == Stride(x.vertices) && x.vertexCount as int == VertexCount(x.vertices)
  }

  lemma VertexBufferExtRecovers(x: VertexBufferExt, t: seq<u8>)
    requires WfVertexBufferExt(x)
    ensures ParseVertexBufferExt(EmitVertexBufferExt(x, t)) == Ok((x, t))
  {
    var r3 := EmitVertexData(x.vertices, t);
    VertexDataRecovers(x.vertices, t);
    U32Recovers(x.vertexBufferId, r3);
    U32Recovers(x.vertexSize, EmitU32(x.vertexBufferId, r3));
    U32Recovers(x.vertexCount, EmitU32(x.vertexSize, EmitU32(x.vertexBufferId, r3)));
  }

  /** A vertex buffer that parses is consistent, takes 12 bytes plus `count * stride`, and re-emits to its input. */
  lemma VertexBufferExtAccounts(s: seq<u8>)
    requires ParseVertexBufferExt(s).Ok?
    ensures var x, r := ParseVertexBufferExt(s).value.0, ParseVertexBufferExt(s).value.1;
      && WfVertexBufferExt(x) && EmitVertexBufferExt(x, r) == s
      && |s| == 12 + x.vertexSize as int * x.vertexCount as int + |r|
  {
    U32Accounts(s);
    U32Accounts(s[4..]);
    U32Accounts(s[8..]);
    assert s[4..][4..] == s[8..] && s[8..][4..] == s[12..];
    var x := ParseVertexBufferExt(s).value.0;
    VertexDataAccounts(x.vertexSize, x.vertexCount as int, s[12..]);
  }

  lemma VertexBufferExtAppends(x: VertexBufferExt, t: seq<u8>)
    ensures EmitVertexBufferExt(x, t) == EmitVertexBufferExt(x, []) + t
  {
    VertexDataAppends(x.vertices, t);
  }

  /**
   * `From<VertexBufferExtShadow>` as written: the count is the number of
   * vertices, and the stride 60, 48 or 36 by variant, but 12 for PositionUV.
   */
  function ShadowStrideAsWritten(d: VertexBufferData): u32 {
    match d
    case VertexLayout4BlendCase(_) => 60
    case VertexLayout1BlendCase(_) => 48
    case VertexLayoutNoBlendCase(_) => 36
    case VertexLayoutPositionUVCase(_) => 12
  }

  function VertexBufferExtFromAsWritten(id: u32, d: VertexBufferData): VertexBufferExt {
    VertexBufferExt(VertexCount(d) % 0x1_0000_0000, ShadowStrideAsWritten(d), id, d)
  }

  /** As written, a PositionUV buffer built from its shadow is written with stride 12, which the parser rejects. */
  lemma PositionUVShadowFails(id: u32, xs: seq<VertexLayoutPositionUV>)
    ensures ParseVertexBufferExt(EmitVertexBufferExt(VertexBufferExtFromAsWritten(id, VertexLayoutPositionUVCase(xs)), [])) == Err(UnmatchedVariant(12))
  {
    var x := VertexBufferExtFromAsWritten(id, VertexLayoutPositionUVCase(xs));
    var r3 := EmitVertexData(x.vertices, []);
    U32Recovers(x.vertexBufferId, r3);
    U32Recovers(x.vertexSize, EmitU32(x.vertexBufferId, r3));
    U32Recovers(x.vertexCount, EmitU32(x.vertexSize, EmitU32(x.vertexBufferId, r3)));
  }

  /** The intended shadow conversion: the stride of the variant, as the parser selects it. */
  function VertexBufferExtFrom(id: u32, d: VertexBufferData): VertexBufferExt {
    VertexBufferExt(VertexCount(d) % 0x1_0000_0000, Stride(d), id, d)
  }

  /**
   * The two conversions differ exactly on PositionUV, and a buffer built by
   * the intended one from fewer than 2^32 vertices round-trips.
   */
  lemma VertexBufferExtFromRoundTrip(id: u32, d: VertexBufferData, t: seq<u8>)
    requires VertexCount(d) < 0x1_0000_0000
    ensures ShadowStrideAsWritten(d) == Stride(d) <==> !d.VertexLayoutPositionUVCase?
    ensures WfVertexBufferExt(VertexBufferExtFrom(id, d))
    ensures ParseVertexBufferExt(EmitVertexBufferExt(VertexBufferExtFrom(id, d), t)) == Ok((VertexBufferExtFrom(id, d), t))
  {
    VertexBufferExtRecovers(VertexBufferExtFrom(id, d), t);
  }

  // ---------------------------------------------------------------------
  // Index buffers: the count precedes the indices.

  datatype IndexBufferExt = IndexBufferExt(indexCount: u32, indexBufferId: u32, indices: seq<i16>)

  /** `#[nom(Count(index_count))]`: exactly `index_count` i16 after the id. */
  function ParseIndexBufferExt(s: seq<u8>): Result<(IndexBufferExt, seq<u8>)> {
    var count :- ParseU32(s);
    var id :- ParseU32(count.1);
    var xs :- ParseWords(I16, count.0, id.1);
    Ok((IndexBufferExt(count.0, id.0, AsWords(I16, count.0, Nums(xs.0))), xs.1))
  }

  /** The stored count is written as it is, whatever the number of indices. */
  function EmitIndexBufferExt(x: IndexBufferExt, tail: seq<u8>): seq<u8> {
    EmitU32(x.indexCount, EmitU32(x.indexBufferId, EmitWords(I16, x.indices, tail)))
  }

  predicate WfIndexBufferExt(x: IndexBufferExt) {
    x.indexCount as int == |x.indices|
  }

  lemma IndexBufferExtRecovers(x: IndexBufferExt, t: seq<u8>)
    requires WfIndexBufferExt(x)
    ensures ParseIndexBufferExt(EmitIndexBufferExt(x, t)) == Ok((x, t))
  {
    var r2 := EmitWords(I16, x.indices, t);
    I16sInRange(x.indices);
    WordsRecover(I16, x.indices, t);
    U32Recovers(x.indexBufferId, r2);
    U32Recovers(x.indexCount, EmitU32(x.indexBufferId, r2));
  }

  /** An index buffer that parses holds `index_count` indices, takes `8 + 2 * index_count` bytes and re-emits to its input. */
  lemma IndexBufferExtAccounts(s: seq<u8>)
    requires ParseIndexBufferExt(s).Ok?
    ensures var x, r := ParseIndexBufferExt(s).value.0, ParseIndexBufferExt(s).value.1;
      && WfIndexBufferExt(x) && EmitIndexBufferExt(x, r) == s
      && |s| == 8 + 2 * x.indexCount as int + |r|
  {
    U32Accounts(s);
    U32Accounts(s[4..]);
    assert s[4..][4..] == s[8..];
    var x := ParseIndexBufferExt(s).value.0;
    WordsAccount(I16, x.indexCount as int, s[8..]);
    var w := ParseWords(I16, x.indexCount as int, s[8..]).value;
    WordsLength(I16, w.0, w.1);
  }

  /** A buffer whose stored count disagrees with its indices does not come back as itself. */
  lemma IndexCountVerbatim(x: IndexBufferExt, t: seq<u8>)
    requires !WfIndexBufferExt(x)
    ensures ParseIndexBufferExt(EmitIndexBufferExt(x, t)) != Ok((x, t))
  {
    var r2 := EmitWords(I16, x.indices, t);
    U32Recovers(x.indexBufferId, r2);
    U32Recovers(x.indexCount, EmitU32(x.indexBufferId, r2));
  }

  lemma IndexBufferExtAppends(x: IndexBufferExt, t: seq<u8>)
    ensures EmitIndexBufferExt(x, t) == EmitIndexBufferExt(x, []) + t
  {
    WordsAppend(I16, x.indices, t);
  }

  /** `From<IndexBufferExtShadow>`: the count recomputed from the indices (not wired to deserialisation). */
  function IndexBufferExtFrom(id: u32, indices: seq<i16>): (x: IndexBufferExt)
    ensures |indices| < 0x1_0000_0000 ==> WfIndexBufferExt(x)
    ensures x.indexBufferId == id && x.indices == indices
  {
    IndexBufferExt(|indices| % 0x1_0000_0000, id, indices)
  }

  // ---------------------------------------------------------------------
  // The mesh body.

  /** A `MeshZ`, fields in declared order: those before the vertex buffers, the two buffer arrays, and those after. */
  datatype MeshZ = MeshZ(lead: MeshZLead, vertexBuffers: PascalArray<VertexBufferExt>, indices: PascalArray<IndexBufferExt>, tail: MeshZTail)

  function ParseMeshZ(s: seq<u8>): Result<(MeshZ, seq<u8>)> {
    var a :- Parse(NoPrims, MeshZLeadLayout, s);
    var n :- ParseU32(a.1);
    var vb :- ParseRun(ParseVertexBufferExt, n.0, n.1);
    var m :- ParseU32(vb.1);
    var ib :- ParseRun(ParseIndexBufferExt, m.0, m.1);
    var z :- Parse(NoPrims, MeshZTailLayout, ib.1);
    Ok((MeshZ(MeshZLeadOf(a.0), vb.0, ib.0, MeshZTailOf(z.0)), z.1))
  }

  /** The buffers and what follows them, in front of `tail`. */
  function EmitMeshZBuffers(x: MeshZ, tail: seq<u8>): seq<u8> {
    EmitU32(|x.vertexBuffers|, EmitRun(EmitVertexBufferExt, x.vertexBuffers,
      EmitU32(|x.indices|, EmitRun(EmitIndexBufferExt, x.indices, Emit(MeshZTailLayout, MeshZTailVal(x.tail), tail)))))
  }

  function EmitMeshZ(x: MeshZ, tail: seq<u8>): seq<u8> {
    Emit(MeshZLeadLayout, MeshZLeadVal(x.lead), EmitMeshZBuffers(x, tail))
  }

  /** Every buffer's stored counts and stride agree with its contents. */
  predicate WfMeshZ(x: MeshZ) {
    && (forall i | 0 <= i < |x.vertexBuffers| :: WfVertexBufferExt(x.vertexBuffers[i]))
    && (forall i | 0 <= i < |x.indices| :: WfIndexBufferExt(x.indices[i]))
  }

  lemma MeshZBuffersRecover(x: MeshZ, t: seq<u8>)
    requires WfMeshZ(x)
    ensures var r := Emit(MeshZTailLayout, MeshZTailVal(x.tail), t);
      ParseU32(EmitMeshZBuffers(x, t)).Ok? &&
      var n := ParseU32(EmitMeshZBuffers(x, t)).value;
      && n.0 as int == |x.vertexBuffers|
      && ParseRun(ParseVertexBufferExt, n.0, n.1) == Ok((x.vertexBuffers, EmitU32(|x.indices|, EmitRun(EmitIndexBufferExt, x.indices, r))))
      && ParseU32(EmitU32(|x.indices|, EmitRun(EmitIndexBufferExt, x.indices, r))) == Ok((|x.indices|, EmitRun(EmitIndexBufferExt, x.indices, r)))
      && ParseRun(ParseIndexBufferExt, |x.indices|, EmitRun(EmitIndexBufferExt, x.indices, r)) == Ok((x.indices, r))
  {
    var r := Emit(MeshZTailLayout, MeshZTailVal(x.tail), t);
    forall i, t' | 0 <= i < |x.indices| ensures ParseIndexBufferExt(EmitIndexBufferExt(x.indices[i], t')) == Ok((x.indices[i], t')) {
      IndexBufferExtRecovers(x.indices[i], t');
    }
    RunRecovers(ParseIndexBufferExt, EmitIndexBufferExt, x.indices, r);
    var r2 := EmitRun(EmitIndexBufferExt, x.indices, r);
    U32Recovers(|x.indices|, r2);
    var r1 := EmitU32(|x.indices|, r2);
    forall i, t' | 0 <= i < |x.vertexBuffers| ensures ParseVertexBufferExt(EmitVertexBufferExt(x.vertexBuffers[i], t')) == Ok((x.vertexBuffers[i], t')) {
      VertexBufferExtRecovers(x.vertexBuffers[i], t');
    }
    RunRecovers(ParseVertexBufferExt, EmitVertexBufferExt, x.vertexBuffers, r1);
    U32Recovers(|x.vertexBuffers|, EmitRun(EmitVertexBufferExt, x.vertexBuffers, r1));
  }

  /** A mesh whose buffers are consistent decodes from its own encoding, whatever follows it. */
  lemma MeshZRecovers(x: MeshZ, t: seq<u8>)
    requires WfMeshZ(x)
    ensures ParseMeshZ(EmitMeshZ(x, t)) == Ok((x, t))
  {
    MeshZBuffersRecover(x, t);
    MeshZTailRecovers(x.tail, t);
    MeshZLeadRecovers(x.lead, EmitMeshZBuffers(x, t));
  }

  lemma MeshZLeadRecovers(l: MeshZLead, t: seq<u8>)
    ensures Parse(NoPrims, MeshZLeadLayout, Emit(MeshZLeadLayout, MeshZLeadVal(l), t)) == Ok((MeshZLeadVal(l), t))
    ensures MeshZLeadOf(MeshZLeadVal(l)) == l
  {
    NoPrimsLawful();
    MeshZLeadConforms(NoPrims, l);
    Recover(NoPrims, MeshZLeadLayout, MeshZLeadVal(l), t);
    MeshZLeadOfVal(NoPrims, l);
  }

  lemma MeshZTailRecovers(z: MeshZTail, t: seq<u8>)
    ensures Parse(NoPrims, MeshZTailLayout, Emit(MeshZTailLayout, MeshZTailVal(z), t)) == Ok((MeshZTailVal(z), t))
    ensures MeshZTailOf(MeshZTailVal(z)) == z
  {
    NoPrimsLawful();
    MeshZTailConforms(NoPrims, z);
    Recover(NoPrims, MeshZTailLayout, MeshZTailVal(z), t);
    MeshZTailOfVal(NoPrims, z);
  }

  lemma MeshZBuffersAccount(s: seq<u8>)
    requires ParseU32(s).Ok? && ParseRun(ParseVertexBufferExt, ParseU32(s).value.0, ParseU32(s).value.1).Ok?
    ensures var n := ParseU32(s).value; var vb := ParseRun(ParseVertexBufferExt, n.0, n.1).value;
      && (forall i | 0 <= i < |vb.0| :: WfVertexBufferExt(vb.0[i]))
      && EmitU32(|vb.0|, EmitRun(EmitVertexBufferExt, vb.0, vb.1)) == s
  {
    var n := ParseU32(s).value;
    U32Accounts(s);
    RunAccounts(ParseVertexBufferExt, EmitVertexBufferExt, WfVertexBufferExt, n.0, n.1) by {
      forall s' | ParseVertexBufferExt(s').Ok? ensures WfVertexBufferExt(ParseVertexBufferExt(s').value.0) && EmitVertexBufferExt(ParseVertexBufferExt(s').value.0, ParseVertexBufferExt(s').value.1) == s' {
        VertexBufferExtAccounts(s');
      }
    }
  }

  lemma MeshZIndicesAccount(s: seq<u8>)
    requires ParseU32(s).Ok? && ParseRun(ParseIndexBufferExt, ParseU32(s).value.0, ParseU32(s).value.1).Ok?
    ensures var n := ParseU32(s).value; var ib := ParseRun(ParseIndexBufferExt, n.0, n.1).value;
      && (forall i | 0 <= i < |ib.0| :: WfIndexBufferExt(ib.0[i]))
      && EmitU32(|ib.0|, EmitRun(EmitIndexBufferExt, ib.0, ib.1)) == s
  {
    var n := ParseU32(s).value;
    U32Accounts(s);
    RunAccounts(ParseIndexBufferExt, EmitIndexBufferExt, WfIndexBufferExt, n.0, n.1) by {
      forall s' | ParseIndexBufferExt(s').Ok? ensures WfIndexBufferExt(ParseIndexBufferExt(s').value.0) && EmitIndexBufferExt(ParseIndexBufferExt(s').value.0, ParseIndexBufferExt(s').value.1) == s' {
        IndexBufferExtAccounts(s');
      }
    }
  }

  /** A mesh that parses has consistent buffers and re-emits, in front of what is left, to its input. */
  lemma MeshZAccounts(s: seq<u8>)
    requires ParseMeshZ(s).Ok?
    ensures WfMeshZ(ParseMeshZ(s).value.0) && EmitMeshZ(ParseMeshZ(s).value.0, ParseMeshZ(s).value.1) == s
  {
    NoPrimsLawful();
    MeshZLeadFaithful(NoPrims);
    MeshZTailFaithful(NoPrims);
    Account(NoPrims, MeshZLeadLayout, s);
    var a := Parse(NoPrims, MeshZLeadLayout, s).value;
    var n := ParseU32(a.1).value;
    MeshZBuffersAccount(a.1);
    var vb := ParseRun(ParseVertexBufferExt, n.0, n.1).value;
    MeshZIndicesAccount(vb.1);
    var m := ParseU32(vb.1).value;
    var ib := ParseRun(ParseIndexBufferExt, m.0, m.1).value;
    Account(NoPrims, MeshZTailLayout, ib.1);
    var z := Parse(NoPrims, MeshZTailLayout, ib.1).value;
    MeshZLeadFrom(NoPrims, a.0);
    MeshZTailFrom(NoPrims, z.0);
  }

  lemma VertexRunAppends(xs: seq<VertexBufferExt>, t: seq<u8>)
    ensures EmitRun(EmitVertexBufferExt, xs, t) == EmitRun(EmitVertexBufferExt, xs, []) + t
  {
    forall i, t' | 0 <= i < |xs| ensures EmitVertexBufferExt(xs[i], t') == EmitVertexBufferExt(xs[i], []) + t' {
      VertexBufferExtAppends(xs[i], t');
    }
    RunAppends(EmitVertexBufferExt, xs, t);
  }

  lemma IndexRunAppends(xs: seq<IndexBufferExt>, t: seq<u8>)
    ensures EmitRun(EmitIndexBufferExt, xs, t) == EmitRun(EmitIndexBufferExt, xs, []) + t
  {
    forall i, t' | 0 <= i < |xs| ensures EmitIndexBufferExt(xs[i], t') == EmitIndexBufferExt(xs[i], []) + t' {
      IndexBufferExtAppends(xs[i], t');
    }
    RunAppends(EmitIndexBufferExt, xs, t);
  }

  /** `Emit` moves a common tail out, whatever the layout. */
  lemma EmitAppendsOver(k: Kind, v: Val, a: seq<u8>, b: seq<u8>, t: seq<u8>)
    requires a == b + t
    ensures Emit(k, v, a) == Emit(k, v, b) + t
  {
    EmitAppends(k, v, a);
    EmitAppends(k, v, b);
  }

  lemma U32Appends(n: u32, a: seq<u8>, t: seq<u8>)
    ensures EmitU32(n, a + t) == EmitU32(n, a) + t
  {
  }

  lemma IndexPartAppends(xs: seq<IndexBufferExt>, r0: seq<u8>, t: seq<u8>)
    requires |xs| < 0x1_0000_0000
    ensures EmitU32(|xs|, EmitRun(EmitIndexBufferExt, xs, r0 + t)) == EmitU32(|xs|, EmitRun(EmitIndexBufferExt, xs, r0)) + t
  {
    IndexRunAppends(xs, r0 + t);
    IndexRunAppends(xs, r0);
    assert EmitRun(EmitIndexBufferExt, xs, r0 + t) == EmitRun(EmitIndexBufferExt, xs, r0) + t;
    U32Appends(|xs|, EmitRun(EmitIndexBufferExt, xs, r0), t);
  }

  lemma VertexPartAppends(xs: seq<VertexBufferExt>, r0: seq<u8>, t: seq<u8>)
    requires |xs| < 0x1_0000_0000
    ensures EmitU32(|xs|, EmitRun(EmitVertexBufferExt, xs, r0 + t)) == EmitU32(|xs|, EmitRun(EmitVertexBufferExt, xs, r0)) + t
  {
    VertexRunAppends(xs, r0 + t);
    VertexRunAppends(xs, r0);
    assert EmitRun(EmitVertexBufferExt, xs, r0 + t) == EmitRun(EmitVertexBufferExt, xs, r0) + t;
    U32Appends(|xs|, EmitRun(EmitVertexBufferExt, xs, r0), t);
  }

  lemma MeshZBuffersAppend(x: MeshZ, t: seq<u8>)
    ensures EmitMeshZBuffers(x, t) == EmitMeshZBuffers(x, []) + t
  {
    var tl := MeshZTailVal(x.tail);
    var r0 := Emit(MeshZTailLayout, tl, []);
    EmitAppendsOver(MeshZTailLayout, tl, t, [], t);
    IndexPartAppends(x.indices, r0, t);
    var i0 := EmitU32(|x.indices|, EmitRun(EmitIndexBufferExt, x.indices, r0));
    VertexPartAppends(x.vertexBuffers, i0, t);
  }

  lemma MeshZAppends(x: MeshZ, t: seq<u8>)
    ensures EmitMeshZ(x, t) == EmitMeshZ(x, []) + t
  {
    MeshZBuffersAppend(x, t);
    EmitAppendsOver(MeshZLeadLayout, MeshZLeadVal(x.lead), EmitMeshZBuffers(x, t), EmitMeshZBuffers(x, []), t);
  }

  /** The commented-out `#[nom(Exact)]`: a mesh body tolerates trailing bytes. */
  function MeshZSchema(): Schema<MeshZ> {
    Schema(s => Prefix(ParseMeshZ(s)), x => EmitMeshZ(x, []), WfMeshZ, false)
  }

  lemma MeshZSchemaLawful()
    ensures LawfulSchema(MeshZSchema())
  {
    forall x | WfMeshZ(x) ensures Prefix(ParseMeshZ(EmitMeshZ(x, []))) == Ok(x) {
      MeshZRecovers(x, []);
    }
    forall s | Prefix(ParseMeshZ(s)).Ok?
      ensures WfMeshZ(ParseMeshZ(s).value.0) && EmitMeshZ(ParseMeshZ(s).value.0, []) <= s
    {
      MeshZAccounts(s);
      MeshZAppends(ParseMeshZ(s).value.0, ParseMeshZ(s).value.1);
    }
  }

  /** Bytes after a mesh body are ignored: the body decodes to the same mesh. */
  lemma MeshZTrailing(x: MeshZ, t: seq<u8>)
    requires WfMeshZ(x)
    ensures MeshZSchema().decode(MeshZSchema().encode(x) + t) == Ok(x)
  {
    MeshZAppends(x, t);
    MeshZRecovers(x, t);
  }

  /** The header is exact: a byte after it fails the decode. */
  lemma MeshZHeaderTrailing(h: MeshZHeader, t: seq<u8>)
    ensures MeshZHeaderSchema().decode(MeshZHeaderSchema().encode(h) + t) == if t == [] then Ok(h) else Err(TrailingBytes)
  {
    NoPrimsLawful();
    MeshZHeaderFaithful(NoPrims);
    Trailing(NoPrims, MeshZHeaderView(), true, h, t);
  }

  // ---------------------------------------------------------------------
  // References and the object format.

  /** The header's references: no hard links; `crc32s` verbatim, zeros included, as soft links. */
  function MeshZHeaderLinks(h: MeshZHeader): (r: Links)
    ensures r.hard == [] && r.soft == h.crc32s
  {
    Links([], h.crc32s)
  }

  /** The body's references: `material_crc32s` verbatim as hard links; no soft links. */
  function MeshZLinks(x: MeshZ): (r: Links)
    ensures r.hard == x.lead.materialCrc32s && r.soft == []
  {
    Links(x.lead.materialCrc32s, [])
  }

  /** `MeshObjectFormat`: the header and the body, reporting the header's references alone. */
  function MeshFormat(): (f: Format<MeshZHeader, MeshZ>)
    ensures f.header == MeshZHeaderSchema() && f.body == MeshZSchema()
    ensures forall h, b :: f.links(h, b) == MeshZHeaderLinks(h)
  {
    Format(MeshZHeaderSchema(), MeshZSchema(), (h, b) => MeshZHeaderLinks(h))
  }

  /**
   * A packed mesh with consistent buffers unpacks to the same header and body
   * and reports the header's `crc32s` as soft links, never the body's
   * material hashes; what unpacks packs back to the whole header and to a
   * prefix of the body.
   */
  lemma MeshRoundTrip(h: MeshZHeader, b: MeshZ, header: seq<u8>, body: seq<u8>)
    requires WfMeshZ(b)
    ensures Pack(MeshFormat(), h, b).links == Links([], h.crc32s)
    ensures Unpack(MeshFormat(), Pack(MeshFormat(), h, b).header, Pack(MeshFormat(), h, b).body) == Ok(Unpacked(h, b, Links([], h.crc32s)))
    ensures Unpack(MeshFormat(), header, body).Ok? ==>
      var u := Unpack(MeshFormat(), header, body).value;
      && u.links == Links([], u.header.crc32s)
      && Pack(MeshFormat(), u.header, u.body).header == header
      && Pack(MeshFormat(), u.header, u.body).body <= body
  {
    MeshZHeaderSchemaLawful();
    MeshZSchemaLawful();
    PackUnpack(MeshFormat(), h, b);
    if Unpack(MeshFormat(), header, body).Ok? {
      UnpackPack(MeshFormat(), header, body);
    }
  }

}
