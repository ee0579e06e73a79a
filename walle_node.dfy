/**
 * `NodeZ` and `NodeZAlt` (walle_fmt/node.rs): the scene-graph node bodies.
 * Both schemas are exact. A `NodeZ` reports the non-zero ones among its nine
 * leading name hashes as soft links; a `NodeZAlt` reports nothing.
 */
module WalleNode {
  import opened Bytes
  import opened Codec
  import opened Schemas
  import opened Objects

  /** A scene-graph node (node.rs:14-49), fields in declared order. */
  datatype NodeZ = NodeZ(
    parentCrc32: u32,
    headChildCrc32: u32,
    prevNodeCrc32: u32,
    nextNodeCrc32: u32,
    objectCrc32: u32,
    userDefineCrc32: u32,
    lightDataCrc32: u32,
    bitmapCrc32: u32,
    unknownCrc32: u32,
    inverseWorldTransform: Mat4f,
    unknown1: Vec3f,
    collideSeadsId0: u32,
    unknown2: Vec3f,
    placeholderWorldMatrixPtr: u32,
    unknown3: Vec3f,
    displaySeadsId0: u32,
    unknown4: Mat4f,
    translation: Vec3f,
    flags: u32,
    rotation: Quat,
    scale: f32,
    otherScale: f32,
    oneOverScale: f32,
    unknown5: f32,
    color: Blob,
    sphere: Blob,
    displaySeadsRect: Blob,
    collideSeadsRect: Blob,
    worldTransform: Mat4f,
    collideSeadsId1: u32,
    displaySeadsId1: u32,
    unknown6: i16,
    unknown7: u32,
    unknown8: u32)

  const NodeZLayout: Kind :=
    Then(Then(Then(Then(Then(Then(Word(U32), // parentCrc32
    Word(U32)), // headChildCrc32
    Word(U32)), // prevNodeCrc32
    Then(Word(U32), // nextNodeCrc32
    Word(U32))), // objectCrc32
    Then(Then(Word(U32), // userDefineCrc32
    Word(U32)), // lightDataCrc32
    Then(Word(U32), // bitmapCrc32
    Word(U32)))), // unknownCrc32
    Then(Then(Then(Words(F32, 16), // inverseWorldTransform
    Words(F32, 3)), // unknown1
    Then(Word(U32), // collideSeadsId0
    Words(F32, 3))), // unknown2
    Then(Then(Word(U32), // placeholderWorldMatrixPtr
    Words(F32, 3)), // unknown3
    Then(Word(U32), // displaySeadsId0
    Words(F32, 16))))), // unknown4
    Then(Then(Then(Then(Then(Words(F32, 3), // translation
    Word(U32)), // flags
    Words(F32, 4)), // rotation
    Then(Word(F32), // scale
    Word(F32))), // otherScale
    Then(Then(Word(F32), // oneOverScale
    Word(F32)), // unknown5
    Then(Opaque(Color), // color
    Opaque(Sphere)))), // sphere
    Then(Then(Then(Opaque(Rect), // displaySeadsRect
    Opaque(Rect)), // collideSeadsRect
    Then(Words(F32, 16), // worldTransform
    Word(U32))), // collideSeadsId1
    Then(Then(Word(U32), // displaySeadsId1
    Word(I16)), // unknown6
    Then(Word(U32), // unknown7
    Word(U32)))))) // unknown8

  function NodeZVal(x: NodeZ): Val {
    Pair(Pair(Pair(Pair(Pair(Pair(Num(x.parentCrc32), // parentCrc32
    Num(x.headChildCrc32)), // headChildCrc32
    Num(x.prevNodeCrc32)), // prevNodeCrc32
    Pair(Num(x.nextNodeCrc32), // nextNodeCrc32
    Num(x.objectCrc32))), // objectCrc32
    Pair(Pair(Num(x.userDefineCrc32), // userDefineCrc32
    Num(x.lightDataCrc32)), // lightDataCrc32
    Pair(Num(x.bitmapCrc32), // bitmapCrc32
    Num(x.unknownCrc32)))), // unknownCrc32
    Pair(Pair(Pair(Nums(x.inverseWorldTransform), // inverseWorldTransform
    Nums(x.unknown1)), // unknown1
    Pair(Num(x.collideSeadsId0), // collideSeadsId0
    Nums(x.unknown2))), // unknown2
    Pair(Pair(Num(x.placeholderWorldMatrixPtr), // placeholderWorldMatrixPtr
    Nums(x.unknown3)), // unknown3
    Pair(Num(x.displaySeadsId0), // displaySeadsId0
    Nums(x.unknown4))))), // unknown4
    Pair(Pair(Pair(Pair(Pair(Nums(x.translation), // translation
    Num(x.flags)), // flags
    Nums(x.rotation)), // rotation
    Pair(Num(x.scale), // scale
    Num(x.otherScale))), // otherScale
    Pair(Pair(Num(x.oneOverScale), // oneOverScale
    Num(x.unknown5)), // unknown5
    Pair(Raw(x.color), // color
    Raw(x.sphere)))), // sphere
    Pair(Pair(Pair(Raw(x.displaySeadsRect), // displaySeadsRect
    Raw(x.collideSeadsRect)), // collideSeadsRect
    Pair(Nums(x.worldTransform), // worldTransform
    Num(x.collideSeadsId1))), // collideSeadsId1
    Pair(Pair(Num(x.displaySeadsId1), // displaySeadsId1
    Num(x.unknown6)), // unknown6
    Pair(Num(x.unknown7), // unknown7
    Num(x.unknown8)))))) // unknown8
  }

  function NodeZOf(v: Val): NodeZ {
    NodeZ(
      AsWord(U32, First(First(First(First(First(First(v))))))),
      AsWord(U32, Second(First(First(First(First(First(v))))))),
      AsWord(U32, Second(First(First(First(First(v)))))),
      AsWord(U32, First(Second(First(First(First(v)))))),
      AsWord(U32, Second(Second(First(First(First(v)))))),
      AsWord(U32, First(First(Second(First(First(v)))))),
      AsWord(U32, Second(First(Second(First(First(v)))))),
      AsWord(U32, First(Second(Second(First(First(v)))))),
      AsWord(U32, Second(Second(Second(First(First(v)))))),
      AsWords(F32, 16, First(First(First(Second(First(v)))))),
      AsWords(F32, 3, Second(First(First(Second(First(v)))))),
      AsWord(U32, First(Second(First(Second(First(v)))))),
      AsWords(F32, 3, Second(Second(First(Second(First(v)))))),
      AsWord(U32, First(First(Second(Second(First(v)))))),
      AsWords(F32, 3, Second(First(Second(Second(First(v)))))),
      AsWord(U32, First(Second(Second(Second(First(v)))))),
      AsWords(F32, 16, Second(Second(Second(Second(First(v)))))),
      AsWords(F32, 3, First(First(First(First(First(Second(v))))))),
      AsWord(U32, Second(First(First(First(First(Second(v))))))),
      AsWords(F32, 4, Second(First(First(First(Second(v)))))),
      AsWord(F32, First(Second(First(First(Second(v)))))),
      AsWord(F32, Second(Second(First(First(Second(v)))))),
      AsWord(F32, First(First(Second(First(Second(v)))))),
      AsWord(F32, Second(First(Second(First(Second(v)))))),
      AsBlob(First(Second(Second(First(Second(v)))))),
      AsBlob(Second(Second(Second(First(Second(v)))))),
      AsBlob(First(First(First(Second(Second(v)))))),
      AsBlob(Second(First(First(Second(Second(v)))))),
      AsWords(F32, 16, First(Second(First(Second(Second(v)))))),
      AsWord(U32, Second(Second(First(Second(Second(v)))))),
      AsWord(U32, First(First(Second(Second(Second(v)))))),
      AsWord(I16, Second(First(Second(Second(Second(v)))))),
      AsWord(U32, First(Second(Second(Second(Second(v)))))),
      AsWord(U32, Second(Second(Second(Second(Second(v)))))))
  }

  /** The opaque primitives of a `NodeZ` hold complete encodings. */
  predicate WfNodeZ(pr: Prims, x: NodeZ) {
    Framed(pr.color, x.color)
    && Framed(pr.sphere, x.sphere)
    && Framed(pr.rect, x.displaySeadsRect)
    && Framed(pr.rect, x.collideSeadsRect)
  }

  // fields `parentCrc32` to `prevNodeCrc32`
  lemma NodeZConformsLLLL(pr: Prims, x: NodeZ)
    ensures Conforms(pr, NodeZLayout.first.first.first.first, First(First(First(First(NodeZVal(x))))))
  {
  }

  // fields `nextNodeCrc32` to `objectCrc32`
  lemma NodeZConformsLLLR(pr: Prims, x: NodeZ)
    ensures Conforms(pr, NodeZLayout.first.first.first.second, Second(First(First(First(NodeZVal(x))))))
  {
  }

  // fields `translation` to `rotation`
  lemma NodeZConformsRLLL(pr: Prims, x: NodeZ)
    ensures Conforms(pr, NodeZLayout.second.first.first.first, First(First(First(Second(NodeZVal(x))))))
  {
    U32sInRange(x.translation);
    U32sInRange(x.rotation);
  }

  // fields `scale` to `otherScale`
  lemma NodeZConformsRLLR(pr: Prims, x: NodeZ)
    ensures Conforms(pr, NodeZLayout.second.first.first.second, Second(First(First(Second(NodeZVal(x))))))
  {
  }

  // fields `parentCrc32` to `objectCrc32`
  lemma NodeZConformsLLL(pr: Prims, x: NodeZ)
    ensures Conforms(pr, NodeZLayout.first.first.first, First(First(First(NodeZVal(x)))))
  {
    NodeZConformsLLLL(pr, x);
    NodeZConformsLLLR(pr, x);
  }

  // fields `userDefineCrc32` to `unknownCrc32`
  lemma NodeZConformsLLR(pr: Prims, x: NodeZ)
    ensures Conforms(pr, NodeZLayout.first.first.second, Second(First(First(NodeZVal(x)))))
  {
  }

  // fields `inverseWorldTransform` to `unknown2`
  lemma NodeZConformsLRL(pr: Prims, x: NodeZ)
    ensures Conforms(pr, NodeZLayout.first.second.first, First(Second(First(NodeZVal(x)))))
  {
    U32sInRange(x.inverseWorldTransform);
    U32sInRange(x.unknown1);
    U32sInRange(x.unknown2);
  }

  // fields `placeholderWorldMatrixPtr` to `unknown4`
  lemma NodeZConformsLRR(pr: Prims, x: NodeZ)
    ensures Conforms(pr, NodeZLayout.first.second.second, Second(Second(First(NodeZVal(x)))))
  {
    U32sInRange(x.unknown3);
    U32sInRange(x.unknown4);
  }

  // fields `translation` to `otherScale`
  lemma NodeZConformsRLL(pr: Prims, x: NodeZ)
    ensures Conforms(pr, NodeZLayout.second.first.first, First(First(Second(NodeZVal(x)))))
  {
    NodeZConformsRLLL(pr, x);
    NodeZConformsRLLR(pr, x);
  }

  // fields `oneOverScale` to `sphere`
  lemma NodeZConformsRLR(pr: Prims, x: NodeZ)
    requires Framed(pr.color, x.color) && Framed(pr.sphere, x.sphere)
    ensures Conforms(pr, NodeZLayout.second.first.second, Second(First(Second(NodeZVal(x)))))
  {
  }

  // fields `displaySeadsRect` to `collideSeadsId1`
  lemma NodeZConformsRRL(pr: Prims, x: NodeZ)
    requires Framed(pr.rect, x.displaySeadsRect) && Framed(pr.rect, x.collideSeadsRect)
    ensures Conforms(pr, NodeZLayout.second.second.first, First(Second(Second(NodeZVal(x)))))
  {
    U32sInRange(x.worldTransform);
  }

  // fields `displaySeadsId1` to `unknown8`
  lemma NodeZConformsRRR(pr: Prims, x: NodeZ)
    ensures Conforms(pr, NodeZLayout.second.second.second, Second(Second(Second(NodeZVal(x)))))
  {
  }

  // fields `parentCrc32` to `unknownCrc32`
  lemma NodeZConformsLL(pr: Prims, x: NodeZ)
    ensures Conforms(pr, NodeZLayout.first.first, First(First(NodeZVal(x))))
  {
    NodeZConformsLLL(pr, x);
    NodeZConformsLLR(pr, x);
  }

  // fields `inverseWorldTransform` to `unknown4`
  lemma NodeZConformsLR(pr: Prims, x: NodeZ)
    ensures Conforms(pr, NodeZLayout.first.second, Second(First(NodeZVal(x))))
  {
    NodeZConformsLRL(pr, x);
    NodeZConformsLRR(pr, x);
  }

  // fields `translation` to `sphere`
  lemma NodeZConformsRL(pr: Prims, x: NodeZ)
    requires Framed(pr.color, x.color) && Framed(pr.sphere, x.sphere)
    ensures Conforms(pr, NodeZLayout.second.first, First(Second(NodeZVal(x))))
  {
    NodeZConformsRLL(pr, x);
    NodeZConformsRLR(pr, x);
  }

  // fields `displaySeadsRect` to `unknown8`
  lemma NodeZConformsRR(pr: Prims, x: NodeZ)
    requires Framed(pr.rect, x.displaySeadsRect) && Framed(pr.rect, x.collideSeadsRect)
    ensures Conforms(pr, NodeZLayout.second.second, Second(Second(NodeZVal(x))))
  {
    NodeZConformsRRL(pr, x);
    NodeZConformsRRR(pr, x);
  }

  // fields `parentCrc32` to `unknown4`
  lemma NodeZConformsL(pr: Prims, x: NodeZ)
    ensures Conforms(pr, NodeZLayout.first, First(NodeZVal(x)))
  {
    NodeZConformsLL(pr, x);
    NodeZConformsLR(pr, x);
  }

  // fields `translation` to `unknown8`
  lemma NodeZConformsR(pr: Prims, x: NodeZ)
    requires Framed(pr.color, x.color) && Framed(pr.sphere, x.sphere) && Framed(pr.rect, x.displaySeadsRect) && Framed(pr.rect, x.collideSeadsRect)
    ensures Conforms(pr, NodeZLayout.second, Second(NodeZVal(x)))
  {
    NodeZConformsRL(pr, x);
    NodeZConformsRR(pr, x);
  }

  lemma NodeZConforms(pr: Prims, x: NodeZ)
    requires WfNodeZ(pr, x)
    ensures Conforms(pr, NodeZLayout, NodeZVal(x))
  {
    NodeZConformsL(pr, x);
    NodeZConformsR(pr, x);
  }

  lemma NodeZOfVal(pr: Prims, x: NodeZ)
    requires WfNodeZ(pr, x)
    ensures NodeZOf(NodeZVal(x)) == x
  {
  }

  // fields `parentCrc32` to `prevNodeCrc32`
  lemma NodeZFromLLLL(pr: Prims, v: Val)
    requires Conforms(pr, NodeZLayout.first.first.first.first, First(First(First(First(v)))))
    ensures First(First(First(First(NodeZVal(NodeZOf(v)))))) == First(First(First(First(v))))
  {
  }

  // fields `nextNodeCrc32` to `objectCrc32`
  lemma NodeZFromLLLR(pr: Prims, v: Val)
    requires Conforms(pr, NodeZLayout.first.first.first.second, Second(First(First(First(v)))))
    ensures Second(First(First(First(NodeZVal(NodeZOf(v)))))) == Second(First(First(First(v))))
  {
  }

  // fields `translation` to `rotation`
  lemma NodeZFromRLLL(pr: Prims, v: Val)
    requires Conforms(pr, NodeZLayout.second.first.first.first, First(First(First(Second(v)))))
    ensures First(First(First(Second(NodeZVal(NodeZOf(v)))))) == First(First(First(Second(v))))
  {
  }

  // fields `scale` to `otherScale`
  lemma NodeZFromRLLR(pr: Prims, v: Val)
    requires Conforms(pr, NodeZLayout.second.first.first.second, Second(First(First(Second(v)))))
    ensures Second(First(First(Second(NodeZVal(NodeZOf(v)))))) == Second(First(First(Second(v))))
  {
  }

  // fields `parentCrc32` to `objectCrc32`
  lemma NodeZFromLLL(pr: Prims, v: Val)
    requires Conforms(pr, NodeZLayout.first.first.first, First(First(First(v))))
    ensures First(First(First(NodeZVal(NodeZOf(v))))) == First(First(First(v)))
  {
    NodeZFromLLLL(pr, v);
    NodeZFromLLLR(pr, v);
  }

  // fields `userDefineCrc32` to `unknownCrc32`
  lemma NodeZFromLLR(pr: Prims, v: Val)
    requires Conforms(pr, NodeZLayout.first.first.second, Second(First(First(v))))
    ensures Second(First(First(NodeZVal(NodeZOf(v))))) == Second(First(First(v)))
  {
  }

  // fields `inverseWorldTransform` to `unknown2`
  lemma NodeZFromLRL(pr: Prims, v: Val)
    requires Conforms(pr, NodeZLayout.first.second.first, First(Second(First(v))))
    ensures First(Second(First(NodeZVal(NodeZOf(v))))) == First(Second(First(v)))
  {
  }

  // fields `placeholderWorldMatrixPtr` to `unknown4`
  lemma NodeZFromLRR(pr: Prims, v: Val)
    requires Conforms(pr, NodeZLayout.first.second.second, Second(Second(First(v))))
    ensures Second(Second(First(NodeZVal(NodeZOf(v))))) == Second(Second(First(v)))
  {
  }

  // fields `translation` to `otherScale`
  lemma NodeZFromRLL(pr: Prims, v: Val)
    requires Conforms(pr, NodeZLayout.second.first.first, First(First(Second(v))))
    ensures First(First(Second(NodeZVal(NodeZOf(v))))) == First(First(Second(v)))
  {
    NodeZFromRLLL(pr, v);
    NodeZFromRLLR(pr, v);
  }

  // fields `oneOverScale` to `sphere`
  lemma NodeZFromRLR(pr: Prims, v: Val)
    requires Conforms(pr, NodeZLayout.second.first.second, Second(First(Second(v))))
    ensures Second(First(Second(NodeZVal(NodeZOf(v))))) == Second(First(Second(v)))
    ensures Framed(pr.color, NodeZOf(v).color)
    ensures Framed(pr.sphere, NodeZOf(v).sphere)
  {
  }

  // fields `displaySeadsRect` to `collideSeadsId1`
  lemma NodeZFromRRL(pr: Prims, v: Val)
    requires Conforms(pr, NodeZLayout.second.second.first, First(Second(Second(v))))
    ensures First(Second(Second(NodeZVal(NodeZOf(v))))) == First(Second(Second(v)))
    ensures Framed(pr.rect, NodeZOf(v).displaySeadsRect)
    ensures Framed(pr.rect, NodeZOf(v).collideSeadsRect)
  {
  }

  // fields `displaySeadsId1` to `unknown8`
  lemma NodeZFromRRR(pr: Prims, v: Val)
    requires Conforms(pr, NodeZLayout.second.second.second, Second(Second(Second(v))))
    ensures Second(Second(Second(NodeZVal(NodeZOf(v))))) == Second(Second(Second(v)))
  {
  }

  // fields `parentCrc32` to `unknownCrc32`
  lemma NodeZFromLL(pr: Prims, v: Val)
    requires Conforms(pr, NodeZLayout.first.first, First(First(v)))
    ensures First(First(NodeZVal(NodeZOf(v)))) == First(First(v))
  {
    NodeZFromLLL(pr, v);
    NodeZFromLLR(pr, v);
  }

  // fields `inverseWorldTransform` to `unknown4`
  lemma NodeZFromLR(pr: Prims, v: Val)
    requires Conforms(pr, NodeZLayout.first.second, Second(First(v)))
    ensures Second(First(NodeZVal(NodeZOf(v)))) == Second(First(v))
  {
    NodeZFromLRL(pr, v);
    NodeZFromLRR(pr, v);
  }

  // fields `translation` to `sphere`
  lemma NodeZFromRL(pr: Prims, v: Val)
    requires Conforms(pr, NodeZLayout.second.first, First(Second(v)))
    ensures First(Second(NodeZVal(NodeZOf(v)))) == First(Second(v))
    ensures Framed(pr.color, NodeZOf(v).color)
    ensures Framed(pr.sphere, NodeZOf(v).sphere)
  {
    NodeZFromRLL(pr, v);
    NodeZFromRLR(pr, v);
  }

  // fields `displaySeadsRect` to `unknown8`
  lemma NodeZFromRR(pr: Prims, v: Val)
    requires Conforms(pr, NodeZLayout.second.second, Second(Second(v)))
    ensures Second(Second(NodeZVal(NodeZOf(v)))) == Second(Second(v))
    ensures Framed(pr.rect, NodeZOf(v).displaySeadsRect)
    ensures Framed(pr.rect, NodeZOf(v).collideSeadsRect)
  {
    NodeZFromRRL(pr, v);
    NodeZFromRRR(pr, v);
  }

  // fields `parentCrc32` to `unknown4`
  lemma NodeZFromL(pr: Prims, v: Val)
    requires Conforms(pr, NodeZLayout.first, First(v))
    ensures First(NodeZVal(NodeZOf(v))) == First(v)
  {
    NodeZFromLL(pr, v);
    NodeZFromLR(pr, v);
  }

  // fields `translation` to `unknown8`
  lemma NodeZFromR(pr: Prims, v: Val)
    requires Conforms(pr, NodeZLayout.second, Second(v))
    ensures Second(NodeZVal(NodeZOf(v))) == Second(v)
    ensures Framed(pr.color, NodeZOf(v).color)
    ensures Framed(pr.sphere, NodeZOf(v).sphere)
    ensures Framed(pr.rect, NodeZOf(v).displaySeadsRect)
    ensures Framed(pr.rect, NodeZOf(v).collideSeadsRect)
  {
    NodeZFromRL(pr, v);
    NodeZFromRR(pr, v);
  }

  lemma NodeZFrom(pr: Prims, v: Val)
    requires Conforms(pr, NodeZLayout, v)
    ensures NodeZVal(NodeZOf(v)) == v
    ensures WfNodeZ(pr, NodeZOf(v))
  {
    NodeZFromL(pr, v);
    NodeZFromR(pr, v);
  }

  function NodeZView(pr: Prims): View<NodeZ> {
    View(NodeZLayout, NodeZVal, NodeZOf, x => WfNodeZ(pr, x))
  }

  lemma NodeZFaithful(pr: Prims)
    ensures Faithful(pr, NodeZView(pr))
  {
    forall x | WfNodeZ(pr, x) ensures Conforms(pr, NodeZLayout, NodeZVal(x)) && NodeZOf(NodeZVal(x)) == x {
      NodeZConforms(pr, x);
      NodeZOfVal(pr, x);
    }
    forall v | Conforms(pr, NodeZLayout, v) ensures WfNodeZ(pr, NodeZOf(v)) && NodeZVal(NodeZOf(v)) == v {
      NodeZFrom(pr, v);
    }
  }

  /** `#[nom(Exact)]`: the whole body is one node. */
  function NodeZSchema(pr: Prims): Schema<NodeZ> {
    RecordSchema(pr, NodeZView(pr), true)
  }

  lemma NodeZSchemaLawful(pr: Prims)
    requires Lawful(pr)
    ensures LawfulSchema(NodeZSchema(pr))
  {
    NodeZFaithful(pr);
    RecordSchemaLawful(pr, NodeZView(pr), true);
  }

  /** The nine name hashes the soft links are drawn from, in declared order. */
  function NodeZCrcs(x: NodeZ): seq<u32> {
    [x.parentCrc32, x.headChildCrc32, x.prevNodeCrc32, x.nextNodeCrc32, x.objectCrc32,
     x.userDefineCrc32, x.lightDataCrc32, x.bitmapCrc32, x.unknownCrc32]
  }

  /** The references of a node: no hard links; each non-zero leading hash, in declared order, as a soft link. */
  function NodeZLinks(x: NodeZ): Links {
    Links([], Keep(x.parentCrc32)
      + Keep(x.headChildCrc32)
      + Keep(x.prevNodeCrc32)
      + Keep(x.nextNodeCrc32)
      + Keep(x.objectCrc32)
      + Keep(x.userDefineCrc32)
      + Keep(x.lightDataCrc32)
      + Keep(x.bitmapCrc32)
      + Keep(x.unknownCrc32))
  }

  /** `NodeZ::soft_links`: one test-and-push per hash field. */
  method NodeZSoftLinks(x: NodeZ) returns (v: seq<u32>)
    ensures v == NodeZLinks(x).soft
  {
    v := [];
    v := PushNonZero(v, x.parentCrc32);
    v := PushNonZero(v, x.headChildCrc32);
    v := PushNonZero(v, x.prevNodeCrc32);
    v := PushNonZero(v, x.nextNodeCrc32);
    v := PushNonZero(v, x.objectCrc32);
    v := PushNonZero(v, x.userDefineCrc32);
    v := PushNonZero(v, x.lightDataCrc32);
    v := PushNonZero(v, x.bitmapCrc32);
    v := PushNonZero(v, x.unknownCrc32);
  }

  /**
   * The soft links are the non-zero ones among the nine leading hashes, in
   * declared order: at most nine, none of them zero, and every non-zero
   * leading hash among them.
   */
  lemma NodeZLinksBounded(x: NodeZ)
    ensures NodeZLinks(x).hard == []
    ensures NodeZLinks(x).soft == NonZero(NodeZCrcs(x))
    ensures |NodeZLinks(x).soft| <= 9
    ensures forall h :: h in NodeZLinks(x).soft <==> h in NodeZCrcs(x) && h != 0
  {
    NonZeroNine(x.parentCrc32, x.headChildCrc32, x.prevNodeCrc32, x.nextNodeCrc32, x.objectCrc32,
      x.userDefineCrc32, x.lightDataCrc32, x.bitmapCrc32, x.unknownCrc32);
    NonZeroMembers(NodeZCrcs(x));
  }

  /** `NodeObjectFormat`: a `ResourceObjectZ` header and a `NodeZ` body. */
  function NodeFormat(hs: Headers, pr: Prims): (f: Format<seq<u8>, NodeZ>)
    ensures f.header == OpaqueSchema(hs.resourceObjectZ) && f.body == NodeZSchema(pr)
    ensures forall h, b :: f.links(h, b) == hs.resourceObjectZ.refs(h, NodeZLinks(b))
  {
    OpaqueFormat(hs.resourceObjectZ, NodeZSchema(pr), NodeZLinks)
  }

  /**
   * A node object survives the adapter both ways. A well-formed body packed
   * under a header that the `ResourceObjectZ` schema accepts unpacks to the same pair,
   * reporting the header's references combined with its own references. An
   * object that unpacks packs back to a prefix of its header buffer and to
   * exactly its body buffer, the body schema being exact.
   */
  lemma NodeRoundTrip(hs: Headers, pr: Prims, hb: seq<u8>, b: NodeZ, header: seq<u8>, body: seq<u8>)
    requires LawfulHeaders(hs) && Lawful(pr)
    ensures hs.resourceObjectZ.decode(hb) == Ok(hb) && NodeZSchema(pr).wf(b) ==>
      var p := Pack(NodeFormat(hs, pr), hb, b);
      && p.header == hb && p.body == NodeZSchema(pr).encode(b)
      && Unpack(NodeFormat(hs, pr), p.header, p.body) == Ok(Unpacked(hb, b, hs.resourceObjectZ.refs(hb, NodeZLinks(b))))
    ensures Unpack(NodeFormat(hs, pr), header, body).Ok? ==>
      var u := Unpack(NodeFormat(hs, pr), header, body).value;
      && u.links == hs.resourceObjectZ.refs(u.header, NodeZLinks(u.body))
      && Pack(NodeFormat(hs, pr), u.header, u.body).header <= header
      && Pack(NodeFormat(hs, pr), u.header, u.body).body == body
  {
    NodeZSchemaLawful(pr);
    OpaqueFormatRoundTrip(hs.resourceObjectZ, NodeZSchema(pr), NodeZLinks, hb, b, header, body);
  }

  /** The older node layout (node.rs:55-73), fields in declared order. */
  datatype NodeZAlt = NodeZAlt(
    parentCrc32: u32,
    someNodeCrc320: u32,
    someNodeCrc321: u32,
    someNodeCrc322: u32,
    someCrc320: u32,
    someCrc321: u32,
    someCrc322: u32,
    someCrc323: u32,
    someCrc324: u32,
    mat0: Mat4f,
    unknown0s: Bytes208,
    mat1: Mat4f,
    unknown2: u32,
    unknown3: u32,
    unknown4: u16,
    unknown5: u32,
    unknown6: u32)

  const NodeZAltLayout: Kind :=
    Then(Then(Then(Then(Then(Word(U32), // parentCrc32
    Word(U32)), // someNodeCrc320
    Word(U32)), // someNodeCrc321
    Then(Word(U32), // someNodeCrc322
    Word(U32))), // someCrc320
    Then(Then(Word(U32), // someCrc321
    Word(U32)), // someCrc322
    Then(Word(U32), // someCrc323
    Word(U32)))), // someCrc324
    Then(Then(Then(Words(F32, 16), // mat0
    Words(U8, 208)), // unknown0s
    Then(Words(F32, 16), // mat1
    Word(U32))), // unknown2
    Then(Then(Word(U32), // unknown3
    Word(U16)), // unknown4
    Then(Word(U32), // unknown5
    Word(U32))))) // unknown6

  function NodeZAltVal(x: NodeZAlt): Val {
    Pair(Pair(Pair(Pair(Pair(Num(x.parentCrc32), // parentCrc32
    Num(x.someNodeCrc320)), // someNodeCrc320
    Num(x.someNodeCrc321)), // someNodeCrc321
    Pair(Num(x.someNodeCrc322), // someNodeCrc322
    Num(x.someCrc320))), // someCrc320
    Pair(Pair(Num(x.someCrc321), // someCrc321
    Num(x.someCrc322)), // someCrc322
    Pair(Num(x.someCrc323), // someCrc323
    Num(x.someCrc324)))), // someCrc324
    Pair(Pair(Pair(Nums(x.mat0), // mat0
    Nums(x.unknown0s)), // unknown0s
    Pair(Nums(x.mat1), // mat1
    Num(x.unknown2))), // unknown2
    Pair(Pair(Num(x.unknown3), // unknown3
    Num(x.unknown4)), // unknown4
    Pair(Num(x.unknown5), // unknown5
    Num(x.unknown6))))) // unknown6
  }

  function NodeZAltOf(v: Val): NodeZAlt {
    NodeZAlt(
      AsWord(U32, First(First(First(First(First(v)))))),
      AsWord(U32, Second(First(First(First(First(v)))))),
      AsWord(U32, Second(First(First(First(v))))),
      AsWord(U32, First(Second(First(First(v))))),
      AsWord(U32, Second(Second(First(First(v))))),
      AsWord(U32, First(First(Second(First(v))))),
      AsWord(U32, Second(First(Second(First(v))))),
      AsWord(U32, First(Second(Second(First(v))))),
      AsWord(U32, Second(Second(Second(First(v))))),
      AsWords(F32, 16, First(First(First(Second(v))))),
      AsWords(U8, 208, Second(First(First(Second(v))))),
      AsWords(F32, 16, First(Second(First(Second(v))))),
      AsWord(U32, Second(Second(First(Second(v))))),
      AsWord(U32, First(First(Second(Second(v))))),
      AsWord(U16, Second(First(Second(Second(v))))),
      AsWord(U32, First(Second(Second(Second(v))))),
      AsWord(U32, Second(Second(Second(Second(v))))))
  }

  // fields `parentCrc32` to `someNodeCrc321`
  lemma NodeZAltConformsLLL(pr: Prims, x: NodeZAlt)
    ensures Conforms(pr, NodeZAltLayout.first.first.first, First(First(First(NodeZAltVal(x)))))
  {
  }

  // fields `someNodeCrc322` to `someCrc320`
  lemma NodeZAltConformsLLR(pr: Prims, x: NodeZAlt)
    ensures Conforms(pr, NodeZAltLayout.first.first.second, Second(First(First(NodeZAltVal(x)))))
  {
  }

  // fields `parentCrc32` to `someCrc320`
  lemma NodeZAltConformsLL(pr: Prims, x: NodeZAlt)
    ensures Conforms(pr, NodeZAltLayout.first.first, First(First(NodeZAltVal(x))))
  {
    NodeZAltConformsLLL(pr, x);
    NodeZAltConformsLLR(pr, x);
  }

  // fields `someCrc321` to `someCrc324`
  lemma NodeZAltConformsLR(pr: Prims, x: NodeZAlt)
    ensures Conforms(pr, NodeZAltLayout.first.second, Second(First(NodeZAltVal(x))))
  {
  }

  // fields `mat0` to `unknown2`
  lemma NodeZAltConformsRL(pr: Prims, x: NodeZAlt)
    ensures Conforms(pr, NodeZAltLayout.second.first, First(Second(NodeZAltVal(x))))
  {
    U32sInRange(x.mat0);
    U8sInRange(x.unknown0s);
    U32sInRange(x.mat1);
  }

  // fields `unknown3` to `unknown6`
  lemma NodeZAltConformsRR(pr: Prims, x: NodeZAlt)
    ensures Conforms(pr, NodeZAltLayout.second.second, Second(Second(NodeZAltVal(x))))
  {
  }

  // fields `parentCrc32` to `someCrc324`
  lemma NodeZAltConformsL(pr: Prims, x: NodeZAlt)
    ensures Conforms(pr, NodeZAltLayout.first, First(NodeZAltVal(x)))
  {
    NodeZAltConformsLL(pr, x);
    NodeZAltConformsLR(pr, x);
  }

  // fields `mat0` to `unknown6`
  lemma NodeZAltConformsR(pr: Prims, x: NodeZAlt)
    ensures Conforms(pr, NodeZAltLayout.second, Second(NodeZAltVal(x)))
  {
    NodeZAltConformsRL(pr, x);
    NodeZAltConformsRR(pr, x);
  }

  lemma NodeZAltConforms(pr: Prims, x: NodeZAlt)
    ensures Conforms(pr, NodeZAltLayout, NodeZAltVal(x))
  {
    NodeZAltConformsL(pr, x);
    NodeZAltConformsR(pr, x);
  }

  lemma NodeZAltOfVal(pr: Prims, x: NodeZAlt)
    ensures NodeZAltOf(NodeZAltVal(x)) == x
  {
  }

  // fields `parentCrc32` to `someNodeCrc321`
  lemma NodeZAltFromLLL(pr: Prims, v: Val)
    requires Conforms(pr, NodeZAltLayout.first.first.first, First(First(First(v))))
    ensures First(First(First(NodeZAltVal(NodeZAltOf(v))))) == First(First(First(v)))
  {
  }

  // fields `someNodeCrc322` to `someCrc320`
  lemma NodeZAltFromLLR(pr: Prims, v: Val)
    requires Conforms(pr, NodeZAltLayout.first.first.second, Second(First(First(v))))
    ensures Second(First(First(NodeZAltVal(NodeZAltOf(v))))) == Second(First(First(v)))
  {
  }

  // fields `parentCrc32` to `someCrc320`
  lemma NodeZAltFromLL(pr: Prims, v: Val)
    requires Conforms(pr, NodeZAltLayout.first.first, First(First(v)))
    ensures First(First(NodeZAltVal(NodeZAltOf(v)))) == First(First(v))
  {
    NodeZAltFromLLL(pr, v);
    NodeZAltFromLLR(pr, v);
  }

  // fields `someCrc321` to `someCrc324`
  lemma NodeZAltFromLR(pr: Prims, v: Val)
    requires Conforms(pr, NodeZAltLayout.first.second, Second(First(v)))
    ensures Second(First(NodeZAltVal(NodeZAltOf(v)))) == Second(First(v))
  {
  }

  // fields `mat0` to `unknown2`
  lemma NodeZAltFromRL(pr: Prims, v: Val)
    requires Conforms(pr, NodeZAltLayout.second.first, First(Second(v)))
    ensures First(Second(NodeZAltVal(NodeZAltOf(v)))) == First(Second(v))
  {
  }

  // fields `unknown3` to `unknown6`
  lemma NodeZAltFromRR(pr: Prims, v: Val)
    requires Conforms(pr, NodeZAltLayout.second.second, Second(Second(v)))
    ensures Second(Second(NodeZAltVal(NodeZAltOf(v)))) == Second(Second(v))
  {
  }

  // fields `parentCrc32` to `someCrc324`
  lemma NodeZAltFromL(pr: Prims, v: Val)
    requires Conforms(pr, NodeZAltLayout.first, First(v))
    ensures First(NodeZAltVal(NodeZAltOf(v))) == First(v)
  {
    NodeZAltFromLL(pr, v);
    NodeZAltFromLR(pr, v);
  }

  // fields `mat0` to `unknown6`
  lemma NodeZAltFromR(pr: Prims, v: Val)
    requires Conforms(pr, NodeZAltLayout.second, Second(v))
    ensures Second(NodeZAltVal(NodeZAltOf(v))) == Second(v)
  {
    NodeZAltFromRL(pr, v);
    NodeZAltFromRR(pr, v);
  }

  lemma NodeZAltFrom(pr: Prims, v: Val)
    requires Conforms(pr, NodeZAltLayout, v)
    ensures NodeZAltVal(NodeZAltOf(v)) == v
  {
    NodeZAltFromL(pr, v);
    NodeZAltFromR(pr, v);
  }

  function NodeZAltView(): View<NodeZAlt> {
    View(NodeZAltLayout, NodeZAltVal, NodeZAltOf, _ => true)
  }

  lemma NodeZAltFaithful(pr: Prims)
    ensures Faithful(pr, NodeZAltView())
  {
    forall x | true ensures Conforms(pr, NodeZAltLayout, NodeZAltVal(x)) && NodeZAltOf(NodeZAltVal(x)) == x {
      NodeZAltConforms(pr, x);
      NodeZAltOfVal(pr, x);
    }
    forall v | Conforms(pr, NodeZAltLayout, v) ensures NodeZAltVal(NodeZAltOf(v)) == v {
      NodeZAltFrom(pr, v);
    }
  }

  /** `#[nom(Exact)]`: the whole body is one node. */
  function NodeZAltSchema(): Schema<NodeZAlt> {
    RecordSchema(NoPrims, NodeZAltView(), true)
  }

  lemma NodeZAltSchemaLawful()
    ensures LawfulSchema(NodeZAltSchema())
  {
    NoPrimsLawful();
    NodeZAltFaithful(NoPrims);
    RecordSchemaLawful(NoPrims, NodeZAltView(), true);
  }

  /** The layout of a `NodeZAlt` is 390 bytes wide. */
  lemma NodeZAltWidth()
    ensures Width(NodeZAltLayout) == Some(390)
  {
  }

  /** A `NodeZAlt` body is exactly 390 bytes: a body of any other length fails to decode. */
  lemma NodeZAltSize(s: seq<u8>, x: NodeZAlt)
    ensures NodeZAltSchema().decode(s).Ok? ==> |s| == 390
    ensures |NodeZAltSchema().encode(x)| == 390
  {
    NodeZAltWidth();
    NoPrimsLawful();
    NodeZAltFaithful(NoPrims);
    ExactWidth(NoPrims, NodeZAltView(), s, x);
  }

  /** `FixedVec<u8, 208>`. */
  type Bytes208 = s: seq<u8> | |s| == 208 witness seq(208, _ => 0)

  /** `NodeObjectFormatAlt`: a `ResourceObjectZ` header and a `NodeZAlt` body. */
  function NodeFormatAlt(hs: Headers): (f: Format<seq<u8>, NodeZAlt>)
    ensures f.header == OpaqueSchema(hs.resourceObjectZ) && f.body == NodeZAltSchema()
    ensures forall h, b :: f.links(h, b) == hs.resourceObjectZ.refs(h, NoLinks)
  {
    NoRefsFormat(hs.resourceObjectZ, NodeZAltSchema());
    OpaqueFormat(hs.resourceObjectZ, NodeZAltSchema(), NoRefs)
  }

  /**
   * An older node object survives the adapter both ways. A well-formed body packed
   * under a header that the `ResourceObjectZ` schema accepts unpacks to the same pair,
   * reporting the header's references combined with no references of its own. An
   * object that unpacks packs back to a prefix of its header buffer and to
   * exactly its body buffer, the body schema being exact.
   */
  lemma NodeAltRoundTrip(hs: Headers, hb: seq<u8>, b: NodeZAlt, header: seq<u8>, body: seq<u8>)
    requires LawfulHeaders(hs)
    ensures hs.resourceObjectZ.decode(hb) == Ok(hb) && NodeZAltSchema().wf(b) ==>
      var p := Pack(NodeFormatAlt(hs), hb, b);
      && p.header == hb && p.body == NodeZAltSchema().encode(b)
      && Unpack(NodeFormatAlt(hs), p.header, p.body) == Ok(Unpacked(hb, b, hs.resourceObjectZ.refs(hb, NoLinks)))
    ensures Unpack(NodeFormatAlt(hs), header, body).Ok? ==>
      var u := Unpack(NodeFormatAlt(hs), header, body).value;
      && u.links == hs.resourceObjectZ.refs(u.header, NoLinks)
      && Pack(NodeFormatAlt(hs), u.header, u.body).header <= header
      && Pack(NodeFormatAlt(hs), u.header, u.body).body == body
  {
    NodeZAltSchemaLawful();
    OpaqueFormatRoundTrip(hs.resourceObjectZ, NodeZAltSchema(), NoRefs, hb, b, header, body);
  }
}
