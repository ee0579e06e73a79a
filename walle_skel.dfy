/**
 * `SkelZ` (walle_fmt/skel.rs): a skeleton body, exact, with its bones, hash
 * arrays, a nested array of hash arrays and three arrays of collision bones. Its
 * soft links are each bone's non-zero user-define hash, then all material
 * hashes, then all mesh-data hashes; it has no hard links.
 */
module WalleSkel {
  import opened Bytes
  import opened Codec
  import opened Schemas
  import opened Objects
  import opened Vectors

  /** A bone (skel.rs:13-40), fields in declared order. */
  datatype SkelZBone = SkelZBone(
    userDefineCrc32: u32,
    localRotation: Quat,
    scale: Vec3f,
    boneFlags: u32,
    localTranslation: Vec3f,
    placeholderChildPtr: u32,
    modelRotMatrixRow1: Vec3f,
    modelMatrixId: i16,
    inverseModelMatrixId: i16,
    modelRotMatrixRow2: Vec3f,
    placeholderModelMatrixPtr: u32,
    modelRotMatrixRow3: Vec3f,
    placeholderInverseModelMatrixPtr: u32,
    localRotationInverse: Quat,
    unknownPtr0s: U32s3,
    placeholderParentPtr: u32,
    unknownPtr1s: U32s3,
    placeholderPrevSiblingPtr: u32,
    unknownPtr2s: U32s3,
    placeholderNextSiblingPtr: u32,
    originalModelTransform: Mat4f,
    childIndex: i32,
    parentIndex: i32,
    nextSiblingIndex: i32,
    prevSiblingIndex: i32,
    boneName: u32)

  const SkelZBoneLayout: Kind :=
    Then(Then(Then(Then(Then(Word(U32), // userDefineCrc32
    Words(F32, 4)), // localRotation
    Then(Words(F32, 3), // scale
    Word(U32))), // boneFlags
    Then(Then(Words(F32, 3), // localTranslation
    Word(U32)), // placeholderChildPtr
    Words(F32, 3))), // modelRotMatrixRow1
    Then(Then(Then(Word(I16), // modelMatrixId
    Word(I16)), // inverseModelMatrixId
    Words(F32, 3)), // modelRotMatrixRow2
    Then(Then(Word(U32), // placeholderModelMatrixPtr
    Words(F32, 3)), // modelRotMatrixRow3
    Word(U32)))), // placeholderInverseModelMatrixPtr
    Then(Then(Then(Then(Words(F32, 4), // localRotationInverse
    Words(U32, 3)), // unknownPtr0s
    Then(Word(U32), // placeholderParentPtr
    Words(U32, 3))), // unknownPtr1s
    Then(Then(Word(U32), // placeholderPrevSiblingPtr
    Words(U32, 3)), // unknownPtr2s
    Word(U32))), // placeholderNextSiblingPtr
    Then(Then(Then(Words(F32, 16), // originalModelTransform
    Word(I32)), // childIndex
    Word(I32)), // parentIndex
    Then(Then(Word(I32), // nextSiblingIndex
    Word(I32)), // prevSiblingIndex
    Word(U32))))) // boneName

  function SkelZBoneVal(x: SkelZBone): Val {
    Pair(Pair(Pair(Pair(Pair(Num(x.userDefineCrc32), // userDefineCrc32
    Nums(x.localRotation)), // localRotation
    Pair(Nums(x.scale), // scale
    Num(x.boneFlags))), // boneFlags
    Pair(Pair(Nums(x.localTranslation), // localTranslation
    Num(x.placeholderChildPtr)), // placeholderChildPtr
    Nums(x.modelRotMatrixRow1))), // modelRotMatrixRow1
    Pair(Pair(Pair(Num(x.modelMatrixId), // modelMatrixId
    Num(x.inverseModelMatrixId)), // inverseModelMatrixId
    Nums(x.modelRotMatrixRow2)), // modelRotMatrixRow2
    Pair(Pair(Num(x.placeholderModelMatrixPtr), // placeholderModelMatrixPtr
    Nums(x.modelRotMatrixRow3)), // modelRotMatrixRow3
    Num(x.placeholderInverseModelMatrixPtr)))), // placeholderInverseModelMatrixPtr
    Pair(Pair(Pair(Pair(Nums(x.localRotationInverse), // localRotationInverse
    Nums(x.unknownPtr0s)), // unknownPtr0s
    Pair(Num(x.placeholderParentPtr), // placeholderParentPtr
    Nums(x.unknownPtr1s))), // unknownPtr1s
    Pair(Pair(Num(x.placeholderPrevSiblingPtr), // placeholderPrevSiblingPtr
    Nums(x.unknownPtr2s)), // unknownPtr2s
    Num(x.placeholderNextSiblingPtr))), // placeholderNextSiblingPtr
    Pair(Pair(Pair(Nums(x.originalModelTransform), // originalModelTransform
    Num(x.childIndex)), // childIndex
    Num(x.parentIndex)), // parentIndex
    Pair(Pair(Num(x.nextSiblingIndex), // nextSiblingIndex
    Num(x.prevSiblingIndex)), // prevSiblingIndex
    Num(x.boneName))))) // boneName
  }

  function SkelZBoneOf(v: Val): SkelZBone {
    SkelZBone(
      AsWord(U32, First(First(First(First(First(v)))))),
      AsWords(F32, 4, Second(First(First(First(First(v)))))),
      AsWords(F32, 3, First(Second(First(First(First(v)))))),
      AsWord(U32, Second(Second(First(First(First(v)))))),
      AsWords(F32, 3, First(First(Second(First(First(v)))))),
      AsWord(U32, Second(First(Second(First(First(v)))))),
      AsWords(F32, 3, Second(Second(First(First(v))))),
      AsWord(I16, First(First(First(Second(First(v)))))),
      AsWord(I16, Second(First(First(Second(First(v)))))),
      AsWords(F32, 3, Second(First(Second(First(v))))),
      AsWord(U32, First(First(Second(Second(First(v)))))),
      AsWords(F32, 3, Second(First(Second(Second(First(v)))))),
      AsWord(U32, Second(Second(Second(First(v))))),
      AsWords(F32, 4, First(First(First(First(Second(v)))))),
      AsWords(U32, 3, Second(First(First(First(Second(v)))))),
      AsWord(U32, First(Second(First(First(Second(v)))))),
      AsWords(U32, 3, Second(Second(First(First(Second(v)))))),
      AsWord(U32, First(First(Second(First(Second(v)))))),
      AsWords(U32, 3, Second(First(Second(First(Second(v)))))),
      AsWord(U32, Second(Second(First(Second(v))))),
      AsWords(F32, 16, First(First(First(Second(Second(v)))))),
      AsWord(I32, Second(First(First(Second(Second(v)))))),
      AsWord(I32, Second(First(Second(Second(v))))),
      AsWord(I32, First(First(Second(Second(Second(v)))))),
      AsWord(I32, Second(First(Second(Second(Second(v)))))),
      AsWord(U32, Second(Second(Second(Second(v))))))
  }

  // fields `userDefineCrc32` to `boneFlags`
  lemma SkelZBoneConformsLLL(pr: Prims, x: SkelZBone)
    ensures Conforms(pr, SkelZBoneLayout.first.first.first, First(First(First(SkelZBoneVal(x)))))
  {
    U32sInRange(x.localRotation);
    U32sInRange(x.scale);
  }

  // fields `localTranslation` to `modelRotMatrixRow1`
  lemma SkelZBoneConformsLLR(pr: Prims, x: SkelZBone)
    ensures Conforms(pr, SkelZBoneLayout.first.first.second, Second(First(First(SkelZBoneVal(x)))))
  {
    U32sInRange(x.localTranslation);
    U32sInRange(x.modelRotMatrixRow1);
  }

  // fields `modelMatrixId` to `modelRotMatrixRow2`
  lemma SkelZBoneConformsLRL(pr: Prims, x: SkelZBone)
    ensures Conforms(pr, SkelZBoneLayout.first.second.first, First(Second(First(SkelZBoneVal(x)))))
  {
    U32sInRange(x.modelRotMatrixRow2);
  }

  // fields `placeholderModelMatrixPtr` to `placeholderInverseModelMatrixPtr`
  lemma SkelZBoneConformsLRR(pr: Prims, x: SkelZBone)
    ensures Conforms(pr, SkelZBoneLayout.first.second.second, Second(Second(First(SkelZBoneVal(x)))))
  {
    U32sInRange(x.modelRotMatrixRow3);
  }

  // fields `localRotationInverse` to `unknownPtr1s`
  lemma SkelZBoneConformsRLL(pr: Prims, x: SkelZBone)
    ensures Conforms(pr, SkelZBoneLayout.second.first.first, First(First(Second(SkelZBoneVal(x)))))
  {
    U32sInRange(x.localRotationInverse);
    U32sInRange(x.unknownPtr0s);
    U32sInRange(x.unknownPtr1s);
  }

  // fields `placeholderPrevSiblingPtr` to `placeholderNextSiblingPtr`
  lemma SkelZBoneConformsRLR(pr: Prims, x: SkelZBone)
    ensures Conforms(pr, SkelZBoneLayout.second.first.second, Second(First(Second(SkelZBoneVal(x)))))
  {
    U32sInRange(x.unknownPtr2s);
  }

  // fields `originalModelTransform` to `parentIndex`
  lemma SkelZBoneConformsRRL(pr: Prims, x: SkelZBone)
    ensures Conforms(pr, SkelZBoneLayout.second.second.first, First(Second(Second(SkelZBoneVal(x)))))
  {
    U32sInRange(x.originalModelTransform);
  }

  // fields `nextSiblingIndex` to `boneName`
  lemma SkelZBoneConformsRRR(pr: Prims, x: SkelZBone)
    ensures Conforms(pr, SkelZBoneLayout.second.second.second, Second(Second(Second(SkelZBoneVal(x)))))
  {
  }

  // fields `userDefineCrc32` to `modelRotMatrixRow1`
  lemma SkelZBoneConformsLL(pr: Prims, x: SkelZBone)
    ensures Conforms(pr, SkelZBoneLayout.first.first, First(First(SkelZBoneVal(x))))
  {
    SkelZBoneConformsLLL(pr, x);
    SkelZBoneConformsLLR(pr, x);
  }

  // fields `modelMatrixId` to `placeholderInverseModelMatrixPtr`
  lemma SkelZBoneConformsLR(pr: Prims, x: SkelZBone)
    ensures Conforms(pr, SkelZBoneLayout.first.second, Second(First(SkelZBoneVal(x))))
  {
    SkelZBoneConformsLRL(pr, x);
    SkelZBoneConformsLRR(pr, x);
  }

  // fields `localRotationInverse` to `placeholderNextSiblingPtr`
  lemma SkelZBoneConformsRL(pr: Prims, x: SkelZBone)
    ensures Conforms(pr, SkelZBoneLayout.second.first, First(Second(SkelZBoneVal(x))))
  {
    SkelZBoneConformsRLL(pr, x);
    SkelZBoneConformsRLR(pr, x);
  }

  // fields `originalModelTransform` to `boneName`
  lemma SkelZBoneConformsRR(pr: Prims, x: SkelZBone)
    ensures Conforms(pr, SkelZBoneLayout.second.second, Second(Second(SkelZBoneVal(x))))
  {
    SkelZBoneConformsRRL(pr, x);
    SkelZBoneConformsRRR(pr, x);
  }

  // fields `userDefineCrc32` to `placeholderInverseModelMatrixPtr`
  lemma SkelZBoneConformsL(pr: Prims, x: SkelZBone)
    ensures Conforms(pr, SkelZBoneLayout.first, First(SkelZBoneVal(x)))
  {
    SkelZBoneConformsLL(pr, x);
    SkelZBoneConformsLR(pr, x);
  }

  // fields `localRotationInverse` to `boneName`
  lemma SkelZBoneConformsR(pr: Prims, x: SkelZBone)
    ensures Conforms(pr, SkelZBoneLayout.second, Second(SkelZBoneVal(x)))
  {
    SkelZBoneConformsRL(pr, x);
    SkelZBoneConformsRR(pr, x);
  }

  lemma SkelZBoneConforms(pr: Prims, x: SkelZBone)
    ensures Conforms(pr, SkelZBoneLayout, SkelZBoneVal(x))
  {
    SkelZBoneConformsL(pr, x);
    SkelZBoneConformsR(pr, x);
  }

  lemma SkelZBoneOfVal(pr: Prims, x: SkelZBone)
    ensures SkelZBoneOf(SkelZBoneVal(x)) == x
  {
  }

  // fields `userDefineCrc32` to `boneFlags`
  lemma SkelZBoneFromLLL(pr: Prims, v: Val)
    requires Conforms(pr, SkelZBoneLayout.first.first.first, First(First(First(v))))
    ensures First(First(First(SkelZBoneVal(SkelZBoneOf(v))))) == First(First(First(v)))
  {
  }

  // fields `localTranslation` to `modelRotMatrixRow1`
  lemma SkelZBoneFromLLR(pr: Prims, v: Val)
    requires Conforms(pr, SkelZBoneLayout.first.first.second, Second(First(First(v))))
    ensures Second(First(First(SkelZBoneVal(SkelZBoneOf(v))))) == Second(First(First(v)))
  {
  }

  // fields `modelMatrixId` to `modelRotMatrixRow2`
  lemma SkelZBoneFromLRL(pr: Prims, v: Val)
    requires Conforms(pr, SkelZBoneLayout.first.second.first, First(Second(First(v))))
    ensures First(Second(First(SkelZBoneVal(SkelZBoneOf(v))))) == First(Second(First(v)))
  {
  }

  // fields `placeholderModelMatrixPtr` to `placeholderInverseModelMatrixPtr`
  lemma SkelZBoneFromLRR(pr: Prims, v: Val)
    requires Conforms(pr, SkelZBoneLayout.first.second.second, Second(Second(First(v))))
    ensures Second(Second(First(SkelZBoneVal(SkelZBoneOf(v))))) == Second(Second(First(v)))
  {
  }

  // fields `localRotationInverse` to `unknownPtr1s`
  lemma SkelZBoneFromRLL(pr: Prims, v: Val)
    requires Conforms(pr, SkelZBoneLayout.second.first.first, First(First(Second(v))))
    ensures First(First(Second(SkelZBoneVal(SkelZBoneOf(v))))) == First(First(Second(v)))
  {
  }

  // fields `placeholderPrevSiblingPtr` to `placeholderNextSiblingPtr`
  lemma SkelZBoneFromRLR(pr: Prims, v: Val)
    requires Conforms(pr, SkelZBoneLayout.second.first.second, Second(First(Second(v))))
    ensures Second(First(Second(SkelZBoneVal(SkelZBoneOf(v))))) == Second(First(Second(v)))
  {
  }

  // fields `originalModelTransform` to `parentIndex`
  lemma SkelZBoneFromRRL(pr: Prims, v: Val)
    requires Conforms(pr, SkelZBoneLayout.second.second.first, First(Second(Second(v))))
    ensures First(Second(Second(SkelZBoneVal(SkelZBoneOf(v))))) == First(Second(Second(v)))
  {
  }

  // fields `nextSiblingIndex` to `boneName`
  lemma SkelZBoneFromRRR(pr: Prims, v: Val)
    requires Conforms(pr, SkelZBoneLayout.second.second.second, Second(Second(Second(v))))
    ensures Second(Second(Second(SkelZBoneVal(SkelZBoneOf(v))))) == Second(Second(Second(v)))
  {
  }

  // fields `userDefineCrc32` to `modelRotMatrixRow1`
  lemma SkelZBoneFromLL(pr: Prims, v: Val)
    requires Conforms(pr, SkelZBoneLayout.first.first, First(First(v)))
    ensures First(First(SkelZBoneVal(SkelZBoneOf(v)))) == First(First(v))
  {
    SkelZBoneFromLLL(pr, v);
    SkelZBoneFromLLR(pr, v);
  }

  // fields `modelMatrixId` to `placeholderInverseModelMatrixPtr`
  lemma SkelZBoneFromLR(pr: Prims, v: Val)
    requires Conforms(pr, SkelZBoneLayout.first.second, Second(First(v)))
    ensures Second(First(SkelZBoneVal(SkelZBoneOf(v)))) == Second(First(v))
  {
    SkelZBoneFromLRL(pr, v);
    SkelZBoneFromLRR(pr, v);
  }

  // fields `localRotationInverse` to `placeholderNextSiblingPtr`
  lemma SkelZBoneFromRL(pr: Prims, v: Val)
    requires Conforms(pr, SkelZBoneLayout.second.first, First(Second(v)))
    ensures First(Second(SkelZBoneVal(SkelZBoneOf(v)))) == First(Second(v))
  {
    SkelZBoneFromRLL(pr, v);
    SkelZBoneFromRLR(pr, v);
  }

  // fields `originalModelTransform` to `boneName`
  lemma SkelZBoneFromRR(pr: Prims, v: Val)
    requires Conforms(pr, SkelZBoneLayout.second.second, Second(Second(v)))
    ensures Second(Second(SkelZBoneVal(SkelZBoneOf(v)))) == Second(Second(v))
  {
    SkelZBoneFromRRL(pr, v);
    SkelZBoneFromRRR(pr, v);
  }

  // fields `userDefineCrc32` to `placeholderInverseModelMatrixPtr`
  lemma SkelZBoneFromL(pr: Prims, v: Val)
    requires Conforms(pr, SkelZBoneLayout.first, First(v))
    ensures First(SkelZBoneVal(SkelZBoneOf(v))) == First(v)
  {
    SkelZBoneFromLL(pr, v);
    SkelZBoneFromLR(pr, v);
  }

  // fields `localRotationInverse` to `boneName`
  lemma SkelZBoneFromR(pr: Prims, v: Val)
    requires Conforms(pr, SkelZBoneLayout.second, Second(v))
    ensures Second(SkelZBoneVal(SkelZBoneOf(v))) == Second(v)
  {
    SkelZBoneFromRL(pr, v);
    SkelZBoneFromRR(pr, v);
  }

  lemma SkelZBoneFrom(pr: Prims, v: Val)
    requires Conforms(pr, SkelZBoneLayout, v)
    ensures SkelZBoneVal(SkelZBoneOf(v)) == v
  {
    SkelZBoneFromL(pr, v);
    SkelZBoneFromR(pr, v);
  }

  function SkelZBoneView(): View<SkelZBone> {
    View(SkelZBoneLayout, SkelZBoneVal, SkelZBoneOf, _ => true)
  }

  lemma SkelZBoneFaithful(pr: Prims)
    ensures Faithful(pr, SkelZBoneView())
  {
    forall x | true ensures Conforms(pr, SkelZBoneLayout, SkelZBoneVal(x)) && SkelZBoneOf(SkelZBoneVal(x)) == x {
      SkelZBoneConforms(pr, x);
      SkelZBoneOfVal(pr, x);
    }
    forall v | Conforms(pr, SkelZBoneLayout, v) ensures SkelZBoneVal(SkelZBoneOf(v)) == v {
      SkelZBoneFrom(pr, v);
    }
  }

  /** `FixedVec<u32, 3>`. */
  type U32s3 = s: seq<u32> | |s| == 3 witness [0, 0, 0]

  /** A spherical collision bone (skel.rs:45-50). */
  datatype SphereColBone = SphereColBone(
    sphere: Blob,
    flag: u32,
    nameCrc32: u32,
    boneNodeCrc32: u32)

  const SphereColBoneLayout: Kind :=
    Then(Then(Opaque(Sphere), // sphere
    Word(U32)), // flag
    Then(Word(U32), // nameCrc32
    Word(U32))) // boneNodeCrc32

  function SphereColBoneVal(x: SphereColBone): Val {
    Pair(Pair(Raw(x.sphere), // sphere
    Num(x.flag)), // flag
    Pair(Num(x.nameCrc32), // nameCrc32
    Num(x.boneNodeCrc32))) // boneNodeCrc32
  }

  function SphereColBoneOf(v: Val): SphereColBone {
    SphereColBone(
      AsBlob(First(First(v))),
      AsWord(U32, Second(First(v))),
      AsWord(U32, First(Second(v))),
      AsWord(U32, Second(Second(v))))
  }

  /** The opaque primitives of a `SphereColBone` hold complete encodings. */
  predicate WfSphereColBone(pr: Prims, x: SphereColBone) {
    Framed(pr.sphere, x.sphere)
  }

  lemma SphereColBoneConforms(pr: Prims, x: SphereColBone)
    requires WfSphereColBone(pr, x)
    ensures Conforms(pr, SphereColBoneLayout, SphereColBoneVal(x))
  {
  }

  lemma SphereColBoneOfVal(pr: Prims, x: SphereColBone)
    requires WfSphereColBone(pr, x)
    ensures SphereColBoneOf(SphereColBoneVal(x)) == x
  {
  }

  lemma SphereColBoneFrom(pr: Prims, v: Val)
    requires Conforms(pr, SphereColBoneLayout, v)
    ensures SphereColBoneVal(SphereColBoneOf(v)) == v
    ensures WfSphereColBone(pr, SphereColBoneOf(v))
  {
  }

  function SphereColBoneView(pr: Prims): View<SphereColBone> {
    View(SphereColBoneLayout, SphereColBoneVal, SphereColBoneOf, x => WfSphereColBone(pr, x))
  }

  lemma SphereColBoneFaithful(pr: Prims)
    ensures Faithful(pr, SphereColBoneView(pr))
  {
    forall x | WfSphereColBone(pr, x) ensures Conforms(pr, SphereColBoneLayout, SphereColBoneVal(x)) && SphereColBoneOf(SphereColBoneVal(x)) == x {
      SphereColBoneConforms(pr, x);
      SphereColBoneOfVal(pr, x);
    }
    forall v | Conforms(pr, SphereColBoneLayout, v) ensures WfSphereColBone(pr, SphereColBoneOf(v)) && SphereColBoneVal(SphereColBoneOf(v)) == v {
      SphereColBoneFrom(pr, v);
    }
  }

  /** A box collision bone (skel.rs:55-60). */
  datatype BoxColBone = BoxColBone(
    mat: Mat4f,
    flag: u32,
    nameCrc32: u32,
    boneNodeCrc32: u32)

  const BoxColBoneLayout: Kind :=
    Then(Then(Words(F32, 16), // mat
    Word(U32)), // flag
    Then(Word(U32), // nameCrc32
    Word(U32))) // boneNodeCrc32

  function BoxColBoneVal(x: BoxColBone): Val {
    Pair(Pair(Nums(x.mat), // mat
    Num(x.flag)), // flag
    Pair(Num(x.nameCrc32), // nameCrc32
    Num(x.boneNodeCrc32))) // boneNodeCrc32
  }

  function BoxColBoneOf(v: Val): BoxColBone {
    BoxColBone(
      AsWords(F32, 16, First(First(v))),
      AsWord(U32, Second(First(v))),
      AsWord(U32, First(Second(v))),
      AsWord(U32, Second(Second(v))))
  }

  lemma BoxColBoneConforms(pr: Prims, x: BoxColBone)
    ensures Conforms(pr, BoxColBoneLayout, BoxColBoneVal(x))
  {
    U32sInRange(x.mat);
  }

  lemma BoxColBoneOfVal(pr: Prims, x: BoxColBone)
    ensures BoxColBoneOf(BoxColBoneVal(x)) == x
  {
  }

  lemma BoxColBoneFrom(pr: Prims, v: Val)
    requires Conforms(pr, BoxColBoneLayout, v)
    ensures BoxColBoneVal(BoxColBoneOf(v)) == v
  {
  }

  function BoxColBoneView(): View<BoxColBone> {
    View(BoxColBoneLayout, BoxColBoneVal, BoxColBoneOf, _ => true)
  }

  lemma BoxColBoneFaithful(pr: Prims)
    ensures Faithful(pr, BoxColBoneView())
  {
    forall x | true ensures Conforms(pr, BoxColBoneLayout, BoxColBoneVal(x)) && BoxColBoneOf(BoxColBoneVal(x)) == x {
      BoxColBoneConforms(pr, x);
      BoxColBoneOfVal(pr, x);
    }
    forall v | Conforms(pr, BoxColBoneLayout, v) ensures BoxColBoneVal(BoxColBoneOf(v)) == v {
      BoxColBoneFrom(pr, v);
    }
  }

  /** The skeleton body (skel.rs:66-77), fields in declared order. */
  datatype SkelZ = SkelZ(
    flag: u32,
    sphereLocal: Blob,
    bones: PascalArray<SkelZBone>,
    materialCrc32s: PascalArray<u32>,
    meshDataCrc32s: PascalArray<u32>,
    boneNodeGroups: PascalArray<U32Array>,
    unknown0s: PascalArray<u32>,
    sphereColBones1: PascalArray<SphereColBone>,
    sphereColBones2: PascalArray<SphereColBone>,
    boxColBones: PascalArray<BoxColBone>)

  const SkelZLayout: Kind :=
    Then(Then(Then(Then(Word(U32), // flag
    Opaque(Sphere)), // sphereLocal
    Array(SkelZBoneLayout)), // bones
    Then(WordArray(U32), // materialCrc32s
    WordArray(U32))), // meshDataCrc32s
    Then(Then(Then(Array(U32ArrayLayout), // boneNodeGroups
    WordArray(U32)), // unknown0s
    Array(SphereColBoneLayout)), // sphereColBones1
    Then(Array(SphereColBoneLayout), // sphereColBones2
    Array(BoxColBoneLayout)))) // boxColBones

  function SkelZVal(x: SkelZ): Val {
    Pair(Pair(Pair(Pair(Num(x.flag), // flag
    Raw(x.sphereLocal)), // sphereLocal
    Vals(MapVals(SkelZBoneVal, x.bones))), // bones
    Pair(Nums(x.materialCrc32s), // materialCrc32s
    Nums(x.meshDataCrc32s))), // meshDataCrc32s
    Pair(Pair(Pair(Vals(MapVals(U32ArrayVal, x.boneNodeGroups)), // boneNodeGroups
    Nums(x.unknown0s)), // unknown0s
    Vals(MapVals(SphereColBoneVal, x.sphereColBones1))), // sphereColBones1
    Pair(Vals(MapVals(SphereColBoneVal, x.sphereColBones2)), // sphereColBones2
    Vals(MapVals(BoxColBoneVal, x.boxColBones))))) // boxColBones
  }

  function SkelZOf(v: Val): SkelZ {
    SkelZ(
      AsWord(U32, First(First(First(First(v))))),
      AsBlob(Second(First(First(First(v))))),
      AsRecords(SkelZBoneOf, Second(First(First(v)))),
      AsWordArray(U32, First(Second(First(v)))),
      AsWordArray(U32, Second(Second(First(v)))),
      AsRecords(U32ArrayOf, First(First(First(Second(v))))),
      AsWordArray(U32, Second(First(First(Second(v))))),
      AsRecords(SphereColBoneOf, Second(First(Second(v)))),
      AsRecords(SphereColBoneOf, First(Second(Second(v)))),
      AsRecords(BoxColBoneOf, Second(Second(Second(v)))))
  }

  /** The opaque primitives of a `SkelZ` hold complete encodings. */
  predicate WfSkelZ(pr: Prims, x: SkelZ) {
    Framed(pr.sphere, x.sphereLocal)
    && (forall i | 0 <= i < |x.sphereColBones1| :: WfSphereColBone(pr, x.sphereColBones1[i]))
    && (forall i | 0 <= i < |x.sphereColBones2| :: WfSphereColBone(pr, x.sphereColBones2[i]))
  }

  // fields `flag` to `bones`
  lemma SkelZConformsLL(pr: Prims, x: SkelZ)
    requires Framed(pr.sphere, x.sphereLocal)
    ensures Conforms(pr, SkelZLayout.first.first, First(First(SkelZVal(x))))
  {
    SkelZBoneFaithful(pr);
    ElementsConform(pr, SkelZBoneView(), x.bones);
  }

  // fields `materialCrc32s` to `meshDataCrc32s`
  lemma SkelZConformsLR(pr: Prims, x: SkelZ)
    ensures Conforms(pr, SkelZLayout.first.second, Second(First(SkelZVal(x))))
  {
    U32sInRange(x.materialCrc32s);
    U32sInRange(x.meshDataCrc32s);
  }

  // fields `boneNodeGroups` to `sphereColBones1`
  lemma SkelZConformsRL(pr: Prims, x: SkelZ)
    requires (forall i | 0 <= i < |x.sphereColBones1| :: WfSphereColBone(pr, x.sphereColBones1[i]))
    ensures Conforms(pr, SkelZLayout.second.first, First(Second(SkelZVal(x))))
  {
    U32ArrayFaithful(pr);
    ElementsConform(pr, U32ArrayView(), x.boneNodeGroups);
    U32sInRange(x.unknown0s);
    SphereColBoneFaithful(pr);
    ElementsConform(pr, SphereColBoneView(pr), x.sphereColBones1);
  }

  // fields `sphereColBones2` to `boxColBones`
  lemma SkelZConformsRR(pr: Prims, x: SkelZ)
    requires (forall i | 0 <= i < |x.sphereColBones2| :: WfSphereColBone(pr, x.sphereColBones2[i]))
    ensures Conforms(pr, SkelZLayout.second.second, Second(Second(SkelZVal(x))))
  {
    SphereColBoneFaithful(pr);
    ElementsConform(pr, SphereColBoneView(pr), x.sphereColBones2);
    BoxColBoneFaithful(pr);
    ElementsConform(pr, BoxColBoneView(), x.boxColBones);
  }

  // fields `flag` to `meshDataCrc32s`
  lemma SkelZConformsL(pr: Prims, x: SkelZ)
    requires Framed(pr.sphere, x.sphereLocal)
    ensures Conforms(pr, SkelZLayout.first, First(SkelZVal(x)))
  {
    SkelZConformsLL(pr, x);
    SkelZConformsLR(pr, x);
  }

  // fields `boneNodeGroups` to `boxColBones`
  lemma SkelZConformsR(pr: Prims, x: SkelZ)
    requires (forall i | 0 <= i < |x.sphereColBones1| :: WfSphereColBone(pr, x.sphereColBones1[i])) && (forall i | 0 <= i < |x.sphereColBones2| :: WfSphereColBone(pr, x.sphereColBones2[i]))
    ensures Conforms(pr, SkelZLayout.second, Second(SkelZVal(x)))
  {
    SkelZConformsRL(pr, x);
    SkelZConformsRR(pr, x);
  }

  lemma SkelZConforms(pr: Prims, x: SkelZ)
    requires WfSkelZ(pr, x)
    ensures Conforms(pr, SkelZLayout, SkelZVal(x))
  {
    SkelZConformsL(pr, x);
    SkelZConformsR(pr, x);
  }

  lemma SkelZOfVal(pr: Prims, x: SkelZ)
    requires WfSkelZ(pr, x)
    ensures SkelZOf(SkelZVal(x)) == x
  {
    SkelZBoneFaithful(pr);
    ElementsOfVal(pr, SkelZBoneView(), x.bones);
    U32ArrayFaithful(pr);
    ElementsOfVal(pr, U32ArrayView(), x.boneNodeGroups);
    SphereColBoneFaithful(pr);
    ElementsOfVal(pr, SphereColBoneView(pr), x.sphereColBones1);
    SphereColBoneFaithful(pr);
    ElementsOfVal(pr, SphereColBoneView(pr), x.sphereColBones2);
    BoxColBoneFaithful(pr);
    ElementsOfVal(pr, BoxColBoneView(), x.boxColBones);
  }

  // fields `flag` to `bones`
  lemma SkelZFromLL(pr: Prims, v: Val)
    requires Conforms(pr, SkelZLayout.first.first, First(First(v)))
    ensures First(First(SkelZVal(SkelZOf(v)))) == First(First(v))
    ensures Framed(pr.sphere, SkelZOf(v).sphereLocal)
  {
    SkelZBoneFaithful(pr);
    ElementsFrom(pr, SkelZBoneView(), Second(First(First(v))));
  }

  // fields `materialCrc32s` to `meshDataCrc32s`
  lemma SkelZFromLR(pr: Prims, v: Val)
    requires Conforms(pr, SkelZLayout.first.second, Second(First(v)))
    ensures Second(First(SkelZVal(SkelZOf(v)))) == Second(First(v))
  {
  }

  // fields `boneNodeGroups` to `sphereColBones1`
  lemma SkelZFromRL(pr: Prims, v: Val)
    requires Conforms(pr, SkelZLayout.second.first, First(Second(v)))
    ensures First(Second(SkelZVal(SkelZOf(v)))) == First(Second(v))
    ensures (forall i | 0 <= i < |SkelZOf(v).sphereColBones1| :: WfSphereColBone(pr, SkelZOf(v).sphereColBones1[i]))
  {
    U32ArrayFaithful(pr);
    ElementsFrom(pr, U32ArrayView(), First(First(First(Second(v)))));
    SphereColBoneFaithful(pr);
    ElementsFrom(pr, SphereColBoneView(pr), Second(First(Second(v))));
  }

  // fields `sphereColBones2` to `boxColBones`
  lemma SkelZFromRR(pr: Prims, v: Val)
    requires Conforms(pr, SkelZLayout.second.second, Second(Second(v)))
    ensures Second(Second(SkelZVal(SkelZOf(v)))) == Second(Second(v))
    ensures (forall i | 0 <= i < |SkelZOf(v).sphereColBones2| :: WfSphereColBone(pr, SkelZOf(v).sphereColBones2[i]))
  {
    SphereColBoneFaithful(pr);
    ElementsFrom(pr, SphereColBoneView(pr), First(Second(Second(v))));
    BoxColBoneFaithful(pr);
    ElementsFrom(pr, BoxColBoneView(), Second(Second(Second(v))));
  }

  // fields `flag` to `meshDataCrc32s`
  lemma SkelZFromL(pr: Prims, v: Val)
    requires Conforms(pr, SkelZLayout.first, First(v))
    ensures First(SkelZVal(SkelZOf(v))) == First(v)
    ensures Framed(pr.sphere, SkelZOf(v).sphereLocal)
  {
    SkelZFromLL(pr, v);
    SkelZFromLR(pr, v);
  }

  // fields `boneNodeGroups` to `boxColBones`
  lemma SkelZFromR(pr: Prims, v: Val)
    requires Conforms(pr, SkelZLayout.second, Second(v))
    ensures Second(SkelZVal(SkelZOf(v))) == Second(v)
    ensures (forall i | 0 <= i < |SkelZOf(v).sphereColBones1| :: WfSphereColBone(pr, SkelZOf(v).sphereColBones1[i]))
    ensures (forall i | 0 <= i < |SkelZOf(v).sphereColBones2| :: WfSphereColBone(pr, SkelZOf(v).sphereColBones2[i]))
  {
    SkelZFromRL(pr, v);
    SkelZFromRR(pr, v);
  }

  lemma SkelZFrom(pr: Prims, v: Val)
    requires Conforms(pr, SkelZLayout, v)
    ensures SkelZVal(SkelZOf(v)) == v
    ensures WfSkelZ(pr, SkelZOf(v))
  {
    SkelZFromL(pr, v);
    SkelZFromR(pr, v);
  }

  function SkelZView(pr: Prims): View<SkelZ> {
    View(SkelZLayout, SkelZVal, SkelZOf, x => WfSkelZ(pr, x))
  }

  lemma SkelZFaithful(pr: Prims)
    ensures Faithful(pr, SkelZView(pr))
  {
    forall x | WfSkelZ(pr, x) ensures Conforms(pr, SkelZLayout, SkelZVal(x)) && SkelZOf(SkelZVal(x)) == x {
      SkelZConforms(pr, x);
      SkelZOfVal(pr, x);
    }
    forall v | Conforms(pr, SkelZLayout, v) ensures WfSkelZ(pr, SkelZOf(v)) && SkelZVal(SkelZOf(v)) == v {
      SkelZFrom(pr, v);
    }
  }

  /** `#[nom(Exact)]`: the whole body is one `SkelZ`. */
  function SkelZSchema(pr: Prims): Schema<SkelZ> {
    RecordSchema(pr, SkelZView(pr), true)
  }

  lemma SkelZSchemaLawful(pr: Prims)
    requires Lawful(pr)
    ensures LawfulSchema(SkelZSchema(pr))
  {
    SkelZFaithful(pr);
    RecordSchemaLawful(pr, SkelZView(pr), true);
  }

  /** Each bone's user-define hash, in bone order. */
  function UserDefines(bones: seq<SkelZBone>): (r: seq<u32>)
    ensures |r| == |bones| && forall i | 0 <= i < |r| :: r[i] == bones[i].userDefineCrc32
  {
    seq(|bones|, i requires 0 <= i < |bones| => bones[i].userDefineCrc32)
  }

  /** The references of a skeleton: no hard links; the soft links in the order they are appended. */
  function SkelZLinks(x: SkelZ): Links {
    Links([], NonZero(UserDefines(x.bones)) + x.materialCrc32s + x.meshDataCrc32s)
  }

  /** `SkelZ::soft_links`: append the filtered bone hashes, then the two hash arrays. */
  method SkelZSoftLinks(x: SkelZ) returns (v: seq<u32>)
    ensures v == SkelZLinks(x).soft
  {
    v := [];
    v := v + NonZero(UserDefines(x.bones));
    v := v + x.materialCrc32s;
    v := v + x.meshDataCrc32s;
  }

  /**
   * The soft links are the non-zero user-define hashes of the bones, then the
   * material and mesh-data hashes in full; nothing of the collision bones is
   * reported.
   */
  lemma SkelZLinksMembers(x: SkelZ)
    ensures SkelZLinks(x).hard == []
    ensures |SkelZLinks(x).soft| <= |x.bones| + |x.materialCrc32s| + |x.meshDataCrc32s|
    ensures forall h :: h in SkelZLinks(x).soft <==>
      || (h != 0 && exists i | 0 <= i < |x.bones| :: x.bones[i].userDefineCrc32 == h)
      || h in x.materialCrc32s || h in x.meshDataCrc32s
  {
    var u := UserDefines(x.bones);
    NonZeroMembers(u);
    forall h ensures h in u <==> exists i | 0 <= i < |x.bones| :: x.bones[i].userDefineCrc32 == h {
      if h in u {
        var i :| 0 <= i < |u| && u[i] == h;
      }
    }
  }

  /** `SkelObjectFormat`: a `ResourceObjectZ` header and a `SkelZ` body. */
  function SkelFormat(hs: Headers, pr: Prims): (f: Format<seq<u8>, SkelZ>)
    ensures f.header == OpaqueSchema(hs.resourceObjectZ) && f.body == SkelZSchema(pr)
    ensures forall h, b :: f.links(h, b) == hs.resourceObjectZ.refs(h, SkelZLinks(b))
  {
    OpaqueFormat(hs.resourceObjectZ, SkelZSchema(pr), SkelZLinks)
  }

  /**
   * A skeleton object survives the adapter both ways. A well-formed body packed
   * under a header that the `ResourceObjectZ` schema accepts unpacks to the same pair,
   * reporting the header's references combined with its own references. An
   * object that unpacks packs back to a prefix of its header buffer and to
   * exactly its body buffer, the body schema being exact.
   */
  lemma SkelRoundTrip(hs: Headers, pr: Prims, hb: seq<u8>, b: SkelZ, header: seq<u8>, body: seq<u8>)
    requires LawfulHeaders(hs) && Lawful(pr)
    ensures hs.resourceObjectZ.decode(hb) == Ok(hb) && SkelZSchema(pr).wf(b) ==>
      var p := Pack(SkelFormat(hs, pr), hb, b);
      && p.header == hb && p.body == SkelZSchema(pr).encode(b)
      && Unpack(SkelFormat(hs, pr), p.header, p.body) == Ok(Unpacked(hb, b, hs.resourceObjectZ.refs(hb, SkelZLinks(b))))
    ensures Unpack(SkelFormat(hs, pr), header, body).Ok? ==>
      var u := Unpack(SkelFormat(hs, pr), header, body).value;
      && u.links == hs.resourceObjectZ.refs(u.header, SkelZLinks(u.body))
      && Pack(SkelFormat(hs, pr), u.header, u.body).header <= header
      && Pack(SkelFormat(hs, pr), u.header, u.body).body == body
  {
    SkelZSchemaLawful(pr);
    OpaqueFormatRoundTrip(hs.resourceObjectZ, SkelZSchema(pr), SkelZLinks, hb, b, header, body);
  }
}
