/**
 * `SkinZ` and `SkinZHeader` (walle_fmt/skin.rs): a skinned mesh body and its
 * header. Neither schema is exact. The body's soft links are its mesh hashes;
 * the header's soft links are its skeleton hash alone; the skin object itself
 * reports nothing, and pack and unpack report the header's references.
 */
module WalleSkin {
  import opened Bytes
  import opened Codec
  import opened Schemas
  import opened Objects

  /** skin.rs:41-44. */
  datatype BlendUnknown0 = BlendUnknown0(
    unknown0: u32,
    unknown1: f32)

  const BlendUnknown0Layout: Kind :=
    Then(Word(U32), // unknown0
    Word(F32)) // unknown1

  function BlendUnknown0Val(x: BlendUnknown0): Val {
    Pair(Num(x.unknown0), // unknown0
    Num(x.unknown1)) // unknown1
  }

  function BlendUnknown0Of(v: Val): BlendUnknown0 {
    BlendUnknown0(
      AsWord(U32, First(v)),
      AsWord(F32, Second(v)))
  }

  lemma BlendUnknown0Conforms(pr: Prims, x: BlendUnknown0)
    ensures Conforms(pr, BlendUnknown0Layout, BlendUnknown0Val(x))
  {
  }

  lemma BlendUnknown0OfVal(pr: Prims, x: BlendUnknown0)
    ensures BlendUnknown0Of(BlendUnknown0Val(x)) == x
  {
  }

  lemma BlendUnknown0From(pr: Prims, v: Val)
    requires Conforms(pr, BlendUnknown0Layout, v)
    ensures BlendUnknown0Val(BlendUnknown0Of(v)) == v
  {
  }

  function BlendUnknown0View(): View<BlendUnknown0> {
    View(BlendUnknown0Layout, BlendUnknown0Val, BlendUnknown0Of, _ => true)
  }

  lemma BlendUnknown0Faithful(pr: Prims)
    ensures Faithful(pr, BlendUnknown0View())
  {
    forall x | true ensures Conforms(pr, BlendUnknown0Layout, BlendUnknown0Val(x)) && BlendUnknown0Of(BlendUnknown0Val(x)) == x {
      BlendUnknown0Conforms(pr, x);
      BlendUnknown0OfVal(pr, x);
    }
    forall v | Conforms(pr, BlendUnknown0Layout, v) ensures BlendUnknown0Val(BlendUnknown0Of(v)) == v {
      BlendUnknown0From(pr, v);
    }
  }

  /** skin.rs:50-54. */
  datatype ObjectBlend = ObjectBlend(
    unknown0: u16,
    unknown1s: PascalArray<BlendUnknown0>,
    unknown2s: PascalArray<BlendUnknown0>)

  const ObjectBlendLayout: Kind :=
    Then(Then(Word(U16), // unknown0
    Array(BlendUnknown0Layout)), // unknown1s
    Array(BlendUnknown0Layout)) // unknown2s

  function ObjectBlendVal(x: ObjectBlend): Val {
    Pair(Pair(Num(x.unknown0), // unknown0
    Vals(MapVals(BlendUnknown0Val, x.unknown1s))), // unknown1s
    Vals(MapVals(BlendUnknown0Val, x.unknown2s))) // unknown2s
  }

  function ObjectBlendOf(v: Val): ObjectBlend {
    ObjectBlend(
      AsWord(U16, First(First(v))),
      AsRecords(BlendUnknown0Of, Second(First(v))),
      AsRecords(BlendUnknown0Of, Second(v)))
  }

  lemma ObjectBlendConforms(pr: Prims, x: ObjectBlend)
    ensures Conforms(pr, ObjectBlendLayout, ObjectBlendVal(x))
  {
    BlendUnknown0Faithful(pr);
    ElementsConform(pr, BlendUnknown0View(), x.unknown1s);
    BlendUnknown0Faithful(pr);
    ElementsConform(pr, BlendUnknown0View(), x.unknown2s);
  }

  lemma ObjectBlendOfVal(pr: Prims, x: ObjectBlend)
    ensures ObjectBlendOf(ObjectBlendVal(x)) == x
  {
    BlendUnknown0Faithful(pr);
    ElementsOfVal(pr, BlendUnknown0View(), x.unknown1s);
    BlendUnknown0Faithful(pr);
    ElementsOfVal(pr, BlendUnknown0View(), x.unknown2s);
  }

  lemma ObjectBlendFrom(pr: Prims, v: Val)
    requires Conforms(pr, ObjectBlendLayout, v)
    ensures ObjectBlendVal(ObjectBlendOf(v)) == v
  {
    BlendUnknown0Faithful(pr);
    ElementsFrom(pr, BlendUnknown0View(), Second(First(v)));
    BlendUnknown0Faithful(pr);
    ElementsFrom(pr, BlendUnknown0View(), Second(v));
  }

  function ObjectBlendView(): View<ObjectBlend> {
    View(ObjectBlendLayout, ObjectBlendVal, ObjectBlendOf, _ => true)
  }

  lemma ObjectBlendFaithful(pr: Prims)
    ensures Faithful(pr, ObjectBlendView())
  {
    forall x | true ensures Conforms(pr, ObjectBlendLayout, ObjectBlendVal(x)) && ObjectBlendOf(ObjectBlendVal(x)) == x {
      ObjectBlendConforms(pr, x);
      ObjectBlendOfVal(pr, x);
    }
    forall v | Conforms(pr, ObjectBlendLayout, v) ensures ObjectBlendVal(ObjectBlendOf(v)) == v {
      ObjectBlendFrom(pr, v);
    }
  }

  /** A skin bone (skin.rs:60-64). */
  datatype BoneZ = BoneZ(
    boneNameCrc32: u32,
    unknown0s: PascalArray<ObjectBlend>)

  const BoneZLayout: Kind :=
    Then(Word(U32), // boneNameCrc32
    Array(ObjectBlendLayout)) // unknown0s

  function BoneZVal(x: BoneZ): Val {
    Pair(Num(x.boneNameCrc32), // boneNameCrc32
    Vals(MapVals(ObjectBlendVal, x.unknown0s))) // unknown0s
  }

  function BoneZOf(v: Val): BoneZ {
    BoneZ(
      AsWord(U32, First(v)),
      AsRecords(ObjectBlendOf, Second(v)))
  }

  lemma BoneZConforms(pr: Prims, x: BoneZ)
    ensures Conforms(pr, BoneZLayout, BoneZVal(x))
  {
    ObjectBlendFaithful(pr);
    ElementsConform(pr, ObjectBlendView(), x.unknown0s);
  }

  lemma BoneZOfVal(pr: Prims, x: BoneZ)
    ensures BoneZOf(BoneZVal(x)) == x
  {
    ObjectBlendFaithful(pr);
    ElementsOfVal(pr, ObjectBlendView(), x.unknown0s);
  }

  lemma BoneZFrom(pr: Prims, v: Val)
    requires Conforms(pr, BoneZLayout, v)
    ensures BoneZVal(BoneZOf(v)) == v
  {
    ObjectBlendFaithful(pr);
    ElementsFrom(pr, ObjectBlendView(), Second(v));
  }

  function BoneZView(): View<BoneZ> {
    View(BoneZLayout, BoneZVal, BoneZOf, _ => true)
  }

  lemma BoneZFaithful(pr: Prims)
    ensures Faithful(pr, BoneZView())
  {
    forall x | true ensures Conforms(pr, BoneZLayout, BoneZVal(x)) && BoneZOf(BoneZVal(x)) == x {
      BoneZConforms(pr, x);
      BoneZOfVal(pr, x);
    }
    forall v | Conforms(pr, BoneZLayout, v) ensures BoneZVal(BoneZOf(v)) == v {
      BoneZFrom(pr, v);
    }
  }

  /** skin.rs:23-26: 8 bytes. */
  datatype DynArrayZ = DynArrayZ(
    sizeCapacity: u32,
    ptr: u32)

  const DynArrayZLayout: Kind :=
    Then(Word(U32), // sizeCapacity
    Word(U32)) // ptr

  function DynArrayZVal(x: DynArrayZ): Val {
    Pair(Num(x.sizeCapacity), // sizeCapacity
    Num(x.ptr)) // ptr
  }

  function DynArrayZOf(v: Val): DynArrayZ {
    DynArrayZ(
      AsWord(U32, First(v)),
      AsWord(U32, Second(v)))
  }

  lemma DynArrayZConforms(pr: Prims, x: DynArrayZ)
    ensures Conforms(pr, DynArrayZLayout, DynArrayZVal(x))
  {
  }

  lemma DynArrayZOfVal(pr: Prims, x: DynArrayZ)
    ensures DynArrayZOf(DynArrayZVal(x)) == x
  {
  }

  lemma DynArrayZFrom(pr: Prims, v: Val)
    requires Conforms(pr, DynArrayZLayout, v)
    ensures DynArrayZVal(DynArrayZOf(v)) == v
  {
  }

  function DynArrayZView(): View<DynArrayZ> {
    View(DynArrayZLayout, DynArrayZVal, DynArrayZOf, _ => true)
  }

  lemma DynArrayZFaithful(pr: Prims)
    ensures Faithful(pr, DynArrayZView())
  {
    forall x | true ensures Conforms(pr, DynArrayZLayout, DynArrayZVal(x)) && DynArrayZOf(DynArrayZVal(x)) == x {
      DynArrayZConforms(pr, x);
      DynArrayZOfVal(pr, x);
    }
    forall v | Conforms(pr, DynArrayZLayout, v) ensures DynArrayZVal(DynArrayZOf(v)) == v {
      DynArrayZFrom(pr, v);
    }
  }

  /** `FixedVec<u32, 2>`: one morph packet. */
  type U32Pair = s: seq<u32> | |s| == 2 witness [0, 0]

  const U32PairLayout: Kind := Words(U32, 2)
  function U32PairVal(x: U32Pair): Val { Nums(x) }
  function U32PairOf(v: Val): U32Pair { AsWords(U32, 2, v) }
  function U32PairView(): View<U32Pair> { View(U32PairLayout, U32PairVal, U32PairOf, _ => true) }

  lemma U32PairFaithful(pr: Prims)
    ensures Faithful(pr, U32PairView())
  {
  }

  /** `FixedVec<u32, 7>`. */
  type U32s7 = s: seq<u32> | |s| == 7 witness [0, 0, 0, 0, 0, 0, 0]

  /** A subsection (skin.rs:70-81): u32, 7 u32, an 8-byte `DynArrayZ`, then the prefixed morph packets. */
  datatype SkinZSkinSubsection = SkinZSkinSubsection(
    materialLinkCrc32: u32,
    boneNamesCrc32: U32s7,
    placeholderMorphPacketDa: DynArrayZ,
    morphPackets: PascalArray<U32Pair>)

  const SkinZSkinSubsectionLayout: Kind :=
    Then(Then(Word(U32), // materialLinkCrc32
    Words(U32, 7)), // boneNamesCrc32
    Then(DynArrayZLayout, // placeholderMorphPacketDa
    Array(U32PairLayout))) // morphPackets

  function SkinZSkinSubsectionVal(x: SkinZSkinSubsection): Val {
    Pair(Pair(Num(x.materialLinkCrc32), // materialLinkCrc32
    Nums(x.boneNamesCrc32)), // boneNamesCrc32
    Pair(DynArrayZVal(x.placeholderMorphPacketDa), // placeholderMorphPacketDa
    Vals(MapVals(U32PairVal, x.morphPackets)))) // morphPackets
  }

  function SkinZSkinSubsectionOf(v: Val): SkinZSkinSubsection {
    SkinZSkinSubsection(
      AsWord(U32, First(First(v))),
      AsWords(U32, 7, Second(First(v))),
      DynArrayZOf(First(Second(v))),
      AsRecords(U32PairOf, Second(Second(v))))
  }

  lemma SkinZSkinSubsectionConforms(pr: Prims, x: SkinZSkinSubsection)
    ensures Conforms(pr, SkinZSkinSubsectionLayout, SkinZSkinSubsectionVal(x))
  {
    U32sInRange(x.boneNamesCrc32);
    DynArrayZConforms(pr, x.placeholderMorphPacketDa);
    U32PairFaithful(pr);
    ElementsConform(pr, U32PairView(), x.morphPackets);
  }

  lemma SkinZSkinSubsectionOfVal(pr: Prims, x: SkinZSkinSubsection)
    ensures SkinZSkinSubsectionOf(SkinZSkinSubsectionVal(x)) == x
  {
    DynArrayZOfVal(pr, x.placeholderMorphPacketDa);
    U32PairFaithful(pr);
    ElementsOfVal(pr, U32PairView(), x.morphPackets);
  }

  lemma SkinZSkinSubsectionFrom(pr: Prims, v: Val)
    requires Conforms(pr, SkinZSkinSubsectionLayout, v)
    ensures SkinZSkinSubsectionVal(SkinZSkinSubsectionOf(v)) == v
  {
    DynArrayZFrom(pr, First(Second(v)));
    U32PairFaithful(pr);
    ElementsFrom(pr, U32PairView(), Second(Second(v)));
  }

  function SkinZSkinSubsectionView(): View<SkinZSkinSubsection> {
    View(SkinZSkinSubsectionLayout, SkinZSkinSubsectionVal, SkinZSkinSubsectionOf, _ => true)
  }

  lemma SkinZSkinSubsectionFaithful(pr: Prims)
    ensures Faithful(pr, SkinZSkinSubsectionView())
  {
    forall x | true ensures Conforms(pr, SkinZSkinSubsectionLayout, SkinZSkinSubsectionVal(x)) && SkinZSkinSubsectionOf(SkinZSkinSubsectionVal(x)) == x {
      SkinZSkinSubsectionConforms(pr, x);
      SkinZSkinSubsectionOfVal(pr, x);
    }
    forall v | Conforms(pr, SkinZSkinSubsectionLayout, v) ensures SkinZSkinSubsectionVal(SkinZSkinSubsectionOf(v)) == v {
      SkinZSkinSubsectionFrom(pr, v);
    }
  }

  /** A skin section: `PascalArray<SkinZSkinSubsection>`, the element of the doubly nested `skin_sections`. */
  type SkinSection = PascalArray<SkinZSkinSubsection>

  const SkinSectionLayout: Kind := Array(SkinZSkinSubsectionLayout)
  function SkinSectionVal(x: SkinSection): Val { Vals(MapVals(SkinZSkinSubsectionVal, x)) }
  function SkinSectionOf(v: Val): SkinSection { AsRecords(SkinZSkinSubsectionOf, v) }
  function SkinSectionView(): View<SkinSection> { View(SkinSectionLayout, SkinSectionVal, SkinSectionOf, _ => true) }

  lemma SkinSectionFaithful(pr: Prims)
    ensures Faithful(pr, SkinSectionView())
  {
    SkinZSkinSubsectionFaithful(pr);
    var c := SkinZSkinSubsectionView();
    forall x: SkinSection ensures Conforms(pr, SkinSectionLayout, SkinSectionVal(x)) && SkinSectionOf(SkinSectionVal(x)) == x {
      ElementsConform(pr, c, x);
      ElementsOfVal(pr, c, x);
    }
    forall v | Conforms(pr, SkinSectionLayout, v) ensures SkinSectionVal(SkinSectionOf(v)) == v {
      ElementsFrom(pr, c, v);
    }
  }

  /** `FixedVec<u8, 8>`. */
  type Bytes8 = s: seq<u8> | |s| == 8 witness [0, 0, 0, 0, 0, 0, 0, 0]

  const Bytes8Layout: Kind := Words(U8, 8)
  function Bytes8Val(x: Bytes8): Val { Nums(x) }
  function Bytes8Of(v: Val): Bytes8 { AsWords(U8, 8, v) }
  function Bytes8View(): View<Bytes8> { View(Bytes8Layout, Bytes8Val, Bytes8Of, _ => true) }

  lemma Bytes8Faithful(pr: Prims)
    ensures Faithful(pr, Bytes8View())
  {
  }

  /** The skin body (skin.rs:87-102), fields in declared order; `is_class_id` is read unconditionally. */
  datatype SkinZ = SkinZ(
    meshCrc32s: PascalArray<u32>,
    unknown0s: PascalArray<Bytes8>,
    bones: PascalArray<BoneZ>,
    isClassId: u8,
    matrixCacheCheck: u32,
    skinSections: PascalArray<SkinSection>)

  const SkinZLayout: Kind :=
    Then(Then(Then(WordArray(U32), // meshCrc32s
    Array(Bytes8Layout)), // unknown0s
    Array(BoneZLayout)), // bones
    Then(Then(Word(U8), // isClassId
    Word(U32)), // matrixCacheCheck
    Array(SkinSectionLayout))) // skinSections

  function SkinZVal(x: SkinZ): Val {
    Pair(Pair(Pair(Nums(x.meshCrc32s), // meshCrc32s
    Vals(MapVals(Bytes8Val, x.unknown0s))), // unknown0s
    Vals(MapVals(BoneZVal, x.bones))), // bones
    Pair(Pair(Num(x.isClassId), // isClassId
    Num(x.matrixCacheCheck)), // matrixCacheCheck
    Vals(MapVals(SkinSectionVal, x.skinSections)))) // skinSections
  }

  function SkinZOf(v: Val): SkinZ {
    SkinZ(
      AsWordArray(U32, First(First(First(v)))),
      AsRecords(Bytes8Of, Second(First(First(v)))),
      AsRecords(BoneZOf, Second(First(v))),
      AsWord(U8, First(First(Second(v)))),
      AsWord(U32, Second(First(Second(v)))),
      AsRecords(SkinSectionOf, Second(Second(v))))
  }

  // fields `meshCrc32s` to `bones`
  lemma SkinZConformsL(pr: Prims, x: SkinZ)
    ensures Conforms(pr, SkinZLayout.first, First(SkinZVal(x)))
  {
    U32sInRange(x.meshCrc32s);
    Bytes8Faithful(pr);
    ElementsConform(pr, Bytes8View(), x.unknown0s);
    BoneZFaithful(pr);
    ElementsConform(pr, BoneZView(), x.bones);
  }

  // fields `isClassId` to `skinSections`
  lemma SkinZConformsR(pr: Prims, x: SkinZ)
    ensures Conforms(pr, SkinZLayout.second, Second(SkinZVal(x)))
  {
    SkinSectionFaithful(pr);
    ElementsConform(pr, SkinSectionView(), x.skinSections);
  }

  lemma SkinZConforms(pr: Prims, x: SkinZ)
    ensures Conforms(pr, SkinZLayout, SkinZVal(x))
  {
    SkinZConformsL(pr, x);
    SkinZConformsR(pr, x);
  }

  lemma SkinZOfVal(pr: Prims, x: SkinZ)
    ensures SkinZOf(SkinZVal(x)) == x
  {
    Bytes8Faithful(pr);
    ElementsOfVal(pr, Bytes8View(), x.unknown0s);
    BoneZFaithful(pr);
    ElementsOfVal(pr, BoneZView(), x.bones);
    SkinSectionFaithful(pr);
    ElementsOfVal(pr, SkinSectionView(), x.skinSections);
  }

  // fields `meshCrc32s` to `bones`
  lemma SkinZFromL(pr: Prims, v: Val)
    requires Conforms(pr, SkinZLayout.first, First(v))
    ensures First(SkinZVal(SkinZOf(v))) == First(v)
  {
    Bytes8Faithful(pr);
    ElementsFrom(pr, Bytes8View(), Second(First(First(v))));
    BoneZFaithful(pr);
    ElementsFrom(pr, BoneZView(), Second(First(v)));
  }

  // fields `isClassId` to `skinSections`
  lemma SkinZFromR(pr: Prims, v: Val)
    requires Conforms(pr, SkinZLayout.second, Second(v))
    ensures Second(SkinZVal(SkinZOf(v))) == Second(v)
  {
    SkinSectionFaithful(pr);
    ElementsFrom(pr, SkinSectionView(), Second(Second(v)));
  }

  lemma SkinZFrom(pr: Prims, v: Val)
    requires Conforms(pr, SkinZLayout, v)
    ensures SkinZVal(SkinZOf(v)) == v
  {
    SkinZFromL(pr, v);
    SkinZFromR(pr, v);
  }

  function SkinZView(): View<SkinZ> {
    View(SkinZLayout, SkinZVal, SkinZOf, _ => true)
  }

  lemma SkinZFaithful(pr: Prims)
    ensures Faithful(pr, SkinZView())
  {
    forall x | true ensures Conforms(pr, SkinZLayout, SkinZVal(x)) && SkinZOf(SkinZVal(x)) == x {
      SkinZConforms(pr, x);
      SkinZOfVal(pr, x);
    }
    forall v | Conforms(pr, SkinZLayout, v) ensures SkinZVal(SkinZOf(v)) == v {
      SkinZFrom(pr, v);
    }
  }

  /** Not exact: bytes after the skin are tolerated. */
  function SkinZSchema(): Schema<SkinZ> {
    RecordSchema(NoPrims, SkinZView(), false)
  }

  lemma SkinZSchemaLawful()
    ensures LawfulSchema(SkinZSchema())
  {
    NoPrimsLawful();
    SkinZFaithful(NoPrims);
    RecordSchemaLawful(NoPrims, SkinZView(), false);
  }

  /** The skin header (skin.rs:107-116), fields in declared order; `crc32s` is a `PascalArray<u8>`. */
  datatype SkinZHeader = SkinZHeader(
    friendlyNameCrc32: u32,
    crc32s: PascalArray<u8>,
    skelCrc32: u32,
    sphereLocal: Blob,
    unknown0: Mat4f,
    fadeOutDistance: f32,
    flags: u32,
    skinType: u16)

  const SkinZHeaderLayout: Kind :=
    Then(Then(Then(Word(U32), // friendlyNameCrc32
    WordArray(U8)), // crc32s
    Then(Word(U32), // skelCrc32
    Opaque(Sphere))), // sphereLocal
    Then(Then(Words(F32, 16), // unknown0
    Word(F32)), // fadeOutDistance
    Then(Word(U32), // flags
    Word(U16)))) // skinType

  function SkinZHeaderVal(x: SkinZHeader): Val {
    Pair(Pair(Pair(Num(x.friendlyNameCrc32), // friendlyNameCrc32
    Nums(x.crc32s)), // crc32s
    Pair(Num(x.skelCrc32), // skelCrc32
    Raw(x.sphereLocal))), // sphereLocal
    Pair(Pair(Nums(x.unknown0), // unknown0
    Num(x.fadeOutDistance)), // fadeOutDistance
    Pair(Num(x.flags), // flags
    Num(x.skinType)))) // skinType
  }

  function SkinZHeaderOf(v: Val): SkinZHeader {
    SkinZHeader(
      AsWord(U32, First(First(First(v)))),
      AsWordArray(U8, Second(First(First(v)))),
      AsWord(U32, First(Second(First(v)))),
      AsBlob(Second(Second(First(v)))),
      AsWords(F32, 16, First(First(Second(v)))),
      AsWord(F32, Second(First(Second(v)))),
      AsWord(U32, First(Second(Second(v)))),
      AsWord(U16, Second(Second(Second(v)))))
  }

  /** The opaque primitives of a `SkinZHeader` hold complete encodings. */
  predicate WfSkinZHeader(pr: Prims, x: SkinZHeader) {
    Framed(pr.sphere, x.sphereLocal)
  }

  // fields `friendlyNameCrc32` to `sphereLocal`
  lemma SkinZHeaderConformsL(pr: Prims, x: SkinZHeader)
    requires Framed(pr.sphere, x.sphereLocal)
    ensures Conforms(pr, SkinZHeaderLayout.first, First(SkinZHeaderVal(x)))
  {
    U8sInRange(x.crc32s);
  }

  // fields `unknown0` to `skinType`
  lemma SkinZHeaderConformsR(pr: Prims, x: SkinZHeader)
    ensures Conforms(pr, SkinZHeaderLayout.second, Second(SkinZHeaderVal(x)))
  {
    U32sInRange(x.unknown0);
  }

  lemma SkinZHeaderConforms(pr: Prims, x: SkinZHeader)
    requires WfSkinZHeader(pr, x)
    ensures Conforms(pr, SkinZHeaderLayout, SkinZHeaderVal(x))
  {
    SkinZHeaderConformsL(pr, x);
    SkinZHeaderConformsR(pr, x);
  }

  lemma SkinZHeaderOfVal(pr: Prims, x: SkinZHeader)
    requires WfSkinZHeader(pr, x)
    ensures SkinZHeaderOf(SkinZHeaderVal(x)) == x
  {
  }

  // fields `friendlyNameCrc32` to `sphereLocal`
  lemma SkinZHeaderFromL(pr: Prims, v: Val)
    requires Conforms(pr, SkinZHeaderLayout.first, First(v))
    ensures First(SkinZHeaderVal(SkinZHeaderOf(v))) == First(v)
    ensures Framed(pr.sphere, SkinZHeaderOf(v).sphereLocal)
  {
  }

  // fields `unknown0` to `skinType`
  lemma SkinZHeaderFromR(pr: Prims, v: Val)
    requires Conforms(pr, SkinZHeaderLayout.second, Second(v))
    ensures Second(SkinZHeaderVal(SkinZHeaderOf(v))) == Second(v)
  {
  }

  lemma SkinZHeaderFrom(pr: Prims, v: Val)
    requires Conforms(pr, SkinZHeaderLayout, v)
    ensures SkinZHeaderVal(SkinZHeaderOf(v)) == v
    ensures WfSkinZHeader(pr, SkinZHeaderOf(v))
  {
    SkinZHeaderFromL(pr, v);
    SkinZHeaderFromR(pr, v);
  }

  function SkinZHeaderView(pr: Prims): View<SkinZHeader> {
    View(SkinZHeaderLayout, SkinZHeaderVal, SkinZHeaderOf, x => WfSkinZHeader(pr, x))
  }

  lemma SkinZHeaderFaithful(pr: Prims)
    ensures Faithful(pr, SkinZHeaderView(pr))
  {
    forall x | WfSkinZHeader(pr, x) ensures Conforms(pr, SkinZHeaderLayout, SkinZHeaderVal(x)) && SkinZHeaderOf(SkinZHeaderVal(x)) == x {
      SkinZHeaderConforms(pr, x);
      SkinZHeaderOfVal(pr, x);
    }
    forall v | Conforms(pr, SkinZHeaderLayout, v) ensures WfSkinZHeader(pr, SkinZHeaderOf(v)) && SkinZHeaderVal(SkinZHeaderOf(v)) == v {
      SkinZHeaderFrom(pr, v);
    }
  }

  /** Not exact: bytes after the header are tolerated. */
  function SkinZHeaderSchema(pr: Prims): Schema<SkinZHeader> {
    RecordSchema(pr, SkinZHeaderView(pr), false)
  }

  lemma SkinZHeaderSchemaLawful(pr: Prims)
    requires Lawful(pr)
    ensures LawfulSchema(SkinZHeaderSchema(pr))
  {
    SkinZHeaderFaithful(pr);
    RecordSchemaLawful(pr, SkinZHeaderView(pr), false);
  }

  /** An encoded skin followed by anything decodes to the same skin. */
  lemma SkinZTrailing(x: SkinZ, t: seq<u8>)
    ensures SkinZSchema().decode(SkinZSchema().encode(x) + t) == Ok(x)
  {
    NoPrimsLawful();
    SkinZFaithful(NoPrims);
    Trailing(NoPrims, SkinZView(), false, x, t);
  }

  /** An encoded header followed by anything decodes to the same header. */
  lemma SkinZHeaderTrailing(pr: Prims, x: SkinZHeader, t: seq<u8>)
    requires Lawful(pr) && WfSkinZHeader(pr, x)
    ensures SkinZHeaderSchema(pr).decode(SkinZHeaderSchema(pr).encode(x) + t) == Ok(x)
  {
    SkinZHeaderFaithful(pr);
    Trailing(pr, SkinZHeaderView(pr), false, x, t);
  }

  /** `SkinZ`'s references: no hard links; the mesh hashes, in order, as soft links. */
  function SkinZLinks(x: SkinZ): Links {
    Links([], x.meshCrc32s)
  }

  /** `SkinZ::soft_links`: a fresh vector with the mesh hashes appended. */
  method SkinZSoftLinks(x: SkinZ) returns (v: seq<u32>)
    ensures v == SkinZLinks(x).soft
  {
    v := [];
    v := v + x.meshCrc32s;
  }

  /** `SkinZHeader`'s references: no hard links; the skeleton hash as the one soft link, even when zero. */
  function SkinZHeaderLinks(x: SkinZHeader): Links {
    Links([], [x.skelCrc32])
  }

  /** `SkinZHeader::soft_links`: a fresh vector with the skeleton hash pushed. */
  method SkinZHeaderSoftLinks(x: SkinZHeader) returns (v: seq<u32>)
    ensures v == SkinZHeaderLinks(x).soft
  {
    v := [];
    v := v + [x.skelCrc32];
  }

  /** `SkinObjectFormat`: the header and the body, reporting the header's references. */
  function SkinFormat(pr: Prims): (f: Format<SkinZHeader, SkinZ>)
    ensures f.header == SkinZHeaderSchema(pr) && f.body == SkinZSchema()
    ensures forall h, b :: f.links(h, b) == SkinZHeaderLinks(h)
  {
    Format(SkinZHeaderSchema(pr), SkinZSchema(), (h, b) => SkinZHeaderLinks(h))
  }

  /**
   * A packed skin unpacks to the same header and body and reports the same
   * references: one soft link, the skeleton hash; what unpacks packs back to a
   * prefix of each buffer.
   */
  lemma SkinRoundTrip(pr: Prims, h: SkinZHeader, b: SkinZ, header: seq<u8>, body: seq<u8>)
    requires Lawful(pr) && WfSkinZHeader(pr, h)
    ensures Pack(SkinFormat(pr), h, b).links == Links([], [h.skelCrc32])
    ensures Unpack(SkinFormat(pr), Pack(SkinFormat(pr), h, b).header, Pack(SkinFormat(pr), h, b).body) == Ok(Unpacked(h, b, Links([], [h.skelCrc32])))
    ensures Unpack(SkinFormat(pr), header, body).Ok? ==>
      var u := Unpack(SkinFormat(pr), header, body).value;
      && u.links == Links([], [u.header.skelCrc32])
      && Pack(SkinFormat(pr), u.header, u.body).header <= header
      && Pack(SkinFormat(pr), u.header, u.body).body <= body
  {
    SkinZHeaderSchemaLawful(pr);
    SkinZSchemaLawful();
    PackUnpack(SkinFormat(pr), h, b);
    if Unpack(SkinFormat(pr), header, body).Ok? {
      UnpackPack(SkinFormat(pr), header, body);
    }
  }
}
