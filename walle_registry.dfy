/**
 * `get_formats` (walle_fmt/mod.rs): the table from class-name hash to object
 * adapter for one version label of the WALL-E engine. Every label gets the
 * same 28 base adapters; each of the seven known labels then adds one adapter
 * for each of seven overlay classes (material, mesh, skin, node, particles,
 * lod, bitmap), chosen by the label; any other label aborts. An adapter is
 * named by its format type; the formats this model covers are the `*Format`
 * functions of the other modules.
 */
module WalleRegistry {
  import opened Bytes

  /** The adapter types `get_formats` inserts (`*ObjectFormat`, `*ObjectFormatAlt`, ...). */
  datatype Adapter =
    | Animation | Camera | CollisionVol | Fonts | GameObj | GenWorld
    | GwRoad | LightData | LodData | MaterialAnim | MaterialObj | MeshData
    | Omni | ParticlesData | RotShape | RotShapeData | Rtc | Skel
    | Spline | SplineGraph | Surface | SurfaceDatas | UserDefine | Warp
    | World | WorldRef | Binary | Sound | Material | MaterialAlt
    | MaterialAltAlt | Mesh | MeshAlt | MeshAltAlt | MeshAltAltAlt | Skin
    | SkinAlt | Node | NodeAlt | Particles | ParticlesAlt | Lod
    | LodAlt | LodAltAlt | Bitmap | BitmapAlt

  /** The seven version labels the registry knows, newest first. */
  datatype Version = V1_381_67_09 | V1_381_66_09 | V1_381_65_09 | V1_381_64_09 | V1_379_60_09 | V1_325_50_07 | V1_220_50_07

  /** What follows the build number in every label. */
  const LabelSuffix: string := " - Asobo Studio - Internal Cross Technology"

  /** The label a game build reports: its build number, then the common suffix. */
  function Label(v: Version): string {
    Build(v) + LabelSuffix
  }

  function Build(v: Version): string {
    match v
    case V1_381_67_09 => "v1.381.67.09"
    case V1_381_66_09 => "v1.381.66.09"
    case V1_381_65_09 => "v1.381.65.09"
    case V1_381_64_09 => "v1.381.64.09"
    case V1_379_60_09 => "v1.379.60.09"
    case V1_325_50_07 => "v1.325.50.07"
    case V1_220_50_07 => "v1.220.50.07"
  }

  /** The version a label names, compared as a whole string; any other label names none. */
  function ParseLabel(s: string): Option<Version> {
    if s == Label(V1_381_67_09) then Some(V1_381_67_09)
    else if s == Label(V1_381_66_09) then Some(V1_381_66_09)
    else if s == Label(V1_381_65_09) then Some(V1_381_65_09)
    else if s == Label(V1_381_64_09) then Some(V1_381_64_09)
    else if s == Label(V1_379_60_09) then Some(V1_379_60_09)
    else if s == Label(V1_325_50_07) then Some(V1_325_50_07)
    else if s == Label(V1_220_50_07) then Some(V1_220_50_07)
    else None
  }

  // The class-name hashes (`u32`) of the base classes.
  const AnimationClass: u32 := 1175485833
  const CameraClass: u32 := 4240844041
  const CollisionVolClass: u32 := 2398393906
  const FontsClass: u32 := 1536002910
  const GameObjClass: u32 := 4096629181
  const GenWorldClass: u32 := 838505646
  const GwRoadClass: u32 := 3845834591
  const LightDataClass: u32 := 848525546
  const LodDataClass: u32 := 3412401859
  const MaterialAnimClass: u32 := 3834418854
  const MaterialObjClass: u32 := 849861735
  const MeshDataClass: u32 := 3626109572
  const OmniClass: u32 := 549480509
  const ParticlesDataClass: u32 := 954499543
  const RotShapeClass: u32 := 866453734
  const RotShapeDataClass: u32 := 1625945536
  const RtcClass: u32 := 705810152
  const SkelClass: u32 := 3611002348
  const SplineClass: u32 := 1135194223
  const SplineGraphClass: u32 := 1910554652
  const SurfaceClass: u32 := 1706265229
  const SurfaceDatasClass: u32 := 3747817665
  const UserDefineClass: u32 := 1391959958
  const WarpClass: u32 := 1114947943
  const WorldClass: u32 := 968261323
  const WorldRefClass: u32 := 2906362741
  const BinaryClass: u32 := 2259852416
  const SoundClass: u32 := 849267944

  // The class-name hashes of the overlay classes.
  const MaterialClass: u32 := 2204276779
  const MeshClass: u32 := 1387343541
  const SkinClass: u32 := 1396791303
  const NodeClass: u32 := 2245010728
  const ParticlesClass: u32 := 3312018398
  const LodClass: u32 := 1943824915
  const BitmapClass: u32 := 1471281566

  /** The 28 classes every label shares. */
  const BaseClasses: set<u32> := {AnimationClass, CameraClass, CollisionVolClass, FontsClass, GameObjClass, GenWorldClass, GwRoadClass, LightDataClass, LodDataClass, MaterialAnimClass, MaterialObjClass, MeshDataClass, OmniClass, ParticlesDataClass, RotShapeClass, RotShapeDataClass, RtcClass, SkelClass, SplineClass, SplineGraphClass, SurfaceClass, SurfaceDatasClass, UserDefineClass, WarpClass, WorldClass, WorldRefClass, BinaryClass, SoundClass}

  /** The base classes seven at a time, in insertion order. */
  function BaseGroup(i: nat): set<u32> {
    if i == 0 then {AnimationClass, CameraClass, CollisionVolClass, FontsClass, GameObjClass, GenWorldClass, GwRoadClass}
    else if i == 1 then {LightDataClass, LodDataClass, MaterialAnimClass, MaterialObjClass, MeshDataClass, OmniClass, ParticlesDataClass}
    else if i == 2 then {RotShapeClass, RotShapeDataClass, RtcClass, SkelClass, SplineClass, SplineGraphClass, SurfaceClass}
    else {SurfaceDatasClass, UserDefineClass, WarpClass, WorldClass, WorldRefClass, BinaryClass, SoundClass}
  }

  /** The seven classes whose adapter depends on the label. */
  const OverlayClasses: set<u32> := {MaterialClass, MeshClass, SkinClass, NodeClass, ParticlesClass, LodClass, BitmapClass}

  /** The base adapter of a class, the same for every label. */
  function BaseAdapter(c: u32): Option<Adapter> {
    if c == AnimationClass then Some(Animation)
    else if c == CameraClass then Some(Camera)
    else if c == CollisionVolClass then Some(CollisionVol)
    else if c == FontsClass then Some(Fonts)
    else if c == GameObjClass then Some(GameObj)
    else if c == GenWorldClass then Some(GenWorld)
    else if c == GwRoadClass then Some(GwRoad)
    else if c == LightDataClass then Some(LightData)
    else if c == LodDataClass then Some(LodData)
    else if c == MaterialAnimClass then Some(MaterialAnim)
    else if c == MaterialObjClass then Some(MaterialObj)
    else if c == MeshDataClass then Some(MeshData)
    else if c == OmniClass then Some(Omni)
    else if c == ParticlesDataClass then Some(ParticlesData)
    else if c == RotShapeClass then Some(RotShape)
    else if c == RotShapeDataClass then Some(RotShapeData)
    else if c == RtcClass then Some(Rtc)
    else if c == SkelClass then Some(Skel)
    else if c == SplineClass then Some(Spline)
    else if c == SplineGraphClass then Some(SplineGraph)
    else if c == SurfaceClass then Some(Surface)
    else if c == SurfaceDatasClass then Some(SurfaceDatas)
    else if c == UserDefineClass then Some(UserDefine)
    else if c == WarpClass then Some(Warp)
    else if c == WorldClass then Some(World)
    else if c == WorldRefClass then Some(WorldRef)
    else if c == BinaryClass then Some(Binary)
    else if c == SoundClass then Some(Sound)
    else None
  }

  // The overlay adapter of each overlay class, by version.

  /** Material: AltAlt for v1.325.50.07 alone, Alt for v1.220.50.07 alone. */
  function MaterialAdapter(v: Version): Adapter {
    match v
    case V1_325_50_07 => MaterialAltAlt
    case V1_220_50_07 => MaterialAlt
    case _ => Material
  }

  /** Mesh: one format per pair of builds, and a fourth for the oldest. */
  function MeshAdapter(v: Version): Adapter {
    match v
    case V1_381_67_09 | V1_381_66_09 => Mesh
    case V1_381_65_09 | V1_381_64_09 => MeshAlt
    case V1_379_60_09 | V1_325_50_07 => MeshAltAlt
    case V1_220_50_07 => MeshAltAltAlt
  }

  /** Skin and node: the Alt formats for the two oldest labels. */
  function SkinAdapter(v: Version): Adapter {
    if v == V1_325_50_07 || v == V1_220_50_07 then SkinAlt else Skin
  }

  function NodeAdapter(v: Version): Adapter {
    if v == V1_325_50_07 || v == V1_220_50_07 then NodeAlt else Node
  }

  /** Particles: the base format up to v1.381.65.09, Alt before it. */
  function ParticlesAdapter(v: Version): Adapter {
    if v == V1_381_67_09 || v == V1_381_66_09 || v == V1_381_65_09 then Particles else ParticlesAlt
  }

  function LodAdapter(v: Version): Adapter {
    match v
    case V1_379_60_09 => LodAltAlt
    case V1_325_50_07 | V1_220_50_07 => LodAlt
    case _ => Lod
  }

  /** Bitmap: the Alt format from v1.379.60.09 back. */
  function BitmapAdapter(v: Version): Adapter {
    if v == V1_379_60_09 || v == V1_325_50_07 || v == V1_220_50_07 then BitmapAlt else Bitmap
  }

  function OverlayAdapter(v: Version, c: u32): Option<Adapter> {
    if c == MaterialClass then Some(MaterialAdapter(v))
    else if c == MeshClass then Some(MeshAdapter(v))
    else if c == SkinClass then Some(SkinAdapter(v))
    else if c == NodeClass then Some(NodeAdapter(v))
    else if c == ParticlesClass then Some(ParticlesAdapter(v))
    else if c == LodClass then Some(LodAdapter(v))
    else if c == BitmapClass then Some(BitmapAdapter(v))
    else None
  }

  /** The reference table of a version: the base adapter of a base class, else the overlay adapter. */
  function Lookup(v: Version, c: u32): Option<Adapter> {
    if BaseAdapter(c).Some? then BaseAdapter(c) else OverlayAdapter(v, c)
  }

  /** An entry of a table, when there is one. */
  function Find(m: map<u32, Adapter>, c: u32): Option<Adapter> {
    if c in m then Some(m[c]) else None
  }

  /** Each label parses to its own version: the seven labels are distinct. */
  lemma ParseLabelOf(v: Version)
    ensures ParseLabel(Label(v)) == Some(v)
  {
    forall w | w != v ensures Label(w) != Label(v) {
      LabelsDiffer(w, v);
    }
  }

  /** Two labels of different versions differ at character 3, 4 or 8 (the build numbers). */
  lemma LabelsDiffer(v: Version, w: Version)
    requires v != w
    ensures Label(v) != Label(w)
  {
    var a, b := Label(v), Label(w);
    assert a[3] == Build(v)[3] && a[4] == Build(v)[4] && a[8] == Build(v)[8];
    assert b[3] == Build(w)[3] && b[4] == Build(w)[4] && b[8] == Build(w)[8];
  }

  /**
   * The seven overlay inserts of version `v`, made on a table holding the
   * base adapters alone, give the reference table of `v`.
   */
  lemma OverlayAgrees(v: Version, base: map<u32, Adapter>, m: map<u32, Adapter>)
    requires forall c :: Find(base, c) == BaseAdapter(c)
    requires m == base[MaterialClass := MaterialAdapter(v)][MeshClass := MeshAdapter(v)][SkinClass := SkinAdapter(v)][NodeClass := NodeAdapter(v)][ParticlesClass := ParticlesAdapter(v)][LodClass := LodAdapter(v)][BitmapClass := BitmapAdapter(v)]
    ensures forall c :: Find(m, c) == Lookup(v, c)
  {
  }

  /** The base inserts of `get_formats`, one class at a time. */
  method InsertBase(formats: map<u32, Adapter>) returns (m: map<u32, Adapter>)
    ensures forall c :: Find(m, c) == if BaseAdapter(c).Some? then BaseAdapter(c) else Find(formats, c)
  {
    m := formats;
    m := m[AnimationClass := Animation];
    m := m[CameraClass := Camera];
    m := m[CollisionVolClass := CollisionVol];
    m := m[FontsClass := Fonts];
    m := m[GameObjClass := GameObj];
    m := m[GenWorldClass := GenWorld];
    m := m[GwRoadClass := GwRoad];
    m := m[LightDataClass := LightData];
    m := m[LodDataClass := LodData];
    m := m[MaterialAnimClass := MaterialAnim];
    m := m[MaterialObjClass := MaterialObj];
    m := m[MeshDataClass := MeshData];
    m := m[OmniClass := Omni];
    m := m[ParticlesDataClass := ParticlesData];
    m := m[RotShapeClass := RotShape];
    m := m[RotShapeDataClass := RotShapeData];
    m := m[RtcClass := Rtc];
    m := m[SkelClass := Skel];
    m := m[SplineClass := Spline];
    m := m[SplineGraphClass := SplineGraph];
    m := m[SurfaceClass := Surface];
    m := m[SurfaceDatasClass := SurfaceDatas];
    m := m[UserDefineClass := UserDefine];
    m := m[WarpClass := Warp];
    m := m[WorldClass := World];
    m := m[WorldRefClass := WorldRef];
    m := m[BinaryClass := Binary];
    m := m[SoundClass := Sound];
  }

  /**
   * `get_formats`: the base adapters, then the overlay of the label; a label
   * that is none of the seven fails (the `panic!("bad version")`). The table
   * agrees with `Lookup` class by class.
   */
  method GetFormats(version: string) returns (r: Result<map<u32, Adapter>>)
    ensures r.Err? <==> ParseLabel(version).None?
    ensures r.Err? ==> r.error == UnknownVersion
    ensures r.Ok? ==> forall c :: Find(r.value, c) == Lookup(ParseLabel(version).value, c)
  {
    var formats: map<u32, Adapter> := map[];
    formats := InsertBase(formats);
    if version == Label(V1_381_67_09) {
      var base := formats;
      formats := formats[MaterialClass := Material];
      formats := formats[MeshClass := Mesh];
      formats := formats[SkinClass := Skin];
      formats := formats[NodeClass := Node];
      formats := formats[ParticlesClass := Particles];
      formats := formats[LodClass := Lod];
      formats := formats[BitmapClass := Bitmap];
      OverlayAgrees(V1_381_67_09, base, formats);
    } else if version == Label(V1_381_66_09) {
      var base := formats;
      formats := formats[MaterialClass := Material];
      formats := formats[MeshClass := Mesh];
      formats := formats[SkinClass := Skin];
      formats := formats[NodeClass := Node];
      formats := formats[ParticlesClass := Particles];
      formats := formats[LodClass := Lod];
      formats := formats[BitmapClass := Bitmap];
      OverlayAgrees(V1_381_66_09, base, formats);
    } else if version == Label(V1_381_65_09) {
      var base := formats;
      formats := formats[MaterialClass := Material];
      formats := formats[MeshClass := MeshAlt];
      formats := formats[SkinClass := Skin];
      formats := formats[NodeClass := Node];
      formats := formats[ParticlesClass := Particles];
      formats := formats[LodClass := Lod];
      formats := formats[BitmapClass := Bitmap];
      OverlayAgrees(V1_381_65_09, base, formats);
    } else if version == Label(V1_381_64_09) {
      var base := formats;
      formats := formats[MaterialClass := Material];
      formats := formats[MeshClass := MeshAlt];
      formats := formats[SkinClass := Skin];
      formats := formats[NodeClass := Node];
      formats := formats[ParticlesClass := ParticlesAlt];
      formats := formats[LodClass := Lod];
      formats := formats[BitmapClass := Bitmap];
      OverlayAgrees(V1_381_64_09, base, formats);
    } else if version == Label(V1_379_60_09) {
      var base := formats;
      formats := formats[MaterialClass := Material];
      formats := formats[MeshClass := MeshAltAlt];
      formats := formats[SkinClass := Skin];
      formats := formats[NodeClass := Node];
      formats := formats[ParticlesClass := ParticlesAlt];
      formats := formats[LodClass := LodAltAlt];
      formats := formats[BitmapClass := BitmapAlt];
      OverlayAgrees(V1_379_60_09, base, formats);
    } else if version == Label(V1_325_50_07) {
      var base := formats;
      formats := formats[MaterialClass := MaterialAltAlt];
      formats := formats[MeshClass := MeshAltAlt];
      formats := formats[SkinClass := SkinAlt];
      formats := formats[NodeClass := NodeAlt];
      formats := formats[ParticlesClass := ParticlesAlt];
      formats := formats[LodClass := LodAlt];
      formats := formats[BitmapClass := BitmapAlt];
      OverlayAgrees(V1_325_50_07, base, formats);
    } else if version == Label(V1_220_50_07) {
      var base := formats;
      formats := formats[MaterialClass := MaterialAlt];
      formats := formats[MeshClass := MeshAltAltAlt];
      formats := formats[SkinClass := SkinAlt];
      formats := formats[NodeClass := NodeAlt];
      formats := formats[ParticlesClass := ParticlesAlt];
      formats := formats[LodClass := LodAlt];
      formats := formats[BitmapClass := BitmapAlt];
      OverlayAgrees(V1_220_50_07, base, formats);
    } else {
      return Err(UnknownVersion);
    }
    return Ok(formats);
  }

  /** `get_formats` accepts a label exactly when it is one of the seven, and then names its version. */
  lemma AcceptedLabels(s: string)
    ensures ParseLabel(s).Some? <==> exists v :: Label(v) == s
    ensures ParseLabel(s).Some? ==> Label(ParseLabel(s).value) == s
    ensures forall v :: ParseLabel(Label(v)) == Some(v)
  {
    if ParseLabel(s).Some? {
      assert Label(ParseLabel(s).value) == s;
    }
    if exists v :: Label(v) == s {
      var v :| Label(v) == s;
      ParseLabelOf(v);
    }
    forall v ensures ParseLabel(Label(v)) == Some(v) {
      ParseLabelOf(v);
    }
  }

  /** The base classes are exactly those with a base adapter, and every version maps them to it. */
  lemma BaseShared(v: Version, c: u32)
    ensures BaseAdapter(c).Some? <==> c in BaseClasses
    ensures c in BaseClasses ==> Lookup(v, c) == BaseAdapter(c)
  {
  }

  /**
   * A table has an entry exactly for the 28 base and the 7 overlay classes,
   * which are disjoint: 35 keys.
   */
  lemma TableClasses(v: Version, c: u32)
    ensures Lookup(v, c).Some? <==> c in BaseClasses + OverlayClasses
  {
    BaseShared(v, c);
    assert OverlayAdapter(v, c).Some? <==> c in OverlayClasses;
  }

  lemma BaseGroupSize(i: nat)
    ensures |BaseGroup(i)| == 7
  {
    if i == 0 {
      assert |BaseGroup(0)| == 7;
    } else if i == 1 {
      assert |BaseGroup(1)| == 7;
    } else if i == 2 {
      assert |BaseGroup(2)| == 7;
    } else {
      assert |BaseGroup(3)| == 7;
    }
  }

  lemma BaseGroups()
    ensures BaseClasses == BaseGroup(0) + BaseGroup(1) + BaseGroup(2) + BaseGroup(3)
  {
  }

  lemma BaseGroupsDisjoint(i: nat, j: nat)
    requires i < j < 4
    ensures BaseGroup(i) !! BaseGroup(j)
  {
    if i == 0 && j == 1 {
      assert BaseGroup(0) !! BaseGroup(1);
    } else if i == 0 && j == 2 {
      assert BaseGroup(0) !! BaseGroup(2);
    } else if i == 0 && j == 3 {
      assert BaseGroup(0) !! BaseGroup(3);
    } else if i == 1 && j == 2 {
      assert BaseGroup(1) !! BaseGroup(2);
    } else if i == 1 && j == 3 {
      assert BaseGroup(1) !! BaseGroup(3);
    } else {
      assert BaseGroup(2) !! BaseGroup(3);
    }
  }

  lemma UnionSize(a: set<u32>, b: set<u32>)
    requires a !! b
    ensures |a + b| == |a| + |b|
  {
  }

  /** Four pairwise disjoint groups of seven make 28. */
  lemma FourGroups(a: set<u32>, b: set<u32>, c: set<u32>, d: set<u32>)
    requires |a| == 7 && |b| == 7 && |c| == 7 && |d| == 7
    requires a !! b && a !! c && a !! d && b !! c && b !! d && c !! d
    ensures |a + b + c + d| == 28
  {
    UnionSize(a, b);
    UnionSize(a + b, c);
    UnionSize(a + b + c, d);
  }

  lemma BaseCount()
    ensures |BaseClasses| == 28
  {
    BaseGroups();
    BaseGroupSize(0);
    BaseGroupSize(1);
    BaseGroupSize(2);
    BaseGroupSize(3);
    BaseGroupsDisjoint(0, 1);
    BaseGroupsDisjoint(0, 2);
    BaseGroupsDisjoint(0, 3);
    BaseGroupsDisjoint(1, 2);
    BaseGroupsDisjoint(1, 3);
    BaseGroupsDisjoint(2, 3);
    FourGroups(BaseGroup(0), BaseGroup(1), BaseGroup(2), BaseGroup(3));
  }

  lemma OverlayCount()
    ensures |OverlayClasses| == 7
  {
  }

  lemma ClassesDisjoint()
    ensures BaseClasses !! OverlayClasses
  {
  }

  /** There are 28 base and 7 overlay classes, and no class is both. */
  lemma ClassCounts()
    ensures BaseClasses !! OverlayClasses
    ensures |BaseClasses| == 28 && |OverlayClasses| == 7
    ensures |BaseClasses + OverlayClasses| == 35
  {
    BaseCount();
    OverlayCount();
    ClassesDisjoint();
    UnionSize(BaseClasses, OverlayClasses);
  }

  /** The table `GetFormats` returns for a version has exactly the 35 classes as keys. */
  lemma TableSize(v: Version, m: map<u32, Adapter>)
    requires forall c :: Find(m, c) == Lookup(v, c)
    ensures m.Keys == BaseClasses + OverlayClasses
    ensures |m| == 35
  {
    forall c ensures c in m <==> c in BaseClasses + OverlayClasses {
      TableClasses(v, c);
      assert Find(m, c) == Lookup(v, c);
    }
    ClassCounts();
    assert m.Keys == BaseClasses + OverlayClasses;
  }

  /** Which versions take which mesh adapter. */
  lemma MeshByVersion(v: Version)
    ensures Lookup(v, MeshClass) == Some(Mesh) <==> v == V1_381_67_09 || v == V1_381_66_09
    ensures Lookup(v, MeshClass) == Some(MeshAlt) <==> v == V1_381_65_09 || v == V1_381_64_09
    ensures Lookup(v, MeshClass) == Some(MeshAltAlt) <==> v == V1_379_60_09 || v == V1_325_50_07
    ensures Lookup(v, MeshClass) == Some(MeshAltAltAlt) <==> v == V1_220_50_07
  {
  }

  /** Which versions take which material adapter. */
  lemma MaterialByVersion(v: Version)
    ensures Lookup(v, MaterialClass) == Some(MaterialAltAlt) <==> v == V1_325_50_07
    ensures Lookup(v, MaterialClass) == Some(MaterialAlt) <==> v == V1_220_50_07
    ensures Lookup(v, MaterialClass) == Some(Material) <==> v != V1_325_50_07 && v != V1_220_50_07
  {
  }

  /** Particles is the base format for the three newest versions; skin and node are Alt for the two oldest. */
  lemma ParticlesSkinNodeByVersion(v: Version)
    ensures Lookup(v, ParticlesClass) == Some(Particles) <==> v == V1_381_67_09 || v == V1_381_66_09 || v == V1_381_65_09
    ensures Lookup(v, ParticlesClass) == Some(ParticlesAlt) <==> !(v == V1_381_67_09 || v == V1_381_66_09 || v == V1_381_65_09)
    ensures Lookup(v, SkinClass) == Some(SkinAlt) <==> v == V1_325_50_07 || v == V1_220_50_07
    ensures Lookup(v, NodeClass) == Some(NodeAlt) <==> v == V1_325_50_07 || v == V1_220_50_07
  {
  }

  /** Tables of two versions differ only in overlay classes. */
  lemma TablesDifferInOverlay(v: Version, w: Version, c: u32)
    requires Lookup(v, c) != Lookup(w, c)
    ensures c in OverlayClasses
  {
  }

  /**
   * Two versions give the same table exactly when they are the same version
   * or are v1.381.67.09 and v1.381.66.09.
   */
  lemma TablesCoincide(v: Version, w: Version)
    ensures (forall c :: Lookup(v, c) == Lookup(w, c)) <==> v == w || (v in {V1_381_67_09, V1_381_66_09} && w in {V1_381_67_09, V1_381_66_09})
  {
    if forall c :: Lookup(v, c) == Lookup(w, c) {
      assert Lookup(v, MaterialClass) == Lookup(w, MaterialClass);
      assert Lookup(v, MeshClass) == Lookup(w, MeshClass);
      assert Lookup(v, ParticlesClass) == Lookup(w, ParticlesClass);
      assert Lookup(v, LodClass) == Lookup(w, LodClass);
    }
  }
}
