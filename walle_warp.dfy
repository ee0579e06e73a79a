/**
 * `WarpZ` (walle_fmt/warp.rs): a warp body with constant counts, eight `Vec3f`
 * and four `Vec2f`; exact, 144 bytes, with no references.
 */
module WalleWarp {
  import opened Bytes
  import opened Codec
  import opened Schemas
  import opened Objects
  import opened Vectors

  /** A warp (warp.rs:11-20), fields in declared order; `Count(8)` and `Count(4)` are constants. */
  datatype WarpZ = WarpZ(
    materialCrc32: u32,
    vertices: Vec3fs8,
    u24: f32,
    u25: f32,
    radius: f32,
    texcoords: Vec2fs4)

  const WarpZLayout: Kind :=
    Then(Then(Then(Word(U32), // materialCrc32
    Repeat(Vec3fLayout, 8)), // vertices
    Word(F32)), // u24
    Then(Then(Word(F32), // u25
    Word(F32)), // radius
    Repeat(Vec2fLayout, 4))) // texcoords

  function WarpZVal(x: WarpZ): Val {
    Pair(Pair(Pair(Num(x.materialCrc32), // materialCrc32
    Vals(MapVals(Vec3fVal, x.vertices))), // vertices
    Num(x.u24)), // u24
    Pair(Pair(Num(x.u25), // u25
    Num(x.radius)), // radius
    Vals(MapVals(Vec2fVal, x.texcoords)))) // texcoords
  }

  function WarpZOf(v: Val): WarpZ {
    WarpZ(
      AsWord(U32, First(First(First(v)))),
      AsRepeat(Vec3fOf, 8, Second(First(First(v)))),
      AsWord(F32, Second(First(v))),
      AsWord(F32, First(First(Second(v)))),
      AsWord(F32, Second(First(Second(v)))),
      AsRepeat(Vec2fOf, 4, Second(Second(v))))
  }

  // fields `materialCrc32` to `u24`
  lemma WarpZConformsL(pr: Prims, x: WarpZ)
    ensures Conforms(pr, WarpZLayout.first, First(WarpZVal(x)))
  {
    Vec3fFaithful(pr);
    ElementsConform(pr, Vec3fView(), x.vertices);
  }

  // fields `u25` to `texcoords`
  lemma WarpZConformsR(pr: Prims, x: WarpZ)
    ensures Conforms(pr, WarpZLayout.second, Second(WarpZVal(x)))
  {
    Vec2fFaithful(pr);
    ElementsConform(pr, Vec2fView(), x.texcoords);
  }

  lemma WarpZConforms(pr: Prims, x: WarpZ)
    ensures Conforms(pr, WarpZLayout, WarpZVal(x))
  {
    WarpZConformsL(pr, x);
    WarpZConformsR(pr, x);
  }

  lemma WarpZOfVal(pr: Prims, x: WarpZ)
    ensures WarpZOf(WarpZVal(x)) == x
  {
    Vec3fFaithful(pr);
    ElementsRepeatOfVal(pr, Vec3fView(), 8, x.vertices);
    Vec2fFaithful(pr);
    ElementsRepeatOfVal(pr, Vec2fView(), 4, x.texcoords);
  }

  // fields `materialCrc32` to `u24`
  lemma WarpZFromL(pr: Prims, v: Val)
    requires Conforms(pr, WarpZLayout.first, First(v))
    ensures First(WarpZVal(WarpZOf(v))) == First(v)
  {
    Vec3fFaithful(pr);
    ElementsRepeatFrom(pr, Vec3fView(), 8, Second(First(First(v))));
  }

  // fields `u25` to `texcoords`
  lemma WarpZFromR(pr: Prims, v: Val)
    requires Conforms(pr, WarpZLayout.second, Second(v))
    ensures Second(WarpZVal(WarpZOf(v))) == Second(v)
  {
    Vec2fFaithful(pr);
    ElementsRepeatFrom(pr, Vec2fView(), 4, Second(Second(v)));
  }

  lemma WarpZFrom(pr: Prims, v: Val)
    requires Conforms(pr, WarpZLayout, v)
    ensures WarpZVal(WarpZOf(v)) == v
  {
    WarpZFromL(pr, v);
    WarpZFromR(pr, v);
  }

  function WarpZView(): View<WarpZ> {
    View(WarpZLayout, WarpZVal, WarpZOf, _ => true)
  }

  lemma WarpZFaithful(pr: Prims)
    ensures Faithful(pr, WarpZView())
  {
    forall x | true ensures Conforms(pr, WarpZLayout, WarpZVal(x)) && WarpZOf(WarpZVal(x)) == x {
      WarpZConforms(pr, x);
      WarpZOfVal(pr, x);
    }
    forall v | Conforms(pr, WarpZLayout, v) ensures WarpZVal(WarpZOf(v)) == v {
      WarpZFrom(pr, v);
    }
  }

  /** `#[nom(Exact)]`: the whole body is one `WarpZ`. */
  function WarpZSchema(): Schema<WarpZ> {
    RecordSchema(NoPrims, WarpZView(), true)
  }

  lemma WarpZSchemaLawful()
    ensures LawfulSchema(WarpZSchema())
  {
    NoPrimsLawful();
    WarpZFaithful(NoPrims);
    RecordSchemaLawful(NoPrims, WarpZView(), true);
  }

  /** The layout of a `WarpZ` is 144 bytes wide. */
  lemma WarpZWidth()
    ensures Width(WarpZLayout) == Some(144)
  {
  }

  /** A `WarpZ` body is exactly 144 bytes: a body of any other length fails to decode. */
  lemma WarpZSize(s: seq<u8>, x: WarpZ)
    ensures WarpZSchema().decode(s).Ok? ==> |s| == 144
    ensures |WarpZSchema().encode(x)| == 144
  {
    WarpZWidth();
    NoPrimsLawful();
    WarpZFaithful(NoPrims);
    ExactWidth(NoPrims, WarpZView(), s, x);
  }

  /** `WarpObjectFormat`: an `ResourceObjectZ` header and a `WarpZ` body, which reports no references. */
  function WarpFormat(hs: Headers): (f: Format<seq<u8>, WarpZ>)
    ensures f.header == OpaqueSchema(hs.resourceObjectZ) && f.body == WarpZSchema()
    ensures forall h, b :: f.links(h, b) == hs.resourceObjectZ.refs(h, NoLinks)
  {
    NoRefsFormat(hs.resourceObjectZ, WarpZSchema());
    OpaqueFormat(hs.resourceObjectZ, WarpZSchema(), NoRefs)
  }

  /**
   * A warp object survives the adapter both ways. A well-formed body packed
   * under a header that the `ResourceObjectZ` schema accepts unpacks to the same pair,
   * reporting the header's references combined with no references of its own. An
   * object that unpacks packs back to a prefix of its header buffer and to
   * exactly its body buffer, the body schema being exact.
   */
  lemma WarpRoundTrip(hs: Headers, hb: seq<u8>, b: WarpZ, header: seq<u8>, body: seq<u8>)
    requires LawfulHeaders(hs)
    ensures hs.resourceObjectZ.decode(hb) == Ok(hb) && WarpZSchema().wf(b) ==>
      var p := Pack(WarpFormat(hs), hb, b);
      && p.header == hb && p.body == WarpZSchema().encode(b)
      && Unpack(WarpFormat(hs), p.header, p.body) == Ok(Unpacked(hb, b, hs.resourceObjectZ.refs(hb, NoLinks)))
    ensures Unpack(WarpFormat(hs), header, body).Ok? ==>
      var u := Unpack(WarpFormat(hs), header, body).value;
      && u.links == hs.resourceObjectZ.refs(u.header, NoLinks)
      && Pack(WarpFormat(hs), u.header, u.body).header <= header
      && Pack(WarpFormat(hs), u.header, u.body).body == body
  {
    WarpZSchemaLawful();
    OpaqueFormatRoundTrip(hs.resourceObjectZ, WarpZSchema(), NoRefs, hb, b, header, body);
  }

  /** `#[nom(Count(8))] Vec<Vec3f>`. */
  type Vec3fs8 = s: seq<Vec3f> | |s| == 8 witness [ZeroVec3f, ZeroVec3f, ZeroVec3f, ZeroVec3f, ZeroVec3f, ZeroVec3f, ZeroVec3f, ZeroVec3f]

  /** `#[nom(Count(4))] Vec<Vec2f>`. */
  type Vec2fs4 = s: seq<Vec2f> | |s| == 4 witness [ZeroVec2f, ZeroVec2f, ZeroVec2f, ZeroVec2f]
}
