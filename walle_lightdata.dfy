/**
 * `LightDataZ` (walle_fmt/lightdata.rs): a fixed-size light body, exact,
 * 56 bytes, with no references.
 */
module WalleLightData {
  import opened Bytes
  import opened Codec
  import opened Schemas
  import opened Objects

  /** Light data (lightdata.rs:11-18), fields in declared order. */
  datatype LightDataZ = LightDataZ(
    unknown0: u32,
    color: Vec3f,
    unknown1: Vec3f,
    unknown2: Vec3i32,
    unknownFlag: u32,
    unknown3: Vec3f)

  const LightDataZLayout: Kind :=
    Then(Then(Then(Word(U32), // unknown0
    Words(F32, 3)), // color
    Words(F32, 3)), // unknown1
    Then(Then(Words(I32, 3), // unknown2
    Word(U32)), // unknownFlag
    Words(F32, 3))) // unknown3

  function LightDataZVal(x: LightDataZ): Val {
    Pair(Pair(Pair(Num(x.unknown0), // unknown0
    Nums(x.color)), // color
    Nums(x.unknown1)), // unknown1
    Pair(Pair(Nums(x.unknown2), // unknown2
    Num(x.unknownFlag)), // unknownFlag
    Nums(x.unknown3))) // unknown3
  }

  function LightDataZOf(v: Val): LightDataZ {
    LightDataZ(
      AsWord(U32, First(First(First(v)))),
      AsWords(F32, 3, Second(First(First(v)))),
      AsWords(F32, 3, Second(First(v))),
      AsWords(I32, 3, First(First(Second(v)))),
      AsWord(U32, Second(First(Second(v)))),
      AsWords(F32, 3, Second(Second(v))))
  }

  // fields `unknown0` to `unknown1`
  lemma LightDataZConformsL(pr: Prims, x: LightDataZ)
    ensures Conforms(pr, LightDataZLayout.first, First(LightDataZVal(x)))
  {
    U32sInRange(x.color);
    U32sInRange(x.unknown1);
  }

  // fields `unknown2` to `unknown3`
  lemma LightDataZConformsR(pr: Prims, x: LightDataZ)
    ensures Conforms(pr, LightDataZLayout.second, Second(LightDataZVal(x)))
  {
    I32sInRange(x.unknown2);
    U32sInRange(x.unknown3);
  }

  lemma LightDataZConforms(pr: Prims, x: LightDataZ)
    ensures Conforms(pr, LightDataZLayout, LightDataZVal(x))
  {
    LightDataZConformsL(pr, x);
    LightDataZConformsR(pr, x);
  }

  lemma LightDataZOfVal(pr: Prims, x: LightDataZ)
    ensures LightDataZOf(LightDataZVal(x)) == x
  {
  }

  // fields `unknown0` to `unknown1`
  lemma LightDataZFromL(pr: Prims, v: Val)
    requires Conforms(pr, LightDataZLayout.first, First(v))
    ensures First(LightDataZVal(LightDataZOf(v))) == First(v)
  {
  }

  // fields `unknown2` to `unknown3`
  lemma LightDataZFromR(pr: Prims, v: Val)
    requires Conforms(pr, LightDataZLayout.second, Second(v))
    ensures Second(LightDataZVal(LightDataZOf(v))) == Second(v)
  {
  }

  lemma LightDataZFrom(pr: Prims, v: Val)
    requires Conforms(pr, LightDataZLayout, v)
    ensures LightDataZVal(LightDataZOf(v)) == v
  {
    LightDataZFromL(pr, v);
    LightDataZFromR(pr, v);
  }

  function LightDataZView(): View<LightDataZ> {
    View(LightDataZLayout, LightDataZVal, LightDataZOf, _ => true)
  }

  lemma LightDataZFaithful(pr: Prims)
    ensures Faithful(pr, LightDataZView())
  {
    forall x | true ensures Conforms(pr, LightDataZLayout, LightDataZVal(x)) && LightDataZOf(LightDataZVal(x)) == x {
      LightDataZConforms(pr, x);
      LightDataZOfVal(pr, x);
    }
    forall v | Conforms(pr, LightDataZLayout, v) ensures LightDataZVal(LightDataZOf(v)) == v {
      LightDataZFrom(pr, v);
    }
  }

  /** `#[nom(Exact)]`: the whole body is one `LightDataZ`. */
  function LightDataZSchema(): Schema<LightDataZ> {
    RecordSchema(NoPrims, LightDataZView(), true)
  }

  lemma LightDataZSchemaLawful()
    ensures LawfulSchema(LightDataZSchema())
  {
    NoPrimsLawful();
    LightDataZFaithful(NoPrims);
    RecordSchemaLawful(NoPrims, LightDataZView(), true);
  }

  /** The layout of a `LightDataZ` is 56 bytes wide. */
  lemma LightDataZWidth()
    ensures Width(LightDataZLayout) == Some(56)
  {
  }

  /** A `LightDataZ` body is exactly 56 bytes: a body of any other length fails to decode. */
  lemma LightDataZSize(s: seq<u8>, x: LightDataZ)
    ensures LightDataZSchema().decode(s).Ok? ==> |s| == 56
    ensures |LightDataZSchema().encode(x)| == 56
  {
    LightDataZWidth();
    NoPrimsLawful();
    LightDataZFaithful(NoPrims);
    ExactWidth(NoPrims, LightDataZView(), s, x);
  }

  /** `LightDataObjectFormat`: an `ResourceObjectZ` header and a `LightDataZ` body, which reports no references. */
  function LightDataFormat(hs: Headers): (f: Format<seq<u8>, LightDataZ>)
    ensures f.header == OpaqueSchema(hs.resourceObjectZ) && f.body == LightDataZSchema()
    ensures forall h, b :: f.links(h, b) == hs.resourceObjectZ.refs(h, NoLinks)
  {
    NoRefsFormat(hs.resourceObjectZ, LightDataZSchema());
    OpaqueFormat(hs.resourceObjectZ, LightDataZSchema(), NoRefs)
  }

  /**
   * A light-data object survives the adapter both ways. A well-formed body packed
   * under a header that the `ResourceObjectZ` schema accepts unpacks to the same pair,
   * reporting the header's references combined with no references of its own. An
   * object that unpacks packs back to a prefix of its header buffer and to
   * exactly its body buffer, the body schema being exact.
   */
  lemma LightDataRoundTrip(hs: Headers, hb: seq<u8>, b: LightDataZ, header: seq<u8>, body: seq<u8>)
    requires LawfulHeaders(hs)
    ensures hs.resourceObjectZ.decode(hb) == Ok(hb) && LightDataZSchema().wf(b) ==>
      var p := Pack(LightDataFormat(hs), hb, b);
      && p.header == hb && p.body == LightDataZSchema().encode(b)
      && Unpack(LightDataFormat(hs), p.header, p.body) == Ok(Unpacked(hb, b, hs.resourceObjectZ.refs(hb, NoLinks)))
    ensures Unpack(LightDataFormat(hs), header, body).Ok? ==>
      var u := Unpack(LightDataFormat(hs), header, body).value;
      && u.links == hs.resourceObjectZ.refs(u.header, NoLinks)
      && Pack(LightDataFormat(hs), u.header, u.body).header <= header
      && Pack(LightDataFormat(hs), u.header, u.body).body == body
  {
    LightDataZSchemaLawful();
    OpaqueFormatRoundTrip(hs.resourceObjectZ, LightDataZSchema(), NoRefs, hb, b, header, body);
  }

}
