/**
 * `RotShapeZ` (walle_fmt/rotshape.rs): five prefixed arrays and three
 * scalars; exact, with no references (its material hashes are not reported).
 */
module WalleRotShape {
  import opened Bytes
  import opened Codec
  import opened Schemas
  import opened Objects
  import opened Vectors

  /** A rotating shape (rotshape.rs:13-22), fields in declared order. */
  datatype RotShapeZ = RotShapeZ(
    vertices: PascalArray<Vec3f>,
    unknown1: f32,
    ints: PascalArray<u32>,
    sizes: PascalArray<Vec3f>,
    texcoords: PascalArray<Vec2f>,
    materialCrc32s: PascalArray<u32>,
    scale: f32,
    billboardMode: u16)

  const RotShapeZLayout: Kind :=
    Then(Then(Then(Array(Vec3fLayout), // vertices
    Word(F32)), // unknown1
    Then(WordArray(U32), // ints
    Array(Vec3fLayout))), // sizes
    Then(Then(Array(Vec2fLayout), // texcoords
    WordArray(U32)), // materialCrc32s
    Then(Word(F32), // scale
    Word(U16)))) // billboardMode

  function RotShapeZVal(x: RotShapeZ): Val {
    Pair(Pair(Pair(Vals(MapVals(Vec3fVal, x.vertices)), // vertices
    Num(x.unknown1)), // unknown1
    Pair(Nums(x.ints), // ints
    Vals(MapVals(Vec3fVal, x.sizes)))), // sizes
    Pair(Pair(Vals(MapVals(Vec2fVal, x.texcoords)), // texcoords
    Nums(x.materialCrc32s)), // materialCrc32s
    Pair(Num(x.scale), // scale
    Num(x.billboardMode)))) // billboardMode
  }

  function RotShapeZOf(v: Val): RotShapeZ {
    RotShapeZ(
      AsRecords(Vec3fOf, First(First(First(v)))),
      AsWord(F32, Second(First(First(v)))),
      AsWordArray(U32, First(Second(First(v)))),
      AsRecords(Vec3fOf, Second(Second(First(v)))),
      AsRecords(Vec2fOf, First(First(Second(v)))),
      AsWordArray(U32, Second(First(Second(v)))),
      AsWord(F32, First(Second(Second(v)))),
      AsWord(U16, Second(Second(Second(v)))))
  }

  // fields `vertices` to `sizes`
  lemma RotShapeZConformsL(pr: Prims, x: RotShapeZ)
    ensures Conforms(pr, RotShapeZLayout.first, First(RotShapeZVal(x)))
  {
    Vec3fFaithful(pr);
    ElementsConform(pr, Vec3fView(), x.vertices);
    U32sInRange(x.ints);
    Vec3fFaithful(pr);
    ElementsConform(pr, Vec3fView(), x.sizes);
  }

  // fields `texcoords` to `billboardMode`
  lemma RotShapeZConformsR(pr: Prims, x: RotShapeZ)
    ensures Conforms(pr, RotShapeZLayout.second, Second(RotShapeZVal(x)))
  {
    Vec2fFaithful(pr);
    ElementsConform(pr, Vec2fView(), x.texcoords);
    U32sInRange(x.materialCrc32s);
  }

  lemma RotShapeZConforms(pr: Prims, x: RotShapeZ)
    ensures Conforms(pr, RotShapeZLayout, RotShapeZVal(x))
  {
    RotShapeZConformsL(pr, x);
    RotShapeZConformsR(pr, x);
  }

  lemma RotShapeZOfVal(pr: Prims, x: RotShapeZ)
    ensures RotShapeZOf(RotShapeZVal(x)) == x
  {
    Vec3fFaithful(pr);
    ElementsOfVal(pr, Vec3fView(), x.vertices);
    Vec3fFaithful(pr);
    ElementsOfVal(pr, Vec3fView(), x.sizes);
    Vec2fFaithful(pr);
    ElementsOfVal(pr, Vec2fView(), x.texcoords);
  }

  // fields `vertices` to `sizes`
  lemma RotShapeZFromL(pr: Prims, v: Val)
    requires Conforms(pr, RotShapeZLayout.first, First(v))
    ensures First(RotShapeZVal(RotShapeZOf(v))) == First(v)
  {
    Vec3fFaithful(pr);
    ElementsFrom(pr, Vec3fView(), First(First(First(v))));
    Vec3fFaithful(pr);
    ElementsFrom(pr, Vec3fView(), Second(Second(First(v))));
  }

  // fields `texcoords` to `billboardMode`
  lemma RotShapeZFromR(pr: Prims, v: Val)
    requires Conforms(pr, RotShapeZLayout.second, Second(v))
    ensures Second(RotShapeZVal(RotShapeZOf(v))) == Second(v)
  {
    Vec2fFaithful(pr);
    ElementsFrom(pr, Vec2fView(), First(First(Second(v))));
  }

  lemma RotShapeZFrom(pr: Prims, v: Val)
    requires Conforms(pr, RotShapeZLayout, v)
    ensures RotShapeZVal(RotShapeZOf(v)) == v
  {
    RotShapeZFromL(pr, v);
    RotShapeZFromR(pr, v);
  }

  function RotShapeZView(): View<RotShapeZ> {
    View(RotShapeZLayout, RotShapeZVal, RotShapeZOf, _ => true)
  }

  lemma RotShapeZFaithful(pr: Prims)
    ensures Faithful(pr, RotShapeZView())
  {
    forall x | true ensures Conforms(pr, RotShapeZLayout, RotShapeZVal(x)) && RotShapeZOf(RotShapeZVal(x)) == x {
      RotShapeZConforms(pr, x);
      RotShapeZOfVal(pr, x);
    }
    forall v | Conforms(pr, RotShapeZLayout, v) ensures RotShapeZVal(RotShapeZOf(v)) == v {
      RotShapeZFrom(pr, v);
    }
  }

  /** `#[nom(Exact)]`: the whole body is one `RotShapeZ`. */
  function RotShapeZSchema(): Schema<RotShapeZ> {
    RecordSchema(NoPrims, RotShapeZView(), true)
  }

  lemma RotShapeZSchemaLawful()
    ensures LawfulSchema(RotShapeZSchema())
  {
    NoPrimsLawful();
    RotShapeZFaithful(NoPrims);
    RecordSchemaLawful(NoPrims, RotShapeZView(), true);
  }

  /** The body length of a shape: 30 bytes of counts and scalars and the bytes of each array's elements. */
  function RotShapeZBytes(x: RotShapeZ): nat {
    30 + 12 * |x.vertices| + 4 * |x.ints| + 12 * |x.sizes| + 8 * |x.texcoords| + 4 * |x.materialCrc32s|
  }

  // the counts and elements of `vertices` to `sizes`
  lemma RotShapeZLenL(x: RotShapeZ)
    ensures Len(RotShapeZLayout.first, First(RotShapeZVal(x))) == 16 + 12 * |x.vertices| + 4 * |x.ints| + 12 * |x.sizes|
  {
    var vs, ss := MapVals(Vec3fVal, x.vertices), MapVals(Vec3fVal, x.sizes);
    Vec3fFaithful(NoPrims);
    ElementsConform(NoPrims, Vec3fView(), x.vertices);
    ElementsConform(NoPrims, Vec3fView(), x.sizes);
    ArrayLen(NoPrims, Vec3fLayout, vs);
    ArrayLen(NoPrims, Vec3fLayout, ss);
    assert Width(Vec3fLayout) == Some(12);
    assert Len(WordArray(U32), Nums(x.ints)) == 4 + 4 * |x.ints|;
    assert RotShapeZLayout.first == Then(Then(Array(Vec3fLayout), Word(F32)), Then(WordArray(U32), Array(Vec3fLayout)));
    assert First(RotShapeZVal(x)) == Pair(Pair(Vals(vs), Num(x.unknown1)), Pair(Nums(x.ints), Vals(ss)));
    assert Len(Then(Array(Vec3fLayout), Word(F32)), Pair(Vals(vs), Num(x.unknown1))) == 8 + 12 * |x.vertices|;
    assert Len(Then(WordArray(U32), Array(Vec3fLayout)), Pair(Nums(x.ints), Vals(ss))) == 8 + 4 * |x.ints| + 12 * |x.sizes|;
  }

  // the counts and elements of `texcoords` to `billboardMode`
  lemma RotShapeZLenR(x: RotShapeZ)
    ensures Len(RotShapeZLayout.second, Second(RotShapeZVal(x))) == 14 + 8 * |x.texcoords| + 4 * |x.materialCrc32s|
  {
    var ts := MapVals(Vec2fVal, x.texcoords);
    Vec2fFaithful(NoPrims);
    ElementsConform(NoPrims, Vec2fView(), x.texcoords);
    ArrayLen(NoPrims, Vec2fLayout, ts);
    assert Width(Vec2fLayout) == Some(8);
    assert Len(WordArray(U32), Nums(x.materialCrc32s)) == 4 + 4 * |x.materialCrc32s|;
    assert RotShapeZLayout.second == Then(Then(Array(Vec2fLayout), WordArray(U32)), Then(Word(F32), Word(U16)));
    assert Second(RotShapeZVal(x)) == Pair(Pair(Vals(ts), Nums(x.materialCrc32s)), Pair(Num(x.scale), Num(x.billboardMode)));
    assert Len(Then(Array(Vec2fLayout), WordArray(U32)), Pair(Vals(ts), Nums(x.materialCrc32s))) == 8 + 8 * |x.texcoords| + 4 * |x.materialCrc32s|;
    assert Len(Then(Word(F32), Word(U16)), Pair(Num(x.scale), Num(x.billboardMode))) == 6;
  }

  lemma RotShapeZLen(x: RotShapeZ)
    ensures Len(RotShapeZLayout, RotShapeZVal(x)) == RotShapeZBytes(x)
  {
    RotShapeZLenL(x);
    RotShapeZLenR(x);
  }

  lemma RotShapeZEmitLength(x: RotShapeZ)
    ensures |RotShapeZSchema().encode(x)| == RotShapeZBytes(x)
  {
    RotShapeZConforms(NoPrims, x);
    Length(NoPrims, RotShapeZLayout, RotShapeZVal(x), []);
    RotShapeZLen(x);
  }

  /** A shape encodes to `RotShapeZBytes` bytes, and a body decodes only when it is exactly that long. */
  lemma RotShapeZSize(s: seq<u8>, x: RotShapeZ)
    ensures |RotShapeZSchema().encode(x)| == RotShapeZBytes(x)
    ensures RotShapeZSchema().decode(s).Ok? ==> |s| == RotShapeZBytes(RotShapeZSchema().decode(s).value)
  {
    RotShapeZEmitLength(x);
    if RotShapeZSchema().decode(s).Ok? {
      RotShapeZSchemaLawful();
      RotShapeZEmitLength(RotShapeZSchema().decode(s).value);
    }
  }

  /** `RotShapeObjectFormat`: an `ObjectZ` header and a `RotShapeZ` body, which reports no references. */
  function RotShapeFormat(hs: Headers): (f: Format<seq<u8>, RotShapeZ>)
    ensures f.header == OpaqueSchema(hs.objectZ) && f.body == RotShapeZSchema()
    ensures forall h, b :: f.links(h, b) == hs.objectZ.refs(h, NoLinks)
  {
    NoRefsFormat(hs.objectZ, RotShapeZSchema());
    OpaqueFormat(hs.objectZ, RotShapeZSchema(), NoRefs)
  }

  /**
   * A rotation-shape object survives the adapter both ways. A well-formed body packed
   * under a header that the `ObjectZ` schema accepts unpacks to the same pair,
   * reporting the header's references combined with no references of its own. An
   * object that unpacks packs back to a prefix of its header buffer and to
   * exactly its body buffer, the body schema being exact.
   */
  lemma RotShapeRoundTrip(hs: Headers, hb: seq<u8>, b: RotShapeZ, header: seq<u8>, body: seq<u8>)
    requires LawfulHeaders(hs)
    ensures hs.objectZ.decode(hb) == Ok(hb) && RotShapeZSchema().wf(b) ==>
      var p := Pack(RotShapeFormat(hs), hb, b);
      && p.header == hb && p.body == RotShapeZSchema().encode(b)
      && Unpack(RotShapeFormat(hs), p.header, p.body) == Ok(Unpacked(hb, b, hs.objectZ.refs(hb, NoLinks)))
    ensures Unpack(RotShapeFormat(hs), header, body).Ok? ==>
      var u := Unpack(RotShapeFormat(hs), header, body).value;
      && u.links == hs.objectZ.refs(u.header, NoLinks)
      && Pack(RotShapeFormat(hs), u.header, u.body).header <= header
      && Pack(RotShapeFormat(hs), u.header, u.body).body == body
  {
    RotShapeZSchemaLawful();
    OpaqueFormatRoundTrip(hs.objectZ, RotShapeZSchema(), NoRefs, hb, b, header, body);
  }
}
