/**
 * `CameraZ` (walle_fmt/camera.rs): a fixed-size camera body, exact, 12 bytes,
 * with no references.
 */
module WalleCamera {
  import opened Bytes
  import opened Codec
  import opened Schemas
  import opened Objects

  /** A camera (camera.rs:11-15), fields in declared order. */
  datatype CameraZ = CameraZ(
    angleOfView: f32,
    zero: f32,
    nodeCrc32: u32)

  const CameraZLayout: Kind :=
    Then(Then(Word(F32), // angleOfView
    Word(F32)), // zero
    Word(U32)) // nodeCrc32

  function CameraZVal(x: CameraZ): Val {
    Pair(Pair(Num(x.angleOfView), // angleOfView
    Num(x.zero)), // zero
    Num(x.nodeCrc32)) // nodeCrc32
  }

  function CameraZOf(v: Val): CameraZ {
    CameraZ(
      AsWord(F32, First(First(v))),
      AsWord(F32, Second(First(v))),
      AsWord(U32, Second(v)))
  }

  lemma CameraZConforms(pr: Prims, x: CameraZ)
    ensures Conforms(pr, CameraZLayout, CameraZVal(x))
  {
  }

  lemma CameraZOfVal(pr: Prims, x: CameraZ)
    ensures CameraZOf(CameraZVal(x)) == x
  {
  }

  lemma CameraZFrom(pr: Prims, v: Val)
    requires Conforms(pr, CameraZLayout, v)
    ensures CameraZVal(CameraZOf(v)) == v
  {
  }

  function CameraZView(): View<CameraZ> {
    View(CameraZLayout, CameraZVal, CameraZOf, _ => true)
  }

  lemma CameraZFaithful(pr: Prims)
    ensures Faithful(pr, CameraZView())
  {
    forall x | true ensures Conforms(pr, CameraZLayout, CameraZVal(x)) && CameraZOf(CameraZVal(x)) == x {
      CameraZConforms(pr, x);
      CameraZOfVal(pr, x);
    }
    forall v | Conforms(pr, CameraZLayout, v) ensures CameraZVal(CameraZOf(v)) == v {
      CameraZFrom(pr, v);
    }
  }

  /** `#[nom(Exact)]`: the whole body is one `CameraZ`. */
  function CameraZSchema(): Schema<CameraZ> {
    RecordSchema(NoPrims, CameraZView(), true)
  }

  lemma CameraZSchemaLawful()
    ensures LawfulSchema(CameraZSchema())
  {
    NoPrimsLawful();
    CameraZFaithful(NoPrims);
    RecordSchemaLawful(NoPrims, CameraZView(), true);
  }

  /** The layout of a `CameraZ` is 12 bytes wide. */
  lemma CameraZWidth()
    ensures Width(CameraZLayout) == Some(12)
  {
  }

  /** A `CameraZ` body is exactly 12 bytes: a body of any other length fails to decode. */
  lemma CameraZSize(s: seq<u8>, x: CameraZ)
    ensures CameraZSchema().decode(s).Ok? ==> |s| == 12
    ensures |CameraZSchema().encode(x)| == 12
  {
    CameraZWidth();
    NoPrimsLawful();
    CameraZFaithful(NoPrims);
    ExactWidth(NoPrims, CameraZView(), s, x);
  }

  /** `CameraObjectFormat`: an `ObjectZ` header and a `CameraZ` body, which reports no references. */
  function CameraFormat(hs: Headers): (f: Format<seq<u8>, CameraZ>)
    ensures f.header == OpaqueSchema(hs.objectZ) && f.body == CameraZSchema()
    ensures forall h, b :: f.links(h, b) == hs.objectZ.refs(h, NoLinks)
  {
    NoRefsFormat(hs.objectZ, CameraZSchema());
    OpaqueFormat(hs.objectZ, CameraZSchema(), NoRefs)
  }

  /**
   * A camera object survives the adapter both ways. A well-formed body packed
   * under a header that the `ObjectZ` schema accepts unpacks to the same pair,
   * reporting the header's references combined with no references of its own. An
   * object that unpacks packs back to a prefix of its header buffer and to
   * exactly its body buffer, the body schema being exact.
   */
  lemma CameraRoundTrip(hs: Headers, hb: seq<u8>, b: CameraZ, header: seq<u8>, body: seq<u8>)
    requires LawfulHeaders(hs)
    ensures hs.objectZ.decode(hb) == Ok(hb) && CameraZSchema().wf(b) ==>
      var p := Pack(CameraFormat(hs), hb, b);
      && p.header == hb && p.body == CameraZSchema().encode(b)
      && Unpack(CameraFormat(hs), p.header, p.body) == Ok(Unpacked(hb, b, hs.objectZ.refs(hb, NoLinks)))
    ensures Unpack(CameraFormat(hs), header, body).Ok? ==>
      var u := Unpack(CameraFormat(hs), header, body).value;
      && u.links == hs.objectZ.refs(u.header, NoLinks)
      && Pack(CameraFormat(hs), u.header, u.body).header <= header
      && Pack(CameraFormat(hs), u.header, u.body).body == body
  {
    CameraZSchemaLawful();
    OpaqueFormatRoundTrip(hs.objectZ, CameraZSchema(), NoRefs, hb, b, header, body);
  }

}
