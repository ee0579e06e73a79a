/**
 * `SurfaceDatasZ` (walle_fmt/surfacedatas.rs): one little-endian u32, exact,
 * 4 bytes, with no references.
 */
module WalleSurfaceDatas {
  import opened Bytes
  import opened Codec
  import opened Schemas
  import opened Objects

  /** Surface data (surfacedatas.rs:11-13). */
  datatype SurfaceDatasZ = SurfaceDatasZ(
    one: u32)

  const SurfaceDatasZLayout: Kind :=
    Word(U32) // one

  function SurfaceDatasZVal(x: SurfaceDatasZ): Val {
    Num(x.one) // one
  }

  function SurfaceDatasZOf(v: Val): SurfaceDatasZ {
    SurfaceDatasZ(
      AsWord(U32, v))
  }

  lemma SurfaceDatasZConforms(pr: Prims, x: SurfaceDatasZ)
    ensures Conforms(pr, SurfaceDatasZLayout, SurfaceDatasZVal(x))
  {
  }

  lemma SurfaceDatasZOfVal(pr: Prims, x: SurfaceDatasZ)
    ensures SurfaceDatasZOf(SurfaceDatasZVal(x)) == x
  {
  }

  lemma SurfaceDatasZFrom(pr: Prims, v: Val)
    requires Conforms(pr, SurfaceDatasZLayout, v)
    ensures SurfaceDatasZVal(SurfaceDatasZOf(v)) == v
  {
  }

  function SurfaceDatasZView(): View<SurfaceDatasZ> {
    View(SurfaceDatasZLayout, SurfaceDatasZVal, SurfaceDatasZOf, _ => true)
  }

  lemma SurfaceDatasZFaithful(pr: Prims)
    ensures Faithful(pr, SurfaceDatasZView())
  {
    forall x | true ensures Conforms(pr, SurfaceDatasZLayout, SurfaceDatasZVal(x)) && SurfaceDatasZOf(SurfaceDatasZVal(x)) == x {
      SurfaceDatasZConforms(pr, x);
      SurfaceDatasZOfVal(pr, x);
    }
    forall v | Conforms(pr, SurfaceDatasZLayout, v) ensures SurfaceDatasZVal(SurfaceDatasZOf(v)) == v {
      SurfaceDatasZFrom(pr, v);
    }
  }

  /** `#[nom(Exact)]`: the whole body is one `SurfaceDatasZ`. */
  function SurfaceDatasZSchema(): Schema<SurfaceDatasZ> {
    RecordSchema(NoPrims, SurfaceDatasZView(), true)
  }

  lemma SurfaceDatasZSchemaLawful()
    ensures LawfulSchema(SurfaceDatasZSchema())
  {
    NoPrimsLawful();
    SurfaceDatasZFaithful(NoPrims);
    RecordSchemaLawful(NoPrims, SurfaceDatasZView(), true);
  }

  /** The layout of a `SurfaceDatasZ` is 4 bytes wide. */
  lemma SurfaceDatasZWidth()
    ensures Width(SurfaceDatasZLayout) == Some(4)
  {
  }

  /** A `SurfaceDatasZ` body is exactly 4 bytes: a body of any other length fails to decode. */
  lemma SurfaceDatasZSize(s: seq<u8>, x: SurfaceDatasZ)
    ensures SurfaceDatasZSchema().decode(s).Ok? ==> |s| == 4
    ensures |SurfaceDatasZSchema().encode(x)| == 4
  {
    SurfaceDatasZWidth();
    NoPrimsLawful();
    SurfaceDatasZFaithful(NoPrims);
    ExactWidth(NoPrims, SurfaceDatasZView(), s, x);
  }

  /** `SurfaceDatasObjectFormat`: an `ResourceObjectZ` header and a `SurfaceDatasZ` body, which reports no references. */
  function SurfaceDatasFormat(hs: Headers): (f: Format<seq<u8>, SurfaceDatasZ>)
    ensures f.header == OpaqueSchema(hs.resourceObjectZ) && f.body == SurfaceDatasZSchema()
    ensures forall h, b :: f.links(h, b) == hs.resourceObjectZ.refs(h, NoLinks)
  {
    NoRefsFormat(hs.resourceObjectZ, SurfaceDatasZSchema());
    OpaqueFormat(hs.resourceObjectZ, SurfaceDatasZSchema(), NoRefs)
  }

  /**
   * A surface-data object survives the adapter both ways. A well-formed body packed
   * under a header that the `ResourceObjectZ` schema accepts unpacks to the same pair,
   * reporting the header's references combined with no references of its own. An
   * object that unpacks packs back to a prefix of its header buffer and to
   * exactly its body buffer, the body schema being exact.
   */
  lemma SurfaceDatasRoundTrip(hs: Headers, hb: seq<u8>, b: SurfaceDatasZ, header: seq<u8>, body: seq<u8>)
    requires LawfulHeaders(hs)
    ensures hs.resourceObjectZ.decode(hb) == Ok(hb) && SurfaceDatasZSchema().wf(b) ==>
      var p := Pack(SurfaceDatasFormat(hs), hb, b);
      && p.header == hb && p.body == SurfaceDatasZSchema().encode(b)
      && Unpack(SurfaceDatasFormat(hs), p.header, p.body) == Ok(Unpacked(hb, b, hs.resourceObjectZ.refs(hb, NoLinks)))
    ensures Unpack(SurfaceDatasFormat(hs), header, body).Ok? ==>
      var u := Unpack(SurfaceDatasFormat(hs), header, body).value;
      && u.links == hs.resourceObjectZ.refs(u.header, NoLinks)
      && Pack(SurfaceDatasFormat(hs), u.header, u.body).header <= header
      && Pack(SurfaceDatasFormat(hs), u.header, u.body).body == body
  {
    SurfaceDatasZSchemaLawful();
    OpaqueFormatRoundTrip(hs.resourceObjectZ, SurfaceDatasZSchema(), NoRefs, hb, b, header, body);
  }

}
