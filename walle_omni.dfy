/**
 * `OmniZ` (walle_fmt/omni.rs): a fixed-size omni-light body, exact, 200 bytes,
 * with no references.
 */
module WalleOmni {
  import opened Bytes
  import opened Codec
  import opened Schemas
  import opened Objects

  /** An omni light (omni.rs:11-14), fields in declared order. */
  datatype OmniZ = OmniZ(
    data: U32s48,
    crc32s: U32s2)

  const OmniZLayout: Kind :=
    Then(Words(U32, 48), // data
    Words(U32, 2)) // crc32s

  function OmniZVal(x: OmniZ): Val {
    Pair(Nums(x.data), // data
    Nums(x.crc32s)) // crc32s
  }

  function OmniZOf(v: Val): OmniZ {
    OmniZ(
      AsWords(U32, 48, First(v)),
      AsWords(U32, 2, Second(v)))
  }

  lemma OmniZConforms(pr: Prims, x: OmniZ)
    ensures Conforms(pr, OmniZLayout, OmniZVal(x))
  {
    U32sInRange(x.data);
    U32sInRange(x.crc32s);
  }

  lemma OmniZOfVal(pr: Prims, x: OmniZ)
    ensures OmniZOf(OmniZVal(x)) == x
  {
  }

  lemma OmniZFrom(pr: Prims, v: Val)
    requires Conforms(pr, OmniZLayout, v)
    ensures OmniZVal(OmniZOf(v)) == v
  {
  }

  function OmniZView(): View<OmniZ> {
    View(OmniZLayout, OmniZVal, OmniZOf, _ => true)
  }

  lemma OmniZFaithful(pr: Prims)
    ensures Faithful(pr, OmniZView())
  {
    forall x | true ensures Conforms(pr, OmniZLayout, OmniZVal(x)) && OmniZOf(OmniZVal(x)) == x {
      OmniZConforms(pr, x);
      OmniZOfVal(pr, x);
    }
    forall v | Conforms(pr, OmniZLayout, v) ensures OmniZVal(OmniZOf(v)) == v {
      OmniZFrom(pr, v);
    }
  }

  /** `#[nom(Exact)]`: the whole body is one `OmniZ`. */
  function OmniZSchema(): Schema<OmniZ> {
    RecordSchema(NoPrims, OmniZView(), true)
  }

  lemma OmniZSchemaLawful()
    ensures LawfulSchema(OmniZSchema())
  {
    NoPrimsLawful();
    OmniZFaithful(NoPrims);
    RecordSchemaLawful(NoPrims, OmniZView(), true);
  }

  /** The layout of a `OmniZ` is 200 bytes wide. */
  lemma OmniZWidth()
    ensures Width(OmniZLayout) == Some(200)
  {
  }

  /** A `OmniZ` body is exactly 200 bytes: a body of any other length fails to decode. */
  lemma OmniZSize(s: seq<u8>, x: OmniZ)
    ensures OmniZSchema().decode(s).Ok? ==> |s| == 200
    ensures |OmniZSchema().encode(x)| == 200
  {
    OmniZWidth();
    NoPrimsLawful();
    OmniZFaithful(NoPrims);
    ExactWidth(NoPrims, OmniZView(), s, x);
  }

  /** `OmniObjectFormat`: an `ObjectZ` header and a `OmniZ` body, which reports no references. */
  function OmniFormat(hs: Headers): (f: Format<seq<u8>, OmniZ>)
    ensures f.header == OpaqueSchema(hs.objectZ) && f.body == OmniZSchema()
    ensures forall h, b :: f.links(h, b) == hs.objectZ.refs(h, NoLinks)
  {
    NoRefsFormat(hs.objectZ, OmniZSchema());
    OpaqueFormat(hs.objectZ, OmniZSchema(), NoRefs)
  }

  /**
   * A omni object survives the adapter both ways. A well-formed body packed
   * under a header that the `ObjectZ` schema accepts unpacks to the same pair,
   * reporting the header's references combined with no references of its own. An
   * object that unpacks packs back to a prefix of its header buffer and to
   * exactly its body buffer, the body schema being exact.
   */
  lemma OmniRoundTrip(hs: Headers, hb: seq<u8>, b: OmniZ, header: seq<u8>, body: seq<u8>)
    requires LawfulHeaders(hs)
    ensures hs.objectZ.decode(hb) == Ok(hb) && OmniZSchema().wf(b) ==>
      var p := Pack(OmniFormat(hs), hb, b);
      && p.header == hb && p.body == OmniZSchema().encode(b)
      && Unpack(OmniFormat(hs), p.header, p.body) == Ok(Unpacked(hb, b, hs.objectZ.refs(hb, NoLinks)))
    ensures Unpack(OmniFormat(hs), header, body).Ok? ==>
      var u := Unpack(OmniFormat(hs), header, body).value;
      && u.links == hs.objectZ.refs(u.header, NoLinks)
      && Pack(OmniFormat(hs), u.header, u.body).header <= header
      && Pack(OmniFormat(hs), u.header, u.body).body == body
  {
    OmniZSchemaLawful();
    OpaqueFormatRoundTrip(hs.objectZ, OmniZSchema(), NoRefs, hb, b, header, body);
  }

  /** `FixedVec<u32, 48>`. */
  type U32s48 = s: seq<u32> | |s| == 48 witness seq(48, _ => 0)

  /** `FixedVec<u32, 2>`. */
  type U32s2 = s: seq<u32> | |s| == 2 witness [0, 0]
}
