/**
 * `MeshDataZ` (walle_fmt/meshdata.rs): an f32 followed by an opaque `Color`;
 * exact, with no references.
 */
module WalleMeshData {
  import opened Bytes
  import opened Codec
  import opened Schemas
  import opened Objects

  /** Mesh data (meshdata.rs:11-14), fields in declared order. */
  datatype MeshDataZ = MeshDataZ(
    unknown0: f32,
    color: Blob)

  const MeshDataZLayout: Kind :=
    Then(Word(F32), // unknown0
    Opaque(Color)) // color

  function MeshDataZVal(x: MeshDataZ): Val {
    Pair(Num(x.unknown0), // unknown0
    Raw(x.color)) // color
  }

  function MeshDataZOf(v: Val): MeshDataZ {
    MeshDataZ(
      AsWord(F32, First(v)),
      AsBlob(Second(v)))
  }

  /** The opaque primitives of a `MeshDataZ` hold complete encodings. */
  predicate WfMeshDataZ(pr: Prims, x: MeshDataZ) {
    Framed(pr.color, x.color)
  }

  lemma MeshDataZConforms(pr: Prims, x: MeshDataZ)
    requires WfMeshDataZ(pr, x)
    ensures Conforms(pr, MeshDataZLayout, MeshDataZVal(x))
  {
  }

  lemma MeshDataZOfVal(pr: Prims, x: MeshDataZ)
    requires WfMeshDataZ(pr, x)
    ensures MeshDataZOf(MeshDataZVal(x)) == x
  {
  }

  lemma MeshDataZFrom(pr: Prims, v: Val)
    requires Conforms(pr, MeshDataZLayout, v)
    ensures MeshDataZVal(MeshDataZOf(v)) == v
    ensures WfMeshDataZ(pr, MeshDataZOf(v))
  {
  }

  function MeshDataZView(pr: Prims): View<MeshDataZ> {
    View(MeshDataZLayout, MeshDataZVal, MeshDataZOf, x => WfMeshDataZ(pr, x))
  }

  lemma MeshDataZFaithful(pr: Prims)
    ensures Faithful(pr, MeshDataZView(pr))
  {
    forall x | WfMeshDataZ(pr, x) ensures Conforms(pr, MeshDataZLayout, MeshDataZVal(x)) && MeshDataZOf(MeshDataZVal(x)) == x {
      MeshDataZConforms(pr, x);
      MeshDataZOfVal(pr, x);
    }
    forall v | Conforms(pr, MeshDataZLayout, v) ensures WfMeshDataZ(pr, MeshDataZOf(v)) && MeshDataZVal(MeshDataZOf(v)) == v {
      MeshDataZFrom(pr, v);
    }
  }

  /** `#[nom(Exact)]`: the whole body is one `MeshDataZ`. */
  function MeshDataZSchema(pr: Prims): Schema<MeshDataZ> {
    RecordSchema(pr, MeshDataZView(pr), true)
  }

  lemma MeshDataZSchemaLawful(pr: Prims)
    requires Lawful(pr)
    ensures LawfulSchema(MeshDataZSchema(pr))
  {
    MeshDataZFaithful(pr);
    RecordSchemaLawful(pr, MeshDataZView(pr), true);
  }

  /** `MeshDataObjectFormat`: an `ResourceObjectZ` header and a `MeshDataZ` body, which reports no references. */
  function MeshDataFormat(hs: Headers, pr: Prims): (f: Format<seq<u8>, MeshDataZ>)
    ensures f.header == OpaqueSchema(hs.resourceObjectZ) && f.body == MeshDataZSchema(pr)
    ensures forall h, b :: f.links(h, b) == hs.resourceObjectZ.refs(h, NoLinks)
  {
    NoRefsFormat(hs.resourceObjectZ, MeshDataZSchema(pr));
    OpaqueFormat(hs.resourceObjectZ, MeshDataZSchema(pr), NoRefs)
  }

  /**
   * A mesh-data object survives the adapter both ways. A well-formed body packed
   * under a header that the `ResourceObjectZ` schema accepts unpacks to the same pair,
   * reporting the header's references combined with no references of its own. An
   * object that unpacks packs back to a prefix of its header buffer and to
   * exactly its body buffer, the body schema being exact.
   */
  lemma MeshDataRoundTrip(hs: Headers, pr: Prims, hb: seq<u8>, b: MeshDataZ, header: seq<u8>, body: seq<u8>)
    requires LawfulHeaders(hs) && Lawful(pr)
    ensures hs.resourceObjectZ.decode(hb) == Ok(hb) && MeshDataZSchema(pr).wf(b) ==>
      var p := Pack(MeshDataFormat(hs, pr), hb, b);
      && p.header == hb && p.body == MeshDataZSchema(pr).encode(b)
      && Unpack(MeshDataFormat(hs, pr), p.header, p.body) == Ok(Unpacked(hb, b, hs.resourceObjectZ.refs(hb, NoLinks)))
    ensures Unpack(MeshDataFormat(hs, pr), header, body).Ok? ==>
      var u := Unpack(MeshDataFormat(hs, pr), header, body).value;
      && u.links == hs.resourceObjectZ.refs(u.header, NoLinks)
      && Pack(MeshDataFormat(hs, pr), u.header, u.body).header <= header
      && Pack(MeshDataFormat(hs, pr), u.header, u.body).body == body
  {
    MeshDataZSchemaLawful(pr);
    OpaqueFormatRoundTrip(hs.resourceObjectZ, MeshDataZSchema(pr), NoRefs, hb, b, header, body);
  }

}
