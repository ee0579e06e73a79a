/**
 * `MaterialObjZ` (walle_fmt/materialobj.rs): a prefixed array of entries, each
 * a hash and a prefixed hash array; exact, with no references.
 */
module WalleMaterialObj {
  import opened Bytes
  import opened Codec
  import opened Schemas
  import opened Objects

  /** One entry (materialobj.rs:10-13). */
  datatype MaterialObjZEntry = MaterialObjZEntry(
    arrayNameCrc32: u32,
    materialAnimCrc32s: PascalArray<u32>)

  const MaterialObjZEntryLayout: Kind :=
    Then(Word(U32), // arrayNameCrc32
    WordArray(U32)) // materialAnimCrc32s

  function MaterialObjZEntryVal(x: MaterialObjZEntry): Val {
    Pair(Num(x.arrayNameCrc32), // arrayNameCrc32
    Nums(x.materialAnimCrc32s)) // materialAnimCrc32s
  }

  function MaterialObjZEntryOf(v: Val): MaterialObjZEntry {
    MaterialObjZEntry(
      AsWord(U32, First(v)),
      AsWordArray(U32, Second(v)))
  }

  lemma MaterialObjZEntryConforms(pr: Prims, x: MaterialObjZEntry)
    ensures Conforms(pr, MaterialObjZEntryLayout, MaterialObjZEntryVal(x))
  {
    U32sInRange(x.materialAnimCrc32s);
  }

  lemma MaterialObjZEntryOfVal(pr: Prims, x: MaterialObjZEntry)
    ensures MaterialObjZEntryOf(MaterialObjZEntryVal(x)) == x
  {
  }

  lemma MaterialObjZEntryFrom(pr: Prims, v: Val)
    requires Conforms(pr, MaterialObjZEntryLayout, v)
    ensures MaterialObjZEntryVal(MaterialObjZEntryOf(v)) == v
  {
  }

  function MaterialObjZEntryView(): View<MaterialObjZEntry> {
    View(MaterialObjZEntryLayout, MaterialObjZEntryVal, MaterialObjZEntryOf, _ => true)
  }

  lemma MaterialObjZEntryFaithful(pr: Prims)
    ensures Faithful(pr, MaterialObjZEntryView())
  {
    forall x | true ensures Conforms(pr, MaterialObjZEntryLayout, MaterialObjZEntryVal(x)) && MaterialObjZEntryOf(MaterialObjZEntryVal(x)) == x {
      MaterialObjZEntryConforms(pr, x);
      MaterialObjZEntryOfVal(pr, x);
    }
    forall v | Conforms(pr, MaterialObjZEntryLayout, v) ensures MaterialObjZEntryVal(MaterialObjZEntryOf(v)) == v {
      MaterialObjZEntryFrom(pr, v);
    }
  }

  /** The body (materialobj.rs:19-21). */
  datatype MaterialObjZ = MaterialObjZ(
    entries: PascalArray<MaterialObjZEntry>)

  const MaterialObjZLayout: Kind :=
    Array(MaterialObjZEntryLayout) // entries

  function MaterialObjZVal(x: MaterialObjZ): Val {
    Vals(MapVals(MaterialObjZEntryVal, x.entries)) // entries
  }

  function MaterialObjZOf(v: Val): MaterialObjZ {
    MaterialObjZ(
      AsRecords(MaterialObjZEntryOf, v))
  }

  lemma MaterialObjZConforms(pr: Prims, x: MaterialObjZ)
    ensures Conforms(pr, MaterialObjZLayout, MaterialObjZVal(x))
  {
    MaterialObjZEntryFaithful(pr);
    ElementsConform(pr, MaterialObjZEntryView(), x.entries);
  }

  lemma MaterialObjZOfVal(pr: Prims, x: MaterialObjZ)
    ensures MaterialObjZOf(MaterialObjZVal(x)) == x
  {
    MaterialObjZEntryFaithful(pr);
    ElementsOfVal(pr, MaterialObjZEntryView(), x.entries);
  }

  lemma MaterialObjZFrom(pr: Prims, v: Val)
    requires Conforms(pr, MaterialObjZLayout, v)
    ensures MaterialObjZVal(MaterialObjZOf(v)) == v
  {
    MaterialObjZEntryFaithful(pr);
    ElementsFrom(pr, MaterialObjZEntryView(), v);
  }

  function MaterialObjZView(): View<MaterialObjZ> {
    View(MaterialObjZLayout, MaterialObjZVal, MaterialObjZOf, _ => true)
  }

  lemma MaterialObjZFaithful(pr: Prims)
    ensures Faithful(pr, MaterialObjZView())
  {
    forall x | true ensures Conforms(pr, MaterialObjZLayout, MaterialObjZVal(x)) && MaterialObjZOf(MaterialObjZVal(x)) == x {
      MaterialObjZConforms(pr, x);
      MaterialObjZOfVal(pr, x);
    }
    forall v | Conforms(pr, MaterialObjZLayout, v) ensures MaterialObjZVal(MaterialObjZOf(v)) == v {
      MaterialObjZFrom(pr, v);
    }
  }

  /** `#[nom(Exact)]`: the whole body is one `MaterialObjZ`. */
  function MaterialObjZSchema(): Schema<MaterialObjZ> {
    RecordSchema(NoPrims, MaterialObjZView(), true)
  }

  lemma MaterialObjZSchemaLawful()
    ensures LawfulSchema(MaterialObjZSchema())
  {
    NoPrimsLawful();
    MaterialObjZFaithful(NoPrims);
    RecordSchemaLawful(NoPrims, MaterialObjZView(), true);
  }

  /** No entries encode as the bare count 0, and the four zero bytes decode to no entries. */
  lemma MaterialObjZEmpty()
    ensures MaterialObjZSchema().encode(MaterialObjZ([])) == [0, 0, 0, 0]
    ensures MaterialObjZSchema().decode([0, 0, 0, 0]) == Ok(MaterialObjZ([]))
  {
    MaterialObjZSchemaLawful();
    assert MaterialObjZVal(MaterialObjZ([])) == Vals([]);
  }

  /** `MaterialObjObjectFormat`: a `ResourceObjectZ` header and a `MaterialObjZ` body, which reports no references. */
  function MaterialObjFormat(hs: Headers): (f: Format<seq<u8>, MaterialObjZ>)
    ensures f.header == OpaqueSchema(hs.resourceObjectZ) && f.body == MaterialObjZSchema()
    ensures forall h, b :: f.links(h, b) == hs.resourceObjectZ.refs(h, NoLinks)
  {
    NoRefsFormat(hs.resourceObjectZ, MaterialObjZSchema());
    OpaqueFormat(hs.resourceObjectZ, MaterialObjZSchema(), NoRefs)
  }

  /**
   * A material-object object survives the adapter both ways. A well-formed body packed
   * under a header that the `ResourceObjectZ` schema accepts unpacks to the same pair,
   * reporting the header's references combined with no references of its own. An
   * object that unpacks packs back to a prefix of its header buffer and to
   * exactly its body buffer, the body schema being exact.
   */
  lemma MaterialObjRoundTrip(hs: Headers, hb: seq<u8>, b: MaterialObjZ, header: seq<u8>, body: seq<u8>)
    requires LawfulHeaders(hs)
    ensures hs.resourceObjectZ.decode(hb) == Ok(hb) && MaterialObjZSchema().wf(b) ==>
      var p := Pack(MaterialObjFormat(hs), hb, b);
      && p.header == hb && p.body == MaterialObjZSchema().encode(b)
      && Unpack(MaterialObjFormat(hs), p.header, p.body) == Ok(Unpacked(hb, b, hs.resourceObjectZ.refs(hb, NoLinks)))
    ensures Unpack(MaterialObjFormat(hs), header, body).Ok? ==>
      var u := Unpack(MaterialObjFormat(hs), header, body).value;
      && u.links == hs.resourceObjectZ.refs(u.header, NoLinks)
      && Pack(MaterialObjFormat(hs), u.header, u.body).header <= header
      && Pack(MaterialObjFormat(hs), u.header, u.body).body == body
  {
    MaterialObjZSchemaLawful();
    OpaqueFormatRoundTrip(hs.resourceObjectZ, MaterialObjZSchema(), NoRefs, hb, b, header, body);
  }
}
