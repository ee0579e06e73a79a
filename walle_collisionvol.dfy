/**
 * `CollisionVolZ` (walle_fmt/collisionvol.rs): a fixed-size collision volume
 * body, exact, 252 bytes (124 plus two `Mat4f`), with no references.
 */
module WalleCollisionVol {
  import opened Bytes
  import opened Codec
  import opened Schemas
  import opened Objects

  /** A collision volume (collisionvol.rs:11-18), fields in declared order. */
  datatype CollisionVolZ = CollisionVolZ(
    unknown0: u32,
    localTransform: Mat4f,
    localTransformInverse: Mat4f,
    zeros: U32s28,
    volumeType: u32,
    unknown1: u32)

  const CollisionVolZLayout: Kind :=
    Then(Then(Then(Word(U32), // unknown0
    Words(F32, 16)), // localTransform
    Words(F32, 16)), // localTransformInverse
    Then(Then(Words(U32, 28), // zeros
    Word(U32)), // volumeType
    Word(U32))) // unknown1

  function CollisionVolZVal(x: CollisionVolZ): Val {
    Pair(Pair(Pair(Num(x.unknown0), // unknown0
    Nums(x.localTransform)), // localTransform
    Nums(x.localTransformInverse)), // localTransformInverse
    Pair(Pair(Nums(x.zeros), // zeros
    Num(x.volumeType)), // volumeType
    Num(x.unknown1))) // unknown1
  }

  function CollisionVolZOf(v: Val): CollisionVolZ {
    CollisionVolZ(
      AsWord(U32, First(First(First(v)))),
      AsWords(F32, 16, Second(First(First(v)))),
      AsWords(F32, 16, Second(First(v))),
      AsWords(U32, 28, First(First(Second(v)))),
      AsWord(U32, Second(First(Second(v)))),
      AsWord(U32, Second(Second(v))))
  }

  // fields `unknown0` to `localTransformInverse`
  lemma CollisionVolZConformsL(pr: Prims, x: CollisionVolZ)
    ensures Conforms(pr, CollisionVolZLayout.first, First(CollisionVolZVal(x)))
  {
    U32sInRange(x.localTransform);
    U32sInRange(x.localTransformInverse);
  }

  // fields `zeros` to `unknown1`
  lemma CollisionVolZConformsR(pr: Prims, x: CollisionVolZ)
    ensures Conforms(pr, CollisionVolZLayout.second, Second(CollisionVolZVal(x)))
  {
    U32sInRange(x.zeros);
  }

  lemma CollisionVolZConforms(pr: Prims, x: CollisionVolZ)
    ensures Conforms(pr, CollisionVolZLayout, CollisionVolZVal(x))
  {
    CollisionVolZConformsL(pr, x);
    CollisionVolZConformsR(pr, x);
  }

  lemma CollisionVolZOfVal(pr: Prims, x: CollisionVolZ)
    ensures CollisionVolZOf(CollisionVolZVal(x)) == x
  {
  }

  // fields `unknown0` to `localTransformInverse`
  lemma CollisionVolZFromL(pr: Prims, v: Val)
    requires Conforms(pr, CollisionVolZLayout.first, First(v))
    ensures First(CollisionVolZVal(CollisionVolZOf(v))) == First(v)
  {
  }

  // fields `zeros` to `unknown1`
  lemma CollisionVolZFromR(pr: Prims, v: Val)
    requires Conforms(pr, CollisionVolZLayout.second, Second(v))
    ensures Second(CollisionVolZVal(CollisionVolZOf(v))) == Second(v)
  {
  }

  lemma CollisionVolZFrom(pr: Prims, v: Val)
    requires Conforms(pr, CollisionVolZLayout, v)
    ensures CollisionVolZVal(CollisionVolZOf(v)) == v
  {
    CollisionVolZFromL(pr, v);
    CollisionVolZFromR(pr, v);
  }

  function CollisionVolZView(): View<CollisionVolZ> {
    View(CollisionVolZLayout, CollisionVolZVal, CollisionVolZOf, _ => true)
  }

  lemma CollisionVolZFaithful(pr: Prims)
    ensures Faithful(pr, CollisionVolZView())
  {
    forall x | true ensures Conforms(pr, CollisionVolZLayout, CollisionVolZVal(x)) && CollisionVolZOf(CollisionVolZVal(x)) == x {
      CollisionVolZConforms(pr, x);
      CollisionVolZOfVal(pr, x);
    }
    forall v | Conforms(pr, CollisionVolZLayout, v) ensures CollisionVolZVal(CollisionVolZOf(v)) == v {
      CollisionVolZFrom(pr, v);
    }
  }

  /** `#[nom(Exact)]`: the whole body is one `CollisionVolZ`. */
  function CollisionVolZSchema(): Schema<CollisionVolZ> {
    RecordSchema(NoPrims, CollisionVolZView(), true)
  }

  lemma CollisionVolZSchemaLawful()
    ensures LawfulSchema(CollisionVolZSchema())
  {
    NoPrimsLawful();
    CollisionVolZFaithful(NoPrims);
    RecordSchemaLawful(NoPrims, CollisionVolZView(), true);
  }

  /** The layout of a `CollisionVolZ` is 252 bytes wide. */
  lemma CollisionVolZWidth()
    ensures Width(CollisionVolZLayout) == Some(252)
  {
  }

  /** A `CollisionVolZ` body is exactly 252 bytes: a body of any other length fails to decode. */
  lemma CollisionVolZSize(s: seq<u8>, x: CollisionVolZ)
    ensures CollisionVolZSchema().decode(s).Ok? ==> |s| == 252
    ensures |CollisionVolZSchema().encode(x)| == 252
  {
    CollisionVolZWidth();
    NoPrimsLawful();
    CollisionVolZFaithful(NoPrims);
    ExactWidth(NoPrims, CollisionVolZView(), s, x);
  }

  /** `CollisionVolObjectType`: an `ObjectZ` header and a `CollisionVolZ` body, which reports no references. */
  function CollisionVolFormat(hs: Headers): (f: Format<seq<u8>, CollisionVolZ>)
    ensures f.header == OpaqueSchema(hs.objectZ) && f.body == CollisionVolZSchema()
    ensures forall h, b :: f.links(h, b) == hs.objectZ.refs(h, NoLinks)
  {
    NoRefsFormat(hs.objectZ, CollisionVolZSchema());
    OpaqueFormat(hs.objectZ, CollisionVolZSchema(), NoRefs)
  }

  /**
   * A collision-volume object survives the adapter both ways. A well-formed body packed
   * under a header that the `ObjectZ` schema accepts unpacks to the same pair,
   * reporting the header's references combined with no references of its own. An
   * object that unpacks packs back to a prefix of its header buffer and to
   * exactly its body buffer, the body schema being exact.
   */
  lemma CollisionVolRoundTrip(hs: Headers, hb: seq<u8>, b: CollisionVolZ, header: seq<u8>, body: seq<u8>)
    requires LawfulHeaders(hs)
    ensures hs.objectZ.decode(hb) == Ok(hb) && CollisionVolZSchema().wf(b) ==>
      var p := Pack(CollisionVolFormat(hs), hb, b);
      && p.header == hb && p.body == CollisionVolZSchema().encode(b)
      && Unpack(CollisionVolFormat(hs), p.header, p.body) == Ok(Unpacked(hb, b, hs.objectZ.refs(hb, NoLinks)))
    ensures Unpack(CollisionVolFormat(hs), header, body).Ok? ==>
      var u := Unpack(CollisionVolFormat(hs), header, body).value;
      && u.links == hs.objectZ.refs(u.header, NoLinks)
      && Pack(CollisionVolFormat(hs), u.header, u.body).header <= header
      && Pack(CollisionVolFormat(hs), u.header, u.body).body == body
  {
    CollisionVolZSchemaLawful();
    OpaqueFormatRoundTrip(hs.objectZ, CollisionVolZSchema(), NoRefs, hb, b, header, body);
  }

  /** `FixedVec<u32, 28>`. */
  type U32s28 = s: seq<u32> | |s| == 28 witness seq(28, _ => 0)
}
