/**
 * `MaterialZ`, `MaterialZAlt` and `MaterialZAltAlt` (walle_fmt/material.rs).
 * `MaterialZ` is a fixed 172-byte body whose hard links are its non-zero
 * bitmap hashes in declared order. The two older layouts add a flag byte that
 * gates two optional hashes, re-derive that flag when written, and report their
 * six bitmap hashes back to front, zeros kept.
 */
module WalleMaterial {
  import opened Bytes
  import opened Codec
  import opened Schemas
  import opened Objects

  /** A material (material.rs:13-27), fields in declared order. */
  datatype MaterialZ = MaterialZ(
    color: Vec4f,
    emission: Vec3f,
    unknown0: i32,
    vertexShaderConstantFs: U32s26,
    diffuseBitmapCrc32: u32,
    unknownBitmapCrc320: u32,
    metalBitmapCrc32: u32,
    unknownBitmapCrc321: u32,
    greyBitmapCrc32: u32,
    normalBitmapCrc32: u32,
    dirtBitmapCrc32: u32,
    unknownBitmapCrc322: u32,
    unknownBitmapCrc323: u32)

  const MaterialZLayout: Kind :=
    Then(Then(Then(Then(Words(F32, 4), // color
    Words(F32, 3)), // emission
    Then(Word(I32), // unknown0
    Words(U32, 26))), // vertexShaderConstantFs
    Then(Then(Word(U32), // diffuseBitmapCrc32
    Word(U32)), // unknownBitmapCrc320
    Word(U32))), // metalBitmapCrc32
    Then(Then(Then(Word(U32), // unknownBitmapCrc321
    Word(U32)), // greyBitmapCrc32
    Word(U32)), // normalBitmapCrc32
    Then(Then(Word(U32), // dirtBitmapCrc32
    Word(U32)), // unknownBitmapCrc322
    Word(U32)))) // unknownBitmapCrc323

  function MaterialZVal(x: MaterialZ): Val {
    Pair(Pair(Pair(Pair(Nums(x.color), // color
    Nums(x.emission)), // emission
    Pair(Num(x.unknown0), // unknown0
    Nums(x.vertexShaderConstantFs))), // vertexShaderConstantFs
    Pair(Pair(Num(x.diffuseBitmapCrc32), // diffuseBitmapCrc32
    Num(x.unknownBitmapCrc320)), // unknownBitmapCrc320
    Num(x.metalBitmapCrc32))), // metalBitmapCrc32
    Pair(Pair(Pair(Num(x.unknownBitmapCrc321), // unknownBitmapCrc321
    Num(x.greyBitmapCrc32)), // greyBitmapCrc32
    Num(x.normalBitmapCrc32)), // normalBitmapCrc32
    Pair(Pair(Num(x.dirtBitmapCrc32), // dirtBitmapCrc32
    Num(x.unknownBitmapCrc322)), // unknownBitmapCrc322
    Num(x.unknownBitmapCrc323)))) // unknownBitmapCrc323
  }

  function MaterialZOf(v: Val): MaterialZ {
    MaterialZ(
      AsWords(F32, 4, First(First(First(First(v))))),
      AsWords(F32, 3, Second(First(First(First(v))))),
      AsWord(I32, First(Second(First(First(v))))),
      AsWords(U32, 26, Second(Second(First(First(v))))),
      AsWord(U32, First(First(Second(First(v))))),
      AsWord(U32, Second(First(Second(First(v))))),
      AsWord(U32, Second(Second(First(v)))),
      AsWord(U32, First(First(First(Second(v))))),
      AsWord(U32, Second(First(First(Second(v))))),
      AsWord(U32, Second(First(Second(v)))),
      AsWord(U32, First(First(Second(Second(v))))),
      AsWord(U32, Second(First(Second(Second(v))))),
      AsWord(U32, Second(Second(Second(v)))))
  }

  // fields `color` to `vertexShaderConstantFs`
  lemma MaterialZConformsLL(pr: Prims, x: MaterialZ)
    ensures Conforms(pr, MaterialZLayout.first.first, First(First(MaterialZVal(x))))
  {
    U32sInRange(x.color);
    U32sInRange(x.emission);
    U32sInRange(x.vertexShaderConstantFs);
  }

  // fields `diffuseBitmapCrc32` to `metalBitmapCrc32`
  lemma MaterialZConformsLR(pr: Prims, x: MaterialZ)
    ensures Conforms(pr, MaterialZLayout.first.second, Second(First(MaterialZVal(x))))
  {
  }

  // fields `unknownBitmapCrc321` to `normalBitmapCrc32`
  lemma MaterialZConformsRL(pr: Prims, x: MaterialZ)
    ensures Conforms(pr, MaterialZLayout.second.first, First(Second(MaterialZVal(x))))
  {
  }

  // fields `dirtBitmapCrc32` to `unknownBitmapCrc323`
  lemma MaterialZConformsRR(pr: Prims, x: MaterialZ)
    ensures Conforms(pr, MaterialZLayout.second.second, Second(Second(MaterialZVal(x))))
  {
  }

  // fields `color` to `metalBitmapCrc32`
  lemma MaterialZConformsL(pr: Prims, x: MaterialZ)
    ensures Conforms(pr, MaterialZLayout.first, First(MaterialZVal(x)))
  {
    MaterialZConformsLL(pr, x);
    MaterialZConformsLR(pr, x);
  }

  // fields `unknownBitmapCrc321` to `unknownBitmapCrc323`
  lemma MaterialZConformsR(pr: Prims, x: MaterialZ)
    ensures Conforms(pr, MaterialZLayout.second, Second(MaterialZVal(x)))
  {
    MaterialZConformsRL(pr, x);
    MaterialZConformsRR(pr, x);
  }

  lemma MaterialZConforms(pr: Prims, x: MaterialZ)
    ensures Conforms(pr, MaterialZLayout, MaterialZVal(x))
  {
    MaterialZConformsL(pr, x);
    MaterialZConformsR(pr, x);
  }

  lemma MaterialZOfVal(pr: Prims, x: MaterialZ)
    ensures MaterialZOf(MaterialZVal(x)) == x
  {
  }

  // fields `color` to `vertexShaderConstantFs`
  lemma MaterialZFromLL(pr: Prims, v: Val)
    requires Conforms(pr, MaterialZLayout.first.first, First(First(v)))
    ensures First(First(MaterialZVal(MaterialZOf(v)))) == First(First(v))
  {
  }

  // fields `diffuseBitmapCrc32` to `metalBitmapCrc32`
  lemma MaterialZFromLR(pr: Prims, v: Val)
    requires Conforms(pr, MaterialZLayout.first.second, Second(First(v)))
    ensures Second(First(MaterialZVal(MaterialZOf(v)))) == Second(First(v))
  {
  }

  // fields `unknownBitmapCrc321` to `normalBitmapCrc32`
  lemma MaterialZFromRL(pr: Prims, v: Val)
    requires Conforms(pr, MaterialZLayout.second.first, First(Second(v)))
    ensures First(Second(MaterialZVal(MaterialZOf(v)))) == First(Second(v))
  {
  }

  // fields `dirtBitmapCrc32` to `unknownBitmapCrc323`
  lemma MaterialZFromRR(pr: Prims, v: Val)
    requires Conforms(pr, MaterialZLayout.second.second, Second(Second(v)))
    ensures Second(Second(MaterialZVal(MaterialZOf(v)))) == Second(Second(v))
  {
  }

  // fields `color` to `metalBitmapCrc32`
  lemma MaterialZFromL(pr: Prims, v: Val)
    requires Conforms(pr, MaterialZLayout.first, First(v))
    ensures First(MaterialZVal(MaterialZOf(v))) == First(v)
  {
    MaterialZFromLL(pr, v);
    MaterialZFromLR(pr, v);
  }

  // fields `unknownBitmapCrc321` to `unknownBitmapCrc323`
  lemma MaterialZFromR(pr: Prims, v: Val)
    requires Conforms(pr, MaterialZLayout.second, Second(v))
    ensures Second(MaterialZVal(MaterialZOf(v))) == Second(v)
  {
    MaterialZFromRL(pr, v);
    MaterialZFromRR(pr, v);
  }

  lemma MaterialZFrom(pr: Prims, v: Val)
    requires Conforms(pr, MaterialZLayout, v)
    ensures MaterialZVal(MaterialZOf(v)) == v
  {
    MaterialZFromL(pr, v);
    MaterialZFromR(pr, v);
  }

  function MaterialZView(): View<MaterialZ> {
    View(MaterialZLayout, MaterialZVal, MaterialZOf, _ => true)
  }

  lemma MaterialZFaithful(pr: Prims)
    ensures Faithful(pr, MaterialZView())
  {
    forall x | true ensures Conforms(pr, MaterialZLayout, MaterialZVal(x)) && MaterialZOf(MaterialZVal(x)) == x {
      MaterialZConforms(pr, x);
      MaterialZOfVal(pr, x);
    }
    forall v | Conforms(pr, MaterialZLayout, v) ensures MaterialZVal(MaterialZOf(v)) == v {
      MaterialZFrom(pr, v);
    }
  }

  /** `#[nom(Exact)]`: the whole body is one material. */
  function MaterialZSchema(): Schema<MaterialZ> {
    RecordSchema(NoPrims, MaterialZView(), true)
  }

  lemma MaterialZSchemaLawful()
    ensures LawfulSchema(MaterialZSchema())
  {
    NoPrimsLawful();
    MaterialZFaithful(NoPrims);
    RecordSchemaLawful(NoPrims, MaterialZView(), true);
  }

  /** The layout of a `MaterialZ` is 172 bytes wide. */
  lemma MaterialZWidth()
    ensures Width(MaterialZLayout) == Some(172)
  {
  }

  /** A `MaterialZ` body is exactly 172 bytes: a body of any other length fails to decode. */
  lemma MaterialZSize(s: seq<u8>, x: MaterialZ)
    ensures MaterialZSchema().decode(s).Ok? ==> |s| == 172
    ensures |MaterialZSchema().encode(x)| == 172
  {
    MaterialZWidth();
    NoPrimsLawful();
    MaterialZFaithful(NoPrims);
    ExactWidth(NoPrims, MaterialZView(), s, x);
  }

  /** `FixedVec<u32, 26>`. */
  type U32s26 = s: seq<u32> | |s| == 26 witness seq(26, _ => 0)

  /** The nine bitmap hashes, in declared order. */
  function MaterialZBitmaps(x: MaterialZ): seq<u32> {
    [x.diffuseBitmapCrc32, x.unknownBitmapCrc320, x.metalBitmapCrc32, x.unknownBitmapCrc321, x.greyBitmapCrc32, x.normalBitmapCrc32, x.dirtBitmapCrc32, x.unknownBitmapCrc322, x.unknownBitmapCrc323]
  }

  /** The references of a material: each non-zero bitmap hash, in declared order, as a hard link; no soft links. */
  function MaterialZLinks(x: MaterialZ): Links {
    Links(Keep(x.diffuseBitmapCrc32)
      + Keep(x.unknownBitmapCrc320)
      + Keep(x.metalBitmapCrc32)
      + Keep(x.unknownBitmapCrc321)
      + Keep(x.greyBitmapCrc32)
      + Keep(x.normalBitmapCrc32)
      + Keep(x.dirtBitmapCrc32)
      + Keep(x.unknownBitmapCrc322)
      + Keep(x.unknownBitmapCrc323), [])
  }

  /** `MaterialZ::hard_links`: one test-and-push per bitmap field. */
  method MaterialZHardLinks(x: MaterialZ) returns (v: seq<u32>)
    ensures v == MaterialZLinks(x).hard
  {
    v := [];
    v := PushNonZero(v, x.diffuseBitmapCrc32);
    v := PushNonZero(v, x.unknownBitmapCrc320);
    v := PushNonZero(v, x.metalBitmapCrc32);
    v := PushNonZero(v, x.unknownBitmapCrc321);
    v := PushNonZero(v, x.greyBitmapCrc32);
    v := PushNonZero(v, x.normalBitmapCrc32);
    v := PushNonZero(v, x.dirtBitmapCrc32);
    v := PushNonZero(v, x.unknownBitmapCrc322);
    v := PushNonZero(v, x.unknownBitmapCrc323);
  }

  /**
   * The hard links are the non-zero bitmap hashes in declared order: at most
   * nine, none of them zero, and every non-zero bitmap hash among them.
   */
  lemma MaterialZLinksBounded(x: MaterialZ)
    ensures MaterialZLinks(x).soft == []
    ensures MaterialZLinks(x).hard == NonZero(MaterialZBitmaps(x))
    ensures |MaterialZLinks(x).hard| <= 9
    ensures forall h :: h in MaterialZLinks(x).hard <==> h in MaterialZBitmaps(x) && h != 0
  {
    NonZeroNine(x.diffuseBitmapCrc32, x.unknownBitmapCrc320, x.metalBitmapCrc32,
      x.unknownBitmapCrc321, x.greyBitmapCrc32, x.normalBitmapCrc32,
      x.dirtBitmapCrc32, x.unknownBitmapCrc322, x.unknownBitmapCrc323);
    NonZeroMembers(MaterialZBitmaps(x));
  }

  /** `MaterialObjectFormat`: a `ResourceObjectZ` header and a `MaterialZ` body. */
  function MaterialFormat(hs: Headers): (f: Format<seq<u8>, MaterialZ>)
    ensures f.header == OpaqueSchema(hs.resourceObjectZ) && f.body == MaterialZSchema()
    ensures forall h, b :: f.links(h, b) == hs.resourceObjectZ.refs(h, MaterialZLinks(b))
  {
    OpaqueFormat(hs.resourceObjectZ, MaterialZSchema(), MaterialZLinks)
  }

  /**
   * A material object survives the adapter both ways. A well-formed body packed
   * under a header that the `ResourceObjectZ` schema accepts unpacks to the same pair,
   * reporting the header's references combined with its own references. An
   * object that unpacks packs back to a prefix of its header buffer and to
   * exactly its body buffer, the body schema being exact.
   */
  lemma MaterialRoundTrip(hs: Headers, hb: seq<u8>, b: MaterialZ, header: seq<u8>, body: seq<u8>)
    requires LawfulHeaders(hs)
    ensures hs.resourceObjectZ.decode(hb) == Ok(hb) && MaterialZSchema().wf(b) ==>
      var p := Pack(MaterialFormat(hs), hb, b);
      && p.header == hb && p.body == MaterialZSchema().encode(b)
      && Unpack(MaterialFormat(hs), p.header, p.body) == Ok(Unpacked(hb, b, hs.resourceObjectZ.refs(hb, MaterialZLinks(b))))
    ensures Unpack(MaterialFormat(hs), header, body).Ok? ==>
      var u := Unpack(MaterialFormat(hs), header, body).value;
      && u.links == hs.resourceObjectZ.refs(u.header, MaterialZLinks(u.body))
      && Pack(MaterialFormat(hs), u.header, u.body).header <= header
      && Pack(MaterialFormat(hs), u.header, u.body).body == body
  {
    MaterialZSchemaLawful();
    OpaqueFormatRoundTrip(hs.resourceObjectZ, MaterialZSchema(), MaterialZLinks, hb, b, header, body);
  }

  /** The constant fields of `MaterialZAlt` (material.rs:34-37): 144 bytes. */
  datatype MaterialZAltHead = MaterialZAltHead(
    color: Vec4f,
    emission: Vec3f,
    unknown0: i32,
    vertexShaderConstantFs: U32s28)

  const MaterialZAltHeadLayout: Kind :=
    Then(Then(Words(F32, 4), // color
    Words(F32, 3)), // emission
    Then(Word(I32), // unknown0
    Words(U32, 28))) // vertexShaderConstantFs

  function MaterialZAltHeadVal(x: MaterialZAltHead): Val {
    Pair(Pair(Nums(x.color), // color
    Nums(x.emission)), // emission
    Pair(Num(x.unknown0), // unknown0
    Nums(x.vertexShaderConstantFs))) // vertexShaderConstantFs
  }

  function MaterialZAltHeadOf(v: Val): MaterialZAltHead {
    MaterialZAltHead(
      AsWords(F32, 4, First(First(v))),
      AsWords(F32, 3, Second(First(v))),
      AsWord(I32, First(Second(v))),
      AsWords(U32, 28, Second(Second(v))))
  }

  lemma MaterialZAltHeadConforms(pr: Prims, x: MaterialZAltHead)
    ensures Conforms(pr, MaterialZAltHeadLayout, MaterialZAltHeadVal(x))
  {
    U32sInRange(x.color);
    U32sInRange(x.emission);
    U32sInRange(x.vertexShaderConstantFs);
  }

  lemma MaterialZAltHeadOfVal(pr: Prims, x: MaterialZAltHead)
    ensures MaterialZAltHeadOf(MaterialZAltHeadVal(x)) == x
  {
  }

  lemma MaterialZAltHeadFrom(pr: Prims, v: Val)
    requires Conforms(pr, MaterialZAltHeadLayout, v)
    ensures MaterialZAltHeadVal(MaterialZAltHeadOf(v)) == v
  {
  }

  function MaterialZAltHeadView(): View<MaterialZAltHead> {
    View(MaterialZAltHeadLayout, MaterialZAltHeadVal, MaterialZAltHeadOf, _ => true)
  }

  lemma MaterialZAltHeadFaithful(pr: Prims)
    ensures Faithful(pr, MaterialZAltHeadView())
  {
    forall x | true ensures Conforms(pr, MaterialZAltHeadLayout, MaterialZAltHeadVal(x)) && MaterialZAltHeadOf(MaterialZAltHeadVal(x)) == x {
      MaterialZAltHeadConforms(pr, x);
      MaterialZAltHeadOfVal(pr, x);
    }
    forall v | Conforms(pr, MaterialZAltHeadLayout, v) ensures MaterialZAltHeadVal(MaterialZAltHeadOf(v)) == v {
      MaterialZAltHeadFrom(pr, v);
    }
  }

  /** `FixedVec<u32, 28>`. */
  type U32s28 = s: seq<u32> | |s| == 28 witness seq(28, _ => 0)

  lemma MaterialZAltHeadWidth()
    ensures Width(MaterialZAltHeadLayout) == Some(144)
  {
  }

  /** The constant fields of `MaterialZAltAlt` (material.rs:60-63): 156 bytes. */
  datatype MaterialZAltAltHead = MaterialZAltAltHead(
    color: Vec4f,
    emission: Vec3f,
    unknown0: i32,
    vertexShaderConstantFs: U32s31)

  const MaterialZAltAltHeadLayout: Kind :=
    Then(Then(Words(F32, 4), // color
    Words(F32, 3)), // emission
    Then(Word(I32), // unknown0
    Words(U32, 31))) // vertexShaderConstantFs

  function MaterialZAltAltHeadVal(x: MaterialZAltAltHead): Val {
    Pair(Pair(Nums(x.color), // color
    Nums(x.emission)), // emission
    Pair(Num(x.unknown0), // unknown0
    Nums(x.vertexShaderConstantFs))) // vertexShaderConstantFs
  }

  function MaterialZAltAltHeadOf(v: Val): MaterialZAltAltHead {
    MaterialZAltAltHead(
      AsWords(F32, 4, First(First(v))),
      AsWords(F32, 3, Second(First(v))),
      AsWord(I32, First(Second(v))),
      AsWords(U32, 31, Second(Second(v))))
  }

  lemma MaterialZAltAltHeadConforms(pr: Prims, x: MaterialZAltAltHead)
    ensures Conforms(pr, MaterialZAltAltHeadLayout, MaterialZAltAltHeadVal(x))
  {
    U32sInRange(x.color);
    U32sInRange(x.emission);
    U32sInRange(x.vertexShaderConstantFs);
  }

  lemma MaterialZAltAltHeadOfVal(pr: Prims, x: MaterialZAltAltHead)
    ensures MaterialZAltAltHeadOf(MaterialZAltAltHeadVal(x)) == x
  {
  }

  lemma MaterialZAltAltHeadFrom(pr: Prims, v: Val)
    requires Conforms(pr, MaterialZAltAltHeadLayout, v)
    ensures MaterialZAltAltHeadVal(MaterialZAltAltHeadOf(v)) == v
  {
  }

  function MaterialZAltAltHeadView(): View<MaterialZAltAltHead> {
    View(MaterialZAltAltHeadLayout, MaterialZAltAltHeadVal, MaterialZAltAltHeadOf, _ => true)
  }

  lemma MaterialZAltAltHeadFaithful(pr: Prims)
    ensures Faithful(pr, MaterialZAltAltHeadView())
  {
    forall x | true ensures Conforms(pr, MaterialZAltAltHeadLayout, MaterialZAltAltHeadVal(x)) && MaterialZAltAltHeadOf(MaterialZAltAltHeadVal(x)) == x {
      MaterialZAltAltHeadConforms(pr, x);
      MaterialZAltAltHeadOfVal(pr, x);
    }
    forall v | Conforms(pr, MaterialZAltAltHeadLayout, v) ensures MaterialZAltAltHeadVal(MaterialZAltAltHeadOf(v)) == v {
      MaterialZAltAltHeadFrom(pr, v);
    }
  }

  /** `FixedVec<u32, 31>`. */
  type U32s31 = s: seq<u32> | |s| == 31 witness seq(31, _ => 0)

  lemma MaterialZAltAltHeadWidth()
    ensures Width(MaterialZAltAltHeadLayout) == Some(156)
  {
  }

  // ---------------------------------------------------------------------
  // The flag-gated layouts `MaterialZAlt` and `MaterialZAltAlt`: the constant
  // fields, a flag byte `opt`, two optional hashes present iff `opt != 0`,
  // then six bitmap hashes. They differ only in their constant fields.

  /** `FixedVec<u32, 6>`. */
  type U32s6 = s: seq<u32> | |s| == 6 witness [0, 0, 0, 0, 0, 0]

  /**
   * A flag-gated material: the constant fields `head`, the flag byte `opt`
   * as it was read, the two optional hashes and the six bitmap hashes.
   */
  datatype Optioned<H> = Optioned(head: H, opt: u8, unknownCrc320: Option<u32>, unknownCrc321: Option<u32>, bitmapCrc32s: U32s6)

  /** What follows the constant fields: the flag byte as read, the two options and the bitmap hashes. */
  datatype Gated = Gated(opt: u8, unknownCrc320: Option<u32>, unknownCrc321: Option<u32>, bitmapCrc32s: U32s6)

  function ParseGated(s: seq<u8>): Result<(Gated, seq<u8>)> {
    var opt :- ParseU8(s);
    var o0 :- ParseOptionU32(opt.0 != 0, opt.1);
    var o1 :- ParseOptionU32(opt.0 != 0, o0.1);
    var bm :- ParseWords(U32, 6, o1.1);
    Ok((Gated(opt.0, o0.0, o1.0, AsWords(U32, 6, Nums(bm.0))), bm.1))
  }

  /** The writer puts `flag` first, then the options that are present, then the bitmap hashes. */
  function EmitGated(flag: u8, o0: Option<u32>, o1: Option<u32>, bm: U32s6, tail: seq<u8>): seq<u8> {
    EmitU8(flag, EmitOptionU32(o0, EmitOptionU32(o1, EmitWords(U32, bm, tail))))
  }

  function ParseOptioned<H>(c: View<H>, s: seq<u8>): Result<(Optioned<H>, seq<u8>)> {
    var h :- Parse(NoPrims, c.k, s);
    var g :- ParseGated(h.1);
    Ok((Optioned(c.ofVal(h.0), g.0.opt, g.0.unknownCrc320, g.0.unknownCrc321, g.0.bitmapCrc32s), g.1))
  }

  /** The flag byte the writer derives from `unknown_crc320` alone; the stored `opt` is ignored. */
  function Flag<H>(x: Optioned<H>): u8 {
    if x.unknownCrc320.Some? then 1 else 0
  }

  function EmitOptioned<H>(c: View<H>, x: Optioned<H>, tail: seq<u8>): seq<u8> {
    Emit(c.k, c.toVal(x.head), EmitGated(Flag(x), x.unknownCrc320, x.unknownCrc321, x.bitmapCrc32s, tail))
  }

  /** The values that survive a round trip unchanged: the flag as the writer derives it, and both options or neither. */
  predicate WfOptioned<H>(c: View<H>, x: Optioned<H>) {
    c.wf(x.head) && x.opt == Flag(x) && (x.unknownCrc320.Some? <==> x.unknownCrc321.Some?)
  }

  /** `#[nom(Exact)]`. */
  function OptionedSchema<H>(c: View<H>): Schema<Optioned<H>> {
    Schema(s => Exact(ParseOptioned(c, s)), x => EmitOptioned(c, x, []), x => WfOptioned(c, x), true)
  }

  /** With both options or neither and the flag they call for, the gated part decodes from its own encoding. */
  lemma GatedRecovers(flag: u8, o0: Option<u32>, o1: Option<u32>, bm: U32s6, t: seq<u8>)
    requires (o0.Some? <==> o1.Some?) && flag == (if o0.Some? then 1 else 0)
    ensures ParseGated(EmitGated(flag, o0, o1, bm, t)) == Ok((Gated(flag, o0, o1, bm), t))
  {
    var r3 := EmitWords(U32, bm, t);
    var r2 := EmitOptionU32(o1, r3);
    U32sInRange(bm);
    WordsRecover(U32, bm, t);
    if o0.Some? {
      U32Recovers(o1.value, r3);
      U32Recovers(o0.value, r2);
    }
  }

  /**
   * A gated part that decodes is a flag byte, eight bytes of options when the
   * flag is non-zero and none otherwise, and 24 bytes of bitmap hashes; it
   * re-encodes to the same bytes with the flag normalised to 0 or 1.
   */
  lemma GatedAccounts(s: seq<u8>)
    requires ParseGated(s).Ok?
    ensures var g, r := ParseGated(s).value.0, ParseGated(s).value.1;
      && |s| == 25 + (if s[0] != 0 then 8 else 0) + |r|
      && g.opt == s[0] && (g.unknownCrc320.Some? <==> s[0] != 0) && (g.unknownCrc321.Some? <==> s[0] != 0)
      && EmitGated(if s[0] != 0 then 1 else 0, g.unknownCrc320, g.unknownCrc321, g.bitmapCrc32s, r) == [if s[0] != 0 then 1 else 0] + s[1..]
  {
    var opt := ParseU8(s).value;
    var o0 := ParseOptionU32(opt.0 != 0, opt.1).value;
    var o1 := ParseOptionU32(opt.0 != 0, o0.1).value;
    var bm := ParseWords(U32, 6, o1.1).value;
    WordsAccount(U32, 6, o1.1);
    WordsLength(U32, bm.0, bm.1);
    if opt.0 != 0 {
      U32Accounts(opt.1);
      U32Accounts(o0.1);
    }
    assert ParseGated(s).value.0.bitmapCrc32s == bm.0;
  }

  /**
   * Decoding what was written gives the value back with its flag re-derived,
   * provided both options are present or both absent.
   */
  lemma OptionedRecovers<H(!new)>(c: View<H>, x: Optioned<H>, t: seq<u8>)
    requires Faithful(NoPrims, c) && c.wf(x.head) && (x.unknownCrc320.Some? <==> x.unknownCrc321.Some?)
    ensures ParseOptioned(c, EmitOptioned(c, x, t)) == Ok((x.(opt := Flag(x)), t))
  {
    var g := EmitGated(Flag(x), x.unknownCrc320, x.unknownCrc321, x.bitmapCrc32s, t);
    GatedRecovers(Flag(x), x.unknownCrc320, x.unknownCrc321, x.bitmapCrc32s, t);
    NoPrimsLawful();
    Recover(NoPrims, c.k, c.toVal(x.head), g);
  }

  /** The constant fields of a fixed-width head take its first `w` bytes. */
  lemma HeadAccounts<H(!new)>(c: View<H>, s: seq<u8>)
    requires Faithful(NoPrims, c) && Width(c.k).Some? && Parse(NoPrims, c.k, s).Ok?
    ensures var w, h := Width(c.k).value, Parse(NoPrims, c.k, s).value;
      && |s| >= w && h.1 == s[w..] && c.wf(c.ofVal(h.0))
      && forall t :: Emit(c.k, c.toVal(c.ofVal(h.0)), t) == s[..w] + t
  {
    var w := Width(c.k).value;
    NoPrimsLawful();
    Account(NoPrims, c.k, s);
    var h := Parse(NoPrims, c.k, s).value;
    EmitAppends(c.k, h.0, h.1);
    Length(NoPrims, c.k, h.0, []);
    WidthLen(NoPrims, c.k, h.0);
    forall t ensures Emit(c.k, h.0, t) == s[..w] + t {
      EmitAppends(c.k, h.0, t);
    }
  }

  /**
   * What decodes re-encodes to the same bytes except the flag byte after the
   * `w` constant bytes, which is normalised to 0 or 1; the options are present
   * exactly when that byte is non-zero, and the value is `w` constant bytes,
   * the flag, eight bytes of options or none, and 24 bytes of bitmap hashes.
   */
  lemma OptionedAccounts<H(!new)>(c: View<H>, s: seq<u8>)
    requires Faithful(NoPrims, c) && Width(c.k).Some? && ParseOptioned(c, s).Ok?
    ensures var w, x, r := Width(c.k).value, ParseOptioned(c, s).value.0, ParseOptioned(c, s).value.1;
      && |s| > w && |s| == w + 25 + (if s[w] != 0 then 8 else 0) + |r|
      && x.opt == s[w] && c.wf(x.head)
      && (x.unknownCrc320.Some? <==> s[w] != 0) && (x.unknownCrc321.Some? <==> s[w] != 0)
      && EmitOptioned(c, x, r) == s[..w] + [if s[w] != 0 then 1 else 0] + s[w + 1..]
  {
    var w := Width(c.k).value;
    HeadAccounts(c, s);
    var h := Parse(NoPrims, c.k, s).value;
    GatedAccounts(h.1);
    var g := ParseGated(h.1).value;
    assert h.1[1..] == s[w + 1..];
    var x := ParseOptioned(c, s).value.0;
    assert EmitGated(Flag(x), x.unknownCrc320, x.unknownCrc321, x.bitmapCrc32s, g.1) == [if s[w] != 0 then 1 else 0] + s[w + 1..];
  }

  /** What is written carries the derived flag at offset `w`, after the constant fields. */
  lemma OptionedFlagAt<H(!new)>(c: View<H>, x: Optioned<H>)
    requires Faithful(NoPrims, c) && Width(c.k).Some? && c.wf(x.head)
    ensures var w, e := Width(c.k).value, EmitOptioned(c, x, []);
      && |e| == w + 25 + (if x.unknownCrc320.Some? then 4 else 0) + (if x.unknownCrc321.Some? then 4 else 0)
      && e[w] == Flag(x)
  {
    var t := EmitGated(Flag(x), x.unknownCrc320, x.unknownCrc321, x.bitmapCrc32s, []);
    WordsLength(U32, x.bitmapCrc32s, []);
    EmitAppends(c.k, c.toVal(x.head), t);
    Length(NoPrims, c.k, c.toVal(x.head), []);
    WidthLen(NoPrims, c.k, c.toVal(x.head));
  }

  /** Fewer bytes than a run of scalars needs is a truncated input. */
  lemma {:induction false} WordsShort(w: Scalar, n: nat, s: seq<u8>)
    requires |s| < Size(w) * n
    ensures ParseWords(w, n, s) == Err(Truncated)
    decreases n
  {
    if |s| >= Size(w) {
      var first := ParseWord(w, s).value;
      WordsShort(w, n - 1, first.1);
    }
  }

  /** With only the first option the flag is 1 and the decoder runs out of bytes. */
  lemma GatedLoneFirst(a: u32, bm: U32s6)
    ensures ParseGated(EmitGated(1, Some(a), None, bm, [])) == Err(Truncated)
  {
    var r3 := EmitWords(U32, bm[1..], []);
    WordsLength(U32, bm[1..], []);
    WordsShort(U32, 6, r3);
    U32Recovers(bm[0], r3);
    U32Recovers(a, EmitWords(U32, bm, []));
  }

  /**
   * With only the second option the flag is 0, the option is read as the
   * first bitmap hash, and four bytes are left over.
   */
  lemma GatedLoneSecond(b: u32, bm: U32s6)
    ensures var r := ParseGated(EmitGated(0, None, Some(b), bm, []));
      r.Ok? && |r.value.1| == 4
  {
    var read := [b] + bm[..5];
    var left := EmitWords(U32, bm[5..], []);
    U32sInRange(read);
    WordsRecover(U32, read, left);
    WordsLength(U32, bm[5..], []);
    assert EmitWords(U32, read, left) == EmitU32(b, EmitWords(U32, bm, [])) by {
      WordsConcat(U32, bm[..5], bm[5..], []);
      assert bm[..5] + bm[5..] == bm;
      assert read[1..] == bm[..5];
    }
  }

  /** One option without the other does not survive: with only `unknown_crc320` the input is truncated. */
  lemma OptionedLoneFirst<H(!new)>(c: View<H>, x: Optioned<H>)
    requires Faithful(NoPrims, c) && c.wf(x.head) && x.unknownCrc320.Some? && x.unknownCrc321.None?
    ensures OptionedSchema(c).decode(OptionedSchema(c).encode(x)) == Err(Truncated)
  {
    GatedLoneFirst(x.unknownCrc320.value, x.bitmapCrc32s);
    NoPrimsLawful();
    Recover(NoPrims, c.k, c.toVal(x.head), EmitGated(1, x.unknownCrc320, None, x.bitmapCrc32s, []));
  }

  /** With only `unknown_crc321` four bytes are left over, which the exact decode rejects. */
  lemma OptionedLoneSecond<H(!new)>(c: View<H>, x: Optioned<H>)
    requires Faithful(NoPrims, c) && c.wf(x.head) && x.unknownCrc320.None? && x.unknownCrc321.Some?
    ensures OptionedSchema(c).decode(OptionedSchema(c).encode(x)) == Err(TrailingBytes)
  {
    GatedLoneSecond(x.unknownCrc321.value, x.bitmapCrc32s);
    NoPrimsLawful();
    Recover(NoPrims, c.k, c.toVal(x.head), EmitGated(0, None, x.unknownCrc321, x.bitmapCrc32s, []));
  }

  /** The references of a flag-gated material: the six bitmap hashes back to front, zeros kept, as hard links. */
  function OptionedLinks<H>(x: Optioned<H>): Links {
    Links(Reversed(x.bitmapCrc32s), [])
  }

  lemma OptionedLinksReversed<H>(x: Optioned<H>)
    ensures OptionedLinks(x).soft == [] && |OptionedLinks(x).hard| == 6
    ensures forall k | 0 <= k < 6 :: OptionedLinks(x).hard[k] == x.bitmapCrc32s[5 - k]
  {
    ReversedLength(x.bitmapCrc32s);
    forall k | 0 <= k < 6 ensures Reversed(x.bitmapCrc32s)[k] == x.bitmapCrc32s[5 - k] {
      ReversedAt(x.bitmapCrc32s, k);
    }
  }

  // ---------------------------------------------------------------------
  // The two instances.

  type MaterialZAlt = Optioned<MaterialZAltHead>
  type MaterialZAltAlt = Optioned<MaterialZAltAltHead>

  function MaterialZAltSchema(): Schema<MaterialZAlt> {
    OptionedSchema(MaterialZAltHeadView())
  }

  function MaterialZAltAltSchema(): Schema<MaterialZAltAlt> {
    OptionedSchema(MaterialZAltAltHeadView())
  }

  /**
   * `MaterialZAlt`: with both options or neither, a value decodes from its
   * own encoding with the flag the writer derived; a buffer decodes only when
   * it is 169 bytes with a zero flag at offset 144 or 177 bytes with a
   * non-zero one, and it re-encodes to itself with that flag normalised to 1.
   */
  lemma MaterialZAltRoundTrip(x: MaterialZAlt, s: seq<u8>)
    ensures (x.unknownCrc320.Some? <==> x.unknownCrc321.Some?) ==>
      MaterialZAltSchema().decode(MaterialZAltSchema().encode(x)) == Ok(x.(opt := Flag(x)))
    ensures MaterialZAltSchema().decode(s).Ok? ==>
      && (|s| == 169 || |s| == 177) && (|s| == 177 <==> s[144] != 0)
      && MaterialZAltSchema().encode(MaterialZAltSchema().decode(s).value) == s[..144] + [if s[144] != 0 then 1 else 0] + s[145..]
  {
    MaterialZAltHeadFaithful(NoPrims);
    MaterialZAltHeadWidth();
    if x.unknownCrc320.Some? <==> x.unknownCrc321.Some? {
      OptionedRecovers(MaterialZAltHeadView(), x, []);
    }
    if MaterialZAltSchema().decode(s).Ok? {
      OptionedAccounts(MaterialZAltHeadView(), s);
    }
  }

  /** `MaterialZAltAlt`: as `MaterialZAlt`, with 156 constant bytes, so 181 or 189 bytes in all. */
  lemma MaterialZAltAltRoundTrip(x: MaterialZAltAlt, s: seq<u8>)
    ensures (x.unknownCrc320.Some? <==> x.unknownCrc321.Some?) ==>
      MaterialZAltAltSchema().decode(MaterialZAltAltSchema().encode(x)) == Ok(x.(opt := Flag(x)))
    ensures MaterialZAltAltSchema().decode(s).Ok? ==>
      && (|s| == 181 || |s| == 189) && (|s| == 189 <==> s[156] != 0)
      && MaterialZAltAltSchema().encode(MaterialZAltAltSchema().decode(s).value) == s[..156] + [if s[156] != 0 then 1 else 0] + s[157..]
  {
    MaterialZAltAltHeadFaithful(NoPrims);
    MaterialZAltAltHeadWidth();
    if x.unknownCrc320.Some? <==> x.unknownCrc321.Some? {
      OptionedRecovers(MaterialZAltAltHeadView(), x, []);
    }
    if MaterialZAltAltSchema().decode(s).Ok? {
      OptionedAccounts(MaterialZAltAltHeadView(), s);
    }
  }

  /** `MaterialObjectFormatAlt`: a `ResourceObjectZ` header and a `MaterialZAlt` body. */
  function MaterialFormatAlt(hs: Headers): (f: Format<seq<u8>, MaterialZAlt>)
    ensures f.header == OpaqueSchema(hs.resourceObjectZ) && f.body == MaterialZAltSchema()
    ensures forall h, b :: f.links(h, b) == hs.resourceObjectZ.refs(h, OptionedLinks(b))
  {
    OpaqueFormat(hs.resourceObjectZ, MaterialZAltSchema(), OptionedLinks)
  }

  /**
   * An older material object through the adapter. A body with both options or
   * neither, packed under a header that the `ResourceObjectZ` schema accepts,
   * unpacks to the same header and to the body with its flag normalised,
   * reporting the header's references combined with the body's six bitmap
   * references. An object that unpacks packs back to a prefix of its header
   * buffer and to its body buffer with the flag byte at offset 144 normalised to 0 or 1.
   */
  lemma MaterialAltRoundTrip(hs: Headers, hb: seq<u8>, b: MaterialZAlt, header: seq<u8>, body: seq<u8>)
    requires LawfulHeaders(hs)
    ensures hs.resourceObjectZ.decode(hb) == Ok(hb) && (b.unknownCrc320.Some? <==> b.unknownCrc321.Some?) ==>
      var p := Pack(MaterialFormatAlt(hs), hb, b);
      && p.header == hb && p.body == MaterialZAltSchema().encode(b)
      && Unpack(MaterialFormatAlt(hs), p.header, p.body) == Ok(Unpacked(hb, b.(opt := Flag(b)), hs.resourceObjectZ.refs(hb, OptionedLinks(b))))
    ensures Unpack(MaterialFormatAlt(hs), header, body).Ok? ==>
      var u := Unpack(MaterialFormatAlt(hs), header, body).value;
      && u.links == hs.resourceObjectZ.refs(u.header, OptionedLinks(u.body))
      && Pack(MaterialFormatAlt(hs), u.header, u.body).header <= header
      && |body| > 144 && Pack(MaterialFormatAlt(hs), u.header, u.body).body == body[..144] + [if body[144] != 0 then 1 else 0] + body[145..]
  {
    OpaqueSchemaLawful(hs.resourceObjectZ);
    MaterialZAltRoundTrip(b, body);
  }

  /** `MaterialObjectFormatAltAlt`: a `ResourceObjectZ` header and a `MaterialZAltAlt` body. */
  function MaterialFormatAltAlt(hs: Headers): (f: Format<seq<u8>, MaterialZAltAlt>)
    ensures f.header == OpaqueSchema(hs.resourceObjectZ) && f.body == MaterialZAltAltSchema()
    ensures forall h, b :: f.links(h, b) == hs.resourceObjectZ.refs(h, OptionedLinks(b))
  {
    OpaqueFormat(hs.resourceObjectZ, MaterialZAltAltSchema(), OptionedLinks)
  }

  /**
   * An oldest material object through the adapter. A body with both options or
   * neither, packed under a header that the `ResourceObjectZ` schema accepts,
   * unpacks to the same header and to the body with its flag normalised,
   * reporting the header's references combined with the body's six bitmap
   * references. An object that unpacks packs back to a prefix of its header
   * buffer and to its body buffer with the flag byte at offset 156 normalised to 0 or 1.
   */
  lemma MaterialAltAltRoundTrip(hs: Headers, hb: seq<u8>, b: MaterialZAltAlt, header: seq<u8>, body: seq<u8>)
    requires LawfulHeaders(hs)
    ensures hs.resourceObjectZ.decode(hb) == Ok(hb) && (b.unknownCrc320.Some? <==> b.unknownCrc321.Some?) ==>
      var p := Pack(MaterialFormatAltAlt(hs), hb, b);
      && p.header == hb && p.body == MaterialZAltAltSchema().encode(b)
      && Unpack(MaterialFormatAltAlt(hs), p.header, p.body) == Ok(Unpacked(hb, b.(opt := Flag(b)), hs.resourceObjectZ.refs(hb, OptionedLinks(b))))
    ensures Unpack(MaterialFormatAltAlt(hs), header, body).Ok? ==>
      var u := Unpack(MaterialFormatAltAlt(hs), header, body).value;
      && u.links == hs.resourceObjectZ.refs(u.header, OptionedLinks(u.body))
      && Pack(MaterialFormatAltAlt(hs), u.header, u.body).header <= header
      && |body| > 156 && Pack(MaterialFormatAltAlt(hs), u.header, u.body).body == body[..156] + [if body[156] != 0 then 1 else 0] + body[157..]
  {
    OpaqueSchemaLawful(hs.resourceObjectZ);
    MaterialZAltAltRoundTrip(b, body);
  }

}
