/**
 * `GameObjZ` (walle_fmt/gameobj.rs): a prefixed array of children, each an
 * opaque name, a flag and a prefixed hash array; exact. Its soft links are the
 * children's hash arrays one after the other, zeros kept; it has no hard links.
 */
module WalleGameObj {
  import opened Bytes
  import opened Codec
  import opened Schemas
  import opened Objects

  /** One child (gameobj.rs:12-16): `string` is a `PascalStringNULL`. */
  datatype GameObjZChild = GameObjZChild(
    name: Blob,
    isInWorld: u32,
    crc32s: PascalArray<u32>)

  const GameObjZChildLayout: Kind :=
    Then(Then(Opaque(Name), // string
    Word(U32)), // isInWorld
    WordArray(U32)) // crc32s

  function GameObjZChildVal(x: GameObjZChild): Val {
    Pair(Pair(Raw(x.name), // name
    Num(x.isInWorld)), // isInWorld
    Nums(x.crc32s)) // crc32s
  }

  function GameObjZChildOf(v: Val): GameObjZChild {
    GameObjZChild(
      AsBlob(First(First(v))),
      AsWord(U32, Second(First(v))),
      AsWordArray(U32, Second(v)))
  }

  /** The opaque primitives of a `GameObjZChild` hold complete encodings. */
  predicate WfGameObjZChild(pr: Prims, x: GameObjZChild) {
    Framed(pr.name, x.name)
  }

  lemma GameObjZChildConforms(pr: Prims, x: GameObjZChild)
    requires WfGameObjZChild(pr, x)
    ensures Conforms(pr, GameObjZChildLayout, GameObjZChildVal(x))
  {
    U32sInRange(x.crc32s);
  }

  lemma GameObjZChildOfVal(pr: Prims, x: GameObjZChild)
    requires WfGameObjZChild(pr, x)
    ensures GameObjZChildOf(GameObjZChildVal(x)) == x
  {
  }

  lemma GameObjZChildFrom(pr: Prims, v: Val)
    requires Conforms(pr, GameObjZChildLayout, v)
    ensures GameObjZChildVal(GameObjZChildOf(v)) == v
    ensures WfGameObjZChild(pr, GameObjZChildOf(v))
  {
  }

  function GameObjZChildView(pr: Prims): View<GameObjZChild> {
    View(GameObjZChildLayout, GameObjZChildVal, GameObjZChildOf, x => WfGameObjZChild(pr, x))
  }

  lemma GameObjZChildFaithful(pr: Prims)
    ensures Faithful(pr, GameObjZChildView(pr))
  {
    forall x | WfGameObjZChild(pr, x) ensures Conforms(pr, GameObjZChildLayout, GameObjZChildVal(x)) && GameObjZChildOf(GameObjZChildVal(x)) == x {
      GameObjZChildConforms(pr, x);
      GameObjZChildOfVal(pr, x);
    }
    forall v | Conforms(pr, GameObjZChildLayout, v) ensures WfGameObjZChild(pr, GameObjZChildOf(v)) && GameObjZChildVal(GameObjZChildOf(v)) == v {
      GameObjZChildFrom(pr, v);
    }
  }

  /** The body (gameobj.rs:22-24). */
  datatype GameObjZ = GameObjZ(
    children: PascalArray<GameObjZChild>)

  const GameObjZLayout: Kind :=
    Array(GameObjZChildLayout) // children

  function GameObjZVal(x: GameObjZ): Val {
    Vals(MapVals(GameObjZChildVal, x.children)) // children
  }

  function GameObjZOf(v: Val): GameObjZ {
    GameObjZ(
      AsRecords(GameObjZChildOf, v))
  }

  /** The opaque primitives of a `GameObjZ` hold complete encodings. */
  predicate WfGameObjZ(pr: Prims, x: GameObjZ) {
    (forall i | 0 <= i < |x.children| :: WfGameObjZChild(pr, x.children[i]))
  }

  lemma GameObjZConforms(pr: Prims, x: GameObjZ)
    requires WfGameObjZ(pr, x)
    ensures Conforms(pr, GameObjZLayout, GameObjZVal(x))
  {
    GameObjZChildFaithful(pr);
    ElementsConform(pr, GameObjZChildView(pr), x.children);
  }

  lemma GameObjZOfVal(pr: Prims, x: GameObjZ)
    requires WfGameObjZ(pr, x)
    ensures GameObjZOf(GameObjZVal(x)) == x
  {
    GameObjZChildFaithful(pr);
    ElementsOfVal(pr, GameObjZChildView(pr), x.children);
  }

  lemma GameObjZFrom(pr: Prims, v: Val)
    requires Conforms(pr, GameObjZLayout, v)
    ensures GameObjZVal(GameObjZOf(v)) == v
    ensures WfGameObjZ(pr, GameObjZOf(v))
  {
    GameObjZChildFaithful(pr);
    ElementsFrom(pr, GameObjZChildView(pr), v);
  }

  function GameObjZView(pr: Prims): View<GameObjZ> {
    View(GameObjZLayout, GameObjZVal, GameObjZOf, x => WfGameObjZ(pr, x))
  }

  lemma GameObjZFaithful(pr: Prims)
    ensures Faithful(pr, GameObjZView(pr))
  {
    forall x | WfGameObjZ(pr, x) ensures Conforms(pr, GameObjZLayout, GameObjZVal(x)) && GameObjZOf(GameObjZVal(x)) == x {
      GameObjZConforms(pr, x);
      GameObjZOfVal(pr, x);
    }
    forall v | Conforms(pr, GameObjZLayout, v) ensures WfGameObjZ(pr, GameObjZOf(v)) && GameObjZVal(GameObjZOf(v)) == v {
      GameObjZFrom(pr, v);
    }
  }

  /** `#[nom(Exact)]`: the whole body is one `GameObjZ`. */
  function GameObjZSchema(pr: Prims): Schema<GameObjZ> {
    RecordSchema(pr, GameObjZView(pr), true)
  }

  lemma GameObjZSchemaLawful(pr: Prims)
    requires Lawful(pr)
    ensures LawfulSchema(GameObjZSchema(pr))
  {
    GameObjZFaithful(pr);
    RecordSchemaLawful(pr, GameObjZView(pr), true);
  }

  /** Each child's hash array, in child order. */
  function ChildCrcs(x: GameObjZ): (r: seq<seq<u32>>)
    ensures |r| == |x.children| && forall i | 0 <= i < |r| :: r[i] == x.children[i].crc32s
  {
    seq(|x.children|, i requires 0 <= i < |x.children| => x.children[i].crc32s)
  }

  /** The references of a game object: no hard links; the children's hashes as soft links. */
  function GameObjZLinks(x: GameObjZ): Links {
    Links([], Flatten(ChildCrcs(x)))
  }

  /** `GameObjZ::soft_links`: append each child's hashes in turn. */
  method GameObjZSoftLinks(x: GameObjZ) returns (v: seq<u32>)
    ensures v == GameObjZLinks(x).soft
  {
    var crcs := ChildCrcs(x);
    v := [];
    for i := 0 to |x.children|
      invariant v == Flatten(crcs[..i])
    {
      assert crcs[..i + 1] == crcs[..i] + [x.children[i].crc32s];
      FlattenAppend(crcs[..i], [x.children[i].crc32s]);
      assert Flatten([x.children[i].crc32s]) == x.children[i].crc32s;
      v := v + x.children[i].crc32s;
    }
    assert crcs[..|x.children|] == crcs;
  }

  /**
   * A soft link is a hash of some child, and every hash of every child is a
   * soft link, zeros included.
   */
  lemma GameObjZLinksMembers(x: GameObjZ)
    ensures GameObjZLinks(x).hard == []
    ensures forall h :: h in GameObjZLinks(x).soft <==> exists i | 0 <= i < |x.children| :: h in x.children[i].crc32s
  {
    FlattenMembers(ChildCrcs(x));
  }

  /** `GameObjObjectFormat`: a `ResourceObjectZ` header and a `GameObjZ` body. */
  function GameObjFormat(hs: Headers, pr: Prims): (f: Format<seq<u8>, GameObjZ>)
    ensures f.header == OpaqueSchema(hs.resourceObjectZ) && f.body == GameObjZSchema(pr)
    ensures forall h, b :: f.links(h, b) == hs.resourceObjectZ.refs(h, GameObjZLinks(b))
  {
    OpaqueFormat(hs.resourceObjectZ, GameObjZSchema(pr), GameObjZLinks)
  }

  /**
   * A game-object object survives the adapter both ways. A well-formed body packed
   * under a header that the `ResourceObjectZ` schema accepts unpacks to the same pair,
   * reporting the header's references combined with its own references. An
   * object that unpacks packs back to a prefix of its header buffer and to
   * exactly its body buffer, the body schema being exact.
   */
  lemma GameObjRoundTrip(hs: Headers, pr: Prims, hb: seq<u8>, b: GameObjZ, header: seq<u8>, body: seq<u8>)
    requires LawfulHeaders(hs) && Lawful(pr)
    ensures hs.resourceObjectZ.decode(hb) == Ok(hb) && GameObjZSchema(pr).wf(b) ==>
      var p := Pack(GameObjFormat(hs, pr), hb, b);
      && p.header == hb && p.body == GameObjZSchema(pr).encode(b)
      && Unpack(GameObjFormat(hs, pr), p.header, p.body) == Ok(Unpacked(hb, b, hs.resourceObjectZ.refs(hb, GameObjZLinks(b))))
    ensures Unpack(GameObjFormat(hs, pr), header, body).Ok? ==>
      var u := Unpack(GameObjFormat(hs, pr), header, body).value;
      && u.links == hs.resourceObjectZ.refs(u.header, GameObjZLinks(u.body))
      && Pack(GameObjFormat(hs, pr), u.header, u.body).header <= header
      && Pack(GameObjFormat(hs, pr), u.header, u.body).body == body
  {
    GameObjZSchemaLawful(pr);
    OpaqueFormatRoundTrip(hs.resourceObjectZ, GameObjZSchema(pr), GameObjZLinks, hb, b, header, body);
  }
}
