/**
 * `NodeZ` (fuel_fmt/node.rs): the FUEL scene-graph node body, exact, 234 bytes
 * (106 plus two `Mat4f`); `Count(32)` and `Count(17)` are constants. Extraction
 * parses a `ResourceObjectZ` header, then the body, and aborts on either failure.
 */
module FuelNode {
  import opened Bytes
  import opened Codec
  import opened Schemas
  import opened Objects

  /** A FUEL node (node.rs:12-29), fields in declared order. */
  datatype NodeZ = NodeZ(
    parentCrc32: u32,
    someNodeCrc320: u32,
    someNodeCrc321: u32,
    someNodeCrc322: u32,
    someCrc320: u32,
    someCrc321: u32,
    unknown6: u32,
    unknown7: u32,
    unknown8: u32,
    unknown9: f32,
    unknown10s: Bytes32,
    mat0: Mat4f,
    unknown11s: U16s17,
    mat1: Mat4f)

  const NodeZLayout: Kind :=
    Then(Then(Then(Then(Word(U32), // parentCrc32
    Word(U32)), // someNodeCrc320
    Then(Word(U32), // someNodeCrc321
    Word(U32))), // someNodeCrc322
    Then(Then(Word(U32), // someCrc320
    Word(U32)), // someCrc321
    Word(U32))), // unknown6
    Then(Then(Then(Word(U32), // unknown7
    Word(U32)), // unknown8
    Then(Word(F32), // unknown9
    Words(U8, 32))), // unknown10s
    Then(Then(Words(F32, 16), // mat0
    Words(U16, 17)), // unknown11s
    Words(F32, 16)))) // mat1

  function NodeZVal(x: NodeZ): Val {
    Pair(Pair(Pair(Pair(Num(x.parentCrc32), // parentCrc32
    Num(x.someNodeCrc320)), // someNodeCrc320
    Pair(Num(x.someNodeCrc321), // someNodeCrc321
    Num(x.someNodeCrc322))), // someNodeCrc322
    Pair(Pair(Num(x.someCrc320), // someCrc320
    Num(x.someCrc321)), // someCrc321
    Num(x.unknown6))), // unknown6
    Pair(Pair(Pair(Num(x.unknown7), // unknown7
    Num(x.unknown8)), // unknown8
    Pair(Num(x.unknown9), // unknown9
    Nums(x.unknown10s))), // unknown10s
    Pair(Pair(Nums(x.mat0), // mat0
    Nums(x.unknown11s)), // unknown11s
    Nums(x.mat1)))) // mat1
  }

  function NodeZOf(v: Val): NodeZ {
    NodeZ(
      AsWord(U32, First(First(First(First(v))))),
      AsWord(U32, Second(First(First(First(v))))),
      AsWord(U32, First(Second(First(First(v))))),
      AsWord(U32, Second(Second(First(First(v))))),
      AsWord(U32, First(First(Second(First(v))))),
      AsWord(U32, Second(First(Second(First(v))))),
      AsWord(U32, Second(Second(First(v)))),
      AsWord(U32, First(First(First(Second(v))))),
      AsWord(U32, Second(First(First(Second(v))))),
      AsWord(F32, First(Second(First(Second(v))))),
      AsWords(U8, 32, Second(Second(First(Second(v))))),
      AsWords(F32, 16, First(First(Second(Second(v))))),
      AsWords(U16, 17, Second(First(Second(Second(v))))),
      AsWords(F32, 16, Second(Second(Second(v)))))
  }

  // fields `parentCrc32` to `someNodeCrc322`
  lemma NodeZConformsLL(pr: Prims, x: NodeZ)
    ensures Conforms(pr, NodeZLayout.first.first, First(First(NodeZVal(x))))
  {
  }

  // fields `someCrc320` to `unknown6`
  lemma NodeZConformsLR(pr: Prims, x: NodeZ)
    ensures Conforms(pr, NodeZLayout.first.second, Second(First(NodeZVal(x))))
  {
  }

  // fields `unknown7` to `unknown10s`
  lemma NodeZConformsRL(pr: Prims, x: NodeZ)
    ensures Conforms(pr, NodeZLayout.second.first, First(Second(NodeZVal(x))))
  {
    U8sInRange(x.unknown10s);
  }

  // fields `mat0` to `mat1`
  lemma NodeZConformsRR(pr: Prims, x: NodeZ)
    ensures Conforms(pr, NodeZLayout.second.second, Second(Second(NodeZVal(x))))
  {
    U32sInRange(x.mat0);
    U16sInRange(x.unknown11s);
    U32sInRange(x.mat1);
  }

  // fields `parentCrc32` to `unknown6`
  lemma NodeZConformsL(pr: Prims, x: NodeZ)
    ensures Conforms(pr, NodeZLayout.first, First(NodeZVal(x)))
  {
    NodeZConformsLL(pr, x);
    NodeZConformsLR(pr, x);
  }

  // fields `unknown7` to `mat1`
  lemma NodeZConformsR(pr: Prims, x: NodeZ)
    ensures Conforms(pr, NodeZLayout.second, Second(NodeZVal(x)))
  {
    NodeZConformsRL(pr, x);
    NodeZConformsRR(pr, x);
  }

  lemma NodeZConforms(pr: Prims, x: NodeZ)
    ensures Conforms(pr, NodeZLayout, NodeZVal(x))
  {
    NodeZConformsL(pr, x);
    NodeZConformsR(pr, x);
  }

  lemma NodeZOfVal(pr: Prims, x: NodeZ)
    ensures NodeZOf(NodeZVal(x)) == x
  {
  }

  // fields `parentCrc32` to `someNodeCrc322`
  lemma NodeZFromLL(pr: Prims, v: Val)
    requires Conforms(pr, NodeZLayout.first.first, First(First(v)))
    ensures First(First(NodeZVal(NodeZOf(v)))) == First(First(v))
  {
  }

  // fields `someCrc320` to `unknown6`
  lemma NodeZFromLR(pr: Prims, v: Val)
    requires Conforms(pr, NodeZLayout.first.second, Second(First(v)))
    ensures Second(First(NodeZVal(NodeZOf(v)))) == Second(First(v))
  {
  }

  // fields `unknown7` to `unknown10s`
  lemma NodeZFromRL(pr: Prims, v: Val)
    requires Conforms(pr, NodeZLayout.second.first, First(Second(v)))
    ensures First(Second(NodeZVal(NodeZOf(v)))) == First(Second(v))
  {
  }

  // fields `mat0` to `mat1`
  lemma NodeZFromRR(pr: Prims, v: Val)
    requires Conforms(pr, NodeZLayout.second.second, Second(Second(v)))
    ensures Second(Second(NodeZVal(NodeZOf(v)))) == Second(Second(v))
  {
  }

  // fields `parentCrc32` to `unknown6`
  lemma NodeZFromL(pr: Prims, v: Val)
    requires Conforms(pr, NodeZLayout.first, First(v))
    ensures First(NodeZVal(NodeZOf(v))) == First(v)
  {
    NodeZFromLL(pr, v);
    NodeZFromLR(pr, v);
  }

  // fields `unknown7` to `mat1`
  lemma NodeZFromR(pr: Prims, v: Val)
    requires Conforms(pr, NodeZLayout.second, Second(v))
    ensures Second(NodeZVal(NodeZOf(v))) == Second(v)
  {
    NodeZFromRL(pr, v);
    NodeZFromRR(pr, v);
  }

  lemma NodeZFrom(pr: Prims, v: Val)
    requires Conforms(pr, NodeZLayout, v)
    ensures NodeZVal(NodeZOf(v)) == v
  {
    NodeZFromL(pr, v);
    NodeZFromR(pr, v);
  }

  function NodeZView(): View<NodeZ> {
    View(NodeZLayout, NodeZVal, NodeZOf, _ => true)
  }

  lemma NodeZFaithful(pr: Prims)
    ensures Faithful(pr, NodeZView())
  {
    forall x | true ensures Conforms(pr, NodeZLayout, NodeZVal(x)) && NodeZOf(NodeZVal(x)) == x {
      NodeZConforms(pr, x);
      NodeZOfVal(pr, x);
    }
    forall v | Conforms(pr, NodeZLayout, v) ensures NodeZVal(NodeZOf(v)) == v {
      NodeZFrom(pr, v);
    }
  }

  /** `#[nom(Exact)]`: the whole body is one `NodeZ`. */
  function NodeZSchema(): Schema<NodeZ> {
    RecordSchema(NoPrims, NodeZView(), true)
  }

  lemma NodeZSchemaLawful()
    ensures LawfulSchema(NodeZSchema())
  {
    NoPrimsLawful();
    NodeZFaithful(NoPrims);
    RecordSchemaLawful(NoPrims, NodeZView(), true);
  }

  /** The layout of a `NodeZ` is 234 bytes wide. */
  lemma NodeZWidth()
    ensures Width(NodeZLayout) == Some(234)
  {
  }

  /** A `NodeZ` body is exactly 234 bytes: a body of any other length fails to decode. */
  lemma NodeZSize(s: seq<u8>, x: NodeZ)
    ensures NodeZSchema().decode(s).Ok? ==> |s| == 234
    ensures |NodeZSchema().encode(x)| == 234
  {
    NodeZWidth();
    NoPrimsLawful();
    NodeZFaithful(NoPrims);
    ExactWidth(NoPrims, NodeZView(), s, x);
  }


  /** `#[nom(Count(32))] Vec<u8>`. */
  type Bytes32 = s: seq<u8> | |s| == 32 witness seq(32, _ => 0)

  /** `#[nom(Count(17))] Vec<u16>`. */
  type U16s17 = s: seq<u16> | |s| == 17 witness seq(17, _ => 0)

  /** `fuel_fmt_extract_node_z` without the JSON output: the `ResourceObjectZ` header, then the node. */
  function ExtractNode(h: OpaqueHeader, header: seq<u8>, data: seq<u8>): (r: Result<(seq<u8>, NodeZ)>)
    ensures r.Ok? <==> h.decode(header).Ok? && NodeZSchema().decode(data).Ok?
    ensures r.Ok? ==> |data| == 234 && r.value.1 == NodeZSchema().decode(data).value
  {
    var r := Extract(h, NodeZSchema(), header, data);
    if r.Ok? then NodeZSize(data, r.value.1); r else r
  }
}
