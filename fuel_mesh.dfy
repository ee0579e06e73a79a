/**
 * `MeshZ` (fuel_fmt/mesh.rs): the FUEL mesh body, exact; nineteen prefixed
 * arrays in declared order. Two of them hold records whose length depends on
 * their own fields: a sub-mesh carries `vertex_count * vertex_size` bytes and an
 * index list `index_count` u16. Extraction parses an `ObjectZ` header, then the
 * body, and aborts on either failure.
 */
module FuelMesh {
  import opened Bytes
  import opened Codec
  import opened Schemas
  import opened Objects
  import opened Vectors

  /** `#[nom(Count(12))] Vec<u32>`. */
  type U32s12 = s: seq<u32> | |s| == 12 witness seq(12, _ => 0)

  /** `MeshZUnknown0` (mesh.rs:11-17: 16 bytes). */
  datatype MeshZUnknown0 = MeshZUnknown0(
    unknown0: u32,
    unknown1: u32,
    unknown2: u32,
    unknown3: u32)

  const MeshZUnknown0Layout: Kind :=
    Then(Then(Word(U32), // unknown0
    Word(U32)), // unknown1
    Then(Word(U32), // unknown2
    Word(U32))) // unknown3

  function MeshZUnknown0Val(x: MeshZUnknown0): Val {
    Pair(Pair(Num(x.unknown0), // unknown0
    Num(x.unknown1)), // unknown1
    Pair(Num(x.unknown2), // unknown2
    Num(x.unknown3))) // unknown3
  }

  function MeshZUnknown0Of(v: Val): MeshZUnknown0 {
    MeshZUnknown0(
      AsWord(U32, First(First(v))),
      AsWord(U32, Second(First(v))),
      AsWord(U32, First(Second(v))),
      AsWord(U32, Second(Second(v))))
  }

  lemma MeshZUnknown0Conforms(pr: Prims, x: MeshZUnknown0)
    ensures Conforms(pr, MeshZUnknown0Layout, MeshZUnknown0Val(x))
  {
  }

  lemma MeshZUnknown0OfVal(pr: Prims, x: MeshZUnknown0)
    ensures MeshZUnknown0Of(MeshZUnknown0Val(x)) == x
  {
  }

  lemma MeshZUnknown0From(pr: Prims, v: Val)
    requires Conforms(pr, MeshZUnknown0Layout, v)
    ensures MeshZUnknown0Val(MeshZUnknown0Of(v)) == v
  {
  }

  function MeshZUnknown0View(): View<MeshZUnknown0> {
    View(MeshZUnknown0Layout, MeshZUnknown0Val, MeshZUnknown0Of, _ => true)
  }

  lemma MeshZUnknown0Faithful(pr: Prims)
    ensures Faithful(pr, MeshZUnknown0View())
  {
    forall x | true ensures Conforms(pr, MeshZUnknown0Layout, MeshZUnknown0Val(x)) && MeshZUnknown0Of(MeshZUnknown0Val(x)) == x {
      MeshZUnknown0Conforms(pr, x);
      MeshZUnknown0OfVal(pr, x);
    }
    forall v | Conforms(pr, MeshZUnknown0Layout, v) ensures MeshZUnknown0Val(MeshZUnknown0Of(v)) == v {
      MeshZUnknown0From(pr, v);
    }
  }

  /** `MeshZUnknown1` (mesh.rs:19-23: 8 bytes). */
  datatype MeshZUnknown1 = MeshZUnknown1(
    unknown0: u32,
    unknown1: u32)

  const MeshZUnknown1Layout: Kind :=
    Then(Word(U32), // unknown0
    Word(U32)) // unknown1

  function MeshZUnknown1Val(x: MeshZUnknown1): Val {
    Pair(Num(x.unknown0), // unknown0
    Num(x.unknown1)) // unknown1
  }

  function MeshZUnknown1Of(v: Val): MeshZUnknown1 {
    MeshZUnknown1(
      AsWord(U32, First(v)),
      AsWord(U32, Second(v)))
  }

  lemma MeshZUnknown1Conforms(pr: Prims, x: MeshZUnknown1)
    ensures Conforms(pr, MeshZUnknown1Layout, MeshZUnknown1Val(x))
  {
  }

  lemma MeshZUnknown1OfVal(pr: Prims, x: MeshZUnknown1)
    ensures MeshZUnknown1Of(MeshZUnknown1Val(x)) == x
  {
  }

  lemma MeshZUnknown1From(pr: Prims, v: Val)
    requires Conforms(pr, MeshZUnknown1Layout, v)
    ensures MeshZUnknown1Val(MeshZUnknown1Of(v)) == v
  {
  }

  function MeshZUnknown1View(): View<MeshZUnknown1> {
    View(MeshZUnknown1Layout, MeshZUnknown1Val, MeshZUnknown1Of, _ => true)
  }

  lemma MeshZUnknown1Faithful(pr: Prims)
    ensures Faithful(pr, MeshZUnknown1View())
  {
    forall x | true ensures Conforms(pr, MeshZUnknown1Layout, MeshZUnknown1Val(x)) && MeshZUnknown1Of(MeshZUnknown1Val(x)) == x {
      MeshZUnknown1Conforms(pr, x);
      MeshZUnknown1OfVal(pr, x);
    }
    forall v | Conforms(pr, MeshZUnknown1Layout, v) ensures MeshZUnknown1Val(MeshZUnknown1Of(v)) == v {
      MeshZUnknown1From(pr, v);
    }
  }

  /** `MeshZUnknown2` (mesh.rs:25-31). */
  datatype MeshZUnknown2 = MeshZUnknown2(
    unknown0s: PascalArray<u16>,
    unknown1: u32,
    unknown2: u32)

  const MeshZUnknown2Layout: Kind :=
    Then(Then(WordArray(U16), // unknown0s
    Word(U32)), // unknown1
    Word(U32)) // unknown2

  function MeshZUnknown2Val(x: MeshZUnknown2): Val {
    Pair(Pair(Nums(x.unknown0s), // unknown0s
    Num(x.unknown1)), // unknown1
    Num(x.unknown2)) // unknown2
  }

  function MeshZUnknown2Of(v: Val): MeshZUnknown2 {
    MeshZUnknown2(
      AsWordArray(U16, First(First(v))),
      AsWord(U32, Second(First(v))),
      AsWord(U32, Second(v)))
  }

  lemma MeshZUnknown2Conforms(pr: Prims, x: MeshZUnknown2)
    ensures Conforms(pr, MeshZUnknown2Layout, MeshZUnknown2Val(x))
  {
    U16sInRange(x.unknown0s);
  }

  lemma MeshZUnknown2OfVal(pr: Prims, x: MeshZUnknown2)
    ensures MeshZUnknown2Of(MeshZUnknown2Val(x)) == x
  {
  }

  lemma MeshZUnknown2From(pr: Prims, v: Val)
    requires Conforms(pr, MeshZUnknown2Layout, v)
    ensures MeshZUnknown2Val(MeshZUnknown2Of(v)) == v
  {
  }

  function MeshZUnknown2View(): View<MeshZUnknown2> {
    View(MeshZUnknown2Layout, MeshZUnknown2Val, MeshZUnknown2Of, _ => true)
  }

  lemma MeshZUnknown2Faithful(pr: Prims)
    ensures Faithful(pr, MeshZUnknown2View())
  {
    forall x | true ensures Conforms(pr, MeshZUnknown2Layout, MeshZUnknown2Val(x)) && MeshZUnknown2Of(MeshZUnknown2Val(x)) == x {
      MeshZUnknown2Conforms(pr, x);
      MeshZUnknown2OfVal(pr, x);
    }
    forall v | Conforms(pr, MeshZUnknown2Layout, v) ensures MeshZUnknown2Val(MeshZUnknown2Of(v)) == v {
      MeshZUnknown2From(pr, v);
    }
  }

  /** `MeshZUnknown4` (mesh.rs:33-37). */
  datatype MeshZUnknown4 = MeshZUnknown4(
    unknown0s: PascalArray<MeshZUnknown1>)

  const MeshZUnknown4Layout: Kind :=
    Array(MeshZUnknown1Layout) // unknown0s

  function MeshZUnknown4Val(x: MeshZUnknown4): Val {
    Vals(MapVals(MeshZUnknown1Val, x.unknown0s)) // unknown0s
  }

  function MeshZUnknown4Of(v: Val): MeshZUnknown4 {
    MeshZUnknown4(
      AsRecords(MeshZUnknown1Of, v))
  }

  lemma MeshZUnknown4Conforms(pr: Prims, x: MeshZUnknown4)
    ensures Conforms(pr, MeshZUnknown4Layout, MeshZUnknown4Val(x))
  {
    MeshZUnknown1Faithful(pr);
    ElementsConform(pr, MeshZUnknown1View(), x.unknown0s);
  }

  lemma MeshZUnknown4OfVal(pr: Prims, x: MeshZUnknown4)
    ensures MeshZUnknown4Of(MeshZUnknown4Val(x)) == x
  {
    MeshZUnknown1Faithful(pr);
    ElementsOfVal(pr, MeshZUnknown1View(), x.unknown0s);
  }

  lemma MeshZUnknown4From(pr: Prims, v: Val)
    requires Conforms(pr, MeshZUnknown4Layout, v)
    ensures MeshZUnknown4Val(MeshZUnknown4Of(v)) == v
  {
    MeshZUnknown1Faithful(pr);
    ElementsFrom(pr, MeshZUnknown1View(), v);
  }

  function MeshZUnknown4View(): View<MeshZUnknown4> {
    View(MeshZUnknown4Layout, MeshZUnknown4Val, MeshZUnknown4Of, _ => true)
  }

  lemma MeshZUnknown4Faithful(pr: Prims)
    ensures Faithful(pr, MeshZUnknown4View())
  {
    forall x | true ensures Conforms(pr, MeshZUnknown4Layout, MeshZUnknown4Val(x)) && MeshZUnknown4Of(MeshZUnknown4Val(x)) == x {
      MeshZUnknown4Conforms(pr, x);
      MeshZUnknown4OfVal(pr, x);
    }
    forall v | Conforms(pr, MeshZUnknown4Layout, v) ensures MeshZUnknown4Val(MeshZUnknown4Of(v)) == v {
      MeshZUnknown4From(pr, v);
    }
  }

  /** `MeshZUnknown6` (mesh.rs:39-51: 40 bytes). */
  datatype MeshZUnknown6 = MeshZUnknown6(
    unknown0: u32,
    unknown1: u32,
    unknown2: u32,
    unknown3: u32,
    unknown4: u32,
    unknown5: u32,
    unknown6: u32,
    unknown7: u32,
    unknown8: u32,
    unknown9: u32)

  const MeshZUnknown6Layout: Kind :=
    Then(Then(Then(Then(Word(U32), // unknown0
    Word(U32)), // unknown1
    Word(U32)), // unknown2
    Then(Word(U32), // unknown3
    Word(U32))), // unknown4
    Then(Then(Then(Word(U32), // unknown5
    Word(U32)), // unknown6
    Word(U32)), // unknown7
    Then(Word(U32), // unknown8
    Word(U32)))) // unknown9

  function MeshZUnknown6Val(x: MeshZUnknown6): Val {
    Pair(Pair(Pair(Pair(Num(x.unknown0), // unknown0
    Num(x.unknown1)), // unknown1
    Num(x.unknown2)), // unknown2
    Pair(Num(x.unknown3), // unknown3
    Num(x.unknown4))), // unknown4
    Pair(Pair(Pair(Num(x.unknown5), // unknown5
    Num(x.unknown6)), // unknown6
    Num(x.unknown7)), // unknown7
    Pair(Num(x.unknown8), // unknown8
    Num(x.unknown9)))) // unknown9
  }

  function MeshZUnknown6Of(v: Val): MeshZUnknown6 {
    MeshZUnknown6(
      AsWord(U32, First(First(First(First(v))))),
      AsWord(U32, Second(First(First(First(v))))),
      AsWord(U32, Second(First(First(v)))),
      AsWord(U32, First(Second(First(v)))),
      AsWord(U32, Second(Second(First(v)))),
      AsWord(U32, First(First(First(Second(v))))),
      AsWord(U32, Second(First(First(Second(v))))),
      AsWord(U32, Second(First(Second(v)))),
      AsWord(U32, First(Second(Second(v)))),
      AsWord(U32, Second(Second(Second(v)))))
  }

  // fields `unknown0` to `unknown2`
  lemma MeshZUnknown6ConformsLL(pr: Prims, x: MeshZUnknown6)
    ensures Conforms(pr, MeshZUnknown6Layout.first.first, First(First(MeshZUnknown6Val(x))))
  {
  }

  // fields `unknown3` to `unknown4`
  lemma MeshZUnknown6ConformsLR(pr: Prims, x: MeshZUnknown6)
    ensures Conforms(pr, MeshZUnknown6Layout.first.second, Second(First(MeshZUnknown6Val(x))))
  {
  }

  // fields `unknown5` to `unknown7`
  lemma MeshZUnknown6ConformsRL(pr: Prims, x: MeshZUnknown6)
    ensures Conforms(pr, MeshZUnknown6Layout.second.first, First(Second(MeshZUnknown6Val(x))))
  {
  }

  // fields `unknown8` to `unknown9`
  lemma MeshZUnknown6ConformsRR(pr: Prims, x: MeshZUnknown6)
    ensures Conforms(pr, MeshZUnknown6Layout.second.second, Second(Second(MeshZUnknown6Val(x))))
  {
  }

  // fields `unknown0` to `unknown4`
  lemma MeshZUnknown6ConformsL(pr: Prims, x: MeshZUnknown6)
    ensures Conforms(pr, MeshZUnknown6Layout.first, First(MeshZUnknown6Val(x)))
  {
    MeshZUnknown6ConformsLL(pr, x);
    MeshZUnknown6ConformsLR(pr, x);
  }

  // fields `unknown5` to `unknown9`
  lemma MeshZUnknown6ConformsR(pr: Prims, x: MeshZUnknown6)
    ensures Conforms(pr, MeshZUnknown6Layout.second, Second(MeshZUnknown6Val(x)))
  {
    MeshZUnknown6ConformsRL(pr, x);
    MeshZUnknown6ConformsRR(pr, x);
  }

  lemma MeshZUnknown6Conforms(pr: Prims, x: MeshZUnknown6)
    ensures Conforms(pr, MeshZUnknown6Layout, MeshZUnknown6Val(x))
  {
    MeshZUnknown6ConformsL(pr, x);
    MeshZUnknown6ConformsR(pr, x);
  }

  lemma MeshZUnknown6OfVal(pr: Prims, x: MeshZUnknown6)
    ensures MeshZUnknown6Of(MeshZUnknown6Val(x)) == x
  {
  }

  // fields `unknown0` to `unknown2`
  lemma MeshZUnknown6FromLL(pr: Prims, v: Val)
    requires Conforms(pr, MeshZUnknown6Layout.first.first, First(First(v)))
    ensures First(First(MeshZUnknown6Val(MeshZUnknown6Of(v)))) == First(First(v))
  {
  }

  // fields `unknown3` to `unknown4`
  lemma MeshZUnknown6FromLR(pr: Prims, v: Val)
    requires Conforms(pr, MeshZUnknown6Layout.first.second, Second(First(v)))
    ensures Second(First(MeshZUnknown6Val(MeshZUnknown6Of(v)))) == Second(First(v))
  {
  }

  // fields `unknown5` to `unknown7`
  lemma MeshZUnknown6FromRL(pr: Prims, v: Val)
    requires Conforms(pr, MeshZUnknown6Layout.second.first, First(Second(v)))
    ensures First(Second(MeshZUnknown6Val(MeshZUnknown6Of(v)))) == First(Second(v))
  {
  }

  // fields `unknown8` to `unknown9`
  lemma MeshZUnknown6FromRR(pr: Prims, v: Val)
    requires Conforms(pr, MeshZUnknown6Layout.second.second, Second(Second(v)))
    ensures Second(Second(MeshZUnknown6Val(MeshZUnknown6Of(v)))) == Second(Second(v))
  {
  }

  // fields `unknown0` to `unknown4`
  lemma MeshZUnknown6FromL(pr: Prims, v: Val)
    requires Conforms(pr, MeshZUnknown6Layout.first, First(v))
    ensures First(MeshZUnknown6Val(MeshZUnknown6Of(v))) == First(v)
  {
    MeshZUnknown6FromLL(pr, v);
    MeshZUnknown6FromLR(pr, v);
  }

  // fields `unknown5` to `unknown9`
  lemma MeshZUnknown6FromR(pr: Prims, v: Val)
    requires Conforms(pr, MeshZUnknown6Layout.second, Second(v))
    ensures Second(MeshZUnknown6Val(MeshZUnknown6Of(v))) == Second(v)
  {
    MeshZUnknown6FromRL(pr, v);
    MeshZUnknown6FromRR(pr, v);
  }

  lemma MeshZUnknown6From(pr: Prims, v: Val)
    requires Conforms(pr, MeshZUnknown6Layout, v)
    ensures MeshZUnknown6Val(MeshZUnknown6Of(v)) == v
  {
    MeshZUnknown6FromL(pr, v);
    MeshZUnknown6FromR(pr, v);
  }

  function MeshZUnknown6View(): View<MeshZUnknown6> {
    View(MeshZUnknown6Layout, MeshZUnknown6Val, MeshZUnknown6Of, _ => true)
  }

  lemma MeshZUnknown6Faithful(pr: Prims)
    ensures Faithful(pr, MeshZUnknown6View())
  {
    forall x | true ensures Conforms(pr, MeshZUnknown6Layout, MeshZUnknown6Val(x)) && MeshZUnknown6Of(MeshZUnknown6Val(x)) == x {
      MeshZUnknown6Conforms(pr, x);
      MeshZUnknown6OfVal(pr, x);
    }
    forall v | Conforms(pr, MeshZUnknown6Layout, v) ensures MeshZUnknown6Val(MeshZUnknown6Of(v)) == v {
      MeshZUnknown6From(pr, v);
    }
  }

  /** `MeshZUnknown7` (mesh.rs:53-59: 16 bytes). */
  datatype MeshZUnknown7 = MeshZUnknown7(
    unknown0: u32,
    unknown1: u32,
    unknown2: u32,
    unknown3: u32)

  const MeshZUnknown7Layout: Kind :=
    Then(Then(Word(U32), // unknown0
    Word(U32)), // unknown1
    Then(Word(U32), // unknown2
    Word(U32))) // unknown3

  function MeshZUnknown7Val(x: MeshZUnknown7): Val {
    Pair(Pair(Num(x.unknown0), // unknown0
    Num(x.unknown1)), // unknown1
    Pair(Num(x.unknown2), // unknown2
    Num(x.unknown3))) // unknown3
  }

  function MeshZUnknown7Of(v: Val): MeshZUnknown7 {
    MeshZUnknown7(
      AsWord(U32, First(First(v))),
      AsWord(U32, Second(First(v))),
      AsWord(U32, First(Second(v))),
      AsWord(U32, Second(Second(v))))
  }

  lemma MeshZUnknown7Conforms(pr: Prims, x: MeshZUnknown7)
    ensures Conforms(pr, MeshZUnknown7Layout, MeshZUnknown7Val(x))
  {
  }

  lemma MeshZUnknown7OfVal(pr: Prims, x: MeshZUnknown7)
    ensures MeshZUnknown7Of(MeshZUnknown7Val(x)) == x
  {
  }

  lemma MeshZUnknown7From(pr: Prims, v: Val)
    requires Conforms(pr, MeshZUnknown7Layout, v)
    ensures MeshZUnknown7Val(MeshZUnknown7Of(v)) == v
  {
  }

  function MeshZUnknown7View(): View<MeshZUnknown7> {
    View(MeshZUnknown7Layout, MeshZUnknown7Val, MeshZUnknown7Of, _ => true)
  }

  lemma MeshZUnknown7Faithful(pr: Prims)
    ensures Faithful(pr, MeshZUnknown7View())
  {
    forall x | true ensures Conforms(pr, MeshZUnknown7Layout, MeshZUnknown7Val(x)) && MeshZUnknown7Of(MeshZUnknown7Val(x)) == x {
      MeshZUnknown7Conforms(pr, x);
      MeshZUnknown7OfVal(pr, x);
    }
    forall v | Conforms(pr, MeshZUnknown7Layout, v) ensures MeshZUnknown7Val(MeshZUnknown7Of(v)) == v {
      MeshZUnknown7From(pr, v);
    }
  }

  /** `MeshZUnknown11` (mesh.rs:79-96: 60 bytes). */
  datatype MeshZUnknown11 = MeshZUnknown11(
    unknown0: u32,
    unknown1: u32,
    unknown2: u32,
    unknown3: u32,
    unknown4: u32,
    unknown5: u32,
    unknown6: u32,
    unknown7: u32,
    unknown8: u32,
    unknown9: u32,
    unknown10: u32,
    unknown11: u32,
    unknown12: u32,
    unknown13: u32,
    unknown14: u32)

  const MeshZUnknown11Layout: Kind :=
    Then(Then(Then(Then(Word(U32), // unknown0
    Word(U32)), // unknown1
    Then(Word(U32), // unknown2
    Word(U32))), // unknown3
    Then(Then(Word(U32), // unknown4
    Word(U32)), // unknown5
    Then(Word(U32), // unknown6
    Word(U32)))), // unknown7
    Then(Then(Then(Word(U32), // unknown8
    Word(U32)), // unknown9
    Then(Word(U32), // unknown10
    Word(U32))), // unknown11
    Then(Then(Word(U32), // unknown12
    Word(U32)), // unknown13
    Word(U32)))) // unknown14

  function MeshZUnknown11Val(x: MeshZUnknown11): Val {
    Pair(Pair(Pair(Pair(Num(x.unknown0), // unknown0
    Num(x.unknown1)), // unknown1
    Pair(Num(x.unknown2), // unknown2
    Num(x.unknown3))), // unknown3
    Pair(Pair(Num(x.unknown4), // unknown4
    Num(x.unknown5)), // unknown5
    Pair(Num(x.unknown6), // unknown6
    Num(x.unknown7)))), // unknown7
    Pair(Pair(Pair(Num(x.unknown8), // unknown8
    Num(x.unknown9)), // unknown9
    Pair(Num(x.unknown10), // unknown10
    Num(x.unknown11))), // unknown11
    Pair(Pair(Num(x.unknown12), // unknown12
    Num(x.unknown13)), // unknown13
    Num(x.unknown14)))) // unknown14
  }

  function MeshZUnknown11Of(v: Val): MeshZUnknown11 {
    MeshZUnknown11(
      AsWord(U32, First(First(First(First(v))))),
      AsWord(U32, Second(First(First(First(v))))),
      AsWord(U32, First(Second(First(First(v))))),
      AsWord(U32, Second(Second(First(First(v))))),
      AsWord(U32, First(First(Second(First(v))))),
      AsWord(U32, Second(First(Second(First(v))))),
      AsWord(U32, First(Second(Second(First(v))))),
      AsWord(U32, Second(Second(Second(First(v))))),
      AsWord(U32, First(First(First(Second(v))))),
      AsWord(U32, Second(First(First(Second(v))))),
      AsWord(U32, First(Second(First(Second(v))))),
      AsWord(U32, Second(Second(First(Second(v))))),
      AsWord(U32, First(First(Second(Second(v))))),
      AsWord(U32, Second(First(Second(Second(v))))),
      AsWord(U32, Second(Second(Second(v)))))
  }

  // fields `unknown0` to `unknown3`
  lemma MeshZUnknown11ConformsLL(pr: Prims, x: MeshZUnknown11)
    ensures Conforms(pr, MeshZUnknown11Layout.first.first, First(First(MeshZUnknown11Val(x))))
  {
  }

  // fields `unknown4` to `unknown7`
  lemma MeshZUnknown11ConformsLR(pr: Prims, x: MeshZUnknown11)
    ensures Conforms(pr, MeshZUnknown11Layout.first.second, Second(First(MeshZUnknown11Val(x))))
  {
  }

  // fields `unknown8` to `unknown11`
  lemma MeshZUnknown11ConformsRL(pr: Prims, x: MeshZUnknown11)
    ensures Conforms(pr, MeshZUnknown11Layout.second.first, First(Second(MeshZUnknown11Val(x))))
  {
  }

  // fields `unknown12` to `unknown14`
  lemma MeshZUnknown11ConformsRR(pr: Prims, x: MeshZUnknown11)
    ensures Conforms(pr, MeshZUnknown11Layout.second.second, Second(Second(MeshZUnknown11Val(x))))
  {
  }

  // fields `unknown0` to `unknown7`
  lemma MeshZUnknown11ConformsL(pr: Prims, x: MeshZUnknown11)
    ensures Conforms(pr, MeshZUnknown11Layout.first, First(MeshZUnknown11Val(x)))
  {
    MeshZUnknown11ConformsLL(pr, x);
    MeshZUnknown11ConformsLR(pr, x);
  }

  // fields `unknown8` to `unknown14`
  lemma MeshZUnknown11ConformsR(pr: Prims, x: MeshZUnknown11)
    ensures Conforms(pr, MeshZUnknown11Layout.second, Second(MeshZUnknown11Val(x)))
  {
    MeshZUnknown11ConformsRL(pr, x);
    MeshZUnknown11ConformsRR(pr, x);
  }

  lemma MeshZUnknown11Conforms(pr: Prims, x: MeshZUnknown11)
    ensures Conforms(pr, MeshZUnknown11Layout, MeshZUnknown11Val(x))
  {
    MeshZUnknown11ConformsL(pr, x);
    MeshZUnknown11ConformsR(pr, x);
  }

  lemma MeshZUnknown11OfVal(pr: Prims, x: MeshZUnknown11)
    ensures MeshZUnknown11Of(MeshZUnknown11Val(x)) == x
  {
  }

  // fields `unknown0` to `unknown3`
  lemma MeshZUnknown11FromLL(pr: Prims, v: Val)
    requires Conforms(pr, MeshZUnknown11Layout.first.first, First(First(v)))
    ensures First(First(MeshZUnknown11Val(MeshZUnknown11Of(v)))) == First(First(v))
  {
  }

  // fields `unknown4` to `unknown7`
  lemma MeshZUnknown11FromLR(pr: Prims, v: Val)
    requires Conforms(pr, MeshZUnknown11Layout.first.second, Second(First(v)))
    ensures Second(First(MeshZUnknown11Val(MeshZUnknown11Of(v)))) == Second(First(v))
  {
  }

  // fields `unknown8` to `unknown11`
  lemma MeshZUnknown11FromRL(pr: Prims, v: Val)
    requires Conforms(pr, MeshZUnknown11Layout.second.first, First(Second(v)))
    ensures First(Second(MeshZUnknown11Val(MeshZUnknown11Of(v)))) == First(Second(v))
  {
  }

  // fields `unknown12` to `unknown14`
  lemma MeshZUnknown11FromRR(pr: Prims, v: Val)
    requires Conforms(pr, MeshZUnknown11Layout.second.second, Second(Second(v)))
    ensures Second(Second(MeshZUnknown11Val(MeshZUnknown11Of(v)))) == Second(Second(v))
  {
  }

  // fields `unknown0` to `unknown7`
  lemma MeshZUnknown11FromL(pr: Prims, v: Val)
    requires Conforms(pr, MeshZUnknown11Layout.first, First(v))
    ensures First(MeshZUnknown11Val(MeshZUnknown11Of(v))) == First(v)
  {
    MeshZUnknown11FromLL(pr, v);
    MeshZUnknown11FromLR(pr, v);
  }

  // fields `unknown8` to `unknown14`
  lemma MeshZUnknown11FromR(pr: Prims, v: Val)
    requires Conforms(pr, MeshZUnknown11Layout.second, Second(v))
    ensures Second(MeshZUnknown11Val(MeshZUnknown11Of(v))) == Second(v)
  {
    MeshZUnknown11FromRL(pr, v);
    MeshZUnknown11FromRR(pr, v);
  }

  lemma MeshZUnknown11From(pr: Prims, v: Val)
    requires Conforms(pr, MeshZUnknown11Layout, v)
    ensures MeshZUnknown11Val(MeshZUnknown11Of(v)) == v
  {
    MeshZUnknown11FromL(pr, v);
    MeshZUnknown11FromR(pr, v);
  }

  function MeshZUnknown11View(): View<MeshZUnknown11> {
    View(MeshZUnknown11Layout, MeshZUnknown11Val, MeshZUnknown11Of, _ => true)
  }

  lemma MeshZUnknown11Faithful(pr: Prims)
    ensures Faithful(pr, MeshZUnknown11View())
  {
    forall x | true ensures Conforms(pr, MeshZUnknown11Layout, MeshZUnknown11Val(x)) && MeshZUnknown11Of(MeshZUnknown11Val(x)) == x {
      MeshZUnknown11Conforms(pr, x);
      MeshZUnknown11OfVal(pr, x);
    }
    forall v | Conforms(pr, MeshZUnknown11Layout, v) ensures MeshZUnknown11Val(MeshZUnknown11Of(v)) == v {
      MeshZUnknown11From(pr, v);
    }
  }

  /** `MeshZUnknown13Unknown1` (mesh.rs:98-108: 28 bytes). */
  datatype MeshZUnknown13Unknown1 = MeshZUnknown13Unknown1(
    unknown0: u32,
    unknown1: u32,
    unknown2: u32,
    unknown3: u32,
    unknown4: u32,
    unknown5: u32,
    unknown6: u32)

  const MeshZUnknown13Unknown1Layout: Kind :=
    Then(Then(Then(Word(U32), // unknown0
    Word(U32)), // unknown1
    Then(Word(U32), // unknown2
    Word(U32))), // unknown3
    Then(Then(Word(U32), // unknown4
    Word(U32)), // unknown5
    Word(U32))) // unknown6

  function MeshZUnknown13Unknown1Val(x: MeshZUnknown13Unknown1): Val {
    Pair(Pair(Pair(Num(x.unknown0), // unknown0
    Num(x.unknown1)), // unknown1
    Pair(Num(x.unknown2), // unknown2
    Num(x.unknown3))), // unknown3
    Pair(Pair(Num(x.unknown4), // unknown4
    Num(x.unknown5)), // unknown5
    Num(x.unknown6))) // unknown6
  }

  function MeshZUnknown13Unknown1Of(v: Val): MeshZUnknown13Unknown1 {
    MeshZUnknown13Unknown1(
      AsWord(U32, First(First(First(v)))),
      AsWord(U32, Second(First(First(v)))),
      AsWord(U32, First(Second(First(v)))),
      AsWord(U32, Second(Second(First(v)))),
      AsWord(U32, First(First(Second(v)))),
      AsWord(U32, Second(First(Second(v)))),
      AsWord(U32, Second(Second(v))))
  }

  // fields `unknown0` to `unknown3`
  lemma MeshZUnknown13Unknown1ConformsL(pr: Prims, x: MeshZUnknown13Unknown1)
    ensures Conforms(pr, MeshZUnknown13Unknown1Layout.first, First(MeshZUnknown13Unknown1Val(x)))
  {
  }

  // fields `unknown4` to `unknown6`
  lemma MeshZUnknown13Unknown1ConformsR(pr: Prims, x: MeshZUnknown13Unknown1)
    ensures Conforms(pr, MeshZUnknown13Unknown1Layout.second, Second(MeshZUnknown13Unknown1Val(x)))
  {
  }

  lemma MeshZUnknown13Unknown1Conforms(pr: Prims, x: MeshZUnknown13Unknown1)
    ensures Conforms(pr, MeshZUnknown13Unknown1Layout, MeshZUnknown13Unknown1Val(x))
  {
    MeshZUnknown13Unknown1ConformsL(pr, x);
    MeshZUnknown13Unknown1ConformsR(pr, x);
  }

  lemma MeshZUnknown13Unknown1OfVal(pr: Prims, x: MeshZUnknown13Unknown1)
    ensures MeshZUnknown13Unknown1Of(MeshZUnknown13Unknown1Val(x)) == x
  {
  }

  // fields `unknown0` to `unknown3`
  lemma MeshZUnknown13Unknown1FromL(pr: Prims, v: Val)
    requires Conforms(pr, MeshZUnknown13Unknown1Layout.first, First(v))
    ensures First(MeshZUnknown13Unknown1Val(MeshZUnknown13Unknown1Of(v))) == First(v)
  {
  }

  // fields `unknown4` to `unknown6`
  lemma MeshZUnknown13Unknown1FromR(pr: Prims, v: Val)
    requires Conforms(pr, MeshZUnknown13Unknown1Layout.second, Second(v))
    ensures Second(MeshZUnknown13Unknown1Val(MeshZUnknown13Unknown1Of(v))) == Second(v)
  {
  }

  lemma MeshZUnknown13Unknown1From(pr: Prims, v: Val)
    requires Conforms(pr, MeshZUnknown13Unknown1Layout, v)
    ensures MeshZUnknown13Unknown1Val(MeshZUnknown13Unknown1Of(v)) == v
  {
    MeshZUnknown13Unknown1FromL(pr, v);
    MeshZUnknown13Unknown1FromR(pr, v);
  }

  function MeshZUnknown13Unknown1View(): View<MeshZUnknown13Unknown1> {
    View(MeshZUnknown13Unknown1Layout, MeshZUnknown13Unknown1Val, MeshZUnknown13Unknown1Of, _ => true)
  }

  lemma MeshZUnknown13Unknown1Faithful(pr: Prims)
    ensures Faithful(pr, MeshZUnknown13Unknown1View())
  {
    forall x | true ensures Conforms(pr, MeshZUnknown13Unknown1Layout, MeshZUnknown13Unknown1Val(x)) && MeshZUnknown13Unknown1Of(MeshZUnknown13Unknown1Val(x)) == x {
      MeshZUnknown13Unknown1Conforms(pr, x);
      MeshZUnknown13Unknown1OfVal(pr, x);
    }
    forall v | Conforms(pr, MeshZUnknown13Unknown1Layout, v) ensures MeshZUnknown13Unknown1Val(MeshZUnknown13Unknown1Of(v)) == v {
      MeshZUnknown13Unknown1From(pr, v);
    }
  }

  /** `MeshZUnknown13` (mesh.rs:110-116). */
  datatype MeshZUnknown13 = MeshZUnknown13(
    unknown0s: U32s12,
    unknown1s: PascalArray<MeshZUnknown13Unknown1>)

  const MeshZUnknown13Layout: Kind :=
    Then(Words(U32, 12), // unknown0s
    Array(MeshZUnknown13Unknown1Layout)) // unknown1s

  function MeshZUnknown13Val(x: MeshZUnknown13): Val {
    Pair(Nums(x.unknown0s), // unknown0s
    Vals(MapVals(MeshZUnknown13Unknown1Val, x.unknown1s))) // unknown1s
  }

  function MeshZUnknown13Of(v: Val): MeshZUnknown13 {
    MeshZUnknown13(
      AsWords(U32, 12, First(v)),
      AsRecords(MeshZUnknown13Unknown1Of, Second(v)))
  }

  lemma MeshZUnknown13Conforms(pr: Prims, x: MeshZUnknown13)
    ensures Conforms(pr, MeshZUnknown13Layout, MeshZUnknown13Val(x))
  {
    U32sInRange(x.unknown0s);
    MeshZUnknown13Unknown1Faithful(pr);
    ElementsConform(pr, MeshZUnknown13Unknown1View(), x.unknown1s);
  }

  lemma MeshZUnknown13OfVal(pr: Prims, x: MeshZUnknown13)
    ensures MeshZUnknown13Of(MeshZUnknown13Val(x)) == x
  {
    MeshZUnknown13Unknown1Faithful(pr);
    ElementsOfVal(pr, MeshZUnknown13Unknown1View(), x.unknown1s);
  }

  lemma MeshZUnknown13From(pr: Prims, v: Val)
    requires Conforms(pr, MeshZUnknown13Layout, v)
    ensures MeshZUnknown13Val(MeshZUnknown13Of(v)) == v
  {
    MeshZUnknown13Unknown1Faithful(pr);
    ElementsFrom(pr, MeshZUnknown13Unknown1View(), Second(v));
  }

  function MeshZUnknown13View(): View<MeshZUnknown13> {
    View(MeshZUnknown13Layout, MeshZUnknown13Val, MeshZUnknown13Of, _ => true)
  }

  lemma MeshZUnknown13Faithful(pr: Prims)
    ensures Faithful(pr, MeshZUnknown13View())
  {
    forall x | true ensures Conforms(pr, MeshZUnknown13Layout, MeshZUnknown13Val(x)) && MeshZUnknown13Of(MeshZUnknown13Val(x)) == x {
      MeshZUnknown13Conforms(pr, x);
      MeshZUnknown13OfVal(pr, x);
    }
    forall v | Conforms(pr, MeshZUnknown13Layout, v) ensures MeshZUnknown13Val(MeshZUnknown13Of(v)) == v {
      MeshZUnknown13From(pr, v);
    }
  }

  /** `MeshZUnknown16` (mesh.rs:118-128: 32 bytes). */
  datatype MeshZUnknown16 = MeshZUnknown16(
    unknown0: u32,
    unknown1: u32,
    unknown2: u32,
    unknown3: u32,
    unknown4: u32,
    unknown5: u32,
    unknown6: u32,
    unknown7: u32)

  const MeshZUnknown16Layout: Kind :=
    Then(Then(Then(Word(U32), // unknown0
    Word(U32)), // unknown1
    Then(Word(U32), // unknown2
    Word(U32))), // unknown3
    Then(Then(Word(U32), // unknown4
    Word(U32)), // unknown5
    Then(Word(U32), // unknown6
    Word(U32)))) // unknown7

  function MeshZUnknown16Val(x: MeshZUnknown16): Val {
    Pair(Pair(Pair(Num(x.unknown0), // unknown0
    Num(x.unknown1)), // unknown1
    Pair(Num(x.unknown2), // unknown2
    Num(x.unknown3))), // unknown3
    Pair(Pair(Num(x.unknown4), // unknown4
    Num(x.unknown5)), // unknown5
    Pair(Num(x.unknown6), // unknown6
    Num(x.unknown7)))) // unknown7
  }

  function MeshZUnknown16Of(v: Val): MeshZUnknown16 {
    MeshZUnknown16(
      AsWord(U32, First(First(First(v)))),
      AsWord(U32, Second(First(First(v)))),
      AsWord(U32, First(Second(First(v)))),
      AsWord(U32, Second(Second(First(v)))),
      AsWord(U32, First(First(Second(v)))),
      AsWord(U32, Second(First(Second(v)))),
      AsWord(U32, First(Second(Second(v)))),
      AsWord(U32, Second(Second(Second(v)))))
  }

  // fields `unknown0` to `unknown3`
  lemma MeshZUnknown16ConformsL(pr: Prims, x: MeshZUnknown16)
    ensures Conforms(pr, MeshZUnknown16Layout.first, First(MeshZUnknown16Val(x)))
  {
  }

  // fields `unknown4` to `unknown7`
  lemma MeshZUnknown16ConformsR(pr: Prims, x: MeshZUnknown16)
    ensures Conforms(pr, MeshZUnknown16Layout.second, Second(MeshZUnknown16Val(x)))
  {
  }

  lemma MeshZUnknown16Conforms(pr: Prims, x: MeshZUnknown16)
    ensures Conforms(pr, MeshZUnknown16Layout, MeshZUnknown16Val(x))
  {
    MeshZUnknown16ConformsL(pr, x);
    MeshZUnknown16ConformsR(pr, x);
  }

  lemma MeshZUnknown16OfVal(pr: Prims, x: MeshZUnknown16)
    ensures MeshZUnknown16Of(MeshZUnknown16Val(x)) == x
  {
  }

  // fields `unknown0` to `unknown3`
  lemma MeshZUnknown16FromL(pr: Prims, v: Val)
    requires Conforms(pr, MeshZUnknown16Layout.first, First(v))
    ensures First(MeshZUnknown16Val(MeshZUnknown16Of(v))) == First(v)
  {
  }

  // fields `unknown4` to `unknown7`
  lemma MeshZUnknown16FromR(pr: Prims, v: Val)
    requires Conforms(pr, MeshZUnknown16Layout.second, Second(v))
    ensures Second(MeshZUnknown16Val(MeshZUnknown16Of(v))) == Second(v)
  {
  }

  lemma MeshZUnknown16From(pr: Prims, v: Val)
    requires Conforms(pr, MeshZUnknown16Layout, v)
    ensures MeshZUnknown16Val(MeshZUnknown16Of(v)) == v
  {
    MeshZUnknown16FromL(pr, v);
    MeshZUnknown16FromR(pr, v);
  }

  function MeshZUnknown16View(): View<MeshZUnknown16> {
    View(MeshZUnknown16Layout, MeshZUnknown16Val, MeshZUnknown16Of, _ => true)
  }

  lemma MeshZUnknown16Faithful(pr: Prims)
    ensures Faithful(pr, MeshZUnknown16View())
  {
    forall x | true ensures Conforms(pr, MeshZUnknown16Layout, MeshZUnknown16Val(x)) && MeshZUnknown16Of(MeshZUnknown16Val(x)) == x {
      MeshZUnknown16Conforms(pr, x);
      MeshZUnknown16OfVal(pr, x);
    }
    forall v | Conforms(pr, MeshZUnknown16Layout, v) ensures MeshZUnknown16Val(MeshZUnknown16Of(v)) == v {
      MeshZUnknown16From(pr, v);
    }
  }

  /** `MeshZPair` (mesh.rs:130-134: 4 bytes). */
  datatype MeshZPair = MeshZPair(
    first: u16,
    second: u16)

  const MeshZPairLayout: Kind :=
    Then(Word(U16), // first
    Word(U16)) // second

  function MeshZPairVal(x: MeshZPair): Val {
    Pair(Num(x.first), // first
    Num(x.second)) // second
  }

  function MeshZPairOf(v: Val): MeshZPair {
    MeshZPair(
      AsWord(U16, First(v)),
      AsWord(U16, Second(v)))
  }

  lemma MeshZPairConforms(pr: Prims, x: MeshZPair)
    ensures Conforms(pr, MeshZPairLayout, MeshZPairVal(x))
  {
  }

  lemma MeshZPairOfVal(pr: Prims, x: MeshZPair)
    ensures MeshZPairOf(MeshZPairVal(x)) == x
  {
  }

  lemma MeshZPairFrom(pr: Prims, v: Val)
    requires Conforms(pr, MeshZPairLayout, v)
    ensures MeshZPairVal(MeshZPairOf(v)) == v
  {
  }

  function MeshZPairView(): View<MeshZPair> {
    View(MeshZPairLayout, MeshZPairVal, MeshZPairOf, _ => true)
  }

  lemma MeshZPairFaithful(pr: Prims)
    ensures Faithful(pr, MeshZPairView())
  {
    forall x | true ensures Conforms(pr, MeshZPairLayout, MeshZPairVal(x)) && MeshZPairOf(MeshZPairVal(x)) == x {
      MeshZPairConforms(pr, x);
      MeshZPairOfVal(pr, x);
    }
    forall v | Conforms(pr, MeshZPairLayout, v) ensures MeshZPairVal(MeshZPairOf(v)) == v {
      MeshZPairFrom(pr, v);
    }
  }

  /** `MeshZUnknown15` (mesh.rs:136-142: 16 bytes). */
  datatype MeshZUnknown15 = MeshZUnknown15(
    unknown0: u32,
    unknown1: u32,
    unknown2: u32,
    unknown3: u32)

  const MeshZUnknown15Layout: Kind :=
    Then(Then(Word(U32), // unknown0
    Word(U32)), // unknown1
    Then(Word(U32), // unknown2
    Word(U32))) // unknown3

  function MeshZUnknown15Val(x: MeshZUnknown15): Val {
    Pair(Pair(Num(x.unknown0), // unknown0
    Num(x.unknown1)), // unknown1
    Pair(Num(x.unknown2), // unknown2
    Num(x.unknown3))) // unknown3
  }

  function MeshZUnknown15Of(v: Val): MeshZUnknown15 {
    MeshZUnknown15(
      AsWord(U32, First(First(v))),
      AsWord(U32, Second(First(v))),
      AsWord(U32, First(Second(v))),
      AsWord(U32, Second(Second(v))))
  }

  lemma MeshZUnknown15Conforms(pr: Prims, x: MeshZUnknown15)
    ensures Conforms(pr, MeshZUnknown15Layout, MeshZUnknown15Val(x))
  {
  }

  lemma MeshZUnknown15OfVal(pr: Prims, x: MeshZUnknown15)
    ensures MeshZUnknown15Of(MeshZUnknown15Val(x)) == x
  {
  }

  lemma MeshZUnknown15From(pr: Prims, v: Val)
    requires Conforms(pr, MeshZUnknown15Layout, v)
    ensures MeshZUnknown15Val(MeshZUnknown15Of(v)) == v
  {
  }

  function MeshZUnknown15View(): View<MeshZUnknown15> {
    View(MeshZUnknown15Layout, MeshZUnknown15Val, MeshZUnknown15Of, _ => true)
  }

  lemma MeshZUnknown15Faithful(pr: Prims)
    ensures Faithful(pr, MeshZUnknown15View())
  {
    forall x | true ensures Conforms(pr, MeshZUnknown15Layout, MeshZUnknown15Val(x)) && MeshZUnknown15Of(MeshZUnknown15Val(x)) == x {
      MeshZUnknown15Conforms(pr, x);
      MeshZUnknown15OfVal(pr, x);
    }
    forall v | Conforms(pr, MeshZUnknown15Layout, v) ensures MeshZUnknown15Val(MeshZUnknown15Of(v)) == v {
      MeshZUnknown15From(pr, v);
    }
  }

  /** `MeshZUnknown14` (mesh.rs:144-154). */
  datatype MeshZUnknown14 = MeshZUnknown14(
    name: PascalArray<u8>,
    unknown1: u32,
    unknown2: u16,
    unknown4s: PascalArray<u16>,
    unknown15s: PascalArray<MeshZUnknown15>)

  const MeshZUnknown14Layout: Kind :=
    Then(Then(Then(WordArray(U8), // name
    Word(U32)), // unknown1
    Word(U16)), // unknown2
    Then(WordArray(U16), // unknown4s
    Array(MeshZUnknown15Layout))) // unknown15s

  function MeshZUnknown14Val(x: MeshZUnknown14): Val {
    Pair(Pair(Pair(Nums(x.name), // name
    Num(x.unknown1)), // unknown1
    Num(x.unknown2)), // unknown2
    Pair(Nums(x.unknown4s), // unknown4s
    Vals(MapVals(MeshZUnknown15Val, x.unknown15s)))) // unknown15s
  }

  function MeshZUnknown14Of(v: Val): MeshZUnknown14 {
    MeshZUnknown14(
      AsWordArray(U8, First(First(First(v)))),
      AsWord(U32, Second(First(First(v)))),
      AsWord(U16, Second(First(v))),
      AsWordArray(U16, First(Second(v))),
      AsRecords(MeshZUnknown15Of, Second(Second(v))))
  }

  // fields `name` to `unknown2`
  lemma MeshZUnknown14ConformsL(pr: Prims, x: MeshZUnknown14)
    ensures Conforms(pr, MeshZUnknown14Layout.first, First(MeshZUnknown14Val(x)))
  {
    U8sInRange(x.name);
  }

  // fields `unknown4s` to `unknown15s`
  lemma MeshZUnknown14ConformsR(pr: Prims, x: MeshZUnknown14)
    ensures Conforms(pr, MeshZUnknown14Layout.second, Second(MeshZUnknown14Val(x)))
  {
    U16sInRange(x.unknown4s);
    MeshZUnknown15Faithful(pr);
    ElementsConform(pr, MeshZUnknown15View(), x.unknown15s);
  }

  lemma MeshZUnknown14Conforms(pr: Prims, x: MeshZUnknown14)
    ensures Conforms(pr, MeshZUnknown14Layout, MeshZUnknown14Val(x))
  {
    MeshZUnknown14ConformsL(pr, x);
    MeshZUnknown14ConformsR(pr, x);
  }

  lemma MeshZUnknown14OfVal(pr: Prims, x: MeshZUnknown14)
    ensures MeshZUnknown14Of(MeshZUnknown14Val(x)) == x
  {
    MeshZUnknown15Faithful(pr);
    ElementsOfVal(pr, MeshZUnknown15View(), x.unknown15s);
  }

  // fields `name` to `unknown2`
  lemma MeshZUnknown14FromL(pr: Prims, v: Val)
    requires Conforms(pr, MeshZUnknown14Layout.first, First(v))
    ensures First(MeshZUnknown14Val(MeshZUnknown14Of(v))) == First(v)
  {
  }

  // fields `unknown4s` to `unknown15s`
  lemma MeshZUnknown14FromR(pr: Prims, v: Val)
    requires Conforms(pr, MeshZUnknown14Layout.second, Second(v))
    ensures Second(MeshZUnknown14Val(MeshZUnknown14Of(v))) == Second(v)
  {
    MeshZUnknown15Faithful(pr);
    ElementsFrom(pr, MeshZUnknown15View(), Second(Second(v)));
  }

  lemma MeshZUnknown14From(pr: Prims, v: Val)
    requires Conforms(pr, MeshZUnknown14Layout, v)
    ensures MeshZUnknown14Val(MeshZUnknown14Of(v)) == v
  {
    MeshZUnknown14FromL(pr, v);
    MeshZUnknown14FromR(pr, v);
  }

  function MeshZUnknown14View(): View<MeshZUnknown14> {
    View(MeshZUnknown14Layout, MeshZUnknown14Val, MeshZUnknown14Of, _ => true)
  }

  lemma MeshZUnknown14Faithful(pr: Prims)
    ensures Faithful(pr, MeshZUnknown14View())
  {
    forall x | true ensures Conforms(pr, MeshZUnknown14Layout, MeshZUnknown14Val(x)) && MeshZUnknown14Of(MeshZUnknown14Val(x)) == x {
      MeshZUnknown14Conforms(pr, x);
      MeshZUnknown14OfVal(pr, x);
    }
    forall v | Conforms(pr, MeshZUnknown14Layout, v) ensures MeshZUnknown14Val(MeshZUnknown14Of(v)) == v {
      MeshZUnknown14From(pr, v);
    }
  }

  /** `MeshZUnknown12` (mesh.rs:156-160: 6 bytes). */
  datatype MeshZUnknown12 = MeshZUnknown12(
    u0: u16,
    u1: u32)

  const MeshZUnknown12Layout: Kind :=
    Then(Word(U16), // u0
    Word(U32)) // u1

  function MeshZUnknown12Val(x: MeshZUnknown12): Val {
    Pair(Num(x.u0), // u0
    Num(x.u1)) // u1
  }

  function MeshZUnknown12Of(v: Val): MeshZUnknown12 {
    MeshZUnknown12(
      AsWord(U16, First(v)),
      AsWord(U32, Second(v)))
  }

  lemma MeshZUnknown12Conforms(pr: Prims, x: MeshZUnknown12)
    ensures Conforms(pr, MeshZUnknown12Layout, MeshZUnknown12Val(x))
  {
  }

  lemma MeshZUnknown12OfVal(pr: Prims, x: MeshZUnknown12)
    ensures MeshZUnknown12Of(MeshZUnknown12Val(x)) == x
  {
  }

  lemma MeshZUnknown12From(pr: Prims, v: Val)
    requires Conforms(pr, MeshZUnknown12Layout, v)
    ensures MeshZUnknown12Val(MeshZUnknown12Of(v)) == v
  {
  }

  function MeshZUnknown12View(): View<MeshZUnknown12> {
    View(MeshZUnknown12Layout, MeshZUnknown12Val, MeshZUnknown12Of, _ => true)
  }

  lemma MeshZUnknown12Faithful(pr: Prims)
    ensures Faithful(pr, MeshZUnknown12View())
  {
    forall x | true ensures Conforms(pr, MeshZUnknown12Layout, MeshZUnknown12Val(x)) && MeshZUnknown12Of(MeshZUnknown12Val(x)) == x {
      MeshZUnknown12Conforms(pr, x);
      MeshZUnknown12OfVal(pr, x);
    }
    forall v | Conforms(pr, MeshZUnknown12Layout, v) ensures MeshZUnknown12Val(MeshZUnknown12Of(v)) == v {
      MeshZUnknown12From(pr, v);
    }
  }

  /** The prefixed arrays of a `MeshZ` before its sub-meshes (mesh.rs:165-188). */
  datatype MeshZLead = MeshZLead(
    vecs: PascalArray<Vec3f>,
    unknown0s: PascalArray<MeshZUnknown0>,
    unknown1s: PascalArray<MeshZUnknown1>,
    vertices1: PascalArray<Vec3f>,
    unknown2s: PascalArray<MeshZUnknown2>,
    unknown4s: PascalArray<MeshZUnknown4>,
    materialCrc32s: PascalArray<u32>,
    unknown6s: PascalArray<MeshZUnknown6>,
    unknown7s: PascalArray<MeshZUnknown7>,
    unknown8s: PascalArray<MeshZUnknown6>)

  const MeshZLeadLayout: Kind :=
    Then(Then(Then(Then(Array(Vec3fLayout), // vecs
    Array(MeshZUnknown0Layout)), // unknown0s
    Array(MeshZUnknown1Layout)), // unknown1s
    Then(Array(Vec3fLayout), // vertices1
    Array(MeshZUnknown2Layout))), // unknown2s
    Then(Then(Then(Array(MeshZUnknown4Layout), // unknown4s
    WordArray(U32)), // materialCrc32s
    Array(MeshZUnknown6Layout)), // unknown6s
    Then(Array(MeshZUnknown7Layout), // unknown7s
    Array(MeshZUnknown6Layout)))) // unknown8s

  function MeshZLeadVal(x: MeshZLead): Val {
    Pair(Pair(Pair(Pair(Vals(MapVals(Vec3fVal, x.vecs)), // vecs
    Vals(MapVals(MeshZUnknown0Val, x.unknown0s))), // unknown0s
    Vals(MapVals(MeshZUnknown1Val, x.unknown1s))), // unknown1s
    Pair(Vals(MapVals(Vec3fVal, x.vertices1)), // vertices1
    Vals(MapVals(MeshZUnknown2Val, x.unknown2s)))), // unknown2s
    Pair(Pair(Pair(Vals(MapVals(MeshZUnknown4Val, x.unknown4s)), // unknown4s
    Nums(x.materialCrc32s)), // materialCrc32s
    Vals(MapVals(MeshZUnknown6Val, x.unknown6s))), // unknown6s
    Pair(Vals(MapVals(MeshZUnknown7Val, x.unknown7s)), // unknown7s
    Vals(MapVals(MeshZUnknown6Val, x.unknown8s))))) // unknown8s
  }

  function MeshZLeadOf(v: Val): MeshZLead {
    MeshZLead(
      AsRecords(Vec3fOf, First(First(First(First(v))))),
      AsRecords(MeshZUnknown0Of, Second(First(First(First(v))))),
      AsRecords(MeshZUnknown1Of, Second(First(First(v)))),
      AsRecords(Vec3fOf, First(Second(First(v)))),
      AsRecords(MeshZUnknown2Of, Second(Second(First(v)))),
      AsRecords(MeshZUnknown4Of, First(First(First(Second(v))))),
      AsWordArray(U32, Second(First(First(Second(v))))),
      AsRecords(MeshZUnknown6Of, Second(First(Second(v)))),
      AsRecords(MeshZUnknown7Of, First(Second(Second(v)))),
      AsRecords(MeshZUnknown6Of, Second(Second(Second(v)))))
  }

  // fields `vecs` to `unknown1s`
  lemma MeshZLeadConformsLL(pr: Prims, x: MeshZLead)
    ensures Conforms(pr, MeshZLeadLayout.first.first, First(First(MeshZLeadVal(x))))
  {
    Vec3fFaithful(pr);
    ElementsConform(pr, Vec3fView(), x.vecs);
    MeshZUnknown0Faithful(pr);
    ElementsConform(pr, MeshZUnknown0View(), x.unknown0s);
    MeshZUnknown1Faithful(pr);
    ElementsConform(pr, MeshZUnknown1View(), x.unknown1s);
  }

  // fields `vertices1` to `unknown2s`
  lemma MeshZLeadConformsLR(pr: Prims, x: MeshZLead)
    ensures Conforms(pr, MeshZLeadLayout.first.second, Second(First(MeshZLeadVal(x))))
  {
    Vec3fFaithful(pr);
    ElementsConform(pr, Vec3fView(), x.vertices1);
    MeshZUnknown2Faithful(pr);
    ElementsConform(pr, MeshZUnknown2View(), x.unknown2s);
  }

  // fields `unknown4s` to `unknown6s`
  lemma MeshZLeadConformsRL(pr: Prims, x: MeshZLead)
    ensures Conforms(pr, MeshZLeadLayout.second.first, First(Second(MeshZLeadVal(x))))
  {
    MeshZUnknown4Faithful(pr);
    ElementsConform(pr, MeshZUnknown4View(), x.unknown4s);
    U32sInRange(x.materialCrc32s);
    MeshZUnknown6Faithful(pr);
    ElementsConform(pr, MeshZUnknown6View(), x.unknown6s);
  }

  // fields `unknown7s` to `unknown8s`
  lemma MeshZLeadConformsRR(pr: Prims, x: MeshZLead)
    ensures Conforms(pr, MeshZLeadLayout.second.second, Second(Second(MeshZLeadVal(x))))
  {
    MeshZUnknown7Faithful(pr);
    ElementsConform(pr, MeshZUnknown7View(), x.unknown7s);
    MeshZUnknown6Faithful(pr);
    ElementsConform(pr, MeshZUnknown6View(), x.unknown8s);
  }

  // fields `vecs` to `unknown2s`
  lemma MeshZLeadConformsL(pr: Prims, x: MeshZLead)
    ensures Conforms(pr, MeshZLeadLayout.first, First(MeshZLeadVal(x)))
  {
    MeshZLeadConformsLL(pr, x);
    MeshZLeadConformsLR(pr, x);
  }

  // fields `unknown4s` to `unknown8s`
  lemma MeshZLeadConformsR(pr: Prims, x: MeshZLead)
    ensures Conforms(pr, MeshZLeadLayout.second, Second(MeshZLeadVal(x)))
  {
    MeshZLeadConformsRL(pr, x);
    MeshZLeadConformsRR(pr, x);
  }

  lemma MeshZLeadConforms(pr: Prims, x: MeshZLead)
    ensures Conforms(pr, MeshZLeadLayout, MeshZLeadVal(x))
  {
    MeshZLeadConformsL(pr, x);
    MeshZLeadConformsR(pr, x);
  }

  lemma MeshZLeadOfVal(pr: Prims, x: MeshZLead)
    ensures MeshZLeadOf(MeshZLeadVal(x)) == x
  {
    Vec3fFaithful(pr);
    ElementsOfVal(pr, Vec3fView(), x.vecs);
    MeshZUnknown0Faithful(pr);
    ElementsOfVal(pr, MeshZUnknown0View(), x.unknown0s);
    MeshZUnknown1Faithful(pr);
    ElementsOfVal(pr, MeshZUnknown1View(), x.unknown1s);
    Vec3fFaithful(pr);
    ElementsOfVal(pr, Vec3fView(), x.vertices1);
    MeshZUnknown2Faithful(pr);
    ElementsOfVal(pr, MeshZUnknown2View(), x.unknown2s);
    MeshZUnknown4Faithful(pr);
    ElementsOfVal(pr, MeshZUnknown4View(), x.unknown4s);
    MeshZUnknown6Faithful(pr);
    ElementsOfVal(pr, MeshZUnknown6View(), x.unknown6s);
    MeshZUnknown7Faithful(pr);
    ElementsOfVal(pr, MeshZUnknown7View(), x.unknown7s);
    MeshZUnknown6Faithful(pr);
    ElementsOfVal(pr, MeshZUnknown6View(), x.unknown8s);
  }

  // fields `vecs` to `unknown1s`
  lemma MeshZLeadFromLL(pr: Prims, v: Val)
    requires Conforms(pr, MeshZLeadLayout.first.first, First(First(v)))
    ensures First(First(MeshZLeadVal(MeshZLeadOf(v)))) == First(First(v))
  {
    Vec3fFaithful(pr);
    ElementsFrom(pr, Vec3fView(), First(First(First(First(v)))));
    MeshZUnknown0Faithful(pr);
    ElementsFrom(pr, MeshZUnknown0View(), Second(First(First(First(v)))));
    MeshZUnknown1Faithful(pr);
    ElementsFrom(pr, MeshZUnknown1View(), Second(First(First(v))));
  }

  // fields `vertices1` to `unknown2s`
  lemma MeshZLeadFromLR(pr: Prims, v: Val)
    requires Conforms(pr, MeshZLeadLayout.first.second, Second(First(v)))
    ensures Second(First(MeshZLeadVal(MeshZLeadOf(v)))) == Second(First(v))
  {
    Vec3fFaithful(pr);
    ElementsFrom(pr, Vec3fView(), First(Second(First(v))));
    MeshZUnknown2Faithful(pr);
    ElementsFrom(pr, MeshZUnknown2View(), Second(Second(First(v))));
  }

  // fields `unknown4s` to `unknown6s`
  lemma MeshZLeadFromRL(pr: Prims, v: Val)
    requires Conforms(pr, MeshZLeadLayout.second.first, First(Second(v)))
    ensures First(Second(MeshZLeadVal(MeshZLeadOf(v)))) == First(Second(v))
  {
    MeshZUnknown4Faithful(pr);
    ElementsFrom(pr, MeshZUnknown4View(), First(First(First(Second(v)))));
    MeshZUnknown6Faithful(pr);
    ElementsFrom(pr, MeshZUnknown6View(), Second(First(Second(v))));
  }

  // fields `unknown7s` to `unknown8s`
  lemma MeshZLeadFromRR(pr: Prims, v: Val)
    requires Conforms(pr, MeshZLeadLayout.second.second, Second(Second(v)))
    ensures Second(Second(MeshZLeadVal(MeshZLeadOf(v)))) == Second(Second(v))
  {
    MeshZUnknown7Faithful(pr);
    ElementsFrom(pr, MeshZUnknown7View(), First(Second(Second(v))));
    MeshZUnknown6Faithful(pr);
    ElementsFrom(pr, MeshZUnknown6View(), Second(Second(Second(v))));
  }

  // fields `vecs` to `unknown2s`
  lemma MeshZLeadFromL(pr: Prims, v: Val)
    requires Conforms(pr, MeshZLeadLayout.first, First(v))
    ensures First(MeshZLeadVal(MeshZLeadOf(v))) == First(v)
  {
    MeshZLeadFromLL(pr, v);
    MeshZLeadFromLR(pr, v);
  }

  // fields `unknown4s` to `unknown8s`
  lemma MeshZLeadFromR(pr: Prims, v: Val)
    requires Conforms(pr, MeshZLeadLayout.second, Second(v))
    ensures Second(MeshZLeadVal(MeshZLeadOf(v))) == Second(v)
  {
    MeshZLeadFromRL(pr, v);
    MeshZLeadFromRR(pr, v);
  }

  lemma MeshZLeadFrom(pr: Prims, v: Val)
    requires Conforms(pr, MeshZLeadLayout, v)
    ensures MeshZLeadVal(MeshZLeadOf(v)) == v
  {
    MeshZLeadFromL(pr, v);
    MeshZLeadFromR(pr, v);
  }

  function MeshZLeadView(): View<MeshZLead> {
    View(MeshZLeadLayout, MeshZLeadVal, MeshZLeadOf, _ => true)
  }

  lemma MeshZLeadFaithful(pr: Prims)
    ensures Faithful(pr, MeshZLeadView())
  {
    forall x | true ensures Conforms(pr, MeshZLeadLayout, MeshZLeadVal(x)) && MeshZLeadOf(MeshZLeadVal(x)) == x {
      MeshZLeadConforms(pr, x);
      MeshZLeadOfVal(pr, x);
    }
    forall v | Conforms(pr, MeshZLeadLayout, v) ensures MeshZLeadVal(MeshZLeadOf(v)) == v {
      MeshZLeadFrom(pr, v);
    }
  }

  /** The prefixed arrays of a `MeshZ` after its index lists (mesh.rs:193-206). */
  datatype MeshZTail = MeshZTail(
    unknown11s: PascalArray<MeshZUnknown11>,
    unknown13s: PascalArray<MeshZUnknown13>,
    unknown16s: PascalArray<MeshZUnknown16>,
    pairs: PascalArray<MeshZPair>,
    unknown18s: PascalArray<u16>,
    unknown14s: PascalArray<MeshZUnknown14>,
    unknown12s: PascalArray<MeshZUnknown12>)

  const MeshZTailLayout: Kind :=
    Then(Then(Then(Array(MeshZUnknown11Layout), // unknown11s
    Array(MeshZUnknown13Layout)), // unknown13s
    Then(Array(MeshZUnknown16Layout), // unknown16s
    Array(MeshZPairLayout))), // pairs
    Then(Then(WordArray(U16), // unknown18s
    Array(MeshZUnknown14Layout)), // unknown14s
    Array(MeshZUnknown12Layout))) // unknown12s

  function MeshZTailVal(x: MeshZTail): Val {
    Pair(Pair(Pair(Vals(MapVals(MeshZUnknown11Val, x.unknown11s)), // unknown11s
    Vals(MapVals(MeshZUnknown13Val, x.unknown13s))), // unknown13s
    Pair(Vals(MapVals(MeshZUnknown16Val, x.unknown16s)), // unknown16s
    Vals(MapVals(MeshZPairVal, x.pairs)))), // pairs
    Pair(Pair(Nums(x.unknown18s), // unknown18s
    Vals(MapVals(MeshZUnknown14Val, x.unknown14s))), // unknown14s
    Vals(MapVals(MeshZUnknown12Val, x.unknown12s)))) // unknown12s
  }

  function MeshZTailOf(v: Val): MeshZTail {
    MeshZTail(
      AsRecords(MeshZUnknown11Of, First(First(First(v)))),
      AsRecords(MeshZUnknown13Of, Second(First(First(v)))),
      AsRecords(MeshZUnknown16Of, First(Second(First(v)))),
      AsRecords(MeshZPairOf, Second(Second(First(v)))),
      AsWordArray(U16, First(First(Second(v)))),
      AsRecords(MeshZUnknown14Of, Second(First(Second(v)))),
      AsRecords(MeshZUnknown12Of, Second(Second(v))))
  }

  // fields `unknown11s` to `pairs`
  lemma MeshZTailConformsL(pr: Prims, x: MeshZTail)
    ensures Conforms(pr, MeshZTailLayout.first, First(MeshZTailVal(x)))
  {
    MeshZUnknown11Faithful(pr);
    ElementsConform(pr, MeshZUnknown11View(), x.unknown11s);
    MeshZUnknown13Faithful(pr);
    ElementsConform(pr, MeshZUnknown13View(), x.unknown13s);
    MeshZUnknown16Faithful(pr);
    ElementsConform(pr, MeshZUnknown16View(), x.unknown16s);
    MeshZPairFaithful(pr);
    ElementsConform(pr, MeshZPairView(), x.pairs);
  }

  // fields `unknown18s` to `unknown12s`
  lemma MeshZTailConformsR(pr: Prims, x: MeshZTail)
    ensures Conforms(pr, MeshZTailLayout.second, Second(MeshZTailVal(x)))
  {
    U16sInRange(x.unknown18s);
    MeshZUnknown14Faithful(pr);
    ElementsConform(pr, MeshZUnknown14View(), x.unknown14s);
    MeshZUnknown12Faithful(pr);
    ElementsConform(pr, MeshZUnknown12View(), x.unknown12s);
  }

  lemma MeshZTailConforms(pr: Prims, x: MeshZTail)
    ensures Conforms(pr, MeshZTailLayout, MeshZTailVal(x))
  {
    MeshZTailConformsL(pr, x);
    MeshZTailConformsR(pr, x);
  }

  lemma MeshZTailOfVal(pr: Prims, x: MeshZTail)
    ensures MeshZTailOf(MeshZTailVal(x)) == x
  {
    MeshZUnknown11Faithful(pr);
    ElementsOfVal(pr, MeshZUnknown11View(), x.unknown11s);
    MeshZUnknown13Faithful(pr);
    ElementsOfVal(pr, MeshZUnknown13View(), x.unknown13s);
    MeshZUnknown16Faithful(pr);
    ElementsOfVal(pr, MeshZUnknown16View(), x.unknown16s);
    MeshZPairFaithful(pr);
    ElementsOfVal(pr, MeshZPairView(), x.pairs);
    MeshZUnknown14Faithful(pr);
    ElementsOfVal(pr, MeshZUnknown14View(), x.unknown14s);
    MeshZUnknown12Faithful(pr);
    ElementsOfVal(pr, MeshZUnknown12View(), x.unknown12s);
  }

  // fields `unknown11s` to `pairs`
  lemma MeshZTailFromL(pr: Prims, v: Val)
    requires Conforms(pr, MeshZTailLayout.first, First(v))
    ensures First(MeshZTailVal(MeshZTailOf(v))) == First(v)
  {
    MeshZUnknown11Faithful(pr);
    ElementsFrom(pr, MeshZUnknown11View(), First(First(First(v))));
    MeshZUnknown13Faithful(pr);
    ElementsFrom(pr, MeshZUnknown13View(), Second(First(First(v))));
    MeshZUnknown16Faithful(pr);
    ElementsFrom(pr, MeshZUnknown16View(), First(Second(First(v))));
    MeshZPairFaithful(pr);
    ElementsFrom(pr, MeshZPairView(), Second(Second(First(v))));
  }

  // fields `unknown18s` to `unknown12s`
  lemma MeshZTailFromR(pr: Prims, v: Val)
    requires Conforms(pr, MeshZTailLayout.second, Second(v))
    ensures Second(MeshZTailVal(MeshZTailOf(v))) == Second(v)
  {
    MeshZUnknown14Faithful(pr);
    ElementsFrom(pr, MeshZUnknown14View(), Second(First(Second(v))));
    MeshZUnknown12Faithful(pr);
    ElementsFrom(pr, MeshZUnknown12View(), Second(Second(v)));
  }

  lemma MeshZTailFrom(pr: Prims, v: Val)
    requires Conforms(pr, MeshZTailLayout, v)
    ensures MeshZTailVal(MeshZTailOf(v)) == v
  {
    MeshZTailFromL(pr, v);
    MeshZTailFromR(pr, v);
  }

  function MeshZTailView(): View<MeshZTail> {
    View(MeshZTailLayout, MeshZTailVal, MeshZTailOf, _ => true)
  }

  lemma MeshZTailFaithful(pr: Prims)
    ensures Faithful(pr, MeshZTailView())
  {
    forall x | true ensures Conforms(pr, MeshZTailLayout, MeshZTailVal(x)) && MeshZTailOf(MeshZTailVal(x)) == x {
      MeshZTailConforms(pr, x);
      MeshZTailOfVal(pr, x);
    }
    forall v | Conforms(pr, MeshZTailLayout, v) ensures MeshZTailVal(MeshZTailOf(v)) == v {
      MeshZTailFrom(pr, v);
    }
  }

  /**
   * The fixed-size records have no padding: 16, 40, 60, 28, 4 and 6 bytes for
   * `MeshZUnknown0`, `MeshZUnknown6`, `MeshZUnknown11`, `MeshZUnknown13Unknown1`,
   * `MeshZPair` and `MeshZUnknown12` (a u16 then a u32).
   */
  lemma MeshZRecordWidths()
    ensures Width(MeshZUnknown0Layout) == Some(16)
    ensures Width(MeshZUnknown6Layout) == Some(40)
    ensures Width(MeshZUnknown11Layout) == Some(60)
    ensures Width(MeshZUnknown13Unknown1Layout) == Some(28)
    ensures Width(MeshZPairLayout) == Some(4)
    ensures Width(MeshZUnknown12Layout) == Some(6)
  {
  }

  // ---------------------------------------------------------------------
  // Sub-meshes: the vertex count and size fix the length of the vertex data.

  /** `MeshZSubMesh` (mesh.rs:61-68): the stored count and size, a group hash and the raw vertex bytes. */
  datatype MeshZSubMesh = MeshZSubMesh(vertexCount: u32, vertexSize: u32, vertexGroupCrc32: u32, data: seq<u8>)

  /** `vertex_count as usize * vertex_size as usize`: the product of two u32 never overflows a 64-bit `usize`. */
  function VertexBytes(count: u32, size: u32): (n: nat)
    ensures n == count as int * size as int
  {
    count * size
  }

  /** `#[nom(Count(..))]` of `VertexBytes` bytes after the hash. */
  function ParseSubMesh(s: seq<u8>): Result<(MeshZSubMesh, seq<u8>)> {
    var count :- ParseU32(s);
    var size :- ParseU32(count.1);
    var group :- ParseU32(size.1);
    var n := VertexBytes(count.0, size.0);
    var bs :- ParseWords(U8, n, group.1);
    Ok((MeshZSubMesh(count.0, size.0, group.0, AsWords(U8, n, Nums(bs.0))), bs.1))
  }

  /** The stored count and size are written as they are, then the bytes. */
  function EmitSubMesh(x: MeshZSubMesh, tail: seq<u8>): seq<u8> {
    EmitU32(x.vertexCount, EmitU32(x.vertexSize, EmitU32(x.vertexGroupCrc32, EmitWords(U8, x.data, tail))))
  }

  /** The vertex data is exactly `vertex_count * vertex_size` bytes. */
  predicate WfSubMesh(x: MeshZSubMesh) {
    |x.data| == x.vertexCount as int * x.vertexSize as int
  }

  lemma SubMeshRecovers(x: MeshZSubMesh, t: seq<u8>)
    requires WfSubMesh(x)
    ensures ParseSubMesh(EmitSubMesh(x, t)) == Ok((x, t))
  {
    var r3 := EmitWords(U8, x.data, t);
    U8sInRange(x.data);
    WordsRecover(U8, x.data, t);
    U32Recovers(x.vertexGroupCrc32, r3);
    U32Recovers(x.vertexSize, EmitU32(x.vertexGroupCrc32, r3));
    U32Recovers(x.vertexCount, EmitU32(x.vertexSize, EmitU32(x.vertexGroupCrc32, r3)));
  }

  /** A sub-mesh that parses is consistent, takes `12 + vertex_count * vertex_size` bytes and re-emits to its input. */
  lemma SubMeshAccounts(s: seq<u8>)
    requires ParseSubMesh(s).Ok?
    ensures var x, r := ParseSubMesh(s).value.0, ParseSubMesh(s).value.1;
      && WfSubMesh(x) && EmitSubMesh(x, r) == s
      && |s| == 12 + x.vertexCount as int * x.vertexSize as int + |r|
  {
    U32Accounts(s);
    U32Accounts(s[4..]);
    U32Accounts(s[8..]);
    assert s[4..][4..] == s[8..] && s[8..][4..] == s[12..];
    var x := ParseSubMesh(s).value.0;
    var n := VertexBytes(x.vertexCount, x.vertexSize);
    WordsAccount(U8, n, s[12..]);
    var w := ParseWords(U8, n, s[12..]).value;
    WordsLength(U8, w.0, w.1);
  }

  /** A sub-mesh whose stored count and size disagree with its bytes does not come back as itself. */
  lemma SubMeshCountVerbatim(x: MeshZSubMesh, t: seq<u8>)
    requires !WfSubMesh(x)
    ensures ParseSubMesh(EmitSubMesh(x, t)) != Ok((x, t))
  {
    var r3 := EmitWords(U8, x.data, t);
    U32Recovers(x.vertexGroupCrc32, r3);
    U32Recovers(x.vertexSize, EmitU32(x.vertexGroupCrc32, r3));
    U32Recovers(x.vertexCount, EmitU32(x.vertexSize, EmitU32(x.vertexGroupCrc32, r3)));
  }

  lemma SubMeshAppends(x: MeshZSubMesh, t: seq<u8>)
    ensures EmitSubMesh(x, t) == EmitSubMesh(x, []) + t
  {
    WordsAppend(U8, x.data, t);
  }

  // ---------------------------------------------------------------------
  // Index lists: the count precedes the indices.

  /** `MeshZIndices` (mesh.rs:70-77): the stored count, a group hash and the indices. */
  datatype MeshZIndices = MeshZIndices(indexCount: u32, vertexGroupCrc32: u32, data: seq<u16>)

  /** `#[nom(Count(index_count))]`: exactly `index_count` u16 after the hash. */
  function ParseIndices(s: seq<u8>): Result<(MeshZIndices, seq<u8>)> {
    var count :- ParseU32(s);
    var group :- ParseU32(count.1);
    var xs :- ParseWords(U16, count.0, group.1);
    Ok((MeshZIndices(count.0, group.0, AsWords(U16, count.0, Nums(xs.0))), xs.1))
  }

  function EmitIndices(x: MeshZIndices, tail: seq<u8>): seq<u8> {
    EmitU32(x.indexCount, EmitU32(x.vertexGroupCrc32, EmitWords(U16, x.data, tail)))
  }

  predicate WfIndices(x: MeshZIndices) {
    x.indexCount as int == |x.data|
  }

  lemma IndicesRecovers(x: MeshZIndices, t: seq<u8>)
    requires WfIndices(x)
    ensures ParseIndices(EmitIndices(x, t)) == Ok((x, t))
  {
    var r2 := EmitWords(U16, x.data, t);
    U16sInRange(x.data);
    WordsRecover(U16, x.data, t);
    U32Recovers(x.vertexGroupCrc32, r2);
    U32Recovers(x.indexCount, EmitU32(x.vertexGroupCrc32, r2));
  }

  /** An index list that parses holds `index_count` indices, takes `8 + 2 * index_count` bytes and re-emits to its input. */
  lemma IndicesAccounts(s: seq<u8>)
    requires ParseIndices(s).Ok?
    ensures var x, r := ParseIndices(s).value.0, ParseIndices(s).value.1;
      && WfIndices(x) && EmitIndices(x, r) == s
      && |s| == 8 + 2 * x.indexCount as int + |r|
  {
    U32Accounts(s);
    U32Accounts(s[4..]);
    assert s[4..][4..] == s[8..];
    var x := ParseIndices(s).value.0;
    WordsAccount(U16, x.indexCount as int, s[8..]);
    var w := ParseWords(U16, x.indexCount as int, s[8..]).value;
    WordsLength(U16, w.0, w.1);
  }

  lemma IndicesAppends(x: MeshZIndices, t: seq<u8>)
    ensures EmitIndices(x, t) == EmitIndices(x, []) + t
  {
    WordsAppend(U16, x.data, t);
  }

  // ---------------------------------------------------------------------
  // The mesh body.

  /** A `MeshZ` (mesh.rs:162-207), fields in declared order: those before the sub-meshes, the two dependent arrays, and those after. */
  datatype MeshZ = MeshZ(lead: MeshZLead, subMeshes: PascalArray<MeshZSubMesh>, indices: PascalArray<MeshZIndices>, tail: MeshZTail)

  function ParseMeshZ(s: seq<u8>): Result<(MeshZ, seq<u8>)> {
    var a :- Parse(NoPrims, MeshZLeadLayout, s);
    var n :- ParseU32(a.1);
    var sm :- ParseRun(ParseSubMesh, n.0, n.1);
    var m :- ParseU32(sm.1);
    var ix :- ParseRun(ParseIndices, m.0, m.1);
    var z :- Parse(NoPrims, MeshZTailLayout, ix.1);
    Ok((MeshZ(MeshZLeadOf(a.0), sm.0, ix.0, MeshZTailOf(z.0)), z.1))
  }

  /** The two dependent arrays and what follows them, in front of `tail`. */
  function EmitMeshZParts(x: MeshZ, tail: seq<u8>): seq<u8> {
    EmitU32(|x.subMeshes|, EmitRun(EmitSubMesh, x.subMeshes,
      EmitU32(|x.indices|, EmitRun(EmitIndices, x.indices, Emit(MeshZTailLayout, MeshZTailVal(x.tail), tail)))))
  }

  /** The reference layout encoder: the body has no writer of its own. */
  function EmitMeshZ(x: MeshZ, tail: seq<u8>): seq<u8> {
    Emit(MeshZLeadLayout, MeshZLeadVal(x.lead), EmitMeshZParts(x, tail))
  }

  /** Every sub-mesh and index list agrees with its stored counts. */
  predicate WfMeshZ(x: MeshZ) {
    && (forall i | 0 <= i < |x.subMeshes| :: WfSubMesh(x.subMeshes[i]))
    && (forall i | 0 <= i < |x.indices| :: WfIndices(x.indices[i]))
  }

  lemma MeshZPartsRecover(x: MeshZ, t: seq<u8>)
    requires WfMeshZ(x)
    ensures var r := Emit(MeshZTailLayout, MeshZTailVal(x.tail), t);
      ParseU32(EmitMeshZParts(x, t)).Ok? &&
      var n := ParseU32(EmitMeshZParts(x, t)).value;
      && n.0 as int == |x.subMeshes|
      && ParseRun(ParseSubMesh, n.0, n.1) == Ok((x.subMeshes, EmitU32(|x.indices|, EmitRun(EmitIndices, x.indices, r))))
      && ParseU32(EmitU32(|x.indices|, EmitRun(EmitIndices, x.indices, r))) == Ok((|x.indices|, EmitRun(EmitIndices, x.indices, r)))
      && ParseRun(ParseIndices, |x.indices|, EmitRun(EmitIndices, x.indices, r)) == Ok((x.indices, r))
  {
    var r := Emit(MeshZTailLayout, MeshZTailVal(x.tail), t);
    forall i, t' | 0 <= i < |x.indices| ensures ParseIndices(EmitIndices(x.indices[i], t')) == Ok((x.indices[i], t')) {
      IndicesRecovers(x.indices[i], t');
    }
    RunRecovers(ParseIndices, EmitIndices, x.indices, r);
    var r2 := EmitRun(EmitIndices, x.indices, r);
    U32Recovers(|x.indices|, r2);
    var r1 := EmitU32(|x.indices|, r2);
    forall i, t' | 0 <= i < |x.subMeshes| ensures ParseSubMesh(EmitSubMesh(x.subMeshes[i], t')) == Ok((x.subMeshes[i], t')) {
      SubMeshRecovers(x.subMeshes[i], t');
    }
    RunRecovers(ParseSubMesh, EmitSubMesh, x.subMeshes, r1);
    U32Recovers(|x.subMeshes|, EmitRun(EmitSubMesh, x.subMeshes, r1));
  }

  /** A mesh whose sub-meshes and index lists are consistent decodes from its own encoding, whatever follows it. */
  lemma MeshZRecovers(x: MeshZ, t: seq<u8>)
    requires WfMeshZ(x)
    ensures ParseMeshZ(EmitMeshZ(x, t)) == Ok((x, t))
  {
    MeshZPartsRecover(x, t);
    MeshZTailRecovers(x.tail, t);
    MeshZLeadRecovers(x.lead, EmitMeshZParts(x, t));
  }

  lemma MeshZLeadRecovers(l: MeshZLead, t: seq<u8>)
    ensures Parse(NoPrims, MeshZLeadLayout, Emit(MeshZLeadLayout, MeshZLeadVal(l), t)) == Ok((MeshZLeadVal(l), t))
    ensures MeshZLeadOf(MeshZLeadVal(l)) == l
  {
    NoPrimsLawful();
    MeshZLeadConforms(NoPrims, l);
    Recover(NoPrims, MeshZLeadLayout, MeshZLeadVal(l), t);
    MeshZLeadOfVal(NoPrims, l);
  }

  lemma MeshZTailRecovers(z: MeshZTail, t: seq<u8>)
    ensures Parse(NoPrims, MeshZTailLayout, Emit(MeshZTailLayout, MeshZTailVal(z), t)) == Ok((MeshZTailVal(z), t))
    ensures MeshZTailOf(MeshZTailVal(z)) == z
  {
    NoPrimsLawful();
    MeshZTailConforms(NoPrims, z);
    Recover(NoPrims, MeshZTailLayout, MeshZTailVal(z), t);
    MeshZTailOfVal(NoPrims, z);
  }

  lemma SubMeshesAccount(s: seq<u8>)
    requires ParseU32(s).Ok? && ParseRun(ParseSubMesh, ParseU32(s).value.0, ParseU32(s).value.1).Ok?
    ensures var n := ParseU32(s).value; var sm := ParseRun(ParseSubMesh, n.0, n.1).value;
      && (forall i | 0 <= i < |sm.0| :: WfSubMesh(sm.0[i]))
      && EmitU32(|sm.0|, EmitRun(EmitSubMesh, sm.0, sm.1)) == s
  {
    var n := ParseU32(s).value;
    U32Accounts(s);
    RunAccounts(ParseSubMesh, EmitSubMesh, WfSubMesh, n.0, n.1) by {
      forall s' | ParseSubMesh(s').Ok? ensures WfSubMesh(ParseSubMesh(s').value.0) && EmitSubMesh(ParseSubMesh(s').value.0, ParseSubMesh(s').value.1) == s' {
        SubMeshAccounts(s');
      }
    }
  }

  lemma IndexListsAccount(s: seq<u8>)
    requires ParseU32(s).Ok? && ParseRun(ParseIndices, ParseU32(s).value.0, ParseU32(s).value.1).Ok?
    ensures var n := ParseU32(s).value; var ix := ParseRun(ParseIndices, n.0, n.1).value;
      && (forall i | 0 <= i < |ix.0| :: WfIndices(ix.0[i]))
      && EmitU32(|ix.0|, EmitRun(EmitIndices, ix.0, ix.1)) == s
  {
    var n := ParseU32(s).value;
    U32Accounts(s);
    RunAccounts(ParseIndices, EmitIndices, WfIndices, n.0, n.1) by {
      forall s' | ParseIndices(s').Ok? ensures WfIndices(ParseIndices(s').value.0) && EmitIndices(ParseIndices(s').value.0, ParseIndices(s').value.1) == s' {
        IndicesAccounts(s');
      }
    }
  }

  /** A mesh that parses is consistent and re-emits, in front of what is left, to its input. */
  lemma MeshZAccounts(s: seq<u8>)
    requires ParseMeshZ(s).Ok?
    ensures WfMeshZ(ParseMeshZ(s).value.0) && EmitMeshZ(ParseMeshZ(s).value.0, ParseMeshZ(s).value.1) == s
  {
    NoPrimsLawful();
    MeshZLeadFaithful(NoPrims);
    MeshZTailFaithful(NoPrims);
    Account(NoPrims, MeshZLeadLayout, s);
    var a := Parse(NoPrims, MeshZLeadLayout, s).value;
    var n := ParseU32(a.1).value;
    SubMeshesAccount(a.1);
    var sm := ParseRun(ParseSubMesh, n.0, n.1).value;
    IndexListsAccount(sm.1);
    var m := ParseU32(sm.1).value;
    var ix := ParseRun(ParseIndices, m.0, m.1).value;
    Account(NoPrims, MeshZTailLayout, ix.1);
    var z := Parse(NoPrims, MeshZTailLayout, ix.1).value;
    MeshZLeadFrom(NoPrims, a.0);
    MeshZTailFrom(NoPrims, z.0);
  }

  lemma SubMeshRunAppends(xs: seq<MeshZSubMesh>, t: seq<u8>)
    ensures EmitRun(EmitSubMesh, xs, t) == EmitRun(EmitSubMesh, xs, []) + t
  {
    forall i, t' | 0 <= i < |xs| ensures EmitSubMesh(xs[i], t') == EmitSubMesh(xs[i], []) + t' {
      SubMeshAppends(xs[i], t');
    }
    RunAppends(EmitSubMesh, xs, t);
  }

  lemma IndicesRunAppends(xs: seq<MeshZIndices>, t: seq<u8>)
    ensures EmitRun(EmitIndices, xs, t) == EmitRun(EmitIndices, xs, []) + t
  {
    forall i, t' | 0 <= i < |xs| ensures EmitIndices(xs[i], t') == EmitIndices(xs[i], []) + t' {
      IndicesAppends(xs[i], t');
    }
    RunAppends(EmitIndices, xs, t);
  }

  /** `Emit` moves a common tail out, whatever the layout. */
  lemma EmitAppendsOver(k: Kind, v: Val, a: seq<u8>, b: seq<u8>, t: seq<u8>)
    requires a == b + t
    ensures Emit(k, v, a) == Emit(k, v, b) + t
  {
    EmitAppends(k, v, a);
    EmitAppends(k, v, b);
  }

  lemma U32Appends(n: u32, a: seq<u8>, t: seq<u8>)
    ensures EmitU32(n, a + t) == EmitU32(n, a) + t
  {
  }

  lemma IndicesPartAppends(xs: seq<MeshZIndices>, r0: seq<u8>, t: seq<u8>)
    requires |xs| < 0x1_0000_0000
    ensures EmitU32(|xs|, EmitRun(EmitIndices, xs, r0 + t)) == EmitU32(|xs|, EmitRun(EmitIndices, xs, r0)) + t
  {
    IndicesRunAppends(xs, r0 + t);
    IndicesRunAppends(xs, r0);
    assert EmitRun(EmitIndices, xs, r0 + t) == EmitRun(EmitIndices, xs, r0) + t;
    U32Appends(|xs|, EmitRun(EmitIndices, xs, r0), t);
  }

  lemma SubMeshPartAppends(xs: seq<MeshZSubMesh>, r0: seq<u8>, t: seq<u8>)
    requires |xs| < 0x1_0000_0000
    ensures EmitU32(|xs|, EmitRun(EmitSubMesh, xs, r0 + t)) == EmitU32(|xs|, EmitRun(EmitSubMesh, xs, r0)) + t
  {
    SubMeshRunAppends(xs, r0 + t);
    SubMeshRunAppends(xs, r0);
    assert EmitRun(EmitSubMesh, xs, r0 + t) == EmitRun(EmitSubMesh, xs, r0) + t;
    U32Appends(|xs|, EmitRun(EmitSubMesh, xs, r0), t);
  }

  lemma MeshZPartsAppend(x: MeshZ, t: seq<u8>)
    ensures EmitMeshZParts(x, t) == EmitMeshZParts(x, []) + t
  {
    var tl := MeshZTailVal(x.tail);
    var r0 := Emit(MeshZTailLayout, tl, []);
    EmitAppendsOver(MeshZTailLayout, tl, t, [], t);
    IndicesPartAppends(x.indices, r0, t);
    var i0 := EmitU32(|x.indices|, EmitRun(EmitIndices, x.indices, r0));
    SubMeshPartAppends(x.subMeshes, i0, t);
  }

  lemma MeshZAppends(x: MeshZ, t: seq<u8>)
    ensures EmitMeshZ(x, t) == EmitMeshZ(x, []) + t
  {
    MeshZPartsAppend(x, t);
    EmitAppendsOver(MeshZLeadLayout, MeshZLeadVal(x.lead), EmitMeshZParts(x, t), EmitMeshZParts(x, []), t);
  }

  /** `#[nom(Exact)]`: the whole body is one `MeshZ`. */
  function MeshZSchema(): Schema<MeshZ> {
    Schema(s => Exact(ParseMeshZ(s)), x => EmitMeshZ(x, []), WfMeshZ, true)
  }

  lemma MeshZSchemaLawful()
    ensures LawfulSchema(MeshZSchema())
  {
    forall x | WfMeshZ(x) ensures Exact(ParseMeshZ(EmitMeshZ(x, []))) == Ok(x) {
      MeshZRecovers(x, []);
    }
    forall s | Exact(ParseMeshZ(s)).Ok?
      ensures WfMeshZ(ParseMeshZ(s).value.0) && EmitMeshZ(ParseMeshZ(s).value.0, []) == s
    {
      MeshZAccounts(s);
    }
  }

  /** The body is exact: a consistent mesh decodes from its encoding, and from nothing longer. */
  lemma MeshZTrailing(x: MeshZ, t: seq<u8>)
    requires WfMeshZ(x)
    ensures MeshZSchema().decode(MeshZSchema().encode(x) + t) == if t == [] then Ok(x) else Err(TrailingBytes)
  {
    MeshZAppends(x, t);
    MeshZRecovers(x, t);
  }

  /**
   * `fuel_fmt_extract_mesh_z` without the JSON output: the `ObjectZ` header,
   * then the body; either failure aborts. An extracted mesh has consistent
   * sub-meshes and index lists and re-encodes to the whole body.
   */
  function ExtractMesh(h: OpaqueHeader, header: seq<u8>, data: seq<u8>): (r: Result<(seq<u8>, MeshZ)>)
    ensures r.Ok? <==> h.decode(header).Ok? && MeshZSchema().decode(data).Ok?
    ensures r.Ok? ==> r.value.1 == MeshZSchema().decode(data).value
    ensures r.Ok? ==> WfMeshZ(r.value.1) && EmitMeshZ(r.value.1, []) == data
  {
    var r := Extract(h, MeshZSchema(), header, data);
    if r.Ok? then MeshZSchemaLawful(); r else r
  }

}
