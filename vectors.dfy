/**
 * Views of the scalar vectors that appear as elements of runs and arrays:
 * each vector is one record of a fixed run of scalars (or, for nested
 * arrays, of a u32-count-prefixed run).
 */
module Vectors {
  import opened Bytes
  import opened Codec
  import opened Schemas

  const ZeroVec2f: Vec2f := [0, 0]
  const ZeroVec3f: Vec3f := [0, 0, 0]

  const Vec2fLayout: Kind := Words(F32, 2)
  function Vec2fVal(x: Vec2f): Val { Nums(x) }
  function Vec2fOf(v: Val): Vec2f { AsWords(F32, 2, v) }
  function Vec2fView(): View<Vec2f> { View(Vec2fLayout, Vec2fVal, Vec2fOf, _ => true) }

  lemma Vec2fFaithful(pr: Prims)
    ensures Faithful(pr, Vec2fView())
  {
  }

  const Vec3fLayout: Kind := Words(F32, 3)
  function Vec3fVal(x: Vec3f): Val { Nums(x) }
  function Vec3fOf(v: Val): Vec3f { AsWords(F32, 3, v) }
  function Vec3fView(): View<Vec3f> { View(Vec3fLayout, Vec3fVal, Vec3fOf, _ => true) }

  lemma Vec3fFaithful(pr: Prims)
    ensures Faithful(pr, Vec3fView())
  {
  }

  /** `Vec3<i16>`: a vertex position of a mesh. */
  type Vec3i16 = v: seq<i16> | |v| == 3 witness [0, 0, 0]

  const Vec3i16Layout: Kind := Words(I16, 3)
  function Vec3i16Val(x: Vec3i16): Val { Nums(x) }
  function Vec3i16Of(v: Val): Vec3i16 { AsWords(I16, 3, v) }
  function Vec3i16View(): View<Vec3i16> { View(Vec3i16Layout, Vec3i16Val, Vec3i16Of, _ => true) }

  lemma Vec3i16Faithful(pr: Prims)
    ensures Faithful(pr, Vec3i16View())
  {
  }

  /** An element of a nested array: itself a `PascalArray<u32>`. */
  type U32Array = PascalArray<u32>

  const U32ArrayLayout: Kind := WordArray(U32)
  function U32ArrayVal(x: U32Array): Val { Nums(x) }
  function U32ArrayOf(v: Val): U32Array { AsWordArray(U32, v) }
  function U32ArrayView(): View<U32Array> { View(U32ArrayLayout, U32ArrayVal, U32ArrayOf, _ => true) }

  lemma U32ArrayFaithful(pr: Prims)
    ensures Faithful(pr, U32ArrayView())
  {
  }
}
