/**
 * The field layouts that the derive attributes of every object schema
 * describe, and one interpreter for them.
 *
 * A layout is a `Kind`: a scalar, a fixed run of scalars (`FixedVec<T, N>`,
 * `Count(n)`, `Vec3f`, `Mat4f`), a u32-count-prefixed array of scalars
 * (`PascalArray<T>`, `LengthCount(le_u32)`), an opaque primitive, a fixed run
 * or a prefixed array of records, or a record: its fields in declared order.
 * A decoded value is a `Val` of the matching shape. `Parse` reads a layout
 * from the front of a buffer and returns the value with the input left over;
 * `Emit` writes a value in front of a given tail.
 *
 * The interpreter obeys two laws, proved once for every layout:
 *   Recover: decoding what `Emit` wrote in front of any tail gives the value
 *            back and leaves the tail;
 *   Account: whenever decoding succeeds, re-emitting the value in front of
 *            the left-over input rebuilds the input exactly.
 */
module Codec {
  import opened Bytes

  // ---------------------------------------------------------------------
  // Scalars.

  /** The scalar field types; an f32 is carried as its 32-bit pattern. */
  datatype Scalar = U8 | U16 | U32 | I16 | I32 | F32

  /** Bytes per scalar. */
  function Size(w: Scalar): nat {
    match w
    case U8 => 1
    case U16 | I16 => 2
    case U32 | I32 | F32 => 4
  }

  predicate InRange(w: Scalar, n: int) {
    match w
    case U8 => 0 <= n < 0x100
    case U16 => 0 <= n < 0x1_0000
    case U32 | F32 => 0 <= n < 0x1_0000_0000
    case I16 => -0x8000 <= n < 0x8000
    case I32 => -0x8000_0000 <= n < 0x8000_0000
  }

  /** A little-endian scalar; a signed one is read in two's complement. */
  function ParseWord(w: Scalar, s: seq<u8>): Result<(int, seq<u8>)> {
    match w
    case U8 => var x :- ParseU8(s); Ok((x.0 as int, x.1))
    case U16 => var x :- ParseU16(s); Ok((x.0 as int, x.1))
    case U32 | F32 => var x :- ParseU32(s); Ok((x.0 as int, x.1))
    case I16 => var x :- ParseU16(s); Ok((if x.0 < 0x8000 then x.0 else x.0 - 0x1_0000, x.1))
    case I32 => var x :- ParseU32(s); Ok((if x.0 < 0x8000_0000 then x.0 else x.0 - 0x1_0000_0000, x.1))
  }

  /**
   * `n` as the little-endian bytes of a scalar of type `w`, in front of
   * `tail`; a negative value is written in two's complement, and a value
   * that does not fit writes zero bytes of the right width.
   */
  function EmitWord(w: Scalar, n: int, tail: seq<u8>): seq<u8> {
    match w
    case U8 => EmitU8(if 0 <= n < 0x100 then n else 0, tail)
    case U16 => EmitU16(if 0 <= n < 0x1_0000 then n else 0, tail)
    case U32 | F32 => EmitU32(if 0 <= n < 0x1_0000_0000 then n else 0, tail)
    case I16 => EmitU16(if 0 <= n < 0x8000 then n else if -0x8000 <= n < 0 then n + 0x1_0000 else 0, tail)
    case I32 => EmitU32(if 0 <= n < 0x8000_0000 then n else if -0x8000_0000 <= n < 0 then n + 0x1_0000_0000 else 0, tail)
  }

  lemma WordRecovers(w: Scalar, n: int, t: seq<u8>)
    requires InRange(w, n)
    ensures ParseWord(w, EmitWord(w, n, t)) == Ok((n, t))
  {
    match w
    case U8 => assert EmitU8(n, t)[1..] == t;
    case U16 => U16Recovers(n, t);
    case I16 => U16Recovers(if n < 0 then n + 0x1_0000 else n, t);
    case U32 => U32Recovers(n, t);
    case F32 => U32Recovers(n, t);
    case I32 => U32Recovers(if n < 0 then n + 0x1_0000_0000 else n, t);
  }

  lemma WordAccounts(w: Scalar, s: seq<u8>)
    requires ParseWord(w, s).Ok?
    ensures InRange(w, ParseWord(w, s).value.0)
    ensures EmitWord(w, ParseWord(w, s).value.0, ParseWord(w, s).value.1) == s
  {
    match w
    case U8 => assert [s[0]] + s[1..] == s;
    case U16 => U16Accounts(s);
    case I16 => U16Accounts(s);
    case U32 => U32Accounts(s);
    case F32 => U32Accounts(s);
    case I32 => U32Accounts(s);
  }

  /** `count` scalars back to back. */
  function ParseWords(w: Scalar, count: nat, s: seq<u8>): (r: Result<(seq<int>, seq<u8>)>)
    ensures r.Ok? ==> |r.value.0| == count
    decreases count
  {
    if count == 0 then Ok(([], s))
    else
      var first :- ParseWord(w, s);
      var rest :- ParseWords(w, count - 1, first.1);
      Ok(([first.0] + rest.0, rest.1))
  }

  function EmitWords(w: Scalar, ns: seq<int>, tail: seq<u8>): seq<u8>
    decreases |ns|
  {
    if ns == [] then tail else EmitWord(w, ns[0], EmitWords(w, ns[1..], tail))
  }

  predicate AllInRange(w: Scalar, ns: seq<int>) {
    forall i | 0 <= i < |ns| :: InRange(w, ns[i])
  }

  /** Every element of a typed vector is in range for its scalar type. */
  lemma U8sInRange(ns: seq<u8>)
    ensures AllInRange(U8, ns)
  {
  }

  lemma U16sInRange(ns: seq<u16>)
    ensures AllInRange(U16, ns)
  {
  }

  lemma I16sInRange(ns: seq<i16>)
    ensures AllInRange(I16, ns)
  {
  }

  lemma U32sInRange(ns: seq<u32>)
    ensures AllInRange(U32, ns) && AllInRange(F32, ns)
  {
  }

  lemma I32sInRange(ns: seq<i32>)
    ensures AllInRange(I32, ns)
  {
  }

  lemma {:induction false} WordsRecover(w: Scalar, ns: seq<int>, t: seq<u8>)
    requires AllInRange(w, ns)
    ensures ParseWords(w, |ns|, EmitWords(w, ns, t)) == Ok((ns, t))
    decreases |ns|
  {
    if ns != [] {
      WordsRecover(w, ns[1..], t);
      WordRecovers(w, ns[0], EmitWords(w, ns[1..], t));
      assert [ns[0]] + ns[1..] == ns;
    }
  }

  lemma {:induction false} WordsAccount(w: Scalar, count: nat, s: seq<u8>)
    requires ParseWords(w, count, s).Ok?
    ensures AllInRange(w, ParseWords(w, count, s).value.0)
    ensures EmitWords(w, ParseWords(w, count, s).value.0, ParseWords(w, count, s).value.1) == s
    decreases count
  {
    if count > 0 {
      WordAccounts(w, s);
      var first := ParseWord(w, s).value;
      WordsAccount(w, count - 1, first.1);
      var rest := ParseWords(w, count - 1, first.1).value;
      assert ([first.0] + rest.0)[1..] == rest.0;
    }
  }

  /** The scalars of `a + b` are those of `a`, then those of `b`. */
  lemma {:induction false} WordsConcat(w: Scalar, a: seq<int>, b: seq<int>, t: seq<u8>)
    ensures EmitWords(w, a + b, t) == EmitWords(w, a, EmitWords(w, b, t))
    decreases |a|
  {
    if a != [] {
      assert (a + b)[1..] == a[1..] + b;
      WordsConcat(w, a[1..], b, t);
    } else {
      assert a + b == b;
    }
  }

  lemma WordLength(w: Scalar, n: int, t: seq<u8>)
    ensures |EmitWord(w, n, t)| == Size(w) + |t|
  {
  }

  lemma {:induction false} WordsLength(w: Scalar, ns: seq<int>, t: seq<u8>)
    ensures |EmitWords(w, ns, t)| == Size(w) * |ns| + |t|
    decreases |ns|
  {
    if ns != [] {
      WordsLength(w, ns[1..], t);
      WordLength(w, ns[0], EmitWords(w, ns[1..], t));
    }
  }

  // ---------------------------------------------------------------------
  // Primitives whose layout is not part of this model: Color, SphereZ, Rect
  // and PascalStringNULL. Each is a framing parser that returns the raw bytes
  // it consumed; its only assumed properties are that it consumes a prefix
  // of its input, and that a framed value is recognised whatever follows it.

  type Blob = seq<u8>

  /** `b` is a complete encoding of one value of the primitive `f`. */
  predicate Framed(f: Parser<Blob>, b: Blob) {
    f(b) == Ok((b, []))
  }

  ghost predicate Framing(f: Parser<Blob>) {
    && (forall s: seq<u8> :: f(s).Ok? ==> s == f(s).value.0 + f(s).value.1 && Framed(f, f(s).value.0))
    && (forall b: Blob, t: seq<u8> :: Framed(f, b) ==> f(b + t) == Ok((b, t)))
  }

  datatype Prim = Color | Sphere | Rect | Name

  /** The parsers of the opaque primitives. */
  datatype Prims = Prims(color: Parser<Blob>, sphere: Parser<Blob>, rect: Parser<Blob>, name: Parser<Blob>)

  function Primitive(pr: Prims, p: Prim): Parser<Blob> {
    match p
    case Color => pr.color
    case Sphere => pr.sphere
    case Rect => pr.rect
    case Name => pr.name
  }

  /** The assumed round trip of the opaque primitives. */
  ghost predicate Lawful(pr: Prims) {
    Framing(pr.color) && Framing(pr.sphere) && Framing(pr.rect) && Framing(pr.name)
  }

  function Refuse(s: seq<u8>): Result<(Blob, seq<u8>)> {
    Err(Rejected)
  }

  /** Primitives that are never called: a layout without an opaque field is read with these. */
  const NoPrims: Prims := Prims(Refuse, Refuse, Refuse, Refuse)

  lemma NoPrimsLawful()
    ensures Lawful(NoPrims)
  {
  }

  // ---------------------------------------------------------------------
  // Runs of elements, over any element codec.

  /** `count` elements back to back (nom's `count`). */
  function ParseRun<T>(p: Parser<T>, count: nat, s: seq<u8>): (r: Result<(seq<T>, seq<u8>)>)
    ensures r.Ok? ==> |r.value.0| == count
    decreases count
  {
    if count == 0 then Ok(([], s))
    else
      var first :- p(s);
      var rest :- ParseRun(p, count - 1, first.1);
      Ok(([first.0] + rest.0, rest.1))
  }

  function EmitRun<T>(em: Emitter<T>, vs: seq<T>, tail: seq<u8>): seq<u8>
    decreases |vs|
  {
    if vs == [] then tail else em(vs[0], EmitRun(em, vs[1..], tail))
  }

  lemma {:induction false} RunRecovers<T>(p: Parser<T>, em: Emitter<T>, vs: seq<T>, t: seq<u8>)
    requires forall i, t' | 0 <= i < |vs| :: p(em(vs[i], t')) == Ok((vs[i], t'))
    ensures ParseRun(p, |vs|, EmitRun(em, vs, t)) == Ok((vs, t))
    decreases |vs|
  {
    if vs != [] {
      var rest := EmitRun(em, vs[1..], t);
      forall i, t' | 0 <= i < |vs| - 1 ensures p(em(vs[1..][i], t')) == Ok((vs[1..][i], t')) {
        assert vs[1..][i] == vs[i + 1];
      }
      RunRecovers(p, em, vs[1..], t);
      assert p(em(vs[0], rest)) == Ok((vs[0], rest));
      assert [vs[0]] + vs[1..] == vs;
    }
  }

  lemma {:induction false} RunAccounts<T>(p: Parser<T>, em: Emitter<T>, ok: T -> bool, count: nat, s: seq<u8>)
    requires forall s' | p(s').Ok? :: ok(p(s').value.0) && em(p(s').value.0, p(s').value.1) == s'
    requires ParseRun(p, count, s).Ok?
    ensures forall i | 0 <= i < count :: ok(ParseRun(p, count, s).value.0[i])
    ensures EmitRun(em, ParseRun(p, count, s).value.0, ParseRun(p, count, s).value.1) == s
    decreases count
  {
    if count > 0 {
      var first := p(s).value;
      RunAccounts(p, em, ok, count - 1, first.1);
      var rest := ParseRun(p, count - 1, first.1).value;
      var vs := [first.0] + rest.0;
      assert ParseRun(p, count, s) == Ok((vs, rest.1));
      forall i | 0 <= i < count ensures ok(vs[i]) {
        if i > 0 {
          assert vs[i] == rest.0[i - 1];
        }
      }
      assert vs[1..] == rest.0;
    }
  }

  // ---------------------------------------------------------------------
  // Layouts and values.

  datatype Kind =
    | Word(w: Scalar)                 // one scalar
    | Words(w: Scalar, count: nat)    // a fixed run of scalars
    | WordArray(w: Scalar)            // a u32 count, then that many scalars
    | Opaque(p: Prim)                 // an opaque primitive
    | Repeat(elem: Kind, count: nat)  // a fixed run of records
    | Array(elem: Kind)               // a u32 count, then that many records
    | Empty                           // no bytes
    | Then(first: Kind, second: Kind) // the bytes of `first`, then those of `second`

  datatype Val = Num(n: int) | Nums(ns: seq<int>) | Raw(b: Blob) | Vals(vs: seq<Val>) | Unit | Pair(first: Val, second: Val)

  /** `v` is a value of layout `k` that `Emit` writes faithfully. */
  predicate Conforms(pr: Prims, k: Kind, v: Val)
    decreases k
  {
    match k
    case Word(w) => v.Num? && InRange(w, v.n)
    case Words(w, c) => v.Nums? && |v.ns| == c && AllInRange(w, v.ns)
    case WordArray(w) => v.Nums? && |v.ns| < 0x1_0000_0000 && AllInRange(w, v.ns)
    case Opaque(p) => v.Raw? && Framed(Primitive(pr, p), v.b)
    case Repeat(e, c) => v.Vals? && |v.vs| == c && (forall i | 0 <= i < c :: Conforms(pr, e, v.vs[i]))
    case Array(e) => v.Vals? && |v.vs| < 0x1_0000_0000 && (forall i | 0 <= i < |v.vs| :: Conforms(pr, e, v.vs[i]))
    case Empty => v.Unit?
    case Then(h, t) => v.Pair? && Conforms(pr, h, v.first) && Conforms(pr, t, v.second)
  }

  function Parse(pr: Prims, k: Kind, s: seq<u8>): Result<(Val, seq<u8>)>
    decreases k, 0
  {
    match k
    case Word(w) => var x :- ParseWord(w, s); Ok((Num(x.0), x.1))
    case Words(w, c) => var x :- ParseWords(w, c, s); Ok((Nums(x.0), x.1))
    case WordArray(w) =>
      var n :- ParseU32(s);
      var x :- ParseWords(w, n.0, n.1);
      Ok((Nums(x.0), x.1))
    case Opaque(p) => var x :- Primitive(pr, p)(s); Ok((Raw(x.0), x.1))
    case Repeat(e, c) => var x :- ParseRun(ElementParser(pr, e), c, s); Ok((Vals(x.0), x.1))
    case Array(e) =>
      var n :- ParseU32(s);
      var x :- ParseRun(ElementParser(pr, e), n.0, n.1);
      Ok((Vals(x.0), x.1))
    case Empty => Ok((Unit, s))
    case Then(h, t) =>
      var x :- Parse(pr, h, s);
      var y :- Parse(pr, t, x.1);
      Ok((Pair(x.0, y.0), y.1))
  }

  /** The codec of the elements of a run of records of layout `e`. */
  function ElementParser(pr: Prims, e: Kind): Parser<Val>
    decreases e, 1
  {
    s => Parse(pr, e, s)
  }

  function ElementEmitter(e: Kind): Emitter<Val>
    decreases e, 1
  {
    (v, tail) => Emit(e, v, tail)
  }

  /** A value of the wrong shape for its layout writes nothing. */
  function Emit(k: Kind, v: Val, tail: seq<u8>): seq<u8>
    decreases k, 0
  {
    match k
    case Word(w) => if v.Num? then EmitWord(w, v.n, tail) else tail
    case Words(w, _) => if v.Nums? then EmitWords(w, v.ns, tail) else tail
    case WordArray(w) => if v.Nums? then EmitWord(U32, |v.ns|, EmitWords(w, v.ns, tail)) else tail
    case Opaque(_) => if v.Raw? then v.b + tail else tail
    case Repeat(e, _) => if v.Vals? then EmitRun(ElementEmitter(e), v.vs, tail) else tail
    case Array(e) => if v.Vals? then EmitWord(U32, |v.vs|, EmitRun(ElementEmitter(e), v.vs, tail)) else tail
    case Empty => tail
    case Then(h, t) => if v.Pair? then Emit(h, v.first, Emit(t, v.second, tail)) else tail
  }

  // ---------------------------------------------------------------------
  // The two laws.

  lemma {:induction false} Recover(pr: Prims, k: Kind, v: Val, t: seq<u8>)
    requires Lawful(pr) && Conforms(pr, k, v)
    ensures Parse(pr, k, Emit(k, v, t)) == Ok((v, t))
    decreases k, 1
  {
    match k
    case Word(w) => WordRecovers(w, v.n, t);
    case Words(w, c) => WordsRecover(w, v.ns, t);
    case WordArray(w) =>
      WordsRecover(w, v.ns, t);
      WordRecovers(U32, |v.ns|, EmitWords(w, v.ns, t));
    case Opaque(p) =>
    case Repeat(e, c) => ElementsRecover(pr, e, v.vs, t);
    case Array(e) =>
      ElementsRecover(pr, e, v.vs, t);
      WordRecovers(U32, |v.vs|, EmitRun(ElementEmitter(e), v.vs, t));
    case Empty =>
    case Then(h, r) =>
      Recover(pr, r, v.second, t);
      Recover(pr, h, v.first, Emit(r, v.second, t));
  }

  lemma {:induction false} ElementsRecover(pr: Prims, e: Kind, vs: seq<Val>, t: seq<u8>)
    requires Lawful(pr) && forall i | 0 <= i < |vs| :: Conforms(pr, e, vs[i])
    ensures ParseRun(ElementParser(pr, e), |vs|, EmitRun(ElementEmitter(e), vs, t)) == Ok((vs, t))
    decreases e, 2
  {
    var p, em := ElementParser(pr, e), ElementEmitter(e);
    forall i, t' | 0 <= i < |vs| ensures p(em(vs[i], t')) == Ok((vs[i], t')) {
      Recover(pr, e, vs[i], t');
    }
    RunRecovers(p, em, vs, t);
  }

  lemma {:induction false} Account(pr: Prims, k: Kind, s: seq<u8>)
    requires Lawful(pr) && Parse(pr, k, s).Ok?
    ensures Conforms(pr, k, Parse(pr, k, s).value.0)
    ensures Emit(k, Parse(pr, k, s).value.0, Parse(pr, k, s).value.1) == s
    decreases k, 1
  {
    match k
    case Word(w) => WordAccounts(w, s);
    case Words(w, c) => WordsAccount(w, c, s);
    case WordArray(w) =>
      var n := ParseU32(s).value;
      WordsAccount(w, n.0, n.1);
      WordAccounts(U32, s);
    case Opaque(p) =>
    case Repeat(e, c) => ElementsAccount(pr, e, c, s);
    case Array(e) =>
      var n := ParseU32(s).value;
      ElementsAccount(pr, e, n.0, n.1);
      WordAccounts(U32, s);
    case Empty =>
    case Then(h, r) =>
      Account(pr, h, s);
      Account(pr, r, Parse(pr, h, s).value.1);
  }

  lemma {:induction false} ElementsAccount(pr: Prims, e: Kind, count: nat, s: seq<u8>)
    requires Lawful(pr) && ParseRun(ElementParser(pr, e), count, s).Ok?
    ensures var r := ParseRun(ElementParser(pr, e), count, s).value;
      && (forall i | 0 <= i < count :: Conforms(pr, e, r.0[i]))
      && EmitRun(ElementEmitter(e), r.0, r.1) == s
    decreases e, 2
  {
    var p, em := ElementParser(pr, e), ElementEmitter(e);
    var ok: Val -> bool := v => Conforms(pr, e, v);
    forall s' | p(s').Ok? ensures ok(p(s').value.0) && em(p(s').value.0, p(s').value.1) == s' {
      Account(pr, e, s');
    }
    RunAccounts(p, em, ok, count, s);
  }

  // ---------------------------------------------------------------------
  // What Emit writes: a prefix of its tail, and how many bytes.

  lemma {:induction false} WordsAppend(w: Scalar, ns: seq<int>, t: seq<u8>)
    ensures EmitWords(w, ns, t) == EmitWords(w, ns, []) + t
    decreases |ns|
  {
    if ns != [] {
      WordsAppend(w, ns[1..], t);
      var r := EmitWords(w, ns[1..], []);
      match w
      case U8 | U16 | I16 | U32 | I32 | F32 =>
        assert EmitWord(w, ns[0], r + t) == EmitWord(w, ns[0], r) + t;
    }
  }

  lemma {:induction false} RunAppends<T>(em: Emitter<T>, vs: seq<T>, t: seq<u8>)
    requires forall i, t' | 0 <= i < |vs| :: em(vs[i], t') == em(vs[i], []) + t'
    ensures EmitRun(em, vs, t) == EmitRun(em, vs, []) + t
    decreases |vs|
  {
    if vs != [] {
      forall i, t' | 0 <= i < |vs| - 1 ensures em(vs[1..][i], t') == em(vs[1..][i], []) + t' {
        assert vs[1..][i] == vs[i + 1];
      }
      RunAppends(em, vs[1..], t);
      var r := EmitRun(em, vs[1..], []);
      assert em(vs[0], r + t) == em(vs[0], []) + (r + t);
      assert em(vs[0], r) == em(vs[0], []) + r;
    }
  }

  /** Emit writes its value's bytes in front of the tail and leaves the tail as it is. */
  lemma {:induction false} EmitAppends(k: Kind, v: Val, t: seq<u8>)
    ensures Emit(k, v, t) == Emit(k, v, []) + t
    decreases k, 1
  {
    match k
    case Word(w) =>
      if v.Num? {
        WordsAppend(w, [v.n], t);
      }
    case Words(w, _) =>
      if v.Nums? {
        WordsAppend(w, v.ns, t);
      }
    case WordArray(w) =>
      if v.Nums? {
        WordsAppend(w, v.ns, t);
        WordsAppend(U32, [|v.ns|], EmitWords(w, v.ns, []) + t);
        WordsAppend(U32, [|v.ns|], EmitWords(w, v.ns, []));
      }
    case Opaque(_) =>
    case Repeat(e, _) =>
      if v.Vals? {
        ElementsAppend(e, v.vs, t);
      }
    case Array(e) =>
      if v.Vals? {
        ElementsAppend(e, v.vs, t);
        var r := EmitRun(ElementEmitter(e), v.vs, []);
        WordsAppend(U32, [|v.vs|], r + t);
        WordsAppend(U32, [|v.vs|], r);
      }
    case Empty =>
    case Then(a, b) =>
      if v.Pair? {
        EmitAppends(b, v.second, t);
        EmitAppends(a, v.first, Emit(b, v.second, []) + t);
        EmitAppends(a, v.first, Emit(b, v.second, []));
      }
  }

  lemma {:induction false} ElementsAppend(e: Kind, vs: seq<Val>, t: seq<u8>)
    ensures EmitRun(ElementEmitter(e), vs, t) == EmitRun(ElementEmitter(e), vs, []) + t
    decreases e, 2
  {
    var em := ElementEmitter(e);
    forall i, t' | 0 <= i < |vs| ensures em(vs[i], t') == em(vs[i], []) + t' {
      EmitAppends(e, vs[i], t');
    }
    RunAppends(em, vs, t);
  }

  /** The number of bytes a value of layout `k` takes. */
  function Len(k: Kind, v: Val): nat
    decreases k, 0
  {
    match k
    case Word(w) => Size(w)
    case Words(w, _) => if v.Nums? then Size(w) * |v.ns| else 0
    case WordArray(w) => if v.Nums? then 4 + Size(w) * |v.ns| else 0
    case Opaque(_) => if v.Raw? then |v.b| else 0
    case Repeat(e, _) => if v.Vals? then LenRun(e, v.vs) else 0
    case Array(e) => if v.Vals? then 4 + LenRun(e, v.vs) else 0
    case Empty => 0
    case Then(a, b) => if v.Pair? then Len(a, v.first) + Len(b, v.second) else 0
  }

  function LenRun(e: Kind, vs: seq<Val>): nat
    decreases e, 1, |vs|
  {
    if vs == [] then 0 else Len(e, vs[0]) + LenRun(e, vs[1..])
  }

  lemma {:induction false} Length(pr: Prims, k: Kind, v: Val, t: seq<u8>)
    requires Conforms(pr, k, v)
    ensures |Emit(k, v, t)| == Len(k, v) + |t|
    decreases k, 1
  {
    match k
    case Word(w) => WordLength(w, v.n, t);
    case Words(w, _) => WordsLength(w, v.ns, t);
    case WordArray(w) =>
      WordsLength(w, v.ns, t);
      WordLength(U32, |v.ns|, EmitWords(w, v.ns, t));
    case Opaque(_) =>
    case Repeat(e, _) => ElementsLength(pr, e, v.vs, t);
    case Array(e) =>
      ElementsLength(pr, e, v.vs, t);
      WordLength(U32, |v.vs|, EmitRun(ElementEmitter(e), v.vs, t));
    case Empty =>
    case Then(a, b) =>
      Length(pr, b, v.second, t);
      Length(pr, a, v.first, Emit(b, v.second, t));
  }

  lemma {:induction false} ElementsLength(pr: Prims, e: Kind, vs: seq<Val>, t: seq<u8>)
    requires forall i | 0 <= i < |vs| :: Conforms(pr, e, vs[i])
    ensures |EmitRun(ElementEmitter(e), vs, t)| == LenRun(e, vs) + |t|
    decreases e, 2, |vs|
  {
    if vs != [] {
      forall i | 0 <= i < |vs| - 1 ensures Conforms(pr, e, vs[1..][i]) {
        assert vs[1..][i] == vs[i + 1];
      }
      ElementsLength(pr, e, vs[1..], t);
      Length(pr, e, vs[0], EmitRun(ElementEmitter(e), vs[1..], t));
    }
  }

  /** The width of a layout every value of which takes the same number of bytes. */
  function Width(k: Kind): Option<nat>
    decreases k
  {
    match k
    case Word(w) => Some(Size(w))
    case Words(w, c) => Some(Size(w) * c)
    case Repeat(e, c) => var we := Width(e); if we.Some? then Some(we.value * c) else None
    case Empty => Some(0)
    case Then(a, b) => var wa, wb := Width(a), Width(b); if wa.Some? && wb.Some? then Some(wa.value + wb.value) else None
    case WordArray(_) | Opaque(_) | Array(_) => None
  }

  lemma {:induction false} WidthLen(pr: Prims, k: Kind, v: Val)
    requires Width(k).Some? && Conforms(pr, k, v)
    ensures Len(k, v) == Width(k).value
    decreases k, 1
  {
    match k
    case Word(_) =>
    case Words(_, _) =>
    case Repeat(e, c) => ElementsWidth(pr, e, v.vs);
    case Empty =>
    case Then(a, b) =>
      WidthLen(pr, a, v.first);
      WidthLen(pr, b, v.second);
  }

  lemma {:induction false} ElementsWidth(pr: Prims, e: Kind, vs: seq<Val>)
    requires Width(e).Some? && forall i | 0 <= i < |vs| :: Conforms(pr, e, vs[i])
    ensures LenRun(e, vs) == Width(e).value * |vs|
    decreases e, 2, |vs|
  {
    if vs != [] {
      forall i | 0 <= i < |vs| - 1 ensures Conforms(pr, e, vs[1..][i]) {
        assert vs[1..][i] == vs[i + 1];
      }
      ElementsWidth(pr, e, vs[1..]);
      WidthLen(pr, e, vs[0]);
      var w := Width(e).value;
      assert LenRun(e, vs) == w + w * (|vs| - 1);
      assert w * |vs| == w + w * (|vs| - 1);
    }
  }

  // ---------------------------------------------------------------------
  // Reading typed fields back out of a value (a wrong shape reads as zero).

  type Vec2f = v: seq<f32> | |v| == 2 witness [0, 0]
  type Vec3f = v: seq<f32> | |v| == 3 witness [0, 0, 0]
  /** `Vec4f` and `Quat` share this layout. */
  type Vec4f = v: seq<f32> | |v| == 4 witness [0, 0, 0, 0]
  type Quat = Vec4f
  type Mat4f = v: seq<f32> | |v| == 16 witness [0, 0, 0, 0, 0, 0, 0, 0, 0, 0, 0, 0, 0, 0, 0, 0]
  type Vec3i32 = v: seq<i32> | |v| == 3 witness [0, 0, 0]
  type PascalArray<T> = xs: seq<T> | |xs| < 0x1_0000_0000 witness []

  function AsWord(w: Scalar, v: Val): (n: int)
    ensures InRange(w, n)
  {
    if v.Num? && InRange(w, v.n) then v.n else 0
  }

  function AsWords(w: Scalar, count: nat, v: Val): (ns: seq<int>)
    ensures |ns| == count && AllInRange(w, ns)
  {
    if v.Nums? && |v.ns| == count && AllInRange(w, v.ns) then v.ns else seq(count, _ => 0)
  }

  function AsBlob(v: Val): Blob {
    if v.Raw? then v.b else []
  }

  function AsWordArray(w: Scalar, v: Val): (ns: seq<int>)
    ensures |ns| < 0x1_0000_0000 && AllInRange(w, ns)
  {
    if v.Nums? && |v.ns| < 0x1_0000_0000 && AllInRange(w, v.ns) then v.ns else []
  }

  /** The first and second parts of a record value (a wrong shape reads as `Unit`). */
  function First(v: Val): Val { if v.Pair? then v.first else Unit }
  function Second(v: Val): Val { if v.Pair? then v.second else Unit }
}
