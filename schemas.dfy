/**
 * Object schemas: a typed record carried by a layout, decoded either exactly
 * (`#[nom(Exact)]`: the whole buffer must be consumed) or as a prefix (bytes
 * after the record are tolerated), and the round trip every such schema obeys.
 */
module Schemas {
  import opened Bytes
  import opened Codec

  /** `#[nom(Exact)]`: a decode succeeds only when nothing is left over. */
  function Exact<T>(r: Result<(T, seq<u8>)>): (x: Result<T>)
    ensures x.Ok? <==> r.Ok? && r.value.1 == []
    ensures x.Ok? ==> x.value == r.value.0
    ensures r.Err? ==> x == Err(r.error)
  {
    var v :- r;
    if v.1 == [] then Ok(v.0) else Err(TrailingBytes)
  }

  /** Without Exact, a decode keeps the value and tolerates what is left. */
  function Prefix<T>(r: Result<(T, seq<u8>)>): (x: Result<T>)
    ensures x.Ok? <==> r.Ok?
    ensures x.Ok? ==> x.value == r.value.0
    ensures r.Err? ==> x == Err(r.error)
  {
    var v :- r;
    Ok(v.0)
  }

  /**
   * A schema's codec: decode a whole buffer, encode a value, the values that
   * encode faithfully, and whether the schema must consume its whole buffer.
   */
  datatype Schema<!T> = Schema(decode: seq<u8> -> Result<T>, encode: T -> seq<u8>, wf: T -> bool, exact: bool)

  /**
   * Lawful schema: a well-formed value decodes from its own encoding, and a
   * decoded value is well formed and re-encodes to a prefix of the buffer it
   * came from: the whole buffer when the schema is exact.
   */
  ghost predicate LawfulSchema<T(!new)>(c: Schema<T>) {
    && (forall x: T | c.wf(x) :: c.decode(c.encode(x)) == Ok(x))
    && (forall s: seq<u8> | c.decode(s).Ok? ::
          c.wf(c.decode(s).value) && c.encode(c.decode(s).value) <= s && (c.exact ==> c.encode(c.decode(s).value) == s))
  }

  /** A record type `T` carried by the layout `k`: to and from its layout value. */
  datatype View<!T> = View(k: Kind, toVal: T -> Val, ofVal: Val -> T, wf: T -> bool)

  /** The record type and the layout values are in one-to-one correspondence. */
  ghost predicate Faithful<T(!new)>(pr: Prims, c: View<T>) {
    && (forall x: T | c.wf(x) :: Conforms(pr, c.k, c.toVal(x)) && c.ofVal(c.toVal(x)) == x)
    && (forall v: Val | Conforms(pr, c.k, v) :: c.wf(c.ofVal(v)) && c.toVal(c.ofVal(v)) == v)
  }

  function Decode<T>(pr: Prims, c: View<T>, exact: bool, s: seq<u8>): (r: Result<T>)
    ensures exact ==> (r.Ok? <==> Parse(pr, c.k, s).Ok? && Parse(pr, c.k, s).value.1 == [])
    ensures !exact ==> (r.Ok? <==> Parse(pr, c.k, s).Ok?)
    ensures r.Ok? ==> r.value == c.ofVal(Parse(pr, c.k, s).value.0)
  {
    var v :- if exact then Exact(Parse(pr, c.k, s)) else Prefix(Parse(pr, c.k, s));
    Ok(c.ofVal(v))
  }

  function Encode<T>(c: View<T>, x: T): seq<u8> {
    Emit(c.k, c.toVal(x), [])
  }

  function RecordSchema<T>(pr: Prims, c: View<T>, exact: bool): Schema<T> {
    Schema(s => Decode(pr, c, exact, s), x => Encode(c, x), c.wf, exact)
  }

  lemma RecordSchemaLawful<T(!new)>(pr: Prims, c: View<T>, exact: bool)
    requires Lawful(pr) && Faithful(pr, c)
    ensures LawfulSchema(RecordSchema(pr, c, exact))
  {
    var sc := RecordSchema(pr, c, exact);
    forall x: T | c.wf(x) ensures sc.decode(sc.encode(x)) == Ok(x) {
      Recover(pr, c.k, c.toVal(x), []);
    }
    forall s: seq<u8> | sc.decode(s).Ok?
      ensures c.wf(sc.decode(s).value) && sc.encode(sc.decode(s).value) <= s
      ensures exact ==> sc.encode(sc.decode(s).value) == s
    {
      Account(pr, c.k, s);
      var v := Parse(pr, c.k, s).value;
      EmitAppends(c.k, v.0, v.1);
    }
  }

  /**
   * What follows an encoded record: an exact schema rejects any trailing
   * byte, a prefix schema decodes the record and ignores the rest.
   */
  lemma Trailing<T(!new)>(pr: Prims, c: View<T>, exact: bool, x: T, t: seq<u8>)
    requires Lawful(pr) && Faithful(pr, c) && c.wf(x)
    ensures Decode(pr, c, exact, Encode(c, x) + t) == if exact && t != [] then Err(TrailingBytes) else Ok(x)
  {
    Recover(pr, c.k, c.toVal(x), t);
    EmitAppends(c.k, c.toVal(x), t);
  }

  /** An exact record of fixed width decodes only from a buffer of exactly that many bytes, and encodes to one. */
  lemma ExactWidth<T(!new)>(pr: Prims, c: View<T>, s: seq<u8>, x: T)
    requires Lawful(pr) && Faithful(pr, c) && Width(c.k).Some?
    ensures Decode(pr, c, true, s).Ok? ==> |s| == Width(c.k).value
    ensures c.wf(x) ==> |Encode(c, x)| == Width(c.k).value
  {
    if Decode(pr, c, true, s).Ok? {
      Account(pr, c.k, s);
      var v := Parse(pr, c.k, s).value.0;
      Length(pr, c.k, v, []);
      WidthLen(pr, c.k, v);
    }
    if c.wf(x) {
      Length(pr, c.k, c.toVal(x), []);
      WidthLen(pr, c.k, c.toVal(x));
    }
  }

  /** A prefixed array of fixed-width records takes its count and `width` bytes per record. */
  lemma ArrayLen(pr: Prims, e: Kind, vs: seq<Val>)
    requires Width(e).Some? && forall i | 0 <= i < |vs| :: Conforms(pr, e, vs[i])
    ensures Len(Array(e), Vals(vs)) == 4 + Width(e).value * |vs|
  {
    ElementsWidth(pr, e, vs);
  }

  // ---------------------------------------------------------------------
  // Runs of records: a sequence of typed records is a run of layout values.

  function MapVals<T>(f: T -> Val, xs: seq<T>): (vs: seq<Val>)
    ensures |vs| == |xs| && forall i | 0 <= i < |xs| :: vs[i] == f(xs[i])
  {
    seq(|xs|, i requires 0 <= i < |xs| => f(xs[i]))
  }

  /** The records of a run of layout values (none when `v` is not a run). */
  function AsRecords<T>(f: Val -> T, v: Val): (xs: PascalArray<T>)
    ensures v.Vals? && |v.vs| < 0x1_0000_0000 ==> |xs| == |v.vs| && forall i | 0 <= i < |xs| :: xs[i] == f(v.vs[i])
  {
    if v.Vals? && |v.vs| < 0x1_0000_0000 then seq(|v.vs|, i requires 0 <= i < |v.vs| => f(v.vs[i])) else []
  }

  lemma ElementsConform<T(!new)>(pr: Prims, c: View<T>, xs: seq<T>)
    requires Faithful(pr, c) && forall i | 0 <= i < |xs| :: c.wf(xs[i])
    ensures forall i | 0 <= i < |xs| :: Conforms(pr, c.k, MapVals(c.toVal, xs)[i])
  {
  }

  lemma ElementsOfVal<T(!new)>(pr: Prims, c: View<T>, xs: seq<T>)
    requires Faithful(pr, c) && |xs| < 0x1_0000_0000 && forall i | 0 <= i < |xs| :: c.wf(xs[i])
    ensures AsRecords(c.ofVal, Vals(MapVals(c.toVal, xs))) == xs
  {
  }

  lemma ElementsFrom<T(!new)>(pr: Prims, c: View<T>, v: Val)
    requires Faithful(pr, c) && v.Vals? && |v.vs| < 0x1_0000_0000
    requires forall i | 0 <= i < |v.vs| :: Conforms(pr, c.k, v.vs[i])
    ensures Vals(MapVals(c.toVal, AsRecords(c.ofVal, v))) == v
    ensures forall i | 0 <= i < |AsRecords(c.ofVal, v)| :: c.wf(AsRecords(c.ofVal, v)[i])
  {
    assert MapVals(c.toVal, AsRecords(c.ofVal, v)) == v.vs;
  }

  /** The records of a fixed run of layout values (zeroed records when `v` is not a run of `count`). */
  function AsRepeat<T>(f: Val -> T, count: nat, v: Val): (xs: seq<T>)
    ensures |xs| == count
    ensures v.Vals? && |v.vs| == count ==> forall i | 0 <= i < count :: xs[i] == f(v.vs[i])
  {
    if v.Vals? && |v.vs| == count then seq(count, i requires 0 <= i < count => f(v.vs[i])) else seq(count, _ => f(Unit))
  }

  lemma ElementsRepeatOfVal<T(!new)>(pr: Prims, c: View<T>, count: nat, xs: seq<T>)
    requires Faithful(pr, c) && |xs| == count && forall i | 0 <= i < |xs| :: c.wf(xs[i])
    ensures AsRepeat(c.ofVal, count, Vals(MapVals(c.toVal, xs))) == xs
  {
  }

  lemma ElementsRepeatFrom<T(!new)>(pr: Prims, c: View<T>, count: nat, v: Val)
    requires Faithful(pr, c) && v.Vals? && |v.vs| == count
    requires forall i | 0 <= i < |v.vs| :: Conforms(pr, c.k, v.vs[i])
    ensures Vals(MapVals(c.toVal, AsRepeat(c.ofVal, count, v))) == v
    ensures forall i | 0 <= i < count :: c.wf(AsRepeat(c.ofVal, count, v)[i])
  {
    assert MapVals(c.toVal, AsRepeat(c.ofVal, count, v)) == v.vs;
  }
}
