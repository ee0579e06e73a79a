/**
 * Fixed-width little-endian scalars: the leaves of every record layout.
 *
 * A parser takes the remaining input and returns the decoded value with the
 * input left over (so `#[nom(Exact)]` becomes "left over is empty"); an
 * emitter writes a value in front of a given tail, so that the bytes of a
 * record are the bytes of its first field followed by the bytes of the rest.
 * Floating-point fields are carried as their 32-bit patterns.
 */
module Bytes {

  type u8 = x: int | 0 <= x < 0x100
  type u16 = x: int | 0 <= x < 0x1_0000
  type u32 = x: int | 0 <= x < 0x1_0000_0000
  type i16 = x: int | -0x8000 <= x < 0x8000
  type i32 = x: int | -0x8000_0000 <= x < 0x8000_0000

  /** An IEEE-754 single, kept as its bit pattern: the codec never interprets it. */
  type f32 = u32

  /** Why a decode failed. */
  datatype Error =
    | Truncated                      // fewer bytes remain than a field needs
    | TrailingBytes                  // an exact schema left bytes unconsumed
    | UnmatchedVariant(selector: int) // a discriminant selects no known layout
    | Rejected                       // a field failed its value check
    | UnknownVersion                 // the version label is not one of the known ones

  datatype Option<T> = None | Some(value: T)

  datatype Result<T> = Ok(value: T) | Err(error: Error) {
    predicate IsFailure() { Err? }
    function PropagateFailure<U>(): Result<U>
      requires Err?
    {
      Err(error)
    }
    function Extract(): T
      requires Ok?
    {
      value
    }
  }

  type Parser<T> = seq<u8> -> Result<(T, seq<u8>)>
  type Emitter<!T> = (T, seq<u8>) -> seq<u8>

  function ParseU8(s: seq<u8>): Result<(u8, seq<u8>)> {
    if |s| < 1 then Err(Truncated) else Ok((s[0], s[1..]))
  }

  function EmitU8(x: u8, tail: seq<u8>): seq<u8> {
    [x] + tail
  }

  function ParseU16(s: seq<u8>): Result<(u16, seq<u8>)> {
    if |s| < 2 then Err(Truncated) else Ok((s[0] as int + 0x100 * s[1] as int, s[2..]))
  }

  function EmitU16(x: u16, tail: seq<u8>): seq<u8> {
    [x % 0x100, x / 0x100] + tail
  }

  function ParseU32(s: seq<u8>): Result<(u32, seq<u8>)> {
    if |s| < 4 then Err(Truncated)
    else Ok((s[0] as int + 0x100 * s[1] as int + 0x1_0000 * s[2] as int + 0x100_0000 * s[3] as int, s[4..]))
  }

  function EmitU32(x: u32, tail: seq<u8>): seq<u8> {
    var q1 := x / 0x100;
    var q2 := q1 / 0x100;
    [x % 0x100, q1 % 0x100, q2 % 0x100, q2 / 0x100] + tail
  }

  /** The low byte and the rest of `b + 256 * q`. */
  lemma Split(b: int, q: int)
    requires 0 <= b < 0x100
    ensures (b + 0x100 * q) / 0x100 == q && (b + 0x100 * q) % 0x100 == b
  {
  }

  lemma U16Recovers(x: u16, t: seq<u8>)
    ensures ParseU16(EmitU16(x, t)) == Ok((x, t))
  {
    var e := EmitU16(x, t);
    assert e[0] as int + 0x100 * e[1] as int == x;
    assert e[2..] == t;
  }

  lemma U32Recovers(x: u32, t: seq<u8>)
    ensures ParseU32(EmitU32(x, t)) == Ok((x, t))
  {
    var q1 := x / 0x100;
    var q2 := q1 / 0x100;
    assert x == x % 0x100 + 0x100 * q1;
    assert q1 == q1 % 0x100 + 0x100 * q2;
    assert q2 == q2 % 0x100 + 0x100 * (q2 / 0x100);
    var e := EmitU32(x, t);
    assert e[4..] == t;
  }

  lemma U16Accounts(s: seq<u8>)
    requires |s| >= 2
    ensures EmitU16(s[0] as int + 0x100 * s[1] as int, s[2..]) == s
  {
    assert [s[0], s[1]] + s[2..] == s;
  }

  lemma U32Accounts(s: seq<u8>)
    requires |s| >= 4
    ensures EmitU32(s[0] as int + 0x100 * s[1] as int + 0x1_0000 * s[2] as int + 0x100_0000 * s[3] as int, s[4..]) == s
  {
    var b0, b1, b2, b3 := s[0] as int, s[1] as int, s[2] as int, s[3] as int;
    var q2 := b2 + 0x100 * b3;
    var q1 := b1 + 0x100 * q2;
    var x := b0 + 0x100 * q1;
    assert x == b0 + 0x100 * b1 + 0x1_0000 * b2 + 0x100_0000 * b3;
    Split(b0, q1);
    Split(b1, q2);
    Split(b2, b3);
    assert [s[0], s[1], s[2], s[3]] + s[4..] == s;
  }

  /** A field present only when `present` holds (`#[nom(Cond(..))]`). */
  function ParseOptionU16(present: bool, s: seq<u8>): Result<(Option<u16>, seq<u8>)> {
    if present then var x :- ParseU16(s); Ok((Some(x.0), x.1)) else Ok((None, s))
  }

  function ParseOptionU32(present: bool, s: seq<u8>): Result<(Option<u32>, seq<u8>)> {
    if present then var x :- ParseU32(s); Ok((Some(x.0), x.1)) else Ok((None, s))
  }

  /** `write_option`: a present value is written, an absent one writes nothing. */
  function EmitOptionU16(o: Option<u16>, tail: seq<u8>): seq<u8> {
    if o.Some? then EmitU16(o.value, tail) else tail
  }

  function EmitOptionU32(o: Option<u32>, tail: seq<u8>): seq<u8> {
    if o.Some? then EmitU32(o.value, tail) else tail
  }
}
