/**
 * References between objects and the adapter that pairs a header schema with
 * a body schema.
 *
 * An object names the objects it depends on by their 32-bit name hashes, as
 * two ordered lists: hard links (needed for the object to be complete) and
 * soft links (structural references). The adapter decodes the header bytes,
 * then the body bytes, and reports the references of the decoded pair; it
 * packs a decoded pair back into header and body bytes.
 */
module Objects {
  import opened Bytes
  import opened Schemas

  datatype Links = Links(hard: seq<u32>, soft: seq<u32>)

  const NoLinks: Links := Links([], [])

  // ---------------------------------------------------------------------
  // The list operations the reference extractors are built from.

  /** A hash as a reference list: a zero hash names nothing. */
  function Keep(h: u32): (r: seq<u32>)
    ensures h != 0 <==> r == [h]
    ensures h == 0 <==> r == []
  {
    if h != 0 then [h] else []
  }

  /** `if h != 0 { v.push(h) }`. */
  method PushNonZero(v: seq<u32>, h: u32) returns (w: seq<u32>)
    ensures w == v + Keep(h)
  {
    w := v;
    if h != 0 {
      w := w + [h];
    }
  }

  /** The non-zero hashes of `xs`, in their order (a zero hash names nothing). */
  function NonZero(xs: seq<u32>): seq<u32>
    decreases |xs|
  {
    if xs == [] then []
    else NonZero(xs[..|xs| - 1]) + Keep(xs[|xs| - 1])
  }

  lemma {:induction false} NonZeroAppend(a: seq<u32>, b: seq<u32>)
    ensures NonZero(a + b) == NonZero(a) + NonZero(b)
    decreases |b|
  {
    if b == [] {
      assert a + b == a;
    } else {
      var b' := b[..|b| - 1];
      assert (a + b)[..|a + b| - 1] == a + b';
      NonZeroAppend(a, b');
    }
  }

  /** A hash appended at the back is kept exactly when it is non-zero. */
  lemma NonZeroSnoc(xs: seq<u32>, x: u32)
    ensures NonZero(xs + [x]) == NonZero(xs) + Keep(x)
  {
    assert (xs + [x])[..|xs|] == xs;
  }

  /** Nine hash fields tested and pushed one by one are the non-zero ones of the nine, in order. */
  lemma NonZeroNine(a: u32, b: u32, c: u32, d: u32, e: u32, f: u32, g: u32, h: u32, i: u32)
    ensures NonZero([a, b, c, d, e, f, g, h, i])
      == Keep(a) + Keep(b) + Keep(c) + Keep(d) + Keep(e) + Keep(f) + Keep(g) + Keep(h) + Keep(i)
  {
    var s1 := [a];
    var s2 := s1 + [b];
    var s3 := s2 + [c];
    var s4 := s3 + [d];
    var s5 := s4 + [e];
    var s6 := s5 + [f];
    var s7 := s6 + [g];
    var s8 := s7 + [h];
    assert s8 + [i] == [a, b, c, d, e, f, g, h, i];
    NonZeroSnoc([], a);
    assert [] + [a] == s1;
    NonZeroSnoc(s1, b);
    NonZeroSnoc(s2, c);
    NonZeroSnoc(s3, d);
    NonZeroSnoc(s4, e);
    NonZeroSnoc(s5, f);
    NonZeroSnoc(s6, g);
    NonZeroSnoc(s7, h);
    NonZeroSnoc(s8, i);
  }

  /** A zero hash contributes nothing; a non-zero hash contributes itself, in place. */
  lemma NonZeroField(a: seq<u32>, x: u32, b: seq<u32>)
    ensures NonZero(a + [x] + b) == NonZero(a) + Keep(x) + NonZero(b)
  {
    NonZeroAppend(a + [x], b);
    NonZeroAppend(a, [x]);
    assert [x][..0] == [];
  }

  lemma {:induction false} NonZeroMembers(xs: seq<u32>)
    ensures |NonZero(xs)| <= |xs|
    ensures forall x :: x in NonZero(xs) <==> x in xs && x != 0
    decreases |xs|
  {
    if xs != [] {
      var init := xs[..|xs| - 1];
      NonZeroMembers(init);
      assert xs == init + [xs[|xs| - 1]];
    }
  }

  lemma {:induction false} NonZeroOfNonZeros(xs: seq<u32>)
    requires forall i | 0 <= i < |xs| :: xs[i] != 0
    ensures NonZero(xs) == xs
    decreases |xs|
  {
    if xs != [] {
      var init := xs[..|xs| - 1];
      NonZeroOfNonZeros(init);
      assert xs == init + [xs[|xs| - 1]];
    }
  }

  /** `xs` back to front. */
  function Reversed(xs: seq<u32>): seq<u32>
    decreases |xs|
  {
    if xs == [] then [] else Reversed(xs[1..]) + [xs[0]]
  }

  lemma {:induction false} ReversedAt(xs: seq<u32>, k: nat)
    requires k < |xs|
    ensures |Reversed(xs)| == |xs| && Reversed(xs)[k] == xs[|xs| - 1 - k]
    decreases |xs|
  {
    ReversedLength(xs[1..]);
    if k < |xs| - 1 {
      ReversedAt(xs[1..], k);
    }
  }

  lemma {:induction false} ReversedLength(xs: seq<u32>)
    ensures |Reversed(xs)| == |xs|
    decreases |xs|
  {
    if xs != [] {
      ReversedLength(xs[1..]);
    }
  }

  /** The lists of `xss`, one after the other. */
  function Flatten(xss: seq<seq<u32>>): seq<u32>
    decreases |xss|
  {
    if xss == [] then [] else Flatten(xss[..|xss| - 1]) + xss[|xss| - 1]
  }

  lemma {:induction false} FlattenAppend(a: seq<seq<u32>>, b: seq<seq<u32>>)
    ensures Flatten(a + b) == Flatten(a) + Flatten(b)
    decreases |b|
  {
    if b == [] {
      assert a + b == a;
    } else {
      var b' := b[..|b| - 1];
      assert (a + b)[..|a + b| - 1] == a + b';
      FlattenAppend(a, b');
    }
  }

  lemma {:induction false} FlattenLength(xss: seq<seq<u32>>, k: nat)
    requires forall i | 0 <= i < |xss| :: |xss[i]| == k
    ensures |Flatten(xss)| == k * |xss|
    decreases |xss|
  {
    if xss != [] {
      FlattenLength(xss[..|xss| - 1], k);
    }
  }

  lemma {:induction false} FlattenMembers(xss: seq<seq<u32>>)
    ensures forall h :: h in Flatten(xss) <==> exists i | 0 <= i < |xss| :: h in xss[i]
    decreases |xss|
  {
    if xss != [] {
      var init := xss[..|xss| - 1];
      FlattenMembers(init);
      forall h ensures h in Flatten(xss) <==> exists i | 0 <= i < |xss| :: h in xss[i] {
        if h in xss[|xss| - 1] {
        } else if exists i | 0 <= i < |xss| :: h in xss[i] {
          var i :| 0 <= i < |xss| && h in xss[i];
          assert h in init[i];
        }
      }
    }
  }

  // ---------------------------------------------------------------------
  // Schemas and the header/body adapter.

  /** An object format: a header schema, a body schema and the references it reports for a decoded pair. */
  datatype Format<!H, !B> = Format(header: Schema<H>, body: Schema<B>, links: (H, B) -> Links)

  datatype Unpacked<H, B> = Unpacked(header: H, body: B, links: Links)

  datatype Packed = Packed(header: seq<u8>, body: seq<u8>, links: Links)

  /** Header first, then body; either failure aborts the object. */
  function Unpack<H, B>(f: Format<H, B>, header: seq<u8>, body: seq<u8>): (r: Result<Unpacked<H, B>>)
    ensures r.Ok? <==> f.header.decode(header).Ok? && f.body.decode(body).Ok?
    ensures f.header.decode(header).Err? ==> r == Err(f.header.decode(header).error)
    ensures r.Ok? ==> r.value.links == f.links(r.value.header, r.value.body)
  {
    var h :- f.header.decode(header);
    var b :- f.body.decode(body);
    Ok(Unpacked(h, b, f.links(h, b)))
  }

  function Pack<H, B>(f: Format<H, B>, h: H, b: B): (r: Packed)
    ensures r.links == f.links(h, b)
  {
    Packed(f.header.encode(h), f.body.encode(b), f.links(h, b))
  }

  /** What was packed unpacks to the same header, body and references. */
  lemma PackUnpack<H(!new), B(!new)>(f: Format<H, B>, h: H, b: B)
    requires LawfulSchema(f.header) && LawfulSchema(f.body)
    requires f.header.wf(h) && f.body.wf(b)
    ensures Unpack(f, Pack(f, h, b).header, Pack(f, h, b).body) == Ok(Unpacked(h, b, Pack(f, h, b).links))
  {
  }

  /**
   * What was unpacked packs back to the same references and to a prefix of
   * each buffer: the whole buffer for an exact schema.
   */
  lemma UnpackPack<H(!new), B(!new)>(f: Format<H, B>, header: seq<u8>, body: seq<u8>)
    requires LawfulSchema(f.header) && LawfulSchema(f.body)
    requires Unpack(f, header, body).Ok?
    ensures var u := Unpack(f, header, body).value;
      var p := Pack(f, u.header, u.body);
      && p.links == u.links
      && p.header <= header && (f.header.exact ==> p.header == header)
      && p.body <= body && (f.body.exact ==> p.body == body)
  {
  }

  /**
   * A header whose layout is not part of this model (the `ObjectZ` and
   * `ResourceObjectZ` headers): decoded, it is carried as the bytes it occupies. How
   * the generic adapter combines the header's references with the body's is
   * not part of this model either: `refs` maps the header bytes and the body's
   * references to the references reported.
   */
  datatype OpaqueHeader = OpaqueHeader(decode: seq<u8> -> Result<seq<u8>>, refs: (seq<u8>, Links) -> Links)

  /**
   * The assumed round trip of an opaque header: what decodes is the prefix of
   * the buffer that the header occupies, and that prefix decodes to itself.
   * Whether the header parser must consume its whole buffer is left open.
   */
  ghost predicate LawfulHeader(h: OpaqueHeader) {
    forall s: seq<u8> | h.decode(s).Ok? :: h.decode(s).value <= s && h.decode(h.decode(s).value) == Ok(h.decode(s).value)
  }

  function Identity(s: seq<u8>): seq<u8> { s }

  function OpaqueSchema(h: OpaqueHeader): Schema<seq<u8>> {
    Schema(h.decode, Identity, (s: seq<u8>) => h.decode(s) == Ok(s), false)
  }

  lemma OpaqueSchemaLawful(h: OpaqueHeader)
    requires LawfulHeader(h)
    ensures LawfulSchema(OpaqueSchema(h))
  {
  }

  /** The two header schemas of the WALL-E object formats. */
  datatype Headers = Headers(objectZ: OpaqueHeader, resourceObjectZ: OpaqueHeader)

  ghost predicate LawfulHeaders(hs: Headers) {
    LawfulHeader(hs.objectZ) && LawfulHeader(hs.resourceObjectZ)
  }

  /** The extractor of a schema that reports no references (`vec![]` for both lists). */
  function NoRefs<B>(x: B): (r: Links)
    ensures r.hard == [] && r.soft == []
  {
    NoLinks
  }

  /** `WALLEObjectFormat<H, B>` with an opaque header `H` and the body's reference extractor. */
  function OpaqueFormat<B>(h: OpaqueHeader, body: Schema<B>, bodyRefs: B -> Links): Format<seq<u8>, B> {
    Format(OpaqueSchema(h), body, (hb: seq<u8>, b: B) => h.refs(hb, bodyRefs(b)))
  }

  /** A format whose body reports no references reports the header's references alone. */
  lemma NoRefsFormat<B>(h: OpaqueHeader, body: Schema<B>)
    ensures forall hb, b :: OpaqueFormat(h, body, NoRefs).links(hb, b) == h.refs(hb, NoLinks)
  {
    forall hb, b ensures OpaqueFormat(h, body, NoRefs).links(hb, b) == h.refs(hb, NoLinks) {
      assert NoRefs(b) == NoLinks;
    }
  }

  /**
   * An object with a lawful header and a well-formed body unpacks to the same
   * header and body, reporting the header's references combined with the
   * body's; what unpacks packs back to a prefix of its header bytes and to
   * the body bytes a lawful body schema accounts for.
   */
  lemma OpaqueFormatRoundTrip<B(!new)>(h: OpaqueHeader, body: Schema<B>, bodyRefs: B -> Links, hb: seq<u8>, b: B, header: seq<u8>, data: seq<u8>)
    requires LawfulHeader(h) && LawfulSchema(body)
    ensures h.decode(hb) == Ok(hb) && body.wf(b) ==>
      Unpack(OpaqueFormat(h, body, bodyRefs), hb, body.encode(b)) == Ok(Unpacked(hb, b, h.refs(hb, bodyRefs(b))))
    ensures Unpack(OpaqueFormat(h, body, bodyRefs), header, data).Ok? ==>
      var u := Unpack(OpaqueFormat(h, body, bodyRefs), header, data).value;
      && u.header <= header && u.links == h.refs(u.header, bodyRefs(u.body))
      && body.encode(u.body) <= data && (body.exact ==> body.encode(u.body) == data)
  {
    OpaqueSchemaLawful(h);
    var f := OpaqueFormat(h, body, bodyRefs);
    if h.decode(hb) == Ok(hb) && body.wf(b) {
      PackUnpack(f, hb, b);
    }
    if Unpack(f, header, data).Ok? {
      UnpackPack(f, header, data);
    }
  }

  /**
   * `FUELObjectFormat<H, B>` and the fuel extract functions: parse the header,
   * then the body; either failure aborts.
   */
  function Extract<B>(h: OpaqueHeader, body: Schema<B>, header: seq<u8>, data: seq<u8>): (r: Result<(seq<u8>, B)>)
    ensures r.Ok? <==> h.decode(header).Ok? && body.decode(data).Ok?
    ensures h.decode(header).Err? ==> r == Err(h.decode(header).error)
    ensures h.decode(header).Ok? && body.decode(data).Err? ==> r == Err(body.decode(data).error)
    ensures r.Ok? ==> r.value == (h.decode(header).value, body.decode(data).value)
  {
    var hd :- h.decode(header);
    var b :- body.decode(data);
    Ok((hd, b))
  }
}
