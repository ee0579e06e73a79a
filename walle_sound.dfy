/**
 * The WALL-E sound object: a `SoundZHeader` whose optional fields depend on
 * the sample rate and on the bytes left, and a body of little-endian signed
 * 16-bit samples. The WAV container the samples are exchanged in is not part
 * of this model: unpacking yields the output sample rate and the samples,
 * packing takes the samples.
 */
module WalleSound {
  import opened Bytes
  import opened Codec
  import opened Objects

  datatype SoundZHeader = SoundZHeader(
    friendlyNameCrc32: u32,
    sampleRate: u32,
    dataSize: Option<u32>,
    soundType: Option<u16>,
    zero: Option<u16>)

  /** The sound types a present `sound_type` may take. */
  predicate KnownSoundType(t: u16) {
    t == 1 || t == 3 || t == 5 || t == 7
  }

  /**
   * `data_size` and `sound_type` are read only when the sample rate is
   * non-zero, `sound_type` must then be a known type, and `zero` is read
   * only when the sample rate is non-zero and exactly two bytes remain.
   */
  function ParseSoundZHeader(s: seq<u8>): Result<(SoundZHeader, seq<u8>)> {
    var name :- ParseU32(s);
    var rate :- ParseU32(name.1);
    var size :- ParseOptionU32(rate.0 != 0, rate.1);
    var kind :- ParseOptionU16(rate.0 != 0, size.1);
    if kind.0.Some? && !KnownSoundType(kind.0.value) then Err(Rejected)
    else
      var zero :- ParseOptionU16(rate.0 != 0 && |kind.1| == 2, kind.1);
      Ok((SoundZHeader(name.0, rate.0, size.0, kind.0, zero.0), zero.1))
  }

  /** `#[nom(Exact)]`. */
  function DecodeSoundZHeader(s: seq<u8>): Result<SoundZHeader> {
    var h :- ParseSoundZHeader(s);
    if h.1 == [] then Ok(h.0) else Err(TrailingBytes)
  }

  /** The writer emits the two words, then only the options that are present, in field order. */
  function EncodeSoundZHeader(h: SoundZHeader): seq<u8> {
    EmitU32(h.friendlyNameCrc32, EmitU32(h.sampleRate, EmitOptionU32(h.dataSize, EmitOptionU16(h.soundType, EmitOptionU16(h.zero, [])))))
  }

  /** The headers that survive a round trip: options as the sample rate calls for, and a known type. */
  predicate WfSoundZHeader(h: SoundZHeader) {
    && (h.dataSize.Some? <==> h.sampleRate != 0)
    && (h.soundType.Some? <==> h.sampleRate != 0)
    && (h.soundType.Some? ==> KnownSoundType(h.soundType.value))
    && (h.zero.Some? ==> h.sampleRate != 0)
  }

  /** The little-endian u32 at offset `i`. */
  function LeU32(s: seq<u8>, i: nat): u32
    requires i + 4 <= |s|
  {
    s[i] as int + 0x100 * s[i + 1] as int + 0x1_0000 * s[i + 2] as int + 0x100_0000 * s[i + 3] as int
  }

  /** The little-endian u16 at offset `i`. */
  function LeU16(s: seq<u8>, i: nat): u16
    requires i + 2 <= |s|
  {
    s[i] as int + 0x100 * s[i + 1] as int
  }

  /** A well-formed header decodes from its own encoding. */
  lemma SoundZHeaderRecovers(h: SoundZHeader)
    requires WfSoundZHeader(h)
    ensures DecodeSoundZHeader(EncodeSoundZHeader(h)) == Ok(h)
  {
    var r4 := EmitOptionU16(h.zero, []);
    var r3 := EmitOptionU16(h.soundType, r4);
    var r2 := EmitOptionU32(h.dataSize, r3);
    var r1 := EmitU32(h.sampleRate, r2);
    if h.zero.Some? {
      U16Recovers(h.zero.value, []);
    }
    if h.sampleRate != 0 {
      U16Recovers(h.soundType.value, r4);
      U32Recovers(h.dataSize.value, r3);
    }
    U32Recovers(h.sampleRate, r2);
    U32Recovers(h.friendlyNameCrc32, r1);
  }

  /**
   * A header decodes exactly when it is 8 bytes with a zero sample rate, or
   * 14 or 16 bytes with a non-zero sample rate and a known sound type at
   * offset 12; the decoded options follow the sample rate, `zero` is present
   * exactly in the 16-byte form, and the header re-encodes to its own bytes.
   */
  lemma SoundZHeaderDecodes(s: seq<u8>)
    ensures DecodeSoundZHeader(s).Ok? <==>
      || (|s| == 8 && LeU32(s, 4) == 0)
      || ((|s| == 14 || |s| == 16) && LeU32(s, 4) != 0 && KnownSoundType(LeU16(s, 12)))
    ensures DecodeSoundZHeader(s).Ok? ==>
      var h := DecodeSoundZHeader(s).value;
      && WfSoundZHeader(h) && h.friendlyNameCrc32 == LeU32(s, 0) && h.sampleRate == LeU32(s, 4)
      && (h.zero.Some? <==> |s| == 16)
      && EncodeSoundZHeader(h) == s
  {
    if |s| >= 8 {
      U32Accounts(s);
      U32Accounts(s[4..]);
      assert s[4..][4..] == s[8..];
      if LeU32(s, 4) != 0 && |s| >= 14 {
        U32Accounts(s[8..]);
        U16Accounts(s[12..]);
        assert s[8..][4..] == s[12..] && s[12..][2..] == s[14..];
        if |s| == 16 {
          U16Accounts(s[14..]);
        }
      }
    }
  }

  /**
   * The ways a header fails: too short for what the sample rate calls for,
   * an unknown sound type, or bytes left over.
   */
  lemma SoundZHeaderErrors(s: seq<u8>)
    ensures |s| < 8 ==> DecodeSoundZHeader(s) == Err(Truncated)
    ensures |s| >= 8 && LeU32(s, 4) == 0 && |s| > 8 ==> DecodeSoundZHeader(s) == Err(TrailingBytes)
    ensures |s| >= 8 && LeU32(s, 4) != 0 && |s| < 14 ==> DecodeSoundZHeader(s) == Err(Truncated)
    ensures |s| >= 14 && LeU32(s, 4) != 0 && !KnownSoundType(LeU16(s, 12)) ==> DecodeSoundZHeader(s) == Err(Rejected)
    ensures |s| >= 14 && LeU32(s, 4) != 0 && KnownSoundType(LeU16(s, 12)) && (|s| == 15 || |s| > 16) ==>
      DecodeSoundZHeader(s) == Err(TrailingBytes)
  {
  }

  /** The WAV sample rate: the header's when non-zero, 44100 otherwise. */
  function OutputRate(h: SoundZHeader): (r: u32)
    ensures r != 0
    ensures h.sampleRate != 0 ==> r == h.sampleRate
    ensures h.sampleRate == 0 ==> r == 44100
  {
    if h.sampleRate != 0 then h.sampleRate else 44100
  }

  // ---------------------------------------------------------------------
  // Samples.

  /** `body.len() as u32 / 2`: the length is truncated to 32 bits before halving. */
  function SampleCount(n: nat): (c: nat)
    ensures n < 0x1_0000_0000 ==> c == n / 2
    ensures 2 * c <= n
  {
    (n % 0x1_0000_0000) / 2
  }

  /** The little-endian signed 16-bit sample `k` of a body. */
  function SampleAt(body: seq<u8>, k: nat): i16
    requires 2 * k + 2 <= |body|
  {
    var u := LeU16(body, 2 * k);
    if u < 0x8000 then u else u - 0x1_0000
  }

  /** The samples `unpack` reads: `SampleCount` of them, back to back. */
  function Samples(body: seq<u8>): (xs: seq<i16>)
    ensures |xs| == SampleCount(|body|)
  {
    seq(SampleCount(|body|), k requires 0 <= k < SampleCount(|body|) => SampleAt(body, k))
  }

  /** The body `pack` writes: every sample as a little-endian i16. */
  function SampleBytes(xs: seq<i16>): seq<u8> {
    EmitWords(I16, xs, [])
  }

  /** The loop of `unpack`: read `SampleCount` samples through a cursor over the body. */
  method ReadSamples(body: seq<u8>) returns (xs: seq<i16>)
    ensures xs == Samples(body)
  {
    var count := SampleCount(|body|);
    var cursor := body;
    xs := [];
    var i := 0;
    while i < count
      invariant 0 <= i <= count
      invariant cursor == body[2 * i..]
      invariant |xs| == i && forall k | 0 <= k < i :: xs[k] == SampleAt(body, k)
    {
      var r := ParseWord(I16, cursor).value;
      WordAccounts(I16, cursor);
      assert r.0 == SampleAt(body, i);
      xs := xs + [r.0];
      cursor := r.1;
      i := i + 1;
    }
  }

  /** The loop of `pack`: append every sample as a little-endian i16. */
  method WriteSamples(xs: seq<i16>) returns (body: seq<u8>)
    ensures body == SampleBytes(xs)
  {
    body := [];
    var i := 0;
    while i < |xs|
      invariant 0 <= i <= |xs|
      invariant body + SampleBytes(xs[i..]) == SampleBytes(xs)
    {
      assert xs[i..] == [xs[i]] + xs[i + 1..];
      body := body + EmitWord(I16, xs[i], []);
      i := i + 1;
    }
    assert xs[i..] == [];
  }

  /** What `pack` writes is two bytes per sample, each pair reading back as its sample. */
  lemma {:induction false} SampleBytesAt(xs: seq<i16>)
    ensures |SampleBytes(xs)| == 2 * |xs|
    ensures forall k | 0 <= k < |xs| :: SampleAt(SampleBytes(xs), k) == xs[k]
    decreases |xs|
  {
    if xs != [] {
      var rest := SampleBytes(xs[1..]);
      SampleBytesAt(xs[1..]);
      WordRecovers(I16, xs[0], rest);
      var b := SampleBytes(xs);
      assert b == EmitWord(I16, xs[0], rest);
      assert b[2..] == rest;
      forall k | 1 <= k < |xs| ensures SampleAt(b, k) == xs[k] {
        assert SampleAt(b, k) == SampleAt(rest, k - 1);
      }
    }
  }

  /** Packing then unpacking gives the samples back, up to 2^31 of them. */
  lemma PackUnpackSamples(xs: seq<i16>)
    requires 2 * |xs| < 0x1_0000_0000
    ensures Samples(SampleBytes(xs)) == xs
  {
    SampleBytesAt(xs);
  }

  /** Unpacking then packing gives back an even-length body shorter than 4 GiB. */
  lemma {:induction false} UnpackPackSamples(body: seq<u8>)
    requires |body| % 2 == 0 && |body| < 0x1_0000_0000
    ensures SampleBytes(Samples(body)) == body
    decreases |body|
  {
    if body != [] {
      var xs := Samples(body);
      assert xs[1..] == Samples(body[2..]) by {
        forall k | 0 <= k < |xs| - 1 ensures xs[1..][k] == Samples(body[2..])[k] {
          assert SampleAt(body, k + 1) == SampleAt(body[2..], k);
        }
      }
      UnpackPackSamples(body[2..]);
      WordAccounts(I16, body);
      assert ParseWord(I16, body).value == (xs[0] as int, body[2..]);
    }
  }

  // ---------------------------------------------------------------------
  // The object format.

  /** What `unpack` yields: the header, the WAV sample rate, the samples and the references. */
  datatype SoundUnpacked = SoundUnpacked(header: SoundZHeader, rate: u32, samples: seq<i16>, links: Links)

  function UnpackSound(header: seq<u8>, body: seq<u8>): (r: Result<SoundUnpacked>)
    ensures r.Ok? <==> DecodeSoundZHeader(header).Ok?
    ensures r.Err? ==> r.error == DecodeSoundZHeader(header).error
  {
    var h :- DecodeSoundZHeader(header);
    Ok(SoundUnpacked(h, OutputRate(h), Samples(body), NoRefs(h)))
  }

  /** `SoundObjectFormat::unpack`: decode the header, then read the samples in a loop. */
  method Unpack(header: seq<u8>, body: seq<u8>) returns (r: Result<SoundUnpacked>)
    ensures r == UnpackSound(header, body)
  {
    var h := DecodeSoundZHeader(header);
    if h.Err? {
      return Err(h.error);
    }
    var xs := ReadSamples(body);
    r := Ok(SoundUnpacked(h.value, OutputRate(h.value), xs, NoRefs(h.value)));
  }

  /** `SoundObjectFormat::pack`: write the header, then the samples in a loop. */
  method Pack(h: SoundZHeader, xs: seq<i16>) returns (p: Packed)
    ensures p == Packed(EncodeSoundZHeader(h), SampleBytes(xs), NoRefs(h))
  {
    var body := WriteSamples(xs);
    p := Packed(EncodeSoundZHeader(h), body, NoRefs(h));
  }

  /**
   * A well-formed header and fewer than 2^31 samples, packed, unpack to the
   * same header and samples, with the output rate the header calls for.
   */
  lemma SoundRoundTrip(h: SoundZHeader, xs: seq<i16>)
    requires WfSoundZHeader(h) && 2 * |xs| < 0x1_0000_0000
    ensures UnpackSound(EncodeSoundZHeader(h), SampleBytes(xs)) == Ok(SoundUnpacked(h, OutputRate(h), xs, NoLinks))
  {
    SoundZHeaderRecovers(h);
    PackUnpackSamples(xs);
  }

  /** An object that unpacks packs back to the same header and, for an even-length body under 4 GiB, the same body. */
  lemma SoundReencodes(header: seq<u8>, body: seq<u8>)
    requires UnpackSound(header, body).Ok? && |body| % 2 == 0 && |body| < 0x1_0000_0000
    ensures var u := UnpackSound(header, body).value;
      EncodeSoundZHeader(u.header) == header && SampleBytes(u.samples) == body
  {
    SoundZHeaderDecodes(header);
    UnpackPackSamples(body);
  }
}
