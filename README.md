# dpc-lib object codecs, modelled in Dafny

dpc-lib unpacks and repacks the objects stored in the data archives of two
games built on Asobo's engines: WALL-E and FUEL. Each object is a pair of byte
buffers: a header and a body. Its class is named by a 32-bit hash, and its
references to other objects are two lists of name hashes, the hard links and
the soft links. This project models the part of the library that gives those
buffers meaning:

- the body and header layouts of the WALL-E object classes (mesh, skin,
  material and its two older variants, sound, node and its older variant,
  skeleton, game object, material-object, rotation shape, collision volume,
  warp, light data, mesh data, omni light, camera, surface data);
- the reference extractors (`hard_links` / `soft_links`) of those classes;
- the adapters that decode header then body and report the references, and
  that write a decoded pair back (`pack` / `unpack`);
- the version registry `get_formats`, which maps a game-version label to a
  table from class hash to adapter;
- the three FUEL extractors (mesh, node, collision volume).

## How the model is built

- **Bytes** holds the little-endian scalars. A parser takes the remaining
  input and returns the value and what is left. An emitter writes a value in
  front of a given tail. Floats are carried as their 32-bit patterns.
- **Codec** is a small interpreter for record layouts (`Kind`): fixed words,
  runs of words, `u32`-prefixed arrays, fixed repeats, opaque primitives, and
  sequences of fields. Laws are proved once, by induction on the layout:
  - a well-formed value parses back from its emission (`Recover`);
  - a successful parse re-emits the bytes it consumed (`Account`);
  - emission appends its tail (`EmitAppends`);
  - a fixed layout has a fixed width (`WidthLen`).
- **Schemas** turns a record type and its layout into a `Schema`: decode,
  encode, well-formedness, and whether the schema is exact (`#[nom(Exact)]`).
  `LawfulSchema` states both round trips: decode after encode gives the value
  back, and a decoded value re-encodes to a prefix of its input (the whole
  input when the schema is exact).
- **Objects** defines `Links`, the adapter `Format` with its `Unpack` and
  `Pack`, and the list operations the extractors are built from.
- One module per source file holds the records of that file and their
  lawfulness, width, link and format members.
- Where the source changes state step by step, the model is a method with a
  loop or successive updates, proved against a specification function:
  - the `push`-under-`if` extractors of node and material;
  - the appending extractors of skin, skeleton and game object;
  - the sample loops of sound;
  - the successive `insert`s of `get_formats`.
- The primitives of the two `common.rs` files are parameters. This covers
  Color, SphereZ, the Pascal strings, and the `ObjectZ` / `ResourceObjectZ`
  headers. Each is a framing parser that returns its raw bytes, and its round
  trip is a precondition (`Lawful`, `LawfulHeader`). For the two headers that
  law is a prefix law: what decodes is the prefix of the buffer the header
  occupies, and that prefix decodes to itself. Whether the header parser must
  consume its whole buffer is left open. `common.rs` is not part of this model.
- A panic in the source is an `Err` result in the model.

## Model

| member | source | states |
|---|---|---|
| WalleRegistry.InsertBase | src/walle_fmt/mod.rs:82-111 | after the 28 base inserts, every base class maps to its base adapter, and every other class keeps its previous entry |
| WalleRegistry.GetFormats | src/walle_fmt/mod.rs:81-181 | fails with `UnknownVersion` exactly when the label is none of the seven known ones; otherwise the table maps every class hash to what `Lookup` gives for that version (base inserts, then the version's seven overlay inserts) |
| WalleRegistry.OverlayAgrees | src/walle_fmt/mod.rs:114-175 | the seven overlay inserts on top of the base table give exactly the table `Lookup` describes for that version |
| WalleRegistry.ParseLabelOf | src/walle_fmt/mod.rs:113-177 | each known version's full label is recognised as that version |
| WalleRegistry.LabelsDiffer | src/walle_fmt/mod.rs:114-168 | the seven labels are pairwise distinct, so the match arms never overlap |
| WalleRegistry.AcceptedLabels | src/walle_fmt/mod.rs:113-177 | a string is accepted iff it is one of the seven labels, and recognising it gives back the version whose label it is |
| WalleRegistry.BaseShared | src/walle_fmt/mod.rs:84-111 | every version's table holds the same adapter for each of the 28 base classes |
| WalleRegistry.TableClasses | src/walle_fmt/mod.rs:84-175 | a class has an entry iff it is a base or an overlay class |
| WalleRegistry.BaseCount | src/walle_fmt/mod.rs:84-111 | the base inserts use 28 distinct class hashes |
| WalleRegistry.OverlayCount | src/walle_fmt/mod.rs:115-121 | the overlay inserts use 7 distinct class hashes |
| WalleRegistry.ClassesDisjoint | src/walle_fmt/mod.rs:84-121 | no overlay class is a base class |
| WalleRegistry.ClassCounts | src/walle_fmt/mod.rs:84-121 | base and overlay classes are disjoint; 28 + 7 = 35 classes in all |
| WalleRegistry.TableSize | src/walle_fmt/mod.rs:81-181 | any table that agrees with a version's `Lookup` has exactly the 35 base and overlay classes as keys |
| WalleRegistry.MeshByVersion | src/walle_fmt/mod.rs:116-170 | the mesh adapter is the base one for 67/66, Alt for 65/64, AltAlt for 60/50.07 (1.325), AltAltAlt for 1.220 only (each an iff) |
| WalleRegistry.MaterialByVersion | src/walle_fmt/mod.rs:115-169 | the material adapter is AltAlt iff 1.325.50.07, Alt iff 1.220.50.07, the base one otherwise |
| WalleRegistry.ParticlesSkinNodeByVersion | src/walle_fmt/mod.rs:119-173 | particles is base iff 67/66/65; skin and node are Alt iff one of the two oldest labels |
| WalleRegistry.TablesDifferInOverlay | src/walle_fmt/mod.rs:113-176 | two versions' tables can only differ on an overlay class |
| WalleRegistry.TablesCoincide | src/walle_fmt/mod.rs:114-131 | two versions give the same table iff they are equal or are 1.381.67.09 and 1.381.66.09 |
| WalleMesh.VertexLayoutWidths | src/walle_fmt/mesh.rs:54-107 | the 4Blend, 1Blend, NoBlend and PositionUV element layouts are 60, 48, 36 and 24 bytes, the strides that select them |
| WalleMesh.VertexDataRecovers | src/walle_fmt/mesh.rs:118-164 | writing a vertex buffer (its elements only, no tag) and parsing with its stride and count gives the buffer back |
| WalleMesh.VertexDataAccounts | src/walle_fmt/mesh.rs:118-154 | a stride other than 60/48/36/24 is an error; a successful parse picks the variant of that stride, consumes count × stride bytes and re-emits them |
| WalleMesh.VertexBufferExtRecovers | src/walle_fmt/mesh.rs:183-195 | a buffer whose stored size and count match its variant parses back from its emission |
| WalleMesh.VertexBufferExtAccounts | src/walle_fmt/mesh.rs:183-195 | a parsed buffer has matching size and count and re-emits the consumed bytes |
| WalleMesh.PositionUVShadowFails | src/walle_fmt/mesh.rs:203-218 | with the source's stride 12 for PositionUV, the rebuilt buffer cannot be parsed again (error `UnmatchedVariant(12)`) |
| WalleMesh.VertexBufferExtFromRoundTrip | src/walle_fmt/mesh.rs:203-218 | with stride 24 for PositionUV, every rebuilt buffer is well formed and round-trips; the source's strides agree with this for every variant except PositionUV |
| WalleMesh.IndexBufferExtRecovers | src/walle_fmt/mesh.rs:220-231 | an index buffer whose stored count is its length parses back from its emission |
| WalleMesh.IndexBufferExtAccounts | src/walle_fmt/mesh.rs:220-231 | a parsed index buffer holds exactly `index_count` i16 values and re-emits the consumed bytes |
| WalleMesh.IndexCountVerbatim | src/walle_fmt/mesh.rs:220-247 | the stored count is written verbatim, so a buffer whose count is not its length does not round-trip |
| WalleMesh.IndexBufferExtFrom | src/walle_fmt/mesh.rs:239-247 | the shadow conversion keeps id and indices and recomputes the count as the length |
| WalleMesh.MeshZRecovers | src/walle_fmt/mesh.rs:275-297 | a well-formed mesh body parses back from its emission |
| WalleMesh.MeshZAccounts | src/walle_fmt/mesh.rs:275-297 | a parsed mesh body is well formed and re-emits the consumed bytes |
| WalleMesh.MeshZSchemaLawful | src/walle_fmt/mesh.rs:275-297 | the mesh body schema satisfies both round trips; it is not exact |
| WalleMesh.MeshZTrailing | src/walle_fmt/mesh.rs:278-279 | a mesh body followed by any extra bytes still decodes to the same mesh |
| WalleMesh.MeshZHeaderSchemaLawful | src/walle_fmt/mesh.rs:299-312 | the mesh header schema satisfies both round trips and is exact |
| WalleMesh.MeshZHeaderTrailing | src/walle_fmt/mesh.rs:302-312 | a mesh header decodes from its encoding, and any extra byte makes it fail with `TrailingBytes` |
| WalleMesh.MeshZHeaderLinks | src/walle_fmt/mesh.rs:314-322 | the header has no hard links; its soft links are `crc32s` verbatim |
| WalleMesh.MeshZLinks | src/walle_fmt/mesh.rs:324-332 | the body's hard links are `material_crc32s` verbatim; no soft links |
| WalleMesh.MeshFormat | src/walle_fmt/mesh.rs:350-388 | the adapter decodes the exact header, then the body, and reports the header's links only |
| WalleMesh.MeshRoundTrip | src/walle_fmt/mesh.rs:350-615 | pack then unpack gives the header, body and `([], crc32s)` back; an unpacked object repacks to its header and a prefix of its body |
| WalleSkin.SkinZSchemaLawful | src/walle_fmt/skin.rs:83-102 | the skin body schema (mesh hashes, 8-byte unknowns, bones, class-id byte, cache check, nested sections) satisfies both round trips |
| WalleSkin.SkinZHeaderSchemaLawful | src/walle_fmt/skin.rs:104-116 | the skin header schema satisfies both round trips, given lawful primitives |
| WalleSkin.SkinZTrailing | src/walle_fmt/skin.rs:83-102 | the body schema is not exact: extra bytes after a body are tolerated |
| WalleSkin.SkinZHeaderTrailing | src/walle_fmt/skin.rs:104-116 | the header schema is not exact: extra bytes after a header are tolerated |
| WalleSkin.SkinZSoftLinks | src/walle_fmt/skin.rs:118-128 | the body's soft links are `mesh_crc32s` verbatim and in order; no hard links |
| WalleSkin.SkinZHeaderSoftLinks | src/walle_fmt/skin.rs:130-140 | the header's soft links are exactly `[skel_crc32]`, zero included; no hard links |
| WalleSkin.SkinFormat | src/walle_fmt/skin.rs:166-221 | the adapter decodes header then body and reports the header's links |
| WalleSkin.SkinRoundTrip | src/walle_fmt/skin.rs:166-221 | pack then unpack gives the pair and `([], [skel_crc32])` back; an unpacked object repacks to prefixes of its buffers |
| WalleMaterial.MaterialZSchemaLawful | src/walle_fmt/material.rs:9-27 | the material schema satisfies both round trips and is exact |
| WalleMaterial.MaterialZWidth | src/walle_fmt/material.rs:13-27 | the material layout is 172 bytes |
| WalleMaterial.MaterialZSize | src/walle_fmt/material.rs:9-27 | a material body decodes only from exactly 172 bytes, and every encoding is 172 bytes |
| WalleMaterial.MaterialZHardLinks | src/walle_fmt/material.rs:78-114 | the nine `if`/`push` steps produce the nine bitmap hashes in declared order, zeros skipped |
| WalleMaterial.MaterialZLinksBounded | src/walle_fmt/material.rs:78-114 | no soft links; at most 9 hard links; a hash is a hard link iff it is a non-zero bitmap field |
| WalleMaterial.MaterialFormat | src/walle_fmt/material.rs:136 | an `ResourceObjectZ` header paired with the material body; reports `refs(header, MaterialZLinks(body))`, where `refs` is the header's combination parameter; round trip in `MaterialRoundTrip` |
| WalleMaterial.MaterialRoundTrip | src/walle_fmt/material.rs:136 | under a lawful `ResourceObjectZ` header, a header the schema accepts and a well-formed material body pack and unpack to the same pair, reporting `refs(header, MaterialZLinks(body))`; what unpacks packs back to a prefix of the header buffer and to exactly the body buffer |
| WalleMaterial.MaterialZAltHeadWidth | src/walle_fmt/material.rs:33-36 | the fixed head of the Alt layout (color, emission, i32, 28 constants) is 144 bytes |
| WalleMaterial.MaterialZAltAltHeadWidth | src/walle_fmt/material.rs:59-63 | the fixed head of the AltAlt layout (31 constants) is 156 bytes |
| WalleMaterial.GatedRecovers | src/walle_fmt/material.rs:41-51 | flag byte, both options when the flag is non-zero, then six bitmaps parse back from their emission |
| WalleMaterial.GatedAccounts | src/walle_fmt/material.rs:41-51 | both options are present iff the flag byte is non-zero; the parse consumes 25 or 33 bytes; re-emission normalises the flag to 0/1 |
| WalleMaterial.OptionedRecovers | src/walle_fmt/material.rs:32-53 | an Alt-style body with both options or neither parses back, with the flag the writer derives |
| WalleMaterial.OptionedAccounts | src/walle_fmt/material.rs:32-53 | a parsed Alt-style body re-emits its bytes except that a non-zero flag becomes 1 |
| WalleMaterial.OptionedFlagAt | src/walle_fmt/material.rs:41-47 | the written flag byte comes right after the head and is 1 iff `unknown_crc320` is present; the stored flag is ignored |
| WalleMaterial.GatedLoneFirst | src/walle_fmt/material.rs:41-51 | only the first option present: the written bytes are too short to parse |
| WalleMaterial.GatedLoneSecond | src/walle_fmt/material.rs:41-51 | only the second option present: the written bytes parse, leaving 4 bytes over |
| WalleMaterial.OptionedLoneFirst | src/walle_fmt/material.rs:32-53 | only the first option present: the exact decode of the encoding fails with `Truncated` |
| WalleMaterial.OptionedLoneSecond | src/walle_fmt/material.rs:32-53 | only the second option present: the exact decode of the encoding fails with `TrailingBytes` |
| WalleMaterial.OptionedLinksReversed | src/walle_fmt/material.rs:116-134 | hard links are the six `bitmap_crc32s` in reverse order, zeros kept; no soft links |
| WalleMaterial.MaterialZAltRoundTrip | src/walle_fmt/material.rs:32-53 | round trip when the options agree; a decoded body has 169 or 177 bytes (177 iff the flag is non-zero) and re-encodes with the flag normalised |
| WalleMaterial.MaterialZAltAltRoundTrip | src/walle_fmt/material.rs:58-76 | the same for AltAlt, with 181 or 189 bytes |
| WalleMaterial.MaterialFormatAlt | src/walle_fmt/material.rs:137 | an `ResourceObjectZ` header paired with the Alt material body; reports `refs(header, OptionedLinks(body))`, where `refs` is the header's combination parameter; round trip in `MaterialAltRoundTrip` |
| WalleMaterial.MaterialAltRoundTrip | src/walle_fmt/material.rs:137 | under a lawful `ResourceObjectZ` header, a body with both options or neither packs and unpacks to the same header and to the body with its flag normalised, reporting `refs(header, OptionedLinks(body))`; what unpacks packs back to a prefix of the header buffer and to the body buffer with its flag byte normalised to 0 or 1 |
| WalleMaterial.MaterialFormatAltAlt | src/walle_fmt/material.rs:138 | an `ResourceObjectZ` header paired with the AltAlt material body; reports `refs(header, OptionedLinks(body))`, where `refs` is the header's combination parameter; round trip in `MaterialAltAltRoundTrip` |
| WalleMaterial.MaterialAltAltRoundTrip | src/walle_fmt/material.rs:138 | under a lawful `ResourceObjectZ` header, a body with both options or neither packs and unpacks to the same header and to the body with its flag normalised, reporting `refs(header, OptionedLinks(body))`; what unpacks packs back to a prefix of the header buffer and to the body buffer with its flag byte normalised to 0 or 1 |
| WalleSound.SoundZHeaderRecovers | src/walle_fmt/sound.rs:13-33 | a header whose options match its sample rate and whose type is 1, 3, 5 or 7 decodes from its encoding |
| WalleSound.SoundZHeaderDecodes | src/walle_fmt/sound.rs:16-33 | the header decodes iff it is 8 bytes with rate 0, or 14 / 16 bytes with a non-zero rate and a known type; `data_size` and `sound_type` are present iff the rate is non-zero, `zero` iff 16 bytes |
| WalleSound.SoundZHeaderErrors | src/walle_fmt/sound.rs:16-33 | which error each malformed header gives: `Truncated`, `TrailingBytes` or `Rejected` for an unknown type |
| WalleSound.OutputRate | src/walle_fmt/sound.rs:101-107 | the WAV rate is the header's rate when non-zero, 44100 otherwise |
| WalleSound.SampleCount | src/walle_fmt/sound.rs:112 | the sample count is half the body length (after truncation to 32 bits) |
| WalleSound.Samples | src/walle_fmt/sound.rs:112-121 | unpack reads exactly `SampleCount` samples |
| WalleSound.ReadSamples | src/walle_fmt/sound.rs:117-121 | the reading loop yields the little-endian i16 samples of the body |
| WalleSound.WriteSamples | src/walle_fmt/sound.rs:75-77 | the writing loop appends each sample as a little-endian i16 |
| WalleSound.SampleBytesAt | src/walle_fmt/sound.rs:75-77 | the written body is two bytes per sample, and each pair reads back as its sample |
| WalleSound.PackUnpackSamples | src/walle_fmt/sound.rs:75-121 | writing then reading gives the samples back (below 2^31 samples) |
| WalleSound.UnpackPackSamples | src/walle_fmt/sound.rs:75-121 | reading then writing gives back an even-length body below 4 GiB |
| WalleSound.UnpackSound | src/walle_fmt/sound.rs:85-138 | unpack succeeds iff the header decodes, with that error otherwise |
| WalleSound.Unpack | src/walle_fmt/sound.rs:85-138 | the unpack method (header decode, then the sample loop) computes `UnpackSound` |
| WalleSound.Pack | src/walle_fmt/sound.rs:54-83 | pack writes the encoded header, the samples, and the header's (empty) references |
| WalleSound.SoundRoundTrip | src/walle_fmt/sound.rs:54-138 | pack then unpack gives back the header, its output rate, the samples and no references |
| WalleSound.SoundReencodes | src/walle_fmt/sound.rs:54-138 | an unpacked object packs back to the same header bytes and, for an even-length body below 4 GiB, the same body |
| WalleNode.NodeZSchemaLawful | src/walle_fmt/node.rs:10-49 | the node schema satisfies both round trips and is exact, given lawful primitives |
| WalleNode.NodeZSoftLinks | src/walle_fmt/node.rs:75-111 | the nine `if`/`push` steps produce the nine leading hashes in declared order, zeros skipped |
| WalleNode.NodeZLinksBounded | src/walle_fmt/node.rs:75-111 | no hard links; at most 9 soft links; a hash is a soft link iff it is a non-zero leading hash |
| WalleNode.NodeFormat | src/walle_fmt/node.rs:123 | an `ResourceObjectZ` header paired with the node body; reports `refs(header, NodeZLinks(body))`, where `refs` is the header's combination parameter; round trip in `NodeRoundTrip` |
| WalleNode.NodeRoundTrip | src/walle_fmt/node.rs:123 | under a lawful `ResourceObjectZ` header and lawful primitives, a header the schema accepts and a well-formed node body pack and unpack to the same pair, reporting `refs(header, NodeZLinks(body))`; what unpacks packs back to a prefix of the header buffer and to exactly the body buffer |
| WalleNode.NodeZAltSchemaLawful | src/walle_fmt/node.rs:51-73 | the older node schema satisfies both round trips and is exact |
| WalleNode.NodeZAltWidth | src/walle_fmt/node.rs:55-73 | the older node layout is 390 bytes |
| WalleNode.NodeZAltSize | src/walle_fmt/node.rs:51-73 | an older node body decodes only from exactly 390 bytes, and every encoding is 390 bytes |
| WalleNode.NodeFormatAlt | src/walle_fmt/node.rs:113-124 | an `ResourceObjectZ` header paired with the older node body; reports `refs(header, NoLinks)`, where `refs` is the header's combination parameter; round trip in `NodeAltRoundTrip` |
| WalleNode.NodeAltRoundTrip | src/walle_fmt/node.rs:113-124 | under a lawful `ResourceObjectZ` header, a header the schema accepts and a well-formed older node body pack and unpack to the same pair, reporting `refs(header, NoLinks)`; what unpacks packs back to a prefix of the header buffer and to exactly the body buffer |
| WalleSkel.SkelZSchemaLawful | src/walle_fmt/skel.rs:13-77 | the skeleton schema (bones, collision bones, nested hash arrays) satisfies both round trips and is exact |
| WalleSkel.UserDefines | src/walle_fmt/skel.rs:84-98 | the bones' `user_define_crc32` in bone order |
| WalleSkel.SkelZSoftLinks | src/walle_fmt/skel.rs:79-99 | the appends produce the non-zero user-define hashes, then all material hashes, then all mesh-data hashes |
| WalleSkel.SkelZLinksMembers | src/walle_fmt/skel.rs:79-99 | no hard links; a hash is a soft link iff it is a non-zero user define, a material hash or a mesh-data hash; collision bones contribute nothing |
| WalleSkel.SkelFormat | src/walle_fmt/skel.rs:101 | an `ResourceObjectZ` header paired with the skeleton body; reports `refs(header, SkelZLinks(body))`, where `refs` is the header's combination parameter; round trip in `SkelRoundTrip` |
| WalleSkel.SkelRoundTrip | src/walle_fmt/skel.rs:101 | under a lawful `ResourceObjectZ` header and lawful primitives, a header the schema accepts and a well-formed skeleton body pack and unpack to the same pair, reporting `refs(header, SkelZLinks(body))`; what unpacks packs back to a prefix of the header buffer and to exactly the body buffer |
| WalleGameObj.GameObjZSchemaLawful | src/walle_fmt/gameobj.rs:12-24 | the game-object schema satisfies both round trips and is exact |
| WalleGameObj.ChildCrcs | src/walle_fmt/gameobj.rs:31-37 | each child's `crc32s`, in child order |
| WalleGameObj.GameObjZSoftLinks | src/walle_fmt/gameobj.rs:26-38 | the loop computes the concatenation of the children's hashes, zeros kept |
| WalleGameObj.GameObjZLinksMembers | src/walle_fmt/gameobj.rs:26-38 | no hard links; a hash is a soft link iff some child lists it |
| WalleGameObj.GameObjFormat | src/walle_fmt/gameobj.rs:40 | an `ResourceObjectZ` header paired with the game-object body; reports `refs(header, GameObjZLinks(body))`, where `refs` is the header's combination parameter; round trip in `GameObjRoundTrip` |
| WalleGameObj.GameObjRoundTrip | src/walle_fmt/gameobj.rs:40 | under a lawful `ResourceObjectZ` header and lawful primitives, a header the schema accepts and a well-formed game-object body pack and unpack to the same pair, reporting `refs(header, GameObjZLinks(body))`; what unpacks packs back to a prefix of the header buffer and to exactly the body buffer |
| WalleMaterialObj.MaterialObjZSchemaLawful | src/walle_fmt/materialobj.rs:10-21 | the material-object schema satisfies both round trips and is exact |
| WalleMaterialObj.MaterialObjZEmpty | src/walle_fmt/materialobj.rs:19-21 | an empty entry list is exactly the four bytes of a zero count |
| WalleMaterialObj.MaterialObjFormat | src/walle_fmt/materialobj.rs:23-33 | an `ResourceObjectZ` header paired with the material-object body; reports `refs(header, NoLinks)`, where `refs` is the header's combination parameter; round trip in `MaterialObjRoundTrip` |
| WalleMaterialObj.MaterialObjRoundTrip | src/walle_fmt/materialobj.rs:23-33 | under a lawful `ResourceObjectZ` header, a header the schema accepts and a well-formed material-object body pack and unpack to the same pair, reporting `refs(header, NoLinks)`; what unpacks packs back to a prefix of the header buffer and to exactly the body buffer |
| WalleRotShape.RotShapeZSchemaLawful | src/walle_fmt/rotshape.rs:13-22 | the rotation-shape schema satisfies both round trips and is exact |
| WalleRotShape.RotShapeZEmitLength | src/walle_fmt/rotshape.rs:14-21 | an encoding is 30 + 12·vertices + 4·ints + 12·sizes + 8·texcoords + 4·materials bytes |
| WalleRotShape.RotShapeZSize | src/walle_fmt/rotshape.rs:13-22 | a body decodes only from exactly that many bytes for the decoded counts |
| WalleRotShape.RotShapeFormat | src/walle_fmt/rotshape.rs:24-34 | an `ObjectZ` header paired with the rotation-shape body; reports `refs(header, NoLinks)`, where `refs` is the header's combination parameter; round trip in `RotShapeRoundTrip` |
| WalleRotShape.RotShapeRoundTrip | src/walle_fmt/rotshape.rs:24-34 | under a lawful `ObjectZ` header, a header the schema accepts and a well-formed rotation-shape body pack and unpack to the same pair, reporting `refs(header, NoLinks)`; what unpacks packs back to a prefix of the header buffer and to exactly the body buffer |
| WalleCollisionVol.CollisionVolZSchemaLawful | src/walle_fmt/collisionvol.rs:11-18 | the collision-volume schema satisfies both round trips and is exact |
| WalleCollisionVol.CollisionVolZWidth | src/walle_fmt/collisionvol.rs:11-18 | the layout is 252 bytes (124 plus two matrices) |
| WalleCollisionVol.CollisionVolZSize | src/walle_fmt/collisionvol.rs:10-18 | a body decodes only from exactly 252 bytes; every encoding is 252 bytes |
| WalleCollisionVol.CollisionVolFormat | src/walle_fmt/collisionvol.rs:20-30 | an `ObjectZ` header paired with the collision-volume body; reports `refs(header, NoLinks)`, where `refs` is the header's combination parameter; round trip in `CollisionVolRoundTrip` |
| WalleCollisionVol.CollisionVolRoundTrip | src/walle_fmt/collisionvol.rs:20-30 | under a lawful `ObjectZ` header, a header the schema accepts and a well-formed collision-volume body pack and unpack to the same pair, reporting `refs(header, NoLinks)`; what unpacks packs back to a prefix of the header buffer and to exactly the body buffer |
| WalleWarp.WarpZSchemaLawful | src/walle_fmt/warp.rs:11-20 | the warp schema (8 `Vec3f`, 4 `Vec2f` as constant counts) satisfies both round trips and is exact |
| WalleWarp.WarpZWidth | src/walle_fmt/warp.rs:11-20 | the layout is 144 bytes |
| WalleWarp.WarpZSize | src/walle_fmt/warp.rs:10-20 | a body decodes only from exactly 144 bytes; every encoding is 144 bytes |
| WalleWarp.WarpFormat | src/walle_fmt/warp.rs:22-32 | an `ResourceObjectZ` header paired with the warp body; reports `refs(header, NoLinks)`, where `refs` is the header's combination parameter; round trip in `WarpRoundTrip` |
| WalleWarp.WarpRoundTrip | src/walle_fmt/warp.rs:22-32 | under a lawful `ResourceObjectZ` header, a header the schema accepts and a well-formed warp body pack and unpack to the same pair, reporting `refs(header, NoLinks)`; what unpacks packs back to a prefix of the header buffer and to exactly the body buffer |
| WalleLightData.LightDataZSchemaLawful | src/walle_fmt/lightdata.rs:11-18 | the light-data schema satisfies both round trips and is exact |
| WalleLightData.LightDataZWidth | src/walle_fmt/lightdata.rs:11-18 | the layout is 56 bytes |
| WalleLightData.LightDataZSize | src/walle_fmt/lightdata.rs:10-18 | a body decodes only from exactly 56 bytes; every encoding is 56 bytes |
| WalleLightData.LightDataFormat | src/walle_fmt/lightdata.rs:20-30 | an `ResourceObjectZ` header paired with the light-data body; reports `refs(header, NoLinks)`, where `refs` is the header's combination parameter; round trip in `LightDataRoundTrip` |
| WalleLightData.LightDataRoundTrip | src/walle_fmt/lightdata.rs:20-30 | under a lawful `ResourceObjectZ` header, a header the schema accepts and a well-formed light-data body pack and unpack to the same pair, reporting `refs(header, NoLinks)`; what unpacks packs back to a prefix of the header buffer and to exactly the body buffer |
| WalleMeshData.MeshDataZSchemaLawful | src/walle_fmt/meshdata.rs:10-14 | the mesh-data schema (an f32 then a Color) satisfies both round trips and is exact, given a lawful Color |
| WalleMeshData.MeshDataFormat | src/walle_fmt/meshdata.rs:16-26 | an `ResourceObjectZ` header paired with the mesh-data body; reports `refs(header, NoLinks)`, where `refs` is the header's combination parameter; round trip in `MeshDataRoundTrip` |
| WalleMeshData.MeshDataRoundTrip | src/walle_fmt/meshdata.rs:16-26 | under a lawful `ResourceObjectZ` header and lawful primitives, a header the schema accepts and a well-formed mesh-data body pack and unpack to the same pair, reporting `refs(header, NoLinks)`; what unpacks packs back to a prefix of the header buffer and to exactly the body buffer |
| WalleOmni.OmniZSchemaLawful | src/walle_fmt/omni.rs:11-14 | the omni schema satisfies both round trips and is exact |
| WalleOmni.OmniZWidth | src/walle_fmt/omni.rs:11-14 | the layout is 200 bytes |
| WalleOmni.OmniZSize | src/walle_fmt/omni.rs:10-14 | a body decodes only from exactly 200 bytes; every encoding is 200 bytes |
| WalleOmni.OmniFormat | src/walle_fmt/omni.rs:16-26 | an `ObjectZ` header paired with the omni body; reports `refs(header, NoLinks)`, where `refs` is the header's combination parameter; round trip in `OmniRoundTrip` |
| WalleOmni.OmniRoundTrip | src/walle_fmt/omni.rs:16-26 | under a lawful `ObjectZ` header, a header the schema accepts and a well-formed omni body pack and unpack to the same pair, reporting `refs(header, NoLinks)`; what unpacks packs back to a prefix of the header buffer and to exactly the body buffer |
| WalleCamera.CameraZSchemaLawful | src/walle_fmt/camera.rs:11-15 | the camera schema satisfies both round trips and is exact |
| WalleCamera.CameraZWidth | src/walle_fmt/camera.rs:11-15 | the layout is 12 bytes |
| WalleCamera.CameraZSize | src/walle_fmt/camera.rs:10-15 | a body decodes only from exactly 12 bytes; every encoding is 12 bytes |
| WalleCamera.CameraFormat | src/walle_fmt/camera.rs:17-27 | an `ObjectZ` header paired with the camera body; reports `refs(header, NoLinks)`, where `refs` is the header's combination parameter; round trip in `CameraRoundTrip` |
| WalleCamera.CameraRoundTrip | src/walle_fmt/camera.rs:17-27 | under a lawful `ObjectZ` header, a header the schema accepts and a well-formed camera body pack and unpack to the same pair, reporting `refs(header, NoLinks)`; what unpacks packs back to a prefix of the header buffer and to exactly the body buffer |
| WalleSurfaceDatas.SurfaceDatasZSchemaLawful | src/walle_fmt/surfacedatas.rs:11-13 | the surface-data schema satisfies both round trips and is exact |
| WalleSurfaceDatas.SurfaceDatasZWidth | src/walle_fmt/surfacedatas.rs:11-13 | the layout is one 4-byte word |
| WalleSurfaceDatas.SurfaceDatasZSize | src/walle_fmt/surfacedatas.rs:10-13 | a body decodes only from exactly 4 bytes; every encoding is 4 bytes |
| WalleSurfaceDatas.SurfaceDatasFormat | src/walle_fmt/surfacedatas.rs:15-25 | an `ResourceObjectZ` header paired with the surface-data body; reports `refs(header, NoLinks)`, where `refs` is the header's combination parameter; round trip in `SurfaceDatasRoundTrip` |
| WalleSurfaceDatas.SurfaceDatasRoundTrip | src/walle_fmt/surfacedatas.rs:15-25 | under a lawful `ResourceObjectZ` header, a header the schema accepts and a well-formed surface-data body pack and unpack to the same pair, reporting `refs(header, NoLinks)`; what unpacks packs back to a prefix of the header buffer and to exactly the body buffer |
| FuelMesh.MeshZRecordWidths | src/fuel_fmt/mesh.rs:12-160 | the fixed records are 16, 40, 60, 28, 4 and 6 bytes, with no padding |
| FuelMesh.SubMeshRecovers | src/fuel_fmt/mesh.rs:61-68 | a sub-mesh whose data is count × size bytes parses back from its emission |
| FuelMesh.SubMeshAccounts | src/fuel_fmt/mesh.rs:61-68 | a parsed sub-mesh consumes 12 + count × size bytes, its data taken from the preceding fields, and re-emits them |
| FuelMesh.SubMeshCountVerbatim | src/fuel_fmt/mesh.rs:61-68 | a sub-mesh whose data length disagrees with its fields does not round-trip |
| FuelMesh.IndicesRecovers | src/fuel_fmt/mesh.rs:70-77 | an index list whose count is its length parses back from its emission |
| FuelMesh.IndicesAccounts | src/fuel_fmt/mesh.rs:70-77 | a parsed index list consumes 8 + 2 × `index_count` bytes and re-emits them |
| FuelMesh.MeshZRecovers | src/fuel_fmt/mesh.rs:164-207 | a well-formed mesh parses back from its emission |
| FuelMesh.MeshZAccounts | src/fuel_fmt/mesh.rs:164-207 | a parsed mesh is well formed and re-emits the consumed bytes |
| FuelMesh.MeshZSchemaLawful | src/fuel_fmt/mesh.rs:163-207 | the mesh schema satisfies both round trips and is exact |
| FuelMesh.MeshZTrailing | src/fuel_fmt/mesh.rs:163-207 | any byte after a mesh makes the decode fail with `TrailingBytes` |
| FuelMesh.ExtractMesh | src/fuel_fmt/mesh.rs:215-237 | extraction succeeds iff the `ObjectZ` header and then the body decode; the result is the decoded mesh, whose encoding is the whole body |
| FuelNode.NodeZSchemaLawful | src/fuel_fmt/node.rs:10-29 | the FUEL node schema satisfies both round trips and is exact |
| FuelNode.NodeZWidth | src/fuel_fmt/node.rs:12-29 | the layout is 234 bytes (106 plus two matrices), the `Count(32)` and `Count(17)` runs being constants |
| FuelNode.NodeZSize | src/fuel_fmt/node.rs:10-29 | a body decodes only from exactly 234 bytes; every encoding is 234 bytes |
| FuelNode.ExtractNode | src/fuel_fmt/node.rs:37-59 | extraction succeeds iff the `ResourceObjectZ` header and then the body decode; the result is the decoded body of 234 bytes |
| FuelCollisionVol.ExtractCollisionVol | src/fuel_fmt/collisionvol.rs:7-17 | extraction with an `ObjectZ` header succeeds iff both decode; the body is exactly 252 bytes, the same layout as WALL-E's |
| Objects.Unpack | src/walle_fmt/mesh.rs:371-388 | unpack succeeds iff the header and then the body decode; a header failure is reported first; the references are those of the decoded pair |
| Objects.PackUnpack | src/walle_fmt/node.rs:123-124 | for lawful schemas, unpacking what a format packs gives the header, body and references back |
| Objects.UnpackPack | src/walle_fmt/node.rs:123-124 | for lawful schemas, an unpacked object repacks to prefixes of its buffers (the buffers themselves when exact) |
| Objects.OpaqueFormatRoundTrip | src/walle_fmt/node.rs:123-124 | both round trips for a format whose header is an opaque `ObjectZ` / `ResourceObjectZ`: a header the schema accepts and a well-formed body unpack to themselves; what unpacks packs back to a prefix of the header buffer and to the body bytes the body schema accounts for (all of them for an exact schema) |
| Objects.Extract | src/fuel_fmt/node.rs:41-49 | header first, then body; either failure aborts with its error |

## Left out

- How the generic `WALLEObjectFormat` adapter combines the header's references
  with the body's is defined in `common.rs`, which is not part of this model;
  it is the header's `refs` parameter. Each of the following formats therefore
  states only `refs(header, <body links>)`, not the references finally reported:
- WalleMaterial.MaterialFormat: reported references are `refs` of the header and the body links, with `refs` a parameter.
- WalleMaterial.MaterialFormatAlt: reported references are `refs` of the header and the body links, with `refs` a parameter.
- WalleMaterial.MaterialFormatAltAlt: reported references are `refs` of the header and the body links, with `refs` a parameter.
- WalleNode.NodeFormat: reported references are `refs` of the header and the body links, with `refs` a parameter.
- WalleNode.NodeFormatAlt: reported references are `refs` of the header and the body links, with `refs` a parameter.
- WalleSkel.SkelFormat: reported references are `refs` of the header and the body links, with `refs` a parameter.
- WalleGameObj.GameObjFormat: reported references are `refs` of the header and the body links, with `refs` a parameter.
- WalleMaterialObj.MaterialObjFormat: reported references are `refs` of the header and the body links, with `refs` a parameter.
- WalleRotShape.RotShapeFormat: reported references are `refs` of the header and the body links, with `refs` a parameter.
- WalleCollisionVol.CollisionVolFormat: reported references are `refs` of the header and the body links, with `refs` a parameter.
- WalleWarp.WarpFormat: reported references are `refs` of the header and the body links, with `refs` a parameter.
- WalleLightData.LightDataFormat: reported references are `refs` of the header and the body links, with `refs` a parameter.
- WalleMeshData.MeshDataFormat: reported references are `refs` of the header and the body links, with `refs` a parameter.
- WalleOmni.OmniFormat: reported references are `refs` of the header and the body links, with `refs` a parameter.
- WalleCamera.CameraFormat: reported references are `refs` of the header and the body links, with `refs` a parameter.
- WalleSurfaceDatas.SurfaceDatasFormat: reported references are `refs` of the header and the body links, with `refs` a parameter.
- File and JSON I/O: `File::open`/`create`, serde reading and writing, and the
  `object.json` paths in every pack, unpack and extract. The decoded values
  are the model's inputs and outputs.
- The OBJ geometry export in the mesh unpack (float arithmetic and a foreign
  crate), and all commented-out code.
- The hound WAV reader and writer: only the sample count and the
  little-endian i16 byte accounting are modelled.
- `SKIN_DATA_COUNT` and the commented-out skin fields that would use it: dead
  global mutable state.
- Float semantics: every f32 is its 32-bit pattern.
- The internals of nom, nom_derive, binwrite and serde, and serde's untagged
  matching. The model states the layouts their attributes describe.
- The bodies of the common primitives (Color, SphereZ, the Pascal strings,
  `ObjectZ`, `ResourceObjectZ`) and of the generic object formats: they are in
  `common.rs`, which is not part of this model. They are parameters whose
  round trip is a precondition.
- The adapters of the classes outside this model (animation, fonts, world,
  particles, lod, bitmap and the rest) appear in the registry only as names.
- The `Strip`, `CollisionAABB`, `CollisionFace` and `Quad` records of the
  WALL-E mesh file are not used by `MeshZ`, so they are not modelled.
- WalleMesh.MeshZRecovers: the fields of `MeshZ` are grouped into a lead record
  and a tail record around the buffers; the byte order is the declared one.
- WalleMesh.VertexLayoutWidths: assumes `VertexVectorComponent` is one byte,
  as its three-byte vector use implies; its definition is in `common.rs`.
- FuelMesh.MeshZRecovers: the FUEL mesh has no writer in the source;
  `EmitMeshZ` is a reference encoder, used only to characterise the bodies
  the parser accepts.
- WalleMaterial.MaterialZAltRoundTrip: the round trip is claimed only when
  both options are present or both absent. The lone-option cases are stated
  as failures (`OptionedLoneFirst`, `OptionedLoneSecond`).
- WalleSound.SoundReencodes: holds only for even-length bodies below 4 GiB;
  an odd trailing byte is dropped. The `as u32` length truncation appears
  only in the definition of `SampleCount`; its contract gives the count only
  for bodies shorter than 2^32 bytes.
- WalleMeshData.MeshDataZSchemaLawful: no fixed size, because the width of
  the opaque Color primitive is not known to the model.
- WalleRegistry.GetFormats: the source panics on an unknown label after the
  base inserts; no table is returned, so the model returns `UnknownVersion`.
- WalleNode.NodeZAltWidth: the older node body is 390 bytes (9 u32, a
  matrix, 208 bytes, a matrix, then u32, u32, u16, u32, u32), which is 262
  bytes plus two 64-byte matrices.

## Findings

| source | as written | input that shows it | evidently intended | confidence | as-written member | corrected member |
|---|---|---|---|---|---|---|
| src/walle_fmt/mesh.rs:203-218 | the shadow conversion sets `vertex_size` to 12 for a PositionUV buffer | any PositionUV vertex buffer read back from its JSON form | 24, the stride its parser accepts (mesh.rs:142) | not executed | WalleMesh.PositionUVShadowFails | WalleMesh.VertexBufferExtFromRoundTrip |
