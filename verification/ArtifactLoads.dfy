/**
 What a loader that succeeds has checked, and which damage its checksum always shows: FNV-1a
 over the bytes of the three arrays notices every change of a single byte.
 */
module ArtifactLoads {
  import opened Base
  import opened BinaryCodec
  import opened Csc
  import opened CscChunks
  import opened ArtifactReads

  // ----- the checksum is one pass over one stream of bytes

  lemma {:induction false} MixBytesOn(hash: nat, a: Bytes, b: Bytes)
    ensures MixBytes(hash, a + b) == MixBytes(MixBytes(hash, a), b)
  {
    if b == [] {
      assert a + b == a;
    } else {
      MixBytesOn(hash, a, b[..|b| - 1]);
      assert (a + b)[..|a + b| - 1] == a + b[..|b| - 1];
    }
  }

  lemma {:induction false} EncodeValuesOn(a: seq<nat>, b: seq<nat>)
    ensures EncodeValues(a + b) == EncodeValues(a) + EncodeValues(b)
  {
    hide LeBytes;
    if a == [] {
      assert a + b == b;
    } else {
      EncodeValuesOn(a[1..], b);
      assert (a + b)[1..] == a[1..] + b && (a + b)[0] == a[0];
    }
  }

  lemma {:induction false} MixAllIsBytes(hash: nat, values: seq<nat>)
    ensures MixAll(hash, values) == MixBytes(hash, EncodeValues(values))
  {
    if values != [] {
      var init, last := values[..|values| - 1], values[|values| - 1];
      MixAllIsBytes(hash, init);
      assert values == init + [last];
      EncodeValuesOn(init, [last]);
      OneValue(last);
      MixBytesOn(hash, EncodeValues(init), LeBytes(last, WORD));
    }
  }

  lemma {:induction false} OneValue(v: nat)
    ensures EncodeValues([v]) == LeBytes(v, WORD)
  {
    assert EncodeValues([v]) == LeBytes(v, WORD) + EncodeValues([]);
  }

  /** The numbers the checksum runs over: each array behind its number. */
  function Words(csc: Csc): seq<nat> { [1] + csc.vertices + [2] + csc.pointers + [3] + csc.indices }

  lemma {:induction false} MixAllOn(hash: nat, a: seq<nat>, b: seq<nat>)
    ensures MixAll(hash, a + b) == MixAll(MixAll(hash, a), b)
  {
    MixAllIsBytes(hash, a + b);
    MixAllIsBytes(hash, a);
    MixAllIsBytes(MixAll(hash, a), b);
    EncodeValuesOn(a, b);
    MixBytesOn(hash, EncodeValues(a), EncodeValues(b));
  }

  lemma {:induction false} MixAllOne(hash: nat, a: seq<nat>, v: nat)
    ensures MixAll(hash, a + [v]) == MixU64(MixAll(hash, a), v)
  {
    assert (a + [v])[..|a|] == a;
  }

  /** The checksum of a matrix is FNV-1a over the bytes of those numbers. */
  lemma {:induction false} ChecksumIsFnv(csc: Csc)
    ensures Checksum(csc) == MixBytes(SEED, EncodeValues(Words(csc)))
  {
    hide MixU64;
    var a := [] + [1] + csc.vertices;
    MixAllOne(SEED, [], 1);
    MixAllOn(SEED, [] + [1], csc.vertices);
    MixAllOne(SEED, a, 2);
    MixAllOn(SEED, a + [2], csc.pointers);
    MixAllOne(SEED, a + [2] + csc.pointers, 3);
    MixAllOn(SEED, a + [2] + csc.pointers + [3], csc.indices);
    assert Words(csc) == a + [2] + csc.pointers + [3] + csc.indices;
    MixAllIsBytes(SEED, Words(csc));
  }

  // ----- one round loses nothing

  const WORDS: nat := 0x1_0000_0000_0000_0000

  /** The prime is odd, so only one word has a given product with it: the prime's inverse leads back. */
  lemma {:induction false} TimesPrimeInjective(x: nat, y: nat)
    requires x < 0x1_0000_0000_0000_0000 && y < 0x1_0000_0000_0000_0000
    requires x * 0x100_0000_01b3 % 0x1_0000_0000_0000_0000 == y * 0x100_0000_01b3 % 0x1_0000_0000_0000_0000
    ensures x == y
  {
    var p, q := x * 0x100_0000_01b3 / 0x1_0000_0000_0000_0000, y * 0x100_0000_01b3 / 0x1_0000_0000_0000_0000;
    assert (x - y) * 0x100_0000_01b3 == (p - q) * 0x1_0000_0000_0000_0000;
    var t := (p - q) * 0xce96_5057_aff6_957b - (x - y) * 887_285_111_055;
    assert x - y == t * 0x1_0000_0000_0000_0000;
  }

  lemma {:induction false} LowBit(a: nat, b: nat, a': nat, b': nat, x: nat, y: nat)
    requires (a % 2 + b % 2) % 2 + 2 * x == (a' % 2 + b' % 2) % 2 + 2 * y
    ensures x == y && (a % 2 + b % 2) % 2 == (a' % 2 + b' % 2) % 2
    ensures b == b' ==> a % 2 == a' % 2
    ensures a == a' ==> b % 2 == b' % 2
  {
  }

  function Pow2(n: nat): nat { if n == 0 then 1 else 2 * Pow2(n - 1) }

  lemma {:induction false} XorInjective(a: nat, b: nat, a': nat, b': nat, bits: nat)
    requires a < Pow2(bits) && a' < Pow2(bits) && b < Pow2(bits) && b' < Pow2(bits) && Xor(a, b, bits) == Xor(a', b', bits)
    ensures b == b' ==> a == a'
    ensures a == a' ==> b == b'
  {
    if bits > 0 {
      LowBit(a, b, a', b', Xor(a / 2, b / 2, bits - 1), Xor(a' / 2, b' / 2, bits - 1));
      XorInjective(a / 2, b / 2, a' / 2, b' / 2, bits - 1);
    }
  }

  lemma {:induction false} XorBelow(a: nat, b: nat, bits: nat)
    ensures Xor(a, b, bits) < Pow2(bits)
  {
    if bits > 0 {
      XorBelow(a / 2, b / 2, bits - 1);
    }
  }

  lemma {:induction false} TwoToTheEighth()
    ensures Pow2(WORD) == 256
  {
    assert Pow2(4) == 16;
  }

  lemma {:induction false} SplitByte(h: nat, x: nat, h': nat, x': nat)
    requires h / 256 * 256 + x == h' / 256 * 256 + x' && x < 256 && x' < 256
    ensures h / 256 == h' / 256 && x == x'
  {
  }

  lemma {:induction false} MixByteIs(h: nat, b: Byte)
    ensures MixByte(h, b) == (h / 256 * 256 + Xor(h % 256, b, WORD)) * 0x100_0000_01b3 % 0x1_0000_0000_0000_0000
  {
  }

  lemma {:induction false} BelowWords(h: nat, x: nat)
    requires h < 0x1_0000_0000_0000_0000 && x < 256
    ensures h / 256 * 256 + x < 0x1_0000_0000_0000_0000
  {
  }

  lemma {:induction false} SameHash(h: nat, h': nat)
    requires h / 256 == h' / 256 && h % 256 == h' % 256
    ensures h == h'
  {
  }

  /** One round tells apart hashes that met the same byte, and bytes that met the same hash. */
  lemma {:induction false} MixByteInjective(h: nat, b: Byte, h': nat, b': Byte)
    requires h < WORDS && h' < WORDS && MixByte(h, b) == MixByte(h', b')
    ensures b == b' ==> h == h'
    ensures h == h' ==> b == b'
  {
    hide MixByte;
    hide Xor;
    hide Pow2;
    var x, x' := Xor(h % 256, b, WORD), Xor(h' % 256, b', WORD);
    TwoToTheEighth();
    XorBelow(h % 256, b, WORD);
    XorBelow(h' % 256, b', WORD);
    MixByteIs(h, b);
    MixByteIs(h', b');
    BelowWords(h, x);
    BelowWords(h', x');
    TimesPrimeInjective(h / 256 * 256 + x, h' / 256 * 256 + x');
    SplitByte(h, x, h', x');
    XorInjective(h % 256, b, h' % 256, b', WORD);
    if b == b' {
      SameHash(h, h');
    }
  }

  lemma {:induction false} MixBytesFits(h: nat, bytes: Bytes)
    requires h < WORDS
    ensures MixBytes(h, bytes) < WORDS
  {
  }

  /** Different hashes stay different whatever bytes follow. */
  lemma {:induction false} StaysDifferent(h: nat, h': nat, bytes: Bytes)
    requires h < WORDS && h' < WORDS && h != h'
    ensures MixBytes(h, bytes) != MixBytes(h', bytes)
  {
    hide MixByte;
    if bytes != [] {
      var init, last := bytes[..|bytes| - 1], bytes[|bytes| - 1];
      StaysDifferent(h, h', init);
      MixBytesFits(h, init);
      MixBytesFits(h', init);
      var a, b := MixByte(MixBytes(h, init), last), MixByte(MixBytes(h', init), last);
      if a == b {
        MixByteInjective(MixBytes(h, init), last, MixBytes(h', init), last);
      }
    }
  }

  /** The texts are equally long and differ in byte `k` alone. */
  predicate OneByteApart(a: Bytes, b: Bytes, k: nat) {
    k < |a| == |b| && a[k] != b[k] && a[..k] == b[..k] && a[k + 1..] == b[k + 1..]
  }

  lemma {:induction false} OneByteNoticed(h: nat, a: Bytes, b: Bytes, k: nat)
    requires h < WORDS && OneByteApart(a, b, k)
    ensures MixBytes(h, a) != MixBytes(h, b)
  {
    hide MixByte;
    var front, rest := a[..k], a[k + 1..];
    assert a == front + [a[k]] + rest && b == front + [b[k]] + rest;
    MixBytesOn(h, front + [a[k]], rest);
    MixBytesOn(h, front + [b[k]], rest);
    MixBytesOn(h, front, [a[k]]);
    MixBytesOn(h, front, [b[k]]);
    var g := MixBytes(h, front);
    MixBytesFits(h, front);
    RoundTells(g, a[k], b[k]);
    StaysDifferent(MixBytes(g, [a[k]]), MixBytes(g, [b[k]]), rest);
  }

  lemma {:induction false} MixOne(g: nat, a: Byte)
    ensures MixBytes(g, [a]) == MixByte(g, a) < WORDS
  {
    assert [a][..0] == [];
    assert MixBytes(g, []) == g;
  }

  lemma {:induction false} RoundTells(g: nat, a: Byte, b: Byte)
    requires g < WORDS && a != b
    ensures MixBytes(g, [a]) != MixBytes(g, [b]) && MixBytes(g, [a]) < WORDS && MixBytes(g, [b]) < WORDS
  {
    hide MixByte;
    hide MixBytes;
    MixOne(g, a);
    MixOne(g, b);
    if MixByte(g, a) == MixByte(g, b) {
      MixByteInjective(g, a, g, b);
    }
  }

  /** Matrices whose arrays differ in a single byte have different checksums. */
  lemma {:induction false} DamageShows(a: Csc, b: Csc, k: nat)
    requires OneByteApart(EncodeValues(Words(a)), EncodeValues(Words(b)), k)
    ensures Checksum(a) != Checksum(b)
  {
    ChecksumIsFnv(a);
    ChecksumIsFnv(b);
    OneByteNoticed(SEED, EncodeValues(Words(a)), EncodeValues(Words(b)), k);
  }

  // ----- what a load has checked

  function Concat(parts: seq<seq<nat>>): seq<nat> { if parts == [] then [] else parts[0] + Concat(parts[1..]) }

  /** The chunk is stored, as it is written, and holds the part. */
  ghost predicate Stored(st: ChunkStore, id: ArtifactId, field: Field, chunk: nat, part: seq<nat>) {
    var key := ChunkKey(id, field, chunk);
    && key in st && st[key] == ChunkBytes(field, chunk, part)
    && |st[key]| <= 0xffff_ffff_ffff_ffff && chunk <= 0xffff_ffff_ffff_ffff && AllWords(part)
  }

  /** Chunks `next` up to `count` are stored and hold the parts. */
  ghost predicate HoldsParts(st: ChunkStore, id: ArtifactId, field: Field, next: nat, count: nat, parts: seq<seq<nat>>) {
    && |parts| == (if next < count then count - next else 0)
    && forall i :: 0 <= i < |parts| ==> Stored(st, id, field, next + i, parts[i])
  }

  /** The chunks of the field are stored and hold, end to end, the values. */
  ghost predicate HoldsField(st: ChunkStore, id: ArtifactId, field: Field, next: nat, count: nat, values: seq<nat>) {
    exists parts :: HoldsParts(st, id, field, next, count, parts) && Concat(parts) == values
  }

  lemma {:induction false} HoldsMore(st: ChunkStore, id: ArtifactId, field: Field, next: nat, count: nat, first: seq<nat>,
                                     parts: seq<seq<nat>>)
    requires next < count && Stored(st, id, field, next, first) && HoldsParts(st, id, field, next + 1, count, parts)
    ensures HoldsParts(st, id, field, next, count, [first] + parts) && Concat([first] + parts) == first + Concat(parts)
  {
    hide Stored;
    var all := [first] + parts;
    forall i | 0 <= i < |all| ensures Stored(st, id, field, next + i, all[i]) {
      if i > 0 {
        assert all[i] == parts[i - 1] && Stored(st, id, field, next + 1 + (i - 1), parts[i - 1]);
      }
    }
    assert all[1..] == parts;
  }

  lemma {:induction false} LoadFromHolds(st: ChunkStore, id: ArtifactId, field: Field, next: nat, count: nat, values: seq<nat>)
    requires LoadFrom(st, id, field, next, count) == Ok(values)
    ensures HoldsField(st, id, field, next, count, values)
    decreases count - next
  {
    hide DecodeChunk;
    hide ChunkBytes;
    hide HoldsParts;
    if next >= count {
      NoParts(st, id, field, next, count);
    } else {
      var first := DecodeChunk(st[ChunkKey(id, field, next)], field, next).value;
      var rest := LoadFrom(st, id, field, next + 1, count).value;
      ChunkReadsExactly(st[ChunkKey(id, field, next)], field, next, first);
      LoadFromHolds(st, id, field, next + 1, count, rest);
      var parts :| HoldsParts(st, id, field, next + 1, count, parts) && Concat(parts) == rest;
      HoldsMore(st, id, field, next, count, first, parts);
    }
  }

  lemma {:induction false} NoParts(st: ChunkStore, id: ArtifactId, field: Field, next: nat, count: nat)
    requires count <= next
    ensures HoldsParts(st, id, field, next, count, []) && Concat([]) == []
  {
  }

  lemma {:induction false} HoldsLoads(st: ChunkStore, id: ArtifactId, field: Field, next: nat, count: nat, parts: seq<seq<nat>>)
    requires HoldsParts(st, id, field, next, count, parts)
    ensures LoadFrom(st, id, field, next, count) == Ok(Concat(parts))
    decreases count - next
  {
    if next < count {
      hide DecodeChunk;
      hide ChunkBytes;
      assert Stored(st, id, field, next + 0, parts[0]);
      ChunkReadsExactly(st[ChunkKey(id, field, next)], field, next, parts[0]);
      forall i | 0 <= i < |parts[1..]| ensures Stored(st, id, field, next + 1 + i, parts[1..][i]) {
        assert Stored(st, id, field, next + (i + 1), parts[i + 1]);
      }
      HoldsLoads(st, id, field, next + 1, count, parts[1..]);
    }
  }

  lemma {:induction false} LoadFromExactly(st: ChunkStore, id: ArtifactId, field: Field, count: nat, values: seq<nat>)
    ensures LoadFrom(st, id, field, 0, count) == Ok(values) <==> HoldsField(st, id, field, 0, count, values)
  {
    if LoadFrom(st, id, field, 0, count) == Ok(values) {
      LoadFromHolds(st, id, field, 0, count, values);
    }
    if HoldsField(st, id, field, 0, count, values) {
      var parts :| HoldsParts(st, id, field, 0, count, parts) && Concat(parts) == values;
      HoldsLoads(st, id, field, 0, count, parts);
    }
  }

  /** The text is one of the manifest's. */
  ghost predicate TextOf(text: string, m: Manifest) { exists parts, ends :: ManifestText(text, m, parts, ends) }

  /** The manifest names the artifact, and the matrix's lengths and checksum. */
  predicate Names(m: Manifest, id: ArtifactId, csc: Csc) {
    && m.id == id && m.checksum == Checksum(csc)
    && m.verticesLen == |csc.vertices| && m.pointersLen == |csc.pointers| && m.indicesLen == |csc.indices|
  }

  /** As many chunks as the manifest names are stored and hold the matrix's arrays. */
  ghost predicate HoldsMatrix(st: ChunkStore, m: Manifest, csc: Csc) {
    && HoldsField(st, m.id, Vertices, 0, m.vertexChunks, csc.vertices)
    && HoldsField(st, m.id, Pointers, 0, m.pointerChunks, csc.pointers)
    && HoldsField(st, m.id, Indices, 0, m.indexChunks, csc.indices)
  }

  lemma {:induction false} LoadsWith(st: ChunkStore, text: string, id: ArtifactId, csc: Csc, m: Manifest)
    requires DecodeManifest(text) == Ok(m)
    ensures Load(st, text, id) == Ok(csc) <==> Names(m, id, csc) && WellFormed(csc) && HoldsMatrix(st, m, csc)
  {
    hide DecodeManifest;
    hide Checksum;
    hide WellFormed;
    hide LoadFrom;
    hide HoldsField;
    LoadFromExactly(st, m.id, Vertices, m.vertexChunks, csc.vertices);
    LoadFromExactly(st, m.id, Pointers, m.pointerChunks, csc.pointers);
    LoadFromExactly(st, m.id, Indices, m.indexChunks, csc.indices);
  }

  /**
   A load returns a matrix exactly when the text is that of a manifest of the artifact asked for that names the
   matrix's lengths and checksum, the chunks it counts are stored and hold the matrix's arrays, and the matrix is
   well-formed.
   */
  lemma {:induction false} LoadsExactly(st: ChunkStore, text: string, id: ArtifactId, csc: Csc)
    ensures Load(st, text, id) == Ok(csc) <==>
      exists m :: TextOf(text, m) && Names(m, id, csc) && WellFormed(csc) && HoldsMatrix(st, m, csc)
  {
    hide DecodeManifest;
    hide Names;
    hide WellFormed;
    hide HoldsMatrix;
    hide ManifestText;
    if DecodeManifest(text).Ok? {
      var m := DecodeManifest(text).value;
      ManifestReadsExactly(text, m);
      LoadsWith(st, text, id, csc, m);
    }
    forall m | TextOf(text, m) ensures DecodeManifest(text) == Ok(m) {
      ManifestReadsExactly(text, m);
    }
  }

  /** Under one manifest no two stores load matrices that differ in a single byte. */
  lemma {:induction false} DamageIsRefused(st: ChunkStore, st': ChunkStore, text: string, id: ArtifactId, a: Csc, b: Csc, k: nat)
    requires Load(st, text, id) == Ok(a) && OneByteApart(EncodeValues(Words(a)), EncodeValues(Words(b)), k)
    ensures Load(st', text, id) != Ok(b)
  {
    hide DecodeManifest;
    hide OneByteApart;
    hide Checksum;
    hide WellFormed;
    hide HoldsMatrix;
    DamageShows(a, b, k);
    var m := DecodeManifest(text).value;
    LoadsWith(st, text, id, a, m);
    LoadsWith(st', text, id, b, m);
  }
}
