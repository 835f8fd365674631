/** Which bytes and texts the readers of chunks and manifests take: those their writers write, and no others. */
module ArtifactReads {
  import opened Base
  import opened BinaryCodec
  import opened TextCodec
  import opened CscChunks
  import opened Decoding

  // ----- chunks

  lemma {:induction false} LeBytesOf(w: Bytes)
    ensures LeValue(w) < Pow256(|w|) && LeBytes(LeValue(w), |w|) == w
  {
    if w != [] {
      LeBytesOf(w[1..]);
      assert LeValue(w) / 256 == LeValue(w[1..]) && LeValue(w) % 256 == w[0];
    }
  }

  lemma {:induction false} WordOf(w: Bytes)
    requires |w| == 8
    ensures LeValue(w) <= U64_MAX && LeBytes(LeValue(w), WORD) == w
  {
    assert Pow256(4) == 0x1_0000_0000;
    assert Pow256(8) == U64_MAX + 1;
    LeBytesOf(w);
  }

  predicate AllWords(values: seq<nat>) { forall i :: 0 <= i < |values| ==> values[i] <= 0xffff_ffff_ffff_ffff }

  lemma {:induction false} ValuesEncode(bytes: Bytes)
    requires |bytes| % 8 == 0
    ensures EncodeValues(ValuesOf(bytes)) == bytes && 8 * |ValuesOf(bytes)| == |bytes| && AllWords(ValuesOf(bytes))
  {
    hide LeValue;
    hide LeBytes;
    if bytes != [] {
      ValuesEncode(bytes[8..]);
      WordOf(bytes[..8]);
      assert bytes == bytes[..8] + bytes[8..];
    }
  }

  lemma {:induction false} NameAt(value: Bytes, at: nat, name: Bytes, after: nat)
    requires DecodeField(value, at) == Ok((name, after))
    ensures at + 8 + |name| == after <= |value| && value[at..after] == LeBytes(|name|, WORD) + name
  {
    hide LeValue;
    hide LeBytes;
    var word := value[at..at + 8];
    WordOf(word);
    assert value[at..after] == word + value[at + 8..after];
  }

  lemma {:induction false} NumberAt(value: Bytes, at: nat, n: nat, after: nat)
    requires DecodeU64(value, at) == Ok((n, after))
    ensures at + 8 == after <= |value| && n <= U64_MAX && value[at..after] == LeBytes(n, WORD)
  {
    hide LeValue;
    hide LeBytes;
    WordOf(value[at..at + 8]);
  }

  lemma {:induction false} ListAt(value: Bytes, at: nat, values: seq<nat>, after: nat)
    requires DecodeU64s(value, at) == Ok((values, after))
    ensures at + 8 + 8 * |values| == after <= |value| && after <= U64_MAX && AllWords(values)
    ensures value[at..after] == LeBytes(|values|, WORD) + EncodeValues(values)
  {
    hide LeValue;
    hide LeBytes;
    hide EncodeValues;
    hide ValuesOf;
    var word := value[at..at + 8];
    WordOf(word);
    ValuesEncode(value[at + 8..after]);
    assert value[at..after] == word + value[at + 8..after];
  }

  lemma {:induction false} NamedIsLayout(value: Bytes, magic: Bytes, name: Bytes, chunk: nat, values: seq<nat>)
    requires DecodeNamed(value, magic, name, chunk) == Ok(values)
    ensures value ==
      Layout(magic, LeBytes(|name|, WORD), name, LeBytes(chunk, WORD), LeBytes(|values|, WORD), EncodeValues(values))
    ensures |value| <= U64_MAX && chunk <= U64_MAX && AllWords(values)
  {
    hide DecodeField;
    hide DecodeU64;
    hide DecodeU64s;
    hide LeBytes;
    hide EncodeValues;
    var afterName := DecodeField(value, |magic|).value.1;
    var afterId := DecodeU64(value, afterName).value.1;
    NameAt(value, |magic|, name, afterName);
    NumberAt(value, afterName, chunk, afterId);
    ListAt(value, afterId, values, |value|);
    assert value == value[..|magic|] + value[|magic|..afterName] + value[afterName..afterId] + value[afterId..|value|];
  }

  /** A chunk's bytes: magic, field name behind its length, chunk number, and the values behind their number. */
  function ChunkBytes(field: Field, chunk: nat, values: seq<nat>): Bytes {
    Ascii("graphblas_csc_chunk1\n")
    + (match field
       case Vertices => LeBytes(8, 8) + Ascii("vertices")
       case Pointers => LeBytes(8, 8) + Ascii("pointers")
       case Indices => LeBytes(7, 8) + Ascii("indices"))
    + LeBytes(chunk, 8) + LeBytes(|values|, 8) + EncodeValues(values)
  }

  lemma {:induction false} ChunkForm(field: Field, chunk: nat, values: seq<nat>)
    ensures EncodeChunk(field, chunk, values) == ChunkBytes(field, chunk, values)
  {
    hide LeBytes;
    hide EncodeValues;
  }

  /** A chunk is written as those bytes, and read from exactly those. */
  lemma {:induction false} ChunkReadsExactly(value: Bytes, field: Field, chunk: nat, values: seq<nat>)
    ensures EncodeChunk(field, chunk, values) == ChunkBytes(field, chunk, values)
    ensures DecodeChunk(value, field, chunk) == Ok(values) <==>
      && value == ChunkBytes(field, chunk, values)
      && |value| <= 0xffff_ffff_ffff_ffff && chunk <= 0xffff_ffff_ffff_ffff && AllWords(values)
  {
    hide ChunkBytes;
    hide DecodeNamed;
    hide LeBytes;
    hide EncodeValues;
    hide ValuesOf;
    ChunkForm(field, chunk, values);
    var magic, name := Ascii(MAGIC), Ascii(FieldName(field));
    if DecodeChunk(value, field, chunk) == Ok(values) {
      NamedIsLayout(value, magic, name, chunk, values);
    }
    if value == EncodeChunk(field, chunk, values) && |value| <= U64_MAX && chunk <= U64_MAX && AllWords(values) {
      U64RoundTrip(|name|);
      U64RoundTrip(chunk);
      U64RoundTrip(|values|);
      ValuesRoundTrip(values);
      LayoutDecodes(magic, LeBytes(|name|, WORD), name, LeBytes(chunk, WORD), LeBytes(|values|, WORD),
                    EncodeValues(values), chunk, values);
    }
  }

  // ----- manifests

  lemma {:induction false} TrimEndIs(s: string, c: char)
    ensures
      var t := TrimEnd(s, c);
      && t <= s && (forall i :: |t| <= i < |s| ==> s[i] == c)
  {
    if s != "" && s[|s| - 1] == c {
      TrimEndIs(s[..|s| - 1], c);
    }
  }

  lemma {:induction false} TrimEndAll(s: string, c: char, ends: string)
    requires s != "" && s[|s| - 1] != c && forall i :: 0 <= i < |ends| ==> ends[i] == c
    ensures TrimEnd(s + ends, c) == s
  {
    if ends == "" {
      assert s + ends == s;
    } else {
      TrimEndAll(s, c, ends[..|ends| - 1]);
      assert (s + ends)[..|s + ends| - 1] == s + ends[..|ends| - 1];
    }
  }

  lemma {:induction false} ParseNumbersExactly(parts: seq<string>, at: nat, n: seq<nat>)
    requires at <= |parts|
    ensures ParseNumbers(parts, at) == Ok(n) <==>
      at + |n| == |parts| && forall i :: 0 <= i < |n| ==> ParseU64(parts[at + i]) == Some(n[i])
    decreases |parts| - at
  {
    hide ParseU64;
    if at < |parts| && n != [] {
      ParseNumbersExactly(parts, at + 1, n[1..]);
      assert n == [n[0]] + n[1..];
      if at + |n| == |parts| && forall i :: 0 <= i < |n| ==> ParseU64(parts[at + i]) == Some(n[i]) {
        assert ParseU64(parts[at + 0]) == Some(n[0]);
        forall i | 0 <= i < |n[1..]| ensures ParseU64(parts[at + 1 + i]) == Some(n[1..][i]) {
          assert ParseU64(parts[at + (i + 1)]) == Some(n[i + 1]);
        }
      }
    }
  }

  function Numbers(m: Manifest): (n: seq<nat>)
    ensures |n| == 9
  {
    [m.id.epoch, m.chunkSize, m.verticesLen, m.pointersLen, m.indicesLen, m.vertexChunks, m.pointerChunks, m.indexChunks,
     m.checksum]
  }

  predicate CountsFit(m: Manifest) {
    && m.chunkSize == 65_536 && m.vertexChunks == (m.verticesLen + 65_535) / 65_536
    && m.pointerChunks == (m.pointersLen + 65_535) / 65_536 && m.indexChunks == (m.indicesLen + 65_535) / 65_536
  }

  /** The parts are the manifest's: magic, names, and nine numbers. */
  predicate IsManifest(parts: seq<string>, m: Manifest) {
    && |parts| == 12 && parts[0] == "graph-graphblas-csc-manifest-v1" && parts[1] == m.id.cellId && parts[2] == m.id.edgeType
    && forall i :: 0 <= i < 9 ==> IsNumber(parts[3 + i], Numbers(m)[i])
  }

  lemma {:induction false} NumbersExactly(parts: seq<string>, m: Manifest)
    requires |parts| == 12
    ensures ParseNumbers(parts, 3) == Ok(Numbers(m)) <==> forall i :: 0 <= i < 9 ==> IsNumber(parts[3 + i], Numbers(m)[i])
  {
    hide ParseNumbers;
    hide ParseU64;
    hide IsNumber;
    var n := Numbers(m);
    ParseNumbersExactly(parts, 3, n);
    forall i | 0 <= i < 9 ensures ParseU64(parts[3 + i]) == Some(n[i]) <==> IsNumber(parts[3 + i], n[i]) {
      ParsesExactly(parts[3 + i], n[i]);
    }
  }

  /** The numbers that make the manifest are just its own. */
  lemma {:induction false} NumbersOf(parts: seq<string>, m: Manifest, n: seq<nat>)
    requires |n| == 9
    requires |parts| == 12
    ensures m == Manifest(ArtifactId(parts[1], parts[2], n[0]), n[1], n[2], n[3], n[4], n[5], n[6], n[7], n[8]) <==>
      m.id.cellId == parts[1] && m.id.edgeType == parts[2] && n == Numbers(m)
  {
  }

  lemma {:induction false} PartsExactly(parts: seq<string>, m: Manifest)
    ensures DecodeParts(parts) == Ok(m) <==> IsManifest(parts, m) && CountsFit(m)
  {
    hide ParseNumbers;
    hide ParseU64;
    hide IsNumber;
    hide Numbers;
    if |parts| == 12 {
      NumbersExactly(parts, m);
      var n := ParseNumbers(parts, 3);
      if n.Ok? && |n.value| == 9 {
        NumbersOf(parts, m, n.value);
      }
    }
  }

  /** The text is a manifest's parts, tabs between them and line ends after them. */
  predicate ManifestText(text: string, m: Manifest, parts: seq<string>, ends: string) {
    && IsManifest(parts, m) && CountsFit(m) && (forall i :: 0 <= i < 12 ==> '\t' !in parts[i])
    && (forall i :: 0 <= i < |ends| ==> ends[i] == '\n') && text == Join(parts, '\t') + ends
  }

  lemma {:induction false} NumberEnds(s: string, n: nat)
    requires IsNumber(s, n)
    ensures s != "" && s[|s| - 1] != '\n'
  {
    var t := Unsigned(s);
    assert s[|s| - 1] == t[|t| - 1] && IsDigit(t[|t| - 1]);
  }

  /** A manifest is read exactly from the texts that are its parts, whatever the number of line ends. */
  lemma {:induction false} ManifestReadsExactly(text: string, m: Manifest)
    ensures DecodeManifest(text) == Ok(m) <==> exists parts, ends :: ManifestText(text, m, parts, ends)
  {
    hide DecodeParts;
    hide IsNumber;
    hide CountsFit;
    if DecodeManifest(text) == Ok(m) {
      var line := TrimEnd(text, '\n');
      TrimEndIs(text, '\n');
      var parts, ends := Split(line, '\t'), text[|line|..];
      JoinSplit(line, '\t');
      PartsExactly(parts, m);
      assert ManifestText(text, m, parts, ends);
    }
    if exists parts, ends :: ManifestText(text, m, parts, ends) {
      var parts, ends :| ManifestText(text, m, parts, ends);
      assert IsNumber(parts[3 + 8], Numbers(m)[8]);
      NumberEnds(parts[11], m.checksum);
      JoinEnds(parts, '\t');
      TrimEndAll(Join(parts, '\t'), '\n', ends);
      SplitJoin(parts, '\t');
      PartsExactly(parts, m);
    }
  }
}
