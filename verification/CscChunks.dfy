/**
 Writing a CSC matrix as checksummed chunks under a manifest, and loading it back.
 Two writers exist: one walks a finished matrix, the other streams the index array
 straight from the rows. Both leave the same records, batch for batch, and the same
 manifest; the loader turns those records back into the same matrix.
 */
module CscChunks {
  import opened Base
  import opened Ordered
  import opened Csc
  import opened TextCodec
  import opened BinaryCodec

  const CHUNK: nat := 65_536
  const BATCH: nat := 512

  datatype Field = Vertices | Pointers | Indices

  function FieldName(f: Field): (name: string)
    ensures |name| == 8 || |name| == 7
    ensures forall i :: 0 <= i < |name| ==> name[i] as int < 128
  {
    match f
    case Vertices => "vertices"
    case Pointers => "pointers"
    case Indices => "indices"
  }

  datatype ArtifactId = ArtifactId(cellId: string, edgeType: string, epoch: nat)

  datatype ChunkKey = ChunkKey(id: ArtifactId, field: Field, chunk: nat)

  /** One put: the key names the field and chunk, `Wire` gives the stored bytes. */
  datatype Record = Record(key: ChunkKey, values: seq<nat>)

  // ----- one chunk

  const MAGIC := "graphblas_csc_chunk1\n"

  function EncodeChunk(field: Field, chunk: nat, values: seq<nat>): Bytes {
    Layout(Ascii(MAGIC), LeBytes(|FieldName(field)|, WORD), Ascii(FieldName(field)), LeBytes(chunk, WORD),
           LeBytes(|values|, WORD), EncodeValues(values))
  }

  function Wire(r: Record): Bytes {
    EncodeChunk(r.key.field, r.key.chunk, r.values)
  }

  function DecodeChunk(value: Bytes, field: Field, chunk: nat): Result<seq<nat>, DecodeError> {
    DecodeNamed(value, Ascii(MAGIC), Ascii(FieldName(field)), chunk)
  }

  function DecodeNamed(value: Bytes, magic: Bytes, expected: Bytes, chunk: nat): Result<seq<nat>, DecodeError> {
    if !(magic <= value) then Err(BadMagic)
    else match DecodeField(value, |magic|)
         case Err(e) => Err(e)
         case Ok((name, afterName)) =>
           match DecodeU64(value, afterName)
           case Err(e) => Err(e)
           case Ok((id, afterId)) =>
             if name != expected || id != chunk then Err(WrongIdentity)
             else match DecodeU64s(value, afterId)
                  case Err(e) => Err(e)
                  case Ok((values, end)) => if end != |value| then Err(TrailingBytes) else Ok(values)
  }

  lemma {:induction false} U64At(pre: Bytes, word: Bytes, post: Bytes)
    requires |word| == 8 && |pre| + 8 + |post| <= U64_MAX
    ensures DecodeU64(pre + word + post, |pre|) == Ok((LeValue(word), |pre| + 8))
  {
  }

  lemma {:induction false} FieldAt(pre: Bytes, word: Bytes, name: Bytes, post: Bytes)
    requires |word| == 8 && LeValue(word) == |name| && |pre| + 8 + |name| + |post| <= U64_MAX
    ensures DecodeField(pre + word + name + post, |pre|) == Ok((name, |pre| + 8 + |name|))
  {
    assert pre + word + name + post == pre + word + (name + post);
    U64At(pre, word, name + post);
    TakeMiddle(pre + word, name, post);
  }

  lemma {:induction false} ValuesAt(pre: Bytes, word: Bytes, body: Bytes)
    requires |word| == 8 && 8 * LeValue(word) == |body| && |pre| + 8 + |body| <= U64_MAX
    ensures DecodeU64s(pre + word + body, |pre|) == Ok((ValuesOf(body), |pre| + 8 + |body|))
  {
    U64At(pre, word, body);
    assert pre + word + body == pre + word + body + [];
    TakeMiddle(pre + word, body, []);
  }

  function Layout(magic: Bytes, size: Bytes, name: Bytes, id: Bytes, count: Bytes, body: Bytes): (value: Bytes)
    ensures |value| == |magic| + |size| + |name| + |id| + |count| + |body|
    ensures magic <= value
  {
    magic + size + name + id + count + body
  }

  lemma {:induction false} NameInLayout(magic: Bytes, size: Bytes, name: Bytes, id: Bytes, count: Bytes, body: Bytes)
    requires |size| == 8 && LeValue(size) == |name| && |Layout(magic, size, name, id, count, body)| <= U64_MAX
    ensures DecodeField(Layout(magic, size, name, id, count, body), |magic|) == Ok((name, |magic| + 8 + |name|))
  {
    assert Layout(magic, size, name, id, count, body) == magic + size + name + (id + count + body);
    FieldAt(magic, size, name, id + count + body);
  }

  lemma {:induction false} IdInLayout(magic: Bytes, size: Bytes, name: Bytes, id: Bytes, count: Bytes, body: Bytes)
    requires |size| == 8 && |id| == 8 && |Layout(magic, size, name, id, count, body)| <= U64_MAX
    ensures DecodeU64(Layout(magic, size, name, id, count, body), |magic| + 8 + |name|)
            == Ok((LeValue(id), |magic| + 16 + |name|))
  {
    assert Layout(magic, size, name, id, count, body) == (magic + size + name) + id + (count + body);
    U64At(magic + size + name, id, count + body);
  }

  lemma {:induction false} BodyInLayout(magic: Bytes, size: Bytes, name: Bytes, id: Bytes, count: Bytes, body: Bytes)
    requires |size| == 8 && |id| == 8 && |count| == 8 && 8 * LeValue(count) == |body|
    requires |Layout(magic, size, name, id, count, body)| <= U64_MAX
    ensures DecodeU64s(Layout(magic, size, name, id, count, body), |magic| + 16 + |name|)
            == Ok((ValuesOf(body), |Layout(magic, size, name, id, count, body)|))
  {
    ValuesAt(magic + size + name + id, count, body);
  }

  lemma {:induction false} DecodeSteps(value: Bytes, magic: Bytes, name: Bytes, chunk: nat, afterName: nat, afterId: nat, values: seq<nat>)
    requires magic <= value
    requires DecodeField(value, |magic|) == Ok((name, afterName))
    requires DecodeU64(value, afterName) == Ok((chunk, afterId))
    requires DecodeU64s(value, afterId) == Ok((values, |value|))
    ensures DecodeNamed(value, magic, name, chunk) == Ok(values)
  {
  }

  lemma {:induction false} LayoutDecodes(magic: Bytes, size: Bytes, name: Bytes, id: Bytes, count: Bytes, body: Bytes,
                                         chunk: nat, values: seq<nat>)
    requires |size| == |id| == |count| == 8 && LeValue(size) == |name| && LeValue(id) == chunk
    requires 8 * LeValue(count) == |body| && ValuesOf(body) == values
    requires |Layout(magic, size, name, id, count, body)| <= U64_MAX
    ensures DecodeNamed(Layout(magic, size, name, id, count, body), magic, name, chunk) == Ok(values)
  {
    NameInLayout(magic, size, name, id, count, body);
    IdInLayout(magic, size, name, id, count, body);
    BodyInLayout(magic, size, name, id, count, body);
    DecodeSteps(Layout(magic, size, name, id, count, body), magic, name, chunk,
                |magic| + 8 + |name|, |magic| + 16 + |name|, values);
  }

  lemma {:induction false} LayoutRoundTrip(magic: Bytes, name: Bytes, chunk: nat, values: seq<nat>)
    requires forall i :: 0 <= i < |values| ==> values[i] <= U64_MAX
    requires chunk <= U64_MAX && |values| <= CHUNK && |magic| + |name| <= 1000
    ensures
      var value := Layout(magic, LeBytes(|name|, WORD), name, LeBytes(chunk, WORD), LeBytes(|values|, WORD),
                          EncodeValues(values));
      DecodeNamed(value, magic, name, chunk) == Ok(values)
  {
    U64RoundTrip(|name|);
    U64RoundTrip(chunk);
    U64RoundTrip(|values|);
    ValuesRoundTrip(values);
    LayoutDecodes(magic, LeBytes(|name|, WORD), name, LeBytes(chunk, WORD), LeBytes(|values|, WORD),
                  EncodeValues(values), chunk, values);
  }

  /** Decoding a chunk gives back the values it was encoded from. */
  lemma {:induction false} ChunkRoundTrip(field: Field, chunk: nat, values: seq<nat>)
    requires forall i :: 0 <= i < |values| ==> values[i] <= U64_MAX
    requires chunk <= U64_MAX && |values| <= CHUNK
    ensures DecodeChunk(EncodeChunk(field, chunk, values), field, chunk) == Ok(values)
  {
    LayoutRoundTrip(Ascii(MAGIC), Ascii(FieldName(field)), chunk, values);
  }

  // ----- the records of a matrix

  /** `values.chunks(CHUNK).enumerate()`, numbered from `first`. */
  function ChunkRecords(id: ArtifactId, field: Field, first: nat, values: seq<nat>): seq<Record>
    decreases |values|
  {
    if values == [] then []
    else
      var n := Min(CHUNK, |values|);
      [Record(ChunkKey(id, field, first), values[..n])]
      + ChunkRecords(id, field, first + 1, values[n..])
  }

  function ChunkCount(len: nat): nat {
    if len == 0 then 0 else (len + CHUNK - 1) / CHUNK
  }

  function RecordsOf(id: ArtifactId, csc: Csc): seq<Record> {
    ChunkRecords(id, Vertices, 0, csc.vertices)
    + ChunkRecords(id, Pointers, 0, csc.pointers)
    + ChunkRecords(id, Indices, 0, csc.indices)
  }

  lemma {:induction false} ChunkRecordsCount(id: ArtifactId, field: Field, first: nat, values: seq<nat>)
    ensures |ChunkRecords(id, field, first, values)| == ChunkCount(|values|)
    decreases |values|
  {
    if values != [] {
      var n := Min(CHUNK, |values|);
      ChunkRecordsCount(id, field, first + 1, values[n..]);
    }
  }

  // ----- checksum

  const SEED: nat := 0xcbf2_9ce4_8422_2325
  const PRIME: nat := 0x0000_0100_0000_01b3

  /** Exclusive or of the low `bits` bits. */
  function Xor(a: nat, b: nat, bits: nat): nat {
    if bits == 0 then 0 else (a % 2 + b % 2) % 2 + 2 * Xor(a / 2, b / 2, bits - 1)
  }

  /** One FNV-1a round: the byte meets only the low eight bits, then a wrapping multiplication. */
  function MixByte(hash: nat, b: Byte): (h: nat)
    ensures h <= U64_MAX
  {
    ((hash / 256) * 256 + Xor(hash % 256, b, WORD)) * PRIME % (U64_MAX + 1)
  }

  function MixBytes(hash: nat, bytes: Bytes): nat {
    if bytes == [] then hash else MixByte(MixBytes(hash, bytes[..|bytes| - 1]), bytes[|bytes| - 1])
  }

  /** `checksum_u64`. */
  function MixU64(hash: nat, v: nat): nat {
    MixBytes(hash, LeBytes(v, WORD))
  }

  function MixAll(hash: nat, values: seq<nat>): nat {
    if values == [] then hash else MixU64(MixAll(hash, values[..|values| - 1]), values[|values| - 1])
  }

  function HeadChecksum(vertices: seq<nat>, pointers: seq<nat>): nat {
    MixU64(MixAll(MixU64(MixAll(MixU64(SEED, 1), vertices), 2), pointers), 3)
  }

  function Checksum(csc: Csc): nat {
    MixAll(HeadChecksum(csc.vertices, csc.pointers), csc.indices)
  }

  // ----- manifest

  datatype Manifest = Manifest(
    id: ArtifactId, chunkSize: nat,
    verticesLen: nat, pointersLen: nat, indicesLen: nat,
    vertexChunks: nat, pointerChunks: nat, indexChunks: nat,
    checksum: nat)

  function ManifestOf(id: ArtifactId, csc: Csc): Manifest {
    Manifest(id, CHUNK, |csc.vertices|, |csc.pointers|, |csc.indices|,
             ChunkCount(|csc.vertices|), ChunkCount(|csc.pointers|), ChunkCount(|csc.indices|),
             Checksum(csc))
  }

  // ----- the batching sink

  datatype SinkState = SinkState(flushed: seq<seq<Record>>, batch: seq<Record>)

  function PutOne(s: SinkState, r: Record): SinkState {
    if |s.batch| + 1 >= BATCH then SinkState(s.flushed + [s.batch + [r]], []) else SinkState(s.flushed, s.batch + [r])
  }

  function PutAll(s: SinkState, rs: seq<Record>): SinkState
    decreases |rs|
  {
    if rs == [] then s else PutAll(PutOne(s, rs[0]), rs[1..])
  }

  function Flatten(batches: seq<seq<Record>>): seq<Record> {
    if batches == [] then [] else Flatten(batches[..|batches| - 1]) + batches[|batches| - 1]
  }

  /** Every record handed over so far, in order. */
  function Emitted(s: SinkState): seq<Record> {
    Flatten(s.flushed) + s.batch
  }

  lemma {:induction false} PutAllAppend(s: SinkState, a: seq<Record>, b: seq<Record>)
    ensures PutAll(s, a + b) == PutAll(PutAll(s, a), b)
    decreases |a|
  {
    if a == [] {
      assert a + b == b;
    } else {
      assert (a + b)[1..] == a[1..] + b;
      PutAllAppend(PutOne(s, a[0]), a[1..], b);
    }
  }

  /** What is written on the way are full batches of 512, after those there were. */
  lemma {:induction false} PutAllFlushes(s: SinkState, rs: seq<Record>)
    requires |s.batch| < BATCH
    ensures |PutAll(s, rs).batch| < BATCH && s.flushed <= PutAll(s, rs).flushed
    ensures forall i :: |s.flushed| <= i < |PutAll(s, rs).flushed| ==> |PutAll(s, rs).flushed[i]| == 512
    decreases |rs|
  {
    hide Emitted;
    if rs != [] {
      PutAllFlushes(PutOne(s, rs[0]), rs[1..]);
    }
  }

  /**
   Batching neither loses, repeats nor reorders a record, and no batch outgrows its limit: what is written on
   the way are full batches of 512.
   */
  lemma {:induction false} PutAllEmits(s: SinkState, rs: seq<Record>)
    requires |s.batch| < BATCH && forall i :: 0 <= i < |s.flushed| ==> 0 < |s.flushed[i]| <= BATCH
    ensures Emitted(PutAll(s, rs)) == Emitted(s) + rs
    ensures |PutAll(s, rs).batch| < BATCH
    ensures forall i :: 0 <= i < |PutAll(s, rs).flushed| ==> 0 < |PutAll(s, rs).flushed[i]| <= BATCH
    ensures s.flushed <= PutAll(s, rs).flushed
    ensures forall i :: |s.flushed| <= i < |PutAll(s, rs).flushed| ==> |PutAll(s, rs).flushed[i]| == 512
  {
    hide PutAll;
    PutAllFlushes(s, rs);
    PutAllKeeps(s, rs);
  }

  lemma {:induction false} PutAllKeeps(s: SinkState, rs: seq<Record>)
    ensures Emitted(PutAll(s, rs)) == Emitted(s) + rs
    decreases |rs|
  {
    if rs != [] {
      var s' := PutOne(s, rs[0]);
      PutAllKeeps(s', rs[1..]);
      if |s.batch| + 1 >= BATCH {
        assert s'.flushed[..|s'.flushed| - 1] == s.flushed;
      }
      assert Emitted(s') == Emitted(s) + [rs[0]];
      assert Emitted(s) + [rs[0]] + rs[1..] == Emitted(s) + rs;
    }
  }

  class ArtifactSink {
    var flushed: seq<seq<Record>>
    var batch: seq<Record>
    var pendingWrites: nat

    ghost predicate Valid() reads this {
      pendingWrites == |batch| < BATCH
    }

    function State(): SinkState reads this {
      SinkState(flushed, batch)
    }

    constructor ()
      ensures Valid() && State() == SinkState([], [])
    {
      flushed, batch, pendingWrites := [], [], 0;
    }

    method Flush()
      requires pendingWrites == |batch|
      modifies this
      ensures Valid() && batch == []
      ensures flushed == if old(batch) == [] then old(flushed) else old(flushed) + [old(batch)]
      ensures Emitted(State()) == old(Emitted(State()))
    {
      if pendingWrites == 0 { return; }
      flushed := flushed + [batch];
      assert flushed[..|flushed| - 1] == old(flushed);
      batch, pendingWrites := [], 0;
    }

    method Put(r: Record)
      requires Valid()
      modifies this
      ensures Valid()
      ensures State() == PutOne(old(State()), r)
    {
      batch := batch + [r];
      pendingWrites := pendingWrites + 1;
      if pendingWrites >= BATCH {
        Flush();
      }
    }
  }

  method WriteField(sink: ArtifactSink, id: ArtifactId, field: Field, values: seq<nat>) returns (chunks: nat)
    requires sink.Valid()
    modifies sink
    ensures sink.Valid()
    ensures sink.State() == PutAll(old(sink.State()), ChunkRecords(id, field, 0, values))
    ensures chunks == ChunkCount(|values|)
  {
    chunks := 0;
    var at := 0;
    while at < |values|
      invariant 0 <= at <= |values| && sink.Valid()
      invariant PutAll(sink.State(), ChunkRecords(id, field, chunks, values[at..]))
                == PutAll(old(sink.State()), ChunkRecords(id, field, 0, values))
      invariant chunks + ChunkCount(|values| - at) == ChunkCount(|values|)
    {
      var n := Min(CHUNK, |values| - at);
      assert values[at..][..n] == values[at..at + n] && values[at..][n..] == values[at + n..];
      sink.Put(Record(ChunkKey(id, field, chunks), values[at..at + n]));
      chunks := chunks + 1;
      at := at + n;
    }
  }

  /** The writer that is handed a finished matrix. */
  method WriteCsc(sink: ArtifactSink, id: ArtifactId, csc: Csc) returns (m: Manifest)
    requires sink.Valid()
    modifies sink
    ensures sink.Valid()
    ensures sink.State() == PutAll(old(sink.State()), RecordsOf(id, csc))
    ensures m == ManifestOf(id, csc)
  {
    ghost var (v, p, i) := (ChunkRecords(id, Vertices, 0, csc.vertices), ChunkRecords(id, Pointers, 0, csc.pointers),
                            ChunkRecords(id, Indices, 0, csc.indices));
    PutAllAppend(sink.State(), v + p, i);
    PutAllAppend(sink.State(), v, p);
    var vertexChunks := WriteField(sink, id, Vertices, csc.vertices);
    var pointerChunks := WriteField(sink, id, Pointers, csc.pointers);
    var indexChunks := WriteField(sink, id, Indices, csc.indices);
    m := Manifest(id, CHUNK, |csc.vertices|, |csc.pointers|, |csc.indices|,
                  vertexChunks, pointerChunks, indexChunks, Checksum(csc));
  }

  method ExtendChecksum(hash: nat, values: seq<nat>) returns (h: nat)
    ensures h == MixAll(hash, values)
  {
    h := hash;
    for i := 0 to |values|
      invariant h == MixAll(hash, values[..i])
    {
      assert values[..i + 1][..i] == values[..i];
      h := MixU64(h, values[i]);
    }
    assert values[..|values|] == values;
  }

  function IndexChunk(id: ArtifactId, chunk: nat, values: seq<nat>): Record {
    Record(ChunkKey(id, Indices, chunk), values)
  }

  /** The streaming writer between two index values. */
  datatype Stream = Stream(sink: SinkState, chunks: nat, buffer: seq<nat>, checksum: nat)

  /** Buffers one more value; a full buffer leaves as a chunk. */
  function Feed(s: Stream, id: ArtifactId, v: nat): Stream {
    var (buffer, checksum) := (s.buffer + [v], MixU64(s.checksum, v));
    if |buffer| == CHUNK then Stream(PutOne(s.sink, IndexChunk(id, s.chunks, buffer)), s.chunks + 1, [], checksum)
    else Stream(s.sink, s.chunks, buffer, checksum)
  }

  function FeedAll(s: Stream, id: ArtifactId, values: seq<nat>): Stream {
    if values == [] then s else Feed(FeedAll(s, id, values[..|values| - 1]), id, values[|values| - 1])
  }

  function FinishStream(s: Stream, id: ArtifactId): Stream {
    if s.buffer == [] then s
    else Stream(PutOne(s.sink, IndexChunk(id, s.chunks, s.buffer)), s.chunks + 1, [], s.checksum)
  }

  /** What is buffered plus what is still to come is what the sink is owed. */
  ghost predicate Owed(s: Stream, goal: SinkState, id: ArtifactId, rest: seq<nat>, total: nat) {
    && |s.buffer| < CHUNK
    && PutAll(s.sink, ChunkRecords(id, Indices, s.chunks, s.buffer + rest)) == goal
    && s.chunks + ChunkCount(|s.buffer| + |rest|) == total
  }

  lemma {:induction false} FeedPays(s: Stream, goal: SinkState, id: ArtifactId, v: nat, rest: seq<nat>, total: nat)
    requires Owed(s, goal, id, [v] + rest, total)
    ensures Owed(Feed(s, id, v), goal, id, rest, total)
  {
    var buffer := s.buffer + [v];
    assert s.buffer + ([v] + rest) == buffer + rest;
    if |buffer| == CHUNK {
      assert (buffer + rest)[..CHUNK] == buffer && (buffer + rest)[CHUNK..] == rest == [] + rest;
      var records := ChunkRecords(id, Indices, s.chunks, buffer + rest);
      assert records[0] == IndexChunk(id, s.chunks, buffer);
      assert records[1..] == ChunkRecords(id, Indices, s.chunks + 1, rest);
    }
  }

  lemma {:induction false} FeedAllPays(s: Stream, goal: SinkState, id: ArtifactId, fed: seq<nat>, rest: seq<nat>, total: nat)
    requires Owed(s, goal, id, fed + rest, total)
    ensures Owed(FeedAll(s, id, fed), goal, id, rest, total)
    ensures FeedAll(s, id, fed).checksum == MixAll(s.checksum, fed)
    decreases |fed|
  {
    if fed == [] {
      assert fed + rest == rest;
    } else {
      var (init, last) := (fed[..|fed| - 1], fed[|fed| - 1]);
      assert fed + rest == init + ([last] + rest);
      FeedAllPays(s, goal, id, init, [last] + rest, total);
      FeedPays(FeedAll(s, id, init), goal, id, last, rest, total);
    }
  }

  lemma {:induction false} LastBuffer(st: SinkState, id: ArtifactId, chunks: nat, buffer: seq<nat>)
    requires 0 < |buffer| < CHUNK
    ensures PutAll(st, ChunkRecords(id, Indices, chunks, buffer)) == PutOne(st, IndexChunk(id, chunks, buffer))
  {
    assert buffer[..|buffer|] == buffer && buffer[|buffer|..] == [];
    var records := ChunkRecords(id, Indices, chunks, buffer);
    assert records == [IndexChunk(id, chunks, buffer)] + ChunkRecords(id, Indices, chunks + 1, []);
    assert records == [IndexChunk(id, chunks, buffer)] && records[1..] == [];
    assert PutAll(st, records) == PutAll(PutOne(st, records[0]), []);
  }

  /** Streaming `all` leaves the sink, the chunk count and the checksum that chunking it whole would. */
  lemma {:induction false} StreamedIsChunked(st: SinkState, id: ArtifactId, all: seq<nat>, hash: nat)
    ensures FinishStream(FeedAll(Stream(st, 0, [], hash), id, all), id) ==
            Stream(PutAll(st, ChunkRecords(id, Indices, 0, all)), ChunkCount(|all|), [], MixAll(hash, all))
  {
    var goal := PutAll(st, ChunkRecords(id, Indices, 0, all));
    assert [] + (all + []) == all;
    FeedAllPays(Stream(st, 0, [], hash), goal, id, all, [], ChunkCount(|all|));
    var s := FeedAll(Stream(st, 0, [], hash), id, all);
    assert s.buffer + [] == s.buffer;
    if s.buffer != [] { LastBuffer(s.sink, id, s.chunks, s.buffer); }
  }

  lemma {:induction false} FeedAllAppend(s: Stream, id: ArtifactId, a: seq<nat>, b: seq<nat>)
    ensures FeedAll(s, id, a + b) == FeedAll(FeedAll(s, id, a), id, b)
    decreases |b|
  {
    if b == [] {
      assert a + b == a;
    } else {
      assert (a + b)[..|a + b| - 1] == a + b[..|b| - 1];
      FeedAllAppend(s, id, a, b[..|b| - 1]);
    }
  }

  /** Looks one destination up and streams its ordinal; reports a destination the dictionary lacks. */
  method StreamOne(sink: ArtifactSink, id: ArtifactId, vertices: seq<nat>, dst: nat,
                   chunks0: nat, buffer0: seq<nat>, checksum0: nat)
    returns (missing: Option<nat>, chunks: nat, buffer: seq<nat>, checksum: nat)
    requires sink.Valid() && StrictlyIncreasing(vertices)
    modifies sink
    ensures sink.Valid()
    ensures missing == if dst in vertices then None else Some(dst)
    ensures Stream(sink.State(), chunks, buffer, checksum) ==
            (var s := Stream(old(sink.State()), chunks0, buffer0, checksum0);
             if dst in vertices then Feed(s, id, Ordinal(vertices, dst)) else s)
  {
    chunks, buffer, checksum := chunks0, buffer0, checksum0;
    match BinarySearch(vertices, dst)
    case None => missing := Some(dst);
    case Some(ordinal) =>
      missing := None;
      buffer, checksum := buffer + [ordinal], MixU64(checksum, ordinal);
      if |buffer| == CHUNK {
        sink.Put(IndexChunk(id, chunks, buffer));
        chunks, buffer := chunks + 1, [];
      }
  }

  /** Streams the destinations of one row. */
  method StreamRow(sink: ArtifactSink, id: ArtifactId, vertices: seq<nat>, dsts: seq<nat>,
                   chunks0: nat, buffer0: seq<nat>, checksum0: nat)
    returns (missing: Option<nat>, chunks: nat, buffer: seq<nat>, checksum: nat)
    requires sink.Valid() && StrictlyIncreasing(vertices) && forall d :: d in dsts ==> d in vertices
    modifies sink
    ensures sink.Valid() && missing == None
    ensures Stream(sink.State(), chunks, buffer, checksum)
            == FeedAll(Stream(old(sink.State()), chunks0, buffer0, checksum0), id, RowOrdinals(vertices, dsts))
  {
    ghost var start := Stream(sink.State(), chunks0, buffer0, checksum0);
    ghost var ords := RowOrdinals(vertices, dsts);
    missing, chunks, buffer, checksum := None, chunks0, buffer0, checksum0;
    for j := 0 to |dsts|
      invariant sink.Valid() && missing == None
      invariant Stream(sink.State(), chunks, buffer, checksum) == FeedAll(start, id, ords[..j])
    {
      assert ords[..j + 1][..j] == ords[..j] && ords[j] == Ordinal(vertices, dsts[j]);
      missing, chunks, buffer, checksum := StreamOne(sink, id, vertices, dsts[j], chunks, buffer, checksum);
      if missing.Some? { return; }
    }
    assert ords[..|ords|] == ords;
  }

  /** The last, partly filled buffer. */
  method FlushBuffer(sink: ArtifactSink, id: ArtifactId, chunks: nat, buffer: seq<nat>) returns (chunks': nat)
    requires sink.Valid()
    modifies sink
    ensures sink.Valid()
    ensures forall checksum :: Stream(sink.State(), chunks', [], checksum)
                               == FinishStream(Stream(old(sink.State()), chunks, buffer, checksum), id)
  {
    chunks' := chunks;
    if buffer != [] {
      sink.Put(IndexChunk(id, chunks, buffer));
      chunks' := chunks + 1;
    }
  }

  /** The stream after one more row. */
  lemma {:induction false} StreamNext(start: Stream, id: ArtifactId, vertices: seq<nat>, i: nat, rows: Rows, dsts: seq<nat>)
    requires StrictlyIncreasing(vertices) && i < |vertices| && Covers(vertices, rows) && dsts == Row(rows, vertices[i])
    ensures forall d :: d in dsts ==> d in vertices
    ensures FeedAll(FeedAll(start, id, IndicesUpTo(vertices, i, rows)), id, RowOrdinals(vertices, dsts))
         == FeedAll(start, id, IndicesUpTo(vertices, i + 1, rows))
  {
    FeedAllAppend(start, id, IndicesUpTo(vertices, i, rows), RowOrdinals(vertices, dsts));
  }

  /** Streams every row in vertex order; no destination is ever missing from the dictionary. */
  method StreamRows(sink: ArtifactSink, id: ArtifactId, rows: Rows, vertices: seq<nat>, hash: nat)
    returns (missing: Option<nat>, chunks: nat, buffer: seq<nat>, checksum: nat)
    requires sink.Valid() && StrictlyIncreasing(vertices) && Covers(vertices, rows)
    modifies sink
    ensures sink.Valid() && missing == None
    ensures Stream(sink.State(), chunks, buffer, checksum)
            == FeedAll(Stream(old(sink.State()), 0, [], hash), id, IndicesUpTo(vertices, |vertices|, rows))
  {
    ghost var start := Stream(sink.State(), 0, [], hash);
    chunks, buffer, checksum := 0, [], hash;
    for i := 0 to |vertices|
      invariant sink.Valid()
      invariant Stream(sink.State(), chunks, buffer, checksum) == FeedAll(start, id, IndicesUpTo(vertices, i, rows))
    {
      var dsts := Row(rows, vertices[i]);
      StreamNext(start, id, vertices, i, rows, dsts);
      missing, chunks, buffer, checksum := StreamRow(sink, id, vertices, dsts, chunks, buffer, checksum);
      if missing.Some? { return; }
    }
    missing := None;
  }

  /** Streams the index array chunk by chunk without ever holding it whole. */
  method StreamIndices(sink: ArtifactSink, id: ArtifactId, rows: Rows, vertices: seq<nat>, hash: nat)
    returns (r: Result<(nat, nat), BuildError>)
    requires sink.Valid() && StrictlyIncreasing(vertices) && Covers(vertices, rows)
    modifies sink
    ensures
      var all := IndicesUpTo(vertices, |vertices|, rows);
      && sink.Valid()
      && r == Ok((ChunkCount(|all|), MixAll(hash, all)))
      && sink.State() == PutAll(old(sink.State()), ChunkRecords(id, Indices, 0, all))
  {
    StreamedIsChunked(sink.State(), id, IndicesUpTo(vertices, |vertices|, rows), hash);
    var missing, chunks, buffer, checksum := StreamRows(sink, id, rows, vertices, hash);
    match missing
    case Some(dst) => r := Err(MissingDestination(dst));
    case None =>
      ghost var s := Stream(sink.State(), chunks, buffer, checksum);
      chunks := FlushBuffer(sink, id, chunks, buffer);
      assert FinishStream(s, id) == Stream(sink.State(), chunks, [], checksum);
      r := Ok((chunks, checksum));
  }

  /** The writer that streams from normalised rows. */
  method WriteRows(sink: ArtifactSink, id: ArtifactId, rows: Rows, liveEdges: nat)
    returns (r: Result<Manifest, BuildError>)
    requires sink.Valid() && IsNormal(rows) && liveEdges == Min(|Pairs(rows)|, U64_MAX)
    modifies sink
    ensures |Pairs(rows)| <= U64_MAX ==>
              && sink.Valid()
              && r == Ok(ManifestOf(id, CscOf(rows)))
              && sink.State() == PutAll(old(sink.State()), RecordsOf(id, CscOf(rows)))
    ensures |Pairs(rows)| > U64_MAX ==> r == Err(PointerOverflow) && sink.State() == old(sink.State())
  {
    var vertices := MatrixVertices(rows);
    var pointers := MatrixPointers(rows, vertices);
    DegreesCoverPairs(vertices, rows);
    if pointers.Err? { return Err(pointers.error); }
    var checksum := MixU64(SEED, 1);
    checksum := ExtendChecksum(checksum, vertices);
    checksum := MixU64(checksum, 2);
    checksum := ExtendChecksum(checksum, pointers.value);
    checksum := MixU64(checksum, 3);
    ghost var csc := CscOf(rows);
    CscIsWellFormed(vertices, rows);
    ghost var (v, p, i) := (ChunkRecords(id, Vertices, 0, csc.vertices), ChunkRecords(id, Pointers, 0, csc.pointers),
                            ChunkRecords(id, Indices, 0, csc.indices));
    PutAllAppend(sink.State(), v + p, i);
    PutAllAppend(sink.State(), v, p);
    var vertexChunks := WriteField(sink, id, Vertices, vertices);
    var pointerChunks := WriteField(sink, id, Pointers, pointers.value);
    var streamed := StreamIndices(sink, id, rows, vertices, checksum);
    match streamed
    case Err(error) => r := Err(error);
    case Ok((indexChunks, total)) =>
      r := Ok(Manifest(id, CHUNK, |vertices|, |pointers.value|, liveEdges,
                       vertexChunks, pointerChunks, indexChunks, total));
  }

  // ----- the manifest as text

  const MANIFEST_MAGIC := "graph-graphblas-csc-manifest-v1"

  datatype ManifestError = BadShape | BadNumber(field: nat) | BadChunkSize | BadChunkCount

  function ManifestFields(m: Manifest): seq<string> {
    [MANIFEST_MAGIC, m.id.cellId, m.id.edgeType, Decimal(m.id.epoch), Decimal(m.chunkSize),
     Decimal(m.verticesLen), Decimal(m.pointersLen), Decimal(m.indicesLen),
     Decimal(m.vertexChunks), Decimal(m.pointerChunks), Decimal(m.indexChunks), Decimal(m.checksum)]
  }

  function EncodeManifest(m: Manifest): string {
    Join(ManifestFields(m), '\t') + "\n"
  }

  /** The numbers of fields 3 to 11, or the first one that does not parse. */
  function ParseNumbers(parts: seq<string>, at: nat): Result<seq<nat>, ManifestError>
    requires at <= |parts|
    decreases |parts| - at
  {
    if at == |parts| then Ok([])
    else match ParseU64(parts[at])
         case None => Err(BadNumber(at))
         case Some(n) =>
           match ParseNumbers(parts, at + 1)
           case Err(e) => Err(e)
           case Ok(rest) => Ok([n] + rest)
  }

  function DecodeManifest(text: string): Result<Manifest, ManifestError> {
    DecodeParts(Split(TrimEnd(text, '\n'), '\t'))
  }

  function DecodeParts(parts: seq<string>): Result<Manifest, ManifestError> {
    if |parts| != 12 || parts[0] != MANIFEST_MAGIC then Err(BadShape)
    else match ParseNumbers(parts, 3)
         case Err(e) => Err(e)
         case Ok(n) =>
           if |n| != 9 then Err(BadShape)
           else
             var m := Manifest(ArtifactId(parts[1], parts[2], n[0]), n[1], n[2], n[3], n[4], n[5], n[6], n[7], n[8]);
             if m.chunkSize != CHUNK then Err(BadChunkSize)
             else if || ChunkCount(m.verticesLen) != m.vertexChunks
                     || ChunkCount(m.pointersLen) != m.pointerChunks
                     || ChunkCount(m.indicesLen) != m.indexChunks
             then Err(BadChunkCount)
             else Ok(m)
  }

  predicate FitsU64(m: Manifest) {
    && m.id.epoch <= U64_MAX && m.chunkSize <= U64_MAX && m.checksum <= U64_MAX
    && m.verticesLen <= U64_MAX && m.pointersLen <= U64_MAX && m.indicesLen <= U64_MAX
    && m.vertexChunks <= U64_MAX && m.pointerChunks <= U64_MAX && m.indexChunks <= U64_MAX
  }

  lemma {:induction false} ParseNumbersOf(parts: seq<string>, at: nat, numbers: seq<nat>)
    requires at + |numbers| == |parts|
    requires forall i :: 0 <= i < |numbers| ==> numbers[i] <= U64_MAX && parts[at + i] == Decimal(numbers[i])
    ensures ParseNumbers(parts, at) == Ok(numbers)
    decreases |numbers|
  {
    if numbers != [] {
      ParseDecimal(numbers[0]);
      ParseNumbersOf(parts, at + 1, numbers[1..]);
      assert [numbers[0]] + numbers[1..] == numbers;
    }
  }

  lemma {:induction false} NoTabInFields(m: Manifest)
    requires ValidComponent(m.id.cellId) && ValidComponent(m.id.edgeType)
    ensures forall i :: 0 <= i < 12 ==> '\t' !in ManifestFields(m)[i]
  {
  }

  lemma {:induction false} JoinEnds(parts: seq<string>, sep: char)
    requires parts != [] && parts[|parts| - 1] != ""
    ensures Join(parts, sep) != "" && Join(parts, sep)[|Join(parts, sep)| - 1] == parts[|parts| - 1][|parts[|parts| - 1]| - 1]
  {
    if |parts| > 1 { JoinEnds(parts[1..], sep); }
  }

  lemma {:induction false} PartsRoundTrip(m: Manifest)
    requires FitsU64(m) && m.chunkSize == CHUNK && ChunkCount(m.verticesLen) == m.vertexChunks
    requires ChunkCount(m.pointersLen) == m.pointerChunks && ChunkCount(m.indicesLen) == m.indexChunks
    ensures DecodeParts(ManifestFields(m)) == Ok(m)
  {
    ParseNumbersOf(ManifestFields(m), 3, [m.id.epoch, m.chunkSize, m.verticesLen, m.pointersLen, m.indicesLen,
                                          m.vertexChunks, m.pointerChunks, m.indexChunks, m.checksum]);
  }

  /** The decoder accepts exactly what the encoder wrote, for every manifest with consistent counts. */
  lemma {:induction false} ManifestRoundTrip(m: Manifest)
    requires ValidComponent(m.id.cellId) && ValidComponent(m.id.edgeType) && FitsU64(m)
    requires m.chunkSize == CHUNK && ChunkCount(m.verticesLen) == m.vertexChunks
    requires ChunkCount(m.pointersLen) == m.pointerChunks && ChunkCount(m.indicesLen) == m.indexChunks
    ensures DecodeManifest(EncodeManifest(m)) == Ok(m)
  {
    var parts := ManifestFields(m);
    NoTabInFields(m);
    SplitJoin(parts, '\t');
    JoinEnds(parts, '\t');
    TrimEndOne(Join(parts, '\t'), '\n');
    PartsRoundTrip(m);
  }

  // ----- loading the matrix back

  type ChunkStore = map<ChunkKey, Bytes>

  function Puts(rs: seq<Record>): (puts: seq<(ChunkKey, Bytes)>)
    ensures |puts| == |rs|
    ensures forall i :: 0 <= i < |rs| ==> puts[i] == (rs[i].key, Wire(rs[i]))
  {
    seq(|rs|, i requires 0 <= i < |rs| => (rs[i].key, Wire(rs[i])))
  }

  function StoreAll(st: ChunkStore, puts: seq<(ChunkKey, Bytes)>): ChunkStore {
    if puts == [] then st else StoreAll(st, puts[..|puts| - 1])[puts[|puts| - 1].0 := puts[|puts| - 1].1]
  }

  datatype LoadError =
    | BadManifest(why: ManifestError) | IdentityMismatch | MissingChunk | BadChunk(cause: DecodeError)
    | LengthMismatch | ChecksumMismatch | InvalidMatrix

  /** Chunks `next` up to `count` of one field, concatenated. */
  function LoadFrom(st: ChunkStore, id: ArtifactId, field: Field, next: nat, count: nat): Result<seq<nat>, LoadError>
    decreases count - next
  {
    if next >= count then Ok([])
    else if ChunkKey(id, field, next) !in st then Err(MissingChunk)
    else match DecodeChunk(st[ChunkKey(id, field, next)], field, next)
         case Err(e) => Err(BadChunk(e))
         case Ok(values) =>
           match LoadFrom(st, id, field, next + 1, count)
           case Err(e) => Err(e)
           case Ok(rest) => Ok(values + rest)
  }

  function LoadField(st: ChunkStore, id: ArtifactId, field: Field, count: nat, len: nat): Result<seq<nat>, LoadError> {
    match LoadFrom(st, id, field, 0, count)
    case Err(e) => Err(e)
    case Ok(values) => if |values| != len then Err(LengthMismatch) else Ok(values)
  }

  function LoadArrays(st: ChunkStore, m: Manifest): Result<Csc, LoadError> {
    match LoadField(st, m.id, Vertices, m.vertexChunks, m.verticesLen)
    case Err(e) => Err(e)
    case Ok(vertices) =>
      match LoadField(st, m.id, Pointers, m.pointerChunks, m.pointersLen)
      case Err(e) => Err(e)
      case Ok(pointers) =>
        match LoadField(st, m.id, Indices, m.indexChunks, m.indicesLen)
        case Err(e) => Err(e)
        case Ok(indices) => Ok(Csc(vertices, pointers, indices))
  }

  ghost function Load(st: ChunkStore, text: string, id: ArtifactId): Result<Csc, LoadError> {
    match DecodeManifest(text)
    case Err(e) => Err(BadManifest(e))
    case Ok(m) =>
      if m.id != id then Err(IdentityMismatch)
      else match LoadArrays(st, m)
           case Err(e) => Err(e)
           case Ok(csc) =>
             if Checksum(csc) != m.checksum then Err(ChecksumMismatch)
             else if !WellFormed(csc) then Err(InvalidMatrix)
             else Ok(csc)
  }

  ghost predicate AllFit(values: seq<nat>) {
    |values| <= U64_MAX && forall i :: 0 <= i < |values| ==> values[i] <= U64_MAX
  }

  lemma {:induction false} StoreAllHolds(st: ChunkStore, puts: seq<(ChunkKey, Bytes)>, i: nat)
    requires i < |puts| && forall a, b :: 0 <= a < b < |puts| ==> puts[a].0 != puts[b].0
    ensures puts[i].0 in StoreAll(st, puts) && StoreAll(st, puts)[puts[i].0] == puts[i].1
  {
    if i < |puts| - 1 { StoreAllHolds(st, puts[..|puts| - 1], i); }
  }

  predicate DistinctKeys(rs: seq<Record>) {
    forall i, j :: 0 <= i < j < |rs| ==> rs[i].key != rs[j].key
  }

  /** Every listed chunk is stored and decodes to its values. */
  ghost predicate Serves(st: ChunkStore, rs: seq<Record>) {
    forall i :: 0 <= i < |rs| ==> ServesOne(st, rs[i])
  }

  ghost predicate ServesOne(st: ChunkStore, r: Record) {
    r.key in st && DecodeChunk(st[r.key], r.key.field, r.key.chunk) == Ok(r.values)
  }

  ghost predicate Encodable(r: Record) {
    r.key.chunk <= U64_MAX && |r.values| <= CHUNK && forall i :: 0 <= i < |r.values| ==> r.values[i] <= U64_MAX
  }

  lemma {:induction false} StoredServes(st: ChunkStore, rs: seq<Record>)
    requires DistinctKeys(rs) && forall i :: 0 <= i < |rs| ==> Encodable(rs[i])
    ensures Serves(StoreAll(st, Puts(rs)), rs)
  {
    forall i | 0 <= i < |rs| ensures ServesOne(StoreAll(st, Puts(rs)), rs[i]) {
      StoreAllHolds(st, Puts(rs), i);
      ChunkRoundTrip(rs[i].key.field, rs[i].key.chunk, rs[i].values);
    }
  }

  lemma {:induction false} ChunkRecordKeys(id: ArtifactId, field: Field, first: nat, values: seq<nat>, i: nat)
    requires i < |ChunkRecords(id, field, first, values)|
    ensures ChunkRecords(id, field, first, values)[i].key == ChunkKey(id, field, first + i)
    ensures AllFit(values) && first + |values| <= U64_MAX ==> Encodable(ChunkRecords(id, field, first, values)[i])
    decreases |values|
  {
    if i > 0 { ChunkRecordKeys(id, field, first + 1, values[Min(CHUNK, |values|)..], i - 1); }
  }

  lemma {:induction false} RecordsAreGood(id: ArtifactId, csc: Csc)
    requires AllFit(csc.vertices) && AllFit(csc.pointers) && AllFit(csc.indices)
    ensures DistinctKeys(RecordsOf(id, csc))
    ensures forall i :: 0 <= i < |RecordsOf(id, csc)| ==> Encodable(RecordsOf(id, csc)[i])
  {
    var v := ChunkRecords(id, Vertices, 0, csc.vertices);
    var p := ChunkRecords(id, Pointers, 0, csc.pointers);
    var x := ChunkRecords(id, Indices, 0, csc.indices);
    forall i | 0 <= i < |v| ensures v[i].key == ChunkKey(id, Vertices, i) && Encodable(v[i]) {
      ChunkRecordKeys(id, Vertices, 0, csc.vertices, i);
    }
    forall i | 0 <= i < |p| ensures p[i].key == ChunkKey(id, Pointers, i) && Encodable(p[i]) {
      ChunkRecordKeys(id, Pointers, 0, csc.pointers, i);
    }
    forall i | 0 <= i < |x| ensures x[i].key == ChunkKey(id, Indices, i) && Encodable(x[i]) {
      ChunkRecordKeys(id, Indices, 0, csc.indices, i);
    }
  }

  lemma {:induction false} ServesParts(st: ChunkStore, a: seq<Record>, b: seq<Record>)
    requires Serves(st, a + b)
    ensures Serves(st, a) && Serves(st, b)
  {
    forall i | 0 <= i < |a| ensures ServesOne(st, a[i]) { assert (a + b)[i] == a[i]; }
    forall i | 0 <= i < |b| ensures ServesOne(st, b[i]) { assert (a + b)[|a| + i] == b[i]; }
  }

  lemma {:induction false} LoadStep(st: ChunkStore, id: ArtifactId, field: Field, next: nat, count: nat, values: seq<nat>, rest: seq<nat>)
    requires next < count && ServesOne(st, Record(ChunkKey(id, field, next), values))
    requires LoadFrom(st, id, field, next + 1, count) == Ok(rest)
    ensures LoadFrom(st, id, field, next, count) == Ok(values + rest)
  {
  }

  /** Decoding the chunks of one field in order reassembles it. */
  lemma {:induction false} LoadFromRecords(st: ChunkStore, id: ArtifactId, field: Field, first: nat, count: nat, values: seq<nat>)
    requires Serves(st, ChunkRecords(id, field, first, values))
    requires count == first + |ChunkRecords(id, field, first, values)|
    ensures LoadFrom(st, id, field, first, count) == Ok(values)
    decreases |values|
  {
    if values != [] {
      var n := Min(CHUNK, |values|);
      var (head, tail) := (values[..n], values[n..]);
      FirstChunk(st, id, field, first, values);
      LoadFromRecords(st, id, field, first + 1, count, tail);
      LoadStep(st, id, field, first, count, head, tail);
      assert head + tail == values;
    }
  }

  lemma {:induction false} FirstChunk(st: ChunkStore, id: ArtifactId, field: Field, first: nat, values: seq<nat>)
    requires values != [] && Serves(st, ChunkRecords(id, field, first, values))
    ensures
      var n := Min(CHUNK, |values|);
      && ServesOne(st, Record(ChunkKey(id, field, first), values[..n]))
      && Serves(st, ChunkRecords(id, field, first + 1, values[n..]))
      && |ChunkRecords(id, field, first, values)| == 1 + |ChunkRecords(id, field, first + 1, values[n..])|
  {
    var n := Min(CHUNK, |values|);
    var rs := ChunkRecords(id, field, first, values);
    assert rs == [rs[0]] + ChunkRecords(id, field, first + 1, values[n..]);
    ServesParts(st, [rs[0]], ChunkRecords(id, field, first + 1, values[n..]));
    assert ServesOne(st, [rs[0]][0]);
  }

  lemma {:induction false} FieldLoads(st: ChunkStore, id: ArtifactId, field: Field, values: seq<nat>)
    requires Serves(st, ChunkRecords(id, field, 0, values))
    ensures LoadField(st, id, field, ChunkCount(|values|), |values|) == Ok(values)
  {
    ChunkRecordsCount(id, field, 0, values);
    LoadFromRecords(st, id, field, 0, ChunkCount(|values|), values);
  }

  lemma {:induction false} ChecksumFits(csc: Csc)
    ensures Checksum(csc) <= U64_MAX
  {
  }

  lemma {:induction false} ArraysLoad(st: ChunkStore, id: ArtifactId, csc: Csc)
    requires AllFit(csc.vertices) && AllFit(csc.pointers) && AllFit(csc.indices)
    ensures LoadArrays(StoreAll(st, Puts(RecordsOf(id, csc))), ManifestOf(id, csc)) == Ok(csc)
  {
    var st' := StoreAll(st, Puts(RecordsOf(id, csc)));
    RecordsAreGood(id, csc);
    StoredServes(st, RecordsOf(id, csc));
    var (v, p) := (ChunkRecords(id, Vertices, 0, csc.vertices), ChunkRecords(id, Pointers, 0, csc.pointers));
    ServesParts(st', v + p, ChunkRecords(id, Indices, 0, csc.indices));
    ServesParts(st', v, p);
    FieldLoads(st', id, Vertices, csc.vertices);
    FieldLoads(st', id, Pointers, csc.pointers);
    FieldLoads(st', id, Indices, csc.indices);
  }

  lemma {:induction false} ManifestOfRoundTrip(id: ArtifactId, csc: Csc)
    requires |csc.vertices| <= U64_MAX && |csc.pointers| <= U64_MAX && |csc.indices| <= U64_MAX
    requires ValidComponent(id.cellId) && ValidComponent(id.edgeType) && id.epoch <= U64_MAX
    ensures DecodeManifest(EncodeManifest(ManifestOf(id, csc))) == Ok(ManifestOf(id, csc))
  {
    ChecksumFits(csc);
    ManifestRoundTrip(ManifestOf(id, csc));
  }

  /**
   Whatever the store held before, once the records of a well-formed matrix are in
   it the loader accepts the manifest and returns exactly that matrix.
   */
  lemma {:induction false} LoadsWhatWasWritten(st: ChunkStore, id: ArtifactId, csc: Csc)
    requires WellFormed(csc) && AllFit(csc.vertices) && AllFit(csc.pointers) && AllFit(csc.indices)
    requires ValidComponent(id.cellId) && ValidComponent(id.edgeType) && id.epoch <= U64_MAX
    ensures Load(StoreAll(st, Puts(RecordsOf(id, csc))), EncodeManifest(ManifestOf(id, csc)), id) == Ok(csc)
  {
    ManifestOfRoundTrip(id, csc);
    ArraysLoad(st, id, csc);
  }

  /** Writes batch after batch. */
  function StoreBatches(st: ChunkStore, batches: seq<seq<Record>>): ChunkStore {
    if batches == [] then st
    else StoreAll(StoreBatches(st, batches[..|batches| - 1]), Puts(batches[|batches| - 1]))
  }

  lemma {:induction false} StoreAllAppend(st: ChunkStore, a: seq<(ChunkKey, Bytes)>, b: seq<(ChunkKey, Bytes)>)
    ensures StoreAll(st, a + b) == StoreAll(StoreAll(st, a), b)
    decreases |b|
  {
    if b == [] {
      assert a + b == a;
    } else {
      assert (a + b)[..|a + b| - 1] == a + b[..|b| - 1];
      StoreAllAppend(st, a, b[..|b| - 1]);
    }
  }

  lemma {:induction false} NothingStored(st: ChunkStore)
    ensures StoreAll(st, Puts([])) == st
  {
  }

  lemma {:induction false} PutsAppend(a: seq<Record>, b: seq<Record>)
    ensures Puts(a + b) == Puts(a) + Puts(b)
  {
  }

  /** Batches make no difference to what the store holds. */
  lemma {:induction false} BatchesStoreAll(st: ChunkStore, batches: seq<seq<Record>>)
    ensures StoreBatches(st, batches) == StoreAll(st, Puts(Flatten(batches)))
    decreases |batches|
  {
    hide Puts;
    hide StoreAll;
    if batches == [] {
      NothingStored(st);
    } else {
      var (before, last) := (batches[..|batches| - 1], batches[|batches| - 1]);
      BatchesStoreAll(st, before);
      PutsAppend(Flatten(before), last);
      StoreAllAppend(st, Puts(Flatten(before)), Puts(last));
    }
  }

  lemma {:induction false} PairsBoundPointers(rows: Rows)
    requires IsNormal(rows)
    ensures WellFormed(CscOf(rows)) && |CscOf(rows).indices| == |Pairs(rows)|
  {
    CscReadsBack(rows);
  }

  lemma {:induction false} BoundedPointers(csc: Csc)
    requires WellFormed(csc) && |csc.indices| <= U64_MAX && |csc.vertices| < U64_MAX
    ensures AllFit(csc.pointers) && AllFit(csc.indices)
  {
  }

  /** From normalised rows of 64-bit ids, through chunks and manifest, to the same matrix again. */
  lemma {:induction false} RowsLoadBack(st: ChunkStore, id: ArtifactId, rows: Rows)
    requires IsNormal(rows) && |Pairs(rows)| <= U64_MAX && |VerticesOf(rows)| < U64_MAX
    requires forall v :: v in Touched(rows) ==> v <= U64_MAX
    requires ValidComponent(id.cellId) && ValidComponent(id.edgeType) && id.epoch <= U64_MAX
    ensures Load(StoreAll(st, Puts(RecordsOf(id, CscOf(rows)))), EncodeManifest(ManifestOf(id, CscOf(rows))), id)
            == Ok(CscOf(rows))
  {
    PairsBoundPointers(rows);
    BoundedPointers(CscOf(rows));
    assert AllFit(VerticesOf(rows)) by {
      forall i | 0 <= i < |VerticesOf(rows)| ensures VerticesOf(rows)[i] <= U64_MAX {
        assert VerticesOf(rows)[i] in Touched(rows);
      }
    }
    LoadsWhatWasWritten(st, id, CscOf(rows));
  }

  /** A fresh sink that was handed `rs` and then flushed has written exactly those records. */
  lemma {:induction false} FlushedIsAll(written: SinkState, flushed: seq<seq<Record>>, rs: seq<Record>)
    requires written == PutAll(SinkState([], []), rs)
    requires flushed == if written.batch == [] then written.flushed else written.flushed + [written.batch]
    ensures Flatten(flushed) == rs
  {
    PutAllEmits(SinkState([], []), rs);
    assert Emitted(SinkState([], [])) + rs == rs;
    assert Flatten(written.flushed) + [] == Flatten(written.flushed);
    if written.batch != [] {
      assert flushed[..|flushed| - 1] == written.flushed;
    }
  }

  /**
   The whole way: streams normalised rows into batches, writes the batches to the store and gives
   the manifest. The loader then returns exactly the matrix of the rows, whatever the store held.
   */
  method WriteArtifact(st: ChunkStore, id: ArtifactId, rows: Rows, liveEdges: nat)
    returns (st': ChunkStore, r: Result<Manifest, BuildError>)
    requires IsNormal(rows) && liveEdges == Min(|Pairs(rows)|, U64_MAX)
    ensures r.Ok? <==> |Pairs(rows)| <= U64_MAX
    ensures r.Err? ==> st' == st
    ensures r.Ok? && |VerticesOf(rows)| < U64_MAX && (forall v :: v in Touched(rows) ==> v <= U64_MAX)
            && ValidComponent(id.cellId) && ValidComponent(id.edgeType) && id.epoch <= U64_MAX
            ==> Load(st', EncodeManifest(r.value), id) == Ok(CscOf(rows))
  {
    st' := st;
    var sink := new ArtifactSink();
    r := WriteRows(sink, id, rows, liveEdges);
    if r.Err? {
      return;
    }
    ghost var written := sink.State();
    sink.Flush();
    FlushedIsAll(written, sink.flushed, RecordsOf(id, CscOf(rows)));
    BatchesStoreAll(st, sink.flushed);
    st' := StoreBatches(st, sink.flushed);
    ghost var fits :=
      && |VerticesOf(rows)| < U64_MAX && (forall v :: v in Touched(rows) ==> v <= U64_MAX)
      && ValidComponent(id.cellId) && ValidComponent(id.edgeType) && id.epoch <= U64_MAX;
    if fits {
      RowsLoadBack(st, id, rows);
    }
  }
}
