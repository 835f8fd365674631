/** The keys of a cell's rows: slash-separated components, numbers zero-padded, no two rows alike. */
module Keys {
  import opened Base
  import opened BinaryCodec
  import opened TextCodec
  import opened PropertyKeys

  datatype Key =
    | Vertex(id: nat)
    | VertexLabel(name: string, id: nat)
    | VertexProperty(property: string, value: Value, id: nat)
    | OutEdge(edgeType: string, src: nat, dst: nat)
    | InEdge(edgeType: string, dst: nat, src: nat)
    | Relationship(edgeType: string, src: nat, dst: nat, id: nat)
    | RelationshipId(id: nat)
    | RelationshipProperty(edgeType: string, property: string, value: Value, src: nat, dst: nat, id: nat)
    | RelationshipMerge(edgeType: string, property: string, value: Value, src: nat, dst: nat)
    | RelationshipCount(edgeType: string, src: nat, dst: nat)
    | DegreeOut(edgeType: string, src: nat)
    | DegreeIn(edgeType: string, dst: nat)
    | LastRelationshipId
    | OutSegment(edgeType: string, src: nat, sequence: nat, segment: string)
    | OutTombstone(edgeType: string, src: nat, dst: nat)
    | StructuralEdge(edgeType: string, src: nat, dst: nat)
    | EdgeMetadata(edgeType: string, src: nat, dst: nat)
    | EdgeProperty(edgeType: string, property: string, value: Value, src: nat, dst: nat)
    | Idempotency(operation: string, token: string)
    | ChangeLog(edgeType: string, at: nat, src: nat, dst: nat)
    | ChangeLogFloor(edgeType: string)
    | MatrixDirty(edgeType: string)
    | AdjacencyGeneration(edgeType: string)

  /** The kinds of rows; each has its own leading components. */
  datatype Family =
    | VertexRows | LabelRows | VertexPropertyRows
    | OutRows | InRows
    | RelationshipRows | RelationshipIdRows | RelationshipPropertyRows | MergeRows | CountRows
    | DegreeOutRows | DegreeInRows
    | LastIdRow
    | SegmentRows | TombstoneRows
    | StructuralRows | MetadataRows | EdgePropertyRows
    | IdempotencyRows
    | LogRows | LogFloorRows
    | DirtyRows | GenerationRows

  function FamilyParts(f: Family): (parts: seq<string>)
    ensures 1 <= |parts| <= 2
  {
    match f
    case VertexRows => ["vertex"]
    case LabelRows => ["vlabel"]
    case VertexPropertyRows => ["vprop_idx"]
    case OutRows => ["e", "out"]
    case InRows => ["e", "in"]
    case RelationshipRows => ["rel"]
    case RelationshipIdRows => ["rel_id"]
    case RelationshipPropertyRows => ["rprop_idx"]
    case MergeRows => ["rmerge_idx"]
    case CountRows => ["rel_count"]
    case DegreeOutRows => ["cnt", "out"]
    case DegreeInRows => ["cnt", "in"]
    case LastIdRow => ["meta", "last_relationship_id"]
    case SegmentRows => ["seg", "out"]
    case TombstoneRows => ["seg", "tomb"]
    case StructuralRows => ["edge"]
    case MetadataRows => ["emeta"]
    case EdgePropertyRows => ["eprop_idx"]
    case IdempotencyRows => ["idem"]
    case LogRows => ["xlog"]
    case LogFloorRows => ["meta", "xlog_low"]
    case DirtyRows => ["meta", "matrix_dirty"]
    case GenerationRows => ["meta", "adjacency_generation"]
  }

  function FamilyOf(k: Key): Family {
    match k
    case Vertex(_) => VertexRows
    case VertexLabel(_, _) => LabelRows
    case VertexProperty(_, _, _) => VertexPropertyRows
    case OutEdge(_, _, _) => OutRows
    case InEdge(_, _, _) => InRows
    case Relationship(_, _, _, _) => RelationshipRows
    case RelationshipId(_) => RelationshipIdRows
    case RelationshipProperty(_, _, _, _, _, _) => RelationshipPropertyRows
    case RelationshipMerge(_, _, _, _, _) => MergeRows
    case RelationshipCount(_, _, _) => CountRows
    case DegreeOut(_, _) => DegreeOutRows
    case DegreeIn(_, _) => DegreeInRows
    case LastRelationshipId => LastIdRow
    case OutSegment(_, _, _, _) => SegmentRows
    case OutTombstone(_, _, _) => TombstoneRows
    case StructuralEdge(_, _, _) => StructuralRows
    case EdgeMetadata(_, _, _) => MetadataRows
    case EdgeProperty(_, _, _, _, _) => EdgePropertyRows
    case Idempotency(_, _) => IdempotencyRows
    case ChangeLog(_, _, _, _) => LogRows
    case ChangeLogFloor(_) => LogFloorRows
    case MatrixDirty(_) => DirtyRows
    case AdjacencyGeneration(_) => GenerationRows
  }

  function Names(k: Key): seq<string> {
    match k
    case VertexLabel(l, _) => [l]
    case VertexProperty(p, _, _) => [p]
    case OutEdge(t, _, _) => [t]
    case InEdge(t, _, _) => [t]
    case Relationship(t, _, _, _) => [t]
    case RelationshipProperty(t, p, _, _, _, _) => [t, p]
    case RelationshipMerge(t, p, _, _, _) => [t, p]
    case RelationshipCount(t, _, _) => [t]
    case DegreeOut(t, _) => [t]
    case DegreeIn(t, _) => [t]
    case OutSegment(t, _, _, _) => [t]
    case OutTombstone(t, _, _) => ["out", t]
    case StructuralEdge(t, _, _) => [t]
    case EdgeMetadata(t, _, _) => [t]
    case EdgeProperty(t, p, _, _, _) => [t, p]
    case Idempotency(o, k) => [o, k]
    case ChangeLog(t, _, _, _) => [t]
    case ChangeLogFloor(t) => [t]
    case MatrixDirty(t) => [t]
    case AdjacencyGeneration(t) => [t]
    case _ => []
  }

  function Values(k: Key): seq<Value> {
    match k
    case VertexProperty(_, v, _) => [v]
    case RelationshipProperty(_, _, v, _, _, _) => [v]
    case RelationshipMerge(_, _, v, _, _) => [v]
    case EdgeProperty(_, _, v, _, _) => [v]
    case _ => []
  }

  function Ids(k: Key): seq<nat> {
    match k
    case Vertex(id) => [id]
    case VertexLabel(_, id) => [id]
    case VertexProperty(_, _, id) => [id]
    case OutEdge(_, s, d) => [s, d]
    case InEdge(_, d, s) => [d, s]
    case Relationship(_, s, d, id) => [s, d, id]
    case RelationshipId(id) => [id]
    case RelationshipProperty(_, _, _, s, d, id) => [s, d, id]
    case RelationshipMerge(_, _, _, s, d) => [s, d]
    case RelationshipCount(_, s, d) => [s, d]
    case DegreeOut(_, s) => [s]
    case DegreeIn(_, d) => [d]
    case OutSegment(_, s, n, _) => [s, n]
    case OutTombstone(_, s, d) => [s, d]
    case StructuralEdge(_, s, d) => [s, d]
    case EdgeMetadata(_, s, d) => [s, d]
    case EdgeProperty(_, _, _, s, d) => [s, d]
    case ChangeLog(_, n, s, d) => [n, s, d]
    case _ => []
  }

  /** What follows the numbers. */
  function Trailer(k: Key): seq<string> {
    if k.OutSegment? then [k.segment] else []
  }

  /** Numbers fit 64 bits and names are valid key components. */
  ghost predicate KeyInRange(k: Key) {
    && (forall i :: 0 <= i < |Names(k)| ==> ValidComponent(Names(k)[i]))
    && (forall i :: 0 <= i < |Values(k)| ==> InRange(Values(k)[i]))
    && (forall i :: 0 <= i < |Ids(k)| ==> Ids(k)[i] <= U64_MAX)
    && (k.OutSegment? ==> ValidComponent(k.segment))
  }

  /** Twenty digits. */
  function Id(n: nat): string { Padded(n, DECIMAL_WIDTH) }

  function EncodeAll(values: seq<Value>): (parts: seq<string>)
    requires forall i :: 0 <= i < |values| ==> InRange(values[i])
    ensures |parts| == |values|
  {
    seq(|values|, i requires 0 <= i < |values| => Encode(values[i]))
  }

  function IdParts(ids: seq<nat>): (parts: seq<string>)
    ensures |parts| == |ids|
  {
    seq(|ids|, i requires 0 <= i < |ids| => Id(ids[i]))
  }

  /** The components after `cell/<cell id>`: the family, names, an encoded value, and numbers. */
  ghost function Tail(k: Key): (parts: seq<string>)
    requires KeyInRange(k)
    ensures parts != []
  {
    FamilyParts(FamilyOf(k)) + Names(k) + EncodeAll(Values(k)) + IdParts(Ids(k)) + Trailer(k)
  }

  ghost function Print(cell: string, k: Key): string
    requires KeyInRange(k)
  {
    Join(["cell", cell] + Tail(k), '/')
  }

  // ----- no two keys print alike

  lemma {:induction false} SameKey(j: Key, k: Key)
    requires FamilyOf(j) == FamilyOf(k) && Names(j) == Names(k) && Values(j) == Values(k) && Ids(j) == Ids(k)
    requires Trailer(j) == Trailer(k)
    ensures j == k
  {
  }

  /** How many names, values and numbers the keys of a family hold. */
  function Shape(f: Family): (nat, nat, nat) {
    match f
    case VertexRows => (0, 0, 1)
    case LabelRows => (1, 0, 1)
    case VertexPropertyRows => (1, 1, 1)
    case RelationshipRows => (1, 0, 3)
    case RelationshipIdRows => (0, 0, 1)
    case RelationshipPropertyRows => (2, 1, 3)
    case MergeRows => (2, 1, 2)
    case EdgePropertyRows => (2, 1, 2)
    case DegreeOutRows => (1, 0, 1)
    case DegreeInRows => (1, 0, 1)
    case LastIdRow => (0, 0, 0)
    case TombstoneRows => (2, 0, 2)
    case IdempotencyRows => (2, 0, 0)
    case LogRows => (1, 0, 3)
    case LogFloorRows => (1, 0, 0)
    case DirtyRows => (1, 0, 0)
    case GenerationRows => (1, 0, 0)
    case _ => (1, 0, 2)
  }

  lemma {:induction false} HasShape(k: Key)
    ensures (|Names(k)|, |Values(k)|, |Ids(k)|) == Shape(FamilyOf(k))
  {
  }

  lemma {:induction false} SameShape(j: Key, k: Key)
    requires FamilyOf(j) == FamilyOf(k)
    ensures |Names(j)| == |Names(k)| && |Values(j)| == |Values(k)| && |Ids(j)| == |Ids(k)|
  {
    hide *;
    HasShape(j);
    HasShape(k);
  }

  lemma {:induction false} FamilyHeads(f: Family, g: Family)
    requires FamilyParts(f)[0] == FamilyParts(g)[0]
    ensures |FamilyParts(f)| == |FamilyParts(g)|
    ensures f == g || FamilyParts(f) != FamilyParts(g)
  {
  }

  lemma {:induction false} IdInjective(m: nat, n: nat)
    requires m <= U64_MAX && n <= U64_MAX && Id(m) == Id(n)
    ensures m == n
  {
    ParsePadded(m);
    ParsePadded(n);
  }

  lemma {:induction false} IdPartsInjective(a: seq<nat>, b: seq<nat>)
    requires IdParts(a) == IdParts(b)
    requires forall i :: 0 <= i < |a| ==> a[i] <= U64_MAX
    requires forall i :: 0 <= i < |b| ==> b[i] <= U64_MAX
    ensures a == b
  {
    assert |a| == |IdParts(a)| == |b|;
    forall i | 0 <= i < |a| ensures a[i] == b[i] {
      assert IdParts(a)[i] == IdParts(b)[i];
      IdInjective(a[i], b[i]);
    }
  }

  lemma {:induction false} EncodeAllInjective(a: seq<Value>, b: seq<Value>)
    requires forall i :: 0 <= i < |a| ==> InRange(a[i])
    requires forall i :: 0 <= i < |b| ==> InRange(b[i])
    requires EncodeAll(a) == EncodeAll(b)
    ensures a == b
  {
    assert |a| == |EncodeAll(a)| == |b|;
    forall i | 0 <= i < |a| ensures a[i] == b[i] {
      assert EncodeAll(a)[i] == EncodeAll(b)[i];
      DecodeInverts(a[i]);
      DecodeInverts(b[i]);
    }
  }

  /** Five sequences end to end come apart at the same places. */
  lemma {:induction false} Aligned(f: seq<string>, a: seq<string>, b: seq<string>, c: seq<string>, d: seq<string>,
                g: seq<string>, x: seq<string>, y: seq<string>, z: seq<string>, w: seq<string>)
    requires f + a + b + c + d == g + x + y + z + w && |f| == |g| && |a| == |x| && |b| == |y| && |c| == |z|
    ensures f == g && a == x && b == y && c == z && d == w
  {
    var l, r := f + a + b + c + d, g + x + y + z + w;
    var i, j, n := |f| + |a|, |f| + |a| + |b|, |f| + |a| + |b| + |c|;
    assert f == l[..|f|] && g == r[..|f|];
    assert a == l[|f|..i] && x == r[|f|..i];
    assert b == l[i..j] && y == r[i..j];
    assert c == l[j..n] && z == r[j..n];
    assert d == l[n..] && w == r[n..];
  }

  /** The family can be told from the leading components. */
  lemma {:induction false} FamilyTold(f: Family, x: seq<string>, g: Family, y: seq<string>)
    requires FamilyParts(f) + x == FamilyParts(g) + y
    ensures f == g
  {
    var l, r := FamilyParts(f) + x, FamilyParts(g) + y;
    assert l[0] == FamilyParts(f)[0] && r[0] == FamilyParts(g)[0];
    FamilyHeads(f, g);
    var n := |FamilyParts(f)|;
    assert l[..n] == FamilyParts(f) && r[..n] == FamilyParts(g);
  }

  /** The components after the family. */
  ghost function Rest(k: Key): seq<string>
    requires KeyInRange(k)
    ensures Tail(k) == FamilyParts(FamilyOf(k)) + Rest(k)
  {
    Names(k) + EncodeAll(Values(k)) + IdParts(Ids(k)) + Trailer(k)
  }

  lemma {:induction false} TailInjective(j: Key, k: Key)
    requires KeyInRange(j) && KeyInRange(k) && Tail(j) == Tail(k)
    ensures j == k
  {
    FamilyTold(FamilyOf(j), Rest(j), FamilyOf(k), Rest(k));
    SameShape(j, k);
    Aligned(FamilyParts(FamilyOf(j)), Names(j), EncodeAll(Values(j)), IdParts(Ids(j)), Trailer(j),
            FamilyParts(FamilyOf(k)), Names(k), EncodeAll(Values(k)), IdParts(Ids(k)), Trailer(k));
    EncodeAllInjective(Values(j), Values(k));
    IdPartsInjective(Ids(j), Ids(k));
    SameKey(j, k);
  }

  predicate Clean(s: string) { '/' !in s }

  lemma {:induction false} FamilyClean(f: Family, i: nat)
    requires i < |FamilyParts(f)|
    ensures Clean(FamilyParts(f)[i])
  {
  }

  lemma {:induction false} HexClean(bytes: Bytes, i: nat)
    requires i < |HexOf(bytes)|
    ensures HexOf(bytes)[i] != '/'
  {
    DigitReadsBack(bytes[0] / 16);
    DigitReadsBack(bytes[0] % 16);
    if i >= 2 {
      HexClean(bytes[1..], i - 2);
    }
  }

  lemma {:induction false} ValueClean(v: Value)
    requires InRange(v)
    ensures Clean(Encode(v))
  {
    if v.Str? {
      forall i | 0 <= i < |HexOf(v.bytes)| ensures HexOf(v.bytes)[i] != '/' {
        HexClean(v.bytes, i);
      }
    }
    assert Clean(Payload(v));
  }

  lemma {:induction false} TailClean(k: Key, i: nat)
    requires KeyInRange(k) && i < |Tail(k)|
    ensures Clean(Tail(k)[i])
  {
    var n := |FamilyParts(FamilyOf(k))|;
    var m := n + |Names(k)|;
    if i < n {
      FamilyClean(FamilyOf(k), i);
    } else if i < m {
      assert Tail(k)[i] == Names(k)[i - n];
      ComponentHasNone(Names(k)[i - n], '/');
    } else if i < m + |Values(k)| {
      assert Tail(k)[i] == Encode(Values(k)[i - m]);
      ValueClean(Values(k)[i - m]);
    } else if i < m + |Values(k)| + |Ids(k)| {
      assert Tail(k)[i] == Id(Ids(k)[i - m - |Values(k)|]);
    } else {
      ComponentHasNone(k.segment, '/');
    }
  }

  /** Different rows of a cell have different keys. */
  lemma {:induction false} PrintInjective(cell: string, j: Key, k: Key)
    requires ValidComponent(cell) && KeyInRange(j) && KeyInRange(k) && Print(cell, j) == Print(cell, k)
    ensures j == k
  {
    SplitPrint(cell, j);
    SplitPrint(cell, k);
    var head := ["cell", cell];
    assert Tail(j) == (head + Tail(j))[2..] && Tail(k) == (head + Tail(k))[2..];
    TailInjective(j, k);
  }

  lemma {:induction false} SplitPrint(cell: string, k: Key)
    requires ValidComponent(cell) && KeyInRange(k)
    ensures Split(Print(cell, k), '/') == ["cell", cell] + Tail(k)
  {
    var parts := ["cell", cell] + Tail(k);
    ComponentHasNone(cell, '/');
    forall i | 0 <= i < |parts| ensures '/' !in parts[i] {
      if i >= 2 {
        assert parts[i] == Tail(k)[i - 2];
        TailClean(k, i - 2);
      }
    }
    SplitJoin(parts, '/');
  }
}
