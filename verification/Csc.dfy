/**
 Edge rows, their normal form, and the compressed sparse (CSC) matrix built from
 them. The methods follow the source's loops; each is proved equal to a function
 of its input, and the lemmas say what that function means: the matrix reads back
 as exactly the edges that were pushed.
 */
module Csc {
  import opened Base
  import opened Ordered

  type Rows = map<nat, seq<nat>>

  function Row(rows: Rows, v: nat): seq<nat> {
    if v in rows then rows[v] else []
  }

  predicate HasPair(rows: Rows, src: nat, dst: nat) {
    dst in Row(rows, src)
  }

  ghost function Pairs(rows: Rows): set<(nat, nat)> {
    set s, d | s in rows && d in rows[s] :: (s, d)
  }

  predicate IsNormal(rows: Rows) {
    forall s :: s in rows ==> rows[s] != [] && StrictlyIncreasing(rows[s])
  }

  function Normalized(rows: Rows): Rows {
    map s | s in rows && SortDedup(rows[s]) != [] :: SortDedup(rows[s])
  }

  /** The normal form of the listed rows, as `retain` leaves them one by one. */
  function NormalizedOver(keys: seq<nat>, rows: Rows): Rows
    requires forall k :: k in keys ==> k in rows
  {
    if keys == [] then map[]
    else
      var (last, m) := (keys[|keys| - 1], NormalizedOver(keys[..|keys| - 1], rows));
      if SortDedup(rows[last]) != [] then m[last := SortDedup(rows[last])] else m
  }

  lemma {:induction false} NormalizedOverMeans(keys: seq<nat>, rows: Rows)
    requires forall k :: k in keys ==> k in rows
    ensures NormalizedOver(keys, rows) == map s | s in rows && s in keys && SortDedup(rows[s]) != [] :: SortDedup(rows[s])
  {
    if keys != [] {
      NormalizedOverMeans(keys[..|keys| - 1], rows);
      assert forall k :: k in keys <==> k in keys[..|keys| - 1] || k == keys[|keys| - 1];
    }
  }

  lemma {:induction false} NormalizedOverAll(keys: seq<nat>, rows: Rows)
    requires forall k :: k in keys <==> k in rows
    ensures NormalizedOver(keys, rows) == Normalized(rows)
  {
    NormalizedOverMeans(keys, rows);
  }

  /** Sum of the row lengths of the listed vertices. */
  function SumDegrees(vs: seq<nat>, rows: Rows): nat {
    if vs == [] then 0 else SumDegrees(vs[..|vs| - 1], rows) + |Row(rows, vs[|vs| - 1])|
  }

  lemma {:induction false} NormalizedKeepsPairs(rows: Rows)
    ensures IsNormal(Normalized(rows))
    ensures forall s: nat, d: nat :: HasPair(Normalized(rows), s, d) <==> HasPair(rows, s, d)
    ensures Pairs(Normalized(rows)) == Pairs(rows)
  {
  }

  // ----- counting

  ghost function PairsOver(vs: seq<nat>, rows: Rows): set<(nat, nat)> {
    set s, d | s in vs && d in Row(rows, s) :: (s, d)
  }

  ghost function Fan(v: nat, row: seq<nat>): set<(nat, nat)> {
    set d | d in row :: (v, d)
  }

  lemma {:induction false} FanCount(v: nat, row: seq<nat>)
    requires StrictlyIncreasing(row)
    ensures |Fan(v, row)| == |row|
  {
    if row != [] {
      var n := |row| - 1;
      FanCount(v, row[..n]);
      forall p: (nat, nat) ensures p in Fan(v, row) <==> p in Fan(v, row[..n]) || p == (v, row[n]) {
        assert p.1 in row <==> p.1 in row[..n] || p.1 == row[n];
      }
      assert Fan(v, row) == Fan(v, row[..n]) + {(v, row[n])};
      assert (v, row[n]) !in Fan(v, row[..n]);
    }
  }

  /** For ascending vertices and rows, the degrees add up to the number of distinct pairs. */
  lemma {:induction false} SumIsPairCount(vs: seq<nat>, rows: Rows)
    requires StrictlyIncreasing(vs) && IsNormal(rows)
    ensures SumDegrees(vs, rows) == |PairsOver(vs, rows)|
  {
    if vs == [] {
      assert PairsOver(vs, rows) == {};
    } else {
      var n := |vs| - 1;
      SumIsPairCount(vs[..n], rows);
      var last := Fan(vs[n], Row(rows, vs[n]));
      FanCount(vs[n], Row(rows, vs[n]));
      assert forall v :: v in vs <==> v in vs[..n] || v == vs[n];
      assert PairsOver(vs, rows) == PairsOver(vs[..n], rows) + last;
      assert PairsOver(vs[..n], rows) !! last;
    }
  }

  lemma {:induction false} DegreesCoverPairs(vs: seq<nat>, rows: Rows)
    requires StrictlyIncreasing(vs) && IsNormal(rows)
    requires forall s :: s in rows ==> s in vs
    ensures SumDegrees(vs, rows) == |Pairs(rows)|
  {
    SumIsPairCount(vs, rows);
    assert PairsOver(vs, rows) == Pairs(rows);
  }

  // ----- the accumulator

  lemma {:induction false} RetainStep(keys: seq<nat>, i: nat, rows: Rows)
    requires i < |keys| && forall k :: k in keys ==> k in rows
    ensures
      var destinations := SortDedup(rows[keys[i]]);
      && SumDegrees(keys[..i + 1], Normalized(rows)) == SumDegrees(keys[..i], Normalized(rows)) + |destinations|
      && NormalizedOver(keys[..i + 1], rows) ==
         if destinations != [] then NormalizedOver(keys[..i], rows)[keys[i] := destinations]
         else NormalizedOver(keys[..i], rows)
  {
    assert keys[..i + 1][..i] == keys[..i];
  }

  lemma {:induction false} RetainDone(rows: Rows)
    ensures NormalizedOver(Ascending(rows.Keys), rows) == Normalized(rows)
    ensures SumDegrees(Ascending(rows.Keys), Normalized(rows)) == |Pairs(rows)|
  {
    NormalizedKeepsPairs(rows);
    DegreesCoverPairs(Ascending(rows.Keys), Normalized(rows));
    NormalizedOverAll(Ascending(rows.Keys), rows);
  }

  /** What is kept and counted after the first `i` rows. */
  ghost predicate Retained(keys: seq<nat>, i: nat, rows: Rows, kept: Rows, live: nat)
    requires i <= |keys| && forall k :: k in keys ==> k in rows
  {
    kept == NormalizedOver(keys[..i], rows) && live == Min(SumDegrees(keys[..i], Normalized(rows)), U64_MAX)
  }

  lemma {:induction false} RetainedNext(keys: seq<nat>, i: nat, rows: Rows, kept: Rows, live: nat)
    requires i < |keys| && (forall k :: k in keys ==> k in rows) && Retained(keys, i, rows, kept, live)
    ensures
      var destinations := SortDedup(rows[keys[i]]);
      Retained(keys, i + 1, rows, if destinations != [] then kept[keys[i] := destinations] else kept,
               SatAdd(live, |destinations|))
  {
    RetainStep(keys, i, rows);
  }

  /** Sorts and dedups every row, drops empty rows and counts what is left. */
  method RetainNormalized(rows: Rows) returns (kept: Rows, live: nat)
    ensures kept == Normalized(rows)
    ensures live == Min(|Pairs(rows)|, U64_MAX)
  {
    var keys := Ascending(rows.Keys);
    kept, live := map[], 0;
    for i := 0 to |keys|
      invariant Retained(keys, i, rows, kept, live)
    {
      RetainedNext(keys, i, rows, kept, live);
      var destinations := SortDedup(rows[keys[i]]);
      live := SatAdd(live, |destinations|);
      if destinations != [] {
        kept := kept[keys[i] := destinations];
      }
    }
    assert keys[..|keys|] == keys;
    RetainDone(rows);
  }

  class MatrixRows {
    var rows: Rows
    var rawEdges: nat
    var liveEdges: nat

    constructor ()
      ensures rows == map[] && rawEdges == 0 && liveEdges == 0
    {
      rows, rawEdges, liveEdges := map[], 0, 0;
    }

    method Push(src: nat, dst: nat)
      modifies this
      ensures rows == old(rows)[src := Row(old(rows), src) + [dst]]
      ensures rawEdges == SatAdd(old(rawEdges), 1)
      ensures liveEdges == old(liveEdges)
      ensures forall s: nat, d: nat :: HasPair(rows, s, d) <==> HasPair(old(rows), s, d) || (s, d) == (src, dst)
    {
      rows := rows[src := Row(rows, src) + [dst]];
      rawEdges := SatAdd(rawEdges, 1);
    }

    method Normalize()
      modifies this
      ensures rows == Normalized(old(rows))
      ensures liveEdges == Min(|Pairs(old(rows))|, U64_MAX)
      ensures rawEdges == old(rawEdges)
    {
      rows, liveEdges := RetainNormalized(rows);
    }
  }

  // ----- building the matrix

  datatype Csc = Csc(vertices: seq<nat>, pointers: seq<nat>, indices: seq<nat>)

  datatype BuildError = PointerOverflow | MissingDestination(dst: nat)

  /** The dictionary: every source and every destination, ascending. */
  ghost function Touched(rows: Rows): set<nat> {
    rows.Keys + set s, d | s in rows && d in rows[s] :: d
  }

  ghost function VerticesOf(rows: Rows): (vs: seq<nat>)
    ensures StrictlyIncreasing(vs) && Covers(vs, rows)
    ensures forall s :: s in rows ==> s in vs
  {
    Ascending(Touched(rows))
  }

  ghost function PointersOf(vs: seq<nat>, rows: Rows): seq<nat> {
    seq(|vs| + 1, i requires 0 <= i <= |vs| => SumDegrees(vs[..i], rows))
  }

  function Ordinal(vs: seq<nat>, v: nat): (i: nat)
    requires StrictlyIncreasing(vs) && v in vs
    ensures i < |vs| && vs[i] == v
  {
    BinarySearch(vs, v).value
  }

  function RowOrdinals(vs: seq<nat>, row: seq<nat>): (r: seq<nat>)
    requires StrictlyIncreasing(vs) && forall d :: d in row ==> d in vs
    ensures |r| == |row|
    ensures forall j :: 0 <= j < |row| ==> r[j] < |vs| && vs[r[j]] == row[j]
  {
    seq(|row|, j requires 0 <= j < |row| => Ordinal(vs, row[j]))
  }

  predicate Covers(vs: seq<nat>, rows: Rows) {
    forall s, d :: s in rows && d in rows[s] ==> d in vs
  }

  /** The index array after the first `n` vertices. */
  function IndicesUpTo(vs: seq<nat>, n: nat, rows: Rows): seq<nat>
    requires StrictlyIncreasing(vs) && n <= |vs| && Covers(vs, rows)
  {
    if n == 0 then []
    else IndicesUpTo(vs, n - 1, rows) + RowOrdinals(vs, Row(rows, vs[n - 1]))
  }

  ghost function CscOver(vs: seq<nat>, rows: Rows): Csc
    requires StrictlyIncreasing(vs) && Covers(vs, rows)
  {
    Csc(vs, PointersOf(vs, rows), IndicesUpTo(vs, |vs|, rows))
  }

  ghost function CscOf(rows: Rows): Csc {
    CscOver(VerticesOf(rows), rows)
  }

  function ListedVertices(keys: seq<nat>, rows: Rows): seq<nat>
    requires forall k :: k in keys ==> k in rows
  {
    if keys == [] then []
    else ListedVertices(keys[..|keys| - 1], rows) + [keys[|keys| - 1]] + rows[keys[|keys| - 1]]
  }

  lemma {:induction false} ListedVerticesElements(keys: seq<nat>, rows: Rows, v: nat)
    requires forall k :: k in keys ==> k in rows
    ensures v in ListedVertices(keys, rows) <==> v in keys || exists s :: s in keys && v in rows[s]
  {
    if keys != [] {
      var n := |keys| - 1;
      ListedVerticesElements(keys[..n], rows, v);
      assert forall k :: k in keys <==> k in keys[..n] || k == keys[n];
    }
  }

  lemma {:induction false} ListedStep(keys: seq<nat>, i: nat, rows: Rows)
    requires i < |keys| && forall k :: k in keys ==> k in rows
    ensures ListedVertices(keys[..i + 1], rows) == ListedVertices(keys[..i], rows) + [keys[i]] + rows[keys[i]]
  {
    assert keys[..i + 1][..i] == keys[..i];
  }

  lemma {:induction false} ListedAll(rows: Rows)
    ensures SortDedup(ListedVertices(Ascending(rows.Keys), rows)) == VerticesOf(rows)
  {
    var listed := ListedVertices(Ascending(rows.Keys), rows);
    forall v: nat ensures v in listed <==> v in Touched(rows) {
      ListedVerticesElements(Ascending(rows.Keys), rows, v);
    }
    SameElements(SortDedup(listed), VerticesOf(rows));
  }

  method MatrixVertices(rows: Rows) returns (vertices: seq<nat>)
    ensures vertices == VerticesOf(rows)
  {
    var keys := Ascending(rows.Keys);
    vertices := [];
    for i := 0 to |keys|
      invariant vertices == ListedVertices(keys[..i], rows)
    {
      ListedStep(keys, i, rows);
      vertices := vertices + [keys[i]] + rows[keys[i]];
    }
    assert keys[..|keys|] == keys;
    ListedAll(rows);
    vertices := SortDedup(vertices);
  }

  lemma {:induction false} PointersStep(vs: seq<nat>, i: nat, rows: Rows)
    requires i < |vs|
    ensures PointersOf(vs[..i + 1], rows) == PointersOf(vs[..i], rows) + [SumDegrees(vs[..i + 1], rows)]
  {
    forall k | 0 <= k <= i ensures vs[..i + 1][..k] == vs[..i][..k] {}
    assert vs[..i + 1][..i + 1] == vs[..i + 1];
  }

  /** Pointer offsets; the only error is a 64-bit overflow of the running offset. */
  method MatrixPointers(rows: Rows, vertices: seq<nat>) returns (r: Result<seq<nat>, BuildError>)
    ensures r == if SumDegrees(vertices, rows) <= U64_MAX then Ok(PointersOf(vertices, rows)) else Err(PointerOverflow)
  {
    var (pointers, offset) := ([0], 0);
    for i := 0 to |vertices|
      invariant pointers == PointersOf(vertices[..i], rows)
      invariant offset == SumDegrees(vertices[..i], rows) <= U64_MAX
    {
      assert vertices[..i + 1][..i] == vertices[..i];
      var degree := |Row(rows, vertices[i])|;
      if offset + degree > U64_MAX {
        SumDegreesGrows(vertices, i + 1, rows);
        return Err(PointerOverflow);
      }
      offset := offset + degree;
      pointers := pointers + [offset];
      PointersStep(vertices, i, rows);
    }
    assert vertices[..|vertices|] == vertices;
    r := Ok(pointers);
  }

  lemma {:induction false} SumDegreesGrows(vs: seq<nat>, i: nat, rows: Rows)
    requires i <= |vs|
    ensures SumDegrees(vs[..i], rows) <= SumDegrees(vs, rows)
    decreases |vs|
  {
    if i < |vs| {
      SumDegreesGrows(vs[..|vs| - 1], i, rows);
      assert vs[..|vs| - 1][..i] == vs[..i];
    } else {
      assert vs[..i] == vs;
    }
  }

  ghost predicate MissesOne(dsts: seq<nat>, vertices: seq<nat>) {
    exists j :: 0 <= j < |dsts| && dsts[j] !in vertices
  }

  /** The error names the row's first destination that is not in the dictionary. */
  ghost predicate NamesFirst(error: BuildError, dsts: seq<nat>, vertices: seq<nat>) {
    exists j :: 0 <= j < |dsts| && dsts[j] !in vertices && error == MissingDestination(dsts[j])
                && forall i :: 0 <= i < j ==> dsts[i] in vertices
  }

  /** Ordinals of one row's destinations; fails on the first one not in the dictionary. */
  method RowIndices(dsts: seq<nat>, vertices: seq<nat>) returns (r: Result<seq<nat>, BuildError>)
    requires StrictlyIncreasing(vertices)
    ensures (forall d :: d in dsts ==> d in vertices) ==> r == Ok(RowOrdinals(vertices, dsts))
    ensures r.Err? <==> MissesOne(dsts, vertices)
    ensures r.Err? ==> NamesFirst(r.error, dsts, vertices)
  {
    var indices: seq<nat> := [];
    for j := 0 to |dsts|
      invariant |indices| == j
      invariant forall i :: 0 <= i < j ==> dsts[i] in vertices && indices[i] == Ordinal(vertices, dsts[i])
    {
      var dst := dsts[j];
      match BinarySearch(vertices, dst)
      case None => return Err(MissingDestination(dst));
      case Some(ordinal) => indices := indices + [ordinal];
    }
    assert (forall d :: d in dsts ==> d in vertices) ==> indices == RowOrdinals(vertices, dsts);
    r := Ok(indices);
  }

  lemma {:induction false} CoveredMissesNone(vertices: seq<nat>, rows: Rows, v: nat)
    ensures Covers(vertices, rows) ==> !MissesOne(Row(rows, v), vertices)
  {
  }

  /** The error names the first destination that is not in the dictionary, of the first row that has one. */
  ghost predicate NamesMissing(error: BuildError, rows: Rows, vertices: seq<nat>) {
    exists i :: 0 <= i < |vertices| && NamesFirst(error, Row(rows, vertices[i]), vertices)
                && forall k :: 0 <= k < i ==> !MissesOne(Row(rows, vertices[k]), vertices)
  }

  ghost predicate MissesSome(rows: Rows, vertices: seq<nat>) {
    exists i :: 0 <= i < |vertices| && MissesOne(Row(rows, vertices[i]), vertices)
  }

  lemma {:induction false} MissesAt(rows: Rows, vertices: seq<nat>, i: nat, error: BuildError)
    requires i < |vertices| && MissesOne(Row(rows, vertices[i]), vertices)
    requires NamesFirst(error, Row(rows, vertices[i]), vertices)
    requires forall k :: 0 <= k < i ==> !MissesOne(Row(rows, vertices[k]), vertices)
    ensures MissesSome(rows, vertices) && NamesMissing(error, rows, vertices)
  {
  }

  lemma {:induction false} IndicesGrow(vertices: seq<nat>, i: nat, rows: Rows)
    requires StrictlyIncreasing(vertices) && i < |vertices| && Covers(vertices, rows)
    ensures forall d :: d in Row(rows, vertices[i]) ==> d in vertices
    ensures IndicesUpTo(vertices, i + 1, rows)
         == IndicesUpTo(vertices, i, rows) + RowOrdinals(vertices, Row(rows, vertices[i]))
  {
  }

  /** Ordinals of all destinations, in vertex order. */
  method MatrixIndices(rows: Rows, vertices: seq<nat>) returns (r: Result<seq<nat>, BuildError>)
    requires StrictlyIncreasing(vertices)
    ensures Covers(vertices, rows) ==> r == Ok(IndicesUpTo(vertices, |vertices|, rows))
    ensures r.Err? <==> MissesSome(rows, vertices)
    ensures r.Err? ==> NamesMissing(r.error, rows, vertices)
  {
    var indices: seq<nat> := [];
    for i := 0 to |vertices|
      invariant forall k :: 0 <= k < i ==> !MissesOne(Row(rows, vertices[k]), vertices)
      invariant Covers(vertices, rows) ==> indices == IndicesUpTo(vertices, i, rows)
    {
      hide MissesOne;
      hide NamesFirst;
      hide Covers;
      hide Row;
      hide RowOrdinals;
      CoveredMissesNone(vertices, rows, vertices[i]);
      if Covers(vertices, rows) {
        IndicesGrow(vertices, i, rows);
      }
      var ordinals := RowIndices(Row(rows, vertices[i]), vertices);
      match ordinals
      case Err(error) =>
        MissesAt(rows, vertices, i, error);
        return Err(error);
      case Ok(more) => indices := indices + more;
    }
    r := Ok(indices);
  }

  method MatrixToCsc(rows: Rows) returns (r: Result<Csc, BuildError>)
    ensures r == if SumDegrees(VerticesOf(rows), rows) <= U64_MAX then Ok(CscOf(rows)) else Err(PointerOverflow)
  {
    var vertices := MatrixVertices(rows);
    var pointers := MatrixPointers(rows, vertices);
    if pointers.Err? { return Err(pointers.error); }
    var indices := MatrixIndices(rows, vertices);
    match indices
    case Ok(values) => r := Ok(Csc(vertices, pointers.value, values));
    case Err(error) => r := Err(error);
  }

  // ----- the validator

  datatype CscFault = PointerCount | FirstPointer | PointerOrder | EdgeCount | IndexRange(index: nat) | VertexOrder

  ghost predicate WellFormed(csc: Csc) {
    && |csc.pointers| == |csc.vertices| + 1
    && csc.pointers[0] == 0
    && NonDecreasing(csc.pointers)
    && csc.pointers[|csc.vertices|] == |csc.indices|
    && (forall k :: 0 <= k < |csc.indices| ==> csc.indices[k] < |csc.vertices|)
    && StrictlyIncreasing(csc.vertices)
  }

  method Validate(csc: Csc) returns (fault: Option<CscFault>)
    ensures fault == None <==> WellFormed(csc)
    ensures match fault {
              case Some(IndexRange(k)) => k in csc.indices && k >= |csc.vertices|
              case Some(EdgeCount) => |csc.pointers| > 0 && csc.pointers[|csc.pointers| - 1] != |csc.indices|
              case Some(PointerCount) => |csc.pointers| != |csc.vertices| + 1
              case Some(FirstPointer) => csc.pointers != [] && csc.pointers[0] != 0
              case _ => true
            }
  {
    if |csc.pointers| != |csc.vertices| + 1 { return Some(PointerCount); }
    if csc.pointers[0] != 0 { return Some(FirstPointer); }
    for i := 0 to |csc.vertices|
      invariant NonDecreasing(csc.pointers[..i + 1])
    {
      if csc.pointers[i] > csc.pointers[i + 1] { return Some(PointerOrder); }
    }
    if csc.pointers[|csc.vertices|] != |csc.indices| { return Some(EdgeCount); }
    for i := 0 to |csc.indices|
      invariant forall k :: 0 <= k < i ==> csc.indices[k] < |csc.vertices|
    {
      if csc.indices[i] >= |csc.vertices| { return Some(IndexRange(csc.indices[i])); }
    }
    for i := 0 to |csc.vertices|
      invariant StrictlyIncreasing(csc.vertices[..i])
    {
      if i > 0 && csc.vertices[i - 1] >= csc.vertices[i] { return Some(VertexOrder); }
    }
    fault := None;
  }

  // ----- reading the matrix back

  /** The edges stored in the columns of the first `n` vertices, in storage order. */
  ghost function ReadBack(csc: Csc, n: nat): seq<(nat, nat)>
    requires WellFormed(csc) && n <= |csc.vertices|
  {
    if n == 0 then []
    else
      ReadBack(csc, n - 1) + StoredColumn(csc, n)
  }

  lemma {:induction false} IndicesLength(vs: seq<nat>, n: nat, rows: Rows)
    requires StrictlyIncreasing(vs) && n <= |vs| && Covers(vs, rows)
    ensures |IndicesUpTo(vs, n, rows)| == SumDegrees(vs[..n], rows)
    ensures forall k :: 0 <= k < |IndicesUpTo(vs, n, rows)| ==> IndicesUpTo(vs, n, rows)[k] < |vs|
  {
    if n > 0 {
      IndicesLength(vs, n - 1, rows);
      assert vs[..n][..n - 1] == vs[..n - 1];
    }
  }

  lemma {:induction false} IndicesPrefix(vs: seq<nat>, n: nat, m: nat, rows: Rows)
    requires StrictlyIncreasing(vs) && n <= m <= |vs| && Covers(vs, rows)
    ensures IndicesUpTo(vs, n, rows) <= IndicesUpTo(vs, m, rows)
    decreases m
  {
    if n < m { IndicesPrefix(vs, n, m - 1, rows); }
  }

  /** Whatever the rows, the matrix built from them passes the validator. */
  lemma {:induction false} CscIsWellFormed(vs: seq<nat>, rows: Rows)
    requires StrictlyIncreasing(vs) && Covers(vs, rows)
    ensures WellFormed(CscOver(vs, rows))
    ensures CscOver(vs, rows).pointers[|vs|] == SumDegrees(vs, rows)
  {
    IndicesLength(vs, |vs|, rows);
    assert vs[..|vs|] == vs;
    PointersRise(vs, rows);
  }

  lemma {:induction false} PointersRise(vs: seq<nat>, rows: Rows)
    ensures NonDecreasing(PointersOf(vs, rows)) && PointersOf(vs, rows)[0] == 0
  {
    var pointers := PointersOf(vs, rows);
    forall i, j | 0 <= i < j < |pointers| ensures pointers[i] <= pointers[j] {
      SumDegreesGrows(vs[..j], i, rows);
      assert vs[..j][..i] == vs[..i];
    }
  }

  function RowEdges(v: nat, row: seq<nat>): seq<(nat, nat)> {
    seq(|row|, j requires 0 <= j < |row| => (v, row[j]))
  }

  /** The edges of the first `n` vertices, straight from the rows. */
  ghost function EdgeList(vs: seq<nat>, n: nat, rows: Rows): seq<(nat, nat)>
    requires n <= |vs|
  {
    if n == 0 then []
    else
      EdgeList(vs, n - 1, rows) + RowEdges(vs[n - 1], Row(rows, vs[n - 1]))
  }

  ghost function StoredColumn(csc: Csc, n: nat): seq<(nat, nat)>
    requires WellFormed(csc) && 0 < n <= |csc.vertices|
  {
    seq(csc.pointers[n] - csc.pointers[n - 1], j requires 0 <= j < csc.pointers[n] - csc.pointers[n - 1] =>
      (csc.vertices[n - 1], csc.vertices[csc.indices[csc.pointers[n - 1] + j]]))
  }

  lemma {:induction false} ColumnIsRow(csc: Csc, n: nat, ords: seq<nat>, row: seq<nat>)
    requires WellFormed(csc) && 0 < n <= |csc.vertices|
    requires csc.pointers[n] - csc.pointers[n - 1] == |row| == |ords|
    requires csc.pointers[n] <= |csc.indices|
    requires csc.indices[csc.pointers[n - 1]..csc.pointers[n]] == ords
    requires forall j :: 0 <= j < |row| ==> ords[j] < |csc.vertices| && csc.vertices[ords[j]] == row[j]
    ensures StoredColumn(csc, n) == RowEdges(csc.vertices[n - 1], row)
  {
  }

  /** `csc` is the matrix of `rows` over its own vertices. */
  ghost predicate Follows(csc: Csc, rows: Rows) {
    && WellFormed(csc) && Covers(csc.vertices, rows)
    && csc.indices == IndicesUpTo(csc.vertices, |csc.vertices|, rows)
    && forall i :: 0 <= i <= |csc.vertices| ==> csc.pointers[i] == SumDegrees(csc.vertices[..i], rows)
  }

  /** Where the ordinals of one vertex are in the index array. */
  lemma {:induction false} RowSlice(vs: seq<nat>, n: nat, rows: Rows, indices: seq<nat>)
    requires StrictlyIncreasing(vs) && Covers(vs, rows) && 0 < n <= |vs|
    requires indices == IndicesUpTo(vs, |vs|, rows)
    ensures
      var lo, hi := SumDegrees(vs[..n - 1], rows), SumDegrees(vs[..n], rows);
      lo <= hi <= |indices| && indices[lo..hi] == RowOrdinals(vs, Row(rows, vs[n - 1]))
  {
    var pre, ords := IndicesUpTo(vs, n - 1, rows), RowOrdinals(vs, Row(rows, vs[n - 1]));
    SumStep(vs, n, rows);
    IndicesLength(vs, n - 1, rows);
    assert IndicesUpTo(vs, n, rows) == pre + ords;
    IndicesPrefix(vs, n, |vs|, rows);
    SliceAt(indices, pre, ords, SumDegrees(vs[..n - 1], rows), SumDegrees(vs[..n], rows));
  }

  lemma {:induction false} SliceAt(all: seq<nat>, pre: seq<nat>, ords: seq<nat>, lo: nat, hi: nat)
    requires pre + ords <= all && lo == |pre| && hi == lo + |ords|
    ensures lo <= hi <= |all| && all[lo..hi] == ords
  {
  }

  lemma {:induction false} ColumnSlice(csc: Csc, n: nat, rows: Rows)
    requires Follows(csc, rows) && 0 < n <= |csc.vertices|
    ensures csc.pointers[n] == csc.pointers[n - 1] + |Row(rows, csc.vertices[n - 1])|
    ensures csc.indices[csc.pointers[n - 1]..csc.pointers[n]] == RowOrdinals(csc.vertices, Row(rows, csc.vertices[n - 1]))
  {
    SumStep(csc.vertices, n, rows);
    RowSlice(csc.vertices, n, rows, csc.indices);
  }

  lemma {:induction false} SumStep(vs: seq<nat>, n: nat, rows: Rows)
    requires 0 < n <= |vs|
    ensures SumDegrees(vs[..n], rows) == SumDegrees(vs[..n - 1], rows) + |Row(rows, vs[n - 1])|
  {
    assert vs[..n][..n - 1] == vs[..n - 1];
  }

  lemma {:induction false} StoredColumnIsRow(csc: Csc, n: nat, rows: Rows)
    requires Follows(csc, rows) && 0 < n <= |csc.vertices|
    ensures StoredColumn(csc, n) == RowEdges(csc.vertices[n - 1], Row(rows, csc.vertices[n - 1]))
  {
    var row := Row(rows, csc.vertices[n - 1]);
    ColumnSlice(csc, n, rows);
    ColumnIsRow(csc, n, RowOrdinals(csc.vertices, row), row);
  }

  lemma {:induction false} ReadBackIsEdgeList(csc: Csc, n: nat, rows: Rows)
    requires Follows(csc, rows) && n <= |csc.vertices|
    ensures ReadBack(csc, n) == EdgeList(csc.vertices, n, rows)
  {
    if n > 0 {
      ReadBackIsEdgeList(csc, n - 1, rows);
      StoredColumnIsRow(csc, n, rows);
    }
  }

  predicate LexLess(a: (nat, nat), b: (nat, nat)) {
    a.0 < b.0 || (a.0 == b.0 && a.1 < b.1)
  }

  predicate LexIncreasing(es: seq<(nat, nat)>) {
    forall i, j :: 0 <= i < j < |es| ==> LexLess(es[i], es[j])
  }

  lemma {:induction false} EdgeListHas(vs: seq<nat>, n: nat, rows: Rows, s: nat, d: nat)
    requires n <= |vs|
    ensures (s, d) in EdgeList(vs, n, rows) <==> s in vs[..n] && HasPair(rows, s, d)
  {
    if n > 0 {
      EdgeListHas(vs, n - 1, rows, s, d);
      var row := Row(rows, vs[n - 1]);
      assert vs[..n] == vs[..n - 1] + [vs[n - 1]];
      if s == vs[n - 1] && d in row {
        var j :| 0 <= j < |row| && row[j] == d;
        assert RowEdges(vs[n - 1], row)[j] == (s, d);
      }
    }
  }

  lemma {:induction false} EdgeListAscends(vs: seq<nat>, n: nat, rows: Rows)
    requires StrictlyIncreasing(vs) && n <= |vs| && IsNormal(rows)
    ensures LexIncreasing(EdgeList(vs, n, rows))
    ensures |EdgeList(vs, n, rows)| == SumDegrees(vs[..n], rows)
  {
    if n > 0 {
      EdgeListAscends(vs, n - 1, rows);
      SumStep(vs, n, rows);
      var init, last := EdgeList(vs, n - 1, rows), RowEdges(vs[n - 1], Row(rows, vs[n - 1]));
      forall i, j | 0 <= i < |init| && 0 <= j < |last| ensures LexLess(init[i], last[j]) {
        EdgeListHas(vs, n - 1, rows, init[i].0, init[i].1);
      }
    }
  }

  /** From normal rows the matrix reads back as the row pairs, ascending, each exactly once. */
  lemma {:induction false} MatrixReadsBack(csc: Csc, rows: Rows)
    requires Follows(csc, rows) && IsNormal(rows) && forall s :: s in rows ==> s in csc.vertices
    ensures
      var edges := ReadBack(csc, |csc.vertices|);
      && LexIncreasing(edges)
      && (forall s: nat, d: nat :: (s, d) in edges <==> HasPair(rows, s, d))
      && csc.pointers[|csc.vertices|] == |edges| == |Pairs(rows)|
  {
    var vs := csc.vertices;
    ReadBackIsEdgeList(csc, |vs|, rows);
    EdgeListAscends(vs, |vs|, rows);
    DegreesCoverPairs(vs, rows);
    assert vs[..|vs|] == vs;
    forall s: nat, d: nat ensures (s, d) in ReadBack(csc, |vs|) <==> HasPair(rows, s, d) {
      EdgeListHas(vs, |vs|, rows, s, d);
    }
  }

  lemma {:induction false} CscReadsBack(rows: Rows)
    requires IsNormal(rows)
    ensures Follows(CscOf(rows), rows)
    ensures
      var csc := CscOf(rows);
      var edges := ReadBack(csc, |csc.vertices|);
      && LexIncreasing(edges)
      && (forall s: nat, d: nat :: (s, d) in edges <==> HasPair(rows, s, d))
      && csc.pointers[|csc.vertices|] == |edges| == |Pairs(rows)|
  {
    CscIsWellFormed(VerticesOf(rows), rows);
    MatrixReadsBack(CscOf(rows), rows);
  }

  /** What the source promises of a matrix for the pushed pairs. */
  ghost predicate StoresExactly(csc: Csc, pushes: seq<(nat, nat)>) {
    && WellFormed(csc)
    && var edges := ReadBack(csc, |csc.vertices|);
    && LexIncreasing(edges)
    && (forall p :: p in edges <==> p in pushes)
    && csc.pointers[|csc.vertices|] == |edges|
  }

  lemma {:induction false} EdgesArePushes(edges: seq<(nat, nat)>, rows: Rows, pushes: seq<(nat, nat)>)
    requires forall s: nat, d: nat :: (s, d) in edges <==> HasPair(rows, s, d)
    requires forall s: nat, d: nat :: HasPair(rows, s, d) <==> (s, d) in pushes
    ensures forall p: (nat, nat) :: p in edges <==> p in pushes
  {
    forall p: (nat, nat) ensures p in edges <==> p in pushes {
      var (s, d) := p;
      assert HasPair(rows, s, d) <==> (s, d) in pushes;
    }
  }

  lemma {:induction false} PairsArePushes(rows: Rows, pushes: seq<(nat, nat)>)
    requires forall s: nat, d: nat :: HasPair(rows, s, d) <==> (s, d) in pushes
    ensures Pairs(rows) == (set p | p in pushes :: p)
  {
    forall p: (nat, nat) ensures p in Pairs(rows) <==> p in pushes {
      var (s, d) := p;
      assert HasPair(rows, s, d) <==> (s, d) in pushes;
    }
  }

  lemma {:induction false} MatrixStores(csc: Csc, rows: Rows, pushes: seq<(nat, nat)>)
    requires Follows(csc, rows) && IsNormal(rows) && forall s :: s in rows ==> s in csc.vertices
    requires forall s: nat, d: nat :: HasPair(rows, s, d) <==> (s, d) in pushes
    ensures StoresExactly(csc, pushes) && csc.pointers[|csc.vertices|] == |Pairs(rows)|
  {
    MatrixReadsBack(csc, rows);
    EdgesArePushes(ReadBack(csc, |csc.vertices|), rows, pushes);
  }

  lemma {:induction false} RowsStorePushes(raw: Rows, rows: Rows, pushes: seq<(nat, nat)>)
    requires forall s: nat, d: nat :: HasPair(raw, s, d) <==> (s, d) in pushes
    requires rows == Normalized(raw)
    ensures StoresExactly(CscOf(rows), pushes)
    ensures Pairs(raw) == (set p | p in pushes :: p)
    ensures CscOf(rows).pointers[|VerticesOf(rows)|] == |Pairs(raw)| == SumDegrees(VerticesOf(rows), rows)
  {
    NormalizedKeepsPairs(raw);
    PairsArePushes(raw, pushes);
    CscReadsBack(rows);
    DegreesCoverPairs(VerticesOf(rows), rows);
    MatrixStores(CscOf(rows), rows, pushes);
  }

  /**
   Pushes, normalisation and the matrix, end to end. The build succeeds unless the
   number of distinct pushed pairs overflows 64 bits; the missing-destination error
   never occurs; and what the matrix stores is exactly the set of pushed pairs.
   */
  method BuildFromPushes(pushes: seq<(nat, nat)>) returns (live: nat, r: Result<Csc, BuildError>)
    ensures |set p | p in pushes :: p| > U64_MAX ==> r == Err(PointerOverflow)
    ensures |set p | p in pushes :: p| <= U64_MAX ==>
              r.Ok? && StoresExactly(r.value, pushes) && live == r.value.pointers[|r.value.vertices|]
  {
    var acc := new MatrixRows();
    for i := 0 to |pushes|
      invariant forall s: nat, d: nat :: HasPair(acc.rows, s, d) <==> (s, d) in pushes[..i]
    {
      acc.Push(pushes[i].0, pushes[i].1);
    }
    assert pushes[..|pushes|] == pushes;
    ghost var raw := acc.rows;
    acc.Normalize();
    RowsStorePushes(raw, acc.rows, pushes);
    live := acc.liveEdges;
    r := MatrixToCsc(acc.rows);
  }
}
