/**
 The encoder of offline graph images: every vertex and relationship becomes rows
 at once, and counters kept on the way become rows at the end. What the image holds
 is stated by predicates that never mention the order of submission.
 */
module OfflineImage {
  import opened Base
  import opened TextCodec
  import opened PropertyKeys
  import opened Keys

  datatype Property = Property(name: string, value: Value)

  /** A relationship to be imaged; properties are those of a map, in its order. */
  datatype Rel = Rel(cell: string, edgeType: string, src: nat, dst: nat, id: nat, properties: seq<Property>)

  datatype RowValue =
    | VertexRecord(labels: seq<string>, properties: seq<Property>)
    | RelationshipRecord(properties: seq<Property>)
    | EdgeMark
    | Number(n: nat)
    | Pointer(target: Key)

  datatype Row = Row(key: Key, value: RowValue)

  /** A structural edge: all parallel relationships between two vertices share it. */
  datatype Edge = Edge(edgeType: string, src: nat, dst: nat)

  datatype End = End(edgeType: string, vertex: nat)

  datatype Side = Outgoing | Incoming

  const IDENTITY := "id"

  // ----- the rows of one relationship

  function EdgeOf(r: Rel): Edge { Edge(r.edgeType, r.src, r.dst) }

  function RelKey(r: Rel): Key { Relationship(r.edgeType, r.src, r.dst, r.id) }

  function PropKey(r: Rel, p: Property): Key {
    RelationshipProperty(r.edgeType, p.name, p.value, r.src, r.dst, r.id)
  }

  function MergeKey(r: Rel): Key { RelationshipMerge(r.edgeType, IDENTITY, Integer(r.id), r.src, r.dst) }

  function EdgeRows(r: Rel, reverse: bool): seq<Row> {
    [Row(OutEdge(r.edgeType, r.src, r.dst), EdgeMark)]
    + if reverse then [Row(InEdge(r.edgeType, r.dst, r.src), EdgeMark)] else []
  }

  function PropRow(r: Rel, p: Property): Row { Row(PropKey(r, p), Number(r.id)) }

  function PropRows(r: Rel, ps: seq<Property>): (rows: seq<Row>)
    ensures |rows| == |ps|
  {
    seq(|ps|, i requires 0 <= i < |ps| => PropRow(r, ps[i]))
  }

  /** The rows emitted for a relationship; the edge rows only with the first one between its vertices. */
  function RowsFor(r: Rel, first: bool, reverse: bool): seq<Row> {
    (if first then EdgeRows(r, reverse) else [])
    + [Row(RelKey(r), RelationshipRecord(r.properties)), Row(RelationshipId(r.id), Pointer(RelKey(r)))]
    + PropRows(r, r.properties)
  }

  // ----- what was accepted, and what follows from it

  function EdgesOf(acc: seq<Rel>): set<Edge> {
    set r | r in acc :: EdgeOf(r)
  }

  function EdgeSeq(acc: seq<Rel>): (es: seq<Edge>)
    ensures |es| == |acc|
  {
    seq(|acc|, i requires 0 <= i < |acc| => EdgeOf(acc[i]))
  }

  function MergeSeq(acc: seq<Rel>): (ks: seq<Key>)
    ensures |ks| == |acc|
  {
    seq(|acc|, i requires 0 <= i < |acc| => MergeKey(acc[i]))
  }

  /** How often `x` occurs. */
  function Occurs<T(==)>(xs: seq<T>, x: T): nat {
    if xs == [] then 0
    else Occurs(xs[..|xs| - 1], x) + if xs[|xs| - 1] == x then 1 else 0
  }

  function MaxId(acc: seq<Rel>): nat {
    if acc == [] then 0 else Max(MaxId(acc[..|acc| - 1]), acc[|acc| - 1].id)
  }

  /** Where an edge starts, or where it ends. */
  function EndOf(e: Edge, side: Side): End {
    End(e.edgeType, if side.Outgoing? then e.src else e.dst)
  }

  /** The structural edges that start (or end) there. */
  function Touching(edges: set<Edge>, end: End, side: Side): set<Edge> {
    set e | e in edges && EndOf(e, side) == end
  }

  lemma {:induction false} OccursAppend<T>(xs: seq<T>, y: T, x: T)
    ensures Occurs(xs + [y], x) == Occurs(xs, x) + if y == x then 1 else 0
  {
  }

  lemma {:induction false} Appending(acc: seq<Rel>, r: Rel)
    ensures EdgeSeq(acc + [r]) == EdgeSeq(acc) + [EdgeOf(r)]
    ensures MergeSeq(acc + [r]) == MergeSeq(acc) + [MergeKey(r)]
    ensures EdgesOf(acc + [r]) == EdgesOf(acc) + {EdgeOf(r)}
    ensures MaxId(acc + [r]) == Max(MaxId(acc), r.id)
  {
  }

  // ----- counters

  function At<K(==)>(m: map<K, nat>, k: K): nat { if k in m then m[k] else 0 }

  /** `*m.entry(k).or_default() += 1`. */
  function Bump<K(==)>(m: map<K, nat>, k: K): map<K, nat> { m[k := At(m, k) + 1] }

  /** The counter map has the wanted value everywhere, and no zero entries. */
  ghost predicate DegreesOk(m: map<End, nat>, edges: set<Edge>, side: Side) {
    && (forall end :: At(m, end) == |Touching(edges, end, side)|)
    && (forall end | end in m :: 0 < m[end])
  }

  ghost predicate CountsOk(m: map<Edge, nat>, acc: seq<Rel>) {
    && (forall e :: At(m, e) == Occurs(EdgeSeq(acc), e))
    && (forall e | e in m :: 0 < m[e])
  }

  /** Merge pointers: a key carried once names its relationship, one carried more often none. */
  ghost predicate MergeOk(m: map<Key, Option<nat>>, acc: seq<Rel>) {
    forall k :: MergeAt(m, k, Occurs(MergeSeq(acc), k))
  }

  ghost predicate MergeAt(m: map<Key, Option<nat>>, k: Key, times: nat) {
    && (k in m <==> 0 < times)
    && (k in m ==> k.RelationshipMerge? && k.value.Integer? && m[k] == if times == 1 then Some(k.value.n) else None)
  }

  /** `m.entry(k).and_modify(|v| *v = None).or_insert(Some(id))`. */
  function Merged(m: map<Key, Option<nat>>, k: Key, id: nat): map<Key, Option<nat>> {
    m[k := if k in m then None else Some(id)]
  }

  lemma {:induction false} TouchingMore(edges: set<Edge>, e: Edge, end: End, side: Side)
    requires e !in edges
    ensures |Touching(edges + {e}, end, side)|
         == |Touching(edges, end, side)| + if EndOf(e, side) == end then 1 else 0
  {
    if EndOf(e, side) == end {
      assert Touching(edges + {e}, end, side) == Touching(edges, end, side) + {e};
    } else {
      assert Touching(edges + {e}, end, side) == Touching(edges, end, side);
    }
  }

  lemma {:induction false} NoDegrees(side: Side)
    ensures DegreesOk(map[], {}, side)
  {
  }

  lemma {:induction false} BumpDegrees(m: map<End, nat>, edges: set<Edge>, e: Edge, side: Side)
    requires DegreesOk(m, edges, side) && e !in edges
    ensures DegreesOk(Bump(m, EndOf(e, side)), edges + {e}, side)
  {
    forall end ensures At(Bump(m, EndOf(e, side)), end) == |Touching(edges + {e}, end, side)| {
      TouchingMore(edges, e, end, side);
    }
  }

  lemma {:induction false} BumpCounts(m: map<Edge, nat>, acc: seq<Rel>, r: Rel)
    requires CountsOk(m, acc)
    ensures CountsOk(Bump(m, EdgeOf(r)), acc + [r])
  {
    Appending(acc, r);
    forall e ensures At(Bump(m, EdgeOf(r)), e) == Occurs(EdgeSeq(acc + [r]), e) {
      OccursAppend(EdgeSeq(acc), EdgeOf(r), e);
    }
  }

  lemma {:induction false} MergeStep(m: map<Key, Option<nat>>, acc: seq<Rel>, r: Rel)
    requires MergeOk(m, acc)
    ensures MergeOk(Merged(m, MergeKey(r), r.id), acc + [r])
  {
    Appending(acc, r);
    forall k ensures MergeAt(Merged(m, MergeKey(r), r.id), k, Occurs(MergeSeq(acc + [r]), k)) {
      OccursAppend(MergeSeq(acc), MergeKey(r), k);
      assert MergeAt(m, k, Occurs(MergeSeq(acc), k));
    }
  }

  // ----- the encoder

  datatype Error = WrongCell | InvalidName | WrongIdentity

  predicate HasIdentity(r: Rel) {
    exists i :: 0 <= i < |r.properties| && r.properties[i] == Property(IDENTITY, Integer(r.id))
  }

  ghost predicate DistinctNames(ps: seq<Property>) {
    forall i, j :: 0 <= i < j < |ps| ==> ps[i].name != ps[j].name
  }

  predicate NamesValid(ps: seq<Property>) { forall i :: 0 <= i < |ps| ==> ValidComponent(ps[i].name) }

  /** Whether the encoder takes the relationship. */
  predicate Acceptable(r: Rel, cell: string) {
    r.cell == cell && ValidComponent(r.edgeType) && NamesValid(r.properties) && HasIdentity(r)
  }

  /** Whether a relationship is the first between its vertices. */
  predicate IsFirst(r: Rel, before: seq<Rel>) { EdgeOf(r) !in EdgesOf(before) }

  /** All rows emitted for relationships, in the order of submission. */
  function AllRows(acc: seq<Rel>, reverse: bool): seq<Row> {
    if acc == [] then []
    else
      var init, r := acc[..|acc| - 1], acc[|acc| - 1];
      AllRows(init, reverse) + RowsFor(r, IsFirst(r, init), reverse)
  }

  lemma {:induction false} AllRowsAppend(acc: seq<Rel>, r: Rel, reverse: bool)
    ensures AllRows(acc + [r], reverse) == AllRows(acc, reverse) + RowsFor(r, IsFirst(r, acc), reverse)
  {
  }

  /** The number of property rows written so far that carry the identity. */
  lemma {:induction false} IdentityOnce(ps: seq<Property>, i: nat, j: nat)
    requires DistinctNames(ps) && i < |ps| && j < |ps| && ps[i].name == ps[j].name
    ensures i == j
  {
  }

  ghost predicate EdgesTally(edges: set<Edge>, outDegree: map<End, nat>, inDegree: map<End, nat>, reverse: bool) {
    && DegreesOk(outDegree, edges, Outgoing)
    && (if reverse then DegreesOk(inDegree, edges, Incoming) else inDegree == map[])
  }

  /** The counters say what follows from the relationships taken. */
  ghost predicate Tallies(edges: set<Edge>, outDegree: map<End, nat>, inDegree: map<End, nat>, counts: map<Edge, nat>,
                          merge: map<Key, Option<nat>>, maxId: nat, acc: seq<Rel>, reverse: bool) {
    && edges == EdgesOf(acc)
    && EdgesTally(edges, outDegree, inDegree, reverse)
    && CountsOk(counts, acc)
    && MergeOk(merge, acc)
    && maxId == MaxId(acc)
  }

  // ----- what the rows are, whatever the order

  ghost predicate EdgeRow(edges: set<Edge>, reverse: bool, row: Row) {
    match row.key
    case OutEdge(t, s, d) => Edge(t, s, d) in edges && row.value.EdgeMark?
    case InEdge(t, d, s) => reverse && Edge(t, s, d) in edges && row.value.EdgeMark?
    case _ => false
  }

  /** A relationship's record, the pointer from its id to it, and an index row with its id for each property. */
  ghost predicate OwnRow(r: Rel, row: Row) {
    match row.key
    case Relationship(t, src, dst, id) =>
      (t, src, dst, id) == (r.edgeType, r.src, r.dst, r.id) && row.value == RelationshipRecord(r.properties)
    case RelationshipId(id) => id == r.id && row.value == Pointer(Relationship(r.edgeType, r.src, r.dst, r.id))
    case RelationshipProperty(t, name, value, src, dst, id) =>
      && (t, src, dst, id) == (r.edgeType, r.src, r.dst, r.id)
      && Property(name, value) in r.properties && row.value == Number(r.id)
    case _ => false
  }

  lemma {:induction false} PropRowsMean(r: Rel, row: Row)
    ensures row in PropRows(r, r.properties) <==> row.key.RelationshipProperty? && OwnRow(r, row)
  {
    if row.key.RelationshipProperty? && OwnRow(r, row) {
      var i :| 0 <= i < |r.properties| && r.properties[i] == Property(row.key.property, row.key.value);
      assert PropRows(r, r.properties)[i] == row;
    }
  }

  /** The rows the relationships call for: two marks for each structural edge, and each one's own rows. */
  ghost predicate RelationshipRow(acc: seq<Rel>, reverse: bool, row: Row) {
    EdgeRow(EdgesOf(acc), reverse, row) || exists r | r in acc :: OwnRow(r, row)
  }

  lemma {:induction false} RowsForMeans(r: Rel, first: bool, reverse: bool, row: Row)
    ensures row in RowsFor(r, first, reverse) <==> (first && row in EdgeRows(r, reverse)) || OwnRow(r, row)
  {
    PropRowsMean(r, row);
  }

  lemma {:induction false} EdgeRowsMean(r: Rel, reverse: bool, row: Row)
    ensures row in EdgeRows(r, reverse) <==> EdgeRow({EdgeOf(r)}, reverse, row)
  {
  }

  lemma {:induction false} EdgeRowGrows(edges: set<Edge>, e: Edge, reverse: bool, row: Row)
    ensures EdgeRow(edges + {e}, reverse, row) <==> EdgeRow(edges, reverse, row) || EdgeRow({e}, reverse, row)
  {
  }

  lemma {:induction false} OwnRowGrows(init: seq<Rel>, r: Rel, row: Row)
    ensures (exists q | q in init + [r] :: OwnRow(q, row)) <==> (exists q | q in init :: OwnRow(q, row)) || OwnRow(r, row)
  {
  }

  lemma {:induction false} AllRowsMean(acc: seq<Rel>, reverse: bool, row: Row)
    ensures row in AllRows(acc, reverse) <==> RelationshipRow(acc, reverse, row)
  {
    if acc != [] {
      var init, r := acc[..|acc| - 1], acc[|acc| - 1];
      assert acc == init + [r];
      AllRowsMean(init, reverse, row);
      Appending(init, r);
      var first := IsFirst(r, init);
      RowsForMeans(r, first, reverse, row);
      EdgeRowsMean(r, reverse, row);
      EdgeRowGrows(EdgesOf(init), EdgeOf(r), reverse, row);
      OwnRowGrows(init, r, row);
      if !first {
        assert EdgesOf(init) + {EdgeOf(r)} == EdgesOf(init);
      }
    }
  }

  /** No two rows have the same key. */
  ghost predicate NoTwins(rows: seq<Row>) {
    forall i, j :: 0 <= i < j < |rows| ==> rows[i].key != rows[j].key
  }

  ghost predicate Apart(a: seq<Row>, b: seq<Row>) {
    forall x, y | x in a && y in b :: x.key != y.key
  }

  lemma {:induction false} NoTwinsConcat(a: seq<Row>, b: seq<Row>)
    requires NoTwins(a) && NoTwins(b) && Apart(a, b)
    ensures NoTwins(a + b)
  {
  }

  lemma {:induction false} RowsForNoTwins(r: Rel, first: bool, reverse: bool)
    requires DistinctNames(r.properties)
    ensures NoTwins(RowsFor(r, first, reverse))
  {
  }

  ghost predicate DistinctIds(acc: seq<Rel>) {
    forall i, j :: 0 <= i < j < |acc| ==> acc[i].id != acc[j].id
  }

  /** A row of one relationship and a row of another never have the same key. */
  lemma {:induction false} OwnRowsApart(q: Rel, r: Rel, x: Row, y: Row)
    requires q.id != r.id && OwnRow(q, x) && OwnRow(r, y)
    ensures x.key != y.key
  {
  }

  /** What a new relationship emits has no key that was emitted before. */
  lemma {:induction false} NewRowsApart(init: seq<Rel>, r: Rel, reverse: bool, x: Row, y: Row)
    requires forall q | q in init :: q.id != r.id
    requires x in AllRows(init, reverse) && y in RowsFor(r, IsFirst(r, init), reverse)
    ensures x.key != y.key
  {
    AllRowsMean(init, reverse, x);
    RowsForMeans(r, IsFirst(r, init), reverse, y);
    EdgeRowsMean(r, reverse, y);
    if OwnRow(r, y) && !EdgeRow(EdgesOf(init), reverse, x) {
      var q :| q in init && OwnRow(q, x);
      OwnRowsApart(q, r, x, y);
    }
  }

  /** With distinct relationship ids, no two rows emitted on the way have the same key. */
  lemma {:induction false} AllRowsNoTwins(acc: seq<Rel>, reverse: bool)
    requires DistinctIds(acc) && forall i :: 0 <= i < |acc| ==> DistinctNames(acc[i].properties)
    ensures NoTwins(AllRows(acc, reverse))
  {
    if acc != [] {
      var init, r := acc[..|acc| - 1], acc[|acc| - 1];
      var first := IsFirst(r, init);
      AllRowsNoTwins(init, reverse);
      RowsForNoTwins(r, first, reverse);
      forall x, y | x in AllRows(init, reverse) && y in RowsFor(r, first, reverse) ensures x.key != y.key {
        NewRowsApart(init, r, reverse, x, y);
      }
      NoTwinsConcat(AllRows(init, reverse), RowsFor(r, first, reverse));
    }
  }

  // ----- the final rows

  /** The counter rows the relationships call for. */
  ghost predicate FinalRow(acc: seq<Rel>, reverse: bool, row: Row) {
    match row.key
    case DegreeOut(t, v) => IsCount(row, |Touching(EdgesOf(acc), End(t, v), Outgoing)|)
    case DegreeIn(t, v) => reverse && IsCount(row, |Touching(EdgesOf(acc), End(t, v), Incoming)|)
    case RelationshipCount(t, s, d) => IsCount(row, Occurs(EdgeSeq(acc), Edge(t, s, d)))
    case RelationshipMerge(_, _, v, _, _) => Occurs(MergeSeq(acc), row.key) == 1 && v.Integer? && row.value == Number(v.n)
    case LastRelationshipId => IsCount(row, MaxId(acc))
    case _ => false
  }

  predicate IsCount(row: Row, n: nat) { 0 < n && row.value == Number(n) }

  /** One row for each key of a counter map. */
  method Emit<K(!new)>(keys: set<K>, row: K -> Row) returns (rows: seq<Row>)
    requires forall j, k | j in keys && k in keys && j != k :: row(j).key != row(k).key
    ensures NoTwins(rows)
    ensures forall x :: x in rows <==> exists k | k in keys :: x == row(k)
  {
    rows := [];
    var rest := keys;
    while rest != {}
      invariant rest <= keys && NoTwins(rows)
      invariant forall x :: x in rows <==> exists k | k in keys - rest :: x == row(k)
      decreases rest
    {
      var k :| k in rest;
      ghost var done := keys - rest;
      assert NoTwins([row(k)]);
      NoTwinsConcat(rows, [row(k)]);
      rows := rows + [row(k)];
      rest := rest - {k};
      assert keys - rest == done + {k};
    }
    assert keys - rest == keys;
  }

  function DegreeKey(end: End, side: Side): Key {
    if side.Outgoing? then DegreeOut(end.edgeType, end.vertex) else DegreeIn(end.edgeType, end.vertex)
  }

  ghost predicate DegreeRow(edges: set<Edge>, side: Side, x: Row) {
    match x.key
    case DegreeOut(t, v) => side.Outgoing? && IsCount(x, |Touching(edges, End(t, v), side)|)
    case DegreeIn(t, v) => side.Incoming? && IsCount(x, |Touching(edges, End(t, v), side)|)
    case _ => false
  }

  method EmitDegrees(m: map<End, nat>, ghost edges: set<Edge>, side: Side) returns (rows: seq<Row>)
    requires DegreesOk(m, edges, side)
    ensures NoTwins(rows) && forall x :: x in rows <==> DegreeRow(edges, side, x)
  {
    rows := Emit(m.Keys, (end: End) => Row(DegreeKey(end, side), Number(At(m, end))));
    forall x ensures x in rows <==> DegreeRow(edges, side, x) {
      if DegreeRow(edges, side, x) {
        var end := if side.Outgoing? then End(x.key.edgeType, x.key.src) else End(x.key.edgeType, x.key.dst);
        assert At(m, end) == |Touching(edges, end, side)|;
        assert end in m.Keys && x == Row(DegreeKey(end, side), Number(At(m, end)));
      }
    }
  }

  ghost predicate CountRow(acc: seq<Rel>, x: Row) {
    x.key.RelationshipCount? && IsCount(x, Occurs(EdgeSeq(acc), Edge(x.key.edgeType, x.key.src, x.key.dst)))
  }

  method EmitCounts(m: map<Edge, nat>, ghost acc: seq<Rel>) returns (rows: seq<Row>)
    requires CountsOk(m, acc)
    ensures NoTwins(rows) && forall x :: x in rows <==> CountRow(acc, x)
  {
    rows := Emit(m.Keys, (e: Edge) => Row(RelationshipCount(e.edgeType, e.src, e.dst), Number(At(m, e))));
    forall x ensures x in rows <==> CountRow(acc, x) {
      if CountRow(acc, x) {
        var e := Edge(x.key.edgeType, x.key.src, x.key.dst);
        assert At(m, e) == Occurs(EdgeSeq(acc), e);
        assert e in m.Keys && x == Row(RelationshipCount(e.edgeType, e.src, e.dst), Number(At(m, e)));
      }
    }
  }

  ghost predicate MergeRow(acc: seq<Rel>, x: Row) {
    && x.key.RelationshipMerge? && Occurs(MergeSeq(acc), x.key) == 1
    && x.key.value.Integer? && x.value == Number(x.key.value.n)
  }

  function PointerOf(m: map<Key, Option<nat>>, k: Key): nat {
    if k in m && m[k].Some? then m[k].value else 0
  }

  method EmitPointers(m: map<Key, Option<nat>>, ghost acc: seq<Rel>) returns (rows: seq<Row>)
    requires MergeOk(m, acc)
    ensures NoTwins(rows) && forall x :: x in rows <==> MergeRow(acc, x)
  {
    var unique := set k | k in m && m[k].Some?;
    rows := Emit(unique, (k: Key) => Row(k, Number(PointerOf(m, k))));
    forall x ensures x in rows <==> MergeRow(acc, x) {
      assert MergeAt(m, x.key, Occurs(MergeSeq(acc), x.key));
      if MergeRow(acc, x) {
        assert x.key in unique && x == Row(x.key, Number(PointerOf(m, x.key)));
      }
    }
  }

  lemma {:induction false} FinalRowsApart(acc: seq<Rel>, reverse: bool, x: Row)
    ensures FinalRow(acc, reverse, x) <==>
      || DegreeRow(EdgesOf(acc), Outgoing, x)
      || (reverse && DegreeRow(EdgesOf(acc), Incoming, x))
      || CountRow(acc, x) || MergeRow(acc, x)
      || (x.key.LastRelationshipId? && IsCount(x, MaxId(acc)))
  {
  }

  class Encoder {
    const cell: string
    const reverse: bool
    var edges: set<Edge>
    var outDegree: map<End, nat>
    var inDegree: map<End, nat>
    var counts: map<Edge, nat>
    var merge: map<Key, Option<nat>>
    var maxId: nat

    /** The relationships taken so far. */
    ghost var accepted: seq<Rel>

    ghost predicate Valid()
      reads this
    {
      && Tallies(edges, outDegree, inDegree, counts, merge, maxId, accepted, reverse)
      && (forall i :: 0 <= i < |accepted| ==> Acceptable(accepted[i], cell))
    }

    constructor (cell: string, reverse: bool)
      requires ValidComponent(cell)
      ensures Valid() && accepted == [] && this.cell == cell && this.reverse == reverse
    {
      this.cell, this.reverse := cell, reverse;
      edges, outDegree, inDegree, counts, merge, maxId := {}, map[], map[], map[], map[], 0;
      accepted := [];
      new;
      NoDegrees(Outgoing);
      NoDegrees(Incoming);
    }

    /** The first relationship between two vertices adds the structural edge and its degrees. */
    method AddEdge(r: Rel) returns (first: bool)
      requires EdgesTally(edges, outDegree, inDegree, reverse)
      modifies `edges, `outDegree, `inDegree
      ensures first == (EdgeOf(r) !in old(edges)) && edges == old(edges) + {EdgeOf(r)}
      ensures EdgesTally(edges, outDegree, inDegree, reverse)
    {
      var e := EdgeOf(r);
      first := e !in edges;
      if first {
        BumpDegrees(outDegree, edges, e, Outgoing);
        outDegree := Bump(outDegree, End(r.edgeType, r.src));
        if reverse {
          BumpDegrees(inDegree, edges, e, Incoming);
          inDegree := Bump(inDegree, End(r.edgeType, r.dst));
        }
        edges := edges + {e};
      } else {
        assert edges + {e} == edges;
      }
    }

    /** The property rows; the identity property also settles the merge pointer. */
    method AddProperties(r: Rel) returns (rows: seq<Row>)
      requires DistinctNames(r.properties) && HasIdentity(r)
      modifies `merge
      ensures rows == PropRows(r, r.properties)
      ensures merge == Merged(old(merge), MergeKey(r), r.id)
    {
      rows := [];
      ghost var at :| 0 <= at < |r.properties| && r.properties[at] == Property(IDENTITY, Integer(r.id));
      ghost var merge0 := merge;
      for i := 0 to |r.properties|
        invariant rows == PropRows(r, r.properties[..i])
        invariant merge == if at < i then Merged(merge0, MergeKey(r), r.id) else merge0
      {
        var p := r.properties[i];
        assert PropRows(r, r.properties[..i + 1]) == PropRows(r, r.properties[..i]) + [PropRow(r, p)];
        rows := rows + [PropRow(r, p)];
        if p.name == IDENTITY {
          IdentityOnce(r.properties, i, at);
          merge := Merged(merge, RelationshipMerge(r.edgeType, p.name, p.value, r.src, r.dst), r.id);
        }
      }
      assert r.properties[..|r.properties|] == r.properties;
    }

    /** Takes an acceptable relationship and emits its rows. */
    method Take(r: Rel) returns (rows: seq<Row>)
      requires Valid() && DistinctNames(r.properties) && Acceptable(r, cell)
      modifies this
      ensures Valid() && accepted == old(accepted) + [r]
      ensures AllRows(accepted, reverse) == AllRows(old(accepted), reverse) + rows
    {
      ghost var acc := accepted;
      Appending(acc, r);
      AllRowsAppend(acc, r, reverse);
      BumpCounts(counts, acc, r);
      MergeStep(merge, acc, r);
      maxId := Max(maxId, r.id);
      counts := Bump(counts, EdgeOf(r));
      var first := AddEdge(r);
      rows := if first then EdgeRows(r, reverse) else [];
      rows := rows + [Row(RelKey(r), RelationshipRecord(r.properties)), Row(RelationshipId(r.id), Pointer(RelKey(r)))];
      var properties := AddProperties(r);
      rows := rows + properties;
      accepted := acc + [r];
    }

    /** Takes a relationship and emits its rows, or rejects it and changes nothing. */
    method AddRelationship(r: Rel) returns (result: Result<seq<Row>, Error>)
      requires Valid() && DistinctNames(r.properties)
      modifies this
      ensures Valid()
      ensures result.Ok? <==> Acceptable(r, cell)
      ensures result == Err(WrongCell) <==> r.cell != cell
      ensures result == Err(WrongIdentity) ==> !HasIdentity(r)
      ensures result == Err(InvalidName) ==> !ValidComponent(r.edgeType) || !NamesValid(r.properties)
      ensures r.cell == cell && (!ValidComponent(r.edgeType) || !NamesValid(r.properties)) ==> result == Err(InvalidName)
      ensures result.Err? ==> unchanged(this)
      ensures result.Ok? ==>
        && accepted == old(accepted) + [r]
        && AllRows(accepted, reverse) == AllRows(old(accepted), reverse) + result.value
    {
      if r.cell != cell {
        return Err(WrongCell);
      }
      if !ValidComponent(r.edgeType) || !NamesValid(r.properties) {
        return Err(InvalidName);
      }
      if !HasIdentity(r) {
        return Err(WrongIdentity);
      }
      var rows := Take(r);
      result := Ok(rows);
    }

    /** The counter rows and merge pointers. */
    method FinishRows() returns (rows: seq<Row>)
      requires Valid()
      ensures NoTwins(rows)
      ensures forall x :: x in rows <==> FinalRow(accepted, reverse, x)
    {
      rows := EmitDegrees(outDegree, edges, Outgoing);
      if reverse {
        var more := EmitDegrees(inDegree, edges, Incoming);
        NoTwinsConcat(rows, more);
        rows := rows + more;
      }
      var counted := EmitCounts(counts, accepted);
      NoTwinsConcat(rows, counted);
      rows := rows + counted;
      var pointers := EmitPointers(merge, accepted);
      NoTwinsConcat(rows, pointers);
      rows := rows + pointers;
      if maxId > 0 {
        var last := [Row(LastRelationshipId, Number(maxId))];
        NoTwinsConcat(rows, last);
        rows := rows + last;
      }
      forall x ensures x in rows <==> FinalRow(accepted, reverse, x) {
        FinalRowsApart(accepted, reverse, x);
      }
    }
  }

  /** An encoder for a cell, unless the cell's name is no key component. */
  method NewEncoder(cell: string, reverse: bool) returns (result: Result<Encoder, Error>)
    ensures result.Ok? <==> ValidComponent(cell)
    ensures result.Ok? ==> fresh(result.value) && result.value.Valid() && result.value.accepted == []
    ensures result.Ok? ==> result.value.cell == cell && result.value.reverse == reverse
  {
    if !ValidComponent(cell) {
      return Err(InvalidName);
    }
    var encoder := new Encoder(cell, reverse);
    result := Ok(encoder);
  }

  // ----- vertices

  /** A vertex to be imaged: the labels of a set and the properties of a map, in their orders. */
  datatype Vert = Vert(id: nat, labels: seq<string>, properties: seq<Property>)

  ghost predicate VertOk(v: Vert) {
    && (forall i, j :: 0 <= i < j < |v.labels| ==> v.labels[i] != v.labels[j])
    && DistinctNames(v.properties)
  }

  function LabelRow(v: Vert, name: string): Row { Row(VertexLabel(name, v.id), Number(v.id)) }

  function VertexPropRow(v: Vert, p: Property): Row { Row(VertexProperty(p.name, p.value, v.id), Number(v.id)) }

  function VertexRowsOf(v: Vert): seq<Row> {
    [Row(Vertex(v.id), VertexRecord(v.labels, v.properties))]
    + seq(|v.labels|, i requires 0 <= i < |v.labels| => LabelRow(v, v.labels[i]))
    + seq(|v.properties|, i requires 0 <= i < |v.properties| => VertexPropRow(v, v.properties[i]))
  }

  /**
   The rows a vertex calls for: its record with its labels and properties, an index row for each label and
   one for each property with its value, and in every index row the vertex's id.
   */
  ghost predicate VertexRow(v: Vert, row: Row) {
    match row.key
    case Vertex(id) => id == v.id && row.value == VertexRecord(v.labels, v.properties)
    case VertexLabel(name, id) => id == v.id && name in v.labels && row.value == Number(v.id)
    case VertexProperty(name, value, id) => id == v.id && Property(name, value) in v.properties && row.value == Number(v.id)
    case _ => false
  }

  lemma {:induction false} VertexRowsMean(v: Vert, row: Row)
    ensures row in VertexRowsOf(v) <==> VertexRow(v, row)
  {
    var one := Row(Vertex(v.id), VertexRecord(v.labels, v.properties));
    var labels := seq(|v.labels|, i requires 0 <= i < |v.labels| => LabelRow(v, v.labels[i]));
    var properties := seq(|v.properties|, i requires 0 <= i < |v.properties| => VertexPropRow(v, v.properties[i]));
    assert row in VertexRowsOf(v) <==> row == one || row in labels || row in properties;
    if row.key.VertexLabel? && row.key.name in v.labels {
      var i :| 0 <= i < |v.labels| && v.labels[i] == row.key.name;
      assert labels[i] == LabelRow(v, row.key.name);
    }
    if row.key.VertexProperty? && Property(row.key.property, row.key.value) in v.properties {
      var i :| 0 <= i < |v.properties| && v.properties[i] == Property(row.key.property, row.key.value);
      assert properties[i] == VertexPropRow(v, v.properties[i]);
    }
  }

  method AddVertex(v: Vert) returns (result: Result<seq<Row>, Error>)
    ensures result.Ok? <==>
      && (forall i :: 0 <= i < |v.labels| ==> ValidComponent(v.labels[i]))
      && (forall i :: 0 <= i < |v.properties| ==> ValidComponent(v.properties[i].name))
    ensures result.Ok? ==> forall row :: row in result.value <==> VertexRow(v, row)
    ensures result.Ok? ==> |result.value| == 1 + |v.labels| + |v.properties|
    ensures result.Ok? ==> result.value == VertexRowsOf(v)
  {
    if !(forall i :: 0 <= i < |v.labels| ==> ValidComponent(v.labels[i])) {
      return Err(InvalidName);
    }
    if !(forall i :: 0 <= i < |v.properties| ==> ValidComponent(v.properties[i].name)) {
      return Err(InvalidName);
    }
    var rows := [Row(Vertex(v.id), VertexRecord(v.labels, v.properties))];
    for i := 0 to |v.labels|
      invariant rows == [Row(Vertex(v.id), VertexRecord(v.labels, v.properties))]
                        + seq(i, j requires 0 <= j < i => LabelRow(v, v.labels[j]))
    {
      rows := rows + [LabelRow(v, v.labels[i])];
    }
    ghost var front := rows;
    for i := 0 to |v.properties|
      invariant rows == front + seq(i, j requires 0 <= j < i => VertexPropRow(v, v.properties[j]))
    {
      rows := rows + [VertexPropRow(v, v.properties[i])];
    }
    assert rows == VertexRowsOf(v);
    forall row ensures row in rows <==> VertexRow(v, row) {
      VertexRowsMean(v, row);
    }
    result := Ok(rows);
  }

  function VertexImage(vs: seq<Vert>): seq<Row> {
    if vs == [] then [] else VertexImage(vs[..|vs| - 1]) + VertexRowsOf(vs[|vs| - 1])
  }

  /** The vertex rows of an image are those its vertices call for, whatever their order. */
  lemma {:induction false} VertexImageMeans(vs: seq<Vert>, row: Row)
    ensures row in VertexImage(vs) <==> exists v | v in vs :: VertexRow(v, row)
  {
    hide VertexRow;
    if vs != [] {
      var init, v := vs[..|vs| - 1], vs[|vs| - 1];
      VertexImageMeans(init, row);
      VertexRowsMean(v, row);
      assert vs == init + [v];
    }
  }

  predicate VertexKeyOf(k: Key, id: nat) {
    (k.Vertex? || k.VertexLabel? || k.VertexProperty?) && k.id == id
  }

  lemma {:induction false} VertexRowsNoTwins(v: Vert)
    requires VertOk(v)
    ensures NoTwins(VertexRowsOf(v)) && forall x | x in VertexRowsOf(v) :: VertexKeyOf(x.key, v.id)
  {
    var one := [Row(Vertex(v.id), VertexRecord(v.labels, v.properties))];
    var labels := seq(|v.labels|, i requires 0 <= i < |v.labels| => LabelRow(v, v.labels[i]));
    var properties := seq(|v.properties|, i requires 0 <= i < |v.properties| => VertexPropRow(v, v.properties[i]));
    NoTwinsConcat(one, labels);
    NoTwinsConcat(one + labels, properties);
  }

  lemma {:induction false} VertexImageNoTwins(vs: seq<Vert>)
    requires forall i :: 0 <= i < |vs| ==> VertOk(vs[i])
    requires forall i, j :: 0 <= i < j < |vs| ==> vs[i].id != vs[j].id
    ensures NoTwins(VertexImage(vs))
    ensures forall x | x in VertexImage(vs) :: exists i :: 0 <= i < |vs| && VertexKeyOf(x.key, vs[i].id)
  {
    if vs != [] {
      var init, v := vs[..|vs| - 1], vs[|vs| - 1];
      VertexImageNoTwins(init);
      VertexRowsNoTwins(v);
      forall x, y | x in VertexImage(init) && y in VertexRowsOf(v) ensures x.key != y.key {
        var i :| 0 <= i < |init| && VertexKeyOf(x.key, init[i].id);
        assert init[i] == vs[i];
      }
      NoTwinsConcat(VertexImage(init), VertexRowsOf(v));
      forall x | x in VertexImage(vs) ensures exists i :: 0 <= i < |vs| && VertexKeyOf(x.key, vs[i].id) {
        if x in VertexImage(init) {
          var i :| 0 <= i < |init| && VertexKeyOf(x.key, init[i].id);
          assert vs[i] == init[i];
        } else {
          assert VertexKeyOf(x.key, vs[|vs| - 1].id);
        }
      }
    }
  }

  // ----- the image as a whole

  /**
   For any vertices and relationships with distinct ids, all rows of the image, vertex
   rows, relationship rows and final rows together, have different keys.
   */
  lemma {:induction false} ImageHasNoTwins(vs: seq<Vert>, acc: seq<Rel>, reverse: bool, last: seq<Row>)
    requires forall i :: 0 <= i < |vs| ==> VertOk(vs[i])
    requires forall i, j :: 0 <= i < j < |vs| ==> vs[i].id != vs[j].id
    requires DistinctIds(acc) && forall i :: 0 <= i < |acc| ==> DistinctNames(acc[i].properties)
    requires NoTwins(last) && forall x :: x in last <==> FinalRow(acc, reverse, x)
    ensures NoTwins(VertexImage(vs) + AllRows(acc, reverse) + last)
  {
    VertexImageNoTwins(vs);
    AllRowsNoTwins(acc, reverse);
    forall y | y in AllRows(acc, reverse) ensures EdgeOrOwnKey(y.key) {
      AllRowsMean(acc, reverse, y);
      EdgeOrOwn(acc, reverse, y);
    }
    NoTwinsConcat(VertexImage(vs), AllRows(acc, reverse));
    NoTwinsConcat(VertexImage(vs) + AllRows(acc, reverse), last);
  }

  predicate EdgeOrOwnKey(k: Key) {
    k.OutEdge? || k.InEdge? || k.Relationship? || k.RelationshipId? || k.RelationshipProperty?
  }

  lemma {:induction false} EdgeOrOwn(acc: seq<Rel>, reverse: bool, row: Row)
    requires RelationshipRow(acc, reverse, row)
    ensures EdgeOrOwnKey(row.key)
  {
  }

  /** Different keys stay different when printed. */
  lemma {:induction false} PrintedApart(cell: string, rows: seq<Row>, i: nat, j: nat)
    requires ValidComponent(cell) && NoTwins(rows) && i < j < |rows|
    requires KeyInRange(rows[i].key) && KeyInRange(rows[j].key)
    ensures Print(cell, rows[i].key) != Print(cell, rows[j].key)
  {
    if Print(cell, rows[i].key) == Print(cell, rows[j].key) {
      PrintInjective(cell, rows[i].key, rows[j].key);
    }
  }

  // ----- counters against rows

  datatype Query = Between(e: Edge) | From(end: End) | Into(end: End)

  /** Whether a key is a relationship between two vertices, or an edge row out of or into one. */
  predicate Matches(k: Key, q: Query) {
    match q
    case Between(e) => k.Relationship? && Edge(k.edgeType, k.src, k.dst) == e
    case From(end) => k.OutEdge? && End(k.edgeType, k.src) == end
    case Into(end) => k.InEdge? && End(k.edgeType, k.dst) == end
  }

  function Tally(rows: seq<Row>, q: Query): nat {
    if rows == [] then 0
    else Tally(rows[..|rows| - 1], q) + if Matches(rows[|rows| - 1].key, q) then 1 else 0
  }

  lemma {:induction false} TallyConcat(a: seq<Row>, b: seq<Row>, q: Query)
    ensures Tally(a + b, q) == Tally(a, q) + Tally(b, q)
  {
    if b == [] {
      assert a + b == a;
    } else {
      TallyConcat(a, b[..|b| - 1], q);
      assert (a + b)[..|a + b| - 1] == a + b[..|b| - 1];
    }
  }

  lemma {:induction false} TallyOne(x: Row, q: Query)
    ensures Tally([x], q) == if Matches(x.key, q) then 1 else 0
  {
  }

  lemma {:induction false} TallyNone(rows: seq<Row>, q: Query)
    requires forall i :: 0 <= i < |rows| ==> !Matches(rows[i].key, q)
    ensures Tally(rows, q) == 0
  {
    if rows != [] {
      TallyNone(rows[..|rows| - 1], q);
    }
  }

  lemma {:induction false} TallyRowsFor(r: Rel, first: bool, reverse: bool, q: Query)
    ensures Tally(RowsFor(r, first, reverse), q) ==
      match q
      case Between(e) => if EdgeOf(r) == e then 1 else 0
      case From(end) => if first && EndOf(EdgeOf(r), Outgoing) == end then 1 else 0
      case Into(end) => if first && reverse && EndOf(EdgeOf(r), Incoming) == end then 1 else 0
  {
    var out, back := Row(OutEdge(r.edgeType, r.src, r.dst), EdgeMark), Row(InEdge(r.edgeType, r.dst, r.src), EdgeMark);
    var rel, id := Row(RelKey(r), RelationshipRecord(r.properties)), Row(RelationshipId(r.id), Pointer(RelKey(r)));
    var edges := if first then EdgeRows(r, reverse) else [];
    TallyOne(out, q);
    TallyOne(back, q);
    TallyOne(rel, q);
    TallyOne(id, q);
    TallyConcat([out], if reverse then [back] else [], q);
    TallyConcat([rel], [id], q);
    assert [rel] + [id] == [rel, id];
    TallyNone(PropRows(r, r.properties), q);
    TallyConcat(edges, [rel, id], q);
    TallyConcat(edges + [rel, id], PropRows(r, r.properties), q);
  }

  /**
   The counters agree with the rows: a relationship count is the number of relationship rows
   between the two vertices, and a degree is the number of edge rows at the vertex.
   */
  lemma {:induction false} CountersMatchRows(acc: seq<Rel>, reverse: bool, q: Query)
    ensures Tally(AllRows(acc, reverse), q) ==
      match q
      case Between(e) => Occurs(EdgeSeq(acc), e)
      case From(end) => |Touching(EdgesOf(acc), end, Outgoing)|
      case Into(end) => if reverse then |Touching(EdgesOf(acc), end, Incoming)| else 0
  {
    if acc == [] {
      assert q.From? ==> Touching(EdgesOf(acc), q.end, Outgoing) == {};
      assert q.Into? ==> Touching(EdgesOf(acc), q.end, Incoming) == {};
    } else {
      var init, r := acc[..|acc| - 1], acc[|acc| - 1];
      var first := IsFirst(r, init);
      assert acc == init + [r];
      CountersMatchRows(init, reverse, q);
      Appending(init, r);
      TallyConcat(AllRows(init, reverse), RowsFor(r, first, reverse), q);
      TallyRowsFor(r, first, reverse, q);
      match q
      case Between(e) => OccursAppend(EdgeSeq(init), EdgeOf(r), e);
      case From(end) => DegreeStep(init, r, end, Outgoing);
      case Into(end) => DegreeStep(init, r, end, Incoming);
    }
  }

  lemma {:induction false} DegreeStep(init: seq<Rel>, r: Rel, end: End, side: Side)
    ensures |Touching(EdgesOf(init + [r]), end, side)| == |Touching(EdgesOf(init), end, side)|
      + if EdgeOf(r) !in EdgesOf(init) && EndOf(EdgeOf(r), side) == end then 1 else 0
  {
    Appending(init, r);
    if EdgeOf(r) in EdgesOf(init) {
      assert EdgesOf(init) + {EdgeOf(r)} == EdgesOf(init);
    } else {
      TouchingMore(EdgesOf(init), EdgeOf(r), end, side);
    }
  }

  // ----- the merge pointer

  lemma {:induction false} NotThere(acc: seq<Rel>, k: Key)
    requires forall i :: 0 <= i < |acc| ==> MergeKey(acc[i]) != k
    ensures Occurs(MergeSeq(acc), k) == 0
  {
    if acc != [] {
      var init, r := acc[..|acc| - 1], acc[|acc| - 1];
      assert acc == init + [r];
      NotThere(init, k);
      Appending(init, r);
      OccursAppend(MergeSeq(init), MergeKey(r), k);
    }
  }

  lemma {:induction false} PointedAtOnce(acc: seq<Rel>, i: nat)
    requires DistinctIds(acc) && i < |acc|
    ensures Occurs(MergeSeq(acc), MergeKey(acc[i])) == 1
  {
    hide Occurs;
    var k := MergeKey(acc[i]);
    var init, r := acc[..|acc| - 1], acc[|acc| - 1];
    assert acc == init + [r];
    Appending(init, r);
    OccursAppend(MergeSeq(init), MergeKey(r), k);
    if i == |acc| - 1 {
      NotThere(init, k);
    } else {
      PointedAtOnce(init, i);
      assert MergeKey(r) != k;
    }
  }

  /** The merge pointer of a relationship: under its type, its identity and its ends, its id. */
  ghost predicate PointsTo(x: Row, r: Rel) {
    x == Row(RelationshipMerge(r.edgeType, "id", Integer(r.id), r.src, r.dst), Number(r.id))
  }

  lemma {:induction false} SomeMergeKey(acc: seq<Rel>, k: Key) returns (i: nat)
    requires 0 < Occurs(MergeSeq(acc), k)
    ensures i < |acc| && MergeKey(acc[i]) == k
  {
    var init, r := acc[..|acc| - 1], acc[|acc| - 1];
    assert acc == init + [r];
    Appending(init, r);
    OccursAppend(MergeSeq(init), MergeKey(r), k);
    if MergeKey(r) == k {
      i := |acc| - 1;
    } else {
      i := SomeMergeKey(init, k);
    }
  }

  /** With distinct ids the merge pointers of the image are exactly one for each relationship, and it names that relationship. */
  lemma {:induction false} PointerNamesIts(acc: seq<Rel>, reverse: bool, x: Row)
    requires DistinctIds(acc)
    ensures FinalRow(acc, reverse, x) && x.key.RelationshipMerge? <==> exists i :: 0 <= i < |acc| && PointsTo(x, acc[i])
  {
    hide Occurs;
    if FinalRow(acc, reverse, x) && x.key.RelationshipMerge? {
      var i := SomeMergeKey(acc, x.key);
      assert PointsTo(x, acc[i]);
    }
    if i :| 0 <= i < |acc| && PointsTo(x, acc[i]) {
      PointedAtOnce(acc, i);
    }
  }

  /** The last relationship id of an image is the greatest taken, and there is none exactly when all ids are zero. */
  lemma {:induction false} LastIdIsGreatest(acc: seq<Rel>, reverse: bool, x: Row)
    requires x.key.LastRelationshipId?
    ensures FinalRow(acc, reverse, x) <==>
      exists i :: 0 <= i < |acc| && 0 < acc[i].id && x.value == Number(acc[i].id) && AtMost(acc, acc[i].id)
  {
    MaxIdIsGreatest(acc);
    if i :| 0 <= i < |acc| && 0 < acc[i].id && x.value == Number(acc[i].id) && AtMost(acc, acc[i].id) {
      assert MaxId(acc) == acc[i].id;
    }
  }

  ghost predicate AtMost(acc: seq<Rel>, n: nat) { forall i :: 0 <= i < |acc| ==> acc[i].id <= n }

  lemma {:induction false} MaxIdIsGreatest(acc: seq<Rel>)
    ensures AtMost(acc, MaxId(acc))
    ensures acc != [] ==> exists i :: 0 <= i < |acc| && acc[i].id == MaxId(acc)
  {
    if acc != [] {
      var init, r := acc[..|acc| - 1], acc[|acc| - 1];
      MaxIdIsGreatest(init);
      assert forall i :: 0 <= i < |init| ==> init[i] == acc[i];
      if MaxId(acc) == r.id {
        assert acc[|acc| - 1].id == MaxId(acc);
      } else {
        var i :| 0 <= i < |init| && init[i].id == MaxId(init);
        assert acc[i].id == MaxId(acc);
      }
    }
  }

  // ----- the order of submission does not matter

  lemma {:induction false} OccursRemove<T>(xs: seq<T>, i: nat, x: T)
    requires i < |xs|
    ensures Occurs(xs, x) == Occurs(xs[..i] + xs[i + 1..], x) + if xs[i] == x then 1 else 0
  {
    var last := xs[|xs| - 1];
    if i == |xs| - 1 {
      assert xs[..i] + xs[i + 1..] == xs[..i];
    } else {
      var init := xs[..|xs| - 1];
      OccursRemove(init, i, x);
      assert xs[..i] + xs[i + 1..] == (init[..i] + init[i + 1..]) + [last];
      OccursAppend(init[..i] + init[i + 1..], last, x);
    }
  }

  function Without(b: seq<Rel>, i: nat): seq<Rel>
    requires i < |b|
  {
    b[..i] + b[i + 1..]
  }

  lemma {:induction false} TallyWithout(b: seq<Rel>, i: nat, e: Edge, k: Key)
    requires i < |b|
    ensures Occurs(EdgeSeq(b), e) == Occurs(EdgeSeq(Without(b, i)), e) + if EdgeOf(b[i]) == e then 1 else 0
    ensures Occurs(MergeSeq(b), k) == Occurs(MergeSeq(Without(b, i)), k) + if MergeKey(b[i]) == k then 1 else 0
  {
    OccursRemove(EdgeSeq(b), i, e);
    OccursRemove(MergeSeq(b), i, k);
    assert EdgeSeq(Without(b, i)) == EdgeSeq(b)[..i] + EdgeSeq(b)[i + 1..];
    assert MergeSeq(Without(b, i)) == MergeSeq(b)[..i] + MergeSeq(b)[i + 1..];
  }

  lemma {:induction false} WithoutOne(b: seq<Rel>, i: nat)
    requires i < |b|
    ensures multiset(b) == multiset(Without(b, i)) + multiset{b[i]}
  {
    assert b == b[..i] + [b[i]] + b[i + 1..];
  }

  lemma {:induction false} Cancel(x: multiset<Rel>, y: multiset<Rel>, one: multiset<Rel>)
    requires x + one == y + one
    ensures x == y
  {
    assert x == (x + one) - one && y == (y + one) - one;
  }

  /** The last of one order is somewhere in the other. */
  lemma {:induction false} FindLast(a: seq<Rel>, b: seq<Rel>) returns (i: nat)
    requires multiset(a) == multiset(b) && a != []
    ensures i < |b| && b[i] == a[|a| - 1] && multiset(Without(b, i)) == multiset(Without(a, |a| - 1))
  {
    var last := |a| - 1;
    WithoutOne(a, last);
    assert a[last] in multiset(b);
    i :| i < |b| && b[i] == a[last];
    WithoutOne(b, i);
    Cancel(multiset(Without(b, i)), multiset(Without(a, last)), multiset{a[last]});
  }

  lemma {:induction false} SameTallies(a: seq<Rel>, b: seq<Rel>, e: Edge, k: Key)
    requires multiset(a) == multiset(b)
    ensures Occurs(EdgeSeq(a), e) == Occurs(EdgeSeq(b), e)
    ensures Occurs(MergeSeq(a), k) == Occurs(MergeSeq(b), k)
    ensures MaxId(a) == MaxId(b)
    decreases |a|
  {
    if a == [] {
      assert |multiset(b)| == 0;
    } else {
      var last := |a| - 1;
      var i := FindLast(a, b);
      SameTallies(Without(a, last), Without(b, i), e, k);
      TallyWithout(a, last, e, k);
      TallyWithout(b, i, e, k);
      MaxIdRemove(a, last);
      MaxIdRemove(b, i);
    }
  }

  lemma {:induction false} MaxIdAppend(acc: seq<Rel>, r: Rel)
    ensures MaxId(acc + [r]) == Max(MaxId(acc), r.id)
  {
  }

  lemma {:induction false} MaxIdRemove(b: seq<Rel>, i: nat)
    requires i < |b|
    ensures MaxId(b) == Max(MaxId(Without(b, i)), b[i].id)
  {
    var init, last := b[..|b| - 1], b[|b| - 1];
    if i == |b| - 1 {
      assert Without(b, i) == init;
    } else {
      MaxIdRemove(init, i);
      assert Without(b, i) == Without(init, i) + [last];
      MaxIdAppend(Without(init, i), last);
    }
  }

  /** Relationships submitted in another order give an image with the same rows. */
  lemma {:induction false} OrderDoesNotMatter(a: seq<Rel>, b: seq<Rel>, reverse: bool, row: Row)
    requires multiset(a) == multiset(b)
    ensures row in AllRows(a, reverse) <==> row in AllRows(b, reverse)
    ensures FinalRow(a, reverse, row) <==> FinalRow(b, reverse, row)
  {
    AllRowsMean(a, reverse, row);
    AllRowsMean(b, reverse, row);
    assert forall r :: r in a <==> r in multiset(a);
    assert forall r :: r in b <==> r in multiset(b);
    assert EdgesOf(a) == EdgesOf(b);
    var e := if row.key.RelationshipCount? then Edge(row.key.edgeType, row.key.src, row.key.dst) else Edge("", 0, 0);
    SameTallies(a, b, e, row.key);
  }
}
