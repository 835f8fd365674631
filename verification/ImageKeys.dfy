/** The keys of a whole offline image as they are stored: no two rows have the same text. */
module ImageKeys {
  import opened Base
  import opened TextCodec
  import opened PropertyKeys
  import opened Keys
  import opened OfflineImage

  predicate PropertiesInRange(ps: seq<Property>) { forall i :: 0 <= i < |ps| ==> InRange(ps[i].value) }

  /** A relationship the encoder takes, with 64-bit ids and storable values. */
  predicate Takes(r: Rel, cell: string) {
    && Acceptable(r, cell) && PropertiesInRange(r.properties)
    && r.src <= U64_MAX && r.dst <= U64_MAX && r.id <= U64_MAX
  }

  /** A vertex the encoder takes, with a 64-bit id and storable values. */
  predicate TakesVertex(v: Vert) {
    && (forall i :: 0 <= i < |v.labels| ==> ValidComponent(v.labels[i]))
    && NamesValid(v.properties) && PropertiesInRange(v.properties) && v.id <= U64_MAX
  }

  // ----- every key is in range

  lemma {:induction false} OccursThere<T>(xs: seq<T>, x: T)
    requires 0 < Occurs(xs, x)
    ensures x in xs
  {
    if xs[|xs| - 1] != x {
      OccursThere(xs[..|xs| - 1], x);
    }
  }

  /** The keys that name a relationship's edge. */
  lemma {:induction false} EdgeKeysInRange(r: Rel, cell: string)
    requires Takes(r, cell)
    ensures KeyInRange(OutEdge(r.edgeType, r.src, r.dst)) && KeyInRange(InEdge(r.edgeType, r.dst, r.src))
    ensures KeyInRange(RelationshipCount(r.edgeType, r.src, r.dst))
    ensures KeyInRange(DegreeOut(r.edgeType, r.src)) && KeyInRange(DegreeIn(r.edgeType, r.dst))
  {
  }

  lemma {:induction false} OwnKeysInRange(r: Rel, cell: string, row: Row)
    requires Takes(r, cell) && OwnRow(r, row)
    ensures KeyInRange(row.key)
  {
    if row in PropRows(r, r.properties) {
      var i :| 0 <= i < |r.properties| && row == PropRow(r, r.properties[i]);
      assert InRange(r.properties[i].value) && ValidComponent(r.properties[i].name);
    }
  }

  lemma {:induction false} MergeKeyInRange(r: Rel, cell: string)
    requires Takes(r, cell)
    ensures KeyInRange(MergeKey(r))
  {
    var i :| 0 <= i < |r.properties| && r.properties[i] == Property(IDENTITY, Integer(r.id));
    assert InRange(r.properties[i].value) && ValidComponent(r.properties[i].name);
  }

  ghost predicate TakesAll(acc: seq<Rel>, cell: string) { forall i :: 0 <= i < |acc| ==> Takes(acc[i], cell) }

  lemma {:induction false} RelationshipKeys(acc: seq<Rel>, cell: string, reverse: bool, row: Row)
    requires TakesAll(acc, cell) && RelationshipRow(acc, reverse, row)
    ensures KeyInRange(row.key)
  {
    if EdgeRow(EdgesOf(acc), reverse, row) {
      var r :| r in acc && EdgeOf(r) == Edge(row.key.edgeType, row.key.src, row.key.dst);
      EdgeKeysInRange(r, cell);
    } else {
      var r :| r in acc && OwnRow(r, row);
      OwnKeysInRange(r, cell, row);
    }
  }

  lemma {:induction false} DegreeKeys(acc: seq<Rel>, cell: string, side: Side, row: Row)
    requires TakesAll(acc, cell) && DegreeRow(EdgesOf(acc), side, row)
    ensures KeyInRange(row.key)
  {
    var vertex := if row.key.DegreeOut? then row.key.src else row.key.dst;
    var end := End(row.key.edgeType, vertex);
    assert Touching(EdgesOf(acc), end, side) != {};
    var e :| e in Touching(EdgesOf(acc), end, side);
    var r :| r in acc && EdgeOf(r) == e;
    EdgeKeysInRange(r, cell);
  }

  lemma {:induction false} FinalKeys(acc: seq<Rel>, cell: string, reverse: bool, row: Row)
    requires TakesAll(acc, cell) && FinalRow(acc, reverse, row)
    ensures KeyInRange(row.key)
  {
    if CountRow(acc, row) {
      OccursThere(EdgeSeq(acc), Edge(row.key.edgeType, row.key.src, row.key.dst));
      var i :| 0 <= i < |acc| && EdgeOf(acc[i]) == Edge(row.key.edgeType, row.key.src, row.key.dst);
      EdgeKeysInRange(acc[i], cell);
    } else if MergeRow(acc, row) {
      OccursThere(MergeSeq(acc), row.key);
      var i :| 0 <= i < |acc| && MergeKey(acc[i]) == row.key;
      MergeKeyInRange(acc[i], cell);
    } else if row.key.DegreeOut? {
      DegreeKeys(acc, cell, Outgoing, row);
    } else if row.key.DegreeIn? {
      DegreeKeys(acc, cell, Incoming, row);
    }
  }

  lemma {:induction false} VertexKeys(v: Vert, row: Row)
    requires TakesVertex(v) && row in VertexRowsOf(v)
    ensures KeyInRange(row.key)
  {
    if row.key.VertexLabel? {
      var i :| 0 <= i < |v.labels| && row == LabelRow(v, v.labels[i]);
    } else if row.key.VertexProperty? {
      var i :| 0 <= i < |v.properties| && row == VertexPropRow(v, v.properties[i]);
      assert InRange(v.properties[i].value) && ValidComponent(v.properties[i].name);
    }
  }

  lemma {:induction false} VertexImageKeys(vs: seq<Vert>, row: Row)
    requires (forall i :: 0 <= i < |vs| ==> TakesVertex(vs[i])) && row in VertexImage(vs)
    ensures KeyInRange(row.key)
  {
    var init, v := vs[..|vs| - 1], vs[|vs| - 1];
    if row in VertexImage(init) {
      VertexImageKeys(init, row);
    } else {
      VertexKeys(v, row);
    }
  }

  // ----- no two rows have the same text

  /**
   For any vertices and relationships the encoder takes, with distinct ids, every key of the
   image can be printed and no two rows of it, vertex, relationship or final, print alike.
   */
  lemma {:induction false} ImagePrintsApart(cell: string, vs: seq<Vert>, acc: seq<Rel>, reverse: bool, last: seq<Row>)
    requires ValidComponent(cell) && TakesAll(acc, cell)
    requires forall i :: 0 <= i < |vs| ==> TakesVertex(vs[i]) && VertOk(vs[i])
    requires forall i, j :: 0 <= i < j < |vs| ==> vs[i].id != vs[j].id
    requires DistinctIds(acc) && forall i :: 0 <= i < |acc| ==> DistinctNames(acc[i].properties)
    requires NoTwins(last) && forall x :: x in last <==> FinalRow(acc, reverse, x)
    ensures
      var image := VertexImage(vs) + AllRows(acc, reverse) + last;
      && (forall i :: 0 <= i < |image| ==> KeyInRange(image[i].key))
      && (forall i, j :: 0 <= i < j < |image| ==> Print(cell, image[i].key) != Print(cell, image[j].key))
  {
    var image := VertexImage(vs) + AllRows(acc, reverse) + last;
    ImageHasNoTwins(vs, acc, reverse, last);
    forall i | 0 <= i < |image| ensures KeyInRange(image[i].key) {
      var row := image[i];
      if row in VertexImage(vs) {
        VertexImageKeys(vs, row);
      } else if row in AllRows(acc, reverse) {
        AllRowsMean(acc, reverse, row);
        RelationshipKeys(acc, cell, reverse, row);
      } else {
        FinalKeys(acc, cell, reverse, row);
      }
    }
    forall i, j | 0 <= i < j < |image| ensures Print(cell, image[i].key) != Print(cell, image[j].key) {
      PrintedApart(cell, image, i, j);
    }
  }
}
