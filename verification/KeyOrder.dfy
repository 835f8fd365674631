/**
 The keys of a cell as they are stored: their components written out family by family, and
 the byte order of the keys that hold a property value.
 */
module KeyOrder {
  import opened Base
  import opened TextCodec
  import opened PropertyKeys
  import opened Keys
  import opened VertexScans

  // ----- the printed components

  /** The components of a key after the cell's, as the key printers write them. */
  function Components(k: Key): seq<string>
    requires forall i :: 0 <= i < |Values(k)| ==> InRange(Values(k)[i])
  {
    match k
    case Vertex(id) => ["vertex", Id(id)]
    case VertexLabel(name, id) => ["vlabel", name, Id(id)]
    case VertexProperty(property, value, id) =>
      assert Values(k)[0] == value;
      ["vprop_idx", property, Encode(value), Id(id)]
    case OutEdge(t, src, dst) => ["e", "out", t, Id(src), Id(dst)]
    case InEdge(t, dst, src) => ["e", "in", t, Id(dst), Id(src)]
    case Relationship(t, src, dst, id) => ["rel", t, Id(src), Id(dst), Id(id)]
    case RelationshipId(id) => ["rel_id", Id(id)]
    case RelationshipProperty(t, property, value, src, dst, id) =>
      assert Values(k)[0] == value;
      ["rprop_idx", t, property, Encode(value), Id(src), Id(dst), Id(id)]
    case RelationshipMerge(t, property, value, src, dst) =>
      assert Values(k)[0] == value;
      ["rmerge_idx", t, property, Encode(value), Id(src), Id(dst)]
    case RelationshipCount(t, src, dst) => ["rel_count", t, Id(src), Id(dst)]
    case DegreeOut(t, src) => ["cnt", "out", t, Id(src)]
    case DegreeIn(t, dst) => ["cnt", "in", t, Id(dst)]
    case LastRelationshipId => ["meta", "last_relationship_id"]
    case OutSegment(t, src, sequence, segment) => ["seg", "out", t, Id(src), Id(sequence), segment]
    case OutTombstone(t, src, dst) => ["seg", "tomb", "out", t, Id(src), Id(dst)]
    case StructuralEdge(t, src, dst) => ["edge", t, Id(src), Id(dst)]
    case EdgeMetadata(t, src, dst) => ["emeta", t, Id(src), Id(dst)]
    case EdgeProperty(t, property, value, src, dst) =>
      assert Values(k)[0] == value;
      ["eprop_idx", t, property, Encode(value), Id(src), Id(dst)]
    case Idempotency(operation, token) => ["idem", operation, token]
    case ChangeLog(t, sequence, src, dst) => ["xlog", t, Id(sequence), Id(src), Id(dst)]
    case ChangeLogFloor(t) => ["meta", "xlog_low", t]
    case MatrixDirty(t) => ["meta", "matrix_dirty", t]
    case AdjacencyGeneration(t) => ["meta", "adjacency_generation", t]
  }

  lemma {:induction false} NoValue(ids: seq<nat>)
    requires |ids| <= 3
    ensures EncodeAll([]) == []
    ensures IdParts(ids) ==
      if ids == [] then [] else if |ids| == 1 then [Id(ids[0])]
      else if |ids| == 2 then [Id(ids[0]), Id(ids[1])] else [Id(ids[0]), Id(ids[1]), Id(ids[2])]
  {
  }

  lemma {:induction false} OneValue(v: Value)
    requires InRange(v)
    ensures EncodeAll([v]) == [Encode(v)]
  {
  }

  lemma {:induction false} ValueTail(k: Key)
    requires KeyInRange(k) && Values(k) != []
    ensures Tail(k) == Components(k)
  {
    hide Encode;
    hide Id;
    hide EncodeAll;
    hide IdParts;
    NoValue(Ids(k));
    OneValue(Values(k)[0]);
    assert Values(k) == [Values(k)[0]];
  }

  predicate IsIncidentKey(k: Key) { k.OutEdge? || k.InEdge? || k.Relationship? }

  predicate IsSegmentKey(k: Key) { k.OutSegment? || k.OutTombstone? }

  predicate IsEdgeKey(k: Key) { k.StructuralEdge? || k.EdgeMetadata? }

  predicate IsCountKey(k: Key) { k.RelationshipCount? || k.DegreeOut? || k.DegreeIn? }

  lemma {:induction false} IncidentTail(k: Key)
    requires KeyInRange(k) && IsIncidentKey(k)
    ensures Tail(k) == Components(k)
  {
    hide Encode;
    hide Id;
    hide EncodeAll;
    hide IdParts;
    hide KeyInRange;
    NoValue(Ids(k));
    assert Values(k) == [];
  }

  lemma {:induction false} SegmentTail(k: Key)
    requires KeyInRange(k) && IsSegmentKey(k)
    ensures Tail(k) == Components(k)
  {
    hide Encode;
    hide Id;
    hide EncodeAll;
    hide IdParts;
    hide KeyInRange;
    NoValue(Ids(k));
    assert Values(k) == [];
  }

  lemma {:induction false} EdgeTail(k: Key)
    requires KeyInRange(k) && IsEdgeKey(k)
    ensures Tail(k) == Components(k)
  {
    hide Encode;
    hide Id;
    hide EncodeAll;
    hide IdParts;
    hide KeyInRange;
    NoValue(Ids(k));
    assert Values(k) == [];
  }

  lemma {:induction false} LogTail(k: Key)
    requires KeyInRange(k) && k.ChangeLog?
    ensures Tail(k) == Components(k)
  {
    hide Encode;
    hide Id;
    hide EncodeAll;
    hide IdParts;
    hide KeyInRange;
    NoValue([k.at, k.src, k.dst]);
  }

  lemma {:induction false} CountTail(k: Key)
    requires KeyInRange(k) && IsCountKey(k)
    ensures Tail(k) == Components(k)
  {
    hide Encode;
    hide Id;
    hide EncodeAll;
    hide IdParts;
    hide KeyInRange;
    NoValue(Ids(k));
    assert Values(k) == [];
  }

  lemma {:induction false} OtherTail(k: Key)
    requires KeyInRange(k) && Values(k) == []
    requires !IsIncidentKey(k) && !IsSegmentKey(k) && !IsEdgeKey(k) && !IsCountKey(k) && !k.ChangeLog?
    ensures Tail(k) == Components(k)
  {
    hide Encode;
    hide Id;
    hide EncodeAll;
    hide IdParts;
    NoValue(Ids(k));
  }

  /** Every key prints as the components of its family, joined by slashes, and splits into them. */
  lemma {:induction false} PrintsComponents(cell: string, k: Key)
    requires ValidComponent(cell) && KeyInRange(k)
    ensures Print(cell, k) == Join(["cell", cell] + Components(k), '/')
    ensures Split(Print(cell, k), '/') == ["cell", cell] + Components(k)
  {
    hide Components;
    hide Join;
    hide Tail;
    hide IsIncidentKey;
    hide IsEdgeKey;
    if IsIncidentKey(k) {
      IncidentTail(k);
    } else if IsSegmentKey(k) {
      SegmentTail(k);
    } else if IsEdgeKey(k) {
      EdgeTail(k);
    } else if IsCountKey(k) {
      CountTail(k);
    } else if k.ChangeLog? {
      LogTail(k);
    } else if Values(k) != [] {
      ValueTail(k);
    } else {
      OtherTail(k);
    }
    SplitPrint(cell, k);
  }

  // ----- byte order

  /** Lists of numbers compare by the first place they differ. */
  predicate IdsBefore(a: seq<nat>, b: seq<nat>)
    requires |a| == |b|
  {
    a != [] && (a[0] < b[0] || (a[0] == b[0] && IdsBefore(a[1..], b[1..])))
  }

  lemma {:induction false} IdPartsFront(ids: seq<nat>)
    requires ids != []
    ensures IdParts(ids)[0] == Id(ids[0]) && IdParts(ids)[1..] == IdParts(ids[1..])
  {
  }

  lemma {:induction false} IdsSort(a: seq<nat>, b: seq<nat>)
    requires |a| == |b| && a != []
    requires forall i :: 0 <= i < |a| ==> a[i] <= U64_MAX
    requires forall i :: 0 <= i < |b| ==> b[i] <= U64_MAX
    ensures Before(Join(IdParts(a), '/'), Join(IdParts(b), '/')) <==> IdsBefore(a, b)
  {
    IdPartsFront(a);
    IdPartsFront(b);
    if |a| == 1 {
      IdOrder(a[0], b[0]);
    } else {
      IdsSort(a[1..], b[1..]);
      DecimalWordOrder(a[0], b[0], Join(IdParts(a[1..]), '/'), Join(IdParts(b[1..]), '/'));
    }
  }

  /** The first value, then what follows. */
  lemma {:induction false} ValueSorts(prefix: string, v: Value, a: string, w: Value, b: string)
    requires InRange(v) && InRange(w)
    ensures Before(prefix + (Encode(v) + "/" + a), prefix + (Encode(w) + "/" + b)) <==>
      Tag(v) < Tag(w) || (Tag(v) == Tag(w) && (ValueBefore(v, w) || (v == w && Before(a, b))))
  {
    hide Payload;
    hide Tag;
    hide Before;
    hide ValueBefore;
    BeforePrefix(prefix, Encode(v) + "/" + a, Encode(w) + "/" + b);
    assert Encode(v) + "/" + a == [Tag(v)] + (Payload(v) + "/" + a);
    assert Encode(w) + "/" + b == [Tag(w)] + (Payload(w) + "/" + b);
    BeforeCons(Tag(v), Payload(v) + "/" + a, Tag(w), Payload(w) + "/" + b);
    if Tag(v) == Tag(w) {
      PayloadOrder(v, w, a, b);
    }
  }

  /** Booleans come first, then unsigned and signed numbers, floats and strings. */
  function TypeRank(v: Value): nat {
    match v
    case Bool(_) => 0
    case Integer(_) => 1
    case Signed(_) => 2
    case Float(_) => 3
    case Str(_) => 4
  }

  lemma {:induction false} TagsSort(v: Value, w: Value)
    ensures Tag(v) < Tag(w) <==> TypeRank(v) < TypeRank(w)
    ensures Tag(v) == Tag(w) <==> TypeRank(v) == TypeRank(w)
  {
  }

  /** By type, by value in the order of its type, then by the numbers that follow. */
  predicate EntryBefore(v: Value, a: seq<nat>, w: Value, b: seq<nat>)
    requires |a| == |b|
  {
    TypeRank(v) < TypeRank(w) || (TypeRank(v) == TypeRank(w) && (ValueBefore(v, w) || (v == w && IdsBefore(a, b))))
  }

  ghost predicate AllWords(ids: seq<nat>) { forall i :: 0 <= i < |ids| ==> ids[i] <= U64_MAX }

  lemma {:induction false} EntriesSort(head: seq<string>, v: Value, a: seq<nat>, w: Value, b: seq<nat>)
    requires head != [] && InRange(v) && InRange(w) && |a| == |b| && a != [] && AllWords(a) && AllWords(b)
    ensures Before(Join(head + ([Encode(v)] + IdParts(a)), '/'), Join(head + ([Encode(w)] + IdParts(b)), '/')) <==>
      EntryBefore(v, a, w, b)
  {
    hide Encode;
    hide IdParts;
    hide IdsBefore;
    hide ValueBefore;
    hide Before;
    hide TypeRank;
    EntryText(head, v, a);
    EntryText(head, w, b);
    ValueSorts(Join(head, '/') + "/", v, Join(IdParts(a), '/'), w, Join(IdParts(b), '/'));
    TagsSort(v, w);
    IdsSort(a, b);
  }

  lemma {:induction false} EntryText(head: seq<string>, v: Value, a: seq<nat>)
    requires head != [] && InRange(v) && a != []
    ensures Join(head + ([Encode(v)] + IdParts(a)), '/') ==
      (Join(head, '/') + "/") + (Encode(v) + "/" + Join(IdParts(a), '/'))
  {
    JoinConcat(head, [Encode(v)] + IdParts(a), '/');
    JoinConcat([Encode(v)], IdParts(a), '/');
  }

  /** Two keys that print like this sort like their entries. */
  lemma {:induction false} KeysSort(cell: string, head: seq<string>, j: Key, v: Value, a: seq<nat>, k: Key, w: Value, b: seq<nat>)
    requires ValidComponent(cell) && KeyInRange(j) && KeyInRange(k) && head != [] && InRange(v) && InRange(w)
    requires |a| == |b| && a != [] && AllWords(a) && AllWords(b)
    requires ["cell", cell] + Components(j) == head + ([Encode(v)] + IdParts(a))
    requires ["cell", cell] + Components(k) == head + ([Encode(w)] + IdParts(b))
    ensures Before(Print(cell, j), Print(cell, k)) <==> EntryBefore(v, a, w, b)
  {
    hide Components;
    hide Join;
    hide IdParts;
    hide Encode;
    hide Before;
    PrintsComponents(cell, j);
    PrintsComponents(cell, k);
    EntriesSort(head, v, a, w, b);
  }

  /** The index of a vertex property is stored by type, by value in the order of its type, then by vertex. */
  lemma {:induction false} VertexPropertiesSort(cell: string, property: string, v: Value, i: nat, w: Value, j: nat)
    requires ValidComponent(cell) && ValidComponent(property) && InRange(v) && InRange(w) && i <= U64_MAX && j <= U64_MAX
    ensures KeyInRange(VertexProperty(property, v, i)) && KeyInRange(VertexProperty(property, w, j))
    ensures Before(Print(cell, VertexProperty(property, v, i)), Print(cell, VertexProperty(property, w, j))) <==>
      || TypeRank(v) < TypeRank(w)
      || (TypeRank(v) == TypeRank(w) && (ValueBefore(v, w) || (v == w && i < j)))
  {
    hide Encode;
    hide Before;
    hide Print;
    var head := ["cell", cell, "vprop_idx", property];
    KeysSort(cell, head, VertexProperty(property, v, i), v, [i], VertexProperty(property, w, j), w, [j]);
    assert IdsBefore([i], [j]) <==> i < j;
  }

  lemma {:induction false} PropertyPrefix(cell: string, property: string)
    ensures Join(["cell", cell, "vprop_idx", property], '/') == "cell/" + cell + "/vprop_idx/" + property
  {
    JoinTwo("cell", cell);
    JoinTwo("vprop_idx", property);
    assert ["cell", cell, "vprop_idx", property] == ["cell", cell] + ["vprop_idx", property];
    JoinConcat(["cell", cell], ["vprop_idx", property], '/');
  }

  /** A seek built from a property's prefix and an entry's suffix lands on the entry's key. */
  lemma {:induction false} SeeksItsKey(cell: string, property: string, v: Value, i: nat)
    requires ValidComponent(cell) && ValidComponent(property) && InRange(v) && i <= U64_MAX
    ensures KeyInRange(VertexProperty(property, v, i))
    ensures Print(cell, VertexProperty(property, v, i)) == "cell/" + cell + "/vprop_idx/" + property + "/" + EntrySuffix(v, i)
  {
    hide Encode;
    hide Join;
    hide Print;
    hide Padded;
    var k, head := VertexProperty(property, v, i), ["cell", cell, "vprop_idx", property];
    PrintsComponents(cell, k);
    assert ["cell", cell] + Components(k) == head + [Encode(v), Id(i)];
    JoinConcat(head, [Encode(v), Id(i)], '/');
    JoinTwo(Encode(v), Id(i));
    PropertyPrefix(cell, property);
  }

  /** The index of an edge property, by source and destination where values are the same. */
  lemma {:induction false} EdgePropertiesSort(cell: string, t: string, property: string, v: Value, src: nat, dst: nat,
                                              w: Value, src': nat, dst': nat)
    requires ValidComponent(cell) && ValidComponent(t) && ValidComponent(property) && InRange(v) && InRange(w)
    requires AllWords([src, dst]) && AllWords([src', dst'])
    ensures KeyInRange(EdgeProperty(t, property, v, src, dst)) && KeyInRange(EdgeProperty(t, property, w, src', dst'))
    ensures Before(Print(cell, EdgeProperty(t, property, v, src, dst)), Print(cell, EdgeProperty(t, property, w, src', dst')))
      <==> EntryBefore(v, [src, dst], w, [src', dst'])
  {
    hide Encode;
    hide Before;
    hide Print;
    hide EntryBefore;
    var j, k := EdgeProperty(t, property, v, src, dst), EdgeProperty(t, property, w, src', dst');
    assert Ids(j) == [src, dst] && Ids(k) == [src', dst'];
    NoValue([src, dst]);
    NoValue([src', dst']);
    KeysSort(cell, ["cell", cell, "eprop_idx", t, property], j, v, [src, dst], k, w, [src', dst']);
  }

  /** The index of a relationship property, by source, destination and relationship where values are the same. */
  lemma {:induction false} RelationshipPropertiesSort(cell: string, t: string, property: string, v: Value, a: seq<nat>,
                                                      w: Value, b: seq<nat>)
    requires ValidComponent(cell) && ValidComponent(t) && ValidComponent(property) && InRange(v) && InRange(w)
    requires |a| == |b| == 3 && AllWords(a) && AllWords(b)
    ensures
      var j := RelationshipProperty(t, property, v, a[0], a[1], a[2]);
      var k := RelationshipProperty(t, property, w, b[0], b[1], b[2]);
      KeyInRange(j) && KeyInRange(k) && (Before(Print(cell, j), Print(cell, k)) <==> EntryBefore(v, a, w, b))
  {
    hide Encode;
    hide Before;
    hide Print;
    hide EntryBefore;
    var j := RelationshipProperty(t, property, v, a[0], a[1], a[2]);
    var k := RelationshipProperty(t, property, w, b[0], b[1], b[2]);
    assert Ids(j) == a && Ids(k) == b;
    NoValue(a);
    NoValue(b);
    KeysSort(cell, ["cell", cell, "rprop_idx", t, property], j, v, a, k, w, b);
  }
}
