/**
 Scans of the records incident to one vertex: the scan prefix selects exactly the
 vertex's keys of its family, and the prefix a filter hashes for a key is the one it
 hashes for the scan.
 */
module VertexScans {
  import opened Base
  import opened TextCodec
  import opened PropertyKeys
  import opened Keys

  /** The families of records incident to a vertex. */
  datatype Incident = OutEdges | InEdges | Segments | Tombstones | Relationships

  function IncidentParts(f: Incident): seq<string> {
    match f
    case OutEdges => ["e", "out"]
    case InEdges => ["e", "in"]
    case Segments => ["seg", "out"]
    case Tombstones => ["seg", "tomb", "out"]
    case Relationships => ["rel"]
  }

  /** `out_prefix`, `in_prefix`, `out_segment_src_prefix` and their likes. */
  function ScanPrefix(cell: string, f: Incident, edgeType: string, vertex: nat): string {
    Join(["cell", cell] + IncidentParts(f) + [edgeType, Id(vertex)], '/') + "/"
  }

  /** Whether a key is a record of that family at that vertex. */
  predicate IncidentTo(k: Key, f: Incident, edgeType: string, vertex: nat) {
    match f
    case OutEdges => k.OutEdge? && k.edgeType == edgeType && k.src == vertex
    case InEdges => k.InEdge? && k.edgeType == edgeType && k.dst == vertex
    case Segments => k.OutSegment? && k.edgeType == edgeType && k.src == vertex
    case Tombstones => k.OutTombstone? && k.edgeType == edgeType && k.src == vertex
    case Relationships => k.Relationship? && k.edgeType == edgeType && k.src == vertex
  }

  // ----- prefixes of joined text

  lemma {:induction false} JoinConcat(a: seq<string>, b: seq<string>, sep: char)
    requires a != [] && b != []
    ensures Join(a + b, sep) == Join(a, sep) + [sep] + Join(b, sep)
  {
    if |a| == 1 {
      assert (a + b)[1..] == b;
    } else {
      JoinConcat(a[1..], b, sep);
      assert (a + b)[1..] == a[1..] + b;
      assert a[0] + [sep] + (Join(a[1..], sep) + [sep] + Join(b, sep))
          == a[0] + [sep] + Join(a[1..], sep) + [sep] + Join(b, sep);
    }
  }

  lemma {:induction false} SplitFront(a: seq<string>, rest: string, sep: char)
    requires a != [] && forall i :: 0 <= i < |a| ==> sep !in a[i]
    ensures Split(Join(a, sep) + [sep] + rest, sep) == a + Split(rest, sep)
  {
    if |a| == 1 {
      SplitHead(a[0], rest, sep);
    } else {
      var x, joined, parts := a[0], Join(a[1..], sep), Split(rest, sep);
      SplitFront(a[1..], rest, sep);
      Regroup(x, [sep], joined, rest);
      SplitHead(x, joined + [sep] + rest, sep);
      assert [x] + (a[1..] + parts) == a + parts;
    }
  }

  lemma {:induction false} Regroup(x: string, sep: string, y: string, z: string)
    ensures (x + sep + y) + sep + z == x + sep + (y + sep + z)
  {
  }

  /** Text made of components starts with some of them and a separator exactly when its components do. */
  lemma {:induction false} PrefixMeansComponents(a: seq<string>, b: seq<string>, sep: char)
    requires a != [] && b != []
    requires (forall i :: 0 <= i < |a| ==> sep !in a[i]) && (forall i :: 0 <= i < |b| ==> sep !in b[i])
    ensures Join(a, sep) + [sep] <= Join(b, sep) <==> |a| < |b| && a <= b
  {
    var p, t := Join(a, sep) + [sep], Join(b, sep);
    SplitJoin(b, sep);
    if p <= t {
      var rest := t[|p|..];
      assert t == Join(a, sep) + [sep] + rest;
      SplitFront(a, rest, sep);
      assert b == a + Split(rest, sep);
    }
    if |a| < |b| && a <= b {
      var c := b[|a|..];
      assert b == a + c;
      JoinConcat(a, c, sep);
      assert t == p + Join(c, sep);
    }
  }

  // ----- the vertex's keys

  lemma {:induction false} PartsClean(cell: string, f: Incident, edgeType: string, vertex: nat)
    requires ValidComponent(cell) && ValidComponent(edgeType)
    ensures forall i :: 0 <= i < |IncidentParts(f)| ==> '/' !in IncidentParts(f)[i]
    ensures '/' !in cell && '/' !in edgeType && '/' !in Id(vertex)
  {
  }

  function FamilyFor(f: Incident): Family {
    match f
    case OutEdges => OutRows
    case InEdges => InRows
    case Segments => SegmentRows
    case Tombstones => TombstoneRows
    case Relationships => RelationshipRows
  }

  function NamesFor(f: Incident, edgeType: string): seq<string> {
    if f.Tombstones? then ["out", edgeType] else [edgeType]
  }

  lemma {:induction false} IncidentFamily(f: Incident, edgeType: string, x: string)
    ensures IncidentParts(f) + [edgeType, x] == FamilyParts(FamilyFor(f)) + (NamesFor(f, edgeType) + [x])
  {
  }

  lemma {:induction false} IncidentShape(k: Key, f: Incident)
    requires FamilyOf(k) == FamilyFor(f)
    ensures Ids(k) != [] && Values(k) == [] && |Names(k)| == |NamesFor(f, "")| && |Ids(k)| + |Trailer(k)| >= 2
  {
  }

  /** A key without a value: its names, then its first number, then the others. */
  lemma {:induction false} RestFrom(k: Key)
    requires KeyInRange(k) && Ids(k) != [] && Values(k) == []
    ensures Rest(k) == Names(k) + ([Id(Ids(k)[0])] + (IdParts(Ids(k)[1..]) + Trailer(k)))
  {
    var ids := IdParts(Ids(k));
    var first, others := [Id(Ids(k)[0])], IdParts(Ids(k)[1..]);
    assert ids == first + others;
    assert EncodeAll(Values(k)) == [];
    assert Names(k) + [] + (first + others) + Trailer(k) == Names(k) + (first + (others + Trailer(k)));
  }

  lemma {:induction false} IncidentMeans(k: Key, f: Incident, edgeType: string, vertex: nat)
    requires KeyInRange(k)
    ensures IncidentTo(k, f, edgeType, vertex) <==>
      FamilyOf(k) == FamilyFor(f) && Names(k) == NamesFor(f, edgeType) && Ids(k) != [] && Ids(k)[0] == vertex
  {
  }

  /** A key whose components begin like those of an incident record is one. */
  lemma {:induction false} BeginsLike(k: Key, f: Incident, names: seq<string>, x: string, rest: seq<string>)
    requires KeyInRange(k) && |names| == |NamesFor(f, "")|
    requires FamilyParts(FamilyFor(f)) + (names + ([x] + rest)) == FamilyParts(FamilyOf(k)) + Rest(k)
    ensures FamilyOf(k) == FamilyFor(f) && Names(k) == names && Ids(k) != [] && Id(Ids(k)[0]) == x
  {
    var back := names + ([x] + rest);
    FamilyTold(FamilyFor(f), back, FamilyOf(k), Rest(k));
    IncidentShape(k, f);
    RestFrom(k);
    var n := |FamilyParts(FamilyOf(k))|;
    assert back == (FamilyParts(FamilyFor(f)) + back)[n..] && Rest(k) == (FamilyParts(FamilyOf(k)) + Rest(k))[n..];
    assert names == back[..|names|] && Names(k) == Rest(k)[..|names|];
    assert x == back[|names|] && Id(Ids(k)[0]) == Rest(k)[|names|];
  }

  lemma {:induction false} TailSelects(k: Key, f: Incident, edgeType: string, vertex: nat)
    requires KeyInRange(k) && vertex <= U64_MAX
    ensures
      var a := IncidentParts(f) + [edgeType, Id(vertex)];
      |a| < |Tail(k)| && a <= Tail(k) <==> IncidentTo(k, f, edgeType, vertex)
  {
    IncidentMeans(k, f, edgeType, vertex);
    var a := IncidentParts(f) + [edgeType, Id(vertex)];
    if a <= Tail(k) {
      SelectedIsIncident(k, f, edgeType, vertex, Tail(k)[|a|..]);
    }
    if IncidentTo(k, f, edgeType, vertex) {
      IncidentIsSelected(k, f, edgeType, vertex);
    }
  }

  lemma {:induction false} SelectedIsIncident(k: Key, f: Incident, edgeType: string, vertex: nat, rest: seq<string>)
    requires KeyInRange(k) && vertex <= U64_MAX
    requires Tail(k) == IncidentParts(f) + [edgeType, Id(vertex)] + rest
    ensures FamilyOf(k) == FamilyFor(f) && Names(k) == NamesFor(f, edgeType) && Ids(k) != [] && Ids(k)[0] == vertex
  {
    IncidentFamily(f, edgeType, Id(vertex));
    var names, x := NamesFor(f, edgeType), Id(vertex);
    Regrouped(FamilyParts(FamilyFor(f)), names, x, rest);
    BeginsLike(k, f, names, x, rest);
    IdInjective(Ids(k)[0], vertex);
  }

  lemma {:induction false} Regrouped(front: seq<string>, names: seq<string>, x: string, rest: seq<string>)
    ensures front + (names + [x]) + rest == front + (names + ([x] + rest))
  {
  }

  lemma {:induction false} IncidentIsSelected(k: Key, f: Incident, edgeType: string, vertex: nat)
    requires KeyInRange(k) && vertex <= U64_MAX
    requires FamilyOf(k) == FamilyFor(f) && Names(k) == NamesFor(f, edgeType) && Ids(k) != [] && Ids(k)[0] == vertex
    ensures
      var a := IncidentParts(f) + [edgeType, Id(vertex)];
      |a| < |Tail(k)| && a <= Tail(k)
  {
    IncidentFamily(f, edgeType, Id(vertex));
    IncidentShape(k, f);
    RestFrom(k);
    Regrouped(FamilyParts(FamilyFor(f)), NamesFor(f, edgeType), Id(vertex), IdParts(Ids(k)[1..]) + Trailer(k));
  }

  lemma {:induction false} UnderHeads(h: string, c: string, tail: seq<string>, o: string, rest: seq<string>)
    ensures
      var a, b := [h, c] + tail, [h, o] + rest;
      |a| < |b| && a <= b <==> c == o && |tail| < |rest| && tail <= rest
  {
    var a, b := [h, c] + tail, [h, o] + rest;
    if |a| < |b| && a <= b {
      assert a[1] == b[1];
      forall i | 0 <= i < |tail| ensures tail[i] == rest[i] {
        assert a[i + 2] == b[i + 2];
      }
    }
  }

  /** The scan prefix of a vertex selects exactly the vertex's keys of that family in that cell. */
  lemma {:induction false} ScanSelects(cell: string, f: Incident, edgeType: string, vertex: nat, other: string, k: Key)
    requires ValidComponent(cell) && ValidComponent(edgeType) && vertex <= U64_MAX
    requires ValidComponent(other) && KeyInRange(k)
    ensures ScanPrefix(cell, f, edgeType, vertex) <= Print(other, k) <==>
      cell == other && IncidentTo(k, f, edgeType, vertex)
  {
    var tail := IncidentParts(f) + [edgeType, Id(vertex)];
    var a, b := ["cell", cell] + tail, ["cell", other] + Tail(k);
    assert a == ["cell", cell] + IncidentParts(f) + [edgeType, Id(vertex)];
    AllClean(cell, f, edgeType, vertex);
    PrintClean(other, k);
    PrefixMeansComponents(a, b, '/');
    UnderHeads("cell", cell, tail, other, Tail(k));
    TailSelects(k, f, edgeType, vertex);
  }

  lemma {:induction false} AllClean(cell: string, f: Incident, edgeType: string, vertex: nat)
    requires ValidComponent(cell) && ValidComponent(edgeType)
    ensures
      var a := ["cell", cell] + (IncidentParts(f) + [edgeType, Id(vertex)]);
      forall i :: 0 <= i < |a| ==> '/' !in a[i]
  {
  }

  lemma {:induction false} PrintClean(cell: string, k: Key)
    requires ValidComponent(cell) && KeyInRange(k)
    ensures
      var b := ["cell", cell] + Tail(k);
      forall i :: 0 <= i < |b| ==> '/' !in b[i]
  {
    var b := ["cell", cell] + Tail(k);
    ComponentHasNone(cell, '/');
    forall i | 0 <= i < |b| ensures '/' !in b[i] {
      if i >= 2 {
        assert b[i] == Tail(k)[i - 2];
        TailClean(k, i - 2);
      }
    }
  }

  // ----- the filter's prefix

  /** Where the first separator at or after `from` is: `position` on the rest of the input, counted from its start. */
  function Position(s: string, c: char, from: nat): (i: Option<nat>)
    ensures i.Some? ==> from <= i.value < |s| && s[i.value] == c
    decreases |s| - from
  {
    if from >= |s| then None
    else if s[from] == c then Some(from)
    else Position(s, c, from + 1)
  }

  /** The first of several places is found. */
  lemma {:induction false} PositionIs(s: string, c: char, from: nat, at: nat)
    requires from <= at < |s| && s[at] == c && forall i :: from <= i < at ==> s[i] != c
    ensures Position(s, c, from) == Some(at)
    decreases |s| - from
  {
    if from < at {
      PositionIs(s, c, from + 1, at);
    }
  }

  lemma {:induction false} PositionFirst(s: string, c: char, from: nat, i: nat)
    requires Position(s, c, from).Some? && from <= i < Position(s, c, from).value
    ensures s[i] != c
    decreases i - from
  {
    if from < i {
      PositionFirst(s, c, from + 1, i);
    }
  }

  lemma {:induction false} PositionExtends(s: string, more: string, c: char, from: nat)
    requires Position(s, c, from).Some?
    ensures Position(s + more, c, from) == Position(s, c, from)
  {
    var at := Position(s, c, from).value;
    forall i | from <= i < at ensures (s + more)[i] != c {
      PositionFirst(s, c, from, i);
    }
    PositionIs(s + more, c, from, at);
  }

  const CELL_PREFIX := "cell/"

  /** `locality_cell_prefix_len`. */
  function CellPrefixLen(key: string): (n: Option<nat>)
    ensures n.Some? ==> n.value <= |key|
  {
    if !(CELL_PREFIX <= key) then None
    else
      var end := Position(key, '/', |CELL_PREFIX|);
      if end.None? || end.value == |CELL_PREFIX| then None else Some(end.value + 1)
  }

  const FAMILIES := ["e/out/", "e/in/", "seg/out/", "seg/tomb/out/", "rel/"]

  /** The first family the text starts with. */
  function FindFamily(suffix: string, from: nat): (family: Option<string>)
    ensures family.Some? ==> family.value <= suffix && family.value in FAMILIES
    decreases |FAMILIES| - from
  {
    if from >= |FAMILIES| then None
    else if FAMILIES[from] <= suffix then Some(FAMILIES[from])
    else FindFamily(suffix, from + 1)
  }

  /** The end of two complete components from `start`. */
  function TwoComponents(input: string, start: nat): (n: Option<nat>)
    requires start <= |input|
    ensures n.Some? ==> n.value <= |input|
  {
    var typeEnd := Position(input, '/', start);
    if typeEnd.None? then None
    else
      var vertexEnd := Position(input, '/', typeEnd.value + 1);
      if vertexEnd.None? then None else Some(vertexEnd.value + 1)
  }

  /** `IncidentPrefixExtractor::prefix_len`. */
  function PrefixLen(input: string): (n: Option<nat>)
    ensures n.Some? ==> n.value <= |input|
  {
    var cellLen := CellPrefixLen(input);
    if cellLen.None? then None
    else
      var family := FindFamily(input[cellLen.value..], 0);
      if family.None? then None
      else TwoComponents(input, cellLen.value + |family.value|)
  }

  // ----- the filter never hides a match

  /** No family name begins another. */
  lemma {:induction false} OneFamily(i: nat, j: nat, text: string)
    requires i < |FAMILIES| && j < |FAMILIES| && FAMILIES[i] <= text && FAMILIES[j] <= text
    ensures i == j
  {
    assert text[0] == FAMILIES[i][0] == FAMILIES[j][0];
    assert text[2] == FAMILIES[i][2] == FAMILIES[j][2];
    if text[0] == 's' {
      assert text[4] == FAMILIES[i][4] == FAMILIES[j][4];
    }
  }

  lemma {:induction false} FamilyFound(suffix: string, from: nat, i: nat)
    requires from <= i < |FAMILIES| && FAMILIES[i] <= suffix
    ensures FindFamily(suffix, from) == Some(FAMILIES[i])
    decreases |FAMILIES| - from
  {
    if FAMILIES[from] <= suffix {
      OneFamily(from, i, suffix);
    } else {
      FamilyFound(suffix, from + 1, i);
    }
  }

  lemma {:induction false} FamilyExtends(suffix: string, more: string)
    requires FindFamily(suffix, 0).Some?
    ensures FindFamily(suffix + more, 0) == FindFamily(suffix, 0)
  {
    var i :| 0 <= i < |FAMILIES| && FAMILIES[i] == FindFamily(suffix, 0).value;
    assert FAMILIES[i] <= suffix <= suffix + more;
    FamilyFound(suffix, 0, i);
    FamilyFound(suffix + more, 0, i);
  }

  lemma {:induction false} CellExtends(key: string, more: string)
    requires CellPrefixLen(key).Some?
    ensures CellPrefixLen(key + more) == CellPrefixLen(key)
  {
    PositionExtends(key, more, '/', |CELL_PREFIX|);
  }

  lemma {:induction false} ComponentsExtend(input: string, more: string, start: nat)
    requires start <= |input| && TwoComponents(input, start).Some?
    ensures TwoComponents(input + more, start) == TwoComponents(input, start)
  {
    PositionExtends(input, more, '/', start);
    PositionExtends(input, more, '/', Position(input, '/', start).value + 1);
  }

  lemma {:induction false} TailExtends(input: string, more: string, i: nat)
    requires i <= |input|
    ensures (input + more)[i..] == input[i..] + more
  {
  }

  /**
   Once the extractor returns a length it returns the same one for every extension, so the
   prefix hashed for a scan is the prefix hashed for every key the scan could find.
   */
  lemma {:induction false} PrefixLenExtends(input: string, more: string)
    requires PrefixLen(input).Some?
    ensures PrefixLen(input + more) == PrefixLen(input)
    ensures (input + more)[..PrefixLen(input).value] == input[..PrefixLen(input).value]
  {
    CellExtends(input, more);
    var cellLen := CellPrefixLen(input).value;
    var suffix := input[cellLen..];
    TailExtends(input, more, cellLen);
    FamilyExtends(suffix, more);
    var start := cellLen + |FindFamily(suffix, 0).value|;
    ComponentsExtend(input, more, start);
  }

  lemma {:induction false} PositionAfter(front: string, part: string, rest: string)
    requires '/' !in part
    ensures Position(front + (part + "/" + rest), '/', |front|) == Some(|front| + |part|)
  {
    var s, at := front + (part + "/" + rest), |front| + |part|;
    assert s[at] == '/';
    forall i | |front| <= i < at ensures s[i] != '/' {
      assert s[i] == part[i - |front|];
    }
    PositionIs(s, '/', |front|, at);
  }

  function FamilyIndex(f: Incident): nat {
    match f
    case OutEdges => 0
    case InEdges => 1
    case Segments => 2
    case Tombstones => 3
    case Relationships => 4
  }

  lemma {:induction false} FamilyText(f: Incident)
    ensures Join(IncidentParts(f), '/') + "/" == FAMILIES[FamilyIndex(f)]
  {
    if f.Tombstones? {
      JoinConcat(["seg"], ["tomb", "out"], '/');
      assert IncidentParts(f) == ["seg"] + ["tomb", "out"];
    }
  }

  lemma {:induction false} JoinTwo(a: string, b: string)
    ensures Join([a, b], '/') == a + "/" + b
  {
  }

  lemma {:induction false} JoinThree(head: seq<string>, mid: seq<string>, last: seq<string>)
    requires head != [] && mid != [] && last != []
    ensures Join(head + mid + last, '/') == Join(head, '/') + "/" + Join(mid, '/') + "/" + Join(last, '/')
  {
    JoinConcat(head, mid, '/');
    JoinConcat(head + mid, last, '/');
  }

  lemma {:induction false} Assoc(c: string, f: string, t: string, v: string)
    ensures ("cell" + "/" + c) + "/" + f + "/" + (t + "/" + v) + "/"
         == CELL_PREFIX + (c + "/" + ((f + "/") + (t + "/" + (v + "/" + ""))))
  {
  }

  /** The scan prefix written out. */
  lemma {:induction false} ScanPrefixText(cell: string, f: Incident, edgeType: string, vertex: nat)
    ensures ScanPrefix(cell, f, edgeType, vertex)
         == CELL_PREFIX + (cell + "/" + (FAMILIES[FamilyIndex(f)] + (edgeType + "/" + (Id(vertex) + "/" + ""))))
  {
    JoinThree(["cell", cell], IncidentParts(f), [edgeType, Id(vertex)]);
    JoinTwo("cell", cell);
    JoinTwo(edgeType, Id(vertex));
    FamilyText(f);
    Assoc(cell, Join(IncidentParts(f), '/'), edgeType, Id(vertex));
  }

  lemma {:induction false} CellPart(cell: string, suffix: string)
    requires cell != "" && '/' !in cell
    ensures
      var p := CELL_PREFIX + (cell + "/" + suffix);
      CellPrefixLen(p) == Some(|CELL_PREFIX| + |cell| + 1) && p[|CELL_PREFIX| + |cell| + 1..] == suffix
  {
    PositionAfter(CELL_PREFIX, cell, suffix);
  }

  lemma {:induction false} TwoParts(front: string, a: string, b: string)
    requires '/' !in a && '/' !in b
    ensures
      var p := front + (a + "/" + (b + "/" + ""));
      TwoComponents(p, |front|) == Some(|p|)
  {
    var last := b + "/" + "";
    PositionAfter(front, a, last);
    assert front + (a + "/" + last) == (front + a + "/") + last;
    PositionAfter(front + a + "/", b, "");
  }

  /** The extractor takes a vertex scan's whole prefix. */
  lemma {:induction false} ScanPrefixIsHashed(cell: string, f: Incident, edgeType: string, vertex: nat)
    requires ValidComponent(cell) && ValidComponent(edgeType)
    ensures
      var p := ScanPrefix(cell, f, edgeType, vertex);
      PrefixLen(p) == Some(|p|)
  {
    PartsClean(cell, f, edgeType, vertex);
    ScanPrefixText(cell, f, edgeType, vertex);
    HashedText(cell, FAMILIES[FamilyIndex(f)], FamilyIndex(f), edgeType, Id(vertex));
  }

  lemma {:induction false} HashedText(cell: string, family: string, i: nat, a: string, b: string)
    requires cell != "" && '/' !in cell && i < |FAMILIES| && FAMILIES[i] == family && '/' !in a && '/' !in b
    ensures
      var p := CELL_PREFIX + (cell + "/" + (family + (a + "/" + (b + "/" + ""))));
      PrefixLen(p) == Some(|p|)
  {
    Hashed(cell, family, i, a + "/" + (b + "/" + ""), a, b);
  }

  lemma {:induction false} Hashed(cell: string, family: string, i: nat, tail: string, a: string, b: string)
    requires cell != "" && '/' !in cell && i < |FAMILIES| && FAMILIES[i] == family && '/' !in a && '/' !in b
    requires tail == a + "/" + (b + "/" + "")
    ensures
      var p := CELL_PREFIX + (cell + "/" + (family + tail));
      PrefixLen(p) == Some(|p|)
  {
    var suffix := family + tail;
    CellPart(cell, suffix);
    FamilyFound(suffix, 0, i);
    var front := CELL_PREFIX + (cell + "/" + family);
    FrontOf(cell, family, tail);
    TwoParts(front, a, b);
  }

  lemma {:induction false} FrontOf(cell: string, family: string, tail: string)
    ensures CELL_PREFIX + (cell + "/" + (family + tail)) == (CELL_PREFIX + (cell + "/" + family)) + tail
  {
  }

  /** For every record incident to a vertex the filter hashes exactly the vertex's scan prefix. */
  lemma {:induction false} FilterKeepsMatches(cell: string, f: Incident, edgeType: string, vertex: nat, k: Key)
    requires ValidComponent(cell) && ValidComponent(edgeType) && vertex <= U64_MAX
    requires KeyInRange(k) && IncidentTo(k, f, edgeType, vertex)
    ensures
      var p := ScanPrefix(cell, f, edgeType, vertex);
      PrefixLen(Print(cell, k)) == Some(|p|) && Print(cell, k)[..|p|] == p
  {
    ScanSelects(cell, f, edgeType, vertex, cell, k);
    ScanPrefixIsHashed(cell, f, edgeType, vertex);
    SameHash(ScanPrefix(cell, f, edgeType, vertex), Print(cell, k));
  }

  lemma {:induction false} SameHash(p: string, text: string)
    requires p <= text && PrefixLen(p) == Some(|p|)
    ensures PrefixLen(text) == Some(|p|) && text[..|p|] == p
  {
    assert text == p + text[|p|..];
    PrefixLenExtends(p, text[|p|..]);
  }

  // ----- exactly which prefixes are hashed

  /** A cell, a family of records incident to vertices, an edge type and a vertex, each complete. */
  predicate HashedForm(p: string, cell: string, family: string, edgeType: string, vertex: string) {
    && p == "cell/" + (cell + "/" + (family + (edgeType + "/" + (vertex + "/" + ""))))
    && cell != "" && '/' !in cell && '/' !in edgeType && '/' !in vertex
    && family in ["e/out/", "e/in/", "seg/out/", "seg/tomb/out/", "rel/"]
  }

  ghost predicate HasHashedForm(p: string) {
    exists cell, family, edgeType, vertex :: HashedForm(p, cell, family, edgeType, vertex)
  }

  lemma {:induction false} FormIsHashed(p: string, cell: string, family: string, edgeType: string, vertex: string)
    requires HashedForm(p, cell, family, edgeType, vertex)
    ensures PrefixLen(p) == Some(|p|)
  {
    var i :| 0 <= i < |FAMILIES| && FAMILIES[i] == family;
    HashedText(cell, family, i, edgeType, vertex);
  }

  lemma {:induction false} UpToPosition(s: string, c: char, from: nat)
    requires Position(s, c, from).Some?
    ensures c !in s[from..Position(s, c, from).value]
  {
    var at := Position(s, c, from).value;
    forall i | from <= i < at ensures s[i] != c {
      PositionFirst(s, c, from, i);
    }
  }

  lemma {:induction false} TwoComponentsAre(input: string, start: nat, n: nat)
    requires start <= |input| && TwoComponents(input, start) == Some(n)
    ensures start <= n <= |input|
    ensures exists a, b :: '/' !in a && '/' !in b && input[start..n] == a + "/" + (b + "/" + "")
  {
    var at := Position(input, '/', start).value;
    var end := Position(input, '/', at + 1).value;
    UpToPosition(input, '/', start);
    UpToPosition(input, '/', at + 1);
    var a, b := input[start..at], input[at + 1..end];
    assert input[at] == input[end] == '/' && n == end + 1;
    assert input[at + 1..n] == b + "/" + "";
    assert input[start..n] == a + "/" + input[at + 1..n];
    assert input[start..n] == a + "/" + (b + "/" + "");
  }

  lemma {:induction false} CellIs(input: string, n: nat)
    requires CellPrefixLen(input) == Some(n)
    ensures n <= |input| && exists cell :: cell != "" && '/' !in cell && input[..n] == "cell/" + (cell + "/")
  {
    UpToPosition(input, '/', |CELL_PREFIX|);
    var cell := input[5..n - 1];
    assert input[..n] == input[..5] + (cell + "/");
  }

  lemma {:induction false} Regrouping(cell: string, family: string, tail: string)
    ensures ("cell/" + (cell + "/")) + family + tail == "cell/" + (cell + "/" + (family + tail))
  {
  }

  lemma {:induction false} FormOf(input: string, n: nat, at: nat, family: string, cell: string, a: string, b: string)
    requires at + |family| <= n <= |input| && family <= input[at..] && family in FAMILIES
    requires cell != "" && '/' !in cell && input[..at] == "cell/" + (cell + "/")
    requires '/' !in a && '/' !in b && input[at + |family|..n] == a + "/" + (b + "/" + "")
    ensures HashedForm(input[..n], cell, family, a, b)
  {
    assert input[..n] == input[..at] + input[at..at + |family|] + input[at + |family|..n];
    assert input[at..at + |family|] == family;
    Regrouping(cell, family, a + "/" + (b + "/" + ""));
  }

  lemma {:induction false} HashedHasForm(input: string, n: nat)
    requires PrefixLen(input) == Some(n)
    ensures n <= |input| && HasHashedForm(input[..n])
  {
    hide CellPrefixLen;
    hide TwoComponents;
    hide FindFamily;
    hide HashedForm;
    var at := CellPrefixLen(input).value;
    var family := FindFamily(input[at..], 0).value;
    CellIs(input, at);
    TwoComponentsAre(input, at + |family|, n);
    var cell :| cell != "" && '/' !in cell && input[..at] == "cell/" + (cell + "/");
    var a, b :| '/' !in a && '/' !in b && input[at + |family|..n] == a + "/" + (b + "/" + "");
    FormOf(input, n, at, family, cell, a, b);
  }

  /**
   Of any input whatever, the extractor takes the first `n` characters exactly when they are a cell, one of the five
   families, an edge type and a vertex, each closed by its separator.
   */
  lemma {:induction false} PrefixLenExactly(input: string, n: nat)
    ensures PrefixLen(input) == Some(n) <==> n <= |input| && HasHashedForm(input[..n])
  {
    hide PrefixLen;
    hide HashedForm;
    if PrefixLen(input) == Some(n) {
      HashedHasForm(input, n);
    }
    if n <= |input| && HasHashedForm(input[..n]) {
      var p := input[..n];
      var cell, family, edgeType, vertex :| HashedForm(p, cell, family, edgeType, vertex);
      FormIsHashed(p, cell, family, edgeType, vertex);
      PrefixLenExtends(p, input[n..]);
      assert p + input[n..] == input;
    }
  }
}
