/**
 Reading a vertex's outgoing edges at an epoch: single edge records, segments of
 destinations written at a sequence number, and tombstones. The segment scan stops at
 the first segment past the epoch, which relies on the byte order of the keys.
 */
module SegmentReads {
  import opened Base
  import opened TextCodec
  import opened PropertyKeys
  import opened Keys
  import opened VertexScans

  datatype StoredValue = EdgeMark | Epoch(n: nat) | Destinations(dsts: seq<nat>) | Garbage

  /** A stored pair: the text of the key and the value. */
  datatype Pair = Pair(text: string, value: StoredValue)

  // ----- reading keys

  datatype SegmentId = SegmentId(cell: string, edgeType: string, src: nat, sequence: nat)

  datatype EdgeId = EdgeId(cell: string, edgeType: string, src: nat, dst: nat)

  function BothNumbers(a: string, b: string): Option<(nat, nat)> {
    if ParseU64(a).Some? && ParseU64(b).Some? then Some((ParseU64(a).value, ParseU64(b).value)) else None
  }

  /** `parse_out_edge_segment_key`. */
  function ParseSegmentKey(text: string): Option<SegmentId> {
    var p := Split(text, '/');
    if |p| == 8 && p[0] == "cell" && p[2] == "seg" && p[3] == "out"
       && ValidComponent(p[1]) && ValidComponent(p[4]) && ValidComponent(p[7]) && BothNumbers(p[5], p[6]).Some?
    then
      var (src, sequence) := BothNumbers(p[5], p[6]).value;
      Some(SegmentId(p[1], p[4], src, sequence))
    else None
  }

  /** `parse_out_edge_segment_tombstone_key`. */
  function ParseTombstoneKey(text: string): Option<EdgeId> {
    var p := Split(text, '/');
    if |p| == 8 && p[0] == "cell" && p[2] == "seg" && p[3] == "tomb" && p[4] == "out"
       && ValidComponent(p[1]) && ValidComponent(p[5]) && BothNumbers(p[6], p[7]).Some?
    then
      var (src, dst) := BothNumbers(p[6], p[7]).value;
      Some(EdgeId(p[1], p[5], src, dst))
    else None
  }

  /** The cell, type, source and destination in the parts of an edge record's key. */
  function EdgeFields(p: seq<string>): Option<(string, string, string, string)> {
    if |p| == 6 && p[0] == "cell" && p[2] == "edge" then Some((p[1], p[3], p[4], p[5]))
    else if |p| == 7 && p[0] == "cell" && p[2] == "e" && p[3] == "out" then Some((p[1], p[4], p[5], p[6]))
    else if |p| == 7 && p[0] == "cell" && p[2] == "e" && p[3] == "in" then Some((p[1], p[4], p[6], p[5]))
    else None
  }

  /** `parse_edge_record_key`. */
  function ParseEdgeKey(text: string): Option<EdgeId> {
    match EdgeFields(Split(text, '/'))
    case None => None
    case Some((cell, edgeType, src, dst)) =>
      if ValidComponent(cell) && ValidComponent(edgeType) && BothNumbers(src, dst).Some?
      then Some(EdgeId(cell, edgeType, BothNumbers(src, dst).value.0, BothNumbers(src, dst).value.1))
      else None
  }

  lemma {:induction false} SegmentParts(cell: string, t: string, s: nat, n: nat, g: string)
    requires KeyInRange(OutSegment(t, s, n, g))
    ensures ["cell", cell] + Tail(OutSegment(t, s, n, g)) == ["cell", cell, "seg", "out", t, Id(s), Id(n), g]
  {
    var k := OutSegment(t, s, n, g);
    assert EncodeAll(Values(k)) == [];
    assert IdParts(Ids(k)) == [Id(s), Id(n)];
  }

  lemma {:induction false} ReadSegmentKey(cell: string, t: string, s: nat, n: nat, g: string)
    requires ValidComponent(cell) && KeyInRange(OutSegment(t, s, n, g))
    ensures ParseSegmentKey(Print(cell, OutSegment(t, s, n, g))) == Some(SegmentId(cell, t, s, n))
  {
    var k := OutSegment(t, s, n, g);
    SplitPrint(cell, k);
    assert Names(k)[0] == t && Ids(k)[0] == s && Ids(k)[1] == n;
    SegmentParts(cell, t, s, n, g);
    ParsePadded(s);
    ParsePadded(n);
  }

  lemma {:induction false} TombstoneParts(cell: string, t: string, s: nat, d: nat)
    requires KeyInRange(OutTombstone(t, s, d))
    ensures ["cell", cell] + Tail(OutTombstone(t, s, d)) == ["cell", cell, "seg", "tomb", "out", t, Id(s), Id(d)]
  {
    var k := OutTombstone(t, s, d);
    assert EncodeAll(Values(k)) == [];
    assert IdParts(Ids(k)) == [Id(s), Id(d)];
  }

  lemma {:induction false} ReadTombstoneKey(cell: string, t: string, s: nat, d: nat)
    requires ValidComponent(cell) && KeyInRange(OutTombstone(t, s, d))
    ensures ParseTombstoneKey(Print(cell, OutTombstone(t, s, d))) == Some(EdgeId(cell, t, s, d))
  {
    var k := OutTombstone(t, s, d);
    SplitPrint(cell, k);
    assert Names(k)[1] == t && Ids(k)[0] == s && Ids(k)[1] == d;
    TombstoneParts(cell, t, s, d);
    ParsePadded(s);
    ParsePadded(d);
  }

  lemma {:induction false} EdgeParts(cell: string, t: string, s: nat, d: nat)
    requires KeyInRange(OutEdge(t, s, d))
    ensures ["cell", cell] + Tail(OutEdge(t, s, d)) == ["cell", cell, "e", "out", t, Id(s), Id(d)]
  {
    var k := OutEdge(t, s, d);
    assert EncodeAll(Values(k)) == [];
    assert IdParts(Ids(k)) == [Id(s), Id(d)];
  }

  lemma {:induction false} ReadEdgeKey(cell: string, t: string, s: nat, d: nat)
    requires ValidComponent(cell) && KeyInRange(OutEdge(t, s, d))
    ensures ParseEdgeKey(Print(cell, OutEdge(t, s, d))) == Some(EdgeId(cell, t, s, d))
  {
    var k := OutEdge(t, s, d);
    SplitPrint(cell, k);
    assert Names(k)[0] == t && Ids(k)[0] == s && Ids(k)[1] == d;
    EdgeParts(cell, t, s, d);
    ParsePadded(s);
    ParsePadded(d);
  }

  // ----- the scans

  /** `scan_prefix`: the pairs whose key starts with the prefix, in key order. */
  function Scan(store: seq<Pair>, prefix: string): seq<Pair> {
    if store == [] then []
    else if prefix <= store[0].text then [store[0]] + Scan(store[1..], prefix)
    else Scan(store[1..], prefix)
  }

  /** Reads one tombstone row; None when it is corrupt. */
  function TombstoneStep(tombs: map<nat, nat>, row: Pair, want: EdgeId, epoch: nat): Option<map<nat, nat>> {
    var id := ParseTombstoneKey(row.text);
    if id.None? || id.value.(dst := want.dst) != want || !row.value.Epoch? then None
    else if row.value.n <= epoch then Some(tombs[id.value.dst := row.value.n])
    else Some(tombs)
  }

  function Tombstones(tombs: map<nat, nat>, rows: seq<Pair>, want: EdgeId, epoch: nat): Option<map<nat, nat>>
    decreases |rows|
  {
    if rows == [] then Some(tombs)
    else
      var next := TombstoneStep(tombs, rows[0], want, epoch);
      if next.None? then None else Tombstones(next.value, rows[1..], want, epoch)
  }

  /** `segment_edge_visible`. */
  predicate Visible(sequence: nat, tombs: map<nat, nat>, dst: nat) {
    dst in tombs ==> sequence > tombs[dst]
  }

  function AddDestination(edges: map<nat, nat>, tombs: map<nat, nat>, sequence: nat, dst: nat): map<nat, nat> {
    if Visible(sequence, tombs, dst) then
      edges[dst := if dst in edges then Max(edges[dst], sequence) else sequence]
    else edges
  }

  function AddSegment(edges: map<nat, nat>, tombs: map<nat, nat>, sequence: nat, dsts: seq<nat>): map<nat, nat>
    decreases |dsts|
  {
    if dsts == [] then edges
    else AddSegment(AddDestination(edges, tombs, sequence, dsts[0]), tombs, sequence, dsts[1..])
  }

  function ReadSegment(row: Pair): Option<(nat, seq<nat>)> {
    var id := ParseSegmentKey(row.text);
    if id.Some? && row.value.Destinations? then Some((id.value.sequence, row.value.dsts)) else None
  }

  /** Adds segments in scan order, up to the first one past the epoch. */
  function Segments(edges: map<nat, nat>, tombs: map<nat, nat>, rows: seq<Pair>, epoch: nat): Option<map<nat, nat>>
    decreases |rows|
  {
    if rows == [] then Some(edges)
    else
      var segment := ReadSegment(rows[0]);
      if segment.None? then None
      else
        var (sequence, dsts) := segment.value;
        if sequence > epoch then Some(edges)
        else Segments(AddSegment(edges, tombs, sequence, dsts), tombs, rows[1..], epoch)
  }

  /** `out_segment_edges_for_src_txn`: each destination's epoch, or None for a corrupt row. */
  function SegmentEdges(store: seq<Pair>, cell: string, edgeType: string, src: nat, epoch: nat): Option<map<nat, nat>> {
    var tombs := Tombstones(map[], Scan(store, ScanPrefix(cell, Incident.Tombstones, edgeType, src)),
                            EdgeId(cell, edgeType, src, 0), epoch);
    if tombs.None? then None
    else Segments(map[], tombs.value, Scan(store, ScanPrefix(cell, Incident.Segments, edgeType, src)), epoch)
  }

  method ScanTombstones(rows: seq<Pair>, want: EdgeId, epoch: nat) returns (r: Option<map<nat, nat>>)
    ensures r == Tombstones(map[], rows, want, epoch)
  {
    var tombs: map<nat, nat> := map[];
    ghost var all := Tombstones(map[], rows, want, epoch);
    assert rows[0..] == rows;
    for i := 0 to |rows|
      invariant all == Tombstones(tombs, rows[i..], want, epoch)
    {
      assert rows[i..][1..] == rows[i + 1..];
      var next := TombstoneStep(tombs, rows[i], want, epoch);
      if next.None? {
        return None;
      }
      tombs := next.value;
    }
    r := Some(tombs);
  }

  method ScanSegments(tombs: map<nat, nat>, rows: seq<Pair>, epoch: nat) returns (r: Option<map<nat, nat>>)
    ensures r == Segments(map[], tombs, rows, epoch)
  {
    var edges: map<nat, nat> := map[];
    ghost var all := Segments(map[], tombs, rows, epoch);
    assert rows[0..] == rows;
    for i := 0 to |rows|
      invariant all == Segments(edges, tombs, rows[i..], epoch)
    {
      assert rows[i..][1..] == rows[i + 1..];
      var segment := ReadSegment(rows[i]);
      if segment.None? {
        return None;
      }
      var (sequence, dsts) := segment.value;
      if sequence > epoch {
        break;
      }
      ghost var added := AddSegment(edges, tombs, sequence, dsts);
      assert dsts[0..] == dsts;
      for j := 0 to |dsts|
        invariant added == AddSegment(edges, tombs, sequence, dsts[j..])
      {
        assert dsts[j..][1..] == dsts[j + 1..];
        var dst := dsts[j];
        if Visible(sequence, tombs, dst) {
          edges := edges[dst := if dst in edges then Max(edges[dst], sequence) else sequence];
        }
      }
    }
    r := Some(edges);
  }

  // ----- well-formed stores

  /** A stored pair together with what its key stands for. */
  datatype Entry = Entry(text: string, cell: string, key: Key, value: StoredValue)

  /** Values are of the kind their keys call for. */
  predicate KindOk(e: Entry) {
    && (e.key.OutEdge? ==> e.value.EdgeMark?)
    && (e.key.OutTombstone? ==> e.value.Epoch?)
    && (e.key.OutSegment? ==> e.value.Destinations?)
  }

  /** The key text is that of the key. */
  ghost predicate TextOk(e: Entry) {
    ValidComponent(e.cell) && KeyInRange(e.key) && e.text == Print(e.cell, e.key)
  }

  ghost predicate KindsOk(es: seq<Entry>) { forall i :: 0 <= i < |es| ==> KindOk(es[i]) }

  ghost predicate TextsOk(es: seq<Entry>) { forall i :: 0 <= i < |es| ==> TextOk(es[i]) }

  /** Stored in strict byte order of the keys. */
  ghost predicate InKeyOrder(es: seq<Entry>) {
    forall i, j :: 0 <= i < j < |es| ==> Before(es[i].text, es[j].text)
  }

  ghost predicate WellFormed(es: seq<Entry>) { KindsOk(es) && TextsOk(es) && InKeyOrder(es) }

  function PairOf(e: Entry): Pair { Pair(e.text, e.value) }

  function Pairs(es: seq<Entry>): (ps: seq<Pair>)
    ensures |ps| == |es|
  {
    seq(|es|, i requires 0 <= i < |es| => PairOf(es[i]))
  }

  /** An entry of the vertex, family and cell asked for. */
  predicate Wanted(e: Entry, cell: string, f: Incident, edgeType: string, src: nat) {
    e.cell == cell && IncidentTo(e.key, f, edgeType, src)
  }

  function Select(es: seq<Entry>, cell: string, f: Incident, edgeType: string, src: nat): (r: seq<Entry>)
    ensures forall e :: e in r <==> e in es && Wanted(e, cell, f, edgeType, src)
  {
    if es == [] then []
    else if Wanted(es[0], cell, f, edgeType, src) then
      [es[0]] + Select(es[1..], cell, f, edgeType, src)
    else Select(es[1..], cell, f, edgeType, src)
  }

  lemma {:induction false} SelectKeepsOrder(es: seq<Entry>, cell: string, f: Incident, edgeType: string, src: nat)
    requires InKeyOrder(es)
    ensures InKeyOrder(Select(es, cell, f, edgeType, src))
  {
    if es != [] {
      SelectKeepsOrder(es[1..], cell, f, edgeType, src);
      var rest := Select(es[1..], cell, f, edgeType, src);
      forall j | 0 <= j < |rest| ensures Before(es[0].text, rest[j].text) {
        assert rest[j] in es[1..];
        var i :| 0 <= i < |es[1..]| && es[1..][i] == rest[j];
        assert es[i + 1] == rest[j];
      }
    }
  }

  /** What is selected from a well-formed store is well-formed, and wanted. */
  lemma {:induction false} SelectKeeps(es: seq<Entry>, r: seq<Entry>, cell: string, f: Incident, edgeType: string, src: nat)
    requires WellFormed(es) && r == Select(es, cell, f, edgeType, src)
    ensures WellFormed(r) && forall i :: 0 <= i < |r| ==> Wanted(r[i], cell, f, edgeType, src)
  {
    SelectKeepsOrder(es, cell, f, edgeType, src);
    forall i | 0 <= i < |r| ensures KindOk(r[i]) && TextOk(r[i]) && Wanted(r[i], cell, f, edgeType, src) {
      assert r[i] in r;
      var j :| 0 <= j < |es| && es[j] == r[i];
    }
  }

  lemma {:induction false} PairsFront(es: seq<Entry>)
    requires es != []
    ensures Pairs(es)[0] == PairOf(es[0]) && Pairs(es)[1..] == Pairs(es[1..])
  {
  }

  lemma {:induction false} ScanSelected(es: seq<Entry>, prefix: string, cell: string, f: Incident, edgeType: string, src: nat)
    requires forall i :: 0 <= i < |es| ==> (prefix <= es[i].text <==> Wanted(es[i], cell, f, edgeType, src))
    ensures Scan(Pairs(es), prefix) == Pairs(Select(es, cell, f, edgeType, src))
  {
    if es != [] {
      ScanSelected(es[1..], prefix, cell, f, edgeType, src);
      PairsFront(es);
      var r := Select(es, cell, f, edgeType, src);
      if Wanted(es[0], cell, f, edgeType, src) {
        PairsFront(r);
        assert r[1..] == Select(es[1..], cell, f, edgeType, src);
        assert Pairs(r) == [Pairs(r)[0]] + Pairs(r)[1..];
      }
    }
  }

  lemma {:induction false} TextSelects(e: Entry, cell: string, f: Incident, edgeType: string, src: nat)
    requires TextOk(e) && ValidComponent(cell) && ValidComponent(edgeType) && src <= U64_MAX
    ensures ScanPrefix(cell, f, edgeType, src) <= e.text <==> Wanted(e, cell, f, edgeType, src)
  {
    ScanSelects(cell, f, edgeType, src, e.cell, e.key);
  }

  /** A scan of a vertex finds exactly the vertex's entries, in order. */
  lemma {:induction false} ScanFinds(es: seq<Entry>, prefix: string, cell: string, f: Incident, edgeType: string, src: nat)
    requires TextsOk(es) && ValidComponent(cell) && ValidComponent(edgeType) && src <= U64_MAX
    requires prefix == ScanPrefix(cell, f, edgeType, src)
    ensures Scan(Pairs(es), prefix) == Pairs(Select(es, cell, f, edgeType, src))
  {
    forall i | 0 <= i < |es| ensures prefix <= es[i].text <==> Wanted(es[i], cell, f, edgeType, src) {
      TextSelects(es[i], cell, f, edgeType, src);
    }
    ScanSelected(es, prefix, cell, f, edgeType, src);
  }

  // ----- what the scans compute

  ghost predicate AreTombstones(ts: seq<Entry>, cell: string, edgeType: string, src: nat) {
    KindsOk(ts) && forall i :: 0 <= i < |ts| ==> Wanted(ts[i], cell, Incident.Tombstones, edgeType, src)
  }

  ghost predicate DistinctDsts(ts: seq<Entry>)
    requires forall i :: 0 <= i < |ts| ==> ts[i].key.OutTombstone?
  {
    forall i, j :: 0 <= i < j < |ts| ==> ts[i].key.dst != ts[j].key.dst
  }

  /** The epoch of the first tombstone for the destination. */
  ghost function TombOf(ts: seq<Entry>, d: nat): Option<nat> {
    if ts == [] then None
    else if ts[0].key.OutTombstone? && ts[0].key.dst == d && ts[0].value.Epoch? then Some(ts[0].value.n)
    else TombOf(ts[1..], d)
  }

  /** The tombstones that count at the epoch, read in order. */
  ghost function FoldTombs(ts: seq<Entry>, tombs: map<nat, nat>, epoch: nat): map<nat, nat>
    decreases |ts|
  {
    if ts == [] || !ts[0].key.OutTombstone? || !ts[0].value.Epoch? then tombs
    else FoldTombs(ts[1..], if ts[0].value.n <= epoch then tombs[ts[0].key.dst := ts[0].value.n] else tombs, epoch)
  }

  ghost predicate TombstonesParse(ts: seq<Entry>, cell: string, edgeType: string, src: nat)
    requires AreTombstones(ts, cell, edgeType, src)
  {
    forall i :: 0 <= i < |ts| ==> ParseTombstoneKey(ts[i].text) == Some(EdgeId(cell, edgeType, src, ts[i].key.dst))
  }

  lemma {:induction false} TombstoneText(e: Entry, cell: string, edgeType: string, src: nat)
    requires TextOk(e) && Wanted(e, cell, Incident.Tombstones, edgeType, src)
    ensures ParseTombstoneKey(e.text) == Some(EdgeId(cell, edgeType, src, e.key.dst))
  {
    ReadTombstoneKey(cell, edgeType, src, e.key.dst);
  }

  lemma {:induction false} TombstonesRead(ts: seq<Entry>, tombs: map<nat, nat>, cell: string, edgeType: string, src: nat,
                                          epoch: nat)
    requires AreTombstones(ts, cell, edgeType, src) && TombstonesParse(ts, cell, edgeType, src)
    ensures Tombstones(tombs, Pairs(ts), EdgeId(cell, edgeType, src, 0), epoch) == Some(FoldTombs(ts, tombs, epoch))
    decreases |ts|
  {
    if ts != [] {
      var e := ts[0];
      assert KindOk(e);
      PairsFront(ts);
      var next := if e.value.n <= epoch then tombs[e.key.dst := e.value.n] else tombs;
      TombstonesRead(ts[1..], next, cell, edgeType, src, epoch);
    }
  }

  lemma {:induction false} TombstonesMean(ts: seq<Entry>, tombs: map<nat, nat>, epoch: nat, d: nat)
    requires forall i :: 0 <= i < |ts| ==> ts[i].key.OutTombstone? && ts[i].value.Epoch? && ts[i].key.dst !in tombs
    requires DistinctDsts(ts)
    ensures Get(FoldTombs(ts, tombs, epoch), d) ==
      if TombOf(ts, d).Some? && TombOf(ts, d).value <= epoch then TombOf(ts, d) else Get(tombs, d)
    decreases |ts|
  {
    if ts != [] {
      var e := ts[0];
      TombstonesMean(ts[1..], if e.value.n <= epoch then tombs[e.key.dst := e.value.n] else tombs, epoch, d);
      NoTomb(ts[1..], e.key.dst);
    }
  }

  lemma {:induction false} NoTomb(ts: seq<Entry>, d: nat)
    requires forall i :: 0 <= i < |ts| ==> ts[i].key.OutTombstone? && ts[i].key.dst != d
    ensures TombOf(ts, d).None?
  {
    if ts != [] {
      NoTomb(ts[1..], d);
    }
  }

  function Get(m: map<nat, nat>, d: nat): Option<nat> { if d in m then Some(m[d]) else None }

  function MaxOf(a: Option<nat>, b: Option<nat>): Option<nat> {
    if a.None? then b else if b.None? then a else Some(Max(a.value, b.value))
  }

  lemma {:induction false} AddSegmentMeans(edges: map<nat, nat>, tombs: map<nat, nat>, sequence: nat, dsts: seq<nat>, d: nat)
    ensures Get(AddSegment(edges, tombs, sequence, dsts), d) ==
      MaxOf(Get(edges, d), if d in dsts && Visible(sequence, tombs, d) then Some(sequence) else None)
    decreases |dsts|
  {
    if dsts != [] {
      AddSegmentMeans(AddDestination(edges, tombs, sequence, dsts[0]), tombs, sequence, dsts[1..], d);
      assert d in dsts <==> d == dsts[0] || d in dsts[1..];
    }
  }

  ghost predicate AreSegments(es: seq<Entry>, cell: string, edgeType: string, src: nat) {
    KindsOk(es) && forall i :: 0 <= i < |es| ==> Wanted(es[i], cell, Incident.Segments, edgeType, src)
  }

  /** Whether a segment shows the destination at the epoch. */
  predicate Shows(e: Entry, tombs: map<nat, nat>, epoch: nat, d: nat) {
    && e.key.OutSegment? && e.value.Destinations?
    && e.key.sequence <= epoch && d in e.value.dsts && Visible(e.key.sequence, tombs, d)
  }

  /** The greatest sequence of a segment that shows the destination. */
  function Best(es: seq<Entry>, tombs: map<nat, nat>, epoch: nat, d: nat): Option<nat> {
    if es == [] then None
    else MaxOf(if Shows(es[0], tombs, epoch, d) then Some(es[0].key.sequence) else None, Best(es[1..], tombs, epoch, d))
  }

  ghost predicate BySequence(es: seq<Entry>)
    requires forall i :: 0 <= i < |es| ==> es[i].key.OutSegment?
  {
    forall i, j :: 0 <= i < j < |es| ==> es[i].key.sequence <= es[j].key.sequence
  }

  lemma {:induction false} NothingPast(es: seq<Entry>, tombs: map<nat, nat>, epoch: nat, d: nat)
    requires forall i :: 0 <= i < |es| ==> es[i].key.OutSegment? && es[i].key.sequence > epoch
    ensures Best(es, tombs, epoch, d).None?
  {
    if es != [] {
      NothingPast(es[1..], tombs, epoch, d);
    }
  }

  /** What `Best` gives is the greatest of the sequences that show the destination, if any does. */
  lemma {:induction false} BestIsGreatest(es: seq<Entry>, tombs: map<nat, nat>, epoch: nat, d: nat)
    ensures
      var b := Best(es, tombs, epoch, d);
      && (b.Some? <==> exists e :: e in es && Shows(e, tombs, epoch, d))
      && (b.Some? ==> exists e :: e in es && Shows(e, tombs, epoch, d) && e.key.sequence == b.value)
      && (forall e | e in es && Shows(e, tombs, epoch, d) :: b.Some? && e.key.sequence <= b.value)
  {
    if es != [] {
      BestIsGreatest(es[1..], tombs, epoch, d);
      var b, rest := Best(es, tombs, epoch, d), Best(es[1..], tombs, epoch, d);
      assert forall e :: e in es <==> e == es[0] || e in es[1..];
      if rest.Some? {
        var e :| e in es[1..] && Shows(e, tombs, epoch, d) && e.key.sequence == rest.value;
        assert e in es;
      }
      assert Shows(es[0], tombs, epoch, d) ==> es[0] in es;
    }
  }

  // ----- order

  /** Segment keys of one vertex sort by sequence, then by segment id. */
  lemma {:induction false} SegmentKeysSort(cell: string, t: string, s: nat, m: nat, g: string, n: nat, h: string)
    requires KeyInRange(OutSegment(t, s, m, g)) && KeyInRange(OutSegment(t, s, n, h))
    ensures Before(Print(cell, OutSegment(t, s, m, g)), Print(cell, OutSegment(t, s, n, h))) <==> m < n || (m == n && Before(g, h))
  {
    BeforePrefix("/", g, h);
    var head := ["cell", cell, "seg", "out", t, Id(s)];
    SegmentText(cell, t, s, m, g, head);
    SegmentText(cell, t, s, n, h, head);
    BeforePrefix(Join(head, '/') + "/", Id(m) + ("/" + g), Id(n) + ("/" + h));
    U64FitsTwentyDigits(m);
    U64FitsTwentyDigits(n);
    PaddedOrder(m, n, DECIMAL_WIDTH, "/" + g, "/" + h);
  }

  lemma {:induction false} SegmentText(cell: string, t: string, s: nat, n: nat, g: string, head: seq<string>)
    requires KeyInRange(OutSegment(t, s, n, g)) && head == ["cell", cell, "seg", "out", t, Id(s)]
    ensures n <= U64_MAX
    ensures Print(cell, OutSegment(t, s, n, g)) == (Join(head, '/') + "/") + (Id(n) + ("/" + g))
  {
    assert Ids(OutSegment(t, s, n, g))[1] == n;
    SegmentParts(cell, t, s, n, g);
    var parts := ["cell", cell, "seg", "out", t, Id(s), Id(n), g];
    assert parts == head + [Id(n), g];
    JoinConcat(head, [Id(n), g], '/');
    JoinTwo(Id(n), g);
  }

  /** The segments up to the first one past the epoch, read in order. */
  function FoldSegments(es: seq<Entry>, edges: map<nat, nat>, tombs: map<nat, nat>, epoch: nat): map<nat, nat>
    decreases |es|
  {
    if es == [] || !es[0].key.OutSegment? || !es[0].value.Destinations? || es[0].key.sequence > epoch then edges
    else FoldSegments(es[1..], AddSegment(edges, tombs, es[0].key.sequence, es[0].value.dsts), tombs, epoch)
  }

  ghost predicate SegmentsParse(es: seq<Entry>, cell: string, edgeType: string, src: nat)
    requires AreSegments(es, cell, edgeType, src)
  {
    forall i :: 0 <= i < |es| ==> ParseSegmentKey(es[i].text) == Some(SegmentId(cell, edgeType, src, es[i].key.sequence))
  }

  lemma {:induction false} SegmentKeyText(e: Entry, cell: string, edgeType: string, src: nat)
    requires TextOk(e) && Wanted(e, cell, Incident.Segments, edgeType, src)
    ensures ParseSegmentKey(e.text) == Some(SegmentId(cell, edgeType, src, e.key.sequence))
  {
    ReadSegmentKey(cell, edgeType, src, e.key.sequence, e.key.segment);
  }

  lemma {:induction false} SegmentsRead(es: seq<Entry>, edges: map<nat, nat>, tombs: map<nat, nat>, cell: string,
                                        edgeType: string, src: nat, epoch: nat)
    requires AreSegments(es, cell, edgeType, src) && SegmentsParse(es, cell, edgeType, src)
    ensures Segments(edges, tombs, Pairs(es), epoch) == Some(FoldSegments(es, edges, tombs, epoch))
    decreases |es|
  {
    if es != [] {
      var e := es[0];
      assert KindOk(e);
      PairsFront(es);
      assert ReadSegment(Pairs(es)[0]) == Some((e.key.sequence, e.value.dsts));
      SegmentsRead(es[1..], AddSegment(edges, tombs, e.key.sequence, e.value.dsts), tombs, cell, edgeType, src, epoch);
    }
  }

  /** Stopping at the first segment past the epoch misses nothing. */
  lemma {:induction false} SegmentsMean(es: seq<Entry>, edges: map<nat, nat>, tombs: map<nat, nat>, epoch: nat, d: nat)
    requires forall i :: 0 <= i < |es| ==> es[i].key.OutSegment? && es[i].value.Destinations?
    requires BySequence(es)
    ensures Get(FoldSegments(es, edges, tombs, epoch), d) == MaxOf(Get(edges, d), Best(es, tombs, epoch, d))
    decreases |es|
  {
    if es != [] {
      var e := es[0];
      if e.key.sequence > epoch {
        NothingPast(es, tombs, epoch, d);
      } else {
        SegmentsMean(es[1..], AddSegment(edges, tombs, e.key.sequence, e.value.dsts), tombs, epoch, d);
        AddSegmentMeans(edges, tombs, e.key.sequence, e.value.dsts, d);
      }
    }
  }

  // ----- reads of a well-formed store

  lemma {:induction false} NotBeforeItself(a: string)
    ensures !Before(a, a)
  {
    if a != "" {
      NotBeforeItself(a[1..]);
    }
  }

  lemma {:induction false} SameText(a: Entry, b: Entry)
    requires TextOk(a) && TextOk(b) && a.cell == b.cell && a.key == b.key
    ensures !Before(a.text, b.text)
  {
    NotBeforeItself(a.text);
  }

  lemma {:induction false} TombstonesDiffer(ts: seq<Entry>, cell: string, edgeType: string, src: nat)
    requires AreTombstones(ts, cell, edgeType, src) && TextsOk(ts) && InKeyOrder(ts)
    ensures DistinctDsts(ts)
  {
    forall i, j | 0 <= i < j < |ts| ensures ts[i].key.dst != ts[j].key.dst {
      if ts[i].key.dst == ts[j].key.dst {
        SameText(ts[i], ts[j]);
      }
    }
  }

  lemma {:induction false} TextsSort(a: Entry, b: Entry, cell: string, edgeType: string, src: nat)
    requires TextOk(a) && TextOk(b) && Before(a.text, b.text)
    requires Wanted(a, cell, Incident.Segments, edgeType, src) && Wanted(b, cell, Incident.Segments, edgeType, src)
    ensures a.key.sequence <= b.key.sequence
  {
    SegmentKeysSort(cell, edgeType, src, a.key.sequence, a.key.segment, b.key.sequence, b.key.segment);
  }

  lemma {:induction false} SegmentsRise(ss: seq<Entry>, cell: string, edgeType: string, src: nat)
    requires AreSegments(ss, cell, edgeType, src) && TextsOk(ss) && InKeyOrder(ss)
    ensures BySequence(ss)
  {
    forall i, j | 0 <= i < j < |ss| ensures ss[i].key.sequence <= ss[j].key.sequence {
      TextsSort(ss[i], ss[j], cell, edgeType, src);
    }
  }

  lemma {:induction false} TombOfMeans(ts: seq<Entry>, d: nat, x: nat)
    requires forall i :: 0 <= i < |ts| ==> ts[i].key.OutTombstone? && ts[i].value.Epoch?
    requires DistinctDsts(ts)
    ensures TombOf(ts, d) == Some(x) <==> exists t :: t in ts && t.key.dst == d && t.value.n == x
  {
    if ts != [] {
      TombOfMeans(ts[1..], d, x);
      assert forall t :: t in ts <==> t == ts[0] || t in ts[1..];
      if ts[0].key.dst == d {
        forall t | t in ts[1..] ensures t.key.dst != d {
          var i :| 0 <= i < |ts[1..]| && ts[1..][i] == t;
          assert ts[i + 1] == t;
        }
      }
    }
  }

  /** The segment shows the destination at the epoch: late enough for every tombstone that counts then. */
  ghost predicate Seen(es: seq<Entry>, cell: string, edgeType: string, src: nat, epoch: nat, d: nat, e: Entry) {
    && e in es && Wanted(e, cell, Incident.Segments, edgeType, src) && e.value.Destinations?
    && e.key.sequence <= epoch && d in e.value.dsts
    && forall t | t in es && Wanted(t, cell, Incident.Tombstones, edgeType, src) && t.key.dst == d && t.value.Epoch? ::
         t.value.n <= epoch ==> e.key.sequence > t.value.n
  }

  /** The tombstones counted at the epoch hide what they should and nothing else. */
  lemma {:induction false} VisibleMeans(ts: seq<Entry>, epoch: nat, d: nat, sequence: nat)
    requires forall i :: 0 <= i < |ts| ==> ts[i].key.OutTombstone? && ts[i].value.Epoch?
    requires DistinctDsts(ts)
    ensures Visible(sequence, FoldTombs(ts, map[], epoch), d) <==>
      forall t | t in ts && t.key.dst == d :: t.value.n <= epoch ==> sequence > t.value.n
  {
    TombstonesMean(ts, map[], epoch, d);
    var tomb := TombOf(ts, d);
    if tomb.Some? {
      TombOfMeans(ts, d, tomb.value);
    }
    forall t | t in ts && t.key.dst == d ensures tomb == Some(t.value.n) {
      TombOfMeans(ts, d, t.value.n);
    }
  }

  lemma {:induction false} ShowsMeansSeen(es: seq<Entry>, ts: seq<Entry>, ss: seq<Entry>, cell: string, edgeType: string, src: nat,
                       epoch: nat, d: nat, e: Entry)
    requires ts == Select(es, cell, Incident.Tombstones, edgeType, src)
    requires ss == Select(es, cell, Incident.Segments, edgeType, src)
    requires AreTombstones(ts, cell, edgeType, src) && DistinctDsts(ts)
    ensures (e in ss && Shows(e, FoldTombs(ts, map[], epoch), epoch, d)) <==> Seen(es, cell, edgeType, src, epoch, d, e)
  {
    assert forall i :: 0 <= i < |ts| ==> KindOk(ts[i]);
    if e.key.OutSegment? {
      VisibleMeans(ts, epoch, d, e.key.sequence);
      assert forall t | t in ts :: KindOk(t);
    }
  }

  /** Both selections, with all that is known of them. */
  lemma {:induction false} Selections(es: seq<Entry>, cell: string, edgeType: string, src: nat)
    requires WellFormed(es)
    ensures
      var ts := Select(es, cell, Incident.Tombstones, edgeType, src);
      var ss := Select(es, cell, Incident.Segments, edgeType, src);
      && AreTombstones(ts, cell, edgeType, src) && TombstonesParse(ts, cell, edgeType, src) && DistinctDsts(ts)
      && AreSegments(ss, cell, edgeType, src) && SegmentsParse(ss, cell, edgeType, src) && BySequence(ss)
  {
    var ts := Select(es, cell, Incident.Tombstones, edgeType, src);
    var ss := Select(es, cell, Incident.Segments, edgeType, src);
    SelectKeeps(es, ts, cell, Incident.Tombstones, edgeType, src);
    SelectKeeps(es, ss, cell, Incident.Segments, edgeType, src);
    TombstonesDiffer(ts, cell, edgeType, src);
    SegmentsRise(ss, cell, edgeType, src);
    forall i | 0 <= i < |ts| ensures ParseTombstoneKey(ts[i].text) == Some(EdgeId(cell, edgeType, src, ts[i].key.dst)) {
      TombstoneText(ts[i], cell, edgeType, src);
    }
    forall i | 0 <= i < |ss| ensures ParseSegmentKey(ss[i].text) == Some(SegmentId(cell, edgeType, src, ss[i].key.sequence)) {
      SegmentKeyText(ss[i], cell, edgeType, src);
    }
  }

  /** What the segment scan returns on a well-formed store. */
  lemma {:induction false} SegmentEdgesFold(es: seq<Entry>, cell: string, edgeType: string, src: nat, epoch: nat)
    requires WellFormed(es) && ValidComponent(cell) && ValidComponent(edgeType) && src <= U64_MAX
    ensures
      var ts := Select(es, cell, Incident.Tombstones, edgeType, src);
      var ss := Select(es, cell, Incident.Segments, edgeType, src);
      SegmentEdges(Pairs(es), cell, edgeType, src, epoch)
      == Some(FoldSegments(ss, map[], FoldTombs(ts, map[], epoch), epoch))
  {
    var ts := Select(es, cell, Incident.Tombstones, edgeType, src);
    var ss := Select(es, cell, Incident.Segments, edgeType, src);
    Selections(es, cell, edgeType, src);
    ScanFinds(es, ScanPrefix(cell, Incident.Tombstones, edgeType, src), cell, Incident.Tombstones, edgeType, src);
    ScanFinds(es, ScanPrefix(cell, Incident.Segments, edgeType, src), cell, Incident.Segments, edgeType, src);
    TombstonesRead(ts, map[], cell, edgeType, src, epoch);
    SegmentsRead(ss, map[], FoldTombs(ts, map[], epoch), cell, edgeType, src, epoch);
  }

  /**
   On a well-formed store the scan gives, for each destination, the largest sequence at most the
   epoch of a segment that lists it and is above its tombstone, and leaves out the others.
   */
  lemma {:induction false} SegmentEdgesMean(es: seq<Entry>, cell: string, edgeType: string, src: nat, epoch: nat, d: nat)
    requires WellFormed(es) && ValidComponent(cell) && ValidComponent(edgeType) && src <= U64_MAX
    ensures
      var r := SegmentEdges(Pairs(es), cell, edgeType, src, epoch);
      && r.Some?
      && (d in r.value <==> exists e :: Seen(es, cell, edgeType, src, epoch, d, e))
      && (d in r.value ==>
            && (exists e :: Seen(es, cell, edgeType, src, epoch, d, e) && e.key.sequence == r.value[d])
            && (forall e | Seen(es, cell, edgeType, src, epoch, d, e) :: e.key.sequence <= r.value[d]))
  {
    SegmentEdgesFold(es, cell, edgeType, src, epoch);
    Selections(es, cell, edgeType, src);
    var ts := Select(es, cell, Incident.Tombstones, edgeType, src);
    var ss := Select(es, cell, Incident.Segments, edgeType, src);
    FoldMeansSeen(es, ts, ss, cell, edgeType, src, epoch, d);
  }

  lemma {:induction false} FoldMeansSeen(es: seq<Entry>, ts: seq<Entry>, ss: seq<Entry>, cell: string, edgeType: string, src: nat,
                      epoch: nat, d: nat)
    requires ts == Select(es, cell, Incident.Tombstones, edgeType, src)
    requires ss == Select(es, cell, Incident.Segments, edgeType, src)
    requires AreTombstones(ts, cell, edgeType, src) && DistinctDsts(ts)
    requires AreSegments(ss, cell, edgeType, src) && BySequence(ss)
    ensures
      var r := FoldSegments(ss, map[], FoldTombs(ts, map[], epoch), epoch);
      && (d in r <==> exists e :: Seen(es, cell, edgeType, src, epoch, d, e))
      && (d in r ==>
            && (exists e :: Seen(es, cell, edgeType, src, epoch, d, e) && e.key.sequence == r[d])
            && (forall e | Seen(es, cell, edgeType, src, epoch, d, e) :: e.key.sequence <= r[d]))
  {
    var tombs := FoldTombs(ts, map[], epoch);
    assert forall i :: 0 <= i < |ss| ==> KindOk(ss[i]);
    SegmentsMean(ss, map[], tombs, epoch, d);
    BestIsGreatest(ss, tombs, epoch, d);
    forall e ensures (e in ss && Shows(e, tombs, epoch, d)) <==> Seen(es, cell, edgeType, src, epoch, d, e) {
      ShowsMeansSeen(es, ts, ss, cell, edgeType, src, epoch, d, e);
    }
  }

  // ----- neighbours and point lookups

  /** The destinations of single edge records, or None for a corrupt one. */
  function EdgeRecords(found: set<nat>, rows: seq<Pair>): Option<set<nat>>
    decreases |rows|
  {
    if rows == [] then Some(found)
    else
      var id := ParseEdgeKey(rows[0].text);
      if id.None? || !rows[0].value.EdgeMark? then None
      else EdgeRecords(found + {id.value.dst}, rows[1..])
  }

  /** `out_neighbors_for_src_txn`. */
  function Neighbors(store: seq<Pair>, cell: string, edgeType: string, src: nat, epoch: nat): Option<set<nat>> {
    var records := EdgeRecords({}, Scan(store, ScanPrefix(cell, Incident.OutEdges, edgeType, src)));
    var segments := SegmentEdges(store, cell, edgeType, src, epoch);
    if records.None? || segments.None? then None else Some(records.value + segments.value.Keys)
  }

  method OutNeighbors(store: seq<Pair>, cell: string, edgeType: string, src: nat, epoch: nat)
    returns (r: Option<set<nat>>)
    ensures r == Neighbors(store, cell, edgeType, src, epoch)
  {
    var neighbors: set<nat> := {};
    var rows := Scan(store, ScanPrefix(cell, Incident.OutEdges, edgeType, src));
    ghost var all := EdgeRecords({}, rows);
    assert rows[0..] == rows;
    for i := 0 to |rows|
      invariant all == EdgeRecords(neighbors, rows[i..])
    {
      assert rows[i..][1..] == rows[i + 1..];
      var id := ParseEdgeKey(rows[i].text);
      if id.None? || !rows[i].value.EdgeMark? {
        return None;
      }
      neighbors := neighbors + {id.value.dst};
    }
    var tombs := ScanTombstones(Scan(store, ScanPrefix(cell, Incident.Tombstones, edgeType, src)),
                                EdgeId(cell, edgeType, src, 0), epoch);
    if tombs.None? {
      return None;
    }
    var edges := ScanSegments(tombs.value, Scan(store, ScanPrefix(cell, Incident.Segments, edgeType, src)), epoch);
    if edges.None? {
      return None;
    }
    r := Some(neighbors + edges.value.Keys);
  }

  function Lookup(store: seq<Pair>, text: string): Option<StoredValue> {
    if store == [] then None
    else if store[0].text == text then Some(store[0].value)
    else Lookup(store[1..], text)
  }

  /** `edge_epoch_at_txn`; None for a corrupt row. */
  ghost function EdgeEpochAt(store: seq<Pair>, cell: string, edgeType: string, src: nat, dst: nat, epoch: nat)
    : Option<Option<nat>>
    requires KeyInRange(OutEdge(edgeType, src, dst))
  {
    match Lookup(store, Print(cell, OutEdge(edgeType, src, dst)))
    case Some(value) => if value.EdgeMark? then Some(Some(epoch)) else None
    case None =>
      var segments := SegmentEdges(store, cell, edgeType, src, epoch);
      if segments.None? then None else Some(Get(segments.value, dst))
  }

  lemma {:induction false} LookupMeans(es: seq<Entry>, text: string)
    ensures
      var v := Lookup(Pairs(es), text);
      && (v.None? ==> forall e | e in es :: e.text != text)
      && (v.Some? ==> exists e :: e in es && e.text == text && e.value == v.value)
  {
    if es != [] {
      LookupMeans(es[1..], text);
      PairsFront(es);
      assert forall e :: e in es <==> e == es[0] || e in es[1..];
      var rest := Lookup(Pairs(es[1..]), text);
      if es[0].text != text && rest.Some? {
        var e :| e in es[1..] && e.text == text && e.value == rest.value;
        assert e in es;
      }
    }
  }

  /** The text of an edge's key belongs to that edge's entry alone. */
  lemma {:induction false} EdgeTextIs(e: Entry, cell: string, edgeType: string, src: nat, dst: nat)
    requires TextOk(e) && ValidComponent(cell) && KeyInRange(OutEdge(edgeType, src, dst))
    ensures e.text == Print(cell, OutEdge(edgeType, src, dst)) <==> e.cell == cell && e.key == OutEdge(edgeType, src, dst)
  {
    var k := OutEdge(edgeType, src, dst);
    if e.text == Print(cell, k) {
      assert Names(k)[0] == edgeType && Ids(k)[0] == src;
      ScanSelects(cell, Incident.OutEdges, edgeType, src, cell, k);
      ScanSelects(cell, Incident.OutEdges, edgeType, src, e.cell, e.key);
      PrintInjective(cell, e.key, k);
    }
  }

  lemma {:induction false} EdgeKeyText(e: Entry, cell: string, edgeType: string, src: nat)
    requires TextOk(e) && Wanted(e, cell, Incident.OutEdges, edgeType, src)
    ensures ParseEdgeKey(e.text) == Some(EdgeId(cell, edgeType, src, e.key.dst))
  {
    ReadEdgeKey(cell, edgeType, src, e.key.dst);
  }

  lemma {:induction false} EdgeRecordsMean(os: seq<Entry>, found: set<nat>, d: nat)
    requires forall i :: 0 <= i < |os| ==>
      os[i].key.OutEdge? && os[i].value.EdgeMark? && ParseEdgeKey(os[i].text).Some?
      && ParseEdgeKey(os[i].text).value.dst == os[i].key.dst
    ensures
      var r := EdgeRecords(found, Pairs(os));
      r.Some? && (d in r.value <==> d in found || exists e :: e in os && e.key.dst == d)
    decreases |os|
  {
    if os != [] {
      PairsFront(os);
      EdgeRecordsMean(os[1..], found + {os[0].key.dst}, d);
      assert forall e :: e in os <==> e == os[0] || e in os[1..];
    }
  }

  /** An edge has a single record exactly when the lookup of its key finds one, and exactly when the record scan does. */
  lemma {:induction false} RecordsAgree(es: seq<Entry>, cell: string, edgeType: string, src: nat, d: nat)
    requires WellFormed(es) && ValidComponent(cell) && ValidComponent(edgeType) && src <= U64_MAX && d <= U64_MAX
    ensures KeyInRange(OutEdge(edgeType, src, d))
    ensures
      var r := EdgeRecords({}, Scan(Pairs(es), ScanPrefix(cell, Incident.OutEdges, edgeType, src)));
      var v := Lookup(Pairs(es), Print(cell, OutEdge(edgeType, src, d)));
      r.Some? && (d in r.value <==> v.Some?) && (v.Some? ==> v.value.EdgeMark?)
  {
    var k := OutEdge(edgeType, src, d);
    assert Names(k) == [edgeType] && Values(k) == [] && Ids(k) == [src, d];
    var os := Select(es, cell, Incident.OutEdges, edgeType, src);
    ScanFinds(es, ScanPrefix(cell, Incident.OutEdges, edgeType, src), cell, Incident.OutEdges, edgeType, src);
    SelectKeeps(es, os, cell, Incident.OutEdges, edgeType, src);
    forall i | 0 <= i < |os| ensures
      os[i].key.OutEdge? && os[i].value.EdgeMark? && ParseEdgeKey(os[i].text).Some?
      && ParseEdgeKey(os[i].text).value.dst == os[i].key.dst
    {
      assert KindOk(os[i]);
      EdgeKeyText(os[i], cell, edgeType, src);
    }
    EdgeRecordsMean(os, {}, d);
    LookupMeans(es, Print(cell, k));
    LookupFindsEdge(es, os, cell, edgeType, src, d, Print(cell, k));
  }

  lemma {:induction false} LookupFindsEdge(es: seq<Entry>, os: seq<Entry>, cell: string, edgeType: string, src: nat, d: nat, text: string)
    requires WellFormed(es) && ValidComponent(cell) && KeyInRange(OutEdge(edgeType, src, d))
    requires os == Select(es, cell, Incident.OutEdges, edgeType, src)
    requires text == Print(cell, OutEdge(edgeType, src, d))
    ensures forall e | e in es :: e.text == text <==> e in os && e.key.dst == d
    ensures forall e | e in es && e.text == text :: e.value.EdgeMark?
  {
    forall e | e in es
      ensures e.text == text <==> e in os && e.key.dst == d
      ensures e.text == text ==> e.value.EdgeMark?
    {
      var j :| 0 <= j < |es| && es[j] == e;
      assert TextOk(es[j]) && KindOk(es[j]);
      EdgeTextIs(e, cell, edgeType, src, d);
    }
  }

  /** A vertex is in the neighbour scan exactly when the point lookup finds an epoch for the edge to it. */
  lemma {:induction false} LookupAgreesWithScan(es: seq<Entry>, cell: string, edgeType: string, src: nat, d: nat, epoch: nat)
    requires WellFormed(es) && ValidComponent(cell) && ValidComponent(edgeType) && src <= U64_MAX && d <= U64_MAX
    ensures KeyInRange(OutEdge(edgeType, src, d))
    ensures
      var n := Neighbors(Pairs(es), cell, edgeType, src, epoch);
      var x := EdgeEpochAt(Pairs(es), cell, edgeType, src, d, epoch);
      n.Some? && x.Some? && (d in n.value <==> x.value.Some?)
  {
    RecordsAgree(es, cell, edgeType, src, d);
    SegmentEdgesFold(es, cell, edgeType, src, epoch);
  }
}
