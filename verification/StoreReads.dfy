/**
 Reads of a whole store: beside edges, segments and relationships it holds rows of other
 families, such as change log entries, idempotency records, statistics and markers of
 dropped cells. No read of a vertex's edges sees any of those.
 */
module StoreReads {
  import opened Base
  import opened TextCodec
  import opened PropertyKeys
  import opened Keys
  import opened VertexScans
  import opened SegmentReads

  /** A row of a store: one whose key is known, or any row outside the families that are read. */
  datatype Item = Known(entry: Entry) | Foreign(pair: Pair)

  function Text(item: Item): string { if item.Known? then item.entry.text else item.pair.text }

  function Stored(item: Item): Pair { if item.Known? then PairOf(item.entry) else item.pair }

  function Store(items: seq<Item>): (pairs: seq<Pair>)
    ensures |pairs| == |items|
  {
    seq(|items|, i requires 0 <= i < |items| => Stored(items[i]))
  }

  /** The component after the cell id, if any, is none that vertex scans and edge lookups ask for. */
  predicate IsForeign(text: string) {
    var p := Split(text, '/');
    |p| < 3 || p[0] != "cell" || p[2] !in {"e", "seg", "rel"}
  }

  ghost predicate ItemOk(item: Item) {
    if item.Known? then KindOk(item.entry) && TextOk(item.entry) else IsForeign(item.pair.text)
  }

  /** Every row is of a known form or foreign, and the rows are in strict byte order of their keys. */
  ghost predicate StoreOk(items: seq<Item>) {
    && (forall i :: 0 <= i < |items| ==> ItemOk(items[i]))
    && (forall i, j :: 0 <= i < j < |items| ==> Before(Text(items[i]), Text(items[j])))
  }

  /** The entries with known keys, in order. */
  function Entries(items: seq<Item>): (es: seq<Entry>)
    ensures forall e :: e in es <==> Known(e) in items
  {
    if items == [] then []
    else if items[0].Known? then [items[0].entry] + Entries(items[1..])
    else Entries(items[1..])
  }

  lemma {:induction false} EntriesInOrder(items: seq<Item>)
    requires forall i, j :: 0 <= i < j < |items| ==> Before(Text(items[i]), Text(items[j]))
    ensures InKeyOrder(Entries(items))
  {
    if items != [] {
      EntriesInOrder(items[1..]);
      var rest := Entries(items[1..]);
      forall j | 0 <= j < |rest| && items[0].Known? ensures Before(items[0].entry.text, rest[j].text) {
        assert Known(rest[j]) in items[1..];
        var i :| 0 <= i < |items[1..]| && items[1..][i] == Known(rest[j]);
        assert items[i + 1] == Known(rest[j]);
      }
    }
  }

  lemma {:induction false} EntriesWellFormed(items: seq<Item>)
    requires StoreOk(items)
    ensures WellFormed(Entries(items))
  {
    EntriesInOrder(items);
    var es := Entries(items);
    forall i | 0 <= i < |es| ensures KindOk(es[i]) && TextOk(es[i]) {
      assert es[i] in es;
      var j :| 0 <= j < |items| && items[j] == Known(es[i]);
      assert ItemOk(items[j]);
    }
  }

  /** A key is foreign exactly when its family is none of edges, segments, tombstones and relationships. */
  lemma {:induction false} OtherFamiliesAreForeign(cell: string, k: Key)
    requires ValidComponent(cell) && KeyInRange(k)
    ensures IsForeign(Print(cell, k)) <==>
      FamilyOf(k) !in {OutRows, InRows, SegmentRows, TombstoneRows, RelationshipRows}
  {
    hide FamilyParts;
    hide FamilyOf;
    hide Tail;
    SplitPrint(cell, k);
    var p := ["cell", cell] + Tail(k);
    assert p[2] == Tail(k)[0] == (FamilyParts(FamilyOf(k)) + Rest(k))[0] == FamilyParts(FamilyOf(k))[0];
    ReadFamilies(FamilyOf(k));
  }

  lemma {:induction false} ReadFamilies(f: Family)
    ensures FamilyParts(f)[0] in {"e", "seg", "rel"} <==> f in {OutRows, InRows, SegmentRows, TombstoneRows, RelationshipRows}
  {
  }

  /** So are the markers of dropped cells. */
  lemma {:induction false} MarkersAreForeign(rest: string)
    ensures IsForeign("graph/" + rest)
  {
    SplitHead("graph", rest, '/');
    assert "graph" + ['/'] + rest == "graph/" + rest;
  }

  // ----- foreign rows are out of sight

  lemma {:induction false} ScannedIsNotForeign(text: string, cell: string, f: Incident, edgeType: string, src: nat)
    requires ValidComponent(cell) && ValidComponent(edgeType) && ScanPrefix(cell, f, edgeType, src) <= text
    ensures !IsForeign(text)
  {
    var a := ["cell", cell] + (IncidentParts(f) + [edgeType, Id(src)]);
    assert a == ["cell", cell] + IncidentParts(f) + [edgeType, Id(src)];
    AllClean(cell, f, edgeType, src);
    var rest := text[|ScanPrefix(cell, f, edgeType, src)|..];
    assert text == Join(a, '/') + ['/'] + rest;
    SplitFront(a, rest, '/');
    var p := Split(text, '/');
    assert p[0] == a[0] && p[2] == a[2] == IncidentParts(f)[0];
    assert p[2] == "e" || p[2] == "seg" || p[2] == "rel";
  }

  lemma {:induction false} ForeignIsNoEdge(text: string, cell: string, edgeType: string, src: nat, dst: nat)
    requires IsForeign(text) && ValidComponent(cell) && KeyInRange(OutEdge(edgeType, src, dst))
    ensures text != Print(cell, OutEdge(edgeType, src, dst))
  {
    SplitPrint(cell, OutEdge(edgeType, src, dst));
    EdgeParts(cell, edgeType, src, dst);
  }

  lemma {:induction false} StoreFront(items: seq<Item>)
    requires items != []
    ensures Store(items)[0] == Stored(items[0]) && Store(items)[1..] == Store(items[1..])
  {
  }

  lemma {:induction false} ScanSkipsForeign(items: seq<Item>, prefix: string)
    requires forall i :: 0 <= i < |items| && items[i].Foreign? ==> !(prefix <= items[i].pair.text)
    ensures Scan(Store(items), prefix) == Scan(Pairs(Entries(items)), prefix)
  {
    if items != [] {
      ScanSkipsForeign(items[1..], prefix);
      StoreFront(items);
      if items[0].Known? {
        var es := Entries(items);
        PairsFront(es);
        assert es[1..] == Entries(items[1..]);
      }
    }
  }

  lemma {:induction false} LookupSkipsForeign(items: seq<Item>, text: string)
    requires forall i :: 0 <= i < |items| && items[i].Foreign? ==> items[i].pair.text != text
    ensures Lookup(Store(items), text) == Lookup(Pairs(Entries(items)), text)
  {
    if items != [] {
      LookupSkipsForeign(items[1..], text);
      StoreFront(items);
      if items[0].Known? {
        var es := Entries(items);
        PairsFront(es);
        assert es[1..] == Entries(items[1..]);
      }
    }
  }

  lemma {:induction false} ScanSeesEntries(items: seq<Item>, cell: string, f: Incident, edgeType: string, src: nat)
    requires StoreOk(items) && ValidComponent(cell) && ValidComponent(edgeType)
    ensures
      var prefix := ScanPrefix(cell, f, edgeType, src);
      Scan(Store(items), prefix) == Scan(Pairs(Entries(items)), prefix)
  {
    var prefix := ScanPrefix(cell, f, edgeType, src);
    forall i | 0 <= i < |items| && items[i].Foreign? ensures !(prefix <= items[i].pair.text) {
      assert ItemOk(items[i]);
      if prefix <= items[i].pair.text {
        ScannedIsNotForeign(items[i].pair.text, cell, f, edgeType, src);
      }
    }
    ScanSkipsForeign(items, prefix);
  }

  lemma {:induction false} LookupSeesEntries(items: seq<Item>, cell: string, edgeType: string, src: nat, dst: nat)
    requires StoreOk(items) && ValidComponent(cell) && KeyInRange(OutEdge(edgeType, src, dst))
    ensures
      var text := Print(cell, OutEdge(edgeType, src, dst));
      Lookup(Store(items), text) == Lookup(Pairs(Entries(items)), text)
  {
    var text := Print(cell, OutEdge(edgeType, src, dst));
    forall i | 0 <= i < |items| && items[i].Foreign? ensures items[i].pair.text != text {
      assert ItemOk(items[i]);
      ForeignIsNoEdge(items[i].pair.text, cell, edgeType, src, dst);
    }
    LookupSkipsForeign(items, text);
  }

  // ----- reads

  /** A scan of a vertex finds exactly the vertex's entries, in order. */
  lemma {:induction false} ScanFinds(items: seq<Item>, cell: string, f: Incident, edgeType: string, src: nat)
    requires StoreOk(items) && ValidComponent(cell) && ValidComponent(edgeType) && src <= U64_MAX
    ensures Scan(Store(items), ScanPrefix(cell, f, edgeType, src)) ==
      Pairs(Select(Entries(items), cell, f, edgeType, src))
  {
    ScanSeesEntries(items, cell, f, edgeType, src);
    EntriesWellFormed(items);
    SegmentReads.ScanFinds(Entries(items), ScanPrefix(cell, f, edgeType, src), cell, f, edgeType, src);
  }

  lemma {:induction false} SegmentsSeeEntries(items: seq<Item>, cell: string, edgeType: string, src: nat, epoch: nat)
    requires StoreOk(items) && ValidComponent(cell) && ValidComponent(edgeType)
    ensures SegmentEdges(Store(items), cell, edgeType, src, epoch) ==
      SegmentEdges(Pairs(Entries(items)), cell, edgeType, src, epoch)
  {
    ScanSeesEntries(items, cell, Incident.Tombstones, edgeType, src);
    ScanSeesEntries(items, cell, Incident.Segments, edgeType, src);
  }

  /**
   The segment scan gives, for each destination, the largest sequence at most the epoch of a
   segment that lists it and is above its tombstone, and leaves out the others.
   */
  lemma {:induction false} SegmentEdgesMean(items: seq<Item>, cell: string, edgeType: string, src: nat, epoch: nat, d: nat)
    requires StoreOk(items) && ValidComponent(cell) && ValidComponent(edgeType) && src <= U64_MAX
    ensures
      var es := Entries(items);
      var r := SegmentEdges(Store(items), cell, edgeType, src, epoch);
      && r.Some?
      && (d in r.value <==> exists e :: Seen(es, cell, edgeType, src, epoch, d, e))
      && (d in r.value ==>
            && (exists e :: Seen(es, cell, edgeType, src, epoch, d, e) && e.key.sequence == r.value[d])
            && (forall e | Seen(es, cell, edgeType, src, epoch, d, e) :: e.key.sequence <= r.value[d]))
  {
    SegmentsSeeEntries(items, cell, edgeType, src, epoch);
    EntriesWellFormed(items);
    SegmentReads.SegmentEdgesMean(Entries(items), cell, edgeType, src, epoch, d);
  }

  /** An edge has a single record exactly when the lookup of its key finds one, and exactly when the record scan does. */
  lemma {:induction false} RecordsAgree(items: seq<Item>, cell: string, edgeType: string, src: nat, d: nat)
    requires StoreOk(items) && ValidComponent(cell) && ValidComponent(edgeType) && src <= U64_MAX && d <= U64_MAX
    ensures KeyInRange(OutEdge(edgeType, src, d))
    ensures
      var r := EdgeRecords({}, Scan(Store(items), ScanPrefix(cell, Incident.OutEdges, edgeType, src)));
      var v := Lookup(Store(items), Print(cell, OutEdge(edgeType, src, d)));
      && r.Some? && (d in r.value <==> v.Some?) && (v.Some? ==> v.value.EdgeMark?)
      && (d in r.value <==> exists e :: Known(e) in items && e.cell == cell && e.key == OutEdge(edgeType, src, d))
  {
    EntriesWellFormed(items);
    SegmentReads.RecordsAgree(Entries(items), cell, edgeType, src, d);
    ScanSeesEntries(items, cell, Incident.OutEdges, edgeType, src);
    LookupSeesEntries(items, cell, edgeType, src, d);
    RecordIsStored(Entries(items), cell, edgeType, src, d);
  }

  lemma {:induction false} RecordIsStored(es: seq<Entry>, cell: string, edgeType: string, src: nat, d: nat)
    requires WellFormed(es) && ValidComponent(cell) && KeyInRange(OutEdge(edgeType, src, d))
    ensures Lookup(Pairs(es), Print(cell, OutEdge(edgeType, src, d))).Some? <==>
      exists e :: e in es && e.cell == cell && e.key == OutEdge(edgeType, src, d)
  {
    var text := Print(cell, OutEdge(edgeType, src, d));
    LookupMeans(es, text);
    forall e | e in es ensures e.text == text <==> e.cell == cell && e.key == OutEdge(edgeType, src, d) {
      var j :| 0 <= j < |es| && es[j] == e;
      assert TextOk(es[j]);
      EdgeTextIs(e, cell, edgeType, src, d);
    }
  }

  /** A vertex is in the neighbour scan exactly when the point lookup finds an epoch for the edge to it. */
  lemma {:induction false} LookupAgreesWithScan(items: seq<Item>, cell: string, edgeType: string, src: nat, d: nat, epoch: nat)
    requires StoreOk(items) && ValidComponent(cell) && ValidComponent(edgeType) && src <= U64_MAX && d <= U64_MAX
    ensures KeyInRange(OutEdge(edgeType, src, d))
    ensures
      var n := Neighbors(Store(items), cell, edgeType, src, epoch);
      var x := EdgeEpochAt(Store(items), cell, edgeType, src, d, epoch);
      n.Some? && x.Some? && (d in n.value <==> x.value.Some?)
  {
    EntriesWellFormed(items);
    SegmentReads.LookupAgreesWithScan(Entries(items), cell, edgeType, src, d, epoch);
    ScanSeesEntries(items, cell, Incident.OutEdges, edgeType, src);
    LookupSeesEntries(items, cell, edgeType, src, d);
    SegmentsSeeEntries(items, cell, edgeType, src, epoch);
  }

  /** The edge has a record of its own. */
  ghost predicate HasRecord(items: seq<Item>, cell: string, edgeType: string, src: nat, d: nat) {
    exists e :: Known(e) in items && e.cell == cell && e.key == OutEdge(edgeType, src, d)
  }

  /** Some segment shows the destination at the epoch with this sequence. */
  ghost predicate SeenWith(items: seq<Item>, cell: string, edgeType: string, src: nat, epoch: nat, d: nat, n: nat) {
    exists e :: Seen(Entries(items), cell, edgeType, src, epoch, d, e) && e.key.sequence == n
  }

  /** The greatest sequence with which a segment shows the destination at the epoch. */
  ghost predicate LastSeenWith(items: seq<Item>, cell: string, edgeType: string, src: nat, epoch: nat, d: nat, n: nat) {
    && SeenWith(items, cell, edgeType, src, epoch, d, n)
    && forall m: nat | SeenWith(items, cell, edgeType, src, epoch, d, m) :: m <= n
  }

  lemma {:induction false} AtMost(es: seq<Entry>, cell: string, edgeType: string, src: nat, epoch: nat, d: nat, e: Entry, n: nat)
    requires Seen(es, cell, edgeType, src, epoch, d, e)
    requires forall x | Seen(es, cell, edgeType, src, epoch, d, x) :: x.key.sequence <= n
    ensures e.key.sequence <= n
  {
  }

  lemma {:induction false} SegmentEdgeSeen(items: seq<Item>, cell: string, edgeType: string, src: nat, d: nat, epoch: nat, n: nat)
    requires StoreOk(items) && ValidComponent(cell) && ValidComponent(edgeType) && src <= U64_MAX
    ensures
      var r := SegmentEdges(Store(items), cell, edgeType, src, epoch);
      && r.Some?
      && (d in r.value ==> SeenWith(items, cell, edgeType, src, epoch, d, r.value[d]))
      && (SeenWith(items, cell, edgeType, src, epoch, d, n) ==> d in r.value && n <= r.value[d])
  {
    hide SegmentEdges;
    hide StoreOk;
    var es, r := Entries(items), SegmentEdges(Store(items), cell, edgeType, src, epoch);
    SegmentEdgesMean(items, cell, edgeType, src, epoch, d);
    if SeenWith(items, cell, edgeType, src, epoch, d, n) {
      var e :| Seen(es, cell, edgeType, src, epoch, d, e) && e.key.sequence == n;
      assert es == Entries(items);
      AtMost(es, cell, edgeType, src, epoch, d, e, r.value[d]);
    }
  }

  /** The segment scan's epoch of a destination is the greatest sequence of a segment that shows it. */
  lemma {:induction false} SegmentEpochIs(items: seq<Item>, cell: string, edgeType: string, src: nat, d: nat, epoch: nat, n: nat)
    requires StoreOk(items) && ValidComponent(cell) && ValidComponent(edgeType) && src <= U64_MAX
    ensures
      var r := SegmentEdges(Store(items), cell, edgeType, src, epoch);
      && r.Some?
      && (Get(r.value, d) == Some(n) <==> LastSeenWith(items, cell, edgeType, src, epoch, d, n))
      && (Get(r.value, d) == None <==> forall m: nat :: !SeenWith(items, cell, edgeType, src, epoch, d, m))
  {
    hide SegmentEdges;
    hide SeenWith;
    hide StoreOk;
    SegmentEdgeSeen(items, cell, edgeType, src, d, epoch, n);
    forall m: nat | SeenWith(items, cell, edgeType, src, epoch, d, m)
      ensures
        var r := SegmentEdges(Store(items), cell, edgeType, src, epoch).value;
        d in r && m <= r[d]
    {
      SegmentEdgeSeen(items, cell, edgeType, src, d, epoch, m);
    }
  }

  /**
   The point lookup answers the epoch read at if the edge has a record. Otherwise it answers the greatest
   sequence of a segment that shows the edge at that epoch, and nothing exactly when none does.
   */
  lemma {:induction false} LookupAnswers(items: seq<Item>, cell: string, edgeType: string, src: nat, d: nat, epoch: nat, n: nat)
    requires StoreOk(items) && ValidComponent(cell) && ValidComponent(edgeType) && src <= U64_MAX && d <= U64_MAX
    ensures KeyInRange(OutEdge(edgeType, src, d))
    ensures
      var x := EdgeEpochAt(Store(items), cell, edgeType, src, d, epoch);
      && x.Some?
      && if HasRecord(items, cell, edgeType, src, d) then x.value == Some(epoch)
         else
           && (x.value == Some(n) <==> LastSeenWith(items, cell, edgeType, src, epoch, d, n))
           && (x.value == None <==> forall m: nat :: !SeenWith(items, cell, edgeType, src, epoch, d, m))
  {
    hide SegmentEdges;
    hide SeenWith;
    hide LastSeenWith;
    RecordsAgree(items, cell, edgeType, src, d);
    SegmentEpochIs(items, cell, edgeType, src, d, epoch, n);
  }

  /** The neighbours are the destinations of edge records and those a segment shows at the epoch. */
  lemma {:induction false} NeighborsMean(items: seq<Item>, cell: string, edgeType: string, src: nat, d: nat, epoch: nat)
    requires StoreOk(items) && ValidComponent(cell) && ValidComponent(edgeType) && src <= U64_MAX && d <= U64_MAX
    ensures
      var n := Neighbors(Store(items), cell, edgeType, src, epoch);
      && n.Some?
      && (d in n.value <==>
            HasRecord(items, cell, edgeType, src, d) || exists e :: Seen(Entries(items), cell, edgeType, src, epoch, d, e))
  {
    hide SegmentEdges;
    hide Seen;
    RecordsAgree(items, cell, edgeType, src, d);
    SegmentEdgesMean(items, cell, edgeType, src, epoch, d);
  }

  // ----- damaged stores

  /** A row a tombstone scan of the vertex cannot read. */
  predicate BadTombstone(row: Pair, cell: string, edgeType: string, src: nat) {
    var id := ParseTombstoneKey(row.text);
    id.None? || id.value != EdgeId(cell, edgeType, src, id.value.dst) || !row.value.Epoch?
  }

  predicate AnyBadTombstone(rows: seq<Pair>, cell: string, edgeType: string, src: nat) {
    exists i :: 0 <= i < |rows| && BadTombstone(rows[i], cell, edgeType, src)
  }

  lemma {:induction false} TombstonesFail(tombs: map<nat, nat>, rows: seq<Pair>, cell: string, edgeType: string, src: nat,
                                          epoch: nat)
    ensures SegmentReads.Tombstones(tombs, rows, EdgeId(cell, edgeType, src, 0), epoch).None? <==> AnyBadTombstone(rows, cell, edgeType, src)
    decreases |rows|
  {
    if rows != [] {
      var next := TombstoneStep(tombs, rows[0], EdgeId(cell, edgeType, src, 0), epoch);
      assert next.None? <==> BadTombstone(rows[0], cell, edgeType, src);
      if next.Some? {
        TombstonesFail(next.value, rows[1..], cell, edgeType, src, epoch);
        assert forall i :: 0 < i < |rows| ==> rows[i] == rows[1..][i - 1];
      }
    }
  }

  /** A row a segment scan cannot read. */
  predicate BadSegment(row: Pair) { ParseSegmentKey(row.text).None? || !row.value.Destinations? }

  /** Row `i` is reached: every row before it can be read and is not past the epoch. */
  predicate Reaches(rows: seq<Pair>, i: nat, epoch: nat)
    requires i <= |rows|
  {
    forall k :: 0 <= k < i ==> !BadSegment(rows[k]) && ParseSegmentKey(rows[k].text).value.sequence <= epoch
  }

  predicate MeetsBadSegment(rows: seq<Pair>, epoch: nat) {
    exists i :: 0 <= i < |rows| && Reaches(rows, i, epoch) && BadSegment(rows[i])
  }

  lemma {:induction false} ReachesLater(rows: seq<Pair>, i: nat, epoch: nat)
    requires 0 < i <= |rows| && Reaches(rows, 1, epoch)
    ensures Reaches(rows, i, epoch) <==> Reaches(rows[1..], i - 1, epoch)
  {
    hide ParseSegmentKey;
    hide BadSegment;
    assert forall k :: 0 < k < i ==> rows[k] == rows[1..][k - 1];
    assert forall k :: 0 <= k < i - 1 ==> rows[1..][k] == rows[k + 1];
  }

  lemma {:induction false} MeetsLater(rows: seq<Pair>, epoch: nat)
    requires rows != [] && Reaches(rows, 1, epoch)
    ensures MeetsBadSegment(rows, epoch) <==> MeetsBadSegment(rows[1..], epoch)
  {
    hide BadSegment;
    assert !BadSegment(rows[0]);
    hide Reaches;
    forall i | 0 < i < |rows| ensures Reaches(rows, i, epoch) <==> Reaches(rows[1..], i - 1, epoch) {
      ReachesLater(rows, i, epoch);
    }
    assert forall i :: 0 < i < |rows| ==> rows[i] == rows[1..][i - 1];
    if MeetsBadSegment(rows[1..], epoch) {
      var i :| 0 <= i < |rows[1..]| && Reaches(rows[1..], i, epoch) && BadSegment(rows[1..][i]);
      assert Reaches(rows, i + 1, epoch) && BadSegment(rows[i + 1]);
    }
  }

  lemma {:induction false} SegmentsFail(edges: map<nat, nat>, tombs: map<nat, nat>, rows: seq<Pair>, epoch: nat)
    ensures SegmentReads.Segments(edges, tombs, rows, epoch).None? <==> MeetsBadSegment(rows, epoch)
    decreases |rows|
  {
    hide ParseSegmentKey;
    if rows != [] {
      var segment := ReadSegment(rows[0]);
      assert segment.None? <==> BadSegment(rows[0]);
      if segment.Some? && segment.value.0 <= epoch {
        hide MeetsBadSegment;
        var (sequence, dsts) := segment.value;
        SegmentsFail(AddSegment(edges, tombs, sequence, dsts), tombs, rows[1..], epoch);
        MeetsLater(rows, epoch);
      } else {
        assert Reaches(rows, 0, epoch);
      }
    }
  }

  /**
   Of any store whatever: the scan of a vertex's segments fails exactly when it meets a row it cannot read,
   among the tombstones or among the segments up to the first one past the epoch.
   */
  lemma {:induction false} ScanFailsExactly(store: seq<Pair>, cell: string, edgeType: string, src: nat, epoch: nat)
    ensures
      var ts := Scan(store, ScanPrefix(cell, Incident.Tombstones, edgeType, src));
      var ss := Scan(store, ScanPrefix(cell, Incident.Segments, edgeType, src));
      SegmentEdges(store, cell, edgeType, src, epoch).None? <==>
        AnyBadTombstone(ts, cell, edgeType, src) || MeetsBadSegment(ss, epoch)
  {
    hide AnyBadTombstone;
    hide MeetsBadSegment;
    var ts := Scan(store, ScanPrefix(cell, Incident.Tombstones, edgeType, src));
    var ss := Scan(store, ScanPrefix(cell, Incident.Segments, edgeType, src));
    TombstonesFail(map[], ts, cell, edgeType, src, epoch);
    var tombs := SegmentReads.Tombstones(map[], ts, EdgeId(cell, edgeType, src, 0), epoch);
    if tombs.Some? {
      SegmentsFail(map[], tombs.value, ss, epoch);
      assert SegmentEdges(store, cell, edgeType, src, epoch) == SegmentReads.Segments(map[], tombs.value, ss, epoch);
    }
  }
}
