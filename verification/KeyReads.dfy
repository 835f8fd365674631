/** Which texts the parsers of segment, tombstone and edge keys take, and as what: of all texts, the keys of that shape. */
module KeyReads {
  import opened Base
  import opened TextCodec
  import opened Decoding
  import opened SegmentReads

  lemma {:induction false} NumberHasNoSlash(s: string, n: nat)
    requires IsNumber(s, n)
    ensures '/' !in s
  {
    var t := Unsigned(s);
    assert forall i :: 0 <= i < |t| ==> IsDigit(t[i]);
    assert s == t || s == ['+'] + t;
  }

  lemma {:induction false} PairExactly(a: string, b: string, m: nat, n: nat)
    ensures BothNumbers(a, b) == Some((m, n)) <==> IsNumber(a, m) && IsNumber(b, n)
  {
    hide ParseU64;
    hide IsNumber;
    ParsesExactly(a, m);
    ParsesExactly(b, n);
  }

  /** The parts have no slash but come out of a text that has them between slashes. */
  lemma {:induction false} JoinedParts(text: string, parts: seq<string>)
    requires parts != [] && forall i :: 0 <= i < |parts| ==> '/' !in parts[i]
    ensures text == Join(parts, '/') <==> Split(text, '/') == parts
  {
    hide Join;
    hide Split;
    SplitJoin(parts, '/');
    JoinSplit(text, '/');
  }

  // ----- tombstones

  predicate TombstoneText(text: string, id: EdgeId, src: string, dst: string) {
    && text == Join(["cell", id.cell, "seg", "tomb", "out", id.edgeType, src, dst], '/')
    && ValidComponent(id.cell) && ValidComponent(id.edgeType) && IsNumber(src, id.src) && IsNumber(dst, id.dst)
  }

  lemma {:induction false} TombstoneParts(text: string, id: EdgeId, src: string, dst: string)
    requires ValidComponent(id.cell) && ValidComponent(id.edgeType) && IsNumber(src, id.src) && IsNumber(dst, id.dst)
    ensures text == Join(["cell", id.cell, "seg", "tomb", "out", id.edgeType, src, dst], '/') <==>
      Split(text, '/') == ["cell", id.cell, "seg", "tomb", "out", id.edgeType, src, dst]
  {
    hide IsNumber;
    ComponentHasNone(id.cell, '/');
    ComponentHasNone(id.edgeType, '/');
    NumberHasNoSlash(src, id.src);
    NumberHasNoSlash(dst, id.dst);
    hide ValidComponent;
    JoinedParts(text, ["cell", id.cell, "seg", "tomb", "out", id.edgeType, src, dst]);
  }

  /** A tombstone key is read from a text exactly if it is that cell, type, source and destination in the shape of one. */
  lemma {:induction false} TombstoneReadsExactly(text: string, id: EdgeId)
    ensures ParseTombstoneKey(text) == Some(id) <==> exists src, dst :: TombstoneText(text, id, src, dst)
  {
    hide Split;
    hide Join;
    hide ValidComponent;
    hide IsNumber;
    hide BothNumbers;
    if ParseTombstoneKey(text) == Some(id) {
      var p := Split(text, '/');
      assert BothNumbers(p[6], p[7]).value == (id.src, id.dst);
      PairExactly(p[6], p[7], id.src, id.dst);
      TombstoneParts(text, id, p[6], p[7]);
      assert p == ["cell", id.cell, "seg", "tomb", "out", id.edgeType, p[6], p[7]];
      assert TombstoneText(text, id, p[6], p[7]);
    }
    if src, dst :| TombstoneText(text, id, src, dst) {
      TombstoneParts(text, id, src, dst);
      PairExactly(src, dst, id.src, id.dst);
    }
  }

  // ----- segments

  predicate SegmentText(text: string, id: SegmentId, src: string, sequence: string, segment: string) {
    && text == Join(["cell", id.cell, "seg", "out", id.edgeType, src, sequence, segment], '/')
    && ValidComponent(id.cell) && ValidComponent(id.edgeType) && ValidComponent(segment)
    && IsNumber(src, id.src) && IsNumber(sequence, id.sequence)
  }

  lemma {:induction false} SegmentPartsOf(text: string, id: SegmentId, src: string, sequence: string, segment: string)
    requires ValidComponent(id.cell) && ValidComponent(id.edgeType) && ValidComponent(segment)
    requires IsNumber(src, id.src) && IsNumber(sequence, id.sequence)
    ensures text == Join(["cell", id.cell, "seg", "out", id.edgeType, src, sequence, segment], '/') <==>
      Split(text, '/') == ["cell", id.cell, "seg", "out", id.edgeType, src, sequence, segment]
  {
    hide IsNumber;
    ComponentHasNone(id.cell, '/');
    ComponentHasNone(id.edgeType, '/');
    ComponentHasNone(segment, '/');
    NumberHasNoSlash(src, id.src);
    NumberHasNoSlash(sequence, id.sequence);
    hide ValidComponent;
    JoinedParts(text, ["cell", id.cell, "seg", "out", id.edgeType, src, sequence, segment]);
  }

  /** A segment key is read from a text exactly if it is that cell, type, source and sequence, and some segment id. */
  lemma {:induction false} SegmentReadsExactly(text: string, id: SegmentId)
    ensures ParseSegmentKey(text) == Some(id) <==> exists src, sequence, segment :: SegmentText(text, id, src, sequence, segment)
  {
    hide Split;
    hide Join;
    hide ValidComponent;
    hide IsNumber;
    hide BothNumbers;
    if ParseSegmentKey(text) == Some(id) {
      var p := Split(text, '/');
      assert BothNumbers(p[5], p[6]).value == (id.src, id.sequence);
      PairExactly(p[5], p[6], id.src, id.sequence);
      SegmentPartsOf(text, id, p[5], p[6], p[7]);
      assert p == ["cell", id.cell, "seg", "out", id.edgeType, p[5], p[6], p[7]];
      assert SegmentText(text, id, p[5], p[6], p[7]);
    }
    if src, sequence, segment :| SegmentText(text, id, src, sequence, segment) {
      SegmentPartsOf(text, id, src, sequence, segment);
      PairExactly(src, sequence, id.src, id.sequence);
    }
  }

  // ----- edges

  /** The parts of an edge key in the three families that hold edges; incoming ones have the destination first. */
  function EdgeParts(id: EdgeId, src: string, dst: string, family: nat): seq<string> {
    if family == 0 then ["cell", id.cell, "edge", id.edgeType, src, dst]
    else if family == 1 then ["cell", id.cell, "e", "out", id.edgeType, src, dst]
    else ["cell", id.cell, "e", "in", id.edgeType, dst, src]
  }

  predicate EdgeText(text: string, id: EdgeId, src: string, dst: string, family: nat) {
    && family < 3 && text == Join(EdgeParts(id, src, dst, family), '/')
    && ValidComponent(id.cell) && ValidComponent(id.edgeType) && IsNumber(src, id.src) && IsNumber(dst, id.dst)
  }

  lemma {:induction false} EdgePartsOf(text: string, id: EdgeId, src: string, dst: string, family: nat)
    requires ValidComponent(id.cell) && ValidComponent(id.edgeType) && IsNumber(src, id.src) && IsNumber(dst, id.dst)
    ensures text == Join(EdgeParts(id, src, dst, family), '/') <==> Split(text, '/') == EdgeParts(id, src, dst, family)
  {
    hide IsNumber;
    ComponentHasNone(id.cell, '/');
    ComponentHasNone(id.edgeType, '/');
    NumberHasNoSlash(src, id.src);
    NumberHasNoSlash(dst, id.dst);
    hide ValidComponent;
    JoinedParts(text, EdgeParts(id, src, dst, family));
  }

  lemma {:induction false} FieldsExactly(p: seq<string>, id: EdgeId, src: string, dst: string)
    ensures EdgeFields(p) == Some((id.cell, id.edgeType, src, dst)) <==> exists f: nat :: f < 3 && p == EdgeParts(id, src, dst, f)
  {
    if EdgeFields(p) == Some((id.cell, id.edgeType, src, dst)) {
      var f: nat := if |p| == 6 then 0 else if p[3] == "out" then 1 else 2;
      assert p == EdgeParts(id, src, dst, f);
    }
  }

  /** An edge key is read from a text exactly if it is that cell, type, source and destination in one of the three shapes. */
  lemma {:induction false} EdgeReadsExactly(text: string, id: EdgeId)
    ensures ParseEdgeKey(text) == Some(id) <==> exists src, dst, family :: EdgeText(text, id, src, dst, family)
  {
    hide Split;
    hide Join;
    hide ValidComponent;
    hide IsNumber;
    hide BothNumbers;
    hide EdgeFields;
    hide EdgeParts;
    var p := Split(text, '/');
    if ParseEdgeKey(text) == Some(id) {
      var (_, _, src, dst) := EdgeFields(p).value;
      assert BothNumbers(src, dst).value == (id.src, id.dst);
      PairExactly(src, dst, id.src, id.dst);
      FieldsExactly(p, id, src, dst);
      var f: nat :| f < 3 && p == EdgeParts(id, src, dst, f);
      EdgePartsOf(text, id, src, dst, f);
      assert EdgeText(text, id, src, dst, f);
    }
    if src, dst, family :| EdgeText(text, id, src, dst, family) {
      EdgePartsOf(text, id, src, dst, family);
      FieldsExactly(p, id, src, dst);
      PairExactly(src, dst, id.src, id.dst);
    }
  }
}
