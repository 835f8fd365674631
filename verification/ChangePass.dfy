/**
 The change pass over a directory in an object store: markers say that a scope changed,
 durable watermarks say up to which sequence a cell is covered, and a marker is removed
 only when it is covered. The store is shared: before every operation other indexers may
 raise watermarks. Any operation may fail, and a write that is reported as failed may
 have been applied all the same.
 */
module ChangePass {
  import opened Base

  /** A scope and a cell of it. */
  datatype Spot = Spot(scope: nat, cell: nat)

  datatype Marker = Marker(location: nat, scope: nat, cell: Option<nat>, sequence: Option<nat>)

  type Watermarks = map<Spot, nat>

  /** Whether an operation succeeds; one that fails does so before or after it took effect. */
  datatype Fault = Works | FailsBefore | FailsAfter

  /** What the outside does before one operation, and how the operation goes. */
  datatype Move = Move(raised: Watermarks, fault: Fault)

  /** Nobody interferes and nothing fails between two ticks. */
  ghost predicate Quiet(world: nat -> Move, from: nat, end: nat) {
    from <= end && forall t: nat | from <= t < end :: world(t) == Move(map[], Works)
  }

  /** Nothing fails between two ticks. */
  ghost predicate NoFaults(world: nat -> Move, from: nat, end: nat) {
    from <= end && forall t: nat | from <= t < end :: world(t).fault.Works?
  }

  // ----- watermarks only rise

  function Raise(w: Watermarks, up: Watermarks): Watermarks {
    map s | s in w.Keys + up.Keys :: Max(if s in w then w[s] else 0, if s in up then up[s] else 0)
  }

  ghost predicate AtLeast(w: Watermarks, w': Watermarks) {
    forall s | s in w :: s in w' && w[s] <= w'[s]
  }

  /** Each watermark of `w'` was there before, was set by others between two ticks, or is one of `own`. */
  ghost predicate Sourced(w: Watermarks, w': Watermarks, world: nat -> Move, from: nat, end: nat, own: set<(Spot, nat)>) {
    && from <= end
    && forall s | s in w' ::
      || (s in w && w'[s] == w[s])
      || SetByOthers(world, from, end, s, w'[s])
      || (s, w'[s]) in own
  }

  ghost predicate SetByOthers(world: nat -> Move, from: nat, end: nat, s: Spot, n: nat) {
    exists t: nat :: from <= t < end && s in world(t).raised && world(t).raised[s] == n
  }

  lemma {:induction false} SourcedOn(w0: Watermarks, w1: Watermarks, w2: Watermarks, world: nat -> Move, a: nat, b: nat, c: nat,
                                     own: set<(Spot, nat)>, more: set<(Spot, nat)>, all: set<(Spot, nat)>)
    requires Sourced(w0, w1, world, a, b, own) && Sourced(w1, w2, world, b, c, more) && own <= all && more <= all
    ensures Sourced(w0, w2, world, a, c, all)
  {
    forall s | s in w2
      ensures (s in w0 && w2[s] == w0[s]) || SetByOthers(world, a, c, s, w2[s]) || (s, w2[s]) in all {
      if SetByOthers(world, b, c, s, w2[s]) {
        var t: nat :| b <= t < c && s in world(t).raised && world(t).raised[s] == w2[s];
      } else if s in w1 && w2[s] == w1[s] && SetByOthers(world, a, b, s, w1[s]) {
        var t: nat :| a <= t < b && s in world(t).raised && world(t).raised[s] == w1[s];
      }
    }
  }

  predicate Reached(w: Watermarks, s: Spot, sequence: nat) { s in w && sequence <= w[s] }

  // ----- when a marker may go

  /** A marker of a cell and sequence needs the watermark; one with neither needs a run without failures. */
  predicate Justified(m: Marker, w: Watermarks, clean: set<nat>) {
    match (m.cell, m.sequence)
    case (Some(cell), Some(sequence)) => Reached(w, Spot(m.scope, cell), sequence)
    case (None, None) => m.scope in clean
    case _ => false
  }

  lemma {:induction false} JustifiedStays(m: Marker, w: Watermarks, clean: set<nat>, w': Watermarks, clean': set<nat>)
    requires Justified(m, w, clean) && AtLeast(w, w') && clean <= clean'
    ensures Justified(m, w', clean')
  {
  }

  /** What the store looked like at one point. */
  datatype Snapshot = Snapshot(watermarks: Watermarks, removed: set<Marker>, clean: set<nat>)

  ghost predicate SafeAt(s: Snapshot) {
    forall m | m in s.removed :: Justified(m, s.watermarks, s.clean)
  }

  ghost predicate AllSafe(history: seq<Snapshot>) {
    forall i :: 0 <= i < |history| ==> SafeAt(history[i])
  }

  lemma {:induction false} SafeStays(s: Snapshot, w': Watermarks, clean': set<nat>)
    requires SafeAt(s) && AtLeast(s.watermarks, w') && s.clean <= clean'
    ensures SafeAt(Snapshot(w', s.removed, clean'))
  {
  }

  lemma {:induction false} RaisedByOthers(w: Watermarks, world: nat -> Move, t: nat)
    ensures Sourced(w, Raise(w, world(t).raised), world, t, t + 1, {})
  {
    var w' := Raise(w, world(t).raised);
    forall s | s in w' ensures (s in w && w'[s] == w[s]) || SetByOthers(world, t, t + 1, s, w'[s]) {
    }
  }

  lemma {:induction false} SafeWith(s: Snapshot, m: Marker)
    requires SafeAt(s) && Justified(m, s.watermarks, s.clean)
    ensures SafeAt(s.(removed := s.removed + {m}))
  {
  }

  lemma {:induction false} NothingSet(w: Watermarks, world: nat -> Move, t: nat, own: set<(Spot, nat)>)
    ensures Sourced(w, w, world, t, t, own)
  {
  }

  lemma {:induction false} OwnRaise(w: Watermarks, world: nat -> Move, t: nat, s: Spot, sequence: nat)
    ensures Sourced(w, w[s := sequence], world, t, t, {(s, sequence)})
  {
  }

  const ACK_ATTEMPTS := 8

  class Directory {
    const world: nat -> Move
    var tick: nat
    var watermarks: Watermarks
    var markers: set<Marker>

    /** Markers removed, scopes a run without failures was made of, and the store before and after every operation. */
    ghost var removed: set<Marker>
    ghost var clean: set<nat>
    ghost var history: seq<Snapshot>

    ghost predicate Safe()
      reads this
    {
      SafeAt(Snapshot(watermarks, removed, clean)) && AllSafe(history) && removed !! markers
    }

    /** Both sides of every operation are recorded, and nothing changed since the last one but that a run ended. */
    ghost predicate Valid()
      reads this
    {
      && Safe() && |history| == 2 * tick
      && (tick > 0 ==>
            var last := history[|history| - 1];
            last.watermarks == watermarks && last.removed == removed && last.clean <= clean)
    }

    constructor (world: nat -> Move, watermarks: Watermarks, markers: set<Marker>)
      ensures Valid() && this.watermarks == watermarks && this.markers == markers
      ensures removed == {} && clean == {} && history == []
    {
      this.world, this.tick, this.watermarks, this.markers := world, 0, watermarks, markers;
      removed, clean, history := {}, {}, [];
    }

    /** Adds the store as it is after an operation to the history. */
    ghost method Record()
      requires Safe() && |history| + 1 == 2 * tick
      modifies `history
      ensures Valid() && old(history) <= history
    {
      history := history + [Snapshot(watermarks, removed, clean)];
    }

    /** An operation begins: others have raised watermarks; returns how the operation goes. */
    method Advance() returns (fault: Fault)
      requires Valid()
      modifies `tick, `watermarks, `history
      ensures Safe() && |history| + 1 == 2 * tick && tick == old(tick) + 1 && old(history) <= history
      ensures fault == world(old(tick)).fault
      ensures watermarks == Raise(old(watermarks), world(old(tick)).raised) && AtLeast(old(watermarks), watermarks)
      ensures Sourced(old(watermarks), watermarks, world, old(tick), tick, {})
    {
      hide SafeAt;
      fault := world(tick).fault;
      RaisedByOthers(watermarks, world, tick);
      SafeStays(Snapshot(watermarks, removed, clean), Raise(watermarks, world(tick).raised), clean);
      watermarks := Raise(watermarks, world(tick).raised);
      tick := tick + 1;
      history := history + [Snapshot(watermarks, removed, clean)];
    }

    /** `covered_sequence`; None when the read fails. */
    method CoveredSequence(s: Spot) returns (r: Option<Option<nat>>)
      requires Valid()
      modifies `tick, `watermarks, `history
      ensures Valid() && AtLeast(old(watermarks), watermarks) && old(history) <= history
      ensures r.Some? ==> r.value == if s in watermarks then Some(watermarks[s]) else None
      ensures tick == old(tick) + 1 && (r.Some? <==> world(old(tick)).fault.Works?)
      ensures Sourced(old(watermarks), watermarks, world, old(tick), tick, {})
    {
      var fault := Advance();
      r := if fault.Works? then Some(if s in watermarks then Some(watermarks[s]) else None) else None;
      Record();
    }

    /** One attempt at raising a watermark: reads it and, if it is too low, swaps it unless someone else wrote it. */
    method TryRaise(s: Spot, sequence: nat) returns (done: Option<bool>)
      requires Valid()
      modifies `tick, `watermarks, `history
      ensures Valid() && AtLeast(old(watermarks), watermarks) && old(history) <= history
      ensures done == Some(true) ==> Reached(watermarks, s, sequence)
      ensures old(tick) <= tick && (Quiet(world, old(tick), tick) ==> done == Some(true))
      ensures Sourced(old(watermarks), watermarks, world, old(tick), tick, {(s, sequence)})
    {
      hide SafeAt;
      hide AllSafe;
      hide Sourced;
      ghost var own := {(s, sequence)};
      var fault := Advance();
      Record();
      NothingSet(watermarks, world, tick, own);
      SourcedOn(old(watermarks), watermarks, watermarks, world, old(tick), tick, tick, {}, own, own);
      if !fault.Works? {
        return Some(false);
      }
      if s in watermarks && watermarks[s] >= sequence {
        return Some(true);
      }
      done := Swap(s, sequence, old(watermarks), old(tick));
    }

    /** Writes the watermark read before, unless someone else did; None when someone else did. */
    method Swap(s: Spot, sequence: nat, ghost w0: Watermarks, ghost t0: nat) returns (done: Option<bool>)
      requires Valid() && (s in watermarks ==> watermarks[s] < sequence) && t0 <= tick
      requires Sourced(w0, watermarks, world, t0, tick, {(s, sequence)})
      modifies `tick, `watermarks, `history
      ensures Valid() && AtLeast(old(watermarks), watermarks) && old(history) <= history
      ensures done == Some(true) ==> Reached(watermarks, s, sequence)
      ensures tick == old(tick) + 1 && (world(old(tick)) == Move(map[], Works) ==> done == Some(true))
      ensures Sourced(w0, watermarks, world, t0, tick, {(s, sequence)})
    {
      hide SafeAt;
      hide AllSafe;
      hide Sourced;
      ghost var own, w, t := {(s, sequence)}, watermarks, tick;
      var conflict := s in world(tick).raised;
      var fault := Advance();
      SourcedOn(w0, w, watermarks, world, t0, t, tick, own, {}, own);
      if !conflict && !fault.FailsBefore? {
        SafeStays(Snapshot(watermarks, removed, clean), watermarks[s := sequence], clean);
        OwnRaise(watermarks, world, tick, s, sequence);
        SourcedOn(w0, watermarks, watermarks[s := sequence], world, t0, tick, tick, own, own, own);
        watermarks := watermarks[s := sequence];
      }
      Record();
      done := if !fault.Works? then Some(false) else if conflict then None else Some(true);
    }

    /** `acknowledge_sequence`: raises the watermark by compare and swap, giving up after a few lost races. */
    method Acknowledge(s: Spot, sequence: nat) returns (ok: bool)
      requires Valid()
      modifies `tick, `watermarks, `history
      ensures Valid() && AtLeast(old(watermarks), watermarks) && old(history) <= history
      ensures ok ==> Reached(watermarks, s, sequence)
      ensures old(tick) <= tick && (Quiet(world, old(tick), tick) ==> ok)
      ensures Sourced(old(watermarks), watermarks, world, old(tick), tick, {(s, sequence)})
    {
      hide SafeAt;
      hide AllSafe;
      hide Sourced;
      NothingSet(watermarks, world, tick, {(s, sequence)});
      for attempt := 0 to ACK_ATTEMPTS
        invariant Valid() && AtLeast(old(watermarks), watermarks) && old(history) <= history
        invariant old(tick) <= tick && (0 < attempt ==> !Quiet(world, old(tick), tick))
        invariant Sourced(old(watermarks), watermarks, world, old(tick), tick, {(s, sequence)})
      {
        ghost var t, w := tick, watermarks;
        var done := TryRaise(s, sequence);
        assert Quiet(world, old(tick), tick) ==> Quiet(world, t, tick);
        SourcedOn(old(watermarks), w, watermarks, world, old(tick), t, tick, {(s, sequence)}, {(s, sequence)}, {(s, sequence)});
        if done.Some? {
          return done.value;
        }
      }
      ok := false;
    }

    /** A run of the scope ended without failures. */
    ghost method RunSucceeded(scope: nat)
      requires Valid()
      modifies `clean
      ensures Valid() && clean == old(clean) + {scope}
    {
      hide SafeAt;
      hide AllSafe;
      SafeStays(Snapshot(watermarks, removed, clean), watermarks, clean + {scope});
      clean := clean + {scope};
    }

    /** Deletes one marker; a delete that fails may have removed it. */
    method Delete(m: Marker) returns (ok: bool)
      requires Valid() && Justified(m, watermarks, clean)
      modifies `tick, `watermarks, `history, `markers, `removed
      ensures Valid() && AtLeast(old(watermarks), watermarks) && old(history) <= history
      ensures tick == old(tick) + 1 && (ok <==> world(old(tick)).fault.Works?)
      ensures markers == if world(old(tick)).fault.FailsBefore? then old(markers) else old(markers) - {m}
      ensures removed == old(removed) + (old(markers) - markers)
      ensures Sourced(old(watermarks), watermarks, world, old(tick), tick, {})
    {
      hide SafeAt;
      hide AllSafe;
      var fault := Advance();
      ok := fault.Works?;
      if !fault.FailsBefore? {
        JustifiedStays(m, old(watermarks), clean, watermarks, clean);
        SafeWith(Snapshot(watermarks, removed, clean), m);
        if m in markers {
          removed := removed + {m};
        }
        markers := markers - {m};
      }
      Record();
    }

    /** `clear_changes`: deletes the markers; some deletes may fail. */
    method Clear(ms: seq<Marker>) returns (ok: bool)
      requires Valid() && forall i :: 0 <= i < |ms| ==> Justified(ms[i], watermarks, clean)
      modifies `tick, `watermarks, `history, `markers, `removed
      ensures Valid() && AtLeast(old(watermarks), watermarks) && old(history) <= history
      ensures removed == old(removed) + (old(markers) - markers) && markers <= old(markers)
      ensures forall m | m in old(markers) && m !in markers :: m in ms
      ensures ok ==> forall m | m in ms :: m !in markers
      ensures old(tick) <= tick && (NoFaults(world, old(tick), tick) ==> ok)
      ensures Sourced(old(watermarks), watermarks, world, old(tick), tick, {})
    {
      hide SafeAt;
      hide AllSafe;
      hide Sourced;
      hide Justified;
      ok := true;
      ghost var w0, m0, r0 := watermarks, markers, removed;
      NothingSet(w0, world, tick, {});
      for i := 0 to |ms|
        invariant Valid() && AtLeast(w0, watermarks) && old(history) <= history
        invariant removed == r0 + (m0 - markers) && markers <= m0
        invariant forall m | m in m0 && m !in markers :: m in ms
        invariant ok ==> forall j :: 0 <= j < i ==> ms[j] !in markers
        invariant old(tick) <= tick && (NoFaults(world, old(tick), tick) ==> ok)
        invariant Sourced(w0, watermarks, world, old(tick), tick, {})
      {
        JustifiedStays(ms[i], w0, clean, watermarks, clean);
        ghost var t, w := tick, watermarks;
        var deleted := Delete(ms[i]);
        assert NoFaults(world, old(tick), tick) ==> NoFaults(world, old(tick), t) && NoFaults(world, t, tick);
        SourcedOn(w0, w, watermarks, world, old(tick), t, tick, {}, {}, {});
        ok := ok && deleted;
      }
    }
  }

  // ----- one scope of the pass

  /** What an index run of a scope reports: failures, no data, or the sequence each cell is covered to. */
  datatype Outcome = Outcome(failed: bool, empty: bool, covered: map<nat, nat>)

  predicate IsBare(m: Marker) { m.cell.None? && m.sequence.None? }

  predicate IsComplete(m: Marker) { m.cell.Some? && m.sequence.Some? }

  ghost predicate Of(ms: seq<Marker>, scope: nat) { forall i :: 0 <= i < |ms| ==> ms[i].scope == scope }

  ghost predicate AllJustified(ms: seq<Marker>, w: Watermarks, clean: set<nat>) {
    forall i :: 0 <= i < |ms| ==> Justified(ms[i], w, clean)
  }

  lemma {:induction false} AllStay(ms: seq<Marker>, w: Watermarks, clean: set<nat>, w': Watermarks, clean': set<nat>)
    requires AllJustified(ms, w, clean) && AtLeast(w, w') && clean <= clean'
    ensures AllJustified(ms, w', clean')
  {
  }

  /** The markers that pass the test, in order. */
  function Filter(ms: seq<Marker>, keep: Marker -> bool): (r: seq<Marker>)
    ensures forall m :: m in r <==> m in ms && keep(m)
  {
    if ms == [] then []
    else
      var rest := Filter(ms[..|ms| - 1], keep);
      if keep(ms[|ms| - 1]) then rest + [ms[|ms| - 1]] else rest
  }

  /** Whether the watermarks read, or the sequences acknowledged, cover a marker of a cell and sequence. */
  predicate CoveredBy(m: Marker, known: map<nat, nat>) {
    IsComplete(m) && m.cell.value in known && known[m.cell.value] >= m.sequence.value
  }

  /** Every sequence known was reached by the durable watermark. */
  ghost predicate KnownReached(known: map<nat, nat>, scope: nat, w: Watermarks) {
    forall c | c in known :: Reached(w, Spot(scope, c), known[c])
  }

  lemma {:induction false} CoveredIsJustified(ms: seq<Marker>, known: map<nat, nat>, scope: nat, w: Watermarks, clean: set<nat>)
    requires KnownReached(known, scope, w) && forall m | m in ms :: m.scope == scope && CoveredBy(m, known)
    ensures AllJustified(ms, w, clean)
  {
  }

  /** Every cell in question that had a watermark is known to be covered at least that far. */
  ghost predicate Knows(known: map<nat, nat>, asked: set<nat>, scope: nat, w: Watermarks) {
    forall c | c in asked && Spot(scope, c) in w :: c in known && w[Spot(scope, c)] <= known[c]
  }

  ghost function Cells(changes: seq<Marker>): set<nat> {
    set m | m in changes && m.cell.Some? :: m.cell.value
  }

  /** Reads the watermark of every cell the markers name; None when a read fails. */
  method ReadWatermarks(dir: Directory, scope: nat, changes: seq<Marker>) returns (r: Option<map<nat, nat>>)
    requires dir.Valid()
    modifies dir`tick, dir`watermarks, dir`history
    ensures dir.Valid() && AtLeast(old(dir.watermarks), dir.watermarks) && old(dir.history) <= dir.history
    ensures r.Some? ==> KnownReached(r.value, scope, dir.watermarks)
    ensures r.Some? ==> Knows(r.value, Cells(changes), scope, old(dir.watermarks))
    ensures old(dir.tick) <= dir.tick && (r.Some? <==> NoFaults(dir.world, old(dir.tick), dir.tick))
    ensures Sourced(old(dir.watermarks), dir.watermarks, dir.world, old(dir.tick), dir.tick, {})
  {
    hide Sourced;
    hide SafeAt;
    hide AllSafe;
    var known: map<nat, nat>, asked: set<nat> := map[], {};
    NothingSet(dir.watermarks, dir.world, dir.tick, {});
    for i := 0 to |changes|
      invariant dir.Valid() && AtLeast(old(dir.watermarks), dir.watermarks) && old(dir.history) <= dir.history
      invariant KnownReached(known, scope, dir.watermarks) && old(dir.tick) <= dir.tick
      invariant Knows(known, asked, scope, old(dir.watermarks))
      invariant forall j :: 0 <= j < i && changes[j].cell.Some? ==> changes[j].cell.value in asked
      invariant NoFaults(dir.world, old(dir.tick), dir.tick)
      invariant Sourced(old(dir.watermarks), dir.watermarks, dir.world, old(dir.tick), dir.tick, {})
    {
      var change := changes[i];
      if change.cell.Some? && change.cell.value !in asked {
        var cell := change.cell.value;
        ghost var t, w := dir.tick, dir.watermarks;
        var covered := dir.CoveredSequence(Spot(scope, cell));
        assert KnownReached(known, scope, dir.watermarks);
        SourcedOn(old(dir.watermarks), w, dir.watermarks, dir.world, old(dir.tick), t, dir.tick, {}, {}, {});
        if covered.None? {
          return None;
        }
        asked := asked + {cell};
        if covered.value.Some? {
          known := known[cell := covered.value.value];
        }
      }
    }
    r := Some(known);
  }

  /** The greatest sequence the markers name for each cell. */
  method MaximumHints(changes: seq<Marker>) returns (maximum: map<nat, nat>)
    ensures forall m | m in changes && IsComplete(m) :: CoveredBy(m, maximum)
    ensures forall c | c in maximum :: exists m :: m in changes && m.cell == Some(c) && m.sequence == Some(maximum[c])
  {
    maximum := map[];
    for i := 0 to |changes|
      invariant forall j :: 0 <= j < i && IsComplete(changes[j]) ==> CoveredBy(changes[j], maximum)
      invariant forall c | c in maximum :: exists m :: m in changes && m.cell == Some(c) && m.sequence == Some(maximum[c])
    {
      var m := changes[i];
      if IsComplete(m) {
        var c, n := m.cell.value, m.sequence.value;
        assert m in changes;
        if c !in maximum || maximum[c] < n {
          maximum := maximum[c := n];
        }
      }
    }
  }

  /** The watermarks that acknowledging a coverage may set. */
  ghost function Claims(scope: nat, coverage: map<nat, nat>): set<(Spot, nat)> {
    set c | c in coverage :: (Spot(scope, c), coverage[c])
  }

  /** The watermarks a run without failures may set: what it covers or, of an empty scope, what its markers name. */
  ghost function OwnClaims(scope: nat, changes: seq<Marker>, run: Outcome): set<(Spot, nat)> {
    if run.failed then {}
    else if run.empty then
      set m | m in changes && IsComplete(m) :: (Spot(scope, m.cell.value), m.sequence.value)
    else Claims(scope, run.covered)
  }

  /** Acknowledges every sequence of a coverage; the ones that succeeded are durable. */
  method AcknowledgeAll(dir: Directory, scope: nat, coverage: map<nat, nat>) returns (acknowledged: map<nat, nat>, ok: bool)
    requires dir.Valid()
    modifies dir`tick, dir`watermarks, dir`history
    ensures dir.Valid() && AtLeast(old(dir.watermarks), dir.watermarks) && old(dir.history) <= dir.history
    ensures KnownReached(acknowledged, scope, dir.watermarks)
    ensures acknowledged.Keys <= coverage.Keys && forall c | c in acknowledged :: acknowledged[c] == coverage[c]
    ensures ok ==> acknowledged == coverage
    ensures old(dir.tick) <= dir.tick && (Quiet(dir.world, old(dir.tick), dir.tick) ==> ok)
    ensures Sourced(old(dir.watermarks), dir.watermarks, dir.world, old(dir.tick), dir.tick, Claims(scope, coverage))
  {
    hide SafeAt;
    hide AllSafe;
    hide Sourced;
    acknowledged, ok := map[], true;
    NothingSet(dir.watermarks, dir.world, dir.tick, Claims(scope, coverage));
    var rest := coverage.Keys;
    while rest != {}
      invariant rest <= coverage.Keys
      invariant dir.Valid() && AtLeast(old(dir.watermarks), dir.watermarks) && old(dir.history) <= dir.history
      invariant KnownReached(acknowledged, scope, dir.watermarks)
      invariant acknowledged.Keys <= coverage.Keys && forall c | c in acknowledged :: acknowledged[c] == coverage[c]
      invariant ok ==> acknowledged.Keys == coverage.Keys - rest
      invariant old(dir.tick) <= dir.tick && (Quiet(dir.world, old(dir.tick), dir.tick) ==> ok)
      invariant Sourced(old(dir.watermarks), dir.watermarks, dir.world, old(dir.tick), dir.tick, Claims(scope, coverage))
      decreases rest
    {
      var cell :| cell in rest;
      ghost var t, w := dir.tick, dir.watermarks;
      var done := dir.Acknowledge(Spot(scope, cell), coverage[cell]);
      assert Quiet(dir.world, old(dir.tick), dir.tick) ==> Quiet(dir.world, old(dir.tick), t) && Quiet(dir.world, t, dir.tick);
      assert KnownReached(acknowledged, scope, dir.watermarks);
      ghost var one := {(Spot(scope, cell), coverage[cell])};
      SourcedOn(old(dir.watermarks), w, dir.watermarks, dir.world, old(dir.tick), t, dir.tick,
                Claims(scope, coverage), one, Claims(scope, coverage));
      if done {
        acknowledged := acknowledged[cell := coverage[cell]];
      } else {
        ok := false;
      }
      rest := rest - {cell};
    }
  }

  /** Which pending markers a run without failures settles. */
  predicate Settled(m: Marker, acknowledged: map<nat, nat>) {
    IsBare(m) || CoveredBy(m, acknowledged)
  }

  /** The markers a run without failures and faults settles: the bare ones, and those of the sequences it covers. */
  predicate SettledBy(m: Marker, run: Outcome) {
    IsBare(m) || (IsComplete(m) && (run.empty || CoveredBy(m, run.covered)))
  }

  lemma {:induction false} ClaimsAreOwn(scope: nat, pending: seq<Marker>, run: Outcome, coverage: map<nat, nat>)
    requires !run.failed
    requires if run.empty then
               forall c | c in coverage :: exists m :: m in pending && m.cell == Some(c) && m.sequence == Some(coverage[c])
             else coverage == run.covered
    ensures Claims(scope, coverage) <= OwnClaims(scope, pending, run)
  {
  }

  /** Makes the coverage of a run without failures durable, and says which pending markers may go. */
  method Settle(dir: Directory, scope: nat, pending: seq<Marker>, outcome: Outcome) returns (gone: seq<Marker>, ok: bool)
    requires dir.Valid() && Of(pending, scope) && !outcome.failed
    modifies dir`tick, dir`watermarks, dir`history, dir`clean
    ensures dir.Valid() && AtLeast(old(dir.watermarks), dir.watermarks) && old(dir.history) <= dir.history
    ensures dir.clean == old(dir.clean) + {scope}
    ensures AllJustified(gone, dir.watermarks, dir.clean) && forall m | m in gone :: m in pending
    ensures forall m | m in pending && IsBare(m) :: m in gone
    ensures ok ==> forall m | m in pending && SettledBy(m, outcome) :: m in gone
    ensures old(dir.tick) <= dir.tick && (Quiet(dir.world, old(dir.tick), dir.tick) ==> ok)
    ensures Sourced(old(dir.watermarks), dir.watermarks, dir.world, old(dir.tick), dir.tick, OwnClaims(scope, pending, outcome))
  {
    dir.RunSucceeded(scope);
    var coverage := outcome.covered;
    if outcome.empty {
      coverage := MaximumHints(pending);
    }
    var acknowledged;
    acknowledged, ok := AcknowledgeAll(dir, scope, coverage);
    ClaimsAreOwn(scope, pending, outcome, coverage);
    gone := Filter(pending, m => Settled(m, acknowledged));
    forall i | 0 <= i < |gone| ensures Justified(gone[i], dir.watermarks, dir.clean) {
      assert gone[i] in pending;
      var j :| 0 <= j < |pending| && pending[j] == gone[i];
    }
  }

  lemma {:induction false} PendingClaims(scope: nat, changes: seq<Marker>, pending: seq<Marker>, run: Outcome)
    requires forall m | m in pending :: m in changes
    ensures OwnClaims(scope, pending, run) <= OwnClaims(scope, changes, run)
  {
  }

  /** A marker of a cell and sequence that the watermarks cover. */
  predicate Covered(m: Marker, w: Watermarks) {
    IsComplete(m) && Reached(w, Spot(m.scope, m.cell.value), m.sequence.value)
  }

  /** The watermarks already cover every marker, so no run is needed. */
  ghost predicate AllCovered(ms: seq<Marker>, w: Watermarks) { forall m | m in ms :: Covered(m, w) }

  lemma {:induction false} AllKnownIsCovered(ms: seq<Marker>, known: map<nat, nat>, scope: nat, w: Watermarks)
    requires KnownReached(known, scope, w) && forall m | m in ms :: m.scope == scope && CoveredBy(m, known)
    ensures AllCovered(ms, w)
  {
  }

  lemma {:induction false} StaysCovered(ms: seq<Marker>, w: Watermarks, w': Watermarks)
    requires AllCovered(ms, w) && AtLeast(w, w')
    ensures AllCovered(ms, w')
  {
  }

  lemma {:induction false} CoveredIsKnown(m: Marker, changes: seq<Marker>, known: map<nat, nat>, scope: nat, w: Watermarks)
    requires m in changes && m.scope == scope && Covered(m, w) && Knows(known, Cells(changes), scope, w)
    ensures CoveredBy(m, known)
  {
    assert m.cell.value in Cells(changes);
  }

  lemma {:induction false} QuietParts(world: nat -> Move, a: nat, b: nat, c: nat)
    requires a <= b <= c
    ensures Quiet(world, a, c) <==> Quiet(world, a, b) && Quiet(world, b, c)
    ensures NoFaults(world, a, c) <==> NoFaults(world, a, b) && NoFaults(world, b, c)
    ensures Quiet(world, a, c) ==> NoFaults(world, a, c)
  {
    if Quiet(world, a, c) {
      forall t: nat | a <= t < c ensures world(t).fault.Works? {
        assert world(t) == Move(map[], Works);
      }
    }
  }

  /** What is known of the markers once they are divided by the watermarks read. */
  lemma {:induction false} Divided(changes: seq<Marker>, covered: seq<Marker>, pending: seq<Marker>, known: map<nat, nat>,
                                   scope: nat, w0: Watermarks, w: Watermarks, clean: set<nat>)
    requires Of(changes, scope) && KnownReached(known, scope, w) && Knows(known, Cells(changes), scope, w0)
    requires forall m :: m in covered <==> m in changes && CoveredBy(m, known)
    requires forall m :: m in pending <==> m in changes && !CoveredBy(m, known)
    ensures Of(pending, scope) && AllJustified(covered, w, clean)
    ensures forall m | m in changes && Covered(m, w0) :: m in covered
    ensures pending == [] ==> AllCovered(changes, w) && forall m | m in changes :: m in covered
    ensures AllCovered(changes, w0) ==> pending == []
  {
    assert forall m | m in changes :: m.scope == scope;
    forall i | 0 <= i < |pending| ensures pending[i].scope == scope {
      assert pending[i] in pending;
    }
    CoveredIsJustified(covered, known, scope, w, clean);
    forall m | m in changes && Covered(m, w0) ensures m in covered {
      CoveredIsKnown(m, changes, known, scope, w0);
    }
    if pending == [] {
      forall m | m in changes ensures CoveredBy(m, known) {
        assert m !in pending;
      }
      AllKnownIsCovered(changes, known, scope, w);
    } else {
      assert pending[0] in pending;
    }
  }

  /** Which markers of a scope may go: those already covered, and those its run settles. */
  method Choose(dir: Directory, scope: nat, changes: seq<Marker>, run: Outcome) returns (gone: seq<Marker>, ok: bool)
    requires dir.Valid() && Of(changes, scope)
    modifies dir`tick, dir`watermarks, dir`history, dir`clean
    ensures dir.Valid() && AtLeast(old(dir.watermarks), dir.watermarks) && old(dir.history) <= dir.history
    ensures old(dir.clean) <= dir.clean <= old(dir.clean) + {scope} && (run.failed ==> dir.clean == old(dir.clean))
    ensures AllJustified(gone, dir.watermarks, dir.clean) && forall m | m in gone :: m in changes
    ensures ok && !run.failed ==> forall m | m in changes && SettledBy(m, run) :: m in gone
    ensures old(dir.tick) <= dir.tick && (Quiet(dir.world, old(dir.tick), dir.tick) && !run.failed ==> ok)
    ensures Sourced(old(dir.watermarks), dir.watermarks, dir.world, old(dir.tick), dir.tick, OwnClaims(scope, changes, run))
    ensures NoFaults(dir.world, old(dir.tick), dir.tick) || ok ==>
      forall m | m in changes && Covered(m, old(dir.watermarks)) :: m in gone
    ensures ok && run.failed ==> AllCovered(changes, dir.watermarks) && forall m | m in changes :: m in gone
    ensures Quiet(dir.world, old(dir.tick), dir.tick) && AllCovered(changes, old(dir.watermarks)) ==> ok
  {
    hide SafeAt;
    hide AllSafe;
    hide Sourced;
    hide Quiet;
    hide NoFaults;
    hide AllCovered;
    hide Covered;
    hide AllJustified;
    hide Of;
    hide KnownReached;
    hide Knows;
    hide CoveredBy;
    hide OwnClaims;
    hide SettledBy;
    var known := ReadWatermarks(dir, scope, changes);
    ghost var w, clean, t := dir.watermarks, dir.clean, dir.tick;
    QuietParts(dir.world, old(dir.tick), old(dir.tick), t);
    SourcedOn(old(dir.watermarks), w, w, dir.world, old(dir.tick), t, t, {}, {}, OwnClaims(scope, changes, run)) by {
      NothingSet(w, dir.world, t, {});
    }
    if known.None? {
      NoneJustified(w, clean);
      return [], false;
    }
    var covered := Filter(changes, m => CoveredBy(m, known.value));
    var pending := Filter(changes, m => !CoveredBy(m, known.value));
    Divided(changes, covered, pending, known.value, scope, old(dir.watermarks), w, clean);
    gone, ok := covered, true;
    if pending == [] {
      return;
    }
    if run.failed {
      ok := false;
      return;
    }
    var more;
    more, ok := Settle(dir, scope, pending, run);
    QuietParts(dir.world, old(dir.tick), t, dir.tick);
    PendingClaims(scope, changes, pending, run);
    SourcedOn(old(dir.watermarks), w, dir.watermarks, dir.world, old(dir.tick), t, dir.tick,
              {}, OwnClaims(scope, pending, run), OwnClaims(scope, changes, run));
    AllStay(covered, w, clean, dir.watermarks, dir.clean);
    BothJustified(covered, more, dir.watermarks, dir.clean);
    StillAtLeast(old(dir.watermarks), w, dir.watermarks);
    gone := covered + more;
  }

  lemma {:induction false} NoneJustified(w: Watermarks, clean: set<nat>)
    ensures AllJustified([], w, clean)
  {
  }

  lemma {:induction false} BothJustified(a: seq<Marker>, b: seq<Marker>, w: Watermarks, clean: set<nat>)
    requires AllJustified(a, w, clean) && AllJustified(b, w, clean)
    ensures AllJustified(a + b, w, clean)
  {
  }

  /**
   The pass over one scope. After every operation on the store, wherever it stops, a removed marker with
   a cell and sequence has a durable watermark at or above the sequence, one with neither was removed
   after a run without failures, and no other marker was removed. A run that failed is reported unless there was no
   need of it: every marker was covered and is gone.
   */
  method ProcessScope(dir: Directory, scope: nat, changes: seq<Marker>, run: Outcome) returns (ok: bool)
    requires dir.Valid() && Of(changes, scope)
    modifies dir
    ensures dir.Valid() && AllSafe(dir.history) && old(dir.history) <= dir.history
    ensures AtLeast(old(dir.watermarks), dir.watermarks)
    ensures dir.clean <= old(dir.clean) + {scope} && (run.failed ==> dir.clean == old(dir.clean))
    ensures dir.removed == old(dir.removed) + (old(dir.markers) - dir.markers) && dir.markers <= old(dir.markers)
    ensures forall m | m in old(dir.markers) && m !in dir.markers :: m in changes
    ensures ok && !run.failed ==> forall m | m in changes && SettledBy(m, run) :: m !in dir.markers
    ensures old(dir.tick) <= dir.tick && (Quiet(dir.world, old(dir.tick), dir.tick) && !run.failed ==> ok)
    ensures Sourced(old(dir.watermarks), dir.watermarks, dir.world, old(dir.tick), dir.tick, OwnClaims(scope, changes, run))
    ensures NoFaults(dir.world, old(dir.tick), dir.tick) || ok ==>
      forall m | m in changes && Covered(m, old(dir.watermarks)) :: m !in dir.markers
    ensures ok && run.failed ==> AllCovered(changes, dir.watermarks) && forall m | m in changes :: m !in dir.markers
    ensures Quiet(dir.world, old(dir.tick), dir.tick) && AllCovered(changes, old(dir.watermarks)) ==> ok
  {
    hide AllCovered;
    var gone;
    gone, ok := Choose(dir, scope, changes, run);
    ghost var t, w := dir.tick, dir.watermarks;
    if gone != [] {
      var cleared := dir.Clear(gone);
      QuietParts(dir.world, old(dir.tick), t, dir.tick);
      SourcedOn(old(dir.watermarks), w, dir.watermarks, dir.world, old(dir.tick), t, dir.tick,
                OwnClaims(scope, changes, run), {}, OwnClaims(scope, changes, run));
      if AllCovered(changes, w) {
        StaysCovered(changes, w, dir.watermarks);
      }
      ok := ok && cleared;
    }
  }

  /** The markers of one scope, and what its run reports if one is made. */
  datatype Group = Group(scope: nat, changes: seq<Marker>, run: Outcome)

  /** The markers the first `n` groups' runs settle are gone. */
  ghost predicate Cleared(groups: seq<Group>, n: nat, markers: set<Marker>)
    requires n <= |groups|
  {
    forall i, m | 0 <= i < n && !groups[i].run.failed && m in groups[i].changes && SettledBy(m, groups[i].run) ::
      m !in markers
  }

  /** The markers of the first `n` groups that the watermarks cover are gone. */
  ghost predicate CoveredGone(groups: seq<Group>, n: nat, w: Watermarks, markers: set<Marker>)
    requires n <= |groups|
  {
    forall i, m | 0 <= i < n && m in groups[i].changes && Covered(m, w) :: m !in markers
  }

  lemma {:induction false} CoveredStep(groups: seq<Group>, n: nat, w: Watermarks, now: Watermarks, markers: set<Marker>,
                                       markers': set<Marker>)
    requires n < |groups| && CoveredGone(groups, n, w, markers) && markers' <= markers && AtLeast(w, now)
    requires forall m | m in groups[n].changes && Covered(m, now) :: m !in markers'
    ensures CoveredGone(groups, n + 1, w, markers')
  {
  }

  /** The runs among the first `n` groups that failed were not needed: their markers are covered and gone. */
  ghost predicate FailedWereIdle(groups: seq<Group>, n: nat, markers: set<Marker>, w: Watermarks)
    requires n <= |groups|
  {
    forall i | 0 <= i < n && groups[i].run.failed ::
      AllCovered(groups[i].changes, w) && forall m | m in groups[i].changes :: m !in markers
  }

  lemma {:induction false} FailedStep(groups: seq<Group>, n: nat, markers: set<Marker>, w: Watermarks, markers': set<Marker>,
                                      w': Watermarks)
    requires n < |groups| && FailedWereIdle(groups, n, markers, w) && markers' <= markers && AtLeast(w, w')
    requires groups[n].run.failed ==>
      AllCovered(groups[n].changes, w') && forall m | m in groups[n].changes :: m !in markers'
    ensures FailedWereIdle(groups, n + 1, markers', w')
  {
    forall i | 0 <= i < n && groups[i].run.failed ensures AllCovered(groups[i].changes, w') {
      StaysCovered(groups[i].changes, w, w');
    }
  }

  /** Every run did not fail or was not needed from the start. */
  ghost predicate NothingAmiss(groups: seq<Group>, w: Watermarks) {
    forall i :: 0 <= i < |groups| ==> !groups[i].run.failed || AllCovered(groups[i].changes, w)
  }

  lemma {:induction false} StillNothingAmiss(groups: seq<Group>, i: nat, w: Watermarks, w': Watermarks)
    requires NothingAmiss(groups, w) && AtLeast(w, w') && i < |groups|
    ensures !groups[i].run.failed || AllCovered(groups[i].changes, w')
  {
    if groups[i].run.failed {
      StaysCovered(groups[i].changes, w, w');
    }
  }

  /** The watermarks the runs of the first `n` groups may set. */
  ghost function AllClaims(groups: seq<Group>, n: nat): set<(Spot, nat)>
    requires n <= |groups|
  {
    if n == 0 then {}
    else AllClaims(groups, n - 1) + OwnClaims(groups[n - 1].scope, groups[n - 1].changes, groups[n - 1].run)
  }

  /** The markers are grouped by scope. */
  ghost predicate Grouped(groups: seq<Group>) {
    && (forall i :: 0 <= i < |groups| ==> Of(groups[i].changes, groups[i].scope))
    && (forall i, j :: 0 <= i < j < |groups| ==> groups[i].scope != groups[j].scope)
  }

  /** Nobody's run claims a watermark of a scope whose run failed. */
  lemma {:induction false} Unclaimed(groups: seq<Group>, n: nat, i: nat, s: Spot, x: nat)
    requires n <= |groups| && Grouped(groups) && i < |groups| && s.scope == groups[i].scope && groups[i].run.failed
    ensures (s, x) !in AllClaims(groups, n)
  {
    if n > 0 {
      Unclaimed(groups, n - 1, i, s, x);
      assert groups[n - 1].scope == groups[i].scope ==> n - 1 == i;
    }
  }

  lemma {:induction false} NobodySets(world: nat -> Move, from: nat, end: nat, s: Spot, x: nat)
    requires Quiet(world, from, end)
    ensures !SetByOthers(world, from, end, s, x)
  {
    forall t: nat | from <= t < end ensures s !in world(t).raised {
      assert world(t) == Move(map[], Works);
    }
  }

  /** With nobody else about, the watermarks of a scope whose run failed stay as they were. */
  lemma {:induction false} QuietStaysUncovered(groups: seq<Group>, i: nat, w: Watermarks, w': Watermarks, world: nat -> Move,
                                               from: nat, end: nat)
    requires Grouped(groups) && i < |groups| && groups[i].run.failed && Quiet(world, from, end)
    requires Sourced(w, w', world, from, end, AllClaims(groups, |groups|)) && AllCovered(groups[i].changes, w')
    ensures AllCovered(groups[i].changes, w)
  {
    forall m | m in groups[i].changes ensures Covered(m, w) {
      assert Covered(m, w') && m.scope == groups[i].scope;
      var s := Spot(m.scope, m.cell.value);
      Unclaimed(groups, |groups|, i, s, w'[s]);
      NobodySets(world, from, end, s, w'[s]);
    }
  }

  /** An undisturbed pass that reports no failure had none to report. */
  lemma {:induction false} QuietFailuresTold(groups: seq<Group>, markers: set<Marker>, w: Watermarks, w': Watermarks,
                                             world: nat -> Move, from: nat, end: nat)
    requires Grouped(groups) && Quiet(world, from, end) && FailedWereIdle(groups, |groups|, markers, w')
    requires Sourced(w, w', world, from, end, AllClaims(groups, |groups|))
    ensures NothingAmiss(groups, w)
  {
    forall i | 0 <= i < |groups| && groups[i].run.failed ensures AllCovered(groups[i].changes, w) {
      QuietStaysUncovered(groups, i, w, w', world, from, end);
    }
  }

  lemma {:induction false} StillAtLeast(w0: Watermarks, w1: Watermarks, w2: Watermarks)
    requires AtLeast(w0, w1) && AtLeast(w1, w2)
    ensures AtLeast(w0, w2)
  {
  }

  lemma {:induction false} ClearedStep(groups: seq<Group>, n: nat, markers: set<Marker>, markers': set<Marker>)
    requires n < |groups| && Cleared(groups, n, markers) && markers' <= markers
    requires !groups[n].run.failed ==>
      forall m | m in groups[n].changes && SettledBy(m, groups[n].run) :: m !in markers'
    ensures Cleared(groups, n + 1, markers')
  {
  }

  /** The scopes that became clean had a run without failures among the first `n` groups. */
  ghost predicate CleanedBy(groups: seq<Group>, n: nat, clean: set<nat>, clean': set<nat>)
    requires n <= |groups|
  {
    forall c | c in clean' && c !in clean :: exists i :: 0 <= i < n && groups[i].scope == c && !groups[i].run.failed
  }

  lemma {:induction false} CleanedStep(groups: seq<Group>, n: nat, clean: set<nat>, now: set<nat>, next: set<nat>)
    requires n < |groups| && CleanedBy(groups, n, clean, now)
    requires next <= now + {groups[n].scope} && (groups[n].run.failed ==> next == now)
    ensures CleanedBy(groups, n + 1, clean, next)
  {
  }

  /** The whole pass: the scopes in whatever order their runs end. */
  method RunPass(dir: Directory, groups: seq<Group>) returns (ok: bool)
    requires dir.Valid() && forall i :: 0 <= i < |groups| ==> Of(groups[i].changes, groups[i].scope)
    modifies dir
    ensures dir.Valid() && AllSafe(dir.history) && old(dir.history) <= dir.history
    ensures AtLeast(old(dir.watermarks), dir.watermarks)
    ensures CleanedBy(groups, |groups|, old(dir.clean), dir.clean)
    ensures dir.removed == old(dir.removed) + (old(dir.markers) - dir.markers) && dir.markers <= old(dir.markers)
    ensures ok || Quiet(dir.world, old(dir.tick), dir.tick) ==> Cleared(groups, |groups|, dir.markers)
    ensures ok || NoFaults(dir.world, old(dir.tick), dir.tick) ==>
      CoveredGone(groups, |groups|, old(dir.watermarks), dir.markers)
    ensures old(dir.tick) <= dir.tick
    ensures ok ==> FailedWereIdle(groups, |groups|, dir.markers, dir.watermarks)
    ensures Quiet(dir.world, old(dir.tick), dir.tick) && NothingAmiss(groups, old(dir.watermarks)) ==> ok
    ensures ok && Quiet(dir.world, old(dir.tick), dir.tick) && Grouped(groups) ==> NothingAmiss(groups, old(dir.watermarks))
    ensures Sourced(old(dir.watermarks), dir.watermarks, dir.world, old(dir.tick), dir.tick, AllClaims(groups, |groups|))
  {
    hide Sourced;
    hide SafeAt;
    hide AllSafe;
    hide Quiet;
    hide Cleared;
    hide CleanedBy;
    hide AtLeast;
    hide OwnClaims;
    hide SettledBy;
    hide Covered;
    hide NoFaults;
    hide AllCovered;
    hide FailedWereIdle;
    hide CoveredGone;
    hide NothingAmiss;
    hide Grouped;
    ok := true;
    StartsAtLeast(dir.watermarks);
    NothingSet(dir.watermarks, dir.world, dir.tick, {});
    PassStarts(groups, dir.clean, dir.markers, dir.watermarks);
    for i := 0 to |groups|
      invariant dir.Valid() && AllSafe(dir.history) && old(dir.history) <= dir.history
      invariant AtLeast(old(dir.watermarks), dir.watermarks)
      invariant CleanedBy(groups, i, old(dir.clean), dir.clean)
      invariant dir.removed == old(dir.removed) + (old(dir.markers) - dir.markers) && dir.markers <= old(dir.markers)
      invariant ok || Quiet(dir.world, old(dir.tick), dir.tick) ==> Cleared(groups, i, dir.markers)
      invariant ok || NoFaults(dir.world, old(dir.tick), dir.tick) ==>
        CoveredGone(groups, i, old(dir.watermarks), dir.markers)
      invariant old(dir.tick) <= dir.tick
      invariant Sourced(old(dir.watermarks), dir.watermarks, dir.world, old(dir.tick), dir.tick, AllClaims(groups, i))
      invariant ok ==> FailedWereIdle(groups, i, dir.markers, dir.watermarks)
      invariant Quiet(dir.world, old(dir.tick), dir.tick) && NothingAmiss(groups, old(dir.watermarks)) ==> ok
    {
      var g := groups[i];
      ghost var t, w, markers, clean := dir.tick, dir.watermarks, dir.markers, dir.clean;
      var done := ProcessScope(dir, g.scope, g.changes, g.run);
      QuietParts(dir.world, old(dir.tick), t, dir.tick);
      SourcedOn(old(dir.watermarks), w, dir.watermarks, dir.world, old(dir.tick), t, dir.tick,
                AllClaims(groups, i), OwnClaims(g.scope, g.changes, g.run), AllClaims(groups, i + 1));
      StillAtLeast(old(dir.watermarks), w, dir.watermarks);
      CleanedStep(groups, i, old(dir.clean), clean, dir.clean);
      if NothingAmiss(groups, old(dir.watermarks)) {
        StillNothingAmiss(groups, i, old(dir.watermarks), w);
      }
      ghost var calm, sound := Quiet(dir.world, old(dir.tick), dir.tick), NoFaults(dir.world, old(dir.tick), dir.tick);
      if (ok && done) || calm {
        ClearedStep(groups, i, markers, dir.markers);
      }
      if (ok && done) || sound {
        CoveredStep(groups, i, old(dir.watermarks), w, markers, dir.markers);
      }
      if ok && done {
        FailedStep(groups, i, markers, w, dir.markers, dir.watermarks);
      }
      ok := ok && done;
    }
    ghost var calm := ok && Quiet(dir.world, old(dir.tick), dir.tick) && Grouped(groups);
    if calm {
      QuietFailuresTold(groups, dir.markers, old(dir.watermarks), dir.watermarks, dir.world, old(dir.tick), dir.tick);
    }
  }

  lemma {:induction false} StartsAtLeast(w: Watermarks)
    ensures AtLeast(w, w)
  {
  }

  lemma {:induction false} PassStarts(groups: seq<Group>, clean: set<nat>, markers: set<Marker>, w: Watermarks)
    ensures CleanedBy(groups, 0, clean, clean) && Cleared(groups, 0, markers) && FailedWereIdle(groups, 0, markers, w)
    ensures CoveredGone(groups, 0, w, markers)
  {
  }
}
