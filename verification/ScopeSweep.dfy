/**
 The indexer's fair sweep over its registered scopes. Each cycle runs a slice of
 the registry behind a durable cursor; scope runs finish in any order, and the
 cursor is moved by compare-and-swap at checkpoints.

 Scope names are modelled by their rank: the source requires the names to sort
 like the scopes, and only their order is used.
 */
module ScopeSweep {
  import opened Base
  import opened Ordered

  // ----- the durable cursor

  datatype Stored = Absent | Present(name: nat, version: nat)

  datatype Cursor = Cursor(last: Option<nat>, version: Option<nat>)

  /** What the object store does with one conditional put. */
  datatype Fault = NoFault | FailsBefore | FailsAfter

  datatype Advance = Advanced(cursor: Cursor) | LostRace | StoreError

  function LoadCursor(st: Stored): Cursor {
    match st
    case Absent => Cursor(None, None)
    case Present(name, version) => Cursor(Some(name), Some(version))
  }

  predicate PreconditionHolds(st: Stored, cursor: Cursor) {
    match cursor.version
    case None => st.Absent?
    case Some(v) => st.Present? && st.version == v
  }

  function NextVersion(st: Stored): nat {
    if st.Absent? then 0 else st.version + 1
  }

  /** `advance_scope_cursor`: create or update under the cursor's version. */
  function AdvanceCursor(st: Stored, cursor: Cursor, name: nat, fault: Fault): (Stored, Advance) {
    if fault.FailsBefore? then (st, StoreError)
    else if !PreconditionHolds(st, cursor) then (st, LostRace)
    else
      var st' := Present(name, NextVersion(st));
      (st', if fault.FailsAfter? then StoreError else Advanced(LoadCursor(st')))
  }

  // ----- one fair slice

  const MIN_CHECKPOINT: nat := 64

  /** One durable move: to `slice[to - 1]`, made when the first `finished` completions were in. */
  datatype Move = Move(to: nat, finished: nat)

  /** The first `c` scopes of the slice are among the first `k` completions. */
  ghost predicate PrefixFinished(order: seq<nat>, k: nat, c: nat)
    requires k <= |order|
  {
    forall i :: 0 <= i < c ==> i in order[..k]
  }

  ghost predicate MovesJustified(moves: seq<Move>, order: seq<nat>, n: nat) {
    && (forall m :: m in moves ==> 0 < m.to <= n && m.finished <= |order| && PrefixFinished(order, m.finished, m.to))
    && (forall i, j :: 0 <= i < j < |moves| ==> moves[i].to < moves[j].to)
  }

  ghost function MovedBy(moves: seq<Move>): nat {
    if moves == [] then 0 else moves[|moves| - 1].to
  }

  /** How far `k` checkpoints reach into a slice of `n` scopes. */
  function Passed(k: nat, stride: nat, n: nat): nat {
    if k == 0 then 0 else Min(Passed(k - 1, stride, n) + stride, n)
  }

  /**
   What a slice comes to. It tries `tries` checkpoints, each once all scopes up to it have finished. It
   stops with the first try the store fails, the cursor moved before that try or, if the store failed
   only after writing, with it. Otherwise it goes on to the last checkpoint the finished scopes reach.
   */
  ghost predicate Comes(order: seq<nat>, faults: seq<Fault>, stride: nat, n: nat, tries: nat, moved: nat,
                        stop: Option<Advance>) {
    && PrefixFinished(order, |order|, Passed(tries, stride, n)) && (tries > 0 ==> Passed(tries - 1, stride, n) < n)
    && (forall q :: 0 <= q < tries - 1 ==> FaultAt(faults, q).NoFault?)
    && if tries > 0 && !FaultAt(faults, tries - 1).NoFault? then
         && stop == Some(StoreError)
         && moved == Passed(if FaultAt(faults, tries - 1).FailsAfter? then tries else tries - 1, stride, n)
       else
         && stop == None && moved == Passed(tries, stride, n)
         && (moved == n || !PrefixFinished(order, |order|, Passed(tries + 1, stride, n)))
  }

  /** Where the store stands after the moves. */
  ghost predicate StoreAfter(st: Stored, st': Stored, slice: seq<nat>, moves: seq<Move>)
  {
    if moves == [] then st' == st
    else
      var to := moves[|moves| - 1].to;
      0 < to <= |slice| && st'.Present? && st'.name == slice[to - 1]
  }

  function FaultAt(faults: seq<Fault>, q: nat): Fault {
    if q < |faults| then faults[q] else NoFault
  }

  /** The durable side of a fair run: the store, the cursor held, and what is reported about them. */
  datatype Progress = Progress(store: Stored, cursor: Option<Cursor>, ending: Option<nat>, progressed: bool,
                               stop: Option<Advance>)

  ghost predicate ProgressOk(p: Progress, start: Stored, slice: seq<nat>, moves: seq<Move>) {
    && StoreAfter(start, p.store, slice, moves)
    && (p.stop == None || p.stop == Some(StoreError))
    && (p.stop == None ==>
          && p.cursor == Some(LoadCursor(p.store))
          && p.ending == LoadCursor(p.store).last
          && (p.progressed <==> moves != []))
    && (p.stop.Some? ==> p.cursor == None)
  }

  lemma {:induction false} MovesExtend(moves: seq<Move>, order: seq<nat>, n: nat, m: Move)
    requires MovesJustified(moves, order, n) && (moves != [] ==> moves[|moves| - 1].to < m.to)
    requires 0 < m.to <= n && m.finished <= |order| && PrefixFinished(order, m.finished, m.to)
    ensures MovesJustified(moves + [m], order, n)
  {
  }

  /** One checkpoint: take the cursor, put conditionally, keep what came back. */
  method PassCheckpoint(p: Progress, slice: seq<nat>, checkpoint: nat, fault: Fault, finished: nat,
                        ghost start: Stored, ghost order: seq<nat>, ghost moves: seq<Move>)
    returns (p': Progress, ghost moves': seq<Move>)
    requires 0 < checkpoint <= |slice| && finished <= |order| && PrefixFinished(order, finished, checkpoint)
    requires ProgressOk(p, start, slice, moves) && p.stop == None
    requires MovesJustified(moves, order, |slice|) && (moves != [] ==> moves[|moves| - 1].to < checkpoint)
    ensures ProgressOk(p', start, slice, moves') && MovesJustified(moves', order, |slice|)
    ensures p'.stop == None <==> fault.NoFault?
    ensures moves' == if fault.FailsBefore? then moves else moves + [Move(checkpoint, finished)]
  {
    hide MovesJustified;
    MovesExtend(moves, order, |slice|, Move(checkpoint, finished));
    // The `expect` of the source: a cursor is always held here.
    assert p.cursor.Some?;
    var (store, outcome) := AdvanceCursor(p.store, p.cursor.value, slice[checkpoint - 1], fault);
    moves' := if store == p.store then moves else moves + [Move(checkpoint, finished)];
    assert store != p.store ==> store == Present(slice[checkpoint - 1], NextVersion(p.store));
    match outcome
    case Advanced(next) => p' := Progress(store, Some(next), next.last, true, None);
    case LostRace => p' := Progress(store, None, p.ending, p.progressed, Some(LostRace));
    case StoreError => p' := Progress(store, None, p.ending, p.progressed, Some(StoreError));
  }

  /** After `used` tries that the store answered: the cursor has moved past their checkpoints, and `next` is to come. */
  ghost predicate NextOk(next: Option<nat>, moves: seq<Move>, faults: seq<Fault>, used: nat, stride: nat, n: nat) {
    && MovedBy(moves) == Passed(used, stride, n) && (used > 0 ==> Passed(used - 1, stride, n) < n)
    && (forall q :: 0 <= q < used ==> FaultAt(faults, q).NoFault?)
    && next == if Passed(used, stride, n) < n then Some(Passed(used + 1, stride, n)) else None
  }

  /** The store failed try `used`. */
  ghost predicate StoppedAt(moves: seq<Move>, faults: seq<Fault>, used: nat, stride: nat, n: nat) {
    && used > 0 && !FaultAt(faults, used - 1).NoFault? && Passed(used - 1, stride, n) < n
    && (forall q :: 0 <= q < used - 1 ==> FaultAt(faults, q).NoFault?)
    && MovedBy(moves) == Passed(if FaultAt(faults, used - 1).FailsAfter? then used else used - 1, stride, n)
  }

  lemma {:induction false} NextReaches(moves: seq<Move>, faults: seq<Fault>, used: nat, stride: nat, n: nat, c: nat)
    requires 0 < stride && NextOk(Some(c), moves, faults, used, stride, n)
    ensures 0 < c <= n && MovedBy(moves) < c == Passed(used + 1, stride, n)
  {
  }

  /** The store answered the next try, or failed it. */
  lemma {:induction false} NextTried(moves: seq<Move>, moves': seq<Move>, faults: seq<Fault>, used: nat, stride: nat,
                                     n: nat, c: nat)
    requires 0 < stride && NextOk(Some(c), moves, faults, used, stride, n)
    requires MovedBy(moves') == if FaultAt(faults, used).FailsBefore? then MovedBy(moves) else c
    ensures FaultAt(faults, used).NoFault? ==>
      NextOk(if c < n then Some(Min(c + stride, n)) else None, moves', faults, used + 1, stride, n)
    ensures !FaultAt(faults, used).NoFault? ==> StoppedAt(moves', faults, used + 1, stride, n)
  {
    assert Passed(used + 2, stride, n) == Min(Passed(used + 1, stride, n) + stride, n);
  }

  /** Passes every checkpoint the contiguous prefix has reached; stops at the first store error. */
  method PassCheckpoints(p0: Progress, slice: seq<nat>, stride: nat, contiguous: nat, next0: Option<nat>,
                         faults: seq<Fault>, used0: nat, finished: nat,
                         ghost start: Stored, ghost order: seq<nat>, ghost moves0: seq<Move>)
    returns (p: Progress, next: Option<nat>, used: nat, ghost moves: seq<Move>)
    requires 0 < stride && contiguous <= |slice| && finished <= |order| && PrefixFinished(order, finished, contiguous)
    requires ProgressOk(p0, start, slice, moves0) && p0.stop == None
    requires MovesJustified(moves0, order, |slice|) && NextOk(next0, moves0, faults, used0, stride, |slice|)
    ensures ProgressOk(p, start, slice, moves) && MovesJustified(moves, order, |slice|)
    ensures p.stop == None ==>
      NextOk(next, moves, faults, used, stride, |slice|) && (next.Some? ==> contiguous < next.value)
    ensures p.stop.Some? ==>
      StoppedAt(moves, faults, used, stride, |slice|) && Passed(used, stride, |slice|) <= contiguous
  {
    hide NextOk;
    hide StoppedAt;
    hide Passed;
    hide MovesJustified;
    p, next, used, moves := p0, next0, used0, moves0;
    while next.Some? && contiguous >= next.value
      invariant ProgressOk(p, start, slice, moves) && MovesJustified(moves, order, |slice|)
      invariant p.stop == None && NextOk(next, moves, faults, used, stride, |slice|)
      decreases if next.Some? then |slice| + 1 - next.value else 0
    {
      var checkpoint := next.value;
      ghost var before := moves;
      NextReaches(moves, faults, used, stride, |slice|, checkpoint);
      p, moves := PassCheckpoint(p, slice, checkpoint, FaultAt(faults, used), finished, start, order, moves);
      NextTried(before, moves, faults, used, stride, |slice|, checkpoint);
      used := used + 1;
      if p.stop.Some? { return; }
      next := if checkpoint < |slice| then Some(Min(checkpoint + stride, |slice|)) else None;
    }
  }

  ghost predicate Tracks(completed: seq<bool>, order: seq<nat>, k: nat)
    requires k <= |order|
  {
    forall i :: 0 <= i < |completed| ==> (completed[i] <==> i in order[..k])
  }

  /** Marks one completion and extends the contiguous prefix as far as it goes. */
  method MarkCompleted(completed: array<bool>, index: nat, contiguous0: nat) returns (contiguous: nat)
    requires index < completed.Length && contiguous0 <= completed.Length
    requires forall i :: 0 <= i < contiguous0 ==> completed[i]
    modifies completed
    ensures completed[..] == old(completed[..])[index := true]
    ensures contiguous <= completed.Length && forall i :: 0 <= i < contiguous ==> completed[i]
    ensures contiguous < completed.Length ==> !completed[contiguous]
  {
    completed[index] := true;
    contiguous := contiguous0;
    while contiguous < completed.Length && completed[contiguous]
      invariant contiguous <= completed.Length && forall i :: 0 <= i < contiguous ==> completed[i]
      invariant completed[..] == old(completed[..])[index := true]
    {
      contiguous := contiguous + 1;
    }
  }

  lemma {:induction false} TracksNext(before: seq<bool>, after: seq<bool>, order: seq<nat>, k: nat, c: nat)
    requires k < |order| && order[k] < |before| && Tracks(before, order, k) && after == before[order[k] := true]
    requires c <= |after| && forall i :: 0 <= i < c ==> after[i]
    ensures Tracks(after, order, k + 1)
    ensures PrefixFinished(order, k + 1, c)
  {
  }

  /**
   `run_fair_scope_stream`: scope runs complete in the given order. The cursor moves
   only past scopes that have finished, is always held when a checkpoint is reached,
   and never loses a race it does not have.
   */
  method RunFairSlice(slice: seq<nat>, order: seq<nat>, concurrency: nat, start: Stored, cursor: Cursor, faults: seq<Fault>)
    returns (p: Progress, ghost moves: seq<Move>, ghost tries: nat)
    requires cursor == LoadCursor(start)
    requires forall i :: 0 <= i < |order| ==> order[i] < |slice|
    ensures ProgressOk(p, start, slice, moves) && MovesJustified(moves, order, |slice|)
    ensures Comes(order, faults, Max(concurrency, MIN_CHECKPOINT), |slice|, tries, MovedBy(moves), p.stop)
    ensures p.stop == None ==> p.cursor == Some(LoadCursor(p.store))
  {
    hide StoreAfter;
    hide MovesJustified;
    hide NextOk;
    hide StoppedAt;
    hide Comes;
    p, moves, tries := Progress(start, Some(cursor), cursor.last, false, None), [], 0;
    SliceBegins(p, start, slice, cursor, order, faults, Max(concurrency, MIN_CHECKPOINT));
    if slice == [] { return; }
    var completed := new bool[|slice|](_ => false);
    var contiguous: nat, used: nat := 0, 0;
    var stride := Max(concurrency, MIN_CHECKPOINT);
    var next := Some(Min(stride, |slice|));
    for k := 0 to |order|
      invariant ProgressOk(p, start, slice, moves) && MovesJustified(moves, order, |slice|) && p.stop == None
      invariant Tracks(completed[..], order, k)
      invariant contiguous <= |slice| && forall i :: 0 <= i < contiguous ==> completed[i]
      invariant contiguous < |slice| ==> !completed[contiguous]
      invariant NextOk(next, moves, faults, used, stride, |slice|) && (next.Some? ==> contiguous < next.value)
    {
      ghost var before := completed[..];
      contiguous := MarkCompleted(completed, order[k], contiguous);
      TracksNext(before, completed[..], order, k, contiguous);
      p, next, used, moves := PassCheckpoints(p, slice, stride, contiguous, next, faults, used, k + 1, start, order, moves);
      tries := used;
      if p.stop.Some? {
        SliceStops(order, k + 1, contiguous, moves, faults, used, stride, |slice|);
        return;
      }
    }
    tries := used;
    SliceEnds(completed[..], order, contiguous, next, moves, faults, used, stride);
  }

  lemma {:induction false} SliceBegins(p: Progress, start: Stored, slice: seq<nat>, cursor: Cursor, order: seq<nat>,
                                       faults: seq<Fault>, stride: nat)
    requires p == Progress(start, Some(cursor), cursor.last, false, None) && cursor == LoadCursor(start) && 0 < stride
    ensures ProgressOk(p, start, slice, []) && MovesJustified([], order, |slice|)
    ensures NextOk(if slice == [] then None else Some(Min(stride, |slice|)), [], faults, 0, stride, |slice|)
    ensures slice == [] ==> Comes(order, faults, stride, |slice|, 0, 0, None)
  {
    assert Passed(1, stride, |slice|) == Min(stride, |slice|);
  }

  lemma {:induction false} SliceStops(order: seq<nat>, k: nat, contiguous: nat, moves: seq<Move>, faults: seq<Fault>,
                                      used: nat, stride: nat, n: nat)
    requires k <= |order| && PrefixFinished(order, k, contiguous) && StoppedAt(moves, faults, used, stride, n)
    requires Passed(used, stride, n) <= contiguous
    ensures Comes(order, faults, stride, n, used, MovedBy(moves), Some(StoreError))
  {
    FinishedStays(order, k, Passed(used, stride, n));
  }

  lemma {:induction false} SliceEnds(completed: seq<bool>, order: seq<nat>, contiguous: nat, next: Option<nat>, moves: seq<Move>,
                                     faults: seq<Fault>, used: nat, stride: nat)
    requires Tracks(completed, order, |order|) && contiguous <= |completed|
    requires contiguous < |completed| ==> !completed[contiguous]
    requires MovesJustified(moves, order, |completed|) && NextOk(next, moves, faults, used, stride, |completed|)
    requires next.Some? ==> contiguous < next.value
    ensures Comes(order, faults, stride, |completed|, used, MovedBy(moves), None)
  {
    LastPassed(completed, order, contiguous, moves, Passed(used, stride, |completed|));
  }

  lemma {:induction false} FinishedStays(order: seq<nat>, k: nat, c: nat)
    requires k <= |order| && PrefixFinished(order, k, c)
    ensures PrefixFinished(order, |order|, c)
  {
    forall i | 0 <= i < c ensures i in order[..|order|] {
      assert i in order[..k];
    }
  }

  lemma {:induction false} LastPassed(completed: seq<bool>, order: seq<nat>, contiguous: nat, moves: seq<Move>, passed: nat)
    requires Tracks(completed, order, |order|) && contiguous <= |completed|
    requires contiguous < |completed| ==> !completed[contiguous]
    requires MovesJustified(moves, order, |completed|) && passed == MovedBy(moves)
    ensures PrefixFinished(order, |order|, passed)
    ensures forall c :: contiguous < c <= |completed| ==> !PrefixFinished(order, |order|, c)
  {
    if moves != [] {
      var last := moves[|moves| - 1];
      assert last in moves;
      FinishedStays(order, last.finished, last.to);
    }
    if contiguous < |completed| {
      assert contiguous !in order[..|order|];
    }
  }

  // ----- one cycle

  const HOT_DIVISOR: nat := 4
  const MAX_CONCURRENCY: nat := 64
  const MAX_PER_CYCLE: nat := 16_384

  function HotBudget(perCycle: nat, concurrency: nat): (hot: nat)
    ensures hot <= perCycle
  {
    if perCycle <= 1 then 0 else Min(Min(Max(perCycle / HOT_DIVISOR, 1), concurrency), perCycle - 1)
  }

  /**
   What a cycle sets aside for hot scopes: the most that is at most a quarter of its places, or one where that is
   less, at most as many as run at a time, and leaves a place for the fair slice.
   */
  lemma {:induction false} HotBudgetIsMost(perCycle: nat, concurrency: nat, n: nat)
    requires 0 < perCycle
    ensures n <= HotBudget(perCycle, concurrency) <==> (4 * n <= perCycle || n <= 1) && n <= concurrency && n < perCycle
  {
  }

  /** `completed_scope_sweep`. */
  predicate CompletedSweep(progressed: bool, starting: Option<nat>, ending: Option<nat>, final: Option<nat>, registered: bool) {
    && progressed
    && (|| (ending == final && ending.Some?)
        || (registered && starting.Some? && ending.Some? && final.Some?
            && starting != final && ending.value < starting.value))
  }

  function SliceOf(reg: seq<nat>, first: nat, len: nat): seq<nat>
    requires reg != []
  {
    seq(len, i requires 0 <= i < len => reg[(first + i) % |reg|])
  }

  /** The scope `i` places after the one behind the cursor. */
  function ScopeAfter(reg: seq<nat>, from: int, i: nat): nat
    requires reg != [] && from >= -1
  {
    reg[(from + 1 + i) % |reg|]
  }

  /** The fair slice: at most `budget` scopes, wrapping, each at most once. */
  method BuildSlice(reg: seq<nat>, first: nat, budget: nat) returns (slice: seq<nat>)
    requires reg != [] && 0 < budget
    ensures slice == SliceOf(reg, first, Min(budget, |reg|))
  {
    slice := [];
    for offset := 0 to |reg|
      invariant slice == SliceOf(reg, first, offset) && offset < budget
    {
      slice := slice + [reg[(first + offset) % |reg|]];
      if |slice| == budget { return; }
    }
  }

  /** The cursor stands at position `p` of the registry; -1 means it was never written or its scope is not registered. */
  ghost predicate At(reg: seq<nat>, st: Stored, p: int) {
    if p == -1 then st.Absent? || st.name !in reg else 0 <= p < |reg| && st.Present? && st.name == reg[p]
  }

  /** What one cycle did: the cursor went `moved` scopes on from position `from`, all of them finished. */
  datatype Cycle = Cycle(start: Stored, finish: Stored, from: int, moved: nat, finished: set<nat>, report: bool)

  function Target(reg: seq<nat>, from: int, moved: nat): int
    requires reg != [] && from >= -1
  {
    if moved == 0 then from else (from + moved) % |reg|
  }

  /** The cursor reached the registry's end, or passed it and came round to a lower name. */
  predicate EndsSweep(reg: seq<nat>, from: int, moved: nat)
    requires reg != [] && from >= -1
  {
    moved > 0 && var to := Target(reg, from, moved);
    to == |reg| - 1 || (0 <= from && from != |reg| - 1 && to < from)
  }

  ghost predicate CycleOk(reg: seq<nat>, c: Cycle) {
    && reg != [] && -1 <= c.from < |reg| && c.moved <= |reg|
    && At(reg, c.start, c.from)
    && At(reg, c.finish, Target(reg, c.from, c.moved))
    && (forall i :: 0 <= i < c.moved ==> ScopeAfter(reg, c.from, i) in c.finished)
    && (c.report ==> EndsSweep(reg, c.from, c.moved))
  }

  datatype CycleResult = ConfigError | Failed | Done(report: bool)

  ghost function FinishedBy(slice: seq<nat>, order: seq<nat>, moves: seq<Move>): set<nat>
    requires forall i :: 0 <= i < |order| ==> order[i] < |slice|
  {
    if moves == [] || moves[|moves| - 1].finished > |order| then {}
    else set i | 0 <= i < moves[|moves| - 1].finished :: slice[order[i]]
  }

  lemma {:induction false} ModBelowTwice(x: nat, n: nat)
    requires 0 < n && x < 2 * n
    ensures x % n == if x < n then x else x - n
  {
  }

  lemma {:induction false} SliceFollowsCursor(reg: seq<nat>, from: int, first: nat, len: nat)
    requires reg != [] && -1 <= from < |reg| && len <= |reg|
    requires first == if from == -1 then 0 else (from + 1) % |reg|
    ensures forall i :: 0 <= i < len ==> SliceOf(reg, first, len)[i] == ScopeAfter(reg, from, i)
  {
    var n := |reg|;
    ModBelowTwice(from + 1, n);
    forall i | 0 <= i < len ensures SliceOf(reg, first, len)[i] == ScopeAfter(reg, from, i) {
      ModBelowTwice(first + i, n);
      ModBelowTwice(from + 1 + i, n);
    }
  }

  lemma {:induction false} FinishedIncludes(slice: seq<nat>, order: seq<nat>, moves: seq<Move>, i: nat)
    requires forall k :: 0 <= k < |order| ==> order[k] < |slice|
    requires MovesJustified(moves, order, |slice|) && i < MovedBy(moves)
    ensures i < |slice| && slice[i] in FinishedBy(slice, order, moves)
  {
    var last := moves[|moves| - 1];
    assert last in moves;
    assert i in order[..last.finished];
    var k :| 0 <= k < last.finished && order[k] == i;
    assert slice[order[k]] in FinishedBy(slice, order, moves);
  }

  /** Every scope counted as finished is one whose run finished. */
  ghost predicate OnlyRan(reg: seq<nat>, from: int, order: seq<nat>, finished: set<nat>)
    requires reg != [] && from >= -1
  {
    forall x | x in finished :: exists i :: 0 <= i < |order| && x == ScopeAfter(reg, from, order[i])
  }

  lemma {:induction false} CycleFollows(reg: seq<nat>, store: Stored, store': Stored, from: int, slice: seq<nat>, order: seq<nat>,
                     moves: seq<Move>, finished: set<nat>)
    requires reg != [] && -1 <= from < |reg| && At(reg, store, from) && |slice| <= |reg|
    requires forall i :: 0 <= i < |slice| ==> slice[i] == ScopeAfter(reg, from, i)
    requires forall k :: 0 <= k < |order| ==> order[k] < |slice|
    requires MovesJustified(moves, order, |slice|) && StoreAfter(store, store', slice, moves)
    requires finished == FinishedBy(slice, order, moves)
    ensures CycleOk(reg, Cycle(store, store', from, MovedBy(moves), finished, false))
    ensures OnlyRan(reg, from, order, finished)
  {
    var moved := MovedBy(moves);
    if moves != [] {
      assert moves[|moves| - 1] in moves;
      assert store'.name == slice[moved - 1] == ScopeAfter(reg, from, moved - 1) == reg[Target(reg, from, moved)];
    }
    forall i | 0 <= i < moved ensures ScopeAfter(reg, from, i) in finished {
      FinishedIncludes(slice, order, moves, i);
    }
  }

  lemma {:induction false} ReportMeans(reg: seq<nat>, c: Cycle, progressed: bool, starting: Option<nat>,
                                       ending: Option<nat>, registered: bool)
    requires StrictlyIncreasing(reg) && CycleOk(reg, c)
    requires progressed <==> c.moved > 0
    requires starting == LoadCursor(c.start).last && ending == LoadCursor(c.finish).last && (registered <==> c.from >= 0)
    ensures CompletedSweep(progressed, starting, ending, Some(reg[|reg| - 1]), registered) <==> EndsSweep(reg, c.from, c.moved)
  {
  }

  /** Runs the fair slice after the cursor and says whether that ends a sweep. */
  method RunSlice(reg: seq<nat>, store: Stored, cursor: Cursor, concurrency: nat, coldBudget: nat,
                  order: seq<nat>, faults: seq<Fault>, ghost from: int)
    returns (p: Progress, report: bool, ghost cycle: Cycle, ghost tries: nat)
    requires reg != [] && StrictlyIncreasing(reg) && -1 <= from < |reg| && At(reg, store, from)
    requires cursor == LoadCursor(store) && 0 < coldBudget
    requires forall i :: 0 <= i < |order| ==> order[i] < Min(coldBudget, |reg|)
    ensures CycleOk(reg, cycle) && cycle.start == store && cycle.finish == p.store && cycle.from == from && !cycle.report
    ensures OnlyRan(reg, from, order, cycle.finished)
    ensures Comes(order, faults, Max(concurrency, MIN_CHECKPOINT), Min(coldBudget, |reg|), tries, cycle.moved, p.stop)
    ensures p.stop == None ==> (report <==> EndsSweep(reg, from, cycle.moved))
    ensures p.cursor.Some? ==> p.cursor.value == LoadCursor(p.store)
  {
    var position := match cursor.last { case Some(name) => BinarySearch(reg, name) case None => None };
    var first := match position { case Some(at) => (at + 1) % |reg| case None => 0 };
    var slice := BuildSlice(reg, first, coldBudget);
    ghost var moves;
    p, moves, tries := RunFairSlice(slice, order, concurrency, store, cursor, faults);
    report := CompletedSweep(p.progressed, cursor.last, p.ending, Some(reg[|reg| - 1]), position.Some?);
    SliceFollowsCursor(reg, from, first, |slice|);
    ghost var finished := FinishedBy(slice, order, moves);
    CycleFollows(reg, store, p.store, from, slice, order, moves, finished);
    cycle := Cycle(store, p.store, from, MovedBy(moves), finished, false);
    if p.stop == None {
      ReportMeans(reg, cycle, p.progressed, cursor.last, p.ending, position.Some?);
    }
  }

  /** What a cycle is given: its limits, the hot scopes it runs first, and what its runs and the store do. */
  datatype Input = Input(concurrency: nat, perCycle: nat, hot: nat, order: seq<nat>, faults: seq<Fault>, loadFails: bool,
                         runFails: bool)

  predicate ConfigOk(i: Input) {
    1 <= i.concurrency <= MAX_CONCURRENCY && i.concurrency <= i.perCycle <= MAX_PER_CYCLE
  }

  function ColdScopes(i: Input, n: nat): nat { Min(SatSub(i.perCycle, i.hot), n) }

  ghost predicate InputOk(i: Input, n: nat) {
    && i.hot <= HotBudget(i.perCycle, i.concurrency)
    && forall k :: 0 <= k < |i.order| ==> i.order[k] < ColdScopes(i, n)
  }

  /** The store failed the last of `tries` cursor updates. */
  predicate StoreFails(i: Input, tries: nat) { tries > 0 && !FaultAt(i.faults, tries - 1).NoFault? }

  /** Whether a cycle gets as far as its slice. */
  predicate Begins(i: Input, cached: Option<Cursor>) { ConfigOk(i) && (cached.Some? || !i.loadFails) }

  /**
   What a cycle over a registry with scopes answers. It refuses exactly a bad configuration, fails exactly when the
   cursor cannot be loaded, a run fails or the store does, and otherwise reports whether the cursor reached or passed
   the registry's end. `moved` is how far the slice gets.
   */
  ghost predicate Answers(reg: seq<nat>, i: Input, cached: Option<Cursor>, c: Cycle, result: CycleResult, tries: nat)
    requires reg != [] && c.from >= -1
  {
    && OnlyRan(reg, c.from, i.order, c.finished)
    && (c.report <==> result == Done(true))
    && (result == ConfigError <==> !(1 <= i.concurrency <= 64 && i.concurrency <= i.perCycle <= 16_384))
    && (result == Failed <==> ConfigOk(i) && (!Begins(i, cached) || i.runFails || StoreFails(i, tries)))
    && (result.Done? ==> (result.report <==> EndsSweep(reg, c.from, c.moved)))
    && if Begins(i, cached) then
         Comes(i.order, i.faults, Max(i.concurrency, 64), Min(SatSub(i.perCycle, i.hot), |reg|), tries, c.moved,
               if StoreFails(i, tries) then Some(StoreError) else None)
       else c.moved == tries == 0
  }

  /** A cycle that does not get to its slice. */
  lemma {:induction false} StaysPut(reg: seq<nat>, store: Stored, from: int, order: seq<nat>)
    requires reg != [] && -1 <= from && At(reg, store, from)
    ensures CycleOk(reg, Cycle(store, store, from, 0, {}, false)) && OnlyRan(reg, from, order, {})
  {
  }

  lemma {:induction false} Reported(reg: seq<nat>, c: Cycle, report: bool)
    requires CycleOk(reg, c) && (report ==> EndsSweep(reg, c.from, c.moved))
    ensures CycleOk(reg, c.(report := report))
  {
  }

  /** `run_registered_scopes_cycle` over a listed registry; one without scopes is reported as swept at once. */
  method RunCycle(reg: seq<nat>, store: Stored, cached: Option<Cursor>, i: Input, ghost from: int)
    returns (store': Stored, cached': Option<Cursor>, result: CycleResult, ghost cycle: Cycle, ghost tries: nat)
    requires StrictlyIncreasing(reg) && -1 <= from && At(reg, store, from) && InputOk(i, |reg|)
    requires cached.Some? ==> cached.value == LoadCursor(store)
    ensures reg == [] ==> store' == store && cached' == cached && result == if ConfigOk(i) then Done(true) else ConfigError
    ensures reg != [] ==>
      && CycleOk(reg, cycle) && cycle.start == store && cycle.finish == store' && cycle.from == from
      && Answers(reg, i, cached, cycle, result, tries)
    ensures cached'.Some? ==> cached'.value == LoadCursor(store')
  {
    hide CycleOk;
    hide OnlyRan;
    hide Comes;
    hide EndsSweep;
    store', cached', tries := store, cached, 0;
    cycle := Cycle(store, store, from, 0, {}, false);
    if reg != [] {
      StaysPut(reg, store, from, i.order);
    }
    if !ConfigOk(i) {
      result := ConfigError;
      return;
    }
    if reg == [] {
      result := Done(true);
      return;
    }
    if cached.None? && i.loadFails {
      result := Failed;
      return;
    }
    var cursor := if cached.Some? then cached.value else LoadCursor(store);
    var p, report;
    p, report, cycle, tries :=
      RunSlice(reg, store, cursor, i.concurrency, SatSub(i.perCycle, i.hot), i.order, i.faults, from);
    store', cached' := p.store, p.cursor;
    var failed := i.runFails || p.stop == Some(StoreError);
    result := if failed then Failed else Done(report);
    if !failed {
      Reported(reg, cycle, report);
      cycle := cycle.(report := report);
    }
  }

  // ----- whole runs

  /** The scope at position `q` was among the `moved` scopes after the cursor. */
  lemma {:induction false} PassedScope(reg: seq<nat>, c: Cycle, q: nat)
    requires CycleOk(reg, c) && q < |reg|
    requires c.from < q <= c.from + c.moved || q + |reg| <= c.from + c.moved
    ensures reg[q] in c.finished
  {
    var i := if c.from < q then q - c.from - 1 else q + |reg| - c.from - 1;
    ModBelowTwice(c.from + 1 + i, |reg|);
    assert ScopeAfter(reg, c.from, i) == reg[q];
  }

  /**
   From position `p0` on nothing is left open behind the cursor: all up to it is covered, or it stands at the
   registry's end and a new sweep begins.
   */
  ghost predicate CoveredUpTo(reg: seq<nat>, p0: int, p: int, covered: set<nat>) {
    p == |reg| - 1 || forall q :: 0 <= q < |reg| && p0 < q <= p ==> reg[q] in covered
  }

  lemma {:induction false} CycleCovers(reg: seq<nat>, c: Cycle, p0: int, covered: set<nat>)
    requires CycleOk(reg, c) && CoveredUpTo(reg, p0, c.from, covered)
    ensures CoveredUpTo(reg, p0, Target(reg, c.from, c.moved), covered + c.finished)
    ensures c.report ==> forall q :: 0 <= q < |reg| && p0 < q ==> reg[q] in covered + c.finished
  {
    var (n, to) := (|reg|, Target(reg, c.from, c.moved));
    if c.moved > 0 { ModBelowTwice(c.from + c.moved, n); }
    var now := covered + c.finished;
    forall q | 0 <= q < n && p0 < q <= to && to != n - 1 ensures reg[q] in now {
      if c.from < q <= c.from + c.moved || q + n <= c.from + c.moved { PassedScope(reg, c, q); }
    }
    if c.report {
      forall q | 0 <= q < n && p0 < q ensures reg[q] in now {
        if c.from < q <= c.from + c.moved || q + n <= c.from + c.moved { PassedScope(reg, c, q); }
      }
    }
  }

  /** A reporting cycle by itself covers everything from the registry's start to where it ends. */
  lemma {:induction false} ReportCovers(reg: seq<nat>, c: Cycle)
    requires CycleOk(reg, c) && c.report
    ensures CoveredUpTo(reg, -1, Target(reg, c.from, c.moved), c.finished)
  {
    var (n, to) := (|reg|, Target(reg, c.from, c.moved));
    ModBelowTwice(c.from + c.moved, n);
    forall q | 0 <= q <= to && to != n - 1 ensures reg[q] in c.finished { PassedScope(reg, c, q); }
  }

  ghost predicate IsRun(reg: seq<nat>, cycles: seq<Cycle>) {
    && (forall i :: 0 <= i < |cycles| ==> CycleOk(reg, cycles[i]))
    && (forall i, j :: 0 <= i && j == i + 1 && j < |cycles| ==>
                         cycles[j].from == Target(reg, cycles[i].from, cycles[i].moved))
  }

  /** Scopes finished in cycles `lo` up to, not including, `hi`. */
  ghost function FinishedIn(cycles: seq<Cycle>, lo: nat, hi: nat): set<nat>
    requires lo <= hi <= |cycles|
  {
    if lo == hi then {} else FinishedIn(cycles, lo, hi - 1) + cycles[hi - 1].finished
  }

  ghost predicate NoReport(cycles: seq<Cycle>, lo: nat, hi: nat) {
    forall i :: lo <= i < hi && i < |cycles| ==> !cycles[i].report
  }

  /** Where a sweep begins that finds the cursor at `p`: behind it, or anew if it stands at the registry's end. */
  function SweepStart(reg: seq<nat>, p: int): int { if p == |reg| - 1 then -1 else p }

  /** Cycle `lo` is one from which on coverage can be counted, beginning behind position `p0`. */
  ghost predicate CountsFrom(reg: seq<nat>, c: Cycle, p0: int) {
    p0 == SweepStart(reg, c.from) || (p0 == -1 && c.report)
  }

  lemma {:induction false} CoverageSince(reg: seq<nat>, cycles: seq<Cycle>, lo: nat, hi: nat, p0: int)
    requires IsRun(reg, cycles) && lo < hi <= |cycles| && CountsFrom(reg, cycles[lo], p0)
    requires NoReport(cycles, lo + 1, hi)
    ensures CoveredUpTo(reg, p0, Target(reg, cycles[hi - 1].from, cycles[hi - 1].moved), FinishedIn(cycles, lo, hi))
    decreases hi
  {
    var c := cycles[hi - 1];
    if hi == lo + 1 {
      assert FinishedIn(cycles, lo, lo) == {} && FinishedIn(cycles, lo, hi) == c.finished;
      if p0 == SweepStart(reg, c.from) {
        CycleCovers(reg, c, p0, {});
        assert {} + c.finished == c.finished;
      } else {
        ReportCovers(reg, c);
      }
    } else {
      CoverageSince(reg, cycles, lo, hi - 1, p0);
      CycleCovers(reg, c, p0, FinishedIn(cycles, lo, hi - 1));
    }
  }

  lemma {:induction false} ReportMeansSince(reg: seq<nat>, cycles: seq<Cycle>, lo: nat, hi: nat, p0: int, q: nat)
    requires IsRun(reg, cycles) && lo <= hi < |cycles| && cycles[hi].report && p0 < q < |reg|
    requires if lo == hi then p0 == SweepStart(reg, cycles[lo].from) else CountsFrom(reg, cycles[lo], p0)
    requires NoReport(cycles, lo + 1, hi)
    ensures reg[q] in FinishedIn(cycles, lo, hi + 1)
  {
    if lo == hi {
      assert FinishedIn(cycles, lo, lo) == {};
      CycleCovers(reg, cycles[hi], p0, {});
    } else {
      CoverageSince(reg, cycles, lo, hi, p0);
      CycleCovers(reg, cycles[hi], p0, FinishedIn(cycles, lo, hi));
    }
  }

  /**
   Each full-sweep report means every registered scope finished a run since the previous
   report's cycle, that cycle included, as long as the registry stays the same.
   */
  lemma {:induction false} ReportMeansFullSweep(reg: seq<nat>, cycles: seq<Cycle>, lo: nat, hi: nat, q: nat)
    requires IsRun(reg, cycles) && lo < hi < |cycles| && cycles[lo].report && cycles[hi].report && q < |reg|
    requires NoReport(cycles, lo + 1, hi)
    ensures reg[q] in FinishedIn(cycles, lo, hi + 1)
  {
    ReportMeansSince(reg, cycles, lo, hi, -1, q);
  }

  /**
   The first report after the registry was listed means every scope behind the cursor finished a run, and every
   scope if the cursor was never written, is not registered or stands at the registry's end.
   */
  lemma {:induction false} FirstReportMeans(reg: seq<nat>, cycles: seq<Cycle>, hi: nat, q: nat)
    requires IsRun(reg, cycles) && hi < |cycles| && cycles[hi].report && NoReport(cycles, 0, hi)
    requires SweepStart(reg, cycles[0].from) < q < |reg|
    ensures reg[q] in FinishedIn(cycles, 0, hi + 1)
  {
    ReportMeansSince(reg, cycles, 0, hi, SweepStart(reg, cycles[0].from), q);
  }

  /**
   The converse fails: a slice of the whole registry reports a sweep exactly when the cursor was never
   written or stands at the registry's end. From anywhere between, it ends where it began and reports nothing.
   */
  lemma {:induction false} WholeSliceReports(reg: seq<nat>, from: int)
    requires reg != [] && -1 <= from < |reg|
    ensures EndsSweep(reg, from, |reg|) <==> from == -1 || from == |reg| - 1
    ensures from >= 0 ==> Target(reg, from, |reg|) == from
  {
    if from >= 0 {
      ModBelowTwice(from + |reg|, |reg|);
    }
  }

  /** The store keeps every promise and all runs of the slice finish without a failure. */
  ghost predicate Healthy(i: Input, n: nat) {
    && ConfigOk(i) && !i.loadFails && !i.runFails
    && (forall q :: 0 <= q < |i.faults| ==> i.faults[q].NoFault?)
    && (forall k :: 0 <= k < ColdScopes(i, n) ==> k in i.order)
  }

  /** A healthy cycle moves the cursor past its whole slice. */
  lemma {:induction false} HealthyMoves(reg: seq<nat>, i: Input, cached: Option<Cursor>, c: Cycle, result: CycleResult, tries: nat)
    requires reg != [] && c.from >= -1 && Answers(reg, i, cached, c, result, tries) && Healthy(i, |reg|)
    ensures c.moved == ColdScopes(i, |reg|) && result == Done(EndsSweep(reg, c.from, c.moved))
  {
    var n, stride := ColdScopes(i, |reg|), Max(i.concurrency, MIN_CHECKPOINT);
    assert i.order[..|i.order|] == i.order;
    assert PrefixFinished(i.order, |i.order|, n);
    assert PrefixFinished(i.order, |i.order|, Passed(tries + 1, stride, n));
  }

  /** What is known of one cycle of a sweep. */
  ghost predicate Known(reg: seq<nat>, i: Input, result: CycleResult, c: Cycle)
    requires reg != [] && c.from >= -1
  {
    && OnlyRan(reg, c.from, i.order, c.finished)
    && (c.report <==> result == Done(true))
    && (result == ConfigError <==> !ConfigOk(i))
    && (result.Done? ==> (result.report <==> EndsSweep(reg, c.from, c.moved)))
    && (Healthy(i, |reg|) ==> result.Done? && c.moved == ColdScopes(i, |reg|))
  }

  /** The cycles of a sweep from position `first` make a run of the kind above, with its answers. */
  ghost predicate Swept(reg: seq<nat>, first: int, inputs: seq<Input>, results: seq<CycleResult>, cycles: seq<Cycle>) {
    && |results| == |cycles| == |inputs| && reg != [] && IsRun(reg, cycles) && (cycles != [] ==> cycles[0].from == first)
    && forall i :: 0 <= i < |cycles| ==> cycles[i].from >= -1 && Known(reg, inputs[i], results[i], cycles[i])
  }

  /** Where the cursor stands after the cycles. */
  ghost function Reaches(reg: seq<nat>, first: int, cycles: seq<Cycle>): int
    requires reg != [] && (cycles != [] ==> cycles[|cycles| - 1].from >= -1)
  {
    if cycles == [] then first else Target(reg, cycles[|cycles| - 1].from, cycles[|cycles| - 1].moved)
  }

  lemma {:induction false} SweptOn(reg: seq<nat>, first: int, inputs: seq<Input>, results: seq<CycleResult>, cycles: seq<Cycle>,
                                   i: Input, result: CycleResult, c: Cycle)
    requires Swept(reg, first, inputs, results, cycles) && CycleOk(reg, c) && c.from == Reaches(reg, first, cycles)
    requires c.from >= -1 && Known(reg, i, result, c)
    ensures Swept(reg, first, inputs + [i], results + [result], cycles + [c])
  {
    hide CycleOk;
    hide Known;
    var all := cycles + [c];
    assert IsRun(reg, all);
    forall k | 0 <= k < |all| ensures all[k].from >= -1 && Known(reg, (inputs + [i])[k], (results + [result])[k], all[k]) {
      if k < |cycles| {
        assert Known(reg, inputs[k], results[k], cycles[k]);
      }
    }
  }

  /** Where the cursor stands in the registry. */
  ghost function PositionOf(reg: seq<nat>, st: Stored): (p: int)
    ensures -1 <= p && At(reg, st, p)
  {
    if st.Present? && st.name in reg then
      var p :| 0 <= p < |reg| && reg[p] == st.name;
      p
    else -1
  }

  /**
   The indexer's cycles over one listing of the registry, from whatever cursor is stored: one after another, each
   with what the one before it left.
   */
  method Sweep(reg: seq<nat>, start: Stored, inputs: seq<Input>)
    returns (results: seq<CycleResult>, ghost first: int, ghost cycles: seq<Cycle>)
    requires reg != [] && StrictlyIncreasing(reg) && forall i :: 0 <= i < |inputs| ==> InputOk(inputs[i], |reg|)
    ensures At(reg, start, first) && Swept(reg, first, inputs, results, cycles)
  {
    hide Answers;
    hide Known;
    hide CycleOk;
    results, cycles, first := [], [], PositionOf(reg, start);
    var store, cached := start, None;
    for k := 0 to |inputs|
      invariant Swept(reg, first, inputs[..k], results, cycles)
      invariant -1 <= Reaches(reg, first, cycles) && At(reg, store, Reaches(reg, first, cycles))
      invariant cached.Some? ==> cached.value == LoadCursor(store)
    {
      ghost var before := cached;
      var result;
      ghost var cycle, tries;
      store, cached, result, cycle, tries := RunCycle(reg, store, cached, inputs[k], Reaches(reg, first, cycles));
      CycleKnown(reg, inputs[k], before, cycle, result, tries);
      SweptOn(reg, first, inputs[..k], results, cycles, inputs[k], result, cycle);
      assert inputs[..k] + [inputs[k]] == inputs[..k + 1];
      results, cycles := results + [result], cycles + [cycle];
    }
    assert inputs[..|inputs|] == inputs;
  }

  lemma {:induction false} CycleKnown(reg: seq<nat>, i: Input, cached: Option<Cursor>, c: Cycle, result: CycleResult, tries: nat)
    requires CycleOk(reg, c) && Answers(reg, i, cached, c, result, tries)
    ensures Known(reg, i, result, c)
    ensures -1 <= Target(reg, c.from, c.moved) && At(reg, c.finish, Target(reg, c.from, c.moved))
  {
    if Healthy(i, |reg|) {
      HealthyMoves(reg, i, cached, c, result, tries);
    }
  }

  // ----- every scope gets its turn

  /** How far the cursor went in cycles `lo` up to, not including, `hi`. */
  ghost function MovedIn(cycles: seq<Cycle>, lo: nat, hi: nat): nat
    requires lo <= hi <= |cycles|
  {
    if lo == hi then 0 else MovedIn(cycles, lo, hi - 1) + cycles[hi - 1].moved
  }

  lemma {:induction false} TimesApart(p: int, q: int, n: nat)
    requires p < q
    ensures p * n + n <= q * n
    decreases q - p
  {
    if p + 1 < q {
      TimesApart(p, q - 1, n);
    }
    assert q * n == (q - 1) * n + n;
  }

  lemma {:induction false} OneQuotient(n: nat, q: int, r: nat, q': int, r': nat)
    requires q * n + r == q' * n + r' && r < n && r' < n
    ensures r == r'
  {
    if q < q' {
      TimesApart(q, q', n);
    } else if q' < q {
      TimesApart(q', q, n);
    }
  }

  lemma {:induction false} RemainderIs(a: nat, n: nat, q: int, r: nat)
    requires r < n && a == q * n + r
    ensures a % n == r
  {
    OneQuotient(n, q, r, a / n, a % n);
  }

  lemma {:induction false} ModAdds(a: nat, b: nat, n: nat)
    requires 0 < n
    ensures (a % n + b) % n == (a + b) % n
  {
    var x := a % n + b;
    assert a + b == a / n * n + x;
    assert a + b == (a / n + x / n) * n + x % n;
    RemainderIs(a + b, n, a / n + x / n, x % n);
  }

  /** Cycle after cycle the cursor goes round the registry. */
  lemma {:induction false} GoesRound(reg: seq<nat>, cycles: seq<Cycle>, lo: nat, hi: nat)
    requires IsRun(reg, cycles) && lo < hi <= |cycles|
    ensures reg != [] && cycles[lo].from >= -1 && cycles[hi - 1].from >= -1
    ensures Target(reg, cycles[hi - 1].from, cycles[hi - 1].moved) == Target(reg, cycles[lo].from, MovedIn(cycles, lo, hi))
    decreases hi
  {
    hide Target;
    var c := cycles[hi - 1];
    assert CycleOk(reg, c) && CycleOk(reg, cycles[lo]);
    if hi == lo + 1 {
      assert MovedIn(cycles, lo, lo) == 0;
    } else {
      assert c.from == Target(reg, cycles[hi - 2].from, cycles[hi - 2].moved);
      GoesRound(reg, cycles, lo, hi - 1);
      TargetsAdd(reg, cycles[lo].from, MovedIn(cycles, lo, hi - 1), c.moved);
    }
  }

  lemma {:induction false} TargetsAdd(reg: seq<nat>, from: int, a: nat, b: nat)
    requires reg != [] && from >= -1
    ensures Target(reg, from, a) >= -1 && Target(reg, Target(reg, from, a), b) == Target(reg, from, a + b)
  {
    if a > 0 && b > 0 {
      ModAdds(from + a, b, |reg|);
    }
  }

  /** The scopes the cursor went past were all finished. */
  lemma {:induction false} PassedFinished(reg: seq<nat>, cycles: seq<Cycle>, lo: nat, hi: nat, i: nat)
    requires IsRun(reg, cycles) && lo < hi <= |cycles| && i < MovedIn(cycles, lo, hi)
    ensures reg != [] && cycles[lo].from >= -1 && ScopeAfter(reg, cycles[lo].from, i) in FinishedIn(cycles, lo, hi)
    decreases hi
  {
    var c, before := cycles[hi - 1], MovedIn(cycles, lo, hi - 1);
    if i < before {
      PassedFinished(reg, cycles, lo, hi - 1, i);
    } else {
      hide ScopeAfter;
      assert CycleOk(reg, c) && CycleOk(reg, cycles[lo]);
      assert ScopeAfter(reg, c.from, i - before) in c.finished;
      if lo + 1 < hi {
        GoesRound(reg, cycles, lo, hi - 1);
        assert c.from == Target(reg, cycles[lo].from, before);
      }
      ScopesAdd(reg, cycles[lo].from, before, i - before);
    }
  }

  /** The scope `b` places after where the cursor is `a` places on. */
  lemma {:induction false} ScopesAdd(reg: seq<nat>, from: int, a: nat, b: nat)
    requires reg != [] && from >= -1
    ensures Target(reg, from, a) >= -1 && ScopeAfter(reg, Target(reg, from, a), b) == ScopeAfter(reg, from, a + b)
  {
    if a > 0 {
      PlacesAdd(from, a, b, |reg|);
    }
  }

  lemma {:induction false} PlacesAdd(from: int, a: nat, b: nat, n: nat)
    requires from >= -1 && 0 < a && 0 < n
    ensures ((from + a) % n + 1 + b) % n == (from + 1 + (a + b)) % n
  {
    ModAdds(from + a, 1 + b, n);
    assert (from + a) % n + (1 + b) == (from + a) % n + 1 + b && from + a + (1 + b) == from + 1 + (a + b);
  }

  lemma {:induction false} MovedAtLeast(cycles: seq<Cycle>, lo: nat, hi: nat, b: nat)
    requires lo <= hi <= |cycles| && forall k :: lo <= k < hi ==> b <= cycles[k].moved
    ensures (hi - lo) * b <= MovedIn(cycles, lo, hi)
    decreases hi
  {
    if lo < hi {
      MovedAtLeast(cycles, lo, hi - 1, b);
      assert (hi - lo) * b == (hi - 1 - lo) * b + b;
    }
  }

  function CeilDiv(n: nat, b: nat): nat
    requires 0 < b
  {
    (n + b - 1) / b
  }

  lemma {:induction false} Enough(n: nat, b: nat)
    requires 0 < n && 0 < b
    ensures n <= CeilDiv(n, b) * Min(b, n)
  {
    var m := CeilDiv(n, b);
    assert n + b - 1 == m * b + (n + b - 1) % b;
    if b >= n {
      assert m == 1 by {
        assert n + b - 1 >= b && n + b - 1 < 2 * b;
      }
    }
  }

  /**
   The sweep is fair: while the store keeps its promises and runs finish without a failure, any
   `ceil(scopes / budget)` cycles in a row, with at least `budget` places each for cold scopes, finish every scope.
   */
  lemma {:induction false} SweepIsFair(reg: seq<nat>, first: int, inputs: seq<Input>, results: seq<CycleResult>, cycles: seq<Cycle>,
                                       lo: nat, budget: nat, q: nat)
    requires Swept(reg, first, inputs, results, cycles) && 0 < budget && q < |reg| && lo + CeilDiv(|reg|, budget) <= |cycles|
    requires forall k :: lo <= k < lo + CeilDiv(|reg|, budget) ==>
      Healthy(inputs[k], |reg|) && budget <= SatSub(inputs[k].perCycle, inputs[k].hot)
    ensures reg[q] in FinishedIn(cycles, lo, lo + CeilDiv(|reg|, budget))
  {
    hide CeilDiv;
    hide IsRun;
    var n, hi := |reg|, lo + CeilDiv(|reg|, budget);
    Enough(n, budget);
    forall k | lo <= k < hi ensures Min(budget, n) <= cycles[k].moved {
      assert Known(reg, inputs[k], results[k], cycles[k]);
    }
    MovedAtLeast(cycles, lo, hi, Min(budget, n));
    AllPassed(reg, cycles, lo, hi, q);
  }

  /** A cursor that went all the way round went past every scope. */
  lemma {:induction false} AllPassed(reg: seq<nat>, cycles: seq<Cycle>, lo: nat, hi: nat, q: nat)
    requires IsRun(reg, cycles) && lo <= hi <= |cycles| && q < |reg| <= MovedIn(cycles, lo, hi)
    ensures reg[q] in FinishedIn(cycles, lo, hi)
  {
    assert CycleOk(reg, cycles[lo]);
    var from, n := cycles[lo].from, |reg|;
    var i := if from < q then q - from - 1 else q + n - from - 1;
    ModBelowTwice(from + 1 + i, n);
    PassedFinished(reg, cycles, lo, hi, i);
  }

  // ----- sweeps that are never reported

  /**
   From a cursor between the registry's ends, cycles that run the whole registry never report a
   sweep however many they are: each finishes every scope and ends where it began.
   */
  lemma {:induction false} NeverReports(reg: seq<nat>, first: int, inputs: seq<Input>, results: seq<CycleResult>, cycles: seq<Cycle>,
                                        lo: nat, k: nat)
    requires Swept(reg, first, inputs, results, cycles) && lo <= k < |cycles| && 0 <= cycles[lo].from < |reg| - 1
    requires forall j :: lo <= j <= k ==> Healthy(inputs[j], |reg|) && ColdScopes(inputs[j], |reg|) == |reg|
    ensures results[k] == Done(false) && cycles[k].from == cycles[lo].from
    ensures forall q :: 0 <= q < |reg| ==> reg[q] in cycles[k].finished
    decreases k
  {
    if lo < k {
      NeverReports(reg, first, inputs, results, cycles, lo, k - 1);
      WholeSliceReports(reg, cycles[lo].from);
      assert Known(reg, inputs[k - 1], results[k - 1], cycles[k - 1]);
    }
    assert Known(reg, inputs[k], results[k], cycles[k]);
    WholeSliceReports(reg, cycles[k].from);
    forall q | 0 <= q < |reg| ensures reg[q] in cycles[k].finished {
      PassedScope(reg, cycles[k], q);
    }
  }

  /** A cycle over three scopes with `hot` of its three places taken, in which every run finishes. */
  function ThreePlaces(hot: nat): Input
    requires hot <= 1
  {
    Input(1, 3, hot, if hot == 0 then [0, 1, 2] else [0, 1], [], false, false)
  }

  /** One hot scope in the first cycle of an indexer with three places for three scopes, and no sweep is ever reported. */
  method StuckSweep(n: nat) returns (results: seq<CycleResult>)
    ensures results == seq(n, _ => Done(false))
  {
    var inputs := seq(n, i => ThreePlaces(if i == 0 then 1 else 0));
    forall i | 0 <= i < n ensures InputOk(inputs[i], 3) && Healthy(inputs[i], 3) {
      ThreePlacesFine(if i == 0 then 1 else 0);
    }
    ghost var first, cycles;
    results, first, cycles := Sweep([0, 1, 2], Absent, inputs);
    forall k | 0 <= k < n ensures results[k] == Done(false) {
      StuckAt([0, 1, 2], first, inputs, results, cycles, k);
    }
  }

  lemma {:induction false} ThreePlacesFine(hot: nat)
    requires hot <= 1
    ensures InputOk(ThreePlaces(hot), 3) && Healthy(ThreePlaces(hot), 3) && ColdScopes(ThreePlaces(hot), 3) == 3 - hot
  {
    assert HotBudget(3, 1) == 1;
  }

  lemma {:induction false} StuckAt(reg: seq<nat>, first: int, inputs: seq<Input>, results: seq<CycleResult>, cycles: seq<Cycle>, k: nat)
    requires reg == [0, 1, 2] && first == -1 && Swept(reg, first, inputs, results, cycles) && k < |cycles|
    requires forall i :: 0 <= i < |inputs| ==> inputs[i] == ThreePlaces(if i == 0 then 1 else 0)
    ensures results[k] == Done(false)
  {
    ThreePlacesFine(0);
    ThreePlacesFine(1);
    assert Known(reg, inputs[0], results[0], cycles[0]);
    assert cycles[0].from == -1 && cycles[0].moved == 2;
    if k > 0 {
      assert cycles[1].from == Target(reg, -1, 2) == 1;
      NeverReports(reg, first, inputs, results, cycles, 1, k);
    }
  }

  // ----- reports that speak of part of the registry

  /** A cycle with a single place, whose run finishes. */
  const ONE_PLACE := Input(1, 1, 0, [0], [], false, false)

  lemma {:induction false} OnePlaceFine(n: nat)
    requires 0 < n
    ensures InputOk(ONE_PLACE, n) && Healthy(ONE_PLACE, n) && ColdScopes(ONE_PLACE, n) == 1
  {
    assert HotBudget(1, 1) == 0;
  }

  /** With one place a cycle, the cursor goes on by one scope, and that is the only one run. */
  lemma {:induction false} OneByOne(reg: seq<nat>, first: int, inputs: seq<Input>, results: seq<CycleResult>, cycles: seq<Cycle>,
                                    k: nat)
    requires Swept(reg, first, inputs, results, cycles) && k < |cycles| && 0 <= first && first + 1 + k < |reg|
    requires forall i :: 0 <= i < |inputs| ==> inputs[i] == ONE_PLACE
    ensures cycles[k].from == first + k && cycles[k].moved == 1
    ensures results[k] == Done(first + 1 + k == |reg| - 1)
    ensures cycles[k].finished <= {reg[first + 1 + k]}
  {
    hide Known;
    hide Target;
    if k > 0 {
      OneByOne(reg, first, inputs, results, cycles, k - 1);
      OneStep(reg, results[k - 1], cycles[k - 1]);
      assert cycles[k].from == Target(reg, cycles[k - 1].from, cycles[k - 1].moved);
    }
    OneStep(reg, results[k], cycles[k]);
  }

  lemma {:induction false} OneStep(reg: seq<nat>, result: CycleResult, c: Cycle)
    requires 0 <= c.from && c.from + 1 < |reg| && Known(reg, ONE_PLACE, result, c)
    ensures c.moved == 1 && Target(reg, c.from, 1) == c.from + 1 && result == Done(c.from + 1 == |reg| - 1)
    ensures c.finished <= {reg[c.from + 1]}
  {
    OnePlaceFine(|reg|);
    ModBelowTwice(c.from + 1, |reg|);
    assert ONE_PLACE.order == [0];
  }

  lemma {:induction false} FinishedBehind(reg: seq<nat>, first: int, cycles: seq<Cycle>, k: nat, q: nat)
    requires StrictlyIncreasing(reg) && 0 <= first && k <= |cycles| && first + k < |reg| && q <= first
    requires forall i :: 0 <= i < k ==> cycles[i].finished <= {reg[first + 1 + i]}
    ensures reg[q] !in FinishedIn(cycles, 0, k)
    decreases k
  {
    if k > 0 {
      FinishedBehind(reg, first, cycles, k - 1, q);
    }
  }

  /**
   From every cursor between the registry's ends there is a sweep whose first report comes although no scope up
   to the cursor was run.
   */
  method FirstReportSkips(reg: seq<nat>, start: Stored, first: nat) returns (results: seq<CycleResult>, ghost finished: set<nat>)
    requires StrictlyIncreasing(reg) && first < |reg| - 1 && At(reg, start, first)
    ensures |results| == |reg| - 1 - first
    ensures forall k :: 0 <= k < |results| ==> results[k] == Done(k == |results| - 1)
    ensures forall q :: 0 <= q <= first ==> reg[q] !in finished
  {
    var inputs := seq(|reg| - 1 - first, _ => ONE_PLACE);
    OnePlaceFine(|reg|);
    ghost var from, cycles;
    results, from, cycles := Sweep(reg, start, inputs);
    assert from == first;
    forall k | 0 <= k < |cycles|
      ensures results[k] == Done(k == |results| - 1) && cycles[k].finished <= {reg[first + 1 + k]}
    {
      OneByOne(reg, first, inputs, results, cycles, k);
    }
    finished := FinishedIn(cycles, 0, |cycles|);
    forall q | 0 <= q <= first ensures reg[q] !in finished {
      FinishedBehind(reg, first, cycles, |cycles|, q);
    }
  }
}
