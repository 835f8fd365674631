/**
 The indexer's cache of open reader handles, shared by concurrent runs. Every block
 the source executes under the cache lock is one atomic step; runs are interleaved
 freely between steps. A run holds its scope's gate from its first step to its last. The
 access clock is read outside the lock, so reading it is a step of its own.
 Closing a handle happens outside the lock, so a handle taken out of circulation is
 first `doomed` and closed by a later step.
 */
module ScopeCache {
  import opened Base

  type Scope = nat
  type Handle = nat
  type RunId = nat

  const HOT_SCOPE_IDLE_RECHECKS := 2

  datatype Slot = Slot(handle: Handle, lastUsed: nat, hot: bool, idle: nat)

  datatype Disposition = Hit | Admitted | Bypassed

  datatype Phase =
    | Started                                   // holds the gate
    | Missed                                    // found no resident handle
    | Opened(offered: Handle)                     // opened one, not yet offered to the cache
    | Duplicate(offered: Handle, mine: Handle)    // lost to a resident one, its own is to be closed
    | Working(mine: Handle, disposition: Disposition)

  /** A run, with the reading of the access clock it has in hand, if any. */
  datatype Run = Run(scope: Scope, phase: Phase, access: Option<nat>)

  datatype State = State(
    clusters: map<Scope, Slot>,
    runs: map<RunId, Run>,
    clock: nat,
    nextHandle: Handle,          // handles opened so far are the smaller numbers
    doomed: multiset<Handle>,    // to be closed
    closes: multiset<Handle>)    // calls of close, ever

  const INITIAL := State(map[], map[], 0, 0, multiset{}, multiset{})

  // ----- who has a handle

  predicate Holds(run: Run, h: Handle) {
    (run.phase.Working? || run.phase.Duplicate?) && run.phase.mine == h
  }

  /** `Arc::strong_count(..) == 1`: the cache alone has the resident handle. */
  predicate Unshared(s: State, scope: Scope)
    requires scope in s.clusters
  {
    forall r | r in s.runs :: !Holds(s.runs[r], s.clusters[scope].handle)
  }

  /** The run alone is responsible for the handle. */
  predicate Carries(run: Run, h: Handle) {
    || run.phase == Opened(h)
    || (run.phase.Duplicate? && run.phase.offered == h)
    || run.phase == Working(h, Bypassed)
  }

  // ----- steps

  datatype Event =
    | Begin(r: RunId, scope: Scope)
    | Access(r: RunId)
    | Lookup(r: RunId)
    | NoData(r: RunId)
    | GiveUp(r: RunId)
    | Open(r: RunId)
    | Select(r: RunId)
    | CloseDuplicate(r: RunId)
    | Finish(r: RunId, built: bool, candidate: Option<Scope>)
    | Fail(r: RunId)
    | Retire(stale: Scope)
    | CloseOne(h: Handle)

  /** Eviction takes the slot `min_by_key` settles on: cold before hot, least recently used first, then by scope. */
  predicate GoesFirst(s: State, j: Scope, k: Scope)
    requires j in s.clusters && k in s.clusters
  {
    var a, b := s.clusters[j], s.clusters[k];
    || (!a.hot && b.hot)
    || (a.hot == b.hot && (a.lastUsed < b.lastUsed || (a.lastUsed == b.lastUsed && j <= k)))
  }

  ghost predicate IsCandidate(s: State, candidate: Option<Scope>) {
    match candidate
    case None => forall k | k in s.clusters :: !Unshared(s, k)
    case Some(c) => c in s.clusters && Unshared(s, c) && forall k | k in s.clusters && Unshared(s, k) :: GoesFirst(s, c, k)
  }

  ghost predicate Enabled(s: State, e: Event) {
    match e
    case Begin(r, scope) => r !in s.runs && forall q | q in s.runs :: s.runs[q].scope != scope
    case Access(r) => r in s.runs && s.runs[r].access.None?
    case Lookup(r) => r in s.runs && (s.runs[r].phase.Started? || s.runs[r].phase.Missed?) && s.runs[r].access.Some?
    case NoData(r) => r in s.runs && s.runs[r].phase.Missed?
    case GiveUp(r) => r in s.runs && s.runs[r].phase.Missed?
    case Open(r) => r in s.runs && s.runs[r].phase.Missed? && s.runs[r].access.Some?
    case Select(r) => r in s.runs && s.runs[r].phase.Opened? && s.runs[r].access.Some?
    case CloseDuplicate(r) => r in s.runs && s.runs[r].phase.Duplicate?
    case Finish(r, built, candidate) =>
      && r in s.runs && s.runs[r].phase.Working? && IsCandidate(s, candidate)
      && (built && s.runs[r].phase.disposition.Bypassed? ==> s.runs[r].access.Some?)
    case Fail(r) => r in s.runs && s.runs[r].phase.Working?
    case Retire(stale) => stale in s.clusters && Unshared(s, stale)
    case CloseOne(h) => h in s.doomed
  }

  /** The run is in another phase and has spent its reading of the clock. */
  function WithPhase(s: State, r: RunId, phase: Phase): State
    requires r in s.runs
  {
    s.(runs := s.runs[r := Run(s.runs[r].scope, phase, None)])
  }

  function Leave(s: State, r: RunId): State { s.(runs := s.runs - {r}) }

  function Doom(s: State, h: Handle): State { s.(doomed := s.doomed + multiset{h}) }

  /** `resident_cluster_for_scope`. */
  function LookUp(s: State, r: RunId): State
    requires r in s.runs && s.runs[r].access.Some?
  {
    var scope, now := s.runs[r].scope, s.runs[r].access.value;
    if scope in s.clusters then
      var slot := s.clusters[scope];
      WithPhase(s.(clusters := s.clusters[scope := slot.(lastUsed := now)]), r, Working(slot.handle, Hit))
    else WithPhase(s, r, Missed)
  }

  /** Takes a slot out of the cache; its handle is to be closed. */
  function TakeOut(s: State, scope: Scope): State {
    if scope in s.clusters then
      Doom(s.(clusters := s.clusters - {scope}), s.clusters[scope].handle)
    else s
  }

  /** The locked block of `cluster_for_scope`, offering the handle just opened. */
  function Offer(s: State, max: nat, r: RunId): State
    requires r in s.runs && s.runs[r].phase.Opened? && s.runs[r].access.Some?
  {
    var scope, h, now := s.runs[r].scope, s.runs[r].phase.offered, s.runs[r].access.value;
    if scope in s.clusters then
      var slot := s.clusters[scope];
      WithPhase(s.(clusters := s.clusters[scope := slot.(lastUsed := now)]), r, Duplicate(h, slot.handle))
    else if |s.clusters| >= max then WithPhase(s, r, Working(h, Bypassed))
    else WithPhase(s.(clusters := s.clusters[scope := Slot(h, now, false, 0)]), r, Working(h, Admitted))
  }

  /** The slot after a run that used it: a build makes it hot, idle hits cool it down. */
  function SlotAfter(slot: Slot, disposition: Disposition, built: bool): Slot {
    if built then slot.(hot := true, idle := 0)
    else if disposition.Hit? && slot.hot then
      if SatAdd(slot.idle, 1) >= HOT_SCOPE_IDLE_RECHECKS then slot.(hot := false, idle := 0)
      else slot.(idle := slot.idle + 1)
    else slot
  }

  /** The cache with the candidate taken out if there was no room. */
  function MakeRoom(s: State, max: nat, candidate: Option<Scope>): State {
    if |s.clusters| >= max && candidate.Some? then TakeOut(s, candidate.value) else s
  }

  /** Puts a handle in if there is room, and dooms it if not. */
  function Admit(s: State, max: nat, scope: Scope, h: Handle, now: nat): State {
    if |s.clusters| >= max then Doom(s, h)
    else s.(clusters := s.clusters[scope := Slot(h, now, true, 0)])
  }

  /** `admit_built_scope`: a handle that proved useful gets a place, if need be that of the candidate. */
  function Promote(s: State, max: nat, scope: Scope, h: Handle, now: nat, candidate: Option<Scope>): State {
    if scope in s.clusters then
      Doom(s.(clusters := s.clusters[scope := s.clusters[scope].(lastUsed := now, hot := true, idle := 0)]), h)
    else Admit(MakeRoom(s, max, candidate), max, scope, h, now)
  }

  function FinishRun(s: State, max: nat, r: RunId, built: bool, candidate: Option<Scope>): State
    requires r in s.runs && s.runs[r].phase.Working?
    requires built && s.runs[r].phase.disposition.Bypassed? ==> s.runs[r].access.Some?
  {
    var Run(scope, Working(h, disposition), access) := s.runs[r];
    var left := Leave(s, r);
    if disposition.Bypassed? then
      if built then Promote(left, max, scope, h, access.value, candidate) else Doom(left, h)
    else if scope in s.clusters && s.clusters[scope].handle == h then
      left.(clusters := s.clusters[scope := SlotAfter(s.clusters[scope], disposition, built)])
    else left
  }

  function FailRun(s: State, r: RunId): State
    requires r in s.runs && s.runs[r].phase.Working?
  {
    var Run(scope, Working(h, disposition), _) := s.runs[r];
    var left := Leave(s, r);
    if disposition.Bypassed? then Doom(left, h)
    else if scope in s.clusters && s.clusters[scope].handle == h then TakeOut(left, scope)
    else left
  }

  ghost function Step(s: State, max: nat, e: Event): State
    requires Enabled(s, e)
  {
    match e
    case Begin(r, scope) => s.(runs := s.runs[r := Run(scope, Started, None)])
    case Access(r) => s.(clock := s.clock + 1, runs := s.runs[r := s.runs[r].(access := Some(s.clock + 1))])
    case Lookup(r) => LookUp(s, r)
    case NoData(r) => Leave(TakeOut(s, s.runs[r].scope), r)
    case GiveUp(r) => Leave(s, r)
    case Open(r) =>
      s.(nextHandle := s.nextHandle + 1, runs := s.runs[r := s.runs[r].(phase := Opened(s.nextHandle))])
    case Select(r) => Offer(s, max, r)
    case CloseDuplicate(r) =>
      WithPhase(Doom(s, s.runs[r].phase.offered), r, Working(s.runs[r].phase.mine, Hit))
    case Finish(r, built, candidate) => FinishRun(s, max, r, built, candidate)
    case Fail(r) => FailRun(s, r)
    case Retire(stale) => TakeOut(s, stale)
    case CloseOne(h) => s.(doomed := s.doomed - multiset{h}, closes := s.closes + multiset{h})
  }

  // ----- what every state keeps

  function Homes(clusters: map<Scope, Slot>, x: Handle): set<Scope> {
    set k | k in clusters && clusters[k].handle == x
  }

  function Carriers(runs: map<RunId, Run>, x: Handle): set<RunId> {
    set r | r in runs && Carries(runs[r], x)
  }

  /** In how many places the handle is: resident, in the care of a run, doomed, or closed. */
  function Places(s: State, x: Handle): nat {
    |Homes(s.clusters, x)| + |Carriers(s.runs, x)| + s.doomed[x] + s.closes[x]
  }

  ghost predicate OnePlace(s: State, x: Handle) {
    Places(s, x) == if x < s.nextHandle then 1 else 0
  }

  /** One run per scope, and a run's own view of the cache stays true while it works. */
  ghost predicate RunsOk(s: State) {
    && (forall q, r | q in s.runs && r in s.runs && q != r :: s.runs[q].scope != s.runs[r].scope)
    && (forall r | r in s.runs :: ViewOk(s.clusters, s.runs[r]))
  }

  ghost predicate ViewOk(clusters: map<Scope, Slot>, run: Run) {
    match run.phase
    case Started => true
    case Missed => run.scope !in clusters
    case Opened(_) => run.scope !in clusters
    case Duplicate(_, _) => false
    case Working(h, Bypassed) => run.scope !in clusters
    case Working(h, _) => run.scope in clusters && clusters[run.scope].handle == h
  }

  /** The residents fit, and no reading of the clock, in a slot or in hand, is ahead of it. */
  ghost predicate SlotsOk(s: State, max: nat) {
    && |s.clusters| <= max
    && (forall k | k in s.clusters :: SlotOk(s.clusters[k], s.clock))
    && (forall r | r in s.runs && s.runs[r].access.Some? :: s.runs[r].access.value <= s.clock)
  }

  ghost predicate SlotOk(slot: Slot, clock: nat) {
    slot.lastUsed <= clock && slot.idle < HOT_SCOPE_IDLE_RECHECKS && (!slot.hot ==> slot.idle == 0)
  }

  function One(b: bool): nat { if b then 1 else 0 }

  lemma {:induction false} HomesRemove(c: map<Scope, Slot>, k: Scope, x: Handle)
    requires k in c
    ensures |Homes(c, x)| == |Homes(c - {k}, x)| + One(c[k].handle == x)
  {
    assert Homes(c - {k}, x) == Homes(c, x) - {k};
  }

  lemma {:induction false} HomesPut(c: map<Scope, Slot>, k: Scope, slot: Slot, x: Handle)
    requires k in c ==> c[k].handle == slot.handle
    ensures |Homes(c[k := slot], x)| == |Homes(c, x)| + One(k !in c && slot.handle == x)
  {
    if k in c {
      assert Homes(c[k := slot], x) == Homes(c, x);
    } else {
      HomesRemove(c[k := slot], k, x);
      assert c[k := slot] - {k} == c;
    }
  }

  lemma {:induction false} CarriersLeave(runs: map<RunId, Run>, r: RunId, x: Handle)
    requires r in runs
    ensures |Carriers(runs, x)| == |Carriers(runs - {r}, x)| + One(Carries(runs[r], x))
  {
    assert Carriers(runs - {r}, x) == Carriers(runs, x) - {r};
  }

  lemma {:induction false} CarriersPut(runs: map<RunId, Run>, r: RunId, run: Run, x: Handle)
    ensures |Carriers(runs[r := run], x)| + One(r in runs && Carries(runs[r], x))
         == |Carriers(runs, x)| + One(Carries(run, x))
  {
    CarriersLeave(runs[r := run], r, x);
    assert runs[r := run] - {r} == runs - {r};
    if r in runs {
      CarriersLeave(runs, r, x);
    } else {
      assert runs - {r} == runs;
    }
  }

  lemma {:induction false} TakeOutMoves(s: State, scope: Scope, x: Handle)
    ensures Places(TakeOut(s, scope), x) == Places(s, x)
  {
    if scope in s.clusters {
      HomesRemove(s.clusters, scope, x);
    }
  }

  lemma {:induction false} AdmitMoves(s: State, max: nat, scope: Scope, h: Handle, now: nat, x: Handle)
    requires scope !in s.clusters
    ensures Places(Admit(s, max, scope, h, now), x) == Places(s, x) + One(h == x)
  {
    HomesPut(s.clusters, scope, Slot(h, now, true, 0), x);
  }

  /** Promotion finds the handle a place: resident or doomed, with the evicted one doomed too. */
  lemma {:induction false} PromoteMoves(s: State, max: nat, scope: Scope, h: Handle, now: nat, candidate: Option<Scope>, x: Handle)
    ensures Places(Promote(s, max, scope, h, now, candidate), x) == Places(s, x) + One(h == x)
  {
    if scope in s.clusters {
      HomesPut(s.clusters, scope, s.clusters[scope].(lastUsed := now, hot := true, idle := 0), x);
    } else {
      if candidate.Some? {
        TakeOutMoves(s, candidate.value, x);
      }
      AdmitMoves(MakeRoom(s, max, candidate), max, scope, h, now, x);
    }
  }

  lemma {:induction false} FinishMoves(s: State, max: nat, r: RunId, built: bool, candidate: Option<Scope>, x: Handle)
    requires r in s.runs && s.runs[r].phase.Working?
    requires built && s.runs[r].phase.disposition.Bypassed? ==> s.runs[r].access.Some?
    ensures Places(FinishRun(s, max, r, built, candidate), x) == Places(s, x)
  {
    var Run(scope, Working(h, disposition), access) := s.runs[r];
    var left := Leave(s, r);
    CarriersLeave(s.runs, r, x);
    if disposition.Bypassed? {
      if built {
        PromoteMoves(left, max, scope, h, access.value, candidate, x);
      }
    } else if scope in s.clusters {
      HomesPut(s.clusters, scope, SlotAfter(s.clusters[scope], disposition, built), x);
    }
  }

  lemma {:induction false} FailMoves(s: State, r: RunId, x: Handle)
    requires r in s.runs && s.runs[r].phase.Working?
    ensures Places(FailRun(s, r), x) == Places(s, x)
  {
    CarriersLeave(s.runs, r, x);
    TakeOutMoves(Leave(s, r), s.runs[r].scope, x);
  }

  lemma {:induction false} OfferMoves(s: State, max: nat, r: RunId, x: Handle)
    requires r in s.runs && s.runs[r].phase.Opened? && s.runs[r].access.Some?
    ensures Places(Offer(s, max, r), x) == Places(s, x)
  {
    var Run(scope, Opened(h), access) := s.runs[r];
    var now := access.value;
    CarriersPut(s.runs, r, Offer(s, max, r).runs[r], x);
    if scope in s.clusters {
      HomesPut(s.clusters, scope, s.clusters[scope].(lastUsed := now), x);
    } else {
      HomesPut(s.clusters, scope, Slot(h, now, false, 0), x);
    }
  }

  lemma {:induction false} LookUpMoves(s: State, r: RunId, x: Handle)
    requires r in s.runs && s.runs[r].access.Some? && (s.runs[r].phase.Started? || s.runs[r].phase.Missed?)
    ensures Places(LookUp(s, r), x) == Places(s, x)
  {
    var s' := LookUp(s, r);
    CarriersPut(s.runs, r, s'.runs[r], x);
    if s.runs[r].scope in s.clusters {
      HomesPut(s.clusters, s.runs[r].scope, s'.clusters[s.runs[r].scope], x);
    }
  }

  /** The steps that only move a run. */
  lemma {:induction false} RunMoves(s: State, max: nat, e: Event, x: Handle)
    requires Enabled(s, e) && (e.Begin? || e.Access? || e.Open? || e.CloseDuplicate? || e.GiveUp?)
    ensures Places(Step(s, max, e), x) == Places(s, x) + One(e.Open? && x == s.nextHandle)
  {
    match e
    case Begin(r, scope) => CarriersPut(s.runs, r, Run(scope, Started, None), x);
    case Access(r) => CarriersPut(s.runs, r, s.runs[r].(access := Some(s.clock + 1)), x);
    case Open(r) => CarriersPut(s.runs, r, s.runs[r].(phase := Opened(s.nextHandle)), x);
    case CloseDuplicate(r) => CarriersPut(s.runs, r, Run(s.runs[r].scope, Working(s.runs[r].phase.mine, Hit), None), x);
    case GiveUp(r) => CarriersLeave(s.runs, r, x);
  }

  lemma {:induction false} NoDataMoves(s: State, r: RunId, x: Handle)
    requires r in s.runs && s.runs[r].phase.Missed?
    ensures Places(Leave(TakeOut(s, s.runs[r].scope), r), x) == Places(s, x)
  {
    TakeOutMoves(s, s.runs[r].scope, x);
    CarriersLeave(s.runs, r, x);
  }

  lemma {:induction false} CloseMoves(s: State, h: Handle, x: Handle)
    requires h in s.doomed
    ensures Places(s.(doomed := s.doomed - multiset{h}, closes := s.closes + multiset{h}), x) == Places(s, x)
  {
  }

  /** No step loses a handle or puts it in two places; opening puts a new one in its run's care. */
  lemma {:induction false} StepMoves(s: State, max: nat, e: Event, x: Handle)
    requires Enabled(s, e)
    ensures Places(Step(s, max, e), x) == Places(s, x) + One(e.Open? && x == s.nextHandle)
  {
    hide LookUp;
    hide Offer;
    hide FinishRun;
    hide FailRun;
    hide TakeOut;
    hide IsCandidate;
    hide Unshared;
    hide Places;
    match e
    case Lookup(r) => LookUpMoves(s, r, x);
    case NoData(r) => NoDataMoves(s, r, x);
    case Select(r) => OfferMoves(s, max, r, x);
    case Finish(r, built, candidate) => FinishMoves(s, max, r, built, candidate, x);
    case Fail(r) => FailMoves(s, r, x);
    case Retire(stale) => TakeOutMoves(s, stale, x);
    case CloseOne(h) => CloseMoves(s, h, x);
    case _ => RunMoves(s, max, e, x);
  }

  // ----- runs keep their view of the cache

  /** The cache has the same handle, or none, for the scope. */
  predicate SameAt(c: map<Scope, Slot>, c': map<Scope, Slot>, k: Scope) {
    (k in c <==> k in c') && (k in c ==> c[k].handle == c'[k].handle)
  }

  /** The run `r` moved; to the others nothing happened. */
  ghost predicate OthersSame(s: State, s': State, r: RunId) {
    forall q | q in s'.runs && q != r :: q in s.runs && s'.runs[q] == s.runs[q] && SameAt(s.clusters, s'.clusters, s.runs[q].scope)
  }

  lemma {:induction false} MoveKeepsRuns(s: State, s': State, r: RunId)
    requires RunsOk(s) && OthersSame(s, s', r)
    requires r in s'.runs ==>
      && ViewOk(s'.clusters, s'.runs[r])
      && forall q | q in s.runs && q != r :: s.runs[q].scope != s'.runs[r].scope
    ensures RunsOk(s')
  {
  }

  /** Only an unshared slot, of a scope whose run does not rely on it, is ever taken out from outside. */
  lemma {:induction false} UnsharedIsNobodys(s: State, k: Scope, q: RunId)
    requires RunsOk(s) && k in s.clusters && Unshared(s, k) && q in s.runs && !s.runs[q].phase.Started?
    ensures s.runs[q].scope != k
  {
  }

  lemma {:induction false} RetireKeepsRuns(s: State, k: Scope)
    requires RunsOk(s) && k in s.clusters && Unshared(s, k)
    ensures RunsOk(TakeOut(s, k))
  {
  }

  /** Promotion changes the cache at its own scope and at the candidate's, no more. */
  lemma {:induction false} PromoteTouches(s: State, max: nat, scope: Scope, h: Handle, now: nat, candidate: Option<Scope>, k: Scope)
    requires k != scope && candidate != Some(k)
    ensures SameAt(s.clusters, Promote(s, max, scope, h, now, candidate).clusters, k)
  {
  }

  lemma {:induction false} PromoteKeepsOthers(s: State, max: nat, scope: Scope, h: Handle, now: nat, candidate: Option<Scope>,
                                              run: Run)
    requires ViewOk(s.clusters, run) && run.scope != scope && (run.phase.Started? || candidate != Some(run.scope))
    ensures ViewOk(Promote(s, max, scope, h, now, candidate).clusters, run)
  {
    if !run.phase.Started? {
      PromoteTouches(s, max, scope, h, now, candidate, run.scope);
    }
  }

  lemma {:induction false} SameRuns(s: State, runs: map<RunId, Run>, clusters: map<Scope, Slot>)
    requires RunsOk(s) && runs.Keys <= s.runs.Keys
    requires forall q | q in runs :: runs[q] == s.runs[q] && ViewOk(clusters, s.runs[q])
    ensures forall s': State | s'.runs == runs && s'.clusters == clusters :: RunsOk(s')
  {
  }

  lemma {:induction false} PromoteKeepsView(s: State, max: nat, r: RunId, now: nat, candidate: Option<Scope>, q: RunId)
    requires RunsOk(s) && r in s.runs && s.runs[r].phase.Working? && IsCandidate(s, candidate)
    requires q in s.runs && q != r
    ensures ViewOk(Promote(Leave(s, r), max, s.runs[r].scope, s.runs[r].phase.mine, now, candidate).clusters, s.runs[q])
  {
    assert ViewOk(s.clusters, s.runs[q]);
    if candidate.Some? && !s.runs[q].phase.Started? {
      UnsharedIsNobodys(s, candidate.value, q);
    }
    PromoteKeepsOthers(Leave(s, r), max, s.runs[r].scope, s.runs[r].phase.mine, now, candidate, s.runs[q]);
  }

  lemma {:induction false} PromoteKeepsRuns(s: State, max: nat, r: RunId, now: nat, candidate: Option<Scope>)
    requires RunsOk(s) && r in s.runs && s.runs[r].phase.Working? && IsCandidate(s, candidate)
    ensures RunsOk(Promote(Leave(s, r), max, s.runs[r].scope, s.runs[r].phase.mine, now, candidate))
  {
    var Run(scope, Working(h, _), _) := s.runs[r];
    var left := Leave(s, r);
    var s' := Promote(left, max, scope, h, now, candidate);
    forall q | q in left.runs ensures ViewOk(s'.clusters, s.runs[q]) {
      PromoteKeepsView(s, max, r, now, candidate, q);
    }
    SameRuns(s, left.runs, s'.clusters);
  }

  lemma {:induction false} FinishKeepsRuns(s: State, max: nat, r: RunId, built: bool, candidate: Option<Scope>)
    requires RunsOk(s) && r in s.runs && s.runs[r].phase.Working? && IsCandidate(s, candidate)
    requires built && s.runs[r].phase.disposition.Bypassed? ==> s.runs[r].access.Some?
    ensures RunsOk(FinishRun(s, max, r, built, candidate))
  {
    if s.runs[r].phase.disposition.Bypassed? && built {
      PromoteKeepsRuns(s, max, r, s.runs[r].access.value, candidate);
    } else {
      MoveKeepsRuns(s, FinishRun(s, max, r, built, candidate), r);
    }
  }

  lemma {:induction false} FailKeepsRuns(s: State, r: RunId)
    requires RunsOk(s) && r in s.runs && s.runs[r].phase.Working?
    ensures RunsOk(FailRun(s, r))
  {
  }

  lemma {:induction false} StepKeepsRuns(s: State, max: nat, e: Event)
    requires RunsOk(s) && Enabled(s, e)
    ensures RunsOk(Step(s, max, e))
  {
    assert e.CloseDuplicate? ==> ViewOk(s.clusters, s.runs[e.r]);
    match e
    case Begin(r, _) => MoveKeepsRuns(s, Step(s, max, e), r);
    case Access(r) => MoveKeepsRuns(s, Step(s, max, e), r);
    case Lookup(r) => MoveKeepsRuns(s, LookUp(s, r), r);
    case NoData(r) => MoveKeepsRuns(s, Step(s, max, e), r);
    case GiveUp(r) => MoveKeepsRuns(s, Step(s, max, e), r);
    case Open(r) => MoveKeepsRuns(s, Step(s, max, e), r);
    case Select(r) => MoveKeepsRuns(s, Offer(s, max, r), r);
    case CloseDuplicate(r) => assert false;
    case Finish(r, built, candidate) => FinishKeepsRuns(s, max, r, built, candidate);
    case Fail(r) => FailKeepsRuns(s, r);
    case Retire(stale) => RetireKeepsRuns(s, stale);
    case CloseOne(h) =>
  }

  // ----- the cache stays within its size

  lemma {:induction false} TakeOutFits(s: State, max: nat, k: Scope)
    requires SlotsOk(s, max)
    ensures SlotsOk(TakeOut(s, k), max)
  {
  }

  lemma {:induction false} PutFits(s: State, max: nat, k: Scope, slot: Slot)
    requires SlotsOk(s, max) && SlotOk(slot, s.clock) && (k in s.clusters || |s.clusters| < max)
    ensures SlotsOk(s.(clusters := s.clusters[k := slot]), max)
  {
  }

  lemma {:induction false} PromoteFits(s: State, max: nat, scope: Scope, h: Handle, now: nat, candidate: Option<Scope>)
    requires SlotsOk(s, max) && now <= s.clock
    ensures SlotsOk(Promote(s, max, scope, h, now, candidate), max)
  {
  }

  lemma {:induction false} FinishFits(s: State, max: nat, r: RunId, built: bool, candidate: Option<Scope>)
    requires SlotsOk(s, max) && r in s.runs && s.runs[r].phase.Working?
    requires built && s.runs[r].phase.disposition.Bypassed? ==> s.runs[r].access.Some?
    ensures SlotsOk(FinishRun(s, max, r, built, candidate), max)
  {
    var Run(k, Working(h, disposition), access) := s.runs[r];
    if access.Some? {
      PromoteFits(Leave(s, r), max, k, h, access.value, candidate);
    }
    if k in s.clusters {
      PutFits(Leave(s, r), max, k, SlotAfter(s.clusters[k], disposition, built));
    }
  }

  lemma {:induction false} StepFits(s: State, max: nat, e: Event)
    requires SlotsOk(s, max) && Enabled(s, e)
    ensures SlotsOk(Step(s, max, e), max)
  {
    match e
    case Lookup(r) =>
      if s.runs[r].scope in s.clusters {
        PutFits(s, max, s.runs[r].scope, s.clusters[s.runs[r].scope].(lastUsed := s.runs[r].access.value));
      }
    case NoData(r) => TakeOutFits(s, max, s.runs[r].scope);
    case Select(r) =>
      var Run(k, Opened(h), access) := s.runs[r];
      if k in s.clusters {
        PutFits(s, max, k, s.clusters[k].(lastUsed := access.value));
      } else if |s.clusters| < max {
        PutFits(s, max, k, Slot(h, access.value, false, 0));
      }
    case Finish(r, built, candidate) => FinishFits(s, max, r, built, candidate);
    case Fail(r) => TakeOutFits(Leave(s, r), max, s.runs[r].scope);
    case Retire(stale) => TakeOutFits(s, max, stale);
    case _ =>
  }

  // ----- every run of the system

  ghost predicate Inv(s: State, max: nat) {
    RunsOk(s) && SlotsOk(s, max) && forall x: Handle :: OnePlace(s, x)
  }

  /** Each of the events can happen when its turn comes, starting from an empty cache. */
  ghost predicate CanRun(max: nat, events: seq<Event>)
    decreases |events|, 0
  {
    events != [] ==>
      && CanRun(max, events[..|events| - 1])
      && Enabled(After(max, events[..|events| - 1]), events[|events| - 1])
  }

  /** The state the events lead to. */
  ghost function After(max: nat, events: seq<Event>): State
    requires CanRun(max, events)
    decreases |events|, 1
  {
    if events == [] then INITIAL else Step(After(max, events[..|events| - 1]), max, events[|events| - 1])
  }

  lemma {:induction false} StepKeepsInv(s: State, max: nat, e: Event)
    requires Inv(s, max) && Enabled(s, e)
    ensures Inv(Step(s, max, e), max)
  {
    StepKeepsRuns(s, max, e);
    StepFits(s, max, e);
    NextHandleStep(s, max, e);
    forall x: Handle ensures OnePlace(Step(s, max, e), x) {
      assert OnePlace(s, x);
      StepMoves(s, max, e, x);
    }
  }

  lemma {:induction false} NextHandleStep(s: State, max: nat, e: Event)
    requires Enabled(s, e)
    ensures Step(s, max, e).nextHandle == s.nextHandle + One(e.Open?)
  {
  }

  lemma {:induction false} StartsOk(max: nat)
    ensures Inv(INITIAL, max)
  {
  }

  /** Every state the system can reach keeps the invariant. */
  lemma {:induction false} ReachedKeepsInv(max: nat, events: seq<Event>)
    requires CanRun(max, events)
    ensures Inv(After(max, events), max)
    decreases |events|
  {
    hide Step;
    hide Inv;
    if events == [] {
      StartsOk(max);
    } else {
      ReachedKeepsInv(max, events[..|events| - 1]);
      StepKeepsInv(After(max, events[..|events| - 1]), max, events[|events| - 1]);
    }
  }

  /**
   In every reachable state the residents fit, no handle was closed twice, and when
   no run is under way and nothing is waiting to be closed, every handle ever opened
   is resident or was closed, exactly once and not both.
   */
  lemma {:induction false} HandlesAccountedFor(max: nat, events: seq<Event>, x: Handle)
    requires CanRun(max, events)
    ensures
      var s := After(max, events);
      && |s.clusters| <= max
      && s.closes[x] <= 1 && (x >= s.nextHandle ==> s.closes[x] == 0)
      && (x < s.nextHandle && s.runs == map[] && s.doomed == multiset{} ==>
            (s.closes[x] == 1 <==> forall k | k in s.clusters :: s.clusters[k].handle != x))
      && (forall j, k | j in s.clusters && k in s.clusters && j != k :: s.clusters[j].handle != s.clusters[k].handle)
  {
    ReachedKeepsInv(max, events);
    AccountedFor(After(max, events), max, x);
  }

  lemma {:induction false} AccountedFor(s: State, max: nat, x: Handle)
    requires Inv(s, max)
    ensures |s.clusters| <= max
    ensures s.closes[x] <= 1 && (x >= s.nextHandle ==> s.closes[x] == 0)
    ensures x < s.nextHandle && s.runs == map[] && s.doomed == multiset{} ==>
      (s.closes[x] == 1 <==> forall k | k in s.clusters :: s.clusters[k].handle != x)
    ensures forall j, k | j in s.clusters && k in s.clusters && j != k :: s.clusters[j].handle != s.clusters[k].handle
  {
    assert OnePlace(s, x);
    NoHome(s.clusters, x);
    if s.runs == map[] {
      assert Carriers(s.runs, x) == {};
    }
    forall j, k | j in s.clusters && k in s.clusters && j != k ensures s.clusters[j].handle != s.clusters[k].handle {
      var y := s.clusters[j].handle;
      assert OnePlace(s, y);
      if s.clusters[k].handle == y {
        TwoInSet(Homes(s.clusters, y), j, k);
      }
    }
  }

  lemma {:induction false} NoHome(c: map<Scope, Slot>, x: Handle)
    ensures |Homes(c, x)| == 0 <==> forall k | k in c :: c[k].handle != x
  {
    forall k | k in c && c[k].handle == x ensures |Homes(c, x)| != 0 {
      assert k in Homes(c, x);
    }
    if |Homes(c, x)| != 0 {
      var k :| k in Homes(c, x);
    }
  }

  lemma {:induction false} TwoInSet(s: set<nat>, j: nat, k: nat)
    requires j in s && k in s && j != k
    ensures 2 <= |s|
  {
    assert {j, k} <= s;
    assert s == {j, k} + (s - {j, k});
  }

  /** A handle some run works with is never evicted, never waiting to be closed and never closed. */
  lemma {:induction false} HeldIsNeverClosed(max: nat, events: seq<Event>, r: RunId)
    requires CanRun(max, events) && r in After(max, events).runs && After(max, events).runs[r].phase.Working?
    ensures
      var s := After(max, events);
      var h := s.runs[r].phase.mine;
      && s.doomed[h] == 0 && s.closes[h] == 0
      && (!s.runs[r].phase.disposition.Bypassed? ==>
            s.runs[r].scope in s.clusters && s.clusters[s.runs[r].scope].handle == h)
  {
    ReachedKeepsInv(max, events);
    HeldIsPlaced(After(max, events), max, r);
  }

  lemma {:induction false} HeldIsPlaced(s: State, max: nat, r: RunId)
    requires Inv(s, max) && r in s.runs && s.runs[r].phase.Working?
    ensures
      var h := s.runs[r].phase.mine;
      && s.doomed[h] == 0 && s.closes[h] == 0
      && (!s.runs[r].phase.disposition.Bypassed? ==>
            s.runs[r].scope in s.clusters && s.clusters[s.runs[r].scope].handle == h)
  {
    var Run(scope, Working(h, disposition), _) := s.runs[r];
    assert OnePlace(s, h) && ViewOk(s.clusters, s.runs[r]);
    if disposition.Bypassed? {
      assert r in Carriers(s.runs, h);
    } else {
      assert scope in Homes(s.clusters, h);
    }
  }

  /** With the gates held, no run opens a handle another run already has resident for its scope. */
  lemma {:induction false} NoDuplicateOpens(max: nat, events: seq<Event>, r: RunId)
    requires CanRun(max, events) && r in After(max, events).runs
    ensures
      var s := After(max, events);
      && !s.runs[r].phase.Duplicate?
      && (s.runs[r].phase.Opened? || (s.runs[r].phase.Working? && s.runs[r].phase.disposition.Bypassed?) ==>
            s.runs[r].scope !in s.clusters)
  {
    hide Step;
    ReachedKeepsInv(max, events);
    var s := After(max, events);
    assert ViewOk(s.clusters, s.runs[r]);
  }
}
