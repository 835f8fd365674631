/**
 Which open handles the indexer's cache keeps: hot scopes before cold ones and recently used
 before others, where a scope is hot from a build until two runs in a row find nothing to build.
 */
module ScopeHeat {
  import opened Base
  import opened ScopeCache

  // ----- what is evicted

  /** `j` is to go before `k`: it is cold and `k` is hot or, if both are the same, it was used before. */
  predicate Colder(j: Slot, k: Slot) {
    if j.hot == k.hot then j.lastUsed < k.lastUsed else k.hot
  }

  /**
   A finished run takes a resident handle of another scope out only to make room: the cache is full, the run built
   something with a handle that found no room, no run uses the handle taken out, and no other that could go instead
   is colder.
   */
  lemma {:induction false} EvictsColdest(s: State, max: nat, r: RunId, built: bool, candidate: Option<Scope>, c: Scope)
    requires Enabled(s, Finish(r, built, candidate)) && c in s.clusters && c != s.runs[r].scope
    requires c !in Step(s, max, Finish(r, built, candidate)).clusters
    ensures |s.clusters| >= max && built && s.runs[r].phase.disposition.Bypassed? && s.runs[r].scope !in s.clusters
    ensures Unshared(s, c) && forall k | k in s.clusters && Unshared(s, k) :: !Colder(s.clusters[k], s.clusters[c])
  {
  }

  lemma {:induction false} CandidateExists(s: State, candidate: Option<Scope>)
    requires IsCandidate(s, candidate)
    ensures candidate.Some? <==> exists k :: k in s.clusters && Unshared(s, k)
    ensures candidate.Some? ==> candidate.value in s.clusters
  {
    hide GoesFirst;
    hide Unshared;
  }

  /** A handle that found no room but built something becomes resident, and hot, exactly if there is room or can be made. */
  lemma {:induction false} PromotedExactly(s: State, max: nat, r: RunId, candidate: Option<Scope>)
    requires Inv(s, max) && Enabled(s, Finish(r, true, candidate)) && s.runs[r].phase.disposition.Bypassed?
    ensures
      var scope, h, s' := s.runs[r].scope, s.runs[r].phase.mine, Step(s, max, Finish(r, true, candidate));
      var room := |s.clusters| < max || (0 < max && exists k :: k in s.clusters && Unshared(s, k));
      if room then scope in s'.clusters && s'.clusters[scope] == Slot(h, s.runs[r].access.value, true, 0)
      else s'.clusters == s.clusters && s'.doomed == s.doomed + multiset{h}
  {
    hide Inv;
    hide IsCandidate;
    hide Unshared;
    RunsOfInv(s, max);
    assert ViewOk(s.clusters, s.runs[r]);
    CandidateExists(s, candidate);
    if candidate.Some? {
      assert |s.clusters - {candidate.value}| == |s.clusters| - 1;
    }
  }

  /** A lookup finds the resident handle if there is one, and only that makes it a hit. */
  lemma {:induction false} FindsResident(s: State, max: nat, r: RunId)
    requires Enabled(s, Lookup(r))
    ensures
      var scope, s' := s.runs[r].scope, Step(s, max, Lookup(r));
      && s'.runs[r].phase == (if scope in s.clusters then Working(s.clusters[scope].handle, Hit) else Missed)
      && s'.clusters.Keys == s.clusters.Keys && s'.doomed == s.doomed
  {
  }

  /** A handle just opened is admitted, cold, exactly if there is room; nothing is evicted for it. */
  lemma {:induction false} AdmittedExactly(s: State, max: nat, r: RunId)
    requires Inv(s, max) && Enabled(s, Select(r))
    ensures
      var scope, h, s' := s.runs[r].scope, s.runs[r].phase.offered, Step(s, max, Select(r));
      if |s.clusters| < max then
        && s'.runs[r].phase == Working(h, Admitted)
        && s'.clusters == s.clusters[scope := Slot(h, s.runs[r].access.value, false, 0)]
      else s'.runs[r].phase == Working(h, Bypassed) && s'.clusters == s.clusters
  {
    assert ViewOk(s.clusters, s.runs[r]);
  }

  /** A failed run's handle is not kept, resident or not. */
  lemma {:induction false} FailedGoes(s: State, max: nat, r: RunId)
    requires RunsOk(s) && Enabled(s, Fail(r))
    ensures
      var scope, h, s' := s.runs[r].scope, s.runs[r].phase.mine, Step(s, max, Fail(r));
      s'.clusters == s.clusters - {scope} && s'.doomed == s.doomed + multiset{h}
  {
    assert ViewOk(s.clusters, s.runs[r]);
    if s.runs[r].phase.disposition.Bypassed? {
      assert s.clusters - {s.runs[r].scope} == s.clusters;
    }
  }

  /** Neither is one that found no room and built nothing. */
  lemma {:induction false} IdleGoes(s: State, max: nat, r: RunId, candidate: Option<Scope>)
    requires Enabled(s, Finish(r, false, candidate)) && s.runs[r].phase.disposition.Bypassed?
    ensures
      var h, s' := s.runs[r].phase.mine, Step(s, max, Finish(r, false, candidate));
      s'.clusters == s.clusters && s'.doomed == s.doomed + multiset{h}
  {
  }

  /** A scope found without data, or no longer registered, is not kept. */
  lemma {:induction false} EmptyGoes(s: State, max: nat, e: Event)
    requires Enabled(s, e) && (e.NoData? || e.Retire?)
    ensures
      var k := if e.NoData? then s.runs[e.r].scope else e.stale;
      && Step(s, max, e).clusters == s.clusters - {k}
      && Step(s, max, e).doomed == s.doomed + (if k in s.clusters then multiset{s.clusters[k].handle} else multiset{})
  {
    if e.NoData? && s.runs[e.r].scope !in s.clusters {
      assert s.clusters - {s.runs[e.r].scope} == s.clusters;
    }
  }

  // ----- when a scope was last used

  /** The scope an event uses, and the clock reading it is used at: a hit, an admission, or a promotion. */
  ghost function Uses(s: State, e: Event): Option<(Scope, nat)>
    requires Enabled(s, e)
  {
    match e
    case Lookup(r) => Some((s.runs[r].scope, s.runs[r].access.value))
    case Select(r) => Some((s.runs[r].scope, s.runs[r].access.value))
    case Finish(r, true, _) =>
      if s.runs[r].phase.disposition.Bypassed? then Some((s.runs[r].scope, s.runs[r].access.value)) else None
    case _ => None
  }

  /** A resident scope's time of use is the reading of the last event that used it. */
  lemma {:induction false} UsedExactly(s: State, max: nat, e: Event, k: Scope)
    requires Enabled(s, e) && k in Step(s, max, e).clusters
    ensures
      var used := Step(s, max, e).clusters[k].lastUsed;
      if Uses(s, e).Some? && Uses(s, e).value.0 == k then used == Uses(s, e).value.1
      else k in s.clusters && used == s.clusters[k].lastUsed
  {
    hide FinishRun;
    hide IsCandidate;
    hide Unshared;
    if e.Finish? {
      FinishUses(s, max, e.r, e.built, e.candidate, k);
    }
  }

  lemma {:induction false} FinishUses(s: State, max: nat, r: RunId, built: bool, candidate: Option<Scope>, k: Scope)
    requires r in s.runs && s.runs[r].phase.Working?
    requires built && s.runs[r].phase.disposition.Bypassed? ==> s.runs[r].access.Some?
    requires k in FinishRun(s, max, r, built, candidate).clusters
    ensures
      var used := FinishRun(s, max, r, built, candidate).clusters[k].lastUsed;
      if built && s.runs[r].phase.disposition.Bypassed? && s.runs[r].scope == k then used == s.runs[r].access.value
      else k in s.clusters && used == s.clusters[k].lastUsed
  {
    hide IsCandidate;
    hide Unshared;
    var run := s.runs[r];
    if run.phase.disposition.Bypassed? && built {
      hide SlotAfter;
      PromoteUses(Leave(s, r), max, run.scope, run.phase.mine, run.access.value, candidate, k);
    }
  }

  lemma {:induction false} PromoteUses(s: State, max: nat, scope: Scope, h: Handle, now: nat, candidate: Option<Scope>, k: Scope)
    requires k in Promote(s, max, scope, h, now, candidate).clusters
    ensures
      var used := Promote(s, max, scope, h, now, candidate).clusters[k].lastUsed;
      if scope == k then used == now else k in s.clusters && used == s.clusters[k].lastUsed
  {
  }

  /** A reading is later than every time of use and every reading taken before it. */
  lemma {:induction false} ReadsLatest(s: State, max: nat, r: RunId)
    requires Inv(s, max) && Enabled(s, Access(r))
    ensures
      var s' := Step(s, max, Access(r));
      && s'.clusters == s.clusters && s'.runs[r].access.Some?
      && (forall k | k in s.clusters :: s.clusters[k].lastUsed < s'.runs[r].access.value)
      && (forall q | q in s.runs && s.runs[q].access.Some? :: s.runs[q].access.value < s'.runs[r].access.value)
  {
  }

  // ----- runs of the system

  /** The state before event `n`. */
  ghost function At(max: nat, events: seq<Event>, n: nat): State
    requires n <= |events| && CanRun(max, events)
  {
    Prefix(max, events, n);
    After(max, events[..n])
  }

  lemma {:induction false} Prefix(max: nat, events: seq<Event>, n: nat)
    requires n <= |events| && CanRun(max, events)
    ensures CanRun(max, events[..n])
    decreases |events|
  {
    if n == |events| {
      assert events[..n] == events;
    } else {
      Prefix(max, events[..|events| - 1], n);
      assert events[..|events| - 1][..n] == events[..n];
    }
  }

  lemma {:induction false} AtNext(max: nat, events: seq<Event>, n: nat)
    requires n < |events| && CanRun(max, events)
    ensures Inv(At(max, events, n), max) && Enabled(At(max, events, n), events[n])
    ensures At(max, events, n + 1) == Step(At(max, events, n), max, events[n])
  {
    hide Step;
    hide Enabled;
    hide Inv;
    Prefix(max, events, n);
    Prefix(max, events, n + 1);
    assert events[..n + 1][..n] == events[..n];
    ReachedKeepsInv(max, events[..n]);
  }

  // ----- a handle that was resident is never offered again

  lemma {:induction false} CarriersStep(s: State, max: nat, e: Event, q: RunId, h: Handle)
    requires Enabled(s, e) && q in Step(s, max, e).runs && Carries(Step(s, max, e).runs[q], h)
    ensures (q in s.runs && Carries(s.runs[q], h)) || h == s.nextHandle
  {
    hide FinishRun;
    hide FailRun;
    hide IsCandidate;
    hide Unshared;
    match e
    case Finish(r, built, candidate) => RunLeaves(s, max, r, built, candidate);
    case Fail(r) => RunLeaves(s, max, r, false, None);
    case _ =>
  }

  lemma {:induction false} RunLeaves(s: State, max: nat, r: RunId, built: bool, candidate: Option<Scope>)
    requires r in s.runs && s.runs[r].phase.Working?
    requires built && s.runs[r].phase.disposition.Bypassed? ==> s.runs[r].access.Some?
    ensures FinishRun(s, max, r, built, candidate).runs == FailRun(s, r).runs == s.runs - {r}
  {
  }

  lemma {:induction false} ResidentIsUncarried(s: State, max: nat, k: Scope)
    requires Inv(s, max) && k in s.clusters
    ensures
      var h := s.clusters[k].handle;
      h < s.nextHandle && forall q | q in s.runs :: !Carries(s.runs[q], h)
  {
    var h := s.clusters[k].handle;
    assert OnePlace(s, h);
    assert k in Homes(s.clusters, h);
    assert |Carriers(s.runs, h)| == 0;
    forall q | q in s.runs ensures !Carries(s.runs[q], h) {
      assert q !in Carriers(s.runs, h);
    }
  }

  lemma {:induction false} NeverOfferedAgain(max: nat, events: seq<Event>, i: nat, n: nat, k: Scope, h: Handle, q: RunId)
    requires CanRun(max, events) && i <= n <= |events|
    requires k in At(max, events, i).clusters && At(max, events, i).clusters[k].handle == h
    ensures h < At(max, events, n).nextHandle
    ensures q in At(max, events, n).runs ==> !Carries(At(max, events, n).runs[q], h)
    decreases n
  {
    hide Step;
    hide Enabled;
    if i == n {
      Prefix(max, events, n);
      ReachedKeepsInv(max, events[..n]);
      ResidentIsUncarried(At(max, events, n), max, k);
    } else {
      NeverOfferedAgain(max, events, i, n - 1, k, h, q);
      AtNext(max, events, n - 1);
      var s, e := At(max, events, n - 1), events[n - 1];
      NextHandleStep(s, max, e);
      if q in At(max, events, n).runs && Carries(At(max, events, n).runs[q], h) {
        CarriersStep(s, max, e, q, h);
      }
    }
  }

  // ----- when a scope is hot

  /** A run of the scope ends having built something. */
  predicate Builds(s: State, e: Event, k: Scope) { e.Finish? && e.built && e.r in s.runs && s.runs[e.r].scope == k }

  /** A run of the scope that found the handle resident ends having built nothing. */
  predicate Idles(s: State, e: Event, k: Scope) {
    && e.Finish? && !e.built && e.r in s.runs && s.runs[e.r].scope == k
    && s.runs[e.r].phase.Working? && s.runs[e.r].phase.disposition.Hit?
  }

  /** Event `i` was a build with handle `h` that left it resident. */
  ghost predicate BuiltAt(max: nat, events: seq<Event>, i: nat, k: Scope, h: Handle)
    requires CanRun(max, events) && i < |events|
  {
    && Builds(At(max, events, i), events[i], k)
    && k in At(max, events, i + 1).clusters && At(max, events, i + 1).clusters[k].handle == h
  }

  /** How many of the events from `lo` up to `hi` were idle runs of the scope. */
  ghost function IdleRuns(max: nat, events: seq<Event>, lo: nat, hi: nat, k: Scope): nat
    requires CanRun(max, events) && hi <= |events|
    decreases hi
  {
    if hi <= lo then 0
    else IdleRuns(max, events, lo, hi - 1, k) + if Idles(At(max, events, hi - 1), events[hi - 1], k) then 1 else 0
  }

  /** What the end of a run does to the heat of a slot that stays. */
  lemma {:induction false} FinishSlot(s: State, max: nat, r: RunId, built: bool, candidate: Option<Scope>, k: Scope)
    requires RunsOk(s) && r in s.runs && s.runs[r].phase.Working?
    requires built && s.runs[r].phase.disposition.Bypassed? ==> s.runs[r].access.Some?
    requires k in s.clusters && k in FinishRun(s, max, r, built, candidate).clusters
    ensures
      var slot, slot' := s.clusters[k], FinishRun(s, max, r, built, candidate).clusters[k];
      slot' == if s.runs[r].scope == k then SlotAfter(slot, s.runs[r].phase.disposition, built) else slot
  {
    hide SlotAfter;
    hide IsCandidate;
    assert ViewOk(s.clusters, s.runs[r]);
  }

  /** What a step does to the heat of a slot that stays. */
  lemma {:induction false} SlotStep(s: State, max: nat, e: Event, k: Scope)
    requires RunsOk(s) && Enabled(s, e) && k in s.clusters && k in Step(s, max, e).clusters
    ensures
      var slot, slot' := s.clusters[k], Step(s, max, e).clusters[k];
      && slot'.handle == slot.handle
      && if Builds(s, e, k) then slot'.hot && slot'.idle == 0
         else if Idles(s, e, k) && slot.hot then
           if slot.idle + 1 < 2 then slot'.hot && slot'.idle == slot.idle + 1 else !slot'.hot
         else slot'.hot == slot.hot && slot'.idle == slot.idle
  {
    hide IsCandidate;
    hide Unshared;
    hide FinishRun;
    if e.Finish? {
      FinishSlot(s, max, e.r, e.built, e.candidate, k);
    }
  }

  /** The end of a run makes a slot only by a build, and that hot. */
  lemma {:induction false} FinishEnters(s: State, max: nat, r: RunId, built: bool, candidate: Option<Scope>, k: Scope)
    requires r in s.runs && s.runs[r].phase.Working?
    requires built && s.runs[r].phase.disposition.Bypassed? ==> s.runs[r].access.Some?
    requires k !in s.clusters && k in FinishRun(s, max, r, built, candidate).clusters
    ensures
      var slot := FinishRun(s, max, r, built, candidate).clusters[k];
      built && s.runs[r].scope == k && slot.hot && slot.idle == 0
  {
    hide SlotAfter;
    hide IsCandidate;
  }

  /** A slot that is new is cold, and its handle was in a run's care, or is hot by a build. */
  lemma {:induction false} SlotEnters(s: State, max: nat, e: Event, k: Scope)
    requires RunsOk(s) && Enabled(s, e) && k !in s.clusters && k in Step(s, max, e).clusters
    ensures
      var slot := Step(s, max, e).clusters[k];
      if Builds(s, e, k) then slot.hot && slot.idle == 0
      else e.Select? && e.r in s.runs && !slot.hot && Carries(s.runs[e.r], slot.handle)
  {
    hide IsCandidate;
    hide Unshared;
    hide FinishRun;
    if e.Finish? {
      FinishEnters(s, max, e.r, e.built, e.candidate, k);
    }
  }

  /** What the builds and idle runs so far say about the slot of the scope. */
  ghost predicate HeatOk(max: nat, events: seq<Event>, n: nat, k: Scope)
    requires CanRun(max, events) && n <= |events| && k in At(max, events, n).clusters
  {
    var slot := At(max, events, n).clusters[k];
    && (slot.hot ==>
          exists i :: 0 <= i < n && BuiltAt(max, events, i, k, slot.handle) && IdleRuns(max, events, i + 1, n, k) == slot.idle)
    && forall i :: 0 <= i < n && BuiltAt(max, events, i, k, slot.handle) ==>
         IdleRuns(max, events, i + 1, n, k) >= if slot.hot then slot.idle else 2
  }

  lemma {:induction false} HeatStays(max: nat, events: seq<Event>, n: nat, k: Scope)
    requires CanRun(max, events) && 0 < n <= |events|
    requires k in At(max, events, n - 1).clusters && k in At(max, events, n).clusters && HeatOk(max, events, n - 1, k)
    ensures HeatOk(max, events, n, k)
  {
    hide Step;
    hide Enabled;
    hide Inv;
    hide At;
    hide Builds;
    hide Idles;
    AtNext(max, events, n - 1);
    var s, e := At(max, events, n - 1), events[n - 1];
    RunsOfInv(s, max);
    SlotStep(s, max, e, k);
    var slot, slot' := s.clusters[k], At(max, events, n).clusters[k];
    NotBoth(s, e, k);
    if Builds(s, e, k) {
      assert BuiltAt(max, events, n - 1, k, slot'.handle) && IdleRuns(max, events, n, n, k) == 0;
    } else {
      if slot'.hot {
        var i :| 0 <= i < n - 1 && BuiltAt(max, events, i, k, slot.handle)
                 && IdleRuns(max, events, i + 1, n - 1, k) == slot.idle;
        assert IdleRuns(max, events, i + 1, n, k) == slot'.idle;
      }
    }
  }

  lemma {:induction false} RunsOfInv(s: State, max: nat)
    requires Inv(s, max)
    ensures RunsOk(s) && |s.clusters| <= max
  {
  }

  lemma {:induction false} NotBoth(s: State, e: Event, k: Scope)
    ensures !(Builds(s, e, k) && Idles(s, e, k))
  {
  }

  lemma {:induction false} HeatEnters(max: nat, events: seq<Event>, n: nat, k: Scope)
    requires CanRun(max, events) && 0 < n <= |events|
    requires k !in At(max, events, n - 1).clusters && k in At(max, events, n).clusters
    ensures HeatOk(max, events, n, k)
  {
    hide Step;
    hide Enabled;
    hide Inv;
    hide At;
    hide Builds;
    hide Idles;
    AtNext(max, events, n - 1);
    var s, e := At(max, events, n - 1), events[n - 1];
    RunsOfInv(s, max);
    SlotEnters(s, max, e, k);
    var h := At(max, events, n).clusters[k].handle;
    if Builds(s, e, k) {
      assert BuiltAt(max, events, n - 1, k, h) && IdleRuns(max, events, n, n, k) == 0;
    } else {
      forall i | 0 <= i < n ensures !BuiltAt(max, events, i, k, h) {
        if BuiltAt(max, events, i, k, h) && i < n - 1 {
          NeverOfferedAgain(max, events, i + 1, n - 1, k, h, e.r);
        }
      }
    }
  }

  lemma {:induction false} HeatHolds(max: nat, events: seq<Event>, n: nat, k: Scope)
    requires CanRun(max, events) && n <= |events| && k in At(max, events, n).clusters
    ensures HeatOk(max, events, n, k)
    decreases n
  {
    hide HeatOk;
    if n > 0 {
      if k in At(max, events, n - 1).clusters {
        HeatHolds(max, events, n - 1, k);
        HeatStays(max, events, n, k);
      } else {
        HeatEnters(max, events, n, k);
      }
    }
  }

  /**
   In every run of the system, whatever the interleaving, a resident scope is hot exactly when some run built with
   the resident handle and fewer than two runs that found it resident have since built nothing.
   */
  lemma {:induction false} HotExactly(max: nat, events: seq<Event>, k: Scope)
    requires CanRun(max, events) && k in After(max, events).clusters
    ensures
      var slot := After(max, events).clusters[k];
      slot.hot <==>
        exists i :: 0 <= i < |events| && BuiltAt(max, events, i, k, slot.handle) && IdleRuns(max, events, i + 1, |events|, k) < 2
  {
    var n := |events|;
    assert events[..n] == events;
    HeatHolds(max, events, n, k);
    IdleBelowTwo(max, events, k);
  }

  lemma {:induction false} IdleBelowTwo(max: nat, events: seq<Event>, k: Scope)
    requires CanRun(max, events) && k in After(max, events).clusters
    ensures After(max, events).clusters[k].idle < 2
  {
    hide Step;
    hide Enabled;
    ReachedKeepsInv(max, events);
    assert SlotOk(After(max, events).clusters[k], After(max, events).clock);
  }
}
