/**
 Builders publish a graph artifact epoch while cleaners delete epochs that were
 never published. Every store access is one guarded atomic batch, so a run is a
 sequence of events, one batch (or one read, or one lock operation) per event.

 The artifact lock is exclusive. A builder holds it from prepare to publish and a
 cleaner holds it when it claims; a cleaner may lose it afterwards and still go
 on issuing deletes, which is the stale cleaner the claim token fences off.
 */
module ArtifactProtocol {
  import opened Base

  // ----- store: keys, guards and atomic batches

  datatype Key =
    | Manifest(epoch: nat)             // published marker of the epoch
    | CscManifest(epoch: nat)          // names the epoch's chunks
    | Data(epoch: nat, part: string)   // one chunk or tile
    | Marker(epoch: nat)               // cleanup claim

  datatype Value =
    | Record(data: seq<nat>)
    | Contents(parts: map<string, seq<nat>>)
    | Claim(token: nat)

  type Store = map<Key, Value>

  datatype Guard = Absent(key: Key) | Equals(key: Key, expected: Value)

  datatype Op = Put(key: Key, value: Value) | Delete(key: Key)

  datatype Outcome = Committed(store: Store) | Conflict(key: Key)

  predicate Holds(g: Guard, st: Store) {
    match g
    case Absent(k) => k !in st
    case Equals(k, v) => k in st && st[k] == v
  }

  function ApplyOne(st: Store, op: Op): Store {
    match op
    case Put(k, v) => st[k := v]
    case Delete(k) => st - {k}
  }

  function Apply(st: Store, ops: seq<Op>): Store
    decreases |ops|
  {
    if ops == [] then st
    else
      Apply(ApplyOne(st, ops[0]), ops[1..])
  }

  /** The first guard that does not hold stops the batch and is reported. */
  function FirstFailed(guards: seq<Guard>, st: Store): Option<Key>
    decreases |guards|
  {
    if guards == [] then None
    else if Holds(guards[0], st) then FirstFailed(guards[1..], st)
    else Some(guards[0].key)
  }

  function GuardedWrite(st: Store, guards: seq<Guard>, ops: seq<Op>): Outcome {
    if ops == [] then Committed(st)
    else match FirstFailed(guards, st)
         case Some(k) => Conflict(k)
         case None => Committed(Apply(st, ops))
  }

  predicate OwnsMarker(st: Store, e: nat, token: nat) {
    Marker(e) in st && st[Marker(e)] == Claim(token)
  }

  // ----- actors

  datatype Actor = TheBuilder(id: nat) | TheCleaner(id: nat)

  datatype BuilderPhase =
    | Queued                               // has not taken the artifact lock
    | Locked                               // holds the lock
    | SawMarker(marker: Option<Value>)     // read the cleanup marker
    | Writing(todo: set<string>)           // prepared, parts still to flush
    | Published
    | Failed

  datatype Builder = Builder(epoch: nat, parts: map<string, seq<nat>>, phase: BuilderPhase)

  datatype CleanerPhase =
    | Looking                              // before the first manifest read
    | Waiting                              // manifest was absent, wants the lock
    | Holding(token: nat)                  // has the lock and its token
    | Rechecked(token: nat)                // manifest absent again
    | Claimed(token: nat)                  // wrote the marker
    | Releasing(token: nat)                // leaving, marker still to release
    | Finished

  datatype Cleaner = Cleaner(epoch: nat, phase: CleanerPhase)

  datatype State = State(
    store: Store,
    lock: Option<Actor>,
    builders: map<nat, Builder>,
    cleaners: map<nat, Cleaner>,
    nextToken: nat)

  const Initial := State(map[], None, map[], map[], 0)

  datatype BuilderAct =
    | TakeLock
    | ReadMarker
    | Prepare
    | FlushParts(names: seq<string>)
    | Publish
    | Fail                                 // any error, or a crash

  datatype CleanerAct =
    | Look
    | Lock
    | Recheck
    | WriteClaim
    | FlushDeletes(names: seq<string>, cscManifest: bool)
    | Leave
    | Release
    | LoseLock
    | Crash

  datatype Event =
    | StartBuilder(id: nat, epoch: nat, parts: map<string, seq<nat>>)
    | StartCleaner(id: nat, epoch: nat)
    | ByBuilder(id: nat, build: BuilderAct)
    | ByCleaner(id: nat, clean: CleanerAct)

  // ----- the batches of the protocol

  function PrepareGuards(e: nat, marker: Value): seq<Guard> { [Equals(Marker(e), marker)] }

  function PublishGuards(e: nat): seq<Guard> { [Absent(Marker(e))] }

  function PublishOps(e: nat, parts: map<string, seq<nat>>): seq<Op> {
    [Put(Manifest(e), Record([])), Put(CscManifest(e), Contents(parts))]
  }

  function ClaimGuards(e: nat): seq<Guard> { [Absent(Manifest(e))] }

  function DeleteGuards(e: nat, token: nat): seq<Guard> {
    [Absent(Manifest(e)), Equals(Marker(e), Claim(token))]
  }

  function ReleaseGuards(e: nat, token: nat): seq<Guard> { [Equals(Marker(e), Claim(token))] }

  function PutParts(e: nat, names: seq<string>, parts: map<string, seq<nat>>): seq<Op>
    requires forall i :: 0 <= i < |names| ==> names[i] in parts
  {
    seq(|names|, i requires 0 <= i < |names| => Put(Data(e, names[i]), Record(parts[names[i]])))
  }

  function DeleteParts(e: nat, names: seq<string>, cscManifest: bool): seq<Op> {
    (if cscManifest then [Delete(CscManifest(e))] else [])
    + seq(|names|, i requires 0 <= i < |names| => Delete(Data(e, names[i])))
  }

  // ----- one event

  function Unlock(s: State, a: Actor): State {
    if s.lock == Some(a) then s.(lock := None) else s
  }

  function SetBuilder(s: State, id: nat, p: BuilderPhase): State
    requires id in s.builders
  {
    s.(builders := s.builders[id := s.builders[id].(phase := p)])
  }

  function SetCleaner(s: State, id: nat, p: CleanerPhase): State
    requires id in s.cleaners
  {
    s.(cleaners := s.cleaners[id := s.cleaners[id].(phase := p)])
  }

  function BuilderFails(s: State, id: nat): State
    requires id in s.builders
  {
    Unlock(SetBuilder(s, id, Failed), TheBuilder(id))
  }

  function BuilderStep(s: State, id: nat, act: BuilderAct): State
    requires id in s.builders
  {
    var b := s.builders[id];
    match (act, b.phase)
    case (TakeLock, Queued) =>
      if s.lock == None then SetBuilder(s.(lock := Some(TheBuilder(id))), id, Locked)
      else BuilderFails(s, id)
    case (ReadMarker, Locked) =>
      SetBuilder(s, id, SawMarker(if Marker(b.epoch) in s.store then Some(s.store[Marker(b.epoch)]) else None))
    case (Prepare, SawMarker(None)) => SetBuilder(s, id, Writing(b.parts.Keys))
    case (Prepare, SawMarker(Some(m))) =>
      (match GuardedWrite(s.store, PrepareGuards(b.epoch, m), [Delete(Marker(b.epoch))])
       case Committed(st) => SetBuilder(s.(store := st), id, Writing(b.parts.Keys))
       case Conflict(_) => BuilderFails(s, id))
    case (FlushParts(names), Writing(todo)) =>
      if forall i :: 0 <= i < |names| ==> names[i] in b.parts then
        SetBuilder(s.(store := Apply(s.store, PutParts(b.epoch, names, b.parts))), id,
                   Writing(todo - (set n | n in names)))
      else s
    case (Publish, Writing(todo)) =>
      if todo != {} then s
      else
        (match GuardedWrite(s.store, PublishGuards(b.epoch), PublishOps(b.epoch, b.parts))
         case Committed(st) => Unlock(SetBuilder(s.(store := st), id, Published), TheBuilder(id))
         case Conflict(_) => BuilderFails(s, id))
    case (Fail, _) => if b.phase.Published? then s else BuilderFails(s, id)
    case _ => s
  }

  function CleanerFinishes(s: State, id: nat): State
    requires id in s.cleaners
  {
    Unlock(SetCleaner(s, id, Finished), TheCleaner(id))
  }

  function CleanerStep(s: State, id: nat, act: CleanerAct): State
    requires id in s.cleaners
  {
    var c := s.cleaners[id];
    match (act, c.phase)
    case (Look, Looking) =>
      SetCleaner(s, id, if Manifest(c.epoch) in s.store then Finished else Waiting)
    case (Lock, Waiting) =>
      if s.lock == None then
        SetCleaner(s.(lock := Some(TheCleaner(id)), nextToken := s.nextToken + 1), id, Holding(s.nextToken))
      else SetCleaner(s, id, Finished)
    case (Recheck, Holding(t)) =>
      if Manifest(c.epoch) in s.store then CleanerFinishes(s, id) else SetCleaner(s, id, Rechecked(t))
    case (WriteClaim, Rechecked(t)) =>
      if s.lock != Some(TheCleaner(id)) then s
      else
        (match GuardedWrite(s.store, ClaimGuards(c.epoch), [Put(Marker(c.epoch), Claim(t))])
         case Committed(st) => SetCleaner(s.(store := st), id, Claimed(t))
         case Conflict(_) => CleanerFinishes(s, id))
    case (FlushDeletes(names, csc), Claimed(t)) =>
      (match GuardedWrite(s.store, DeleteGuards(c.epoch, t), DeleteParts(c.epoch, names, csc))
       case Committed(st) => s.(store := st)
       case Conflict(_) => SetCleaner(s, id, Releasing(t)))
    case (Leave, Claimed(t)) => SetCleaner(s, id, Releasing(t))
    case (Release, Releasing(t)) =>
      (match GuardedWrite(s.store, ReleaseGuards(c.epoch, t), [Delete(Marker(c.epoch))])
       case Committed(st) => CleanerFinishes(s.(store := st), id)
       case Conflict(_) => CleanerFinishes(s, id))
    case (LoseLock, _) => Unlock(s, TheCleaner(id))
    case (Crash, _) => CleanerFinishes(s, id)
    case _ => s
  }

  /** An event whose actor is not ready for it changes nothing. */
  function Next(s: State, ev: Event): State {
    match ev
    case StartBuilder(id, e, parts) =>
      if id in s.builders then s else s.(builders := s.builders[id := Builder(e, parts, Queued)])
    case StartCleaner(id, e) =>
      if id in s.cleaners then s else s.(cleaners := s.cleaners[id := Cleaner(e, Looking)])
    case ByBuilder(id, act) => if id in s.builders then BuilderStep(s, id, act) else s
    case ByCleaner(id, act) => if id in s.cleaners then CleanerStep(s, id, act) else s
  }

  function Run(s: State, events: seq<Event>): State
    decreases |events|
  {
    if events == [] then s
    else Next(Run(s, events[..|events| - 1]), events[|events| - 1])
  }

  // ----- what a batch changes

  lemma {:induction false} ApplyPuts(st: Store, e: nat, names: seq<string>, parts: map<string, seq<nat>>)
    requires forall i :: 0 <= i < |names| ==> names[i] in parts
    ensures
      var st' := Apply(st, PutParts(e, names, parts));
      forall k: Key :: if k.Data? && k.epoch == e && k.part in names
                  then k in st' && st'[k] == Record(parts[k.part])
                  else (k in st' <==> k in st) && (k in st ==> st'[k] == st[k])
    decreases |names|
  {
    if names != [] {
      var ops := PutParts(e, names, parts);
      var st1 := st[Data(e, names[0]) := Record(parts[names[0]])];
      assert ops[1..] == PutParts(e, names[1..], parts);
      ApplyPuts(st1, e, names[1..], parts);
    }
  }

  lemma {:induction false} ApplyDeletes(st: Store, ops: seq<Op>)
    requires forall i :: 0 <= i < |ops| ==> ops[i].Delete?
    ensures
      var st' := Apply(st, ops);
      forall k :: (k in st' <==> k in st && Delete(k) !in ops) && (k in st' ==> st'[k] == st[k])
    decreases |ops|
  {
    if ops != [] {
      ApplyDeletes(st - {ops[0].key}, ops[1..]);
    }
  }

  // Views of the protocol's batches, so that later proofs need no list unfolding.

  lemma {:induction false} OneOpBatch(st: Store, g: Guard, op: Op)
    ensures GuardedWrite(st, [g], [op]) ==
            if Holds(g, st) then Committed(ApplyOne(st, op)) else Conflict(g.key)
  {
    assert [op][1..] == [] && [g][1..] == [];
    assert Apply(st, [op]) == Apply(ApplyOne(st, op), []);
    assert FirstFailed([g], st) == if Holds(g, st) then FirstFailed([], st) else Some(g.key);
  }

  lemma {:induction false} PublishBatch(st: Store, e: nat, parts: map<string, seq<nat>>)
    ensures GuardedWrite(st, PublishGuards(e), PublishOps(e, parts)) ==
            if Marker(e) in st then Conflict(Marker(e))
            else Committed(st[Manifest(e) := Record([])][CscManifest(e) := Contents(parts)])
  {
    var ops := PublishOps(e, parts);
    assert PublishGuards(e)[1..] == [];
    assert FirstFailed(PublishGuards(e), st) ==
           if Holds(PublishGuards(e)[0], st) then FirstFailed([], st) else Some(Marker(e));
    assert ops[1..] == [ops[1]] && ops[1..][1..] == [];
    assert Apply(st, ops) == Apply(ApplyOne(st, ops[0]), [ops[1]])
                          == Apply(ApplyOne(ApplyOne(st, ops[0]), ops[1]), []);
  }

  lemma {:induction false} DeleteBatch(st: Store, e: nat, token: nat, names: seq<string>, csc: bool)
    ensures
      match GuardedWrite(st, DeleteGuards(e, token), DeleteParts(e, names, csc))
      case Committed(st') =>
        && (st' != st ==> Manifest(e) !in st && Marker(e) in st && st[Marker(e)] == Claim(token))
        && (forall k :: k in st' ==> k in st && st'[k] == st[k])
        && (forall k :: k in st && k !in st' ==> k.epoch == e && (k.Data? || k.CscManifest?))
      case Conflict(k) => k == Manifest(e) || k == Marker(e)
    ensures Manifest(e) !in st && OwnsMarker(st, e, token) ==>
              GuardedWrite(st, DeleteGuards(e, token), DeleteParts(e, names, csc)) ==
              Committed(Apply(st, DeleteParts(e, names, csc)))
  {
    var g := DeleteGuards(e, token);
    assert FirstFailed(g, st) == if Holds(g[0], st) then FirstFailed(g[1..], st) else Some(g[0].key);
    assert g[1..] == [g[1]] && [g[1]][1..] == [];
    assert FirstFailed([g[1]], st) == if Holds(g[1], st) then FirstFailed([], st) else Some(g[1].key);
    ApplyDeletes(st, DeleteParts(e, names, csc));
  }

  function TokenOf(p: CleanerPhase): Option<nat> {
    match p
    case Holding(t) => Some(t)
    case Rechecked(t) => Some(t)
    case Claimed(t) => Some(t)
    case Releasing(t) => Some(t)
    case _ => None
  }

  predicate SameAt(st: Store, st': Store, k: Key) {
    (k in st' <==> k in st) && (k in st ==> st'[k] == st[k])
  }

  /**
   Everything a cleaner step may do. Deletes reach only the parts of its own
   epoch, and only while the manifest is absent and the marker carries its own
   token; it writes its marker only under the lock and removes only its own.
   */
  ghost predicate CleanerEffect(s: State, s': State, id: nat) {
    && id in s.cleaners
    && var c := s.cleaners[id];
    && s'.builders == s.builders
    && (s'.lock == s.lock || (s.lock in {None, Some(TheCleaner(id))} && s'.lock in {None, Some(TheCleaner(id))}))
    && s'.cleaners.Keys == s.cleaners.Keys
    && (forall j :: j in s.cleaners && j != id ==> s'.cleaners[j] == s.cleaners[j])
    && s'.cleaners[id].epoch == c.epoch
    && (var (before, after) := (TokenOf(c.phase), TokenOf(s'.cleaners[id].phase));
        || (s'.nextToken == s.nextToken && (after == before || after == None))
        || (s'.nextToken == s.nextToken + 1 && after == Some(s.nextToken) && c.phase.Waiting?))
    && (c.phase.Claimed? || c.phase.Releasing? ==>
          s'.cleaners[id].phase in {Claimed(c.phase.token), Releasing(c.phase.token), Finished})
    && (c.phase.Finished? ==> s'.cleaners[id].phase.Finished?)
    && (forall k: Key :: !SameAt(s.store, s'.store, k) && !k.Marker? ==>
                           && k !in s'.store && k.epoch == c.epoch && !k.Manifest?
                           && c.phase.Claimed? && Manifest(k.epoch) !in s.store
                           && OwnsMarker(s.store, k.epoch, c.phase.token))
    && (forall k: Key :: !SameAt(s.store, s'.store, k) && k.Marker? ==>
                           && k.epoch == c.epoch
                           && (k in s'.store ==> && c.phase.Rechecked? && s.lock == Some(TheCleaner(id))
                                                 && Manifest(k.epoch) !in s.store && s'.store[k] == Claim(c.phase.token))
                           && (k !in s'.store ==> c.phase.Releasing? && OwnsMarker(s.store, k.epoch, c.phase.token)))
  }

  lemma {:induction false} CleanerFlushEffect(s: State, id: nat, names: seq<string>, csc: bool)
    requires id in s.cleaners && s.cleaners[id].phase.Claimed?
    ensures CleanerEffect(s, CleanerStep(s, id, FlushDeletes(names, csc)), id)
  {
    DeleteBatch(s.store, s.cleaners[id].epoch, s.cleaners[id].phase.token, names, csc);
  }

  lemma {:induction false} CleanerMarkerEffect(s: State, id: nat, act: CleanerAct)
    requires id in s.cleaners
    requires match act { case WriteClaim => s.cleaners[id].phase.Rechecked?
                         case Release => s.cleaners[id].phase.Releasing?
                         case _ => false }
    ensures CleanerEffect(s, CleanerStep(s, id, act), id)
  {
    var (e, t) := (s.cleaners[id].epoch, s.cleaners[id].phase.token);
    if act.WriteClaim? {
      OneOpBatch(s.store, Absent(Manifest(e)), Put(Marker(e), Claim(t)));
    } else {
      OneOpBatch(s.store, Equals(Marker(e), Claim(t)), Delete(Marker(e)));
    }
  }

  lemma {:induction false} CleanerStepEffect(s: State, id: nat, act: CleanerAct)
    requires id in s.cleaners
    ensures CleanerEffect(s, CleanerStep(s, id, act), id)
  {
    var p := s.cleaners[id].phase;
    match act
    case FlushDeletes(names, csc) => if p.Claimed? { CleanerFlushEffect(s, id, names, csc); }
    case WriteClaim => if p.Rechecked? { CleanerMarkerEffect(s, id, act); }
    case Release => if p.Releasing? { CleanerMarkerEffect(s, id, act); }
    case _ => assert CleanerStep(s, id, act).store == s.store;
  }

  /** Everything a builder step may do to the store and to the other actors. */
  ghost predicate BuilderEffect(s: State, s': State, id: nat) {
    && id in s.builders
    && var b := s.builders[id];
    && s'.cleaners == s.cleaners && s'.nextToken == s.nextToken
    && (s'.lock == s.lock || (s.lock in {None, Some(TheBuilder(id))} && s'.lock in {None, Some(TheBuilder(id))}))
    && s'.builders.Keys == s.builders.Keys
    && (forall j :: j in s.builders && j != id ==> s'.builders[j] == s.builders[j])
    && s'.builders[id].epoch == b.epoch && s'.builders[id].parts == b.parts
    && (s'.store != s.store ==> b.phase.SawMarker? || b.phase.Writing?)
    && (forall k: Key :: !SameAt(s.store, s'.store, k) ==>
                           && k.epoch == b.epoch
                           && (if k.Marker? then k !in s'.store
                               else
                                 && k in s'.store
                                 && (k.Data? ==> k.part in b.parts && s'.store[k] == Record(b.parts[k.part]))
                                 && (k.Manifest? || k.CscManifest? ==>
                                       && b.phase == Writing({}) && Marker(k.epoch) !in s.store
                                       && CscManifest(k.epoch) in s'.store
                                       && s'.store[CscManifest(k.epoch)] == Contents(b.parts))))
  }

  lemma {:induction false} BuilderFlushEffect(s: State, id: nat, names: seq<string>)
    requires id in s.builders && s.builders[id].phase.Writing?
    ensures BuilderEffect(s, BuilderStep(s, id, FlushParts(names)), id)
  {
    var b := s.builders[id];
    if forall i :: 0 <= i < |names| ==> names[i] in b.parts {
      ApplyPuts(s.store, b.epoch, names, b.parts);
    }
  }

  lemma {:induction false} BuilderPublishEffect(s: State, id: nat)
    requires id in s.builders && s.builders[id].phase == Writing({})
    ensures BuilderEffect(s, BuilderStep(s, id, Publish), id)
  {
    PublishBatch(s.store, s.builders[id].epoch, s.builders[id].parts);
  }

  lemma {:induction false} BuilderPrepareEffect(s: State, id: nat)
    requires id in s.builders && s.builders[id].phase.SawMarker?
    ensures BuilderEffect(s, BuilderStep(s, id, Prepare), id)
  {
    var b := s.builders[id];
    if b.phase.marker.Some? {
      OneOpBatch(s.store, Equals(Marker(b.epoch), b.phase.marker.value), Delete(Marker(b.epoch)));
    }
  }

  lemma {:induction false} BuilderStepEffect(s: State, id: nat, act: BuilderAct)
    requires id in s.builders
    ensures BuilderEffect(s, BuilderStep(s, id, act), id)
  {
    var p := s.builders[id].phase;
    match act
    case FlushParts(names) => if p.Writing? { BuilderFlushEffect(s, id, names); }
    case Prepare => if p.SawMarker? { BuilderPrepareEffect(s, id); }
    case Publish => if p == Writing({}) { BuilderPublishEffect(s, id); }
    case _ => assert BuilderStep(s, id, act).store == s.store;
  }

  // ----- the invariant

  ghost predicate BuilderOk(s: State, id: nat)
    requires id in s.builders
  {
    var b := s.builders[id];
    match b.phase
    case Locked => s.lock == Some(TheBuilder(id))
    case SawMarker(m) => s.lock == Some(TheBuilder(id)) && (m.None? ==> Marker(b.epoch) !in s.store)
    case Writing(todo) =>
      && s.lock == Some(TheBuilder(id))
      && Marker(b.epoch) !in s.store
      && todo <= b.parts.Keys
      && forall n :: n in b.parts && n !in todo ==>
                       Data(b.epoch, n) in s.store && s.store[Data(b.epoch, n)] == Record(b.parts[n])
    case _ => true
  }

  /** Every published epoch names its parts, and all of them are there. */
  ghost predicate PublishedComplete(st: Store) {
    forall e :: Manifest(e) in st ==>
                  && CscManifest(e) in st
                  && st[CscManifest(e)].Contents?
                  && forall n :: n in st[CscManifest(e)].parts ==> Data(e, n) in st
  }

  ghost predicate TokensOk(s: State) {
    && (forall id :: id in s.cleaners && TokenOf(s.cleaners[id].phase).Some? ==>
                       TokenOf(s.cleaners[id].phase).value < s.nextToken)
    && (forall i, j :: i in s.cleaners && j in s.cleaners && i != j && TokenOf(s.cleaners[i].phase).Some? ==>
                         TokenOf(s.cleaners[i].phase) != TokenOf(s.cleaners[j].phase))
  }

  ghost predicate Inv(s: State) {
    && (forall id :: id in s.builders ==> BuilderOk(s, id))
    && PublishedComplete(s.store)
    && TokensOk(s)
  }

  lemma {:induction false} CleanerEffectKeepsInv(s: State, s': State, id: nat)
    requires Inv(s) && CleanerEffect(s, s', id)
    ensures Inv(s')
  {
    forall j | j in s'.builders ensures BuilderOk(s', j) {
      assert BuilderOk(s, j);
      var b := s.builders[j];
      if b.phase.Writing? || b.phase.SawMarker? {
        assert SameAt(s.store, s'.store, Marker(b.epoch)) || Marker(b.epoch) !in s'.store;
        forall n | n in b.parts ensures b.phase.Writing? ==> SameAt(s.store, s'.store, Data(b.epoch, n)) {}
      }
    }
    forall e | Manifest(e) in s'.store
      ensures CscManifest(e) in s'.store && s'.store[CscManifest(e)].Contents?
      ensures forall n :: n in s'.store[CscManifest(e)].parts ==> Data(e, n) in s'.store
    {
      assert SameAt(s.store, s'.store, Manifest(e)) && SameAt(s.store, s'.store, CscManifest(e));
      forall n | n in s.store[CscManifest(e)].parts ensures SameAt(s.store, s'.store, Data(e, n)) {}
    }
  }

  /** The invariant of every builder but the one that moved, and of the published epochs. */
  lemma {:induction false} BuilderEffectKeepsOthers(s: State, s': State, id: nat)
    requires Inv(s) && BuilderEffect(s, s', id)
    ensures forall j :: j in s'.builders && j != id ==> BuilderOk(s', j)
    ensures TokensOk(s')
  {
    forall j | j in s'.builders && j != id ensures BuilderOk(s', j) {
      assert BuilderOk(s, j) && BuilderOk(s, id);
    }
  }

  lemma {:induction false} BuilderFlushKeepsOwn(s: State, id: nat, names: seq<string>)
    requires id in s.builders && s.builders[id].phase.Writing? && BuilderOk(s, id)
    ensures BuilderOk(BuilderStep(s, id, FlushParts(names)), id)
  {
    var b := s.builders[id];
    if forall i :: 0 <= i < |names| ==> names[i] in b.parts {
      ApplyPuts(s.store, b.epoch, names, b.parts);
    }
  }

  lemma {:induction false} BuilderKeepsOwn(s: State, id: nat, act: BuilderAct)
    requires id in s.builders && BuilderOk(s, id)
    ensures BuilderOk(BuilderStep(s, id, act), id)
  {
    var b := s.builders[id];
    match act
    case FlushParts(names) => if b.phase.Writing? { BuilderFlushKeepsOwn(s, id, names); }
    case Prepare =>
      if b.phase.SawMarker? && b.phase.marker.Some? {
        OneOpBatch(s.store, Equals(Marker(b.epoch), b.phase.marker.value), Delete(Marker(b.epoch)));
      }
    case Publish => PublishBatch(s.store, b.epoch, b.parts);
    case _ =>
  }

  lemma {:induction false} BuilderKeepsComplete(s: State, s': State, id: nat)
    requires BuilderEffect(s, s', id) && BuilderOk(s, id) && PublishedComplete(s.store)
    ensures PublishedComplete(s'.store)
  {
    forall e | Manifest(e) in s'.store
      ensures CscManifest(e) in s'.store && s'.store[CscManifest(e)].Contents?
      ensures forall n :: n in s'.store[CscManifest(e)].parts ==> Data(e, n) in s'.store
    {
      assert forall k: Key :: k in s.store && !k.Marker? && k !in s'.store ==> !SameAt(s.store, s'.store, k);
      if SameAt(s.store, s'.store, Manifest(e)) && SameAt(s.store, s'.store, CscManifest(e)) {
      } else {
        assert s'.store[CscManifest(e)] == Contents(s.builders[id].parts);
      }
    }
  }

  lemma {:induction false} NextKeepsInv(s: State, ev: Event)
    requires Inv(s)
    ensures Inv(Next(s, ev))
  {
    var s' := Next(s, ev);
    match ev
    case ByBuilder(id, act) =>
      if id in s.builders {
        BuilderStepEffect(s, id, act);
        BuilderEffectKeepsOthers(s, s', id);
        BuilderKeepsOwn(s, id, act);
        BuilderKeepsComplete(s, s', id);
      }
    case ByCleaner(id, act) =>
      if id in s.cleaners {
        CleanerStepEffect(s, id, act);
        CleanerEffectKeepsInv(s, s', id);
      }
    case _ =>
      forall j | j in s'.builders ensures BuilderOk(s', j) {
        if j in s.builders { assert BuilderOk(s, j); }
      }
  }

  lemma {:induction false} RunKeepsInv(s: State, events: seq<Event>)
    requires Inv(s)
    ensures Inv(Run(s, events))
    decreases |events|
  {
    if events != [] {
      RunKeepsInv(s, events[..|events| - 1]);
      NextKeepsInv(Run(s, events[..|events| - 1]), events[|events| - 1]);
    }
  }

  // ----- main results

  /** In every reachable state, each published manifest has all the parts it names. */
  lemma {:induction false} PublishedHasAllParts(events: seq<Event>)
    ensures PublishedComplete(Run(Initial, events).store)
  {
    RunKeepsInv(Initial, events);
  }

  /** No cleaner step touches a key of an epoch whose manifest is there. */
  lemma {:induction false} CleanerSparesPublished(s: State, id: nat, act: CleanerAct, k: Key)
    requires id in s.cleaners && Manifest(k.epoch) in s.store && !k.Marker?
    ensures SameAt(s.store, CleanerStep(s, id, act).store, k)
  {
    CleanerStepEffect(s, id, act);
  }

  /** Once published, an epoch keeps its manifest and every key it has. */
  lemma {:induction false} PublishedForever(s: State, later: seq<Event>, k: Key)
    requires Manifest(k.epoch) in s.store && k in s.store && !k.Marker?
    ensures Manifest(k.epoch) in Run(s, later).store && k in Run(s, later).store
    decreases |later|
  {
    if later != [] {
      var mid := Run(s, later[..|later| - 1]);
      PublishedForever(s, later[..|later| - 1], k);
      match later[|later| - 1]
      case ByBuilder(id, act) => if id in mid.builders { BuilderStepEffect(mid, id, act); }
      case ByCleaner(id, act) =>
        if id in mid.cleaners {
          CleanerSparesPublished(mid, id, act, k);
          CleanerSparesPublished(mid, id, act, Manifest(k.epoch));
        }
      case _ =>
    }
  }

  /** Cleaner `id` claimed with token `t`, and the marker no longer carries it. */
  ghost predicate Replaced(s: State, id: nat, t: nat) {
    && id in s.cleaners
    && s.cleaners[id].phase in {Claimed(t), Releasing(t), Finished}
    && (!s.cleaners[id].phase.Finished? ==> !OwnsMarker(s.store, s.cleaners[id].epoch, t))
  }

  lemma {:induction false} ReplacedStays(s: State, id: nat, t: nat, ev: Event)
    requires TokensOk(s) && Replaced(s, id, t)
    ensures Replaced(Next(s, ev), id, t)
  {
    var m := Marker(s.cleaners[id].epoch);
    assert TokenOf(s.cleaners[id].phase) == Some(t) || s.cleaners[id].phase.Finished?;
    match ev
    case ByBuilder(j, act) =>
      if j in s.builders {
        BuilderStepEffect(s, j, act);
        assert SameAt(s.store, Next(s, ev).store, m) || m !in Next(s, ev).store;
      }
    case ByCleaner(j, act) => if j in s.cleaners { CleanerStepEffect(s, j, act); }
    case _ =>
  }

  lemma {:induction false} ReplacedChangesNothing(s: State, s': State, id: nat, t: nat)
    requires Replaced(s, id, t) && CleanerEffect(s, s', id)
    ensures s'.store == s.store
  {
  }

  /** A cleaner whose token was replaced deletes nothing more and releases nobody's marker. */
  lemma {:induction false} ReplacedTokenIsInert(s: State, later: seq<Event>, id: nat, t: nat, act: CleanerAct)
    requires Inv(s) && Replaced(s, id, t)
    ensures Replaced(Run(s, later), id, t)
    ensures CleanerStep(Run(s, later), id, act).store == Run(s, later).store
    decreases |later|
  {
    if later != [] {
      var before := later[..|later| - 1];
      ReplacedTokenIsInert(s, before, id, t, act);
      RunKeepsInv(s, before);
      ReplacedStays(Run(s, before), id, t, later[|later| - 1]);
    }
    CleanerStepEffect(Run(s, later), id, act);
    ReplacedChangesNothing(Run(s, later), CleanerStep(Run(s, later), id, act), id, t);
  }

  // ----- the lock

  /** A builder has the lock from when it takes it until it publishes or fails. */
  predicate BuilderHolds(p: BuilderPhase) { p.Locked? || p.SawMarker? || p.Writing? }

  /**
   The lock is with a builder exactly while that builder works, and with a cleaner only while it holds a
   token: whoever is done has given it back.
   */
  ghost predicate LockOk(s: State) {
    && (forall id :: id in s.builders && BuilderHolds(s.builders[id].phase) ==> s.lock == Some(TheBuilder(id)))
    && match s.lock
       case None => true
       case Some(TheBuilder(id)) => id in s.builders && BuilderHolds(s.builders[id].phase)
       case Some(TheCleaner(id)) => id in s.cleaners && TokenOf(s.cleaners[id].phase).Some?
  }

  lemma {:induction false} BuilderKeepsLock(s: State, id: nat, act: BuilderAct)
    requires LockOk(s) && id in s.builders
    ensures LockOk(BuilderStep(s, id, act))
  {
    hide GuardedWrite;
    hide Apply;
  }

  lemma {:induction false} CleanerKeepsLock(s: State, id: nat, act: CleanerAct)
    requires LockOk(s) && id in s.cleaners
    ensures LockOk(CleanerStep(s, id, act))
  {
    hide GuardedWrite;
    hide Apply;
  }

  /** In every reachable state nobody but a working builder or a cleaner with a token has the lock. */
  lemma {:induction false} LockGoesBack(events: seq<Event>)
    ensures LockOk(Run(Initial, events))
    decreases |events|
  {
    hide BuilderStep;
    hide CleanerStep;
    if events != [] {
      var before, ev := events[..|events| - 1], events[|events| - 1];
      LockGoesBack(before);
      var s := Run(Initial, before);
      match ev
      case ByBuilder(id, act) => if id in s.builders { BuilderKeepsLock(s, id, act); }
      case ByCleaner(id, act) => if id in s.cleaners { CleanerKeepsLock(s, id, act); }
      case _ =>
    }
  }

  /** A builder or cleaner that asks for the lock gets it exactly if it is free, and gives up if it is not. */
  lemma {:induction false} LockIsTried(s: State, id: nat)
    requires LockOk(s)
    ensures id in s.builders && s.builders[id].phase.Queued? ==>
      var s' := BuilderStep(s, id, TakeLock);
      && s'.lock == (if s.lock == None then Some(TheBuilder(id)) else s.lock)
      && s'.builders[id].phase == (if s.lock == None then Locked else Failed) && s'.store == s.store
    ensures id in s.cleaners && s.cleaners[id].phase.Waiting? ==>
      var s' := CleanerStep(s, id, Lock);
      && s'.lock == (if s.lock == None then Some(TheCleaner(id)) else s.lock)
      && s'.cleaners[id].phase == (if s.lock == None then Holding(s.nextToken) else Finished) && s'.store == s.store
  {
  }

  /**
   A builder clears the marker it saw and starts to write exactly if the marker still stands, or there was none; it
   publishes, parts all written, exactly if there is no marker. Else, or if anything goes wrong before, it fails, the
   store as it was. Either way out gives the lock back.
   */
  lemma {:induction false} BuilderGuards(s: State, id: nat)
    requires LockOk(s) && id in s.builders
    ensures
      var b, s' := s.builders[id], BuilderStep(s, id, Prepare);
      b.phase.SawMarker? ==>
        if b.phase.marker.None? then s'.store == s.store && s'.builders[id].phase == Writing(b.parts.Keys)
        else if Marker(b.epoch) in s.store && s.store[Marker(b.epoch)] == b.phase.marker.value then
          s'.store == s.store - {Marker(b.epoch)} && s'.builders[id].phase == Writing(b.parts.Keys)
        else s'.store == s.store && s'.builders[id].phase == Failed && s'.lock == None
    ensures
      var b, s' := s.builders[id], BuilderStep(s, id, Publish);
      b.phase == Writing({}) ==>
        && s'.lock == None
        && if Marker(b.epoch) !in s.store then
             && s'.store == s.store[Manifest(b.epoch) := Record([])][CscManifest(b.epoch) := Contents(b.parts)]
             && s'.builders[id].phase == Published
           else s'.store == s.store && s'.builders[id].phase == Failed
    ensures
      var b, s' := s.builders[id], BuilderStep(s, id, Fail);
      && s'.store == s.store
      && s'.builders[id].phase == (if b.phase.Published? then Published else Failed) && s'.lock != Some(TheBuilder(id))
  {
    var b := s.builders[id];
    if b.phase.SawMarker? && b.phase.marker.Some? {
      OneOpBatch(s.store, Equals(Marker(b.epoch), b.phase.marker.value), Delete(Marker(b.epoch)));
    }
    if b.phase == Writing({}) {
      PublishBatch(s.store, b.epoch, b.parts);
    }
  }

  /**
   A cleaner is turned away at every step by the manifest of its epoch: it leaves without a claim and without the
   lock, and the store stays. Without a manifest each step leads to the next, the claim put whatever marker stands.
   */
  lemma {:induction false} CleanerGuards(s: State, id: nat)
    requires id in s.cleaners
    ensures
      var c := s.cleaners[id];
      var published := Manifest(c.epoch) in s.store;
      && (c.phase.Looking? ==>
            CleanerStep(s, id, Look) == s.(cleaners := s.cleaners[id := c.(phase := if published then Finished else Waiting)]))
      && (c.phase.Holding? ==>
            var s' := CleanerStep(s, id, Recheck);
            && s'.store == s.store && (published ==> s'.lock != Some(TheCleaner(id)))
            && s'.cleaners[id].phase == if published then Finished else Rechecked(c.phase.token))
      && (c.phase.Rechecked? && s.lock == Some(TheCleaner(id)) ==>
            var s' := CleanerStep(s, id, WriteClaim);
            if published then s'.store == s.store && s'.cleaners[id].phase == Finished && s'.lock == None
            else
              && s'.store == s.store[Marker(c.epoch) := Claim(c.phase.token)]
              && s'.cleaners[id].phase == Claimed(c.phase.token) && s'.lock == s.lock)
  {
    var c := s.cleaners[id];
    if c.phase.Rechecked? {
      OneOpBatch(s.store, Absent(Manifest(c.epoch)), Put(Marker(c.epoch), Claim(c.phase.token)));
    }
  }

  /** On its way out a cleaner takes exactly its own marker away, and has left the lock either way. */
  lemma {:induction false} ReleasesOwn(s: State, id: nat)
    requires id in s.cleaners && s.cleaners[id].phase.Releasing?
    ensures
      var c, s' := s.cleaners[id], CleanerStep(s, id, Release);
      && s'.store == (if OwnsMarker(s.store, c.epoch, c.phase.token) then s.store - {Marker(c.epoch)} else s.store)
      && s'.cleaners[id].phase == Finished && s'.lock != Some(TheCleaner(id))
  {
    var c := s.cleaners[id];
    OneOpBatch(s.store, Equals(Marker(c.epoch), Claim(c.phase.token)), Delete(Marker(c.epoch)));
  }

  /** A claimed cleaner whose delete is refused, because the manifest is there or the marker is not its own, leaves. */
  lemma {:induction false} RefusedDeleteLeaves(s: State, id: nat, names: seq<string>, csc: bool)
    requires id in s.cleaners && s.cleaners[id].phase.Claimed? && DeleteParts(s.cleaners[id].epoch, names, csc) != []
    ensures
      var c, s' := s.cleaners[id], CleanerStep(s, id, FlushDeletes(names, csc));
      var refused := Manifest(c.epoch) in s.store || !OwnsMarker(s.store, c.epoch, c.phase.token);
      && s'.cleaners[id].phase == (if refused then Releasing(c.phase.token) else c.phase)
      && (refused ==> s'.store == s.store)
  {
    DeleteGuardsHold(s.store, s.cleaners[id].epoch, s.cleaners[id].phase.token);
  }

  lemma {:induction false} DeleteGuardsHold(st: Store, e: nat, token: nat)
    ensures FirstFailed(DeleteGuards(e, token), st).None? <==> Manifest(e) !in st && OwnsMarker(st, e, token)
  {
    var g := DeleteGuards(e, token);
    assert FirstFailed(g, st) == if Holds(g[0], st) then FirstFailed(g[1..], st) else Some(g[0].key);
    assert g[1..] == [g[1]] && [g[1]][1..] == [];
    assert FirstFailed([g[1]], st) == if Holds(g[1], st) then FirstFailed([], st) else Some(g[1].key);
  }

  // ----- contents: builds of one epoch must agree

  type Plan = nat -> map<string, seq<nat>>

  /** Every build of epoch `e` in the run writes the same records, `plan(e)`. */
  ghost predicate Agreed(events: seq<Event>, plan: Plan) {
    forall i :: 0 <= i < |events| && events[i].StartBuilder? ==> events[i].parts == plan(events[i].epoch)
  }

  ghost predicate FollowsPlan(s: State, plan: Plan) {
    && (forall id :: id in s.builders ==> s.builders[id].parts == plan(s.builders[id].epoch))
    && (forall k: Key :: k in s.store && k.CscManifest? ==> s.store[k] == Contents(plan(k.epoch)))
    && (forall k: Key :: k in s.store && k.Data? ==>
                           k.part in plan(k.epoch) && s.store[k] == Record(plan(k.epoch)[k.part]))
  }

  lemma {:induction false} EffectFollowsPlan(s: State, s': State, id: nat, plan: Plan)
    requires FollowsPlan(s, plan) && (BuilderEffect(s, s', id) || CleanerEffect(s, s', id))
    ensures FollowsPlan(s', plan)
  {
    forall k: Key | k in s'.store && (k.CscManifest? || k.Data?)
      ensures k.CscManifest? ==> s'.store[k] == Contents(plan(k.epoch))
      ensures k.Data? ==> k.part in plan(k.epoch) && s'.store[k] == Record(plan(k.epoch)[k.part])
    {
      if SameAt(s.store, s'.store, k) {}
    }
  }

  lemma {:induction false} RunFollowsPlan(events: seq<Event>, plan: Plan)
    requires Agreed(events, plan)
    ensures FollowsPlan(Run(Initial, events), plan)
    decreases |events|
  {
    if events != [] {
      var (before, ev) := (events[..|events| - 1], events[|events| - 1]);
      RunFollowsPlan(before, plan);
      var s := Run(Initial, before);
      match ev
      case ByBuilder(id, act) =>
        if id in s.builders { BuilderStepEffect(s, id, act); EffectFollowsPlan(s, Next(s, ev), id, plan); }
      case ByCleaner(id, act) =>
        if id in s.cleaners { CleanerStepEffect(s, id, act); EffectFollowsPlan(s, Next(s, ev), id, plan); }
      case _ =>
    }
  }

  /** Epoch `e` is published, and every part its manifest names holds the bytes it names. */
  ghost predicate Matches(st: Store, e: nat) {
    && Manifest(e) in st && CscManifest(e) in st && st[CscManifest(e)].Contents?
    && var named := st[CscManifest(e)].parts;
    && forall n :: n in named ==> Data(e, n) in st && st[Data(e, n)] == Record(named[n])
  }

  /** When all builds of an epoch agree, a published epoch holds exactly its planned records. */
  lemma {:induction false} PublishedHasItsContents(events: seq<Event>, plan: Plan, e: nat)
    requires Agreed(events, plan) && Manifest(e) in Run(Initial, events).store
    ensures
      var st := Run(Initial, events).store;
      Matches(st, e) && st[CscManifest(e)] == Contents(plan(e))
  {
    RunFollowsPlan(events, plan);
    PublishedHasAllParts(events);
  }

  lemma {:induction false} RunExtends(s: State, events: seq<Event>, i: nat)
    requires i < |events|
    ensures Run(s, events[..i + 1]) == Next(Run(s, events[..i]), events[i])
  {
    assert events[..i + 1][..i] == events[..i];
  }

  // ----- what an undisturbed build and an undisturbed cleanup achieve

  function BuildRun(id: nat, e: nat, parts: map<string, seq<nat>>, names: seq<string>, last: BuilderAct): seq<Event> {
    [StartBuilder(id, e, parts), ByBuilder(id, TakeLock), ByBuilder(id, ReadMarker),
     ByBuilder(id, Prepare), ByBuilder(id, FlushParts(names)), ByBuilder(id, last)]
  }

  /** A new build takes the lock and reads the marker. */
  lemma {:induction false} BuildReads(s: State, id: nat, e: nat, parts: map<string, seq<nat>>, names: seq<string>, last: BuilderAct)
    requires s.lock == None && id !in s.builders
    ensures
      var s' := Run(s, BuildRun(id, e, parts, names, last)[..3]);
      var seen := if Marker(e) in s.store then Some(s.store[Marker(e)]) else None;
      && s'.store == s.store && s'.lock == Some(TheBuilder(id)) && s'.builders.Keys == s.builders.Keys + {id}
      && s'.builders[id] == Builder(e, parts, SawMarker(seen))
  {
    var events := BuildRun(id, e, parts, names, last);
    assert events[..0] == [];
    RunExtends(s, events, 0);
    RunExtends(s, events, 1);
    RunExtends(s, events, 2);
  }

  lemma {:induction false} PrepareStep(s: State, id: nat, e: nat, parts: map<string, seq<nat>>)
    requires id in s.builders
    requires s.builders[id] ==
      Builder(e, parts, SawMarker(if Marker(e) in s.store then Some(s.store[Marker(e)]) else None))
    ensures
      var s' := Next(s, ByBuilder(id, Prepare));
      && s'.store == s.store - {Marker(e)} && s'.lock == s.lock && s'.builders.Keys == s.builders.Keys
      && s'.builders[id] == Builder(e, parts, Writing(parts.Keys))
  {
    if Marker(e) in s.store {
      OneOpBatch(s.store, Equals(Marker(e), s.store[Marker(e)]), Delete(Marker(e)));
    } else {
      assert s.store - {Marker(e)} == s.store;
    }
  }

  /** Prepare clears whatever marker an earlier cleaner left behind. */
  lemma {:induction false} BuildPrepares(s: State, id: nat, e: nat, parts: map<string, seq<nat>>, names: seq<string>, last: BuilderAct)
    requires s.lock == None && id !in s.builders
    ensures
      var s' := Run(s, BuildRun(id, e, parts, names, last)[..4]);
      && s'.store == s.store - {Marker(e)} && s'.lock == Some(TheBuilder(id)) && s'.builders.Keys == s.builders.Keys + {id}
      && s'.builders[id] == Builder(e, parts, Writing(parts.Keys))
  {
    BuildReads(s, id, e, parts, names, last);
    RunExtends(s, BuildRun(id, e, parts, names, last), 3);
    PrepareStep(Run(s, BuildRun(id, e, parts, names, last)[..3]), id, e, parts);
  }

  lemma {:induction false} BuildFlushes(s: State, id: nat, e: nat, parts: map<string, seq<nat>>, names: seq<string>, last: BuilderAct)
    requires s.lock == None && id !in s.builders
    requires forall i :: 0 <= i < |names| ==> names[i] in parts
    ensures
      var s' := Run(s, BuildRun(id, e, parts, names, last)[..5]);
      && s'.store == Apply(s.store - {Marker(e)}, PutParts(e, names, parts))
      && s'.lock == Some(TheBuilder(id)) && s'.builders.Keys == s.builders.Keys + {id}
      && s'.builders[id] == Builder(e, parts, Writing(parts.Keys - (set n | n in names)))
  {
    BuildPrepares(s, id, e, parts, names, last);
    RunExtends(s, BuildRun(id, e, parts, names, last), 4);
  }

  lemma {:induction false} PublishStep(s: State, id: nat, e: nat, parts: map<string, seq<nat>>)
    requires id in s.builders && s.builders[id] == Builder(e, parts, Writing({})) && Marker(e) !in s.store
    ensures
      var s' := Next(s, ByBuilder(id, Publish));
      && s'.store == s.store[Manifest(e) := Record([])][CscManifest(e) := Contents(parts)]
      && s'.lock == (if s.lock == Some(TheBuilder(id)) then None else s.lock) && s'.builders.Keys == s.builders.Keys
  {
    PublishBatch(s.store, e, parts);
  }

  lemma {:induction false} FailStep(s: State, id: nat)
    requires id in s.builders && !s.builders[id].phase.Published?
    ensures Next(s, ByBuilder(id, Fail)).store == s.store
  {
  }

  /** The store a build leaves after its last step, from the store after its flush. */
  lemma {:induction false} LastStep(s: State, id: nat, e: nat, parts: map<string, seq<nat>>, names: seq<string>, last: BuilderAct)
    ensures
      var events := BuildRun(id, e, parts, names, last);
      Run(s, events) == Next(Run(s, events[..5]), ByBuilder(id, last))
  {
  }

  lemma {:induction false} NothingLeft(parts: map<string, seq<nat>>, names: seq<string>)
    requires forall n :: n in parts ==> n in names
    ensures parts.Keys - (set n | n in names) == {}
  {
  }

  /** From any state with the lock free, a build that is not disturbed publishes its records. */
  lemma {:induction false} UndisturbedBuildPublishes(s: State, id: nat, e: nat, parts: map<string, seq<nat>>, names: seq<string>)
    requires s.lock == None && id !in s.builders
    requires forall i :: 0 <= i < |names| ==> names[i] in parts
    requires forall n :: n in parts ==> n in names
    ensures
      var s' := Run(s, BuildRun(id, e, parts, names, Publish));
      && s'.lock == None && s'.builders.Keys == s.builders.Keys + {id}
      && Matches(s'.store, e) && s'.store[CscManifest(e)] == Contents(parts)
  {
    BuildFlushes(s, id, e, parts, names, Publish);
    var s5 := Run(s, BuildRun(id, e, parts, names, Publish)[..5]);
    NothingLeft(parts, names);
    LastStep(s, id, e, parts, names, Publish);
    PublishFlushed(s5, s.store - {Marker(e)}, id, e, parts, names);
  }

  lemma {:induction false} PublishFlushed(s5: State, st: Store, id: nat, e: nat, parts: map<string, seq<nat>>, names: seq<string>)
    requires id in s5.builders && s5.builders[id] == Builder(e, parts, Writing({})) && Marker(e) !in st
    requires forall i :: 0 <= i < |names| ==> names[i] in parts
    requires forall n :: n in parts ==> n in names
    requires s5.store == Apply(st, PutParts(e, names, parts))
    requires s5.lock == Some(TheBuilder(id))
    ensures
      var s' := Next(s5, ByBuilder(id, Publish));
      && s'.lock == None && s'.builders.Keys == s5.builders.Keys
      && Matches(s'.store, e) && s'.store[CscManifest(e)] == Contents(parts)
  {
    ApplyPuts(st, e, names, parts);
    PublishStep(s5, id, e, parts);
  }

  /**
   Agreement is needed: a later build of a published epoch that flushes some parts and then fails
   leaves the old manifest over its own bytes. The contents still match exactly when every part it
   flushed either is not named or has the bytes named.
   */
  lemma {:induction false} FailedRebuildMatches(s: State, id: nat, e: nat, parts: map<string, seq<nat>>, names: seq<string>)
    requires s.lock == None && id !in s.builders && Matches(s.store, e)
    requires forall i :: 0 <= i < |names| ==> names[i] in parts
    ensures
      var st := Run(s, BuildRun(id, e, parts, names, Fail)).store;
      var named := s.store[CscManifest(e)].parts;
      Matches(st, e) <==> forall i :: 0 <= i < |names| && names[i] in named ==> named[names[i]] == parts[names[i]]
  {
    BuildFlushes(s, id, e, parts, names, Fail);
    LastStep(s, id, e, parts, names, Fail);
    FailStep(Run(s, BuildRun(id, e, parts, names, Fail)[..5]), id);
    FlushMatches(s.store, e, parts, names);
  }

  lemma {:induction false} FlushMatches(st: Store, e: nat, parts: map<string, seq<nat>>, names: seq<string>)
    requires Matches(st, e) && forall i :: 0 <= i < |names| ==> names[i] in parts
    ensures
      var st' := Apply(st - {Marker(e)}, PutParts(e, names, parts));
      var named := st[CscManifest(e)].parts;
      Matches(st', e) <==> forall i :: 0 <= i < |names| && names[i] in named ==> named[names[i]] == parts[names[i]]
  {
    ApplyPuts(st - {Marker(e)}, e, names, parts);
    var st' := Apply(st - {Marker(e)}, PutParts(e, names, parts));
    var named := st[CscManifest(e)].parts;
    if Matches(st', e) {
      forall i | 0 <= i < |names| && names[i] in named ensures named[names[i]] == parts[names[i]] {
        assert st'[Data(e, names[i])] == Record(parts[names[i]]);
      }
    }
  }

  lemma {:induction false} RunOn(s: State, a: seq<Event>, b: seq<Event>)
    ensures Run(s, a + b) == Run(Run(s, a), b)
    decreases |b|
  {
    hide Next;
    if b == [] {
      assert a + b == a;
    } else {
      RunOn(s, a, b[..|b| - 1]);
      assert (a + b)[..|a + b| - 1] == a + b[..|b| - 1];
    }
  }

  /** A run in which this happens: one build publishes a part, and a second with other bytes flushes it and fails. */
  lemma {:induction false} RebuildBreaksContents(e: nat)
    ensures
      var first := BuildRun(0, e, map["rows" := [1]], ["rows"], Publish);
      var second := BuildRun(1, e, map["rows" := [2]], ["rows"], Fail);
      Matches(Run(Initial, first).store, e) && !Matches(Run(Initial, first + second).store, e)
  {
    hide Run;
    hide Matches;
    var one: map<string, seq<nat>>, two: map<string, seq<nat>> := map["rows" := [1]], map["rows" := [2]];
    var first, second := BuildRun(0, e, one, ["rows"], Publish), BuildRun(1, e, two, ["rows"], Fail);
    UndisturbedBuildPublishes(Initial, 0, e, one, ["rows"]);
    RunOn(Initial, first, second);
    FailedRebuildMatches(Run(Initial, first), 1, e, two, ["rows"]);
    assert one["rows"] != two["rows"];
  }

  function CleanupRun(id: nat, e: nat, names: seq<string>): seq<Event> {
    [StartCleaner(id, e), ByCleaner(id, Look), ByCleaner(id, Lock), ByCleaner(id, Recheck), ByCleaner(id, WriteClaim),
     ByCleaner(id, FlushDeletes(names, true)), ByCleaner(id, Leave), ByCleaner(id, Release)]
  }

  lemma {:induction false} CleanupLocks(s: State, id: nat, e: nat, names: seq<string>)
    requires s.lock == None && id !in s.cleaners && Manifest(e) !in s.store
    ensures
      var s' := Run(s, CleanupRun(id, e, names)[..4]);
      && s'.store == s.store && s'.lock == Some(TheCleaner(id))
      && id in s'.cleaners && s'.cleaners[id] == Cleaner(e, Rechecked(s.nextToken))
  {
    var events := CleanupRun(id, e, names);
    assert events[..0] == [];
    RunExtends(s, events, 0);
    RunExtends(s, events, 1);
    assert Run(s, events[..2]).cleaners[id] == Cleaner(e, Waiting);
    RunExtends(s, events, 2);
    RunExtends(s, events, 3);
  }

  lemma {:induction false} CleanupClaims(s: State, id: nat, e: nat, names: seq<string>)
    requires s.lock == None && id !in s.cleaners && Manifest(e) !in s.store
    ensures
      var s' := Run(s, CleanupRun(id, e, names)[..5]);
      && s'.store == s.store[Marker(e) := Claim(s.nextToken)]
      && id in s'.cleaners && s'.cleaners[id] == Cleaner(e, Claimed(s.nextToken))
  {
    CleanupLocks(s, id, e, names);
    RunExtends(s, CleanupRun(id, e, names), 4);
    OneOpBatch(s.store, Absent(Manifest(e)), Put(Marker(e), Claim(s.nextToken)));
  }

  lemma {:induction false} DeleteStep(s: State, id: nat, e: nat, t: nat, names: seq<string>)
    requires id in s.cleaners && s.cleaners[id] == Cleaner(e, Claimed(t)) && Manifest(e) !in s.store && OwnsMarker(s.store, e, t)
    ensures
      var s' := Next(s, ByCleaner(id, FlushDeletes(names, true)));
      && s'.store == Apply(s.store, DeleteParts(e, names, true))
      && id in s'.cleaners && s'.cleaners[id] == Cleaner(e, Claimed(t))
  {
    DeleteBatch(s.store, e, t, names, true);
  }

  lemma {:induction false} CleanupDeletes(s: State, id: nat, e: nat, names: seq<string>)
    requires s.lock == None && id !in s.cleaners && Manifest(e) !in s.store
    ensures
      var s' := Run(s, CleanupRun(id, e, names)[..6]);
      && s'.store == Apply(s.store[Marker(e) := Claim(s.nextToken)], DeleteParts(e, names, true))
      && id in s'.cleaners && s'.cleaners[id] == Cleaner(e, Claimed(s.nextToken))
  {
    CleanupClaims(s, id, e, names);
    RunExtends(s, CleanupRun(id, e, names), 5);
    DeleteStep(Run(s, CleanupRun(id, e, names)[..5]), id, e, s.nextToken, names);
  }

  /** An undisturbed cleanup of an unpublished epoch leaves none of its keys, and no other epoch changes. */
  lemma {:induction false} UndisturbedCleanupRemoves(s: State, id: nat, e: nat, names: seq<string>, k: Key)
    requires s.lock == None && id !in s.cleaners && Manifest(e) !in s.store
    requires forall n :: Data(e, n) in s.store ==> n in names
    ensures
      var st := Run(s, CleanupRun(id, e, names)).store;
      if k.epoch == e then k !in st else SameAt(s.store, st, k)
  {
    hide Next;
    hide Apply;
    var (events, t) := (CleanupRun(id, e, names), s.nextToken);
    CleanupDeletes(s, id, e, names);
    CleanupStore(s.store, e, t, names, k);
    LeaveThenRelease(Run(s, events[..6]), id, t);
    RunExtends(s, events, 6);
    RunExtends(s, events, 7);
    assert events[..8] == events;
  }

  lemma {:induction false} CleanupStore(st: Store, e: nat, t: nat, names: seq<string>, k: Key)
    requires Manifest(e) !in st && forall n :: Data(e, n) in st ==> n in names
    ensures
      var st' := Apply(st[Marker(e) := Claim(t)], DeleteParts(e, names, true));
      && OwnsMarker(st', e, t)
      && if k.epoch == e then k !in st' - {Marker(e)} else SameAt(st, st' - {Marker(e)}, k)
  {
    ApplyDeletes(st[Marker(e) := Claim(t)], DeleteParts(e, names, true));
    DeletesWholeEpoch(e, names);
  }

  lemma {:induction false} LeaveThenRelease(s: State, id: nat, t: nat)
    requires id in s.cleaners && s.cleaners[id].phase == Claimed(t) && OwnsMarker(s.store, s.cleaners[id].epoch, t)
    ensures Next(Next(s, ByCleaner(id, Leave)), ByCleaner(id, Release)).store == s.store - {Marker(s.cleaners[id].epoch)}
  {
    var e := s.cleaners[id].epoch;
    OneOpBatch(s.store, Equals(Marker(e), Claim(t)), Delete(Marker(e)));
  }

  lemma {:induction false} DeletesWholeEpoch(e: nat, names: seq<string>)
    ensures
      var ops := DeleteParts(e, names, true);
      && Delete(CscManifest(e)) in ops
      && (forall n :: n in names ==> Delete(Data(e, n)) in ops)
      && (forall k: Key :: Delete(k) in ops ==> k.epoch == e && (k.Data? || k.CscManifest?))
  {
    var ops := DeleteParts(e, names, true);
    assert ops[0] == Delete(CscManifest(e));
    forall n | n in names ensures Delete(Data(e, n)) in ops {
      var i :| 0 <= i < |names| && names[i] == n;
      assert ops[1 + i] == Delete(Data(e, n));
    }
  }
}
