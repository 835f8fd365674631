/**
 The queue of planner statistics builds: one pending build per key, hinted builds
 ahead of refreshes, oldest first, and never two builds of a key at once.
 */
module StatisticsQueue {
  import opened Base

  /** A scope and cell. */
  type Key = nat

  datatype Reason = Hinted | Refresh

  datatype Build = Build(reason: Reason, request: Option<nat>)

  // ----- arrival order

  ghost predicate Once(order: seq<Key>) {
    forall i, j :: 0 <= i < j < |order| ==> order[i] != order[j]
  }

  /** `order` lists each pending key exactly once. */
  ghost predicate Lists(order: seq<Key>, pending: map<Key, Build>) {
    Once(order) && forall k :: k in order <==> k in pending
  }

  /** What may be built now. */
  predicate Eligible(k: Key, pending: map<Key, Build>, running: set<Key>, held: Key -> bool) {
    k in pending && k !in running && !held(k)
  }

  predicate Wanted(k: Key, pending: map<Key, Build>, running: set<Key>, held: Key -> bool, hintedOnly: bool) {
    Eligible(k, pending, running, held) && (hintedOnly ==> pending[k].reason.Hinted?)
  }

  /** The first key in arrival order that is wanted. */
  method Position(order: seq<Key>, pending: map<Key, Build>, running: set<Key>, held: Key -> bool, hintedOnly: bool)
    returns (at: Option<nat>)
    ensures at.Some? ==> at.value < |order| && Wanted(order[at.value], pending, running, held, hintedOnly)
    ensures forall i :: 0 <= i < (if at.Some? then at.value else |order|)
              ==> !Wanted(order[i], pending, running, held, hintedOnly)
  {
    for i := 0 to |order|
      invariant forall j :: 0 <= j < i ==> !Wanted(order[j], pending, running, held, hintedOnly)
    {
      if Wanted(order[i], pending, running, held, hintedOnly) {
        return Some(i);
      }
    }
    at := None;
  }

  function Without(order: seq<Key>, at: nat): seq<Key>
    requires at < |order|
  {
    order[..at] + order[at + 1..]
  }

  /** Taking a key out of the order and of the pending builds leaves the rest listed, in the same order. */
  lemma {:induction false} WithoutLists(order: seq<Key>, pending: map<Key, Build>, at: nat)
    requires Lists(order, pending) && at < |order|
    ensures Lists(Without(order, at), pending - {order[at]})
    ensures |Without(order, at)| == |order| - 1
    ensures forall i :: 0 <= i < |order| - 1 ==> Without(order, at)[i] == order[if i < at then i else i + 1]
  {
  }

  lemma {:induction false} AppendLists(order: seq<Key>, pending: map<Key, Build>, k: Key, b: Build)
    requires Lists(order, pending) && k !in pending
    ensures Lists(order + [k], pending[k := b])
  {
  }

  /** Nothing eligible comes before the key but refreshes before a hint, and a refresh is taken only when no hint is eligible. */
  ghost predicate FirstAt(at: nat, order: seq<Key>, pending: map<Key, Build>, running: set<Key>, held: Key -> bool)
    requires at < |order| && order[at] in pending
  {
    var reason := pending[order[at]].reason;
    && (forall i :: 0 <= i < at && Eligible(order[i], pending, running, held) ==>
          reason.Hinted? && pending[order[i]].reason.Refresh?)
    && (reason.Refresh? ==> forall i :: 0 <= i < |order| && Eligible(order[i], pending, running, held) ==>
          pending[order[i]].reason.Refresh?)
  }

  /** The earliest eligible hinted key or, when no hinted key is eligible, the earliest eligible key. */
  ghost predicate IsNext(k: Key, order: seq<Key>, pending: map<Key, Build>, running: set<Key>, held: Key -> bool) {
    && Eligible(k, pending, running, held)
    && exists at: nat | at < |order| && order[at] == k :: FirstAt(at, order, pending, running, held)
  }

  class Queue {
    var pending: map<Key, Build>
    var order: seq<Key>
    var running: set<Key>

    /** The builds in progress, one for each task. */
    ghost var tasks: seq<Key>
    /** How many builds were queued anew, and how many were handed to a task. */
    ghost var queued: nat
    ghost var started: nat

    ghost predicate Valid()
      reads this
    {
      && Lists(order, pending)
      && Once(tasks) && (forall k :: k in tasks <==> k in running)
      && queued == started + |order|
    }

    constructor ()
      ensures Valid() && pending == map[] && order == [] && running == {} && tasks == []
    {
      pending, order, running := map[], [], {};
      tasks, queued, started := [], 0, 0;
    }

    /** Queues a build, or strengthens the one already pending: a hint is kept and a request is not replaced. */
    method Push(k: Key, b: Build) returns (added: bool)
      requires Valid()
      modifies `pending, `order, `queued
      ensures Valid() && queued == old(queued) + if added then 1 else 0
      ensures added == (k !in old(pending))
      ensures order == if added then old(order) + [k] else old(order)
      ensures pending.Keys == old(pending).Keys + {k}
      ensures forall j | j in pending && j != k :: pending[j] == old(pending)[j]
      ensures added ==> pending[k] == b
      ensures !added ==>
        && pending[k].reason == (if b.reason.Hinted? then Hinted else old(pending)[k].reason)
        && pending[k].request == (if old(pending)[k].request.Some? then old(pending)[k].request else b.request)
      // a hint is never demoted
      ensures !added && old(pending)[k].reason.Hinted? ==> pending[k].reason.Hinted?
    {
      if k in pending {
        var existing := pending[k];
        if b.reason.Hinted? {
          existing := existing.(reason := Hinted);
        }
        if existing.request.None? {
          existing := existing.(request := b.request);
        }
        pending := pending[k := existing];
        added := false;
      } else {
        AppendLists(order, pending, k, b);
        order := order + [k];
        pending := pending[k := b];
        queued := queued + 1;
        added := true;
      }
    }

    /** Takes the build at a position and marks it running. */
    method Start(at: nat) returns (k: Key, b: Build)
      requires Valid() && at < |order| && order[at] !in running
      modifies this
      ensures Valid()
      ensures k == old(order)[at] && k in old(pending) && b == old(pending)[k]
      ensures order == Without(old(order), at) && pending == old(pending) - {k}
      ensures running == old(running) + {k} && tasks == old(tasks) + [k]
      ensures started == old(started) + 1 && queued == old(queued)
    {
      WithoutLists(order, pending, at);
      k := order[at];
      b := pending[k];
      order := Without(order, at);
      pending := pending - {k};
      running := running + {k};
      tasks, started := tasks + [k], started + 1;
    }

    /** The next build to run, if any is eligible; it is no longer pending and is running. */
    method Pop(held: Key -> bool) returns (r: Option<(Key, Build)>)
      requires Valid()
      modifies this
      ensures Valid()
      ensures r.None? ==> unchanged(this) && forall k | k in pending :: k in running || held(k)
      ensures r.Some? ==>
        var (k, b) := r.value;
        && k in old(pending) && k !in old(running) && !held(k)
        && IsNext(k, old(order), old(pending), old(running), held) && b == old(pending)[k]
        && k !in old(tasks) && tasks == old(tasks) + [k] && running == old(running) + {k}
        && pending == old(pending) - {k} && started == old(started) + 1 && queued == old(queued)
        && exists at :: 0 <= at < |old(order)| && old(order)[at] == k && order == old(order)[..at] + old(order)[at + 1..]
    {
      var at := Position(order, pending, running, held, true);
      if at.None? {
        at := Position(order, pending, running, held, false);
      }
      if at.None? {
        return None;
      }
      var k, b := Start(at.value);
      r := Some((k, b));
    }

    /** Ends the build of a key. */
    method Finish(k: Key)
      requires Valid()
      modifies `running, `tasks
      ensures Valid()
      ensures running == old(running) - {k} && k !in tasks
      ensures forall j | j != k :: j in tasks <==> j in old(tasks)
    {
      running := running - {k};
      tasks := Dropped(tasks, k);
    }
  }

  /** The tasks without the one for the key. */
  ghost function Dropped(tasks: seq<Key>, k: Key): (r: seq<Key>)
    ensures forall j :: j in r <==> j in tasks && j != k
    ensures Once(tasks) ==> Once(r)
  {
    if tasks == [] then []
    else
      var rest := Dropped(tasks[1..], k);
      assert Once(tasks) ==> tasks[0] !in tasks[1..];
      if tasks[0] == k then rest else [tasks[0]] + rest
  }
}
