/** Bounded breadth-first search, against walks. */
module Reachability {
  import opened Ordered

  type Adjacency = map<nat, set<nat>>

  function Neighbors(adj: Adjacency, v: nat): set<nat> { if v in adj then adj[v] else {} }

  /** Consecutive vertices of a walk are joined by edges. */
  predicate IsWalk(adj: Adjacency, walk: seq<nat>) {
    walk != [] && forall i :: 0 <= i < |walk| - 1 ==> walk[i + 1] in Neighbors(adj, walk[i])
  }

  /** Some walk of at most `hops` edges leads from `root` to `v`. */
  ghost predicate Reaches(adj: Adjacency, root: nat, v: nat, hops: nat) {
    exists walk :: IsWalk(adj, walk) && walk[0] == root && walk[|walk| - 1] == v && |walk| - 1 <= hops
  }

  /** One edge away from the set. */
  ghost function Step(adj: Adjacency, from: set<nat>): set<nat> {
    set u, v | u in from && v in Neighbors(adj, u) :: v
  }

  /** The vertices within `n` edges, by rounds. */
  ghost function Ball(adj: Adjacency, root: nat, n: nat): set<nat> {
    if n == 0 then {root} else Ball(adj, root, n - 1) + Step(adj, Ball(adj, root, n - 1))
  }

  lemma {:induction false} WalkStays(adj: Adjacency, walk: seq<nat>, n: nat)
    requires IsWalk(adj, walk) && |walk| - 1 <= n
    ensures walk[|walk| - 1] in Ball(adj, walk[0], n)
    decreases n
  {
    if |walk| > 1 {
      var init := walk[..|walk| - 1];
      WalkStays(adj, init, n - 1);
      assert init[|init| - 1] == walk[|walk| - 2];
      assert walk[|walk| - 1] in Neighbors(adj, walk[|walk| - 2]);
    } else if n > 0 {
      WalkStays(adj, walk, n - 1);
    }
  }

  lemma {:induction false} BallHasWalk(adj: Adjacency, root: nat, v: nat, n: nat)
    requires v in Ball(adj, root, n)
    ensures Reaches(adj, root, v, n)
    decreases n
  {
    if n == 0 {
      assert IsWalk(adj, [root]);
    } else if v in Ball(adj, root, n - 1) {
      BallHasWalk(adj, root, v, n - 1);
      var walk :| IsWalk(adj, walk) && walk[0] == root && walk[|walk| - 1] == v && |walk| - 1 <= n - 1;
      assert |walk| - 1 <= n;
    } else {
      var u :| u in Ball(adj, root, n - 1) && v in Neighbors(adj, u);
      BallHasWalk(adj, root, u, n - 1);
      var walk :| IsWalk(adj, walk) && walk[0] == root && walk[|walk| - 1] == u && |walk| - 1 <= n - 1;
      var longer := walk + [v];
      assert IsWalk(adj, longer) && longer[0] == root && longer[|longer| - 1] == v && |longer| - 1 <= n;
    }
  }

  lemma {:induction false} BallIsReach(adj: Adjacency, root: nat, v: nat, n: nat)
    ensures v in Ball(adj, root, n) <==> Reaches(adj, root, v, n)
  {
    if v in Ball(adj, root, n) {
      BallHasWalk(adj, root, v, n);
    }
    if Reaches(adj, root, v, n) {
      var walk :| IsWalk(adj, walk) && walk[0] == root && walk[|walk| - 1] == v && |walk| - 1 <= n;
      WalkStays(adj, walk, n);
    }
  }

  /** Once a round adds nothing, no later one does. */
  lemma {:induction false} BallStops(adj: Adjacency, root: nat, i: nat, n: nat)
    requires i <= n && Ball(adj, root, i + 1) == Ball(adj, root, i)
    ensures Ball(adj, root, n) == Ball(adj, root, i)
  {
    if i < n {
      BallStops(adj, root, i, n - 1);
    }
  }

  /** One round: the neighbours of the frontier that were not reached before. */
  method Round(adj: Adjacency, frontier: set<nat>, reached: set<nat>) returns (next: set<nat>, reachable: set<nat>)
    ensures next == Step(adj, frontier) - reached
    ensures reachable == reached + Step(adj, frontier)
  {
    next, reachable := {}, reached;
    var rest := frontier;
    ghost var done: set<nat> := {};
    while rest != {}
      invariant done + rest == frontier
      invariant next == Step(adj, done) - reached && reachable == reached + Step(adj, done)
      decreases rest
    {
      var vertex :| vertex in rest;
      var neighbors := Neighbors(adj, vertex);
      var left := neighbors;
      ghost var next0, reachable0 := next, reachable;
      while left != {}
        invariant left <= neighbors
        invariant reachable == reachable0 + (neighbors - left)
        invariant next == next0 + ((neighbors - left) - reachable0)
        decreases left
      {
        var neighbor :| neighbor in left;
        if neighbor !in reachable {
          reachable := reachable + {neighbor};
          next := next + {neighbor};
        }
        left := left - {neighbor};
      }
      assert Step(adj, done + {vertex}) == Step(adj, done) + neighbors;
      rest, done := rest - {vertex}, done + {vertex};
    }
  }

  lemma {:induction false} StepUnion(adj: Adjacency, a: set<nat>, b: set<nat>)
    ensures Step(adj, a + b) == Step(adj, a) + Step(adj, b)
  {
  }

  lemma {:induction false} StepOfNone(adj: Adjacency)
    ensures Step(adj, {}) == {}
  {
  }

  /** The rounds of the search, up to `hops` or the first that finds nothing new. */
  method Explore(adj: Adjacency, root: nat, hops: nat) returns (reachable: set<nat>)
    ensures reachable == Ball(adj, root, hops)
  {
    hide Step;
    StepOfNone(adj);
    var frontier := {root};
    reachable := {root};
    ghost var before: set<nat> := {};
    for i := 0 to hops
      invariant reachable == Ball(adj, root, i) && reachable == before + frontier
      invariant Step(adj, before) <= reachable
    {
      ghost var now, found := reachable, Step(adj, frontier);
      StepUnion(adj, before, frontier);
      assert Step(adj, now) == Step(adj, before) + Step(adj, frontier) by {
        assert now == before + frontier;
      }
      frontier, reachable := Round(adj, frontier, reachable);
      assert reachable == now + Step(adj, now);
      before := now;
      if frontier == {} {
        assert found - now == {};
        assert reachable == now by {
          forall v | v in found ensures v in now {
            assert v !in found - now;
          }
        }
        BallStops(adj, root, i, hops);
        break;
      }
    }
  }

  /** `naive_reachable`: all vertices but the root within `hops` edges of it, ascending. */
  method NaiveReachable(adj: Adjacency, root: nat, hops: nat) returns (found: seq<nat>)
    ensures StrictlyIncreasing(found)
    ensures forall v :: v in found <==> v != root && Reaches(adj, root, v, hops)
  {
    var reachable := Explore(adj, root, hops);
    forall v ensures v in reachable <==> Reaches(adj, root, v, hops) {
      BallIsReach(adj, root, v, hops);
    }
    found := Ascending(reachable - {root});
  }
}
