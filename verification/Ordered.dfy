/** Ascending sequences of ids: sorting, removing duplicates, searching. */
module Ordered {
  import opened Base

  predicate StrictlyIncreasing(s: seq<nat>) {
    forall i, j :: 0 <= i < j < |s| ==> s[i] < s[j]
  }

  predicate NonDecreasing(s: seq<nat>) {
    forall i, j :: 0 <= i < j < |s| ==> s[i] <= s[j]
  }

  function Insert(x: nat, s: seq<nat>): seq<nat> {
    if s == [] || x <= s[0] then [x] + s else [s[0]] + Insert(x, s[1..])
  }

  /** `sort_unstable` on ids. */
  function Sort(s: seq<nat>): seq<nat> {
    if s == [] then [] else Insert(s[0], Sort(s[1..]))
  }

  /** `dedup`: drops an element equal to its right neighbour. */
  function Dedup(s: seq<nat>): seq<nat> {
    if |s| < 2 then s
    else if s[0] == s[1] then Dedup(s[1..])
    else [s[0]] + Dedup(s[1..])
  }

  lemma {:induction false} InsertSorted(x: nat, s: seq<nat>)
    requires NonDecreasing(s)
    ensures NonDecreasing(Insert(x, s))
    ensures forall y :: y in Insert(x, s) <==> y == x || y in s
  {
    if s != [] && x > s[0] {
      InsertSorted(x, s[1..]);
      var r := Insert(x, s[1..]);
      assert forall y :: y in s <==> y == s[0] || y in s[1..];
      forall i | 0 <= i < |r| ensures s[0] <= r[i] { assert r[i] in r; }
    }
  }

  lemma {:induction false} SortSorts(s: seq<nat>)
    ensures NonDecreasing(Sort(s))
    ensures forall y :: y in Sort(s) <==> y in s
  {
    if s != [] {
      SortSorts(s[1..]);
      InsertSorted(s[0], Sort(s[1..]));
      assert forall y :: y in s <==> y == s[0] || y in s[1..];
    }
  }

  lemma {:induction false} DedupElements(s: seq<nat>, y: nat)
    ensures y in Dedup(s) <==> y in s
  {
    if |s| >= 2 {
      DedupElements(s[1..], y);
      assert y in s <==> y == s[0] || y in s[1..];
    }
  }

  lemma {:induction false} DedupSorted(s: seq<nat>)
    requires NonDecreasing(s)
    ensures StrictlyIncreasing(Dedup(s))
  {
    if |s| >= 2 {
      DedupSorted(s[1..]);
      var r := Dedup(s[1..]);
      if s[0] != s[1] {
        forall i | 0 <= i < |r| ensures s[0] < r[i] {
          DedupElements(s[1..], r[i]);
        }
      }
    }
  }

  function SortDedup(s: seq<nat>): (r: seq<nat>)
    ensures StrictlyIncreasing(r)
    ensures forall y :: y in r <==> y in s
  {
    SortSorts(s);
    DedupSorted(Sort(s));
    assert forall y :: y in Dedup(Sort(s)) <==> y in s by {
      forall y ensures y in Dedup(Sort(s)) <==> y in s {
        DedupElements(Sort(s), y);
      }
    }
    Dedup(Sort(s))
  }

  lemma {:induction false} FirstIsLeast(a: seq<nat>, y: nat)
    requires StrictlyIncreasing(a) && y in a
    ensures a[0] <= y
  {
  }

  lemma {:induction false} RestElements(a: seq<nat>, y: nat)
    requires StrictlyIncreasing(a) && a != []
    ensures y in a[1..] <==> y in a && y != a[0]
  {
  }

  /** An ascending sequence is determined by its elements. */
  lemma {:induction false} SameElements(a: seq<nat>, b: seq<nat>)
    requires StrictlyIncreasing(a) && StrictlyIncreasing(b)
    requires forall y :: y in a <==> y in b
    ensures a == b
  {
    assert b != [] ==> b[0] in a;
    if a != [] {
      assert a[0] in b;
      FirstIsLeast(a, b[0]);
      FirstIsLeast(b, a[0]);
      forall y ensures y in a[1..] <==> y in b[1..] {
        RestElements(a, y);
        RestElements(b, y);
      }
      SameElements(a[1..], b[1..]);
      assert a == [a[0]] + a[1..] && b == [b[0]] + b[1..];
    }
  }

  lemma {:induction false} HasMinimum(s: set<nat>, m: nat)
    requires m in s
    ensures exists least :: least in s && forall x :: x in s ==> least <= x
    decreases m
  {
    if exists x :: x in s && x < m {
      var x :| x in s && x < m;
      HasMinimum(s, x);
    }
  }

  function Least(s: set<nat>): (least: nat)
    requires s != {}
    ensures least in s && forall x :: x in s ==> least <= x
  {
    assert exists least :: least in s && forall x :: x in s ==> least <= x by {
      var m :| m in s;
      HasMinimum(s, m);
    }
    var least :| least in s && forall x :: x in s ==> least <= x;
    least
  }

  /** The order in which a `BTreeMap` or `BTreeSet` with these keys is walked. */
  function Ascending(s: set<nat>): (r: seq<nat>)
    ensures StrictlyIncreasing(r)
    ensures forall y :: y in r <==> y in s
    ensures |r| == |s|
  {
    if s == {} then []
    else
      var least := Least(s);
      var rest := Ascending(s - {least});
      assert forall i :: 0 <= i < |rest| ==> rest[i] in s - {least};
      [least] + rest
  }

  /** `binary_search` on an ascending slice: the index of `x`, or nothing when it is not there. */
  function BinarySearch(s: seq<nat>, x: nat): (r: Option<nat>)
    requires StrictlyIncreasing(s)
    ensures r.Some? ==> r.value < |s| && s[r.value] == x
    ensures r.None? ==> x !in s
  {
    SearchBetween(s, x, 0, |s|)
  }

  function SearchBetween(s: seq<nat>, x: nat, lo: nat, hi: nat): (r: Option<nat>)
    requires StrictlyIncreasing(s) && lo <= hi <= |s|
    requires forall i :: 0 <= i < |s| && s[i] == x ==> lo <= i < hi
    ensures r.Some? ==> r.value < |s| && s[r.value] == x
    ensures r.None? ==> x !in s
    decreases hi - lo
  {
    if lo == hi then None
    else
      var mid := (lo + hi) / 2;
      if s[mid] == x then Some(mid)
      else if s[mid] < x then SearchBetween(s, x, mid + 1, hi)
      else SearchBetween(s, x, lo, mid)
  }
}
