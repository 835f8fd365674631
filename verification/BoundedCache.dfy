/**
 The bounded cache: entries owned by tenants, limited in number, in bytes and per
 tenant, evicted by least recent access with pinned entries last. Counters are
 machine words whose additions saturate; `exact` is a ghost flag that is lost the
 first time the byte counter saturates.
 */
module BoundedCache {
  import opened Base
  import Ordered

  type Key = nat

  /** A tenant's name, of which only identity matters here. */
  type Tenant = nat

  datatype Entry<V> = Entry(value: V, tenant: Tenant, pinned: bool, lastAccess: nat, bytes: nat)

  // ----- sums over entries

  /** The keys a tenant owns. */
  function Owned<V>(m: map<Key, Entry<V>>, tenant: Tenant): set<Key> {
    set k | k in m && m[k].tenant == tenant
  }

  function SumBytes<V>(m: map<Key, Entry<V>>): nat {
    if m == map[] then 0
    else
      var k := Ordered.Least(m.Keys);
      m[k].bytes + SumBytes(m - {k})
  }

  lemma {:induction false} SumBytesRemove<V>(m: map<Key, Entry<V>>, k: Key)
    requires k in m
    ensures SumBytes(m) == m[k].bytes + SumBytes(m - {k})
    decreases |m|
  {
    var l := Ordered.Least(m.Keys);
    if k != l {
      var rest := m - {l};
      SumBytesRemove(rest, k);
      var other := m - {k};
      assert rest - {k} == other - {l};
      assert l in other.Keys;
      assert Ordered.Least(other.Keys) == l;
    }
  }

  lemma {:induction false} SumBytesInsert<V>(m: map<Key, Entry<V>>, k: Key, e: Entry<V>)
    requires k !in m
    ensures SumBytes(m[k := e]) == SumBytes(m) + e.bytes
  {
    SumBytesRemove(m[k := e], k);
    assert m[k := e] - {k} == m;
  }

  // ----- the order of eviction

  predicate InScope<V>(e: Entry<V>, scope: Option<Tenant>) {
    scope.Some? ==> e.tenant == scope.value
  }

  /** Least recent access first; equal accesses, possible only once the clock has saturated, by key. */
  predicate Older<V>(m: map<Key, Entry<V>>, j: Key, k: Key)
    requires j in m && k in m
  {
    m[j].lastAccess < m[k].lastAccess || (m[j].lastAccess == m[k].lastAccess && j < k)
  }

  /** Unpinned entries go before pinned ones, and older before newer among either. */
  predicate GoesBefore<V>(m: map<Key, Entry<V>>, j: Key, k: Key)
    requires j in m && k in m
  {
    (!m[j].pinned && m[k].pinned) || (m[j].pinned == m[k].pinned && Older(m, j, k))
  }

  /** `k` is no candidate, or `v` itself, or not as old as `v`. */
  predicate BeatenBy<V>(m: map<Key, Entry<V>>, scope: Option<Tenant>, allowPinned: bool, v: Key, k: Key)
    requires v in m && k in m
  {
    InScope(m[k], scope) && (allowPinned || !m[k].pinned) && k != v ==> Older(m, v, k)
  }

  ghost predicate IsVictim<V>(m: map<Key, Entry<V>>, scope: Option<Tenant>, allowPinned: bool, v: Key) {
    && v in m && InScope(m[v], scope) && (allowPinned || !m[v].pinned)
    && forall k | k in m :: BeatenBy(m, scope, allowPinned, v, k)
  }

  /**
   `m1` is `m0` without the first entries of the scope in eviction order; `last` is the
   last one to go.
   */
  ghost predicate EvictedFirst<V>(m0: map<Key, Entry<V>>, m1: map<Key, Entry<V>>, scope: Option<Tenant>,
                                  last: Option<Key>) {
    && m1.Keys <= m0.Keys
    && (forall k | k in m1 :: m1[k] == m0[k])
    && (forall k | k in m0 && k !in m1 :: InScope(m0[k], scope))
    && (forall j, k | j in m0 && j !in m1 && k in m1 && InScope(m0[k], scope) :: GoesBefore(m0, j, k))
    && (last.None? ==> m1 == m0)
    && (last.Some? ==>
          && last.value in m0 && last.value !in m1
          && forall j | j in m0 && j !in m1 && j != last.value :: GoesBefore(m0, j, last.value))
  }

  /**
   What went was the least recently accessed: every unpinned entry of the scope before any pinned one, and
   among either by time of access, and by key where that is the same.
   */
  lemma {:induction false} EvictedAreOldest<V>(m0: map<Key, Entry<V>>, m1: map<Key, Entry<V>>, scope: Option<Tenant>,
                                               last: Option<Key>, j: Key, k: Key)
    requires EvictedFirst(m0, m1, scope, last)
    requires j in m0 && j !in m1 && k in m1 && (scope.Some? ==> m0[k].tenant == scope.value)
    ensures k in m0 && (m0[j].pinned ==> m0[k].pinned)
    ensures m0[j].pinned == m0[k].pinned ==>
      m0[j].lastAccess < m0[k].lastAccess || (m0[j].lastAccess == m0[k].lastAccess && j < k)
    ensures scope.Some? ==> m0[j].tenant == scope.value
  {
  }

  lemma {:induction false} NothingEvicted<V>(m: map<Key, Entry<V>>, scope: Option<Tenant>)
    ensures EvictedFirst(m, m, scope, None)
  {
  }

  /** Evicting the first of what is left extends the evicted prefix. */
  lemma {:induction false} EvictNext<V>(m0: map<Key, Entry<V>>, m1: map<Key, Entry<V>>, scope: Option<Tenant>, last: Option<Key>, v: Key)
    requires EvictedFirst(m0, m1, scope, last)
    requires v in m1 && InScope(m1[v], scope)
    requires forall k | k in m1 && InScope(m1[k], scope) && k != v :: GoesBefore(m1, v, k)
    ensures EvictedFirst(m0, m1 - {v}, scope, Some(v))
  {
  }

  // ----- victims

  /** The candidate that `min_by_key` over the ordered map settles on. */
  method FindVictim<V>(m: map<Key, Entry<V>>, scope: Option<Tenant>, allowPinned: bool) returns (v: Option<Key>)
    ensures v.Some? ==> IsVictim(m, scope, allowPinned, v.value)
    ensures v.None? ==> forall k | k in m :: !(InScope(m[k], scope) && (allowPinned || !m[k].pinned))
  {
    v := None;
    var rest := m.Keys;
    while rest != {}
      invariant rest <= m.Keys
      invariant v.Some? ==> v.value in m && InScope(m[v.value], scope) && (allowPinned || !m[v.value].pinned)
      invariant v.Some? ==> forall k | k in m && k !in rest :: BeatenBy(m, scope, allowPinned, v.value, k)
      invariant v.None? ==> forall k | k in m && k !in rest :: !(InScope(m[k], scope) && (allowPinned || !m[k].pinned))
      decreases rest
    {
      var k :| k in rest;
      if InScope(m[k], scope) && (allowPinned || !m[k].pinned) && (v.None? || Older(m, k, v.value)) {
        v := Some(k);
      }
      rest := rest - {k};
    }
  }

  /** `k` passes the test, and whatever else does scores less, or the same with a smaller key. */
  ghost predicate IsLatest<V>(m: map<Key, Entry<V>>, test: (Key, V) -> bool, score: (Key, V) -> nat, k: Key)
    requires k in m
  {
    && test(k, m[k].value)
    && forall j | j in m :: Outranks(m, test, score, k, j)
  }

  predicate Outranks<V>(m: map<Key, Entry<V>>, test: (Key, V) -> bool, score: (Key, V) -> nat, k: Key, j: Key)
    requires k in m && j in m
  {
    var sk, sj := score(k, m[k].value), score(j, m[j].value);
    test(j, m[j].value) && j != k ==> sj < sk || (sj == sk && j < k)
  }

  method FindLatest<V>(m: map<Key, Entry<V>>, test: (Key, V) -> bool, score: (Key, V) -> nat) returns (best: Option<Key>)
    ensures best.None? ==> forall k | k in m :: !test(k, m[k].value)
    ensures best.Some? ==> best.value in m && IsLatest(m, test, score, best.value)
  {
    best := None;
    var rest := m.Keys;
    while rest != {}
      invariant rest <= m.Keys
      invariant best.None? ==> forall k | k in m && k !in rest :: !test(k, m[k].value)
      invariant best.Some? ==> best.value in m && test(best.value, m[best.value].value)
      invariant best.Some? ==> forall j | j in m && j !in rest :: Outranks(m, test, score, best.value, j)
      decreases rest
    {
      var k :| k in rest;
      if test(k, m[k].value) && (best.None? || Outranks(m, test, score, k, best.value)) {
        best := Some(k);
      }
      rest := rest - {k};
    }
  }

  function Rejected<V>(m: map<Key, Entry<V>>, keep: (Key, V) -> bool): (keys: set<Key>)
    ensures forall k :: k in keys <==> k in m && !keep(k, m[k].value)
  {
    set k | k in m && !keep(k, m[k].value)
  }

  lemma {:induction false} FewerThan<V>(m: map<Key, Entry<V>>, keys: set<Key>)
    ensures |m - keys| <= |m|
  {
  }

  // ----- the cache

  /** Tenant counts list exactly the tenants that own something, with how much. */
  ghost predicate CountsOk<V>(m: map<Key, Entry<V>>, counts: map<Tenant, nat>) {
    && (forall t | t in counts :: counts[t] == |Owned(m, t)| && 0 < counts[t])
    && (forall k | k in m :: m[k].tenant in counts)
  }

  /** No entry was accessed after now, and until the clock saturates no two at the same time. */
  ghost predicate AccessOk<V>(m: map<Key, Entry<V>>, clock: nat) {
    && clock <= U64_MAX
    && (forall k | k in m :: m[k].lastAccess <= clock)
    && (clock < U64_MAX ==> forall j, k | j in m && k in m && j != k :: m[j].lastAccess != m[k].lastAccess)
  }

  ghost predicate ValuesOk<V>(m: map<Key, Entry<V>>, inserted: map<Key, V>) {
    forall k | k in m :: k in inserted && inserted[k] == m[k].value
  }

  function Decremented(counts: map<Tenant, nat>, t: Tenant): map<Tenant, nat> {
    if t !in counts then counts
    else if counts[t] <= 1 then counts - {t}
    else counts[t := counts[t] - 1]
  }

  function Incremented(counts: map<Tenant, nat>, t: Tenant): map<Tenant, nat> {
    counts[t := (if t in counts then counts[t] else 0) + 1]
  }

  lemma {:induction false} OwnedRemove<V>(m: map<Key, Entry<V>>, k: Key, t: Tenant)
    requires k in m
    ensures |Owned(m - {k}, t)| == |Owned(m, t)| - if t == m[k].tenant then 1 else 0
  {
    if t == m[k].tenant {
      assert Owned(m - {k}, t) == Owned(m, t) - {k};
    } else {
      assert Owned(m - {k}, t) == Owned(m, t);
    }
  }

  lemma {:induction false} OwnedInsert<V>(m: map<Key, Entry<V>>, k: Key, e: Entry<V>, t: Tenant)
    requires k !in m
    ensures |Owned(m[k := e], t)| == |Owned(m, t)| + if t == e.tenant then 1 else 0
  {
    OwnedRemove(m[k := e], k, t);
    assert m[k := e] - {k} == m;
  }

  /** A tenant without a count owns nothing. */
  lemma {:induction false} Uncounted<V>(m: map<Key, Entry<V>>, counts: map<Tenant, nat>, t: Tenant)
    requires CountsOk(m, counts)
    ensures |Owned(m, t)| == if t in counts then counts[t] else 0
  {
  }

  lemma {:induction false} CountsRemove<V>(m: map<Key, Entry<V>>, counts: map<Tenant, nat>, k: Key)
    requires CountsOk(m, counts) && k in m
    ensures CountsOk(m - {k}, Decremented(counts, m[k].tenant))
  {
    var t := m[k].tenant;
    var m' := m - {k};
    forall u | u in Decremented(counts, t) ensures Decremented(counts, t)[u] == |Owned(m', u)| {
      OwnedRemove(m, k, u);
    }
    OwnedRemove(m, k, t);
    forall j | j in m' ensures m'[j].tenant in Decremented(counts, t) {
      if m'[j].tenant == t {
        assert j in Owned(m', t);
      }
    }
  }

  lemma {:induction false} CountsInsert<V>(m: map<Key, Entry<V>>, counts: map<Tenant, nat>, k: Key, e: Entry<V>)
    requires CountsOk(m, counts) && k !in m
    ensures CountsOk(m[k := e], Incremented(counts, e.tenant))
  {
    forall u | u in Incremented(counts, e.tenant) ensures Incremented(counts, e.tenant)[u] == |Owned(m[k := e], u)| {
      OwnedInsert(m, k, e, u);
      Uncounted(m, counts, u);
    }
  }

  /** Accesses and values of fewer entries are still in order. */
  lemma {:induction false} FewerOk<V>(m: map<Key, Entry<V>>, clock: nat, inserted: map<Key, V>, k: Key)
    requires AccessOk(m, clock) && ValuesOk(m, inserted)
    ensures AccessOk(m - {k}, clock) && ValuesOk(m - {k}, inserted)
  {
  }

  /** Every tenant's count is at most what it was. */
  ghost predicate CountsShrink(before: map<Tenant, nat>, after: map<Tenant, nat>) {
    forall t | t in after :: t in before && after[t] <= before[t]
  }

  function CountOf(counts: map<Tenant, nat>, t: Tenant): nat {
    if t in counts then counts[t] else 0
  }

  lemma {:induction false} DecrementShrinks(before: map<Tenant, nat>, counts: map<Tenant, nat>, t: Tenant)
    requires CountsShrink(before, counts)
    ensures CountsShrink(before, Decremented(counts, t))
    ensures CountOf(Decremented(counts, t), t) == SatSub(CountOf(counts, t), 1)
  {
  }

  /** A tenant that has entries owns some. */
  lemma {:induction false} OwnsSome<V>(m: map<Key, Entry<V>>, counts: map<Tenant, nat>, t: Tenant) returns (k: Key)
    requires CountsOk(m, counts) && 0 < CountOf(counts, t)
    ensures k in m && m[k].tenant == t
  {
    k :| k in Owned(m, t);
  }

  /** The entry as it is after an access now. */
  function Touched<V>(m: map<Key, Entry<V>>, k: Key, now: nat): map<Key, Entry<V>> {
    if k in m then m[k := m[k].(lastAccess := now)] else m
  }

  lemma {:induction false} TouchKeepsCounts<V>(m: map<Key, Entry<V>>, counts: map<Tenant, nat>, k: Key, now: nat)
    requires CountsOk(m, counts)
    ensures CountsOk(Touched(m, k, now), counts)
  {
    forall t | t in counts ensures Owned(Touched(m, k, now), t) == Owned(m, t) {
    }
  }

  lemma {:induction false} TouchKeepsOrder<V>(m: map<Key, Entry<V>>, clock: nat, k: Key)
    requires AccessOk(m, clock)
    ensures AccessOk(Touched(m, k, SatAdd(clock, 1)), SatAdd(clock, 1))
  {
  }

  lemma {:induction false} TouchKeepsValues<V>(m: map<Key, Entry<V>>, inserted: map<Key, V>, k: Key, now: nat)
    requires ValuesOk(m, inserted)
    ensures ValuesOk(Touched(m, k, now), inserted) && |Touched(m, k, now)| == |m|
    ensures k in m ==> inserted[k] == m[k].value
  {
  }

  lemma {:induction false} TouchKeepsBytes<V>(m: map<Key, Entry<V>>, k: Key, now: nat)
    ensures SumBytes(Touched(m, k, now)) == SumBytes(m)
  {
    if k in m {
      var m' := Touched(m, k, now);
      SumBytesRemove(m, k);
      SumBytesRemove(m', k);
      assert m' - {k} == m - {k};
    }
  }

  /** The counters agree with the entries, accesses are ordered, and values are the ones inserted. */
  ghost predicate Agree<V>(m: map<Key, Entry<V>>, counts: map<Tenant, nat>, bytes: nat, clock: nat, exact: bool,
                           inserted: map<Key, V>) {
    && CountsOk(m, counts)
    && (exact ==> bytes == SumBytes(m))
    && AccessOk(m, clock)
    && ValuesOk(m, inserted)
  }

  lemma {:induction false} TouchOk<V>(m: map<Key, Entry<V>>, counts: map<Tenant, nat>, bytes: nat, clock: nat, exact: bool,
                   inserted: map<Key, V>, k: Key)
    requires Agree(m, counts, bytes, clock, exact, inserted)
    ensures Agree(Touched(m, k, SatAdd(clock, 1)), counts, bytes, SatAdd(clock, 1), exact, inserted)
    ensures k in m ==> k in inserted && inserted[k] == m[k].value
    ensures |Touched(m, k, SatAdd(clock, 1))| == |m|
  {
    TouchKeepsCounts(m, counts, k, SatAdd(clock, 1));
    TouchKeepsOrder(m, clock, k);
    TouchKeepsBytes(m, k, SatAdd(clock, 1));
    TouchKeepsValues(m, inserted, k, SatAdd(clock, 1));
  }

  ghost predicate AllWithin(counts: map<Tenant, nat>, limit: Option<nat>) {
    limit.Some? ==> forall t | t in counts :: counts[t] <= limit.value
  }

  /** Every quota but one tenant's holds. */
  ghost predicate AllWithinBut(counts: map<Tenant, nat>, limit: Option<nat>, tenant: Tenant) {
    limit.Some? ==> forall t | t in counts && t != tenant :: counts[t] <= limit.value
  }

  /** The counts after an entry of `tenant` took the place of the one under `k`, if any. */
  function CountsAfterPut<V>(m: map<Key, Entry<V>>, counts: map<Tenant, nat>, k: Key, tenant: Tenant): map<Tenant, nat> {
    Incremented(if k in m then Decremented(counts, m[k].tenant) else counts, tenant)
  }

  function BytesWithout<V>(m: map<Key, Entry<V>>, bytes: nat, k: Key): (left: nat)
    ensures left <= bytes
  {
    if k in m then SatSub(bytes, m[k].bytes) else bytes
  }

  lemma {:induction false} PutKeepsQuotas<V>(m: map<Key, Entry<V>>, counts: map<Tenant, nat>, k: Key, tenant: Tenant, limit: Option<nat>)
    requires AllWithin(counts, limit)
    ensures AllWithinBut(CountsAfterPut(m, counts, k, tenant), limit, tenant)
  {
  }

  lemma {:induction false} PutKeepsOrder<V>(m: map<Key, Entry<V>>, clock: nat, k: Key, e: Entry<V>)
    requires AccessOk(m, clock) && e.lastAccess == SatAdd(clock, 1)
    ensures AccessOk(m[k := e], SatAdd(clock, 1))
  {
  }

  lemma {:induction false} PutCounts<V>(m: map<Key, Entry<V>>, counts: map<Tenant, nat>, k: Key, e: Entry<V>)
    requires CountsOk(m, counts)
    ensures CountsOk(m[k := e], CountsAfterPut(m, counts, k, e.tenant))
  {
    var rest := m - {k};
    if k in m {
      CountsRemove(m, counts, k);
    } else {
      assert rest == m;
    }
    CountsInsert(rest, if k in m then Decremented(counts, m[k].tenant) else counts, k, e);
    assert rest[k := e] == m[k := e];
  }

  lemma {:induction false} PutBytes<V>(m: map<Key, Entry<V>>, k: Key, e: Entry<V>)
    ensures BytesWithout(m, SumBytes(m), k) + e.bytes == SumBytes(m[k := e])
  {
    var rest := m - {k};
    if k in m {
      SumBytesRemove(m, k);
    } else {
      assert rest == m;
    }
    SumBytesInsert(rest, k, e);
    assert rest[k := e] == m[k := e];
  }

  lemma {:induction false} PutOk<V>(m: map<Key, Entry<V>>, counts: map<Tenant, nat>, bytes: nat, clock: nat, exact: bool,
                 inserted: map<Key, V>, k: Key, e: Entry<V>)
    requires Agree(m, counts, bytes, clock, exact, inserted) && e.lastAccess == SatAdd(clock, 1)
    ensures
      var left := BytesWithout(m, bytes, k);
      Agree(m[k := e], CountsAfterPut(m, counts, k, e.tenant), SatAdd(left, e.bytes), SatAdd(clock, 1),
            exact && left + e.bytes <= U64_MAX, inserted[k := e.value])
  {
    hide CountsOk;
    hide AccessOk;
    hide SumBytes;
    hide CountsAfterPut;
    PutCounts(m, counts, k, e);
    PutBytes(m, k, e);
    PutKeepsOrder(m, clock, k, e);
  }

  lemma {:induction false} RemoveOk<V>(m: map<Key, Entry<V>>, counts: map<Tenant, nat>, bytes: nat, clock: nat, exact: bool,
                 inserted: map<Key, V>, k: Key)
    requires Agree(m, counts, bytes, clock, exact, inserted) && k in m
    ensures exact ==> m[k].bytes <= bytes
    ensures Agree(m - {k}, Decremented(counts, m[k].tenant), SatSub(bytes, m[k].bytes), clock, exact, inserted)
  {
    SumBytesRemove(m, k);
    CountsRemove(m, counts, k);
    FewerOk(m, clock, inserted, k);
  }

  lemma {:induction false} ShrinksNot(counts: map<Tenant, nat>)
    ensures CountsShrink(counts, counts)
  {
  }

  class Cache<V> {
    const maxEntries: nat
    const maxBytes: nat
    const maxPerTenant: Option<nat>
    var entries: map<Key, Entry<V>>
    var tenantEntries: map<Tenant, nat>
    var residentBytes: nat
    var clock: nat

    /** No addition to `residentBytes` has saturated. */
    ghost var exact: bool
    /** The last value inserted under each key. */
    ghost var inserted: map<Key, V>

    /** The counters agree with the entries, accesses are ordered, and values are the ones inserted. */
    ghost predicate Consistent()
      reads this
    {
      Agree(entries, tenantEntries, residentBytes, clock, exact, inserted)
    }

    ghost predicate Valid()
      reads this
    {
      && Consistent() && AllWithin(tenantEntries, maxPerTenant)
      && |entries| <= maxEntries
      && (exact ==> residentBytes <= maxBytes)
    }

    constructor (maxEntries: nat, maxPerTenant: Option<nat>, maxBytes: nat)
      ensures Valid() && entries == map[] && exact && inserted == map[]
      ensures this.maxEntries == maxEntries && this.maxPerTenant == maxPerTenant && this.maxBytes == maxBytes
    {
      this.maxEntries, this.maxPerTenant, this.maxBytes := maxEntries, maxPerTenant, maxBytes;
      entries, tenantEntries, residentBytes, clock := map[], map[], 0, 0;
      exact, inserted := true, map[];
    }

    method DecrementTenant(tenant: Tenant)
      modifies `tenantEntries
      ensures tenantEntries == Decremented(old(tenantEntries), tenant)
    {
      if tenant in tenantEntries {
        var count := SatSub(tenantEntries[tenant], 1);
        if count == 0 {
          tenantEntries := tenantEntries - {tenant};
        } else {
          tenantEntries := tenantEntries[tenant := count];
        }
      }
    }

    method Remove(k: Key) returns (r: Option<V>)
      requires Consistent()
      modifies `entries, `residentBytes, `tenantEntries
      ensures Consistent()
      ensures entries == old(entries) - {k}
      ensures r == if k in old(entries) then Some(old(entries)[k].value) else None
      ensures exact ==> residentBytes == old(residentBytes) - if k in old(entries) then old(entries)[k].bytes else 0
      ensures tenantEntries == if k in old(entries) then Decremented(old(tenantEntries), old(entries)[k].tenant)
                               else old(tenantEntries)
    {
      hide Agree;
      if k !in entries {
        return None;
      }
      var e := entries[k];
      RemoveOk(entries, tenantEntries, residentBytes, clock, exact, inserted, k);
      entries := entries - {k};
      residentBytes := SatSub(residentBytes, e.bytes);
      DecrementTenant(e.tenant);
      r := Some(e.value);
    }

    /** Evicts the oldest candidate; `v` names it. */
    method EvictOne(scope: Option<Tenant>, allowPinned: bool) returns (evicted: bool, ghost v: Key)
      requires Consistent()
      modifies `entries, `residentBytes, `tenantEntries
      ensures Consistent()
      ensures evicted ==> IsVictim(old(entries), scope, allowPinned, v) && Evicts(v)
      ensures !evicted ==> unchanged(this)
      ensures !evicted ==> forall k | k in entries :: !(InScope(entries[k], scope) && (allowPinned || !entries[k].pinned))
    {
      var key := FindVictim(entries, scope, allowPinned);
      match key {
        case None => evicted, v := false, 0;
        case Some(k) =>
          evicted, v := true, k;
          var _ := Remove(k);
      }
    }

    /** The entry `v` went, and nothing else changed but the counters. */
    twostate predicate Evicts(v: Key)
      reads this
    {
      && v in old(entries) && entries == old(entries) - {v}
      && tenantEntries == Decremented(old(tenantEntries), old(entries)[v].tenant)
      && (exact ==> residentBytes + old(entries)[v].bytes == old(residentBytes))
    }

    /** Evicts an unpinned entry of the scope, or a pinned one when there is no other: the first in eviction order. */
    method EvictPreferred(scope: Option<Tenant>) returns (evicted: bool, ghost v: Key)
      requires Consistent()
      modifies `entries, `residentBytes, `tenantEntries
      ensures Consistent()
      ensures evicted ==> Evicts(v) && InScope(old(entries)[v], scope)
      ensures evicted ==> forall k | k in old(entries) && InScope(old(entries)[k], scope) && k != v ::
        GoesBefore(old(entries), v, k)
      ensures !evicted ==> unchanged(this) && forall k | k in entries :: !InScope(entries[k], scope)
    {
      evicted, v := EvictOne(scope, false);
      if !evicted {
        evicted, v := EvictOne(scope, true);
      }
      assert evicted ==> forall k | k in old(entries) :: BeatenBy(old(entries), scope, old(entries)[v].pinned, v, k);
    }

    /** Evicts the next entry of the scope in eviction order, after those that went since `m0`. */
    method EvictNextOne(scope: Option<Tenant>, ghost m0: map<Key, Entry<V>>, ghost last: Option<Key>)
      returns (evicted: bool, ghost v: Key)
      requires Consistent() && EvictedFirst(m0, entries, scope, last)
      modifies `entries, `residentBytes, `tenantEntries
      ensures Consistent()
      ensures evicted ==>
        && EvictedFirst(m0, entries, scope, Some(v)) && |entries| == |old(entries)| - 1
        && v in m0 && InScope(m0[v], scope)
        && (exact ==> residentBytes + m0[v].bytes == old(residentBytes))
        && tenantEntries == Decremented(old(tenantEntries), m0[v].tenant)
      ensures !evicted ==> unchanged(this) && forall k | k in entries :: !InScope(entries[k], scope)
    {
      ghost var before := entries;
      evicted, v := EvictPreferred(scope);
      if evicted {
        EvictNext(m0, before, scope, last, v);
        assert entries == before - {v};
        assert |before - {v}| == |before| - 1;
      }
    }

    /** Evicts entries of the tenant, first in eviction order first, until its quota holds. */
    method EnforceTenantQuota(tenant: Tenant) returns (ghost last: Option<Key>)
      requires Consistent()
      modifies `entries, `residentBytes, `tenantEntries
      ensures Consistent()
      ensures EvictedFirst(old(entries), entries, Some(tenant), last)
      ensures maxPerTenant.Some? ==> CountOf(tenantEntries, tenant) <= maxPerTenant.value
      ensures last.Some? ==> maxPerTenant.Some? && CountOf(tenantEntries, tenant) == maxPerTenant.value
      ensures CountsShrink(old(tenantEntries), tenantEntries)
    {
      last := None;
      NothingEvicted(entries, Some(tenant));
      ghost var m0, counts0 := entries, tenantEntries;
      if maxPerTenant.None? {
        return;
      }
      while CountOf(tenantEntries, tenant) > maxPerTenant.value
        invariant Consistent()
        invariant EvictedFirst(m0, entries, Some(tenant), last)
        invariant CountsShrink(counts0, tenantEntries)
        invariant last.Some? ==> maxPerTenant.value <= CountOf(tenantEntries, tenant)
        decreases |entries|
      {
        ghost var owned := OwnsSome(entries, tenantEntries, tenant);
        DecrementShrinks(counts0, tenantEntries, tenant);
        var evicted;
        ghost var v;
        evicted, v := EvictNextOne(Some(tenant), m0, last);
        last := Some(v);
      }
    }

    /** Evicts entries, first in eviction order first, until their number and bytes are within the limits. */
    method EnforceTotalLimit() returns (ghost last: Option<Key>)
      requires Consistent()
      modifies `entries, `residentBytes, `tenantEntries
      ensures Consistent()
      ensures EvictedFirst(old(entries), entries, None, last)
      ensures |entries| <= maxEntries && (exact ==> residentBytes <= maxBytes)
      ensures CountsShrink(old(tenantEntries), tenantEntries)
      // with the last victim back, a limit would be exceeded
      ensures last.Some? && exact ==>
        |entries| + 1 > maxEntries || residentBytes + old(entries)[last.value].bytes > maxBytes
    {
      last := None;
      NothingEvicted(entries, None);
      ghost var m0, counts0 := entries, tenantEntries;
      while |entries| > maxEntries || residentBytes > maxBytes
        invariant Consistent()
        invariant EvictedFirst(m0, entries, None, last)
        invariant CountsShrink(counts0, tenantEntries)
        invariant last.Some? && exact ==>
          |entries| + 1 > maxEntries || residentBytes + m0[last.value].bytes > maxBytes
        decreases |entries|
      {
        ghost var counts := tenantEntries;
        var evicted;
        ghost var v;
        evicted, v := EvictNextOne(None, m0, last);
        if !evicted {
          assert entries == map[];
          break;
        }
        DecrementShrinks(counts0, counts, m0[v].tenant);
        last := Some(v);
      }
    }

    /** The value last inserted under the key, if it is still there; this makes it the most recently accessed. */
    method Get(k: Key) returns (r: Option<V>)
      requires Consistent()
      modifies `entries, `clock
      ensures Consistent() && entries == Touched(old(entries), k, clock) && clock == SatAdd(old(clock), 1)
      ensures |entries| == |old(entries)|
      ensures r == if k in old(entries) then Some(inserted[k]) else None
      ensures entries.Keys == old(entries).Keys && forall j | j in entries && j != k :: entries[j] == old(entries)[j]
      ensures k in entries ==> entries[k] == old(entries)[k].(lastAccess := clock)
    {
      hide Agree;
      TouchOk(entries, tenantEntries, residentBytes, clock, exact, inserted, k);
      r := if k in entries then Some(entries[k].value) else None;
      clock := SatAdd(clock, 1);
      entries := Touched(entries, k, clock);
    }

    /** Takes a replaced entry out of the counters. */
    method Discount(previous: Option<Entry<V>>)
      modifies `residentBytes, `tenantEntries
      ensures residentBytes == if previous.Some? then SatSub(old(residentBytes), previous.value.bytes) else old(residentBytes)
      ensures tenantEntries ==
        if previous.Some? then Decremented(old(tenantEntries), previous.value.tenant) else old(tenantEntries)
    {
      if previous.Some? {
        residentBytes := SatSub(residentBytes, previous.value.bytes);
        DecrementTenant(previous.value.tenant);
      }
    }

    /** Puts an entry in place of the one under its key, if any, and brings the counters up to date. */
    method Put(k: Key, value: V, tenant: Tenant, pinned: bool, bytes: nat)
      requires Consistent() && AllWithin(tenantEntries, maxPerTenant)
      modifies this
      ensures Consistent() && clock == SatAdd(old(clock), 1)
      ensures entries == old(entries)[k := Entry(value, tenant, pinned, clock, bytes)]
      ensures AllWithinBut(tenantEntries, maxPerTenant, tenant)
      ensures exact == (old(exact) && BytesWithout(old(entries), old(residentBytes), k) + bytes <= U64_MAX)
      ensures inserted == old(inserted)[k := value]
    {
      PutKeepsQuotas(entries, tenantEntries, k, tenant, maxPerTenant);
      PutOk(entries, tenantEntries, residentBytes, clock, exact, inserted, k,
            Entry(value, tenant, pinned, SatAdd(clock, 1), bytes));
      Replace(k, value, tenant, pinned, bytes);
    }

    /** The updates of the fields when an entry is put. */
    method Replace(k: Key, value: V, tenant: Tenant, pinned: bool, bytes: nat)
      modifies this
      ensures clock == SatAdd(old(clock), 1)
      ensures entries == old(entries)[k := Entry(value, tenant, pinned, clock, bytes)]
      ensures tenantEntries == CountsAfterPut(old(entries), old(tenantEntries), k, tenant)
      ensures residentBytes == SatAdd(BytesWithout(old(entries), old(residentBytes), k), bytes)
      ensures exact == (old(exact) && BytesWithout(old(entries), old(residentBytes), k) + bytes <= U64_MAX)
      ensures inserted == old(inserted)[k := value]
    {
      clock := SatAdd(clock, 1);
      var previous := if k in entries then Some(entries[k]) else None;
      entries := entries[k := Entry(value, tenant, pinned, clock, bytes)];
      Discount(previous);
      exact := exact && residentBytes + bytes <= U64_MAX;
      residentBytes := SatAdd(residentBytes, bytes);
      tenantEntries := Incremented(tenantEntries, tenant);
      inserted := inserted[k := value];
    }

    /** Evicts for the tenant's quota and then for the total limits; `spare` is what was held in between. */
    method Enforce(tenant: Tenant)
      returns (ghost spare: map<Key, Entry<V>>, ghost quotaLast: Option<Key>, ghost totalLast: Option<Key>)
      requires Consistent()
      requires AllWithinBut(tenantEntries, maxPerTenant, tenant)
      modifies `entries, `residentBytes, `tenantEntries
      ensures Valid()
      ensures EvictedFirst(old(entries), spare, Some(tenant), quotaLast)
      ensures EvictedFirst(spare, entries, None, totalLast)
      ensures quotaLast.Some? ==> maxPerTenant.Some? && |Owned(spare, tenant)| == maxPerTenant.value
      ensures totalLast.Some? && exact ==>
        |entries| + 1 > maxEntries || SumBytes(entries) + spare[totalLast.value].bytes > maxBytes
    {
      quotaLast := EnforceTenantQuota(tenant);
      spare := entries;
      ghost var counts := tenantEntries;
      Uncounted(spare, counts, tenant);
      assert AllWithin(counts, maxPerTenant);
      totalLast := EnforceTotalLimit();
    }

    /**
     Inserts, then evicts for the tenant's quota and the total limits. `put` is what was held
     before any eviction, `kept` what was held after, `spare` what was held between the two.
     */
    method InsertSized(k: Key, value: V, tenant: Tenant, pinned: bool, bytes: nat)
      returns (r: Option<V>, ghost put: map<Key, Entry<V>>, ghost spare: map<Key, Entry<V>>,
               ghost kept: map<Key, Entry<V>>, ghost quotaLast: Option<Key>, ghost totalLast: Option<Key>)
      requires Valid()
      modifies this
      ensures Valid()
      ensures maxEntries == 0 ==> r.None? && unchanged(this)
      ensures maxEntries > 0 ==>
        && put == old(entries)[k := Entry(value, tenant, pinned, SatAdd(old(clock), 1), bytes)]
        && EvictedFirst(put, spare, Some(tenant), quotaLast) && EvictedFirst(spare, kept, None, totalLast)
        && entries == Touched(kept, k, clock)
        && r == (if k in kept then Some(value) else None)
        && inserted == old(inserted)[k := value] && clock == SatAdd(SatAdd(old(clock), 1), 1)
      ensures maxEntries > 0 ==>
        && entries.Keys == kept.Keys && (forall j | j in entries && j != k :: entries[j] == kept[j])
        && (k in entries ==> entries[k] == Entry(value, tenant, pinned, clock, bytes))
      // no eviction was needless: with the last victim back, a quota or limit would be exceeded
      ensures maxEntries > 0 && quotaLast.Some? ==> maxPerTenant.Some? && |Owned(spare, tenant)| == maxPerTenant.value
      ensures maxEntries > 0 && exact && totalLast.Some? ==>
        |kept| + 1 > maxEntries || SumBytes(kept) + spare[totalLast.value].bytes > maxBytes
      // the byte counter stays exact until the resident bytes themselves exceed a machine word
      ensures maxEntries > 0 ==> exact == (old(exact) && BytesWithout(old(entries), old(residentBytes), k) + bytes <= U64_MAX)
    {
      hide Agree;
      hide EvictedFirst;
      hide AllWithin;
      put, spare, kept, quotaLast, totalLast := entries, entries, entries, None, None;
      if maxEntries == 0 {
        return None, put, spare, kept, None, None;
      }
      Put(k, value, tenant, pinned, bytes);
      put := entries;
      spare, quotaLast, totalLast := Enforce(tenant);
      kept := entries;
      r := Get(k);
    }

    /** Removes a set of keys one by one. */
    method RemoveAll(keys: set<Key>)
      requires Consistent() && keys <= entries.Keys
      modifies `entries, `residentBytes, `tenantEntries
      ensures Consistent() && CountsShrink(old(tenantEntries), tenantEntries)
      ensures entries == old(entries) - keys
      ensures exact ==> residentBytes <= old(residentBytes)
      decreases keys
    {
      hide Agree;
      hide CountsShrink;
      ghost var m0, counts0 := entries, tenantEntries;
      ShrinksNot(counts0);
      var rest := keys;
      while rest != {}
        invariant Consistent() && CountsShrink(counts0, tenantEntries)
        invariant rest <= keys && rest <= entries.Keys
        invariant entries == m0 - (keys - rest)
        invariant exact ==> residentBytes <= old(residentBytes)
        decreases rest
      {
        var k :| k in rest;
        DecrementShrinks(counts0, tenantEntries, entries[k].tenant);
        assert m0 - (keys - rest) - {k} == m0 - (keys - (rest - {k}));
        var _ := Remove(k);
        rest := rest - {k};
      }
      assert keys - rest == keys;
    }

    /** Keeps the entries the test accepts. */
    method Retain(keep: (Key, V) -> bool)
      requires Valid()
      modifies `entries, `residentBytes, `tenantEntries
      ensures Valid()
      ensures entries == old(entries) - Rejected(old(entries), keep)
      ensures forall k :: k in entries <==> k in old(entries) && keep(k, old(entries)[k].value)
    {
      FewerThan(entries, Rejected(entries, keep));
      RemoveAll(Rejected(entries, keep));
    }

    /** Accesses an entry with the highest score among those the test accepts, the last in key order if several. */
    method GetLatestBy(test: (Key, V) -> bool, score: (Key, V) -> nat) returns (r: Option<V>, ghost best: Option<Key>)
      requires Consistent()
      modifies `entries, `clock
      ensures Consistent() && |entries| == |old(entries)|
      ensures best.None? ==> r.None? && unchanged(this) && forall k | k in entries :: !test(k, entries[k].value)
      ensures best.Some? ==>
        && best.value in old(entries) && IsLatest(old(entries), test, score, best.value)
        && entries == Touched(old(entries), best.value, clock) && r == Some(inserted[best.value])
        && clock == SatAdd(old(clock), 1)
      ensures best.Some? ==> forall j | j in old(entries) && test(j, old(entries)[j].value) ::
        && score(j, old(entries)[j].value) <= score(best.value, old(entries)[best.value].value)
        && (score(j, old(entries)[j].value) == score(best.value, old(entries)[best.value].value) ==> j <= best.value)
    {
      hide Agree;
      hide Touched;
      var key := FindLatest(entries, test, score);
      best := key;
      match key {
        case None => r := None;
        case Some(k) =>
          ghost var m := entries;
          assert forall j | j in m :: Outranks(m, test, score, k, j);
          r := Get(k);
      }
    }
  }
}
