/**
 What stays in a `MemoryCache`: how long a written value is served, and which entries eviction takes.
 */
module MemoryCacheLifetimes {
  import opened Wrappers
  import opened MemoryCaches
  import Sorting

  // ---- How long a value is served ----

  /** A cache with room for one entry at least keeps what it has just written. */
  lemma WritesAreKept<V>(m: Mem<V>, maxEntries: int, key: Key, value: V, lifetime: int, written: int)
    requires Consistent(m) && |m.order| <= Capacity(maxEntries) && maxEntries > 0
    ensures key in Written(m, maxEntries, key, value, lifetime, written).store
  {
    var put := Put(m, key, Some(value), ExpiryOf(lifetime, written));
    if |put.order| > maxEntries {
      var kept := Unexpired(put.store, put.order, written);
      assert put.order[..|put.order| - 1] == m.order && kept[|kept| - 1] == key;
      var newest := Newest(kept, Capacity(maxEntries));
      assert newest[|newest| - 1] == key;
    }
  }

  lemma PutLeavesOthers<V>(m: Mem<V>, maxEntries: int, k: Key, value: Option<V>, expiresAt: Option<int>, key: Key,
                           now: int)
    requires Consistent(m) && k != key && key in m.store
    requires key in Evicted(Put(m, k, value, expiresAt), maxEntries, now).store
    ensures Evicted(Put(m, k, value, expiresAt), maxEntries, now).store[key] == m.store[key]
  {
    EvictedView(Put(m, k, value, expiresAt), maxEntries, key, now);
  }

  /** A call that does not change a key that stays leaves its entry, unless the value has expired and is dropped. */
  lemma OthersLeaveEntry<V>(m: Mem<V>, maxEntries: int, call: Call<V>, key: Key, now: int)
    requires Consistent(m) && |m.order| <= Capacity(maxEntries) && !Changes(m, call, key, now)
    requires key in m.store && key in Apply(m, maxEntries, call, now).store
    ensures var (before, after) := (m.store[key], Apply(m, maxEntries, call, now).store[key]);
            after == before || (IsExpired(before, now) && after == ClearValue(before))
  {
    match call
    case InvalidateCall(k) =>
      if k !in m.store {
        PutLeavesOthers(m, maxEntries, k, None, None, key, now);
      }
    case FillCall(k, observed, value, ttl) =>
      if observed == TokenOf(m, k) {
        PutLeavesOthers(m, maxEntries, k, Some(value), ExpiryOf(ttl, now), key, now);
      }
    case SetCall(k, value, ttl, newer) =>
      if !Outranked(m, k, value, newer, now) {
        PutLeavesOthers(Swept(m, k, now), maxEntries, k, Some(value), ExpiryOf(ttl, now), key, now);
      }
    case _ =>
  }

  /** The call writes `value` under `key`, with this lifetime. */
  ghost predicate Writes<V>(m: Mem<V>, call: Call<V>, key: Key, value: V, lifetime: int, now: int) {
    Changes(m, call, key, now) &&
    match call
    case FillCall(_, _, v, ttl) => v == value && ttl == lifetime
    case SetCall(_, v, ttl, _) => v == value && ttl == lifetime
    case _ => false
  }

  /** The value is there, with its lifetime, or its lifetime is over. */
  ghost predicate IsKept<V>(entry: Entry<V>, value: V, lifetime: int, written: int, now: int) {
    || (entry.value == Some(value) && entry.expiresAt == if lifetime > 0 then Some(written + lifetime) else None)
    || (entry.value == None && lifetime > 0 && now - written > lifetime)
  }

  lemma WriteIsKept<V>(m: Mem<V>, maxEntries: int, call: Call<V>, key: Key, value: V, lifetime: int, now: int)
    requires Consistent(m) && Writes(m, call, key, value, lifetime, now)
    requires key in Apply(m, maxEntries, call, now).store
    ensures IsKept(Apply(m, maxEntries, call, now).store[key], value, lifetime, now, now)
  {
    var before := if call.FillCall? then m else Swept(m, key, now);
    EvictedView(Put(before, key, Some(value), ExpiryOf(lifetime, now)), maxEntries, key, now);
  }

  /** Call `n` leaves `key` alone. */
  ghost predicate IsSpared<V>(t: seq<Mem<V>>, calls: seq<Call<V>>, times: seq<int>, key: Key, n: nat)
    requires |t| == |times| == |calls| + 1 && n < |calls|
  {
    !Changes(t[n], calls[n], key, times[n + 1]) && key in t[n + 1].store
  }

  /** Call `n - 1` leads from a sound cache to state `n`. */
  ghost predicate Follows<V>(maxEntries: int, t: seq<Mem<V>>, calls: seq<Call<V>>, times: seq<int>, n: nat)
    requires |t| == |times| == |calls| + 1
  {
    && 0 < n < |t| && times[n - 1] <= times[n] && t[n] == Apply(t[n - 1], maxEntries, calls[n - 1], times[n])
    && Consistent(t[n - 1]) && |t[n - 1].order| <= Capacity(maxEntries)
  }

  lemma RunFollows<V>(maxEntries: int, t: seq<Mem<V>>, calls: seq<Call<V>>, times: seq<int>)
    requires CacheRun(maxEntries, t, calls, times)
    ensures forall n :: 0 < n < |t| ==> Follows(maxEntries, t, calls, times, n)
  {
    forall n | 0 < n < |t| ensures Follows(maxEntries, t, calls, times, n) {
      CacheRunIsConsistent(maxEntries, t, calls, times, n - 1);
      assert t[n - 1 + 1] == Apply(t[n - 1], maxEntries, calls[n - 1], times[n - 1 + 1]);
    }
  }

  lemma {:induction false} KeptWhileSpared<V>(
      maxEntries: int, t: seq<Mem<V>>, calls: seq<Call<V>>, times: seq<int>, key: Key, i: nat, j: nat, value: V,
      lifetime: int)
    requires |t| == |times| == |calls| + 1 && i < j < |t|
    requires forall n :: 0 < n < |t| ==> Follows(maxEntries, t, calls, times, n)
    requires Writes(t[i], calls[i], key, value, lifetime, times[i + 1]) && key in t[i + 1].store
    requires forall n :: i < n < j ==> IsSpared(t, calls, times, key, n)
    ensures times[i + 1] <= times[j] && key in t[j].store
    ensures IsKept(t[j].store[key], value, lifetime, times[i + 1], times[j])
    decreases j
  {
    assert Follows(maxEntries, t, calls, times, j);
    if i + 1 == j {
      WriteIsKept(t[i], maxEntries, calls[i], key, value, lifetime, times[i + 1]);
    } else {
      assert IsSpared(t, calls, times, key, j - 1);
      KeptWhileSpared(maxEntries, t, calls, times, key, i, j - 1, value, lifetime);
      KeptOnceMore(maxEntries, t, calls, times, key, j, value, lifetime, times[i + 1]);
    }
  }

  lemma KeptOnceMore<V>(
      maxEntries: int, t: seq<Mem<V>>, calls: seq<Call<V>>, times: seq<int>, key: Key, j: nat, value: V, lifetime: int,
      written: int)
    requires |t| == |times| == |calls| + 1 && 0 < j < |t| && IsSpared(t, calls, times, key, j - 1)
    requires Follows(maxEntries, t, calls, times, j)
    requires key in t[j - 1].store && IsKept(t[j - 1].store[key], value, lifetime, written, times[j - 1])
    ensures times[j - 1] <= times[j] && key in t[j].store
    ensures IsKept(t[j].store[key], value, lifetime, written, times[j])
  {
    OthersLeaveEntry(t[j - 1], maxEntries, calls[j - 1], key, times[j]);
  }

  /**
   In every run a written value is served, through all calls that do not write, invalidate, clear or evict its key,
   until its lifetime is over, and not afterwards.
   */
  lemma ServedForItsLifetime<V>(
      maxEntries: int, t: seq<Mem<V>>, calls: seq<Call<V>>, times: seq<int>, key: Key, i: nat, j: nat, value: V,
      lifetime: int, now: int)
    requires CacheRun(maxEntries, t, calls, times) && i < j < |t| && times[j] <= now
    requires Writes(t[i], calls[i], key, value, lifetime, times[i + 1]) && key in t[i + 1].store
    requires forall n :: i < n < j ==> IsSpared(t, calls, times, key, n)
    ensures LiveValue(t[j], key, now)
         == if lifetime > 0 && now - times[i + 1] > lifetime then None else Some(value)
  {
    RunFollows(maxEntries, t, calls, times);
    KeptWhileSpared(maxEntries, t, calls, times, key, i, j, value, lifetime);
  }

  // ---- What is evicted ----

  /** `a` was inserted before `b`. */
  ghost predicate IsOlder(order: seq<Key>, a: Key, b: Key) {
    exists i, j :: 0 <= i < j < |order| && order[i] == a && order[j] == b
  }

  lemma {:induction false} UnexpiredKeepsOrder<V>(store: map<Key, Entry<V>>, order: seq<Key>, now: int, a: Key, b: Key)
    requires Sorting.Distinct(order) && forall k :: k in order ==> k in store
    ensures a in Unexpired(store, order, now) <==> a in order && !IsExpired(store[a], now)
    ensures IsOlder(order, a, b) && !IsExpired(store[a], now) && !IsExpired(store[b], now) ==>
              IsOlder(Unexpired(store, order, now), a, b)
  {
    if order != [] {
      var n := |order| - 1;
      var (front, last) := (order[..n], order[n]);
      UnexpiredKeepsOrder(store, front, now, a, b);
      var (before, kept) := (Unexpired(store, front, now), Unexpired(store, order, now));
      if IsOlder(order, a, b) && !IsExpired(store[a], now) && !IsExpired(store[b], now) {
        var i, j :| 0 <= i < j < |order| && order[i] == a && order[j] == b;
        assert front[i] == a;
        if j < n {
          assert front[j] == b;
          var k, l :| 0 <= k < l < |before| && before[k] == a && before[l] == b;
          assert kept[k] == a && kept[l] == b;
        } else {
          var k :| 0 <= k < |before| && before[k] == a;
          assert kept[k] == a && kept[|kept| - 1] == b;
        }
      }
    }
  }

  /** What eviction keeps is as it was, and nothing that has expired, unless it did not start. */
  lemma EvictionKeepsUnexpired<V>(m: Mem<V>, maxEntries: int, now: int, a: Key)
    requires Consistent(m) && a in Evicted(m, maxEntries, now).store
    ensures a in m.store && Evicted(m, maxEntries, now).store[a] == m.store[a]
    ensures |m.order| > maxEntries ==> !IsExpired(m.store[a], now)
  {
    UnexpiredKeepsOrder(m.store, m.order, now, a, a);
  }

  /** It starts above the bound, and then takes as few unexpired entries as it has to. */
  lemma EvictionFillsTheBound<V>(m: Mem<V>, maxEntries: int, now: int, a: Key)
    requires Consistent(m) && a in m.store && a !in Evicted(m, maxEntries, now).store && !IsExpired(m.store[a], now)
    ensures |m.order| > maxEntries
    ensures |Evicted(m, maxEntries, now).order| == if maxEntries < 0 then 0 else maxEntries
  {
    UnexpiredKeepsOrder(m.store, m.order, now, a, a);
  }

  /** Whoever is newer than an entry that stays, and has not expired, stays too, and stays newer. */
  lemma EvictionTakesTheOldest<V>(m: Mem<V>, maxEntries: int, now: int, a: Key, b: Key)
    requires Consistent(m) && IsOlder(m.order, a, b)
    requires a in Evicted(m, maxEntries, now).store && !IsExpired(m.store[b], now)
    ensures b in Evicted(m, maxEntries, now).store && IsOlder(Evicted(m, maxEntries, now).order, a, b)
  {
    if |m.order| > maxEntries {
      EvictionKeepsUnexpired(m, maxEntries, now, a);
      UnexpiredIsPart(m.store, m.order, now);
      UnexpiredKeepsOrder(m.store, m.order, now, a, b);
      NewestIsSuffix(Unexpired(m.store, m.order, now), Capacity(maxEntries), a, b);
    }
  }

  lemma NewestIsSuffix(order: seq<Key>, n: nat, a: Key, b: Key)
    requires Sorting.Distinct(order) && IsOlder(order, a, b) && a in Newest(order, n)
    ensures b in Newest(order, n) && IsOlder(Newest(order, n), a, b)
  {
    var newest := Newest(order, n);
    var gone := |order| - |newest|;
    var i, j :| 0 <= i < j < |order| && order[i] == a && order[j] == b;
    var k :| 0 <= k < |newest| && newest[k] == a;
    InNewest(order, n, k);
    assert i == k + gone;
    InNewest(order, n, j - gone);
    assert newest[k] == a && newest[j - gone] == b;
  }

  lemma InNewest(order: seq<Key>, n: nat, k: nat)
    requires k < |Newest(order, n)|
    ensures |Newest(order, n)| <= |order| && Newest(order, n)[k] == order[k + |order| - |Newest(order, n)|]
  {
  }

  /** A key that is written again keeps its place, and a new one comes last. */
  lemma WritesKeepTheOrder<V>(m: Mem<V>, key: Key, value: Option<V>, expiresAt: Option<int>, a: Key, b: Key)
    requires Consistent(m)
    ensures IsOlder(m.order, a, b) ==> IsOlder(Put(m, key, value, expiresAt).order, a, b)
    ensures key !in m.store && a in m.store ==> IsOlder(Put(m, key, value, expiresAt).order, a, key)
    ensures key in m.store ==> Put(m, key, value, expiresAt).order == m.order
  {
    var put := Put(m, key, value, expiresAt);
    if i, j :| 0 <= i < j < |m.order| && m.order[i] == a && m.order[j] == b {
      assert put.order[i] == a && put.order[j] == b;
    }
    if key !in m.store && a in m.store {
      var i :| 0 <= i < |m.order| && m.order[i] == a;
      assert put.order[i] == a && put.order[|m.order|] == key;
    }
  }
}
