/**
 `MemoryCache`, the in-process adapter. Its methods are proved to compute the functions of `Mem`
 below, and those functions to drive every key as its revision register allows.
 */
module MemoryCaches {
  import opened Wrappers
  import opened Registers
  import Sorting

  type Key = string

  /** `value` is absent once the entry only carries its revision. */
  datatype Entry<+V> = Entry(revision: nat, value: Option<V>, expiresAt: Option<int>)

  /** The cache as a value. `order` is the insertion order that a JavaScript `Map` iterates in. */
  datatype Mem<+V> = Mem(store: map<Key, Entry<V>>, order: seq<Key>, last: nat, absent: nat)

  predicate IsExpired<V>(entry: Entry<V>, now: int) {
    entry.expiresAt.Some? && now > entry.expiresAt.value
  }

  function ClearValue<V>(entry: Entry<V>): Entry<V> {
    entry.(value := None, expiresAt := None)
  }

  /** How many keys fit: a negative bound leaves room for none. */
  function Capacity(maxEntries: int): nat {
    if maxEntries < 0 then 0 else maxEntries
  }

  /** `order` lists the stored keys once each, and no token handed out is ahead of the counter. */
  ghost predicate Consistent<V>(m: Mem<V>) {
    && Sorting.Distinct(m.order)
    && (forall k :: k in m.order <==> k in m.store)
    && m.absent <= m.last
    && (forall k :: k in m.store ==> m.store[k].revision <= m.last)
  }

  // ---- What each operation does, as functions of the cache's value ----

  function Unexpired<V>(store: map<Key, Entry<V>>, order: seq<Key>, now: int): (kept: seq<Key>) {
    if order == [] then []
    else
      var rest := Unexpired(store, order[..|order| - 1], now);
      var k := order[|order| - 1];
      if k in store && IsExpired(store[k], now) then rest else rest + [k]
  }

  function Only<V>(store: map<Key, Entry<V>>, order: seq<Key>): map<Key, Entry<V>> {
    map k | k in store && k in order :: store[k]
  }

  /** The cache with only the keys of `order` left. */
  function Keep<V>(m: Mem<V>, order: seq<Key>): Mem<V> {
    m.(store := Only(m.store, order), order := order)
  }

  /** `order` without its first `key`. */
  function Without(order: seq<Key>, key: Key): seq<Key> {
    if order == [] then []
    else if order[0] == key then order[1..]
    else [order[0]] + Without(order[1..], key)
  }

  lemma {:induction false} WithoutMiddle(a: seq<Key>, key: Key, b: seq<Key>)
    requires key !in a
    ensures Without(a + [key] + b, key) == a + b
  {
    if a == [] {
      assert a + [key] + b == [key] + b;
      assert a + b == b;
    } else {
      var rest := a[1..];
      assert (a + [key] + b)[1..] == rest + [key] + b;
      WithoutMiddle(rest, key, b);
      assert a + b == [a[0]] + (rest + b);
    }
  }

  /** The newest `n` of `order`. */
  function Newest(order: seq<Key>, n: nat): seq<Key> {
    if |order| <= n then order else order[|order| - n..]
  }

  /** Over capacity, expired entries go first, then the oldest ones, and every absence is retired. */
  function Evicted<V>(m: Mem<V>, maxEntries: int, now: int): Mem<V> {
    if |m.order| <= maxEntries then m
    else Keep(m, Newest(Unexpired(m.store, m.order, now), Capacity(maxEntries))).(absent := m.last)
  }

  function Put<V>(m: Mem<V>, key: Key, value: Option<V>, expiresAt: Option<int>): Mem<V> {
    m.(store := m.store[key := Entry(m.last + 1, value, expiresAt)],
       order := if key in m.store then m.order else m.order + [key],
       last := m.last + 1)
  }

  function Invalidated<V>(m: Mem<V>, maxEntries: int, key: Key, now: int): Mem<V> {
    var put := Put(m, key, None, None);
    if key in m.store then put else Evicted(put, maxEntries, now)
  }

  /** The expiry of an entry written at `now`. */
  function ExpiryOf(ttl: int, now: int): Option<int> {
    if ttl > 0 then Some(now + ttl) else None
  }

  function Written<V>(m: Mem<V>, maxEntries: int, key: Key, value: V, ttl: int, now: int): Mem<V> {
    Evicted(Put(m, key, Some(value), ExpiryOf(ttl, now)), maxEntries, now)
  }

  function TokenOf<V>(m: Mem<V>, key: Key): nat {
    if key in m.store then m.store[key].revision else m.absent
  }

  function Filled<V>(m: Mem<V>, maxEntries: int, key: Key, observed: nat, value: V, ttl: int, now: int): Mem<V> {
    if TokenOf(m, key) == observed then Written(m, maxEntries, key, value, ttl, now) else m
  }

  function Swept<V>(m: Mem<V>, key: Key, now: int): Mem<V> {
    if key in m.store && m.store[key].value.Some? && IsExpired(m.store[key], now) then
      m.(store := m.store[key := ClearValue(m.store[key])])
    else m
  }

  /** The value a reader would be served. */
  function LiveValue<V>(m: Mem<V>, key: Key, now: int): Option<V> {
    if key in m.store && !IsExpired(m.store[key], now) then m.store[key].value else None
  }

  predicate Outranked<V>(m: Mem<V>, key: Key, value: V, newer: Option<(V, V) -> bool>, now: int) {
    var live := LiveValue(m, key, now);
    live.Some? && newer.Some? && newer.value(live.value, value)
  }

  function Stored<V>(m: Mem<V>, maxEntries: int, key: Key, value: V, ttl: int,
                     newer: Option<(V, V) -> bool>, now: int): Mem<V> {
    if Outranked(m, key, value, newer, now) then m
    else Written(Swept(m, key, now), maxEntries, key, value, ttl, now)
  }

  function Cleared<V>(m: Mem<V>): Mem<V> {
    Mem(map[], [], m.last + 1, m.last + 1)
  }

  // ---- The adapter ----

  datatype State<+V> = Hit(value: V, revision: nat) | Miss(revision: nat) | Stale(revision: nat)

  class MemoryCache<V(==)> {
    var store: map<Key, Entry<V>>
    var order: seq<Key>
    var lastRevision: nat
    var absentRevision: nat
    const defaultTtlMs: int
    const maxEntries: int

    constructor (defaultTtlMs: int, maxEntries: int)
      ensures this.defaultTtlMs == defaultTtlMs && this.maxEntries == maxEntries
      ensures Contents() == Mem(map[], [], 0, 0) && Valid()
    {
      this.defaultTtlMs := defaultTtlMs;
      this.maxEntries := maxEntries;
      store, order, lastRevision, absentRevision := map[], [], 0, 0;
    }

    function Contents(): Mem<V>
      reads this
    {
      Mem(store, order, lastRevision, absentRevision)
    }

    ghost predicate Valid()
      reads this
    {
      Consistent(Contents()) && |order| <= Capacity(maxEntries)
    }

    method NextRevision() returns (revision: nat)
      modifies this`lastRevision
      ensures revision == lastRevision == old(lastRevision) + 1
    {
      lastRevision := lastRevision + 1;
      revision := lastRevision;
    }

    method Evict(now: int)
      requires Consistent(Contents())
      modifies this`store, this`order, this`absentRevision
      ensures Contents() == Evicted(old(Contents()), maxEntries, now)
    {
      if |order| <= maxEntries {
        return;
      }
      absentRevision := lastRevision;
      UnexpiredIsPart(store, order, now);
      DropExpired(now);
      DropOldest();
    }

    /** The first loop of `evict`: the expired entries, in the order of the `Map`. */
    method DropExpired(now: int)
      requires Consistent(Contents())
      modifies this`store, this`order
      ensures Contents() == Keep(old(Contents()), Unexpired(old(store), old(order), now))
    {
      ghost var m := Contents();
      var all := order;
      var i := 0;
      while i < |all|
        invariant 0 <= i <= |all|
        invariant order == Unexpired(m.store, all[..i], now) + all[i..]
        invariant store == Only(m.store, order)
      {
        SweepStep(m, i, now);
        if IsExpired(store[all[i]], now) {
          Remove(all[i]);
        }
        i := i + 1;
      }
      SweepEnd(m, now);
    }

    /** The second loop of `evict`: the oldest entries, until the rest fit. */
    method DropOldest()
      requires Sorting.Distinct(order) && store == Only(store, order)
      modifies this`store, this`order
      ensures Contents() == Keep(old(Contents()), Newest(old(order), Capacity(maxEntries)))
    {
      ghost var m := Contents();
      var all := order;
      var i := 0;
      while i < |all| && |order| > maxEntries
        invariant 0 <= i <= |all|
        invariant order == all[i..]
        invariant store == Only(m.store, order)
        invariant i == 0 || i <= |all| - Capacity(maxEntries)
      {
        DropFirst(m, i);
        Remove(all[i]);
        i := i + 1;
      }
      assert order == Newest(all, Capacity(maxEntries));
    }

    /** Deletes one key of the JavaScript `Map`. */
    method Remove(key: Key)
      modifies this`store, this`order
      ensures store == old(store) - {key} && order == Without(old(order), key)
    {
      store := store - {key};
      order := Without(order, key);
    }

    /** `store.set` of the JavaScript `Map`: a key that is there keeps its place in the order. */
    method Assign(key: Key, entry: Entry<V>)
      modifies this`store, this`order
      ensures store == old(store)[key := entry]
      ensures order == if key in old(store) then old(order) else old(order) + [key]
    {
      if key !in store {
        order := order + [key];
      }
      store := store[key := entry];
    }

    method ReadState(key: Key, now: int) returns (state: State<V>)
      ensures Shown(state) == View(Contents(), key, now)
      ensures state.Stale? <==> key in store && store[key].value.Some? && IsExpired(store[key], now)
    {
      if key !in store {
        return Miss(absentRevision);
      }
      var entry := store[key];
      if entry.value.Some? {
        if IsExpired(entry, now) {
          return Stale(entry.revision);
        }
        return Hit(entry.value.value, entry.revision);
      }
      return Miss(entry.revision);
    }

    method Invalidate(key: Key, now: int) returns (revision: nat)
      requires Valid()
      modifies this
      ensures Contents() == Invalidated(old(Contents()), maxEntries, key, now) && Valid()
      ensures revision == lastRevision
    {
      InvalidatedIsConsistent(Contents(), maxEntries, key, now);
      var present := key in store;
      revision := PutEntry(key, None, None);
      if !present {
        Evict(now);
      }
    }

    /** Stores an entry under the next revision. */
    method PutEntry(key: Key, value: Option<V>, expiresAt: Option<int>) returns (revision: nat)
      modifies this`store, this`order, this`lastRevision
      ensures Contents() == Put(old(Contents()), key, value, expiresAt)
      ensures revision == lastRevision
    {
      revision := NextRevision();
      Assign(key, Entry(revision, value, expiresAt));
    }

    method TryFill(key: Key, observed: nat, value: V, ttl: Option<int>, now: int) returns (committed: bool)
      requires Valid()
      modifies this
      ensures committed <==> observed == TokenOf(old(Contents()), key)
      ensures Contents() == Filled(old(Contents()), maxEntries, key, observed, value, Ttl(ttl), now) && Valid()
      ensures committed && key in store ==> IsServed(Contents(), key, value, ttl, defaultTtlMs, now)
    {
      var current := if key in store then store[key].revision else absentRevision;
      if current != observed {
        return false;
      }
      WriteEntry(key, value, ttl, now);
      if key in store {
        WrittenIsServed(old(Contents()), maxEntries, key, value, ttl, defaultTtlMs, now);
      }
      return true;
    }

    method Set(key: Key, value: V, ttl: Option<int>, newer: Option<(V, V) -> bool>, now: int)
      requires Valid()
      modifies this
      ensures Contents() == Stored(old(Contents()), maxEntries, key, value, Ttl(ttl), newer, now) && Valid()
      ensures
        var live := LiveValue(old(Contents()), key, now);
        if live.Some? && newer.Some? && newer.value(live.value, value) then Contents() == old(Contents())
        else
          && lastRevision == old(lastRevision) + 1
          && (key in store ==> IsServed(Contents(), key, value, ttl, defaultTtlMs, now))
    {
      if key in store && store[key].value.Some? {
        if IsExpired(store[key], now) {
          Assign(key, ClearValue(store[key]));
        } else if newer.Some? && newer.value(store[key].value.value, value) {
          return;
        }
      }
      WriteEntry(key, value, ttl, now);
      if key in store {
        WrittenIsServed(Swept(old(Contents()), key, now), maxEntries, key, value, ttl, defaultTtlMs, now);
      }
    }

    /** A write's lifetime, or the default one. */
    function Ttl(ttl: Option<int>): int {
      if ttl.Some? then ttl.value else defaultTtlMs
    }

    method WriteEntry(key: Key, value: V, ttl: Option<int>, now: int)
      requires Valid()
      modifies this
      ensures Contents() == Written(old(Contents()), maxEntries, key, value, Ttl(ttl), now) && Valid()
    {
      ghost var m := Contents();
      var lifetime := if ttl.Some? then ttl.value else defaultTtlMs;
      EvictedIsConsistent(Put(m, key, Some(value), ExpiryOf(lifetime, now)), maxEntries, now);
      var _ := PutEntry(key, Some(value), if lifetime > 0 then Some(now + lifetime) else None);
      Evict(now);
    }

    method Get(key: Key, now: int) returns (value: Option<V>)
      requires Valid()
      modifies this
      ensures value == LiveValue(old(Contents()), key, now)
      ensures Contents() == Swept(old(Contents()), key, now) && Valid()
      ensures value.None? && key in old(store) && old(store)[key].value.Some? ==>
        store == old(store)[key := Entry(old(store)[key].revision, None, None)]
    {
      if key !in store || store[key].value == None {
        return None;
      }
      if IsExpired(store[key], now) {
        Assign(key, ClearValue(store[key]));
        return None;
      }
      return store[key].value;
    }

    method Delete(key: Key, now: int)
      requires Valid()
      modifies this
      ensures Contents() == Invalidated(old(Contents()), maxEntries, key, now) && Valid()
    {
      var _ := Invalidate(key, now);
    }

    method Clear()
      requires Valid()
      modifies this
      ensures Contents() == Cleared(old(Contents())) && Valid()
    {
      absentRevision := NextRevision();
      store, order := map[], [];
    }

    method Size() returns (size: nat)
      requires Valid()
      ensures size == |store.Keys| == |order| <= Capacity(maxEntries)
    {
      DistinctSize(order, store.Keys);
      size := |store|;
    }
  }

  lemma {:induction false} DistinctSize(order: seq<Key>, keys: set<Key>)
    requires Sorting.Distinct(order) && forall k :: k in order <==> k in keys
    ensures |keys| == |order|
  {
    if order == [] {
      assert keys == {};
    } else {
      var (front, last) := (order[..|order| - 1], order[|order| - 1]);
      assert order == front + [last] && last !in front;
      DistinctSize(front, keys - {last});
    }
  }

  lemma {:induction false} UnexpiredIsPart<V>(store: map<Key, Entry<V>>, order: seq<Key>, now: int)
    requires Sorting.Distinct(order)
    ensures Sorting.Distinct(Unexpired(store, order, now))
    ensures forall k :: k in Unexpired(store, order, now) ==> k in order
  {
    if order != [] {
      UnexpiredIsPart(store, order[..|order| - 1], now);
      assert order[|order| - 1] !in order[..|order| - 1];
    }
  }

  /** Deleting `key` from the kept keys keeps the others. */
  lemma DeleteKeeps<V>(m: Mem<V>, a: seq<Key>, key: Key, b: seq<Key>)
    requires key !in a && key !in b
    ensures Without(a + [key] + b, key) == a + b
    ensures Only(m.store, a + b) == Only(m.store, a + [key] + b) - {key}
  {
    WithoutMiddle(a, key, b);
  }

  /** One round of the second loop. */
  lemma DropFirst<V>(m: Mem<V>, i: nat)
    requires Sorting.Distinct(m.order) && i < |m.order|
    ensures Without(m.order[i..], m.order[i]) == m.order[i + 1..]
    ensures Only(m.store, m.order[i + 1..]) == Only(m.store, m.order[i..]) - {m.order[i]}
  {
    var (key, rest) := (m.order[i], m.order[i + 1..]);
    assert m.order[i..] == [] + [key] + rest && [] + rest == rest;
    DeleteKeeps(m, [], key, rest);
  }

  lemma SweepEnd<V>(m: Mem<V>, now: int)
    ensures Unexpired(m.store, m.order[..|m.order|], now) + m.order[|m.order|..] == Unexpired(m.store, m.order, now)
  {
    assert m.order[..|m.order|] == m.order;
  }

  lemma RestFrom<T>(front: seq<T>, all: seq<T>, i: nat)
    requires i < |all|
    ensures front + all[i..] == front + [all[i]] + all[i + 1..]
  {
  }

  /** One round of the first loop. */
  lemma SweepStep<V>(m: Mem<V>, i: nat, now: int)
    requires Consistent(m) && i < |m.order|
    ensures
      var key := m.order[i];
      var before := Unexpired(m.store, m.order[..i], now) + m.order[i..];
      var after := Unexpired(m.store, m.order[..i + 1], now) + m.order[i + 1..];
      && key in Only(m.store, before) && Only(m.store, before)[key] == m.store[key]
      && (if IsExpired(m.store[key], now) then
            after == Without(before, key) && Only(m.store, after) == Only(m.store, before) - {key}
          else
            after == before)
  {
    var all := m.order;
    var kept := Unexpired(m.store, all[..i], now);
    UnexpiredIsPart(m.store, all[..i], now);
    assert all[..i + 1][..i] == all[..i];
    RestFrom(kept, all, i);
    DeleteKeeps(m, kept, all[i], all[i + 1..]);
  }

  // ---- Every operation keeps the cache consistent and within its bound ----

  lemma EvictedIsConsistent<V>(m: Mem<V>, maxEntries: int, now: int)
    requires Consistent(m)
    ensures Consistent(Evicted(m, maxEntries, now))
    ensures |Evicted(m, maxEntries, now).order| <= Capacity(maxEntries)
  {
    UnexpiredIsPart(m.store, m.order, now);
  }

  lemma WrittenIsConsistent<V>(m: Mem<V>, maxEntries: int, key: Key, value: V, ttl: int, now: int)
    requires Consistent(m)
    ensures Consistent(Written(m, maxEntries, key, value, ttl, now))
    ensures |Written(m, maxEntries, key, value, ttl, now).order| <= Capacity(maxEntries)
  {
    EvictedIsConsistent(Put(m, key, Some(value), ExpiryOf(ttl, now)), maxEntries, now);
  }

  lemma InvalidatedIsConsistent<V>(m: Mem<V>, maxEntries: int, key: Key, now: int)
    requires Consistent(m) && |m.order| <= Capacity(maxEntries)
    ensures Consistent(Invalidated(m, maxEntries, key, now))
    ensures |Invalidated(m, maxEntries, key, now).order| <= Capacity(maxEntries)
  {
    EvictedIsConsistent(Put(m, key, None, None), maxEntries, now);
  }

  // ---- How long a value is served ----

  function Lifetime(ttl: Option<int>, defaultTtlMs: int): int {
    match ttl
    case Some(ms) => ms
    case None => defaultTtlMs
  }

  /** From `written` on `value` is served, until its lifetime is over if that is positive; the cache has a default. */
  ghost predicate IsServed<V>(m: Mem<V>, key: Key, value: V, ttl: Option<int>, defaultTtlMs: int, written: int) {
    var lifetime := Lifetime(ttl, defaultTtlMs);
    forall now :: written <= now ==>
      LiveValue(m, key, now) == if lifetime > 0 && now - written > lifetime then None else Some(value)
  }

  lemma WrittenIsServed<V>(m: Mem<V>, maxEntries: int, key: Key, value: V, ttl: Option<int>, defaultTtlMs: int,
                           written: int)
    requires Consistent(m)
    requires key in Written(m, maxEntries, key, value, Lifetime(ttl, defaultTtlMs), written).store
    ensures IsServed(Written(m, maxEntries, key, value, Lifetime(ttl, defaultTtlMs), written), key, value, ttl,
                     defaultTtlMs, written)
  {
    EvictedView(Put(m, key, Some(value), ExpiryOf(Lifetime(ttl, defaultTtlMs), written)), maxEntries, key, written);
  }

  // ---- Refinement of the revision register ----

  /** What one key shows to its clients at one moment. */
  function View<V>(m: Mem<V>, key: Key, now: int): Register<V> {
    Register(TokenOf(m, key), LiveValue(m, key, now))
  }

  function Shown<V>(state: State<V>): Register<V> {
    match state
    case Hit(value, revision) => Register(revision, Some(value))
    case Miss(revision) => Register(revision, None)
    case Stale(revision) => Register(revision, None)
  }

  datatype Call<!V> =
    | ReadCall(key: Key)
    | InvalidateCall(key: Key)
    | FillCall(key: Key, observed: nat, value: V, ttl: int)
    | SetCall(key: Key, value: V, ttl: int, newer: Option<(V, V) -> bool>)
    | GetCall(key: Key)
    | ClearCall

  function Apply<V>(m: Mem<V>, maxEntries: int, call: Call<V>, now: int): Mem<V> {
    match call
    case ReadCall(_) => m
    case InvalidateCall(key) => Invalidated(m, maxEntries, key, now)
    case FillCall(key, observed, value, ttl) => Filled(m, maxEntries, key, observed, value, ttl, now)
    case SetCall(key, value, ttl, newer) => Stored(m, maxEntries, key, value, ttl, newer, now)
    case GetCall(key) => Swept(m, key, now)
    case ClearCall => Cleared(m)
  }

  /** What a call means for `key`; a call on another key may still evict it. */
  function OpOn<V>(m: Mem<V>, maxEntries: int, call: Call<V>, key: Key, now: int): Op<V> {
    match call
    case InvalidateCall(k) => if k == key then Forget else Aside(m, Apply(m, maxEntries, call, now), key)
    case FillCall(k, observed, value, _) =>
      if k == key then Fill(observed, value) else Aside(m, Apply(m, maxEntries, call, now), key)
    case SetCall(k, value, _, newer) =>
      if k != key then Aside(m, Apply(m, maxEntries, call, now), key)
      else if Outranked(m, key, value, newer, now) then Idle
      else Write(value)
    case ClearCall => Forget
    case _ => Idle
  }

  /** A key that another key's call evicts gets a new token. */
  function Aside<V>(m: Mem<V>, m': Mem<V>, key: Key): Op<V> {
    if TokenOf(m', key) == TokenOf(m, key) then Idle else Forget
  }

  /** Eviction leaves a key alone or forgets it under a token as high as the counter. */
  lemma EvictedView<V>(m: Mem<V>, maxEntries: int, key: Key, now: int)
    requires Consistent(m)
    ensures
      var m' := Evicted(m, maxEntries, now);
      && m'.last == m.last
      && (if key in m'.store then key in m.store && m'.store[key] == m.store[key]
          else TokenOf(m', key) == m.last || (m' == m && key !in m.store))
  {
    UnexpiredIsPart(m.store, m.order, now);
  }

  lemma InvalidateActs<V>(m: Mem<V>, maxEntries: int, k: Key, key: Key, now: int)
    requires Consistent(m) && |m.order| <= Capacity(maxEntries)
    ensures
      var m' := Invalidated(m, maxEntries, k, now);
      Act(View(m, key, now), if k == key then Forget else Aside(m, m', key), View(m', key, now))
  {
    EvictedView(Put(m, k, None, None), maxEntries, key, now);
  }

  lemma WriteActs<V>(m: Mem<V>, maxEntries: int, k: Key, value: V, ttl: int, key: Key, now: int)
    requires Consistent(m) && |m.order| <= Capacity(maxEntries)
    ensures
      var m' := Written(m, maxEntries, k, value, ttl, now);
      Act(View(m, key, now), if k == key then Write(value) else Aside(m, m', key), View(m', key, now))
  {
    EvictedView(Put(m, k, Some(value), ExpiryOf(ttl, now)), maxEntries, key, now);
  }

  lemma FilledIsConsistent<V>(m: Mem<V>, maxEntries: int, k: Key, observed: nat, value: V, ttl: int, now: int)
    requires Consistent(m) && |m.order| <= Capacity(maxEntries)
    ensures Consistent(Filled(m, maxEntries, k, observed, value, ttl, now))
    ensures |Filled(m, maxEntries, k, observed, value, ttl, now).order| <= Capacity(maxEntries)
  {
    WrittenIsConsistent(m, maxEntries, k, value, ttl, now);
  }

  lemma StoredIsConsistent<V>(m: Mem<V>, maxEntries: int, k: Key, value: V, ttl: int,
                              newer: Option<(V, V) -> bool>, now: int)
    requires Consistent(m) && |m.order| <= Capacity(maxEntries)
    ensures Consistent(Stored(m, maxEntries, k, value, ttl, newer, now))
    ensures |Stored(m, maxEntries, k, value, ttl, newer, now).order| <= Capacity(maxEntries)
  {
    WrittenIsConsistent(Swept(m, k, now), maxEntries, k, value, ttl, now);
  }

  lemma CallKeepsConsistent<V>(m: Mem<V>, maxEntries: int, call: Call<V>, now: int)
    requires Consistent(m) && |m.order| <= Capacity(maxEntries)
    ensures Consistent(Apply(m, maxEntries, call, now))
    ensures |Apply(m, maxEntries, call, now).order| <= Capacity(maxEntries)
  {
    match call
    case InvalidateCall(k) => InvalidatedIsConsistent(m, maxEntries, k, now);
    case FillCall(k, observed, value, ttl) => FilledIsConsistent(m, maxEntries, k, observed, value, ttl, now);
    case SetCall(k, value, ttl, newer) => StoredIsConsistent(m, maxEntries, k, value, ttl, newer, now);
    case _ =>
  }

  lemma StoreActs<V>(m: Mem<V>, maxEntries: int, k: Key, value: V, ttl: int, newer: Option<(V, V) -> bool>,
                     key: Key, now: int)
    requires Consistent(m) && |m.order| <= Capacity(maxEntries)
    ensures
      var m' := Stored(m, maxEntries, k, value, ttl, newer, now);
      var op := if k != key then Aside(m, m', key) else if Outranked(m, key, value, newer, now) then Idle else Write(value);
      Act(View(m, key, now), op, View(m', key, now))
  {
    if !Outranked(m, k, value, newer, now) {
      SweepIsUnseen(m, k, key, now);
      WriteActs(Swept(m, k, now), maxEntries, k, value, ttl, key, now);
    }
  }

  /** Dropping an expired value changes nothing that can be seen. */
  lemma SweepIsUnseen<V>(m: Mem<V>, k: Key, key: Key, now: int)
    ensures View(Swept(m, k, now), key, now) == View(m, key, now)
    ensures key in Swept(m, k, now).store <==> key in m.store
  {
  }

  lemma FillActs<V>(m: Mem<V>, maxEntries: int, k: Key, observed: nat, value: V, ttl: int, key: Key, now: int)
    requires Consistent(m) && |m.order| <= Capacity(maxEntries)
    ensures
      var m' := Filled(m, maxEntries, k, observed, value, ttl, now);
      Act(View(m, key, now), if k == key then Fill(observed, value) else Aside(m, m', key), View(m', key, now))
  {
    WriteActs(m, maxEntries, k, value, ttl, key, now);
  }

  /** Every call drives every key as the register allows. */
  lemma CallActs<V>(m: Mem<V>, maxEntries: int, call: Call<V>, key: Key, now: int)
    requires Consistent(m) && |m.order| <= Capacity(maxEntries)
    ensures
      Act(View(m, key, now), OpOn(m, maxEntries, call, key, now), View(Apply(m, maxEntries, call, now), key, now))
  {
    match call
    case ReadCall(_) =>
    case InvalidateCall(k) => InvalidateActs(m, maxEntries, k, key, now);
    case FillCall(k, observed, value, ttl) => FillActs(m, maxEntries, k, observed, value, ttl, key, now);
    case SetCall(k, value, ttl, newer) => StoreActs(m, maxEntries, k, value, ttl, newer, key, now);
    case GetCall(k) => SweepIsUnseen(m, k, key, now);
    case ClearCall =>
  }

  /**
   A run of the cache: `t[i]` is the cache at `times[i]`, and `calls[i]` runs at `times[i + 1]`.
   */
  ghost predicate CacheRun<V>(maxEntries: int, t: seq<Mem<V>>, calls: seq<Call<V>>, times: seq<int>) {
    && |t| == |times| == |calls| + 1
    && Consistent(t[0]) && |t[0].order| <= Capacity(maxEntries)
    && forall i :: 0 <= i < |calls| ==>
         times[i] <= times[i + 1] && t[i + 1] == Apply(t[i], maxEntries, calls[i], times[i + 1])
  }

  function Views<V>(t: seq<Mem<V>>, times: seq<int>, key: Key): seq<Register<V>>
    requires |t| == |times|
  {
    seq(|t|, i requires 0 <= i < |t| => View(t[i], key, times[i]))
  }

  function Ops<V>(maxEntries: int, t: seq<Mem<V>>, calls: seq<Call<V>>, times: seq<int>, key: Key): seq<Op<V>>
    requires |t| == |times| == |calls| + 1
  {
    seq(|calls|, i requires 0 <= i < |calls| => OpOn(t[i], maxEntries, calls[i], key, times[i + 1]))
  }

  lemma {:induction false} CacheRunIsConsistent<V>(
      maxEntries: int, t: seq<Mem<V>>, calls: seq<Call<V>>, times: seq<int>, i: nat)
    requires CacheRun(maxEntries, t, calls, times) && i < |t|
    ensures Consistent(t[i]) && |t[i].order| <= Capacity(maxEntries)
  {
    if i > 0 {
      CacheRunIsConsistent(maxEntries, t, calls, times, i - 1);
      CallKeepsConsistent(t[i - 1], maxEntries, calls[i - 1], times[i - 1 + 1]);
    }
  }

  /**
   In every sequence of calls, with eviction and expiry, each key goes through a run of its register;
   so what is proved of registers holds of this cache; `CacheClients` carries the decorators over.
   */
  lemma CacheRefinesRegister<V>(
      maxEntries: int, t: seq<Mem<V>>, calls: seq<Call<V>>, times: seq<int>, key: Key)
    requires CacheRun(maxEntries, t, calls, times)
    ensures Run(Views(t, times, key), Ops(maxEntries, t, calls, times, key))
  {
    var (rs, ops) := (Views(t, times, key), Ops(maxEntries, t, calls, times, key));
    forall i | 0 <= i < |ops|
      ensures Step(rs[i], ops[i], rs[i + 1])
    {
      CacheRunIsConsistent(maxEntries, t, calls, times, i);
      CallActs(t[i], maxEntries, calls[i], key, times[i + 1]);
      var later := View(t[i], key, times[i + 1]);
      assert later == rs[i] || later == Expired(rs[i]);
    }
  }

  lemma {:induction false} SameTokenSamePresence<V>(
      maxEntries: int, t: seq<Mem<V>>, calls: seq<Call<V>>, times: seq<int>, key: Key, i: nat, j: nat)
    requires CacheRun(maxEntries, t, calls, times) && i <= j < |t|
    requires forall n :: i <= n <= j ==> TokenOf(t[n], key) == TokenOf(t[i], key)
    ensures key in t[i].store <==> key in t[j].store
    decreases j
  {
    if i < j {
      SameTokenSamePresence(maxEntries, t, calls, times, key, i, j - 1);
      assert TokenOf(t[j - 1], key) == TokenOf(t[i], key) == TokenOf(t[j], key);
      SameTokenOnceMore(maxEntries, t, calls, times, key, j);
    }
  }

  lemma SameTokenOnceMore<V>(
      maxEntries: int, t: seq<Mem<V>>, calls: seq<Call<V>>, times: seq<int>, key: Key, j: nat)
    requires CacheRun(maxEntries, t, calls, times) && 0 < j < |t|
    requires TokenOf(t[j], key) == TokenOf(t[j - 1], key)
    ensures key in t[j - 1].store <==> key in t[j].store
  {
    CacheRunIsConsistent(maxEntries, t, calls, times, j - 1);
    assert t[j - 1 + 1] == Apply(t[j - 1], maxEntries, calls[j - 1], times[j - 1 + 1]);
    PresenceChangesToken(t[j - 1], maxEntries, calls[j - 1], key, times[j]);
  }

  lemma SameTokenSameValue<V>(
      maxEntries: int, t: seq<Mem<V>>, calls: seq<Call<V>>, times: seq<int>, key: Key, i: nat, j: nat)
    requires CacheRun(maxEntries, t, calls, times) && i <= j < |t|
    ensures TokenOf(t[i], key) <= TokenOf(t[j], key)
    ensures TokenOf(t[i], key) == TokenOf(t[j], key) ==>
      LiveValue(t[j], key, times[j]) == LiveValue(t[i], key, times[i]) || LiveValue(t[j], key, times[j]) == None
  {
    CacheRefinesRegister(maxEntries, t, calls, times, key);
    var (rs, ops) := (Views(t, times, key), Ops(maxEntries, t, calls, times, key));
    NoAba(rs, ops, i, j);
    assert rs[i] == View(t[i], key, times[i]) && rs[j] == View(t[j], key, times[j]);
  }

  lemma SameTokenUnchanged<V>(
      maxEntries: int, t: seq<Mem<V>>, calls: seq<Call<V>>, times: seq<int>, key: Key, i: nat, n: nat, j: nat)
    requires CacheRun(maxEntries, t, calls, times) && i <= n < j < |t|
    requires TokenOf(t[i], key) == TokenOf(t[j], key)
    ensures TokenOf(t[n], key) == TokenOf(t[i], key)
    ensures !Changes(t[n], calls[n], key, times[n + 1])
  {
    SameTokenSameValue(maxEntries, t, calls, times, key, i, n);
    SameTokenSameValue(maxEntries, t, calls, times, key, n, n + 1);
    SameTokenSameValue(maxEntries, t, calls, times, key, n + 1, j);
    CacheRunIsConsistent(maxEntries, t, calls, times, n);
    CallActs(t[n], maxEntries, calls[n], key, times[n + 1]);
  }

  /**
   No ABA: over any stretch of any run the token of a key never goes down, and it is still the same
   only if the key was not written, invalidated, cleared or evicted in between; then the key still
   serves what it served before, or its value has expired.
   */
  lemma CacheHasNoAba<V>(
      maxEntries: int, t: seq<Mem<V>>, calls: seq<Call<V>>, times: seq<int>, key: Key, i: nat, j: nat)
    requires CacheRun(maxEntries, t, calls, times) && i <= j < |t|
    ensures TokenOf(t[i], key) <= TokenOf(t[j], key)
    ensures TokenOf(t[i], key) == TokenOf(t[j], key) ==>
      && (LiveValue(t[j], key, times[j]) == LiveValue(t[i], key, times[i]) || LiveValue(t[j], key, times[j]) == None)
      && (key in t[i].store <==> key in t[j].store)
      && (forall n :: i <= n < j ==> !Changes(t[n], calls[n], key, times[n + 1]))
  {
    SameTokenSameValue(maxEntries, t, calls, times, key, i, j);
    if TokenOf(t[i], key) == TokenOf(t[j], key) {
      forall n | i <= n < j
        ensures !Changes(t[n], calls[n], key, times[n + 1]) && TokenOf(t[n], key) == TokenOf(t[i], key)
      {
        SameTokenUnchanged(maxEntries, t, calls, times, key, i, n, j);
      }
      SameTokenSamePresence(maxEntries, t, calls, times, key, i, j);
    }
  }

  /** The calls that write, invalidate or clear `key`, read off the call alone. */
  predicate Changes<V>(m: Mem<V>, call: Call<V>, key: Key, now: int) {
    match call
    case InvalidateCall(k) => k == key
    case FillCall(k, observed, _, _) => k == key && observed == TokenOf(m, key)
    case SetCall(k, value, _, newer) => k == key && !Outranked(m, key, value, newer, now)
    case ClearCall => true
    case _ => false
  }

  lemma PuttingChangesToken<V>(m: Mem<V>, maxEntries: int, k: Key, value: Option<V>, expiresAt: Option<int>,
                               key: Key, now: int)
    requires Consistent(m)
    requires TokenOf(Evicted(Put(m, k, value, expiresAt), maxEntries, now), key) == TokenOf(m, key)
    ensures key in m.store <==> key in Evicted(Put(m, k, value, expiresAt), maxEntries, now).store
  {
    EvictedView(Put(m, k, value, expiresAt), maxEntries, key, now);
  }

  /** A key that enters or leaves the cache gets a new token. */
  lemma PresenceChangesToken<V>(m: Mem<V>, maxEntries: int, call: Call<V>, key: Key, now: int)
    requires Consistent(m) && |m.order| <= Capacity(maxEntries)
    requires TokenOf(Apply(m, maxEntries, call, now), key) == TokenOf(m, key)
    ensures key in m.store <==> key in Apply(m, maxEntries, call, now).store
  {
    match call
    case ReadCall(_) =>
    case InvalidateCall(k) =>
      if k !in m.store {
        PuttingChangesToken(m, maxEntries, k, None, None, key, now);
      }
    case FillCall(k, observed, value, ttl) =>
      if TokenOf(m, k) == observed {
        PuttingChangesToken(m, maxEntries, k, Some(value), ExpiryOf(ttl, now), key, now);
      }
    case SetCall(k, value, ttl, newer) =>
      if !Outranked(m, k, value, newer, now) {
        SweepIsUnseen(m, k, key, now);
        PuttingChangesToken(Swept(m, k, now), maxEntries, k, Some(value), ExpiryOf(ttl, now), key, now);
      }
    case GetCall(k) =>
    case ClearCall =>
  }
}
