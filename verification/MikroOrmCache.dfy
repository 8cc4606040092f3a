/**
 `MikroOrmCache`, the adapter over one table row per key. Each operation runs in its own serialisable
 transaction, so nothing else touches the row between its statements.
 */
module MikroOrmCaches {
  import opened Wrappers
  import opened Registers

  type Key = string

  /**
   One row of the cache table. An invalidation leaves the empty string, which no snapshot is serialised to;
   here that is no value.
   */
  datatype Row<+V> = Row(value: Option<V>, expiresAt: Option<int>, revision: nat)

  type Table<+V> = map<Key, Row<V>>

  datatype State<+V> = Hit(value: V, revision: nat) | Miss(revision: nat) | Stale(revision: nat)

  datatype CasError = CasExhausted(operation: string, key: Key)

  const MAX_CAS_ATTEMPTS: nat := 16

  function TokenOf<V>(table: Table<V>, key: Key): nat {
    if key in table then table[key].revision else 0
  }

  predicate HasLapsed<V>(row: Row<V>, now: int) {
    row.expiresAt.Some? && row.expiresAt.value < now
  }

  function LiveValue<V>(table: Table<V>, key: Key, now: int): Option<V> {
    if key in table && table[key].value.Some? && !HasLapsed(table[key], now) then table[key].value
    else None
  }

  function View<V>(table: Table<V>, key: Key, now: int): Register<V> {
    Register(TokenOf(table, key), LiveValue(table, key, now))
  }

  function Shown<V>(state: State<V>): Register<V> {
    match state
    case Hit(value, revision) => Register(revision, Some(value))
    case Miss(revision) => Register(revision, None)
    case Stale(revision) => Register(revision, None)
  }

  /** The stale-write guard stops a write: a live value is there and it is newer. */
  predicate Outranked<V>(table: Table<V>, key: Key, value: V, newer: Option<(V, V) -> bool>, now: int) {
    var live := LiveValue(table, key, now);
    live.Some? && newer.Some? && newer.value(live.value, value)
  }

  // ---- What each operation does, as functions of the table ----

  function Invalidated<V>(table: Table<V>, key: Key): Table<V> {
    table[key := Row(None, None, TokenOf(table, key) + 1)]
  }

  function Filled<V>(table: Table<V>, key: Key, observed: nat, value: V, expiresAt: Option<int>): Table<V> {
    if observed == TokenOf(table, key) then table[key := Row(Some(value), expiresAt, observed + 1)] else table
  }

  /**
   A write adds one to the revision of a row that is there. A new row is inserted at revision 1 and then
   written again, unless the guard finds the value newer than itself.
   */
  function Stored<V>(table: Table<V>, key: Key, value: V, expiresAt: Option<int>,
                  newer: Option<(V, V) -> bool>, now: int): Table<V> {
    if Outranked(table, key, value, newer, now) then table
    else if key in table then table[key := Row(Some(value), expiresAt, table[key].revision + 1)]
    else if newer.Some? && newer.value(value, value) then table[key := Row(Some(value), expiresAt, 1)]
    else table[key := Row(Some(value), expiresAt, 2)]
  }

  class MikroOrmCache<V(==)> {
    var table: Table<V>
    const defaultTtlMs: int

    constructor (defaultTtlMs: int)
      ensures table == map[] && this.defaultTtlMs == defaultTtlMs
    {
      table, this.defaultTtlMs := map[], defaultTtlMs;
    }

    function ExpiryOf(ttl: Option<int>, now: int): Option<int> {
      var lifetime := if ttl.Some? then ttl.value else defaultTtlMs;
      if lifetime > 0 then Some(now + lifetime) else None
    }

    // ---- The statements ----

    method FindOne(key: Key) returns (row: Option<Row<V>>)
      ensures row == if key in table then Some(table[key]) else None
    {
      row := if key in table then Some(table[key]) else None;
    }

    /** Inserts the row; a row that is already there wins. */
    method UpsertIgnoring(key: Key, row: Row<V>)
      modifies this`table
      ensures table == if key in old(table) then old(table) else old(table)[key := row]
    {
      if key !in table {
        table := table[key := row];
      }
    }

    /** Updates the row if it still has the revision, and says how many rows that was. */
    method NativeUpdate(key: Key, revision: nat, row: Row<V>) returns (affected: nat)
      modifies this`table
      ensures affected == if key in old(table) && old(table)[key].revision == revision then 1 else 0
      ensures table == if affected == 0 then old(table) else old(table)[key := row]
    {
      if key in table && table[key].revision == revision {
        table := table[key := row];
        return 1;
      }
      return 0;
    }

    // ---- The operations ----

    method ReadState(key: Key, now: int) returns (state: State<V>)
      ensures Shown(state) == View(table, key, now)
      ensures state.Stale? <==> key in table && table[key].value.Some? && HasLapsed(table[key], now)
    {
      var entry := FindOne(key);
      if entry == None {
        return Miss(0);
      }
      var revision := entry.value.revision;
      if entry.value.value == None {
        return Miss(revision);
      }
      if entry.value.expiresAt.Some? && entry.value.expiresAt.value < now {
        return Stale(revision);
      }
      return Hit(entry.value.value.value, revision);
    }

    /** The loop never runs out: in its own transaction the first round settles the key. */
    method Invalidate(key: Key) returns (revision: Result<nat, CasError>)
      modifies this`table
      ensures revision == Ok(TokenOf(old(table), key) + 1)
      ensures table == Invalidated(old(table), key)
    {
      for attempt := 0 to MAX_CAS_ATTEMPTS
        invariant attempt == 0 && table == old(table)
      {
        var existing := FindOne(key);
        if existing == None {
          UpsertIgnoring(key, Row(None, None, 1));
          var inserted := FindOne(key);
          if inserted.Some? && inserted.value.revision == 1 {
            return Ok(1);
          }
        } else {
          var nextRevision := existing.value.revision + 1;
          var affected := NativeUpdate(key, existing.value.revision, Row(None, None, nextRevision));
          if affected > 0 {
            return Ok(nextRevision);
          }
        }
      }
      return Err(CasExhausted("invalidate", key));
    }

    method TryFill(key: Key, observed: nat, value: V, ttl: Option<int>, now: int) returns (committed: bool)
      modifies this`table
      ensures committed <==> observed == TokenOf(old(table), key)
      ensures table == Filled(old(table), key, observed, value, ExpiryOf(ttl, now))
      ensures committed ==> IsServed(table, key, value, ttl, defaultTtlMs, now)
    {
      var expiresAt := ExpiryOf(ttl, now);
      var nextRevision := observed + 1;
      if observed == 0 {
        var existing := FindOne(key);
        if existing == None {
          UpsertIgnoring(key, Row(Some(value), expiresAt, 1));
          var inserted := FindOne(key);
          return inserted.Some? && inserted.value.value == Some(value);
        }
        if existing.value.revision == 0 {
          var affected := NativeUpdate(key, existing.value.revision, Row(Some(value), expiresAt, 1));
          return affected > 0;
        }
        return false;
      }
      var affected := NativeUpdate(key, observed, Row(Some(value), expiresAt, nextRevision));
      return affected > 0;
    }

    method Get(key: Key, now: int) returns (value: Option<V>)
      ensures value == LiveValue(table, key, now)
    {
      var state := ReadState(key, now);
      value := if state.Hit? then Some(state.value) else None;
    }

    /**
     Inserting takes two rounds: the first inserts the row and goes round again, and the second
     compares the value with itself and, unless that is "newer", writes it once more.
     */
    method Set(key: Key, value: V, ttl: Option<int>, newer: Option<(V, V) -> bool>, now: int)
      returns (outcome: Result<(), CasError>)
      modifies this`table
      ensures outcome == Ok(())
      ensures table == Stored(old(table), key, value, ExpiryOf(ttl, now), newer, now)
      ensures
        var live := LiveValue(old(table), key, now);
        if live.Some? && newer.Some? && newer.value(live.value, value) then table == old(table)
        else IsServed(table, key, value, ttl, defaultTtlMs, now)
    {
      var expiresAt := ExpiryOf(ttl, now);
      for attempt := 0 to MAX_CAS_ATTEMPTS
        invariant attempt == 0 || attempt == 1
        invariant attempt == 0 ==> table == old(table)
        invariant attempt == 1 ==> key !in old(table) && table == old(table)[key := Row(Some(value), expiresAt, 1)]
      {
        var existing := FindOne(key);
        if existing == None {
          UpsertIgnoring(key, Row(Some(value), expiresAt, 1));
        } else {
          var row := existing.value;
          if newer.Some? && row.value.Some? {
            if row.expiresAt == None || row.expiresAt.value >= now {
              if newer.value(row.value.value, value) {
                return Ok(());
              }
            }
          }
          var affected := NativeUpdate(key, row.revision, Row(Some(value), expiresAt, row.revision + 1));
          if affected > 0 {
            return Ok(());
          }
        }
      }
      return Err(CasExhausted("set", key));
    }

    method Delete(key: Key) returns (outcome: Result<nat, CasError>)
      modifies this`table
      ensures outcome.Ok?
      ensures table == Invalidated(old(table), key)
    {
      outcome := Invalidate(key);
    }
  }

  // ---- How long a value is served ----

  /** From `written` on `value` is served, until its lifetime is over if that is positive; the cache has a default. */
  ghost predicate IsServed<V>(table: Table<V>, key: Key, value: V, ttl: Option<int>, defaultTtlMs: int, written: int) {
    var lifetime := match ttl case Some(ms) => ms case None => defaultTtlMs;
    forall now :: written <= now ==>
      LiveValue(table, key, now) == if lifetime > 0 && now - written > lifetime then None else Some(value)
  }

  // ---- Refinement of the revision register ----

  /** The serialised form of each call; an expiry lies after the moment of the write. */
  datatype Call<!V> =
    | ReadCall(key: Key)
    | InvalidateCall(key: Key)
    | FillCall(key: Key, observed: nat, value: V, expiresAt: Option<int>)
    | SetCall(key: Key, value: V, expiresAt: Option<int>, newer: Option<(V, V) -> bool>)

  function Apply<V>(table: Table<V>, call: Call<V>, now: int): Table<V> {
    match call
    case ReadCall(_) => table
    case InvalidateCall(key) => Invalidated(table, key)
    case FillCall(key, observed, value, expiresAt) => Filled(table, key, observed, value, expiresAt)
    case SetCall(key, value, expiresAt, newer) => Stored(table, key, value, expiresAt, newer, now)
  }

  function OpOn<V>(table: Table<V>, call: Call<V>, key: Key, now: int): Op<V> {
    match call
    case ReadCall(_) => Idle
    case InvalidateCall(k) => if k == key then Forget else Idle
    case FillCall(k, observed, value, _) => if k == key then Fill(observed, value) else Idle
    case SetCall(k, value, _, newer) =>
      if k == key && !Outranked(table, key, value, newer, now) then Write(value) else Idle
  }

  /** Every call drives every key as the register allows; other keys are never disturbed. */
  lemma CallActs<V>(table: Table<V>, call: Call<V>, key: Key, now: int)
    ensures Act(View(table, key, now), OpOn(table, call, key, now), View(Apply(table, call, now), key, now))
    ensures key != call.key ==> View(Apply(table, call, now), key, now) == View(table, key, now)
  {
  }

  /**
   One compare-and-set statement on a row that is there, in any interleaving with other statements:
   it is the moment at which the invalidation, write or fill it belongs to takes effect.
   */
  lemma UpdateActs<V>(table: Table<V>, key: Key, revision: nat, value: Option<V>, expiresAt: Option<int>, now: int)
    requires key in table && table[key].revision == revision
    ensures
      var table' := table[key := Row(value, expiresAt, revision + 1)];
      var (before, after) := (View(table, key, now), View(table', key, now));
      && (value == None ==> Act(before, Forget, after))
      && (value.Some? ==> Act(before, Write(value.value), after) && Act(before, Fill(revision, value.value), after))
  {
  }

  /** The calls that write or invalidate `key`, read off the call alone. */
  predicate Changes<V>(table: Table<V>, call: Call<V>, key: Key, now: int) {
    match call
    case ReadCall(_) => false
    case InvalidateCall(k) => k == key
    case FillCall(k, observed, _, _) => k == key && observed == TokenOf(table, key)
    case SetCall(k, value, _, newer) => k == key && !Outranked(table, key, value, newer, now)
  }

  /** The call writes `value` under `key`, to be served up to `expiresAt`. */
  ghost predicate Writes<V>(table: Table<V>, call: Call<V>, key: Key, value: V, expiresAt: Option<int>, now: int) {
    Changes(table, call, key, now) &&
    match call
    case FillCall(_, _, v, e) => v == value && e == expiresAt
    case SetCall(_, v, e, _) => v == value && e == expiresAt
    case _ => false
  }

  /**
   In every run a written value is served, through all calls that do not write or invalidate its key, until it
   expires, and not afterwards.
   */
  lemma {:induction false} ServedUntilItExpires<V>(t: seq<Table<V>>, calls: seq<Call<V>>, times: seq<int>, key: Key,
                                                   i: nat, j: nat, value: V, expiresAt: Option<int>, now: int)
    requires CacheRun(t, calls, times) && i < j < |t|
    requires Writes(t[i], calls[i], key, value, expiresAt, times[i + 1])
    requires forall n {:trigger calls[n]} :: i < n < j ==> !Changes(t[n], calls[n], key, times[n + 1])
    ensures LiveValue(t[j], key, now)
         == match expiresAt
            case Some(end) => if now > end then None else Some(value)
            case None => Some(value)
    decreases j
  {
    assert t[j - 1 + 1] == Apply(t[j - 1], calls[j - 1], times[j - 1 + 1]);
    if i + 1 < j {
      ServedUntilItExpires(t, calls, times, key, i, j - 1, value, expiresAt, now);
    }
  }

  ghost predicate CacheRun<V>(t: seq<Table<V>>, calls: seq<Call<V>>, times: seq<int>) {
    && |t| == |times| == |calls| + 1
    && forall i :: 0 <= i < |calls| ==>
         times[i] <= times[i + 1] && t[i + 1] == Apply(t[i], calls[i], times[i + 1])
  }

  function Views<V>(t: seq<Table<V>>, times: seq<int>, key: Key): seq<Register<V>>
    requires |t| == |times|
  {
    seq(|t|, i requires 0 <= i < |t| => View(t[i], key, times[i]))
  }

  function Ops<V>(t: seq<Table<V>>, calls: seq<Call<V>>, times: seq<int>, key: Key): seq<Op<V>>
    requires |t| == |times| == |calls| + 1
  {
    seq(|calls|, i requires 0 <= i < |calls| => OpOn(t[i], calls[i], key, times[i + 1]))
  }

  /**
   In every sequence of calls each key goes through a run of its register; so what is proved of
   registers holds of this cache; `CacheClients` carries the decorators over.
   */
  lemma CacheRefinesRegister<V>(t: seq<Table<V>>, calls: seq<Call<V>>, times: seq<int>, key: Key)
    requires CacheRun(t, calls, times)
    ensures Run(Views(t, times, key), Ops(t, calls, times, key))
  {
    var (rs, ops) := (Views(t, times, key), Ops(t, calls, times, key));
    forall i | 0 <= i < |ops|
      ensures Step(rs[i], ops[i], rs[i + 1])
    {
      CallActs(t[i], calls[i], key, times[i + 1]);
      var later := View(t[i], key, times[i + 1]);
      assert later == rs[i] || later == Expired(rs[i]);
    }
  }
}
