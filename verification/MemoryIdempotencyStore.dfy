/**
 `MemoryIdempotencyStore`, the in-process store, proved to meet for every key the contract that the idempotency
 protocol is proved against. Beyond that contract it is bounded: a claim for which there is no room is refused
 once the expired entries are gone, and a lifetime that is not positive leaves nothing to be found.
 */
module MemoryIdempotencyStores {
  import opened Wrappers
  import Idempotency

  type Key = string
  type Record = Idempotency.Record

  datatype Entry = Entry(record: Record, expiresAt: int)

  type Entries = map<Key, Entry>

  datatype CapacityError = CapacityReached(maxEntries: int)

  predicate IsLive(entry: Entry, now: int) {
    entry.expiresAt > now
  }

  /** What the contract calls the live record of a key. */
  function Live(entries: Entries, key: Key, now: int): Option<Record> {
    if key in entries && IsLive(entries[key], now) then Some(entries[key].record) else None
  }

  function LiveEntries(entries: Entries, now: int): Entries {
    map k | k in entries && IsLive(entries[k], now) :: entries[k]
  }

  /** The same live records at `now` and ever after, except perhaps for `key`. */
  ghost predicate SameBut(before: Entries, after: Entries, key: Key, now: int) {
    forall k, later :: k != key && now <= later ==> Live(after, k, later) == Live(before, k, later)
  }

  /** From `now` on the key holds the record for as long as its lifetime, and nothing afterwards. */
  ghost predicate HoldsFor(entries: Entries, key: Key, record: Record, ttlMs: int, now: int) {
    forall later :: now <= later ==> Live(entries, key, later) == if later - now < ttlMs then Some(record) else None
  }

  /** From `now` on the key holds what it held. */
  ghost predicate HoldsAsBefore(before: Entries, after: Entries, key: Key, now: int) {
    forall later :: now <= later ==> Live(after, key, later) == Live(before, key, later)
  }

  lemma LiveEntriesAreFewer(entries: Entries, now: int)
    ensures LiveEntries(entries, now).Keys <= entries.Keys
    ensures |LiveEntries(entries, now)| <= |entries|
  {
    var (part, all) := (LiveEntries(entries, now).Keys, entries.Keys);
    assert all == part + (all - part);
  }

  class MemoryIdempotencyStore {
    var entries: Entries
    const maxEntries: int

    ghost predicate Valid()
      reads this
    {
      |entries| <= if maxEntries < 0 then 0 else maxEntries
    }

    constructor (maxEntries: int)
      ensures Valid() && entries == map[] && this.maxEntries == maxEntries
    {
      entries, this.maxEntries := map[], maxEntries;
    }

    method CleanupExpired(now: int) returns (count: nat)
      modifies this`entries
      ensures entries == LiveEntries(old(entries), now)
      ensures count == |old(entries)| - |entries|
    {
      count := 0;
      var keys := entries.Keys;
      while keys != {}
        invariant keys <= entries.Keys <= old(entries).Keys
        invariant forall k :: k in entries ==> entries[k] == old(entries)[k]
        invariant forall k :: k in old(entries) ==>
          (k in entries <==> k in keys || IsLive(old(entries)[k], now))
        invariant count == |old(entries)| - |entries|
        decreases keys
      {
        var key :| key in keys;
        if entries[key].expiresAt <= now {
          assert |entries.Keys| == |(entries - {key}).Keys| + 1 by {
            assert entries.Keys == (entries - {key}).Keys + {key};
          }
          entries := entries - {key};
          count := count + 1;
        }
        keys := keys - {key};
      }
      assert entries == LiveEntries(old(entries), now);
    }

    /** The live entry of `key`; an expired one is pruned. */
    method LiveEntry(key: Key, now: int) returns (record: Option<Record>)
      modifies this`entries
      ensures record == Live(old(entries), key, now)
      ensures entries == if record == None then old(entries) - {key} else old(entries)
    {
      if key !in entries {
        assert entries - {key} == entries;
        return None;
      }
      if entries[key].expiresAt <= now {
        entries := entries - {key};
        return None;
      }
      return Some(entries[key].record);
    }

    /** Makes room for one entry, or finds that every entry is live. */
    method EnsureCapacity(now: int) returns (outcome: Result<(), CapacityError>)
      modifies this`entries
      ensures outcome.Err? <==> |LiveEntries(old(entries), now)| >= maxEntries
      ensures forall k, later :: now <= later ==> Live(entries, k, later) == Live(old(entries), k, later)
      ensures |entries| <= |old(entries)| && (outcome.Ok? ==> |entries| < maxEntries)
    {
      LiveEntriesAreFewer(entries, now);
      if |entries| < maxEntries {
        return Ok(());
      }
      var _ := CleanupExpired(now);
      if |entries| >= maxEntries {
        return Err(CapacityReached(maxEntries));
      }
      return Ok(());
    }

    method Write(key: Key, record: Record, ttlMs: int, now: int)
      modifies this`entries
      ensures entries == old(entries)[key := Entry(record, now + ttlMs)]
    {
      entries := entries[key := Entry(record, now + ttlMs)];
    }

    method Get(key: Key, now: int) returns (record: Option<Record>)
      requires Valid()
      modifies this`entries
      ensures Valid() && record == Live(old(entries), key, now)
      ensures SameBut(old(entries), entries, key, now) && HoldsAsBefore(old(entries), entries, key, now)
    {
      record := LiveEntry(key, now);
    }

    /** A full store refuses the claim and keeps every live record. */
    method SetIfAbsent(key: Key, record: Record, ttlMs: int, now: int)
      returns (claimed: Result<bool, CapacityError>)
      requires Valid()
      modifies this`entries
      ensures Valid() && SameBut(old(entries), entries, key, now)
      ensures claimed.Err? <==> Live(old(entries), key, now) == None && |LiveEntries(old(entries), now)| >= maxEntries
      ensures claimed.Err? ==> Live(entries, key, now) == None
      ensures claimed.Ok? ==>
        var (after, won) := Idempotency.SetIfAbsent(Live(old(entries), key, now), record);
        && claimed.value == won && Live(entries, key, now) == (if won && ttlMs <= 0 then None else after)
        && (if won then HoldsFor(entries, key, record, ttlMs, now) else HoldsAsBefore(old(entries), entries, key, now))
    {
      LiveAfterPruning(entries, key, now);
      var live := LiveEntry(key, now);
      if live.Some? {
        return Ok(false);
      }
      ghost var pruned := entries;
      var room := EnsureCapacity(now);
      assert SameBut(pruned, entries, key, now);
      if room.Err? {
        return Err(room.error);
      }
      WritingIsSeenAtKey(entries, key, Entry(record, now + ttlMs), now);
      Write(key, record, ttlMs, now);
      return Ok(true);
    }

    method CompleteIfOwned(key: Key, claimId: nat, record: Record, ttlMs: int, now: int) returns (completed: bool)
      requires Valid()
      modifies this`entries
      ensures Valid() && SameBut(old(entries), entries, key, now)
      ensures
        var (after, owned) := Idempotency.CompleteIfOwned(Live(old(entries), key, now), claimId, record);
        && completed == owned && Live(entries, key, now) == (if owned && ttlMs <= 0 then None else after)
        && (if owned then HoldsFor(entries, key, record, ttlMs, now) else HoldsAsBefore(old(entries), entries, key, now))
    {
      var current := LiveEntry(key, now);
      if current == None || !current.value.status.InProgress? || current.value.claimId != claimId {
        return false;
      }
      Write(key, record, ttlMs, now);
      return true;
    }

    method DeleteIfOwned(key: Key, claimId: nat, now: int) returns (deleted: bool)
      requires Valid()
      modifies this`entries
      ensures Valid() && SameBut(old(entries), entries, key, now)
      ensures (Live(entries, key, now), deleted) == Idempotency.DeleteIfOwned(Live(old(entries), key, now), claimId)
      ensures if deleted then forall later :: Live(entries, key, later) == None
              else HoldsAsBefore(old(entries), entries, key, now)
    {
      var current := LiveEntry(key, now);
      if current == None || current.value.claimId != claimId {
        return false;
      }
      entries := entries - {key};
      return true;
    }
  }

  /** Pruning an expired entry, and dropping all of them, changes no live record. */
  lemma LiveAfterPruning(entries: Entries, key: Key, now: int)
    ensures Live(entries, key, now) == None ==> LiveEntries(entries - {key}, now) == LiveEntries(entries, now)
  {
  }

  lemma WritingIsSeenAtKey(entries: Entries, key: Key, entry: Entry, now: int)
    ensures SameBut(entries, entries[key := entry], key, now)
    ensures Live(entries[key := entry], key, now) == if IsLive(entry, now) then Some(entry.record) else None
  {
  }
}
