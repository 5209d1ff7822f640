/** The table of internal/ha/idempotency.go as it is kept: entries updated in place under the lock, each
    operation doing to the table what the machine's steps do. */
module SingleFlightStore {
  import opened Options
  import opened Packets
  import opened Idempotency

  class StoredEntry {
    var createdAt: nat
    var expiresAt: nat
    var ready: bool
    var response: Response
    var err: Option<Error>
    var closes: nat

    function AsSlot(): Slot reads this { Slot(createdAt, expiresAt, ready, response, err) }

    constructor (now: nat, c: Config)
      ensures AsSlot() == Pending(now, c) && closes == 0
    {
      createdAt, expiresAt, ready, response, err, closes := now, now + c.ttl, false, Blank, None, 0;
    }
  }

  class IdempotencyStore {
    const config: Config
    var entries: map<Key, StoredEntry>

    /** The table, as the machine sees it. */
    ghost predicate Shows(v: View) reads this, entries.Values {
      v.Keys == entries.Keys && forall k <- entries :: entries[k].AsSlot() == v[k]
    }

    constructor (ttl: int, maxKeys: int)
      ensures config == Configured(ttl, maxKeys) && Shows(map[])
    {
      config, entries := Configured(ttl, maxKeys), map[];
    }

    method Collect(now: nat, ghost v: View)
      requires Shows(v)
      modifies this`entries
      ensures entries == old(entries) - Expired(v, now) && Shows(v - Expired(v, now))
    {
      var left := entries.Keys;
      while left != {}
        invariant left <= v.Keys
        invariant entries == old(entries) - (Expired(v, now) - left)
        decreases left
      {
        var k :| k in left;
        left := left - {k};
        assert entries[k].AsSlot() == v[k];
        if entries[k].ready && now >= entries[k].expiresAt {
          entries := entries - {k};
        }
      }
    }

    /** The inner loop: the first oldest ready entry met. */
    method Oldest(ghost v: View, ghost victims: set<Key>) returns (victim: Option<Key>)
      requires Shows(v - victims)
      ensures victim.None? ==> forall k <- v.Keys - victims :: !v[k].ready
      ensures victim.Some? ==> IsOldest(v, victims, victim.value)
    {
      victim := None;
      var left := entries.Keys;
      assert left == v.Keys - victims;
      while left != {}
        invariant left <= entries.Keys
        invariant victim.None? ==> forall k <- entries.Keys - left :: !entries[k].ready
        invariant victim.Some? ==>
                    && victim.value in entries && entries[victim.value].ready
                    && forall k <- entries.Keys - left :: entries[k].ready ==> entries[victim.value].createdAt <= entries[k].createdAt
        decreases left
      {
        var k :| k in left;
        left := left - {k};
        if entries[k].ready && (victim.None? || entries[k].createdAt < entries[victim.value].createdAt) {
          victim := Some(k);
        }
      }
      assert forall k <- v.Keys - victims :: entries[k].AsSlot() == v[k];
    }

    method Drop(key: Key, ghost v: View)
      requires Shows(v)
      modifies this`entries
      ensures entries == old(entries) - {key} && Shows(v - {key})
    {
      entries := entries - {key};
    }

    /** One round of the outer loop: the oldest ready entry goes, if there is one. */
    method EvictOne(ghost v: View, ghost victims: set<Key>) returns (victim: Option<Key>)
      requires Shows(v - victims) && EvictsSome(v, victims, config.maxKeys) && |v| - |victims| > config.maxKeys
      modifies this`entries
      ensures victim.None? ==> unchanged(this) && forall k <- v.Keys - victims :: !v[k].ready
      ensures victim.Some? ==>
                && EvictsSome(v, victims + {victim.value}, config.maxKeys) && |victims + {victim.value}| == |victims| + 1
                && entries == old(entries) - {victim.value} && Shows(v - (victims + {victim.value}))
                && |v - (victims + {victim.value})| == |v| - |victims| - 1
    {
      victim := Oldest(v, victims);
      if victim.Some? {
        EvictNext(v, victims, config.maxKeys, victim.value);
        Drop(victim.value, v - victims);
      }
    }

    method EnforceMaxKeys(ghost v: View) returns (ghost victims: set<Key>)
      requires Shows(v)
      modifies this`entries
      ensures Evicts(v, victims, config.maxKeys) && Shows(v - victims)
      ensures forall k <- entries :: k in old(entries) && entries[k] == old(entries)[k]
    {
      victims := {};
      assert v - {} == v;
      SameSize(v);
      while |entries| > config.maxKeys
        invariant EvictsSome(v, victims, config.maxKeys)
        invariant Shows(v - victims) && |entries| == |v| - |victims|
        invariant forall k <- entries :: k in old(entries) && entries[k] == old(entries)[k]
        decreases |entries|
      {
        var victim := EvictOne(v, victims);
        if victim == None {
          break;
        }
        victims := victims + {victim.value};
        SameSize(v - victims);
      }
    }

    lemma SameSize(v: View)
      requires Shows(v)
      ensures |v| == |entries|
    {
    }

    /** prepareEntry: replay a live success, wait for a pending entry, or insert one of its own. */
    method PrepareEntry(key: Key, now: nat, ghost v: View)
      returns (entry: StoredEntry, replay: Option<Response>, wait: bool, ghost victims: set<Key>)
      requires Shows(v)
      modifies this`entries
      ensures key in v - Expired(v, now) ==>
                && Shows(v - Expired(v, now)) && key in entries && entry == entries[key] == old(entries)[key]
                && wait == !v[key].ready && replay == if v[key].ready then Some(v[key].response) else None
      ensures key !in v - Expired(v, now) ==>
                && Evicts(Inserted(v, key, now, config), victims, config.maxKeys)
                && Shows(Inserted(v, key, now, config) - victims)
                && key in entries && entry == entries[key] && fresh(entry) && entry.closes == 0
                && replay == None && !wait
      ensures forall k <- entries :: k != key ==> k in old(entries) && entries[k] == old(entries)[k]
    {
      victims := {};
      Collect(now, v);
      if key in entries {
        entry := entries[key];
        if entry.ready && now < entry.expiresAt {
          return entry, Some(entry.response), false, {};
        }
        if !entry.ready {
          return entry, None, true, {};
        }
      }
      entry, victims := InsertPending(key, now, v - Expired(v, now));
      replay, wait := None, false;
    }

    /** A pending entry in the place of any other of its key, and eviction. */
    method InsertPending(key: Key, now: nat, ghost v: View) returns (entry: StoredEntry, ghost victims: set<Key>)
      requires Shows(v)
      modifies this`entries
      ensures fresh(entry) && entry.AsSlot() == Pending(now, config) && entry.closes == 0
      ensures Evicts(v[key := Pending(now, config)], victims, config.maxKeys)
      ensures Shows(v[key := Pending(now, config)] - victims)
      ensures key in entries && entries[key] == entry
      ensures forall k <- entries :: k != key ==> k in old(entries) && entries[k] == old(entries)[k]
    {
      entry := AddPending(key, now, v);
      ghost var mid := v[key := Pending(now, config)];
      victims := EnforceMaxKeys(mid);
      assert key !in victims by { assert !mid[key].ready; }
      assert key in mid - victims;
    }

    method AddPending(key: Key, now: nat, ghost v: View) returns (entry: StoredEntry)
      requires Shows(v)
      modifies this`entries
      ensures fresh(entry) && entry.AsSlot() == Pending(now, config) && entry.closes == 0
      ensures Shows(v[key := Pending(now, config)]) && entries == old(entries)[key := entry]
    {
      entries := entries - {key};
      entry := new StoredEntry(now, config);
      entries := entries[key := entry];
      assert entries == old(entries)[key := entry];
    }

    /** finalizeEntry, as FinalizeStep of the machine: nothing for a stale entry; else the channel closes
        once, and a failure leaves the table while a success stays for a full lifetime. */
    method FinalizeEntry(key: Key, entry: StoredEntry, resp: Response, err: Option<Error>, now: nat)
      requires key in entries && entries[key] == entry ==> entry.closes == 0
      modifies this`entries, entry
      ensures var current := key in old(entries) && old(entries)[key] == entry;
              && entries == (if current && err.Some? then old(entries) - {key} else old(entries))
              && entry.closes == old(entry.closes) + (if current then 1 else 0)
              && entry.AsSlot() ==
                 if !current then old(entry.AsSlot())
                 else if err.Some? then old(entry.AsSlot()).(err := err, ready := true)
                 else old(entry.AsSlot()).(response := resp, expiresAt := now + config.ttl, err := None, ready := true)
    {
      if key !in entries || entries[key] != entry {
        return;
      }
      if err.Some? {
        entries := entries - {key};
      } else {
        entry.response := resp;
        entry.expiresAt := now + config.ttl;
      }
      entry.err := err;
      entry.ready := true;
      entry.closes := entry.closes + 1;
    }
  }
}
