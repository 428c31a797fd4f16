/** Proposed actions waiting for a confirmation: internal/application/skeleton/pending.go. */
module PendingStore {
  import opened Common

  /** pendingTTL, in nanoseconds. */
  const TTL := 600_000_000_000

  datatype Actor = Actor(companyId: int, userId: int, perms: seq<string>, coverage: seq<int>)

  type Params = map<string, string>

  /** `origin` is history: the log position of the Put that stored the entry. */
  datatype Entry = Entry(companyId: int, userId: int, toolId: string, params: Params, expires: int, origin: nat)

  type Entries = map<string, Entry>

  predicate SameUser(e: Entry, actor: Actor) {
    e.companyId == actor.companyId && e.userId == actor.userId
  }

  /** time.After: expiry itself is still in time. */
  predicate Expired(e: Entry, now: int) {
    now > e.expires
  }

  function NewEntry(actor: Actor, toolId: string, params: Params, now: int, origin: nat): Entry {
    Entry(actor.companyId, actor.userId, toolId, params, now + TTL, origin)
  }

  function Swept(entries: Entries, now: int): Entries {
    map id | id in entries && !Expired(entries[id], now) :: entries[id]
  }

  /** Present, of this user, and not expired. */
  predicate CanTake(entries: Entries, actor: Actor, id: string, now: int) {
    id in entries && SameUser(entries[id], actor) && !Expired(entries[id], now)
  }

  class Store {
    var entries: Entries

    constructor ()
      ensures entries == map[]
    {
      entries := map[];
    }

    /** Put: the sweep drops the expired entries and nothing else. An empty id means no randomness was to be had. */
    method Put(actor: Actor, toolId: string, params: Params, id: string, now: int, origin: nat)
      modifies this
      ensures entries == if id == "" then old(entries)
                         else Swept(old(entries), now)[id := NewEntry(actor, toolId, params, now, origin)]
      ensures id != "" ==>
                && id in entries
                && entries[id] == Entry(actor.companyId, actor.userId, toolId, params, now + 600_000_000_000, origin)
                && forall k | k != id :: k in entries <==> k in old(entries) && now <= old(entries)[k].expires
      ensures forall k | k in entries && k != id :: k in old(entries) && entries[k] == old(entries)[k]
    {
      if id == "" {
        return;
      }
      var keys := entries.Keys;
      ghost var before := entries;
      while keys != {}
        invariant keys <= before.Keys
        invariant entries == map k | k in before && (k in keys || !Expired(before[k], now)) :: before[k]
        decreases |keys|
      {
        var key :| key in keys;
        if Expired(entries[key], now) {
          entries := entries - {key};
        }
        keys := keys - {key};
      }
      entries := entries[id := NewEntry(actor, toolId, params, now, origin)];
    }

    /** Take: the entry is gone whether or not it was handed out. */
    method Take(actor: Actor, id: string, now: int) returns (r: Option<Entry>)
      modifies this
      ensures entries == old(entries) - {id}
      ensures r.Some? <==>
                && id in old(entries)
                && old(entries)[id].companyId == actor.companyId && old(entries)[id].userId == actor.userId
                && now <= old(entries)[id].expires
      ensures r.Some? ==> r.value == old(entries)[id]
    {
      if id !in entries {
        return None;
      }
      var entry := entries[id];
      entries := entries - {id};
      if entry.companyId != actor.companyId || entry.userId != actor.userId {
        return None;
      }
      if Expired(entry, now) {
        return None;
      }
      return Some(entry);
    }
  }
}
