/** The in-process TTL cache: internal/infra/memcache/memcache.go.  Times are nanoseconds. */
module MemCache {
  import opened Common

  newtype byte = x: int | 0 <= x < 256

  const MINUTE := 60_000_000_000
  const DEFAULT_MAX_ENTRIES := 4096

  // ---------------------------------------------------------------- the timed map

  datatype Timed = Timed(value: seq<byte>, expiresAt: int)

  type Table = map<string, Timed>

  /** The readings of the clock an operation takes, in order. */
  datatype Readings = Readings(first: int, sweep: int, stamp: int) {
    predicate Ordered() {
      first <= sweep <= stamp
    }
  }

  function Lifetime(ttl: int): (t: int)
    ensures t > 0
  {
    if ttl <= 0 then MINUTE else ttl
  }

  function Stale(t: Table, now: int): set<string> {
    set k | k in t && now > t[k].expiresAt
  }

  /**
    What making room for a key may drop: nothing unless the table is full and the key new; then the expired, or else a
    single one.
   */
  ghost predicate MayDrop(max: nat, t: Table, incoming: string, now: int, dropped: set<string>) {
    && dropped <= t.Keys
    && if incoming in t || |t| < max then dropped == {}
       else if Stale(t, now) != {} then dropped == Stale(t, now)
       else |dropped| == 1
  }

  datatype Op =
    | Get(key: string)
    | Set(key: string, value: seq<byte>, ttl: int)
    | SetNX(key: string, value: seq<byte>, ttl: int)
    | Delete(keys: seq<string>)

  /** One operation as it happened: its readings, what making room dropped, and its answer. */
  datatype Event = Event(op: Op, at: Readings, dropped: set<string>, answer: Answer)

  datatype Answer = Miss | Hit(value: seq<byte>) | Done | Present

  /** The table after an operation, or None if the operation could not have gone that way. */
  ghost predicate Next(max: nat, t: Table, e: Event, t': Table) {
    match e.op
    case Get(key) =>
      && e.dropped == {}
      && if key !in t then e.answer == Miss && t' == t
         else if e.at.first > t[key].expiresAt then e.answer == Miss && t' == t - {key}
         else e.answer == Hit(t[key].value) && t' == t
    case Set(key, value, ttl) =>
      && e.answer == Done && MayDrop(max, t, key, e.at.sweep, e.dropped)
      && t' == (t - e.dropped)[key := Timed(value, e.at.stamp + Lifetime(ttl))]
    case SetNX(key, value, ttl) =>
      if key in t && e.at.first < t[key].expiresAt then
        e.dropped == {} && e.answer == Present && t' == t
      else
        && e.answer == Done && MayDrop(max, t, key, e.at.sweep, e.dropped)
        && t' == (t - e.dropped)[key := Timed(value, e.at.stamp + Lifetime(ttl))]
    case Delete(keys) => e.dropped == {} && e.answer == Done && t' == t - (set k | k in keys)
  }

  // ---------------------------------------------------------------- the implementation

  /** An entry as the cache keeps it: the bytes are in an array. */
  datatype Item = Item(value: array<byte>, expiresAt: int)

  function Expired(items: map<string, Item>, now: int): set<string> {
    set k | k in items && now > items[k].expiresAt
  }

  lemma SetHappens(max: nat, t: Table, key: string, raw: seq<byte>, ttl: int, at: Readings, dropped: set<string>,
                   mid: Table, until: int, t': Table)
    requires MayDrop(max, t, key, at.sweep, dropped) && mid == t - dropped
    requires until == at.stamp + Lifetime(ttl) && t' == mid[key := Timed(raw, until)]
    ensures Next(max, t, Event(Op.Set(key, raw, ttl), at, dropped, Done), t')
  {
  }

  /** Where nothing unexpired stands, SetNX does what Set does. */
  lemma SetNXAsSet(max: nat, t: Table, key: string, raw: seq<byte>, ttl: int, at: Readings, dropped: set<string>,
                   t': Table)
    requires Next(max, t, Event(Op.Set(key, raw, ttl), at, dropped, Done), t')
    requires key in t ==> at.first >= t[key].expiresAt
    ensures Next(max, t, Event(Op.SetNX(key, raw, ttl), at, dropped, Done), t')
  {
  }

  /** The entries as values. */
  ghost function TableOf(items: map<string, Item>): Table
    reads set k | k in items :: items[k].value
  {
    map k | k in items :: Timed(items[k].value[..], items[k].expiresAt)
  }

  lemma TableWithout(items: map<string, Item>, gone: set<string>)
    ensures TableOf(items - gone) == TableOf(items) - gone
  {
  }

  lemma TableWith(items: map<string, Item>, key: string, item: Item)
    ensures TableOf(items[key := item]) == TableOf(items)[key := Timed(item.value[..], item.expiresAt)]
  {
  }

  lemma TableIsAlike(items: map<string, Item>, now: int)
    ensures TableOf(items).Keys == items.Keys && |TableOf(items)| == |items|
    ensures Stale(TableOf(items), now) == Expired(items, now)
  {
    assert TableOf(items).Keys == items.Keys;
    assert |items.Keys| == |items| && |TableOf(items).Keys| == |TableOf(items)|;
  }

  class Cache {
    var items: map<string, Item>
    const maxEntries: nat
    ghost var arrays: set<array<byte>>

    /** The cache's arrays are its own: it made them, and no caller gets or gave one. */
    ghost predicate Valid()
      reads this
    {
      0 < maxEntries && |items| <= maxEntries && forall k | k in items :: items[k].value in arrays
    }

    ghost function Contents(): Table
      reads this, arrays
      requires Valid()
    {
      TableOf(items)
    }

    constructor (maxEntries: int)
      ensures Valid() && Contents() == map[] && arrays == {}
      ensures this.maxEntries == if maxEntries <= 0 then DEFAULT_MAX_ENTRIES else maxEntries
    {
      this.maxEntries := if maxEntries <= 0 then DEFAULT_MAX_ENTRIES else maxEntries;
      this.items, this.arrays := map[], {};
    }

    /** cloneBytes: a new array that nobody else holds. */
    method CloneBytes(value: array<byte>) returns (copy: array<byte>)
      ensures fresh(copy) && copy[..] == value[..]
    {
      copy := new byte[value.Length](i requires 0 <= i < value.Length reads value => value[i]);
    }

    /** Get: a hit is a copy, in an array that is not the cache's. */
    method Get(key: string, now: int) returns (out: array?<byte>)
      requires Valid()
      modifies this
      ensures Valid() && arrays == old(arrays) && (out != null ==> fresh(out))
      ensures Next(maxEntries, old(Contents()),
                   Event(Op.Get(key), Readings(now, now, now), {}, if out == null then Miss else Hit(out[..])),
                   Contents())
    {
      if key !in items {
        return null;
      }
      var item := items[key];
      if now > item.expiresAt {
        Remove(key);
        return null;
      }
      out := CloneBytes(item.value);
    }

    /** Set: what is kept is a copy in a new array, so the caller's array stays the caller's. */
    method Set(key: string, value: array<byte>, ttl: int, at: Readings) returns (ghost dropped: set<string>)
      requires Valid() && at.Ordered()
      modifies this
      ensures Valid() && fresh(arrays - old(arrays))
      ensures Next(maxEntries, old(Contents()), Event(Op.Set(key, value[..], ttl), at, dropped, Done), Contents())
    {
      ghost var before, raw := Contents(), value[..];
      var life := if ttl <= 0 then MINUTE else ttl;
      dropped := MakeRoom(key, at.sweep, before);
      ghost var mid := before - dropped;
      var until := at.stamp + life;
      assert until == at.stamp + Lifetime(ttl);
      ghost var after := Store(key, value, until, mid, raw);
      SetHappens(maxEntries, before, key, raw, ttl, at, dropped, mid, until, after);
    }

    method SetNX(key: string, value: array<byte>, ttl: int, at: Readings) returns (ok: bool, ghost dropped: set<string>)
      requires Valid() && at.Ordered()
      modifies this
      ensures Valid() && fresh(arrays - old(arrays))
      ensures Next(maxEntries, old(Contents()),
                   Event(Op.SetNX(key, value[..], ttl), at, dropped, if ok then Done else Present), Contents())
    {
      if key in items && at.first < items[key].expiresAt {
        return false, {};
      }
      // From here on as Set.
      ghost var before := Contents();
      assert key in before ==> at.first >= before[key].expiresAt;
      dropped := Set(key, value, ttl, at);
      SetNXAsSet(maxEntries, before, key, value[..], ttl, at, dropped, Contents());
      ok := true;
    }

    method Delete(keys: seq<string>, at: Readings)
      requires Valid()
      modifies this
      ensures Valid() && arrays == old(arrays)
      ensures Next(maxEntries, old(Contents()), Event(Op.Delete(keys), at, {}, Done), Contents())
    {
      ghost var gone: set<string> := {};
      for i := 0 to |keys|
        invariant Valid() && arrays == old(arrays) && Contents() == old(Contents()) - gone
        invariant gone == set k | k in keys[..i]
      {
        RemovingOneMore(old(Contents()), gone, keys[i]);
        Remove(keys[i]);
        gone := gone + {keys[i]};
        assert keys[..i + 1] == keys[..i] + [keys[i]];
      }
      assert keys[..|keys|] == keys;
    }

    /** delete(c.items, key) */
    method Unlink(key: string)
      requires Valid()
      modifies this`items
      ensures Valid() && items == old(items) - {key}
      ensures |items| == if key in old(items) then |old(items)| - 1 else |old(items)|
    {
      SizeAfterRemoval(items, key);
      items := items - {key};
    }

    method Remove(key: string)
      requires Valid()
      modifies this`items
      ensures Valid() && Contents() == old(Contents()) - {key}
    {
      TableWithout(items, {key});
      Unlink(key);
    }

    /** c.items[key] = item, with a copy of the bytes */
    method Store(key: string, value: array<byte>, expiresAt: int, ghost before: Table, ghost raw: seq<byte>)
      returns (ghost after: Table)
      requires Valid() && (key in items || |items| < maxEntries) && Contents() == before && value[..] == raw
      modifies this
      ensures Valid() && fresh(arrays - old(arrays))
      ensures after == before[key := Timed(raw, expiresAt)] && Contents() == after
    {
      var copy := CloneBytes(value);
      after := Link(key, Item(copy, expiresAt), before, raw);
    }

    method Link(key: string, item: Item, ghost before: Table, ghost raw: seq<byte>) returns (ghost after: Table)
      requires Valid() && (key in items || |items| < maxEntries) && Contents() == before && item.value[..] == raw
      modifies this
      ensures Valid() && arrays == old(arrays) + {item.value}
      ensures after == before[key := Timed(raw, item.expiresAt)] && Contents() == after
    {
      after := before[key := Timed(raw, item.expiresAt)];
      SizeAfterInsertion(items, key, item);
      TableWith(items, key, item);
      items := items[key := item];
      arrays := arrays + {item.value};
    }

    /** makeRoomLocked */
    method MakeRoom(incoming: string, now: int, ghost t: Table) returns (ghost dropped: set<string>)
      requires Valid() && Contents() == t
      modifies this`items
      ensures Valid() && (incoming in items || |items| < maxEntries)
      ensures MayDrop(maxEntries, t, incoming, now, dropped) && Contents() == t - dropped
    {
      ghost var before := items;
      TableIsAlike(before, now);
      if incoming in items || |items| < maxEntries {
        return {};
      }
      dropped := DropEntries(now);
      TableWithout(before, dropped);
    }

    /** The expired entries, or else a single one. */
    method DropEntries(now: int) returns (ghost dropped: set<string>)
      requires Valid() && |items| == maxEntries
      modifies this`items
      ensures Valid() && |items| < maxEntries
      ensures items == old(items) - dropped && dropped <= old(items).Keys
      ensures if Expired(old(items), now) != {} then dropped == Expired(old(items), now) else |dropped| == 1
    {
      ghost var before := items;
      DropExpired(now);
      dropped := Expired(before, now);
      SizeAfterDifference(before, dropped);
      if |items| >= maxEntries {
        SomeKey(items);
        var key :| key in items;
        RemovingOneMore(before, dropped, key);
        Unlink(key);
        dropped := dropped + {key};
      }
    }

    /** The sweep of makeRoomLocked. */
    method DropExpired(now: int)
      requires Valid()
      modifies this`items
      ensures Valid() && items == old(items) - Expired(old(items), now)
    {
      ghost var before, gone: set<string> := items, {};
      var keys := items.Keys;
      while keys != {}
        invariant Valid() && keys <= items.Keys
        invariant items == before - gone && gone <= Expired(before, now)
        invariant forall k | k in items && k !in keys :: now <= items[k].expiresAt
        decreases |keys|
      {
        var key :| key in keys;
        if now > items[key].expiresAt {
          RemovingOneMore(before, gone, key);
          Unlink(key);
          gone := gone + {key};
        }
        keys := keys - {key};
      }
      assert gone == Expired(before, now);
    }
  }

  predicate Stands(t: Table, key: string, raw: seq<byte>, now: int) {
    key in t && t[key].value == raw && now <= t[key].expiresAt
  }

  method GetStanding(cache: Cache, key: string, now: int, ghost raw: seq<byte>) returns (out: array<byte>)
    requires cache.Valid() && Stands(cache.Contents(), key, raw, now)
    modifies cache
    ensures cache.Valid() && fresh(out) && cache.arrays == old(cache.arrays)
    ensures out[..] == raw && Stands(cache.Contents(), key, raw, now)
  {
    out := cache.Get(key, now);
  }

  method SetStanding(cache: Cache, key: string, value: array<byte>, ttl: int, at: Readings, now: int)
    requires cache.Valid() && at.Ordered() && now <= at.stamp + Lifetime(ttl)
    modifies cache
    ensures cache.Valid() && fresh(cache.arrays - old(cache.arrays))
    ensures Stands(cache.Contents(), key, value[..], now)
  {
    var _ := cache.Set(key, value, ttl, at);
  }

  /** A buffer that is not the cache's can be overwritten without touching the cache. */
  method Scribble(cache: Cache, buffer: array<byte>, scribble: byte)
    requires cache.Valid() && buffer !in cache.arrays && buffer.Length > 0
    modifies buffer
    ensures cache.Valid() && cache.Contents() == old(cache.Contents())
  {
    buffer[0] := scribble;
  }

  /** A caller that scribbles over the buffer it stored, and over the one it got back, still gets what it stored. */
  method ScribblingChangesNothing(cache: Cache, key: string, value: array<byte>, ttl: int, at: Readings, now: int,
                                  scribble: byte)
    returns (out: array<byte>)
    requires cache.Valid() && at.Ordered() && now <= at.stamp + Lifetime(ttl)
    requires value !in cache.arrays && value.Length > 0
    modifies cache, value
    ensures fresh(out) && out[..] == old(value[..])
  {
    ghost var raw := value[..];
    SetStanding(cache, key, value, ttl, at, now);
    Scribble(cache, value, scribble);
    out := GetStanding(cache, key, now, raw);
    Scribble(cache, out, scribble);
    out := GetStanding(cache, key, now, raw);
  }

  lemma RemovingOneMore<V>(t: map<string, V>, gone: set<string>, key: string)
    ensures (t - gone) - {key} == t - (gone + {key})
  {
  }

  lemma SizeAfterRemoval<V>(t: map<string, V>, key: string)
    ensures |t - {key}| == if key in t then |t| - 1 else |t|
  {
    assert (t - {key}).Keys == t.Keys - {key};
  }

  lemma SizeAfterInsertion<V>(t: map<string, V>, key: string, item: V)
    ensures |t[key := item]| == if key in t then |t| else |t| + 1
  {
    assert t[key := item].Keys == t.Keys + {key};
  }

  lemma SizeAfterDifference<V>(t: map<string, V>, keys: set<string>)
    requires keys <= t.Keys
    ensures |t - keys| == |t| - |keys|
  {
    assert (t - keys).Keys == t.Keys - keys;
    CardinalityOfDifference(t.Keys, keys);
  }

  lemma SomeKey<V>(t: map<string, V>)
    requires |t| > 0
    ensures exists key :: key in t
  {
    assert |t.Keys| == |t|;
    assert t.Keys != {};
  }

  lemma CardinalityOfDifference<T>(a: set<T>, b: set<T>)
    requires b <= a
    ensures |a - b| == |a| - |b|
  {
    assert a == (a - b) + b;
  }

  // ---------------------------------------------------------------- whole histories

  /** tables[i] is what the cache holds before events[i]; the clock never goes back. */
  ghost predicate IsRun(max: nat, events: seq<Event>, tables: seq<Table>) {
    && |tables| == |events| + 1 && tables[0] == map[]
    && (forall i | 0 <= i < |events| :: Next(max, tables[i], events[i], tables[i + 1]))
    && (forall i | 0 <= i < |events| :: events[i].at.Ordered())
    && (forall i, j | 0 <= i < j < |events| :: events[i].at.stamp <= events[j].at.first)
  }

  predicate Writes(e: Event, key: string) {
    (e.op.Set? || (e.op.SetNX? && e.answer == Done)) && e.op.key == key
  }

  /** What a write puts into the table. */
  function Written(e: Event): Timed
    requires e.op.Set? || e.op.SetNX?
  {
    Timed(e.op.value, e.at.stamp + Lifetime(e.op.ttl))
  }

  predicate Erases(e: Event, key: string) {
    key in e.dropped || (e.op.Delete? && key in e.op.keys)
  }

  /** The latest successful write of the key among the first n events that was neither deleted nor evicted since. */
  function LatestWrite(events: seq<Event>, n: nat, key: string): (r: Option<nat>)
    requires n <= |events|
    ensures r.Some? ==> r.value < n && Writes(events[r.value], key)
  {
    if n == 0 then None
    else if Writes(events[n - 1], key) then Some(n - 1)
    else if Erases(events[n - 1], key) then None
    else LatestWrite(events, n - 1, key)
  }

  /** The table holds the latest write, unless a Get has meanwhile met it expired. */
  ghost predicate Remembers(events: seq<Event>, n: nat, key: string, t: Table)
    requires n <= |events|
  {
    match LatestWrite(events, n, key)
    case None => key !in t
    case Some(i) =>
      if key in t then t[key] == Written(events[i])
      else exists m | i < m < n :: events[m].at.first > Written(events[i]).expiresAt
  }

  lemma OneEventIsRemembered(max: nat, events: seq<Event>, tables: seq<Table>, n: nat, key: string)
    requires IsRun(max, events, tables) && n < |events| && Remembers(events, n, key, tables[n])
    ensures Remembers(events, n + 1, key, tables[n + 1])
  {
    var e := events[n];
    assert Next(max, tables[n], e, tables[n + 1]);
    if !Writes(e, key) && !Erases(e, key) && LatestWrite(events, n, key).Some? && key !in tables[n + 1] {
      var i := LatestWrite(events, n, key).value;
      if key in tables[n] {
        assert e.at.first > Written(events[i]).expiresAt;
      }
    }
  }

  lemma {:induction false} RunIsRemembered(max: nat, events: seq<Event>, tables: seq<Table>, n: nat, key: string)
    requires IsRun(max, events, tables) && n <= |events|
    ensures Remembers(events, n, key, tables[n])
  {
    if n > 0 {
      RunIsRemembered(max, events, tables, n - 1, key);
      OneEventIsRemembered(max, events, tables, n - 1, key);
    }
  }

  /** A Get returns exactly the bytes of the latest live write, up to and including its expiry. */
  lemma GetReturnsTheLatestWrite(max: nat, events: seq<Event>, tables: seq<Table>, n: nat, key: string)
    requires IsRun(max, events, tables) && n < |events| && events[n].op == Op.Get(key)
    ensures events[n].answer ==
            match LatestWrite(events, n, key)
            case None => Miss
            case Some(i) => if events[n].at.first <= Written(events[i]).expiresAt then Hit(events[i].op.value) else Miss
  {
    RunIsRemembered(max, events, tables, n, key);
    assert Next(max, tables[n], events[n], tables[n + 1]);
  }

  /** A SetNX succeeds exactly when there is no live write, or its lifetime has passed. */
  lemma SetNXWaitsForTheLatestWrite(max: nat, events: seq<Event>, tables: seq<Table>, n: nat, key: string)
    requires IsRun(max, events, tables) && n < |events| && events[n].op.SetNX? && events[n].op.key == key
    ensures events[n].answer == Done <==>
            match LatestWrite(events, n, key)
            case None => true
            case Some(i) => events[n].at.first >= Written(events[i]).expiresAt
  {
    RunIsRemembered(max, events, tables, n, key);
    SetNXAnswers(max, tables[n], events[n], tables[n + 1], key);
    if LatestWrite(events, n, key).Some? && key !in tables[n] {
      var i := LatestWrite(events, n, key).value;
      var m :| i < m < n && events[m].at.first > Written(events[i]).expiresAt;
      assert events[m].at.stamp <= events[n].at.first;
    }
  }

  lemma SetNXAnswers(max: nat, t: Table, e: Event, t': Table, key: string)
    requires Next(max, t, e, t') && e.op.SetNX? && e.op.key == key
    ensures e.answer == Done <==> key !in t || e.at.first >= t[key].expiresAt
  {
  }

  /** Two successful SetNX are the first one's ttl apart when nothing wrote, deleted or evicted the key in between. */
  lemma SetNXAreApart(max: nat, events: seq<Event>, tables: seq<Table>, i: nat, n: nat, key: string)
    requires IsRun(max, events, tables) && i < n < |events|
    requires events[i].op.SetNX? && events[n].op.SetNX? && events[n].op.key == key && events[n].answer == Done
    requires LatestWrite(events, n, key) == Some(i)
    ensures events[n].at.first - events[i].at.stamp >= Lifetime(events[i].op.ttl)
  {
    SetNXWaitsForTheLatestWrite(max, events, tables, n, key);
  }

  /** The run goes on with a SetNX of the key that succeeds. */
  ghost predicate SucceedsNext(max: nat, events: seq<Event>, tables: seq<Table>, key: string, e: Event, t: Table) {
    && IsRun(max, events + [e], tables + [t])
    && e.op.SetNX? && e.op.key == key && e.answer == Done
  }

  /** The first moment at which a SetNX behind these events can succeed. */
  function FreeFrom(events: seq<Event>, key: string): int
    requires events != []
  {
    var now := events[|events| - 1].at.stamp;
    match LatestWrite(events, |events|, key)
    case None => now
    case Some(j) => if Written(events[j]).expiresAt > now then Written(events[j]).expiresAt else now
  }

  lemma {:induction false} LatestWriteOfMore(events: seq<Event>, e: Event, n: nat, key: string)
    requires n <= |events|
    ensures LatestWrite(events + [e], n, key) == LatestWrite(events, n, key)
  {
    if n > 0 {
      LatestWriteOfMore(events, e, n - 1, key);
    }
  }

  lemma SuccessIsNotEarlier(max: nat, events: seq<Event>, tables: seq<Table>, key: string, e: Event, t: Table)
    requires events != [] && SucceedsNext(max, events, tables, key, e, t)
    ensures e.at.first >= FreeFrom(events, key)
  {
    var n := |events|;
    SetNXWaitsForTheLatestWrite(max, events + [e], tables + [t], n, key);
    LatestWriteOfMore(events, e, n, key);
    assert (events + [e])[n - 1] == events[n - 1] && (events + [e])[n] == e;
  }

  /** Room can always be made. */
  lemma RoomCanBeMade(max: nat, t: Table, incoming: string, now: int) returns (dropped: set<string>)
    requires 0 < max
    ensures MayDrop(max, t, incoming, now, dropped)
  {
    if incoming in t || |t| < max {
      dropped := {};
    } else if Stale(t, now) != {} {
      dropped := Stale(t, now);
    } else {
      SomeKey(t);
      var key :| key in t;
      dropped := {key};
    }
  }

  lemma RunOneMore(max: nat, events: seq<Event>, tables: seq<Table>, e: Event, t: Table)
    requires IsRun(max, events, tables) && Next(max, tables[|events|], e, t) && e.at.Ordered()
    requires events != [] ==> events[|events| - 1].at.stamp <= e.at.first
    ensures IsRun(max, events + [e], tables + [t])
  {
    var n := |events|;
    forall k | 0 <= k < n
      ensures events[k].at.stamp <= e.at.first
    {
      assert events[k].at.stamp <= events[n - 1].at.stamp || k == n - 1;
    }
  }

  lemma NothingHoldsOutLonger(events: seq<Event>, key: string, t: Table)
    requires events != [] && Remembers(events, |events|, key, t)
    ensures FreeFrom(events, key) >= events[|events| - 1].at.stamp
    ensures key in t ==> t[key].expiresAt <= FreeFrom(events, key)
  {
  }

  lemma SuccessCanComeThen(max: nat, events: seq<Event>, tables: seq<Table>, key: string)
    returns (e: Event, t: Table)
    requires 0 < max && events != [] && IsRun(max, events, tables)
    ensures SucceedsNext(max, events, tables, key, e, t) && e.at.first == FreeFrom(events, key)
  {
    var n, now := |events|, FreeFrom(events, key);
    RunIsRemembered(max, events, tables, n, key);
    var dropped := RoomCanBeMade(max, tables[n], key, now);
    NothingHoldsOutLonger(events, key, tables[n]);
    e, t := SuccessHappens(max, tables[n], key, now, dropped);
    RunOneMore(max, events, tables, e, t);
  }

  lemma SuccessHappens(max: nat, before: Table, key: string, now: int, dropped: set<string>)
    returns (e: Event, t: Table)
    requires MayDrop(max, before, key, now, dropped) && (key in before ==> before[key].expiresAt <= now)
    ensures e == Event(SetNX(key, [], 1), Readings(now, now, now), dropped, Done) && Next(max, before, e, t)
  {
    e := Event(SetNX(key, [], 1), Readings(now, now, now), dropped, Done);
    t := (before - dropped)[key := Timed([], now + 1)];
  }

  /** Every SetNX that could succeed now would come a lifetime after the i-th event's. */
  ghost predicate StaysApart(max: nat, events: seq<Event>, tables: seq<Table>, i: nat, key: string)
    requires i < |events| && events[i].op.SetNX?
  {
    forall e, t | SucceedsNext(max, events, tables, key, e, t) ::
      e.at.first - events[i].at.stamp >= Lifetime(events[i].op.ttl)
  }

  /**
    Exactly when a second success is sure to come a lifetime after the first, whatever writes, deletions and
    evictions lie between: if that time has passed already, or the entry last written and not removed since holds
    out as long as the first would have.
   */
  lemma SetNXAreApartExactly(max: nat, events: seq<Event>, tables: seq<Table>, i: nat, key: string)
    requires 0 < max && IsRun(max, events, tables) && i < |events|
    requires events[i].op.SetNX? && events[i].op.key == key && events[i].answer == Done
    ensures var until, latest := Written(events[i]).expiresAt, LatestWrite(events, |events|, key);
            StaysApart(max, events, tables, i, key)
            <==> || events[|events| - 1].at.stamp >= until
                 || (latest.Some? && Written(events[latest.value]).expiresAt >= until)
  {
    if FreeFrom(events, key) >= Written(events[i]).expiresAt {
      forall e, t | SucceedsNext(max, events, tables, key, e, t)
        ensures e.at.first - events[i].at.stamp >= Lifetime(events[i].op.ttl)
      {
        SuccessIsNotEarlier(max, events, tables, key, e, t);
      }
    } else {
      var e, t := SuccessCanComeThen(max, events, tables, key);
      assert SucceedsNext(max, events, tables, key, e, t);
    }
  }

  /** One write into a table with room, as an event. */
  lemma WriteIsNext(max: nat, t: Table, op: Op, now: int)
    requires op.Set? || (op.SetNX? && (op.key in t ==> now >= t[op.key].expiresAt))
    requires |t| < max || op.key in t
    ensures var e := Event(op, Readings(now, now, now), {}, Done); Next(max, t, e, t[op.key := Written(e)])
  {
    assert t - {} == t;
  }

  /** A SetNX for 100, a Set for 1, and a second SetNX that succeeds after 3. */
  lemma ShortenedRun(key: string) returns (events: seq<Event>, tables: seq<Table>)
    ensures IsRun(8, events, tables) && |events| == 3
    ensures forall k | 0 <= k < 3 :: events[k].answer == Done && events[k].dropped == {} && !events[k].op.Delete?
    ensures events[0].op == SetNX(key, [], 100) && events[2].op.SetNX? && events[2].op.key == key
    ensures events[2].at.first - events[0].at.stamp == 3
  {
    var first, second, third := SetNX(key, [], 100), Op.Set(key, [], 1), SetNX(key, [], 100);
    var t0: Table := map[];
    WriteIsNext(8, t0, first, 0);
    var t1 := t0[key := Timed([], 100)];
    WriteIsNext(8, t1, second, 1);
    var t2 := t1[key := Timed([], 2)];
    WriteIsNext(8, t2, third, 3);
    var t3 := t2[key := Timed([], 103)];
    events := [Event(first, Readings(0, 0, 0), {}, Done), Event(second, Readings(1, 1, 1), {}, Done),
               Event(third, Readings(3, 3, 3), {}, Done)];
    tables := [t0, t1, t2, t3];
  }

  /** A plain Set in between voids that distance: nothing is deleted or evicted here, and 3 is less than 100. */
  lemma SetShortensTheDistance(key: string) returns (events: seq<Event>, tables: seq<Table>)
    ensures IsRun(8, events, tables) && |events| == 3
    ensures forall k | 0 <= k < 3 :: events[k].answer == Done && events[k].dropped == {} && !events[k].op.Delete?
    ensures events[0].op == SetNX(key, [], 100) && events[2].op.SetNX? && events[2].op.key == key
    ensures events[2].at.first - events[0].at.stamp == 3 && !StaysApart(8, events[..2], tables[..3], 0, key)
  {
    events, tables := ShortenedRun(key);
    assert events[..2] + [events[2]] == events && tables[..3] + [tables[3]] == tables;
    assert SucceedsNext(8, events[..2], tables[..3], key, events[2], tables[3]);
  }

  /** An entry still in time is dropped only for a new key, from a table full of entries still in time. */
  lemma EvictionNeedsAFullTable(max: nat, t: Table, incoming: string, now: int, dropped: set<string>, key: string)
    requires |t| <= max && MayDrop(max, t, incoming, now, dropped)
    requires key in dropped && now <= t[key].expiresAt
    ensures incoming !in t && |t| == max && forall k | k in t :: now <= t[k].expiresAt
  {
    assert forall k | k in t && now > t[k].expiresAt :: k in Stale(t, now);
  }

  lemma NextKeepsBound(max: nat, t: Table, e: Event, t': Table)
    requires 0 < max && |t| <= max && Next(max, t, e, t')
    ensures |t'| <= max
  {
    match e.op
    case Get(key) => SizeAfterRemoval(t, key);
    case Delete(keys) => DeleteKeepsBound(t, set k | k in keys);
    case Set(key, value, ttl) =>
      WriteKeepsBound(max, t, key, e.at.sweep, e.dropped, Timed(value, e.at.stamp + Lifetime(ttl)), t');
    case SetNX(key, value, ttl) =>
      if e.answer == Done {
        WriteKeepsBound(max, t, key, e.at.sweep, e.dropped, Timed(value, e.at.stamp + Lifetime(ttl)), t');
      }
  }

  lemma DeleteKeepsBound(t: Table, keys: set<string>)
    ensures |t - keys| <= |t|
  {
    var gone := t.Keys * keys;
    assert t - keys == t - gone;
    SizeAfterDifference(t, gone);
  }

  lemma WriteKeepsBound(max: nat, t: Table, key: string, now: int, dropped: set<string>, item: Timed, t': Table)
    requires 0 < max && |t| <= max && MayDrop(max, t, key, now, dropped) && t' == (t - dropped)[key := item]
    ensures |t'| <= max
  {
    SizeAfterDifference(t, dropped);
    SizeAfterInsertion(t - dropped, key, item);
    StaleIsInside(t, now);
  }

  lemma StaleIsInside(t: Table, now: int)
    ensures Stale(t, now) != {} ==> |Stale(t, now)| >= 1
  {
  }

  /** The cache never outgrows its limit. */
  lemma {:induction false} RunStaysBounded(max: nat, events: seq<Event>, tables: seq<Table>, n: nat)
    requires 0 < max && IsRun(max, events, tables) && n <= |events|
    ensures |tables[n]| <= max
  {
    if n > 0 {
      RunStaysBounded(max, events, tables, n - 1);
      NextKeepsBound(max, tables[n - 1], events[n - 1], tables[n]);
    }
  }
}
