/**
  The call budget of internal/ai/budget/budget.go over the in-process cache.  Times are
  nanoseconds since 1970; an operation takes its clock readings in order.
 */
module Budget {
  import opened Common
  import D = Decimal
  import opened MemCache

  const SECOND := 1_000_000_000
  const TWO_TO_THE_31 := 0x8000_0000

  /** The limits of a Limiter.  Usable leaves out windows below one second, for which the source divides by zero. */
  datatype Limits = Limits(maxPerReq: int, maxPerWindow: int, window: int) {
    predicate Usable() {
      window >= SECOND && maxPerWindow <= D.MAX_INT64
    }
  }

  // ---------------------------------------------------------------- the per-request counter

  /** atomic.Int32 */
  function Wrap32(n: int): (w: int)
    ensures -TWO_TO_THE_31 <= w < TWO_TO_THE_31 && (w - n) % 0x1_0000_0000 == 0
  {
    (n + TWO_TO_THE_31) % 0x1_0000_0000 - TWO_TO_THE_31
  }

  class Counter {
    var value: int

    constructor ()
      ensures value == 0
    {
      value := 0;
    }
  }

  /** How many of the first n calls of one request pass: the k-th adds one and reads Wrap32(k). */
  function Passed(n: nat, max: int): (p: nat)
    ensures p <= n
  {
    if n == 0 then 0 else Passed(n - 1, max) + if Wrap32(n) <= max then 1 else 0
  }

  /** Adding one to what k calls left reads as k + 1 calls. */
  lemma CounterCountsCalls(k: int)
    ensures Wrap32(Wrap32(k) + 1) == Wrap32(k + 1)
  {
  }

  lemma {:induction false} PassedBeforeTheWrap(n: nat, max: int)
    requires n < TWO_TO_THE_31 && max > 0
    ensures Passed(n, max) == if n <= max then n else max
  {
    if n > 0 {
      PassedBeforeTheWrap(n - 1, max);
      assert Wrap32(n) == n;
    }
  }

  lemma {:induction false} PassedGrows(m: nat, n: nat, max: int)
    requires m <= n
    ensures Passed(m, max) <= Passed(n, max) <= Passed(m, max) + (n - m)
  {
    if m < n {
      PassedGrows(m, n - 1, max);
    }
  }

  lemma {:induction false} WideLimitPassesAll(n: nat, max: int)
    requires max >= TWO_TO_THE_31 - 1
    ensures Passed(n, max) == n
  {
    if n > 0 {
      WideLimitPassesAll(n - 1, max);
    }
  }

  /** The per-request limit holds exactly until the 32-bit counter wraps. */
  lemma RequestLimitHolds(n: nat, max: int)
    requires max > 0
    ensures Passed(n, max) <= max <==> n < TWO_TO_THE_31 || n <= max
  {
    if n < TWO_TO_THE_31 {
      PassedBeforeTheWrap(n, max);
    } else if max >= TWO_TO_THE_31 - 1 {
      WideLimitPassesAll(n, max);
    } else {
      PassedBeforeTheWrap(TWO_TO_THE_31 - 1, max);
      assert Wrap32(TWO_TO_THE_31) <= max;
      PassedGrows(TWO_TO_THE_31, n, max);
    }
  }

  // ---------------------------------------------------------------- the company window

  function BucketOf(at: nat, window: int): nat
    requires window >= SECOND
  {
    (at / SECOND) / (window / SECOND)
  }

  /** When a bucket begins. */
  function Opening(bucket: nat, window: int): int
    requires window >= SECOND
  {
    bucket * (window / SECOND) * SECOND
  }

  /** The bucket is no longer than the window, so an entry made in it outlives it. */
  lemma BucketFitsTheWindow(at: nat, window: int)
    requires window >= SECOND
    ensures var o := Opening(BucketOf(at, window), window); o <= at < o + window
  {
    var seconds, length := at / SECOND, window / SECOND;
    assert seconds == seconds / length * length + seconds % length;
  }

  /** rag:budget:<company>:<bucket> */
  function Key(company: int, bucket: int): string {
    "rag" + ":" + ("budget" + ":" + (D.FormatInt(company) + ":" + D.FormatInt(bucket)))
  }

  lemma SplitOfKey(company: int, bucket: int)
    ensures D.Split(Key(company, bucket), ':') == ["rag", "budget", D.FormatInt(company), D.FormatInt(bucket)]
  {
    D.FormatIsDecimal(company);
    D.FormatIsDecimal(bucket);
    D.SplitOfFour("rag", "budget", D.FormatInt(company), D.FormatInt(bucket), ':');
  }

  /** Different companies and buckets count in different entries. */
  lemma KeysAreDistinct(c1: int, b1: int, c2: int, b2: int)
    requires D.IsInt64(c1) && D.IsInt64(b1) && D.IsInt64(c2) && D.IsInt64(b2)
    requires Key(c1, b1) == Key(c2, b2)
    ensures c1 == c2 && b1 == b2
  {
    SplitOfKey(c1, b1);
    SplitOfKey(c2, b2);
    D.ParseOfFormat(c1);
    D.ParseOfFormat(c2);
    D.ParseOfFormat(b1);
    D.ParseOfFormat(b2);
  }

  function TextOf(raw: seq<byte>): (s: string)
    ensures |s| == |raw|
  {
    seq(|raw|, i requires 0 <= i < |raw| => raw[i] as char)
  }

  predicate Narrow(s: string) {
    forall i | 0 <= i < |s| :: s[i] as int < 256
  }

  function BytesOf(s: string): (raw: seq<byte>)
    requires Narrow(s)
    ensures TextOf(raw) == s
  {
    seq(|s|, i requires 0 <= i < |s| => s[i] as byte)
  }

  /** The count an entry stands for: 0 unless it holds an integer. */
  function UsedIn(raw: Option<seq<byte>>): int {
    if raw.None? || raw.value == [] then 0
    else match D.ParseInt(TextOf(raw.value)) case Some(n) => n case None => 0
  }

  lemma FormatIsNarrow(n: int)
    ensures Narrow(D.FormatInt(n))
  {
    D.FormatIsDecimal(n);
  }

  function CountText(n: int): (raw: seq<byte>)
  {
    FormatIsNarrow(n);
    BytesOf(D.FormatInt(n))
  }

  lemma CountIsReadBack(n: int)
    requires D.IsInt64(n)
    ensures UsedIn(Some(CountText(n))) == n
  {
    FormatIsNarrow(n);
    D.FormatIsDecimal(n);
    D.ParseOfFormat(n);
    assert TextOf(CountText(n)) == D.FormatInt(n);
  }

  /** Panicked: the source divides by zero. */
  datatype Verdict = Granted | Refused | Aborted | Panicked

  /**
    One allowWindow call: the reading that picks the bucket, the reading of the Get, those of the Set,
    whether the context was alive after a miss; and the table the Get found, the one the Set found
    (others may have used the cache in between), and the one left behind.
   */
  datatype Call = Call(company: int, at: nat, get: int, sets: Readings, alive: bool,
                       before: Table, mid: Table, dropped: set<string>, after: Table, verdict: Verdict)

  function Found(t: Table, key: string, now: int): Option<seq<byte>> {
    if key in t && now <= t[key].expiresAt then Some(t[key].value) else None
  }

  function AfterGet(t: Table, key: string, now: int): Table {
    if key in t && now > t[key].expiresAt then t - {key} else t
  }

  function KeyOf(l: Limits, c: Call): string
    requires l.window >= SECOND
  {
    Key(c.company, BucketOf(c.at, l.window))
  }

  ghost predicate IsCall(l: Limits, max: nat, c: Call)
    requires l.Usable() && l.maxPerWindow > 0
  {
    var key := KeyOf(l, c);
    var raw := Found(c.before, key, c.get);
    && c.at <= c.get <= c.sets.first && c.sets.Ordered()
    && if raw.None? && !c.alive then
         c.verdict == Aborted && c.dropped == {} && c.after == AfterGet(c.before, key, c.get)
       else if UsedIn(raw) >= l.maxPerWindow then c.verdict == Refused && c.dropped == {} && c.after == c.before
       else
         && c.verdict == Granted
         && Next(max, c.mid, Event(Op.Set(key, CountText(UsedIn(raw) + 1), l.window), c.sets, c.dropped, Done), c.after)
  }

  /** IsCall for a key and what was found under it. */
  lemma CallHappens(l: Limits, max: nat, c: Call, key: string, raw: Option<seq<byte>>)
    requires l.Usable() && l.maxPerWindow > 0 && KeyOf(l, c) == key && Found(c.before, key, c.get) == raw
    requires c.at <= c.get <= c.sets.first && c.sets.Ordered()
    requires match c.verdict
             case Aborted => raw.None? && !c.alive && c.dropped == {} && c.after == AfterGet(c.before, key, c.get)
             case Refused => UsedIn(raw) >= l.maxPerWindow && c.dropped == {} && c.after == c.before
             case Granted =>
               && UsedIn(raw) < l.maxPerWindow && (raw.Some? || c.alive)
               && Next(max, c.mid, Event(Op.Set(key, CountText(UsedIn(raw) + 1), l.window), c.sets, c.dropped, Done),
                       c.after)
             case Panicked => false
    ensures IsCall(l, max, c)
  {
  }

  class Limiter {
    const limits: Limits
    const cache: Cache?

    /** New: a window that is not positive becomes one minute. */
    constructor (cache: Cache?, limits: Limits)
      ensures this.cache == cache
      ensures this.limits == limits.(window := if limits.window <= 0 then MINUTE else limits.window)
    {
      this.cache := cache;
      this.limits := limits.(window := if limits.window <= 0 then MINUTE else limits.window);
    }

    method AllowRequest(counter: Counter?) returns (ok: bool)
      modifies counter
      ensures limits.maxPerReq <= 0 || counter == null ==>
                ok && (counter != null ==> counter.value == old(counter.value))
      ensures limits.maxPerReq > 0 && counter != null ==>
                counter.value == Wrap32(old(counter.value) + 1) && ok == (counter.value <= limits.maxPerReq)
    {
      if limits.maxPerReq <= 0 || counter == null {
        return true;
      }
      counter.value := Wrap32(counter.value + 1);
      ok := counter.value <= limits.maxPerReq;
    }

    /** What one window check does, alone in the cache between its Get and its Set. */
    ghost predicate Checked(company: int, at: nat, get: int, sets: Readings, alive: bool, before: Table, max: nat,
                            dropped: set<string>, after: Table, verdict: Verdict)
    {
      if limits.maxPerWindow <= 0 then verdict == Granted && after == before
      else if limits.window < SECOND then verdict == Panicked && after == before
      else
        limits.maxPerWindow <= D.MAX_INT64 &&
        var key := Key(company, BucketOf(at, limits.window));
        IsCall(limits, max, Call(company, at, get, sets, alive, before, AfterGet(before, key, get), dropped, after,
                                 verdict))
    }

    /** allowWindow: no limit, no cache or a division by zero, and else the check itself. */
    method AllowWindow(company: int, at: nat, get: int, sets: Readings, alive: bool)
      returns (verdict: Verdict, ghost dropped: set<string>)
      requires limits.maxPerWindow <= D.MAX_INT64 && at <= get <= sets.first && sets.Ordered()
      requires cache != null ==> cache.Valid()
      modifies cache
      ensures cache != null ==> cache.Valid()
      ensures cache == null ==> verdict == Granted
      ensures cache != null ==>
                Checked(company, at, get, sets, alive, old(cache.Contents()), cache.maxEntries, dropped,
                        cache.Contents(), verdict)
    {
      dropped := {};
      if limits.maxPerWindow <= 0 || cache == null {
        return Granted, dropped;
      }
      if limits.window / SECOND <= 0 {
        return Panicked, dropped;
      }
      ghost var c;
      verdict, c := CheckWindow(cache, company, at, get, sets, alive);
      dropped := c.dropped;
    }

    method CheckWindow(cache: Cache, company: int, at: nat, get: int, sets: Readings, alive: bool)
      returns (verdict: Verdict, ghost c: Call)
      requires limits.Usable() && limits.maxPerWindow > 0 && at <= get <= sets.first && sets.Ordered()
      requires cache.Valid()
      modifies cache
      ensures cache.Valid() && IsCall(limits, cache.maxEntries, c)
      ensures var before := old(cache.Contents());
              var mid := AfterGet(before, Key(company, BucketOf(at, limits.window)), get);
              c == Call(company, at, get, sets, alive, before, mid, c.dropped, cache.Contents(), verdict)
    {
      ghost var before := cache.Contents();
      var bucket := (at / SECOND) / (limits.window / SECOND);
      var key := Key(company, bucket);
      var raw := Look(cache, key, get);
      ghost var mid := cache.Contents();
      if raw.None? && !alive {
        verdict, c := Aborted, Call(company, at, get, sets, alive, before, mid, {}, mid, Aborted);
        CallHappens(limits, cache.maxEntries, c, key, raw);
      } else {
        var used := UsedIn(raw);
        if used >= limits.maxPerWindow {
          verdict, c := Refused, Call(company, at, get, sets, alive, before, mid, {}, mid, Refused);
          CallHappens(limits, cache.maxEntries, c, key, raw);
        } else {
          ghost var dropped := Write(cache, key, used + 1, sets);
          verdict, c := Granted, Call(company, at, get, sets, alive, before, mid, dropped, cache.Contents(), Granted);
          CallHappens(limits, cache.maxEntries, c, key, raw);
        }
      }
    }

    method Look(cache: Cache, key: string, get: int) returns (raw: Option<seq<byte>>)
      requires cache.Valid()
      modifies cache
      ensures cache.Valid()
      ensures raw == Found(old(cache.Contents()), key, get)
      ensures cache.Contents() == AfterGet(old(cache.Contents()), key, get)
    {
      var out := cache.Get(key, get);
      raw := if out == null then None else Some(out[..]);
    }

    method Write(cache: Cache, key: string, count: int, sets: Readings) returns (ghost dropped: set<string>)
      requires cache.Valid() && sets.Ordered()
      modifies cache
      ensures cache.Valid()
      ensures Next(cache.maxEntries, old(cache.Contents()),
                   Event(Op.Set(key, CountText(count), limits.window), sets, dropped, Done),
                   cache.Contents())
    {
      var text := CountText(count);
      var next := new byte[|text|](i requires 0 <= i < |text| => text[i]);
      assert next[..] == text;
      dropped := cache.Set(key, next, limits.window, sets);
    }

    /** Acquire: the request's own limit first, and only then the company's. */
    method Acquire(counter: Counter?, company: int, at: nat, get: int, sets: Readings, alive: bool)
      returns (verdict: Verdict, ghost dropped: set<string>)
      requires limits.maxPerWindow <= D.MAX_INT64 && at <= get <= sets.first && sets.Ordered()
      requires cache != null ==> cache.Valid()
      modifies counter, cache
      ensures cache != null ==> cache.Valid()
      ensures counter != null ==>
                counter.value == if limits.maxPerReq > 0 then Wrap32(old(counter.value) + 1) else old(counter.value)
      ensures if limits.maxPerReq > 0 && counter != null && Wrap32(old(counter.value) + 1) > limits.maxPerReq then
                verdict == Refused && (cache != null ==> cache.Contents() == old(cache.Contents()))
              else if cache == null then verdict == Granted
              else Checked(company, at, get, sets, alive, old(cache.Contents()), cache.maxEntries, dropped,
                           cache.Contents(), verdict)
    {
      dropped := {};
      var ok := AllowRequest(counter);
      if !ok {
        return Refused, dropped;
      }
      verdict, dropped := AllowWindow(company, at, get, sets, alive);
    }
  }

  // ---------------------------------------------------------------- whole histories

  /** Between two points, others left the key's entry alone, or dropped it once it had expired. */
  ghost predicate Leaves(key: string, t: Table, t': Table, until: int) {
    && (key in t' ==> key in t && t'[key] == t[key])
    && (key in t && key !in t' ==> t[key].expiresAt < until)
  }

  /** What another user of the cache does is of that kind, unless it writes, deletes or evicts the key. */
  lemma OthersLeave(max: nat, t: Table, e: Event, t': Table, key: string)
    requires Next(max, t, e, t') && e.at.Ordered() && !Writes(e, key)
    requires Erases(e, key) && key in t ==> t[key].expiresAt < e.at.stamp
    ensures Leaves(key, t, t', e.at.stamp)
  {
  }

  /** So is a call of another company or in another bucket. */
  lemma OtherCallsLeave(l: Limits, max: nat, c: Call, company: int, bucket: nat)
    requires l.Usable() && l.maxPerWindow > 0 && IsCall(l, max, c)
    requires D.IsInt64(company) && D.IsInt64(bucket) && D.IsInt64(c.company) && D.IsInt64(BucketOf(c.at, l.window))
    requires (c.company, BucketOf(c.at, l.window)) != (company, bucket)
    requires c.mid == AfterGet(c.before, KeyOf(l, c), c.get) && Key(company, bucket) !in c.dropped
    ensures Leaves(Key(company, bucket), c.before, c.after, c.sets.stamp)
  {
    if KeyOf(l, c) == Key(company, bucket) {
      KeysAreDistinct(c.company, BucketOf(c.at, l.window), company, bucket);
    }
  }

  ghost predicate CountsFor(l: Limits, c: Call, company: int, bucket: nat)
    requires l.window >= SECOND
  {
    c.company == company && BucketOf(c.at, l.window) == bucket
  }

  /** Calls one after another, among which everybody else leaves the entry of this company and bucket alone. */
  ghost predicate IsHistory(l: Limits, max: nat, calls: seq<Call>, company: int, bucket: nat)
    requires l.Usable() && l.maxPerWindow > 0
  {
    var key := Key(company, bucket);
    && (forall i | 0 <= i < |calls| :: IsCall(l, max, calls[i]))
    && (forall i | 0 <= i < |calls| - 1 :: calls[i].sets.stamp <= calls[i + 1].at)
    && (|calls| > 0 ==> key !in calls[0].before)
    && (forall i | 0 <= i < |calls| - 1 :: Leaves(key, calls[i].after, calls[i + 1].before, calls[i + 1].at))
    && (forall i | 0 <= i < |calls| && !CountsFor(l, calls[i], company, bucket) ::
          Leaves(key, calls[i].before, calls[i].after, calls[i].sets.stamp))
  }

  /** The calls for the bucket look into the cache no later than one window after it opened. */
  ghost predicate Prompt(l: Limits, calls: seq<Call>, company: int, bucket: nat)
    requires l.window >= SECOND
  {
    forall i | 0 <= i < |calls| && CountsFor(l, calls[i], company, bucket) ::
      calls[i].get <= Opening(bucket, l.window) + l.window
  }

  /** How many of the first n calls for the bucket had this verdict. */
  ghost function Count(l: Limits, calls: seq<Call>, n: nat, company: int, bucket: nat, v: Verdict): nat
    requires l.window >= SECOND && n <= |calls|
  {
    if n == 0 then 0
    else
      Count(l, calls, n - 1, company, bucket, v)
      + if CountsFor(l, calls[n - 1], company, bucket) && calls[n - 1].verdict == v then 1 else 0
  }

  /** After g grants the entry holds g and outlives the bucket's window, or that window has passed. */
  ghost predicate Holds(l: Limits, t: Table, company: int, bucket: nat, g: nat, now: int)
    requires l.window >= SECOND
  {
    var key, end := Key(company, bucket), Opening(bucket, l.window) + l.window;
    || (g == 0 && key !in t)
    || (g > 0 && key in t && t[key].value == CountText(g) && end <= t[key].expiresAt)
    || (key !in t && end < now)
  }

  lemma HoldsOverALapse(l: Limits, t: Table, t': Table, company: int, bucket: nat, g: nat, now: int, until: int)
    requires l.window >= SECOND && Holds(l, t, company, bucket, g, now) && now <= until
    requires Leaves(Key(company, bucket), t, t', until)
    ensures Holds(l, t', company, bucket, g, until)
  {
  }

  /** A call in time finds the count. */
  lemma CountIsFound(l: Limits, c: Call, g: nat)
    requires l.Usable() && g <= l.maxPerWindow && c.at <= c.get
    requires var bucket := BucketOf(c.at, l.window);
             Holds(l, c.before, c.company, bucket, g, c.at) && c.get <= Opening(bucket, l.window) + l.window
    ensures Found(c.before, KeyOf(l, c), c.get) == if g == 0 then None else Some(CountText(g))
    ensures UsedIn(Found(c.before, KeyOf(l, c), c.get)) == g
  {
    CountIsReadBack(g);
  }

  /** Writing a count at or after the opening makes it outlive the window. */
  lemma CountIsHeld(l: Limits, max: nat, c: Call, g: nat)
    requires l.Usable() && g > 0 && c.at <= c.sets.stamp
    requires Next(max, c.mid, Event(Op.Set(KeyOf(l, c), CountText(g), l.window), c.sets, c.dropped, Done), c.after)
    ensures Holds(l, c.after, c.company, BucketOf(c.at, l.window), g, c.sets.stamp)
  {
    BucketFitsTheWindow(c.at, l.window);
  }

  /** A counted call grants exactly while fewer than the maximum were granted, and writes the next count. */
  lemma CountedCall(l: Limits, max: nat, c: Call, g: nat)
    requires l.Usable() && 0 < l.maxPerWindow && IsCall(l, max, c) && g <= l.maxPerWindow
    requires var bucket := BucketOf(c.at, l.window);
             Holds(l, c.before, c.company, bucket, g, c.at) && c.get <= Opening(bucket, l.window) + l.window
    ensures var bucket := BucketOf(c.at, l.window);
            var g' := if c.verdict == Granted then g + 1 else g;
            && Holds(l, c.after, c.company, bucket, g', c.sets.stamp)
            && (c.verdict == Granted ==> g < l.maxPerWindow)
            && (c.verdict == Refused ==> g == l.maxPerWindow)
            && (c.verdict == Aborted ==> g == 0)
  {
    CountIsFound(l, c, g);
    if c.verdict == Granted {
      CountIsHeld(l, max, c, g + 1);
    }
  }

  /** The first n calls granted at most the maximum, refused only at the maximum, and the entry holds their count. */
  ghost predicate Tally(l: Limits, calls: seq<Call>, n: nat, company: int, bucket: nat)
    requires l.window >= SECOND && n <= |calls|
  {
    var g := Count(l, calls, n, company, bucket, Granted);
    && g <= l.maxPerWindow
    && (Count(l, calls, n, company, bucket, Refused) > 0 ==> g == l.maxPerWindow)
    && (n > 0 ==> Holds(l, calls[n - 1].after, company, bucket, g, calls[n - 1].sets.stamp))
  }

  /** What the n-th call finds in the entry. */
  lemma EntryBefore(l: Limits, max: nat, calls: seq<Call>, n: nat, company: int, bucket: nat)
    requires l.Usable() && l.maxPerWindow > 0 && IsHistory(l, max, calls, company, bucket)
    requires n < |calls| && Tally(l, calls, n, company, bucket)
    ensures Holds(l, calls[n].before, company, bucket, Count(l, calls, n, company, bucket, Granted), calls[n].at)
  {
    if n > 0 {
      var g, last := Count(l, calls, n, company, bucket, Granted), calls[n - 1];
      HoldsOverALapse(l, last.after, calls[n].before, company, bucket, g, last.sets.stamp, calls[n].at);
    }
  }

  lemma OneMoreCounted(l: Limits, max: nat, calls: seq<Call>, n: nat, company: int, bucket: nat)
    requires l.Usable() && l.maxPerWindow > 0 && n < |calls| && Tally(l, calls, n, company, bucket)
    requires Holds(l, calls[n].before, company, bucket, Count(l, calls, n, company, bucket, Granted), calls[n].at)
    requires CountsFor(l, calls[n], company, bucket) && IsCall(l, max, calls[n])
    requires calls[n].get <= Opening(bucket, l.window) + l.window
    ensures Tally(l, calls, n + 1, company, bucket)
  {
    CountedCall(l, max, calls[n], Count(l, calls, n, company, bucket, Granted));
  }

  lemma OneMoreOther(l: Limits, calls: seq<Call>, n: nat, company: int, bucket: nat)
    requires l.window >= SECOND && n < |calls| && Tally(l, calls, n, company, bucket)
    requires Holds(l, calls[n].before, company, bucket, Count(l, calls, n, company, bucket, Granted), calls[n].at)
    requires !CountsFor(l, calls[n], company, bucket) && calls[n].at <= calls[n].sets.stamp
    requires Leaves(Key(company, bucket), calls[n].before, calls[n].after, calls[n].sets.stamp)
    ensures Tally(l, calls, n + 1, company, bucket)
  {
    var g := Count(l, calls, n, company, bucket, Granted);
    HoldsOverALapse(l, calls[n].before, calls[n].after, company, bucket, g, calls[n].at, calls[n].sets.stamp);
  }

  lemma {:induction false} GrantsAreCounted(l: Limits, max: nat, calls: seq<Call>, n: nat, company: int, bucket: nat)
    requires l.Usable() && l.maxPerWindow > 0 && IsHistory(l, max, calls, company, bucket)
    requires Prompt(l, calls, company, bucket) && n <= |calls|
    ensures Tally(l, calls, n, company, bucket)
  {
    if n > 0 {
      GrantsAreCounted(l, max, calls, n - 1, company, bucket);
      EntryBefore(l, max, calls, n - 1, company, bucket);
      assert IsCall(l, max, calls[n - 1]);
      if CountsFor(l, calls[n - 1], company, bucket) {
        OneMoreCounted(l, max, calls, n - 1, company, bucket);
      } else {
        OneMoreOther(l, calls, n - 1, company, bucket);
      }
    }
  }

  /** The window's limit: never more grants than allowed, and no refusal before they are used up. */
  lemma WindowLimitHolds(l: Limits, max: nat, calls: seq<Call>, company: int, bucket: nat)
    requires l.Usable() && l.maxPerWindow > 0 && IsHistory(l, max, calls, company, bucket)
    requires Prompt(l, calls, company, bucket)
    ensures Count(l, calls, |calls|, company, bucket, Granted) <= l.maxPerWindow
    ensures Count(l, calls, |calls|, company, bucket, Refused) > 0 ==>
              Count(l, calls, |calls|, company, bucket, Granted) == l.maxPerWindow
  {
    GrantsAreCounted(l, max, calls, |calls|, company, bucket);
  }

  /** With one clock reading per call every call is prompt. */
  lemma OneReadingIsPrompt(l: Limits, calls: seq<Call>, company: int, bucket: nat)
    requires l.window >= SECOND && forall i | 0 <= i < |calls| :: calls[i].get == calls[i].at
    ensures Prompt(l, calls, company, bucket)
  {
    forall i | 0 <= i < |calls| && CountsFor(l, calls[i], company, bucket)
      ensures calls[i].get <= Opening(bucket, l.window) + l.window
    {
      BucketFitsTheWindow(calls[i].at, l.window);
    }
  }
}
