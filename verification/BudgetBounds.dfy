/** How far the two limits of internal/ai/budget/budget.go carry: a request's calls in a row, and late cache reads. */
module BudgetBounds {
  import opened Common
  import D = Decimal
  import opened MemCache
  import opened Budget

  // ---------------------------------------------------------------- one request

  /** What the oracles answer during one Acquire. */
  datatype Visit = Visit(company: int, at: nat, get: int, sets: Readings, alive: bool) {
    predicate Ordered() {
      at <= get <= sets.first && sets.Ordered()
    }
  }

  /** A request asking again and again on its counter: AllowRequest passes the calls Passed counts. */
  method AskAgain(limiter: Limiter, n: nat) returns (passed: nat)
    requires limiter.limits.maxPerReq > 0
    ensures passed == Passed(n, limiter.limits.maxPerReq)
    ensures passed <= limiter.limits.maxPerReq <==> n < TWO_TO_THE_31 || n <= limiter.limits.maxPerReq
  {
    var counter := new Counter();
    passed := 0;
    for i := 0 to n
      invariant counter.value == Wrap32(i) && fresh(counter)
      invariant passed == Passed(i, limiter.limits.maxPerReq)
    {
      CounterCountsCalls(i);
      var ok := limiter.AllowRequest(counter);
      if ok {
        passed := passed + 1;
      }
    }
    RequestLimitHolds(n, limiter.limits.maxPerReq);
  }

  method AcquireOnce(limiter: Limiter, counter: Counter, v: Visit, ghost i: nat) returns (granted: bool)
    requires limiter.limits.maxPerReq > 0 && limiter.limits.maxPerWindow <= D.MAX_INT64
    requires limiter.cache != null ==> limiter.cache.Valid()
    requires v.Ordered() && counter.value == Wrap32(i)
    modifies counter, limiter.cache
    ensures limiter.cache != null ==> limiter.cache.Valid()
    ensures counter.value == Wrap32(i + 1) && (granted ==> Wrap32(i + 1) <= limiter.limits.maxPerReq)
    ensures limiter.cache == null ==> (granted <==> Wrap32(i + 1) <= limiter.limits.maxPerReq)
  {
    CounterCountsCalls(i);
    var verdict, _ := limiter.Acquire(counter, v.company, v.at, v.get, v.sets, v.alive);
    granted := verdict == Granted;
  }

  /** The same through Acquire, whatever the company's window adds: it can only refuse more. */
  method AcquireAgain(limiter: Limiter, visits: seq<Visit>) returns (granted: nat)
    requires limiter.limits.maxPerReq > 0 && limiter.limits.maxPerWindow <= D.MAX_INT64
    requires limiter.cache != null ==> limiter.cache.Valid()
    requires forall v | v in visits :: v.Ordered()
    modifies limiter.cache
    ensures limiter.cache != null ==> limiter.cache.Valid()
    ensures granted <= Passed(|visits|, limiter.limits.maxPerReq)
    ensures limiter.cache == null ==> granted == Passed(|visits|, limiter.limits.maxPerReq)
    ensures |visits| < TWO_TO_THE_31 || |visits| <= limiter.limits.maxPerReq ==> granted <= limiter.limits.maxPerReq
  {
    var counter := new Counter();
    granted := 0;
    for i := 0 to |visits|
      invariant counter.value == Wrap32(i) && fresh(counter)
      invariant limiter.cache != null ==> limiter.cache.Valid()
      invariant granted <= Passed(i, limiter.limits.maxPerReq)
      invariant limiter.cache == null ==> granted == Passed(i, limiter.limits.maxPerReq)
    {
      assert visits[i] in visits;
      var ok := AcquireOnce(limiter, counter, visits[i], i);
      if ok {
        granted := granted + 1;
      }
    }
    RequestLimitHolds(|visits|, limiter.limits.maxPerReq);
  }

  // ---------------------------------------------------------------- how late a cache read may be

  /** The calls for the bucket look into the cache no later than this long after its window has passed. */
  ghost predicate LateBy(l: Limits, calls: seq<Call>, company: int, bucket: nat, slack: int)
    requires l.window >= SECOND
  {
    forall i | 0 <= i < |calls| && CountsFor(l, calls[i], company, bucket) ::
      calls[i].get <= Opening(bucket, l.window) + l.window + slack
  }

  /** Whatever happens, reads no later than that keep the window's limit. */
  ghost predicate LimitHoldsWithin(l: Limits, max: nat, company: int, bucket: nat, slack: int)
    requires l.Usable() && l.maxPerWindow > 0
  {
    forall calls | IsHistory(l, max, calls, company, bucket) && LateBy(l, calls, company, bucket, slack) ::
      Count(l, calls, |calls|, company, bucket, Granted) <= l.maxPerWindow
  }

  lemma OpeningIsInTheBucket(bucket: nat, window: int)
    requires window >= SECOND
    ensures Opening(bucket, window) >= 0 && BucketOf(Opening(bucket, window), window) == bucket
  {
    var length := window / SECOND;
    assert bucket * length >= 0;
    assert bucket * length * SECOND / SECOND == bucket * length;
    QuotientIsUnique(bucket * length / length, bucket, length, bucket * length % length);
  }

  lemma QuotientIsUnique(x: int, q: int, d: int, r: int)
    requires 0 <= r < d && x * d + r == q * d
    ensures x == q
  {
    assert (q - x) * d == q * d - x * d;
    SmallMultiple(q - x, d);
  }

  lemma SmallMultiple(n: int, d: int)
    requires 0 <= n * d < d
    ensures n == 0
  {
    if n > 0 {
      assert n * d == (n - 1) * d + d;
      ProductIsNatural(n - 1, d);
    } else if n < 0 {
      assert -n * d == (-n - 1) * d + d;
      ProductIsNatural(-n - 1, d);
    }
  }

  lemma ProductIsNatural(m: nat, n: nat)
    ensures m * n >= 0
  {
  }

  /** The entry under this key after i grants. */
  function Entry(key: string, i: nat, until: int): Table {
    if i == 0 then map[] else map[key := Timed(CountText(i), until)]
  }

  /** A grant of a call that picked its bucket at one moment and uses the cache at another. */
  function Grant(company: int, at: nat, key: string, before: Table, mid: Table, now: int, count: int,
                 window: int): Call {
    Call(company, at, now, Readings(now, now, now), true, before, mid, {},
         map[key := Timed(CountText(count), now + window)], Granted)
  }

  lemma EntryIsFound(key: string, i: nat, now: int, until: int)
    requires now <= until && D.IsInt64(i)
    ensures UsedIn(Found(Entry(key, i, until), key, now)) == i
  {
    CountIsReadBack(i);
  }

  lemma EntryIsWritten(max: nat, key: string, i: nat, now: int, window: int, until: int, e: Event)
    requires max > 0 && window > 0 && until == now + window
    requires e == Event(Op.Set(key, CountText(i + 1), window), Readings(now, now, now), {}, Done)
    ensures Next(max, Entry(key, i, until), e, Entry(key, i + 1, until))
  {
    var t, item := Entry(key, i, until), Timed(CountText(i + 1), until);
    WriteIsNext(max, t, e.op, now);
    assert t[key := item] == map[key := item];
  }

  lemma OpeningGrant(l: Limits, max: nat, c: Call, bucket: nat, key: string, opening: nat, i: nat)
    requires l.Usable() && max > 0 && i < l.maxPerWindow
    requires BucketOf(opening, l.window) == bucket && key == Key(c.company, bucket)
    requires var t := Entry(key, i, opening + l.window);
             c == Grant(c.company, opening, key, t, t, opening, i + 1, l.window)
    ensures IsCall(l, max, c)
  {
    var until, raw := opening + l.window, Found(c.before, key, opening);
    var e := Event(Op.Set(key, CountText(i + 1), l.window), c.sets, c.dropped, Done);
    EntryIsFound(key, i, opening, until);
    EntryIsWritten(max, key, i, opening, l.window, until, e);
    assert c.after == Entry(key, i + 1, until);
    assert Next(max, c.mid, e, c.after);
    CallHappens(l, max, c, key, raw);
  }

  /** An entry that has expired is not found any more, and counting starts again. */
  lemma LateGrant(l: Limits, max: nat, c: Call, bucket: nat, key: string, opening: nat, now: int)
    requires l.Usable() && l.maxPerWindow > 0 && max > 0 && opening <= now
    requires BucketOf(opening, l.window) == bucket && key == Key(c.company, bucket)
    requires Found(c.before, key, now).None? && c == Grant(c.company, opening, key, c.before, map[], now, 1, l.window)
    ensures IsCall(l, max, c)
  {
    WriteIsNext(max, map[], Op.Set(key, CountText(1), l.window), now);
    CallHappens(l, max, c, key, None);
  }

  lemma {:induction false} AllGranted(l: Limits, calls: seq<Call>, n: nat, company: int, bucket: nat)
    requires l.window >= SECOND && n <= |calls|
    requires forall i | 0 <= i < n :: CountsFor(l, calls[i], company, bucket) && calls[i].verdict == Granted
    ensures Count(l, calls, n, company, bucket, Granted) == n
  {
    if n > 0 {
      AllGranted(l, calls, n - 1, company, bucket);
    }
  }

  /** The i-th of as many grants at one moment as there may be; then a call that reads when their entry has expired. */
  function Nth(company: int, key: string, opening: nat, limit: nat, window: int, i: nat): Call {
    var before := Entry(key, i, opening + window);
    if i < limit then Grant(company, opening, key, before, before, opening, i + 1, window)
    else Grant(company, opening, key, before, map[], opening + window + 1, 1, window)
  }

  function TooMany(company: int, key: string, opening: nat, limit: nat, window: int): (calls: seq<Call>)
    ensures |calls| == limit + 1
    ensures forall i | 0 <= i <= limit :: calls[i] == Nth(company, key, opening, limit, window, i)
  {
    seq(limit + 1, i requires 0 <= i <= limit => Nth(company, key, opening, limit, window, i))
  }

  lemma NthIsCall(l: Limits, max: nat, c: Call, bucket: nat, key: string, opening: nat, i: nat)
    requires l.Usable() && l.maxPerWindow > 0 && max > 0 && i <= l.maxPerWindow
    requires BucketOf(opening, l.window) == bucket && key == Key(c.company, bucket)
    requires c == Nth(c.company, key, opening, l.maxPerWindow, l.window, i)
    ensures IsCall(l, max, c)
  {
    if i < l.maxPerWindow {
      OpeningGrant(l, max, c, bucket, key, opening, i);
    } else {
      LateGrant(l, max, c, bucket, key, opening, opening + l.window + 1);
    }
  }

  lemma TooManyAreCalls(l: Limits, max: nat, company: int, bucket: nat, key: string, opening: nat, calls: seq<Call>)
    requires l.Usable() && l.maxPerWindow > 0 && max > 0
    requires BucketOf(opening, l.window) == bucket && key == Key(company, bucket)
    requires calls == TooMany(company, key, opening, l.maxPerWindow, l.window)
    ensures forall i | 0 <= i < |calls| :: IsCall(l, max, calls[i])
  {
    forall i | 0 <= i < |calls| ensures IsCall(l, max, calls[i]) {
      NthIsCall(l, max, calls[i], bucket, key, opening, i);
    }
  }

  lemma TooManyAreOneAfterAnother(company: int, key: string, opening: nat, limit: nat, window: int)
    requires limit > 0 && window > 0
    ensures var calls := TooMany(company, key, opening, limit, window);
            && (forall i | 0 <= i < |calls| - 1 :: calls[i].sets.stamp <= calls[i + 1].at)
            && (forall i | 0 <= i < |calls| - 1 :: calls[i].after == calls[i + 1].before)
            && calls[0].before == map[]
            && (forall i | 0 <= i < |calls| :: calls[i].at == opening && calls[i].company == company)
            && (forall i | 0 <= i < |calls| :: calls[i].get <= opening + window + 1 && calls[i].verdict == Granted)
  {
  }

  /**
    A call that stalls between picking its bucket and reading the cache exceeds the limit, whatever the limit,
    the company and the bucket, if it reads a single nanosecond after the bucket's window has passed.
   */
  lemma StalledReadBreaksTheLimit(l: Limits, max: nat, company: int, bucket: nat) returns (calls: seq<Call>)
    requires l.Usable() && l.maxPerWindow > 0 && max > 0
    ensures IsHistory(l, max, calls, company, bucket) && LateBy(l, calls, company, bucket, 1)
    ensures Count(l, calls, |calls|, company, bucket, Granted) == l.maxPerWindow + 1
  {
    OpeningIsInTheBucket(bucket, l.window);
    var key, opening := Key(company, bucket), Opening(bucket, l.window);
    calls := TooMany(company, key, opening, l.maxPerWindow, l.window);
    TooManyAreCalls(l, max, company, bucket, key, opening, calls);
    TooManyAreOneAfterAnother(company, key, opening, l.maxPerWindow, l.window);
    AreHistory(l, max, calls, company, bucket, key, opening);
    AllGranted(l, calls, |calls|, company, bucket);
  }

  lemma AreHistory(l: Limits, max: nat, calls: seq<Call>, company: int, bucket: nat, key: string, opening: nat)
    requires l.Usable() && l.maxPerWindow > 0 && calls != [] && calls[0].before == map[]
    requires BucketOf(opening, l.window) == bucket && key == Key(company, bucket)
    requires forall i | 0 <= i < |calls| :: IsCall(l, max, calls[i])
    requires forall i | 0 <= i < |calls| :: calls[i].at == opening && calls[i].company == company
    requires forall i | 0 <= i < |calls| - 1 :: calls[i].sets.stamp <= calls[i + 1].at
    requires forall i | 0 <= i < |calls| - 1 :: calls[i].after == calls[i + 1].before
    ensures IsHistory(l, max, calls, company, bucket)
    ensures forall i | 0 <= i < |calls| :: CountsFor(l, calls[i], company, bucket)
  {
  }

  /** The boundary: reads up to the end of the bucket's window keep the limit, and none later does. */
  lemma PromptIsTheBoundary(l: Limits, max: nat, company: int, bucket: nat, slack: int)
    requires l.Usable() && l.maxPerWindow > 0 && max > 0
    ensures LimitHoldsWithin(l, max, company, bucket, slack) <==> slack <= 0
  {
    if slack <= 0 {
      forall calls | IsHistory(l, max, calls, company, bucket) && LateBy(l, calls, company, bucket, slack)
        ensures Count(l, calls, |calls|, company, bucket, Granted) <= l.maxPerWindow
      {
        WindowLimitHolds(l, max, calls, company, bucket);
      }
    } else {
      var calls := StalledReadBreaksTheLimit(l, max, company, bucket);
      assert LateBy(l, calls, company, bucket, slack);
    }
  }
}
