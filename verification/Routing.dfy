/** Task routes over several models: internal/infra/llm/routing.go and routed_provider.go. */
module Routing {
  import opened Common

  // ---------------------------------------------------------------- failures

  /** What errors.Is and errors.As find in an error, a wrapped one included; several may hold at once. */
  datatype Error = Error(disabled: bool, canceled: bool, deadline: bool, status: Option<int>, netTimeout: bool,
                         opError: bool)

  /** The classes of failure a route may fall back on; the source spells them as strings. */
  datatype Class =
    ClassOk | ClassDisabled | ClassCanceled | ClassTimeout | ClassRateLimit | ClassUnavailable | ClassRejected
    | ClassError

  /** Neither a disabled connection nor the context's end is behind it. */
  predicate IsPlainError(err: Option<Error>) {
    err.Some? && !err.value.disabled && !err.value.canceled && !err.value.deadline
  }

  /** routeFailure: which of several reasons decides the class. */
  function RouteFailure(err: Option<Error>): (c: Class)
    ensures c == ClassOk <==> err.None?
    ensures c == ClassDisabled <==> err.Some? && err.value.disabled
    ensures c == ClassCanceled <==> err.Some? && !err.value.disabled && err.value.canceled
    ensures c == ClassRateLimit <==> IsPlainError(err) && err.value.status == Some(429)
    ensures c == ClassTimeout <==>
            || (err.Some? && !err.value.disabled && !err.value.canceled && err.value.deadline)
            || (IsPlainError(err) && err.value.status in {Some(408), Some(504)})
            || (IsPlainError(err) && err.value.status.None? && err.value.netTimeout)
    ensures c == ClassRejected <==>
            IsPlainError(err) && err.value.status.Some?
            && err.value.status.value !in {408, 429} && !(500 <= err.value.status.value <= 599)
    ensures c == ClassError <==>
            IsPlainError(err) && err.value.status.None? && !err.value.netTimeout && !err.value.opError
  {
    if err.Some? && err.value.disabled then ClassDisabled
    else if err.None? then ClassOk
    else
      var e := err.value;
      if e.canceled then ClassCanceled
      else if e.deadline then ClassTimeout
      else if e.status.Some? then
        var s := e.status.value;
        if s == 429 then ClassRateLimit
        else if s == 408 || s == 504 then ClassTimeout
        else if 500 <= s <= 599 then ClassUnavailable
        else ClassRejected
      else if e.netTimeout then ClassTimeout
      else if e.opError then ClassUnavailable
      else ClassError
  }

  datatype Code = UpstreamFailed | RateLimited | Unavailable | InvalidInput

  function RouteError(e: Error): (c: Code)
    ensures c == RateLimited <==> IsPlainError(Some(e)) && e.status == Some(429)
    ensures c == Unavailable <==>
            || e.canceled || (!e.disabled && e.deadline)
            || (IsPlainError(Some(e)) && (e.status in {Some(408), Some(504)} || (e.status.None? && e.netTimeout)))
    ensures c != InvalidInput
  {
    if e.canceled || RouteFailure(Some(e)) == ClassTimeout then Unavailable
    else if RouteFailure(Some(e)) == ClassRateLimit then RateLimited
    else UpstreamFailed
  }

  // ---------------------------------------------------------------- what the world does at each candidate

  datatype Candidate = Candidate(connectionID: int, model: string)

  /**
    A candidate, the context error read before it, what resolving and invoking it gives, and the context error after.
   */
  datatype Visit<+T> = Visit(candidate: Candidate, head: Option<Error>, vendor: string, resolve: Option<Error>,
                             invoke: Result<T, Error>, after: Option<Error>) {
    predicate Disabled() {
      resolve.Some? && resolve.value.disabled
    }

    /** The provider is only contacted when it could be resolved. */
    function Outcome(): Result<T, Error> {
      if resolve.Some? then Err(resolve.value) else invoke
    }

    /** The next candidate may be tried. */
    predicate Passes(fallbackOn: seq<Class>) {
      Disabled() || (Outcome().Err? && after.None? && RouteFailure(Some(Outcome().error)) in fallbackOn)
    }
  }

  datatype Verdict<+T> = Opened(at: Visit<T>, value: T) | Failed(error: Error) | Exhausted

  // ---------------------------------------------------------------- the specification: first success

  function FirstSuccess<T>(fallbackOn: seq<Class>, vs: seq<Visit<T>>): Verdict<T> {
    if vs == [] then Exhausted
    else if vs[0].head.Some? then Failed(vs[0].head.value)
    else match vs[0].Outcome()
      case Ok(x) => Opened(vs[0], x)
      case Err(e) => if vs[0].Passes(fallbackOn) then FirstSuccess(fallbackOn, vs[1..]) else Failed(e)
  }

  /** The visits that can matter: not those of disabled connections, unless the context is found dead there. */
  function Enabled<T>(vs: seq<Visit<T>>): seq<Visit<T>> {
    if vs == [] then []
    else if vs[0].head.None? && vs[0].Disabled() then Enabled(vs[1..])
    else [vs[0]] + Enabled(vs[1..])
  }

  function Take<T>(vs: seq<T>, n: int): seq<T> {
    if n <= 0 then [] else if n >= |vs| then vs else vs[..n]
  }

  /** The first success among the first maxAttempts enabled candidates. */
  function RouteSpec<T>(fallbackOn: seq<Class>, maxAttempts: int, vs: seq<Visit<T>>): Verdict<T> {
    FirstSuccess(fallbackOn, Take(Enabled(vs), maxAttempts))
  }

  // ---------------------------------------------------------------- how far a route gets

  function Tried<T>(vs: seq<Visit<T>>, n: nat): (t: nat)
    requires n <= |vs|
    ensures t <= n
  {
    if n == 0 then 0 else Tried(vs, n - 1) + if vs[n - 1].Disabled() then 0 else 1
  }

  /**
    The route gets past the first n candidates: each found the context alive and an attempt left, and lets the next be
    tried.
   */
  predicate GetsPast<T>(fallbackOn: seq<Class>, maxAttempts: int, vs: seq<Visit<T>>, n: nat)
    requires n <= |vs|
  {
    n == 0 ||
    (GetsPast(fallbackOn, maxAttempts, vs, n - 1) && Reaches(maxAttempts, vs, n - 1) && vs[n - 1].Passes(fallbackOn))
  }

  predicate Reaches<T>(maxAttempts: int, vs: seq<Visit<T>>, n: nat)
    requires n < |vs|
  {
    vs[n].head.None? && Tried(vs, n) < maxAttempts
  }

  /** Exactly the first n candidates are resolved. */
  predicate Resolves<T>(fallbackOn: seq<Class>, maxAttempts: int, vs: seq<Visit<T>>, n: nat) {
    && n <= |vs|
    && if n > 0 && !vs[n - 1].Passes(fallbackOn) then
         GetsPast(fallbackOn, maxAttempts, vs, n - 1) && Reaches(maxAttempts, vs, n - 1)
       else GetsPast(fallbackOn, maxAttempts, vs, n) && (n == |vs| || !Reaches(maxAttempts, vs, n))
  }

  /** All but the last of the candidates resolved pass, and each was reached. */
  lemma {:induction false} GotPast<T>(fallbackOn: seq<Class>, maxAttempts: int, vs: seq<Visit<T>>, n: nat, k: nat)
    requires k < n <= |vs| && GetsPast(fallbackOn, maxAttempts, vs, n)
    ensures GetsPast(fallbackOn, maxAttempts, vs, k)
    ensures Reaches(maxAttempts, vs, k) && vs[k].Passes(fallbackOn)
  {
    if k < n - 1 {
      GotPast(fallbackOn, maxAttempts, vs, n - 1, k);
    }
  }

  /** The verdict when the first n candidates are resolved. */
  function VerdictAt<T>(fallbackOn: seq<Class>, maxAttempts: int, vs: seq<Visit<T>>, n: nat): Verdict<T>
    requires n <= |vs|
  {
    if n > 0 && !vs[n - 1].Passes(fallbackOn) then
      match vs[n - 1].Outcome() case Ok(x) => Opened(vs[n - 1], x) case Err(e) => Failed(e)
    else if Tried(vs, n) >= maxAttempts || n == |vs| || vs[n].head.None? then Exhausted
    else Failed(vs[n].head.value)
  }

  /** A route ends with a candidate that succeeds or fails for good. */
  lemma EndsWith<T>(fallbackOn: seq<Class>, maxAttempts: int, vs: seq<Visit<T>>, n: nat, m: nat)
    requires n < |vs| && m == n + 1 && GetsPast(fallbackOn, maxAttempts, vs, n)
    requires Reaches(maxAttempts, vs, n) && !vs[n].Passes(fallbackOn)
    ensures Resolves(fallbackOn, maxAttempts, vs, m)
    ensures VerdictAt(fallbackOn, maxAttempts, vs, m)
            == match vs[n].Outcome() case Ok(x) => Opened(vs[n], x) case Err(e) => Failed(e)
  {
  }

  /** Or in front of one that is not reached. */
  lemma EndsInFront<T>(fallbackOn: seq<Class>, maxAttempts: int, vs: seq<Visit<T>>, n: nat)
    requires n <= |vs| && GetsPast(fallbackOn, maxAttempts, vs, n) && (n == |vs| || !Reaches(maxAttempts, vs, n))
    ensures Resolves(fallbackOn, maxAttempts, vs, n)
    ensures VerdictAt(fallbackOn, maxAttempts, vs, n)
            == if n < |vs| && Tried(vs, n) < maxAttempts then Failed(vs[n].head.value) else Exhausted
  {
  }

  lemma {:induction false} TriedWithoutTheFirst<T>(vs: seq<Visit<T>>, n: nat)
    requires 0 < n <= |vs|
    ensures Tried(vs, n) == Tried(vs[1..], n - 1) + if vs[0].Disabled() then 0 else 1
  {
    if n == 1 {
      assert Tried(vs, 0) == 0;
    } else {
      TriedWithoutTheFirst(vs, n - 1);
    }
  }

  lemma {:induction false} PastWithoutTheFirst<T>(fallbackOn: seq<Class>, maxAttempts: int, vs: seq<Visit<T>>, n: nat)
    requires 0 < n <= |vs| && GetsPast(fallbackOn, maxAttempts, vs, n)
    ensures GetsPast(fallbackOn, maxAttempts - if vs[0].Disabled() then 0 else 1, vs[1..], n - 1)
  {
    if n > 1 {
      PastWithoutTheFirst(fallbackOn, maxAttempts, vs, n - 1);
      TriedWithoutTheFirst(vs, n - 1);
    }
  }

  /** Dropping a first candidate that lets the route pass. */
  lemma RouteWithoutTheFirst<T>(fallbackOn: seq<Class>, maxAttempts: int, vs: seq<Visit<T>>, n: nat)
    requires n > 0 && Resolves(fallbackOn, maxAttempts, vs, n) && vs[0].Passes(fallbackOn)
    ensures var m := maxAttempts - if vs[0].Disabled() then 0 else 1;
            && Resolves(fallbackOn, m, vs[1..], n - 1)
            && VerdictAt(fallbackOn, m, vs[1..], n - 1) == VerdictAt(fallbackOn, maxAttempts, vs, n)
  {
    TriedWithoutTheFirst(vs, n);
    if !vs[n - 1].Passes(fallbackOn) {
      PastWithoutTheFirst(fallbackOn, maxAttempts, vs, n - 1);
      TriedWithoutTheFirst(vs, n - 1);
    } else {
      PastWithoutTheFirst(fallbackOn, maxAttempts, vs, n);
    }
  }

  /** The same for the specification. */
  lemma SpecWithoutTheFirst<T>(fallbackOn: seq<Class>, maxAttempts: int, vs: seq<Visit<T>>)
    requires vs != [] && vs[0].head.None? && vs[0].Passes(fallbackOn) && maxAttempts > 0
    ensures RouteSpec(fallbackOn, maxAttempts, vs)
         == RouteSpec(fallbackOn, maxAttempts - if vs[0].Disabled() then 0 else 1, vs[1..])
  {
    if !vs[0].Disabled() {
      var taken := Take(Enabled(vs), maxAttempts);
      assert taken[0] == vs[0];
      assert taken[1..] == Take(Enabled(vs[1..]), maxAttempts - 1);
    }
  }

  /** The first candidate is decisive, or never reached. */
  lemma NothingPasses<T>(fallbackOn: seq<Class>, maxAttempts: int, vs: seq<Visit<T>>, n: nat)
    requires Resolves(fallbackOn, maxAttempts, vs, n) && (n > 0 ==> !vs[0].Passes(fallbackOn))
    ensures VerdictAt(fallbackOn, maxAttempts, vs, n) == RouteSpec(fallbackOn, maxAttempts, vs)
  {
    if n > 0 {
      FirstIsReached(fallbackOn, maxAttempts, vs, n);
    }
    assert maxAttempts > 0 && Enabled(vs) != [] ==> Take(Enabled(vs), maxAttempts)[0] == Enabled(vs)[0];
  }

  lemma FirstIsReached<T>(fallbackOn: seq<Class>, maxAttempts: int, vs: seq<Visit<T>>, n: nat)
    requires n > 0 && Resolves(fallbackOn, maxAttempts, vs, n)
    ensures Reaches(maxAttempts, vs, 0) && maxAttempts > 0 && (!vs[0].Passes(fallbackOn) ==> n == 1)
  {
    if !vs[n - 1].Passes(fallbackOn) {
      if n > 1 {
        GotPast(fallbackOn, maxAttempts, vs, n - 1, 0);
      }
    } else {
      GotPast(fallbackOn, maxAttempts, vs, n, 0);
    }
  }

  /** A route refines first success over its enabled candidates. */
  lemma {:induction false} RouteIsFirstSuccess<T>(fallbackOn: seq<Class>, maxAttempts: int, vs: seq<Visit<T>>, n: nat)
    requires Resolves(fallbackOn, maxAttempts, vs, n)
    ensures VerdictAt(fallbackOn, maxAttempts, vs, n) == RouteSpec(fallbackOn, maxAttempts, vs)
    decreases n
  {
    if n > 0 && vs[0].Passes(fallbackOn) {
      FirstIsReached(fallbackOn, maxAttempts, vs, n);
      RouteWithoutTheFirst(fallbackOn, maxAttempts, vs, n);
      SpecWithoutTheFirst(fallbackOn, maxAttempts, vs);
      RouteIsFirstSuccess(fallbackOn, maxAttempts - if vs[0].Disabled() then 0 else 1, vs[1..], n - 1);
    } else {
      NothingPasses(fallbackOn, maxAttempts, vs, n);
    }
  }

  /** How far a route gets is determined by what the world does. */
  lemma ResolvesIsUnique<T>(fallbackOn: seq<Class>, maxAttempts: int, vs: seq<Visit<T>>, m: nat, n: nat)
    requires Resolves(fallbackOn, maxAttempts, vs, m) && Resolves(fallbackOn, maxAttempts, vs, n)
    ensures m == n
  {
    NoFurther(fallbackOn, maxAttempts, vs, m, n);
    NoFurther(fallbackOn, maxAttempts, vs, n, m);
  }

  lemma NoFurther<T>(fallbackOn: seq<Class>, maxAttempts: int, vs: seq<Visit<T>>, m: nat, n: nat)
    requires Resolves(fallbackOn, maxAttempts, vs, m) && Resolves(fallbackOn, maxAttempts, vs, n)
    ensures n <= m
  {
    ResolvedWasReached(fallbackOn, maxAttempts, vs, n, m);
  }

  /**
    A candidate resolved was reached, and every one before it was disabled or failed in a class to fall back on, the
    context alive.
   */
  lemma ResolvedWasReached<T>(fallbackOn: seq<Class>, maxAttempts: int, vs: seq<Visit<T>>, n: nat, k: nat)
    requires Resolves(fallbackOn, maxAttempts, vs, n)
    ensures k < n ==> Reaches(maxAttempts, vs, k) && GetsPast(fallbackOn, maxAttempts, vs, k)
    ensures 0 < k < n ==> vs[k - 1].Passes(fallbackOn)
  {
    var past := if n > 0 && !vs[n - 1].Passes(fallbackOn) then n - 1 else n;
    if k < past {
      GotPast(fallbackOn, maxAttempts, vs, past, k);
    }
  }

  /** Never more providers than attempts allowed, and none after one that opened. */
  lemma AttemptsAreCapped<T>(fallbackOn: seq<Class>, maxAttempts: int, vs: seq<Visit<T>>, n: nat)
    requires Resolves(fallbackOn, maxAttempts, vs, n) && n > 0
    ensures Tried(vs, n) <= maxAttempts
    ensures forall k | 0 <= k < n - 1 :: vs[k].Outcome().Err?
  {
    ResolvedWasReached(fallbackOn, maxAttempts, vs, n, n - 1);
    forall k | 0 <= k < n - 1
      ensures vs[k].Outcome().Err?
    {
      ResolvedWasReached(fallbackOn, maxAttempts, vs, n, k + 1);
    }
  }

  /** The candidates among the first n whose connection was not found disabled. */
  function Contacted<T>(vs: seq<Visit<T>>, n: nat): set<nat>
    requires n <= |vs|
  {
    set k: nat | k < n && !(vs[k].resolve.Some? && vs[k].resolve.value.disabled)
  }

  lemma {:induction false} TriedCountsContacted<T>(vs: seq<Visit<T>>, n: nat)
    requires n <= |vs|
    ensures Tried(vs, n) == |Contacted(vs, n)|
  {
    if n > 0 {
      TriedCountsContacted(vs, n - 1);
      assert Contacted(vs, n) == Contacted(vs, n - 1) + if n - 1 in Contacted(vs, n) then {n - 1} else {};
    }
  }

  /**
    Which candidates are resolved, in terms of what happened at each: every one was reached with the context alive and
    an attempt left; all but the last were disabled, or failed in a class to fall back on and left the context alive;
    and the route ends for one of these reasons.
   */
  lemma ResolvesMeans<T>(fallbackOn: seq<Class>, maxAttempts: int, vs: seq<Visit<T>>, n: nat)
    requires Resolves(fallbackOn, maxAttempts, vs, n)
    ensures n <= |vs| && forall k | 0 <= k < n :: vs[k].head.None? && |Contacted(vs, k)| < maxAttempts
    ensures forall k | 0 <= k < n - 1 ::
              var v := vs[k];
              || (v.resolve.Some? && v.resolve.value.disabled)
              || (v.after.None? && v.resolve.Some? && RouteFailure(v.resolve) in fallbackOn)
              || (v.after.None? && v.resolve.None? && v.invoke.Err? && RouteFailure(Some(v.invoke.error)) in fallbackOn)
    ensures n < |vs| ==>
              || vs[n].head.Some? || |Contacted(vs, n)| >= maxAttempts
              || (n > 0 &&
                  var v := vs[n - 1];
                  && !(v.resolve.Some? && v.resolve.value.disabled)
                  && (|| v.after.Some? || (v.resolve.None? && v.invoke.Ok?)
                      || RouteFailure(Some(if v.resolve.Some? then v.resolve.value
                                           else v.invoke.error)) !in fallbackOn))
  {
    forall k | 0 <= k < n ensures vs[k].head.None? && |Contacted(vs, k)| < maxAttempts {
      ResolvedWasReached(fallbackOn, maxAttempts, vs, n, k);
      TriedCountsContacted(vs, k);
    }
    forall k | 0 <= k < n - 1 ensures vs[k].Passes(fallbackOn) {
      ResolvedWasReached(fallbackOn, maxAttempts, vs, n, k + 1);
    }
    TriedCountsContacted(vs, n);
  }

  // ---------------------------------------------------------------- the two loops

  datatype Completion = Completion(model: string, vendor: string, text: string, usage: int)

  datatype Attempt = Attempt(number: nat, connectionID: int, model: string, vendor: string, status: Class, usage: int)

  datatype Policy = Policy(candidates: seq<Candidate>, allowSubstitution: bool, timeoutMS: int, attemptTimeoutMS: int,
                           maxAttempts: int, fallbackOn: seq<Class>) {
    predicate Valid() {
      && 1000 <= timeoutMS <= 120000 && 1000 <= attemptTimeoutMS <= timeoutMS
      && 1 <= maxAttempts <= 10 && 0 < |candidates| <= 10
    }
  }

  function CandidateCompletion<T>(v: Visit<T>, out: Completion): (r: Completion)
    ensures r.text == out.text && r.usage == out.usage
    ensures out.model != "" ==> r.model == out.model
    ensures out.model == "" ==> r.model == v.candidate.model
    ensures out.vendor != "" ==> r.vendor == out.vendor
    ensures out.vendor == "" ==> r.vendor == v.vendor
  {
    out.(model := if out.model == "" then v.candidate.model else out.model,
         vendor := if out.vendor == "" then v.vendor else out.vendor)
  }

  function RecordOf(vs: seq<Visit<Completion>>, k: nat): Attempt
    requires k < |vs|
  {
    var v := vs[k];
    var out := v.Outcome();
    Attempt(k + 1, v.candidate.connectionID, v.candidate.model, v.vendor,
            RouteFailure(if out.Err? then Some(out.error) else None), if out.Ok? then out.value.usage else 0)
  }

  /** One record per candidate resolved, in order. */
  function Records(vs: seq<Visit<Completion>>, n: nat): (r: seq<Attempt>)
    requires n <= |vs|
    ensures |r| == n
  {
    if n == 0 then [] else Records(vs, n - 1) + [RecordOf(vs, n - 1)]
  }

  lemma {:induction false} RecordsInOrder(vs: seq<Visit<Completion>>, n: nat)
    requires n <= |vs|
    ensures forall k | 0 <= k < n :: Records(vs, n)[k] == RecordOf(vs, k)
  {
    if n > 0 {
      RecordsInOrder(vs, n - 1);
    }
  }

  /** What the caller gets for a verdict. */
  function CallReply(verdict: Verdict<Completion>): Result<Completion, Code> {
    match verdict
    case Opened(v, out) => Ok(CandidateCompletion(v, out))
    case Failed(e) => Err(RouteError(e))
    case Exhausted => Err(Unavailable)
  }

  /** The route has got past n candidates, each with its record. */
  predicate CalledPast(policy: Policy, vs: seq<Visit<Completion>>, n: nat, attempts: nat, records: seq<Attempt>) {
    && n <= |vs| && GetsPast(policy.fallbackOn, policy.maxAttempts, vs, n)
    && attempts == Tried(vs, n) && records == Records(vs, n)
  }

  lemma CallsOn(policy: Policy, vs: seq<Visit<Completion>>, n: nat, attempts: nat, records: seq<Attempt>,
                attempts': nat, records': seq<Attempt>)
    requires n < |vs| && CalledPast(policy, vs, n, attempts, records)
    requires Reaches(policy.maxAttempts, vs, n) && vs[n].Passes(policy.fallbackOn)
    requires attempts' == attempts + if vs[n].Disabled() then 0 else 1
    requires records' == records + [RecordOf(vs, n)]
    ensures CalledPast(policy, vs, n + 1, attempts', records')
  {
  }

  /** What a caller gets and what is recorded, when the first n candidates are resolved. */
  predicate Called(policy: Policy, vs: seq<Visit<Completion>>, n: nat, reply: Result<Completion, Code>,
                   records: seq<Attempt>) {
    && Resolves(policy.fallbackOn, policy.maxAttempts, vs, n)
    && reply == CallReply(VerdictAt(policy.fallbackOn, policy.maxAttempts, vs, n))
    && records == Records(vs, n)
  }

  lemma CallEnds(policy: Policy, vs: seq<Visit<Completion>>, n: nat, attempts: nat, before: seq<Attempt>,
                 reply: Result<Completion, Code>, records: seq<Attempt>)
    requires n < |vs| && CalledPast(policy, vs, n, attempts, before) && Reaches(policy.maxAttempts, vs, n)
    requires !vs[n].Passes(policy.fallbackOn) && records == before + [RecordOf(vs, n)]
    requires reply == match vs[n].Outcome()
                      case Ok(out) => Ok(CandidateCompletion(vs[n], out))
                      case Err(e) => Err(RouteError(e))
    ensures Called(policy, vs, n + 1, reply, records)
  {
    EndsWith(policy.fallbackOn, policy.maxAttempts, vs, n, n + 1);
  }

  method Call(policy: Policy, vs: seq<Visit<Completion>>)
    returns (reply: Result<Completion, Code>, records: seq<Attempt>, n: nat)
    ensures Called(policy, vs, n, reply, records)
  {
    var attempts := 0;
    records := [];
    n := 0;
    while n < |vs|
      invariant CalledPast(policy, vs, n, attempts, records)
    {
      if attempts >= policy.maxAttempts {
        break;
      }
      var v := vs[n];
      if v.head.Some? {
        EndsInFront(policy.fallbackOn, policy.maxAttempts, vs, n);
        return Err(RouteError(v.head.value)), records, n;
      }
      ghost var before, tried := records, attempts;
      records := records + [RecordOf(vs, n)];
      if v.resolve.Some? && v.resolve.value.disabled {
        CallsOn(policy, vs, n, tried, before, attempts, records);
        n := n + 1;
        continue;
      }
      attempts := attempts + 1;
      var out := if v.resolve.None? then v.invoke else Err(v.resolve.value);
      if out.Ok? {
        reply := Ok(CandidateCompletion(v, out.value));
        CallEnds(policy, vs, n, tried, before, reply, records);
        n := n + 1;
        return;
      }
      if v.after.Some? || RouteFailure(Some(out.error)) !in policy.fallbackOn {
        reply := Err(RouteError(out.error));
        CallEnds(policy, vs, n, tried, before, reply, records);
        n := n + 1;
        return;
      }
      CallsOn(policy, vs, n, tried, before, attempts, records);
      n := n + 1;
    }
    EndsInFront(policy.fallbackOn, policy.maxAttempts, vs, n);
    reply := Err(Unavailable);
  }

  /** The k-th record: who was asked, and what came of it. */
  predicate IsRecordOf(v: Visit<Completion>, k: nat, r: Attempt) {
    && r.number == k + 1 && r.connectionID == v.candidate.connectionID && r.model == v.candidate.model
    && r.vendor == v.vendor
    && if v.resolve.None? && v.invoke.Ok? then r.status == ClassOk && r.usage == v.invoke.value.usage
       else r.status == RouteFailure(Some(if v.resolve.Some? then v.resolve.value else v.invoke.error)) && r.usage == 0
  }

  /** A failure behind which no other candidate is tried. */
  predicate EndsTheRoute(v: Visit<Completion>, fallbackOn: seq<Class>)
    requires v.resolve.Some? || v.invoke.Err?
  {
    if v.resolve.Some? then
      !v.resolve.value.disabled && (v.after.Some? || RouteFailure(v.resolve) !in fallbackOn)
    else v.after.Some? || RouteFailure(Some(v.invoke.error)) !in fallbackOn
  }

  /** The answer of the last candidate if it succeeded; otherwise the last error that counts, or no candidate left. */
  predicate AnswersAndRecords(policy: Policy, vs: seq<Visit<Completion>>, n: nat, reply: Result<Completion, Code>,
                              records: seq<Attempt>) {
    && |records| == n <= |vs| && (forall k | 0 <= k < n :: IsRecordOf(vs[k], k, records[k]))
    && if n > 0 && vs[n - 1].resolve.None? && vs[n - 1].invoke.Ok? then
         && reply.Ok? && reply.value.text == vs[n - 1].invoke.value.text
         && reply.value.usage == vs[n - 1].invoke.value.usage
       else
         && reply.Err?
         && if n > 0 && EndsTheRoute(vs[n - 1], policy.fallbackOn) then
              reply.error == RouteError(if vs[n - 1].resolve.Some? then vs[n - 1].resolve.value
                                        else vs[n - 1].invoke.error)
            else if n < |vs| && vs[n].head.Some? && |Contacted(vs, n)| < policy.maxAttempts then
              reply.error == RouteError(vs[n].head.value)
            else reply.error == Unavailable
  }

  /** What a call answers and records, in terms of what happened at each candidate. */
  lemma CalledAnswers(policy: Policy, vs: seq<Visit<Completion>>, n: nat, reply: Result<Completion, Code>,
                      records: seq<Attempt>)
    requires Called(policy, vs, n, reply, records)
    ensures AnswersAndRecords(policy, vs, n, reply, records)
  {
    RecordsInOrder(vs, n);
    TriedCountsContacted(vs, n);
    ResolvesMeans(policy.fallbackOn, policy.maxAttempts, vs, n);
  }

  // ---------------------------------------------------------------- streams

  /** One turn of the goroutine behind an open stream. */
  datatype Turn =
    | Chunk(out: Completion)          // received and handed on
    | Dropped(out: Completion)        // received, but the context ended before it could be handed on
    | Closed                          // the provider closed its channel
    | Ended                           // the context ended while waiting

  /**
    The chunks handed on are the provider's, in order, each completed with the candidate's names, and none after the
    end.
   */
  ghost predicate HandedOn<T>(v: Visit<T>, turns: seq<Turn>, output: seq<Completion>) {
    && |output| <= |turns|
    && (forall i | 0 <= i < |output| :: turns[i].Chunk? && output[i] == CandidateCompletion(v, turns[i].out))
    && (|output| < |turns| ==> !turns[|output|].Chunk?)
  }

  /** The usage of the last chunk received, handed on or not. */
  function LastUsage(turns: seq<Turn>, handedOn: nat): int {
    if handedOn < |turns| && turns[handedOn].Dropped? then turns[handedOn].out.usage
    else if 0 < handedOn <= |turns| && turns[handedOn - 1].Chunk? then turns[handedOn - 1].out.usage
    else 0
  }

  method Pump<T>(v: Visit<T>, turns: seq<Turn>) returns (output: seq<Completion>, usage: int)
    ensures HandedOn(v, turns, output) && usage == LastUsage(turns, |output|)
    ensures |output| < |turns| && turns[|output|].Dropped? ==> usage == turns[|output|].out.usage
    ensures |output| == |turns| || !turns[|output|].Dropped? ==>
              usage == if output == [] then 0 else output[|output| - 1].usage
  {
    output, usage := [], 0;
    var i := 0;
    while i < |turns|
      invariant i <= |turns| && |output| == i
      invariant forall k | 0 <= k < i :: turns[k].Chunk? && output[k] == CandidateCompletion(v, turns[k].out)
      invariant usage == if i > 0 then output[i - 1].usage else 0
    {
      match turns[i] {
        case Chunk(out) =>
          var last := CandidateCompletion(v, out);
          usage := last.usage;
          output := output + [last];
        case Dropped(out) =>
          usage := CandidateCompletion(v, out).usage;
          return;
        case Closed => return;
        case Ended => return;
      }
      i := i + 1;
    }
  }

  /** The record of a candidate that failed, or of the stream that ended with `end`. */
  function StreamRecord(vs: seq<Visit<seq<Turn>>>, k: nat, end: Option<Error>, usage: int): Attempt
    requires k < |vs|
  {
    var v := vs[k];
    var status := if v.Outcome().Err? then Some(v.Outcome().error) else end;
    Attempt(k + 1, v.candidate.connectionID, v.candidate.model, v.vendor, RouteFailure(status), usage)
  }

  function StreamRecords(vs: seq<Visit<seq<Turn>>>, n: nat, end: Option<Error>): (r: seq<Attempt>)
    requires n <= |vs|
    ensures |r| == n
  {
    if n == 0 then [] else StreamRecords(vs, n - 1, end) + [StreamRecord(vs, n - 1, end, 0)]
  }

  /** A context keeps the first error it has. */
  ghost predicate Sticky<T>(vs: seq<Visit<T>>, final: Option<Error>) {
    forall k | 0 <= k < |vs| && vs[k].head.Some? :: final == vs[k].head
  }

  datatype StreamReply = Streaming(output: seq<Completion>) | NotOpened(code: Code)

  /** The route has got past n candidates, each with its record. */
  ghost predicate StreamedPast(policy: Policy, vs: seq<Visit<seq<Turn>>>, end: Option<Error>, n: nat, attempts: nat,
                               records: seq<Attempt>) {
    && n <= |vs| && GetsPast(policy.fallbackOn, policy.maxAttempts, vs, n)
    && attempts == Tried(vs, n) && records == StreamRecords(vs, n, end)
  }

  lemma StreamsOn(policy: Policy, vs: seq<Visit<seq<Turn>>>, end: Option<Error>, n: nat, attempts: nat,
                  records: seq<Attempt>, attempts': nat, records': seq<Attempt>)
    requires n < |vs| && StreamedPast(policy, vs, end, n, attempts, records)
    requires Reaches(policy.maxAttempts, vs, n) && vs[n].Passes(policy.fallbackOn)
    requires attempts' == attempts + if vs[n].Disabled() then 0 else 1
    requires records' == records + [StreamRecord(vs, n, end, 0)]
    ensures StreamedPast(policy, vs, end, n + 1, attempts', records')
  {
  }

  /** What a stream's caller gets and what is recorded, when the first n candidates are resolved. */
  ghost predicate Streamed(policy: Policy, vs: seq<Visit<seq<Turn>>>, final: Option<Error>, end: Option<Error>, n: nat,
                           reply: StreamReply, records: seq<Attempt>, usage: int) {
    && Resolves(policy.fallbackOn, policy.maxAttempts, vs, n)
    && match VerdictAt(policy.fallbackOn, policy.maxAttempts, vs, n)
       case Opened(v, turns) =>
         && n > 0 && reply.Streaming? && HandedOn(v, turns, reply.output)
         && usage == LastUsage(turns, |reply.output|)
         && records == StreamRecords(vs, n - 1, end) + [StreamRecord(vs, n - 1, end, usage)]
       case Failed(e) => reply == NotOpened(RouteError(e)) && records == StreamRecords(vs, n, end)
       case Exhausted =>
         && reply == NotOpened(if final.Some? then RouteError(final.value) else Unavailable)
         && records == StreamRecords(vs, n, end)
  }

  lemma StreamOpens(policy: Policy, vs: seq<Visit<seq<Turn>>>, final: Option<Error>, end: Option<Error>, n: nat,
                    attempts: nat, before: seq<Attempt>, reply: StreamReply, records: seq<Attempt>, usage: int)
    requires n < |vs| && StreamedPast(policy, vs, end, n, attempts, before) && Reaches(policy.maxAttempts, vs, n)
    requires vs[n].Outcome().Ok? && reply.Streaming? && HandedOn(vs[n], vs[n].Outcome().value, reply.output)
    requires usage == LastUsage(vs[n].Outcome().value, |reply.output|)
    requires records == before + [StreamRecord(vs, n, end, usage)]
    ensures Streamed(policy, vs, final, end, n + 1, reply, records, usage)
  {
    EndsWith(policy.fallbackOn, policy.maxAttempts, vs, n, n + 1);
  }

  lemma StreamFails(policy: Policy, vs: seq<Visit<seq<Turn>>>, final: Option<Error>, end: Option<Error>, n: nat,
                    attempts: nat, before: seq<Attempt>, reply: StreamReply, records: seq<Attempt>)
    requires n < |vs| && StreamedPast(policy, vs, end, n, attempts, before) && Reaches(policy.maxAttempts, vs, n)
    requires vs[n].Outcome().Err? && !vs[n].Passes(policy.fallbackOn)
    requires reply == NotOpened(RouteError(vs[n].Outcome().error))
    requires records == before + [StreamRecord(vs, n, end, 0)]
    ensures Streamed(policy, vs, final, end, n + 1, reply, records, 0)
  {
    EndsWith(policy.fallbackOn, policy.maxAttempts, vs, n, n + 1);
  }

  lemma StreamRunsOut(policy: Policy, vs: seq<Visit<seq<Turn>>>, final: Option<Error>, end: Option<Error>, n: nat,
                      attempts: nat, records: seq<Attempt>, reply: StreamReply)
    requires Sticky(vs, final) && StreamedPast(policy, vs, end, n, attempts, records)
    requires n == |vs| || !Reaches(policy.maxAttempts, vs, n)
    requires reply == NotOpened(if final.Some? then RouteError(final.value) else Unavailable)
    ensures Streamed(policy, vs, final, end, n, reply, records, 0)
  {
    EndsInFront(policy.fallbackOn, policy.maxAttempts, vs, n);
  }

  /**
    Stream with what follows once it has opened: `end` is the context's error at the end, `final` when no candidate is
    left.
   */
  method Stream(policy: Policy, vs: seq<Visit<seq<Turn>>>, final: Option<Error>, end: Option<Error>)
    returns (reply: StreamReply, records: seq<Attempt>, n: nat, usage: int)
    requires Sticky(vs, final)
    ensures Streamed(policy, vs, final, end, n, reply, records, usage)
  {
    var attempts := 0;
    records := [];
    n, usage := 0, 0;
    while n < |vs|
      invariant StreamedPast(policy, vs, end, n, attempts, records) && usage == 0
    {
      if attempts >= policy.maxAttempts || vs[n].head.Some? {
        break;
      }
      ghost var before, tried := records, attempts;
      var v := vs[n];
      if v.resolve.Some? && v.resolve.value.disabled {
        records := records + [StreamRecord(vs, n, end, 0)];
        StreamsOn(policy, vs, end, n, tried, before, attempts, records);
        n := n + 1;
        continue;
      }
      attempts := attempts + 1;
      var stream := if v.resolve.None? then v.invoke else Err(v.resolve.value);
      if stream.Err? {
        records := records + [StreamRecord(vs, n, end, 0)];
        if v.after.Some? || RouteFailure(Some(stream.error)) !in policy.fallbackOn {
          reply := NotOpened(RouteError(stream.error));
          StreamFails(policy, vs, final, end, n, tried, before, reply, records);
          n := n + 1;
          return;
        }
        StreamsOn(policy, vs, end, n, tried, before, attempts, records);
        n := n + 1;
        continue;
      }
      var output;
      output, usage := Pump(v, stream.value);
      reply, records := Streaming(output), records + [StreamRecord(vs, n, end, usage)];
      StreamOpens(policy, vs, final, end, n, tried, before, reply, records, usage);
      n := n + 1;
      return;
    }
    reply := NotOpened(if final.Some? then RouteError(final.value) else Unavailable);
    StreamRunsOut(policy, vs, final, end, n, attempts, records, reply);
  }

  lemma {:induction false} StreamRecordsInOrder(vs: seq<Visit<seq<Turn>>>, n: nat, end: Option<Error>)
    requires n <= |vs|
    ensures forall k | 0 <= k < n :: StreamRecords(vs, n, end)[k] == StreamRecord(vs, k, end, 0)
  {
    if n > 0 {
      StreamRecordsInOrder(vs, n - 1, end);
    }
  }

  /** The k-th record: who was asked, and how the attempt, or the stream it opened, ended. */
  predicate IsStreamRecordOf(v: Visit<seq<Turn>>, k: nat, end: Option<Error>, usage: int, r: Attempt) {
    && r.number == k + 1 && r.connectionID == v.candidate.connectionID && r.model == v.candidate.model
    && r.vendor == v.vendor
    && if v.resolve.None? && v.invoke.Ok? then r.status == RouteFailure(end) && r.usage == usage
       else r.status == RouteFailure(Some(if v.resolve.Some? then v.resolve.value else v.invoke.error)) && r.usage == 0
  }

  lemma FailureRecord(vs: seq<Visit<seq<Turn>>>, k: nat, end: Option<Error>, usage: int)
    requires k < |vs| && (vs[k].resolve.Some? || vs[k].invoke.Err?)
    ensures IsStreamRecordOf(vs[k], k, end, usage, StreamRecord(vs, k, end, 0))
  {
  }

  /** Behind a candidate there is another only if it failed. */
  lemma EarlierFailed<T>(fallbackOn: seq<Class>, maxAttempts: int, vs: seq<Visit<T>>, n: nat, k: nat)
    requires Resolves(fallbackOn, maxAttempts, vs, n) && k + 1 < n
    ensures k < |vs| && (vs[k].resolve.Some? || vs[k].invoke.Err?)
  {
    ResolvedWasReached(fallbackOn, maxAttempts, vs, n, k + 1);
  }

  lemma NothingOpened<T>(fallbackOn: seq<Class>, maxAttempts: int, vs: seq<Visit<T>>, n: nat)
    requires Resolves(fallbackOn, maxAttempts, vs, n)
    ensures VerdictAt(fallbackOn, maxAttempts, vs, n).Opened?
            <==> n > 0 && vs[n - 1].resolve.None? && vs[n - 1].invoke.Ok?
  {
  }

  /** A stream is answered exactly if the last candidate resolved opened one, and is recorded with its last usage. */
  lemma StreamedRecords(policy: Policy, vs: seq<Visit<seq<Turn>>>, final: Option<Error>, end: Option<Error>, n: nat,
                        reply: StreamReply, records: seq<Attempt>, usage: int)
    requires Streamed(policy, vs, final, end, n, reply, records, usage)
    ensures |records| == n <= |vs| && forall k | 0 <= k < n :: IsStreamRecordOf(vs[k], k, end, usage, records[k])
    ensures reply.Streaming? <==> n > 0 && vs[n - 1].resolve.None? && vs[n - 1].invoke.Ok?
    ensures reply.Streaming? ==> HandedOn(vs[n - 1], vs[n - 1].invoke.value, reply.output)
  {
    NothingOpened(policy.fallbackOn, policy.maxAttempts, vs, n);
    StreamRecordsInOrder(vs, n, end);
    if n > 0 {
      StreamRecordsInOrder(vs, n - 1, end);
    }
    forall k | 0 <= k < n ensures IsStreamRecordOf(vs[k], k, end, usage, records[k]) {
      if k + 1 < n {
        EarlierFailed(policy.fallbackOn, policy.maxAttempts, vs, n, k);
        FailureRecord(vs, k, end, usage);
      } else if !reply.Streaming? {
        FailureRecord(vs, k, end, usage);
      }
    }
  }

  // ---------------------------------------------------------------- choosing the candidates

  datatype Model = Model(id: string, generates: Option<bool>)

  datatype Connection = Connection(active: bool, models: seq<Model>)

  /** A pinned model and connection; "" and 0 pin nothing. */
  datatype Selection = Selection(model: string, connectionID: int)

  predicate Offers(c: Connection, model: string) {
    c.active && exists m | m in c.models :: m.id == model && m.generates != Some(false)
  }

  function PinnedModel(s: Selection, c: Candidate): (m: string)
    ensures m == s.model || s.model == ""
    ensures m == c.model || s.model != ""
  {
    if s.model != "" then s.model else c.model
  }

  /** selectCandidates; `lookups[i]` is the connection of the i-th candidate, None when it cannot be read. */
  method SelectCandidates(policy: Policy, s: Selection, lookups: seq<Option<Connection>>)
    returns (r: Result<seq<Candidate>, Code>, ghost at: nat)
    requires |lookups| == |policy.candidates|
    ensures s == Selection("", 0) ==> r == Ok(policy.candidates)
    ensures s != Selection("", 0) ==>
              && at <= |lookups|
              && (forall i | 0 <= i < at ::
                    || (s.connectionID != 0 && policy.candidates[i].connectionID != s.connectionID)
                    || (lookups[i].Some? &&
                        var c := lookups[i].value;
                        !c.active || forall m | m in c.models && m.id == PinnedModel(s, policy.candidates[i]) ::
                          m.generates == Some(false)))
              && (at == |lookups| ==> r == Err(InvalidInput))
    ensures s != Selection("", 0) && at < |lookups| ==>
              && (s.connectionID == 0 || policy.candidates[at].connectionID == s.connectionID)
              && (lookups[at].None? ==> r == Err(Unavailable))
              && (lookups[at].Some? ==>
                    && lookups[at].value.active
                    && (exists m | m in lookups[at].value.models ::
                          m.id == PinnedModel(s, policy.candidates[at]) && m.generates != Some(false))
                    && r == Ok([policy.candidates[at].(model := PinnedModel(s, policy.candidates[at]))]
                               + if policy.allowSubstitution then
                                   policy.candidates[..at] + policy.candidates[at + 1..]
                                 else []))
  {
    var cs := policy.candidates;
    at := 0;
    if s.model == "" && s.connectionID == 0 {
      return Ok(cs), at;
    }
    for i := 0 to |cs|
      invariant at == i && forall k | 0 <= k < i ::
                    || (s.connectionID != 0 && cs[k].connectionID != s.connectionID)
                    || (lookups[k].Some? && !Offers(lookups[k].value, PinnedModel(s, cs[k])))
    {
      var c := cs[i];
      if s.connectionID != 0 && c.connectionID != s.connectionID {
        at := at + 1;
        continue;
      }
      if lookups[i].None? {
        return Err(Unavailable), at;
      }
      if s.model != "" {
        c := c.(model := s.model);
      }
      if !Offers(lookups[i].value, c.model) {
        at := at + 1;
        continue;
      }
      if !policy.allowSubstitution {
        assert [c] + [] == [c];
        return Ok([c]), at;
      }
      var rest := cs[..i] + cs[i + 1..];
      return Ok([c] + rest), at;
    }
    r := Err(InvalidInput);
  }


  /**
    ResolveTask and one call: with a pinned model and no substitution nothing but the pin is ever asked or recorded.
   */
  method ResolveAndCall(policy: Policy, s: Selection, lookups: seq<Option<Connection>>,
                        world: (int, Candidate) -> Visit<Completion>)
    returns (reply: Result<Completion, Code>, records: seq<Attempt>)
    requires |lookups| == |policy.candidates|
    requires forall i, c :: world(i, c).candidate == c
    ensures !policy.Valid() ==> reply == Err(Unavailable) && records == []
    ensures |records| <= 10
    ensures s != Selection("", 0) && !policy.allowSubstitution ==> |records| <= 1
    ensures forall r | r in records && s.model != "" && !policy.allowSubstitution :: r.model == s.model
    ensures forall r | r in records && s.connectionID != 0 && !policy.allowSubstitution ::
              r.connectionID == s.connectionID
  {
    records := [];
    if !policy.Valid() {
      return Err(Unavailable), records;
    }
    var chosen, at := SelectCandidates(policy, s, lookups);
    if chosen.Err? {
      return Err(chosen.error), records;
    }
    var cs := chosen.value;
    assert 0 < |cs| <= 10;
    var vs := seq(|cs|, i requires 0 <= i < |cs| => world(i, cs[i]));
    var n;
    reply, records, n := Call(policy, vs);
    RecordsInOrder(vs, n);
  }
}
