/** Circuit breaker and retries around a provider: internal/infra/llm/resilient.go.  Times are nanoseconds. */
module Resilient {
  import opened Common

  // ---------------------------------------------------------------- what a breaker has lived through

  /** One critical section of the breaker: a question with its answer, or a recorded outcome. */
  datatype Act = Ask(now: int, answer: bool) | Fail(now: int) | Succeed

  function FailuresSinceSuccess(log: seq<Act>): nat {
    if log == [] then 0
    else match log[|log| - 1]
      case Succeed => 0
      case Fail(_) => FailuresSinceSuccess(log[..|log| - 1]) + 1
      case Ask(_, _) => FailuresSinceSuccess(log[..|log| - 1])
  }

  /** The time of the latest failure since the latest success. */
  function LastFailure(log: seq<Act>): (t: Option<int>)
    ensures t.Some? <==> FailuresSinceSuccess(log) > 0
  {
    if log == [] then None
    else match log[|log| - 1]
      case Succeed => None
      case Fail(now) => Some(now)
      case Ask(_, _) => LastFailure(log[..|log| - 1])
  }

  /** Has a question been answered yes since the latest failure, with the failures at or over the threshold? */
  predicate Probing(threshold: nat, log: seq<Act>) {
    if log == [] then false
    else match log[|log| - 1]
      case Succeed => false
      case Fail(_) => false
      case Ask(_, answer) => (answer && FailuresSinceSuccess(log) >= threshold) || Probing(threshold, log[..|log| - 1])
  }

  /** What allow answers after this log. */
  predicate Admits(threshold: nat, cooldown: int, log: seq<Act>, now: int)
    requires threshold > 0
  {
    FailuresSinceSuccess(log) < threshold || Probing(threshold, log) || now - LastFailure(log).value >= cooldown
  }

  /** The same without the half-open state: only the count and the age of the latest failure. */
  predicate CooledDown(threshold: nat, cooldown: int, log: seq<Act>, now: int)
    requires threshold > 0
  {
    FailuresSinceSuccess(log) < threshold || now - LastFailure(log).value >= cooldown
  }

  /** Every answer in the log is the one due after the acts before it. */
  ghost predicate AnswersRight(threshold: nat, cooldown: int, log: seq<Act>)
    requires threshold > 0
  {
    forall i | 0 <= i < |log| && log[i].Ask? :: log[i].answer == Admits(threshold, cooldown, log[..i], log[i].now)
  }

  lemma OneMoreAct(threshold: nat, cooldown: int, log: seq<Act>, act: Act, log': seq<Act>)
    requires threshold > 0 && AnswersRight(threshold, cooldown, log) && log' == log + [act]
    requires act.Ask? ==> act.answer == Admits(threshold, cooldown, log, act.now)
    ensures AnswersRight(threshold, cooldown, log')
  {
    assert log'[..|log|] == log;
    assert forall i | 0 <= i < |log| :: log'[..i] == log[..i];
  }

  lemma AfterAct(threshold: nat, log: seq<Act>, act: Act, log': seq<Act>)
    requires log' == log + [act]
    ensures match act
            case Succeed => FailuresSinceSuccess(log') == 0 && !Probing(threshold, log')
            case Fail(now) =>
              && FailuresSinceSuccess(log') == FailuresSinceSuccess(log) + 1 && LastFailure(log') == Some(now)
              && !Probing(threshold, log')
            case Ask(_, answer) =>
              && FailuresSinceSuccess(log') == FailuresSinceSuccess(log) && LastFailure(log') == LastFailure(log)
              && (Probing(threshold, log') <==> (answer && FailuresSinceSuccess(log) >= threshold)
                                                || Probing(threshold, log))
  {
    assert log'[..|log'| - 1] == log;
  }

  // ---------------------------------------------------------------- the breaker

  datatype BreakerState = Closed | Open | HalfOpen

  class Breaker {
    const threshold: nat
    const cooldown: int
    var failures: nat
    var openedAt: int
    var state: BreakerState
    ghost var log: seq<Act>

    /** Not closed exactly when the failures since the last success reach the threshold; opened at the last of them. */
    ghost predicate Valid()
      reads this
    {
      && 0 < threshold && 0 < cooldown && AnswersRight(threshold, cooldown, log)
      && (state != Closed <==> FailuresSinceSuccess(log) >= threshold)
      && (state == Closed ==> failures == FailuresSinceSuccess(log))
      && (state != Closed ==> failures >= threshold && Some(openedAt) == LastFailure(log))
      && (state == HalfOpen <==> Probing(threshold, log))
    }

    constructor (threshold: nat, cooldown: int)
      requires 0 < threshold && 0 < cooldown
      ensures Valid() && log == [] && this.threshold == threshold && this.cooldown == cooldown
    {
      this.threshold, this.cooldown := threshold, cooldown;
      failures, openedAt, state, log := 0, 0, Closed, [];
    }

    method Allow(now: int) returns (ok: bool)
      requires Valid()
      modifies this
      ensures Valid() && log == old(log) + [Ask(now, ok)]
      ensures ok == Admits(threshold, cooldown, old(log), now)
    {
      ok := true;
      if state == Open {
        if now - openedAt >= cooldown {
          state := HalfOpen;
        } else {
          ok := false;
        }
      }
      ghost var before := log;
      log := log + [Ask(now, ok)];
      AfterAct(threshold, before, Ask(now, ok), log);
      OneMoreAct(threshold, cooldown, before, Ask(now, ok), log);
    }

    method RecordFailure(now: int)
      requires Valid()
      modifies this
      ensures Valid() && log == old(log) + [Fail(now)]
    {
      ghost var before := log;
      log := log + [Fail(now)];
      AfterAct(threshold, before, Fail(now), log);
      OneMoreAct(threshold, cooldown, before, Fail(now), log);
      if state == HalfOpen {
        state := Open;
        openedAt := now;
        return;
      }
      failures := failures + 1;
      if failures >= threshold {
        state := Open;
        openedAt := now;
      }
    }

    method RecordSuccess()
      requires Valid()
      modifies this
      ensures Valid() && log == old(log) + [Succeed]
    {
      failures := 0;
      state := Closed;
      ghost var before := log;
      log := log + [Succeed];
      AfterAct(threshold, before, Succeed, log);
      OneMoreAct(threshold, cooldown, before, Succeed, log);
    }

    /** One operation of another call. */
    method Other(move: Move)
      requires Valid()
      modifies this
      ensures Valid() && exists act :: log == old(log) + [act] && Does(act, move)
    {
      match move
      case Asks(now) =>
        var ok := Allow(now);
        assert Does(Ask(now, ok), move);
      case Fails(now) =>
        RecordFailure(now);
        assert Does(Fail(now), move);
      case Succeeds =>
        RecordSuccess();
        assert Does(Succeed, move);
    }

    /** What other calls do to the breaker meanwhile: any sequence of its operations. */
    method Others(moves: seq<Move>)
      requires Valid()
      modifies this
      ensures Valid() && |log| == |old(log)| + |moves| && log[..|old(log)|] == old(log)
      ensures forall i | 0 <= i < |moves| :: Does(log[|old(log)| + i], moves[i])
    {
      for k := 0 to |moves|
        invariant Valid() && |log| == |old(log)| + k && log[..|old(log)|] == old(log)
        invariant forall i | 0 <= i < k :: Does(log[|old(log)| + i], moves[i])
      {
        Other(moves[k]);
      }
    }
  }

  datatype Move = Asks(now: int) | Fails(now: int) | Succeeds

  predicate Does(act: Act, move: Move) {
    match move
    case Asks(now) => act.Ask? && act.now == now
    case Fails(now) => act == Fail(now)
    case Succeeds => act == Succeed
  }

  // ---------------------------------------------------------------- every interleaving

  /** A log of a breaker whose clock never goes back. */
  ghost predicate IsLog(threshold: nat, cooldown: int, log: seq<Act>)
    requires threshold > 0
  {
    && AnswersRight(threshold, cooldown, log)
    && (forall i, j | 0 <= i < j < |log| && !log[i].Succeed? && !log[j].Succeed? :: log[i].now <= log[j].now)
  }

  ghost predicate Later(log: seq<Act>, now: int) {
    forall i | 0 <= i < |log| && !log[i].Succeed? :: log[i].now <= now
  }

  lemma PrefixIsLog(threshold: nat, cooldown: int, log: seq<Act>, n: nat)
    requires threshold > 0 && IsLog(threshold, cooldown, log) && n <= |log|
    ensures IsLog(threshold, cooldown, log[..n])
    ensures n < |log| && !log[n].Succeed? ==> Later(log[..n], log[n].now)
  {
    forall i | 0 <= i < n ensures log[..n][..i] == log[..i] {
    }
  }

  lemma {:induction false} ProbingHasCooledDown(threshold: nat, cooldown: int, log: seq<Act>, now: int)
    requires threshold > 0 && IsLog(threshold, cooldown, log) && Later(log, now)
    requires Probing(threshold, log)
    ensures FailuresSinceSuccess(log) >= threshold && now - LastFailure(log).value >= cooldown
  {
    var n := |log| - 1;
    PrefixIsLog(threshold, cooldown, log, n);
    if Probing(threshold, log[..n]) {
      ProbingHasCooledDown(threshold, cooldown, log[..n], log[n].now);
    } else {
      assert log[n].answer == Admits(threshold, cooldown, log[..n], log[n].now);
    }
    assert log[n].now <= now;
  }

  /** Under every interleaving allow depends only on the failures since the last success and the age of the latest. */
  lemma HalfOpenIsInvisible(threshold: nat, cooldown: int, log: seq<Act>, now: int)
    requires threshold > 0 && IsLog(threshold, cooldown, log) && Later(log, now)
    ensures Admits(threshold, cooldown, log, now) <==> CooledDown(threshold, cooldown, log, now)
  {
    if Probing(threshold, log) {
      ProbingHasCooledDown(threshold, cooldown, log, now);
    }
  }

  lemma {:induction false} FailuresOnlyGrow(log: seq<Act>, i: nat, j: nat)
    requires i <= j <= |log| && forall k | i <= k < j :: !log[k].Succeed?
    requires forall a, b | 0 <= a < b < |log| && !log[a].Succeed? && !log[b].Succeed? :: log[a].now <= log[b].now
    requires FailuresSinceSuccess(log[..i]) > 0
    requires i > 0 && log[i - 1].Fail?
    ensures FailuresSinceSuccess(log[..j]) >= FailuresSinceSuccess(log[..i])
    ensures LastFailure(log[..j]).value >= log[i - 1].now
  {
    if i < j {
      FailuresOnlyGrow(log, i, j - 1);
      assert log[..j][..j - 1] == log[..j - 1];
    }
  }

  /**
    From the failure that reaches the threshold, every question within the cooldown is refused unless a success
    intervenes.
   */
  lemma RefusesDuringTheCooldown(threshold: nat, cooldown: int, log: seq<Act>, i: nat, j: nat)
    requires threshold > 0 && IsLog(threshold, cooldown, log) && i < j < |log|
    requires log[i].Fail? && FailuresSinceSuccess(log[..i + 1]) >= threshold
    requires forall k | i < k < j :: !log[k].Succeed?
    requires log[j].Ask? && log[j].now - log[i].now < cooldown
    ensures !log[j].answer
  {
    PrefixIsLog(threshold, cooldown, log, j);
    FailuresOnlyGrow(log, i + 1, j);
    HalfOpenIsInvisible(threshold, cooldown, log[..j], log[j].now);
  }

  /** The failures behind the latest success. */
  function RecentFailures(log: seq<Act>): set<nat> {
    set i: nat | i < |log| && log[i].Fail? && forall j | i < j < |log| :: !log[j].Succeed?
  }

  lemma RecentFailuresOneMore(log: seq<Act>)
    requires log != []
    ensures RecentFailures(log)
            == match log[|log| - 1]
               case Succeed => {}
               case Fail(_) => RecentFailures(log[..|log| - 1]) + {|log| - 1}
               case Ask(_, _) => RecentFailures(log[..|log| - 1])
  {
    var n := |log| - 1;
    forall i: nat | i < n
      ensures i in RecentFailures(log) <==> i in RecentFailures(log[..n]) && !log[n].Succeed?
    {
    }
  }

  lemma {:induction false} CountsRecentFailures(log: seq<Act>)
    ensures FailuresSinceSuccess(log) == |RecentFailures(log)|
    ensures LastFailure(log).Some? ==>
              exists i | i in RecentFailures(log) :: LastFailure(log).value == log[i].now
                                                     && forall j | j in RecentFailures(log) :: j <= i
  {
    if log != [] {
      var n := |log| - 1;
      CountsRecentFailures(log[..n]);
      RecentFailuresOneMore(log);
      if log[n].Fail? {
        assert n !in RecentFailures(log[..n]) && n in RecentFailures(log);
      } else if log[n].Ask? && LastFailure(log).Some? {
        var i :| i in RecentFailures(log[..n]) && LastFailure(log[..n]).value == log[..n][i].now
                 && forall j | j in RecentFailures(log[..n]) :: j <= i;
        assert i in RecentFailures(log) && log[i].now == LastFailure(log).value;
      }
    }
  }

  /**
    Under every interleaving: a question is admitted exactly if fewer failures than the threshold have come since the
    latest success, or each of these lies at least the cooldown back.
   */
  lemma AdmitsExactly(threshold: nat, cooldown: int, log: seq<Act>, now: int)
    requires threshold > 0 && IsLog(threshold, cooldown, log) && Later(log, now)
    ensures Admits(threshold, cooldown, log, now)
            <==> |RecentFailures(log)| < threshold
                 || forall i | i in RecentFailures(log) :: now - log[i].now >= cooldown
  {
    HalfOpenIsInvisible(threshold, cooldown, log, now);
    CountsRecentFailures(log);
    if LastFailure(log).Some? {
      var i :| i in RecentFailures(log) && LastFailure(log).value == log[i].now
               && forall j | j in RecentFailures(log) :: j <= i;
      forall j | j in RecentFailures(log) ensures log[j].now <= log[i].now {
        assert j <= i;
      }
    }
  }

  // ---------------------------------------------------------------- one call

  datatype Error =
    | ProviderError(status: int, retryAfter: int)
    | OtherError
    | CircuitOpen
    | RateLimitWait

  /** llmerr.Retryable */
  function Retryable(e: Error): (r: Option<int>)
    ensures r.Some? <==> e.ProviderError? && (e.status == 429 || e.status >= 500)
    ensures r.Some? ==> r.value == e.retryAfter
  {
    if e.ProviderError? && (e.status == 429 || e.status >= 500) then Some(e.retryAfter) else None
  }

  const MILLISECOND := 1_000_000

  function Pow2(n: nat): (p: nat)
    ensures p > 0
  {
    if n == 0 then 1 else 2 * Pow2(n - 1)
  }

  function Max(a: int, b: int): int { if a < b then b else a }

  function Min(a: int, b: int): int { if a < b then a else b }

  datatype RetryPolicy = RetryPolicy(maxRetries: int, base: int, most: int) {
    function Base(): (b: int)
      ensures b > 0
    {
      if base <= 0 then 500 * MILLISECOND else base
    }

    function Ceiling(): (c: int)
      ensures c > 0
    {
      if most <= 0 then 8000 * MILLISECOND else most
    }

    /** backoffDuration */
    function Wait(attempt: nat, retryAfter: int): int {
      Min(Max(Base() * Pow2(attempt), retryAfter), Ceiling())
    }
  }

  lemma {:induction false} Pow2Grows(m: nat, n: nat)
    requires m <= n
    ensures Pow2(m) <= Pow2(n)
  {
    if m < n {
      Pow2Grows(m, n - 1);
    }
  }

  lemma ScalingKeepsOrder(b: int, x: int, y: int)
    requires 0 < b && 0 < x <= y
    ensures 0 < b * x <= b * y
  {
    assert b * y == b * x + b * (y - x);
  }

  /**
    Waits never shrink from one attempt to the next, honour the server's delay up to the ceiling, and stay below it.
   */
  lemma WaitsGrowToTheCeiling(p: RetryPolicy, m: nat, n: nat, retryAfter: int)
    requires m <= n
    ensures 0 < p.Wait(m, retryAfter) <= p.Wait(n, retryAfter) <= p.Ceiling()
    ensures p.Wait(m, retryAfter) >= Min(retryAfter, p.Ceiling())
  {
    Pow2Grows(m, n);
    ScalingKeepsOrder(p.Base(), Pow2(m), Pow2(n));
  }

  /**
    Without a delay of the server the first wait is the base and each one twice the one before, up to the ceiling; the
    server's delay, itself cut at the ceiling, only ever makes a wait longer.
   */
  lemma WaitsDouble(p: RetryPolicy, n: nat, retryAfter: int)
    ensures p.Wait(0, 0) == Min(if p.base <= 0 then 500_000_000 else p.base,
                                if p.most <= 0 then 8_000_000_000 else p.most)
    ensures p.Wait(n + 1, 0) == Min(2 * p.Wait(n, 0), if p.most <= 0 then 8_000_000_000 else p.most)
    ensures p.Wait(n, retryAfter) == Max(p.Wait(n, 0), Min(retryAfter, if p.most <= 0 then 8_000_000_000 else p.most))
  {
    assert p.Base() * Pow2(n + 1) == 2 * (p.Base() * Pow2(n));
    assert p.Base() * Pow2(n) > 0;
  }

  /**
    The world as one call meets it: the limiter's wait, the k-th attempt, and whether the k-th backoff ran to its end.
   */
  datatype World<+C> = World(limiter: bool, outcomes: seq<Result<C, Error>>, waited: seq<bool>) {
    predicate Covers(p: RetryPolicy) {
      |outcomes| > p.maxRetries && |waited| >= p.maxRetries
    }
  }

  /** Go's pair: without attempts both halves keep their zero value. */
  datatype Reply<+C> = Reply(out: Option<C>, err: Option<Error>)

  /** The attempt k was followed by another. */
  predicate GoesOn<C>(p: RetryPolicy, w: World<C>, k: nat)
    requires w.Covers(p) && k <= p.maxRetries
  {
    w.outcomes[k].Err? && Retryable(w.outcomes[k].error).Some? && k != p.maxRetries && w.waited[k]
  }

  /** `made` attempts: all but the last were retried, and the last was not. */
  predicate IsRetryRun<C>(p: RetryPolicy, w: World<C>, made: nat)
    requires w.Covers(p)
  {
    && made <= Max(p.maxRetries + 1, 0)
    && (made == 0 <==> p.maxRetries < 0)
    && (forall k | 0 <= k < made - 1 :: GoesOn(p, w, k))
    && (made > 0 ==> !GoesOn(p, w, made - 1))
  }

  /** The world decides how many attempts there are. */
  lemma RetryRunIsUnique<C>(p: RetryPolicy, w: World<C>, m: nat, n: nat)
    requires w.Covers(p) && IsRetryRun(p, w, m) && IsRetryRun(p, w, n)
    ensures m == n
  {
  }

  /** The answer of the last attempt, or two zero values when there was none. */
  function ReplyAfter<C>(w: World<C>, made: nat): Reply<C>
    requires made <= |w.outcomes|
  {
    if made == 0 then Reply(None, None)
    else match w.outcomes[made - 1]
      case Ok(out) => Reply(Some(out), None)
      case Err(e) => Reply(None, Some(e))
  }

  /** Was an attempt made that succeeded? */
  predicate Succeeded<C>(w: World<C>, made: nat)
    requires made <= |w.outcomes|
  {
    made > 0 && w.outcomes[made - 1].Ok?
  }

  /** The attempt failed with a rate limit or an error of the server, and the backoff behind it ran to its end. */
  predicate IsRetried<C>(w: World<C>, k: nat) {
    && k < |w.outcomes| && k < |w.waited| && w.waited[k] && w.outcomes[k].Err? && w.outcomes[k].error.ProviderError?
    && (w.outcomes[k].error.status == 429 || w.outcomes[k].error.status >= 500)
  }

  /** What a retry run is in terms of the outcomes: it goes on as long as it may, and answers with the last of them. */
  lemma RetryRunMeans<C>(p: RetryPolicy, w: World<C>, made: nat)
    requires w.Covers(p) && IsRetryRun(p, w, made)
    ensures if p.maxRetries < 0 then made == 0 else 0 < made <= p.maxRetries + 1
    ensures forall k | 0 <= k < made - 1 :: IsRetried(w, k)
    ensures 0 < made <= p.maxRetries ==> !IsRetried(w, made - 1)
    ensures ReplyAfter(w, made).out == if made > 0 && w.outcomes[made - 1].Ok? then Some(w.outcomes[made - 1].value)
                                       else None
    ensures ReplyAfter(w, made).err == if made > 0 && w.outcomes[made - 1].Err? then Some(w.outcomes[made - 1].error)
                                       else None
  {
    forall k | 0 <= k < made - 1 ensures IsRetried(w, k) {
      assert GoesOn(p, w, k);
    }
  }

  class Resilient {
    const policy: RetryPolicy
    const breaker: Breaker?
    const limited: bool

    constructor (policy: RetryPolicy, breaker: Breaker?, limited: bool)
      ensures this.policy == policy && this.breaker == breaker && this.limited == limited
    {
      this.policy, this.breaker, this.limited := policy, breaker, limited;
    }

    ghost predicate Valid()
      reads this, breaker
    {
      breaker != null ==> breaker.Valid()
    }

    /** The retry loop; `slept` are the backoffs that ran to their end. */
    method Retry<C>(w: World<C>) returns (reply: Reply<C>, succeeded: bool, made: nat, slept: seq<int>)
      requires w.Covers(policy)
      ensures IsRetryRun(policy, w, made) && reply == ReplyAfter(w, made) && succeeded == Succeeded(w, made)
      ensures |slept| == Max(made - 1, 0)
      ensures forall k | 0 <= k < |slept| :: IsRetried(w, k)
                && slept[k] == policy.Wait(k, w.outcomes[k].error.retryAfter)
    {
      made, slept := 0, [];
      reply := Reply(None, None);
      while made <= policy.maxRetries
        invariant made <= Max(policy.maxRetries + 1, 0) && |slept| == made
        invariant forall k | 0 <= k < made :: GoesOn(policy, w, k)
        invariant reply == ReplyAfter(w, made)
        invariant forall k | 0 <= k < made :: IsRetried(w, k)
                    && slept[k] == policy.Wait(k, w.outcomes[k].error.retryAfter)
        invariant made > 0 ==> made <= policy.maxRetries
      {
        var attempt := made;
        made := made + 1;
        match w.outcomes[attempt]
        case Ok(out) =>
          return Reply(Some(out), None), true, made, slept;
        case Err(e) =>
          reply := Reply(None, Some(e));
          var retryAfter := Retryable(e);
          if retryAfter.None? || attempt == policy.maxRetries {
            break;
          }
          if !w.waited[attempt] {
            break;
          }
          slept := slept + [policy.Wait(attempt, retryAfter.value)];
      }
      succeeded := false;
    }

    /** What an admitted call records: one act, at its end. */
    method Record(succeeded: bool, now: int)
      requires Valid()
      modifies breaker
      ensures Valid()
      ensures breaker != null ==> breaker.log == old(breaker.log) + [if succeeded then Succeed else Fail(now)]
    {
      if breaker != null {
        if succeeded {
          breaker.RecordSuccess();
        } else {
          breaker.RecordFailure(now);
        }
      }
    }

    method Admit(now: int) returns (ok: bool)
      requires Valid()
      modifies breaker
      ensures Valid() && (breaker == null ==> ok)
      ensures breaker != null ==>
                ok == Admits(breaker.threshold, breaker.cooldown, old(breaker.log), now)
                && breaker.log == old(breaker.log) + [Ask(now, ok)]
    {
      ok := true;
      if breaker != null {
        ok := breaker.Allow(now);
      }
    }

    method Meanwhile(moves: seq<Move>)
      requires Valid()
      modifies breaker
      ensures Valid()
      ensures breaker != null ==>
                && |breaker.log| == |old(breaker.log)| + |moves|
                && breaker.log[..|old(breaker.log)|] == old(breaker.log)
    {
      if breaker != null {
        breaker.Others(moves);
      }
    }

    /**
      call: asks the breaker at `start`, records exactly one outcome at `end`, whatever others do in between.
      A success is recorded exactly when an attempt succeeded.
     */
    method Call<C>(w: World<C>, start: int, moves: seq<Move>, end: int) returns (reply: Reply<C>, made: nat)
      requires Valid() && w.Covers(policy)
      modifies breaker
      ensures Valid()
      ensures breaker != null && !Admits(breaker.threshold, breaker.cooldown, old(breaker.log), start) ==>
                && reply == Reply(None, Some(CircuitOpen)) && made == 0
                && breaker.log == old(breaker.log) + [Ask(start, false)]
      ensures breaker == null || Admits(breaker.threshold, breaker.cooldown, old(breaker.log), start) ==>
                if limited && !w.limiter then reply == Reply(None, Some(RateLimitWait)) && made == 0
                else IsRetryRun(policy, w, made) && reply == ReplyAfter(w, made)
      ensures breaker != null && Admits(breaker.threshold, breaker.cooldown, old(breaker.log), start) ==>
                && |breaker.log| == |old(breaker.log)| + 1 + |moves| + 1
                && breaker.log[..|old(breaker.log)| + 1] == old(breaker.log) + [Ask(start, true)]
                && breaker.log[|breaker.log| - 1]
                   == if (!limited || w.limiter) && Succeeded(w, made) then Succeed else Fail(end)
    {
      made := 0;
      var ok := Admit(start);
      if !ok {
        return Reply(None, Some(CircuitOpen)), 0;
      }
      Meanwhile(moves);
      if limited && !w.limiter {
        Record(false, end);
        return Reply(None, Some(RateLimitWait)), 0;
      }
      var succeeded, slept;
      reply, succeeded, made, slept := Retry(w);
      Record(succeeded, end);
    }

    /** Stream: asks like a call, but records nothing. */
    method Stream<C>(limiter: bool, inner: Result<C, Error>, start: int) returns (reply: Result<C, Error>)
      requires Valid()
      modifies breaker
      ensures Valid()
      ensures breaker != null ==> exists ok :: breaker.log == old(breaker.log) + [Ask(start, ok)]
      ensures reply ==
              if breaker != null && !Admits(breaker.threshold, breaker.cooldown, old(breaker.log), start) then
                Err(CircuitOpen)
              else if limited && !limiter then Err(RateLimitWait)
              else inner
    {
      var ok := Admit(start);
      if !ok {
        return Err(CircuitOpen);
      }
      if limited && !limiter {
        return Err(RateLimitWait);
      }
      reply := inner;
    }
  }

  /** The caller is told of an error exactly when a failure is recorded, provided at least one attempt is allowed. */
  lemma ReplyMatchesTheRecord<C>(p: RetryPolicy, w: World<C>, made: nat)
    requires w.Covers(p) && IsRetryRun(p, w, made)
    ensures (ReplyAfter(w, made).err.None? <==> Succeeded(w, made)) <==> p.maxRetries >= 0
  {
  }

  /** On exhaustion the caller gets the error of the last of maxRetries+1 attempts, each earlier one retryable. */
  lemma ExhaustionReturnsTheLastError<C>(p: RetryPolicy, w: World<C>, made: nat)
    requires w.Covers(p) && p.maxRetries >= 0 && IsRetryRun(p, w, made)
    requires forall k | 0 <= k <= p.maxRetries :: w.outcomes[k].Err? && Retryable(w.outcomes[k].error).Some?
    requires forall k | 0 <= k < p.maxRetries :: w.waited[k]
    ensures made == p.maxRetries + 1
    ensures ReplyAfter(w, made) == Reply(None, Some(w.outcomes[p.maxRetries].error))
  {
    if made - 1 < p.maxRetries {
      assert GoesOn(p, w, made - 1);
    }
  }
}
