/**
  The worker pool of pkg/concurrency/map.go as a state machine.

  One sender hands indexed jobs over an unbuffered channel to a fixed pool of
  workers, and everybody watches one derived context.  A Step is one atomic action
  of one participant (or of the caller's own context); a run is any interleaving of
  steps.  The fields `handoffs`, `returned` and `reports` are history: no step reads
  them.
 */
module ConcurrentMap {
  import opened Common

  /** What one call of the caller's function gave back. */
  datatype Outcome<+O, +E> = Value(value: O) | Failed(error: E)

  /** The derived context.  The first cause sticks; only Live is not done. */
  datatype Context = Live | ParentCancelled | ParentDeadline | CancelledByError

  datatype Sender<+O, +E> =
    | Sending(next: nat)                 // at the select for index `next`
    | Closing                            // broke out of the loop, channel still open
    | Waiting                            // channel closed, in wg.Wait
    | Returned(reply: Reply<O, E>)

  datatype Reply<+O, +E> =
    | Results(values: seq<Option<O>>)    // None is a slot nobody wrote: Go's zero value
    | CallError(error: E)
    | DeadlineError

  datatype Worker<+I, +O, +E> =
    | Selecting
    | Calling(index: nat, arg: I)
    | Storing(index: nat, value: O)
    | Reporting(index: nat, error: E)    // the call failed, setErr not entered yet
    | Exited

  datatype Handoff = Handoff(index: nat, worker: nat)

  datatype State<I, O, E> = State(
    sender: Sender<O, E>,
    ctx: Context,
    workers: seq<Worker<I, O, E>>,
    slots: seq<Option<O>>,
    firstErr: Option<E>,
    handoffs: seq<Handoff>,
    returned: map<nat, Outcome<O, E>>,
    reports: seq<E>)

  datatype Step<+O, +E> =
    | CancelParent
    | ExpireParent
    | Dispatch(w: nat)
    | AbortSend
    | CloseJobs
    | SeeDone(w: nat)
    | SeeClosed(w: nat)
    | FinishCall(w: nat, outcome: Outcome<O, E>)
    | Store(w: nat)
    | SetErr(w: nat)
    | Return

  /** The caller's function: the outcomes it may give on an input. */
  type CallSpec<!I, !O, !E> = (I, Outcome<O, E>) -> bool

  function Init<I, O, E>(inputs: seq<I>, workers: int): State<I, O, E> {
    var pool := if workers <= 0 then 1 else workers;
    State(Sending(0), Live, seq(pool, _ => Selecting), seq(|inputs|, _ => None), None, [], map[], [])
  }

  predicate Closed<O, E>(sender: Sender<O, E>) {
    sender.Waiting? || sender.Returned?
  }

  /** May this step be taken now? */
  predicate Enabled<I, O, E>(inputs: seq<I>, fn: CallSpec<I, O, E>, s: State<I, O, E>, step: Step<O, E>) {
    match step
    case CancelParent => s.ctx.Live? && !s.sender.Returned?
    case ExpireParent => s.ctx.Live? && !s.sender.Returned?
    case Dispatch(w) => s.sender.Sending? && s.sender.next < |inputs| && w < |s.workers| && s.workers[w].Selecting?
    case AbortSend => s.sender.Sending? && s.sender.next < |inputs| && !s.ctx.Live?
    case CloseJobs => s.sender.Closing? || (s.sender.Sending? && s.sender.next >= |inputs|)
    case SeeDone(w) => w < |s.workers| && s.workers[w].Selecting? && !s.ctx.Live?
    case SeeClosed(w) => w < |s.workers| && s.workers[w].Selecting? && Closed(s.sender)
    case FinishCall(w, outcome) => w < |s.workers| && s.workers[w].Calling? && fn(s.workers[w].arg, outcome)
    case Store(w) => w < |s.workers| && s.workers[w].Storing? && s.workers[w].index < |s.slots|
    case SetErr(w) => w < |s.workers| && s.workers[w].Reporting?
    case Return => s.sender.Waiting? && forall w | 0 <= w < |s.workers| :: s.workers[w].Exited?
  }

  /** The reply chosen after wg.Wait: first error, then a context error other than Canceled, then the slots. */
  function ChooseReply<I, O, E>(s: State<I, O, E>): Reply<O, E> {
    if s.firstErr.Some? then CallError(s.firstErr.value)
    else if s.ctx.ParentDeadline? then DeadlineError
    else Results(s.slots)
  }

  function Apply<I, O, E>(inputs: seq<I>, fn: CallSpec<I, O, E>, s: State<I, O, E>, step: Step<O, E>): State<I, O, E>
    requires Enabled(inputs, fn, s, step)
  {
    match step
    case CancelParent => s.(ctx := ParentCancelled)
    case ExpireParent => s.(ctx := ParentDeadline)
    case Dispatch(w) =>
      var i := s.sender.next;
      s.(sender := Sending(i + 1),
         workers := s.workers[w := Calling(i, inputs[i])],
         handoffs := s.handoffs + [Handoff(i, w)])
    case AbortSend => s.(sender := Closing)
    case CloseJobs => s.(sender := Waiting)
    case SeeDone(w) => s.(workers := s.workers[w := Exited])
    case SeeClosed(w) => s.(workers := s.workers[w := Exited])
    case FinishCall(w, outcome) =>
      var i := s.workers[w].index;
      s.(workers := s.workers[w := if outcome.Value? then Storing(i, outcome.value) else Reporting(i, outcome.error)],
         returned := s.returned[i := outcome])
    case Store(w) =>
      s.(slots := s.slots[s.workers[w].index := Some(s.workers[w].value)],
         workers := s.workers[w := Selecting])
    case SetErr(w) =>
      var e := s.workers[w].error;
      s.(firstErr := if s.firstErr.None? then Some(e) else s.firstErr,
         ctx := if s.firstErr.None? && s.ctx.Live? then CancelledByError else s.ctx,
         workers := s.workers[w := Exited],
         reports := s.reports + [e])
    case Return => s.(sender := Returned(ChooseReply(s)))
  }

  // ---------------------------------------------------------------- invariant

  /** Every worker that is past its select holds a job the sender handed to it. */
  ghost predicate WorkersHoldTheirJobs<I, O, E>(inputs: seq<I>, s: State<I, O, E>) {
    forall w | 0 <= w < |s.workers| && (s.workers[w].Calling? || s.workers[w].Storing? || s.workers[w].Reporting?) ::
      var i := s.workers[w].index;
      && i < |s.handoffs| && i < |inputs|
      && s.handoffs[i].worker == w
      && (s.workers[w].Calling? ==> i !in s.returned && s.workers[w].arg == inputs[i])
      && (s.workers[w].Storing? ==> i in s.returned && s.returned[i] == Value(s.workers[w].value))
      && (s.workers[w].Reporting? ==> i in s.returned && s.returned[i] == Failed(s.workers[w].error))
  }

  /** Job i is with its worker until its outcome has landed in a slot or among the reports. */
  ghost predicate JobIsAccountedFor<I, O, E>(s: State<I, O, E>, i: nat)
    requires i < |s.handoffs| <= |s.slots| && s.handoffs[i].worker < |s.workers|
  {
    var worker := s.workers[s.handoffs[i].worker];
    if i !in s.returned then worker.Calling? && worker.index == i
    else match s.returned[i]
      case Value(v) => s.slots[i] == Some(v) || worker == Storing(i, v)
      case Failed(e) => e in s.reports || worker == Reporting(i, e)
  }

  ghost predicate JobsAreAccountedFor<I, O, E>(inputs: seq<I>, fn: CallSpec<I, O, E>, s: State<I, O, E>) {
    && |s.slots| == |inputs|
    && |s.handoffs| <= |inputs|
    && (forall i | 0 <= i < |s.handoffs| ::
          s.handoffs[i].index == i && s.handoffs[i].worker < |s.workers| && JobIsAccountedFor(s, i))
    && (forall i | i in s.returned :: i < |s.handoffs| && fn(inputs[i], s.returned[i]))
    && (forall i | 0 <= i < |inputs| && s.slots[i].Some? ::
          i in s.returned && s.returned[i] == Value(s.slots[i].value))
  }

  ghost predicate ErrorsAreConsistent<I, O, E>(s: State<I, O, E>) {
    && s.firstErr == (if s.reports == [] then None else Some(s.reports[0]))
    && (s.reports != [] ==> !s.ctx.Live?)
    && (s.ctx.CancelledByError? ==> s.reports != [])
    && (forall e | e in s.reports :: exists i :: i in s.returned && s.returned[i] == Failed(e))
  }

  ghost predicate SenderIsConsistent<I, O, E>(inputs: seq<I>, s: State<I, O, E>) {
    && (s.sender.Sending? ==> s.sender.next == |s.handoffs|)
    && (s.sender.Closing? ==> !s.ctx.Live?)
    && (Closed(s.sender) ==> |s.handoffs| == |inputs| || !s.ctx.Live?)
    && (forall w | 0 <= w < |s.workers| && s.workers[w].Exited? :: !s.ctx.Live? || Closed(s.sender))
  }

  ghost predicate ReplyIsConsistent<I, O, E>(s: State<I, O, E>) {
    s.sender.Returned? ==>
      && (forall w | 0 <= w < |s.workers| :: s.workers[w].Exited?)
      && s.sender.reply == ChooseReply(s)
  }

  ghost predicate Inv<I, O, E>(inputs: seq<I>, fn: CallSpec<I, O, E>, s: State<I, O, E>) {
    && |s.workers| > 0
    && JobsAreAccountedFor(inputs, fn, s)
    && WorkersHoldTheirJobs(inputs, s)
    && ErrorsAreConsistent(s)
    && SenderIsConsistent(inputs, s)
    && ReplyIsConsistent(s)
  }

  lemma InitEstablishesInv<I, O, E>(inputs: seq<I>, workers: int, fn: CallSpec<I, O, E>)
    ensures Inv(inputs, fn, Init<I, O, E>(inputs, workers))
  {
  }

  lemma DispatchKeepsInv<I, O, E>(inputs: seq<I>, fn: CallSpec<I, O, E>, s: State<I, O, E>, step: Step<O, E>)
    requires Inv(inputs, fn, s) && step.Dispatch? && Enabled(inputs, fn, s, step)
    ensures Inv(inputs, fn, Apply(inputs, fn, s, step))
  {
    var t := Apply(inputs, fn, s, step);
    assert JobsAreAccountedFor(inputs, fn, t);
    assert WorkersHoldTheirJobs(inputs, t);
    assert ErrorsAreConsistent(t);
    assert SenderIsConsistent(inputs, t);
  }

  lemma FinishCallKeepsJobs<I, O, E>(inputs: seq<I>, fn: CallSpec<I, O, E>, s: State<I, O, E>, step: Step<O, E>)
    requires Inv(inputs, fn, s) && step.FinishCall? && Enabled(inputs, fn, s, step)
    ensures JobsAreAccountedFor(inputs, fn, Apply(inputs, fn, s, step))
  {
  }

  lemma FinishCallKeepsInv<I, O, E>(inputs: seq<I>, fn: CallSpec<I, O, E>, s: State<I, O, E>, step: Step<O, E>)
    requires Inv(inputs, fn, s) && step.FinishCall? && Enabled(inputs, fn, s, step)
    ensures Inv(inputs, fn, Apply(inputs, fn, s, step))
  {
    var t := Apply(inputs, fn, s, step);
    FinishCallKeepsJobs(inputs, fn, s, step);
    assert WorkersHoldTheirJobs(inputs, t);
    assert ErrorsAreConsistent(t);
    assert SenderIsConsistent(inputs, t);
  }

  lemma StoreKeepsInv<I, O, E>(inputs: seq<I>, fn: CallSpec<I, O, E>, s: State<I, O, E>, step: Step<O, E>)
    requires Inv(inputs, fn, s) && step.Store? && Enabled(inputs, fn, s, step)
    ensures Inv(inputs, fn, Apply(inputs, fn, s, step))
  {
    var t := Apply(inputs, fn, s, step);
    assert JobsAreAccountedFor(inputs, fn, t);
    assert WorkersHoldTheirJobs(inputs, t);
    assert ErrorsAreConsistent(t);
    assert SenderIsConsistent(inputs, t);
  }

  lemma SetErrKeepsInv<I, O, E>(inputs: seq<I>, fn: CallSpec<I, O, E>, s: State<I, O, E>, step: Step<O, E>)
    requires Inv(inputs, fn, s) && step.SetErr? && Enabled(inputs, fn, s, step)
    ensures Inv(inputs, fn, Apply(inputs, fn, s, step))
  {
    var t := Apply(inputs, fn, s, step);
    assert JobsAreAccountedFor(inputs, fn, t);
    assert WorkersHoldTheirJobs(inputs, t);
    assert ErrorsAreConsistent(t);
    assert SenderIsConsistent(inputs, t);
  }

  lemma LeavePoolKeepsInv<I, O, E>(inputs: seq<I>, fn: CallSpec<I, O, E>, s: State<I, O, E>, step: Step<O, E>)
    requires Inv(inputs, fn, s) && (step.SeeDone? || step.SeeClosed?) && Enabled(inputs, fn, s, step)
    ensures Inv(inputs, fn, Apply(inputs, fn, s, step))
  {
  }

  /** Every step of every participant keeps the invariant. */
  lemma StepKeepsInv<I, O, E>(inputs: seq<I>, fn: CallSpec<I, O, E>, s: State<I, O, E>, step: Step<O, E>)
    requires Inv(inputs, fn, s) && Enabled(inputs, fn, s, step)
    ensures Inv(inputs, fn, Apply(inputs, fn, s, step))
  {
    match step
    case Dispatch(_) => DispatchKeepsInv(inputs, fn, s, step);
    case FinishCall(_, _) => FinishCallKeepsInv(inputs, fn, s, step);
    case Store(_) => StoreKeepsInv(inputs, fn, s, step);
    case SetErr(_) => SetErrKeepsInv(inputs, fn, s, step);
    case SeeDone(_) => LeavePoolKeepsInv(inputs, fn, s, step);
    case SeeClosed(_) => LeavePoolKeepsInv(inputs, fn, s, step);
    case CancelParent =>
    case ExpireParent =>
    case AbortSend =>
    case CloseJobs =>
    case Return =>
  }

  // ---------------------------------------------------------------- liveness

  ghost predicate CallReturns<I, O(!new), E(!new)>(fn: CallSpec<I, O, E>, x: I) {
    exists r: Outcome<O, E> :: fn(x, r)
  }

  /** Every call of the caller's function comes back with something. */
  ghost predicate CallsReturn<I(!new), O(!new), E(!new)>(fn: CallSpec<I, O, E>) {
    forall x: I :: CallReturns(fn, x)
  }

  /**
    Deadlock freedom: until Map has returned, the sender or some worker can move
    without any help from the caller's context.
   */
  lemma NoDeadlock<I(!new), O(!new), E(!new)>(inputs: seq<I>, fn: CallSpec<I, O, E>, s: State<I, O, E>)
    returns (step: Step<O, E>)
    requires Inv(inputs, fn, s) && CallsReturn(fn) && !s.sender.Returned?
    ensures Enabled(inputs, fn, s, step) && !step.CancelParent? && !step.ExpireParent?
  {
    if w :| 0 <= w < |s.workers| && s.workers[w].Calling? {
      assert CallReturns(fn, s.workers[w].arg);
      var outcome :| fn(s.workers[w].arg, outcome);
      step := FinishCall(w, outcome);
    } else if w :| 0 <= w < |s.workers| && s.workers[w].Storing? {
      step := Store(w);
    } else if w :| 0 <= w < |s.workers| && s.workers[w].Reporting? {
      step := SetErr(w);
    } else if w :| 0 <= w < |s.workers| && s.workers[w].Selecting? {
      step := match s.sender
        case Sending(i) => if i < |inputs| then Dispatch(w) else CloseJobs
        case Closing => CloseJobs
        case Waiting => SeeClosed(w);
    } else {
      assert s.workers[0].Exited?;
      step := match s.sender
        case Sending(i) => if i < |inputs| then AbortSend else CloseJobs
        case Closing => CloseJobs
        case Waiting => Return;
    }
  }

  function WorkerRank<I, O, E>(w: Worker<I, O, E>): nat {
    match w
    case Selecting => 1
    case Calling(_, _) => 3
    case Storing(_, _) => 2
    case Reporting(_, _) => 2
    case Exited => 0
  }

  function PoolRank<I, O, E>(workers: seq<Worker<I, O, E>>): nat {
    if workers == [] then 0 else WorkerRank(workers[0]) + PoolRank(workers[1..])
  }

  /** Bounds the steps that are still possible. */
  function Rank<I, O, E>(inputs: seq<I>, s: State<I, O, E>): nat {
    (if s.ctx.Live? then 1 else 0) + PoolRank(s.workers) +
    match s.sender
    case Sending(i) => if i <= |inputs| then 3 * (|inputs| - i) + 3 else 3
    case Closing => 2
    case Waiting => 1
    case Returned(_) => 0
  }

  lemma {:induction false} PoolRankUpdate<I, O, E>(workers: seq<Worker<I, O, E>>, w: nat, x: Worker<I, O, E>)
    requires w < |workers|
    ensures PoolRank(workers[w := x]) == PoolRank(workers) - WorkerRank(workers[w]) + WorkerRank(x)
  {
    if w > 0 {
      assert workers[w := x][1..] == workers[1..][w - 1 := x];
      PoolRankUpdate(workers[1..], w - 1, x);
    }
  }

  lemma {:induction false} PoolRankOfFreshPool<I, O, E>(workers: seq<Worker<I, O, E>>)
    requires forall w | 0 <= w < |workers| :: workers[w].Selecting?
    ensures PoolRank(workers) == |workers|
  {
    if workers != [] {
      PoolRankOfFreshPool(workers[1..]);
    }
  }

  lemma StepLowersRank<I, O, E>(inputs: seq<I>, fn: CallSpec<I, O, E>, s: State<I, O, E>, step: Step<O, E>)
    requires Inv(inputs, fn, s) && Enabled(inputs, fn, s, step)
    ensures Rank(inputs, Apply(inputs, fn, s, step)) < Rank(inputs, s)
  {
    var t := Apply(inputs, fn, s, step);
    if step.Dispatch? || step.SeeDone? || step.SeeClosed? || step.FinishCall? || step.Store? || step.SetErr? {
      PoolRankUpdate(s.workers, step.w, t.workers[step.w]);
    }
  }

  // ---------------------------------------------------------------- whole runs

  /** Taking the steps of the schedule one after the other leads from s to t. */
  ghost predicate Reaches<I, O, E>(
      inputs: seq<I>, fn: CallSpec<I, O, E>, s: State<I, O, E>, schedule: seq<Step<O, E>>, t: State<I, O, E>)
    decreases |schedule|
  {
    if schedule == [] then
      s == t
    else
      && Enabled(inputs, fn, s, schedule[0])
      && Reaches(inputs, fn, Apply(inputs, fn, s, schedule[0]), schedule[1..], t)
  }

  lemma {:induction false} RunKeepsInv<I, O, E>(
      inputs: seq<I>, fn: CallSpec<I, O, E>, s: State<I, O, E>, schedule: seq<Step<O, E>>, t: State<I, O, E>)
    requires Inv(inputs, fn, s) && Reaches(inputs, fn, s, schedule, t)
    ensures Inv(inputs, fn, t)
    ensures |schedule| + Rank(inputs, t) <= Rank(inputs, s)
    decreases |schedule|
  {
    if schedule != [] {
      StepKeepsInv(inputs, fn, s, schedule[0]);
      StepLowersRank(inputs, fn, s, schedule[0]);
      RunKeepsInv(inputs, fn, Apply(inputs, fn, s, schedule[0]), schedule[1..], t);
    }
  }

  /** No schedule is longer than this, whatever the interleaving, the errors and the caller's context do. */
  lemma RunsAreBounded<I, O, E>(
      inputs: seq<I>, workers: int, fn: CallSpec<I, O, E>, schedule: seq<Step<O, E>>, t: State<I, O, E>)
    requires Reaches(inputs, fn, Init<I, O, E>(inputs, workers), schedule, t)
    ensures |schedule| <= 3 * |inputs| + (if workers <= 0 then 1 else workers) + 4
  {
    var s := Init<I, O, E>(inputs, workers);
    InitEstablishesInv<I, O, E>(inputs, workers, fn);
    RunKeepsInv(inputs, fn, s, schedule, t);
    PoolRankOfFreshPool(s.workers);
  }

  /** In every reachable state the jobs handed over are a prefix of the inputs, each handed over once and in order. */
  lemma DispatchIsAPrefix<I, O, E>(
      inputs: seq<I>, workers: int, fn: CallSpec<I, O, E>, schedule: seq<Step<O, E>>, t: State<I, O, E>)
    requires Reaches(inputs, fn, Init<I, O, E>(inputs, workers), schedule, t)
    ensures |t.handoffs| <= |inputs|
    ensures forall k | 0 <= k < |t.handoffs| :: t.handoffs[k].index == k
    ensures t.returned.Keys <= set k | 0 <= k < |t.handoffs| :: t.handoffs[k].index
  {
    InitEstablishesInv<I, O, E>(inputs, workers, fn);
    RunKeepsInv(inputs, fn, Init(inputs, workers), schedule, t);
    forall i | i in t.returned ensures i in set k | 0 <= k < |t.handoffs| :: t.handoffs[k].index {
      assert t.handoffs[i].index == i;
    }
  }

  /** What a finished run means, stated from what the calls gave back. */
  ghost predicate CorrectReply<I, O, E>(inputs: seq<I>, fn: CallSpec<I, O, E>, t: State<I, O, E>, reply: Reply<O, E>) {
    // nobody is left running
    && (forall w | 0 <= w < |t.workers| :: t.workers[w].Exited?)
    // a call error is returned exactly when some call failed, and it is the first in the history of reports
    && (reply.CallError? <==> exists i :: i in t.returned && t.returned[i].Failed?)
    && (reply.CallError? ==> t.reports != [] && reply.error == t.reports[0])
    && (reply.DeadlineError? ==> t.ctx.ParentDeadline?)
    && (reply.Results? ==>
          && |reply.values| == |inputs|
          && !t.ctx.ParentDeadline?
          && (forall i | 0 <= i < |inputs| && reply.values[i].Some? :: fn(inputs[i], Value(reply.values[i].value)))
          // a hole is possible only when the caller cancelled
          && ((exists i :: 0 <= i < |inputs| && reply.values[i].None?) ==> t.ctx.ParentCancelled?))
  }

  lemma ErrorsComeFromCalls<I, O, E>(inputs: seq<I>, fn: CallSpec<I, O, E>, t: State<I, O, E>)
    requires Inv(inputs, fn, t) && t.sender.Returned?
    ensures t.reports != [] <==> exists i :: i in t.returned && t.returned[i].Failed?
  {
    if t.reports != [] {
      assert t.reports[0] in t.reports;
    }
    if i :| i in t.returned && t.returned[i].Failed? {
      assert JobIsAccountedFor(t, i);
    }
  }

  lemma HandedOverSlotsAreWritten<I, O, E>(inputs: seq<I>, fn: CallSpec<I, O, E>, t: State<I, O, E>, i: nat)
    requires Inv(inputs, fn, t) && t.sender.Returned? && t.reports == []
    requires i < |t.handoffs|
    ensures t.slots[i].Some?
  {
    assert JobIsAccountedFor(t, i);
  }

  lemma HolesComeFromTheCaller<I, O, E>(inputs: seq<I>, fn: CallSpec<I, O, E>, t: State<I, O, E>, i: nat)
    requires Inv(inputs, fn, t) && t.sender.Returned? && t.sender.reply.Results?
    requires i < |inputs| && t.slots[i].None?
    ensures t.ctx.ParentCancelled?
  {
    if i < |t.handoffs| {
      HandedOverSlotsAreWritten(inputs, fn, t, i);
    }
  }

  // ---------------------------------------------------------------- the first error

  lemma {:induction false} RunSplits<I, O, E>(
      inputs: seq<I>, fn: CallSpec<I, O, E>, s: State<I, O, E>, schedule: seq<Step<O, E>>, t: State<I, O, E>, k: nat)
    returns (u: State<I, O, E>)
    requires k <= |schedule| && Reaches(inputs, fn, s, schedule, t)
    ensures Reaches(inputs, fn, s, schedule[..k], u) && Reaches(inputs, fn, u, schedule[k..], t)
    decreases k
  {
    if k == 0 {
      u := s;
      assert schedule[0..] == schedule;
    } else {
      u := RunSplits(inputs, fn, Apply(inputs, fn, s, schedule[0]), schedule[1..], t, k - 1);
      assert schedule[..k][1..] == schedule[1..][..k - 1] && schedule[1..][k - 1..] == schedule[k..];
    }
  }

  lemma {:induction false} RunIsDetermined<I, O, E>(
      inputs: seq<I>, fn: CallSpec<I, O, E>, s: State<I, O, E>, schedule: seq<Step<O, E>>, t: State<I, O, E>,
      u: State<I, O, E>)
    requires Reaches(inputs, fn, s, schedule, t) && Reaches(inputs, fn, s, schedule, u)
    ensures t == u
    decreases |schedule|
  {
    if schedule != [] {
      RunIsDetermined(inputs, fn, Apply(inputs, fn, s, schedule[0]), schedule[1..], t, u);
    }
  }

  predicate NoReport<O, E>(schedule: seq<Step<O, E>>) {
    forall i | 0 <= i < |schedule| :: !schedule[i].SetErr?
  }

  /** As long as nobody reports an error there is none to return. */
  lemma {:induction false} NoErrorYet<I, O, E>(
      inputs: seq<I>, fn: CallSpec<I, O, E>, s: State<I, O, E>, schedule: seq<Step<O, E>>, t: State<I, O, E>)
    requires Reaches(inputs, fn, s, schedule, t) && NoReport(schedule)
    requires s.firstErr.None? && (s.sender.Returned? ==> !s.sender.reply.CallError?)
    ensures t.firstErr.None? && (t.sender.Returned? ==> !t.sender.reply.CallError?)
    decreases |schedule|
  {
    if schedule != [] {
      NoErrorYet(inputs, fn, Apply(inputs, fn, s, schedule[0]), schedule[1..], t);
    }
  }

  /** An error once set is the one returned. */
  lemma {:induction false} ErrorSticks<I, O, E>(
      inputs: seq<I>, fn: CallSpec<I, O, E>, s: State<I, O, E>, schedule: seq<Step<O, E>>, t: State<I, O, E>, e: E)
    requires Reaches(inputs, fn, s, schedule, t)
    requires s.firstErr == Some(e) && (s.sender.Returned? ==> s.sender.reply == CallError(e))
    ensures t.firstErr == Some(e) && (t.sender.Returned? ==> t.sender.reply == CallError(e))
    decreases |schedule|
  {
    if schedule != [] {
      ErrorSticks(inputs, fn, Apply(inputs, fn, s, schedule[0]), schedule[1..], t, e);
    }
  }

  /** The k-th step of the schedule is the first in which a worker reports an error. */
  predicate IsFirstReport<O, E>(schedule: seq<Step<O, E>>, k: nat) {
    k < |schedule| && schedule[k].SetErr? && NoReport(schedule[..k])
  }

  /** Worker w is about to report this error. */
  ghost predicate IsReporting<I, O, E>(s: State<I, O, E>, w: nat, e: E) {
    w < |s.workers| && s.workers[w].Reporting? && s.workers[w].error == e
  }

  /**
    The reply carries the error of the worker that reports first, whoever reports later; and none if nobody does.
    Told from the schedule and the states it leads through.
   */
  ghost predicate CarriesFirstError<I(!new), O(!new), E(!new)>(
      inputs: seq<I>, workers: int, fn: CallSpec<I, O, E>, schedule: seq<Step<O, E>>, reply: Reply<O, E>) {
    && (NoReport(schedule) ==> !reply.CallError?)
    && forall k: nat, u: State<I, O, E> |
         IsFirstReport(schedule, k) && Reaches(inputs, fn, Init<I, O, E>(inputs, workers), schedule[..k], u) ::
         reply.CallError? && IsReporting(u, schedule[k].w, reply.error)
  }

  lemma FirstErrorWins<I, O, E>(
      inputs: seq<I>, workers: int, fn: CallSpec<I, O, E>, schedule: seq<Step<O, E>>, t: State<I, O, E>, k: nat)
    returns (u: State<I, O, E>)
    requires Reaches(inputs, fn, Init<I, O, E>(inputs, workers), schedule, t) && t.sender.Returned?
    requires IsFirstReport(schedule, k)
    ensures Reaches(inputs, fn, Init<I, O, E>(inputs, workers), schedule[..k], u)
    ensures t.sender.reply.CallError? && IsReporting(u, schedule[k].w, t.sender.reply.error)
  {
    var s := Init<I, O, E>(inputs, workers);
    u := RunSplits(inputs, fn, s, schedule, t, k);
    InitEstablishesInv<I, O, E>(inputs, workers, fn);
    RunKeepsInv(inputs, fn, s, schedule[..k], u);
    NoErrorYet(inputs, fn, s, schedule[..k], u);
    assert schedule[k..][0] == schedule[k] && schedule[k..][1..] == schedule[k + 1..];
    var e := u.workers[schedule[k].w].error;
    ErrorSticks(inputs, fn, Apply(inputs, fn, u, schedule[k]), schedule[k + 1..], t, e);
  }

  lemma RepliesCarryTheFirstError<I(!new), O(!new), E(!new)>(
      inputs: seq<I>, workers: int, fn: CallSpec<I, O, E>, schedule: seq<Step<O, E>>, t: State<I, O, E>)
    requires Reaches(inputs, fn, Init<I, O, E>(inputs, workers), schedule, t) && t.sender.Returned?
    ensures CarriesFirstError(inputs, workers, fn, schedule, t.sender.reply)
  {
    var s := Init<I, O, E>(inputs, workers);
    if NoReport(schedule) {
      NoErrorYet(inputs, fn, s, schedule, t);
    }
    forall k: nat, u: State<I, O, E> | IsFirstReport(schedule, k) && Reaches(inputs, fn, s, schedule[..k], u)
      ensures t.sender.reply.CallError? && IsReporting(u, schedule[k].w, t.sender.reply.error)
    {
      var u' := FirstErrorWins(inputs, workers, fn, schedule, t, k);
      RunIsDetermined(inputs, fn, s, schedule[..k], u, u');
    }
  }

  // ---------------------------------------------------------------- the caller's context

  predicate Cancels<O, E>(schedule: seq<Step<O, E>>) {
    exists k | 0 <= k < |schedule| :: schedule[k].CancelParent?
  }

  predicate Expires<O, E>(schedule: seq<Step<O, E>>) {
    exists k | 0 <= k < |schedule| :: schedule[k].ExpireParent?
  }

  lemma EndsAlike<O, E>(schedule: seq<Step<O, E>>)
    requires schedule != []
    ensures Cancels(schedule) <==> schedule[0].CancelParent? || Cancels(schedule[1..])
    ensures Expires(schedule) <==> schedule[0].ExpireParent? || Expires(schedule[1..])
  {
    assert forall k | 0 <= k < |schedule[1..]| :: schedule[1..][k] == schedule[k + 1];
    assert forall k | 0 < k < |schedule| :: schedule[k] == schedule[1..][k - 1];
  }

  /** The pool keeps its size, and its context ends by the caller's hand exactly if the caller's context did. */
  lemma {:induction false} PoolAndContext<I, O, E>(
      inputs: seq<I>, fn: CallSpec<I, O, E>, s: State<I, O, E>, schedule: seq<Step<O, E>>, t: State<I, O, E>)
    requires Reaches(inputs, fn, s, schedule, t)
    ensures |t.workers| == |s.workers|
    ensures t.ctx.ParentCancelled? <==> s.ctx.ParentCancelled? || Cancels(schedule)
    ensures t.ctx.ParentDeadline? <==> s.ctx.ParentDeadline? || Expires(schedule)
    decreases |schedule|
  {
    if schedule != [] {
      EndsAlike(schedule);
      PoolAndContext(inputs, fn, Apply(inputs, fn, s, schedule[0]), schedule[1..], t);
    }
  }

  /**
    In every reachable state there are as many workers as asked for.  A deadline is returned only when the caller's
    context expired and no worker reported an error; with a result in hand it did not expire, and a slot nobody wrote
    means that it was cancelled.
   */
  lemma ContextDecides<I, O, E>(
      inputs: seq<I>, workers: int, fn: CallSpec<I, O, E>, schedule: seq<Step<O, E>>, t: State<I, O, E>)
    requires Reaches(inputs, fn, Init<I, O, E>(inputs, workers), schedule, t)
    ensures |t.workers| == if workers > 1 then workers else 1
    ensures t.sender.Returned? && t.sender.reply.DeadlineError? ==> Expires(schedule) && NoReport(schedule)
    ensures t.sender.Returned? && t.sender.reply.Results? ==> !Expires(schedule) && NoReport(schedule)
    ensures t.sender.Returned? && t.sender.reply.Results? && !Cancels(schedule) ==>
              forall i | 0 <= i < |inputs| :: i < |t.sender.reply.values| && t.sender.reply.values[i].Some?
  {
    var s := Init<I, O, E>(inputs, workers);
    PoolAndContext(inputs, fn, s, schedule, t);
    InitEstablishesInv<I, O, E>(inputs, workers, fn);
    RunKeepsInv(inputs, fn, s, schedule, t);
    if t.sender.Returned? && !NoReport(schedule) {
      var k := FirstReport(schedule);
      var u := FirstErrorWins(inputs, workers, fn, schedule, t, k);
    }
    if t.sender.Returned? && t.sender.reply.Results? && !Cancels(schedule) {
      forall i | 0 <= i < |inputs| ensures t.slots[i].Some? {
        if t.slots[i].None? {
          HolesComeFromTheCaller(inputs, fn, t, i);
        }
      }
    }
  }

  lemma {:induction false} FirstReport<O, E>(schedule: seq<Step<O, E>>) returns (k: nat)
    requires !NoReport(schedule)
    ensures IsFirstReport(schedule, k)
    decreases |schedule|
  {
    var n := |schedule| - 1;
    if NoReport(schedule[..n]) {
      k := n;
    } else {
      k := FirstReport(schedule[..n]);
      assert schedule[..n][..k] == schedule[..k];
    }
  }

  // ---------------------------------------------------------------- where values come from

  lemma {:induction false} OutcomeStays<I, O, E>(
      inputs: seq<I>, fn: CallSpec<I, O, E>, s: State<I, O, E>, schedule: seq<Step<O, E>>, t: State<I, O, E>, i: nat)
    requires Inv(inputs, fn, s) && Reaches(inputs, fn, s, schedule, t) && i in s.returned
    ensures i in t.returned && t.returned[i] == s.returned[i]
    decreases |schedule|
  {
    if schedule != [] {
      StepKeepsInv(inputs, fn, s, schedule[0]);
      OutcomeStays(inputs, fn, Apply(inputs, fn, s, schedule[0]), schedule[1..], t, i);
    }
  }

  /** The k-th step of the schedule is the end of the call for input i, with this outcome. */
  ghost predicate EndsCall<I, O, E>(
      inputs: seq<I>, fn: CallSpec<I, O, E>, s: State<I, O, E>, schedule: seq<Step<O, E>>, k: nat, u: State<I, O, E>,
      i: nat, outcome: Outcome<O, E>)
  {
    && k < |schedule| && Reaches(inputs, fn, s, schedule[..k], u)
    && schedule[k].FinishCall? && schedule[k].outcome == outcome
    && i < |inputs| && schedule[k].w < |u.workers| && u.workers[schedule[k].w] == Calling(i, inputs[i])
  }

  lemma {:induction false} OutcomeIsFromACall<I, O, E>(
      inputs: seq<I>, fn: CallSpec<I, O, E>, s: State<I, O, E>, schedule: seq<Step<O, E>>, t: State<I, O, E>, i: nat)
    returns (k: nat, u: State<I, O, E>)
    requires Inv(inputs, fn, s) && Reaches(inputs, fn, s, schedule, t) && i !in s.returned && i in t.returned
    ensures EndsCall(inputs, fn, s, schedule, k, u, i, t.returned[i])
    decreases |schedule|
  {
    var next := Apply(inputs, fn, s, schedule[0]);
    StepKeepsInv(inputs, fn, s, schedule[0]);
    if i in next.returned {
      OutcomeStays(inputs, fn, next, schedule[1..], t, i);
      k, u := 0, s;
    } else {
      k, u := OutcomeIsFromACall(inputs, fn, next, schedule[1..], t, i);
      k := k + 1;
      assert schedule[..k][1..] == schedule[1..][..k - 1];
    }
  }

  /** Every value in a result is what the call for that very input gave back. */
  lemma EveryValueIsFromItsCall<I, O, E>(
      inputs: seq<I>, workers: int, fn: CallSpec<I, O, E>, schedule: seq<Step<O, E>>, t: State<I, O, E>, i: nat)
    returns (k: nat, u: State<I, O, E>)
    requires Reaches(inputs, fn, Init<I, O, E>(inputs, workers), schedule, t)
    requires t.sender.Returned? && t.sender.reply.Results?
    requires i < |t.sender.reply.values| && t.sender.reply.values[i].Some?
    ensures EndsCall(inputs, fn, Init<I, O, E>(inputs, workers), schedule, k, u, i,
                     Value(t.sender.reply.values[i].value))
  {
    var s := Init<I, O, E>(inputs, workers);
    InitEstablishesInv<I, O, E>(inputs, workers, fn);
    RunKeepsInv(inputs, fn, s, schedule, t);
    k, u := OutcomeIsFromACall(inputs, fn, s, schedule, t, i);
  }

  // ---------------------------------------------------------------- replies

  /** Result agreement: every run that returns, returns a correct reply. */
  lemma EveryReplyIsCorrect<I(!new), O(!new), E(!new)>(
      inputs: seq<I>, workers: int, fn: CallSpec<I, O, E>, schedule: seq<Step<O, E>>, t: State<I, O, E>)
    requires Reaches(inputs, fn, Init<I, O, E>(inputs, workers), schedule, t)
    requires t.sender.Returned?
    ensures CorrectReply(inputs, fn, t, t.sender.reply)
    ensures CarriesFirstError(inputs, workers, fn, schedule, t.sender.reply)
  {
    RepliesCarryTheFirstError(inputs, workers, fn, schedule, t);
    InitEstablishesInv<I, O, E>(inputs, workers, fn);
    RunKeepsInv(inputs, fn, Init(inputs, workers), schedule, t);
    ErrorsComeFromCalls(inputs, fn, t);
    if t.sender.reply.Results? {
      forall i | 0 <= i < |inputs| && t.slots[i].None? ensures t.ctx.ParentCancelled? {
        HolesComeFromTheCaller(inputs, fn, t, i);
      }
    }
  }

  lemma {:induction false} RunExtends<I, O, E>(
      inputs: seq<I>, fn: CallSpec<I, O, E>, s: State<I, O, E>, schedule: seq<Step<O, E>>, t: State<I, O, E>,
      step: Step<O, E>)
    requires Reaches(inputs, fn, s, schedule, t) && Enabled(inputs, fn, t, step)
    ensures Reaches(inputs, fn, s, schedule + [step], Apply(inputs, fn, t, step))
    decreases |schedule|
  {
    if schedule == [] {
      assert (schedule + [step])[1..] == [];
    } else {
      RunExtends(inputs, fn, Apply(inputs, fn, s, schedule[0]), schedule[1..], t, step);
      assert (schedule + [step])[1..] == schedule[1..] + [step];
    }
  }

  /** A reply some run of the pool returns, and a correct one. */
  ghost predicate IsReply<I(!new), O(!new), E(!new)>(
      inputs: seq<I>, workers: int, fn: CallSpec<I, O, E>, reply: Reply<O, E>) {
    exists schedule: seq<Step<O, E>>, end: State<I, O, E> ::
      && Reaches(inputs, fn, Init<I, O, E>(inputs, workers), schedule, end)
      && end.sender == Returned(reply) && CorrectReply(inputs, fn, end, reply)
      && CarriesFirstError(inputs, workers, fn, schedule, reply)
  }

  /** Map under an arbitrary scheduler: it always gets to its return, by a run of the pool. */
  method Map<I(!new), O(!new), E(!new)>(inputs: seq<I>, workers: int, fn: CallSpec<I, O, E>)
    returns (reply: Reply<O, E>)
    requires CallsReturn(fn)
    ensures IsReply(inputs, workers, fn, reply)
  {
    var s := Init<I, O, E>(inputs, workers);
    ghost var schedule: seq<Step<O, E>> := [];
    InitEstablishesInv<I, O, E>(inputs, workers, fn);
    while !s.sender.Returned?
      invariant Inv(inputs, fn, s)
      invariant Reaches(inputs, fn, Init<I, O, E>(inputs, workers), schedule, s)
      decreases Rank(inputs, s)
    {
      ghost var enabled := NoDeadlock(inputs, fn, s);
      var step :| Enabled(inputs, fn, s, step);
      StepKeepsInv(inputs, fn, s, step);
      StepLowersRank(inputs, fn, s, step);
      RunExtends(inputs, fn, Init(inputs, workers), schedule, s, step);
      s, schedule := Apply(inputs, fn, s, step), schedule + [step];
    }
    reply := s.sender.reply;
    EveryReplyIsCorrect(inputs, workers, fn, schedule, s);
  }
}
