/**
  What one poll of cmd/mailpoll/main.go does with its listing: which messages it attempts, where it ends and what
  the state file holds afterwards, said of the listing and of the oracles' answers alone.
 */
module MailWork {
  import opened Common
  import opened MailPoll
  import opened MailCounter

  // ---------------------------------------------------------------- the listing

  /** What is due is what the search found, in ascending order; in steady state only what lies above the cursor. */
  ghost predicate IsListing(st: UidState, env: Env, due: seq<nat>) {
    && IsSorted(due)
    && forall u: nat :: multiset(due)[u] == if st.lastUid == 0 || u > st.lastUid then multiset(env.found)[u] else 0
  }

  lemma {:induction false} InsertAddsOne(u: nat, s: seq<nat>)
    requires IsSorted(s)
    ensures multiset(Insert(u, s)) == multiset(s) + multiset{u}
  {
    if s != [] && u > s[0] {
      InsertAddsOne(u, s[1..]);
      assert s == [s[0]] + s[1..];
    }
  }

  lemma {:induction false} SortKeepsAll(s: seq<nat>)
    ensures multiset(Sort(s)) == multiset(s)
  {
    if s != [] {
      SortKeepsAll(s[1..]);
      InsertAddsOne(s[0], Sort(s[1..]));
      assert s == [s[0]] + s[1..];
    }
  }

  lemma {:induction false} AboveKeepsAll(s: seq<nat>, lastUid: nat, u: nat)
    ensures multiset(Above(s, lastUid))[u] == if u > lastUid then multiset(s)[u] else 0
  {
    if s != [] {
      AboveKeepsAll(s[1..], lastUid, u);
      assert s == [s[0]] + s[1..];
    }
  }

  lemma ListedIsListing(st: UidState, env: Env)
    ensures IsListing(st, env, Listed(st, env))
  {
    SortKeepsAll(env.found);
    forall u: nat ensures multiset(Above(Sort(env.found), st.lastUid))[u]
                     == if u > st.lastUid then multiset(env.found)[u] else 0 {
      AboveKeepsAll(Sort(env.found), st.lastUid, u);
    }
  }

  // ---------------------------------------------------------------- one message after the other

  /** What a poll starts from and has before it. */
  datatype Work = Work(cfg: Config, st: UidState, due: seq<nat>, ticks: nat -> Tick)

  /**
    The failures counted against the i-th message when its turn comes: the stored ones, unless an earlier turn has
    reset the counter.
   */
  function TriesAt(k: Work, i: nat): nat
    requires i < |k.due|
  {
    if k.st.failUid == k.due[i]
       && forall j | 0 <= j < i :: k.ticks(j).outcome == Forwarded && k.due[j] != k.due[i] then k.st.failCount
    else 0
  }

  /** The i-th message fails and has a try left. */
  predicate FailsBelow(k: Work, i: nat)
    requires i < |k.due|
  {
    k.ticks(i).outcome == Failed && TriesAt(k, i) + 1 < k.cfg.maxAttempts
  }

  /** The i-th message is done with and takes the cursor along: not when a bootstrap forwards it. */
  predicate Moves(k: Work, i: nat)
    requires i < |k.due|
  {
    !FailsBelow(k, i) && (k.st.lastUid == 0 ==> k.ticks(i).outcome != Forwarded)
  }

  /** The i-th turn writes the state file, and that write goes through. */
  predicate Writes(k: Work, i: nat) {
    k.ticks(i).saved && (k.st.lastUid == 0 ==> k.ticks(i).outcome != Forwarded)
  }

  /** The turn of the last of the first n messages that moved the cursor, counted from 1; 0 if there is none. */
  function LastMoved(k: Work, n: nat): (s: nat)
    requires n <= |k.due|
    ensures s <= n && (s > 0 ==> Moves(k, s - 1)) && forall i | s <= i < n :: !Moves(k, i)
  {
    if n == 0 || Moves(k, n - 1) then n else LastMoved(k, n - 1)
  }

  function LastWritten(k: Work, n: nat): (s: nat)
    ensures s <= n && (s > 0 ==> Writes(k, s - 1)) && forall i | s <= i < n :: !Writes(k, i)
  {
    if n == 0 || Writes(k, n - 1) then n else LastWritten(k, n - 1)
  }

  /** The cursor behind the last message that moved it. */
  function Cursor(k: Work, n: nat): nat
    requires n <= |k.due|
  {
    if LastMoved(k, n) == 0 then k.st.lastUid else k.due[LastMoved(k, n) - 1]
  }

  /** One of the first n turns reset the counter. */
  predicate Resets(k: Work, n: nat)
    requires n <= |k.due|
  {
    exists j | 0 <= j < n :: k.ticks(j).outcome != Forwarded || k.due[j] == k.st.failUid
  }

  /** The state after n turns. */
  function After(k: Work, n: nat): UidState
    requires n <= |k.due|
  {
    if n > 0 && FailsBelow(k, n - 1) then
      UidState(k.st.uidValidity, Cursor(k, n), k.due[n - 1], TriesAt(k, n - 1) + 1)
    else if Resets(k, n) then UidState(k.st.uidValidity, Cursor(k, n), 0, 0)
    else k.st.(lastUid := Cursor(k, n))
  }

  /** The first n turns are taken and none of them ends the poll. */
  predicate GoesOn(k: Work, n: nat)
    requires n <= |k.due|
  {
    forall j | 0 <= j < n :: !k.ticks(j).cancelled && !FailsBelow(k, j)
  }

  /** The poll takes m turns: it ends after a failure that leaves a try, at a cancelled turn or behind the last one. */
  predicate EndsAt(k: Work, m: nat)
    requires m <= |k.due|
  {
    if m > 0 && FailsBelow(k, m - 1) then GoesOn(k, m - 1) && !k.ticks(m - 1).cancelled
    else GoesOn(k, m) && (m == |k.due| || k.ticks(m).cancelled)
  }

  lemma CursorOneMore(k: Work, n: nat)
    requires n < |k.due|
    ensures Cursor(k, n + 1) == if Moves(k, n) then k.due[n] else Cursor(k, n)
  {
  }

  lemma MovedOn(k: Work, n: nat)
    requires n < |k.due| && GoesOn(k, n) && !FailsBelow(k, n) && k.ticks(n).outcome != Forwarded
    ensures After(k, n + 1) == MoveTo(After(k, n), k.due[n])
  {
    CursorOneMore(k, n);
  }

  lemma CountedOn(k: Work, n: nat)
    requires n < |k.due| && GoesOn(k, n) && k.ticks(n).outcome == Failed
    ensures CountFailure(After(k, n), k.due[n]).failCount == TriesAt(k, n) + 1
    ensures FailsBelow(k, n) ==> After(k, n + 1) == CountFailure(After(k, n), k.due[n])
  {
    CursorOneMore(k, n);
    if !Resets(k, n) {
      assert forall j | 0 <= j < n :: k.ticks(j).outcome == Forwarded && k.due[j] != k.st.failUid;
    }
  }

  lemma ForwardedOn(k: Work, n: nat)
    requires n < |k.due| && GoesOn(k, n) && k.ticks(n).outcome == Forwarded
    ensures var st := ClearFailure(After(k, n), k.due[n]);
            After(k, n + 1) == if k.st.lastUid == 0 then st else st.(lastUid := k.due[n])
  {
    CursorOneMore(k, n);
    if !Resets(k, n) {
      assert !Resets(k, n + 1) <==> k.due[n] != k.st.failUid;
    }
  }

  /** The attempts of the turns from i on. */
  function Attempts(k: Work, i: nat, m: nat): (a: seq<Attempt>)
    requires i <= m <= |k.due|
    ensures |a| == m - i
  {
    seq(m - i, x requires 0 <= x < m - i => Attempt(k.due[i + x], k.ticks(i + x).outcome))
  }

  lemma FirstAttempt(k: Work, i: nat, m: nat)
    requires i < m <= |k.due|
    ensures Attempts(k, i, m) == [Attempt(k.due[i], k.ticks(i).outcome)] + Attempts(k, i + 1, m)
  {
  }

  /** What the state file holds after m turns, when it held `disk` before the i-th. */
  function Stored(k: Work, i: nat, m: nat, disk: UidState): UidState
    requires i <= m <= |k.due|
  {
    if LastWritten(k, m) > i then After(k, LastWritten(k, m)) else disk
  }

  lemma StoredOneMore(k: Work, i: nat, m: nat, disk: UidState)
    requires i < m <= |k.due|
    ensures Stored(k, i, m, disk) == Stored(k, i + 1, m, if Writes(k, i) then After(k, i + 1) else disk)
  {
  }

  /** The loop's turn from i on, in terms of the listing. */
  ghost predicate TakesTurns(k: Work, i: nat, w: World, m: nat, turn: Turn)
    requires m <= |k.due|
  {
    && i <= m && EndsAt(k, m)
    && turn.st == After(k, m)
    && turn.finished == (m == |k.due| && GoesOn(k, m))
    && turn.w == World(Stored(k, i, m, w.disk), w.log + Attempts(k, i, m))
  }

  lemma OneTurnMore(k: Work, i: nat, w: World, w': World, m: nat, turn: Turn)
    requires i < m <= |k.due| && TakesTurns(k, i + 1, w', m, turn)
    requires w' == World(if Writes(k, i) then After(k, i + 1) else w.disk,
                         w.log + [Attempt(k.due[i], k.ticks(i).outcome)])
    ensures TakesTurns(k, i, w, m, turn)
  {
    FirstAttempt(k, i, m);
    StoredOneMore(k, i, m, w.disk);
  }

  function LoopFrom(k: Work, i: nat, w: World): Turn
    requires i <= |k.due|
  {
    Loop(k.cfg, k.st.lastUid == 0, k.due, k.ticks, i, After(k, i), w)
  }

  /** The world behind the i-th turn. */
  function Next(k: Work, i: nat, w: World): World
    requires i < |k.due|
  {
    World(if Writes(k, i) then After(k, i + 1) else w.disk, w.log + [Attempt(k.due[i], k.ticks(i).outcome)])
  }

  lemma RejectedTurn(k: Work, i: nat, w: World)
    requires i < |k.due| && GoesOn(k, i) && !k.ticks(i).cancelled && k.ticks(i).outcome == Rejected
    ensures LoopFrom(k, i, w) == LoopFrom(k, i + 1, Next(k, i, w))
  {
    MovedOn(k, i);
  }

  lemma FailedTurn(k: Work, i: nat, w: World)
    requires i < |k.due| && GoesOn(k, i) && !k.ticks(i).cancelled && k.ticks(i).outcome == Failed
    ensures LoopFrom(k, i, w) == if FailsBelow(k, i) then Turn(After(k, i + 1), Next(k, i, w), false)
                                 else LoopFrom(k, i + 1, Next(k, i, w))
  {
    CountedOn(k, i);
    if !FailsBelow(k, i) {
      MovedOn(k, i);
    }
  }

  lemma ForwardedTurn(k: Work, i: nat, w: World)
    requires i < |k.due| && GoesOn(k, i) && !k.ticks(i).cancelled && k.ticks(i).outcome == Forwarded
    ensures LoopFrom(k, i, w) == LoopFrom(k, i + 1, Next(k, i, w))
  {
    ForwardedOn(k, i);
  }

  lemma OneTurn(k: Work, i: nat, w: World)
    requires i < |k.due| && GoesOn(k, i) && !k.ticks(i).cancelled
    ensures LoopFrom(k, i, w) == if FailsBelow(k, i) then Turn(After(k, i + 1), Next(k, i, w), false)
                                 else LoopFrom(k, i + 1, Next(k, i, w))
  {
    match k.ticks(i).outcome
    case Rejected => RejectedTurn(k, i, w);
    case Failed => FailedTurn(k, i, w);
    case Forwarded => ForwardedTurn(k, i, w);
  }

  lemma LastTurn(k: Work, i: nat, w: World, turn: Turn)
    requires i < |k.due| && GoesOn(k, i) && !k.ticks(i).cancelled && FailsBelow(k, i)
    requires turn == Turn(After(k, i + 1), Next(k, i, w), false)
    ensures TakesTurns(k, i, w, i + 1, turn)
  {
    FirstAttempt(k, i, i + 1);
    StoredOneMore(k, i, i + 1, w.disk);
  }

  lemma NoTurn(k: Work, i: nat, w: World)
    requires i <= |k.due| && GoesOn(k, i) && (i == |k.due| || k.ticks(i).cancelled)
    ensures TakesTurns(k, i, w, i, LoopFrom(k, i, w))
  {
    assert w.log + Attempts(k, i, i) == w.log;
  }

  lemma {:induction false} LoopTakesTurns(k: Work, i: nat, w: World) returns (m: nat)
    requires i <= |k.due| && GoesOn(k, i)
    ensures m <= |k.due| && TakesTurns(k, i, w, m, LoopFrom(k, i, w))
    decreases |k.due| - i
  {
    if i == |k.due| || k.ticks(i).cancelled {
      NoTurn(k, i, w);
      m := i;
    } else {
      var turn, w' := LoopFrom(k, i, w), Next(k, i, w);
      OneTurn(k, i, w);
      if FailsBelow(k, i) {
        LastTurn(k, i, w, turn);
        m := i + 1;
      } else {
        m := LoopTakesTurns(k, i + 1, w');
        OneTurnMore(k, i, w, w', m, turn);
      }
    }
  }

  // ---------------------------------------------------------------- a whole poll

  /** The stored state counts when it could be read and is for this mailbox; otherwise the poll starts from nothing. */
  predicate IsStart(disk: UidState, env: Env, st: UidState) {
    st == if env.loaded && disk.uidValidity == env.uidValidity then disk else UidState(env.uidValidity, 0, 0, 0)
  }

  function Cap(cfg: Config, n: nat): nat {
    if 0 < cfg.max < n then cfg.max else n
  }

  /** A bootstrap without a cap that got to its end moves the cursor in front of the next UID and saves that. */
  predicate Jumps(k: Work, m: nat, env: Env)
    requires m <= |k.due|
  {
    && k.st.lastUid == 0 && m == |k.due| && GoesOn(k, m)
    && env.uidNext > 0 && env.lastSaved && (k.cfg.max == 0 || k.due == [])
  }

  /** What a poll that gets its listing `all` and takes m turns makes of the world. */
  ghost predicate IsPoll(cfg: Config, w: World, env: Env, st: UidState, all: seq<nat>, m: nat, after: World) {
    && IsStart(w.disk, env, st) && IsListing(st, env, all) && m <= Cap(cfg, |all|)
    && var k := Work(cfg, st, all[..Cap(cfg, |all|)], env.ticks);
    && EndsAt(k, m)
    && after.log == w.log + Attempts(k, 0, m)
    && after.disk == if Jumps(k, m, env) then After(k, m).(lastUid := env.uidNext - 1) else Stored(k, 0, m, w.disk)
  }

  /**
    A poll that gets its listing takes the messages of it in ascending order and skips none, until the cap, a
    cancelled turn or a failure that leaves a try; the state file holds what the last write that went through
    left there.
   */
  lemma PollWorksThrough(cfg: Config, w: World, env: Env) returns (st: UidState, all: seq<nat>, m: nat)
    requires env.connected && env.searched
    ensures IsPoll(cfg, w, env, st, all, m, Poll(cfg, w, env))
  {
    st := StartState(w.disk, env);
    all := Listed(st, env);
    ListedIsListing(st, env);
    var k := Work(cfg, st, Capped(cfg, all), env.ticks);
    assert k.due == all[..Cap(cfg, |all|)];
    assert After(k, 0) == st;
    m := LoopTakesTurns(k, 0, w);
  }

  // ---------------------------------------------------------------- steady polls

  lemma {:induction false} DistinctCountsOnce(s: seq<nat>, u: nat)
    requires Distinct(s)
    ensures multiset(s)[u] == if u in s then 1 else 0
  {
    if s != [] {
      DistinctCountsOnce(s[1..], u);
      assert s == [s[0]] + s[1..];
    }
  }

  lemma ListingIsStrict(st: UidState, env: Env, all: seq<nat>)
    requires IsListing(st, env, all) && Distinct(env.found)
    ensures IsStrict(all)
    ensures forall u :: u in all <==> u in env.found && (st.lastUid == 0 || u > st.lastUid)
  {
    forall i, j | 0 <= i < j < |all| ensures all[i] < all[j] {
      if all[i] == all[j] {
        TwiceCountsTwo(all, i, j);
        DistinctCountsOnce(env.found, all[i]);
      }
    }
    forall u: nat ensures u in all <==> u in env.found && (st.lastUid == 0 || u > st.lastUid) {
      assert u in all <==> multiset(all)[u] > 0;
      assert u in env.found <==> multiset(env.found)[u] > 0;
    }
  }

  /** The oldest pending messages in ascending order, all of them unless the cap leaves newer ones out. */
  ghost predicate IsDue(cfg: Config, pending: set<nat>, due: seq<nat>) {
    && IsStrict(due) && (cfg.max > 0 ==> |due| <= cfg.max)
    && (forall u | u in due :: u in pending)
    && forall u | u in pending && u !in due :: 0 < cfg.max == |due| && forall i | 0 <= i < |due| :: due[i] < u
  }

  lemma CapLeavesTheOldest(cfg: Config, all: seq<nat>, pending: set<nat>)
    requires IsStrict(all) && forall u :: u in all <==> u in pending
    ensures IsDue(cfg, pending, all[..Cap(cfg, |all|)])
  {
    var due := all[..Cap(cfg, |all|)];
    assert forall u | u in due :: u in all;
    assert forall i | 0 <= i < |due| :: all[i] == due[i] && due[i] in due;
    forall u | u in pending && u !in due ensures 0 < cfg.max == |due| && forall i | 0 <= i < |due| :: due[i] < u {
      var j :| 0 <= j < |all| && all[j] == u;
      assert j >= |due|;
    }
  }

  /** How many of the first m messages were forwarded, rejected or given up: all but a last one with a try left. */
  function Passed(k: Work, m: nat): (n: nat)
    requires m <= |k.due|
    ensures n <= m
  {
    if m > 0 && FailsBelow(k, m - 1) then m - 1 else m
  }

  lemma SteadyCursor(k: Work, m: nat)
    requires m <= |k.due| && k.st.lastUid != 0 && EndsAt(k, m)
    ensures After(k, m).lastUid == if Passed(k, m) == 0 then k.st.lastUid else k.due[Passed(k, m) - 1]
  {
    var s, n := LastMoved(k, m), Passed(k, m);
    assert n > 0 ==> Moves(k, n - 1);
    assert n < m ==> !Moves(k, m - 1);
    assert s == n;
  }

  predicate AllSaved(k: Work, m: nat) {
    forall i | 0 <= i < m :: k.ticks(i).saved
  }

  lemma SavedCursor(k: Work, m: nat, disk: UidState)
    requires m <= |k.due| && k.st.lastUid != 0 && EndsAt(k, m) && AllSaved(k, m) && disk == Stored(k, 0, m, k.st)
    ensures disk.lastUid == if Passed(k, m) == 0 then k.st.lastUid else k.due[Passed(k, m) - 1]
  {
    SteadyCursor(k, m);
    assert m > 0 ==> Writes(k, m - 1);
  }

  lemma LogOfAttempts(k: Work, m: nat, before: seq<Attempt>, after: seq<Attempt>)
    requires m <= |k.due| && after == before + Attempts(k, 0, m)
    ensures |after| == |before| + m && before <= after
    ensures forall i | 0 <= i < m :: after[|before| + i] == Attempt(k.due[i], k.ticks(i).outcome)
  {
  }

  /** What a poll in steady state does with the messages due. */
  ghost predicate WorksThrough(k: Work, w: World, m: nat, after: World) {
    && m <= |k.due| && EndsAt(k, m) && |after.log| == |w.log| + m && w.log <= after.log
    && (forall i | 0 <= i < m :: after.log[|w.log| + i] == Attempt(k.due[i], k.ticks(i).outcome))
    && after.disk == Stored(k, 0, m, w.disk)
    && (AllSaved(k, m) ==>
          after.disk.lastUid == if Passed(k, m) == 0 then w.disk.lastUid else k.due[Passed(k, m) - 1])
  }

  lemma TurnsWorkThrough(k: Work, w: World, m: nat, after: World)
    requires m <= |k.due| && EndsAt(k, m) && k.st == w.disk && k.st.lastUid != 0
    requires after.log == w.log + Attempts(k, 0, m) && after.disk == Stored(k, 0, m, w.disk)
    ensures WorksThrough(k, w, m, after)
  {
    LogOfAttempts(k, m, w.log, after.log);
    if AllSaved(k, m) {
      SavedCursor(k, m, after.disk);
    }
  }

  /**
    A poll in steady state attempts the oldest pending messages in ascending order and skips none, until the cap,
    a cancelled turn or a failure that leaves a try.  If every write went through, the stored cursor is the last
    message forwarded, rejected or given up.
   */
  lemma SteadyPollWorksThrough(cfg: Config, w: World, env: Env) returns (due: seq<nat>, m: nat)
    requires SteadyPoll(w, env) && Distinct(env.found)
    ensures IsDue(cfg, Pending(w.disk, env.mailbox), due)
    ensures WorksThrough(Work(cfg, w.disk, due, env.ticks), w, m, Poll(cfg, w, env))
  {
    var st, all;
    st, all, m := PollWorksThrough(cfg, w, env);
    ListingIsStrict(st, env, all);
    CapLeavesTheOldest(cfg, all, Pending(w.disk, env.mailbox));
    due := all[..Cap(cfg, |all|)];
    var k, after := Work(cfg, w.disk, due, env.ticks), Poll(cfg, w, env);
    TurnsWorkThrough(k, w, m, after);
  }

  /** With the cursor behind the n oldest pending messages, nothing is pending if these were all. */
  lemma PassedAll(due: seq<nat>, before: UidState, disk: UidState, mailbox: set<nat>, n: nat)
    requires n <= |due| && IsStrict(due) && forall u :: u in due <==> u in Pending(before, mailbox)
    requires disk.lastUid == if n == 0 then before.lastUid else due[n - 1]
    ensures Pending(disk, mailbox) == {} <==> n == |due|
  {
    if n == |due| {
      forall u ensures u !in Pending(disk, mailbox) {
        if u in Pending(before, mailbox) {
          var j :| 0 <= j < |due| && due[j] == u;
          assert due[j] <= due[|due| - 1];
        } else if n > 0 {
          assert due[n - 1] in due;
        }
      }
    } else {
      assert due[n] in due && due[n] in Pending(disk, mailbox);
    }
  }

  /** Nothing disturbs the poll. */
  ghost predicate Undisturbed(env: Env) {
    forall i: nat :: !env.ticks(i).cancelled && env.ticks(i).saved
  }

  lemma AllAreDue(cfg: Config, pending: set<nat>, due: seq<nat>)
    requires IsDue(cfg, pending, due) && cfg.max <= 0
    ensures IsStrict(due) && forall u :: u in due <==> u in pending
  {
    forall u | u in pending ensures u in due {
    }
  }

  lemma AllPassed(k: Work, m: nat)
    requires m <= |k.due| && EndsAt(k, m) && forall i: nat :: !k.ticks(i).cancelled
    ensures Passed(k, m) == |k.due| <==> forall i | 0 <= i < |k.due| :: !FailsBelow(k, i)
  {
  }

  /** So an undisturbed poll without a cap leaves nothing pending, exactly if no message fails with a try left. */
  lemma UndisturbedPollLeavesNothing(cfg: Config, w: World, env: Env) returns (due: seq<nat>)
    requires SteadyPoll(w, env) && Distinct(env.found) && cfg.max <= 0 && Undisturbed(env)
    ensures IsStrict(due) && forall u :: u in due <==> u in Pending(w.disk, env.mailbox)
    ensures Pending(Poll(cfg, w, env).disk, env.mailbox) == {}
            <==> forall i | 0 <= i < |due| :: !FailsBelow(Work(cfg, w.disk, due, env.ticks), i)
  {
    var m;
    due, m := SteadyPollWorksThrough(cfg, w, env);
    AllAreDue(cfg, Pending(w.disk, env.mailbox), due);
    var k, disk := Work(cfg, w.disk, due, env.ticks), Poll(cfg, w, env).disk;
    assert AllSaved(k, m);
    PassedAll(due, w.disk, disk, env.mailbox, Passed(k, m));
    AllPassed(k, m);
  }
}
