/**
  The failure counter of cmd/mailpoll/main.go and the oldest pending message: when a bootstrap ends with the two
  together, and that they stay together from then on.
 */
module MailCounter {
  import opened MailPoll

  lemma ListedIsStrict(st: UidState, env: Env)
    requires forall i, j | 0 <= i < j < |env.found| :: env.found[i] != env.found[j]
    ensures forall i, j | 0 <= i < j < |Listed(st, env)| :: Listed(st, env)[i] < Listed(st, env)[j]
  {
    SortIsStrict(env.found);
    AboveIsStrict(Sort(env.found), st.lastUid);
  }

  lemma {:induction false} AboveIsStrict(s: seq<nat>, lastUid: nat)
    requires forall i, j | 0 <= i < j < |s| :: s[i] < s[j]
    ensures forall i, j | 0 <= i < j < |Above(s, lastUid)| :: Above(s, lastUid)[i] < Above(s, lastUid)[j]
  {
    if s != [] {
      AboveIsStrict(s[1..], lastUid);
      var r := Above(s[1..], lastUid);
      assert forall j | 0 <= j < |r| :: r[j] in r && r[j] in s[1..];
    }
  }

  // ---------------------------------------------------------------- the counter and the oldest pending message

  /** The stored counter is for the oldest pending message and below the limit. */
  ghost predicate CounterAtHead(cfg: Config, st: UidState, mailbox: set<nat>) {
    st.failUid != 0 ==> IsHead(st, mailbox, st.failUid) && st.failCount < cfg.maxAttempts
  }

  /** The listing of the loop from i on: ascending, and nothing pending is left out before its end. */
  ghost predicate ListsPending(uids: seq<nat>, i: nat, st: UidState, mailbox: set<nat>) {
    && (forall a, b | i <= a < b < |uids| :: uids[a] < uids[b])
    && (forall k | i <= k < |uids| :: uids[k] in Pending(st, mailbox))
    && (i < |uids| ==> forall u | u in Pending(st, mailbox) :: uids[i] <= u)
    && forall k, u | i < k < |uids| && u in Pending(st, mailbox) && u > uids[k - 1] :: uids[k] <= u
  }

  lemma {:induction false} LoopKeepsCounterAtHead(cfg: Config, uids: seq<nat>, ticks: nat -> Tick, i: nat, st: UidState,
                                                  w: World, mailbox: set<nat>)
    requires i <= |uids| && 0 !in mailbox && ListsPending(uids, i, st, mailbox)
    requires CounterAtHead(cfg, st, mailbox) && CounterAtHead(cfg, w.disk, mailbox)
    ensures CounterAtHead(cfg, Loop(cfg, false, uids, ticks, i, st, w).w.disk, mailbox)
    decreases |uids| - i
  {
    if i < |uids| && !ticks(i).cancelled {
      var uid, saved := uids[i], ticks(i).saved;
      assert IsHead(st, mailbox, uid);
      var w' := w.(log := w.log + [Attempt(uid, ticks(i).outcome)]);
      var moved := if ticks(i).outcome == Forwarded then ClearFailure(st, uid).(lastUid := uid) else MoveTo(st, uid);
      assert forall u | u in Pending(moved, mailbox) :: u in Pending(st, mailbox) && u > uids[i];
      assert i + 1 < |uids| ==> forall u | u in Pending(st, mailbox) && u > uids[i + 1 - 1] :: uids[i + 1] <= u;
      if ticks(i).outcome != Failed || CountFailure(st, uid).failCount >= cfg.maxAttempts {
        LoopKeepsCounterAtHead(cfg, uids, ticks, i + 1, moved, Save(w', moved, saved), mailbox);
      }
    }
  }

  lemma AscendingListIsGapless(all: seq<nat>, n: nat, st: UidState, mailbox: set<nat>)
    requires n <= |all| && forall a, b | 0 <= a < b < |all| :: all[a] < all[b]
    requires forall u :: u in all <==> u in Pending(st, mailbox)
    ensures ListsPending(all[..n], 0, st, mailbox)
  {
    var uids := all[..n];
    assert forall k | 0 <= k < n :: uids[k] == all[k] && all[k] in all;
    forall u | u in Pending(st, mailbox) && n > 0 ensures uids[0] <= u {
      var j :| 0 <= j < |all| && all[j] == u;
    }
    forall k, u | 0 < k < n && u in Pending(st, mailbox) && u > uids[k - 1] ensures uids[k] <= u {
      var j :| 0 <= j < |all| && all[j] == u;
      assert j > k - 1;
    }
  }

  /** Once at the oldest pending message, the stored counter stays there, poll after poll. */
  lemma CounterStaysAtHead(cfg: Config, w: World, env: Env)
    requires SteadyPoll(w, env) && CounterAtHead(cfg, w.disk, env.mailbox)
    requires forall i, j | 0 <= i < j < |env.found| :: env.found[i] != env.found[j]
    ensures CounterAtHead(cfg, Poll(cfg, w, env).disk, env.mailbox)
  {
    var all := Listed(w.disk, env);
    var uids := Capped(cfg, all);
    ListedIsStrict(w.disk, env);
    AscendingListIsGapless(all, |uids|, w.disk, env.mailbox);
    assert uids == all[..|uids|];
    LoopKeepsCounterAtHead(cfg, uids, env.ticks, 0, w.disk, w, env.mailbox);
  }

  // ---------------------------------------------------------------- where a bootstrap leaves the counter

  predicate IsStrict(s: seq<nat>) {
    forall i, j | 0 <= i < j < |s| :: s[i] < s[j]
  }

  /**
    Does this outcome end the loop's interest in a listed message for good?  `moved` says how far the loop had moved
    the cursor; before its first move the stored counter may still be for this very message.
   */
  predicate Passes(cfg: Config, st: UidState, uid: nat, outcome: Outcome, moved: nat) {
    || outcome == Rejected
    || (outcome == Failed
        && (if moved == 0 && st.failUid == uid then st.failCount else 0) + 1 >= cfg.maxAttempts)
  }

  /** Behind which of the first n listed messages a bootstrap's cursor stands: the last one rejected or given up. */
  function LastMove(cfg: Config, st: UidState, uids: seq<nat>, ticks: nat -> Tick, n: nat): (j: nat)
    requires n <= |uids|
    ensures j <= n
  {
    if n == 0 then 0
    else
      var j := LastMove(cfg, st, uids, ticks, n - 1);
      if Passes(cfg, st, uids[n - 1], ticks(n - 1).outcome, j) then n else j
  }

  /** Does the loop end at the i-th message: cancelled, or with a failure below the limit? */
  predicate Stops(cfg: Config, st: UidState, uids: seq<nat>, ticks: nat -> Tick, i: nat)
    requires i < |uids|
  {
    || ticks(i).cancelled
    || (ticks(i).outcome == Failed
        && !Passes(cfg, st, uids[i], Failed, LastMove(cfg, st, uids, ticks, i)))
  }

  /** The first such message, or the end of the list. */
  function StopFrom(cfg: Config, st: UidState, uids: seq<nat>, ticks: nat -> Tick, i: nat): (k: nat)
    requires i <= |uids|
    ensures i <= k <= |uids|
    ensures k < |uids| ==> Stops(cfg, st, uids, ticks, k)
    decreases |uids| - i
  {
    if i == |uids| || Stops(cfg, st, uids, ticks, i) then i else StopFrom(cfg, st, uids, ticks, i + 1)
  }

  /** The state in memory once the first n listed messages are dealt with. */
  function Memory(cfg: Config, st: UidState, uids: seq<nat>, ticks: nat -> Tick, n: nat): UidState
    requires n <= |uids|
  {
    var j := LastMove(cfg, st, uids, ticks, n);
    if j > 0 then UidState(st.uidValidity, uids[j - 1], 0, 0)
    else if st.failUid in uids[..n] then st.(failUid := 0, failCount := 0)
    else st
  }

  /** What dealing with the n-th message does to the state in memory. */
  lemma OneMoreInMemory(cfg: Config, st: UidState, uids: seq<nat>, ticks: nat -> Tick, n: nat)
    requires n < |uids| && IsStrict(uids) && 0 !in uids
    ensures var mem, next := Memory(cfg, st, uids, ticks, n), Memory(cfg, st, uids, ticks, n + 1);
            var j := LastMove(cfg, st, uids, ticks, n);
            && CountFailure(mem, uids[n]).failCount == (if j == 0 && st.failUid == uids[n] then st.failCount else 0) + 1
            && (Passes(cfg, st, uids[n], ticks(n).outcome, j) ==> next == MoveTo(mem, uids[n]))
            && (ticks(n).outcome == Forwarded ==> next == ClearFailure(mem, uids[n]))
  {
    assert uids[n] in uids && uids[..n + 1] == uids[..n] + [uids[n]];
    assert uids[n] !in uids[..n];
  }

  /** What the state file may hold when a bootstrap's loop has ended. */
  ghost predicate LoopLeaves(cfg: Config, st: UidState, uids: seq<nat>, ticks: nat -> Tick, before: UidState,
                             turn: Turn)
  {
    var k := StopFrom(cfg, st, uids, ticks, 0);
    && turn.finished == (k == |uids|)
    && (k == |uids| ==> turn.st == Memory(cfg, st, uids, ticks, k))
    && if k < |uids| && !ticks(k).cancelled && ticks(k).saved then
         turn.w.disk == CountFailure(Memory(cfg, st, uids, ticks, k), uids[k])
       else turn.w.disk == before || turn.w.disk.failUid == 0
  }

  lemma {:induction false} BootstrapLoop(
      cfg: Config, uids: seq<nat>, ticks: nat -> Tick, i: nat, st: UidState, w: World, before: UidState)
    requires i <= |uids| && IsStrict(uids) && 0 !in uids
    requires StopFrom(cfg, st, uids, ticks, 0) == StopFrom(cfg, st, uids, ticks, i)
    requires w.disk == before || w.disk.failUid == 0
    ensures LoopLeaves(cfg, st, uids, ticks, before,
                       Loop(cfg, true, uids, ticks, i, Memory(cfg, st, uids, ticks, i), w))
    decreases |uids| - i
  {
    if i < |uids| && !ticks(i).cancelled {
      OneMoreInMemory(cfg, st, uids, ticks, i);
      if !Stops(cfg, st, uids, ticks, i) {
        var uid, saved, mem := uids[i], ticks(i).saved, Memory(cfg, st, uids, ticks, i);
        var w' := w.(log := w.log + [Attempt(uid, ticks(i).outcome)]);
        var w'' := if ticks(i).outcome == Forwarded then w' else Save(w', MoveTo(mem, uid), saved);
        BootstrapLoop(cfg, uids, ticks, i + 1, st, w'', before);
      }
    }
  }

  /**
    The polls that leave bootstrap with the counter elsewhere.  Either the loop stops at a failure it records, the
    cursor standing behind an earlier message, and in between one was forwarded or had been read before; or no
    message moves the cursor and it jumps to the end while the counter is still set for a message not in the list.
   */
  ghost predicate LeavesAGap(cfg: Config, st: UidState, env: Env) {
    var uids := Capped(cfg, Listed(st, env));
    var k := StopFrom(cfg, st, uids, env.ticks, 0);
    var j := LastMove(cfg, st, uids, env.ticks, k);
    if k < |uids| then
      && j > 0 && !env.ticks(k).cancelled && env.ticks(k).saved
      && (j < k || exists u | u in env.mailbox - env.unread :: uids[j - 1] < u < uids[k])
    else
      && (uids == [] || cfg.max == 0) && env.uidNext > 0 && env.lastSaved
      && j == 0 && st.failUid != 0 && st.failUid !in uids
  }

  /** A poll of a bootstrap after which the stored cursor is set. */
  ghost predicate EndsBootstrap(cfg: Config, w: World, env: Env) {
    && env.connected && env.searched && StartState(w.disk, env).lastUid == 0
    && Poll(cfg, w, env).disk != w.disk
    && Poll(cfg, w, env).disk.uidValidity == env.uidValidity && Poll(cfg, w, env).disk.lastUid != 0
  }

  predicate Distinct(s: seq<nat>) {
    forall i, j | 0 <= i < j < |s| :: s[i] != s[j]
  }

  lemma NextInList(all: seq<nat>, k: nat, u: nat)
    requires IsStrict(all) && u in all && 0 < k < |all| && all[k - 1] < u
    ensures all[k] <= u
  {
    var i :| 0 <= i < |all| && all[i] == u;
    assert i > k - 1;
  }

  lemma ListingIsUnread(cfg: Config, st: UidState, env: Env, uids: seq<nat>, k: nat)
    requires ServerIsSane(st, env) && st.lastUid == 0 && uids == Capped(cfg, Listed(st, env)) && k < |uids|
    ensures uids[k] in env.unread
  {
    assert Listed(st, env)[k] in Listed(st, env);
  }

  lemma NextUnread(cfg: Config, st: UidState, env: Env, uids: seq<nat>, k: nat, u: nat)
    requires ServerIsSane(st, env) && st.lastUid == 0 && Distinct(env.found) && uids == Capped(cfg, Listed(st, env))
    requires 0 < k < |uids| && u in env.unread && uids[k - 1] < u
    ensures uids[k] <= u
  {
    ListedIsStrict(st, env);
    NextInList(Listed(st, env), k, u);
  }

  /** Between the message the cursor stands behind and the failing one lies nothing but what was forwarded or read. */
  lemma BetweenMoves(cfg: Config, st: UidState, env: Env, uids: seq<nat>, j: nat, k: nat)
    requires ServerIsSane(st, env) && st.lastUid == 0 && Distinct(env.found)
    requires uids == Capped(cfg, Listed(st, env)) && 0 < j <= k < |uids|
    ensures IsHead(UidState(st.uidValidity, uids[j - 1], uids[k], 0), env.mailbox, uids[k])
            <==> j == k && !exists u | u in env.mailbox - env.unread :: uids[j - 1] < u < uids[k]
  {
    BootstrapListing(cfg, st, env, uids);
    ListingIsUnread(cfg, st, env, uids, k);
    var at := UidState(st.uidValidity, uids[j - 1], uids[k], 0);
    if j < k {
      ListingIsUnread(cfg, st, env, uids, j);
      assert uids[j - 1] < uids[j] < uids[k] && uids[j] in Pending(at, env.mailbox);
    } else {
      forall u | u in env.unread && uids[k - 1] < u ensures uids[k] <= u {
        NextUnread(cfg, st, env, uids, k, u);
      }
      NothingReadBetween(at, env, uids[k]);
    }
  }

  lemma NothingReadBetween(at: UidState, env: Env, h: nat)
    requires env.unread <= env.mailbox && h in env.unread && at.lastUid < h
    requires forall u | u in env.unread && at.lastUid < u :: h <= u
    ensures IsHead(at, env.mailbox, h) <==> !exists u | u in env.mailbox - env.unread :: at.lastUid < u < h
  {
    if u :| u in env.mailbox - env.unread && at.lastUid < u < h {
      assert u in Pending(at, env.mailbox);
    } else {
      forall u | u in Pending(at, env.mailbox) ensures h <= u {
        assert u in env.unread || u in env.mailbox - env.unread;
      }
    }
  }

  /** What the state file may hold after a poll that finds the listing of a bootstrap. */
  ghost predicate PollLeaves(cfg: Config, st: UidState, env: Env, uids: seq<nat>, before: UidState, disk: UidState) {
    var k := StopFrom(cfg, st, uids, env.ticks, 0);
    if k < |uids| && !env.ticks(k).cancelled && env.ticks(k).saved then
      disk == CountFailure(Memory(cfg, st, uids, env.ticks, k), uids[k])
    else if k == |uids| && (uids == [] || cfg.max == 0) && env.uidNext > 0 && env.lastSaved then
      disk == Memory(cfg, st, uids, env.ticks, k).(lastUid := env.uidNext - 1)
    else disk == before || disk.failUid == 0
  }

  lemma BootstrapLeaves(cfg: Config, w: World, env: Env, st: UidState, uids: seq<nat>)
    requires st == StartState(w.disk, env) && st.lastUid == 0 && env.connected && env.searched
    requires uids == Capped(cfg, Listed(st, env)) && IsStrict(uids) && 0 !in uids
    ensures PollLeaves(cfg, st, env, uids, w.disk, Poll(cfg, w, env).disk)
  {
    if uids != [] {
      assert Memory(cfg, st, uids, env.ticks, 0) == st;
      BootstrapLoop(cfg, uids, env.ticks, 0, st, w, w.disk);
    }
  }

  lemma BootstrapListing(cfg: Config, st: UidState, env: Env, uids: seq<nat>)
    requires ServerIsSane(st, env) && st.lastUid == 0 && Distinct(env.found) && uids == Capped(cfg, Listed(st, env))
    ensures IsStrict(uids) && 0 !in uids
  {
    ListedIsStrict(st, env);
    assert forall u | u in uids :: u in Listed(st, env);
  }

  lemma CounterAtStop(cfg: Config, st: UidState, env: Env, uids: seq<nat>, k: nat, disk: UidState)
    requires ServerIsSane(st, env) && st.lastUid == 0 && Distinct(env.found) && uids == Capped(cfg, Listed(st, env))
    requires IsStrict(uids) && 0 !in uids && k < |uids| && Stops(cfg, st, uids, env.ticks, k)
    requires !env.ticks(k).cancelled && disk == CountFailure(Memory(cfg, st, uids, env.ticks, k), uids[k])
    requires disk.lastUid != 0
    ensures var j := LastMove(cfg, st, uids, env.ticks, k);
            && j > 0
            && (CounterAtHead(cfg, disk, env.mailbox)
                <==> j == k && !exists u | u in env.mailbox - env.unread :: uids[j - 1] < u < uids[k])
  {
    var j := LastMove(cfg, st, uids, env.ticks, k);
    OneMoreInMemory(cfg, st, uids, env.ticks, k);
    BetweenMoves(cfg, st, env, uids, j, k);
    HeadOf(disk, UidState(st.uidValidity, uids[j - 1], uids[k], 0), env.mailbox, uids[k]);
  }

  /** What is pending depends on the cursor alone. */
  lemma HeadOf(a: UidState, b: UidState, mailbox: set<nat>, h: nat)
    requires a.lastUid == b.lastUid
    ensures IsHead(a, mailbox, h) <==> IsHead(b, mailbox, h)
  {
    assert Pending(a, mailbox) == Pending(b, mailbox);
  }

  /** A poll that ends the bootstrap leaves the counter at the oldest pending message exactly if it leaves no gap. */
  lemma CounterAfterBootstrap(cfg: Config, w: World, env: Env)
    requires EndsBootstrap(cfg, w, env) && ServerIsSane(StartState(w.disk, env), env) && Distinct(env.found)
    requires env.uidNext > 0 ==> StartState(w.disk, env).failUid < env.uidNext
    ensures CounterAtHead(cfg, Poll(cfg, w, env).disk, env.mailbox) <==> !LeavesAGap(cfg, StartState(w.disk, env), env)
  {
    var st, disk := StartState(w.disk, env), Poll(cfg, w, env).disk;
    var uids := Capped(cfg, Listed(st, env));
    BootstrapListing(cfg, st, env, uids);
    BootstrapLeaves(cfg, w, env, st, uids);
    var k := StopFrom(cfg, st, uids, env.ticks, 0);
    if k < |uids| && !env.ticks(k).cancelled && env.ticks(k).saved {
      CounterAtStop(cfg, st, env, uids, k, disk);
    }
  }

  /**
    One such poll: message 1 is rejected, which moves the cursor, and 3 fails; 2 in between had been read before and
    was not listed, but is pending from now on.
   */
  lemma BootstrapCanLeaveTheCounterElsewhere() returns (cfg: Config, w: World, env: Env)
    ensures ServerIsSane(StartState(w.disk, env), env) && w.disk == UidState(0, 0, 0, 0)
    ensures var disk := Poll(cfg, w, env).disk;
            disk.lastUid != 0 && disk.failUid != 0 && !CounterAtHead(cfg, disk, env.mailbox)
  {
    cfg := Config(10, 0);
    w := World(UidState(0, 0, 0, 0), []);
    env := Env(true, true, true, 7, 4, [1, 3], {1, 2, 3}, {1, 3}, 4,
               i => Tick(false, if i == 0 then Rejected else Failed, true), true);
    var st := UidState(7, 0, 0, 0);
    assert StartState(w.disk, env) == st;
    var uids := Listed(st, env);
    assert uids == [1, 3] by {
      assert Sort([3]) == [3] by { assert [3][1..] == []; }
      assert [1, 3][1..] == [3];
    }
    var first := MoveTo(st, 1);
    var w1 := World(first, [Attempt(1, Rejected)]);
    assert Loop(cfg, true, uids, env.ticks, 0, st, w) == Loop(cfg, true, uids, env.ticks, 1, first, w1);
    assert Poll(cfg, w, env).disk == UidState(7, 1, 3, 1);
    assert 2 in Pending(UidState(7, 1, 3, 1), env.mailbox);
  }

  // ---------------------------------------------------------------- whole runs

  /** Where the counter can be after the loop: in memory and on disk. */
  lemma {:induction false} LoopCountsListed(
      cfg: Config, bootstrap: bool, uids: seq<nat>, ticks: nat -> Tick, i: nat, st: UidState, w: World, bound: nat)
    requires forall u | u in uids :: u < bound
    requires st.failUid == 0 || st.failUid < bound
    ensures var turn := Loop(cfg, bootstrap, uids, ticks, i, st, w);
            && (turn.st.failUid == 0 || turn.st.failUid < bound)
            && (turn.w.disk == w.disk || turn.w.disk.failUid == 0 || turn.w.disk.failUid < bound)
    decreases |uids| - i
  {
    if i < |uids| && !ticks(i).cancelled {
      var uid, saved := uids[i], ticks(i).saved;
      assert uid in uids;
      var w' := w.(log := w.log + [Attempt(uid, ticks(i).outcome)]);
      match ticks(i).outcome
      case Rejected =>
        LoopCountsListed(cfg, bootstrap, uids, ticks, i + 1, MoveTo(st, uid), Save(w', MoveTo(st, uid), saved), bound);
      case Failed =>
        LoopCountsListed(cfg, bootstrap, uids, ticks, i + 1, MoveTo(st, uid), Save(w', MoveTo(st, uid), saved), bound);
      case Forwarded =>
        var st' := ClearFailure(st, uid);
        var st'' := st'.(lastUid := uid);
        LoopCountsListed(cfg, bootstrap, uids, ticks, i + 1, if bootstrap then st' else st'',
                         if bootstrap then w' else Save(w', st'', saved), bound);
    }
  }

  /** The counter is for a message that had a UID by then. */
  ghost predicate CounterIsAssigned(disk: UidState, env: Env) {
    disk.uidValidity == env.uidValidity ==> disk.failUid == 0 || disk.failUid < env.nextUid
  }

  lemma PollCountsAssigned(cfg: Config, w: World, env: Env)
    requires ServerIsSane(StartState(w.disk, env), env) && CounterIsAssigned(w.disk, env)
    ensures CounterIsAssigned(Poll(cfg, w, env).disk, env)
  {
    var st := StartState(w.disk, env);
    var uids := Capped(cfg, Listed(st, env));
    assert forall u | u in uids :: u in Listed(st, env);
    LoopCountsListed(cfg, st.lastUid == 0, uids, env.ticks, 0, st, w, env.nextUid);
  }

  /**
    One mailbox polled again and again: its server lists no message twice and never announces a next UID below one
    it has assigned, and nobody removes the very message the counter is for.
   */
  ghost predicate OneCounter(cfg: Config, w: World, envs: seq<Env>) {
    && OneMailbox(cfg, w, envs)
    && (forall k | 0 <= k < |envs| :: Distinct(envs[k].found))
    && (forall k | 0 < k < |envs| && envs[k].uidNext > 0 :: envs[k - 1].nextUid <= envs[k].uidNext)
    && forall k | 0 < k < |envs| :: KeepsCounted(Polls(cfg, w, envs[..k]).disk, envs[k - 1], envs[k])
  }

  ghost predicate KeepsCounted(disk: UidState, earlier: Env, later: Env) {
    disk.failUid in earlier.mailbox ==> disk.failUid in later.mailbox
  }

  /** Nothing is stored yet, or for another UIDVALIDITY. */
  predicate IsFresh(disk: UidState, env: Env) {
    disk.uidValidity != env.uidValidity || disk == UidState(env.uidValidity, 0, 0, 0)
  }

  lemma OneMorePoll(cfg: Config, w: World, envs: seq<Env>, n: nat)
    requires n < |envs|
    ensures Polls(cfg, w, envs[..n + 1]) == Poll(cfg, Polls(cfg, w, envs[..n]), envs[n])
  {
    assert envs[..n + 1][..n] == envs[..n];
  }

  lemma {:induction false} RunCountsAssigned(cfg: Config, w: World, envs: seq<Env>, n: nat)
    requires OneCounter(cfg, w, envs) && n < |envs| && IsFresh(w.disk, envs[0])
    ensures CounterIsAssigned(Polls(cfg, w, envs[..n + 1]).disk, envs[n])
  {
    OneMorePoll(cfg, w, envs, n);
    var before := Polls(cfg, w, envs[..n]);
    if n > 0 {
      RunCountsAssigned(cfg, w, envs, n - 1);
      assert Follows(envs[n - 1], envs[n]);
    }
    assert ServerIsSane(StartState(before.disk, envs[n]), envs[n]);
    PollCountsAssigned(cfg, before, envs[n]);
  }

  predicate IsSteady(disk: UidState, env: Env) {
    disk.uidValidity == env.uidValidity && disk.lastUid != 0
  }

  /** The poll reads the state file, if it gets that far. */
  predicate ReadsState(env: Env) {
    env.connected ==> env.loaded
  }

  lemma SteadyStays(cfg: Config, w: World, env: Env)
    requires IsSteady(w.disk, env) && ReadsState(env)
    ensures IsSteady(Poll(cfg, w, env).disk, env)
  {
    if env.connected && env.searched {
      SteadyCursorNeverGoesBack(cfg, w, env);
      LoopMovesToListed(cfg, false, Capped(cfg, Listed(w.disk, env)), env.ticks, 0, w.disk, w);
    }
  }

  ghost predicate MailboxIsAssigned(env: Env) {
    forall u | u in env.mailbox :: u < env.nextUid
  }

  lemma HeadOutlivesChange(cfg: Config, disk: UidState, earlier: Env, later: Env)
    requires CounterAtHead(cfg, disk, earlier.mailbox) && Follows(earlier, later) && KeepsCounted(disk, earlier, later)
    requires MailboxIsAssigned(earlier)
    ensures CounterAtHead(cfg, disk, later.mailbox)
  {
    forall u | u in Pending(disk, later.mailbox) && disk.failUid != 0 ensures disk.failUid <= u {
      assert disk.failUid in Pending(disk, earlier.mailbox);
      assert u in earlier.mailbox ==> u in Pending(disk, earlier.mailbox);
    }
  }

  lemma ServerBetween(cfg: Config, w: World, envs: seq<Env>, n: nat)
    requires OneCounter(cfg, w, envs) && 0 < n < |envs|
    ensures Follows(envs[n - 1], envs[n]) && KeepsCounted(Polls(cfg, w, envs[..n]).disk, envs[n - 1], envs[n])
    ensures ServerIsSane(StartState(Polls(cfg, w, envs[..n]).disk, envs[n]), envs[n]) && Distinct(envs[n].found)
    ensures MailboxIsAssigned(envs[n - 1])
    ensures envs[n].uidNext > 0 ==> envs[n - 1].nextUid <= envs[n].uidNext
  {
    assert ServerIsSane(StartState(Polls(cfg, w, envs[..n - 1]).disk, envs[n - 1]), envs[n - 1]);
  }

  lemma OneMoreAtHead(cfg: Config, w: World, earlier: Env, later: Env)
    requires IsSteady(w.disk, later) && CounterAtHead(cfg, w.disk, earlier.mailbox)
    requires Follows(earlier, later) && KeepsCounted(w.disk, earlier, later)
    requires MailboxIsAssigned(earlier)
    requires ReadsState(later) && ServerIsSane(StartState(w.disk, later), later) && Distinct(later.found)
    ensures CounterAtHead(cfg, Poll(cfg, w, later).disk, later.mailbox)
  {
    HeadOutlivesChange(cfg, w.disk, earlier, later);
    if later.connected && later.searched {
      CounterStaysAtHead(cfg, w, later);
    }
  }

  /** In steady state with the counter at the oldest pending message, after n polls. */
  ghost predicate IsAtHead(cfg: Config, w: World, envs: seq<Env>, n: nat)
    requires 0 < n <= |envs|
  {
    var disk := Polls(cfg, w, envs[..n]).disk;
    IsSteady(disk, envs[n - 1]) && CounterAtHead(cfg, disk, envs[n - 1].mailbox)
  }

  lemma OneMorePollAtHead(cfg: Config, w: World, envs: seq<Env>, n: nat, m: nat)
    requires OneCounter(cfg, w, envs) && 0 < n < |envs| && m == n + 1 && IsAtHead(cfg, w, envs, n)
    requires ReadsState(envs[n])
    ensures IsAtHead(cfg, w, envs, m)
  {
    OneMorePoll(cfg, w, envs, n);
    ServerBetween(cfg, w, envs, n);
    var before := Polls(cfg, w, envs[..n]);
    OneMoreAtHead(cfg, before, envs[n - 1], envs[n]);
    SteadyStays(cfg, before, envs[n]);
  }

  lemma {:induction false} StaysAtHeadFrom(cfg: Config, w: World, envs: seq<Env>, b: nat, n: nat)
    requires OneCounter(cfg, w, envs) && 0 < b <= n <= |envs| && IsAtHead(cfg, w, envs, b)
    requires forall k | b <= k < |envs| :: ReadsState(envs[k])
    ensures IsAtHead(cfg, w, envs, n)
    decreases n
  {
    if n > b {
      var m := n - 1;
      StaysAtHeadFrom(cfg, w, envs, b, m);
      OneMorePollAtHead(cfg, w, envs, m, n);
    }
  }

  lemma RunStartsAssigned(cfg: Config, w: World, envs: seq<Env>, b: nat)
    requires OneCounter(cfg, w, envs) && b < |envs| && IsFresh(w.disk, envs[0])
    ensures var st := StartState(Polls(cfg, w, envs[..b]).disk, envs[b]);
            && ServerIsSane(st, envs[b]) && Distinct(envs[b].found)
            && (envs[b].uidNext > 0 ==> st.failUid < envs[b].uidNext)
  {
    if b > 0 {
      RunCountsAssigned(cfg, w, envs, b - 1);
      ServerBetween(cfg, w, envs, b);
    }
  }

  /**
    From a fresh state, through any polls: once the bootstrap is over the counter is zero or for the oldest pending
    message and below the limit after every poll, as long as the state file can be read, exactly if the poll that
    ended the bootstrap left no gap.
   */
  lemma CounterAtHeadExactlyWithoutAGap(cfg: Config, w: World, envs: seq<Env>, b: nat)
    requires OneCounter(cfg, w, envs) && b < |envs| && IsFresh(w.disk, envs[0])
    requires EndsBootstrap(cfg, Polls(cfg, w, envs[..b]), envs[b])
    requires forall k | b < k < |envs| :: ReadsState(envs[k])
    ensures (forall n | b < n <= |envs| :: CounterAtHead(cfg, Polls(cfg, w, envs[..n]).disk, envs[n - 1].mailbox))
            <==> !LeavesAGap(cfg, StartState(Polls(cfg, w, envs[..b]).disk, envs[b]), envs[b])
  {
    var before, env := Polls(cfg, w, envs[..b]), envs[b];
    OneMorePoll(cfg, w, envs, b);
    RunStartsAssigned(cfg, w, envs, b);
    CounterAfterBootstrap(cfg, before, env);
    if !LeavesAGap(cfg, StartState(before.disk, env), env) {
      assert IsAtHead(cfg, w, envs, b + 1);
      forall n | b < n <= |envs|
        ensures CounterAtHead(cfg, Polls(cfg, w, envs[..n]).disk, envs[n - 1].mailbox)
      {
        StaysAtHeadFrom(cfg, w, envs, b + 1, n);
      }
    }
  }
}
