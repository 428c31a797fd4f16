/**
  The mailbox cursor of cmd/mailpoll/main.go: a persisted cursor and failure counter
  over IMAP UIDs, poll after poll.  IMAP, forwarding, cancellation and the state file
  are oracles: what they answered during one poll is an Env.
 */
module MailPoll {

  datatype UidState = UidState(uidValidity: nat, lastUid: nat, failUid: nat, failCount: nat)

  /** maxAttempts is at least 1 (loadConfig); max caps a batch when positive. */
  datatype Config = Config(maxAttempts: nat, max: int)

  datatype Outcome = Forwarded | Rejected | Failed

  datatype Attempt = Attempt(uid: nat, outcome: Outcome)

  /** One turn of the UID loop: was the context done, what became of the message, did the state file take the write. */
  datatype Tick = Tick(cancelled: bool, outcome: Outcome, saved: bool)

  /**
    One poll: whether the mailbox could be reached,
      the state file read and the search made.  `found` is the answer to the search; `mailbox` and `unread` are the UIDs
    present and unseen when it runs, and `nextUid` the smallest UID the server has not
    assigned yet at that moment.
   */
  datatype Env = Env(
    connected: bool, loaded: bool, searched: bool,
    uidValidity: nat, uidNext: nat,
    found: seq<nat>, mailbox: set<nat>, unread: set<nat>, nextUid: nat,
    ticks: nat -> Tick, lastSaved: bool)

  /** The state file and every attempt made so far. */
  datatype World = World(disk: UidState, log: seq<Attempt>)

  function Save(w: World, st: UidState, saved: bool): World {
    if saved then w.(disk := st) else w
  }

  // ---------------------------------------------------------------- the listing

  predicate IsSorted(s: seq<nat>) {
    forall i, j | 0 <= i < j < |s| :: s[i] <= s[j]
  }

  lemma SortedInFront(u: nat, s: seq<nat>)
    requires IsSorted(s) && forall x | x in s :: u <= x
    ensures IsSorted([u] + s)
  {
    assert forall j | 0 <= j < |s| :: s[j] in s;
  }

  function Insert(u: nat, s: seq<nat>): (r: seq<nat>)
    requires IsSorted(s)
    ensures IsSorted(r) && forall x :: x in r <==> x == u || x in s
  {
    if s == [] || u <= s[0] then
      SortedInFront(u, s);
      [u] + s
    else
      assert forall x :: x in s <==> x == s[0] || x in s[1..];
      SortedInFront(s[0], Insert(u, s[1..]));
      [s[0]] + Insert(u, s[1..])
  }

  /** slices.Sort */
  function Sort(s: seq<nat>): (r: seq<nat>)
    ensures IsSorted(r) && forall x :: x in r <==> x in s
  {
    if s == [] then [] else Insert(s[0], Sort(s[1..]))
  }

  /** Sorting and filtering a list without repetition gives a strictly ascending one. */
  lemma {:induction false} SortIsStrict(s: seq<nat>)
    requires forall i, j | 0 <= i < j < |s| :: s[i] != s[j]
    ensures forall i, j | 0 <= i < j < |Sort(s)| :: Sort(s)[i] < Sort(s)[j]
  {
    if s != [] {
      SortIsStrict(s[1..]);
      assert s[0] !in s[1..];
      InsertIsStrict(s[0], Sort(s[1..]));
    }
  }

  lemma {:induction false} InsertIsStrict(u: nat, s: seq<nat>)
    requires IsSorted(s) && u !in s && forall i, j | 0 <= i < j < |s| :: s[i] < s[j]
    ensures forall i, j | 0 <= i < j < |Insert(u, s)| :: Insert(u, s)[i] < Insert(u, s)[j]
  {
    if s != [] && u > s[0] {
      InsertIsStrict(u, s[1..]);
      var r := Insert(u, s[1..]);
      assert s[0] != u && Insert(u, s) == [s[0]] + r;
      forall j | 0 <= j < |r| ensures s[0] < r[j] {
        assert r[j] in r;
        assert r[j] == u || r[j] in s[1..];
      }
    }
  }

  /** The filter against servers that answer an open range with their last message. */
  method FilterAbove(uids: seq<nat>, lastUid: nat) returns (filtered: seq<nat>)
    ensures filtered == Above(uids, lastUid)
  {
    filtered := [];
    for i := 0 to |uids|
      invariant Above(uids, lastUid) == filtered + Above(uids[i..], lastUid)
    {
      assert uids[i..][0] == uids[i] && uids[i..][1..] == uids[i + 1..];
      if uids[i] > lastUid {
        filtered := filtered + [uids[i]];
      }
    }
  }

  function Above(uids: seq<nat>, lastUid: nat): (r: seq<nat>)
    ensures forall u :: u in r <==> u in uids && u > lastUid
    ensures IsSorted(uids) ==> IsSorted(r)
  {
    if uids == [] then []
    else if uids[0] > lastUid then
      assert IsSorted(uids) ==> IsSorted(uids[1..]) && forall x | x in uids[1..] :: uids[0] <= x;
      assert IsSorted(uids) ==> IsSorted([uids[0]] + Above(uids[1..], lastUid)) by {
        if IsSorted(uids) { SortedInFront(uids[0], Above(uids[1..], lastUid)); }
      }
      [uids[0]] + Above(uids[1..], lastUid)
    else Above(uids[1..], lastUid)
  }

  /** loadState: a file that cannot be read counts as an empty one. */
  function LoadState(disk: UidState, env: Env): UidState {
    if env.loaded then disk else UidState(0, 0, 0, 0)
  }

  /** The state a poll starts from: a changed UIDVALIDITY voids the stored one. */
  function StartState(disk: UidState, env: Env): UidState {
    var st := LoadState(disk, env);
    if st.uidValidity != env.uidValidity then UidState(env.uidValidity, 0, 0, 0) else st
  }

  /** What the poll sees before the cap. */
  function Listed(st: UidState, env: Env): (uids: seq<nat>)
    ensures IsSorted(uids)
    ensures forall u :: u in uids <==> u in env.found && (st.lastUid == 0 || u > st.lastUid)
  {
    if st.lastUid == 0 then Sort(env.found) else Above(Sort(env.found), st.lastUid)
  }

  function Capped(cfg: Config, uids: seq<nat>): seq<nat> {
    if cfg.max > 0 && |uids| > cfg.max then uids[..cfg.max] else uids
  }

  // ---------------------------------------------------------------- one poll

  /** A failure counted against a UID: a different UID starts from zero. */
  function CountFailure(st: UidState, uid: nat): UidState {
    st.(failUid := uid, failCount := (if st.failUid == uid then st.failCount else 0) + 1)
  }

  function MoveTo(st: UidState, uid: nat): UidState {
    st.(lastUid := uid, failUid := 0, failCount := 0)
  }

  function ClearFailure(st: UidState, uid: nat): UidState {
    if st.failUid == uid then st.(failUid := 0, failCount := 0) else st
  }

  /** The state in memory, the world, and whether the loop ran to its end. */
  datatype Turn = Turn(st: UidState, w: World, finished: bool)

  /** The UID loop from index i on. */
  function Loop(cfg: Config, bootstrap: bool, uids: seq<nat>, ticks: nat -> Tick, i: nat, st: UidState, w: World): Turn
    decreases |uids| - i
  {
    if i >= |uids| then Turn(st, w, true)
    else if ticks(i).cancelled then Turn(st, w, false)
    else
      var uid := uids[i];
      var saved := ticks(i).saved;
      var w' := w.(log := w.log + [Attempt(uid, ticks(i).outcome)]);
      match ticks(i).outcome
      case Rejected =>
        var st' := MoveTo(st, uid);
        Loop(cfg, bootstrap, uids, ticks, i + 1, st', Save(w', st', saved))
      case Failed =>
        var counted := CountFailure(st, uid);
        if counted.failCount < cfg.maxAttempts then Turn(counted, Save(w', counted, saved), false)
        else
          var st' := MoveTo(st, uid);
          Loop(cfg, bootstrap, uids, ticks, i + 1, st', Save(w', st', saved))
      case Forwarded =>
        var st' := ClearFailure(st, uid);
        if bootstrap then Loop(cfg, bootstrap, uids, ticks, i + 1, st', w')
        else
          var st'' := st'.(lastUid := uid);
          Loop(cfg, bootstrap, uids, ticks, i + 1, st'', Save(w', st'', saved))
  }

  /** pollOnce as a function of what the oracles answered. */
  function Poll(cfg: Config, w: World, env: Env): World {
    if !env.connected || !env.searched then w
    else
      var st := StartState(w.disk, env);
      var bootstrap := st.lastUid == 0;
      var uids := Listed(st, env);
      if uids == [] then
        if bootstrap && env.uidNext > 0 then Save(w, st.(lastUid := env.uidNext - 1), env.lastSaved) else w
      else
        var turn := Loop(cfg, bootstrap, Capped(cfg, uids), env.ticks, 0, st, w);
        if turn.finished && bootstrap && cfg.max == 0 && env.uidNext > 0 then
          Save(turn.w, turn.st.(lastUid := env.uidNext - 1), env.lastSaved)
        else turn.w
  }

  class Poller {
    const cfg: Config
    var disk: UidState
    ghost var log: seq<Attempt>

    ghost function Abstract(): World
      reads this
    {
      World(disk, log)
    }

    constructor (cfg: Config, disk: UidState)
      ensures this.cfg == cfg && Abstract() == World(disk, [])
    {
      this.cfg, this.disk, this.log := cfg, disk, [];
    }

    method SaveState(st: UidState, saved: bool)
      modifies this`disk
      ensures Abstract() == Save(old(Abstract()), st, saved)
    {
      if saved {
        disk := st;
      }
    }

    /** skipUID: give up on the UID, or keep it for the next poll. */
    method SkipUid(before: UidState, uid: nat, saved: bool) returns (st: UidState, skip: bool)
      modifies this`disk
      ensures skip <==> CountFailure(before, uid).failCount >= cfg.maxAttempts
      ensures st == if skip then MoveTo(before, uid) else CountFailure(before, uid)
      ensures Abstract() == Save(old(Abstract()), st, saved)
    {
      st := before;
      if st.failUid != uid {
        st := st.(failUid := uid, failCount := 0);
      }
      st := st.(failCount := st.failCount + 1);
      if st.failCount < cfg.maxAttempts {
        SaveState(st, saved);
        return st, false;
      }
      st := st.(lastUid := uid, failUid := 0, failCount := 0);
      SaveState(st, saved);
      return st, true;
    }

    /** The UID loop. */
    method ProcessUids(bootstrap: bool, uids: seq<nat>, ticks: nat -> Tick, start: UidState)
      returns (st: UidState, finished: bool)
      modifies this
      ensures Turn(st, Abstract(), finished) == Loop(cfg, bootstrap, uids, ticks, 0, start, old(Abstract()))
    {
      st := start;
      for i := 0 to |uids|
        invariant Loop(cfg, bootstrap, uids, ticks, i, st, Abstract())
                  == Loop(cfg, bootstrap, uids, ticks, 0, start, old(Abstract()))
      {
        var uid := uids[i];
        var tick := ticks(i);
        if tick.cancelled {
          return st, false;
        }
        log := log + [Attempt(uid, tick.outcome)];
        match tick.outcome {
          case Rejected =>
            st := st.(lastUid := uid, failUid := 0, failCount := 0);
            SaveState(st, tick.saved);
          case Failed =>
            var skip;
            st, skip := SkipUid(st, uid, tick.saved);
            if !skip {
              return st, false;
            }
          case Forwarded =>
            if st.failUid == uid {
              st := st.(failUid := 0, failCount := 0);
            }
            if !bootstrap {
              st := st.(lastUid := uid);
              SaveState(st, tick.saved);
            }
        }
      }
      finished := true;
    }

    method PollOnce(env: Env)
      modifies this
      ensures Abstract() == Poll(cfg, old(Abstract()), env)
    {
      if !env.connected {
        return;
      }
      var st := LoadState(disk, env);
      if st.uidValidity != env.uidValidity {
        st := UidState(env.uidValidity, 0, 0, 0);
      }
      var bootstrap := st.lastUid == 0;
      if !env.searched {
        return;
      }
      var uids := Sort(env.found);
      if !bootstrap {
        uids := FilterAbove(uids, st.lastUid);
      }
      if |uids| == 0 {
        if bootstrap && env.uidNext > 0 {
          SaveState(st.(lastUid := env.uidNext - 1), env.lastSaved);
        }
        return;
      }
      if cfg.max > 0 && |uids| > cfg.max {
        uids := uids[..cfg.max];
      }
      var finished;
      st, finished := ProcessUids(bootstrap, uids, env.ticks, st);
      if finished && bootstrap && cfg.max == 0 && env.uidNext > 0 {
        SaveState(st.(lastUid := env.uidNext - 1), env.lastSaved);
      }
    }
  }

  // ---------------------------------------------------------------- no message is lost

  /** How many of the latest attempts on this UID failed without one that did not. */
  function Streak(log: seq<Attempt>, uid: nat): nat {
    if log == [] then 0
    else
      var last, earlier := log[|log| - 1], log[..|log| - 1];
      if last.uid != uid then Streak(earlier, uid)
      else if last.outcome == Failed then 1 + Streak(earlier, uid)
      else 0
  }

  /** Forwarded, rejected for good, or failed maxAttempts times in a row at some time. */
  ghost predicate Resolved(cfg: Config, log: seq<Attempt>, uid: nat) {
    || Attempt(uid, Forwarded) in log
    || Attempt(uid, Rejected) in log
    || exists n | 0 <= n <= |log| :: Streak(log[..n], uid) >= cfg.maxAttempts
  }

  /** The counter never claims more than the attempts made. */
  ghost predicate CounterIsHonest(cfg: Config, st: UidState, log: seq<Attempt>) {
    st.failUid != 0 ==> Resolved(cfg, log, st.failUid) || Streak(log, st.failUid) >= st.failCount
  }

  /** Everything in the mailbox up to the cursor is resolved, or was found read by a bootstrap listing. */
  ghost predicate CursorIsHonest(cfg: Config, st: UidState, log: seq<Attempt>, mailbox: set<nat>, read: set<nat>) {
    forall u | u in mailbox && u <= st.lastUid :: Resolved(cfg, log, u) || u in read
  }

  ghost predicate Honest(cfg: Config, st: UidState, log: seq<Attempt>, mailbox: set<nat>, read: set<nat>) {
    CounterIsHonest(cfg, st, log) && CursorIsHonest(cfg, st, log, mailbox, read)
  }

  lemma ResolvedStays(cfg: Config, log: seq<Attempt>, a: Attempt, uid: nat)
    requires Resolved(cfg, log, uid)
    ensures Resolved(cfg, log + [a], uid)
  {
    if n :| 0 <= n <= |log| && Streak(log[..n], uid) >= cfg.maxAttempts {
      assert (log + [a])[..n] == log[..n];
    }
  }

  lemma StreakGrows(log: seq<Attempt>, a: Attempt, uid: nat)
    ensures Streak(log + [a], uid)
            == if a.uid != uid then Streak(log, uid) else if a.outcome == Failed then 1 + Streak(log, uid) else 0
  {
    assert (log + [a])[..|log + [a]| - 1] == log;
  }

  /** Whatever is attempted next, an honest state stays honest. */
  lemma AttemptKeepsHonesty(cfg: Config, st: UidState, log: seq<Attempt>, a: Attempt, mailbox: set<nat>, read: set<nat>)
    requires Honest(cfg, st, log, mailbox, read)
    ensures Honest(cfg, st, log + [a], mailbox, read)
  {
    forall u | Resolved(cfg, log, u) ensures Resolved(cfg, log + [a], u) {
      ResolvedStays(cfg, log, a, u);
    }
    StreakGrows(log, a, st.failUid);
    assert a in log + [a];
  }

  lemma FailureIsCounted(cfg: Config, st: UidState, log: seq<Attempt>, uid: nat)
    requires CounterIsHonest(cfg, st, log) && uid != 0
    ensures CounterIsHonest(cfg, CountFailure(st, uid), log + [Attempt(uid, Failed)])
    ensures CountFailure(st, uid).failCount >= cfg.maxAttempts ==> Resolved(cfg, log + [Attempt(uid, Failed)], uid)
  {
    var log' := log + [Attempt(uid, Failed)];
    StreakGrows(log, Attempt(uid, Failed), uid);
    if Resolved(cfg, log, uid) {
      ResolvedStays(cfg, log, Attempt(uid, Failed), uid);
    } else if CountFailure(st, uid).failCount >= cfg.maxAttempts {
      assert log'[..|log'|] == log';
    }
  }

  /**
    What the listing owes the loop: a mailbox message up to a listed one is listed no
    later, or already accounted for.
   */
  ghost predicate ListingCovers(cfg: Config, uids: seq<nat>, log: seq<Attempt>, mailbox: set<nat>, read: set<nat>) {
    && (forall k | 0 <= k < |uids| :: uids[k] != 0)
    && forall u, k | u in mailbox && 0 <= k < |uids| && u <= uids[k] ::
         Resolved(cfg, log, u) || u in read || exists j | 0 <= j <= k :: uids[j] == u
  }

  ghost predicate AllResolved(cfg: Config, uids: seq<nat>, log: seq<Attempt>) {
    forall k | 0 <= k < |uids| :: Resolved(cfg, log, uids[k])
  }

  lemma PassedIsAccounted(cfg: Config, uids: seq<nat>, i: nat, log: seq<Attempt>, mailbox: set<nat>, read: set<nat>,
                          u: nat)
    requires i < |uids| && ListingCovers(cfg, uids, log, mailbox, read) && AllResolved(cfg, uids[..i + 1], log)
    requires u in mailbox && u <= uids[i]
    ensures Resolved(cfg, log, u) || u in read
  {
    if j :| 0 <= j <= i && uids[j] == u {
      assert uids[..i + 1][j] == u;
    }
  }

  /** The cursor may move to the i-th listed UID once all up to it are resolved. */
  lemma CursorMayMove(cfg: Config, st: UidState, uids: seq<nat>, i: nat, log: seq<Attempt>, mailbox: set<nat>,
                      read: set<nat>)
    requires i < |uids| && ListingCovers(cfg, uids, log, mailbox, read) && AllResolved(cfg, uids[..i + 1], log)
    requires st.lastUid == uids[i]
    ensures CursorIsHonest(cfg, st, log, mailbox, read)
  {
    forall u | u in mailbox && u <= st.lastUid ensures Resolved(cfg, log, u) || u in read {
      PassedIsAccounted(cfg, uids, i, log, mailbox, read, u);
    }
  }

  lemma AttemptKeepsListing(cfg: Config, uids: seq<nat>, i: nat, log: seq<Attempt>, a: Attempt, mailbox: set<nat>,
                            read: set<nat>)
    requires i < |uids| && ListingCovers(cfg, uids, log, mailbox, read) && AllResolved(cfg, uids[..i], log)
    ensures ListingCovers(cfg, uids, log + [a], mailbox, read)
    ensures Resolved(cfg, log + [a], uids[i]) ==> AllResolved(cfg, uids[..i + 1], log + [a])
  {
    forall u | Resolved(cfg, log, u) ensures Resolved(cfg, log + [a], u) {
      ResolvedStays(cfg, log, a, u);
    }
    assert forall k | 0 <= k < i :: uids[..i + 1][k] == uids[..i][k];
  }

  /** The loop keeps both the state in memory and the one on disk honest. */
  lemma {:induction false} LoopIsHonest(
      cfg: Config, bootstrap: bool, uids: seq<nat>, ticks: nat -> Tick, i: nat, st: UidState, w: World,
      mailbox: set<nat>, read: set<nat>)
    requires i <= |uids| && ListingCovers(cfg, uids, w.log, mailbox, read) && AllResolved(cfg, uids[..i], w.log)
    requires Honest(cfg, st, w.log, mailbox, read)
    requires w.disk.uidValidity == st.uidValidity ==> Honest(cfg, w.disk, w.log, mailbox, read)
    ensures var turn := Loop(cfg, bootstrap, uids, ticks, i, st, w);
            && turn.st.uidValidity == st.uidValidity
            && Honest(cfg, turn.st, turn.w.log, mailbox, read)
            && (turn.w.disk.uidValidity == st.uidValidity ==> Honest(cfg, turn.w.disk, turn.w.log, mailbox, read))
            && (turn.finished ==> AllResolved(cfg, uids, turn.w.log))
    decreases |uids| - i
  {
    if i < |uids| && !ticks(i).cancelled {
      var uid, saved := uids[i], ticks(i).saved;
      var a := Attempt(uid, ticks(i).outcome);
      var log := w.log + [a];
      assert a in log;
      AttemptKeepsListing(cfg, uids, i, w.log, a, mailbox, read);
      AttemptKeepsHonesty(cfg, st, w.log, a, mailbox, read);
      if w.disk.uidValidity == st.uidValidity {
        AttemptKeepsHonesty(cfg, w.disk, w.log, a, mailbox, read);
      }
      var w' := w.(log := log);
      match a.outcome
      case Rejected =>
        var st' := MoveTo(st, uid);
        CursorMayMove(cfg, st', uids, i, log, mailbox, read);
        LoopIsHonest(cfg, bootstrap, uids, ticks, i + 1, st', Save(w', st', saved), mailbox, read);
      case Failed =>
        FailureIsCounted(cfg, st, w.log, uid);
        if CountFailure(st, uid).failCount >= cfg.maxAttempts {
          var st' := MoveTo(st, uid);
          CursorMayMove(cfg, st', uids, i, log, mailbox, read);
          LoopIsHonest(cfg, bootstrap, uids, ticks, i + 1, st', Save(w', st', saved), mailbox, read);
        }
      case Forwarded =>
        var st' := ClearFailure(st, uid);
        var st'' := st'.(lastUid := uid);
        CursorMayMove(cfg, st'', uids, i, log, mailbox, read);
        if bootstrap {
          LoopIsHonest(cfg, bootstrap, uids, ticks, i + 1, st', w', mailbox, read);
        } else {
          LoopIsHonest(cfg, bootstrap, uids, ticks, i + 1, st'', Save(w', st'', saved), mailbox, read);
        }
    } else {
      assert uids[..|uids|] == uids;
    }
  }

  /** Where the cursor can be after the loop: in memory and on disk. */
  lemma {:induction false} LoopMovesToListed(cfg: Config, bootstrap: bool, uids: seq<nat>, ticks: nat -> Tick, i: nat,
                                             st: UidState, w: World)
    requires i <= |uids|
    ensures var turn := Loop(cfg, bootstrap, uids, ticks, i, st, w);
            && (turn.st.lastUid == st.lastUid || turn.st.lastUid in uids[i..])
            && (turn.w.disk == w.disk || turn.w.disk.lastUid == st.lastUid || turn.w.disk.lastUid in uids[i..])
            && (turn.w.disk == w.disk || turn.w.disk.uidValidity == st.uidValidity)
    decreases |uids| - i
  {
    if i < |uids| && !ticks(i).cancelled {
      var uid, saved := uids[i], ticks(i).saved;
      var w' := w.(log := w.log + [Attempt(uid, ticks(i).outcome)]);
      assert uids[i] in uids[i..] && forall u | u in uids[i + 1..] :: u in uids[i..];
      match ticks(i).outcome
      case Rejected =>
        LoopMovesToListed(cfg, bootstrap, uids, ticks, i + 1, MoveTo(st, uid), Save(w', MoveTo(st, uid), saved));
      case Failed =>
        LoopMovesToListed(cfg, bootstrap, uids, ticks, i + 1, MoveTo(st, uid), Save(w', MoveTo(st, uid), saved));
      case Forwarded =>
        var st' := ClearFailure(st, uid);
        var st'' := st'.(lastUid := uid);
        LoopMovesToListed(cfg, bootstrap, uids, ticks, i + 1, if bootstrap then st' else st'',
                          if bootstrap then w' else Save(w', st'', saved));
    }
  }

  /**
    RFC 3501, section 2.3.1.1, seen by one poll: UIDs are positive and below the next one, and the search is answered
    in full.
   */
  ghost predicate ServerIsSane(st: UidState, env: Env) {
    && 0 !in env.mailbox && env.unread <= env.mailbox
    && (forall u | u in env.mailbox :: u < env.nextUid)
    && env.uidNext <= env.nextUid
    && (st.lastUid == 0 ==> forall u :: u in env.found <==> u in env.unread)
    && (st.lastUid != 0 ==> forall u | u > st.lastUid :: u in env.found <==> u in env.mailbox)
  }

  /** Between two polls messages may go, and new ones get UIDs not assigned before. */
  ghost predicate Follows(earlier: Env, later: Env) {
    && earlier.uidValidity == later.uidValidity
    && earlier.nextUid <= later.nextUid
    && forall u | u in later.mailbox :: u in earlier.mailbox || u >= earlier.nextUid
  }

  ghost predicate BehindNext(st: UidState, env: Env) {
    st.lastUid == 0 || st.lastUid < env.nextUid
  }

  /** What a poll of this world leaves aside as read already. */
  ghost function FoundRead(w: World, env: Env): set<nat> {
    if env.connected && env.searched && StartState(w.disk, env).lastUid == 0 then env.mailbox - env.unread else {}
  }

  ghost predicate DiskIsHonest(cfg: Config, w: World, env: Env, read: set<nat>) {
    w.disk.uidValidity == env.uidValidity ==>
      Honest(cfg, w.disk, w.log, env.mailbox, read) && BehindNext(w.disk, env)
  }

  lemma SortedPosition(all: seq<nat>, u: nat, k: nat)
    requires IsSorted(all) && u in all && k < |all| && u <= all[k]
    ensures exists j | 0 <= j <= k :: all[j] == u
  {
    var j :| 0 <= j < |all| && all[j] == u;
    if j > k {
      assert all[k] == u;
    }
  }

  lemma ListingIsCovering(cfg: Config, w: World, env: Env, read: set<nat>)
    requires env.connected && env.searched && ServerIsSane(StartState(w.disk, env), env)
    requires DiskIsHonest(cfg, w, env, read)
    ensures ListingCovers(cfg, Capped(cfg, Listed(StartState(w.disk, env), env)), w.log, env.mailbox,
                          read + FoundRead(w, env))
  {
    var st := StartState(w.disk, env);
    var all := Listed(st, env);
    var uids := Capped(cfg, all);
    assert forall k | 0 <= k < |uids| :: uids[k] == all[k] && all[k] in all;
    forall u, k | u in env.mailbox && 0 <= k < |uids| && u <= uids[k]
      ensures Resolved(cfg, w.log, u) || u in read + FoundRead(w, env) || exists j | 0 <= j <= k :: uids[j] == u
    {
      if u in all {
        SortedPosition(all, u, k);
      }
    }
  }

  /** One poll, from an honest disk to an honest disk. */
  lemma PollIsHonest(cfg: Config, w: World, env: Env, read: set<nat>)
    requires ServerIsSane(StartState(w.disk, env), env) && DiskIsHonest(cfg, w, env, read)
    ensures DiskIsHonest(cfg, Poll(cfg, w, env), env, read + FoundRead(w, env))
  {
    if env.connected && env.searched {
      var st := StartState(w.disk, env);
      var read' := read + FoundRead(w, env);
      var all := Listed(st, env);
      var uids := Capped(cfg, all);
      assert Honest(cfg, st, w.log, env.mailbox, read');
      if all != [] {
        ListingIsCovering(cfg, w, env, read);
        assert uids[..0] == [];
        LoopIsHonest(cfg, st.lastUid == 0, uids, env.ticks, 0, st, w, env.mailbox, read');
        LoopMovesToListed(cfg, st.lastUid == 0, uids, env.ticks, 0, st, w);
        assert uids[0..] == uids && forall u | u in uids :: u in all;
        BootstrapJump(cfg, w, env, read);
      }
    }
  }

  /** At the end of an uncapped bootstrap everything listed is resolved and the rest was read. */
  lemma BootstrapJump(cfg: Config, w: World, env: Env, read: set<nat>)
    requires env.connected && env.searched
    requires ServerIsSane(StartState(w.disk, env), env) && DiskIsHonest(cfg, w, env, read)
    ensures var st := StartState(w.disk, env);
            var turn := Loop(cfg, true, Listed(st, env), env.ticks, 0, st, w);
            st.lastUid == 0 && cfg.max == 0 && turn.finished && env.uidNext > 0 ==>
              Honest(cfg, turn.st.(lastUid := env.uidNext - 1), turn.w.log, env.mailbox, read + FoundRead(w, env))
  {
    var st := StartState(w.disk, env);
    var read' := read + FoundRead(w, env);
    var all := Listed(st, env);
    if st.lastUid == 0 && cfg.max == 0 {
      ListingIsCovering(cfg, w, env, read);
      assert all[..0] == [];
      LoopIsHonest(cfg, true, all, env.ticks, 0, st, w, env.mailbox, read');
    }
  }

  // ---------------------------------------------------------------- runs

  function Polls(cfg: Config, w: World, envs: seq<Env>): World {
    if envs == [] then w else Poll(cfg, Polls(cfg, w, envs[..|envs| - 1]), envs[|envs| - 1])
  }

  ghost function FoundReadIn(cfg: Config, w: World, envs: seq<Env>): set<nat> {
    if envs == [] then {}
    else
      var earlier := envs[..|envs| - 1];
      FoundReadIn(cfg, w, earlier) + FoundRead(Polls(cfg, w, earlier), envs[|envs| - 1])
  }

  /** One mailbox under one UIDVALIDITY, polled again and again. */
  ghost predicate OneMailbox(cfg: Config, w: World, envs: seq<Env>) {
    && (forall k | 0 <= k < |envs| :: ServerIsSane(StartState(Polls(cfg, w, envs[..k]).disk, envs[k]), envs[k]))
    && (forall k | 0 < k < |envs| :: Follows(envs[k - 1], envs[k]))
  }

  lemma EarlierPolls(cfg: Config, w: World, envs: seq<Env>)
    requires envs != [] && OneMailbox(cfg, w, envs)
    ensures OneMailbox(cfg, w, envs[..|envs| - 1])
  {
    var earlier := envs[..|envs| - 1];
    assert forall k | 0 <= k < |earlier| :: earlier[..k] == envs[..k] && earlier[k] == envs[k];
  }

  lemma HonestyOutlivesChange(cfg: Config, w: World, earlier: Env, later: Env, read: set<nat>)
    requires DiskIsHonest(cfg, w, earlier, read) && Follows(earlier, later) && 0 !in later.mailbox
    ensures DiskIsHonest(cfg, w, later, read)
  {
  }

  lemma {:induction false} RunIsHonest(cfg: Config, w: World, envs: seq<Env>)
    requires envs != [] && OneMailbox(cfg, w, envs)
    requires w.disk.uidValidity != envs[0].uidValidity || w.disk == UidState(envs[0].uidValidity, 0, 0, 0)
    ensures DiskIsHonest(cfg, Polls(cfg, w, envs), envs[|envs| - 1], FoundReadIn(cfg, w, envs))
    decreases |envs|
  {
    var n := |envs| - 1;
    var earlier, env := envs[..n], envs[n];
    if n > 0 {
      EarlierPolls(cfg, w, envs);
      RunIsHonest(cfg, w, earlier);
      assert Follows(envs[n - 1], envs[n]) && earlier[|earlier| - 1] == envs[n - 1];
      assert ServerIsSane(StartState(Polls(cfg, w, envs[..n]).disk, envs[n]), envs[n]);
      HonestyOutlivesChange(cfg, Polls(cfg, w, earlier), envs[n - 1], env, FoundReadIn(cfg, w, earlier));
    }
    PollIsHonest(cfg, Polls(cfg, w, earlier), env, FoundReadIn(cfg, w, earlier));
  }

  /**
    No message is lost: after any number of polls of one mailbox, with any failures of
    the network, the inbound API, the context and the state file, every message still
    there at or below the stored cursor was forwarded, rejected, given up after
    maxAttempts failures in a row, or already read when a bootstrap listed the unread.
   */
  lemma NoMessageIsLost(cfg: Config, w: World, envs: seq<Env>, u: nat)
    requires envs != [] && OneMailbox(cfg, w, envs)
    requires w.disk.uidValidity != envs[0].uidValidity || w.disk == UidState(envs[0].uidValidity, 0, 0, 0)
    requires var end := Polls(cfg, w, envs);
             && end.disk.uidValidity == envs[|envs| - 1].uidValidity
             && u in envs[|envs| - 1].mailbox && u <= end.disk.lastUid
    ensures Resolved(cfg, Polls(cfg, w, envs).log, u) || u in FoundReadIn(cfg, w, envs)
  {
    RunIsHonest(cfg, w, envs);
  }

  // ---------------------------------------------------------------- no message blocks for long

  function Pending(st: UidState, mailbox: set<nat>): set<nat> {
    set u | u in mailbox && u > st.lastUid
  }

  ghost predicate IsHead(st: UidState, mailbox: set<nat>, h: nat) {
    h in Pending(st, mailbox) && forall u | u in Pending(st, mailbox) :: h <= u
  }

  /** The failures counted against h. */
  function Tries(st: UidState, h: nat): nat {
    if st.failUid == h then st.failCount else 0
  }

  /** A poll in steady state that gets its listing. */
  ghost predicate SteadyPoll(w: World, env: Env) {
    && env.connected && env.loaded && env.searched
    && w.disk.uidValidity == env.uidValidity && w.disk.lastUid != 0
    && ServerIsSane(w.disk, env)
  }

  lemma HeadIsListedFirst(cfg: Config, w: World, env: Env, h: nat)
    requires SteadyPoll(w, env) && IsHead(w.disk, env.mailbox, h)
    ensures var uids := Capped(cfg, Listed(w.disk, env));
            && uids != [] && uids[0] == h && IsSorted(uids)
            && (forall u | u in uids :: u in Pending(w.disk, env.mailbox))
  {
    var all := Listed(w.disk, env);
    assert forall u :: u in all <==> u in Pending(w.disk, env.mailbox);
    var j :| 0 <= j < |all| && all[j] == h;
    assert all[0] in all && all[0] <= h;
    assert forall u | u in Capped(cfg, all) :: u in all;
  }

  /**
    A steady poll with something pending either leaves the file as it was, or moves the
    cursor to the oldest pending message or beyond, or counts one more failure
    against it, still below the limit.  If the oldest one was attempted and that write
    went through, the file does change.
   */
  lemma SteadyPollProgress(cfg: Config, w: World, env: Env, h: nat)
    requires SteadyPoll(w, env) && IsHead(w.disk, env.mailbox, h)
    ensures var disk := Poll(cfg, w, env).disk;
            || disk == w.disk
            || disk.lastUid >= h
            || (disk == CountFailure(w.disk, h) && Tries(w.disk, h) + 1 == Tries(disk, h) < cfg.maxAttempts)
    ensures !env.ticks(0).cancelled && env.ticks(0).saved ==> Poll(cfg, w, env).disk != w.disk
  {
    var uids := Capped(cfg, Listed(w.disk, env));
    HeadIsListedFirst(cfg, w, env, h);
    var tick := env.ticks(0);
    if !tick.cancelled {
      var w' := w.(log := w.log + [Attempt(h, tick.outcome)]);
      var st := if tick.outcome == Forwarded then ClearFailure(w.disk, h).(lastUid := h) else MoveTo(w.disk, h);
      LoopMovesToListed(cfg, false, uids, env.ticks, 1, st, Save(w', st, tick.saved));
      assert forall u | u in uids[1..] :: u >= h;
    }
  }

  /** Never backwards in steady state, as long as the state file can be read. */
  lemma SteadyCursorNeverGoesBack(cfg: Config, w: World, env: Env)
    requires env.loaded && env.uidValidity == w.disk.uidValidity && w.disk.lastUid != 0
    ensures Poll(cfg, w, env).disk.lastUid >= w.disk.lastUid
  {
    var uids := Capped(cfg, Listed(w.disk, env));
    LoopMovesToListed(cfg, false, uids, env.ticks, 0, w.disk, w);
    assert forall u | u in uids :: u in Listed(w.disk, env);
  }

  /** A poll of the same mailbox on a sane server. */
  ghost predicate SanePoll(w: World, env: Env) {
    && env.uidValidity == w.disk.uidValidity
    && ServerIsSane(StartState(w.disk, env), env) && BehindNext(w.disk, env)
  }

  /** Whatever else such a poll meets, the stored cursor stays or moves on. */
  ghost predicate CursorIsSafe(cfg: Config, w: World, loaded: bool) {
    forall env | SanePoll(w, env) && env.loaded == loaded :: Poll(cfg, w, env).disk.lastUid >= w.disk.lastUid
  }

  /** That is so exactly when the file can be read: without it the poll is a bootstrap, and the cursor starts over. */
  lemma CursorIsSafeExactlyIfRead(cfg: Config, w: World, loaded: bool)
    requires w.disk.lastUid != 0
    ensures CursorIsSafe(cfg, w, loaded) <==> loaded
  {
    if loaded {
      forall env | SanePoll(w, env) && env.loaded == loaded
        ensures Poll(cfg, w, env).disk.lastUid >= w.disk.lastUid
      {
        SteadyCursorNeverGoesBack(cfg, w, env);
      }
    } else {
      var env := Env(true, false, true, w.disk.uidValidity, 1, [], {}, {}, w.disk.lastUid + 1,
                     i => Tick(false, Forwarded, true), true);
      assert SanePoll(w, env);
      assert Poll(cfg, w, env).disk.lastUid == 0;
    }
  }

  /** The pair of pending messages and tries left drops whenever the file changes. */
  lemma RankDrops(cfg: Config, w: World, env: Env, h: nat)
    requires SteadyPoll(w, env) && IsHead(w.disk, env.mailbox, h)
    requires Poll(cfg, w, env).disk != w.disk
    ensures var disk := Poll(cfg, w, env).disk;
            || Pending(disk, env.mailbox) < Pending(w.disk, env.mailbox)
            || (Pending(disk, env.mailbox) == Pending(w.disk, env.mailbox)
                && cfg.maxAttempts - Tries(disk, h) < cfg.maxAttempts - Tries(w.disk, h))
  {
    SteadyPollProgress(cfg, w, env, h);
    if Poll(cfg, w, env).disk.lastUid >= h {
      assert h !in Pending(Poll(cfg, w, env).disk, env.mailbox);
    }
  }

  /** The poll attempted its first message and the state file took the outcome. */
  predicate Records(env: Env) {
    env.connected && env.searched && !env.ticks(0).cancelled && env.ticks(0).saved
  }

  function Recorded(envs: seq<Env>): (n: nat)
    ensures n <= |envs|
  {
    if envs == [] then 0 else Recorded(envs[..|envs| - 1]) + if Records(envs[|envs| - 1]) then 1 else 0
  }

  /**
    Any polls in a row, failed dials, cancellations and lost writes among them, as long as h stays in the mailbox
    and nothing turns up in front of it.
   */
  ghost predicate PollsBehind(cfg: Config, w: World, envs: seq<Env>, h: nat) {
    forall k | 0 <= k < |envs| && envs[k].connected && envs[k].searched ::
      SteadyPoll(Polls(cfg, w, envs[..k]), envs[k]) && IsHead(w.disk, envs[k].mailbox, h)
  }

  lemma EarlierPollsBehind(cfg: Config, w: World, envs: seq<Env>, h: nat, n: nat)
    requires n < |envs| && PollsBehind(cfg, w, envs, h)
    ensures PollsBehind(cfg, w, envs[..n], h)
  {
    assert forall k | 0 <= k < n :: envs[..n][..k] == envs[..k] && envs[..n][k] == envs[k];
  }

  /** The oldest pending message has been passed, or has failed in each poll that recorded its outcome. */
  ghost predicate CountedDown(cfg: Config, start: UidState, disk: UidState, h: nat, recorded: nat) {
    || disk.lastUid >= h
    || (disk.lastUid == start.lastUid && Tries(start, h) + recorded <= Tries(disk, h)
        && (recorded > 0 ==> Tries(disk, h) < cfg.maxAttempts))
  }

  lemma OneMoreCountedDown(cfg: Config, start: UidState, w: World, env: Env, h: nat, recorded: nat)
    requires CountedDown(cfg, start, w.disk, h, recorded)
    requires env.connected && env.searched ==> SteadyPoll(w, env) && IsHead(start, env.mailbox, h)
    ensures CountedDown(cfg, start, Poll(cfg, w, env).disk, h, if Records(env) then recorded + 1 else recorded)
  {
    if env.connected && env.searched {
      if w.disk.lastUid >= h {
        SteadyCursorNeverGoesBack(cfg, w, env);
      } else {
        SteadyPollProgress(cfg, w, env, h);
      }
    }
  }

  lemma {:induction false} HeadIsCountedDown(cfg: Config, w: World, envs: seq<Env>, h: nat)
    requires PollsBehind(cfg, w, envs, h)
    ensures CountedDown(cfg, w.disk, Polls(cfg, w, envs).disk, h, Recorded(envs))
    decreases |envs|
  {
    if envs != [] {
      var n := |envs| - 1;
      EarlierPollsBehind(cfg, w, envs, h, n);
      HeadIsCountedDown(cfg, w, envs[..n], h);
      OneMoreCountedDown(cfg, w.disk, Polls(cfg, w, envs[..n]), envs[n], h, Recorded(envs[..n]));
    }
  }

  /**
    Bounded blocking: once as many polls as there are tries left have recorded their first attempt, whatever lies
    between these polls, the oldest pending message is behind the cursor.
   */
  lemma NoMessageBlocksForLong(cfg: Config, w: World, envs: seq<Env>, h: nat)
    requires PollsBehind(cfg, w, envs, h)
    requires Recorded(envs) > 0 && cfg.maxAttempts <= Tries(w.disk, h) + Recorded(envs)
    ensures Polls(cfg, w, envs).disk.lastUid >= h
  {
    HeadIsCountedDown(cfg, w, envs, h);
  }

  /** A poll that finds h alone, and whose attempt fails and is recorded. */
  function FailingPoll(uidValidity: nat, h: nat): Env {
    Env(true, true, true, uidValidity, 0, [h], {h}, {h}, h + 1, i => Tick(false, Failed, true), false)
  }

  function FailingPolls(uidValidity: nat, h: nat, n: nat): seq<Env> {
    if n == 0 then [] else FailingPolls(uidValidity, h, n - 1) + [FailingPoll(uidValidity, h)]
  }

  lemma FailingPollCounts(cfg: Config, w: World, env: Env, h: nat)
    requires w.disk.lastUid != 0 && h > w.disk.lastUid && Tries(w.disk, h) + 1 < cfg.maxAttempts
    requires env == FailingPoll(w.disk.uidValidity, h)
    ensures SteadyPoll(w, env) && Records(env) && Poll(cfg, w, env).disk == CountFailure(w.disk, h)
  {
    assert SteadyPoll(w, env) && IsHead(w.disk, env.mailbox, h);
    HeadIsListedFirst(cfg, w, env, h);
  }

  /** After these n polls the cursor stands still and each of them is counted. */
  ghost predicate CountsUp(cfg: Config, w: World, envs: seq<Env>, h: nat, n: nat) {
    var disk := Polls(cfg, w, envs).disk;
    && Recorded(envs) == n && PollsBehind(cfg, w, envs, h)
    && disk.lastUid == w.disk.lastUid && disk.uidValidity == w.disk.uidValidity
    && Tries(disk, h) == Tries(w.disk, h) + n
  }

  lemma OneMoreCounts(cfg: Config, w: World, earlier: seq<Env>, env: Env, h: nat, n: nat)
    requires w.disk.lastUid != 0 && h > w.disk.lastUid && CountsUp(cfg, w, earlier, h, n)
    requires env == FailingPoll(w.disk.uidValidity, h) && Tries(w.disk, h) + n + 1 < cfg.maxAttempts
    ensures CountsUp(cfg, w, earlier + [env], h, n + 1)
  {
    FailingPollCounts(cfg, Polls(cfg, w, earlier), env, h);
    assert IsHead(w.disk, env.mailbox, h);
    OneMoreBehind(cfg, w, earlier, env, h);
  }

  lemma {:induction false} FailingPollsCount(cfg: Config, w: World, h: nat, n: nat)
    requires w.disk.lastUid != 0 && h > w.disk.lastUid && (n > 0 ==> Tries(w.disk, h) + n < cfg.maxAttempts)
    ensures CountsUp(cfg, w, FailingPolls(w.disk.uidValidity, h, n), h, n)
  {
    if n > 0 {
      var m := n - 1;
      FailingPollsCount(cfg, w, h, m);
      var earlier := FailingPolls(w.disk.uidValidity, h, m);
      OneMoreCounts(cfg, w, earlier, FailingPoll(w.disk.uidValidity, h), h, m);
    }
  }

  lemma OneMoreBehind(cfg: Config, w: World, earlier: seq<Env>, env: Env, h: nat)
    requires PollsBehind(cfg, w, earlier, h) && IsHead(w.disk, env.mailbox, h)
    requires SteadyPoll(Polls(cfg, w, earlier), env)
    ensures PollsBehind(cfg, w, earlier + [env], h)
    ensures Polls(cfg, w, earlier + [env]) == Poll(cfg, Polls(cfg, w, earlier), env)
    ensures Recorded(earlier + [env]) == Recorded(earlier) + if Records(env) then 1 else 0
  {
    var envs := earlier + [env];
    assert envs[..|earlier|] == earlier;
    assert forall k | 0 <= k < |earlier| :: earlier[..k] == envs[..k] && earlier[k] == envs[k];
  }

  /** Any r polls that recorded their first attempt take the cursor past the oldest pending message. */
  ghost predicate PassedAfter(cfg: Config, w: World, h: nat, r: nat) {
    forall envs | PollsBehind(cfg, w, envs, h) && Recorded(envs) == r :: Polls(cfg, w, envs).disk.lastUid >= h
  }

  /** That is so exactly when they use up the tries; with no write recorded (r == 0) nothing ever unblocks. */
  lemma PassedExactlyAtTheLimit(cfg: Config, w: World, h: nat, r: nat)
    requires w.disk.lastUid != 0 && h > w.disk.lastUid
    ensures PassedAfter(cfg, w, h, r) <==> r > 0 && cfg.maxAttempts <= Tries(w.disk, h) + r
  {
    if r > 0 && cfg.maxAttempts <= Tries(w.disk, h) + r {
      forall envs | PollsBehind(cfg, w, envs, h) && Recorded(envs) == r
        ensures Polls(cfg, w, envs).disk.lastUid >= h
      {
        NoMessageBlocksForLong(cfg, w, envs, h);
      }
    } else {
      FailingPollsCount(cfg, w, h, r);
      var envs := FailingPolls(w.disk.uidValidity, h, r);
      assert Recorded(envs) == r && PollsBehind(cfg, w, envs, h);
    }
  }

  lemma {:induction false} UnwritableLoop(cfg: Config, bootstrap: bool, uids: seq<nat>, ticks: nat -> Tick, i: nat,
                                          st: UidState, w: World)
    requires forall k :: !ticks(k).saved
    ensures Loop(cfg, bootstrap, uids, ticks, i, st, w).w.disk == w.disk
    decreases |uids| - i
  {
    if i < |uids| && !ticks(i).cancelled {
      var uid := uids[i];
      var w' := w.(log := w.log + [Attempt(uid, ticks(i).outcome)]);
      UnwritableLoop(cfg, bootstrap, uids, ticks, i + 1, MoveTo(st, uid), w');
      UnwritableLoop(cfg, bootstrap, uids, ticks, i + 1, ClearFailure(st, uid), w');
      UnwritableLoop(cfg, bootstrap, uids, ticks, i + 1, ClearFailure(st, uid).(lastUid := uid), w');
    }
  }

  ghost predicate Unwritable(env: Env) {
    !env.lastSaved && forall k :: !env.ticks(k).saved
  }

  /** With an unwritable state file, by contrast, no number of failures moves the cursor. */
  lemma {:induction false} UnwritableStateBlocksForEver(cfg: Config, w: World, envs: seq<Env>)
    requires forall env | env in envs :: Unwritable(env)
    ensures Polls(cfg, w, envs).disk == w.disk
    decreases |envs|
  {
    if envs != [] {
      var n := |envs| - 1;
      UnwritableStateBlocksForEver(cfg, w, envs[..n]);
      var before, env := Polls(cfg, w, envs[..n]), envs[n];
      assert env in envs;
      var st := StartState(before.disk, env);
      UnwritableLoop(cfg, st.lastUid == 0, Capped(cfg, Listed(st, env)), env.ticks, 0, st, before);
    }
  }
}
