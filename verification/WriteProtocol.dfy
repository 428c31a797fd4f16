/**
  The propose/confirm protocol for writes as a state machine.

  Requests run concurrently; a Step is one atomic call made by one of them (an audit
  write, a store operation under its lock, a permission check, a handler run) or the
  passing of time.  The log is the sequence of those calls as the outside world sees
  them.  Sources: internal/application/skeleton/orchestrator.go and pending.go.
 */
module WriteProtocol {
  import opened PendingStore
  import opened Perms

  datatype Tool = Tool(id: string, kind: string, handler: string, permission: string, audit: string) {
    predicate IsWrite() {
      kind == "write"
    }
  }

  /**
    The catalog by tool id, the handler names, the handlers that are not called for a
    caller without coverage, and whether a pending store is configured.
   */
  datatype Config = Config(catalog: map<string, Tool>, handlers: set<string>, needCoverage: set<string>,
                           hasPending: bool)

  /** As built by New: every tool is filed under its own id. */
  ghost predicate IsCatalog(cfg: Config) {
    forall id | id in cfg.catalog :: cfg.catalog[id].id == id
  }

  /** What the outside world sees.  The nat fields at the end are history: log positions of earlier events. */
  datatype Event =
    | Audited(req: nat, tag: string, actor: Actor, toolId: string, ok: bool)
    | Stored(req: nat, id: string, entry: Entry, now: int, audited: nat)
    | Taken(req: nat, id: string, actor: Actor, entry: Entry, now: int)
    | Checked(req: nat, actor: Actor, tool: Tool, taken: nat)
    | Ran(req: nat, actor: Actor, tool: Tool, params: Params, via: Route)

  datatype Route = FromSelection | FromConfirmation(checked: nat, audited: nat)

  /** Where a request stands. */
  datatype Phase =
    | Proposing(actor: Actor, tool: Tool, params: Params)
    | Proposed(actor: Actor, tool: Tool, params: Params, audited: nat)
    | Running(actor: Actor, tool: Tool, params: Params)
    | Confirming(actor: Actor, id: string)
    | Holding(actor: Actor, entry: Entry, taken: nat)
    | Permitted(actor: Actor, entry: Entry, tool: Tool, checked: nat)
    | Ready(actor: Actor, entry: Entry, tool: Tool, checked: nat, audited: nat)
    | Finished

  /** `used` is history: the ids generated so far. */
  datatype State = State(now: int, entries: Entries, used: set<string>, phases: map<nat, Phase>, log: seq<Event>)

  datatype Step =
    | Wait(duration: nat)
    | BeginSelection(r: nat, actor: Actor, toolId: string, params: Params)
    | AuditProposal(r: nat, ok: bool)
    | PutPending(r: nat, id: string)
    | RunSelected(r: nat)
    | BeginConfirm(r: nat, actor: Actor, id: string)
    | TakePending(r: nat)
    | CheckPermission(r: nat)
    | AuditExecution(r: nat, ok: bool)
    | RunConfirmed(r: nat)

  const INIT := State(0, map[], {}, map[], [])

  function ProposalTag(cfg: Config, tool: Tool): string {
    if cfg.hasPending then tool.audit + ".proposed" else tool.audit
  }

  predicate Enabled(cfg: Config, s: State, step: Step) {
    match step
    case Wait(_) => true
    case BeginSelection(r, _, _, _) => r !in s.phases
    case AuditProposal(r, _) => r in s.phases && s.phases[r].Proposing?
    case PutPending(r, id) => r in s.phases && s.phases[r].Proposed? && id !in s.used
    case RunSelected(r) => r in s.phases && s.phases[r].Running?
    case BeginConfirm(r, _, _) => r !in s.phases
    case TakePending(r) => r in s.phases && s.phases[r].Confirming?
    case CheckPermission(r) => r in s.phases && s.phases[r].Holding?
    case AuditExecution(r, _) => r in s.phases && s.phases[r].Permitted?
    case RunConfirmed(r) => r in s.phases && s.phases[r].Ready?
  }

  function MoveOn(s: State, r: nat, phase: Phase): State {
    s.(phases := s.phases[r := phase])
  }

  function Emit(s: State, r: nat, phase: Phase, event: Event): State {
    s.(phases := s.phases[r := phase], log := s.log + [event])
  }

  function Apply(cfg: Config, s: State, step: Step): State
    requires Enabled(cfg, s, step)
  {
    match step
    case Wait(duration) => s.(now := s.now + duration)
    case BeginSelection(r, actor, toolId, params) =>
      if toolId !in cfg.catalog || cfg.catalog[toolId].handler !in cfg.handlers then MoveOn(s, r, Finished)
      else if cfg.catalog[toolId].IsWrite() then MoveOn(s, r, Proposing(actor, cfg.catalog[toolId], params))
      else MoveOn(s, r, Running(actor, cfg.catalog[toolId], params))
    case AuditProposal(r, ok) =>
      var p := s.phases[r];
      var next := if !ok then Finished
                  else if cfg.hasPending then Proposed(p.actor, p.tool, p.params, |s.log|)
                  else Running(p.actor, p.tool, p.params);
      Emit(s, r, next, Audited(r, ProposalTag(cfg, p.tool), p.actor, p.tool.id, ok))
    case PutPending(r, id) =>
      var p := s.phases[r];
      if id == "" then MoveOn(s, r, Finished)
      else
        var entry := NewEntry(p.actor, p.tool.id, p.params, s.now, |s.log|);
        Emit(s, r, Finished, Stored(r, id, entry, s.now, p.audited))
          .(entries := Swept(s.entries, s.now)[id := entry], used := s.used + {id})
    case RunSelected(r) =>
      var p := s.phases[r];
      if p.tool.handler in cfg.needCoverage && |p.actor.coverage| == 0 then MoveOn(s, r, Finished)
      else Emit(s, r, Finished, Ran(r, p.actor, p.tool, p.params, FromSelection))
    case BeginConfirm(r, actor, id) => MoveOn(s, r, Confirming(actor, id))
    case TakePending(r) =>
      var p := s.phases[r];
      var s' := if CanTake(s.entries, p.actor, p.id, s.now) then
                  Emit(s, r, Holding(p.actor, s.entries[p.id], |s.log|),
                       Taken(r, p.id, p.actor, s.entries[p.id], s.now))
                else MoveOn(s, r, Finished);
      s'.(entries := s.entries - {p.id})
    case CheckPermission(r) =>
      var p := s.phases[r];
      if p.entry.toolId !in cfg.catalog then MoveOn(s, r, Finished)
      else
        var tool := cfg.catalog[p.entry.toolId];
        if !Can(p.actor.perms, tool.permission) then MoveOn(s, r, Finished)
        else Emit(s, r, Permitted(p.actor, p.entry, tool, |s.log|), Checked(r, p.actor, tool, p.taken))
    case AuditExecution(r, ok) =>
      var p := s.phases[r];
      if p.tool.handler !in cfg.handlers then MoveOn(s, r, Finished)
      else
        var next := if ok then Ready(p.actor, p.entry, p.tool, p.checked, |s.log|) else Finished;
        Emit(s, r, next, Audited(r, p.tool.audit, p.actor, p.tool.id, ok))
    case RunConfirmed(r) =>
      var p := s.phases[r];
      Emit(s, r, Finished, Ran(r, p.actor, p.tool, p.entry.params, FromConfirmation(p.checked, p.audited)))
  }

  // ---------------------------------------------------------------- evidence

  /** Position p of the log holds the successful `.proposed` audit of an entry about to be stored. */
  ghost predicate ProposalAudit(cfg: Config, log: seq<Event>, p: nat, e: Entry) {
    && p < |log| && log[p].Audited? && log[p].ok
    && e.toolId in cfg.catalog && cfg.catalog[e.toolId].IsWrite()
    && log[p].tag == cfg.catalog[e.toolId].audit + ".proposed" && log[p].toolId == e.toolId
    && SameUser(e, log[p].actor)
  }

  ghost predicate StoredAt(cfg: Config, log: seq<Event>, p: nat, id: string, e: Entry) {
    && p < |log| && log[p].Stored? && log[p].id == id && log[p].entry == e
    && e.origin == p && e.expires == log[p].now + TTL
    && log[p].audited < p && ProposalAudit(cfg, log, log[p].audited, e)
  }

  ghost predicate TakenAt(cfg: Config, log: seq<Event>, p: nat, r: nat, actor: Actor, e: Entry) {
    && p < |log| && log[p].Taken? && log[p].req == r && log[p].actor == actor && log[p].entry == e
    && SameUser(e, actor) && !Expired(e, log[p].now)
    && e.origin < p && StoredAt(cfg, log, e.origin, log[p].id, e)
  }

  ghost predicate CheckedAt(cfg: Config, log: seq<Event>, p: nat, r: nat, actor: Actor, e: Entry, tool: Tool) {
    && p < |log| && log[p].Checked? && log[p].req == r && log[p].actor == actor && log[p].tool == tool
    && e.toolId in cfg.catalog && tool == cfg.catalog[e.toolId] && Can(actor.perms, tool.permission)
    && log[p].taken < p && TakenAt(cfg, log, log[p].taken, r, actor, e)
  }

  /** The execution audit that precedes a run. */
  ghost predicate ExecutionAudit(log: seq<Event>, p: nat, r: nat, actor: Actor, tool: Tool) {
    p < |log| && log[p] == Audited(r, tool.audit, actor, tool.id, true)
  }

  /** Every write in the log was confirmed, with all the evidence behind it and in order. */
  ghost predicate RunIsBacked(cfg: Config, log: seq<Event>, n: nat)
    requires n < |log| && log[n].Ran?
  {
    match log[n].via
    case FromSelection => !log[n].tool.IsWrite()
    case FromConfirmation(checked, audited) =>
      && checked < audited < n && ExecutionAudit(log, audited, log[n].req, log[n].actor, log[n].tool)
      && log[checked].Checked? && log[checked].taken < |log| && log[log[checked].taken].Taken?
      && var e := log[log[checked].taken].entry;
         CheckedAt(cfg, log, checked, log[n].req, log[n].actor, e, log[n].tool) && log[n].params == e.params
  }

  ghost predicate PhaseIsBacked(cfg: Config, log: seq<Event>, r: nat, phase: Phase) {
    match phase
    case Proposing(_, tool, _) => tool.id in cfg.catalog && tool == cfg.catalog[tool.id] && tool.IsWrite()
    case Proposed(actor, tool, params, audited) =>
      ProposalAudit(cfg, log, audited, Entry(actor.companyId, actor.userId, tool.id, params, 0, 0))
    case Running(_, tool, _) => !tool.IsWrite()
    case Holding(actor, entry, taken) => TakenAt(cfg, log, taken, r, actor, entry)
    case Permitted(actor, entry, tool, checked) => CheckedAt(cfg, log, checked, r, actor, entry, tool)
    case Ready(actor, entry, tool, checked, audited) =>
      && checked < audited && CheckedAt(cfg, log, checked, r, actor, entry, tool)
      && ExecutionAudit(log, audited, r, actor, tool)
    case _ => true
  }

  /** Ids are handed out once: stored entries have not been taken, and nothing is taken or run twice. */
  ghost predicate IdsAreSingleUse(s: State) {
    && s.entries.Keys <= s.used
    && (forall n | 0 <= n < |s.log| && s.log[n].Taken? :: s.log[n].id in s.used && s.log[n].id !in s.entries)
    && (forall m, n | 0 <= m < n < |s.log| && s.log[m].Taken? && s.log[n].Taken? :: s.log[m].id != s.log[n].id)
  }

  ghost predicate RequestsActOnce(s: State) {
    && (forall n | 0 <= n < |s.log| :: s.log[n].req in s.phases)
    && (forall n | 0 <= n < |s.log| && s.log[n].Ran? :: s.phases[s.log[n].req].Finished?)
    && (forall m, n | 0 <= m < n < |s.log| && s.log[m].Ran? && s.log[n].Ran? :: s.log[m].req != s.log[n].req)
  }

  ghost predicate IsBacked(cfg: Config, s: State) {
    && (forall id | id in s.entries :: StoredAt(cfg, s.log, s.entries[id].origin, id, s.entries[id]))
    && (forall r | r in s.phases :: PhaseIsBacked(cfg, s.log, r, s.phases[r]))
    && (forall n | 0 <= n < |s.log| && s.log[n].Ran? :: RunIsBacked(cfg, s.log, n))
  }

  ghost predicate Inv(cfg: Config, s: State) {
    IsBacked(cfg, s) && IdsAreSingleUse(s) && RequestsActOnce(s)
  }

  lemma EvidenceStays(cfg: Config, log: seq<Event>, event: Event)
    ensures forall p, id, e :: StoredAt(cfg, log, p, id, e) ==> StoredAt(cfg, log + [event], p, id, e)
    ensures forall p, r, a, e :: TakenAt(cfg, log, p, r, a, e) ==> TakenAt(cfg, log + [event], p, r, a, e)
    ensures forall p, r, a, e, t :: CheckedAt(cfg, log, p, r, a, e, t) ==> CheckedAt(cfg, log + [event], p, r, a, e, t)
    ensures forall r, phase :: PhaseIsBacked(cfg, log, r, phase) ==> PhaseIsBacked(cfg, log + [event], r, phase)
    ensures forall n: nat | n < |log| && log[n].Ran? && RunIsBacked(cfg, log, n) :: RunIsBacked(cfg, log + [event], n)
  {
  }

  /** A request that has not finished yet. */
  ghost predicate Active(s: State, r: nat) {
    r in s.phases && !s.phases[r].Finished?
  }

  /** A request moves on without a trace in the log; the store can only lose entries. */
  lemma SilentMove(cfg: Config, s: State, r: nat, phase: Phase, entries: Entries)
    requires Inv(cfg, s) && (r !in s.phases || Active(s, r)) && PhaseIsBacked(cfg, s.log, r, phase)
    requires forall id | id in entries :: id in s.entries && entries[id] == s.entries[id]
    ensures Inv(cfg, s.(phases := s.phases[r := phase], entries := entries))
  {
  }

  lemma VisibleMoveIsBacked(cfg: Config, s: State, t: State, r: nat, event: Event)
    requires IsBacked(cfg, s) && t.log == s.log + [event]
    requires r in t.phases && t.phases == s.phases[r := t.phases[r]] && PhaseIsBacked(cfg, t.log, r, t.phases[r])
    requires forall id | id in t.entries ::
               || (id in s.entries && t.entries[id] == s.entries[id])
               || StoredAt(cfg, t.log, t.entries[id].origin, id, t.entries[id])
    requires event.Ran? ==> RunIsBacked(cfg, t.log, |s.log|)
    ensures IsBacked(cfg, t)
  {
    EvidenceStays(cfg, s.log, event);
    assert forall n | 0 <= n < |s.log| :: t.log[n] == s.log[n];
  }

  lemma VisibleMoveKeepsIds(s: State, t: State, event: Event)
    requires IdsAreSingleUse(s) && t.log == s.log + [event]
    requires s.used <= t.used && t.entries.Keys <= t.used
    requires forall id | id in t.entries :: id in s.entries || id !in s.used
    requires event.Taken? ==> event.id in s.entries && event.id !in t.entries
    ensures IdsAreSingleUse(t)
  {
    assert forall n | 0 <= n < |s.log| :: t.log[n] == s.log[n];
  }

  lemma VisibleMoveActsOnce(s: State, t: State, r: nat, event: Event)
    requires RequestsActOnce(s) && Active(s, r) && event.req == r && t.log == s.log + [event]
    requires r in t.phases && t.phases == s.phases[r := t.phases[r]]
    requires event.Ran? ==> t.phases[r].Finished?
    ensures RequestsActOnce(t)
  {
    assert forall n | 0 <= n < |s.log| :: t.log[n] == s.log[n];
  }

  /** A request moves on and the world sees it. */
  lemma VisibleMove(cfg: Config, s: State, r: nat, phase: Phase, event: Event, entries: Entries, used: set<string>)
    requires Inv(cfg, s) && Active(s, r) && event.req == r
    requires PhaseIsBacked(cfg, s.log + [event], r, phase)
    requires s.used <= used && entries.Keys <= used
    requires forall id | id in entries ::
               if id in s.entries then entries[id] == s.entries[id]
               else id !in s.used && StoredAt(cfg, s.log + [event], entries[id].origin, id, entries[id])
    requires event.Taken? ==> event.id in s.entries && event.id !in entries
    requires event.Ran? ==> phase.Finished? && RunIsBacked(cfg, s.log + [event], |s.log|)
    ensures Inv(cfg, State(s.now, entries, used, s.phases[r := phase], s.log + [event]))
  {
    var t := State(s.now, entries, used, s.phases[r := phase], s.log + [event]);
    VisibleMoveIsBacked(cfg, s, t, r, event);
    VisibleMoveKeepsIds(s, t, event);
    VisibleMoveActsOnce(s, t, r, event);
  }

  lemma PutPendingKeepsInv(cfg: Config, s: State, r: nat, id: string)
    requires cfg.hasPending && IsCatalog(cfg) && Inv(cfg, s) && Enabled(cfg, s, PutPending(r, id))
    ensures Inv(cfg, Apply(cfg, s, PutPending(r, id)))
  {
    var p := s.phases[r];
    if id == "" {
      SilentMove(cfg, s, r, Finished, s.entries);
    } else {
      var entry := NewEntry(p.actor, p.tool.id, p.params, s.now, |s.log|);
      var event := Stored(r, id, entry, s.now, p.audited);
      assert StoredAt(cfg, s.log + [event], |s.log|, id, entry);
      VisibleMove(cfg, s, r, Finished, event, Swept(s.entries, s.now)[id := entry], s.used + {id});
    }
  }

  lemma TakePendingKeepsInv(cfg: Config, s: State, r: nat)
    requires Inv(cfg, s) && Enabled(cfg, s, TakePending(r))
    ensures Inv(cfg, Apply(cfg, s, TakePending(r)))
  {
    var p := s.phases[r];
    if CanTake(s.entries, p.actor, p.id, s.now) {
      var event := Taken(r, p.id, p.actor, s.entries[p.id], s.now);
      EvidenceStays(cfg, s.log, event);
      VisibleMove(cfg, s, r, Holding(p.actor, s.entries[p.id], |s.log|), event, s.entries - {p.id}, s.used);
    } else {
      SilentMove(cfg, s, r, Finished, s.entries - {p.id});
    }
  }

  lemma ProposalAuditKeepsInv(cfg: Config, s: State, r: nat, ok: bool)
    requires cfg.hasPending && IsCatalog(cfg) && Inv(cfg, s) && Enabled(cfg, s, AuditProposal(r, ok))
    ensures Inv(cfg, Apply(cfg, s, AuditProposal(r, ok)))
  {
    var p := s.phases[r];
    var event := Audited(r, ProposalTag(cfg, p.tool), p.actor, p.tool.id, ok);
    var phase := if ok then Proposed(p.actor, p.tool, p.params, |s.log|) else Finished;
    EvidenceStays(cfg, s.log, event);
    VisibleMove(cfg, s, r, phase, event, s.entries, s.used);
  }

  lemma ExecutionAuditKeepsInv(cfg: Config, s: State, r: nat, ok: bool)
    requires IsCatalog(cfg) && Inv(cfg, s) && Enabled(cfg, s, AuditExecution(r, ok))
    ensures Inv(cfg, Apply(cfg, s, AuditExecution(r, ok)))
  {
    var t := Apply(cfg, s, AuditExecution(r, ok));
    if t.log == s.log {
      SilentMove(cfg, s, r, Finished, s.entries);
    } else {
      var event, phase := t.log[|s.log|], t.phases[r];
      assert t == State(s.now, s.entries, s.used, s.phases[r := phase], s.log + [event]);
      EvidenceStays(cfg, s.log, event);
      VisibleMove(cfg, s, r, phase, event, s.entries, s.used);
    }
  }

  lemma CheckPermissionKeepsInv(cfg: Config, s: State, r: nat)
    requires IsCatalog(cfg) && Inv(cfg, s) && Enabled(cfg, s, CheckPermission(r))
    ensures Inv(cfg, Apply(cfg, s, CheckPermission(r)))
  {
    var p := s.phases[r];
    var t := Apply(cfg, s, CheckPermission(r));
    if t.log == s.log {
      SilentMove(cfg, s, r, Finished, s.entries);
    } else {
      var tool := cfg.catalog[p.entry.toolId];
      var event := Checked(r, p.actor, tool, p.taken);
      EvidenceStays(cfg, s.log, event);
      assert CheckedAt(cfg, s.log + [event], |s.log|, r, p.actor, p.entry, tool);
      VisibleMove(cfg, s, r, Permitted(p.actor, p.entry, tool, |s.log|), event, s.entries, s.used);
    }
  }

  lemma RunKeepsInv(cfg: Config, s: State, step: Step)
    requires Inv(cfg, s) && Enabled(cfg, s, step) && (step.RunSelected? || step.RunConfirmed?)
    ensures Inv(cfg, Apply(cfg, s, step))
  {
    var r := step.r;
    var t := Apply(cfg, s, step);
    if t.log == s.log {
      SilentMove(cfg, s, r, Finished, s.entries);
    } else {
      var event := t.log[|s.log|];
      EvidenceStays(cfg, s.log, event);
      assert RunIsBacked(cfg, s.log + [event], |s.log|);
      VisibleMove(cfg, s, r, Finished, event, s.entries, s.used);
    }
  }

  lemma BeginSelectionKeepsInv(cfg: Config, s: State, r: nat, actor: Actor, toolId: string, params: Params)
    requires IsCatalog(cfg) && Inv(cfg, s) && Enabled(cfg, s, BeginSelection(r, actor, toolId, params))
    ensures Inv(cfg, Apply(cfg, s, BeginSelection(r, actor, toolId, params)))
  {
    if toolId !in cfg.catalog || cfg.catalog[toolId].handler !in cfg.handlers {
      SilentMove(cfg, s, r, Finished, s.entries);
    } else if cfg.catalog[toolId].IsWrite() {
      SilentMove(cfg, s, r, Proposing(actor, cfg.catalog[toolId], params), s.entries);
    } else {
      SilentMove(cfg, s, r, Running(actor, cfg.catalog[toolId], params), s.entries);
    }
  }

  lemma BeginKeepsInv(cfg: Config, s: State, step: Step)
    requires IsCatalog(cfg) && Inv(cfg, s) && Enabled(cfg, s, step)
    requires step.Wait? || step.BeginSelection? || step.BeginConfirm?
    ensures Inv(cfg, Apply(cfg, s, step))
  {
    match step
    case BeginSelection(r, actor, toolId, params) => BeginSelectionKeepsInv(cfg, s, r, actor, toolId, params);
    case BeginConfirm(r, actor, id) => SilentMove(cfg, s, r, Confirming(actor, id), s.entries);
    case Wait(_) =>
  }

  /** Every call of every request, in any interleaving, keeps the invariant. */
  lemma StepKeepsInv(cfg: Config, s: State, step: Step)
    requires cfg.hasPending && IsCatalog(cfg) && Inv(cfg, s) && Enabled(cfg, s, step)
    ensures Inv(cfg, Apply(cfg, s, step))
  {
    match step
    case AuditProposal(r, ok) => ProposalAuditKeepsInv(cfg, s, r, ok);
    case PutPending(r, id) => PutPendingKeepsInv(cfg, s, r, id);
    case RunSelected(_) => RunKeepsInv(cfg, s, step);
    case TakePending(r) => TakePendingKeepsInv(cfg, s, r);
    case CheckPermission(r) => CheckPermissionKeepsInv(cfg, s, r);
    case AuditExecution(r, ok) => ExecutionAuditKeepsInv(cfg, s, r, ok);
    case RunConfirmed(_) => RunKeepsInv(cfg, s, step);
    case _ => BeginKeepsInv(cfg, s, step);
  }

  // ---------------------------------------------------------------- runs

  /** Taking the steps of the schedule one after the other leads from s to t. */
  ghost predicate Reaches(cfg: Config, s: State, schedule: seq<Step>, t: State)
    decreases |schedule|
  {
    if schedule == [] then
      s == t
    else
      Enabled(cfg, s, schedule[0]) && Reaches(cfg, Apply(cfg, s, schedule[0]), schedule[1..], t)
  }

  lemma {:induction false} RunExtends(cfg: Config, s: State, schedule: seq<Step>, t: State, step: Step)
    requires Reaches(cfg, s, schedule, t) && Enabled(cfg, t, step)
    ensures Reaches(cfg, s, schedule + [step], Apply(cfg, t, step))
    decreases |schedule|
  {
    if schedule == [] {
      assert (schedule + [step])[1..] == [];
    } else {
      RunExtends(cfg, Apply(cfg, s, schedule[0]), schedule[1..], t, step);
      assert (schedule + [step])[1..] == schedule[1..] + [step];
    }
  }

  lemma {:induction false} RunsKeepInv(cfg: Config, s: State, schedule: seq<Step>, t: State)
    requires cfg.hasPending && IsCatalog(cfg) && Inv(cfg, s) && Reaches(cfg, s, schedule, t)
    ensures Inv(cfg, t)
    decreases |schedule|
  {
    if schedule != [] {
      StepKeepsInv(cfg, s, schedule[0]);
      RunsKeepInv(cfg, Apply(cfg, s, schedule[0]), schedule[1..], t);
    }
  }

  /** The five calls behind a confirmed write, by their positions in the log. */
  datatype Trail = Trail(proposed: nat, stored: nat, taken: nat, checked: nat, audited: nat)

  /**
    The write at position n was proposed, stored, taken by the same user of the same company within ten
    minutes, permitted and audited, in this order, with the parameters that were stored.
   */
  ghost predicate Backs(cfg: Config, log: seq<Event>, n: nat, trail: Trail)
    requires n < |log| && log[n].Ran?
  {
    var run := log[n];
    && trail.proposed < trail.stored < trail.taken < trail.checked < trail.audited < n
    && log[trail.proposed].Audited? && log[trail.proposed].ok
    && log[trail.proposed].tag == run.tool.audit + ".proposed" && log[trail.proposed].toolId == run.tool.id
    && log[trail.stored].Stored? && log[trail.stored].entry.toolId == run.tool.id
    && log[trail.stored].entry.params == run.params
    && log[trail.stored].entry.companyId == log[trail.proposed].actor.companyId == run.actor.companyId
    && log[trail.stored].entry.userId == log[trail.proposed].actor.userId == run.actor.userId
    && log[trail.taken].Taken? && log[trail.taken].req == run.req && log[trail.taken].actor == run.actor
    && log[trail.taken].id == log[trail.stored].id
    && log[trail.taken].now <= log[trail.stored].now + 600_000_000_000
    && log[trail.checked].Checked? && log[trail.checked].req == run.req && Can(run.actor.perms, run.tool.permission)
    && log[trail.audited] == Audited(run.req, run.tool.audit, run.actor, run.tool.id, true)
  }

  lemma TrailOf(cfg: Config, s: State, n: nat) returns (trail: Trail)
    requires IsCatalog(cfg) && Inv(cfg, s) && n < |s.log| && s.log[n].Ran? && s.log[n].tool.IsWrite()
    ensures Backs(cfg, s.log, n, trail)
  {
    assert RunIsBacked(cfg, s.log, n);
    var route := s.log[n].via;
    var taken := s.log[route.checked].taken;
    var stored := s.log[taken].entry.origin;
    trail := Trail(s.log[stored].audited, stored, taken, route.checked, route.audited);
  }

  /**
    With a pending store no write ever runs without its full trail; in particular none runs straight from a selection.
   */
  lemma EveryWriteIsConfirmed(cfg: Config, schedule: seq<Step>, t: State, n: nat) returns (trail: Trail)
    requires cfg.hasPending && IsCatalog(cfg) && Reaches(cfg, INIT, schedule, t)
    requires n < |t.log| && t.log[n].Ran? && t.log[n].tool.kind == "write"
    ensures !t.log[n].via.FromSelection? && Backs(cfg, t.log, n, trail)
  {
    RunsKeepInv(cfg, INIT, schedule, t);
    trail := TrailOf(cfg, t, n);
    assert RunIsBacked(cfg, t.log, n);
  }

  /** One id, at most one execution: two writes backed by a Take of the same id are the same write. */
  lemma EachIdExecutesOnce(cfg: Config, schedule: seq<Step>, t: State, m: nat, n: nat, trail: Trail, trail': Trail)
    requires cfg.hasPending && IsCatalog(cfg) && Reaches(cfg, INIT, schedule, t)
    requires m < |t.log| && n < |t.log| && t.log[m].Ran? && t.log[n].Ran?
    requires Backs(cfg, t.log, m, trail) && Backs(cfg, t.log, n, trail')
    requires t.log[trail.taken].id == t.log[trail'.taken].id
    ensures m == n
  {
    RunsKeepInv(cfg, INIT, schedule, t);
    assert trail.taken == trail'.taken;
    assert t.log[m].req == t.log[n].req;
  }

  /** Without a pending store the protocol is not in force: a write runs straight after its audit. */
  lemma WithoutStoreWritesRunAtOnce(actor: Actor, tool: Tool, params: Params)
    returns (cfg: Config, schedule: seq<Step>, t: State)
    requires tool.kind == "write"
    ensures !cfg.hasPending && IsCatalog(cfg) && Reaches(cfg, INIT, schedule, t)
    ensures |t.log| == 2 && t.log[1] == Ran(0, actor, tool, params, FromSelection)
  {
    cfg := Config(map[tool.id := tool], {tool.handler}, {}, false);
    var s1 := Apply(cfg, INIT, BeginSelection(0, actor, tool.id, params));
    var s2 := Apply(cfg, s1, AuditProposal(0, true));
    t := Apply(cfg, s2, RunSelected(0));
    schedule := [BeginSelection(0, actor, tool.id, params), AuditProposal(0, true), RunSelected(0)];
    assert Reaches(cfg, t, [], t);
    assert Reaches(cfg, s2, schedule[2..], t) by { assert schedule[2..][1..] == []; }
    assert schedule[1..][1..] == schedule[2..];
    assert Reaches(cfg, s1, schedule[1..], t);
  }
}
