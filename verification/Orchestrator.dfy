/**
  ExecuteSelection and Confirm as the code runs them, each call on the store and the
  auditor paired with the step of WriteProtocol it is: internal/application/skeleton.
 */
module Orchestrator {
  import opened PendingStore
  import opened Perms
  import opened WriteProtocol

  datatype Reply = Refused | ProposalStored(id: string) | Called

  /** The log only grew, and by no handler run. */
  ghost predicate NothingRan(before: seq<Event>, after: seq<Event>) {
    before <= after && forall n | |before| <= n < |after| :: !after[n].Ran?
  }

  /** Request r ran this tool with these parameters, which was the last thing to happen and the only run. */
  ghost predicate RanOnce(before: seq<Event>, after: seq<Event>, r: nat, tool: Tool, params: Params) {
    && after != []
    && NothingRan(before, after[..|after| - 1])
    && var last := after[|after| - 1];
       last.Ran? && last.req == r && last.tool == tool && last.params == params
  }

  lemma NothingThenRun(a: seq<Event>, b: seq<Event>, e: Event)
    requires NothingRan(a, b) && e.Ran?
    ensures RanOnce(a, b + [e], e.req, e.tool, e.params)
  {
    assert (b + [e])[..|b + [e]| - 1] == b;
  }

  lemma NothingThenRanOnce(a: seq<Event>, b: seq<Event>, c: seq<Event>, r: nat, tool: Tool, params: Params)
    requires NothingRan(a, b) && RanOnce(b, c, r, tool, params)
    ensures RanOnce(a, c, r, tool, params)
  {
  }

  /** A step concerns its own request only. */
  lemma StepAddsItsRequest(cfg: Config, s: State, step: Step)
    requires Enabled(cfg, s, step)
    ensures Apply(cfg, s, step).phases.Keys == s.phases.Keys + if step.Wait? then {} else {step.r}
  {
  }

  class Orchestrator {
    const cfg: Config
    const store: Store
    var now: int
    ghost var s: State
    ghost var past: seq<Step>

    /** The store and the clock are those of a state the protocol reaches. */
    ghost predicate Valid()
      reads this, store
    {
      IsCatalog(cfg) && Reaches(cfg, INIT, past, s) && store.entries == s.entries && now == s.now
    }

    constructor (cfg: Config)
      requires IsCatalog(cfg)
      ensures Valid() && fresh(store) && this.cfg == cfg
    {
      this.cfg, this.now, this.s, this.past := cfg, 0, INIT, [];
      this.store := new Store();
    }

    ghost method Do(step: Step)
      requires Reaches(cfg, INIT, past, s) && Enabled(cfg, s, step)
      modifies this`s, this`past
      ensures s == Apply(cfg, old(s), step) && Reaches(cfg, INIT, past, s)
      ensures s.phases.Keys == old(s.phases.Keys) + if step.Wait? then {} else {step.r}
    {
      StepAddsItsRequest(cfg, s, step);
      RunExtends(cfg, INIT, past, s, step);
      s, past := Apply(cfg, s, step), past + [step];
    }

    /** Time passes between the requests. */
    method Advance(duration: nat)
      requires Valid()
      modifies this
      ensures Valid() && now == old(now) + duration && s.log == old(s.log) && s.phases.Keys == old(s.phases.Keys)
    {
      now := now + duration;
      Do(Wait(duration));
    }

    /** The Put of an audited proposal. */
    method Propose(r: nat, actor: Actor, tool: Tool, params: Params, id: string, origin: nat) returns (reply: Reply)
      requires Valid() && id !in s.used && 0 < origin == |s.log|
      requires r in s.phases && s.phases[r] == Proposed(actor, tool, params, origin - 1)
      modifies this`s, this`past, store
      ensures Valid() && NothingRan(old(s.log), s.log) && s.phases.Keys == old(s.phases.Keys)
      ensures reply == if id == "" then Refused else ProposalStored(id)
      ensures store.entries == if id == "" then old(store.entries)
                               else Swept(old(store.entries), now)[id := NewEntry(actor, tool.id, params, now, origin)]
    {
      store.Put(actor, tool.id, params, id, now, origin);
      Do(PutPending(r, id));
      return if id == "" then Refused else ProposalStored(id);
    }

    /** auditWrite for request r: nothing is stored or run unless the audit went through. */
    method AuditWrite(r: nat, actor: Actor, tool: Tool, params: Params, auditOk: bool, id: string, origin: nat)
      returns (reply: Reply)
      requires Valid() && r in s.phases && s.phases[r] == Proposing(actor, tool, params) && id !in s.used
      requires origin == |s.log| + 1
      modifies this`s, this`past, store
      ensures Valid() && NothingRan(old(s.log), s.log) && s.phases.Keys == old(s.phases.Keys)
      ensures reply == if !auditOk then Refused
                       else if !cfg.hasPending then Called
                       else if id == "" then Refused
                       else ProposalStored(id)
      ensures reply.Called? ==> r in s.phases && s.phases[r] == Running(actor, tool, params)
      ensures store.entries == if reply.ProposalStored?
                               then Swept(old(store.entries), now)[id := NewEntry(actor, tool.id, params, now, origin)]
                               else old(store.entries)
    {
      Do(AuditProposal(r, auditOk));
      if !auditOk {
        return Refused;
      }
      if !cfg.hasPending {
        return Called;
      }
      reply := Propose(r, actor, tool, params, id, origin);
    }

    /** A handler that needs the actor's coverage answers with no rows instead of running without it. */
    predicate LacksCoverage(actor: Actor, toolId: string) {
      toolId in cfg.catalog && cfg.catalog[toolId].handler in cfg.needCoverage && |actor.coverage| == 0
    }

    /**
      What becomes of a selection: a read tool with a handler is called at once; a write needs its audit, and is
      then only proposed if there is a pending store.
     */
    function SelectionReply(toolId: string, auditOk: bool, id: string): Reply {
      if toolId !in cfg.catalog || cfg.catalog[toolId].handler !in cfg.handlers then Refused
      else if !cfg.catalog[toolId].IsWrite() then Called
      else if !auditOk then Refused
      else if !cfg.hasPending then Called
      else if id == "" then Refused
      else ProposalStored(id)
    }

    /** runHandler for request r. */
    method RunHandler(r: nat, actor: Actor, tool: Tool, params: Params)
      requires Valid() && r in s.phases && s.phases[r] == Running(actor, tool, params)
      modifies this`s, this`past
      ensures Valid() && s.entries == old(s.entries) && s.phases.Keys == old(s.phases.Keys)
      ensures s.log == if tool.handler in cfg.needCoverage && |actor.coverage| == 0 then old(s.log)
                       else old(s.log) + [Ran(r, actor, tool, params, FromSelection)]
    {
      Do(RunSelected(r));
    }

    /** ExecuteSelection for request r: a write is only ever proposed when there is a pending store. */
    method ExecuteSelection(r: nat, actor: Actor, toolId: string, params: Params, auditOk: bool, id: string,
                            origin: nat)
      returns (reply: Reply)
      requires Valid() && r !in s.phases && id !in s.used
      requires origin == |s.log| + 1 // history only
      modifies this`s, this`past, store
      ensures Valid() && s.phases.Keys == old(s.phases.Keys) + {r}
      ensures reply == SelectionReply(toolId, auditOk, id)
      ensures if reply.Called? && !LacksCoverage(actor, toolId) then
                RanOnce(old(s.log), s.log, r, cfg.catalog[toolId], params)
              else NothingRan(old(s.log), s.log)
      ensures store.entries == if reply.ProposalStored?
                               then Swept(old(store.entries), now)[id := NewEntry(actor, toolId, params, now, origin)]
                               else old(store.entries)
    {
      Do(BeginSelection(r, actor, toolId, params));
      if toolId !in cfg.catalog {
        return Refused;
      }
      var tool := cfg.catalog[toolId];
      if tool.handler !in cfg.handlers {
        return Refused;
      }
      if tool.IsWrite() {
        reply := AuditWrite(r, actor, tool, params, auditOk, id, origin);
        if !reply.Called? {
          return;
        }
      }
      ghost var before := s.log;
      RunHandler(r, actor, tool, params);
      if !LacksCoverage(actor, toolId) {
        NothingThenRun(old(s.log), before, Ran(r, actor, tool, params, FromSelection));
      }
      return Called;
    }

    /** What may follow a successful Take. */
    predicate MayExecute(actor: Actor, toolId: string, auditOk: bool) {
      && toolId in cfg.catalog && Can(actor.perms, cfg.catalog[toolId].permission)
      && cfg.catalog[toolId].handler in cfg.handlers && auditOk
    }

    /** The end of Confirm: the execution audit, and the handler if that went through. */
    method AuditAndRun(r: nat, actor: Actor, entry: Entry, tool: Tool, auditOk: bool) returns (reply: Reply)
      requires Valid() && r in s.phases && s.phases[r].Permitted?
      requires s.phases[r].actor == actor && s.phases[r].entry == entry && s.phases[r].tool == tool
      requires entry.toolId in cfg.catalog && tool == cfg.catalog[entry.toolId]
      modifies this`s, this`past
      ensures Valid() && s.entries == old(s.entries)
      ensures reply == if tool.handler in cfg.handlers && auditOk then Called else Refused
      ensures if reply.Called? then
                entry.toolId in cfg.catalog && RanOnce(old(s.log), s.log, r, cfg.catalog[entry.toolId], entry.params)
              else NothingRan(old(s.log), s.log)
    {
      Do(AuditExecution(r, auditOk));
      if tool.handler !in cfg.handlers || !auditOk {
        return Refused;
      }
      ghost var before, p := s.log, s.phases[r];
      Do(RunConfirmed(r));
      NothingThenRun(old(s.log), before, Ran(r, actor, tool, entry.params, FromConfirmation(p.checked, p.audited)));
      return Called;
    }

    /** The rest of Confirm, with the entry in hand. */
    method ExecuteTaken(r: nat, actor: Actor, entry: Entry, auditOk: bool) returns (reply: Reply)
      requires Valid() && r in s.phases && s.phases[r].Holding? && s.phases[r].actor == actor
                 && s.phases[r].entry == entry
      modifies this
      ensures Valid() && now == old(now) && s.entries == old(s.entries)
      ensures reply == if MayExecute(actor, entry.toolId, auditOk) then Called else Refused
      ensures if reply.Called? then
                entry.toolId in cfg.catalog && RanOnce(old(s.log), s.log, r, cfg.catalog[entry.toolId], entry.params)
              else NothingRan(old(s.log), s.log)
    {
      Do(CheckPermission(r));
      if entry.toolId !in cfg.catalog {
        return Refused;
      }
      var tool := cfg.catalog[entry.toolId];
      if !Can(actor.perms, tool.permission) {
        return Refused;
      }
      reply := AuditAndRun(r, actor, entry, tool, auditOk);
    }

    /** Confirm for request r: the id is spent, and the handler runs exactly when everything before it went through. */
    method Confirm(r: nat, actor: Actor, id: string, auditOk: bool) returns (reply: Reply)
      requires Valid() && r !in s.phases
      modifies this, store
      ensures Valid() && now == old(now)
      ensures store.entries == if cfg.hasPending then old(store.entries) - {id} else old(store.entries)
      ensures reply == if cfg.hasPending && CanTake(old(store.entries), actor, id, now)
                          && MayExecute(actor, old(store.entries)[id].toolId, auditOk) then Called else Refused
      ensures if reply.Called? then
                var e := old(store.entries)[id]; RanOnce(old(s.log), s.log, r, cfg.catalog[e.toolId], e.params)
              else NothingRan(old(s.log), s.log)
    {
      Do(BeginConfirm(r, actor, id));
      if !cfg.hasPending {
        return Refused;
      }
      var entry := store.Take(actor, id, now);
      Do(TakePending(r));
      if entry.None? {
        return Refused;
      }
      reply := ExecuteTaken(r, actor, entry.value, auditOk);
    }

    /**
      A proposal and, some time later, somebody's confirmation: the handler runs exactly if it is the same user of the
      same company, no more than ten minutes have passed, and permission, handler and audit are in order; it runs once
      and with the proposed parameters.  Whatever comes of it, the id is spent.
     */
    method ProposeThenConfirm(proposer: Actor, confirmer: Actor, toolId: string, params: Params, id: string,
                              origin: nat, requests: (nat, nat), duration: nat, audits: (bool, bool))
      returns (proposed: Reply, confirmed: Reply)
      requires Valid() && requests.0 !in s.phases && requests.1 !in s.phases && requests.0 != requests.1
      requires id !in s.used && origin == |s.log| + 1
      modifies this, store
      ensures Valid() && proposed == SelectionReply(toolId, audits.0, id)
      ensures proposed.ProposalStored? ==>
                && confirmed == (if && confirmer.companyId == proposer.companyId && confirmer.userId == proposer.userId
                                    && duration <= 600_000_000_000 && MayExecute(confirmer, toolId, audits.1)
                                 then Called else Refused)
                && id !in store.entries
      ensures proposed.ProposalStored? ==>
                if confirmed.Called? then
                  toolId in cfg.catalog && RanOnce(old(s.log), s.log, requests.1, cfg.catalog[toolId], params)
                else NothingRan(old(s.log), s.log)
    {
      proposed := ExecuteSelection(requests.0, proposer, toolId, params, audits.0, id, origin);
      ghost var between := s.log;
      Advance(duration);
      confirmed := Confirm(requests.1, confirmer, id, audits.1);
      if proposed.ProposalStored? && confirmed.Called? {
        NothingThenRanOnce(old(s.log), between, s.log, requests.1, cfg.catalog[toolId], params);
      }
    }
  }
}
