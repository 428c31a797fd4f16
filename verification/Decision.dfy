/**
  The auto-send gate: internal/ai/rag/pipeline_decision.go, pipeline_generate.go, and what a cached
  result does to it, pipeline_plan.go.  Relevance check, generator, critic and budget answer through oracles.
 */
module Decision {
  import opened Common
  import opened Ranking
  import Text

  datatype Decision = Auto | Draft | Escalate

  function Rank(d: Decision): nat {
    match d case Auto => 2 case Draft => 1 case Escalate => 0
  }

  datatype CragVerdict = Relevant | Partial | Irrelevant | Unknown

  datatype Crag = Crag(verdict: CragVerdict, confidence: real, graded: bool)

  datatype Critique = Critique(supported: bool, send: bool)

  datatype Error = Failure

  // ---------------------------------------------------------------- confidence and first decision

  function Clamp01(x: real): (r: real)
    ensures 0.0 <= r <= 1.0 && (0.0 <= x <= 1.0 ==> r == x)
  {
    if x < 0.0 then 0.0 else if x > 1.0 then 1.0 else x
  }

  function ComputeConfidence(crag: Crag, candidates: seq<Candidate>): (r: real)
    ensures 0.0 <= r <= 1.0
    ensures r > 0.0 ==> candidates != []
    ensures candidates != [] && crag.confidence > 0.0 ==> r == if crag.confidence > 1.0 then 1.0 else crag.confidence
  {
    if candidates == [] then 0.0
    else if crag.confidence > 0.0 then Clamp01(crag.confidence)
    else match crag.verdict
      case Relevant => 0.9
      case Partial => 0.7
      case _ => 0.0
  }

  function RouteDecision(confidence: real, threshold: real): Decision {
    if confidence >= threshold then Auto else if confidence >= 0.60 then Draft else Escalate
  }

  function DecisionFor(confidence: real, threshold: real, graded: bool): (d: Decision)
    ensures d == Auto <==> confidence >= threshold && graded
    ensures d == Escalate <==> confidence < threshold && confidence < 0.60
  {
    if RouteDecision(confidence, threshold) == Auto && !graded then Draft else RouteDecision(confidence, threshold)
  }

  /**
    A verdict without a score of its own: a relevant one sends up to a threshold of 0.9 and a partial one up to 0.7,
    if it was graded, and neither is ever handed off; any other sends for no positive threshold and is handed off.
   */
  lemma UnscoredVerdicts(crag: Crag, candidates: seq<Candidate>, threshold: real)
    requires crag.confidence <= 0.0 && candidates != []
    ensures var d := DecisionFor(ComputeConfidence(crag, candidates), threshold, crag.graded);
            && (crag.verdict == Relevant ==> d == if threshold <= 0.9 && crag.graded then Auto else Draft)
            && (crag.verdict == Partial ==> d == if threshold <= 0.7 && crag.graded then Auto else Draft)
            && (crag.verdict in {Irrelevant, Unknown} && threshold > 0.0 ==> d == Escalate)
  {
  }

  // ---------------------------------------------------------------- the pipeline's state

  /** What the outside gives one run.  None: no such component.  The budget's grants are per stage. */
  datatype World = World(cragGranted: bool, grade: Result<Crag, Error>, threshold: real,
                         generateGranted: bool, generator: Option<Result<string, Error>>,
                         criticGranted: bool, critic: Option<Result<Critique, Error>>)

  /** The critique of a draft: an absent critic supports it, a failing one does not. */
  function CritiqueOf(w: World): (c: Critique)
    ensures c.send <==> w.critic.None? || (w.critic.value.Ok? && w.critic.value.value.send)
    ensures c.supported <==> w.critic.None? || (w.critic.value.Ok? && w.critic.value.value.supported)
  {
    match w.critic
    case None => Critique(true, true)
    case Some(Ok(c)) => c
    case Some(Err(_)) => Critique(false, false)
  }

  /** The generator is asked only for a decision, a verdict and candidates worth a draft; a failing one leaves none. */
  function DraftOf(w: World, decision: Decision, verdict: CragVerdict, candidates: seq<Candidate>): string {
    if w.generator.Some? && decision != Escalate && verdict != Irrelevant && candidates != [] && w.generateGranted
       && w.generator.value.Ok?
    then w.generator.value.value
    else ""
  }

  class State {
    const fast: bool
    const candidates: seq<Candidate>
    var crag: Crag
    var verdict: CragVerdict
    var confidence: real
    var threshold: real
    var decision: Decision
    var draft: string
    var critique: Critique
    var criticRan: bool

    constructor (fast: bool, candidates: seq<Candidate>)
      ensures this.fast == fast && this.candidates == candidates && draft == "" && !criticRan
    {
      this.fast, this.candidates := fast, candidates;
      crag, verdict, confidence, threshold := Crag(Irrelevant, 0.0, false), Irrelevant, 0.0, 0.0;
      decision, draft, critique, criticRan := Escalate, "", Critique(false, false), false;
    }

    /** What evaluate leaves behind. */
    ghost predicate Evaluated()
      reads this
    {
      && verdict == crag.verdict && confidence == ComputeConfidence(crag, candidates)
      && draft == "" && !criticRan
      && (decision == Auto <==> crag.graded && confidence >= threshold)
      && (decision == Escalate <==> confidence < threshold && confidence < 0.60)
    }

    method Evaluate(w: World) returns (ok: bool)
      requires draft == "" && !criticRan
      modifies this
      ensures ok <==> ((fast && candidates == []) || !w.cragGranted || w.grade.Ok?)
      ensures ok ==> Evaluated() && threshold == w.threshold
      ensures ok ==>
                crag == if (!fast || candidates != []) && w.cragGranted then w.grade.value
                        else Crag(Irrelevant, 0.0, false)
    {
      crag := Crag(Irrelevant, 0.0, false);
      if (!fast || |candidates| > 0) && w.cragGranted {
        if w.grade.Err? {
          return false;
        }
        crag := w.grade.value;
      }
      verdict := crag.verdict;
      confidence := ComputeConfidence(crag, candidates);
      threshold := w.threshold;
      decision := DecisionFor(confidence, threshold, crag.graded);
      ok := true;
    }

    /** Everything that has to hold for an answer to be sent without a person. */
    ghost predicate Gate(w: World)
      reads this
    {
      && crag.graded && confidence >= threshold
      && candidates != [] && verdict != Irrelevant && !Text.Blank(draft)
      && (fast || (w.criticGranted && criticRan && critique.send && critique == CritiqueOf(w)))
    }

    /** generate: it ends in auto exactly when the gate is passed, and never raises the decision. */
    method Generate(w: World)
      requires Evaluated()
      modifies this`draft, this`critique, this`criticRan, this`decision
      ensures decision == Auto <==> Gate(w)
      ensures Rank(decision) <= Rank(old(decision))
      ensures draft != "" ==> candidates != [] && verdict != Irrelevant && old(decision) != Escalate
                              && w.generateGranted && w.generator == Some(Ok(draft))
      ensures decision != old(decision) ==> old(decision) == Auto
      ensures decision == Escalate && old(decision) == Auto ==> Text.Blank(draft)
      ensures decision == Draft && old(decision) == Auto ==>
                !Text.Blank(draft) && !fast && !(w.criticGranted && CritiqueOf(w).send)
      ensures draft == DraftOf(w, old(decision), verdict, candidates)
      ensures w.generator.Some? && w.generator.value.Ok? && w.generateGranted ==>
                candidates != [] && verdict != Irrelevant && old(decision) != Escalate ==>
                  draft == w.generator.value.value
      ensures criticRan <==> !fast && old(decision) == Auto && !Text.Blank(draft) && w.criticGranted
      ensures critique == if criticRan then CritiqueOf(w) else Critique(true, true)
    {
      if WillGenerate(w) && w.generateGranted {
        match w.generator.value
        case Ok(text) => draft := text;
        case Err(_) => draft := "";
      }
      Text.BlankIsTrimmed(draft);
      critique := Critique(true, true);
      if !fast && decision == Auto && Text.TrimSpace(draft) != "" {
        if w.criticGranted {
          criticRan := true;
          critique := CritiqueOf(w);
          if !critique.send && decision == Auto {
            decision := Draft;
          }
        } else {
          decision := Draft;
        }
      }
      if decision == Auto && Text.TrimSpace(draft) == "" {
        decision := Escalate;
      }
    }

    /** willGenerate */
    predicate WillGenerate(w: World)
      reads this
    {
      w.generator.Some? && decision != Escalate && verdict != Irrelevant && |candidates| > 0
    }
  }

  // ---------------------------------------------------------------- cached results

  /** The parts of a result that are stored and matter to the decision. */
  datatype Stored = Stored(fast: bool, candidates: seq<Candidate>, crag: Crag, confidence: real, decision: Decision,
                           draft: string, critique: Critique)

  /** Would the critic, with the budget's leave, have let this draft go? */
  predicate CriticAgrees(w: World, s: Stored) {
    s.fast || (w.criticGranted && CritiqueOf(w).send)
  }

  /** What a fresh run's result satisfies. */
  predicate IsFresh(w: World, s: Stored) {
    && s.confidence == ComputeConfidence(s.crag, s.candidates)
    && (s.draft != "" ==> s.candidates != [] && s.crag.verdict != Irrelevant)
    && s.decision == FreshDecision(w, s)
    && (s.decision == Auto && !s.fast ==> s.critique == CritiqueOf(w))
  }

  /** The decision as a function of the evidence: sent only past the gate, handed off when there is nothing to send. */
  function FreshDecision(w: World, s: Stored): Decision {
    var first := DecisionFor(s.confidence, w.threshold, s.crag.graded);
    if first != Auto then first
    else if Text.Blank(s.draft) then Escalate
    else if CriticAgrees(w, s) then Auto
    else Draft
  }

  /** A whole run past the cache as a function of what the outside gave it: what it stores, or None if it failed. */
  function FreshResult(fast: bool, candidates: seq<Candidate>, w: World): Option<Stored> {
    var asked := (!fast || candidates != []) && w.cragGranted;
    if asked && w.grade.Err? then None
    else
      var crag := if asked then w.grade.value else Crag(Irrelevant, 0.0, false);
      var confidence := ComputeConfidence(crag, candidates);
      var first := DecisionFor(confidence, w.threshold, crag.graded);
      var draft := DraftOf(w, first, crag.verdict, candidates);
      var criticRan := !fast && first == Auto && !Text.Blank(draft) && w.criticGranted;
      var s := Stored(fast, candidates, crag, confidence, first, draft,
                      if criticRan then CritiqueOf(w) else Critique(true, true));
      Some(s.(decision := FreshDecision(w, s)))
  }

  method RunFresh(fast: bool, candidates: seq<Candidate>, w: World) returns (r: Option<Stored>)
    ensures r == FreshResult(fast, candidates, w)
    ensures r.Some? ==> IsFresh(w, r.value)
  {
    var s := new State(fast, candidates);
    var ok := s.Evaluate(w);
    if !ok {
      return None;
    }
    s.Generate(w);
    r := Some(Stored(fast, candidates, s.crag, s.confidence, s.decision, s.draft, s.critique));
    StoredIsFresh(fast, candidates, w);
  }

  /** What every stored result satisfies. */
  lemma StoredIsFresh(fast: bool, candidates: seq<Candidate>, w: World)
    requires FreshResult(fast, candidates, w).Some?
    ensures IsFresh(w, FreshResult(fast, candidates, w).value)
  {
  }

  /** What the outside has to give a run for its answer to be sent without a person. */
  predicate Sends(fast: bool, candidates: seq<Candidate>, w: World) {
    && w.cragGranted && w.grade.Ok? && w.grade.value.graded
    && w.threshold <= ComputeConfidence(w.grade.value, candidates)
    && (if candidates != [] && w.grade.value.verdict != Irrelevant && w.generateGranted && w.generator.Some?
           && w.generator.value.Ok? then !Text.Blank(w.generator.value.value) else false)
    && (fast || (w.criticGranted && (w.critic.None? || (w.critic.value.Ok? && w.critic.value.value.send))))
  }

  lemma NoDraftIsBlank(s: string)
    requires s == ""
    ensures Text.Blank(s)
  {
  }

  /** It is sent exactly then, and handed off exactly for want of confidence or of a draft. */
  lemma SentExactly(fast: bool, candidates: seq<Candidate>, w: World)
    requires FreshResult(fast, candidates, w).Some?
    ensures var s := FreshResult(fast, candidates, w).value;
            && (s.decision == Auto <==> Sends(fast, candidates, w))
            && (s.decision == Escalate <==> if s.confidence < w.threshold then s.confidence < 0.60
                                            else s.crag.graded && Text.Blank(s.draft))
  {
    NoDraftIsBlank("");
  }

  /** cachedResult: decided anew from the stored confidence and draft, under the threshold of the day. */
  method DecideCached(s: Stored, threshold: real) returns (d: Decision)
    ensures d == CachedDecision(s, threshold)
  {
    d := DecisionFor(s.confidence, threshold, s.crag.graded);
    Text.BlankIsTrimmed(s.draft);
    if d == Auto && Text.TrimSpace(s.draft) == "" {
      d := Escalate;
    }
  }

  function CachedDecision(s: Stored, threshold: real): Decision {
    var d := DecisionFor(s.confidence, threshold, s.crag.graded);
    if d == Auto && Text.Blank(s.draft) then Escalate else d
  }

  /**
    A hit that sends still stands on graded evidence, the threshold, candidates, relevance and a draft; nothing about
    a critic.
   */
  lemma CachedAutoMeans(w: World, s: Stored, threshold: real)
    requires IsFresh(w, s)
    ensures CachedDecision(s, threshold) == Auto <==> s.crag.graded && s.confidence >= threshold && !Text.Blank(s.draft)
    ensures CachedDecision(s, threshold) == Auto ==> s.candidates != [] && s.crag.verdict != Irrelevant
    ensures CachedDecision(s, threshold) == Escalate
       <==> if s.confidence < threshold then s.confidence < 0.60 else s.crag.graded && Text.Blank(s.draft)
  {
    if s.draft == "" {
      assert Text.Blank(s.draft);
    }
  }

  /**
    Under the same threshold a hit repeats the run's decision exactly unless only the critic, or its budget, stood in
    the way.
   */
  lemma HitRepeatsTheRun(w: World, s: Stored)
    requires IsFresh(w, s)
    ensures CachedDecision(s, w.threshold) == s.decision
       <==> CriticAgrees(w, s) || !s.crag.graded || s.confidence < w.threshold || Text.Blank(s.draft)
  {
  }

  /** A draft the critic refused to send is kept for review by the run and sent by the next hit. */
  lemma HitOverridesTheCritic(c: Candidate) returns (w: World, s: Stored)
    ensures FreshResult(false, [c], w) == Some(s) && w.critic == Some(Ok(Critique(false, false)))
    ensures s.critique == Critique(false, false) && s.decision == Draft
    ensures CachedDecision(s, w.threshold) == Auto
  {
    var crag := Crag(Relevant, 0.95, true);
    w := World(true, Ok(crag), 0.8, true, Some(Ok("x")), true, Some(Ok(Critique(false, false))));
    s := Stored(false, [c], crag, 0.95, Draft, "x", Critique(false, false));
    assert !Text.IsSpace(s.draft[0]);
  }
}
