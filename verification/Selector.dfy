/**
  Choosing a tool for a text: internal/application/tools/selector.go.  Scores are reals; similarities and parameter
  lookups are oracles.
 */
module Selector {
  import opened Common
  import opened Perms

  // ---------------------------------------------------------------- thresholds

  datatype Kind = Read | RetrievalKind | Write | OtherKind

  /** thresholdsFor, from the configured accept and floor. */
  function ThresholdsFor(kind: Kind, accept: real, floor: real): (r: (real, real))
    ensures 0.0 < r.1 <= r.0
    ensures accept > 0.0 ==> r.0 == accept
    ensures accept > 0.0 && 0.0 < floor <= accept ==> r.1 == floor
    ensures accept <= 0.0 ==> r.0 == if kind == Write then 0.62 else 0.55
    ensures floor <= 0.0 ==> r.1 == if r.0 < 0.35 then r.0 else 0.35
    ensures floor > r.0 ==> r.1 == r.0
  {
    var a := if accept > 0.0 then accept else if kind == Write then 0.62 else 0.55;
    var f := if floor > 0.0 then floor else 0.35;
    (a, if f > a then a else f)
  }

  // ---------------------------------------------------------------- tools and candidates

  /** What extracting the parameters of a tool from the text finds. */
  datatype Extract = Extract(params: map<string, string>, satisfied: bool, missing: seq<string>, specificity: int,
                             entities: int)

  datatype Error = LookupFailed

  /**
    A tool as the query meets it: the similarity of each anchor, whether the router's intent is its own, the lookup.
   */
  datatype Tool = Tool(id: string, perm: string, accept: real, floor: real, dots: seq<real>, intended: bool,
                       lookup: Result<Extract, Error>)

  datatype Selection = Selection(toolID: string, score: real, runnerUp: real, matched: bool,
                                 params: map<string, string>, specificity: int, entities: int,
                                 permFiltered: bool, missing: seq<string>, marginRejected: bool)

  const NOTHING := Selection("", 0.0, 0.0, false, map[], 0, 0, false, [], false)

  function Similarity(dots: seq<real>): (r: real)
    ensures r >= 0.0
  {
    if dots == [] then 0.0
    else
      var best := Similarity(dots[..|dots| - 1]);
      if dots[|dots| - 1] > best then dots[|dots| - 1] else best
  }

  /** The greatest similarity, never below zero. */
  lemma {:induction false} SimilarityIsGreatest(dots: seq<real>)
    ensures forall i | 0 <= i < |dots| :: dots[i] <= Similarity(dots)
    ensures Similarity(dots) == 0.0 || Similarity(dots) in dots
  {
    if dots != [] {
      SimilarityIsGreatest(dots[..|dots| - 1]);
    }
  }

  function Score(t: Tool): (r: real)
    ensures r >= 0.0
  {
    Similarity(t.dots) + if t.intended then 0.05 else 0.0
  }

  /** The tool's parameters are looked up. */
  predicate Near(t: Tool) {
    Score(t) >= t.floor
  }

  function Evidence(t: Tool): real
    requires t.lookup.Ok?
  {
    var x := t.lookup.value;
    Score(t) + 0.145 * x.entities as real + 0.05 * (x.specificity - x.entities) as real
  }

  predicate Accepted(t: Tool) {
    Near(t) && t.lookup.Ok? && t.lookup.value.satisfied && Evidence(t) >= t.accept
  }

  predicate LacksParams(t: Tool) {
    Near(t) && t.lookup.Ok? && !t.lookup.value.satisfied && Score(t) >= t.accept
  }

  function Matched(t: Tool): Selection
    requires Accepted(t)
  {
    var x := t.lookup.value;
    NOTHING.(toolID := t.id, score := Score(t), matched := true, params := x.params,
             specificity := x.specificity, entities := x.entities)
  }

  function Missed(t: Tool): Selection {
    NOTHING.(toolID := t.id, score := Score(t))
  }

  function Lacking(t: Tool): Selection
    requires t.lookup.Ok?
  {
    Missed(t).(params := t.lookup.value.params, missing := t.lookup.value.missing)
  }

  const SPECIFICITY_MARGIN := 0.05

  predicate PreferOver(cand: Selection, best: Selection) {
    if !best.matched then true
    else if cand.entities != best.entities then cand.entities > best.entities
    else if cand.specificity > best.specificity then cand.score >= best.score - SPECIFICITY_MARGIN
    else if cand.specificity < best.specificity then cand.score - SPECIFICITY_MARGIN > best.score
    else cand.score > best.score
  }

  // ---------------------------------------------------------------- the specification

  /** The tools the caller may use, in order. */
  function Permitted(ts: seq<Tool>, granted: seq<string>): seq<Tool> {
    if ts == [] then []
    else
      var last := ts[|ts| - 1];
      Permitted(ts[..|ts| - 1], granted) + if Can(granted, last.perm) then [last] else []
  }

  /** The accepted tool that survives every comparison in order. */
  function Winner(ts: seq<Tool>): Selection {
    if ts == [] then NOTHING
    else
      var t, best := ts[|ts| - 1], Winner(ts[..|ts| - 1]);
      if Accepted(t) && PreferOver(Matched(t), best) then Matched(t) else best
  }

  /** The first tool of the highest positive score. */
  function NearMiss(ts: seq<Tool>): Selection {
    if ts == [] then NOTHING
    else
      var t, best := ts[|ts| - 1], NearMiss(ts[..|ts| - 1]);
      if Score(t) > best.score then Missed(t) else best
  }

  /** The first of the highest score among those that would do but for their parameters. */
  function NeedsParams(ts: seq<Tool>): Selection {
    if ts == [] then NOTHING
    else
      var t, best := ts[|ts| - 1], NeedsParams(ts[..|ts| - 1]);
      if LacksParams(t) && Score(t) > best.score then Lacking(t) else best
  }

  predicate LookupsWork(ts: seq<Tool>) {
    forall i | 0 <= i < |ts| && Near(ts[i]) :: ts[i].lookup.Ok?
  }

  /** a is the greatest score and b the greatest of the others, or zero. */
  ghost predicate TwoLargest(ts: seq<Tool>, a: real, b: real) {
    && a >= b >= 0.0
    && (ts == [] ==> a == 0.0) && (|ts| < 2 ==> b == 0.0)
    && (ts != [] ==> exists m {:trigger ts[m]} | 0 <= m < |ts| :: Score(ts[m]) == a && SecondTo(ts, m, b))
    && forall i | 0 <= i < |ts| :: Score(ts[i]) <= a
  }

  /** b is the greatest score but for the m-th tool's. */
  ghost predicate SecondTo(ts: seq<Tool>, m: nat, b: real) {
    && (forall i | 0 <= i < |ts| && i != m :: Score(ts[i]) <= b)
    && (b > 0.0 ==> exists i | 0 <= i < |ts| && i != m :: Score(ts[i]) == b)
  }

  /** What Select answers for the permitted tools; `second` is the second largest score. */
  function Answer(margin: real, ts: seq<Tool>, second: real, blocked: bool): Selection {
    var runnerUp := if |ts| >= 2 then second else 0.0;
    var best := Winner(ts);
    if !best.matched then
      if NeedsParams(ts).toolID != "" then NeedsParams(ts).(permFiltered := blocked, runnerUp := runnerUp)
      else NearMiss(ts).(permFiltered := blocked, runnerUp := runnerUp)
    else if margin > 0.0 && |ts| >= 2 && best.score - runnerUp < margin then
      NOTHING.(toolID := best.toolID, score := best.score, runnerUp := runnerUp, marginRejected := true,
               permFiltered := blocked)
    else best.(runnerUp := runnerUp)
  }

  // ---------------------------------------------------------------- the loop

  lemma PermittedOneMore(ts: seq<Tool>, t: Tool, granted: seq<string>)
    ensures Permitted(ts + [t], granted) == Permitted(ts, granted) + if Can(granted, t.perm) then [t] else []
  {
    assert (ts + [t])[..|ts|] == ts;
  }

  lemma {:induction false} PermittedOfMore(ts: seq<Tool>, more: seq<Tool>, granted: seq<string>)
    returns (rest: seq<Tool>)
    ensures Permitted(ts + more, granted) == Permitted(ts, granted) + rest
    decreases |more|
  {
    rest := [];
    if more == [] {
      assert ts + more == ts;
    } else {
      rest := PermittedOfMore(ts + [more[0]], more[1..], granted);
      PermittedOneMore(ts, more[0], granted);
      assert ts + more == ts + [more[0]] + more[1..];
      rest := (if Can(granted, more[0].perm) then [more[0]] else []) + rest;
    }
  }

  /** The three selections a scan carries. */
  datatype Tally = Tally(best: Selection, nearMiss: Selection, needsParams: Selection)

  function TallyOf(ts: seq<Tool>): Tally {
    Tally(Winner(ts), NearMiss(ts), NeedsParams(ts))
  }

  function Weighed(t: Tool, y: Tally): Tally {
    Tally(if Accepted(t) && PreferOver(Matched(t), y.best) then Matched(t) else y.best,
          if Score(t) > y.nearMiss.score then Missed(t) else y.nearMiss,
          if LacksParams(t) && Score(t) > y.needsParams.score then Lacking(t) else y.needsParams)
  }

  lemma TallyOneMore(ts: seq<Tool>, t: Tool)
    ensures TallyOf(ts + [t]) == Weighed(t, TallyOf(ts))
  {
    assert (ts + [t])[..|ts|] == ts;
  }

  lemma OneMoreScore(ts: seq<Tool>, t: Tool, a: real, b: real)
    requires TwoLargest(ts, a, b)
    ensures var s := Score(t);
            TwoLargest(ts + [t], if s > a then s else a, if s > a then a else if s > b then s else b)
  {
    var s, all := Score(t), ts + [t];
    if ts == [] {
      assert Score(all[0]) == s && SecondTo(all, 0, 0.0);
    } else {
      var m :| 0 <= m < |ts| && Score(ts[m]) == a && SecondTo(ts, m, b);
      assert all[m] == ts[m] && all[|ts|] == t;
      if s > a {
        assert SecondTo(all, |ts|, a);
      } else if s > b {
        assert SecondTo(all, m, s);
      } else {
        SecondStays(ts, t, m, b);
      }
    }
  }

  lemma SecondStays(ts: seq<Tool>, t: Tool, m: nat, b: real)
    requires m < |ts| && SecondTo(ts, m, b) && Score(t) <= b
    ensures SecondTo(ts + [t], m, b)
  {
    if b > 0.0 {
      var i :| 0 <= i < |ts| && i != m && Score(ts[i]) == b;
      assert (ts + [t])[i] == ts[i];
    }
  }

  /** What one permitted tool of that score does to the tally. */
  method Weigh(t: Tool, score: real, y: Tally) returns (r: Result<Tally, Error>)
    requires score == Score(t)
    ensures r.Ok? <==> Near(t) ==> t.lookup.Ok?
    ensures r.Ok? ==> r.value == Weighed(t, y)
  {
    var next := y;
    if score > next.nearMiss.score {
      next := next.(nearMiss := Missed(t));
    }
    if score < t.floor {
      return Ok(next);
    }
    if t.lookup.Err? {
      return Err(t.lookup.error);
    }
    var x := t.lookup.value;
    if !x.satisfied {
      if score >= t.accept && score > next.needsParams.score {
        next := next.(needsParams := Lacking(t));
      }
      return Ok(next);
    }
    var evidence := score + 0.145 * x.entities as real + 0.05 * (x.specificity - x.entities) as real;
    if evidence < t.accept {
      return Ok(next);
    }
    var cand := Matched(t);
    if PreferOver(cand, next.best) {
      next := next.(best := cand);
    }
    r := Ok(next);
  }

  /** What the scan knows after the permitted tools `seen`. */
  ghost predicate Scanned(seen: seq<Tool>, top1: real, top2: real, y: Tally) {
    TwoLargest(seen, top1, top2) && LookupsWork(seen) && y == TallyOf(seen)
  }

  lemma ScannedOneMore(seen: seq<Tool>, top1: real, top2: real, y: Tally, t: Tool)
    requires Scanned(seen, top1, top2, y) && (Near(t) ==> t.lookup.Ok?)
    ensures var s := Score(t);
            Scanned(seen + [t], if s > top1 then s else top1,
                    if s > top1 then top1 else if s > top2 then s else top2, Weighed(t, y))
  {
    OneMoreScore(seen, t, top1, top2);
    TallyOneMore(seen, t);
  }

  lemma PermittedAt(ts: seq<Tool>, granted: seq<string>, i: nat)
    requires i < |ts|
    ensures Permitted(ts[..i + 1], granted)
            == Permitted(ts[..i], granted) + if Can(granted, ts[i].perm) then [ts[i]] else []
  {
    PermittedOneMore(ts[..i], ts[i], granted);
    assert ts[..i + 1] == ts[..i] + [ts[i]];
  }

  /** The scan of Select over the tools, for a query whose vector has the anchors' dimension. */
  method Select(margin: real, ts: seq<Tool>, granted: seq<string>)
    returns (r: Result<Selection, Error>, ghost second: real)
    ensures r.Ok? <==> LookupsWork(Permitted(ts, granted))
    ensures r.Ok? ==>
              && (exists top :: TwoLargest(Permitted(ts, granted), top, second))
              && r.value == Answer(margin, Permitted(ts, granted), second, |Permitted(ts, granted)| < |ts|)
  {
    var y := Tally(NOTHING, NOTHING, NOTHING);
    var passed, blocked := 0, 0;
    var top1, top2 := 0.0, 0.0;
    second := 0.0;
    ghost var seen: seq<Tool> := [];
    for i := 0 to |ts|
      invariant seen == Permitted(ts[..i], granted)
      invariant passed == |seen| && blocked == i - |seen|
      invariant Scanned(seen, top1, top2, y)
    {
      var t := ts[i];
      PermittedAt(ts, granted, i);
      ghost var next := Permitted(ts[..i + 1], granted);
      if !Can(granted, t.perm) {
        assert next == seen;
        blocked := blocked + 1;
        continue;
      }
      passed := passed + 1;
      var score := BestSimilarity(t.dots);
      if t.intended {
        score := score + 0.05;
      }
      var weighed := Weigh(t, score, y);
      if weighed.Err? {
        FailingLookup(ts, granted, i);
        return Err(weighed.error), second;
      }
      ScannedOneMore(seen, top1, top2, y, t);
      if score > top1 {
        top1, top2 := score, top1;
      } else if score > top2 {
        top2 := score;
      }
      y := weighed.value;
      assert next == seen + [t];
      seen := next;
    }
    assert ts[..|ts|] == ts;
    second := top2;
    r := Ok(Conclude(margin, y, passed, blocked, top2));
  }

  /** The end of Select. */
  function Conclude(margin: real, y: Tally, passed: nat, blocked: int, top2: real): (r: Selection)
    ensures forall ts | y == TallyOf(ts) && passed == |ts| :: r == Answer(margin, ts, top2, blocked > 0)
  {
    var runnerUp := if passed >= 2 then top2 else 0.0;
    if !y.best.matched then
      if y.needsParams.toolID != "" then y.needsParams.(permFiltered := blocked > 0, runnerUp := runnerUp)
      else y.nearMiss.(permFiltered := blocked > 0, runnerUp := runnerUp)
    else if margin > 0.0 && passed >= 2 && y.best.score - runnerUp < margin then
      NOTHING.(toolID := y.best.toolID, score := y.best.score, runnerUp := runnerUp, marginRejected := true,
               permFiltered := blocked > 0)
    else y.best.(runnerUp := runnerUp)
  }

  method BestSimilarity(dots: seq<real>) returns (score: real)
    ensures score == Similarity(dots)
  {
    score := 0.0;
    for i := 0 to |dots|
      invariant score == Similarity(dots[..i])
    {
      assert dots[..i + 1][..i] == dots[..i];
      if dots[i] > score {
        score := dots[i];
      }
    }
    assert dots[..|dots|] == dots;
  }

  lemma FailingLookup(ts: seq<Tool>, granted: seq<string>, i: nat)
    requires i < |ts| && Can(granted, ts[i].perm) && Near(ts[i]) && ts[i].lookup.Err?
    ensures !LookupsWork(Permitted(ts, granted))
  {
    PermittedOneMore(ts[..i], ts[i], granted);
    var rest := PermittedOfMore(ts[..i] + [ts[i]], ts[i + 1..], granted);
    assert ts == ts[..i] + [ts[i]] + ts[i + 1..];
    var all, before := Permitted(ts, granted), Permitted(ts[..i], granted);
    assert all == before + [ts[i]] + rest;
    assert all[|before|] == ts[i];
  }

  // ---------------------------------------------------------------- what the answer guarantees

  /** The winner is an accepted tool, there is one whenever a tool is accepted, and none accepted has more entities. */
  lemma {:induction false} WinnerHasMostEntities(ts: seq<Tool>)
    ensures Winner(ts).matched <==> exists i | 0 <= i < |ts| :: Accepted(ts[i])
    ensures Winner(ts).matched ==> exists i | 0 <= i < |ts| :: Accepted(ts[i]) && Winner(ts) == Matched(ts[i])
    ensures forall i | 0 <= i < |ts| && Accepted(ts[i]) :: ts[i].lookup.value.entities <= Winner(ts).entities
    ensures !Winner(ts).matched ==> Winner(ts) == NOTHING
  {
    if ts != [] {
      var n := |ts| - 1;
      WinnerHasMostEntities(ts[..n]);
      assert forall i | 0 <= i < n :: ts[..n][i] == ts[i];
    }
  }

  /** Of some tools, the first with the highest score. */
  ghost predicate FirstOfHighest(ts: seq<Tool>, among: Tool -> bool, k: nat) {
    && k < |ts| && among(ts[k])
    && (forall i | 0 <= i < k && among(ts[i]) :: Score(ts[i]) < Score(ts[k]))
    && (forall i | k < i < |ts| && among(ts[i]) :: Score(ts[i]) <= Score(ts[k]))
  }

  ghost predicate NoScore(ts: seq<Tool>, among: Tool -> bool) {
    forall i | 0 <= i < |ts| && among(ts[i]) :: Score(ts[i]) == 0.0
  }

  lemma OneMoreTool(ts: seq<Tool>, among: Tool -> bool, k: nat)
    requires ts != []
    ensures var n := |ts| - 1;
            && (FirstOfHighest(ts[..n], among, k) && (among(ts[n]) ==> Score(ts[n]) <= Score(ts[k])) ==>
                  FirstOfHighest(ts, among, k))
            && (FirstOfHighest(ts[..n], among, k) && among(ts[n]) && Score(ts[n]) > Score(ts[k]) ==>
                  FirstOfHighest(ts, among, n))
            && (NoScore(ts[..n], among) && among(ts[n]) && Score(ts[n]) > 0.0 ==> FirstOfHighest(ts, among, n))
            && (NoScore(ts[..n], among) && (among(ts[n]) ==> Score(ts[n]) == 0.0) ==> NoScore(ts, among))
  {
    var n := |ts| - 1;
    var front := ts[..n];
    assert forall i | 0 <= i < n :: front[i] == ts[i];
  }

  /** The near miss is the first tool of the highest score, if any scores at all, by name and score only. */
  ghost predicate IsNearMiss(ts: seq<Tool>, k: nat, s: Selection) {
    if NoScore(ts, _ => true) then s == NOTHING
    else FirstOfHighest(ts, _ => true, k) && Score(ts[k]) > 0.0
         && s == NOTHING.(toolID := ts[k].id, score := Score(ts[k]))
  }

  lemma {:induction false} NearMissIsHighest(ts: seq<Tool>) returns (k: nat)
    ensures IsNearMiss(ts, k, NearMiss(ts))
  {
    k := 0;
    if ts != [] {
      var n := |ts| - 1;
      var before := NearMiss(ts[..n]);
      k := NearMissIsHighest(ts[..n]);
      OneMoreTool(ts, _ => true, k);
      if Score(ts[n]) > before.score {
        k := n;
      }
    }
  }

  /**
    Failing an accepted tool, parameters are asked for the first tool of the highest score among those near enough
    whose lookup left some open.
   */
  ghost predicate IsNeedsParams(ts: seq<Tool>, k: nat, s: Selection) {
    if NoScore(ts, t => LacksParams(t)) then s == NOTHING
    else
      && FirstOfHighest(ts, t => LacksParams(t), k) && Score(ts[k]) > 0.0
      && ts[k].lookup.Ok? && !ts[k].lookup.value.satisfied
      && Score(ts[k]) >= ts[k].accept && Score(ts[k]) >= ts[k].floor
      && s == NOTHING.(toolID := ts[k].id, score := Score(ts[k]), params := ts[k].lookup.value.params,
                       missing := ts[k].lookup.value.missing)
  }

  lemma {:induction false} NeedsParamsIsHighest(ts: seq<Tool>) returns (k: nat)
    ensures IsNeedsParams(ts, k, NeedsParams(ts))
  {
    k := 0;
    if ts != [] {
      var n := |ts| - 1;
      var before := NeedsParams(ts[..n]);
      k := NeedsParamsIsHighest(ts[..n]);
      OneMoreTool(ts, t => LacksParams(t), k);
      if LacksParams(ts[n]) && Score(ts[n]) > before.score {
        k := n;
      }
    }
  }

  /** Yet the preference is no order: three selections, each preferred over the next all the way round. */
  lemma PreferenceCycles() returns (a: Selection, b: Selection, c: Selection)
    ensures a.matched && b.matched && c.matched && a.entities == b.entities == c.entities
    ensures PreferOver(a, b) && PreferOver(b, c) && PreferOver(c, a)
    ensures !PreferOver(b, a) && !PreferOver(c, b) && !PreferOver(a, c)
  {
    a := NOTHING.(matched := true, specificity := 2, score := 0.60);
    b := NOTHING.(matched := true, specificity := 1, score := 0.63);
    c := NOTHING.(matched := true, specificity := 0, score := 0.67);
  }

  /** So among tools with equally many entities the order of the tools decides. */
  lemma OrderDecides() returns (ts: seq<Tool>)
    ensures |ts| == 3 && LookupsWork(ts)
    ensures Winner([ts[0], ts[1], ts[2]]).toolID != Winner([ts[1], ts[2], ts[0]]).toolID
  {
    var a := Tool("a", "", 0.5, 0.1, [0.60], false, Ok(Extract(map[], true, [], 2, 0)));
    var b := Tool("b", "", 0.5, 0.1, [0.63], false, Ok(Extract(map[], true, [], 1, 0)));
    var c := Tool("c", "", 0.5, 0.1, [0.67], false, Ok(Extract(map[], true, [], 0, 0)));
    ts := [a, b, c];
    assert Score(a) == 0.60 && Score(b) == 0.63 && Score(c) == 0.67;
    WinnerOfThree(a, b, c);
    WinnerOfThree(b, c, a);
  }

  lemma WinnerOfThree(a: Tool, b: Tool, c: Tool)
    requires Accepted(a) && Accepted(b) && Accepted(c)
    ensures var ab := if PreferOver(Matched(b), Matched(a)) then Matched(b) else Matched(a);
            Winner([a, b, c]) == if PreferOver(Matched(c), ab) then Matched(c) else ab
  {
    TallyOneMore([], a);
    TallyOneMore([a], b);
    TallyOneMore([a, b], c);
    assert [] + [a] == [a] && [a] + [b] == [a, b] && [a, b] + [c] == [a, b, c];
  }

  /** The tool leads every other one by the margin. */
  predicate Leads(ts: seq<Tool>, k: nat, margin: real)
    requires k < |ts|
  {
    forall i | 0 <= i < |ts| && i != k :: Score(ts[i]) + margin <= Score(ts[k])
  }

  lemma LeadersTop(ts: seq<Tool>, k: nat, margin: real, m: nat)
    requires k < |ts| && m < |ts| && margin > 0.0 && Leads(ts, k, margin) && Score(ts[k]) <= Score(ts[m])
    ensures m == k
  {
  }

  lemma LeadIsOverTheSecond(ts: seq<Tool>, k: nat, margin: real, top: real, second: real)
    requires k < |ts| && |ts| >= 2 && margin > 0.0 && TwoLargest(ts, top, second)
    ensures Leads(ts, k, margin) <==> Score(ts[k]) - second >= margin
  {
    var m :| 0 <= m < |ts| && Score(ts[m]) == top && SecondTo(ts, m, second);
    if Leads(ts, k, margin) {
      LeadersTop(ts, k, margin, m);
      if second > 0.0 {
        var i :| 0 <= i < |ts| && i != m && Score(ts[i]) == second;
      } else {
        var other := if k == 0 then 1 else 0;
        assert Score(ts[other]) + margin <= Score(ts[k]);
      }
    }
  }

  /**
    With a margin and at least two permitted tools, a winner is answered exactly when it leads every other by the
    margin.
   */
  lemma MatchedLeadsByTheMargin(margin: real, ts: seq<Tool>, top: real, second: real, blocked: bool, k: nat)
    requires margin > 0.0 && |ts| >= 2 && TwoLargest(ts, top, second)
    requires k < |ts| && Accepted(ts[k]) && Winner(ts) == Matched(ts[k])
    ensures Answer(margin, ts, second, blocked).matched <==> Leads(ts, k, margin)
    ensures Answer(margin, ts, second, blocked).marginRejected <==> !Leads(ts, k, margin)
    ensures Answer(margin, ts, second, blocked).toolID == ts[k].id
  {
    LeadIsOverTheSecond(ts, k, margin, top, second);
  }

  lemma {:induction false} PermittingTwice(ts: seq<Tool>, granted: seq<string>)
    ensures Permitted(Permitted(ts, granted), granted) == Permitted(ts, granted)
  {
    if ts != [] {
      var n := |ts| - 1;
      PermittingTwice(ts[..n], granted);
      PermittedOneMore(Permitted(ts[..n], granted), ts[n], granted);
      assert Permitted(ts[..n], granted) + [] == Permitted(ts[..n], granted);
    }
  }

  /** The second largest score is a function of the tools. */
  lemma SecondIsUnique(ts: seq<Tool>, a: real, b: real, c: real, d: real)
    requires TwoLargest(ts, a, b) && TwoLargest(ts, c, d)
    ensures a == c && b == d
  {
    if ts != [] {
      var m :| 0 <= m < |ts| && Score(ts[m]) == a && SecondTo(ts, m, b);
      var n :| 0 <= n < |ts| && Score(ts[n]) == c && SecondTo(ts, n, d);
      SecondIsBelow(ts, m, b, n, d);
      SecondIsBelow(ts, n, d, m, b);
    }
  }

  lemma SecondIsBelow(ts: seq<Tool>, m: nat, b: real, n: nat, d: real)
    requires m < |ts| && n < |ts| && SecondTo(ts, m, b) && SecondTo(ts, n, d) && d >= 0.0
    requires Score(ts[m]) == Score(ts[n])
    requires forall i | 0 <= i < |ts| :: Score(ts[i]) <= Score(ts[m])
    ensures b <= d
  {
    if b > 0.0 {
      var i :| 0 <= i < |ts| && i != m && Score(ts[i]) == b;
      assert i == n ==> m != n && Score(ts[m]) <= d;
    }
  }

  lemma FlagIsApart(margin: real, ts: seq<Tool>, second: real, blocked: bool)
    ensures Answer(margin, ts, second, blocked).(permFiltered := false) == Answer(margin, ts, second, false)
  {
    WinnerHasMostEntities(ts);
  }

  /** Forbidden tools do not show: but for the flag, the answer is the one Select gives on the permitted tools alone. */
  lemma OnlyPermittedToolsCount(margin: real, ts: seq<Tool>, granted: seq<string>, top: real, second: real, top': real,
                                second': real)
    requires var alone := Permitted(ts, granted);
             TwoLargest(alone, top, second) && TwoLargest(Permitted(alone, granted), top', second')
    ensures var alone := Permitted(ts, granted);
            && Answer(margin, alone, second, |alone| < |ts|).(permFiltered := false)
               == Answer(margin, Permitted(alone, granted), second', |Permitted(alone, granted)| < |alone|)
            && (LookupsWork(alone) <==> LookupsWork(Permitted(alone, granted)))
  {
    var alone := Permitted(ts, granted);
    PermittingTwice(ts, granted);
    SecondIsUnique(alone, top, second, top', second');
    FlagIsApart(margin, alone, second, |alone| < |ts|);
  }
}
