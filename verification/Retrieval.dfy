/**
  From a query to its candidates: internal/ai/rag/pipeline_retrieve.go, context_assembler.go and
  rerank.go.  Retrievers, the parent source and the budget answer through oracles.
 */
module Retrieval {
  import opened Common
  import opened Ranking
  import Text

  ghost predicate Descending(s: seq<Candidate>) {
    forall i, j | 0 <= i < j < |s| :: s[i].score >= s[j].score
  }

  /** What every stage keeps: named candidates, each id once, scores never rising. */
  ghost predicate Ranked(s: seq<Candidate>) {
    DistinctIds(s) && Descending(s) && forall c | c in s :: c.id != ""
  }

  lemma FusionIsRanked(sets: seq<seq<Candidate>>, r: seq<Candidate>)
    requires IsFusion(sets, r)
    ensures Ranked(r)
  {
  }

  /** The context ended, or the stage failed for another reason. */
  datatype Error = Ended | Failed

  // ---------------------------------------------------------------- the planned queries

  datatype Planned = Planned(kind: string, text: string)

  /** canonicalQueryText, whose lower-casing is not modelled. */
  type Canon = string -> string

  predicate Covers(out: seq<Planned>, text: string, canon: Canon) {
    exists k | 0 <= k < |out| :: canon(out[k].text) == canon(text)
  }

  /** Trimmed, not blank, and pairwise different after canonicalisation. */
  ghost predicate Deduplicated(out: seq<Planned>, canon: Canon) {
    && (forall i | 0 <= i < |out| :: out[i].text != "" && out[i].text == Text.TrimSpace(out[i].text))
    && (forall i, j | 0 <= i < j < |out| :: canon(out[i].text) != canon(out[j].text))
  }

  /** Everything kept has its place. */
  ghost predicate Placed(out: seq<Planned>, place: map<string, nat>, canon: Canon) {
    && (forall key | key in place :: place[key] < |out| && canon(out[place[key]].text) == key)
    && (forall k | 0 <= k < |out| :: canon(out[k].text) in place)
  }

  lemma KeepQuery(out: seq<Planned>, place: map<string, nat>, canon: Canon, p: Planned)
    requires Deduplicated(out, canon) && Placed(out, place, canon)
    requires p.text != "" && p.text == Text.TrimSpace(p.text) && canon(p.text) !in place
    ensures Deduplicated(out + [p], canon) && Placed(out + [p], place[canon(p.text) := |out|], canon)
  {
  }

  /** The query's trimmed text, if there is any, has been met. */
  predicate IsMet(p: Planned, canon: Canon, seen: set<string>) {
    var trimmed := Text.TrimSpace(p.text);
    trimmed == "" || canon(trimmed) in seen
  }

  ghost predicate AllMet(planned: seq<Planned>, n: nat, canon: Canon, seen: set<string>)
    requires n <= |planned|
  {
    forall k | 0 <= k < n :: IsMet(planned[k], canon, seen)
  }

  lemma MetOneMore(planned: seq<Planned>, n: nat, canon: Canon, seen: set<string>, seen': set<string>)
    requires n < |planned| && seen <= seen' && AllMet(planned, n, canon, seen) && IsMet(planned[n], canon, seen')
    ensures AllMet(planned, n + 1, canon, seen')
  {
    forall k | 0 <= k <= n ensures IsMet(planned[k], canon, seen') {
      assert k < n ==> IsMet(planned[k], canon, seen);
    }
  }

  method RetrievalQueriesForPlan(text: string, planned: seq<Planned>, canon: Canon) returns (out: seq<Planned>)
    ensures out == [Planned("original", text)] || Deduplicated(out, canon)
    ensures out != []
    ensures forall i | 0 <= i < |planned| && Text.TrimSpace(planned[i].text) != "" ::
              Covers(out, Text.TrimSpace(planned[i].text), canon)
    ensures (forall i | 0 <= i < |planned| :: Text.TrimSpace(planned[i].text) == "") ==>
              out == [Planned("original", text)]
  {
    out := [];
    var seen: set<string> := {};
    ghost var place: map<string, nat> := map[];
    for i := 0 to |planned|
      invariant Deduplicated(out, canon) && Placed(out, place, canon) && seen == place.Keys
      invariant AllMet(planned, i, canon, seen)
      invariant out != [] ==> exists k | 0 <= k < i :: Text.TrimSpace(planned[k].text) != ""
    {
      var trimmed := Text.TrimSpace(planned[i].text);
      if trimmed == "" {
        MetOneMore(planned, i, canon, seen, seen);
        continue;
      }
      var key := canon(trimmed);
      if key in seen {
        MetOneMore(planned, i, canon, seen, seen);
        continue;
      }
      Text.TrimSpaceIsStable(planned[i].text);
      KeepQuery(out, place, canon, planned[i].(text := trimmed));
      MetOneMore(planned, i, canon, seen, seen + {key});
      seen := seen + {key};
      place := place[key := |out|];
      out := out + [planned[i].(text := trimmed)];
    }
    if out == [] {
      out := [Planned("original", text)];
    }
  }

  // ---------------------------------------------------------------- retrievers

  datatype Stage = All | Cheap | Expensive

  /** What the worker pool gives for a stage and a text: one list per retriever, or the context's error. */
  datatype World = World(costs: seq<bool>, search: (Stage, string) -> Result<seq<seq<Candidate>>, Error>) {
    /** costs[i] tells whether the i-th retriever is expensive. */
    predicate Has(stage: Stage) {
      match stage
      case All => costs != []
      case Cheap => false in costs
      case Expensive => true in costs
    }

    /** The fusion of what a stage finds; no retrievers find nothing. */
    ghost predicate Finds(stage: Stage, text: string, r: Result<seq<Candidate>, Error>) {
      if !Has(stage) then r == Ok([])
      else match search(stage, text)
        case Err(e) => r == Err(e)
        case Ok(sets) => r.Ok? && IsFusion(sets, r.value)
    }

    /** The expensive retrievers are asked only when the cheap ones find nothing. */
    ghost predicate FindsForOne(fast: bool, text: string, r: Result<seq<Candidate>, Error>) {
      if fast && Has(Cheap) && Has(Expensive) then
        (Finds(Cheap, text, r) && r != Ok([])) || (Finds(Cheap, text, Ok([])) && Finds(Expensive, text, r))
      else Finds(All, text, r)
    }
  }

  method RetrieveFrom(w: World, stage: Stage, text: string) returns (r: Result<seq<Candidate>, Error>)
    ensures w.Finds(stage, text, r)
    ensures r.Ok? ==> Ranked(r.value)
  {
    if !w.Has(stage) {
      return Ok([]);
    }
    match w.search(stage, text)
    case Err(e) => r := Err(e);
    case Ok(sets) =>
      var merged := RrfMerge(sets);
      FusionIsRanked(sets, merged);
      r := Ok(merged);
  }

  method RetrieveFastDraft(w: World, text: string) returns (r: Result<seq<Candidate>, Error>, handled: bool)
    ensures handled == (w.Has(Cheap) && w.Has(Expensive))
    ensures handled ==> w.FindsForOne(true, text, r)
    ensures r.Ok? ==> Ranked(r.value)
  {
    if !w.Has(Cheap) || !w.Has(Expensive) {
      return Ok([]), false;
    }
    r := RetrieveFrom(w, Cheap, text);
    if r.Err? || |r.value| > 0 {
      return r, true;
    }
    r := RetrieveFrom(w, Expensive, text);
    handled := true;
  }

  method RetrieveOne(w: World, fast: bool, text: string) returns (r: Result<seq<Candidate>, Error>)
    ensures w.FindsForOne(fast, text, r)
    ensures r.Ok? ==> Ranked(r.value)
  {
    if fast {
      var handled;
      r, handled := RetrieveFastDraft(w, text);
      if handled {
        return;
      }
    }
    r := RetrieveFrom(w, All, text);
  }

  /** One search after the other, up to the first that fails. */
  method RetrieveEach(w: World, fast: bool, texts: seq<string>)
    returns (r: Result<seq<seq<Candidate>>, Error>, ghost at: nat)
    ensures r.Ok? ==> |r.value| == |texts|
    ensures r.Ok? ==> forall k | 0 <= k < |texts| :: w.FindsForOne(fast, texts[k], Ok(r.value[k]))
    ensures r.Err? ==> at < |texts| && w.FindsForOne(fast, texts[at], Err(r.error))
  {
    var lists: seq<seq<Candidate>> := [];
    at := 0;
    for k := 0 to |texts|
      invariant |lists| == k
      invariant forall j | 0 <= j < k :: w.FindsForOne(fast, texts[j], Ok(lists[j]))
    {
      var got := RetrieveOne(w, fast, texts[k]);
      if got.Err? {
        return Err(got.error), k;
      }
      lists := lists + [got.value];
    }
    r := Ok(lists);
  }

  /** How candidates come from the planned texts: a single one gives way to the query's own text, several are fused. */
  ghost predicate FoundFor(w: World, fast: bool, text: string, texts: seq<string>, sets: seq<seq<Candidate>>,
                           r: Result<seq<Candidate>, Error>) {
    if |texts| <= 1 then w.FindsForOne(fast, text, r)
    else if r.Err? then exists k | 0 <= k < |texts| :: w.FindsForOne(fast, texts[k], r)
    else
      && |sets| == |texts| && IsFusion(sets, r.value)
      && forall k | 0 <= k < |texts| :: w.FindsForOne(fast, texts[k], Ok(sets[k]))
  }

  /** The texts searched for: pairwise different, and none of the plan's left out. */
  ghost predicate IsPlan(texts: seq<string>, planned: seq<Planned>, canon: Canon) {
    && texts != [] && (forall i, j | 0 <= i < j < |texts| :: canon(texts[i]) != canon(texts[j]))
    && forall i | 0 <= i < |planned| && Text.TrimSpace(planned[i].text) != "" ::
         exists k | 0 <= k < |texts| :: canon(texts[k]) == canon(Text.TrimSpace(planned[i].text))
  }

  method RetrieveCandidates(w: World, fast: bool, text: string, planned: seq<Planned>, canon: Canon)
    returns (r: Result<seq<Candidate>, Error>, ghost texts: seq<string>, ghost sets: seq<seq<Candidate>>)
    ensures r.Ok? ==> Ranked(r.value)
    ensures FoundFor(w, fast, text, texts, sets, r) && IsPlan(texts, planned, canon)
  {
    sets := [];
    var queries := RetrievalQueriesForPlan(text, planned, canon);
    var all := TextsOf(queries);
    texts := all;
    TextsCover(queries, planned, canon);
    if |queries| > 1 {
      var lists, at := RetrieveEach(w, fast, all);
      if lists.Err? {
        return Err(lists.error), texts, sets;
      }
      sets := lists.value;
      var merged := RrfMerge(lists.value);
      FusionIsRanked(lists.value, merged);
      return Ok(merged), texts, sets;
    }
    r := RetrieveOne(w, fast, text);
  }

  function TextsOf(queries: seq<Planned>): (texts: seq<string>)
    ensures |texts| == |queries| && forall k | 0 <= k < |queries| :: texts[k] == queries[k].text
  {
    seq(|queries|, k requires 0 <= k < |queries| => queries[k].text)
  }

  lemma TextsCover(queries: seq<Planned>, planned: seq<Planned>, canon: Canon)
    requires queries != [] && (|queries| == 1 || Deduplicated(queries, canon))
    requires forall i | 0 <= i < |planned| && Text.TrimSpace(planned[i].text) != "" ::
               Covers(queries, Text.TrimSpace(planned[i].text), canon)
    ensures IsPlan(TextsOf(queries), planned, canon)
  {
    forall i | 0 <= i < |planned| && Text.TrimSpace(planned[i].text) != ""
      ensures exists k | 0 <= k < |TextsOf(queries)| ::
                canon(TextsOf(queries)[k]) == canon(Text.TrimSpace(planned[i].text))
    {
      assert Covers(queries, Text.TrimSpace(planned[i].text), canon);
      var k :| 0 <= k < |queries| && canon(queries[k].text) == canon(Text.TrimSpace(planned[i].text));
      assert TextsOf(queries)[k] == queries[k].text;
    }
  }

  // ---------------------------------------------------------------- parent context

  datatype Row = Row(childID: string, parentID: string, articleID: string, title: string, content: string)

  /** candidateChunkID */
  function ChunkID(c: Candidate): string {
    var prefix := "chunk:";
    if c.chunkID != "" then c.chunkID
    else if |prefix| <= |c.id| && c.id[..|prefix|] == prefix then c.id[|prefix|..]
    else
      var i := IndexOf(c.id, ':');
      if 0 < i < |c.id| - 1 && ':' !in c.id[i + 1..] then c.id[i + 1..] else ""
  }

  /** The first place of a character, or the length. */
  function IndexOf(s: string, c: char): (i: nat)
    ensures i <= |s| && (i < |s| ==> s[i] == c) && c !in s[..i]
  {
    if s == "" || s[0] == c then 0 else 1 + IndexOf(s[1..], c)
  }

  /** candidateWithParentContext: the score is the candidate's own, and a name stays a name. */
  function WithParent(c: Candidate, row: Row): (out: Candidate)
    ensures out.score == c.score && (c.id != "" ==> out.id != "")
    ensures row.parentID == "" ==> out.id == c.id
  {
    c.(articleID := if row.articleID != "" then row.articleID else c.articleID,
       parentChunkID := row.parentID,
       chunkID := if c.chunkID == "" then row.childID else c.chunkID,
       title := if row.title != "" then row.title else c.title,
       content := if row.content != "" then row.content else c.content,
       id := if row.articleID != "" && row.parentID != "" then row.articleID + ":" + row.parentID
             else if row.parentID != "" then "parent:" + row.parentID
             else c.id)
  }

  function Assembled(c: Candidate, byChild: map<string, Row>): (out: Candidate)
    ensures out.score == c.score && (c.id != "" ==> out.id != "")
  {
    var chunk := ChunkID(c);
    if chunk != "" && chunk in byChild then WithParent(c, byChild[chunk]) else c
  }

  /** What two candidates must share to be one. */
  function KeyOf(c: Candidate): string {
    if c.id != "" then c.id else c.source + ":" + c.title + ":" + c.content
  }

  /** How items were merged: the first item of each result, each item's result, and an item with each result's score. */
  datatype Merging = Merging(firsts: seq<nat>, home: seq<nat>, tops: seq<nat>)

  /** Items with equal keys are one: the first of them, under the highest of their scores. */
  ghost predicate Collapses(items: seq<Candidate>, keys: seq<string>, n: nat, out: seq<Candidate>, m: Merging)
    requires n <= |items| == |keys|
  {
    Results(items, keys, n, out, m.firsts, m.tops) && Homes(items, keys, n, out, m.firsts, m.home)
  }

  ghost predicate Results(items: seq<Candidate>, keys: seq<string>, n: nat, out: seq<Candidate>, firsts: seq<nat>,
                          tops: seq<nat>)
    requires n <= |items| == |keys|
  {
    && |firsts| == |out| == |tops|
    && (forall k | 0 <= k < |out| :: IsResult(items, keys, n, out[k], firsts[k], tops[k]))
    && (forall j, k | 0 <= j < k < |out| :: firsts[j] < firsts[k] && keys[firsts[j]] != keys[firsts[k]])
  }

  ghost predicate Homes(items: seq<Candidate>, keys: seq<string>, n: nat, out: seq<Candidate>, firsts: seq<nat>,
                        home: seq<nat>)
    requires n <= |items| == |keys|
  {
    && |firsts| == |out| && |home| == n
    && forall i | 0 <= i < n :: home[i] < |out| && IsMergedInto(items, keys, i, out[home[i]], firsts[home[i]])
  }

  ghost predicate IsCollapse(items: seq<Candidate>, keys: seq<string>, out: seq<Candidate>)
    requires |items| == |keys|
  {
    exists m :: Collapses(items, keys, |items|, out, m)
  }

  predicate IsResult(items: seq<Candidate>, keys: seq<string>, n: nat, c: Candidate, first: nat, top: nat)
    requires n <= |items| == |keys|
  {
    && first <= top < n && c == items[first].(score := c.score)
    && keys[top] == keys[first] && items[top].score == c.score
  }

  predicate IsMergedInto(items: seq<Candidate>, keys: seq<string>, i: nat, c: Candidate, first: nat)
    requires i < |items| == |keys|
  {
    first <= i && keys[first] == keys[i] && c.score >= items[i].score
  }

  /** On a list that never rises the score-raising branch is never taken, and the order survives. */
  lemma DescendingIsNotRaised(items: seq<Candidate>, keys: seq<string>, out: seq<Candidate>, m: Merging)
    requires |items| == |keys| && Collapses(items, keys, |items|, out, m) && Descending(items)
    ensures forall k | 0 <= k < |out| :: m.firsts[k] < |items| && out[k] == items[m.firsts[k]]
    ensures Descending(out)
  {
    forall k | 0 <= k < |out|
      ensures m.firsts[k] < |items| && out[k] == items[m.firsts[k]]
    {
      var first := m.firsts[k];
      assert IsResult(items, keys, |items|, out[k], first, m.tops[k]);
      assert m.home[first] == k;
    }
  }

  /** One more item with a key already met, no better than the entry. */
  lemma MergeItem(items: seq<Candidate>, keys: seq<string>, n: nat, out: seq<Candidate>, m: Merging, at: nat,
                  m': Merging)
    requires n < |items| == |keys| && Collapses(items, keys, n, out, m) && at < |out| && keys[m.firsts[at]] == keys[n]
    requires items[n].score <= out[at].score && m' == m.(home := m.home + [at])
    ensures Collapses(items, keys, n + 1, out, m')
  {
    assert IsMergedInto(items, keys, n, out[at], m.firsts[at]);
    forall k | 0 <= k < |out|
      ensures IsResult(items, keys, n + 1, out[k], m.firsts[k], m.tops[k])
    {
      assert IsResult(items, keys, n, out[k], m.firsts[k], m.tops[k]);
    }
  }

  lemma RaiseResults(items: seq<Candidate>, keys: seq<string>, n: nat, out: seq<Candidate>, firsts: seq<nat>,
                     tops: seq<nat>, at: nat, out': seq<Candidate>, tops': seq<nat>)
    requires n < |items| == |keys| && Results(items, keys, n, out, firsts, tops)
    requires at < |out| && keys[firsts[at]] == keys[n]
    requires out' == out[at := out[at].(score := items[n].score)] && tops' == tops[at := n]
    ensures Results(items, keys, n + 1, out', firsts, tops')
  {
    forall k | 0 <= k < |out|
      ensures IsResult(items, keys, n + 1, out'[k], firsts[k], tops'[k])
    {
      assert IsResult(items, keys, n, out[k], firsts[k], tops[k]);
    }
  }

  lemma RaiseHomes(items: seq<Candidate>, keys: seq<string>, n: nat, out: seq<Candidate>, firsts: seq<nat>,
                   home: seq<nat>, at: nat, out': seq<Candidate>, home': seq<nat>)
    requires n < |items| == |keys| && Homes(items, keys, n, out, firsts, home)
    requires at < |out| && firsts[at] <= n && keys[firsts[at]] == keys[n] && items[n].score > out[at].score
    requires out' == out[at := out[at].(score := items[n].score)] && home' == home + [at]
    ensures Homes(items, keys, n + 1, out', firsts, home')
  {
    forall i | 0 <= i <= n
      ensures home'[i] < |out| && IsMergedInto(items, keys, i, out'[home'[i]], firsts[home'[i]])
    {
      if i < n {
        assert IsMergedInto(items, keys, i, out[home[i]], firsts[home[i]]);
      }
    }
  }

  /** One that raises the entry's score. */
  lemma RaiseItem(items: seq<Candidate>, keys: seq<string>, n: nat, out: seq<Candidate>, m: Merging, at: nat,
                  out': seq<Candidate>, m': Merging)
    requires n < |items| == |keys| && Collapses(items, keys, n, out, m) && at < |out| && keys[m.firsts[at]] == keys[n]
    requires items[n].score > out[at].score && out' == out[at := out[at].(score := items[n].score)]
    requires m' == Merging(m.firsts, m.home + [at], m.tops[at := n])
    ensures Collapses(items, keys, n + 1, out', m')
  {
    RaiseResults(items, keys, n, out, m.firsts, m.tops, at, out', m'.tops);
    RaiseHomes(items, keys, n, out, m.firsts, m.home, at, out', m'.home);
  }

  lemma AppendResults(items: seq<Candidate>, keys: seq<string>, n: nat, out: seq<Candidate>, firsts: seq<nat>,
                      tops: seq<nat>, out': seq<Candidate>, firsts': seq<nat>, tops': seq<nat>)
    requires n < |items| == |keys| && Results(items, keys, n, out, firsts, tops)
    requires forall k | 0 <= k < |out| :: keys[firsts[k]] != keys[n]
    requires out' == out + [items[n]] && firsts' == firsts + [n] && tops' == tops + [n]
    ensures Results(items, keys, n + 1, out', firsts', tops')
  {
    forall k | 0 <= k < |out'|
      ensures IsResult(items, keys, n + 1, out'[k], firsts'[k], tops'[k])
    {
      if k < |out| {
        assert IsResult(items, keys, n, out[k], firsts[k], tops[k]);
      }
    }
  }

  lemma AppendHomes(items: seq<Candidate>, keys: seq<string>, n: nat, out: seq<Candidate>, firsts: seq<nat>,
                    home: seq<nat>, out': seq<Candidate>, firsts': seq<nat>, home': seq<nat>)
    requires n < |items| == |keys| && Homes(items, keys, n, out, firsts, home)
    requires out' == out + [items[n]] && firsts' == firsts + [n] && home' == home + [|out|]
    ensures Homes(items, keys, n + 1, out', firsts', home')
  {
    forall i | 0 <= i <= n
      ensures home'[i] < |out'| && IsMergedInto(items, keys, i, out'[home'[i]], firsts'[home'[i]])
    {
      if i < n {
        assert IsMergedInto(items, keys, i, out[home[i]], firsts[home[i]]);
      }
    }
  }

  lemma AppendItem(items: seq<Candidate>, keys: seq<string>, n: nat, out: seq<Candidate>, m: Merging,
                   out': seq<Candidate>, m': Merging)
    requires n < |items| == |keys| && Collapses(items, keys, n, out, m)
    requires forall k | 0 <= k < |out| :: keys[m.firsts[k]] != keys[n]
    requires out' == out + [items[n]] && m' == Merging(m.firsts + [n], m.home + [|out|], m.tops + [n])
    ensures Collapses(items, keys, n + 1, out', m')
  {
    AppendResults(items, keys, n, out, m.firsts, m.tops, out', m'.firsts, m'.tops);
    AppendHomes(items, keys, n, out, m.firsts, m.home, out', m'.firsts, m'.home);
  }

  /** The loop's map leads from each key met to the result it became. */
  ghost predicate Leads(keys: seq<string>, firsts: seq<nat>, seen: map<string, nat>) {
    && (forall k | 0 <= k < |firsts| :: firsts[k] < |keys| && keys[firsts[k]] in seen)
    && (forall key | key in seen ::
          seen[key] < |firsts| && firsts[seen[key]] < |keys| && keys[firsts[seen[key]]] == key)
  }

  lemma LeadsOneMore(keys: seq<string>, firsts: seq<nat>, seen: map<string, nat>, n: nat, firsts': seq<nat>,
                     seen': map<string, nat>)
    requires Leads(keys, firsts, seen) && n < |keys| && keys[n] !in seen
    requires firsts' == firsts + [n] && seen' == seen[keys[n] := |firsts|]
    ensures Leads(keys, firsts', seen')
    ensures forall k | 0 <= k < |firsts| :: keys[firsts[k]] != keys[n]
  {
  }

  /** One turn of the loop of Assemble. */
  method CollapseNext(items: seq<Candidate>, keys: seq<string>, n: nat, out: seq<Candidate>, seen: map<string, nat>,
                      ghost m: Merging)
    returns (out': seq<Candidate>, seen': map<string, nat>, ghost m': Merging)
    requires n < |items| == |keys| && Collapses(items, keys, n, out, m) && Leads(keys, m.firsts, seen)
    ensures Collapses(items, keys, n + 1, out', m') && Leads(keys, m'.firsts, seen')
  {
    var key := keys[n];
    if key in seen {
      var index := seen[key];
      seen' := seen;
      if items[n].score > out[index].score {
        out' := out[index := out[index].(score := items[n].score)];
        m' := Merging(m.firsts, m.home + [index], m.tops[index := n]);
        RaiseItem(items, keys, n, out, m, index, out', m');
      } else {
        out', m' := out, m.(home := m.home + [index]);
        MergeItem(items, keys, n, out, m, index, m');
      }
      return;
    }
    seen' := seen[key := |out|];
    m' := Merging(m.firsts + [n], m.home + [|out|], m.tops + [n]);
    out' := out + [items[n]];
    LeadsOneMore(keys, m.firsts, seen, n, m'.firsts, seen');
    AppendItem(items, keys, n, out, m, out', m');
  }

  /** The loop of Assemble. */
  method Collapse(items: seq<Candidate>, keys: seq<string>) returns (out: seq<Candidate>)
    requires |items| == |keys|
    ensures IsCollapse(items, keys, out)
  {
    out := [];
    ghost var m := Merging([], [], []);
    var seen: map<string, nat> := map[];
    for n := 0 to |items|
      invariant Collapses(items, keys, n, out, m) && Leads(keys, m.firsts, seen)
    {
      out, seen, m := CollapseNext(items, keys, n, out, seen, m);
    }
  }

  /** The row kept for a child: the last one of its id; rows without an id are dropped. */
  function ByChild(rows: seq<Row>): map<string, Row> {
    if rows == [] then map[]
    else
      var last := rows[|rows| - 1];
      var rest := ByChild(rows[..|rows| - 1]);
      if last.childID == "" then rest else rest[last.childID := last]
  }

  predicate LastNaming(rows: seq<Row>, child: string, i: nat) {
    i < |rows| && rows[i].childID == child && forall j | i < j < |rows| :: rows[j].childID != child
  }

  /** A child's row is the last one that names it. */
  lemma {:induction false} RowOfChild(rows: seq<Row>, child: string) returns (i: nat)
    ensures if child in ByChild(rows) then child != "" && LastNaming(rows, child, i) && ByChild(rows)[child] == rows[i]
            else child == "" || forall j | 0 <= j < |rows| :: rows[j].childID != child
  {
    i := 0;
    if rows != [] {
      var n := |rows| - 1;
      i := RowOfChild(rows[..n], child);
      assert forall j | 0 <= j < n :: rows[..n][j] == rows[j];
      if rows[n].childID == child {
        i := n;
      }
    }
  }

  /** The items of the loop: every candidate with its parent's context, where there is one. */
  function WithContext(cs: seq<Candidate>, byChild: map<string, Row>): (items: seq<Candidate>)
    ensures |items| == |cs| && forall i | 0 <= i < |cs| :: items[i] == Assembled(cs[i], byChild)
  {
    seq(|cs|, i requires 0 <= i < |cs| => Assembled(cs[i], byChild))
  }

  function KeysOf(items: seq<Candidate>): (keys: seq<string>)
    ensures |keys| == |items| && forall i | 0 <= i < |items| :: keys[i] == KeyOf(items[i])
  {
    seq(|items|, i requires 0 <= i < |items| => KeyOf(items[i]))
  }

  predicate HasChunk(cs: seq<Candidate>) {
    exists i | 0 <= i < |cs| :: ChunkID(cs[i]) != ""
  }

  /** The candidates an assembler makes of cs with its source (None when there is none), which answers rows or fails. */
  ghost predicate InContext(source: Option<Result<seq<Row>, Error>>, cs: seq<Candidate>, out: seq<Candidate>) {
    if HasChunk(cs) && source.Some? && source.value.Ok? && source.value.value != [] then
      var items := WithContext(cs, ByChild(source.value.value));
      IsCollapse(items, KeysOf(items), out)
    else out == cs
  }

  method Assemble(ended: bool, source: Option<Result<seq<Row>, Error>>, cs: seq<Candidate>)
    returns (r: Result<seq<Candidate>, Error>)
    ensures ended ==> r == Err(Ended)
    ensures r.Err? <==> ended || (HasChunk(cs) && source == Some(Err(Ended)))
    ensures r.Err? ==> r == Err(Ended)
    ensures r.Ok? ==> InContext(source, cs, r.value)
    ensures r.Ok? && Ranked(cs) ==> Ranked(r.value) && |r.value| <= |cs|
  {
    if ended {
      return Err(Ended);
    }
    if source.None? || |cs| == 0 || !HasChunk(cs) {
      return Ok(cs);
    }
    match source.value
    case Err(e) =>
      r := if e == Ended then Err(Ended) else Ok(cs);
    case Ok(rows) =>
      if |rows| == 0 {
        return Ok(cs);
      }
      var items := WithContext(cs, ByChild(rows));
      var out := Collapse(items, KeysOf(items));
      if Ranked(cs) {
        ghost var m :| Collapses(items, KeysOf(items), |items|, out, m);
        CollapseOfRanked(cs, ByChild(rows), out, m);
      }
      r := Ok(out);
  }

  lemma CollapseOfRanked(cs: seq<Candidate>, byChild: map<string, Row>, out: seq<Candidate>, m: Merging)
    requires Ranked(cs)
    requires var items := WithContext(cs, byChild); Collapses(items, KeysOf(items), |items|, out, m)
    ensures Ranked(out) && |out| <= |cs|
  {
    var items := WithContext(cs, byChild);
    DescendingIsNotRaised(items, KeysOf(items), out, m);
    assert forall k | 0 <= k < |out| :: cs[m.firsts[k]] in cs;
    assert forall k | 0 <= k < |out| :: KeysOf(items)[m.firsts[k]] == out[k].id;
    IncreasingIsShort(m.firsts, |cs|);
  }

  lemma {:induction false} IncreasingIsShort(firsts: seq<nat>, n: nat)
    requires forall k | 0 <= k < |firsts| :: firsts[k] < n
    requires forall j, k | 0 <= j < k < |firsts| :: firsts[j] < firsts[k]
    ensures |firsts| <= n
  {
    if firsts != [] {
      var last := |firsts| - 1;
      IncreasingIsShort(firsts[..last], firsts[last]);
    }
  }

  // ---------------------------------------------------------------- reranking and the whole stage

  /** How many of the terms occur in the candidate's lower-cased text; lower-casing is not modelled. */
  function LexicalScore(terms: seq<string>, lower: string -> string, c: Candidate): (n: nat)
    ensures n <= |terms|
  {
    if terms == [] then 0
    else
      LexicalScore(terms[..|terms| - 1], lower, c)
      + if Text.Contains(lower(c.title + " " + c.content), terms[|terms| - 1]) then 1 else 0
  }

  function TermsFound(terms: seq<string>, text: string): set<nat> {
    set i: nat | i < |terms| && Text.Contains(text, terms[i])
  }

  /** The score counts the terms found in title and content. */
  lemma {:induction false} LexicalScoreCounts(terms: seq<string>, lower: string -> string, c: Candidate)
    ensures LexicalScore(terms, lower, c) == |TermsFound(terms, lower(c.title + " " + c.content))|
  {
    if terms != [] {
      var n, text := |terms| - 1, lower(c.title + " " + c.content);
      LexicalScoreCounts(terms[..n], lower, c);
      assert TermsFound(terms, text)
          == TermsFound(terms[..n], text) + if Text.Contains(text, terms[n]) then {n} else {};
    }
  }

  function Rescored(cs: seq<Candidate>, terms: seq<string>, lower: string -> string): (r: seq<Candidate>)
    ensures |r| == |cs|
    ensures forall i | 0 <= i < |cs| :: r[i] == cs[i].(score := cs[i].score + LexicalScore(terms, lower, cs[i]) as real)
  {
    seq(|cs|, i requires 0 <= i < |cs| => cs[i].(score := cs[i].score + LexicalScore(terms, lower, cs[i]) as real))
  }

  /** The rescored candidates in strict order, none lost, none doubled. */
  lemma RerankedIsRanked(cs: seq<Candidate>, terms: seq<string>, lower: string -> string)
    requires DistinctIds(cs) && forall c | c in cs :: c.id != ""
    ensures var r := Sorted(Rescored(cs, terms, lower));
            Ranked(r) && StrictlyOrdered(r) && |r| == |cs| && multiset(r) == multiset(Rescored(cs, terms, lower))
  {
    var rescored := Rescored(cs, terms, lower);
    SortingDistinctIsStrict(rescored);
    SortedSorts(rescored);
    var r := Sorted(rescored);
    assert |multiset(r)| == |r| && |multiset(rescored)| == |rescored|;
    forall c | c in r
      ensures c.id != ""
    {
      var i :| 0 <= i < |rescored| && rescored[i] == c;
      assert cs[i] in cs;
    }
  }

  method Rerank(cs: seq<Candidate>, terms: seq<string>, lower: string -> string) returns (out: seq<Candidate>)
    ensures out == Sorted(Rescored(cs, terms, lower))
  {
    out := cs;
    for i := 0 to |cs|
      invariant |out| == |cs| && out[..i] == Rescored(cs, terms, lower)[..i] && out[i..] == cs[i..]
    {
      assert out[i] == out[i..][0] == cs[i];
      out := out[i := out[i].(score := out[i].score + LexicalScore(terms, lower, out[i]) as real)];
    }
    assert out == Rescored(cs, terms, lower);
    out := Sorted(out);
  }

  /** The parts of a query and its plan that retrieval looks at. */
  datatype Query = Query(text: string, limit: int, fast: bool, planned: seq<Planned>, anchors: bool, terms: seq<string>)

  /** The optional parts: graph retriever, assembler's source, and whether the budget grants reranking. */
  datatype Stages = Stages(graph: Option<Result<seq<Candidate>, Error>>, assembler: bool, ended: bool,
                           source: Option<Result<seq<Row>, Error>>, granted: bool)

  /** The candidates after each stage. */
  datatype Steps = Steps(found: seq<Candidate>, fused: seq<Candidate>, inContext: seq<Candidate>,
                         reranked: seq<Candidate>)

  /** Each stage made of the one before what it is there for, and the last is cut to the limit. */
  ghost predicate Follows(q: Query, st: Stages, lower: string -> string, s: Steps, out: seq<Candidate>) {
    && (if st.graph.Some? && st.graph.value.Ok? && q.anchors then IsFusion([st.graph.value.value, s.found], s.fused)
        else s.fused == s.found)
    && (if st.assembler && s.fused != [] then InContext(st.source, s.fused, s.inContext) else s.inContext == s.fused)
    && s.reranked == (if !q.fast && st.granted then Sorted(Rescored(s.inContext, q.terms, lower)) else s.inContext)
    && out == (if 0 < q.limit < |s.reranked| then s.reranked[..q.limit] else s.reranked)
  }

  /** The graph retriever's stage, for queries with anchors; its failure matters only when the context has ended. */
  method FuseGraph(q: Query, graph: Option<Result<seq<Candidate>, Error>>, found: seq<Candidate>)
    returns (r: Result<seq<Candidate>, Error>)
    requires Ranked(found)
    ensures r.Ok? ==>
              && Ranked(r.value)
              && if graph.Some? && graph.value.Ok? && q.anchors then IsFusion([graph.value.value, found], r.value)
                 else r.value == found
  {
    if graph.Some? && q.anchors {
      match graph.value
      case Err(e) =>
        if e == Ended {
          return Err(Ended);
        }
      case Ok(more) =>
        var cs := RrfMerge([more, found]);
        FusionIsRanked([more, found], cs);
        return Ok(cs);
    }
    r := Ok(found);
  }

  /** The last two stages: reranking, unless the query is a fast one or the budget refuses, and the limit. */
  method RankAndCut(q: Query, granted: bool, lower: string -> string, cs: seq<Candidate>)
    returns (out: seq<Candidate>, ghost reranked: seq<Candidate>)
    requires Ranked(cs)
    ensures reranked == if !q.fast && granted then Sorted(Rescored(cs, q.terms, lower)) else cs
    ensures out == if 0 < q.limit < |reranked| then reranked[..q.limit] else reranked
    ensures Ranked(out) && (q.limit > 0 ==> |out| <= q.limit)
  {
    out := cs;
    if !q.fast && granted {
      RerankedIsRanked(cs, q.terms, lower);
      out := Rerank(cs, q.terms, lower);
    }
    reranked := out;
    if q.limit > 0 && |out| > q.limit {
      PrefixIsRanked(out, q.limit);
      out := out[..q.limit];
    }
  }

  /**
    retrieve: whatever the query, mode and stages, the candidates come out named, once each, in order and within the
    limit.
   */
  method Retrieve(w: World, q: Query, st: Stages, canon: Canon, lower: string -> string)
    returns (r: Result<seq<Candidate>, Error>, ghost s: Steps)
    ensures r.Ok? ==> Follows(q, st, lower, s, r.value)
    ensures r.Ok? ==> Ranked(r.value) && (q.limit > 0 ==> |r.value| <= q.limit)
  {
    ghost var texts, sets;
    s := Steps([], [], [], []);
    r, texts, sets := RetrieveCandidates(w, q.fast, q.text, q.planned, canon);
    if r.Err? {
      return;
    }
    s := s.(found := r.value);
    r := FuseGraph(q, st.graph, r.value);
    if r.Err? {
      return;
    }
    var cs := r.value;
    s := s.(fused := cs);
    if st.assembler && |cs| > 0 {
      r := Assemble(st.ended, st.source, cs);
      if r.Err? {
        return;
      }
      cs := r.value;
    }
    s := s.(inContext := cs);
    ghost var reranked;
    cs, reranked := RankAndCut(q, st.granted, lower, cs);
    s := s.(reranked := reranked);
    r := Ok(cs);
  }

  lemma PrefixIsRanked(cs: seq<Candidate>, n: nat)
    requires Ranked(cs) && n <= |cs|
    ensures Ranked(cs[..n])
  {
  }
}
