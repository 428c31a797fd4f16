/** Reciprocal rank fusion: internal/ai/rag/rrf.go.  Scores are reals. */
module Ranking {
  import opened Common

  datatype Candidate = Candidate(id: string, articleID: string, chunkID: string, parentChunkID: string,
                                 title: string, content: string, source: string, score: real)

  // ---------------------------------------------------------------- the order

  /** Lexicographic order of strings. */
  predicate Less(a: string, b: string) {
    b != "" && (a == "" || a[0] < b[0] || (a[0] == b[0] && Less(a[1..], b[1..])))
  }

  lemma {:induction false} LessIsTotal(a: string, b: string)
    ensures a == b ==> !Less(a, b)
    ensures a != b ==> Less(a, b) != Less(b, a)
  {
    if a != "" && b != "" && a[0] == b[0] {
      LessIsTotal(a[1..], b[1..]);
      assert a == [a[0]] + a[1..] && b == [b[0]] + b[1..];
    }
  }

  lemma {:induction false} LessIsTransitive(a: string, b: string, c: string)
    requires Less(a, b) && Less(b, c)
    ensures Less(a, c)
  {
    if a != "" && a[0] == b[0] == c[0] {
      LessIsTransitive(a[1..], b[1..], c[1..]);
    }
  }

  /** The two agree on their first n characters, and there `a` ends or goes on with the smaller one. */
  predicate FirstDifference(a: string, b: string, n: nat) {
    n <= |a| && n < |b| && a[..n] == b[..n] && (n < |a| ==> a[n] < b[n])
  }

  lemma DifferenceFurtherOn(a: string, b: string, n: nat)
    requires a != "" && b != "" && a[0] == b[0]
    ensures FirstDifference(a[1..], b[1..], n) <==> FirstDifference(a, b, n + 1)
    ensures !FirstDifference(a, b, 0)
  {
    if n < |a| && n + 1 < |b| {
      assert a[..n + 1] == [a[0]] + a[1..][..n] && b[..n + 1] == [b[0]] + b[1..][..n];
      assert a[..n + 1][1..] == a[1..][..n] && b[..n + 1][1..] == b[1..][..n];
    }
  }

  /** The smaller text is the one that ends first, or has the smaller character at the first difference. */
  lemma {:induction false} LessMeans(a: string, b: string)
    ensures Less(a, b) <==> exists n: nat :: FirstDifference(a, b, n)
  {
    if b != "" && (a == "" || a[0] < b[0]) {
      assert FirstDifference(a, b, 0);
    } else if a != "" && b != "" && a[0] == b[0] {
      LessMeans(a[1..], b[1..]);
      if n: nat :| FirstDifference(a[1..], b[1..], n) {
        DifferenceFurtherOn(a, b, n);
      }
      if n: nat :| FirstDifference(a, b, n) {
        DifferenceFurtherOn(a, b, if n > 0 then n - 1 else 0);
      }
    } else if a != "" && b != "" {
      forall n: nat ensures !FirstDifference(a, b, n) {
        assert 0 < n <= |a| && n < |b| ==> a[..n][0] != b[..n][0];
      }
    }
  }

  /** Higher score first, then smaller id. */
  predicate Before(c: Candidate, d: Candidate) {
    c.score > d.score || (c.score == d.score && Less(c.id, d.id))
  }

  lemma BeforeIsTotal(c: Candidate, d: Candidate)
    ensures Before(c, d) ==> !Before(d, c)
    ensures c.id != d.id ==> Before(c, d) || Before(d, c)
  {
    LessIsTotal(c.id, d.id);
  }

  lemma BeforeIsTransitive(c: Candidate, d: Candidate, e: Candidate)
    requires !Before(d, c) && !Before(e, d)
    ensures !Before(e, c)
  {
    LessIsTotal(c.id, d.id);
    LessIsTotal(d.id, e.id);
    if Less(e.id, c.id) && c.id != d.id && d.id != e.id && Less(c.id, d.id) {
      LessIsTransitive(e.id, c.id, d.id);
    }
  }

  ghost predicate Ordered(s: seq<Candidate>) {
    forall i, j | 0 <= i < j < |s| :: !Before(s[j], s[i])
  }

  ghost predicate StrictlyOrdered(s: seq<Candidate>) {
    forall i, j | 0 <= i < j < |s| :: Before(s[i], s[j])
  }

  ghost predicate DistinctIds(s: seq<Candidate>) {
    forall i, j | 0 <= i < j < |s| :: s[i].id != s[j].id
  }

  /** sort.SliceStable with that order, as an insertion sort. */
  function Insert(c: Candidate, s: seq<Candidate>): seq<Candidate> {
    if s == [] then [c] else if Before(s[0], c) then [s[0]] + Insert(c, s[1..]) else [c] + s
  }

  function Sorted(s: seq<Candidate>): seq<Candidate> {
    if s == [] then [] else Insert(s[0], Sorted(s[1..]))
  }

  lemma {:induction false} InsertKeepsElements(c: Candidate, s: seq<Candidate>)
    ensures multiset(Insert(c, s)) == multiset(s) + multiset{c}
  {
    if s != [] {
      assert s == [s[0]] + s[1..];
      InsertKeepsElements(c, s[1..]);
    }
  }

  lemma {:induction false} InsertKeepsOrder(c: Candidate, s: seq<Candidate>)
    requires Ordered(s)
    ensures Ordered(Insert(c, s))
  {
    if s == [] {
    } else if Before(s[0], c) {
      InsertKeepsOrder(c, s[1..]);
      InsertKeepsElements(c, s[1..]);
      var rest := Insert(c, s[1..]);
      forall j | 0 <= j < |rest|
        ensures !Before(rest[j], s[0])
      {
        assert rest[j] in multiset(rest);
        BeforeIsTotal(s[0], c);
      }
    } else {
      forall j | 0 <= j < |s|
        ensures !Before(s[j], c)
      {
        if j > 0 {
          BeforeIsTransitive(c, s[0], s[j]);
        }
      }
    }
  }

  lemma {:induction false} SortedSorts(s: seq<Candidate>)
    ensures Ordered(Sorted(s)) && multiset(Sorted(s)) == multiset(s)
  {
    if s != [] {
      SortedSorts(s[1..]);
      InsertKeepsOrder(s[0], Sorted(s[1..]));
      InsertKeepsElements(s[0], Sorted(s[1..]));
      assert s == [s[0]] + s[1..];
    }
  }

  lemma {:induction false} DistinctIsByCount(s: seq<Candidate>, t: seq<Candidate>)
    requires DistinctIds(s) && multiset(s) == multiset(t)
    ensures DistinctIds(t)
  {
    forall i, j | 0 <= i < j < |t|
      ensures t[i].id != t[j].id
    {
      assert t[i] in multiset(t) && t[j] in multiset(t);
      if t[i].id == t[j].id {
        var a :| 0 <= a < |s| && s[a] == t[i];
        var b :| 0 <= b < |s| && s[b] == t[j];
        assert a == b;
        TwiceCountsTwo(t, i, j);
        OnePlace(s, a);
      }
    }
  }

  lemma OnePlace(s: seq<Candidate>, a: nat)
    requires a < |s| && DistinctIds(s)
    ensures multiset(s)[s[a]] == 1
  {
    assert s == s[..a] + [s[a]] + s[a + 1..];
    assert s[a] !in s[..a] && s[a] !in s[a + 1..];
  }

  lemma SortingDistinctIsStrict(s: seq<Candidate>)
    requires DistinctIds(s)
    ensures StrictlyOrdered(Sorted(s)) && DistinctIds(Sorted(s)) && forall c :: c in Sorted(s) <==> c in s
  {
    SortedSorts(s);
    var r := Sorted(s);
    DistinctIsByCount(s, r);
    forall i, j | 0 <= i < j < |r|
      ensures Before(r[i], r[j])
    {
      BeforeIsTotal(r[i], r[j]);
    }
    forall c
      ensures c in r <==> c in s
    {
      assert c in multiset(r) <==> c in multiset(s);
    }
  }

  lemma TailsAgree(a: seq<Candidate>, b: seq<Candidate>, c: Candidate)
    requires StrictlyOrdered(a) && a != [] && b != [] && a[0] == b[0] && (c in a ==> c in b)
    ensures c in a[1..] ==> c in b[1..]
  {
    if c in a[1..] {
      var i :| 1 <= i < |a| && a[i] == c;
      BeforeIsTotal(a[0], c);
      assert b == [b[0]] + b[1..];
    }
  }

  lemma EmptyTogether(a: seq<Candidate>, b: seq<Candidate>)
    requires forall c :: c in a ==> c in b
    ensures a != [] ==> b != []
  {
    if a != [] {
      assert a[0] in b;
    }
  }

  /** A strictly ordered list is determined by its elements. */
  lemma {:induction false} StrictOrderIsUnique(a: seq<Candidate>, b: seq<Candidate>)
    requires StrictlyOrdered(a) && StrictlyOrdered(b)
    requires forall c :: c in a <==> c in b
    ensures a == b
  {
    if a == [] || b == [] {
      EmptyTogether(a, b);
      EmptyTogether(b, a);
    } else {
      assert a[0] in b && b[0] in a;
      BeforeIsTotal(a[0], b[0]);
      assert a[0] == b[0];
      forall c
        ensures c in a[1..] <==> c in b[1..]
      {
        TailsAgree(a, b, c);
        TailsAgree(b, a, c);
      }
      StrictOrderIsUnique(a[1..], b[1..]);
    }
  }

  // ---------------------------------------------------------------- scores and representatives

  function Contribution(rank: nat): (r: real)
    ensures r > 0.0 && r * (61 + rank) as real == 1.0
  {
    1.0 / (60 + rank + 1) as real
  }

  lemma BetterRankContributesMore(m: nat, n: nat)
    requires m < n
    ensures Contribution(m) > Contribution(n)
  {
    var x, y := (61 + m) as real, (61 + n) as real;
    assert x * y > 0.0 && 1.0 / x - 1.0 / y == (y - x) / (x * y);
  }

  /** What the first n places of a list contribute to an id. */
  function SetScore(list: seq<Candidate>, n: nat, id: string): (r: real)
    requires n <= |list|
    ensures r >= 0.0
  {
    if n == 0 then 0.0 else SetScore(list, n - 1, id) + if list[n - 1].id == id then Contribution(n - 1) else 0.0
  }

  function Score(sets: seq<seq<Candidate>>, id: string): (r: real)
    ensures r >= 0.0
  {
    if sets == [] then 0.0
    else
      var last := sets[|sets| - 1];
      Score(sets[..|sets| - 1], id) + SetScore(last, |last|, id)
  }

  /** The candidate with the highest original score so far, the earlier one of equals. */
  function Better(best: Option<Candidate>, c: Candidate, id: string): Option<Candidate> {
    if c.id == id && (best.None? || c.score > best.value.score) then Some(c) else best
  }

  function SetBest(list: seq<Candidate>, n: nat, id: string, best: Option<Candidate>): Option<Candidate>
    requires n <= |list|
  {
    if n == 0 then best else Better(SetBest(list, n - 1, id, best), list[n - 1], id)
  }

  function Best(sets: seq<seq<Candidate>>, id: string): Option<Candidate> {
    if sets == [] then None
    else
      var last := sets[|sets| - 1];
      SetBest(last, |last|, id, Best(sets[..|sets| - 1], id))
  }

  predicate Occurs(sets: seq<seq<Candidate>>, c: Candidate) {
    exists k | 0 <= k < |sets| :: c in sets[k]
  }

  lemma {:induction false} SetBestIsMaximal(list: seq<Candidate>, n: nat, id: string, best: Option<Candidate>)
    requires n <= |list| && (best.Some? ==> best.value.id == id)
    ensures var b := SetBest(list, n, id, best);
            && (b.Some? ==> b.value.id == id && (b == best || b.value in list[..n]))
            && (best.Some? ==> b.Some? && b.value.score >= best.value.score)
            && (forall c | c in list[..n] && c.id == id :: b.Some? && b.value.score >= c.score)
  {
    if n > 0 {
      SetBestIsMaximal(list, n - 1, id, best);
      assert list[..n] == list[..n - 1] + [list[n - 1]];
    }
  }

  /** An id has a representative exactly if it occurs: an occurrence whose original score no other exceeds. */
  lemma {:induction false} BestIsMaximal(sets: seq<seq<Candidate>>, id: string)
    ensures var b := Best(sets, id);
            && (b.Some? ==> b.value.id == id && Occurs(sets, b.value))
            && (forall c | Occurs(sets, c) && c.id == id :: b.Some? && b.value.score >= c.score)
  {
    if sets != [] {
      var n := |sets| - 1;
      BestIsMaximal(sets[..n], id);
      SetBestIsMaximal(sets[n], |sets[n]|, id, Best(sets[..n], id));
      assert sets[n][..|sets[n]|] == sets[n];
      assert forall c | Occurs(sets[..n], c) :: Occurs(sets, c);
      assert forall c | c in sets[n] :: Occurs(sets, c);
      forall c | Occurs(sets, c)
        ensures Occurs(sets[..n], c) || c in sets[n]
      {
        var k :| 0 <= k < |sets| && c in sets[k];
        if k < n {
          assert c in sets[..n][k];
        }
      }
    }
  }

  /** What stands in another place than the n-th contributes alike. */
  lemma {:induction false} OtherPlaces(list: seq<Candidate>, n: nat, c: Candidate, m: nat, id: string)
    requires n < |list| && list[n].id == id && c.id != id && m <= |list|
    ensures SetScore(list, m, id) == SetScore(list[n := c], m, id) + if n < m then Contribution(n) else 0.0
    decreases m
  {
    if m > 0 {
      OtherPlaces(list, n, c, m - 1, id);
    }
  }

  lemma {:induction false} NoPlace(list: seq<Candidate>, m: nat, id: string)
    requires m <= |list| && forall i | 0 <= i < m :: list[i].id != id
    ensures SetScore(list, m, id) == 0.0
  {
    if m > 0 {
      NoPlace(list, m - 1, id);
    }
  }

  /**
    What an id scores: nothing in a set where it does not stand, in every place it stands in the reciprocal of that
    place counted from 61, and over several sets the sum.
   */
  lemma ScoreMeans(sets: seq<seq<Candidate>>, list: seq<Candidate>, id: string)
    ensures Score([], id) == 0.0 && Score(sets + [list], id) == Score(sets, id) + Score([list], id)
    ensures (forall i | 0 <= i < |list| :: list[i].id != id) ==> Score([list], id) == 0.0
    ensures forall n, c: Candidate | 0 <= n < |list| && list[n].id == id && c.id != id ::
              Score([list], id) == Score([list[n := c]], id) + 1.0 / (61 + n) as real
  {
    assert (sets + [list])[..|sets|] == sets && [list][..0] == [];
    if forall i | 0 <= i < |list| :: list[i].id != id {
      NoPlace(list, |list|, id);
    }
    forall n, c: Candidate | 0 <= n < |list| && list[n].id == id && c.id != id
      ensures Score([list], id) == Score([list[n := c]], id) + 1.0 / (61 + n) as real
    {
      OtherPlaces(list, n, c, |list|, id);
      assert [list[n := c]][..0] == [];
    }
  }

  /** No place in front of that one holds the id under as high a score. */
  ghost predicate EarlierScoreLess(sets: seq<seq<Candidate>>, k: nat, n: nat, id: string, score: real)
    requires k < |sets| && n <= |sets[k]|
  {
    && (forall i, j | 0 <= i < k && 0 <= j < |sets[i]| && sets[i][j].id == id :: sets[i][j].score < score)
    && (forall j | 0 <= j < n && sets[k][j].id == id :: sets[k][j].score < score)
  }

  lemma {:induction false} SetBestIsEarliest(list: seq<Candidate>, n: nat, id: string, best: Option<Candidate>)
    returns (m: Option<nat>)
    requires n <= |list|
    ensures var b := SetBest(list, n, id, best);
            if m.None? then b == best
            else
              && m.value < n && b == Some(list[m.value]) && list[m.value].id == id
              && (best.Some? ==> best.value.score < list[m.value].score)
              && forall j | 0 <= j < m.value && list[j].id == id :: list[j].score < list[m.value].score
  {
    m := None;
    if n > 0 {
      m := SetBestIsEarliest(list, n - 1, id, best);
      SetBestIsAtLeast(list, n - 1, id, best);
      if SetBest(list, n, id, best) != SetBest(list, n - 1, id, best) {
        m := Some(n - 1);
      }
    }
  }

  lemma {:induction false} SetBestIsAtLeast(list: seq<Candidate>, n: nat, id: string, best: Option<Candidate>)
    requires n <= |list|
    ensures var b := SetBest(list, n, id, best);
            && (best.Some? ==> b.Some? && b.value.score >= best.value.score)
            && forall j | 0 <= j < n && list[j].id == id :: b.Some? && b.value.score >= list[j].score
  {
    if n > 0 {
      SetBestIsAtLeast(list, n - 1, id, best);
    }
  }

  /** Of equal scores the earlier place represents the id. */
  lemma {:induction false} BestIsEarliest(sets: seq<seq<Candidate>>, id: string) returns (k: nat, n: nat)
    requires Best(sets, id).Some?
    ensures k < |sets| && n < |sets[k]| && sets[k][n] == Best(sets, id).value && sets[k][n].id == id
    ensures EarlierScoreLess(sets, k, n, id, sets[k][n].score)
  {
    var l := |sets| - 1;
    var best, last := Best(sets[..l], id), sets[l];
    BestIsMaximal(sets[..l], id);
    var m := SetBestIsEarliest(last, |last|, id, best);
    if m.Some? {
      k, n := l, m.value;
      forall i, j | 0 <= i < k && 0 <= j < |sets[i]| && sets[i][j].id == id ensures sets[i][j].score < last[n].score {
        assert sets[i][j] in sets[..l][i] && Occurs(sets[..l], sets[i][j]);
      }
    } else {
      k, n := BestIsEarliest(sets[..l], id);
      assert forall i | 0 <= i < l :: sets[..l][i] == sets[i];
    }
  }

  // ---------------------------------------------------------------- the merge

  /** The representative under the fused score. */
  function Fused(sets: seq<seq<Candidate>>, id: string): (c: Candidate)
    requires Best(sets, id).Some?
  {
    Best(sets, id).value.(score := Score(sets, id))
  }

  /** Precisely the ids that occur, each once, under its fused score, in strict order. */
  ghost predicate IsFusion(sets: seq<seq<Candidate>>, r: seq<Candidate>) {
    && StrictlyOrdered(r) && DistinctIds(r)
    && (forall c | c in r :: c.id != "" && Best(sets, c.id).Some? && c == Fused(sets, c.id))
    && (forall id | id != "" && Best(sets, id).Some? :: Fused(sets, id) in r)
  }

  datatype Entry = Entry(candidate: Candidate, rrfScore: real)

  /** The map after k whole sets and n places of the next. */
  ghost predicate Gathers(merged: map<string, Entry>, sets: seq<seq<Candidate>>, k: nat, n: nat) {
    && ((k < |sets| && n <= |sets[k]|) || (k == |sets| && n == 0))
    && forall id {:trigger id in merged} ::
      var best := if n == 0 then Best(sets[..k], id) else SetBest(sets[k], n, id, Best(sets[..k], id));
      var score := Score(sets[..k], id) + if n == 0 then 0.0 else SetScore(sets[k], n, id);
      && (id in merged <==> id != "" && best.Some?)
      && (id in merged ==> merged[id] == Entry(best.value, score))
  }

  lemma NextSet(merged: map<string, Entry>, sets: seq<seq<Candidate>>, k: nat)
    requires k < |sets| && Gathers(merged, sets, k, |sets[k]|)
    ensures Gathers(merged, sets, k + 1, 0)
  {
    assert sets[..k + 1][..k] == sets[..k];
  }

  lemma NextPlace(merged: map<string, Entry>, sets: seq<seq<Candidate>>, k: nat, n: nat, merged': map<string, Entry>)
    requires k < |sets| && n < |sets[k]| && Gathers(merged, sets, k, n)
    requires var c := sets[k][n];
             merged' == if c.id == "" then merged
                        else if c.id in merged then
                          var e := merged[c.id];
                          merged[c.id := Entry(if c.score > e.candidate.score then c else e.candidate,
                                               e.rrfScore + Contribution(n))]
                        else merged[c.id := Entry(c, Contribution(n))]
    ensures Gathers(merged', sets, k, n + 1)
  {
    var c := sets[k][n];
    if c.id != "" && c.id !in merged {
      NothingYet(sets, k, n, c.id);
    }
  }

  lemma {:induction false} NothingInSet(list: seq<Candidate>, n: nat, id: string, best: Option<Candidate>)
    requires n <= |list| && SetBest(list, n, id, best).None?
    ensures best.None? && SetScore(list, n, id) == 0.0
  {
    if n > 0 {
      NothingInSet(list, n - 1, id, best);
    }
  }

  lemma {:induction false} NothingInSets(sets: seq<seq<Candidate>>, id: string)
    requires Best(sets, id).None?
    ensures Score(sets, id) == 0.0
  {
    if sets != [] {
      var last := sets[|sets| - 1];
      NothingInSet(last, |last|, id, Best(sets[..|sets| - 1], id));
      NothingInSets(sets[..|sets| - 1], id);
    }
  }

  lemma NothingYet(sets: seq<seq<Candidate>>, k: nat, n: nat, id: string)
    requires k < |sets| && n <= |sets[k]| && SetBest(sets[k], n, id, Best(sets[..k], id)).None?
    ensures Score(sets[..k], id) == 0.0 && SetScore(sets[k], n, id) == 0.0
  {
    NothingInSet(sets[k], n, id, Best(sets[..k], id));
    NothingInSets(sets[..k], id);
  }

  method RrfMerge(sets: seq<seq<Candidate>>) returns (out: seq<Candidate>)
    ensures IsFusion(sets, out)
    ensures forall i, j | 0 <= i < j < |out| ::
              out[i].score > out[j].score || (out[i].score == out[j].score && Less(out[i].id, out[j].id))
  {
    var merged: map<string, Entry> := map[];
    for k := 0 to |sets|
      invariant Gathers(merged, sets, k, 0)
    {
      for n := 0 to |sets[k]|
        invariant Gathers(merged, sets, k, n)
      {
        var c := sets[k][n];
        ghost var before := merged;
        if c.id != "" {
          var inc := Contribution(n);
          if c.id in merged {
            var e := merged[c.id];
            merged := merged[c.id := Entry(if c.score > e.candidate.score then c else e.candidate, e.rrfScore + inc)];
          } else {
            merged := merged[c.id := Entry(c, inc)];
          }
        }
        NextPlace(before, sets, k, n, merged);
      }
      NextSet(merged, sets, k);
    }
    assert sets[..|sets|] == sets;
    var list := Collect(merged, sets);
    SortingDistinctIsStrict(list);
    out := Sorted(list);
  }

  /** The fused candidates of some ids, each once. */
  ghost predicate Collected(out: seq<Candidate>, sets: seq<seq<Candidate>>, done: set<string>) {
    && DistinctIds(out)
    && (forall c | c in out :: c.id in done && Best(sets, c.id).Some? && c == Fused(sets, c.id))
    && (forall id | id in done :: Best(sets, id).Some? && Fused(sets, id) in out)
  }

  lemma CollectedOneMore(out: seq<Candidate>, sets: seq<seq<Candidate>>, done: set<string>, id: string,
                         out': seq<Candidate>, done': set<string>)
    requires Collected(out, sets, done) && id !in done && Best(sets, id).Some?
    requires out' == out + [Fused(sets, id)] && done' == done + {id}
    ensures Collected(out', sets, done')
  {
    BestIsMaximal(sets, id);
    assert Fused(sets, id).id == id;
    assert forall i | 0 <= i < |out| :: out[i] in out && out[i].id in done;
  }

  /** The entries in whatever order the map gives them. */
  method Collect(merged: map<string, Entry>, ghost sets: seq<seq<Candidate>>) returns (out: seq<Candidate>)
    requires forall id :: id in merged <==> id != "" && Best(sets, id).Some?
    requires forall id | id in merged :: merged[id] == Entry(Best(sets, id).value, Score(sets, id))
    ensures DistinctIds(out)
    ensures forall c | c in out :: c.id in merged && c == Fused(sets, c.id)
    ensures forall id | id in merged :: Fused(sets, id) in out
  {
    out := [];
    var keys := merged.Keys;
    while keys != {}
      invariant keys <= merged.Keys && Collected(out, sets, merged.Keys - keys)
      decreases |keys|
    {
      var id :| id in keys;
      var e := merged[id];
      ghost var before, done := out, merged.Keys - keys;
      out := out + [e.candidate.(score := e.rrfScore)];
      keys := keys - {id};
      assert merged.Keys - keys == done + {id};
      CollectedOneMore(before, sets, done, id, out, merged.Keys - keys);
    }
    assert merged.Keys - keys == merged.Keys;
  }

  /** The result does not depend on the order in which the map is walked. */
  lemma FusionIsUnique(sets: seq<seq<Candidate>>, r: seq<Candidate>, s: seq<Candidate>)
    requires IsFusion(sets, r) && IsFusion(sets, s)
    ensures r == s
  {
    StrictOrderIsUnique(r, s);
  }

  /**
    Whoever comes out is the first of the highest-scored places of its id, with nothing but the score changed.
   */
  lemma FusionKeepsTheRepresentative(sets: seq<seq<Candidate>>, r: seq<Candidate>, c: Candidate)
    returns (k: nat, n: nat)
    requires IsFusion(sets, r) && c in r
    ensures k < |sets| && n < |sets[k]|
    ensures var d := sets[k][n];
            && c.id == d.id && c.articleID == d.articleID && c.chunkID == d.chunkID && c.title == d.title
            && c.parentChunkID == d.parentChunkID && c.content == d.content && c.source == d.source
            && EarlierScoreLess(sets, k, n, c.id, d.score)
            && (forall e | Occurs(sets, e) && e.id == c.id :: e.score <= d.score)
    ensures c.score == Score(sets, c.id)
  {
    BestIsMaximal(sets, c.id);
    k, n := BestIsEarliest(sets, c.id);
  }

  // ---------------------------------------------------------------- permuting the sets

  lemma {:induction false} ScoreWithout(sets: seq<seq<Candidate>>, j: nat, id: string)
    requires j < |sets|
    ensures Score(sets, id) == Score(sets[..j] + sets[j + 1..], id) + SetScore(sets[j], |sets[j]|, id)
  {
    var n := |sets| - 1;
    var rest := sets[..j] + sets[j + 1..];
    if j == n {
      assert rest == sets[..n];
    } else {
      ScoreWithout(sets[..n], j, id);
      assert rest[..n - 1] == sets[..n][..j] + sets[..n][j + 1..];
      assert rest[n - 1] == sets[n];
    }
  }

  lemma CountWithout<T>(s: seq<T>, j: nat)
    requires j < |s|
    ensures multiset(s[..j] + s[j + 1..]) == multiset(s) - multiset{s[j]}
  {
    assert s == s[..j] + [s[j]] + s[j + 1..];
  }

  lemma RestIsPermutation<T>(a: seq<T>, b: seq<T>, j: nat)
    requires multiset(a) == multiset(b) && a != [] && j < |b| && b[j] == a[|a| - 1]
    ensures multiset(a[..|a| - 1]) == multiset(b[..j] + b[j + 1..])
  {
    CountWithout(b, j);
    CountWithout(a, |a| - 1);
    assert a[..|a| - 1] + a[|a|..] == a[..|a| - 1];
  }

  lemma {:induction false} ScoreOfPermutation(a: seq<seq<Candidate>>, b: seq<seq<Candidate>>, id: string)
    requires multiset(a) == multiset(b)
    ensures Score(a, id) == Score(b, id)
  {
    assert |multiset(a)| == |a| && |multiset(b)| == |b|;
    if a != [] {
      var n := |a| - 1;
      assert a[n] in multiset(b);
      var j :| 0 <= j < |b| && b[j] == a[n];
      RestIsPermutation(a, b, j);
      ScoreOfPermutation(a[..n], b[..j] + b[j + 1..], id);
      ScoreWithout(b, j, id);
    }
  }

  lemma OccursInPermutation(a: seq<seq<Candidate>>, b: seq<seq<Candidate>>, id: string)
    requires multiset(a) == multiset(b) && Best(a, id).Some?
    ensures Best(b, id).Some?
  {
    BestIsMaximal(a, id);
    var c := Best(a, id).value;
    var k :| 0 <= k < |a| && c in a[k];
    assert a[k] in multiset(b);
    assert Occurs(b, c);
    BestIsMaximal(b, id);
  }

  /** A candidate reduced to what the order looks at. */
  function Bare(c: Candidate): Candidate {
    Candidate(c.id, "", "", "", "", "", "", c.score)
  }

  function Bares(r: seq<Candidate>): (s: seq<Candidate>)
    ensures |s| == |r| && forall i | 0 <= i < |r| :: s[i] == Bare(r[i])
  {
    seq(|r|, i requires 0 <= i < |r| => Bare(r[i]))
  }

  lemma BareIsInPermutation(a: seq<seq<Candidate>>, r: seq<Candidate>, b: seq<seq<Candidate>>, s: seq<Candidate>)
    requires multiset(a) == multiset(b) && IsFusion(a, r) && IsFusion(b, s)
    ensures forall c | c in Bares(r) :: c in Bares(s)
  {
    forall c | c in Bares(r)
      ensures c in Bares(s)
    {
      var i :| 0 <= i < |r| && c == Bares(r)[i];
      assert r[i] in r;
      OccursInPermutation(a, b, c.id);
      ScoreOfPermutation(a, b, c.id);
      var f := Fused(b, c.id);
      assert f in s;
      var j :| 0 <= j < |s| && s[j] == f;
      BestIsMaximal(b, c.id);
      assert Bares(s)[j] == c;
    }
  }

  /** Permuting the sets leaves the sequence of ids and scores as it is. */
  lemma FusionIgnoresSetOrder(a: seq<seq<Candidate>>, r: seq<Candidate>, b: seq<seq<Candidate>>, s: seq<Candidate>)
    requires multiset(a) == multiset(b) && IsFusion(a, r) && IsFusion(b, s)
    ensures |r| == |s| && forall i | 0 <= i < |r| :: r[i].id == s[i].id && r[i].score == s[i].score
  {
    BareIsInPermutation(a, r, b, s);
    BareIsInPermutation(b, s, a, r);
    StrictOrderIsUnique(Bares(r), Bares(s));
    forall i | 0 <= i < |r|
      ensures i < |s| && r[i].id == s[i].id && r[i].score == s[i].score
    {
      assert Bares(r)[i] == Bares(s)[i];
    }
  }

  // ---------------------------------------------------------------- dominance

  /** In this list x stands ahead of y, or y does not stand at all. */
  ghost predicate Ahead(list: seq<Candidate>, x: string, y: string) {
    forall n | 0 <= n < |list| && list[n].id == y :: exists m | 0 <= m < n :: list[m].id == x
  }

  lemma {:induction false} ScoreOfAbsent(list: seq<Candidate>, n: nat, id: string)
    requires n <= |list| && forall i | 0 <= i < n :: list[i].id != id
    ensures SetScore(list, n, id) == 0.0
  {
    if n > 0 {
      ScoreOfAbsent(list, n - 1, id);
    }
  }

  /** The id stands no more than once in the list. */
  ghost predicate AtMostOnce(list: seq<Candidate>, id: string) {
    forall i, j | 0 <= i < j < |list| :: list[i].id != id || list[j].id != id
  }

  lemma {:induction false} ScoreOfPresent(list: seq<Candidate>, n: nat, at: nat)
    requires at < n <= |list|
    ensures SetScore(list, n, list[at].id) >= Contribution(at)
    ensures AtMostOnce(list, list[at].id) ==> SetScore(list, n, list[at].id) == Contribution(at)
  {
    if at == n - 1 {
      if AtMostOnce(list, list[at].id) {
        ScoreOfAbsent(list, n - 1, list[at].id);
      }
    } else {
      ScoreOfPresent(list, n - 1, at);
    }
  }

  lemma AheadScoresMore(list: seq<Candidate>, x: string, y: string)
    requires AtMostOnce(list, y) && Ahead(list, x, y)
    ensures SetScore(list, |list|, x) >= SetScore(list, |list|, y)
    ensures (exists c | c in list :: c.id == y) ==> SetScore(list, |list|, x) > SetScore(list, |list|, y)
  {
    if n :| 0 <= n < |list| && list[n].id == y {
      var m :| 0 <= m < n && list[m].id == x;
      ScoreOfPresent(list, |list|, n);
      ScoreOfPresent(list, |list|, m);
      BetterRankContributesMore(m, n);
    } else {
      ScoreOfAbsent(list, |list|, y);
    }
  }

  lemma {:induction false} AheadEverywhereScoresMore(sets: seq<seq<Candidate>>, x: string, y: string)
    requires forall k | 0 <= k < |sets| :: AtMostOnce(sets[k], y) && Ahead(sets[k], x, y)
    ensures Score(sets, x) >= Score(sets, y)
    ensures Best(sets, y).Some? ==> Score(sets, x) > Score(sets, y)
  {
    if sets != [] {
      var n := |sets| - 1;
      AheadEverywhereScoresMore(sets[..n], x, y);
      AheadScoresMore(sets[n], x, y);
      SetBestIsMaximal(sets[n], |sets[n]|, y, None);
      if Best(sets[..n], y).None? && SetBest(sets[n], |sets[n]|, y, None).Some? {
        assert SetBest(sets[n], |sets[n]|, y, None).value in sets[n];
      }
    }
  }

  /** What stands ahead in every set where the other appears comes out ahead, if no set holds the other twice. */
  lemma DominanceIsKept(sets: seq<seq<Candidate>>, r: seq<Candidate>, i: nat, j: nat)
    requires IsFusion(sets, r) && i < |r| && j < |r|
    requires forall k | 0 <= k < |sets| :: AtMostOnce(sets[k], r[j].id) && Ahead(sets[k], r[i].id, r[j].id)
    ensures i < j
  {
    assert r[i] in r && r[j] in r;
    AheadEverywhereScoresMore(sets, r[i].id, r[j].id);
  }
}
