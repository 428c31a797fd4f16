/** When the order of the tools decides the selection: preferOver in internal/application/tools/selector.go. */
module ToolOrder {
  import opened Selector

  ghost predicate DistinctIds(ts: seq<Tool>) {
    forall i, j | 0 <= i < j < |ts| :: ts[i].id != ts[j].id
  }

  /** The same tools in any order. */
  ghost predicate SameTools(us: seq<Tool>, ts: seq<Tool>) {
    multiset(us) == multiset(ts)
  }

  ghost predicate OrderIsIrrelevant(ts: seq<Tool>) {
    forall us | SameTools(us, ts) :: Winner(us) == Winner(ts)
  }

  predicate Beats(c: Tool, t: Tool)
    requires Accepted(c) && Accepted(t)
  {
    PreferOver(Matched(c), Matched(t)) && !PreferOver(Matched(t), Matched(c))
  }

  /** An accepted tool preferred over every other accepted one, and none of them over it. */
  ghost predicate IsChampion(c: Tool, ts: seq<Tool>) {
    c in ts && Accepted(c) && forall t | t in ts && t != c && Accepted(t) :: Beats(c, t)
  }

  // ---------------------------------------------------------------- a champion wins in every order

  lemma {:induction false} ChampionWins(us: seq<Tool>, c: Tool)
    requires Accepted(c) && forall t | t in us && t != c && Accepted(t) :: Beats(c, t)
    ensures Winner(us) == if c in us then Matched(c) else Winner(us)
  {
    if us != [] {
      var n := |us| - 1;
      ChampionWins(us[..n], c);
      WinnerIsOneOf(us[..n]);
      if us[n] == c {
        OwnIsNotPreferred(c);
      }
    }
  }

  lemma OwnIsNotPreferred(c: Tool)
    requires Accepted(c)
    ensures !PreferOver(Matched(c), Matched(c))
  {
  }

  lemma WinnerIsOneOf(us: seq<Tool>)
    ensures Winner(us) == NOTHING || exists t | t in us :: Accepted(t) && Winner(us) == Matched(t)
  {
    WinnerHasMostEntities(us);
    if Winner(us).matched {
      var i :| 0 <= i < |us| && Accepted(us[i]) && Winner(us) == Matched(us[i]);
      assert us[i] in us;
    }
  }

  // ---------------------------------------------------------------- a winner in every order is the champion

  /** What follows a winner either leaves it or brings a winner of its own. */
  lemma {:induction false} WinnerOfMore(a: seq<Tool>, b: seq<Tool>)
    ensures Winner(a + b) == Winner(a) || exists t | t in b :: Accepted(t) && Winner(a + b) == Matched(t)
  {
    if b == [] {
      assert a + b == a;
    } else {
      var n := |b| - 1;
      WinnerOfMore(a, b[..n]);
      assert (a + b)[..|a + b| - 1] == a + b[..n];
      assert b[n] in b;
      assert forall t | t in b[..n] :: t in b;
    }
  }

  lemma Without(ts: seq<Tool>, i: nat)
    requires i < |ts|
    ensures multiset(ts) == multiset(ts[..i] + ts[i + 1..]) + multiset{ts[i]}
  {
    assert ts == ts[..i] + [ts[i]] + ts[i + 1..];
  }

  lemma WithoutIsApart(ts: seq<Tool>, i: nat, x: Tool)
    requires i < |ts| && DistinctIds(ts) && x in ts[..i] + ts[i + 1..]
    ensures x.id != ts[i].id
  {
    if x in ts[..i] {
      var k :| 0 <= k < i && ts[k] == x;
    } else {
      var k :| i < k < |ts| && ts[k] == x;
    }
  }

  /** The tools but for two, in some order. */
  lemma Others(ts: seq<Tool>, c: Tool, t: Tool) returns (rest: seq<Tool>)
    requires c in ts && t in ts && c != t && DistinctIds(ts)
    ensures multiset(ts) == multiset(rest) + multiset{t} + multiset{c}
    ensures c !in rest && t.id != c.id
  {
    var i :| 0 <= i < |ts| && ts[i] == c;
    var a := ts[..i] + ts[i + 1..];
    Without(ts, i);
    assert t in multiset(ts) && t in multiset(a);
    WithoutIsApart(ts, i, t);
    var j :| 0 <= j < |a| && a[j] == t;
    rest := a[..j] + a[j + 1..];
    Without(a, j);
    if c in rest {
      assert c in a;
      WithoutIsApart(ts, i, c);
    }
  }

  lemma WinnerOneMore(us: seq<Tool>, t: Tool)
    ensures Winner(us + [t]) == if Accepted(t) && PreferOver(Matched(t), Winner(us)) then Matched(t) else Winner(us)
  {
    assert (us + [t])[..|us|] == us;
  }

  lemma DifferentMatches(c: Tool, t: Tool)
    requires c.id != t.id && Accepted(c) && Accepted(t)
    ensures Matched(c) != Matched(t) && Matched(c) != NOTHING
  {
  }

  /** A challenger placed behind a winner of every order is not preferred over it. */
  lemma ChallengerLast(rest: seq<Tool>, c: Tool, t: Tool)
    requires c.id != t.id && Accepted(c) && Accepted(t) && Winner(rest + [c] + [t]) == Matched(c)
    ensures !PreferOver(Matched(t), Matched(c))
  {
    DifferentMatches(c, t);
    WinnerOneMore(rest + [c], t);
  }

  /** The winner is preferred over a challenger placed in front of it. */
  lemma ChallengerFirst(rest: seq<Tool>, c: Tool, t: Tool)
    requires c.id != t.id && Accepted(c) && Accepted(t) && Winner([t] + [c] + rest) == Matched(c)
    requires forall x | x in rest :: x.id != c.id
    ensures PreferOver(Matched(c), Matched(t))
  {
    DifferentMatches(c, t);
    assert [] + [t] == [t];
    WinnerOneMore([], t);
    WinnerOneMore([t], c);
    WinnerOfMore([t] + [c], rest);
    forall x | x in rest && Accepted(x)
      ensures Matched(x) != Matched(c)
    {
      DifferentMatches(c, x);
    }
  }

  lemma Placed<T>(rest: seq<T>, c: T, t: T)
    ensures multiset(rest + [c] + [t]) == multiset([t] + [c] + rest) == multiset(rest) + multiset{t} + multiset{c}
  {
  }

  lemma InThatOrder(us: seq<Tool>, ts: seq<Tool>)
    requires OrderIsIrrelevant(ts) && SameTools(us, ts)
    ensures Winner(us) == Winner(ts)
  {
  }

  lemma InAnyPlace(rest: seq<Tool>, c: Tool, t: Tool, ts: seq<Tool>)
    requires multiset(ts) == multiset(rest) + multiset{t} + multiset{c} && OrderIsIrrelevant(ts)
    ensures Winner(rest + [c] + [t]) == Winner(ts) && Winner([t] + [c] + rest) == Winner(ts)
  {
    Placed(rest, c, t);
    InThatOrder(rest + [c] + [t], ts);
    InThatOrder([t] + [c] + rest, ts);
  }

  lemma LastAndFirst(rest: seq<Tool>, c: Tool, t: Tool)
    requires c.id != t.id && Accepted(c) && Accepted(t) && forall x | x in rest :: x.id != c.id
    requires Winner(rest + [c] + [t]) == Matched(c) && Winner([t] + [c] + rest) == Matched(c)
    ensures Beats(c, t)
  {
    ChallengerLast(rest, c, t);
    ChallengerFirst(rest, c, t);
  }

  lemma {:induction false} OthersAreApart(ts: seq<Tool>, rest: seq<Tool>, c: Tool, t: Tool)
    requires DistinctIds(ts) && multiset(ts) == multiset(rest) + multiset{t} + multiset{c} && c !in rest
    ensures forall x | x in rest :: x.id != c.id
  {
    forall x | x in rest
      ensures x.id != c.id
    {
      assert x in multiset(rest) && x in multiset(ts) && c in multiset(ts);
      var i :| 0 <= i < |ts| && ts[i] == x;
      var j :| 0 <= j < |ts| && ts[j] == c;
    }
  }

  /** What wins in every order beats every other accepted tool. */
  lemma AlwaysWinningBeats(ts: seq<Tool>, c: Tool, t: Tool)
    requires DistinctIds(ts) && c in ts && t in ts && t != c && Accepted(c) && Accepted(t)
    requires OrderIsIrrelevant(ts) && Winner(ts) == Matched(c)
    ensures Beats(c, t)
  {
    var rest := Others(ts, c, t);
    InAnyPlace(rest, c, t, ts);
    OthersAreApart(ts, rest, c, t);
    LastAndFirst(rest, c, t);
  }

  /** The order of the tools never matters exactly when none is accepted or one is a champion. */
  lemma OrderMattersExactlyWithoutAChampion(ts: seq<Tool>)
    requires DistinctIds(ts)
    ensures OrderIsIrrelevant(ts) <==> (forall t | t in ts :: !Accepted(t)) || exists c :: IsChampion(c, ts)
  {
    if c :| IsChampion(c, ts) {
      forall us | SameTools(us, ts)
        ensures Winner(us) == Winner(ts)
      {
        SameMembers(us, ts);
        ChampionWins(us, c);
        ChampionWins(ts, c);
      }
    } else if forall t | t in ts :: !Accepted(t) {
      forall us | SameTools(us, ts)
        ensures Winner(us) == Winner(ts)
      {
        SameMembers(us, ts);
        WinnerIsOneOf(us);
        WinnerIsOneOf(ts);
      }
    } else if OrderIsIrrelevant(ts) {
      WinnerHasMostEntities(ts);
      var c := TheWinner(ts);
      forall t | t in ts && t != c && Accepted(t)
        ensures Beats(c, t)
      {
        AlwaysWinningBeats(ts, c, t);
      }
      assert IsChampion(c, ts);
    }
  }

  lemma TheWinner(ts: seq<Tool>) returns (c: Tool)
    requires exists t | t in ts :: Accepted(t)
    ensures c in ts && Accepted(c) && Winner(ts) == Matched(c)
  {
    var t :| t in ts && Accepted(t);
    var k :| 0 <= k < |ts| && ts[k] == t;
    WinnerHasMostEntities(ts);
    WinnerIsOneOf(ts);
    c :| c in ts && Accepted(c) && Winner(ts) == Matched(c);
  }

  lemma SameMembers(us: seq<Tool>, ts: seq<Tool>)
    requires SameTools(us, ts)
    ensures forall t :: t in us <==> t in ts
  {
    assert forall t :: t in us <==> t in multiset(us);
    assert forall t :: t in ts <==> t in multiset(ts);
  }
}
