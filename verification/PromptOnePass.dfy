/**
  What a rendering leaves of the placeholders: internal/ai/prompts/template.go replaces one variable after the other,
  in any order, over what the ones before have made of the text.  Compared here with a single pass over the text.
 */
module PromptOnePass {
  import opened Common
  import opened Text
  import opened PromptTemplate

  /** Keys that are identifiers, values without braces. */
  ghost predicate IsPlain(vars: map<string, string>) {
    forall k | k in vars :: IsIdentifier(k) && '{' !in vars[k] && '}' !in vars[k]
  }

  // ---------------------------------------------------------------- a single pass

  datatype Token = Char(c: char) | Var(key: string)

  /** The text read from left to right: the placeholders of the supplied keys, and what is left, char by char. */
  ghost function Tokens(text: string, keys: set<string>): (ts: seq<Token>)
    ensures forall i | 0 <= i < |ts| && ts[i].Var? :: ts[i].key in keys
  {
    if text == "" then []
    else if k :| k in keys && Needle(k) <= text then [Var(k)] + Tokens(text[|Needle(k)|..], keys)
    else [Char(text[0])] + Tokens(text[1..], keys)
  }

  /** What a token shows once the keys of `done` are replaced. */
  function Shown(t: Token, vars: map<string, string>, done: set<string>): string
    requires done <= vars.Keys
  {
    match t
    case Char(c) => [c]
    case Var(k) => if k in done then vars[k] else Needle(k)
  }

  function Show(ts: seq<Token>, vars: map<string, string>, done: set<string>): string
    requires done <= vars.Keys
  {
    if ts == [] then "" else Shown(ts[0], vars, done) + Show(ts[1..], vars, done)
  }

  /** Every placeholder that stands in the text itself is replaced by its value, and nothing else is. */
  ghost function OnePass(text: string, vars: map<string, string>): string {
    Show(Tokens(text, vars.Keys), vars, vars.Keys)
  }

  ghost predicate NoneLeft(out: string, vars: map<string, string>) {
    forall k | k in vars :: !Contains(out, Needle(k))
  }

  // ---------------------------------------------------------------- placeholders of identifiers

  lemma PlaceholderChars(y: string)
    requires IsIdentifier(y)
    ensures var n := Needle(y);
            && |n| == |y| + 4 > 4 && n[0] == n[1] == '{' && n[|n| - 2] == n[|n| - 1] == '}'
            && (forall m | 2 <= m < |n| :: n[m] != '{') && (forall m | 0 <= m < |n| - 2 :: n[m] != '}')
  {
    assert forall m | 2 <= m < |y| + 2 :: Needle(y)[m] == y[m - 2];
  }

  lemma PlaceholderIsUnique(s: string, y: string, z: string)
    requires IsIdentifier(y) && IsIdentifier(z) && Needle(y) <= s && Needle(z) <= s
    ensures y == z
  {
    PlaceholderChars(y);
    PlaceholderChars(z);
    assert Needle(y)[|y| + 2] == '}' && Needle(z)[|z| + 2] == '}';
    assert |y| == |z|;
    assert y == Needle(y)[2..|y| + 2] && z == Needle(z)[2..|z| + 2];
  }

  lemma NoPlaceholderInside(x: string, y: string, i: nat)
    requires IsIdentifier(x) && IsIdentifier(y) && OccursAt(Needle(x), Needle(y), i)
    ensures i == 0 && y == x
  {
    PlaceholderChars(x);
    PlaceholderChars(y);
    assert Needle(x)[i + 0] == '{' && Needle(x)[i + 1] == '{';
    assert Needle(y) == Needle(x)[0..|Needle(y)|];
    PlaceholderIsUnique(Needle(x), x, y);
  }

  /** Behind another placeholder, and behind a text without braces, a placeholder begins no earlier than at its end. */
  lemma NoneBeginsInPlaceholder(z: string, y: string, rest: string, i: nat)
    requires IsIdentifier(y) && IsIdentifier(z) && y != z && i < |Needle(z)|
    ensures !OccursAt(Needle(z) + rest, Needle(y), i)
  {
    PlaceholderChars(y);
    PlaceholderChars(z);
    var s := Needle(z) + rest;
    if OccursAt(s, Needle(y), i) {
      assert s[i + 0] == '{' && s[i + 1] == '{';
      assert s[..|Needle(z)|] == Needle(z);
      if i == 0 {
        assert s[0..|Needle(y)|] == Needle(y);
        PlaceholderIsUnique(s, y, z);
      }
    }
  }

  lemma NoneBeginsWithoutBrace(v: string, y: string, rest: string, i: nat)
    requires IsIdentifier(y) && '{' !in v && i < |v|
    ensures !OccursAt(v + rest, Needle(y), i)
  {
    PlaceholderChars(y);
    assert v[i] in v && (v + rest)[i] == v[i] && (v + rest)[i + 0] != Needle(y)[0];
  }

  // ---------------------------------------------------------------- reading and showing

  /** The first token, and how far it reaches. */
  lemma FirstToken(text: string, keys: set<string>) returns (t: Token, source: string)
    requires text != ""
    ensures source == match t { case Char(c) => [c] case Var(k) => Needle(k) }
    ensures source != "" && source <= text && Tokens(text, keys) == [t] + Tokens(text[|source|..], keys)
    ensures t.Char? ==> forall k | k in keys :: !(Needle(k) <= text)
  {
    t := Tokens(text, keys)[0];
    source := match t { case Char(c) => [c] case Var(k) => Needle(k) };
  }

  lemma {:induction false} TokensShowText(text: string, vars: map<string, string>)
    ensures Show(Tokens(text, vars.Keys), vars, {}) == text
    decreases |text|
  {
    if text != "" {
      var t, source := FirstToken(text, vars.Keys);
      var rest := Tokens(text[|source|..], vars.Keys);
      TokensShowText(text[|source|..], vars);
      assert ([t] + rest)[1..] == rest;
    }
  }

  /** No placeholder of y begins where a char token is shown. */
  ghost predicate Clear(ts: seq<Token>, vars: map<string, string>, done: set<string>, y: string)
    requires done <= vars.Keys
  {
    ts == [] || ((ts[0].Char? ==> !(Needle(y) <= Show(ts, vars, done))) && Clear(ts[1..], vars, done, y))
  }

  predicate KeysIn(ts: seq<Token>, vars: map<string, string>) {
    forall i | 0 <= i < |ts| && ts[i].Var? :: ts[i].key in vars
  }

  lemma TailKeys(ts: seq<Token>, vars: map<string, string>)
    requires ts != [] && KeysIn(ts, vars)
    ensures KeysIn(ts[1..], vars)
  {
    assert forall i | 0 <= i < |ts[1..]| :: ts[1..][i] == ts[i + 1];
  }

  lemma {:induction false} TokensAreClear(text: string, vars: map<string, string>, y: string)
    requires y in vars
    ensures Clear(Tokens(text, vars.Keys), vars, {}, y)
    decreases |text|
  {
    TokensShowText(text, vars);
    if text != "" {
      var t, source := FirstToken(text, vars.Keys);
      var rest := Tokens(text[|source|..], vars.Keys);
      TokensAreClear(text[|source|..], vars, y);
      assert ([t] + rest)[1..] == rest;
    }
  }

  /** Replacing a key changes its tokens and nothing else, as long as no placeholder of it begins elsewhere. */
  lemma {:induction false} OneKey(ts: seq<Token>, vars: map<string, string>, done: set<string>, y: string)
    requires IsPlain(vars) && KeysIn(ts, vars) && done <= vars.Keys && y in vars && y !in done
    requires Clear(ts, vars, done, y)
    ensures ReplaceAll(Show(ts, vars, done), Needle(y), vars[y]) == Show(ts, vars, done + {y})
  {
    if ts != [] {
      var t, rest := ts[0], Show(ts[1..], vars, done);
      TailKeys(ts, vars);
      OneKey(ts[1..], vars, done, y);
      OneToken(t, vars, done, y, rest);
    }
  }

  lemma OneToken(t: Token, vars: map<string, string>, done: set<string>, y: string, rest: string)
    requires IsPlain(vars) && (t.Var? ==> t.key in vars) && done <= vars.Keys && y in vars && y !in done
    requires t.Char? ==> !(Needle(y) <= Shown(t, vars, done) + rest)
    ensures ReplaceAll(Shown(t, vars, done) + rest, Needle(y), vars[y])
            == Shown(t, vars, done + {y}) + ReplaceAll(rest, Needle(y), vars[y])
  {
    var shown := Shown(t, vars, done);
    if t == Var(y) {
      ReplaceAtNeedle(rest, Needle(y), vars[y]);
    } else {
      forall i | 0 <= i < |shown| ensures !OccursAt(shown + rest, Needle(y), i) {
        if t.Char? {
          OccursAsSlice(shown + rest, Needle(y), 0);
        } else if t.key in done {
          NoneBeginsWithoutBrace(vars[t.key], y, rest, i);
        } else {
          NoneBeginsInPlaceholder(t.key, y, rest, i);
        }
      }
      ReplaceSkips(shown, rest, Needle(y), vars[y]);
    }
  }

  // ---------------------------------------------------------------- what replacing some keys can form

  lemma PartBeginsNoPlaceholder(y: string, m: nat, z: string, rest: string)
    requires IsIdentifier(y) && IsIdentifier(z) && 0 < m < |Needle(y)|
    ensures !(Needle(y)[m..] <= Needle(z) + rest)
  {
    PlaceholderChars(y);
    PlaceholderChars(z);
    var part, text := Needle(y)[m..], Needle(z) + rest;
    assert part[0] == Needle(y)[m] && text[0] == '{' && text[1] == '{';
    if m == 1 {
      assert part[1] == Needle(y)[2];
    }
  }

  lemma PartStepsOver(part: string, shown: string, rest: string)
    requires part <= shown + rest
    ensures if |shown| <= |part| then part == shown + part[|shown|..] && part[|shown|..] <= rest else part <= shown
  {
    assert forall i | 0 <= i < |part| :: part[i] == (shown + rest)[i];
  }

  lemma PartStepsBack(part: string, shown: string, rest: string)
    requires if |shown| <= |part| then part == shown + part[|shown|..] && part[|shown|..] <= rest else part <= shown
    ensures part <= shown + rest
  {
  }

  /**
    A part of a placeholder behind its first brace that shows at the front of the text with some keys replaced shows
    there with all of them replaced.
   */
  lemma {:induction false} PartStays(ts: seq<Token>, vars: map<string, string>, done: set<string>, y: string, m: nat)
    requires IsPlain(vars) && KeysIn(ts, vars) && done <= vars.Keys && IsIdentifier(y)
    requires 0 < m <= |Needle(y)| && Needle(y)[m..] <= Show(ts, vars, done)
    ensures Needle(y)[m..] <= Show(ts, vars, vars.Keys)
    decreases |ts|
  {
    var part := Needle(y)[m..];
    if part != "" {
      var t, rest := ts[0], Show(ts[1..], vars, done);
      var shown := Shown(t, vars, done);
      if t.Var? && t.key !in done {
        PartBeginsNoPlaceholder(y, m, t.key, rest);
        assert false;
      } else {
        PartStepsOver(part, shown, rest);
        if |shown| <= |part| {
          TailKeys(ts, vars);
          assert part[|shown|..] == Needle(y)[m + |shown|..];
          PartStays(ts[1..], vars, done, y, m + |shown|);
        }
        PartStepsBack(part, shown, Show(ts[1..], vars, vars.Keys));
      }
    }
  }

  lemma WholeStays(ts: seq<Token>, vars: map<string, string>, done: set<string>, y: string)
    requires IsPlain(vars) && KeysIn(ts, vars) && done <= vars.Keys && IsIdentifier(y)
    requires ts != [] && ts[0].Char? && Needle(y) <= Show(ts, vars, done)
    ensures Needle(y) <= Show(ts, vars, vars.Keys)
  {
    var rest := Show(ts[1..], vars, done);
    TailKeys(ts, vars);
    assert Needle(y)[1..] <= rest && Needle(y)[0] == ts[0].c;
    PartStays(ts[1..], vars, done, y, 1);
    assert Needle(y) == [ts[0].c] + Needle(y)[1..];
  }

  lemma {:induction false} ClearBefore(ts: seq<Token>, vars: map<string, string>, done: set<string>, y: string)
    requires IsPlain(vars) && KeysIn(ts, vars) && done <= vars.Keys && IsIdentifier(y)
    requires Clear(ts, vars, vars.Keys, y)
    ensures Clear(ts, vars, done, y)
  {
    if ts != [] {
      TailKeys(ts, vars);
      ClearBefore(ts[1..], vars, done, y);
      if ts[0].Char? && Needle(y) <= Show(ts, vars, done) {
        WholeStays(ts, vars, done, y);
      }
    }
  }

  // ---------------------------------------------------------------- one key after the other

  lemma {:induction false} ClearIfAbsent(ts: seq<Token>, vars: map<string, string>, done: set<string>, y: string)
    requires done <= vars.Keys && !Contains(Show(ts, vars, done), Needle(y))
    ensures Clear(ts, vars, done, y)
  {
    if ts != [] {
      var text, n := Show(ts, vars, done), |Shown(ts[0], vars, done)|;
      assert text[n..] == Show(ts[1..], vars, done);
      OccursAsSlice(text, Needle(y), 0);
      assert !OccursAt(text, Needle(y), 0);
      forall i | 0 <= i <= |text[n..]| ensures !OccursAt(text[n..], Needle(y), i) {
        OccursFurtherOn(text, Needle(y), n, i);
      }
      ClearIfAbsent(ts[1..], vars, done, y);
    }
  }

  predicate Differ(order: seq<string>) {
    forall i, j | 0 <= i < j < |order| :: order[i] != order[j]
  }

  function KeysOf(order: seq<string>): set<string> {
    set k | k in order
  }

  /** When no placeholder begins outside of the tokens, every order shows the same in the end. */
  lemma {:induction false} AllKeys(ts: seq<Token>, vars: map<string, string>, done: set<string>, order: seq<string>)
    requires IsPlain(vars) && KeysIn(ts, vars) && done <= vars.Keys && Differ(order)
    requires forall k | k in order :: k in vars && k !in done && Clear(ts, vars, vars.Keys, k)
    ensures SubstituteIn(Show(ts, vars, done), vars, order) == Show(ts, vars, done + KeysOf(order))
    decreases |order|
  {
    if order == [] {
      assert done + KeysOf(order) == done;
    } else {
      var k := order[0];
      ClearBefore(ts, vars, done, k);
      OneKey(ts, vars, done, k);
      AllKeys(ts, vars, done + {k}, order[1..]);
      assert done + {k} + KeysOf(order[1..]) == done + KeysOf(order);
    }
  }

  lemma {:induction false} OrderVisitsOnce(order: seq<string>, keys: set<string>)
    requires multiset(order) == multiset(keys)
    ensures Differ(order) && KeysOf(order) == keys
  {
    forall i, j | 0 <= i < j < |order| ensures order[i] != order[j] {
      if order[i] == order[j] {
        TwiceCountsTwo(order, i, j);
      }
    }
    assert forall k :: k in order <==> k in multiset(order);
  }

  /** When a single pass leaves no placeholder of a supplied key, every rendering is that single pass. */
  lemma RenderingIsOnePass(text: string, vars: map<string, string>, out: string)
    requires IsPlain(vars) && NoneLeft(OnePass(text, vars), vars) && IsSubstitution(text, vars, out)
    ensures out == OnePass(text, vars)
  {
    var order :| IsOrderOf(order, vars) && Substitutes(text, vars, order, out);
    var ts := Tokens(text, vars.Keys);
    OrderVisitsOnce(order, vars.Keys);
    TokensShowText(text, vars);
    forall k | k in order ensures Clear(ts, vars, vars.Keys, k) {
      ClearIfAbsent(ts, vars, vars.Keys, k);
    }
    AllKeys(ts, vars, {}, order);
    assert {} + KeysOf(order) == vars.Keys;
  }

  // ---------------------------------------------------------------- what a single pass forms

  lemma NoBraceInside(vars: map<string, string>, k: string)
    requires IsPlain(vars) && k in vars
    ensures forall i | 0 <= i < |vars[k]| :: vars[k][i] != '{' && vars[k][i] != '}'
  {
    assert forall i | 0 <= i < |vars[k]| :: vars[k][i] in vars[k];
  }

  lemma TokenOfBrace(t: Token, vars: map<string, string>)
    requires IsPlain(vars) && (t.Var? ==> t.key in vars)
    ensures var shown := Shown(t, vars, vars.Keys);
            forall i | 0 <= i < |shown| && (shown[i] == '{' || shown[i] == '}') :: t == Char(shown[i]) && i == 0
  {
    if t.Var? {
      NoBraceInside(vars, t.key);
    }
  }

  lemma FirstOccurrence(t: Token, vars: map<string, string>, rest: string, needle: string, p: nat)
    requires IsPlain(vars) && (t.Var? ==> t.key in vars) && needle != "" && needle[0] == '{'
    requires OccursAt(Shown(t, vars, vars.Keys) + rest, needle, p)
    ensures if p < |Shown(t, vars, vars.Keys)| then t.Char? && needle <= Shown(t, vars, vars.Keys) + rest
            else OccursAt(rest, needle, p - |Shown(t, vars, vars.Keys)|)
  {
    var shown := Shown(t, vars, vars.Keys);
    var text := shown + rest;
    TokenOfBrace(t, vars);
    OccursAsSlice(text, needle, p);
    assert text[p + 0] == '{';
    if p < |shown| {
      assert shown[p] == '{';
      assert text[0..|needle|] == needle;
    } else {
      assert text[|shown|..] == rest;
      OccursFurtherOn(text, needle, |shown|, p - |shown|);
    }
  }

  /** Where a text that begins with a brace shows once all keys are replaced, it begins at a char token. */
  lemma {:induction false} BeginsAtChar(ts: seq<Token>, vars: map<string, string>, needle: string, p: nat)
    returns (a: nat)
    requires IsPlain(vars) && KeysIn(ts, vars) && needle != "" && needle[0] == '{'
    requires OccursAt(Show(ts, vars, vars.Keys), needle, p)
    ensures a < |ts| && ts[a].Char? && needle <= Show(ts[a..], vars, vars.Keys)
  {
    var n := |Shown(ts[0], vars, vars.Keys)|;
    FirstOccurrence(ts[0], vars, Show(ts[1..], vars, vars.Keys), needle, p);
    if p < n {
      assert ts[0..] == ts;
      a := 0;
    } else {
      TailKeys(ts, vars);
      a := BeginsAtChar(ts[1..], vars, needle, p - n);
      assert ts[1..][a..] == ts[a + 1..];
      a := a + 1;
    }
  }

  lemma EndStepsOver(t: Token, vars: map<string, string>, part: string, rest: string)
    requires IsPlain(vars) && (t.Var? ==> t.key in vars)
    requires part != "" && part[|part| - 1] == '}' && part <= Shown(t, vars, vars.Keys) + rest
    ensures var n := |Shown(t, vars, vars.Keys)|;
            && n <= |part| && part == Shown(t, vars, vars.Keys) + part[n..] && part[n..] <= rest
            && (n == |part| ==> t == Char('}'))
  {
    var shown := Shown(t, vars, vars.Keys);
    PartStepsOver(part, shown, rest);
    TokenOfBrace(t, vars);
    if |part| <= |shown| {
      assert shown[|part| - 1] == '}';
    }
  }

  lemma ShowOneMore(ts: seq<Token>, vars: map<string, string>, done: set<string>, b: nat)
    requires b < |ts| && done <= vars.Keys
    ensures Show(ts[..b + 1], vars, done) == Shown(ts[0], vars, done) + Show(ts[1..][..b], vars, done)
  {
    assert ts[..b + 1][1..] == ts[1..][..b];
  }

  /** A text that ends in a brace ends at a char token as well. */
  lemma {:induction false} EndsAtChar(ts: seq<Token>, vars: map<string, string>, part: string) returns (b: nat)
    requires IsPlain(vars) && KeysIn(ts, vars) && part <= Show(ts, vars, vars.Keys)
    requires part != "" ==> part[|part| - 1] == '}'
    ensures b <= |ts| && Show(ts[..b], vars, vars.Keys) == part
    ensures if part == "" then b == 0 else b > 0 && ts[b - 1] == Char('}')
    decreases |ts|
  {
    b := 0;
    if part != "" {
      var n := |Shown(ts[0], vars, vars.Keys)|;
      EndStepsOver(ts[0], vars, part, Show(ts[1..], vars, vars.Keys));
      TailKeys(ts, vars);
      b := EndsAtChar(ts[1..], vars, part[n..]);
      ShowOneMore(ts, vars, vars.Keys, b);
      assert b > 0 ==> ts[1..][b - 1] == ts[b];
      b := b + 1;
    }
  }

  /** Beginning and ending in two braces. */
  predicate Framed(s: string) {
    |s| >= 2 && s[0] == s[1] == '{' && s[|s| - 2] == s[|s| - 1] == '}'
  }

  lemma {:induction false} ShowOfConcat(a: seq<Token>, b: seq<Token>, vars: map<string, string>, done: set<string>)
    requires done <= vars.Keys
    ensures Show(a + b, vars, done) == Show(a, vars, done) + Show(b, vars, done)
  {
    if a == [] {
      assert a + b == b;
    } else {
      assert (a + b)[1..] == a[1..] + b;
      ShowOfConcat(a[1..], b, vars, done);
    }
  }

  lemma {:induction false} BeginsInBrace(ts: seq<Token>, vars: map<string, string>, done: set<string>)
    requires IsPlain(vars) && KeysIn(ts, vars) && done <= vars.Keys
    requires Show(ts, vars, vars.Keys) != "" && Show(ts, vars, vars.Keys)[0] == '{'
    ensures Show(ts, vars, done) != "" && Show(ts, vars, done)[0] == '{'
  {
    if ts[0].Var? && ts[0].key in done {
      NoBraceInside(vars, ts[0].key);
      TailKeys(ts, vars);
      BeginsInBrace(ts[1..], vars, done);
    }
  }

  lemma ShowOne(t: Token, vars: map<string, string>, done: set<string>)
    requires done <= vars.Keys
    ensures Show([t], vars, done) == Shown(t, vars, done)
  {
    assert [t][1..] == [];
    assert Shown(t, vars, done) + "" == Shown(t, vars, done);
  }

  lemma ShowEnd(ts: seq<Token>, front: seq<Token>, t: Token, vars: map<string, string>, done: set<string>)
    requires done <= vars.Keys && ts == front + [t]
    ensures Show(ts, vars, done) == Show(front, vars, done) + Shown(t, vars, done)
  {
    ShowOfConcat(front, [t], vars, done);
    ShowOne(t, vars, done);
  }

  predicate EndsInBrace(s: string) {
    s != "" && s[|s| - 1] == '}'
  }

  lemma BraceInFront(front: string, v: string, s: string)
    requires s == front + v && EndsInBrace(s) && forall i | 0 <= i < |v| :: v[i] != '}'
    ensures v == "" && s == front
  {
  }

  lemma {:induction false} StaysEndedInBrace(ts: seq<Token>, vars: map<string, string>, done: set<string>)
    requires IsPlain(vars) && KeysIn(ts, vars) && done <= vars.Keys && EndsInBrace(Show(ts, vars, vars.Keys))
    ensures EndsInBrace(Show(ts, vars, done))
  {
    var front, t := ts[..|ts| - 1], ts[|ts| - 1];
    ShowEnd(ts, front, t, vars, done);
    ShowEnd(ts, front, t, vars, vars.Keys);
    if t.Var? && t.key in done {
      NoBraceInside(vars, t.key);
      BraceInFront(Show(front, vars, vars.Keys), vars[t.key], Show(ts, vars, vars.Keys));
      StaysEndedInBrace(front, vars, done);
    }
  }

  lemma FramedInFront(ts: seq<Token>, vars: map<string, string>, done: set<string>, x: string)
    requires IsPlain(vars) && KeysIn(ts, vars) && done <= vars.Keys && IsIdentifier(x)
    requires ts != [] && ts[0].Char? && Show(ts, vars, vars.Keys) == Needle(x)
    ensures var s := Show(ts, vars, done); |s| >= 2 && s[0] == s[1] == '{'
  {
    PlaceholderChars(x);
    var rest := Show(ts[1..], vars, vars.Keys);
    assert Needle(x) == [ts[0].c] + rest;
    assert rest[0] == Needle(x)[1];
    TailKeys(ts, vars);
    BeginsInBrace(ts[1..], vars, done);
  }

  lemma SecondToLast(s: string, front: string)
    requires s == front + "}"
    ensures EndsInBrace(front) <==> |s| >= 2 && s[|s| - 2] == s[|s| - 1] == '}'
  {
  }

  lemma EndOfPlaceholder(x: string, front: string)
    requires IsIdentifier(x) && Needle(x) == front + "}"
    ensures EndsInBrace(front)
  {
    PlaceholderChars(x);
    SecondToLast(Needle(x), front);
  }

  lemma FramedAtEnd(ts: seq<Token>, vars: map<string, string>, done: set<string>, x: string)
    requires IsPlain(vars) && KeysIn(ts, vars) && done <= vars.Keys && IsIdentifier(x)
    requires ts != [] && ts[|ts| - 1] == Char('}') && Show(ts, vars, vars.Keys) == Needle(x)
    ensures var s := Show(ts, vars, done); |s| >= 2 && s[|s| - 2] == s[|s| - 1] == '}'
  {
    var front, t := ts[..|ts| - 1], ts[|ts| - 1];
    var shown := Show(front, vars, done);
    ShowEnd(ts, front, t, vars, vars.Keys);
    EndOfPlaceholder(x, Show(front, vars, vars.Keys));
    StaysEndedInBrace(front, vars, done);
    ShowEnd(ts, front, t, vars, done);
    SecondToLast(shown + "}", shown);
  }

  /** A run of tokens that shows a placeholder in the end begins and ends in two braces all along. */
  lemma StaysFramed(ts: seq<Token>, vars: map<string, string>, done: set<string>, x: string)
    requires IsPlain(vars) && KeysIn(ts, vars) && done <= vars.Keys && IsIdentifier(x)
    requires ts != [] && ts[0].Char? && ts[|ts| - 1] == Char('}') && Show(ts, vars, vars.Keys) == Needle(x)
    ensures Framed(Show(ts, vars, done))
  {
    FramedInFront(ts, vars, done, x);
    FramedAtEnd(ts, vars, done, x);
  }

  // ---------------------------------------------------------------- a rendering that leaves it

  lemma FrameHoldsOff(a: string, framed: string, b: string, y: string)
    requires Framed(framed) && IsIdentifier(y)
    ensures Apart(a, framed + b, Needle(y)) && Apart(framed, b, Needle(y))
  {
    PlaceholderChars(y);
    var n := Needle(y);
    forall i | 0 <= i < |a| && i + |n| > |a| ensures !OccursAt(a + (framed + b), n, i) {
      var m := |a| - i;
      assert (a + (framed + b))[i + m] == '{';
      assert m == 1 ==> (a + (framed + b))[i + 2] == '{';
      assert n[m] != '{' || (m == 1 && n[2] != '{');
    }
    forall i | 0 <= i < |framed| && i + |n| > |framed| ensures !OccursAt(framed + b, n, i) {
      var m := |framed| - 1 - i;
      assert (framed + b)[i + m] == '}' && (m > 0 ==> (framed + b)[i + (m - 1)] == '}');
      assert n[m] != '}' || (m > 0 && n[m - 1] != '}') || m == |n| - 1;
    }
  }

  /** One more key around a run of tokens that begins and ends in two braces: the run is replaced on its own. */
  lemma OneKeyAround(a: string, ts: seq<Token>, b: string, vars: map<string, string>, done: set<string>, y: string)
    requires IsPlain(vars) && KeysIn(ts, vars) && done <= vars.Keys && y in vars && y !in done
    requires Clear(ts, vars, done, y) && Framed(Show(ts, vars, done))
    ensures ReplaceAll(a + (Show(ts, vars, done) + b), Needle(y), vars[y])
            == ReplaceAll(a, Needle(y), vars[y])
               + (Show(ts, vars, done + {y}) + ReplaceAll(b, Needle(y), vars[y]))
  {
    var shown := Show(ts, vars, done);
    FrameHoldsOff(a, shown, b, y);
    ReplaceOfConcat(a, shown + b, Needle(y), vars[y]);
    ReplaceOfConcat(shown, b, Needle(y), vars[y]);
    OneKey(ts, vars, done, y);
  }

  /** A run of tokens that shows the placeholder of x once all keys are replaced. */
  ghost predicate Forms(ts: seq<Token>, vars: map<string, string>, x: string) {
    && IsPlain(vars) && KeysIn(ts, vars) && x in vars
    && ts != [] && ts[0].Char? && ts[|ts| - 1] == Char('}') && Show(ts, vars, vars.Keys) == Needle(x)
  }

  lemma OthersAreClear(ts: seq<Token>, vars: map<string, string>, done: set<string>, x: string, y: string)
    requires Forms(ts, vars, x) && done <= vars.Keys && y in vars && y != x
    ensures Clear(ts, vars, done, y)
  {
    forall i | 0 <= i <= |Needle(x)| ensures !OccursAt(Needle(x), Needle(y), i) {
      if OccursAt(Needle(x), Needle(y), i) {
        NoPlaceholderInside(x, y, i);
      }
    }
    ClearIfAbsent(ts, vars, vars.Keys, y);
    ClearBefore(ts, vars, done, y);
  }

  lemma OneOtherAround(a: string, ts: seq<Token>, b: string, vars: map<string, string>, done: set<string>, x: string,
                       y: string)
    requires Forms(ts, vars, x) && done <= vars.Keys && y in vars && y !in done && y != x
    ensures ReplaceAll(a + (Show(ts, vars, done) + b), Needle(y), vars[y])
            == ReplaceAll(a, Needle(y), vars[y])
               + (Show(ts, vars, done + {y}) + ReplaceAll(b, Needle(y), vars[y]))
  {
    OthersAreClear(ts, vars, done, x, y);
    StaysFramed(ts, vars, done, x);
    OneKeyAround(a, ts, b, vars, done, y);
  }

  lemma KeysOfRest(done: set<string>, order: seq<string>)
    requires order != []
    ensures done + {order[0]} + KeysOf(order[1..]) == done + KeysOf(order)
  {
  }

  lemma {:induction false} OthersAround(a: string, ts: seq<Token>, b: string, vars: map<string, string>,
                                        done: set<string>, x: string, order: seq<string>)
    returns (a': string, b': string)
    requires Forms(ts, vars, x) && done <= vars.Keys && Differ(order)
    requires forall k | k in order :: k in vars && k !in done && k != x
    ensures SubstituteIn(a + (Show(ts, vars, done) + b), vars, order)
            == a' + (Show(ts, vars, done + KeysOf(order)) + b')
    decreases |order|
  {
    a', b' := a, b;
    if order == [] {
      assert done + KeysOf(order) == done;
    } else {
      var y, rest := order[0], order[1..];
      OneOtherAround(a, ts, b, vars, done, x, y);
      assert forall k | k in rest :: k in order;
      assert forall i | 0 < i < |order| :: order[i] != order[0];
      a', b' := OthersAround(ReplaceAll(a, Needle(y), vars[y]), ts, ReplaceAll(b, Needle(y), vars[y]), vars,
                             done + {y}, x, rest);
      KeysOfRest(done, order);
    }
  }

  lemma {:induction false} ClearPart(a: seq<Token>, ts: seq<Token>, b: seq<Token>, vars: map<string, string>,
                                     done: set<string>, y: string)
    requires done <= vars.Keys && Clear(a + ts + b, vars, done, y)
    ensures Clear(ts, vars, done, y)
    decreases |a|, |ts|
  {
    if a != [] {
      assert (a + ts + b)[1..] == a[1..] + ts + b;
      ClearPart(a[1..], ts, b, vars, done, y);
    } else if ts != [] {
      assert a + ts + b == ts + b;
      ShowOfConcat(ts, b, vars, done);
      assert (ts + b)[1..] == [] + ts[1..] + b;
      ClearPart([], ts[1..], b, vars, done, y);
    }
  }

  lemma ShowOfThree(all: seq<Token>, a: seq<Token>, ts: seq<Token>, b: seq<Token>, vars: map<string, string>,
                    done: set<string>)
    requires done <= vars.Keys && all == a + ts + b
    ensures Show(all, vars, done) == Show(a, vars, done) + (Show(ts, vars, done) + Show(b, vars, done))
  {
    var rest := ts + b;
    assert Show(all, vars, done) == Show(a, vars, done) + Show(rest, vars, done) by {
      assert all == a + rest;
      ShowOfConcat(a, rest, vars, done);
    }
    assert Show(rest, vars, done) == Show(ts, vars, done) + Show(b, vars, done) by {
      ShowOfConcat(ts, b, vars, done);
    }
  }

  lemma FirstKeyAround(text: string, a: seq<Token>, ts: seq<Token>, b: seq<Token>, vars: map<string, string>,
                       x: string) returns (a': string, b': string)
    requires Forms(ts, vars, x) && Tokens(text, vars.Keys) == a + ts + b
    ensures ReplaceAll(text, Needle(x), vars[x]) == a' + (Show(ts, vars, {x}) + b')
  {
    var front, behind := Show(a, vars, {}), Show(b, vars, {});
    TokensShowText(text, vars);
    ShowOfThree(Tokens(text, vars.Keys), a, ts, b, vars, {});
    TokensAreClear(text, vars, x);
    ClearPart(a, ts, b, vars, {}, x);
    StaysFramed(ts, vars, {}, x);
    OneKeyAround(front, ts, behind, vars, {}, x);
    assert {} + {x} == {x};
    a', b' := ReplaceAll(front, Needle(x), vars[x]), ReplaceAll(behind, Needle(x), vars[x]);
  }

  lemma ContainsMiddle(a: string, needle: string, b: string)
    ensures Contains(a + (needle + b), needle)
  {
    OccursAsSlice(a + (needle + b), needle, |a|);
  }

  /** With the key it forms visited first and the others after it, a placeholder that a run of tokens forms stays. */
  lemma FormedStays(text: string, a: seq<Token>, ts: seq<Token>, b: seq<Token>, vars: map<string, string>, x: string,
                    order: seq<string>)
    requires Forms(ts, vars, x) && Tokens(text, vars.Keys) == a + ts + b
    requires Differ(order) && (forall k | k in order :: k in vars && k != x) && {x} + KeysOf(order) == vars.Keys
    ensures Contains(SubstituteIn(ReplaceAll(text, Needle(x), vars[x]), vars, order), Needle(x))
  {
    var a', b' := FirstKeyAround(text, a, ts, b, vars, x);
    var a'', b'' := OthersAround(a', ts, b', vars, {x}, x, order);
    ContainsMiddle(a'', Needle(x), b'');
  }

  lemma {:induction false} SomeOrder(keys: set<string>) returns (order: seq<string>)
    ensures multiset(order) == multiset(keys)
  {
    if keys == {} {
      order := [];
    } else {
      var k :| k in keys;
      order := SomeOrder(keys - {k});
      assert keys == keys - {k} + {k};
      order := [k] + order;
    }
  }

  lemma RunFrom(ts: seq<Token>, vars: map<string, string>, x: string) returns (n: nat)
    requires IsPlain(vars) && KeysIn(ts, vars) && x in vars
    requires ts != [] && ts[0].Char? && Needle(x) <= Show(ts, vars, vars.Keys)
    ensures n <= |ts| && Forms(ts[..n], vars, x)
  {
    PlaceholderChars(x);
    n := EndsAtChar(ts, vars, Needle(x));
  }

  lemma PlaceOf(text: string, needle: string) returns (p: nat)
    requires Contains(text, needle)
    ensures OccursAt(text, needle, p)
  {
    p :| 0 <= p <= |text| && OccursAt(text, needle, p);
  }

  lemma PlaceholderBegins(ts: seq<Token>, vars: map<string, string>, x: string) returns (i: nat)
    requires IsPlain(vars) && KeysIn(ts, vars) && x in vars && Contains(Show(ts, vars, vars.Keys), Needle(x))
    ensures i < |ts| && ts[i].Char? && Needle(x) <= Show(ts[i..], vars, vars.Keys)
  {
    PlaceholderChars(x);
    var p := PlaceOf(Show(ts, vars, vars.Keys), Needle(x));
    i := BeginsAtChar(ts, vars, Needle(x), p);
  }

  /** The run of tokens that forms a placeholder left by a single pass. */
  lemma FormingRun(ts: seq<Token>, vars: map<string, string>, x: string)
    returns (a: seq<Token>, run: seq<Token>, b: seq<Token>)
    requires IsPlain(vars) && KeysIn(ts, vars) && x in vars && Contains(Show(ts, vars, vars.Keys), Needle(x))
    ensures Forms(run, vars, x) && ts == a + run + b
  {
    var i := PlaceholderBegins(ts, vars, x);
    var rest := ts[i..];
    assert KeysIn(rest, vars);
    var n := RunFrom(rest, vars, x);
    a, run, b := ts[..i], rest[..n], rest[n..];
    assert ts == a + (run + b);
  }

  lemma OrderWithFirst(x: string, order: seq<string>, vars: map<string, string>)
    requires x in vars && multiset(order) == multiset(vars.Keys - {x})
    ensures IsOrderOf([x] + order, vars) && Differ(order) && {x} + KeysOf(order) == vars.Keys
    ensures forall k | k in order :: k in vars && k != x
  {
    OrderVisitsOnce(order, vars.Keys - {x});
    assert forall k | k in order :: k in KeysOf(order);
    assert vars.Keys == vars.Keys - {x} + {x};
  }

  lemma FormedIsLeft(text: string, vars: map<string, string>, x: string) returns (out: string)
    requires IsPlain(vars) && x in vars && Contains(OnePass(text, vars), Needle(x))
    ensures IsSubstitution(text, vars, out) && Contains(out, Needle(x))
  {
    var a, run, b := FormingRun(Tokens(text, vars.Keys), vars, x);
    var order := SomeOrder(vars.Keys - {x});
    OrderWithFirst(x, order, vars);
    FormedStays(text, a, run, b, vars, x, order);
    assert ([x] + order)[1..] == order;
    out := SubstituteIn(text, vars, [x] + order);
    assert Substitutes(text, vars, [x] + order, out);
  }

  /**
    With identifiers as keys and values without braces, no rendering leaves a placeholder of a supplied key exactly
    if a single pass over the text leaves none.
   */
  lemma NoneIsLeftExactly(text: string, vars: map<string, string>)
    requires IsPlain(vars)
    ensures (forall out | IsSubstitution(text, vars, out) :: NoneLeft(out, vars))
              <==> NoneLeft(OnePass(text, vars), vars)
  {
    if NoneLeft(OnePass(text, vars), vars) {
      forall out | IsSubstitution(text, vars, out) ensures NoneLeft(out, vars) {
        RenderingIsOnePass(text, vars, out);
      }
    } else {
      var x :| x in vars && Contains(OnePass(text, vars), Needle(x));
      var out := FormedIsLeft(text, vars, x);
    }
  }

  // ---------------------------------------------------------------- texts without stray braces

  /** The i-th character belongs to a placeholder of a supplied key. */
  ghost predicate IsCovered(text: string, vars: map<string, string>, i: nat) {
    exists k, j | k in vars && 0 <= j <= i :: i < j + |Needle(k)| && OccursAt(text, Needle(k), j)
  }

  /** Every brace does. */
  ghost predicate NoStrayBrace(text: string, vars: map<string, string>) {
    forall i | 0 <= i < |text| && (text[i] == '{' || text[i] == '}') :: IsCovered(text, vars, i)
  }

  lemma CoverOfRest(text: string, vars: map<string, string>, n: nat, i: nat)
    requires IsPlain(vars) && 0 < n <= i < |text| && IsCovered(text, vars, i)
    requires forall k, j | k in vars && 0 <= j < n && OccursAt(text, Needle(k), j) :: j + |Needle(k)| <= n
    ensures IsCovered(text[n..], vars, i - n)
  {
    var k, j :| k in vars && 0 <= j <= i && i < j + |Needle(k)| && OccursAt(text, Needle(k), j);
    OccursFurtherOn(text, Needle(k), n, j - n);
  }

  lemma NoneOverlaps(z: string, y: string, rest: string, j: nat)
    requires IsIdentifier(y) && IsIdentifier(z) && j < |Needle(z)| && OccursAt(Needle(z) + rest, Needle(y), j)
    ensures y == z && j == 0
  {
    if y != z {
      NoneBeginsInPlaceholder(z, y, rest, j);
    } else {
      PlaceholderChars(z);
      assert (Needle(z) + rest)[j + 0] == '{' && (Needle(z) + rest)[j + 1] == '{';
    }
  }

  /** No placeholder reaches over the end of the first token. */
  lemma FirstTokenIsApart(text: string, vars: map<string, string>, t: Token, source: string)
    requires IsPlain(vars) && (t.Var? ==> t.key in vars && source == Needle(t.key)) && (t.Char? ==> |source| == 1)
    requires source <= text && (t.Char? ==> forall k | k in vars :: !(Needle(k) <= text))
    ensures forall k, j | k in vars && 0 <= j < |source| && OccursAt(text, Needle(k), j) ::
              t.Var? && j + |Needle(k)| <= |source|
  {
    var rest := text[|source|..];
    assert text == source + rest;
    forall k, j | k in vars && 0 <= j < |source| && OccursAt(text, Needle(k), j)
      ensures t.Var? && j + |Needle(k)| <= |source|
    {
      if t.Var? {
        NoneOverlaps(t.key, k, rest, j);
      } else {
        OccursAsSlice(text, Needle(k), 0);
      }
    }
  }

  lemma NoCoverInFront(text: string, vars: map<string, string>)
    requires forall k | k in vars :: !(Needle(k) <= text)
    ensures !IsCovered(text, vars, 0)
  {
    forall k | k in vars ensures !OccursAt(text, Needle(k), 0) {
      OccursAsSlice(text, Needle(k), 0);
    }
  }

  lemma StrayTokens(text: string, vars: map<string, string>, t: Token, source: string)
    requires IsPlain(vars) && (t.Var? ==> t.key in vars && source == Needle(t.key)) && (t.Char? ==> source == [t.c])
    requires source <= text && (t.Char? ==> forall k | k in vars :: !(Needle(k) <= text))
    requires NoStrayBrace(text, vars)
    ensures NoStrayBrace(text[|source|..], vars) && (t.Char? ==> t.c != '{' && t.c != '}')
  {
    FirstTokenIsApart(text, vars, t, source);
    var n := |source|;
    forall i | 0 <= i < |text[n..]| && (text[n..][i] == '{' || text[n..][i] == '}')
      ensures IsCovered(text[n..], vars, i)
    {
      CoverOfRest(text, vars, n, i + n);
    }
    if t.Char? {
      assert text[0] == t.c;
      NoCoverInFront(text, vars);
    }
  }

  lemma OnePassOneMore(text: string, vars: map<string, string>) returns (t: Token, source: string)
    requires text != ""
    ensures source == match t { case Char(c) => [c] case Var(k) => Needle(k) }
    ensures source != "" && source <= text && (t.Var? ==> t.key in vars)
    ensures t.Char? ==> forall k | k in vars :: !(Needle(k) <= text)
    ensures OnePass(text, vars) == Shown(t, vars, vars.Keys) + OnePass(text[|source|..], vars)
  {
    t, source := FirstToken(text, vars.Keys);
    var rest := Tokens(text[|source|..], vars.Keys);
    assert ([t] + rest)[0] == t && ([t] + rest)[1..] == rest;
  }

  predicate NoBrace(s: string) {
    forall i | 0 <= i < |s| :: s[i] != '{' && s[i] != '}'
  }

  lemma {:induction false} OnePassHasNoBrace(text: string, vars: map<string, string>)
    requires IsPlain(vars) && NoStrayBrace(text, vars)
    ensures NoBrace(OnePass(text, vars))
    decreases |text|
  {
    if text != "" {
      var t, source := OnePassOneMore(text, vars);
      StrayTokens(text, vars, t, source);
      var rest := text[|source|..];
      OnePassHasNoBrace(rest, vars);
      if t.Var? {
        NoBraceInside(vars, t.key);
      }
      var shown := Shown(t, vars, vars.Keys);
      assert NoBrace(shown);
    }
  }

  lemma NoPlaceholderWithoutBrace(s: string, k: string)
    requires IsIdentifier(k) && forall i | 0 <= i < |s| :: s[i] != '{'
    ensures !Contains(s, Needle(k))
  {
    assert s + "" == s;
    forall i | 0 <= i <= |s| ensures !OccursAt(s, Needle(k), i) {
      if i < |s| {
        NoneBeginsWithoutBrace(s, k, "", i);
      }
    }
  }

  /** A text whose braces all belong to placeholders of supplied keys is rendered in one way, without a brace left. */
  lemma CoveredTextIsRenderedOut(text: string, vars: map<string, string>, out: string)
    requires IsPlain(vars) && NoStrayBrace(text, vars) && IsSubstitution(text, vars, out)
    ensures out == OnePass(text, vars) && NoneLeft(out, vars)
    ensures NoBrace(out)
  {
    OnePassHasNoBrace(text, vars);
    forall k | k in vars ensures !Contains(OnePass(text, vars), Needle(k)) {
      NoPlaceholderWithoutBrace(OnePass(text, vars), k);
    }
    RenderingIsOnePass(text, vars, out);
  }

  lemma FormingTextSplits()
    ensures IsSplit("{{a{{ab}}b}}", "{{ab}}", ["{{a", "b}}"])
  {
    var parts, needle, first := ["{{a", "b}}"], "{{ab}}", "{{a{{ab}}";
    assert parts[1..] == ["b}}"] && parts[0] + needle == first;
    assert Join(parts, needle) == "{{a{{ab}}b}}";
    assert first[0 + 3] == '{' != needle[3] && first[1 + 1] == 'a' != needle[1] && first[2 + 0] == 'a' != needle[0];
  }

  lemma FormingTextIsReplaced()
    ensures ReplaceAll("{{a{{ab}}b}}", "{{ab}}", "") == "{{ab}}"
  {
    var parts := ["{{a", "b}}"];
    FormingTextSplits();
    ReplaceAllMeans("{{a{{ab}}b}}", "{{ab}}", "", parts);
    assert parts[1..] == ["b}}"] && Join(parts, "") == "{{ab}}";
  }

  lemma OneKeyOrder(text: string, vars: map<string, string>, k: string)
    requires vars.Keys == {k}
    ensures IsSubstitution(text, vars, ReplaceAll(text, Needle(k), vars[k]))
  {
    var order := [k];
    assert order[1..] == [];
    assert IsOrderOf(order, vars) && Substitutes(text, vars, order, ReplaceAll(text, Needle(k), vars[k]));
  }

  lemma ContainsItself(s: string)
    ensures Contains(s, s)
  {
    OccursAsSlice(s, s, 0);
  }

  lemma OneKeyIsPlain(vars: map<string, string>, k: string)
    requires vars.Keys == {k} && vars[k] == "" && IsIdentifier(k)
    ensures IsPlain(vars)
  {
    assert forall k' | k' in vars :: k' == k;
  }

  lemma OneIsLeft(vars: map<string, string>, k: string)
    requires k in vars
    ensures !NoneLeft(Needle(k), vars)
  {
    ContainsItself(Needle(k));
  }

  lemma PlaceholderIsLeft(text: string, vars: map<string, string>, k: string, out: string)
    requires vars.Keys == {k} && vars[k] == "" && IsIdentifier(k)
    requires out == Needle(k) && out == ReplaceAll(text, Needle(k), vars[k])
    ensures IsPlain(vars) && IsSubstitution(text, vars, out) && !NoneLeft(out, vars)
  {
    OneKeyOrder(text, vars, k);
    OneKeyIsPlain(vars, k);
    OneIsLeft(vars, k);
  }

  lemma ShortName()
    ensures IsIdentifier("ab") && Needle("ab") == "{{ab}}"
  {
  }

  /** A stray brace can be one too many: around an empty value it forms the placeholder again. */
  lemma PlaceholderCanBeFormed(text: string, vars: map<string, string>, out: string)
    requires text == "{{a{{ab}}b}}" && vars == map["ab" := ""] && out == "{{ab}}"
    ensures IsPlain(vars) && IsSubstitution(text, vars, out) && !NoneLeft(out, vars)
  {
    var k := "ab";
    ShortName();
    FormingTextIsReplaced();
    assert out == Needle(k) && vars.Keys == {k} && vars[k] == "" && ReplaceAll(text, Needle(k), "") == Needle(k);
    PlaceholderIsLeft(text, vars, k, out);
  }
}
