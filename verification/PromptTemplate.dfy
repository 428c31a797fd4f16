/** Prompt templates and their rendering: internal/ai/prompts/template.go, and the variable pattern of loader.go. */
module PromptTemplate {
  import opened Common
  import opened Text

  datatype Template = Template(
    name: string,
    system: string,
    user: string,
    requiredVars: seq<string>,
    tenantVars: seq<string>)

  datatype Prompt = Prompt(system: string, user: string, vars: map<string, string>)

  /** The placeholder of a variable. */
  function Needle(name: string): (needle: string)
    ensures needle != "" && needle[|needle| - 1] == '}'
  {
    "{{" + name + "}}"
  }

  // ---------------------------------------------------------------- the variable pattern

  predicate IsWordStart(c: char) {
    'A' <= c <= 'Z' || 'a' <= c <= 'z' || c == '_'
  }

  predicate IsWordChar(c: char) {
    IsWordStart(c) || '0' <= c <= '9'
  }

  predicate IsIdentifier(s: string) {
    s != "" && IsWordStart(s[0]) && forall i | 0 <= i < |s| :: IsWordChar(s[i])
  }

  /** The characters \s stands for in a Go pattern. */
  predicate IsPatternSpace(c: char) {
    c in "\t\n\r " || c as int == 0x0C
  }

  function SkipSpaces(s: string, i: nat): (j: nat)
    requires i <= |s|
    ensures i <= j <= |s| && (forall k | i <= k < j :: IsPatternSpace(s[k])) && (j < |s| ==> !IsPatternSpace(s[j]))
    decreases |s| - i
  {
    if i < |s| && IsPatternSpace(s[i]) then SkipSpaces(s, i + 1) else i
  }

  function SkipWord(s: string, i: nat): (j: nat)
    requires i <= |s|
    ensures i <= j <= |s| && (forall k | i <= k < j :: IsWordChar(s[k])) && (j < |s| ==> !IsWordChar(s[j]))
    decreases |s| - i
  {
    if i < |s| && IsWordChar(s[i]) then SkipWord(s, i + 1) else i
  }

  /** templateVarPattern matches at offset i: two braces, a word that may be padded, two braces. */
  predicate VarAt(s: string, i: nat) {
    i + 2 <= |s| && s[i] == '{' && s[i + 1] == '{' &&
    var a := SkipSpaces(s, i + 2);
    a < |s| && IsWordStart(s[a]) &&
    var b := SkipWord(s, a);
    var c := SkipSpaces(s, b);
    c + 2 <= |s| && s[c] == '}' && s[c + 1] == '}'
  }

  predicate HasVar(s: string) {
    exists i | 0 <= i < |s| :: VarAt(s, i)
  }

  /**
    The regular expression, read off its parts: {{ in front of i+2, blanks up to a, a word up to b, blanks up to c,
    }}.
   */
  ghost predicate IsMatch(s: string, i: nat, a: nat, b: nat, c: nat) {
    && i + 2 <= a < b <= c && c + 2 <= |s|
    && s[i] == '{' && s[i + 1] == '{'
    && (forall k | i + 2 <= k < a :: IsPatternSpace(s[k]))
    && IsWordStart(s[a])
    && (forall k | a <= k < b :: IsWordChar(s[k]))
    && (forall k | b <= k < c :: IsPatternSpace(s[k]))
    && s[c] == '}' && s[c + 1] == '}'
  }

  lemma {:induction false} SkipSpacesStops(s: string, i: nat, j: nat)
    requires i <= j < |s| && (forall k | i <= k < j :: IsPatternSpace(s[k])) && !IsPatternSpace(s[j])
    ensures SkipSpaces(s, i) == j
    decreases j - i
  {
    if i < j {
      SkipSpacesStops(s, i + 1, j);
    }
  }

  lemma {:induction false} SkipWordStops(s: string, i: nat, j: nat)
    requires i <= j < |s| && (forall k | i <= k < j :: IsWordChar(s[k])) && !IsWordChar(s[j])
    ensures SkipWord(s, i) == j
    decreases j - i
  {
    if i < j {
      SkipWordStops(s, i + 1, j);
    }
  }

  lemma MatchIsFound(s: string, i: nat, a: nat, b: nat, c: nat)
    requires IsMatch(s, i, a, b, c)
    ensures VarAt(s, i)
  {
    SkipSpacesStops(s, i + 2, a);
    SkipWordStops(s, a, b);
    SkipSpacesStops(s, b, c);
  }

  lemma FoundIsMatch(s: string, i: nat) returns (a: nat, b: nat, c: nat)
    requires VarAt(s, i)
    ensures IsMatch(s, i, a, b, c)
  {
    a := SkipSpaces(s, i + 2);
    b := SkipWord(s, a);
    c := SkipSpaces(s, b);
  }

  /** The scanner finds exactly the matches of the regular expression. */
  lemma VarPatternIsExact(s: string, i: nat)
    ensures VarAt(s, i) <==> exists a, b, c :: IsMatch(s, i, a, b, c)
  {
    if a, b, c :| IsMatch(s, i, a, b, c) {
      MatchIsFound(s, i, a, b, c);
    } else if VarAt(s, i) {
      var a, b, c := FoundIsMatch(s, i);
    }
  }

  lemma MatchSurvivesEmbedding(s: string, part: string, i: nat, j: nat, a: nat, b: nat, c: nat)
    requires IsMatch(part, j, a, b, c) && OccursAt(s, part, i)
    ensures IsMatch(s, i + j, i + a, i + b, i + c)
  {
    assert forall k | i <= k < i + |part| :: s[k] == part[k - i];
  }

  lemma MatchOfVar(s: string) returns (i: nat, a: nat, b: nat, c: nat)
    requires HasVar(s)
    ensures IsMatch(s, i, a, b, c)
  {
    i :| i < |s| && VarAt(s, i);
    a, b, c := FoundIsMatch(s, i);
  }

  lemma VarOfMatch(s: string, i: nat, a: nat, b: nat, c: nat)
    requires IsMatch(s, i, a, b, c)
    ensures HasVar(s)
  {
    MatchIsFound(s, i, a, b, c);
  }

  /** A match inside a text that occurs in another is a match there. */
  lemma VarSurvivesEmbedding(s: string, part: string, i: nat)
    requires HasVar(part) && OccursAt(s, part, i)
    ensures HasVar(s)
  {
    var j, a, b, c := MatchOfVar(part);
    MatchSurvivesEmbedding(s, part, i, j, a, b, c);
    VarOfMatch(s, i + j, i + a, i + b, i + c);
  }

  // ---------------------------------------------------------------- substitution

  /** One ReplaceAll per key, in the given order. */
  function SubstituteIn(text: string, vars: map<string, string>, order: seq<string>): string
    requires forall k | k in order :: k in vars
    decreases |order|
  {
    if order == [] then text
    else SubstituteIn(ReplaceAll(text, Needle(order[0]), vars[order[0]]), vars, order[1..])
  }

  /** A visit of every key of the map, each once. */
  ghost predicate IsOrderOf(order: seq<string>, vars: map<string, string>) {
    multiset(order) == multiset(vars.Keys)
  }

  lemma {:induction false} SubstituteOneMore(text: string, vars: map<string, string>, order: seq<string>, k: string)
    requires k in vars && forall k' | k' in order :: k' in vars
    ensures forall k' | k' in order + [k] :: k' in vars
    ensures SubstituteIn(text, vars, order + [k]) == ReplaceAll(SubstituteIn(text, vars, order), Needle(k), vars[k])
    decreases |order|
  {
    if order == [] {
      assert (order + [k])[1..] == [];
    } else {
      assert (order + [k])[1..] == order[1..] + [k];
      SubstituteOneMore(ReplaceAll(text, Needle(order[0]), vars[order[0]]), vars, order[1..], k);
    }
  }

  /** Every variable is substituted once, in some order nobody chose. */
  ghost predicate IsSubstitution(text: string, vars: map<string, string>, out: string) {
    exists order: seq<string> :: IsOrderOf(order, vars) && Substitutes(text, vars, order, out)
  }

  ghost predicate Substitutes(text: string, vars: map<string, string>, order: seq<string>, out: string) {
    (forall k | k in order :: k in vars) && out == SubstituteIn(text, vars, order)
  }

  /** substitute: Go visits the map in whatever order it likes. */
  method Substitute(text: string, vars: map<string, string>) returns (out: string)
    ensures IsSubstitution(text, vars, out)
  {
    out := text;
    ghost var order: seq<string> := [];
    var left := vars.Keys;
    while left != {}
      invariant left <= vars.Keys && multiset(order) + multiset(left) == multiset(vars.Keys)
      invariant Substitutes(text, vars, order, out)
      decreases |left|
    {
      var k :| k in left;
      SubstituteOneMore(text, vars, order, k);
      out, left, order := ReplaceAll(out, Needle(k), vars[k]), left - {k}, order + [k];
    }
    assert IsOrderOf(order, vars);
  }

  predicate IsMissing(vars: map<string, string>, name: string) {
    name !in vars || TrimSpace(vars[name]) == ""
  }

  /** Nobody supplied the variable, or supplied nothing but space. */
  lemma MissingIsBlank(vars: map<string, string>, name: string)
    ensures IsMissing(vars, name) <==> name !in vars || Blank(vars[name])
  {
    if name in vars {
      BlankIsTrimmed(vars[name]);
    }
  }

  /** The required variables that are not supplied, in order. */
  method Missing(t: Template, vars: map<string, string>) returns (missing: seq<string>)
    ensures forall name :: name in missing <==> name in t.requiredVars && (name !in vars || Blank(vars[name]))
  {
    missing := [];
    for i := 0 to |t.requiredVars|
      invariant forall name :: name in missing <==> name in t.requiredVars[..i] && (name !in vars || Blank(vars[name]))
    {
      MissingIsBlank(vars, t.requiredVars[i]);
      if IsMissing(vars, t.requiredVars[i]) {
        missing := missing + [t.requiredVars[i]];
      }
    }
  }

  /** Render: fails on exactly the missing required variables, and otherwise substitutes in both bodies. */
  method Render(t: Template, vars: map<string, string>) returns (r: Result<Prompt, seq<string>>)
    ensures r.Err? <==> exists name | name in t.requiredVars :: name !in vars || Blank(vars[name])
    ensures r.Err? ==>
              forall name :: name in r.error <==> name in t.requiredVars && (name !in vars || Blank(vars[name]))
    ensures r.Ok? ==> IsSubstitution(t.system, vars, r.value.system) && IsSubstitution(t.user, vars, r.value.user)
                      && r.value.vars == vars
  {
    var missing := Missing(t, vars);
    if missing != [] {
      assert missing[0] in missing;
      return Err(missing);
    }
    assert forall name | name in t.requiredVars :: name !in missing;
    var system := Substitute(t.system, vars);
    var user := Substitute(t.user, vars);
    return Ok(Prompt(system, user, vars));
  }

  // ---------------------------------------------------------------- static tails survive

  function LastLineStart(s: string): (d: nat)
    ensures d <= |s| && (d > 0 ==> s[d - 1] == '\n')
    ensures forall m | d <= m < |s| :: s[m] != '\n'
  {
    if s == "" || s[|s| - 1] == '\n' then |s| else LastLineStart(s[..|s| - 1])
  }

  /** What stands after the last newline. */
  function LastLine(s: string): string {
    s[LastLineStart(s)..]
  }

  /** A key whose placeholder carries a variable match behind its last newline; identifiers are such keys. */
  predicate SafeKey(k: string) {
    HasVar(LastLine(Needle(k)))
  }

  lemma IdentifiersAreSafe(k: string)
    requires IsIdentifier(k)
    ensures SafeKey(k)
  {
    var needle := Needle(k);
    assert forall i | 2 <= i < 2 + |k| :: needle[i] == k[i - 2];
    assert IsMatch(needle, 0, 2, 2 + |k|, 2 + |k|);
    MatchIsFound(needle, 0, 2, 2 + |k|, 2 + |k|);
  }

  /** head + last does not fit into a tail without variables, and cannot reach into it from a line end either. */
  lemma VarKeepsNeedleOut(head: string, last: string, tail: string)
    requires HasVar(last) && '\n' !in last && !HasVar(tail)
    ensures forall i: nat :: !OccursAt(tail, head + last, i)
    ensures !Straddles(head + last, tail)
  {
    forall i: nat ensures !OccursAt(tail, last, i) {
      if OccursAt(tail, last, i) {
        VarSurvivesEmbedding(tail, last, i);
      }
    }
    var needle := head + last;
    forall i: nat ensures !OccursAt(tail, needle, i) {
      if OccursAt(tail, needle, i) {
        assert forall k | 0 <= k < |last| :: last[k] == needle[|head| + k];
        assert OccursAt(tail, last, i + |head|);
      }
    }
    forall m | 0 <= m < |needle| && needle[m] == '\n' ensures !(needle[m + 1..] <= tail) {
      assert m < |head|;
      assert needle[m + 1..] <= tail ==> OccursAt(tail, last, |head| - m - 1);
    }
  }

  lemma SafeKeyStaysOut(k: string, tail: string)
    requires SafeKey(k) && !HasVar(tail)
    ensures forall i: nat :: !OccursAt(tail, Needle(k), i)
    ensures !Straddles(Needle(k), tail)
  {
    var d := LastLineStart(Needle(k));
    assert Needle(k) == Needle(k)[..d] + Needle(k)[d..];
    VarKeepsNeedleOut(Needle(k)[..d], Needle(k)[d..], tail);
  }

  /**
    Whole lines followed by a tail without variables: safe keys are substituted in the lines only, whatever the values
    and the order.
   */
  lemma {:induction false} StaticTailSurvives(lines: string, tail: string, vars: map<string, string>,
                                              order: seq<string>)
    requires WholeLines(lines) && !HasVar(tail)
    requires forall k | k in order :: k in vars && SafeKey(k)
    ensures SubstituteIn(lines + tail, vars, order) == SubstituteIn(lines, vars, order) + tail
    decreases |order|
  {
    if order != [] {
      var k := order[0];
      SafeKeyStaysOut(k, tail);
      ReplaceStopsAtLineEnd(lines, tail, Needle(k), vars[k]);
      ReplaceKeepsWholeLines(lines, Needle(k), vars[k]);
      StaticTailSurvives(ReplaceAll(lines, Needle(k), vars[k]), tail, vars, order[1..]);
    }
  }

  ghost predicate KeepsTail(k: string, lines: string, tail: string, value: string) {
    ReplaceAll(lines + tail, Needle(k), value) == ReplaceAll(lines, Needle(k), value) + tail
  }

  lemma ReplacingItself(needle: string, value: string)
    requires needle != ""
    ensures ReplaceAll(needle, needle, value) == value
  {
    assert OccursAt(needle, needle, 0) && needle[|needle|..] == "";
    assert value + "" == value;
  }

  /** An unsafe key is harmful: cut its placeholder behind the last newline. */
  lemma UnsafeKeyBreaksATail(k: string) returns (lines: string, tail: string)
    requires !SafeKey(k)
    ensures WholeLines(lines) && !HasVar(tail) && !KeepsTail(k, lines, tail, "")
  {
    var d := LastLineStart(Needle(k));
    lines, tail := Needle(k)[..d], Needle(k)[d..];
    assert lines + tail == Needle(k);
    ReplacingItself(Needle(k), "");
    assert |ReplaceAll(lines, Needle(k), "") + tail| > 0;
  }

  /** Exactly the safe keys leave every static tail behind whole lines alone. */
  lemma SafeKeysAreExact(k: string)
    ensures SafeKey(k) <==>
            forall lines, tail, value | WholeLines(lines) && !HasVar(tail) :: KeepsTail(k, lines, tail, value)
  {
    if SafeKey(k) {
      forall lines, tail, value | WholeLines(lines) && !HasVar(tail) ensures KeepsTail(k, lines, tail, value) {
        SafeKeyStaysOut(k, tail);
        ReplaceStopsAtLineEnd(lines, tail, Needle(k), value);
      }
    } else {
      var lines, tail := UnsafeKeyBreaksATail(k);
    }
  }
}
