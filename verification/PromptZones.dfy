/**
  What the zone checks mean for whole prompt files: internal/ai/prompts/loader.go.
 */
module PromptZones {
  import opened Text
  import opened PromptTemplate
  import opened ZoneSearch
  import opened PromptLoader

  // ---------------------------------------------------------------- names come from one line

  ghost predicate OneLineEach(names: seq<string>) {
    forall name | name in names :: '\n' !in name
  }

  lemma {:induction false} LinesHoldNoNewline(src: string)
    ensures OneLineEach(ScanLines(src))
  {
    if src != "" {
      var n := LineLength(src);
      if n < |src| {
        LinesHoldNoNewline(src[n + 1..]);
      }
    }
  }

  lemma {:induction false} FieldAddsNothing(s: string, name: string)
    requires '\n' !in s && name in SplitFields(s)
    ensures '\n' !in name
  {
    var n := FirstComma(s);
    TrimSpaceAddsNothing(s[..n], '\n');
    if name != TrimSpace(s[..n]) {
      FieldAddsNothing(s[n + 1..], name);
    }
  }

  lemma ValueOfOneLine(line: string)
    requires '\n' !in line
    ensures '\n' !in SplitDirective(TrimSpace(line)).1
  {
    var trimmed := TrimSpace(line);
    TrimSpaceAddsNothing(line, '\n');
    var rest := if trimmed != "" && trimmed[0] == '@' then trimmed[1..] else trimmed;
    TrimSpaceAddsNothing(rest[FirstBlank(rest)..], '\n');
  }

  lemma DirectiveKeepsNames(t: Template, key: string, value: string, numeric: NumberCheck)
    requires OneLineEach(t.tenantVars) && '\n' !in value && ApplyDirective(t, key, value, numeric).Ok?
    ensures OneLineEach(ApplyDirective(t, key, value, numeric).value.tenantVars)
  {
    forall name | name in SplitFields(value) ensures '\n' !in name {
      FieldAddsNothing(value, name);
    }
  }

  lemma LineOfSection(p: Parser, line: string, numeric: NumberCheck)
    requires p.section != NoSection && ParseLine(p, line, numeric).Ok?
    ensures ParseLine(p, line, numeric).value.tmpl.tenantVars == p.tmpl.tenantVars
  {
  }

  lemma LineOfHeader(p: Parser, line: string, numeric: NumberCheck)
    requires p.section == NoSection && ParseLine(p, line, numeric).Ok?
    ensures var (key, value) := SplitDirective(TrimSpace(line));
            var t, applied := ParseLine(p, line, numeric).value.tmpl, ApplyDirective(p.tmpl, key, value, numeric);
            t == p.tmpl || (applied.Ok? && applied.value == t)
  {
  }

  lemma LineKeepsNames(p: Parser, line: string, numeric: NumberCheck)
    requires OneLineEach(p.tmpl.tenantVars) && '\n' !in line && ParseLine(p, line, numeric).Ok?
    ensures OneLineEach(ParseLine(p, line, numeric).value.tmpl.tenantVars)
  {
    var (key, value) := SplitDirective(TrimSpace(line));
    ValueOfOneLine(line);
    if p.section != NoSection {
      LineOfSection(p, line, numeric);
    } else {
      LineOfHeader(p, line, numeric);
      if ApplyDirective(p.tmpl, key, value, numeric).Ok? {
        DirectiveKeepsNames(p.tmpl, key, value, numeric);
      }
    }
  }

  lemma {:induction false} LinesKeepNames(p: Parser, lines: seq<string>, numeric: NumberCheck)
    requires OneLineEach(p.tmpl.tenantVars) && OneLineEach(lines) && ParseLines(p, lines, numeric).Ok?
    ensures OneLineEach(ParseLines(p, lines, numeric).value.tmpl.tenantVars)
    decreases |lines|
  {
    if lines != [] {
      LineKeepsNames(p, lines[0], numeric);
      LinesKeepNames(ParseLine(p, lines[0], numeric).value, lines[1..], numeric);
    }
  }

  /** No tenant name of an accepted source holds a newline. */
  lemma NamesAreOfOneLine(src: string, numeric: NumberCheck)
    requires ParsePrompt(src, numeric).Some?
    ensures OneLineEach(ParsePrompt(src, numeric).value.tmpl.tenantVars)
  {
    LinesHoldNoNewline(src);
    LinesKeepNames(START, ScanLines(src), numeric);
  }

  // ---------------------------------------------------------------- tenant variables stay in front of the lock

  lemma TailStaysFree(t: Template, lines: string, text: string, needle: string)
    requires WholeLines(lines) && t.system == TrimNewlines(lines + text)
    requires needle != "" && '\n' !in needle && BeginsBeforeLock(t.system, needle, |lines|, 0)
    ensures !OccursBehind(t.system, needle, |lines|)
  {
    TrimNewlinesOfConcat(lines, text);
    if TrimNewlines(text) != "" {
      NothingOfOneLineIsLeaptOver(lines, TrimNewlines(text), needle, 0);
    } else {
      TrimmedIsShorter(lines);
    }
  }

  lemma AcceptedVarsStay(t: Template, lines: string, text: string, name: string)
    requires WholeLines(lines) && t.system == TrimNewlines(lines + text)
    requires ZonesAccepted(t, |lines|, true) && OneLineEach(t.tenantVars) && name in t.tenantVars
    ensures !OccursBehind(t.system, Needle(name), |lines|)
  {
    AcceptedIsSearched(t, |lines|, name);
    NeedleOfOneLine(name);
    TailStaysFree(t, lines, text, Needle(name));
  }

  lemma AcceptedIsSearched(t: Template, lockedAt: nat, name: string)
    requires ZonesAccepted(t, lockedAt, true) && name in t.tenantVars
    ensures BeginsBeforeLock(t.system, Needle(name), lockedAt, 0)
  {
    assert TenantVarAccepted(t, lockedAt, name);
  }

  lemma NeedleOfOneLine(name: string)
    requires '\n' !in name
    ensures '\n' !in Needle(name)
  {
  }

  lemma {:induction false} TrimmedIsShorter(s: string)
    ensures |TrimNewlines(s)| <= |s|
  {
    if s != "" && s[|s| - 1] == '\n' {
      TrimmedIsShorter(s[..|s| - 1]);
    }
  }

  /**
    The promise of @tenant.  In every accepted source without a later @system line every
    occurrence of every tenant variable's placeholder, whatever its name, starts in front
    of the lock, although the search leaps over occurrences that overlap.
   */
  lemma TenantVarsStayInFrontOfTheLock(src: string, numeric: NumberCheck, k: nat, name: string, i: nat)
    requires ParsePrompt(src, numeric).Some?
    requires k < |ScanLines(src)| && TrimSpace(ScanLines(src)[k]) == "@locked"
    requires NoSystemMarker(ScanLines(src)[k + 1..])
    requires var t := ParsePrompt(src, numeric).value.tmpl;
             name in t.tenantVars && OccursAt(t.system, Needle(name), i)
    ensures i < ParsePrompt(src, numeric).value.lockedAt
  {
    var lines := AcceptedSourceIsCutAtTheLock(src, numeric, k);
    NamesAreOfOneLine(src, numeric);
    AcceptedVarsStay(ParsePrompt(src, numeric).value.tmpl, lines, BodyText(RestOfSection(ScanLines(src)[k + 1..])),
                     name);
  }

  // ---------------------------------------------------------------- rendering after a later @system line

  /** With no variables to fill in, what is rendered is the text. */
  lemma NothingToSubstitute(text: string, rendered: string)
    requires IsSubstitution(text, map[], rendered)
    ensures rendered == text
  {
    var order :| IsOrderOf(order, map[]) && Substitutes(text, map[], order, rendered);
    var none: map<string, string> := map[];
    assert none.Keys == {} && |multiset(order)| == |order|;
  }

  /**
    After a later @system line the locked text survives an empty rendering exactly if the last section happens to end
    in it.
   */
  lemma LockedTextSurvivesOnlyByChance(src: string, numeric: NumberCheck, k: nat, j: nat, rendered: string)
    requires ParsePrompt(src, numeric).Some?
    requires k < j < |ScanLines(src)| && TrimSpace(ScanLines(src)[k]) == "@locked"
    requires TrimSpace(ScanLines(src)[j]) == "@system" && NoSystemMarker(ScanLines(src)[j + 1..])
    requires IsSubstitution(ParsePrompt(src, numeric).value.tmpl.system, map[], rendered)
    ensures HasSuffix(rendered, LockedText(ScanLines(src), k))
       <==> HasSuffix(TrimNewlines(BodyText(RestOfSection(ScanLines(src)[j + 1..]))), LockedText(ScanLines(src), k))
  {
    LaterSystemSectionReplacesTheLockedText(src, numeric, k, j);
    NothingToSubstitute(ParsePrompt(src, numeric).value.tmpl.system, rendered);
  }

  /**
    With variables it does survive, for every map with identifier keys, if the last section is whole lines followed
    by the locked text and that holds no variable.
   */
  lemma LockedTextSurvivesBehindWholeLines(src: string, numeric: NumberCheck, k: nat, j: nat, lines: string,
                                           vars: map<string, string>, rendered: string)
    requires ParsePrompt(src, numeric).Some?
    requires k < j < |ScanLines(src)| && TrimSpace(ScanLines(src)[k]) == "@locked"
    requires TrimSpace(ScanLines(src)[j]) == "@system" && NoSystemMarker(ScanLines(src)[j + 1..])
    requires var locked := LockedText(ScanLines(src), k);
             && WholeLines(lines) && !HasVar(locked)
             && TrimNewlines(BodyText(RestOfSection(ScanLines(src)[j + 1..]))) == lines + locked
    requires forall key | key in vars :: IsIdentifier(key)
    requires IsSubstitution(ParsePrompt(src, numeric).value.tmpl.system, vars, rendered)
    ensures HasSuffix(rendered, LockedText(ScanLines(src), k))
  {
    LaterSystemSectionReplacesTheLockedText(src, numeric, k, j);
    IdentifiersKeepTheTail(lines, LockedText(ScanLines(src), k), vars, rendered);
  }

  lemma IdentifiersKeepTheTail(lines: string, tail: string, vars: map<string, string>, rendered: string)
    requires WholeLines(lines) && !HasVar(tail) && forall key | key in vars :: IsIdentifier(key)
    requires IsSubstitution(lines + tail, vars, rendered)
    ensures HasSuffix(rendered, tail)
  {
    var order :| IsOrderOf(order, vars) && Substitutes(lines + tail, vars, order, rendered);
    forall key | key in order
      ensures key in vars && SafeKey(key)
    {
      IdentifiersAreSafe(key);
    }
    StaticTailSurvives(lines, tail, vars, order);
  }
}
