/** Parsing and zone checks of prompt files: internal/ai/prompts/loader.go. */
module PromptLoader {
  import opened Common
  import opened Text
  import opened PromptTemplate
  import opened ZoneSearch

  datatype Section = NoSection | System | User

  datatype ParseError =
    | LockedOutsideSystem
    | DuplicateLocked
    | TextBeforeSections
    | BadDirective
    | MissingName
    | MissingUser
    | LockedWithoutTenant
    | TenantWithoutLocked
    | TenantVarUnused(name: string)
    | TenantVarBehindLock(name: string)
    | VariableBehindLock

  /** Whether strconv accepts the value of a numeric directive. */
  type NumberCheck = (string, string) -> bool

  /** The locals of parsePrompt. */
  datatype Parser = Parser(section: Section, body: string, lockedAt: nat, hasLocked: bool, tmpl: Template)

  const START := Parser(NoSection, "", 0, false, Template("", "", "", [], []))

  // ---------------------------------------------------------------- lines

  function LineLength(src: string): (n: nat)
    ensures n <= |src| && (n < |src| ==> src[n] == '\n') && '\n' !in src[..n]
  {
    if src == "" || src[0] == '\n' then 0 else 1 + LineLength(src[1..])
  }

  /** bufio.ScanLines: lines without their newline and without one carriage return before it. */
  function ScanLines(src: string): seq<string> {
    if src == "" then [] else
      var n := LineLength(src);
      var line := if n > 0 && src[n - 1] == '\r' then src[..n - 1] else src[..n];
      [line] + if n < |src| then ScanLines(src[n + 1..]) else []
  }

  function FirstBlank(s: string): (n: nat)
    ensures n <= |s| && (n < |s| ==> s[n] in " \t") && forall k | 0 <= k < n :: s[k] !in " \t"
  {
    if s == "" || s[0] in " \t" then 0 else 1 + FirstBlank(s[1..])
  }

  function SplitDirective(line: string): (string, string) {
    var rest := if line != "" && line[0] == '@' then line[1..] else line;
    var n := FirstBlank(rest);
    (rest[..n], TrimSpace(rest[n..]))
  }

  function FirstComma(s: string): (n: nat)
    ensures n <= |s| && (n < |s| ==> s[n] == ',')
  {
    if s == "" || s[0] == ',' then 0 else 1 + FirstComma(s[1..])
  }

  function SplitFields(s: string): seq<string> {
    var n := FirstComma(s);
    var field := TrimSpace(s[..n]);
    (if field == "" then [] else [field]) + if n < |s| then SplitFields(s[n + 1..]) else []
  }

  function ApplyDirective(t: Template, key: string, value: string, numeric: NumberCheck): Result<Template, ParseError> {
    if key == "name" then Ok(t.(name := value))
    else if key == "required" then Ok(t.(requiredVars := SplitFields(value)))
    else if key == "tenant" then Ok(t.(tenantVars := SplitFields(value)))
    else if key == "stop" then Ok(t)
    else if key == "max_toks" || key == "thinking" || key == "temp" then
      if numeric(key, value) then Ok(t) else Err(BadDirective)
    else Err(BadDirective)
  }

  // ---------------------------------------------------------------- parsing

  function Flush(p: Parser): Parser {
    match p.section
    case NoSection => p
    case System => p.(tmpl := p.tmpl.(system := TrimNewlines(p.body)), body := "")
    case User => p.(tmpl := p.tmpl.(user := TrimNewlines(p.body)), body := "")
  }

  predicate IsMarker(trimmed: string) {
    trimmed == "@system" || trimmed == "@user"
  }

  function MarkerSection(trimmed: string): Section
    requires IsMarker(trimmed)
  {
    if trimmed == "@system" then System else User
  }

  /** What one line does to the parser. */
  function ParseLine(p: Parser, line: string, numeric: NumberCheck): Result<Parser, ParseError> {
    var trimmed := TrimSpace(line);
    if p.section != NoSection then
      if IsMarker(trimmed) then Ok(Flush(p).(section := MarkerSection(trimmed)))
      else if trimmed == "@locked" then
        if p.section != System then Err(LockedOutsideSystem)
        else if p.hasLocked then Err(DuplicateLocked)
        else Ok(p.(hasLocked := true, lockedAt := |p.body|))
      else Ok(p.(body := p.body + line + "\n"))
    else if trimmed == "" || trimmed[0] == '#' then Ok(p)
    else if trimmed[0] != '@' then Err(TextBeforeSections)
    else if IsMarker(trimmed) then Ok(p.(section := MarkerSection(trimmed)))
    else
      var (key, value) := SplitDirective(trimmed);
      match ApplyDirective(p.tmpl, key, value, numeric)
      case Ok(t) => Ok(p.(tmpl := t))
      case Err(e) => Err(e)
  }

  function ParseLines(p: Parser, lines: seq<string>, numeric: NumberCheck): Result<Parser, ParseError>
    decreases |lines|
  {
    if lines == [] then Ok(p) else
      match ParseLine(p, lines[0], numeric)
      case Err(e) => Err(e)
      case Ok(q) => ParseLines(q, lines[1..], numeric)
  }

  // ---------------------------------------------------------------- zones

  /** The text behind the lock. */
  function LockedZone(t: Template, lockedAt: nat): string {
    t.system[if lockedAt < |t.system| then lockedAt else |t.system|..]
  }

  predicate TenantVarAccepted(t: Template, lockedAt: nat, v: string) {
    && (Contains(t.system, Needle(v)) || Contains(t.user, Needle(v)))
    && BeginsBeforeLock(t.system, Needle(v), lockedAt, 0)
  }

  predicate ZonesAccepted(t: Template, lockedAt: nat, hasLocked: bool) {
    if t.tenantVars == [] then !hasLocked
    else
      && hasLocked && (forall v | v in t.tenantVars :: TenantVarAccepted(t, lockedAt, v))
      && !HasVar(LockedZone(t, lockedAt))
  }

  method CheckTenantVar(t: Template, lockedAt: nat, v: string) returns (err: Option<ParseError>)
    ensures err.None? <==> TenantVarAccepted(t, lockedAt, v)
    ensures err == Some(TenantVarBehindLock(v)) ==> OccursBehind(t.system, Needle(v), lockedAt)
    ensures err.None? && !SelfOverlaps(Needle(v)) ==> !OccursBehind(t.system, Needle(v), lockedAt)
  {
    if !Contains(t.system, Needle(v)) && !Contains(t.user, Needle(v)) {
      return Some(TenantVarUnused(v));
    }
    var late := FindBehindLock(t.system, Needle(v), lockedAt);
    return if late then Some(TenantVarBehindLock(v)) else None;
  }

  method ValidateZones(t: Template, lockedAt: nat, hasLocked: bool) returns (err: Option<ParseError>)
    ensures err.None? <==> ZonesAccepted(t, lockedAt, hasLocked)
  {
    if |t.tenantVars| == 0 {
      return if hasLocked then Some(LockedWithoutTenant) else None;
    }
    if !hasLocked {
      return Some(TenantWithoutLocked);
    }
    for n := 0 to |t.tenantVars|
      invariant forall k | 0 <= k < n :: TenantVarAccepted(t, lockedAt, t.tenantVars[k])
    {
      err := CheckTenantVar(t, lockedAt, t.tenantVars[n]);
      if err.Some? {
        assert t.tenantVars[n] in t.tenantVars;
        return;
      }
    }
    if HasVar(LockedZone(t, lockedAt)) {
      return Some(VariableBehindLock);
    }
    return None;
  }

  /** The end of a parse: flush the open section, then the checks. */
  predicate Accepted(p: Parser) {
    var q := Flush(p);
    q.tmpl.name != "" && q.tmpl.user != "" && ZonesAccepted(q.tmpl, q.lockedAt, q.hasLocked)
  }

  /** The parser after every line, if no line was refused and the end of the file is accepted. */
  function ParsePrompt(src: string, numeric: NumberCheck): Option<Parser> {
    match ParseLines(START, ScanLines(src), numeric)
    case Err(_) => None
    case Ok(p) => if Accepted(p) then Some(Flush(p)) else None
  }

  /** parsePrompt: the loop over the lines. */
  method Parse(src: string, numeric: NumberCheck) returns (r: Result<Template, ParseError>)
    ensures r.Ok? <==> ParsePrompt(src, numeric).Some?
    ensures r.Ok? ==> r.value == ParsePrompt(src, numeric).value.tmpl
  {
    var lines := ScanLines(src);
    var p := START;
    for i := 0 to |lines|
      invariant ParseLines(START, lines, numeric) == ParseLines(p, lines[i..], numeric)
    {
      assert lines[i..][0] == lines[i] && lines[i..][1..] == lines[i + 1..];
      var step := ParseLine(p, lines[i], numeric);
      if step.Err? {
        return Err(step.error);
      }
      p := step.value;
    }
    p := Flush(p);
    if p.tmpl.name == "" {
      return Err(MissingName);
    }
    if p.tmpl.user == "" {
      return Err(MissingUser);
    }
    var err := ValidateZones(p.tmpl, p.lockedAt, p.hasLocked);
    if err.Some? {
      return Err(err.value);
    }
    return Ok(p.tmpl);
  }

  // ---------------------------------------------------------------- the locked zone

  /** The section text some lines make up. */
  function BodyText(lines: seq<string>): string {
    if lines == [] then "" else lines[0] + "\n" + BodyText(lines[1..])
  }

  /** The lines up to the next section marker. */
  function RestOfSection(lines: seq<string>): seq<string> {
    if lines == [] || IsMarker(TrimSpace(lines[0])) then [] else [lines[0]] + RestOfSection(lines[1..])
  }

  /** What the author wrote between the @locked line k and the end of its section. */
  function LockedText(lines: seq<string>, k: nat): string
    requires k < |lines|
  {
    TrimNewlines(BodyText(RestOfSection(lines[k + 1..])))
  }

  ghost predicate NoSystemMarker(lines: seq<string>) {
    forall j | 0 <= j < |lines| :: TrimSpace(lines[j]) != "@system"
  }

  lemma {:induction false} ParseLinesSplits(p: Parser, front: seq<string>, back: seq<string>, numeric: NumberCheck)
    requires ParseLines(p, front + back, numeric).Ok?
    ensures ParseLines(p, front, numeric).Ok?
    ensures ParseLines(ParseLines(p, front, numeric).value, back, numeric) == ParseLines(p, front + back, numeric)
    decreases |front|
  {
    if front == [] {
      assert front + back == back;
    } else {
      assert (front + back)[1..] == front[1..] + back;
      ParseLinesSplits(ParseLine(p, front[0], numeric).value, front[1..], back, numeric);
    }
  }

  lemma {:induction false} BodiesAreWholeLines(p: Parser, lines: seq<string>, numeric: NumberCheck)
    requires WholeLines(p.body) && ParseLines(p, lines, numeric).Ok?
    ensures WholeLines(ParseLines(p, lines, numeric).value.body)
    decreases |lines|
  {
    if lines != [] {
      BodiesAreWholeLines(ParseLine(p, lines[0], numeric).value, lines[1..], numeric);
    }
  }

  /** Behind the lock and outside @system nothing moves the system text or the lock any more. */
  lemma {:induction false} UserSectionLeavesSystem(p: Parser, lines: seq<string>, numeric: NumberCheck)
    requires p.section == User && NoSystemMarker(lines) && ParseLines(p, lines, numeric).Ok?
    ensures var q := Flush(ParseLines(p, lines, numeric).value);
            q.tmpl.system == p.tmpl.system && q.lockedAt == p.lockedAt && q.hasLocked == p.hasLocked
    decreases |lines|
  {
    if lines != [] {
      var next := ParseLine(p, lines[0], numeric).value;
      assert next.section == User;
      assert forall j | 0 <= j < |lines[1..]| :: lines[1..][j] == lines[j + 1];
      UserSectionLeavesSystem(next, lines[1..], numeric);
    }
  }

  lemma Regroup(a: string, b: string, c: string, d: string)
    ensures a + (b + c + d) == a + b + c + d
  {
  }

  lemma {:induction false} LockedSectionRunsToItsEnd(p: Parser, lines: seq<string>, numeric: NumberCheck)
    requires p.section == System && p.hasLocked && NoSystemMarker(lines) && ParseLines(p, lines, numeric).Ok?
    ensures var q := Flush(ParseLines(p, lines, numeric).value);
            && q.tmpl.system == TrimNewlines(p.body + BodyText(RestOfSection(lines)))
            && q.lockedAt == p.lockedAt && q.hasLocked
    decreases |lines|
  {
    if lines == [] {
      assert p.body + "" == p.body;
    } else {
      var line := lines[0];
      var next := ParseLine(p, line, numeric).value;
      assert forall j | 0 <= j < |lines[1..]| :: lines[1..][j] == lines[j + 1];
      if IsMarker(TrimSpace(line)) {
        assert TrimSpace(lines[0]) != "@system";
        UserSectionLeavesSystem(next, lines[1..], numeric);
        assert p.body + "" == p.body;
      } else {
        LockedSectionRunsToItsEnd(next, lines[1..], numeric);
        var rest := RestOfSection(lines[1..]);
        assert RestOfSection(lines) == [line] + rest && ([line] + rest)[1..] == rest;
        Regroup(p.body, line, "\n", BodyText(rest));
      }
    }
  }

  lemma DirectiveWithoutValue(line: string)
    requires line != "" && line[0] == '@' && forall k | 0 <= k < |line| :: line[k] !in " \t"
    ensures SplitDirective(line) == (line[1..], "")
  {
    var rest := line[1..];
    assert FirstBlank(rest) == |rest|;
    assert rest[..|rest|] == rest && rest[|rest|..] == "";
  }

  lemma NoDirectiveIsCalledLocked(t: Template, key: string, value: string, numeric: NumberCheck)
    requires |key| == 6 && key[0] == 'l'
    ensures ApplyDirective(t, key, value, numeric).Err?
  {
  }

  lemma LockLineOutside(p: Parser, line: string, locked: string, numeric: NumberCheck)
    requires p.section == NoSection && TrimSpace(line) == locked && IsLockMarker(locked)
    ensures ParseLine(p, line, numeric).Err?
  {
    DirectiveWithoutValue(locked);
    NoDirectiveIsCalledLocked(p.tmpl, locked[1..], "", numeric);
  }

  /** What matters of "@locked" to a parser that has not met a section. */
  predicate IsLockMarker(locked: string) {
    |locked| == 7 && locked[0] == '@' && locked[1] == 'l' && !IsMarker(locked)
    && forall k | 0 <= k < |locked| :: locked[k] !in " \t"
  }

  lemma LockedIsLockMarker()
    ensures IsLockMarker("@locked")
  {
  }

  lemma LockLineInside(p: Parser, line: string, numeric: NumberCheck)
    requires p.section != NoSection && TrimSpace(line) == "@locked" && ParseLine(p, line, numeric).Ok?
    ensures p.section == System && ParseLine(p, line, numeric).value == p.(hasLocked := true, lockedAt := |p.body|)
  {
  }

  /** The line that sets the lock was read inside @system, and is the first of its kind. */
  lemma LockLine(p: Parser, line: string, numeric: NumberCheck)
    requires TrimSpace(line) == "@locked" && ParseLine(p, line, numeric).Ok?
    ensures p.section == System && ParseLine(p, line, numeric).value == p.(hasLocked := true, lockedAt := |p.body|)
  {
    if p.section == NoSection {
      LockedIsLockMarker();
      LockLineOutside(p, line, "@locked", numeric);
    } else {
      LockLineInside(p, line, numeric);
    }
  }

  /** The parser in front of line k of a source that parses. */
  lemma ParserInFrontOf(p: Parser, lines: seq<string>, k: nat, numeric: NumberCheck) returns (q: Parser)
    requires k < |lines| && ParseLines(p, lines, numeric).Ok?
    ensures ParseLines(p, lines[..k], numeric) == Ok(q)
    ensures ParseLine(q, lines[k], numeric).Ok?
    ensures ParseLines(ParseLine(q, lines[k], numeric).value, lines[k + 1..], numeric) == ParseLines(p, lines, numeric)
  {
    assert lines == lines[..k] + lines[k..];
    ParseLinesSplits(p, lines[..k], lines[k..], numeric);
    q := ParseLines(p, lines[..k], numeric).value;
    assert lines[k..][0] == lines[k] && lines[k..][1..] == lines[k + 1..];
  }

  /** How an accepted source is cut at its @locked line. */
  lemma AcceptedSourceIsCutAtTheLock(src: string, numeric: NumberCheck, k: nat) returns (lines: string)
    requires ParsePrompt(src, numeric).Some?
    requires k < |ScanLines(src)| && TrimSpace(ScanLines(src)[k]) == "@locked"
    requires NoSystemMarker(ScanLines(src)[k + 1..])
    ensures var p := ParsePrompt(src, numeric).value;
            && WholeLines(lines) && p.hasLocked && p.lockedAt == |lines|
            && p.tmpl.system == TrimNewlines(lines + BodyText(RestOfSection(ScanLines(src)[k + 1..])))
            && ZonesAccepted(p.tmpl, p.lockedAt, p.hasLocked)
  {
    var all := ScanLines(src);
    var p := ParserInFrontOf(START, all, k, numeric);
    BodiesAreWholeLines(START, all[..k], numeric);
    LockLine(p, all[k], numeric);
    lines := p.body;
    LockedSectionRunsToItsEnd(ParseLine(p, all[k], numeric).value, all[k + 1..], numeric);
  }

  lemma SystemEndsInTheLock(t: Template, lines: string, text: string)
    requires t.system == TrimNewlines(lines + text) && ZonesAccepted(t, |lines|, true)
    ensures var locked := TrimNewlines(text);
            && HasSuffix(t.system, locked) && (locked == "" || t.system == lines + locked)
            && (locked == "" || !HasVar(locked))
  {
    TrimNewlinesOfConcat(lines, text);
    assert TrimNewlines(text) != "" ==> LockedZone(t, |lines|) == TrimNewlines(text);
  }

  /**
    The tail of the text comes out of the substitution unchanged and at the end, behind the substitution of the rest.
   */
  ghost predicate TailStays(text: string, tail: string, vars: map<string, string>, order: seq<string>)
    requires forall key | key in order :: key in vars
  {
    && HasSuffix(text, tail)
    && SubstituteIn(text, vars, order) == SubstituteIn(text[..|text| - |tail|], vars, order) + tail
  }

  lemma TailSurvives(system: string, lines: string, locked: string, vars: map<string, string>, order: seq<string>)
    requires WholeLines(lines) && HasSuffix(system, locked)
    requires locked == "" || (system == lines + locked && !HasVar(locked))
    requires forall key | key in order :: key in vars && SafeKey(key)
    ensures TailStays(system, locked, vars, order)
  {
    if locked == "" {
      assert system[..|system|] == system;
      assert SubstituteIn(system, vars, order) + "" == SubstituteIn(system, vars, order);
    } else {
      assert system[..|system| - |locked|] == lines;
      StaticTailSurvives(lines, locked, vars, order);
    }
  }

  /**
    The promise of the @locked boundary.  Whatever the values (they may themselves
    contain placeholders) and whatever order Go visits them in, the text the author
    put behind @locked comes out of the rendering unchanged and at the end, behind
    the rendering of what stood before it.
   */
  lemma LockedZoneSurvives(src: string, numeric: NumberCheck, k: nat, vars: map<string, string>, order: seq<string>)
    requires ParsePrompt(src, numeric).Some?
    requires k < |ScanLines(src)| && TrimSpace(ScanLines(src)[k]) == "@locked"
    requires NoSystemMarker(ScanLines(src)[k + 1..])
    requires forall key | key in order :: key in vars && SafeKey(key)
    ensures TailStays(ParsePrompt(src, numeric).value.tmpl.system, LockedText(ScanLines(src), k), vars, order)
  {
    var lines := AcceptedSourceIsCutAtTheLock(src, numeric, k);
    var t := ParsePrompt(src, numeric).value.tmpl;
    SystemEndsInTheLock(t, lines, BodyText(RestOfSection(ScanLines(src)[k + 1..])));
    TailSurvives(t.system, lines, LockedText(ScanLines(src), k), vars, order);
  }

  /** So every rendered system prompt ends in the locked text, for every map with identifier keys. */
  lemma RenderedPromptsKeepTheLock(src: string, numeric: NumberCheck, k: nat, vars: map<string, string>,
                                   rendered: string)
    requires ParsePrompt(src, numeric).Some?
    requires k < |ScanLines(src)| && TrimSpace(ScanLines(src)[k]) == "@locked"
    requires NoSystemMarker(ScanLines(src)[k + 1..])
    requires forall key | key in vars :: IsIdentifier(key)
    requires IsSubstitution(ParsePrompt(src, numeric).value.tmpl.system, vars, rendered)
    ensures HasSuffix(rendered, LockedText(ScanLines(src), k))
  {
    var system := ParsePrompt(src, numeric).value.tmpl.system;
    var order :| IsOrderOf(order, vars) && Substitutes(system, vars, order, rendered);
    forall key | key in order
      ensures key in vars && SafeKey(key)
    {
      IdentifiersAreSafe(key);
    }
    LockedZoneSurvives(src, numeric, k, vars, order);
  }

  lemma {:induction false} LockStays(p: Parser, lines: seq<string>, numeric: NumberCheck)
    requires p.section != NoSection && p.hasLocked && ParseLines(p, lines, numeric).Ok?
    ensures var q := ParseLines(p, lines, numeric).value;
            q.section != NoSection && q.hasLocked && q.lockedAt == p.lockedAt
    decreases |lines|
  {
    if lines != [] {
      LockStays(ParseLine(p, lines[0], numeric).value, lines[1..], numeric);
    }
  }

  lemma SystemMarkerStartsOver(q: Parser, line: string, rest: seq<string>, numeric: NumberCheck)
    requires q.section != NoSection && q.hasLocked && TrimSpace(line) == "@system"
    requires ParseLine(q, line, numeric).Ok? && ParseLines(ParseLine(q, line, numeric).value, rest, numeric).Ok?
    requires NoSystemMarker(rest)
    ensures Flush(ParseLines(ParseLine(q, line, numeric).value, rest, numeric).value).tmpl.system
            == TrimNewlines(BodyText(RestOfSection(rest)))
  {
    LockedSectionRunsToItsEnd(ParseLine(q, line, numeric).value, rest, numeric);
    assert "" + BodyText(RestOfSection(rest)) == BodyText(RestOfSection(rest));
  }

  /**
    Why the theorem asks for no later @system line: such a line is accepted, the
    section behind it replaces the locked text altogether, and the lock keeps the
    offset it had in the section that is gone.
   */
  lemma LaterSystemSectionReplacesTheLockedText(src: string, numeric: NumberCheck, k: nat, j: nat)
    requires ParsePrompt(src, numeric).Some?
    requires k < j < |ScanLines(src)| && TrimSpace(ScanLines(src)[k]) == "@locked"
    requires TrimSpace(ScanLines(src)[j]) == "@system" && NoSystemMarker(ScanLines(src)[j + 1..])
    ensures ParsePrompt(src, numeric).value.tmpl.system
            == TrimNewlines(BodyText(RestOfSection(ScanLines(src)[j + 1..])))
  {
    var all := ScanLines(src);
    var p := ParserInFrontOf(START, all, k, numeric);
    LockLine(p, all[k], numeric);
    var locked := ParseLine(p, all[k], numeric).value;
    var q := ParserInFrontOf(locked, all[k + 1..], j - k - 1, numeric);
    LockStays(locked, all[k + 1..][..j - k - 1], numeric);
    assert all[k + 1..][j - k - 1] == all[j] && all[k + 1..][j - k..] == all[j + 1..];
    SystemMarkerStartsOver(q, all[j], all[j + 1..], numeric);
  }

  lemma OccurrenceInZone(system: string, zone: string, needle: string, i: nat, lockedAt: nat)
    requires OccursAt(system, needle, i) && lockedAt <= i && zone == system[lockedAt..]
    ensures OccursAt(zone, needle, i - lockedAt)
  {
  }

  /** In an accepted template no placeholder of any identifier, declared or not, begins behind the lock. */
  lemma NoPlaceholderBehindTheLock(src: string, numeric: NumberCheck, name: string, i: nat)
    requires ParsePrompt(src, numeric).Some? && IsIdentifier(name)
    requires var p := ParsePrompt(src, numeric).value;
             p.tmpl.tenantVars != [] && OccursAt(p.tmpl.system, Needle(name), i)
    ensures i < ParsePrompt(src, numeric).value.lockedAt
  {
    var p := ParsePrompt(src, numeric).value;
    if i >= p.lockedAt {
      var zone := LockedZone(p.tmpl, p.lockedAt);
      OccurrenceInZone(p.tmpl.system, zone, Needle(name), i, p.lockedAt);
      IdentifiersAreSafe(name);
      SafeKeyStaysOut(name, zone);
    }
  }
}
