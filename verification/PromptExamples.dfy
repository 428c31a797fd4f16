/** Two prompt files the loader accepts that show the limits of its zone checks: internal/ai/prompts/loader.go. */
module PromptExamples {
  import opened Common
  import opened Text
  import opened PromptTemplate
  import opened ZoneSearch
  import opened PromptLoader
  import opened PromptZones

  // ---------------------------------------------------------------- files made of lines

  function Joined(lines: seq<string>): string {
    if lines == [] then "" else lines[0] + "\n" + Joined(lines[1..])
  }

  /** A line the scanner gives back as it is. */
  predicate IsLine(line: string) {
    '\n' !in line && (line == "" || line[|line| - 1] != '\r')
  }

  lemma {:induction false} LengthOfFirstLine(line: string, rest: string)
    requires '\n' !in line
    ensures LineLength(line + "\n" + rest) == |line|
  {
    var src := line + "\n" + rest;
    if line != "" {
      LengthOfFirstLine(line[1..], rest);
      assert src[1..] == line[1..] + "\n" + rest;
    }
  }

  lemma {:induction false} ScanOfJoined(lines: seq<string>)
    requires forall i | 0 <= i < |lines| :: IsLine(lines[i])
    ensures ScanLines(Joined(lines)) == lines
  {
    if lines != [] {
      var line, rest := lines[0], Joined(lines[1..]);
      ScanOfJoined(lines[1..]);
      assert IsLine(line);
      LengthOfFirstLine(line, rest);
      assert Joined(lines)[..|line|] == line && Joined(lines)[|line| + 1..] == rest;
    }
  }

  lemma ParseOneLine(p: Parser, line: string, q: Parser, rest: seq<string>, numeric: NumberCheck)
    requires ParseLine(p, line, numeric) == Ok(q)
    ensures ParseLines(p, [line] + rest, numeric) == ParseLines(q, rest, numeric)
  {
    assert ([line] + rest)[1..] == rest;
  }

  // ---------------------------------------------------------------- lines and what they do

  /** Nothing to trim. */
  predicate IsTight(s: string) {
    s != "" && !IsSpace(s[0]) && !IsSpace(s[|s| - 1])
  }

  /** A line of text: no keyword of a section. */
  predicate IsPlain(line: string) {
    IsTight(line) && '\n' !in line && !IsMarker(line) && line != "@locked"
  }

  lemma TrimOfTight(s: string)
    requires IsTight(s)
    ensures TrimSpace(s) == s
  {
  }

  lemma {:induction false} BlankEndsKey(key: string, value: string)
    requires forall k | 0 <= k < |key| :: key[k] !in " \t"
    ensures FirstBlank(key + " " + value) == |key|
  {
    if key != "" {
      BlankEndsKey(key[1..], value);
      assert (key + " " + value)[1..] == key[1..] + " " + value;
    }
  }

  lemma DirectiveOf(key: string, value: string)
    requires key != "" && (forall k | 0 <= k < |key| :: key[k] !in " \t") && IsTight(value)
    ensures SplitDirective("@" + key + " " + value) == (key, value)
  {
    var line := "@" + key + " " + value;
    assert line[1..] == key + " " + value;
    BlankEndsKey(key, value);
    assert (key + " " + value)[..|key|] == key && (key + " " + value)[|key|..] == " " + value;
    assert (" " + value)[1..] == value;
    TrimOfTight(value);
  }

  lemma NoMarkerWithBlank(line: string)
    requires ' ' in line
    ensures !IsMarker(line) && line != "@locked"
  {
  }

  lemma DirectiveIsApplied(p: Parser, line: string, key: string, value: string, t: Template, numeric: NumberCheck)
    requires p.section == NoSection && IsTight(line) && line[0] == '@' && ' ' in line
    requires SplitDirective(line) == (key, value) && ApplyDirective(p.tmpl, key, value, numeric) == Ok(t)
    ensures ParseLine(p, line, numeric) == Ok(p.(tmpl := t))
  {
    TrimOfTight(line);
    NoMarkerWithBlank(line);
  }

  lemma DirectiveLine(p: Parser, key: string, value: string, t: Template, numeric: NumberCheck)
    requires p.section == NoSection && key != "" && (forall k | 0 <= k < |key| :: key[k] !in " \t") && IsTight(value)
    requires ApplyDirective(p.tmpl, key, value, numeric) == Ok(t)
    ensures ParseLine(p, "@" + key + " " + value, numeric) == Ok(p.(tmpl := t))
  {
    var line := "@" + key + " " + value;
    assert line[|line| - 1] == value[|value| - 1] && line[1 + |key|] == ' ' && line[0] == '@';
    assert IsTight(line) && ' ' in line;
    DirectiveOf(key, value);
    DirectiveIsApplied(p, line, key, value, t, numeric);
  }

  lemma {:induction false} NoCommaInField(s: string)
    requires ',' !in s
    ensures FirstComma(s) == |s|
  {
    if s != "" {
      NoCommaInField(s[1..]);
    }
  }

  lemma OneField(s: string)
    requires IsTight(s) && ',' !in s
    ensures SplitFields(s) == [s]
  {
    NoCommaInField(s);
    TrimOfTight(s);
    assert s[..|s|] == s;
  }

  lemma OpeningLine(p: Parser, numeric: NumberCheck)
    requires p.section == NoSection
    ensures ParseLine(p, "@system", numeric) == Ok(p.(section := System))
  {
    TrimOfTight("@system");
  }

  lemma BodyLine(p: Parser, line: string, numeric: NumberCheck)
    requires p.section != NoSection && IsPlain(line)
    ensures ParseLine(p, line, numeric) == Ok(p.(body := p.body + line + "\n"))
  {
    TrimOfTight(line);
  }

  lemma MarkerLine(p: Parser, line: string, numeric: NumberCheck)
    requires p.section != NoSection && IsMarker(line)
    ensures ParseLine(p, line, numeric) == Ok(Flush(p).(section := MarkerSection(line)))
  {
    TrimOfTight(line);
  }

  lemma FirstLockLine(p: Parser, numeric: NumberCheck)
    requires p.section == System && !p.hasLocked
    ensures ParseLine(p, "@locked", numeric) == Ok(p.(hasLocked := true, lockedAt := |p.body|))
  {
    TrimOfTight("@locked");
  }

  // ---------------------------------------------------------------- a second system section

  const NAME_LINE := "@" + "name" + " " + "n"

  function TenantLine(tenant: string): string {
    "@" + "tenant" + " " + tenant
  }

  function Front(tenant: string, first: string): seq<string> {
    [NAME_LINE] + ([TenantLine(tenant)] + (["@system"] + ([first] + [])))
  }

  function Behind(locked: string, later: string): seq<string> {
    [locked] + (["@system"] + ([later] + (["@user"] + (["u"] + []))))
  }

  /** A file with a locked section and a second system section behind it. */
  function TwoSections(tenant: string, first: string, locked: string, later: string): seq<string> {
    Front(tenant, first) + (["@locked"] + Behind(locked, later))
  }

  function LaterTemplate(tenant: string, later: string): Template {
    Template("n", later, "u", [], [tenant])
  }

  function FrontParser(tenant: string, first: string): Parser {
    Parser(System, first + "\n", 0, false, Template("n", "", "", [], [tenant]))
  }

  lemma NameLine(numeric: NumberCheck)
    ensures ParseLine(START, NAME_LINE, numeric) == Ok(START.(tmpl := START.tmpl.(name := "n")))
  {
    DirectiveLine(START, "name", "n", START.tmpl.(name := "n"), numeric);
  }

  lemma TenantLineOf(p: Parser, tenant: string, numeric: NumberCheck)
    requires p.section == NoSection && IsTight(tenant) && ',' !in tenant
    ensures ParseLine(p, TenantLine(tenant), numeric) == Ok(p.(tmpl := p.tmpl.(tenantVars := [tenant])))
  {
    OneField(tenant);
    DirectiveLine(p, "tenant", tenant, p.tmpl.(tenantVars := [tenant]), numeric);
  }

  lemma FrontIsParsed(tenant: string, first: string, numeric: NumberCheck)
    requires IsTight(tenant) && ',' !in tenant && IsPlain(first)
    ensures ParseLines(START, Front(tenant, first), numeric) == Ok(FrontParser(tenant, first))
  {
    var p1 := START.(tmpl := START.tmpl.(name := "n"));
    var p2 := p1.(tmpl := p1.tmpl.(tenantVars := [tenant]));
    var opening := ["@system"] + ([first] + []);
    NameLine(numeric);
    TenantLineOf(p1, tenant, numeric);
    OpeningIsParsed(p2, first, numeric);
    ParseOneLine(START, NAME_LINE, p1, [TenantLine(tenant)] + opening, numeric);
    ParseOneLine(p1, TenantLine(tenant), p2, opening, numeric);
  }

  lemma OpeningIsParsed(p: Parser, first: string, numeric: NumberCheck)
    requires p.section == NoSection && p.body == "" && IsPlain(first)
    ensures ParseLines(p, ["@system"] + ([first] + []), numeric) == Ok(p.(section := System, body := first + "\n"))
  {
    var q := p.(section := System);
    OpeningLine(p, numeric);
    BodyLine(q, first, numeric);
    assert q.body + first + "\n" == first + "\n";
    ParseOneLine(p, "@system", q, [first] + [], numeric);
    ParseOneLine(q, first, q.(body := first + "\n"), [], numeric);
  }

  lemma TrimOneNewline(s: string)
    requires IsPlain(s)
    ensures TrimNewlines(s + "\n") == s
  {
    assert (s + "\n")[..|s|] == s;
    assert s[|s| - 1] in s;
  }

  lemma LaterIsParsed(p: Parser, later: string, numeric: NumberCheck)
    requires p.section == System && p.body == "" && IsPlain(later)
    ensures ParseLines(p, [later] + (["@user"] + (["u"] + [])), numeric)
         == Ok(Parser(User, "u" + "\n", p.lockedAt, p.hasLocked, p.tmpl.(system := later)))
  {
    var p1 := p.(body := later + "\n");
    var p2 := p1.(tmpl := p1.tmpl.(system := later), section := User, body := "");
    OnlyLine(p, later, numeric);
    MarkerLine(p1, "@user", numeric);
    TrimOneNewline(later);
    UserIsPlain();
    OnlyLine(p2, "u", numeric);
    ParseOneLine(p, later, p1, ["@user"] + (["u"] + []), numeric);
    ParseOneLine(p1, "@user", p2, ["u"] + [], numeric);
    ParseOneLine(p2, "u", p2.(body := "u" + "\n"), [], numeric);
  }

  lemma UserIsPlain()
    ensures IsPlain("u")
  {
  }

  /** The first line of a section's body. */
  lemma OnlyLine(p: Parser, line: string, numeric: NumberCheck)
    requires p.section != NoSection && p.body == "" && IsPlain(line)
    ensures ParseLine(p, line, numeric) == Ok(p.(body := line + "\n"))
  {
    BodyLine(p, line, numeric);
    assert p.body + line + "\n" == line + "\n";
  }

  lemma BehindIsParsed(p: Parser, locked: string, later: string, numeric: NumberCheck)
    requires p.section == System && IsPlain(locked) && IsPlain(later)
    ensures ParseLines(p, Behind(locked, later), numeric)
         == Ok(Parser(User, "u" + "\n", p.lockedAt, p.hasLocked, p.tmpl.(system := later)))
  {
    var p1 := p.(body := p.body + locked + "\n");
    var rest := [later] + (["@user"] + (["u"] + []));
    BodyLine(p, locked, numeric);
    MarkerLine(p1, "@system", numeric);
    ParseOneLine(p, locked, p1, ["@system"] + rest, numeric);
    ParseOneLine(p1, "@system", Flush(p1), rest, numeric);
    LaterIsParsed(Flush(p1), later, numeric);
  }

  lemma {:induction false} ParseInTwo(p: Parser, front: seq<string>, back: seq<string>, q: Parser, numeric: NumberCheck)
    requires ParseLines(p, front, numeric) == Ok(q)
    ensures ParseLines(p, front + back, numeric) == ParseLines(q, back, numeric)
    decreases |front|
  {
    if front == [] {
      assert front + back == back;
    } else {
      assert (front + back)[1..] == front[1..] + back;
      ParseInTwo(ParseLine(p, front[0], numeric).value, front[1..], back, q, numeric);
    }
  }

  lemma FileIsParsed(tenant: string, first: string, locked: string, later: string, numeric: NumberCheck)
    requires IsTight(tenant) && ',' !in tenant && IsPlain(first) && IsPlain(locked) && IsPlain(later)
    ensures ParseLines(START, TwoSections(tenant, first, locked, later), numeric)
         == Ok(Parser(User, "u" + "\n", |first| + 1, true, LaterTemplate(tenant, later).(user := "")))
  {
    var p := FrontParser(tenant, first);
    var q := p.(hasLocked := true, lockedAt := |first| + 1);
    FrontIsParsed(tenant, first, numeric);
    ParseInTwo(START, Front(tenant, first), ["@locked"] + Behind(locked, later), p, numeric);
    FirstLockLine(p, numeric);
    ParseOneLine(p, "@locked", q, Behind(locked, later), numeric);
    BehindIsParsed(q, locked, later, numeric);
  }

  lemma FileIsScanned(tenant: string, first: string, locked: string, later: string)
    requires IsTight(tenant) && '\n' !in tenant && IsPlain(first) && IsPlain(locked) && IsPlain(later)
    ensures var lines := TwoSections(tenant, first, locked, later); ScanLines(Joined(lines)) == lines
  {
    var lines := TwoSections(tenant, first, locked, later);
    assert IsLine(TenantLine(tenant)) by {
      assert TenantLine(tenant)[|TenantLine(tenant)| - 1] == tenant[|tenant| - 1];
    }
    assert IsLine(NAME_LINE) && IsLine("@system") && IsLine("@locked") && IsLine("@user") && IsLine("u");
    ScanOfJoined(lines);
  }

  lemma EndOfFile(src: string, p: Parser, numeric: NumberCheck)
    requires ParseLines(START, ScanLines(src), numeric) == Ok(p)
    ensures ParsePrompt(src, numeric) == if Accepted(p) then Some(Flush(p)) else None
  {
  }

  lemma LastSection(lockedAt: nat, t: Template)
    requires t.name != ""
    ensures var p := Parser(User, "u" + "\n", lockedAt, true, t);
            && Flush(p) == Parser(User, "", lockedAt, true, t.(user := "u"))
            && (Accepted(p) <==> ZonesAccepted(t.(user := "u"), lockedAt, true))
  {
    TrimOneNewline("u");
  }

  /** Such a file is accepted exactly if its last sections pass the zone checks under the first section's lock. */
  lemma FileIsAccepted(tenant: string, first: string, locked: string, later: string, numeric: NumberCheck)
    requires IsTight(tenant) && ',' !in tenant && '\n' !in tenant && IsPlain(first) && IsPlain(locked) && IsPlain(later)
    ensures var p := Parser(User, "", |first| + 1, true, LaterTemplate(tenant, later));
            ParsePrompt(Joined(TwoSections(tenant, first, locked, later)), numeric)
            == if ZonesAccepted(p.tmpl, p.lockedAt, true) then Some(p) else None
  {
    var t := LaterTemplate(tenant, later).(user := "");
    FileIsParsed(tenant, first, locked, later, numeric);
    FileIsScanned(tenant, first, locked, later);
    EndOfFile(Joined(TwoSections(tenant, first, locked, later)), Parser(User, "u" + "\n", |first| + 1, true, t),
              numeric);
    LastSection(|first| + 1, t);
  }

  lemma LockedLineOf(tenant: string, first: string, locked: string, later: string)
    requires IsPlain(locked)
    ensures var lines := TwoSections(tenant, first, locked, later);
            |lines| == 10 && lines[4] == "@locked" && TrimSpace(lines[4]) == "@locked" && LockedText(lines, 4) == locked
  {
    var lines := TwoSections(tenant, first, locked, later);
    TrimOfTight("@locked");
    TrimOfTight("@system");
    TrimOfTight(locked);
    TrimOneNewline(locked);
    assert lines[5..] == Behind(locked, later);
    var rest := ["@system"] + ([later] + (["@user"] + (["u"] + [])));
    assert Behind(locked, later)[0] == locked && Behind(locked, later)[1..] == rest;
    assert RestOfSection(rest) == [] by { assert rest[0] == "@system"; }
    assert RestOfSection(Behind(locked, later)) == [locked] + [];
    assert BodyText([locked]) == locked + "\n" + BodyText([]) by { assert [locked][1..] == []; }
    assert locked + "\n" + "" == locked + "\n";
  }

  lemma AcceptedFile(tenant: string, first: string, locked: string, later: string, numeric: NumberCheck)
    returns (src: string)
    requires IsTight(tenant) && ',' !in tenant && '\n' !in tenant && IsPlain(first) && IsPlain(locked) && IsPlain(later)
    requires ZonesAccepted(LaterTemplate(tenant, later), |first| + 1, true)
    ensures ParsePrompt(src, numeric).Some?
    ensures var p := ParsePrompt(src, numeric).value;
            p.tmpl.system == later && p.tmpl.tenantVars == [tenant] && p.lockedAt == |first| + 1
    ensures |ScanLines(src)| > 4 && TrimSpace(ScanLines(src)[4]) == "@locked" && LockedText(ScanLines(src), 4) == locked
  {
    src := Joined(TwoSections(tenant, first, locked, later));
    FileIsAccepted(tenant, first, locked, later, numeric);
    FileIsScanned(tenant, first, locked, later);
    LockedLineOf(tenant, first, locked, later);
  }

  // ---------------------------------------------------------------- a locked text that is lost

  const LATER := "{{t}} x"

  lemma LaterIsSearched()
    ensures OccursAt(LATER, Needle("t"), 0) && BeginsBeforeLock(LATER, Needle("t"), 6, 0)
  {
    assert Needle("t") == "{{t}}";
    assert OccursAt(LATER, "{{t}}", 0);
    assert IndexFrom(LATER, "{{t}}", 0) == Some(0) && IndexFrom(LATER, "{{t}}", 5) == None;
  }

  lemma LaterIsAccepted()
    ensures ZonesAccepted(LaterTemplate("t", LATER), 6, true)
  {
    LaterIsSearched();
    assert LockedZone(LaterTemplate("t", LATER), 6) == "x";
  }

  lemma LaterDoesNotEndInTheLock(rendered: string)
    requires IsSubstitution(LATER, map[], rendered)
    ensures !HasSuffix(rendered, "L")
  {
    NothingToSubstitute(LATER, rendered);
    assert rendered[6..] == "x";
  }

  /** An accepted file whose locked text is lost: its prompt, rendered without variables, does not end in it. */
  lemma LockedTextCanBeLost(numeric: NumberCheck, rendered: string) returns (src: string, k: nat)
    ensures ParsePrompt(src, numeric).Some? && k < |ScanLines(src)| && TrimSpace(ScanLines(src)[k]) == "@locked"
    ensures LockedText(ScanLines(src), k) == "L"
    ensures IsSubstitution(ParsePrompt(src, numeric).value.tmpl.system, map[], rendered) ==> !HasSuffix(rendered, "L")
  {
    LaterIsAccepted();
    src := AcceptedFile("t", "{{t}}", "L", LATER, numeric);
    k := 4;
    if IsSubstitution(LATER, map[], rendered) {
      LaterDoesNotEndInTheLock(rendered);
    }
  }

  // ---------------------------------------------------------------- a tenant variable behind the lock

  const OVERLAPPING := "}}{{"
  const ONCE := "{{}}{{}}"
  const TWICE := "{{}}{{}}{{}}"

  lemma NoWordNoVar(s: string)
    requires forall i | 0 <= i < |s| :: !IsWordStart(s[i])
    ensures !HasVar(s)
  {
  }

  lemma TwiceIsSearched()
    ensures OccursAt(TWICE, ONCE, 0) && OccursAt(TWICE, ONCE, 4) && BeginsBeforeLock(TWICE, ONCE, 4, 0)
  {
    assert IndexFrom(TWICE, ONCE, 0) == Some(0) && IndexFrom(TWICE, ONCE, 8) == None;
  }

  lemma OnceIsThePlaceholder()
    ensures Needle(OVERLAPPING) == ONCE && TWICE[4..] == ONCE && !HasVar(ONCE)
  {
    NoWordNoVar(ONCE);
  }

  lemma TwiceIsAccepted()
    ensures ZonesAccepted(LaterTemplate(OVERLAPPING, TWICE), 4, true)
    ensures OccursAt(TWICE, Needle(OVERLAPPING), 4)
  {
    OnceIsThePlaceholder();
    TwiceIsSearched();
  }

  lemma LeapPartsArePlain()
    ensures IsTight(OVERLAPPING) && ',' !in OVERLAPPING && '\n' !in OVERLAPPING
    ensures IsPlain("abc") && IsPlain("L") && IsPlain(TWICE)
  {
  }

  lemma OccurrenceBehindTheLock(tenant: string, first: string, locked: string, later: string, numeric: NumberCheck)
    returns (src: string)
    requires IsTight(tenant) && ',' !in tenant && '\n' !in tenant && IsPlain(first) && IsPlain(locked) && IsPlain(later)
    requires ZonesAccepted(LaterTemplate(tenant, later), |first| + 1, true)
    requires OccursAt(later, Needle(tenant), |first| + 1)
    ensures ParsePrompt(src, numeric).Some?
    ensures var p := ParsePrompt(src, numeric).value;
            tenant in p.tmpl.tenantVars && OccursAt(p.tmpl.system, Needle(tenant), p.lockedAt)
  {
    src := AcceptedFile(tenant, first, locked, later, numeric);
  }

  /**
    An accepted file with a tenant variable behind the lock: its placeholder overlaps itself and the search leaps over
    it.
   */
  lemma TenantVarCanStandBehindTheLock(numeric: NumberCheck) returns (src: string, name: string)
    ensures ParsePrompt(src, numeric).Some?
    ensures var p := ParsePrompt(src, numeric).value;
            name in p.tmpl.tenantVars && OccursAt(p.tmpl.system, Needle(name), p.lockedAt)
  {
    name := OVERLAPPING;
    LeapPartsArePlain();
    TwiceIsAccepted();
    src := OccurrenceBehindTheLock(OVERLAPPING, "abc", "L", TWICE, numeric);
  }
}
