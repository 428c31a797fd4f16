/** Recovering a JSON object from a model's reply: internal/ai/rag/jsontext.go, against the grammar of RFC 8259. */
module JsonText {
  import opened Text

  // ---------------------------------------------------------------- the scanner

  datatype Scan = Scan(depth: int, inString: bool, escaped: bool)

  const OUTSIDE := Scan(0, false, false)

  /** The switch of the scan loop. */
  function Step(st: Scan, c: char): Scan {
    if st.escaped then st.(escaped := false)
    else if c == '\\' && st.inString then st.(escaped := true)
    else if c == '"' then st.(inString := !st.inString)
    else if st.inString then st
    else if c == '{' then st.(depth := st.depth + 1)
    else if c == '}' then st.(depth := st.depth - 1)
    else st
  }

  function Run(st: Scan, s: string): Scan
    decreases |s|
  {
    if s == "" then st else Run(Step(st, s[0]), s[1..])
  }

  /** The braces of s balance after n characters, and not earlier. */
  ghost predicate FirstBalance(s: string, n: nat) {
    && 0 < n <= |s|
    && Run(OUTSIDE, s[..n]).depth == 0
    && forall m | 0 < m < n :: Run(OUTSIDE, s[..m]).depth != 0
  }

  ghost predicate IsFirstBrace(t: string, start: nat) {
    start < |t| && t[start] == '{' && forall k | 0 <= k < start :: t[k] != '{'
  }

  /** A balanced object of n characters stands at the first brace of t. */
  ghost predicate ObjectAt(t: string, start: nat, n: nat) {
    IsFirstBrace(t, start) && FirstBalance(t[start..], n)
  }

  predicate EndsInBrace(t: string) {
    t != "" && t[|t| - 1] == '}'
  }

  predicate LooksLikeObject(t: string) {
    t != "" && t[0] == '{' && EndsInBrace(t)
  }

  /** What the extraction returns, without saying how it scans. */
  ghost predicate IsExtraction(text: string, out: string) {
    var t := TrimSpace(text);
    if LooksLikeObject(t) then
      out == t
    else
      && (forall start: nat, n: nat | ObjectAt(t, start, n) :: out == t[start..start + n])
      && ((forall start: nat, n: nat :: !ObjectAt(t, start, n)) ==> out == text)
  }

  lemma {:induction false} RunOfConcat(st: Scan, a: string, b: string)
    ensures Run(st, a + b) == Run(Run(st, a), b)
    decreases |a|
  {
    if a == "" {
      assert a + b == b;
    } else {
      assert (a + b)[1..] == a[1..] + b;
      RunOfConcat(Step(st, a[0]), a[1..], b);
    }
  }

  lemma RunOneMore(s: string, n: nat)
    requires n < |s|
    ensures Run(OUTSIDE, s[..n + 1]) == Step(Run(OUTSIDE, s[..n]), s[n])
  {
    assert s[..n + 1] == s[..n] + [s[n]];
    RunOfConcat(OUTSIDE, s[..n], [s[n]]);
  }

  /** strings.IndexByte(t, '{') */
  method IndexBrace(t: string) returns (start: int)
    ensures start < 0 ==> forall k | 0 <= k < |t| :: t[k] != '{'
    ensures start >= 0 ==> IsFirstBrace(t, start)
  {
    for i := 0 to |t|
      invariant forall k | 0 <= k < i :: t[k] != '{'
    {
      if t[i] == '{' {
        return i;
      }
    }
    return -1;
  }

  /** The scan loop: the length of the first balanced object of s, or a negative number. */
  method ScanObject(s: string) returns (n: int)
    requires s != "" && s[0] == '{'
    ensures n >= 0 ==> FirstBalance(s, n)
    ensures n < 0 ==> forall m: nat :: !FirstBalance(s, m)
  {
    var depth, inString, escaped := 0, false, false;
    for i := 0 to |s|
      invariant Run(OUTSIDE, s[..i]) == Scan(depth, inString, escaped)
      invariant i > 0 ==> depth > 0
      invariant forall m | 0 < m <= i :: Run(OUTSIDE, s[..m]).depth > 0
    {
      RunOneMore(s, i);
      var c := s[i];
      if escaped {
        escaped := false;
      } else if c == '\\' && inString {
        escaped := true;
      } else if c == '"' {
        inString := !inString;
      } else if inString {
        // braces inside a string literal are not structural
      } else if c == '{' {
        depth := depth + 1;
      } else if c == '}' {
        depth := depth - 1;
        if depth == 0 {
          return i + 1;
        }
      }
    }
    return -1;
  }

  lemma FirstBraceIsUnique(t: string, start: nat, start': nat)
    requires IsFirstBrace(t, start) && IsFirstBrace(t, start')
    ensures start == start'
  {
  }

  lemma FirstBalanceIsUnique(s: string, n: nat, n': nat)
    requires FirstBalance(s, n) && FirstBalance(s, n')
    ensures n == n'
  {
  }

  method ExtractJSONObject(text: string) returns (out: string)
    ensures IsExtraction(text, out)
  {
    var trimmed := TrimSpace(text);
    if LooksLikeObject(trimmed) {
      return trimmed;
    }
    var start := IndexBrace(trimmed);
    if start < 0 {
      return text;
    }
    var n := ScanObject(trimmed[start..]);
    forall start': nat, n': nat | ObjectAt(trimmed, start', n') ensures start' == start && n' == n {
      FirstBraceIsUnique(trimmed, start, start');
      FirstBalanceIsUnique(trimmed[start..], n, n');
    }
    if n >= 0 {
      assert ObjectAt(trimmed, start, n);
      return trimmed[start..start + n];
    }
    return text;
  }

  // ---------------------------------------------------------------- the grammar

  /** One character of a string literal (section 7). */
  datatype StringChar =
    | Plain(c: char)
    | Escape(c: char)
    | Unicode(hex: string)

  /** A number (section 6): minus, int, frac, exp. */
  datatype Number = Number(minus: bool, whole: string, frac: string, exp: Exponent)

  datatype Exponent = NoExponent | Exponent(mark: char, sign: string, digits: string)

  datatype Value =
    | Keyword(word: string)
    | Num(number: Number)
    | Str(chars: seq<StringChar>)
    | EmptyArray(blank: string)
    | Array(elements: Elements)
    | EmptyObject(blank: string)
    | Object(members: Members)

  datatype Elements = One(before: string, value: Value, after: string) | More(first: Elements, rest: Elements)

  datatype Members =
    | Member(before: string, key: seq<StringChar>, between: string, valueBefore: string, value: Value,
             valueAfter: string)
    | Further(first: Members, rest: Members)

  /** ws of section 2 */
  predicate IsWs(s: string) {
    forall k | 0 <= k < |s| :: s[k] in " \t\n\r"
  }

  predicate IsDigits(s: string) {
    s != "" && forall k | 0 <= k < |s| :: '0' <= s[k] <= '9'
  }

  predicate IsHex(c: char) {
    '0' <= c <= '9' || 'a' <= c <= 'f' || 'A' <= c <= 'F'
  }

  predicate IsStringChar(x: StringChar) {
    match x
    case Plain(c) => c as int >= 0x20 && c != '"' && c != '\\'
    case Escape(c) => c in "\"\\/bfnrt"
    case Unicode(hex) => |hex| == 4 && forall k | 0 <= k < 4 :: IsHex(hex[k])
  }

  predicate IsString(chars: seq<StringChar>) {
    forall k | 0 <= k < |chars| :: IsStringChar(chars[k])
  }

  predicate IsNumber(n: Number) {
    && IsDigits(n.whole) && (n.whole[0] == '0' ==> |n.whole| == 1)
    && (n.frac == "" || IsDigits(n.frac))
    && (n.exp.Exponent? ==> n.exp.mark in "eE" && n.exp.sign in ["", "+", "-"] && IsDigits(n.exp.digits))
  }

  predicate IsValue(v: Value) {
    match v
    case Keyword(word) => word in ["true", "false", "null"]
    case Num(number) => IsNumber(number)
    case Str(chars) => IsString(chars)
    case EmptyArray(blank) => IsWs(blank)
    case Array(elements) => AreElements(elements)
    case EmptyObject(blank) => IsWs(blank)
    case Object(members) => AreMembers(members)
  }

  predicate AreElements(es: Elements) {
    match es
    case One(before, value, after) => IsWs(before) && IsValue(value) && IsWs(after)
    case More(first, rest) => AreElements(first) && AreElements(rest)
  }

  predicate AreMembers(ms: Members) {
    match ms
    case Member(before, key, between, valueBefore, value, valueAfter) =>
      IsWs(before) && IsString(key) && IsWs(between) && IsWs(valueBefore) && IsValue(value) && IsWs(valueAfter)
    case Further(first, rest) => AreMembers(first) && AreMembers(rest)
  }

  function CharText(x: StringChar): string {
    match x
    case Plain(c) => [c]
    case Escape(c) => "\\" + [c]
    case Unicode(hex) => "\\u" + hex
  }

  function CharsText(chars: seq<StringChar>): string {
    if chars == [] then "" else CharText(chars[0]) + CharsText(chars[1..])
  }

  function StringText(chars: seq<StringChar>): string {
    "\"" + CharsText(chars) + "\""
  }

  function NumberText(n: Number): string {
    (if n.minus then "-" else "") + n.whole + (if n.frac == "" then "" else "." + n.frac) +
    match n.exp
    case NoExponent => ""
    case Exponent(mark, sign, digits) => [mark] + sign + digits
  }

  function ValueText(v: Value): string {
    match v
    case Keyword(word) => word
    case Num(number) => NumberText(number)
    case Str(chars) => StringText(chars)
    case EmptyArray(blank) => "[" + blank + "]"
    case Array(elements) => "[" + ElementsText(elements) + "]"
    case EmptyObject(blank) => "{" + blank + "}"
    case Object(members) => "{" + MembersText(members) + "}"
  }

  function ElementsText(es: Elements): string {
    match es
    case One(before, value, after) => before + ValueText(value) + after
    case More(first, rest) => ElementsText(first) + "," + ElementsText(rest)
  }

  function MembersText(ms: Members): string {
    match ms
    case Member(before, key, between, valueBefore, value, valueAfter) =>
      before + StringText(key) + between + ":" + valueBefore + ValueText(value) + valueAfter
    case Further(first, rest) => MembersText(first) + "," + MembersText(rest)
  }

  // ---------------------------------------------------------------- scanning grammatical text

  function Min(a: int, b: int): int {
    if a < b then a else b
  }

  /** The least depth met on the way. */
  function Low(st: Scan, s: string): int
    decreases |s|
  {
    if s == "" then st.depth else Min(st.depth, Low(Step(st, s[0]), s[1..]))
  }

  lemma {:induction false} LowOfConcat(st: Scan, a: string, b: string)
    ensures Low(st, a + b) == Min(Low(st, a), Low(Run(st, a), b))
    decreases |a|
  {
    if a == "" {
      assert a + b == b;
      LowStartsHere(st, b);
    } else {
      assert (a + b)[1..] == a[1..] + b;
      LowOfConcat(Step(st, a[0]), a[1..], b);
    }
  }

  lemma LowStartsHere(st: Scan, s: string)
    ensures Low(st, s) <= st.depth
  {
  }

  lemma {:induction false} LowBoundsPrefixes(st: Scan, s: string, n: nat)
    requires n <= |s|
    ensures Run(st, s[..n]).depth >= Low(st, s)
    decreases n
  {
    LowStartsHere(st, s);
    if n > 0 {
      assert s[..n][1..] == s[1..][..n - 1];
      LowBoundsPrefixes(Step(st, s[0]), s[1..], n - 1);
    }
  }

  /** Scanned outside strings at any depth, the text comes back to where it started and never dips below. */
  ghost predicate Level(s: string) {
    forall d: int :: Run(Scan(d, false, false), s) == Scan(d, false, false) && Low(Scan(d, false, false), s) == d
  }

  lemma LevelConcat(a: string, b: string)
    requires Level(a) && Level(b)
    ensures Level(a + b)
  {
    forall d: int
      ensures Run(Scan(d, false, false), a + b) == Scan(d, false, false) && Low(Scan(d, false, false), a + b) == d
    {
      RunOfConcat(Scan(d, false, false), a, b);
      LowOfConcat(Scan(d, false, false), a, b);
    }
  }

  predicate IsStructural(c: char) {
    c == '{' || c == '}' || c == '"'
  }

  lemma {:induction false} PlainTextIsLevel(s: string)
    requires forall k | 0 <= k < |s| :: !IsStructural(s[k])
    ensures Level(s)
    decreases |s|
  {
    if s != "" {
      PlainTextIsLevel(s[1..]);
    }
  }

  lemma CharKeepsString(d: int, x: StringChar)
    requires IsStringChar(x)
    ensures Run(Scan(d, true, false), CharText(x)) == Scan(d, true, false)
              && Low(Scan(d, true, false), CharText(x)) == d
  {
    var st := Scan(d, true, false);
    match x
    case Plain(c) => assert [c][1..] == "";
    case Escape(c) =>
      Enclosed(st, '\\', "", c);
      assert "\\" + "" + [c] == "\\" + [c];
    case Unicode(hex) =>
      assert ("\\u" + hex)[1..] == "u" + hex && ("u" + hex)[1..] == hex;
      HexKeepsString(d, hex);
  }

  lemma {:induction false} HexKeepsString(d: int, hex: string)
    requires forall k | 0 <= k < |hex| :: IsHex(hex[k])
    ensures Run(Scan(d, true, false), hex) == Scan(d, true, false) && Low(Scan(d, true, false), hex) == d
    decreases |hex|
  {
    if hex != "" {
      HexKeepsString(d, hex[1..]);
    }
  }

  lemma {:induction false} CharsKeepString(d: int, chars: seq<StringChar>)
    requires IsString(chars)
    ensures Run(Scan(d, true, false), CharsText(chars)) == Scan(d, true, false)
    ensures Low(Scan(d, true, false), CharsText(chars)) == d
    decreases |chars|
  {
    if chars != [] {
      var st := Scan(d, true, false);
      CharKeepsString(d, chars[0]);
      CharsKeepString(d, chars[1..]);
      RunOfConcat(st, CharText(chars[0]), CharsText(chars[1..]));
      LowOfConcat(st, CharText(chars[0]), CharsText(chars[1..]));
    }
  }

  lemma Enclosed(st: Scan, open: char, inner: string, close: char)
    ensures Run(st, [open] + inner + [close]) == Step(Run(Step(st, open), inner), close)
    ensures Low(st, [open] + inner + [close])
            == Min(st.depth, Min(Low(Step(st, open), inner), Step(Run(Step(st, open), inner), close).depth))
  {
    var s := [open] + inner + [close];
    assert s[0] == open && s[1..] == inner + [close];
    RunOfConcat(Step(st, open), inner, [close]);
    LowOfConcat(Step(st, open), inner, [close]);
    assert [close][1..] == "";
    LowStartsHere(Step(st, open), inner);
    LowBoundsPrefixes(Step(st, open), inner, |inner|);
    assert inner[..|inner|] == inner;
  }

  lemma StringsAreLevel(chars: seq<StringChar>)
    requires IsString(chars)
    ensures Level(StringText(chars))
  {
    forall d: int
      ensures Run(Scan(d, false, false), StringText(chars)) == Scan(d, false, false)
      ensures Low(Scan(d, false, false), StringText(chars)) == d
    {
      CharsKeepString(d, chars);
      Enclosed(Scan(d, false, false), '"', CharsText(chars), '"');
    }
  }

  lemma BracketsAreLevel(inner: string)
    requires Level(inner)
    ensures Level("[" + inner + "]")
  {
    PlainTextIsLevel("[");
    PlainTextIsLevel("]");
    LevelConcat("[", inner);
    LevelConcat("[" + inner, "]");
  }

  lemma BracesKeepScan(d: int, inner: string, text: string)
    requires Level(inner) && text == "{" + inner + "}"
    ensures Run(Scan(d, false, false), text) == Scan(d, false, false) && Low(Scan(d, false, false), text) == d
  {
    assert Run(Scan(d + 1, false, false), inner) == Scan(d + 1, false, false);
    Enclosed(Scan(d, false, false), '{', inner, '}');
  }

  lemma BracesAreLevel(inner: string)
    requires Level(inner)
    ensures Level("{" + inner + "}")
  {
    var text := "{" + inner + "}";
    forall d: int
      ensures Run(Scan(d, false, false), text) == Scan(d, false, false) && Low(Scan(d, false, false), text) == d
    {
      BracesKeepScan(d, inner, text);
    }
  }

  lemma NumbersAreLevel(n: Number)
    requires IsNumber(n)
    ensures Level(NumberText(n))
  {
    assert forall k | 0 <= k < |NumberText(n)| :: !IsStructural(NumberText(n)[k]);
    PlainTextIsLevel(NumberText(n));
  }

  /** Every value of the grammar leaves the scanner where it was. */
  lemma {:induction false} ValuesAreLevel(v: Value)
    requires IsValue(v)
    ensures Level(ValueText(v))
  {
    match v
    case Keyword(word) => PlainTextIsLevel(word);
    case Num(number) => NumbersAreLevel(number);
    case Str(chars) => StringsAreLevel(chars);
    case EmptyArray(blank) => PlainTextIsLevel(blank); BracketsAreLevel(blank);
    case Array(elements) => ElementsAreLevel(elements); BracketsAreLevel(ElementsText(elements));
    case EmptyObject(blank) => PlainTextIsLevel(blank); BracesAreLevel(blank);
    case Object(members) => MembersAreLevel(members); BracesAreLevel(MembersText(members));
  }

  lemma {:induction false} ElementsAreLevel(es: Elements)
    requires AreElements(es)
    ensures Level(ElementsText(es))
  {
    match es
    case One(before, value, after) =>
      PlainTextIsLevel(before);
      ValuesAreLevel(value);
      PlainTextIsLevel(after);
      LevelConcat(before, ValueText(value));
      LevelConcat(before + ValueText(value), after);
    case More(first, rest) =>
      ElementsAreLevel(first);
      PlainTextIsLevel(",");
      ElementsAreLevel(rest);
      LevelConcat(ElementsText(first), ",");
      LevelConcat(ElementsText(first) + ",", ElementsText(rest));
  }

  lemma {:induction false} MembersAreLevel(ms: Members)
    requires AreMembers(ms)
    ensures Level(MembersText(ms))
  {
    match ms
    case Member(before, key, between, valueBefore, value, valueAfter) =>
      PlainTextIsLevel(before);
      StringsAreLevel(key);
      LevelConcat(before, StringText(key));
      PlainTextIsLevel(between);
      LevelConcat(before + StringText(key), between);
      PlainTextIsLevel(":");
      LevelConcat(before + StringText(key) + between, ":");
      PlainTextIsLevel(valueBefore);
      LevelConcat(before + StringText(key) + between + ":", valueBefore);
      ValuesAreLevel(value);
      LevelConcat(before + StringText(key) + between + ":" + valueBefore, ValueText(value));
      PlainTextIsLevel(valueAfter);
      LevelConcat(before + StringText(key) + between + ":" + valueBefore + ValueText(value), valueAfter);
    case Further(first, rest) =>
      MembersAreLevel(first);
      PlainTextIsLevel(",");
      MembersAreLevel(rest);
      LevelConcat(MembersText(first), ",");
      LevelConcat(MembersText(first) + ",", MembersText(rest));
  }

  // ---------------------------------------------------------------- the promise

  predicate IsObject(v: Value) {
    (v.EmptyObject? || v.Object?) && IsValue(v)
  }

  lemma ObjectsAreBraced(o: Value) returns (inner: string)
    requires IsObject(o)
    ensures ValueText(o) == "{" + inner + "}" && Level(inner)
  {
    if o.EmptyObject? {
      inner := o.blank;
      PlainTextIsLevel(inner);
    } else {
      inner := MembersText(o.members);
      MembersAreLevel(o.members);
    }
  }

  /** The scanner stops at the last character of an object, whatever follows. */
  lemma ObjectIsFirstBalance(o: Value, rest: string)
    requires IsObject(o)
    ensures FirstBalance(ValueText(o) + rest, |ValueText(o)|)
  {
    var inner := ObjectsAreBraced(o);
    var s := ValueText(o);
    ValuesAreLevel(o);
    assert (s + rest)[..|s|] == s;
    assert Run(OUTSIDE, s).depth == 0;
    forall m | 0 < m < |s| ensures Run(OUTSIDE, (s + rest)[..m]).depth != 0 {
      assert (s + rest)[..m] == "{" + inner[..m - 1];
      assert ("{" + inner[..m - 1])[1..] == inner[..m - 1];
      LowBoundsPrefixes(Scan(1, false, false), inner, m - 1);
    }
  }

  lemma TrimLeftAround(p: string, rest: string)
    requires rest != "" && rest[0] == '{'
    ensures TrimLeft(p + rest) == TrimLeft(p) + rest
  {
    TrimLeftOfConcat(p, rest);
    assert TrimLeft(rest) == rest && "" + rest == rest;
  }

  lemma TrimRightAround(front: string, s: string)
    requires front != "" && front[|front| - 1] == '}'
    ensures TrimRight(front + s) == front + TrimRight(s)
  {
    TrimRightOfConcat(front, s);
    assert front + "" == front;
  }

  /** What trimming leaves of an object with text around it. */
  lemma TrimAround(p: string, body: string, s: string)
    requires body != "" && body[0] == '{' && body[|body| - 1] == '}'
    ensures TrimSpace(p + body + s) == TrimLeft(p) + body + TrimRight(s)
  {
    assert p + body + s == p + (body + s);
    TrimLeftAround(p, body + s);
    assert TrimLeft(p) + (body + s) == TrimLeft(p) + body + s;
    TrimRightAround(TrimLeft(p) + body, s);
  }

  /** When the shortcut takes the trimmed text for an object. */
  lemma ShortcutCondition(before: string, body: string, after: string)
    requires |body| >= 2 && body[0] == '{' && body[|body| - 1] == '}' && (before != "" ==> before[0] != '{')
    ensures LooksLikeObject(before + body + after) <==> before == "" && (after == "" || EndsInBrace(after))
    ensures before == "" && before + body + after == body <==> before == "" && after == ""
  {
    var t := before + body + after;
    assert before != "" ==> t[0] == before[0];
    assert before == "" ==> t[0] == body[0];
    assert after != "" ==> t[|t| - 1] == after[|after| - 1];
    assert after == "" ==> t == before + body;
    assert before == "" && after == "" ==> t == body;
  }

  /** Behind text without opening braces the object is found where it stands. */
  lemma ObjectIsFound(before: string, o: Value, after: string)
    requires IsObject(o) && '{' !in before
    ensures ObjectAt(before + ValueText(o) + after, |before|, |ValueText(o)|)
    ensures (before + ValueText(o) + after)[|before|..|before| + |ValueText(o)|] == ValueText(o)
  {
    var inner := ObjectsAreBraced(o);
    ObjectIsFirstBalance(o, after);
    assert (before + ValueText(o) + after)[|before|..] == ValueText(o) + after;
  }

  lemma ExtractionOfTrimmed(text: string, before: string, body: string, after: string, out: string)
    requires IsExtraction(text, out) && TrimSpace(text) == before + body + after
    requires ObjectAt(before + body + after, |before|, |body|)
    requires LooksLikeObject(before + body + after) <==> before == "" && (after == "" || EndsInBrace(after))
    ensures out == body <==> before != "" || !EndsInBrace(after)
  {
    var t := before + body + after;
    assert t[|before|..|before| + |body|] == body;
    if before == "" && EndsInBrace(after) {
      assert |t| > |body|;
    }
    assert before == "" && after == "" ==> t == body;
  }

  /**
    The object comes back exactly, out of any prose without an opening brace before
    it and out of anything after it, if and only if there is prose before it or the
    rest does not end in a closing brace: then the whole text looks like an object
    and is returned unscanned.
   */
  lemma ObjectIsRecovered(p: string, o: Value, s: string, out: string)
    requires IsObject(o) && '{' !in p
    requires IsExtraction(p + ValueText(o) + s, out)
    ensures out == ValueText(o) <==> !Blank(p) || !EndsInBrace(TrimRight(s))
  {
    var before, after := TrimLeft(p), TrimRight(s);
    var inner := ObjectsAreBraced(o);
    TrimAround(p, ValueText(o), s);
    TrimLeftSplits(p);
    assert '{' !in before;
    ShortcutCondition(before, ValueText(o), after);
    ObjectIsFound(before, o, after);
    ExtractionOfTrimmed(p + ValueText(o) + s, before, ValueText(o), after, out);
  }
}
