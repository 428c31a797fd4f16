/**
  The pieces of Go's strings package the modelled code relies on, over sequences of
  Unicode scalar values.  Offsets count characters where Go counts bytes.  An offset
  into the text it was taken from is a character boundary, so the two agree on what it
  cuts off; a lock offset that outlives its text (a later @system line) need not be one.
 */
module Text {

  /** unicode.IsSpace */
  predicate IsSpace(c: char) {
    || c in "\t\n\r "
    || c as int in {0x0B, 0x0C, 0x85, 0xA0, 0x1680, 0x2028, 0x2029, 0x202F, 0x205F, 0x3000}
    || 0x2000 <= c as int <= 0x200A
  }

  predicate Blank(s: string) {
    forall i | 0 <= i < |s| :: IsSpace(s[i])
  }

  function TrimLeft(s: string): string {
    if s != "" && IsSpace(s[0]) then TrimLeft(s[1..]) else s
  }

  function TrimRight(s: string): string {
    if s != "" && IsSpace(s[|s| - 1]) then TrimRight(s[..|s| - 1]) else s
  }

  function TrimSpace(s: string): string {
    TrimRight(TrimLeft(s))
  }

  /** strings.TrimRight(s, "\n") */
  function TrimNewlines(s: string): string {
    if s != "" && s[|s| - 1] == '\n' then TrimNewlines(s[..|s| - 1]) else s
  }

  predicate HasSuffix(s: string, tail: string) {
    |tail| <= |s| && s[|s| - |tail|..] == tail
  }

  predicate OccursAt(s: string, needle: string, i: nat) {
    i + |needle| <= |s| && forall k | 0 <= k < |needle| :: s[i + k] == needle[k]
  }

  predicate Contains(s: string, needle: string) {
    exists i | 0 <= i <= |s| :: OccursAt(s, needle, i)
  }

  /** strings.ReplaceAll: leftmost, non-overlapping occurrences. */
  function ReplaceAll(s: string, needle: string, value: string): string
    requires needle != ""
  {
    if s == "" then ""
    else if OccursAt(s, needle, 0) then value + ReplaceAll(s[|needle|..], needle, value)
    else [s[0]] + ReplaceAll(s[1..], needle, value)
  }

  // ---------------------------------------------------------------- trimming

  lemma {:induction false} TrimLeftSplits(s: string)
    ensures |TrimLeft(s)| <= |s| && s == s[..|s| - |TrimLeft(s)|] + TrimLeft(s)
    ensures Blank(s[..|s| - |TrimLeft(s)|])
    ensures TrimLeft(s) == "" || !IsSpace(TrimLeft(s)[0])
  {
    if s != "" && IsSpace(s[0]) {
      TrimLeftSplits(s[1..]);
      var n := |s| - |TrimLeft(s)|;
      assert s[..n] == [s[0]] + s[1..][..n - 1];
    }
  }

  /** Trimming on the right looks no further than the last part that is not blank. */
  lemma {:induction false} TrimRightOfConcat(a: string, b: string)
    ensures TrimRight(a + b) == if TrimRight(b) == "" then TrimRight(a) else a + TrimRight(b)
    decreases |b|
  {
    if b == "" {
      assert a + b == a;
    } else if IsSpace(b[|b| - 1]) {
      assert (a + b)[..|a + b| - 1] == a + b[..|b| - 1];
      TrimRightOfConcat(a, b[..|b| - 1]);
    }
  }

  lemma {:induction false} TrimLeftOfConcat(a: string, b: string)
    ensures TrimLeft(a + b) == if TrimLeft(a) == "" then TrimLeft(b) else TrimLeft(a) + b
    decreases |a|
  {
    if a == "" {
      assert a + b == b;
    } else if IsSpace(a[0]) {
      assert (a + b)[1..] == a[1..] + b;
      TrimLeftOfConcat(a[1..], b);
    }
  }

  lemma {:induction false} TrimNewlinesOfConcat(a: string, b: string)
    ensures TrimNewlines(a + b) == if TrimNewlines(b) == "" then TrimNewlines(a) else a + TrimNewlines(b)
    decreases |b|
  {
    if b == "" {
      assert a + b == a;
    } else if b[|b| - 1] == '\n' {
      assert (a + b)[..|a + b| - 1] == a + b[..|b| - 1];
      TrimNewlinesOfConcat(a, b[..|b| - 1]);
    }
  }

  /** What the right end leaves is a beginning that trimming no longer changes. */
  lemma {:induction false} TrimRightStops(s: string)
    ensures var r := TrimRight(s);
            |r| <= |s| && r == s[..|r|] && TrimRight(r) == r && (r != "" ==> r[0] == s[0])
  {
    if s != "" && IsSpace(s[|s| - 1]) {
      TrimRightStops(s[..|s| - 1]);
    }
  }

  /** Trimming twice is trimming once. */
  lemma TrimSpaceIsStable(s: string)
    ensures TrimSpace(TrimSpace(s)) == TrimSpace(s)
  {
    TrimLeftSplits(s);
    TrimRightStops(TrimLeft(s));
  }

  lemma {:induction false} TrimRightOfBlank(s: string)
    ensures TrimRight(s) == "" <==> Blank(s)
  {
    if s != "" && IsSpace(s[|s| - 1]) {
      TrimRightOfBlank(s[..|s| - 1]);
      assert s == s[..|s| - 1] + [s[|s| - 1]];
    }
  }

  lemma BlankIsTrimmed(s: string)
    ensures TrimSpace(s) == "" <==> Blank(s)
  {
    TrimLeftSplits(s);
    TrimRightOfBlank(TrimLeft(s));
  }

  /** Trimming adds no character. */
  lemma {:induction false} TrimRightAddsNothing(s: string, c: char)
    requires c !in s
    ensures c !in TrimRight(s)
  {
    if s != "" && IsSpace(s[|s| - 1]) {
      TrimRightAddsNothing(s[..|s| - 1], c);
    }
  }

  lemma TrimSpaceAddsNothing(s: string, c: char)
    requires c !in s
    ensures c !in TrimSpace(s)
  {
    TrimLeftSplits(s);
    TrimRightAddsNothing(TrimLeft(s), c);
  }

  // ---------------------------------------------------------------- replacing

  lemma {:induction false} ReplaceWithoutOccurrence(s: string, needle: string, value: string)
    requires needle != "" && forall i: nat :: !OccursAt(s, needle, i)
    ensures ReplaceAll(s, needle, value) == s
  {
    if s != "" {
      assert !OccursAt(s, needle, 0);
      assert forall i: nat :: OccursAt(s[1..], needle, i) ==> OccursAt(s, needle, i + 1);
      ReplaceWithoutOccurrence(s[1..], needle, value);
    }
  }

  // ---------------------------------------------------------------- what replacing means

  function Join(parts: seq<string>, between: string): string {
    if parts == [] then ""
    else if |parts| == 1 then parts[0]
    else parts[0] + between + Join(parts[1..], between)
  }

  /**
    The text cut at the leftmost occurrences that do not overlap: the needle does not occur in any part, and with
    the needle behind it a part holds no occurrence in front of that one.
   */
  ghost predicate IsSplit(s: string, needle: string, parts: seq<string>) {
    && parts != [] && Join(parts, needle) == s
    && (forall j, i: nat | 0 <= j < |parts| :: !OccursAt(parts[j], needle, i))
    && forall j, i | 0 <= j < |parts| - 1 && 0 <= i < |parts[j]| :: !OccursAt(parts[j] + needle, needle, i)
  }

  lemma OccursAsSlice(s: string, needle: string, i: nat)
    ensures OccursAt(s, needle, i) <==> i + |needle| <= |s| && s[i..i + |needle|] == needle
  {
  }

  lemma OccursFurtherOn(s: string, needle: string, n: nat, i: nat)
    requires n <= |s|
    ensures OccursAt(s[n..], needle, i) <==> OccursAt(s, needle, i + n)
  {
    OccursAsSlice(s[n..], needle, i);
    OccursAsSlice(s, needle, i + n);
  }

  /** Where no occurrence begins nothing changes. */
  lemma {:induction false} ReplaceSkips(a: string, b: string, needle: string, value: string)
    requires needle != "" && forall i | 0 <= i < |a| :: !OccursAt(a + b, needle, i)
    ensures ReplaceAll(a + b, needle, value) == a + ReplaceAll(b, needle, value)
    decreases |a|
  {
    if a == "" {
      assert a + b == b && a + ReplaceAll(b, needle, value) == ReplaceAll(b, needle, value);
    } else {
      assert (a + b)[1..] == a[1..] + b;
      assert !OccursAt(a + b, needle, 0);
      forall i | 0 <= i < |a[1..]| ensures !OccursAt(a[1..] + b, needle, i) {
        OccursFurtherOn(a + b, needle, 1, i);
      }
      ReplaceSkips(a[1..], b, needle, value);
      assert [a[0]] + (a[1..] + ReplaceAll(b, needle, value)) == a + ReplaceAll(b, needle, value);
    }
  }

  lemma ReplaceAtNeedle(b: string, needle: string, value: string)
    requires needle != ""
    ensures ReplaceAll(needle + b, needle, value) == value + ReplaceAll(b, needle, value)
  {
    assert OccursAt(needle + b, needle, 0) && (needle + b)[|needle|..] == b;
  }

  lemma SplitTail(s: string, needle: string, parts: seq<string>)
    requires IsSplit(s, needle, parts) && |parts| > 1
    ensures IsSplit(Join(parts[1..], needle), needle, parts[1..])
    ensures forall i | 0 <= i < |parts[0]| :: !OccursAt(s, needle, i)
    ensures s == parts[0] + (needle + Join(parts[1..], needle))
  {
    var rest := Join(parts[1..], needle);
    assert s == parts[0] + (needle + rest);
    forall i | 0 <= i < |parts[0]| ensures !OccursAt(s, needle, i) {
      assert forall x | 0 <= x < |parts[0] + needle| :: s[x] == (parts[0] + needle)[x];
      assert OccursAt(s, needle, i) ==> OccursAt(parts[0] + needle, needle, i);
    }
    assert forall j | 0 <= j < |parts[1..]| :: parts[1..][j] == parts[j + 1];
  }

  /** ReplaceAll joins with the value what the needle had joined. */
  lemma {:induction false} ReplaceAllMeans(s: string, needle: string, value: string, parts: seq<string>)
    requires needle != "" && IsSplit(s, needle, parts)
    ensures ReplaceAll(s, needle, value) == Join(parts, value)
    decreases |parts|
  {
    if |parts| == 1 {
      ReplaceWithoutOccurrence(s, needle, value);
    } else {
      var rest := Join(parts[1..], needle);
      SplitTail(s, needle, parts);
      ReplaceSkips(parts[0], needle + rest, needle, value);
      ReplaceAtNeedle(rest, needle, value);
      ReplaceAllMeans(rest, needle, value, parts[1..]);
      assert parts[0] + (value + Join(parts[1..], value)) == parts[0] + value + Join(parts[1..], value);
    }
  }

  lemma SplitAtNeedle(s: string, needle: string, parts: seq<string>)
    requires needle != "" && needle <= s && IsSplit(s[|needle|..], needle, parts)
    ensures IsSplit(s, needle, [""] + parts)
  {
    var all := [""] + parts;
    assert all[1..] == parts && Join(all, needle) == s;
    assert forall j | 0 < j < |all| :: all[j] == parts[j - 1];
  }

  lemma NotInFront(c: char, part: string, needle: string, s: string)
    requires [c] + part <= s && needle != "" && !OccursAt(s, needle, 0)
    requires forall i: nat | i < |part| :: !OccursAt(part, needle, i)
    ensures forall i: nat | i <= |part| :: !OccursAt([c] + part, needle, i)
  {
    var all := [c] + part;
    assert all[1..] == part;
    forall i: nat | i <= |part| ensures !OccursAt(all, needle, i) {
      if i == 0 {
        assert forall k | 0 <= k < |all| :: all[k] == s[k];
      } else {
        OccursFurtherOn(all, needle, 1, i - 1);
      }
    }
  }

  lemma NotInFrontOfNeedle(c: char, part: string, needle: string, s: string)
    requires [c] + part + needle <= s && needle != "" && !OccursAt(s, needle, 0)
    requires forall i | 0 <= i < |part| :: !OccursAt(part + needle, needle, i)
    ensures forall i | 0 <= i < |part| + 1 :: !OccursAt([c] + part + needle, needle, i)
  {
    var all := [c] + part + needle;
    assert all[1..] == part + needle;
    forall i | 0 <= i < |part| + 1 ensures !OccursAt(all, needle, i) {
      if i == 0 {
        assert forall k | 0 <= k < |all| :: all[k] == s[k];
      } else {
        OccursFurtherOn(all, needle, 1, i - 1);
      }
    }
  }

  lemma SplitOneMore(s: string, needle: string, parts: seq<string>)
    requires s != "" && !OccursAt(s, needle, 0) && needle != "" && IsSplit(s[1..], needle, parts)
    ensures IsSplit(s, needle, [[s[0]] + parts[0]] + parts[1..])
  {
    var first := [s[0]] + parts[0];
    var all := [first] + parts[1..];
    assert all[1..] == parts[1..] && Join(all, needle) == [s[0]] + Join(parts, needle) == s;
    NotInFront(s[0], parts[0], needle, s);
    if |parts| > 1 {
      NotInFrontOfNeedle(s[0], parts[0], needle, s);
    }
    assert forall j | 0 < j < |all| :: all[j] == parts[j];
  }

  /** Every text can be cut like that. */
  lemma {:induction false} SplitExists(s: string, needle: string) returns (parts: seq<string>)
    requires needle != ""
    ensures IsSplit(s, needle, parts)
    decreases |s|
  {
    if s == "" {
      parts := [""];
    } else if needle <= s {
      parts := SplitExists(s[|needle|..], needle);
      SplitAtNeedle(s, needle, parts);
      parts := [""] + parts;
    } else {
      parts := SplitExists(s[1..], needle);
      SplitOneMore(s, needle, parts);
      parts := [[s[0]] + parts[0]] + parts[1..];
    }
  }

  /** No occurrence in two texts side by side reaches over their border. */
  ghost predicate Apart(a: string, b: string, needle: string) {
    forall i | 0 <= i < |a| && i + |needle| > |a| :: !OccursAt(a + b, needle, i)
  }

  lemma ApartFurtherOn(a: string, b: string, needle: string, n: nat)
    requires n <= |a| && Apart(a, b, needle)
    ensures Apart(a[n..], b, needle)
  {
    assert (a + b)[n..] == a[n..] + b;
    forall i | 0 <= i < |a[n..]| && i + |needle| > |a[n..]| ensures !OccursAt(a[n..] + b, needle, i) {
      OccursFurtherOn(a + b, needle, n, i);
    }
  }

  lemma OccursInFront(a: string, b: string, needle: string)
    requires a != "" && Apart(a, b, needle)
    ensures OccursAt(a + b, needle, 0) <==> OccursAt(a, needle, 0)
  {
    assert forall k | 0 <= k < |a| :: a[k] == (a + b)[k];
    if |needle| > |a| {
      assert !OccursAt(a + b, needle, 0);
    }
  }

  lemma Associates(a: string, b: string, c: string)
    ensures a + (b + c) == a + b + c
  {
  }

  /** Then each is replaced on its own. */
  lemma {:induction false} ReplaceOfConcat(a: string, b: string, needle: string, value: string)
    requires needle != "" && Apart(a, b, needle)
    ensures ReplaceAll(a + b, needle, value) == ReplaceAll(a, needle, value) + ReplaceAll(b, needle, value)
    decreases |a|
  {
    if a == "" {
      assert a + b == b;
    } else {
      OccursInFront(a, b, needle);
      var n := if OccursAt(a, needle, 0) then |needle| else 1;
      var tail, front := a[n..], if OccursAt(a, needle, 0) then value else [a[0]];
      assert (a + b)[n..] == tail + b && (a + b)[0] == a[0];
      ApartFurtherOn(a, b, needle, n);
      ReplaceOfConcat(tail, b, needle, value);
      Associates(front, ReplaceAll(tail, needle, value), ReplaceAll(b, needle, value));
    }
  }

  /** Empty, or ended by a newline. */
  ghost predicate WholeLines(s: string) {
    s == "" || s[|s| - 1] == '\n'
  }

  /** The needle could begin before a line end and finish in the tail behind it. */
  ghost predicate Straddles(needle: string, tail: string) {
    exists m | 0 <= m < |needle| :: needle[m] == '\n' && needle[m + 1..] <= tail
  }

  lemma {:induction false} ReplaceKeepsWholeLines(lines: string, needle: string, value: string)
    requires needle != "" && needle[|needle| - 1] != '\n' && WholeLines(lines)
    ensures WholeLines(ReplaceAll(lines, needle, value))
    ensures lines != "" ==> ReplaceAll(lines, needle, value) != ""
  {
    if lines != "" {
      if OccursAt(lines, needle, 0) {
        ReplaceKeepsWholeLines(lines[|needle|..], needle, value);
      } else {
        ReplaceKeepsWholeLines(lines[1..], needle, value);
      }
    }
  }

  lemma CrossingStraddles(lines: string, tail: string, needle: string)
    requires lines != "" && WholeLines(lines) && OccursAt(lines + tail, needle, 0) && |needle| > |lines|
    ensures Straddles(needle, tail)
  {
    var m := |lines| - 1;
    assert needle[m] == (lines + tail)[m] == '\n';
    assert needle[m + 1..] == tail[..|needle| - |lines|];
  }

  /**
    Whole lines followed by a tail that the needle neither occurs in nor reaches into
    are replaced in the lines alone.
   */
  lemma ReplaceStopsAtLineEnd(lines: string, tail: string, needle: string, value: string)
    requires needle != "" && WholeLines(lines) && !Straddles(needle, tail)
    requires forall i: nat :: !OccursAt(tail, needle, i)
    ensures ReplaceAll(lines + tail, needle, value) == ReplaceAll(lines, needle, value) + tail
  {
    forall i | 0 <= i < |lines| && i + |needle| > |lines| ensures !OccursAt(lines + tail, needle, i) {
      assert (lines + tail)[i..] == lines[i..] + tail;
      OccursFurtherOn(lines + tail, needle, i, 0);
      if OccursAt(lines[i..] + tail, needle, 0) {
        CrossingStraddles(lines[i..], tail, needle);
      }
    }
    ReplaceOfConcat(lines, tail, needle, value);
    ReplaceWithoutOccurrence(tail, needle, value);
  }
}
