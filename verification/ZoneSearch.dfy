/** The search of validateZones for a placeholder behind the lock: internal/ai/prompts/loader.go. */
module ZoneSearch {
  import opened Common
  import opened Text

  function IndexFrom(s: string, needle: string, from: nat): (r: Option<nat>)
    ensures r.Some? ==> from <= r.value && OccursAt(s, needle, r.value)
    ensures forall i | from <= i < (if r.Some? then r.value else |s|) :: needle != "" ==> !OccursAt(s, needle, i)
    decreases |s| - from
  {
    if from + |needle| > |s| then None
    else if OccursAt(s, needle, from) then Some(from)
    else IndexFrom(s, needle, from + 1)
  }

  /** The leftmost, non-overlapping occurrences from `from` on all begin before the lock. */
  predicate BeginsBeforeLock(s: string, needle: string, lockedAt: nat, from: nat)
    requires needle != ""
    decreases |s| - from
  {
    match IndexFrom(s, needle, from)
    case None => true
    case Some(pos) => pos < lockedAt && BeginsBeforeLock(s, needle, lockedAt, pos + |needle|)
  }

  /** The needle starts somewhere at or behind an offset. */
  ghost predicate OccursBehind(s: string, needle: string, offset: nat) {
    exists i: nat :: offset <= i && OccursAt(s, needle, i)
  }

  /** A proper end of the needle is also its beginning, so two occurrences can share characters. */
  ghost predicate SelfOverlaps(needle: string) {
    exists d | 0 < d < |needle| :: OverlapsBy(needle, d)
  }

  ghost predicate OverlapsBy(needle: string, d: nat)
    requires d <= |needle|
  {
    needle[d..] == needle[..|needle| - d]
  }

  /** What the search complains of is an occurrence behind the lock. */
  lemma {:induction false} LateIsBehind(s: string, needle: string, lockedAt: nat, from: nat)
    requires needle != ""
    ensures !BeginsBeforeLock(s, needle, lockedAt, from) ==> OccursBehind(s, needle, lockedAt)
    decreases |s| - from
  {
    var i := IndexFrom(s, needle, from);
    if i.Some? && i.value < lockedAt {
      LateIsBehind(s, needle, lockedAt, i.value + |needle|);
    }
  }

  /** Two occurrences closer than the needle is long make it overlap itself. */
  lemma CloseOccurrencesOverlap(s: string, needle: string, i: nat, j: nat)
    requires OccursAt(s, needle, i) && OccursAt(s, needle, j) && i < j < i + |needle|
    ensures SelfOverlaps(needle)
  {
    var d := j - i;
    forall k | 0 <= k < |needle| - d
      ensures needle[d..][k] == needle[..|needle| - d][k]
    {
      assert s[i + (d + k)] == needle[d + k] && s[j + k] == needle[k];
    }
    assert OverlapsBy(needle, d);
  }

  lemma {:induction false} NothingIsLeaptOver(s: string, needle: string, lockedAt: nat, from: nat)
    requires needle != "" && !SelfOverlaps(needle) && BeginsBeforeLock(s, needle, lockedAt, from)
    ensures forall i: nat | from <= i && OccursAt(s, needle, i) :: i < lockedAt
    decreases |s| - from
  {
    var found := IndexFrom(s, needle, from);
    if found.Some? {
      NothingIsLeaptOver(s, needle, lockedAt, found.value + |needle|);
      forall i: nat | from <= i && OccursAt(s, needle, i)
        ensures i < lockedAt
      {
        if found.value < i < found.value + |needle| {
          CloseOccurrencesOverlap(s, needle, found.value, i);
        }
      }
    }
  }

  /** Found means behind; for a needle that does not overlap itself, behind means found. */
  lemma SearchMeans(s: string, needle: string, lockedAt: nat)
    requires needle != ""
    ensures !BeginsBeforeLock(s, needle, lockedAt, 0) ==> OccursBehind(s, needle, lockedAt)
    ensures !SelfOverlaps(needle) ==> (BeginsBeforeLock(s, needle, lockedAt, 0) <==> !OccursBehind(s, needle, lockedAt))
  {
    LateIsBehind(s, needle, lockedAt, 0);
    if !SelfOverlaps(needle) && BeginsBeforeLock(s, needle, lockedAt, 0) {
      NothingIsLeaptOver(s, needle, lockedAt, 0);
    }
  }

  /** The search loop for one placeholder, which leaps over each occurrence it finds. */
  method FindBehindLock(system: string, needle: string, lockedAt: nat) returns (late: bool)
    requires needle != ""
    ensures late <==> !BeginsBeforeLock(system, needle, lockedAt, 0)
    ensures late ==> OccursBehind(system, needle, lockedAt)
    ensures !SelfOverlaps(needle) ==> (late <==> OccursBehind(system, needle, lockedAt))
  {
    SearchMeans(system, needle, lockedAt);
    var idx := 0;
    while true
      invariant BeginsBeforeLock(system, needle, lockedAt, 0) == BeginsBeforeLock(system, needle, lockedAt, idx)
      decreases |system| - idx
    {
      var i := IndexFrom(system, needle, idx);
      if i.None? {
        return false;
      }
      if i.value >= lockedAt {
        return true;
      }
      idx := i.value + |needle|;
    }
  }

  /** A needle that overlaps itself, twice in a row with the overlap shared: the second occurrence is leapt over. */
  lemma OverlapIsLeaptOver(needle: string, d: nat) returns (s: string)
    requires 0 < d < |needle| && OverlapsBy(needle, d)
    ensures OccursAt(s, needle, d) && BeginsBeforeLock(s, needle, d, 0)
  {
    s := needle[..d] + needle;
    forall k | 0 <= k < |needle|
      ensures s[k] == needle[k]
    {
      if k >= d {
        assert needle[d..][k - d] == needle[..|needle| - d][k - d];
      }
    }
    assert OccursAt(s, needle, 0) && OccursAt(s, needle, d);
    assert IndexFrom(s, needle, 0) == Some(0);
    assert IndexFrom(s, needle, |needle|) == None;
  }

  ghost predicate SearchIsExact(needle: string, s: string, lockedAt: nat)
    requires needle != ""
  {
    BeginsBeforeLock(s, needle, lockedAt, 0) <==> !OccursBehind(s, needle, lockedAt)
  }

  /**
    The search finds what starts behind the lock, in every text and for every lock, exactly for needles that do not
    overlap themselves.
   */
  lemma SearchIsExactWithoutOverlap(needle: string)
    requires needle != ""
    ensures (forall s: string, lockedAt: nat :: SearchIsExact(needle, s, lockedAt)) <==> !SelfOverlaps(needle)
  {
    if SelfOverlaps(needle) {
      var d :| 0 < d < |needle| && OverlapsBy(needle, d);
      var s := OverlapIsLeaptOver(needle, d);
      assert !SearchIsExact(needle, s, d);
    } else {
      forall s: string, lockedAt: nat
        ensures SearchIsExact(needle, s, lockedAt)
      {
        SearchMeans(s, needle, lockedAt);
      }
    }
  }

  lemma OneLineFits(lines: string, tail: string, needle: string, pos: nat)
    requires WholeLines(lines) && '\n' !in needle && OccursAt(lines + tail, needle, pos) && pos < |lines|
    ensures pos + |needle| < |lines|
  {
    var last := |lines| - 1;
    assert forall k | 0 <= k < |needle| :: needle[k] == (lines + tail)[pos + k];
    assert (lines + tail)[last] == '\n';
    assert forall i | pos <= i < pos + |needle| :: (lines + tail)[i] == needle[i - pos];
  }

  /**
    Behind whole lines, for a needle of one line, the search is exact after all: an
    occurrence that starts in the lines ends in them, so no leap reaches past the lock.
   */
  lemma {:induction false} NothingOfOneLineIsLeaptOver(lines: string, tail: string, needle: string, from: nat)
    requires needle != "" && '\n' !in needle && WholeLines(lines) && from <= |lines|
    requires BeginsBeforeLock(lines + tail, needle, |lines|, from)
    ensures !OccursBehind(lines + tail, needle, |lines|)
    decreases |lines| - from
  {
    var s := lines + tail;
    var found := IndexFrom(s, needle, from);
    if found.Some? {
      var pos := found.value;
      OneLineFits(lines, tail, needle, pos);
      NothingOfOneLineIsLeaptOver(lines, tail, needle, pos + |needle|);
    }
  }
}
