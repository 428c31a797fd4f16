/**
  Cutting report texts into chunks and naming their points: internal/application/services/kbbootstrap/chunk.go
  and vectorindex/reembed.go.  A text is a sequence of Unicode scalar values.
 */
module Chunking {
  import opened Common
  import D = Decimal

  const DEFAULT_CHUNK_RUNES := 1200
  const MAX_ARTICLE_BODY_BYTES := 60000
  const TWO_TO_THE_64 := 0x1_0000_0000_0000_0000

  // ---------------------------------------------------------------- limiting to bytes

  /** How many code points UTF-8 holds in so many bytes: 7, 11, 16 and 21 bits (RFC 3629, section 3). */
  function Capacity(bytes: nat): int
    requires 1 <= bytes <= 4
  {
    [0x80, 0x800, 0x1_0000, 0x20_0000][bytes - 1]
  }

  /** How many bytes UTF-8 takes for a character. */
  function Width(c: char): (w: nat)
    ensures 1 <= w <= 4 && c as int < Capacity(w) && (w > 1 ==> c as int >= Capacity(w - 1))
  {
    var n := c as int;
    if n < 0x80 then 1 else if n < 0x800 then 2 else if n < 0x1_0000 then 3 else 4
  }

  function ByteLen(s: string): (n: nat)
    ensures n >= |s|
  {
    if s == "" then 0 else ByteLen(s[..|s| - 1]) + Width(s[|s| - 1])
  }

  /** The text if it fits or there is no limit, else its longest beginning that fits. */
  ghost predicate IsLimited(text: string, maxBytes: int, r: string) {
    && r <= text
    && (maxBytes <= 0 || ByteLen(text) <= maxBytes ==> r == text)
    && (maxBytes > 0 ==>
          && ByteLen(r) <= maxBytes
          && forall n | 0 <= n <= |text| && ByteLen(text[..n]) <= maxBytes :: n <= |r|)
  }

  lemma {:induction false} ByteLenGrows(text: string, m: nat, n: nat)
    requires m <= n <= |text|
    ensures ByteLen(text[..m]) + (n - m) <= ByteLen(text[..n])
  {
    if m < n {
      ByteLenGrows(text, m, n - 1);
      assert text[..n][..n - 1] == text[..n - 1];
    }
  }

  method LimitUTF8Bytes(text: string, maxBytes: int) returns (r: string)
    ensures IsLimited(text, maxBytes, r)
  {
    assert text[..|text|] == text;
    if maxBytes <= 0 || ByteLen(text) <= maxBytes {
      return text;
    }
    var used := 0;
    r := "";
    for i := 0 to |text|
      invariant r == text[..i] && used == ByteLen(r) <= maxBytes
    {
      assert text[..i + 1][..i] == text[..i];
      var next := used + Width(text[i]);
      if next > maxBytes {
        forall n | 0 <= n <= |text| && ByteLen(text[..n]) <= maxBytes
          ensures n <= i
        {
          if n > i {
            ByteLenGrows(text, i + 1, n);
          }
        }
        return;
      }
      r := r + [text[i]];
      used := next;
    }
  }

  // ---------------------------------------------------------------- cutting into chunks

  function Join(pieces: seq<string>): string {
    if pieces == [] then "" else Join(pieces[..|pieces| - 1]) + pieces[|pieces| - 1]
  }

  function SizeFor(maxRunes: int): (size: int)
    ensures size > 0
  {
    if maxRunes <= 0 then DEFAULT_CHUNK_RUNES else maxRunes
  }

  /** Pieces that make up the text again, all but the last of exactly the size, the last not empty. */
  ghost predicate IsChunking(text: string, size: int, pieces: seq<string>) {
    && Join(pieces) == text
    && (forall i | 0 <= i < |pieces| - 1 :: |pieces[i]| == size)
    && (pieces != [] ==> 0 < |pieces[|pieces| - 1]| <= size)
  }

  lemma JoinOneMore(pieces: seq<string>, piece: string)
    ensures Join(pieces + [piece]) == Join(pieces) + piece
  {
    assert (pieces + [piece])[..|pieces|] == pieces;
  }

  /** The pieces of the text up to an end of full pieces, or of the whole text. */
  ghost predicate CutUpTo(text: string, size: int, start: int, pieces: seq<string>) {
    && 0 <= start && Join(pieces) == text[..if start < |text| then start else |text|]
    && (forall i | 0 <= i < |pieces| - 1 :: |pieces[i]| == size)
    && (pieces != [] ==> 0 < |pieces[|pieces| - 1]| <= size)
    && (pieces != [] && start < |text| ==> |pieces[|pieces| - 1]| == size)
  }

  lemma OneMorePiece(text: string, size: int, start: int, pieces: seq<string>, end: int, pieces': seq<string>)
    requires size > 0 && CutUpTo(text, size, start, pieces) && start < |text|
    requires end == (if start + size > |text| then |text| else start + size) && pieces' == pieces + [text[start..end]]
    ensures CutUpTo(text, size, start + size, pieces')
  {
    JoinOneMore(pieces, text[start..end]);
    assert text[..start] + text[start..end] == text[..end];
    forall i | 0 <= i < |pieces'| - 1 ensures |pieces'[i]| == size {
      assert pieces'[i] == pieces[i];
    }
  }

  method ChunkText(text: string, maxRunes: int) returns (pieces: seq<string>)
    ensures IsChunking(text, SizeFor(maxRunes), pieces)
    ensures SizeFor(maxRunes) == if maxRunes > 0 then maxRunes else 1200
  {
    var size := SizeFor(maxRunes);
    pieces := [];
    if text == "" {
      return;
    }
    var start := 0;
    while start < |text|
      invariant CutUpTo(text, size, start, pieces)
    {
      var end := if start + size > |text| then |text| else start + size;
      ghost var before := pieces;
      pieces := pieces + [text[start..end]];
      OneMorePiece(text, size, start, before, end, pieces);
      start := start + size;
    }
    assert text[..|text|] == text;
  }

  /** The number of pieces is the length divided by the size, rounded up; so the text determines the pieces. */
  lemma {:induction false} PieceCount(text: string, size: int, pieces: seq<string>)
    requires size > 0 && IsChunking(text, size, pieces)
    ensures (|pieces| - 1) * size < |text| <= |pieces| * size || (text == "" && pieces == [])
  {
    if pieces != [] {
      var n := |pieces| - 1;
      FullPieces(pieces[..n], size);
    }
  }

  lemma {:induction false} FullPieces(pieces: seq<string>, size: int)
    requires size > 0 && forall i | 0 <= i < |pieces| :: |pieces[i]| == size
    ensures |Join(pieces)| == |pieces| * size
  {
    if pieces != [] {
      var n := |pieces| - 1;
      FullPieces(pieces[..n], size);
      assert n * size + size == |pieces| * size;
    }
  }

  // ---------------------------------------------------------------- point ids

  /** int64 arithmetic */
  function Wrap64(n: int): (w: int)
    ensures D.IsInt64(w) && (w - n) % TWO_TO_THE_64 == 0
  {
    (n - D.MIN_INT64) % TWO_TO_THE_64 + D.MIN_INT64
  }

  function ReembedPointID(reportID: int, index: nat): string {
    D.FormatInt(Wrap64(reportID * 1000 + index))
  }

  lemma WrapsAlike(m: int, n: int)
    ensures Wrap64(m) == Wrap64(n) <==> (m - n) % TWO_TO_THE_64 == 0
  {
  }

  lemma SameTextExactly(m: int, n: int)
    ensures D.FormatInt(Wrap64(m)) == D.FormatInt(Wrap64(n)) <==> (m - n) % TWO_TO_THE_64 == 0
  {
    FormatIsInjective(Wrap64(m), Wrap64(n));
    WrapsAlike(m, n);
  }

  lemma FormatIsInjective(a: int, b: int)
    requires D.IsInt64(a) && D.IsInt64(b)
    ensures D.FormatInt(a) == D.FormatInt(b) <==> a == b
  {
    D.ParseOfFormat(a);
    D.ParseOfFormat(b);
  }

  lemma WrapKeepsWhatFits(n: int)
    requires D.IsInt64(n)
    ensures Wrap64(n) == n
  {
  }

  /** A point id that fits reads as the report id times a thousand and the index. */
  lemma PointIdReads(reportID: int, index: nat)
    requires D.IsInt64(reportID * 1000 + index)
    ensures D.ParseInt(ReembedPointID(reportID, index)) == Some(reportID * 1000 + index)
  {
    var n := reportID * 1000 + index;
    WrapKeepsWhatFits(n);
    D.ParseOfFormat(n);
  }

  /** Two point ids are equal exactly when their products and sums are equal modulo 2^64. */
  lemma PointIdsCollideExactly(r: int, i: nat, s: int, j: nat)
    ensures ReembedPointID(r, i) == ReembedPointID(s, j) <==> (r * 1000 + i - (s * 1000 + j)) % TWO_TO_THE_64 == 0
  {
    SameTextExactly(r * 1000 + i, s * 1000 + j);
  }

  /** A report id whose chunk ids all fit into 64 bits. */
  predicate Fits(reportID: int) {
    D.MIN_INT64 <= reportID * 1000 && reportID * 1000 + 999 <= D.MAX_INT64
  }

  lemma SmallMultipleIsZero(d: int)
    requires -TWO_TO_THE_64 < d < TWO_TO_THE_64
    ensures d % TWO_TO_THE_64 == 0 <==> d == 0
  {
  }

  /** Below index 1000, and for report ids that fit, no two chunks share a point id. */
  lemma PointIdsAreDistinct(r: int, i: nat, s: int, j: nat)
    requires Fits(r) && Fits(s) && i < 1000 && j < 1000
    ensures ReembedPointID(r, i) == ReembedPointID(s, j) <==> r == s && i == j
  {
    PointIdsCollideExactly(r, i, s, j);
    SmallMultipleIsZero(r * 1000 + i - (s * 1000 + j));
  }

  /** Index 1000 is the next report's index 0. */
  lemma IndexThousandCollides(r: int)
    ensures ReembedPointID(r, 1000) == ReembedPointID(r + 1, 0)
  {
    PointIdsCollideExactly(r, 1000, r + 1, 0);
  }

  const TWO_TO_THE_61 := 0x2000_0000_0000_0000

  lemma FarProduct(r: int, i: nat)
    ensures r * 1000 + i - ((r + TWO_TO_THE_61) * 1000 + i) == -125 * TWO_TO_THE_64
  {
  }

  /** Report ids 2^61 apart share all their point ids. */
  lemma FarReportsCollide(r: int, i: nat)
    ensures ReembedPointID(r, i) == ReembedPointID(r + TWO_TO_THE_61, i)
  {
    PointIdsCollideExactly(r, i, r + TWO_TO_THE_61, i);
    FarProduct(r, i);
  }

  // ---------------------------------------------------------------- the bound on indexes

  /** However long the article, its chunks are at most a thousand. */
  ghost predicate AtMostThousandChunks(maxRunes: int) {
    forall text, body, pieces :: CutFrom(text, maxRunes, body, pieces) ==> |pieces| <= 1000
  }

  ghost predicate CutFrom(text: string, maxRunes: int, body: string, pieces: seq<string>) {
    IsLimited(text, 60_000, body) && IsChunking(body, SizeFor(maxRunes), pieces)
  }

  lemma BoundedChunks(text: string, maxRunes: int, body: string, pieces: seq<string>)
    requires CutFrom(text, maxRunes, body, pieces) && (maxRunes <= 0 || maxRunes >= 60)
    ensures |pieces| <= 1000
  {
    var size := SizeFor(maxRunes);
    PieceCount(body, size, pieces);
    if |pieces| > 1000 {
      Product(|pieces| - 1, 1000, size, 60);
    }
  }

  lemma Product(a: int, b: int, c: int, d: int)
    requires a >= b >= 0 && c >= d >= 0
    ensures a * c >= b * d
  {
    assert a * c >= b * c && b * c >= b * d;
  }

  predicate OneByteEach(s: string) {
    forall i | 0 <= i < |s| :: s[i] == 'a'
  }

  lemma {:induction false} BytesOfOneByteEach(s: string)
    requires OneByteEach(s)
    ensures ByteLen(s) == |s|
  {
    if s != "" {
      BytesOfOneByteEach(s[..|s| - 1]);
    }
  }

  function Copies(n: nat, piece: string): (pieces: seq<string>)
    ensures |pieces| == n && forall i | 0 <= i < n :: pieces[i] == piece
  {
    if n == 0 then [] else Copies(n - 1, piece) + [piece]
  }

  lemma {:induction false} CopiesAreOneByteEach(n: nat, piece: string)
    requires OneByteEach(piece)
    ensures OneByteEach(Join(Copies(n, piece)))
  {
    if n > 0 {
      CopiesAreOneByteEach(n - 1, piece);
      JoinOneMore(Copies(n - 1, piece), piece);
    }
  }

  /** A thousand pieces of the size and a bit. */
  lemma ThousandAndOne(size: nat) returns (text: string, pieces: seq<string>)
    requires 0 < size < 60
    ensures CutFrom(text, size, text, pieces) && |pieces| == 1001
  {
    var piece := seq(size, _ => 'a');
    var full := Copies(1000, piece);
    text, pieces := Join(full) + "a", full + ["a"];
    FullPieces(full, size);
    CopiesAreOneByteEach(1000, piece);
    BytesOfOneByteEach(text);
    JoinOneMore(full, "a");
    assert forall n | 0 <= n <= |text| && ByteLen(text[..n]) <= MAX_ARTICLE_BODY_BYTES :: n <= |text|;
  }

  /** The thousand holds for every article exactly for the default size and sizes of at least 60. */
  lemma ThousandHoldsFromSixty(maxRunes: int)
    ensures AtMostThousandChunks(maxRunes) <==> maxRunes <= 0 || maxRunes >= 60
  {
    if maxRunes <= 0 || maxRunes >= 60 {
      forall text, body, pieces | CutFrom(text, maxRunes, body, pieces)
        ensures |pieces| <= 1000
      {
        BoundedChunks(text, maxRunes, body, pieces);
      }
    } else {
      var text, pieces := ThousandAndOne(maxRunes);
      assert !(|pieces| <= 1000);
    }
  }

  // ---------------------------------------------------------------- re-embedding

  type Vector = seq<real>

  datatype Report = Report(id: int, companyID: int, body: string)

  datatype Point = Point(id: string, reportID: int, index: nat, content: string, vector: Vector)

  datatype Error = Failure

  /** What the embedding request for the k-th report is answered, and whether its upsert succeeds. */
  datatype Outside = Outside(embed: (nat, seq<string>) -> Result<seq<Vector>, Error>, ok: nat -> bool)

  /** A point for every chunk of the report, in order, with its own vector. */
  ghost predicate IsUpsertOf(report: Report, maxRunes: int, points: seq<Point>) {
    exists body, pieces :: CutFrom(report.body, maxRunes, body, pieces) && PointsMatch(report.id, pieces, points)
  }

  predicate PointsMatch(reportID: int, pieces: seq<string>, points: seq<Point>) {
    && |points| == |pieces|
    && forall i | 0 <= i < |points| ::
       points[i] == Point(ReembedPointID(reportID, i), reportID, i, pieces[i], points[i].vector)
  }

  function Contents(points: seq<Point>): seq<string> {
    seq(|points|, i requires 0 <= i < |points| => points[i].content)
  }

  function Vectors(points: seq<Point>): seq<Vector> {
    seq(|points|, i requires 0 <= i < |points| => points[i].vector)
  }

  /** The request for the k-th report held the contents of these points in order, and their vectors are its answer. */
  ghost predicate AreEmbedded(out: Outside, k: nat, points: seq<Point>) {
    points != [] ==> out.embed(k, Contents(points)) == Ok(Vectors(points))
  }

  lemma EmbeddedPoints(out: Outside, k: nat, chunks: seq<string>, vectors: seq<Vector>, points: seq<Point>)
    requires out.embed(k, chunks) == Ok(vectors) && |points| == |chunks| == |vectors|
    requires forall i | 0 <= i < |points| :: points[i].content == chunks[i] && points[i].vector == vectors[i]
    ensures AreEmbedded(out, k, points)
  {
    assert Contents(points) == chunks && Vectors(points) == vectors;
  }

  /** What one report of a run leaves in the store. */
  ghost predicate IsReembedded(report: Report, maxRunes: int, k: nat, out: Outside, points: seq<Point>) {
    && IsUpsertOf(report, maxRunes, points) && AreEmbedded(out, k, points)
    && (points == [] <==> report.body == "") && (points != [] ==> out.ok(k))
  }

  /** What the code does with one report of its own company; None when it fails. */
  method ReembedOne(report: Report, maxRunes: int, k: nat, out: Outside) returns (r: Option<seq<Point>>)
    ensures r.Some? ==> IsReembedded(report, maxRunes, k, out, r.value)
  {
    var body := LimitUTF8Bytes(report.body, MAX_ARTICLE_BODY_BYTES);
    var chunks := ChunkText(body, maxRunes);
    assert CutFrom(report.body, maxRunes, body, chunks);
    if report.body != "" {
      SomethingStays(report.body, body);
    }
    if |chunks| == 0 {
      assert PointsMatch(report.id, chunks, []);
      return Some([]);
    }
    var answer := out.embed(k, chunks);
    if answer.Err? || |answer.value| != |chunks| {
      return None;
    }
    var points := seq(|chunks|, i requires 0 <= i < |chunks| =>
      Point(ReembedPointID(report.id, i), report.id, i, chunks[i], answer.value[i]));
    assert PointsMatch(report.id, chunks, points);
    EmbeddedPoints(out, k, chunks, answer.value, points);
    var ok := out.ok(k);
    r := if ok then Some(points) else None;
  }

  /** What a run has done with the first reports. */
  ghost predicate AreReembedded(company: int, maxRunes: int, reports: seq<Report>, out: Outside,
                                upserts: seq<seq<Point>>)
    requires |upserts| <= |reports|
  {
    forall k | 0 <= k < |upserts| ::
      reports[k].companyID == company && IsReembedded(reports[k], maxRunes, k, out, upserts[k])
  }

  lemma OneMoreReport(company: int, maxRunes: int, reports: seq<Report>, out: Outside, upserts: seq<seq<Point>>,
                      points: seq<Point>, upserts': seq<seq<Point>>)
    requires |upserts| < |reports| && AreReembedded(company, maxRunes, reports, out, upserts)
    requires reports[|upserts|].companyID == company
    requires IsReembedded(reports[|upserts|], maxRunes, |upserts|, out, points) && upserts' == upserts + [points]
    ensures AreReembedded(company, maxRunes, reports, out, upserts')
  {
  }

  /**
    Run past its preparations: reports in order, each a single upsert, until one fails or belongs to another company.
   */
  method Reembed(company: int, maxRunes: int, reports: seq<Report>, out: Outside)
    returns (r: Result<nat, Error>, upserts: seq<seq<Point>>)
    ensures |upserts| <= |reports| && AreReembedded(company, maxRunes, reports, out, upserts)
    ensures r.Ok? ==> |upserts| == |reports| && r.value == Total(upserts)
  {
    upserts := [];
    var points := 0;
    for i := 0 to |reports|
      invariant |upserts| == i && points == Total(upserts)
      invariant AreReembedded(company, maxRunes, reports, out, upserts)
    {
      if reports[i].companyID != company {
        return Err(Failure), upserts;
      }
      var made := ReembedOne(reports[i], maxRunes, i, out);
      if made.None? {
        return Err(Failure), upserts;
      }
      TotalAddsUp(upserts, made.value);
      ghost var before := upserts;
      upserts := upserts + [made.value];
      OneMoreReport(company, maxRunes, reports, out, before, made.value, upserts);
      points := points + |made.value|;
    }
    r := Ok(points);
  }

  function Total(upserts: seq<seq<Point>>): nat {
    if upserts == [] then 0 else Total(upserts[..|upserts| - 1]) + |upserts[|upserts| - 1]|
  }

  lemma TotalAddsUp(upserts: seq<seq<Point>>, points: seq<Point>)
    ensures Total([]) == 0 && Total(upserts + [points]) == Total(upserts) + |points|
  {
    assert (upserts + [points])[..|upserts|] == upserts;
  }

  /** The limit leaves something of every text. */
  lemma SomethingStays(text: string, body: string)
    requires IsLimited(text, MAX_ARTICLE_BODY_BYTES, body) && text != ""
    ensures body != ""
  {
    assert text[..1][..0] == "";
    assert ByteLen(text[..1]) <= 4;
  }

  /**
    With a size of at least 60, or the default, and report ids that fit, a run never writes two chunks under one point
    id.
   */
  lemma PointsNeverCollide(maxRunes: int, a: Report, p: seq<Point>, b: Report, q: seq<Point>, i: nat, j: nat)
    requires maxRunes <= 0 || maxRunes >= 60
    requires Fits(a.id) && Fits(b.id) && IsUpsertOf(a, maxRunes, p) && IsUpsertOf(b, maxRunes, q)
    requires i < |p| && j < |q| && p[i].id == q[j].id
    ensures a.id == b.id && i == j
  {
    var body, pieces :| CutFrom(a.body, maxRunes, body, pieces) && PointsMatch(a.id, pieces, p);
    var body', pieces' :| CutFrom(b.body, maxRunes, body', pieces') && PointsMatch(b.id, pieces', q);
    BoundedChunks(a.body, maxRunes, body, pieces);
    BoundedChunks(b.body, maxRunes, body', pieces');
    PointIdsAreDistinct(a.id, i, b.id, j);
  }

  /** No two chunks of any reports that fit share a point id. */
  ghost predicate PointsStayApart(maxRunes: int) {
    forall a: Report, p: seq<Point>, b: Report, q: seq<Point>, i: nat, j: nat |
      && Fits(a.id) && Fits(b.id) && IsUpsertOf(a, maxRunes, p) && IsUpsertOf(b, maxRunes, q)
      && i < |p| && j < |q| && p[i].id == q[j].id ::
      a.id == b.id && i == j
  }

  function PointsOf(reportID: int, pieces: seq<string>): (points: seq<Point>)
    ensures PointsMatch(reportID, pieces, points)
  {
    seq(|pieces|, i requires 0 <= i < |pieces| => Point(ReembedPointID(reportID, i), reportID, i, pieces[i], []))
  }

  /** With a positive size below 60 the last chunk of one report can meet the first of the next. */
  lemma SmallSizesCollide(maxRunes: int) returns (a: Report, p: seq<Point>, b: Report, q: seq<Point>)
    requires 0 < maxRunes < 60
    ensures a.id == 1 && b.id == 2 && IsUpsertOf(a, maxRunes, p) && IsUpsertOf(b, maxRunes, q)
    ensures |p| == |q| == 1001 && p[1000].id == q[0].id
  {
    var text, pieces := ThousandAndOne(maxRunes);
    a, b := Report(1, 0, text), Report(2, 0, text);
    p, q := PointsOf(1, pieces), PointsOf(2, pieces);
    assert CutFrom(text, maxRunes, text, pieces) && PointsMatch(1, pieces, p) && PointsMatch(2, pieces, q);
    IndexThousandCollides(1);
  }

  /** Points stay apart exactly with the default size and sizes of at least 60. */
  lemma PointsStayApartFromSixty(maxRunes: int)
    ensures PointsStayApart(maxRunes) <==> maxRunes <= 0 || maxRunes >= 60
  {
    if maxRunes <= 0 || maxRunes >= 60 {
      forall a: Report, p: seq<Point>, b: Report, q: seq<Point>, i: nat, j: nat |
        && Fits(a.id) && Fits(b.id) && IsUpsertOf(a, maxRunes, p) && IsUpsertOf(b, maxRunes, q)
        && i < |p| && j < |q| && p[i].id == q[j].id
        ensures a.id == b.id && i == j
      {
        PointsNeverCollide(maxRunes, a, p, b, q, i, j);
      }
    } else {
      var a, p, b, q := SmallSizesCollide(maxRunes);
      assert Fits(a.id) && Fits(b.id) && p[1000].id == q[0].id && a.id != b.id;
    }
  }
}
