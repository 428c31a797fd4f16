/** Ingesting vectors computed elsewhere: internal/application/services/vectorindex/batch.go. */
module BatchIngest {
  import opened Common
  import D = Decimal
  import opened Indexing

  // ---------------------------------------------------------------- keys

  datatype Pair = Pair(company: int, chunk: int) {
    predicate Valid() {
      0 < company <= D.MAX_INT64 && 0 < chunk <= D.MAX_INT64
    }
  }

  function FormatBatchKey(p: Pair): string {
    D.FormatInt(p.company) + ":" + D.FormatInt(p.chunk)
  }

  function ParseBatchKey(key: string): (r: Option<Pair>)
    ensures r.Some? ==> r.value.Valid()
  {
    var parts := D.Split(key, ':');
    if |parts| != 2 then None
    else match (D.ParseInt(parts[0]), D.ParseInt(parts[1]))
      case (Some(company), Some(chunk)) => if company > 0 && chunk > 0 then Some(Pair(company, chunk)) else None
      case _ => None
  }

  /** Every pair of ids that can occur survives the trip through its key. */
  lemma KeyRoundTrip(p: Pair)
    requires p.Valid()
    ensures ParseBatchKey(FormatBatchKey(p)) == Some(p)
  {
    var c, k := D.FormatInt(p.company), D.FormatInt(p.chunk);
    D.FormatIsDecimal(p.company);
    D.FormatIsDecimal(p.chunk);
    D.SplitOfOne(k, ':');
    D.SplitOfJoin(c, ':', k);
    D.ParseOfFormat(p.company);
    D.ParseOfFormat(p.chunk);
  }

  /** The other way round keys are not canonical: a plus sign is read too, so two keys can name one pair. */
  lemma KeysAreNotCanonical(p: Pair)
    requires p.Valid()
    ensures ParseBatchKey("+" + FormatBatchKey(p)) == Some(p) && "+" + FormatBatchKey(p) != FormatBatchKey(p)
  {
    var c, k := D.FormatInt(p.company), D.FormatInt(p.chunk);
    D.FormatIsDecimal(p.company);
    D.FormatIsDecimal(p.chunk);
    D.SplitOfOne(k, ':');
    D.SplitOfJoin("+" + c, ':', k);
    D.ParseOfFormat(p.company);
    D.ParseOfFormat(p.chunk);
    D.PlusIsRead(p.company);
    InFront("+", c, ":", k);
  }

  lemma InFront(a: string, b: string, c: string, d: string)
    requires a != ""
    ensures a + (b + c + d) == a + b + c + d != b + c + d
  {
    assert |a + b + c + d| > |b + c + d|;
  }

  // ---------------------------------------------------------------- reading the vectors

  datatype Keyed = Keyed(key: string, vector: Vector)

  /** A vector under the pair its key names. */
  datatype Entry = Entry(pair: Option<Pair>, vector: Vector)

  function Entries(vs: seq<Keyed>): (es: seq<Entry>)
    ensures |es| == |vs| && forall i | 0 <= i < |vs| :: es[i] == Entry(ParseBatchKey(vs[i].key), vs[i].vector)
  {
    seq(|vs|, i requires 0 <= i < |vs| => Entry(ParseBatchKey(vs[i].key), vs[i].vector))
  }

  /** The last vector given for a pair among the first n. */
  function LastVector(vs: seq<Entry>, n: nat, p: Pair): Option<Vector>
    requires n <= |vs|
  {
    if n == 0 then None
    else if vs[n - 1].pair == Some(p) then Some(vs[n - 1].vector)
    else LastVector(vs, n - 1, p)
  }

  /** Keys that parse and vectors of one positive length. */
  predicate WellFormed(vs: seq<Entry>, n: nat)
    requires n <= |vs|
  {
    forall i | 0 <= i < n :: vs[i].pair.Some? && |vs[i].vector| > 0 && |vs[i].vector| == |vs[0].vector|
  }

  datatype Groups = Groups(order: seq<int>, vectors: map<int, map<int, Vector>>)

  /** The companies of the first n in order of appearance, and for each its chunks with their last vectors. */
  ghost predicate IsGrouping(g: Groups, vs: seq<Entry>, n: nat)
    requires n <= |vs|
  {
    && (forall i, j | 0 <= i < j < |g.order| :: g.order[i] != g.order[j])
    && (forall c :: c in g.vectors <==> c in g.order)
    && (forall c | c in g.order :: g.vectors[c] != map[])
    && (forall p: Pair :: LastVector(vs, n, p) ==
          if p.company in g.vectors && p.chunk in g.vectors[p.company] then Some(g.vectors[p.company][p.chunk])
          else None)
  }

  method ReadVectors(vs: seq<Entry>) returns (r: Option<Groups>)
    ensures r.Some? <==> WellFormed(vs, |vs|)
    ensures r.Some? ==> IsGrouping(r.value, vs, |vs|)
  {
    var g := Groups([], map[]);
    var dim := 0;
    for i := 0 to |vs|
      invariant WellFormed(vs, i) && IsGrouping(g, vs, i)
      invariant dim == if i == 0 then 0 else |vs[0].vector|
    {
      var v := vs[i];
      if v.pair.None? || |v.vector| == 0 {
        return None;
      }
      if dim == 0 {
        dim := |v.vector|;
      } else if |v.vector| != dim {
        return None;
      }
      ghost var before := g;
      var p := v.pair.value;
      if p.company !in g.vectors {
        g := Groups(g.order + [p.company], g.vectors[p.company := map[]]);
      }
      g := g.(vectors := g.vectors[p.company := g.vectors[p.company][p.chunk := v.vector]]);
      GroupsOneMore(before, g, vs, i, p);
    }
    r := Some(g);
  }

  lemma GroupsOneMore(g: Groups, g': Groups, vs: seq<Entry>, n: nat, p: Pair)
    requires n < |vs| && IsGrouping(g, vs, n) && vs[n].pair == Some(p)
    requires var old' := if p.company in g.vectors then g.vectors[p.company] else map[];
             g' == Groups(if p.company in g.vectors then g.order else g.order + [p.company],
                          g.vectors[p.company := old'[p.chunk := vs[n].vector]])
    ensures IsGrouping(g', vs, n + 1)
  {
    assert p.chunk in g'.vectors[p.company];
  }

  // ---------------------------------------------------------------- one company

  /** The outside: metadata of a company's chunks, and how the k-th request to store and marker ends. */
  datatype Outside = Outside(meta: int -> Result<seq<Chunk>, Error>, ok: nat -> bool)

  /** The row kept for a chunk: the last of its id. */
  function RowFor(rows: seq<Chunk>, id: int): (r: Option<Chunk>)
    ensures r.Some? ==> r.value in rows && r.value.id == id
  {
    if rows == [] then None
    else if rows[|rows| - 1].id == id then Some(rows[|rows| - 1])
    else RowFor(rows[..|rows| - 1], id)
  }

  /** One point for each chunk of the group, with its vector and its own company's row. */
  ghost predicate IsGroup(points: seq<Point>, company: int, group: map<int, Vector>, rows: seq<Chunk>) {
    && (forall i, j | 0 <= i < j < |points| :: points[i].chunkID != points[j].chunkID)
    && (forall id | id in group :: exists i | 0 <= i < |points| :: points[i].chunkID == id)
    && (forall i | 0 <= i < |points| :: IsPointOf(points[i], company, group, rows))
  }

  predicate IsPointOf(p: Point, company: int, group: map<int, Vector>, rows: seq<Chunk>) {
    && p.chunkID in group && HasRow(company, p.chunkID, rows)
    && p == PointFor(RowFor(rows, p.chunkID).value, group[p.chunkID], company)
  }

  predicate HasRow(company: int, id: int, rows: seq<Chunk>) {
    RowFor(rows, id).Some? && RowFor(rows, id).value.companyID == company
  }

  function PointFor(row: Chunk, vector: Vector, company: int): Point {
    Point(D.FormatInt(row.id), vector, company, row.articleID, row.id, row.reportID, row.index)
  }

  /** Every chunk of the group has a row, of this very company. */
  predicate HasRows(company: int, group: map<int, Vector>, rows: seq<Chunk>) {
    forall id | id in group :: HasRow(company, id, rows)
  }

  /** Where the chunks dealt with so far have their points. */
  ghost predicate Placed(points: seq<Point>, place: map<int, nat>, company: int, group: map<int, Vector>,
                         rows: seq<Chunk>) {
    && place.Keys <= group.Keys
    && (forall id | id in place :: place[id] < |points| && points[place[id]].chunkID == id)
    && (forall i | 0 <= i < |points| :: points[i].chunkID in place && place[points[i].chunkID] == i)
    && (forall i | 0 <= i < |points| :: IsPointOf(points[i], company, group, rows))
  }

  lemma PlacedOneMore(points: seq<Point>, place: map<int, nat>, company: int, group: map<int, Vector>,
                      rows: seq<Chunk>, id: int, points': seq<Point>, place': map<int, nat>)
    requires Placed(points, place, company, group, rows) && id in group && id !in place && HasRow(company, id, rows)
    requires points' == points + [PointFor(RowFor(rows, id).value, group[id], company)]
    requires place' == place[id := |points|]
    ensures Placed(points', place', company, group, rows)
  {
  }

  lemma AllPlaced(points: seq<Point>, place: map<int, nat>, company: int, group: map<int, Vector>, rows: seq<Chunk>)
    requires Placed(points, place, company, group, rows) && place.Keys == group.Keys
    ensures IsGroup(points, company, group, rows) && HasRows(company, group, rows)
  {
    forall id | id in group
      ensures HasRow(company, id, rows) && points[place[id]].chunkID == id
    {
      assert IsPointOf(points[place[id]], company, group, rows);
    }
  }

  method PointsOfGroup(company: int, group: map<int, Vector>, rows: seq<Chunk>) returns (r: Option<seq<Point>>)
    ensures r.Some? <==> HasRows(company, group, rows)
    ensures r.Some? ==> IsGroup(r.value, company, group, rows)
  {
    var points: seq<Point> := [];
    ghost var place: map<int, nat> := map[];
    var ids := group.Keys;
    while ids != {}
      invariant ids <= group.Keys && place.Keys == group.Keys - ids
      invariant Placed(points, place, company, group, rows)
      decreases |ids|
    {
      SomeKey(ids);
      var id :| id in ids;
      var row := RowFor(rows, id);
      if row.None? || row.value.companyID != company {
        assert !HasRow(company, id, rows);
        return None;
      }
      var next := points + [PointFor(row.value, group[id], company)];
      ghost var next' := place[id := |points|];
      PlacedOneMore(points, place, company, group, rows, id, next, next');
      points, place := next, next';
      ids := ids - {id};
    }
    AllPlaced(points, place, company, group, rows);
    r := Some(points);
  }

  function RefsFor(points: seq<Point>, model: string): (refs: seq<Ref>)
    ensures Names(refs, points)
  {
    seq(|points|, i requires 0 <= i < |points| => Ref(points[i].chunkID, points[i].id, model, |points[i].vector|))
  }

  /** What is asked of the store and the marker for a company, from a place in the log. */
  predicate Sent(log: seq<Effect>, at: nat, prefix: string, company: int, points: seq<Point>, model: string) {
    && at + 3 <= |log|
    && log[at] == Ensure(Collection(prefix, company), true)
    && log[at + 1] == Upsert(Collection(prefix, company), points, true)
    && log[at + 2] == Mark(company, RefsFor(points, model), true)
  }

  // ---------------------------------------------------------------- the whole batch

  /** The i-th company's points are what its vectors and rows make them, and were sent in its turn. */
  ghost predicate IsDone(prefix: string, model: string, g: Groups, out: Outside, i: nat, points: seq<Point>,
                         log: seq<Effect>)
    requires i < |g.order|
  {
    && g.order[i] in g.vectors && out.meta(g.order[i]).Ok?
    && IsGroup(points, g.order[i], g.vectors[g.order[i]], out.meta(g.order[i]).value)
    && Sent(log, 3 * i, prefix, g.order[i], points, model)
  }

  /** The log holds the requests of the first companies, one company after the other, and nothing else. */
  ghost predicate Ingested(prefix: string, model: string, g: Groups, out: Outside, groups: seq<seq<Point>>,
                           log: seq<Effect>) {
    && |groups| <= |g.order| && |log| == 3 * |groups|
    && (groups != [] ==>
          var n := |groups| - 1;
          && IsDone(prefix, model, g, out, n, groups[n], log)
          && Ingested(prefix, model, g, out, groups[..n], log[..3 * n]))
  }

  lemma {:induction false} EachIsDone(prefix: string, model: string, g: Groups, out: Outside, groups: seq<seq<Point>>,
                                      log: seq<Effect>, i: nat, points: seq<Point>)
    requires Ingested(prefix, model, g, out, groups, log) && i < |groups| && groups[i] == points
    ensures IsDone(prefix, model, g, out, i, points, log)
    decreases |groups|
  {
    var n := |groups| - 1;
    var earlier, front := groups[..n], log[..3 * n];
    if i == n {
      assert IsDone(prefix, model, g, out, n, groups[n], log);
    } else {
      EachIsDone(prefix, model, g, out, earlier, front, i, points);
      DoneStays(prefix, model, g, out, i, points, front, log);
    }
  }

  lemma DoneStays(prefix: string, model: string, g: Groups, out: Outside, i: nat, points: seq<Point>,
                  log: seq<Effect>, log': seq<Effect>)
    requires i < |g.order| && IsDone(prefix, model, g, out, i, points, log) && log <= log'
    ensures IsDone(prefix, model, g, out, i, points, log')
  {
  }

  function Sum(groups: seq<seq<Point>>): nat {
    if groups == [] then 0 else Sum(groups[..|groups| - 1]) + |groups[|groups| - 1]|
  }

  lemma GroupUpsertIsSafe(prefix: string, log: seq<Effect>, company: int, points: seq<Point>, ok: bool)
    requires AllOf(points, company) && Collection(prefix, company) in Ensured(log)
    ensures SafeNext(prefix, log, Upsert(Collection(prefix, company), points, ok))
  {
  }

  lemma GroupMarkIsSafe(prefix: string, log: seq<Effect>, company: int, points: seq<Point>, model: string, ok: bool)
    requires AllOf(points, company) && log != [] && log[|log| - 1] == Upsert(Collection(prefix, company), points, true)
    ensures SafeNext(prefix, log, Mark(company, RefsFor(points, model), ok))
  {
  }

  /** Three requests for one company, up to the first that fails. */
  method Send(prefix: string, company: int, points: seq<Point>, model: string, out: Outside, before: seq<Effect>)
    returns (ok: bool, log: seq<Effect>)
    requires Safe(prefix, before) && AllOf(points, company)
    ensures Safe(prefix, log)
    ensures ok ==> before <= log && |log| == |before| + 3 && Sent(log, |before|, prefix, company, points, model)
  {
    var e, u, m := Ensure(Collection(prefix, company), true), Upsert(Collection(prefix, company), points, true),
                   Mark(company, RefsFor(points, model), true);
    ok, log := Request(prefix, e, out, before);
    if !ok {
      return;
    }
    GroupUpsertIsSafe(prefix, log, company, points, true);
    GroupUpsertIsSafe(prefix, log, company, points, false);
    ok, log := Request(prefix, u, out, log);
    if !ok {
      return;
    }
    GroupMarkIsSafe(prefix, log, company, points, model, true);
    GroupMarkIsSafe(prefix, log, company, points, model, false);
    ok, log := Request(prefix, m, out, log);
  }

  method Request(prefix: string, e: Effect, out: Outside, before: seq<Effect>) returns (ok: bool, log: seq<Effect>)
    requires Safe(prefix, before) && e.ok && SafeNext(prefix, before, e) && SafeNext(prefix, before, e.(ok := false))
    ensures Safe(prefix, log) && log == before + [e.(ok := ok)]
    ensures Ensured(log) == Ensured(before) + if e.Ensure? && ok then {e.collection} else {}
  {
    ok := out.ok(|before|);
    SafeOneMore(prefix, before, e.(ok := ok));
    log := before + [e.(ok := ok)];
  }

  method IngestCompany(opts: Options, company: int, group: map<int, Vector>, out: Outside, before: seq<Effect>)
    returns (r: Option<seq<Point>>, log: seq<Effect>)
    requires Safe(opts.prefix, before)
    ensures Safe(opts.prefix, log)
    ensures r.Some? ==> out.meta(company).Ok? && IsGroup(r.value, company, group, out.meta(company).value)
                        && before <= log && |log| == |before| + 3
                        && Sent(log, |before|, opts.prefix, company, r.value, opts.model)
  {
    var rows := out.meta(company);
    if rows.Err? {
      return None, before;
    }
    r := PointsOfGroup(company, group, rows.value);
    if r.None? {
      return None, before;
    }
    assert forall i | 0 <= i < |r.value| :: IsPointOf(r.value[i], company, group, rows.value);
    var ok;
    ok, log := Send(opts.prefix, company, r.value, opts.model, out, before);
    if !ok {
      r := None;
    }
  }

  lemma CompanyHasVectors(g: Groups, vs: seq<Entry>, i: nat)
    requires IsGrouping(g, vs, |vs|) && i < |g.order|
    ensures g.order[i] in g.vectors
  {
    assert g.order[i] in g.order;
  }

  /** The i-th company in its turn. */
  method IngestNth(opts: Options, g: Groups, i: nat, out: Outside, before: seq<Effect>)
    returns (r: Option<seq<Point>>, log: seq<Effect>)
    requires Safe(opts.prefix, before) && |before| == 3 * i && i < |g.order| && g.order[i] in g.vectors
    ensures Safe(opts.prefix, log)
    ensures r.Some? ==>
              before <= log && |log| == |before| + 3 && IsDone(opts.prefix, opts.model, g, out, i, r.value, log)
  {
    r, log := IngestCompany(opts, g.order[i], g.vectors[g.order[i]], out, before);
  }

  /** Ingest: on any path marks follow upserts; nothing is asked of anybody for a malformed batch. */
  method Ingest(opts: Options, vs: seq<Keyed>, out: Outside)
    returns (r: Result<Report, Error>, log: seq<Effect>, ghost g: Groups, ghost groups: seq<seq<Point>>)
    ensures Safe(opts.prefix, log)
    ensures opts.prefix == "" || !WellFormed(Entries(vs), |vs|) ==> r.Err? && log == []
    ensures r.Ok? ==>
              && IsGrouping(g, Entries(vs), |vs|) && |groups| == |g.order|
              && Ingested(opts.prefix, opts.model, g, out, groups, log)
              && r.value == Report(Sum(groups), Sum(groups), |g.order|, 0)
  {
    log, g, groups := [], Groups([], map[]), [];
    if opts.prefix == "" {
      return Err(Failure), log, g, groups;
    }
    var read := ReadVectors(Entries(vs));
    if read.None? {
      return Err(Failure), log, g, groups;
    }
    var batch := read.value;
    g := batch;
    var report := NOTHING;
    for i := 0 to |batch.order|
      invariant Safe(opts.prefix, log) && |groups| == i
      invariant Reported(opts.prefix, opts.model, batch, out, groups, log, report)
    {
      CompanyHasVectors(batch, Entries(vs), i);
      var made, next := IngestNth(opts, batch, i, out, log);
      if made.None? {
        return Err(Failure), next, g, groups;
      }
      var points := made.value;
      var sum := Report(report.chunks + |points|, report.points + |points|, report.batches + 1, 0);
      ReportedOneMore(opts.prefix, opts.model, batch, out, groups, log, report, points, next, sum);
      log, groups, report := next, groups + [points], sum;
    }
    r := Ok(report);
  }

  lemma IngestedOneMore(prefix: string, model: string, g: Groups, out: Outside, groups: seq<seq<Point>>,
                        log: seq<Effect>, groups': seq<seq<Point>>, log': seq<Effect>)
    requires Ingested(prefix, model, g, out, groups, log) && log <= log' && |log'| == |log| + 3
    requires |groups| < |g.order| && |groups'| == |groups| + 1 && groups'[..|groups|] == groups
    requires IsDone(prefix, model, g, out, |groups|, groups'[|groups|], log')
    ensures Ingested(prefix, model, g, out, groups', log') && Sum(groups') == Sum(groups) + |groups'[|groups|]|
  {
    assert log'[..3 * |groups|] == log;
  }

  /** Where an ingestion stands between two companies. */
  ghost predicate Reported(prefix: string, model: string, g: Groups, out: Outside, groups: seq<seq<Point>>,
                           log: seq<Effect>, report: Report) {
    Ingested(prefix, model, g, out, groups, log) && report == Report(Sum(groups), Sum(groups), |groups|, 0)
  }

  lemma ReportedOneMore(prefix: string, model: string, g: Groups, out: Outside, groups: seq<seq<Point>>,
                        log: seq<Effect>, report: Report, points: seq<Point>, log': seq<Effect>, report': Report)
    requires Reported(prefix, model, g, out, groups, log, report) && log <= log' && |log'| == |log| + 3
    requires |groups| < |g.order| && IsDone(prefix, model, g, out, |groups|, points, log')
    requires report' == Report(report.chunks + |points|, report.points + |points|, report.batches + 1, 0)
    ensures Reported(prefix, model, g, out, groups + [points], log', report')
  {
    IngestedOneMore(prefix, model, g, out, groups, log, groups + [points], log');
  }

  predicate PointAt(g: Groups, groups: seq<seq<Point>>, i: nat, j: nat, p: Pair) {
    i < |groups| <= |g.order| && j < |groups[i]| && g.order[i] == p.company && groups[i][j].chunkID == p.chunk
  }

  lemma PointIsSent(prefix: string, model: string, vs: seq<Entry>, g: Groups, out: Outside, groups: seq<seq<Point>>,
                    log: seq<Effect>, p: Pair, i: nat, j: nat)
    requires IsGrouping(g, vs, |vs|) && Ingested(prefix, model, g, out, groups, log) && PointAt(g, groups, i, j, p)
    ensures Upsert(Collection(prefix, p.company), groups[i], true) in log
    ensures LastVector(vs, |vs|, p) == Some(groups[i][j].vector)
  {
    EachIsDone(prefix, model, g, out, groups, log, i, groups[i]);
    assert IsPointOf(groups[i][j], p.company, g.vectors[p.company], out.meta(p.company).value);
  }

  lemma PointIsTheOnly(prefix: string, model: string, vs: seq<Entry>, g: Groups, out: Outside,
                       groups: seq<seq<Point>>, log: seq<Effect>, p: Pair, i: nat, j: nat, k: nat, l: nat)
    requires IsGrouping(g, vs, |vs|) && Ingested(prefix, model, g, out, groups, log)
    requires PointAt(g, groups, i, j, p) && PointAt(g, groups, k, l, p)
    ensures i == k && j == l
  {
    EachIsDone(prefix, model, g, out, groups, log, i, groups[i]);
  }

  lemma NamedPairHasPoint(prefix: string, model: string, vs: seq<Entry>, g: Groups, out: Outside,
                          groups: seq<seq<Point>>, log: seq<Effect>, p: Pair) returns (i: nat, j: nat)
    requires IsGrouping(g, vs, |vs|) && Ingested(prefix, model, g, out, groups, log) && |groups| == |g.order|
    requires LastVector(vs, |vs|, p).Some?
    ensures PointAt(g, groups, i, j, p)
  {
    i :| 0 <= i < |g.order| && g.order[i] == p.company;
    EachIsDone(prefix, model, g, out, groups, log, i, groups[i]);
    j :| 0 <= j < |groups[i]| && groups[i][j].chunkID == p.chunk;
  }

  /**
    After a successful batch each pair named in it has exactly one point, in its company's upsert, with its last
    vector.
   */
  lemma OnePointPerPair(prefix: string, model: string, vs: seq<Entry>, g: Groups, out: Outside, groups: seq<seq<Point>>,
                        log: seq<Effect>, p: Pair)
    requires IsGrouping(g, vs, |vs|) && Ingested(prefix, model, g, out, groups, log) && |groups| == |g.order|
    ensures LastVector(vs, |vs|, p).Some? <==> exists i: nat, j: nat :: PointAt(g, groups, i, j, p)
    ensures forall i: nat, j: nat, k: nat, l: nat :: PointAt(g, groups, i, j, p) && PointAt(g, groups, k, l, p) ==>
              i == k && j == l
    ensures forall i: nat, j: nat :: PointAt(g, groups, i, j, p) ==>
              && Upsert(Collection(prefix, p.company), groups[i], true) in log
              && LastVector(vs, |vs|, p) == Some(groups[i][j].vector)
  {
    forall i: nat, j: nat | PointAt(g, groups, i, j, p)
      ensures Upsert(Collection(prefix, p.company), groups[i], true) in log
      ensures LastVector(vs, |vs|, p) == Some(groups[i][j].vector)
    {
      PointIsSent(prefix, model, vs, g, out, groups, log, p, i, j);
    }
    forall i: nat, j: nat, k: nat, l: nat | PointAt(g, groups, i, j, p) && PointAt(g, groups, k, l, p)
      ensures i == k && j == l
    {
      PointIsTheOnly(prefix, model, vs, g, out, groups, log, p, i, j, k, l);
    }
    if LastVector(vs, |vs|, p).Some? {
      var i, j := NamedPairHasPoint(prefix, model, vs, g, out, groups, log, p);
    }
  }
}
