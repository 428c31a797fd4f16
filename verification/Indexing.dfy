/**
  Indexing chunks into per-company vector collections: internal/application/services/vectorindex/indexer.go.
  The chunk source, the embedder, the vector store and the marker are oracles; what the code asked of the
  last two is kept in a log, failures included.
 */
module Indexing {
  import opened Common
  import D = Decimal

  type Vector = seq<real>

  datatype Chunk = Chunk(id: int, articleID: int, companyID: int, reportID: int, index: int, content: string)

  datatype Point = Point(id: string, vector: Vector, companyID: int, articleID: int, chunkID: int, reportID: int,
                         index: int)

  datatype Ref = Ref(chunkID: int, vectorRef: string, model: string, dim: int)

  datatype Error = Failure

  /** fmt.Sprintf("%s__%d", prefix, company) */
  function Collection(prefix: string, company: int): string {
    prefix + "__" + D.FormatInt(company)
  }

  /** Two companies never share a collection. */
  lemma CollectionsAreApart(prefix: string, a: int, b: int)
    requires D.IsInt64(a) && D.IsInt64(b) && Collection(prefix, a) == Collection(prefix, b)
    ensures a == b
  {
    var n := |prefix + "__"|;
    assert Collection(prefix, a)[n..] == D.FormatInt(a) && Collection(prefix, b)[n..] == D.FormatInt(b);
    D.ParseOfFormat(a);
    D.ParseOfFormat(b);
  }

  // ---------------------------------------------------------------- the log

  datatype Effect =
    | Ensure(collection: string, ok: bool)
    | Upsert(collection: string, points: seq<Point>, ok: bool)
    | Mark(company: int, refs: seq<Ref>, ok: bool)

  function Ensured(log: seq<Effect>): set<string> {
    if log == [] then {}
    else
      var e := log[|log| - 1];
      Ensured(log[..|log| - 1]) + if e.Ensure? && e.ok then {e.collection} else {}
  }

  /** The refs name exactly these points, one by one. */
  predicate Names(refs: seq<Ref>, points: seq<Point>) {
    && |refs| == |points|
    && forall i | 0 <= i < |refs| :: refs[i].vectorRef == points[i].id && refs[i].chunkID == points[i].chunkID
  }

  predicate AllOf(points: seq<Point>, company: int) {
    forall i | 0 <= i < |points| :: points[i].companyID == company && points[i].id == D.FormatInt(points[i].chunkID)
  }

  /** An effect is safe after those before it: marks follow the successful upsert of the very same points, and points
      go only into their own company's collection, which this run has ensured. */
  predicate SafeNext(prefix: string, before: seq<Effect>, e: Effect) {
    match e
    case Ensure(_, _) => true
    case Upsert(collection, points, _) =>
      collection in Ensured(before)
      && (points != [] ==> AllOf(points, points[0].companyID) && collection == Collection(prefix, points[0].companyID))
    case Mark(company, refs, _) =>
      && before != []
      && var last := before[|before| - 1];
      && last.Upsert? && last.ok && last.collection == Collection(prefix, company)
      && Names(refs, last.points) && AllOf(last.points, company)
  }

  predicate Safe(prefix: string, log: seq<Effect>) {
    log == [] || (Safe(prefix, log[..|log| - 1]) && SafeNext(prefix, log[..|log| - 1], log[|log| - 1]))
  }

  lemma SafeOneMore(prefix: string, log: seq<Effect>, e: Effect)
    requires Safe(prefix, log) && SafeNext(prefix, log, e)
    ensures Safe(prefix, log + [e])
    ensures Ensured(log + [e]) == Ensured(log) + if e.Ensure? && e.ok then {e.collection} else {}
  {
    assert (log + [e])[..|log|] == log;
  }

  function Count(ids: seq<int>, id: int): nat {
    if ids == [] then 0 else Count(ids[..|ids| - 1], id) + if ids[|ids| - 1] == id then 1 else 0
  }

  lemma {:induction false} CountOfBoth(a: seq<int>, b: seq<int>, id: int)
    ensures Count(a + b, id) == Count(a, id) + Count(b, id)
  {
    if b == [] {
      assert a + b == a;
    } else {
      CountOfBoth(a, b[..|b| - 1], id);
      assert (a + b)[..|a + b| - 1] == a + b[..|b| - 1];
    }
  }

  function RefIds(refs: seq<Ref>): seq<int> {
    seq(|refs|, i requires 0 <= i < |refs| => refs[i].chunkID)
  }

  function PointIds(points: seq<Point>): seq<int> {
    seq(|points|, i requires 0 <= i < |points| => points[i].chunkID)
  }

  /** How often a chunk was marked, or tried to be. */
  function Marked(log: seq<Effect>, id: int): nat {
    if log == [] then 0
    else
      var e := log[|log| - 1];
      Marked(log[..|log| - 1], id) + if e.Mark? then Count(RefIds(e.refs), id) else 0
  }

  /** How often a chunk was successfully upserted. */
  function Upserted(log: seq<Effect>, id: int): nat {
    if log == [] then 0
    else
      var e := log[|log| - 1];
      Upserted(log[..|log| - 1], id) + if e.Upsert? && e.ok then Count(PointIds(e.points), id) else 0
  }

  /** On every path, also into an error: whatever was marked, or tried to be, had been upserted before. */
  lemma {:induction false} MarkedWasUpserted(prefix: string, log: seq<Effect>, id: int)
    requires Safe(prefix, log)
    ensures Marked(log, id) <= Upserted(log, id)
    ensures log != [] && log[|log| - 1].Upsert? && log[|log| - 1].ok ==>
              Marked(log, id) + Count(PointIds(log[|log| - 1].points), id) <= Upserted(log, id)
  {
    if log != [] {
      var n := |log| - 1;
      MarkedWasUpserted(prefix, log[..n], id);
      var e := log[n];
      if e.Mark? {
        assert log[..n][|log[..n]| - 1] == log[n - 1];
        assert RefIds(e.refs) == PointIds(log[n - 1].points);
      }
    }
  }

  // ---------------------------------------------------------------- one group of chunks of a company

  /** embedChunks: point i carries chunk i with the i-th vector. */
  function PointsOf(chunks: seq<Chunk>, vectors: seq<Vector>, company: int): (points: seq<Point>)
    requires |vectors| == |chunks|
    ensures |points| == |chunks|
  {
    seq(|chunks|, i requires 0 <= i < |chunks| =>
      Point(D.FormatInt(chunks[i].id), vectors[i], company, chunks[i].articleID, chunks[i].id, chunks[i].reportID,
            chunks[i].index))
  }

  function RefsOf(chunks: seq<Chunk>, model: string, dim: int): (refs: seq<Ref>)
    ensures |refs| == |chunks|
  {
    seq(|chunks|, i requires 0 <= i < |chunks| => Ref(chunks[i].id, D.FormatInt(chunks[i].id), model, dim))
  }

  function Ids(chunks: seq<Chunk>): (ids: seq<int>)
    ensures |ids| == |chunks| && forall i | 0 <= i < |chunks| :: ids[i] == chunks[i].id
  {
    seq(|chunks|, i requires 0 <= i < |chunks| => chunks[i].id)
  }

  /**
    ok(k) tells how the k-th logged request ends; next and embed answer the k-th page and the k-th embedding request.
   */
  datatype Oracles = Oracles(next: (nat, int, int) -> Result<seq<Chunk>, Error>,
                             embed: (nat, seq<string>) -> Result<seq<Vector>, Error>,
                             ok: nat -> bool, dim: int)

  datatype Options = Options(companyID: int, prefix: string, batchSize: int, limit: int, model: string, dryRun: bool)

  datatype Report = Report(chunks: int, points: int, batches: int, runes: int)

  const NOTHING := Report(0, 0, 0, 0)

  function Texts(chunks: seq<Chunk>): seq<string> {
    seq(|chunks|, i requires 0 <= i < |chunks| => chunks[i].content)
  }

  /** The chunks of one company, in order. */
  function Of(chunks: seq<Chunk>, company: int): seq<Chunk> {
    if chunks == [] then []
    else
      var last := chunks[|chunks| - 1];
      Of(chunks[..|chunks| - 1], company) + if last.companyID == company then [last] else []
  }

  /** The chunks of some companies, in order. */
  function OfAny(chunks: seq<Chunk>, companies: set<int>): seq<Chunk> {
    if chunks == [] then []
    else
      var last := chunks[|chunks| - 1];
      OfAny(chunks[..|chunks| - 1], companies) + if last.companyID in companies then [last] else []
  }

  lemma CountOneMore(chunks: seq<Chunk>, more: seq<Chunk>, id: int)
    ensures Count(Ids(chunks + more), id) == Count(Ids(chunks), id) + Count(Ids(more), id)
  {
    assert Ids(chunks + more) == Ids(chunks) + Ids(more);
    CountOfBoth(Ids(chunks), Ids(more), id);
  }

  lemma {:induction false} OneMoreCompany(chunks: seq<Chunk>, companies: set<int>, c: int, id: int)
    requires c !in companies
    ensures Count(Ids(OfAny(chunks, companies + {c})), id)
            == Count(Ids(OfAny(chunks, companies)), id) + Count(Ids(Of(chunks, c)), id)
    ensures |OfAny(chunks, companies + {c})| == |OfAny(chunks, companies)| + |Of(chunks, c)|
  {
    if chunks != [] {
      var n := |chunks| - 1;
      var last := chunks[n];
      OneMoreCompany(chunks[..n], companies, c, id);
      CountOneMore(OfAny(chunks[..n], companies + {c}), if last.companyID in companies + {c} then [last] else [], id);
      CountOneMore(OfAny(chunks[..n], companies), if last.companyID in companies then [last] else [], id);
      CountOneMore(Of(chunks[..n], c), if last.companyID == c then [last] else [], id);
    }
  }

  lemma {:induction false} AllCompanies(chunks: seq<Chunk>, companies: set<int>)
    requires forall i | 0 <= i < |chunks| :: chunks[i].companyID in companies
    ensures OfAny(chunks, companies) == chunks
  {
    if chunks != [] {
      AllCompanies(chunks[..|chunks| - 1], companies);
    }
  }

  lemma {:induction false} NoCompanies(chunks: seq<Chunk>)
    ensures OfAny(chunks, {}) == []
  {
    if chunks != [] {
      NoCompanies(chunks[..|chunks| - 1]);
    }
  }

  /** From one log to a later one exactly these chunks were upserted and marked, each as often as it occurs. */
  ghost predicate Handled(before: seq<Effect>, after: seq<Effect>, chunks: seq<Chunk>) {
    forall id :: Marked(after, id) == Marked(before, id) + Count(Ids(chunks), id)
                 && Upserted(after, id) == Upserted(before, id) + Count(Ids(chunks), id)
  }

  lemma HandledNext(a: seq<Effect>, b: seq<Effect>, c: seq<Effect>, chunks: seq<Chunk>, more: seq<Chunk>)
    requires Handled(a, b, chunks) && Handled(b, c, more)
    ensures Handled(a, c, chunks + more)
  {
    forall id
      ensures Count(Ids(chunks + more), id) == Count(Ids(chunks), id) + Count(Ids(more), id)
    {
      CountOneMore(chunks, more, id);
    }
  }

  lemma HandledCompany(a: seq<Effect>, b: seq<Effect>, c: seq<Effect>, chunks: seq<Chunk>, companies: set<int>,
                       company: int)
    requires Handled(a, b, OfAny(chunks, companies)) && Handled(b, c, Of(chunks, company)) && company !in companies
    ensures Handled(a, c, OfAny(chunks, companies + {company}))
    ensures |OfAny(chunks, companies + {company})| == |OfAny(chunks, companies)| + |Of(chunks, company)|
  {
    OneMoreCompany(chunks, companies, company, 0);
    forall id
      ensures Count(Ids(OfAny(chunks, companies + {company})), id)
           == Count(Ids(OfAny(chunks, companies)), id) + Count(Ids(Of(chunks, company)), id)
    {
      OneMoreCompany(chunks, companies, company, id);
    }
  }

  lemma UpsertIsSafe(prefix: string, log: seq<Effect>, company: int, group: seq<Chunk>, vectors: seq<Vector>, ok: bool)
    requires |vectors| == |group| && Collection(prefix, company) in Ensured(log)
    ensures SafeNext(prefix, log, Upsert(Collection(prefix, company), PointsOf(group, vectors, company), ok))
  {
  }

  lemma MarkIsSafe(prefix: string, log: seq<Effect>, company: int, group: seq<Chunk>, vectors: seq<Vector>,
                   model: string, dim: int, ok: bool)
    requires |vectors| == |group| && log != []
    requires log[|log| - 1] == Upsert(Collection(prefix, company), PointsOf(group, vectors, company), true)
    ensures SafeNext(prefix, log, Mark(company, RefsOf(group, model, dim), ok))
  {
  }

  // ---------------------------------------------------------------- every chunk under its own vector

  /** The k-th embedding request held the contents of these chunks in order, and these vectors were the answer. */
  ghost predicate Embeds(world: Oracles, k: nat, group: seq<Chunk>, texts: seq<string>, vectors: seq<Vector>) {
    && |texts| == |vectors| == |group| && world.embed(k, texts) == Ok(vectors)
    && forall i | 0 <= i < |group| :: texts[i] == group[i].content
  }

  /** Point i is chunk i under vector i. */
  predicate Pairs(group: seq<Chunk>, vectors: seq<Vector>, company: int, points: seq<Point>)
    requires |vectors| == |group|
  {
    && |points| == |group|
    && forall i | 0 <= i < |points| ::
         && points[i].vector == vectors[i] && points[i].companyID == company
         && points[i].id == D.FormatInt(group[i].id) && points[i].chunkID == group[i].id
         && points[i].articleID == group[i].articleID && points[i].reportID == group[i].reportID
         && points[i].index == group[i].index
  }

  /** Ref i names chunk i and its point. */
  predicate Refers(group: seq<Chunk>, model: string, dim: int, refs: seq<Ref>) {
    && |refs| == |group|
    && forall i | 0 <= i < |refs| ::
         && refs[i].chunkID == group[i].id && refs[i].vectorRef == D.FormatInt(group[i].id)
         && refs[i].model == model && refs[i].dim == dim
  }

  lemma PairsUp(group: seq<Chunk>, vectors: seq<Vector>, company: int)
    requires |vectors| == |group|
    ensures Pairs(group, vectors, company, PointsOf(group, vectors, company))
  {
  }

  /** A round ended with the successful upsert of the group's points and the mark of their chunks. */
  predicate IsRound(before: seq<Effect>, after: seq<Effect>, collection: string, company: int, group: seq<Chunk>,
                    vectors: seq<Vector>, model: string, dim: int)
    requires |vectors| == |group|
  {
    var n := |after|;
    && n >= |before| + 2
    && after[n - 2].Upsert? && after[n - 2].ok && after[n - 2].collection == collection
    && Pairs(group, vectors, company, after[n - 2].points)
    && after[n - 1].Mark? && after[n - 1].ok && after[n - 1].company == company
    && Refers(group, model, dim, after[n - 1].refs)
  }

  lemma RoundIsDone(before: seq<Effect>, ready: seq<Effect>, after: seq<Effect>, collection: string, company: int,
                    group: seq<Chunk>, vectors: seq<Vector>, points: seq<Point>, refs: seq<Ref>, model: string,
                    dim: int)
    requires before <= ready && after == ready + [Upsert(collection, points, true)] + [Mark(company, refs, true)]
    requires |vectors| == |group| && Pairs(group, vectors, company, points) && Refers(group, model, dim, refs)
    ensures IsRound(before, after, collection, company, group, vectors, model, dim)
  {
  }

  /** The chunk went into its company's collection with the vector some request gave for its own content. */
  ghost predicate IsStored(world: Oracles, prefix: string, log: seq<Effect>, c: Chunk) {
    exists n, k, texts, vectors, i :: IsStoredAt(world, prefix, log, c, n, k, texts, vectors, i)
  }

  ghost predicate IsStoredAt(world: Oracles, prefix: string, log: seq<Effect>, c: Chunk, n: nat, k: nat,
                             texts: seq<string>, vectors: seq<Vector>, i: nat) {
    && world.embed(k, texts) == Ok(vectors) && i < |texts| == |vectors| && texts[i] == c.content
    && n < |log| && log[n].Upsert? && log[n].ok && log[n].collection == prefix + "__" + D.FormatInt(c.companyID)
    && i < |log[n].points|
    && log[n].points[i] == Point(D.FormatInt(c.id), vectors[i], c.companyID, c.articleID, c.id, c.reportID, c.index)
  }

  ghost predicate AllStored(world: Oracles, prefix: string, log: seq<Effect>, chunks: seq<Chunk>) {
    forall c | c in chunks :: IsStored(world, prefix, log, c)
  }

  lemma StoredStays(world: Oracles, prefix: string, log: seq<Effect>, log': seq<Effect>, chunks: seq<Chunk>)
    requires AllStored(world, prefix, log, chunks) && log <= log'
    ensures AllStored(world, prefix, log', chunks)
  {
    forall c | c in chunks ensures IsStored(world, prefix, log', c) {
      var n, k, texts, vectors, i :| IsStoredAt(world, prefix, log, c, n, k, texts, vectors, i);
      assert IsStoredAt(world, prefix, log', c, n, k, texts, vectors, i);
    }
  }

  lemma GroupIsStored(world: Oracles, prefix: string, log: seq<Effect>, n: nat, k: nat, group: seq<Chunk>,
                      texts: seq<string>, vectors: seq<Vector>, company: int)
    requires Embeds(world, k, group, texts, vectors) && n < |log| && log[n].Upsert? && log[n].ok
    requires log[n].collection == Collection(prefix, company) && Pairs(group, vectors, company, log[n].points)
    requires forall c | c in group :: c.companyID == company
    ensures AllStored(world, prefix, log, group)
  {
    forall c | c in group ensures IsStored(world, prefix, log, c) {
      var i :| 0 <= i < |group| && group[i] == c;
      assert IsStoredAt(world, prefix, log, c, n, k, texts, vectors, i);
    }
  }

  lemma {:induction false} MembersOf(chunks: seq<Chunk>, company: int, c: Chunk)
    ensures c in Of(chunks, company) <==> c in chunks && c.companyID == company
  {
    if chunks != [] {
      var n := |chunks| - 1;
      MembersOf(chunks[..n], company, c);
      assert chunks == chunks[..n] + [chunks[n]];
    }
  }

  lemma {:induction false} MembersOfAny(chunks: seq<Chunk>, companies: set<int>, c: Chunk)
    ensures c in OfAny(chunks, companies) <==> c in chunks && c.companyID in companies
  {
    if chunks != [] {
      var n := |chunks| - 1;
      MembersOfAny(chunks[..n], companies, c);
      assert chunks == chunks[..n] + [chunks[n]];
    }
  }

  lemma StoredCompany(world: Oracles, prefix: string, log: seq<Effect>, chunks: seq<Chunk>, companies: set<int>,
                      company: int)
    requires AllStored(world, prefix, log, OfAny(chunks, companies))
    requires AllStored(world, prefix, log, Of(chunks, company))
    ensures AllStored(world, prefix, log, OfAny(chunks, companies + {company}))
  {
    forall c | c in OfAny(chunks, companies + {company}) ensures IsStored(world, prefix, log, c) {
      MembersOfAny(chunks, companies + {company}, c);
      MembersOfAny(chunks, companies, c);
      MembersOf(chunks, company, c);
    }
  }

  class Indexer {
    const world: Oracles
    var log: seq<Effect>           // of the current run
    var ensured: set<string>
    var embeddings: nat

    constructor (world: Oracles)
      ensures this.world == world
    {
      this.world, log, ensured, embeddings := world, [], {}, 0;
    }

    ghost predicate Valid(prefix: string)
      reads this
    {
      Safe(prefix, log) && ensured == Ensured(log)
    }

    method Do(prefix: string, e: Effect) returns (ok: bool)
      requires Valid(prefix) && e.ok && SafeNext(prefix, log, e.(ok := true)) && SafeNext(prefix, log, e.(ok := false))
      modifies this`log, this`ensured
      ensures Valid(prefix) && log == old(log) + [e.(ok := ok)]
      ensures ensured == old(ensured) + if e.Ensure? && ok then {e.collection} else {}
    {
      ok := world.ok(|log|);
      SafeOneMore(prefix, log, e.(ok := ok));
      log := log + [e.(ok := ok)];
      if e.Ensure? && ok {
        ensured := ensured + {e.collection};
      }
    }

    method EnsureOnce(prefix: string, company: int) returns (ok: bool)
      requires Valid(prefix)
      modifies this`log, this`ensured
      ensures Valid(prefix) && old(ensured) <= ensured && (ok ==> Collection(prefix, company) in ensured)
      ensures old(log) <= log
      ensures ok ==>
                log == old(log) + if Collection(prefix, company) in old(ensured) then []
                                  else [Ensure(Collection(prefix, company), true)]
    {
      ok := true;
      if Collection(prefix, company) !in ensured {
        ok := Do(prefix, Ensure(Collection(prefix, company), true));
      }
    }

    /** embedChunks */
    method EmbedChunks(company: int, group: seq<Chunk>)
      returns (answer: Option<seq<Point>>, ghost texts: seq<string>, ghost vectors: seq<Vector>)
      modifies this`embeddings
      ensures answer.Some? ==>
                && Embeds(world, old(embeddings), group, texts, vectors)
                && Pairs(group, vectors, company, answer.value) && answer.value == PointsOf(group, vectors, company)
    {
      texts, vectors := Texts(group), [];
      var reply := world.embed(embeddings, Texts(group));
      embeddings := embeddings + 1;
      if reply.Err? || |reply.value| != |group| {
        return None, texts, vectors;
      }
      vectors := reply.value;
      PairsUp(group, vectors, company);
      answer := Some(PointsOf(group, reply.value, company));
    }

    /** The upsert of a group's points and, when it went well, the mark. */
    method StoreGroup(opts: Options, company: int, group: seq<Chunk>, points: seq<Point>,
                      ghost vectors: seq<Vector>) returns (ok: bool, ghost refs: seq<Ref>)
      requires Valid(opts.prefix) && Collection(opts.prefix, company) in ensured
      requires |vectors| == |group| && points == PointsOf(group, vectors, company)
      modifies this`log, this`ensured
      ensures Valid(opts.prefix) && old(ensured) <= ensured && old(log) <= log
      ensures refs == RefsOf(group, opts.model, world.dim) && Refers(group, opts.model, world.dim, refs)
      ensures ok ==>
                log == old(log) + [Upsert(Collection(opts.prefix, company), points, true)] + [Mark(company, refs, true)]
    {
      refs := RefsOf(group, opts.model, world.dim);
      UpsertIsSafe(opts.prefix, log, company, group, vectors, true);
      UpsertIsSafe(opts.prefix, log, company, group, vectors, false);
      ok := Do(opts.prefix, Upsert(Collection(opts.prefix, company), points, true));
      if !ok {
        return;
      }
      MarkIsSafe(opts.prefix, log, company, group, vectors, opts.model, world.dim, true);
      MarkIsSafe(opts.prefix, log, company, group, vectors, opts.model, world.dim, false);
      ok := Do(opts.prefix, Mark(company, RefsOf(group, opts.model, world.dim), true));
    }

    /** One round of indexChunks: ensure, embed, upsert, mark, stopping at the first failure. */
    method IndexGroup(opts: Options, company: int, group: seq<Chunk>)
      returns (ok: bool, ghost texts: seq<string>, ghost vectors: seq<Vector>)
      requires Valid(opts.prefix)
      modifies this
      ensures Valid(opts.prefix) && old(ensured) <= ensured && old(log) <= log
      ensures ok ==> Embeds(world, old(embeddings), group, texts, vectors)
      ensures ok ==> IsRound(old(log), log, Collection(opts.prefix, company), company, group, vectors, opts.model,
                             world.dim)
      ensures ok ==>
                && log == old(log)
                          + (if Collection(opts.prefix, company) in old(ensured) then []
                             else [Ensure(Collection(opts.prefix, company), true)])
                          + [Upsert(Collection(opts.prefix, company), PointsOf(group, vectors, company), true)]
                          + [Mark(company, RefsOf(group, opts.model, world.dim), true)]
    {
      texts, vectors := [], [];
      ghost var before := log;
      ok := EnsureOnce(opts.prefix, company);
      if !ok {
        return;
      }
      var points;
      points, texts, vectors := EmbedChunks(company, group);
      if points.None? {
        return false, texts, vectors;
      }
      ghost var ready, refs := log, [];
      ok, refs := StoreGroup(opts, company, group, points.value, vectors);
      if ok {
        RoundIsDone(before, ready, log, Collection(opts.prefix, company), company, group, vectors, points.value, refs,
                    opts.model, world.dim);
      }
    }

    /** The same for one company of a page, counted along with the companies before it. */
    method IndexCompany(opts: Options, chunks: seq<Chunk>, company: int, group: seq<Chunk>, ghost start: seq<Effect>,
                        ghost handled: set<int>) returns (ok: bool)
      requires Valid(opts.prefix) && group == Of(chunks, company) && company !in handled
      requires Handled(start, log, OfAny(chunks, handled))
      modifies this
      ensures Valid(opts.prefix)
      ensures old(log) <= log && (ok ==> AllStored(world, opts.prefix, log, group))
      ensures ok ==>
                && Handled(start, log, OfAny(chunks, handled + {company}))
                && |OfAny(chunks, handled + {company})| == |OfAny(chunks, handled)| + |group|
    {
      ghost var before, known, k := log, ensured, embeddings;
      ghost var texts, vectors;
      ok, texts, vectors := IndexGroup(opts, company, group);
      if ok {
        forall c | c in group ensures c.companyID == company {
          MembersOf(chunks, company, c);
        }
        GroupIsStored(world, opts.prefix, log, |log| - 2, k, group, texts, vectors, company);
        GroupIsCounted(opts, before, known, company, group, vectors, world.dim);
        HandledCompany(start, before, log, chunks, handled, company);
      }
    }

    /** indexChunks: the page grouped by company, the groups in whatever order the map gives them. */
    method IndexChunks(opts: Options, chunks: seq<Chunk>) returns (ok: bool, indexed: nat)
      requires Valid(opts.prefix)
      modifies this
      ensures Valid(opts.prefix)
      ensures ok ==> Handled(old(log), log, chunks) && indexed == |chunks|
      ensures old(log) <= log && (ok ==> AllStored(world, opts.prefix, log, chunks))
    {
      var byCompany := GroupByCompany(chunks);
      ok, indexed := true, 0;
      var keys := byCompany.Keys;
      ghost var handled: set<int> := {};
      NoCompanies(chunks);
      while keys != {}
        invariant Valid(opts.prefix) && keys <= byCompany.Keys && handled == byCompany.Keys - keys
        invariant Handled(old(log), log, OfAny(chunks, handled)) && indexed == |OfAny(chunks, handled)|
        invariant old(log) <= log && AllStored(world, opts.prefix, log, OfAny(chunks, handled))
        decreases |keys|
      {
        SomeKey(keys);
        var c :| c in keys;
        assert IsGroupOf(byCompany, chunks, c);
        ghost var before := log;
        ok := IndexCompany(opts, chunks, c, byCompany[c], old(log), handled);
        if !ok {
          return;
        }
        StoredStays(world, opts.prefix, before, log, OfAny(chunks, handled));
        StoredCompany(world, opts.prefix, log, chunks, handled, c);
        indexed := indexed + |byCompany[c]|;
        handled := handled + {c};
        keys := keys - {c};
      }
      AllCompanies(chunks, handled);
      ok := true;
    }

    /** What a round does with a page, and adds to the report. */
    method HandlePage(opts: Options, chunks: seq<Chunk>, report: Report) returns (r: Option<Report>)
      requires Valid(opts.prefix)
      modifies this
      ensures Valid(opts.prefix) && (opts.dryRun ==> log == old(log) && r.Some?)
      ensures r.Some? && !opts.dryRun ==> Handled(old(log), log, chunks)
      ensures old(log) <= log && (r.Some? && !opts.dryRun ==> AllStored(world, opts.prefix, log, chunks))
      ensures r.Some? ==>
                r.value == Report(report.chunks + |chunks|, report.points + (if opts.dryRun then 0 else |chunks|),
                                  report.batches + 1, report.runes + if opts.dryRun then Runes(chunks) else 0)
    {
      var next := report;
      if opts.dryRun {
        next := next.(runes := next.runes + Runes(chunks));
      } else {
        var ok, indexed := IndexChunks(opts, chunks);
        if !ok {
          return None;
        }
        next := next.(points := next.points + indexed);
      }
      r := Some(next.(batches := next.batches + 1, chunks := next.chunks + |chunks|));
    }

    /** Run */
    method Run(opts: Options) returns (r: Result<Report, Error>, ghost pages: seq<seq<Chunk>>)
      requires WellBehaved(world)
      modifies this
      ensures Safe(opts.prefix, log) && (opts.dryRun || opts.prefix == "" ==> log == [])
      ensures opts.prefix == "" ==> r.Err?
      ensures r.Ok? ==>
                && IsChain(world, opts, pages) && Ends(world, opts, pages) && r.value == ReportOn(opts, pages)
                && EndsWell(world, opts, pages, log)
    {
      log, ensured, pages := [], {}, [];
      if opts.prefix == "" {
        return Err(Failure), pages;
      }
      var batch := if opts.batchSize <= 0 then 64 else opts.batchSize;
      var report, afterID := NOTHING, 0;
      while true
        invariant Valid(opts.prefix) && (opts.dryRun ==> log == [])
        invariant Reads(world, opts, pages, report, afterID)
        invariant !opts.dryRun ==> Handled([], log, Flat(pages)) && AllStored(world, opts.prefix, log, Flat(pages))
        decreases D.MAX_INT64 - afterID
      {
        if opts.limit > 0 && report.chunks >= opts.limit {
          break;
        }
        var readLimit :=
          if opts.limit > 0 && report.chunks + batch > opts.limit then opts.limit - report.chunks else batch;
        var answer := world.next(report.batches, afterID, readLimit);
        if answer.Err? {
          return Err(answer.error), pages;
        }
        var chunks := answer.value;
        if |chunks| == 0 {
          break;
        }
        if !OfCompany(opts.companyID, chunks) {
          return Err(Failure), pages;
        }
        ghost var before := log;
        var next := HandlePage(opts, chunks, report);
        if next.None? {
          return Err(Failure), pages;
        }
        ReadsOneMore(world, opts, pages, report, afterID, chunks, next.value);
        if !opts.dryRun {
          HandledNext([], before, log, Flat(pages), chunks);
          StoredStays(world, opts.prefix, before, log, Flat(pages));
        }
        pages := pages + [chunks];
        report := next.value;
        afterID := chunks[|chunks| - 1].id;
      }
      RunEndsWell(world, opts, pages, log);
      r := Ok(report);
    }
  }

  lemma SomeKey(keys: set<int>)
    requires keys != {}
    ensures exists c :: c in keys
  {
    if forall c :: c !in keys {
      assert false;
    }
  }

  /** The groups of the first n chunks. */
  ghost predicate Grouped(byCompany: map<int, seq<Chunk>>, chunks: seq<Chunk>, n: nat)
    requires n <= |chunks|
  {
    forall c :: IsGroupOf(byCompany, chunks[..n], c)
  }

  predicate IsGroupOf(byCompany: map<int, seq<Chunk>>, chunks: seq<Chunk>, c: int) {
    if c in byCompany then byCompany[c] == Of(chunks, c) else Of(chunks, c) == []
  }

  lemma GroupedOneMore(byCompany: map<int, seq<Chunk>>, chunks: seq<Chunk>, n: nat)
    requires n < |chunks| && Grouped(byCompany, chunks, n)
    ensures var c := chunks[n].companyID;
            Grouped(byCompany[c := (if c in byCompany then byCompany[c] else []) + [chunks[n]]], chunks, n + 1)
  {
    var c := chunks[n].companyID;
    var next := byCompany[c := (if c in byCompany then byCompany[c] else []) + [chunks[n]]];
    var taken := chunks[..n + 1];
    forall d
      ensures IsGroupOf(next, taken, d)
    {
      assert IsGroupOf(byCompany, chunks[..n], d);
      OfOneMore(chunks, n, d);
    }
  }

  /** Every chunk's company has its group, in order. */
  method GroupByCompany(chunks: seq<Chunk>) returns (byCompany: map<int, seq<Chunk>>)
    ensures forall i | 0 <= i < |chunks| :: chunks[i].companyID in byCompany
    ensures forall c | c in byCompany :: byCompany[c] == Of(chunks, c)
  {
    byCompany := map[];
    for i := 0 to |chunks|
      invariant forall k | 0 <= k < i :: chunks[k].companyID in byCompany
      invariant Grouped(byCompany, chunks, i)
    {
      GroupedOneMore(byCompany, chunks, i);
      var c := chunks[i].companyID;
      byCompany := byCompany[c := (if c in byCompany then byCompany[c] else []) + [chunks[i]]];
    }
    assert chunks[..|chunks|] == chunks;
    assert forall c | c in byCompany :: IsGroupOf(byCompany, chunks, c);
  }

  function ReportOn(opts: Options, pages: seq<seq<Chunk>>): Report {
    var n := |Flat(pages)|;
    Report(n, if opts.dryRun then 0 else n, |pages|, if opts.dryRun then Runes(Flat(pages)) else 0)
  }

  lemma OfOneMore(chunks: seq<Chunk>, n: nat, company: int)
    requires n < |chunks|
    ensures Of(chunks[..n + 1], company)
         == if chunks[n].companyID == company then Of(chunks[..n], company) + [chunks[n]] else Of(chunks[..n], company)
  {
    assert chunks[..n + 1][..n] == chunks[..n];
  }

  /** A group's effects cover exactly its chunks. */
  lemma GroupIsCounted(opts: Options, before: seq<Effect>, known: set<string>, c: int, group: seq<Chunk>,
                       vectors: seq<Vector>, dim: int)
    requires |vectors| == |group|
    ensures var collection := Collection(opts.prefix, c);
            Handled(before,
                    before + (if collection in known then [] else [Ensure(collection, true)])
                    + [Upsert(collection, PointsOf(group, vectors, c), true)]
                    + [Mark(c, RefsOf(group, opts.model, dim), true)],
                    group)
  {
    var collection := Collection(opts.prefix, c);
    var prepared := before + if collection in known then [] else [Ensure(collection, true)];
    var upsert := Upsert(collection, PointsOf(group, vectors, c), true);
    var mark := Mark(c, RefsOf(group, opts.model, dim), true);
    assert before + [] == before;
    assert PointIds(upsert.points) == Ids(group) && RefIds(mark.refs) == Ids(group);
    forall id
      ensures Marked(prepared + [upsert] + [mark], id) == Marked(before, id) + Count(Ids(group), id)
      ensures Upserted(prepared + [upsert] + [mark], id) == Upserted(before, id) + Count(Ids(group), id)
    {
      LogOneMore(before, Ensure(collection, true), id);
      LogOneMore(prepared, upsert, id);
      LogOneMore(prepared + [upsert], mark, id);
    }
  }

  lemma LogOneMore(log: seq<Effect>, e: Effect, id: int)
    ensures Marked(log + [e], id) == Marked(log, id) + if e.Mark? then Count(RefIds(e.refs), id) else 0
    ensures Upserted(log + [e], id)
            == Upserted(log, id) + if e.Upsert? && e.ok then Count(PointIds(e.points), id) else 0
  {
    assert (log + [e])[..|log|] == log;
  }

  // ---------------------------------------------------------------- paging

  ghost predicate Ascending(chunks: seq<Chunk>) {
    forall i, j | 0 <= i < j < |chunks| :: chunks[i].id < chunks[j].id
  }

  ghost predicate IsPage(page: seq<Chunk>, after: int, limit: int) {
    |page| <= limit && Ascending(page) && forall i | 0 <= i < |page| :: after < page[i].id <= D.MAX_INT64
  }

  /** The source pages by ascending id above the last one, never beyond the limit. */
  ghost predicate WellBehaved(w: Oracles) {
    forall turn: nat, after, limit | limit > 0 && w.next(turn, after, limit).Ok? ::
             IsPage(w.next(turn, after, limit).value, after, limit)
  }

  function Flat(pages: seq<seq<Chunk>>): seq<Chunk> {
    if pages == [] then [] else Flat(pages[..|pages| - 1]) + pages[|pages| - 1]
  }

  /** The id the next page starts after. */
  function After(pages: seq<seq<Chunk>>): int {
    if pages == [] || pages[|pages| - 1] == [] then 0
    else pages[|pages| - 1][|pages[|pages| - 1]| - 1].id
  }

  /** How many chunks are asked for after these pages. */
  function Want(opts: Options, pages: seq<seq<Chunk>>): int {
    var batch := if opts.batchSize <= 0 then 64 else opts.batchSize;
    if opts.limit > 0 && |Flat(pages)| + batch > opts.limit then opts.limit - |Flat(pages)| else batch
  }

  predicate OfCompany(company: int, chunks: seq<Chunk>) {
    company > 0 ==> forall i | 0 <= i < |chunks| :: chunks[i].companyID == company
  }

  predicate Full(opts: Options, pages: seq<seq<Chunk>>) {
    opts.limit > 0 && |Flat(pages)| >= opts.limit
  }

  /** Each page is what the source answers after the ones before it. */
  predicate IsChain(w: Oracles, opts: Options, pages: seq<seq<Chunk>>) {
    pages == [] ||
    (var n := |pages| - 1;
     && IsChain(w, opts, pages[..n]) && !Full(opts, pages[..n])
     && w.next(n, After(pages[..n]), Want(opts, pages[..n])) == Ok(pages[n])
     && pages[n] != [] && OfCompany(opts.companyID, pages[n]))
  }

  /** Nothing is left to read, or the limit is reached. */
  predicate Ends(w: Oracles, opts: Options, pages: seq<seq<Chunk>>) {
    Full(opts, pages) || w.next(|pages|, After(pages), Want(opts, pages)) == Ok([])
  }

  function Runes(chunks: seq<Chunk>): nat {
    if chunks == [] then 0 else Runes(chunks[..|chunks| - 1]) + |chunks[|chunks| - 1].content|
  }

  lemma {:induction false} RunesOfBoth(a: seq<Chunk>, b: seq<Chunk>)
    ensures Runes(a + b) == Runes(a) + Runes(b)
  {
    if b == [] {
      assert a + b == a;
    } else {
      RunesOfBoth(a, b[..|b| - 1]);
      assert (a + b)[..|a + b| - 1] == a + b[..|b| - 1];
    }
  }

  /** What a dry run counts: the characters of the contents. */
  lemma RunesCountCharacters(chunks: seq<Chunk>, c: Chunk)
    ensures Runes([]) == 0 && Runes(chunks + [c]) == Runes(chunks) + |c.content|
  {
    assert (chunks + [c])[..|chunks|] == chunks;
  }

  lemma FlatOneMore(pages: seq<seq<Chunk>>, page: seq<Chunk>)
    ensures Flat(pages + [page]) == Flat(pages) + page
    ensures Runes(Flat(pages + [page])) == Runes(Flat(pages)) + Runes(page)
  {
    assert (pages + [page])[..|pages|] == pages;
    RunesOfBoth(Flat(pages), page);
  }

  lemma NextPage(w: Oracles, opts: Options, pages: seq<seq<Chunk>>, page: seq<Chunk>)
    requires WellBehaved(w) && IsChain(w, opts, pages) && !Full(opts, pages)
    requires w.next(|pages|, After(pages), Want(opts, pages)) == Ok(page) && page != []
               && OfCompany(opts.companyID, page)
    ensures IsChain(w, opts, pages + [page])
    ensures After(pages) < After(pages + [page]) == page[|page| - 1].id <= D.MAX_INT64
    ensures opts.limit > 0 ==> |Flat(pages)| + |page| <= opts.limit
  {
    assert (pages + [page])[..|pages|] == pages;
    assert IsPage(page, After(pages), Want(opts, pages));
  }

  /** Where a run stands between two pages. */
  predicate Reads(w: Oracles, opts: Options, pages: seq<seq<Chunk>>, report: Report, afterID: int) {
    IsChain(w, opts, pages) && afterID == After(pages) && afterID <= D.MAX_INT64 && report == ReportOn(opts, pages)
  }

  lemma ReportOneMore(opts: Options, pages: seq<seq<Chunk>>, page: seq<Chunk>)
    ensures Flat(pages + [page]) == Flat(pages) + page
    ensures var r := ReportOn(opts, pages);
            ReportOn(opts, pages + [page])
            == Report(r.chunks + |page|, r.points + if opts.dryRun then 0 else |page|, r.batches + 1,
                      r.runes + if opts.dryRun then Runes(page) else 0)
  {
    FlatOneMore(pages, page);
  }

  lemma ReadsOneMore(w: Oracles, opts: Options, pages: seq<seq<Chunk>>, report: Report, afterID: int, page: seq<Chunk>,
                     next: Report)
    requires WellBehaved(w) && Reads(w, opts, pages, report, afterID) && !Full(opts, pages)
    requires w.next(|pages|, After(pages), Want(opts, pages)) == Ok(page) && page != []
               && OfCompany(opts.companyID, page)
    requires next == Report(report.chunks + |page|, report.points + (if opts.dryRun then 0 else |page|),
                            report.batches + 1, report.runes + if opts.dryRun then Runes(page) else 0)
    ensures Reads(w, opts, pages + [page], next, page[|page| - 1].id) && afterID < page[|page| - 1].id
    ensures Flat(pages + [page]) == Flat(pages) + page
  {
    NextPage(w, opts, pages, page);
    ReportOneMore(opts, pages, page);
  }

  /** The chunks of a run's pages ascend strictly, and are never more than its limit. */
  lemma {:induction false} ChainIsAscending(w: Oracles, opts: Options, pages: seq<seq<Chunk>>)
    requires WellBehaved(w) && IsChain(w, opts, pages)
    ensures Ascending(Flat(pages)) && (opts.limit > 0 ==> |Flat(pages)| <= opts.limit)
    ensures forall i | 0 <= i < |Flat(pages)| :: 0 < Flat(pages)[i].id <= After(pages)
    ensures After(pages) >= 0
  {
    if pages != [] {
      var n := |pages| - 1;
      ChainIsAscending(w, opts, pages[..n]);
      assert IsPage(pages[n], After(pages[..n]), Want(opts, pages[..n]));
      LastIsHighest(pages[n], After(pages[..n]));
      assert After(pages[..n]) < pages[n][0].id <= After(pages);
    }
  }

  /** A run for one company reads no chunk of another. */
  lemma {:induction false} ChainIsOfCompany(w: Oracles, opts: Options, pages: seq<seq<Chunk>>)
    requires IsChain(w, opts, pages) && opts.companyID > 0
    ensures forall i | 0 <= i < |Flat(pages)| :: Flat(pages)[i].companyID == opts.companyID
  {
    if pages != [] {
      ChainIsOfCompany(w, opts, pages[..|pages| - 1]);
    }
  }

  lemma {:induction false} AscendingIdsCountOnce(ids: seq<int>, id: int)
    requires forall i, j | 0 <= i < j < |ids| :: ids[i] < ids[j]
    ensures Count(ids, id) == if id in ids then 1 else 0
  {
    if ids != [] {
      var earlier, last := ids[..|ids| - 1], ids[|ids| - 1];
      AscendingIdsCountOnce(earlier, id);
      assert ids == earlier + [last];
    }
  }

  /** Every one of these chunks was upserted once and marked once, and nothing else was. */
  ghost predicate OnceEach(log: seq<Effect>, chunks: seq<Chunk>) {
    forall id :: Upserted(log, id) == Marked(log, id) == if id in Ids(chunks) then 1 else 0
  }

  /** So a run that ends well upserts and marks each chunk of its pages exactly once. */
  lemma EachChunkOnce(w: Oracles, opts: Options, pages: seq<seq<Chunk>>, log: seq<Effect>)
    requires WellBehaved(w) && IsChain(w, opts, pages) && Handled([], log, Flat(pages))
    ensures OnceEach(log, Flat(pages))
  {
    ChainIsAscending(w, opts, pages);
    forall id ensures Upserted(log, id) == Marked(log, id) == if id in Ids(Flat(pages)) then 1 else 0 {
      AscendingIdsCountOnce(Ids(Flat(pages)), id);
    }
  }

  /** What a run that ends well has done with the chunks of its pages. */
  ghost predicate EndsWell(w: Oracles, opts: Options, pages: seq<seq<Chunk>>, log: seq<Effect>) {
    && (opts.companyID > 0 ==> forall i | 0 <= i < |Flat(pages)| :: Flat(pages)[i].companyID == opts.companyID)
    && (!opts.dryRun ==>
          && Handled([], log, Flat(pages)) && OnceEach(log, Flat(pages))
          && AllStored(w, opts.prefix, log, Flat(pages)))
  }

  lemma RunEndsWell(w: Oracles, opts: Options, pages: seq<seq<Chunk>>, log: seq<Effect>)
    requires WellBehaved(w) && IsChain(w, opts, pages)
    requires !opts.dryRun ==> Handled([], log, Flat(pages)) && AllStored(w, opts.prefix, log, Flat(pages))
    ensures EndsWell(w, opts, pages, log)
  {
    if !opts.dryRun {
      EachChunkOnce(w, opts, pages, log);
    }
    if opts.companyID > 0 {
      ChainIsOfCompany(w, opts, pages);
    }
  }

  lemma LastIsHighest(page: seq<Chunk>, after: int)
    requires page != [] && Ascending(page) && forall i | 0 <= i < |page| :: after < page[i].id
    ensures forall i | 0 <= i < |page| :: after < page[i].id <= page[|page| - 1].id
  {
  }

  lemma {:induction false} ChainGoesOn(w: Oracles, opts: Options, pages: seq<seq<Chunk>>, n: nat)
    requires n < |pages| && IsChain(w, opts, pages)
    ensures IsChain(w, opts, pages[..n]) && !Ends(w, opts, pages[..n])
    ensures w.next(n, After(pages[..n]), Want(opts, pages[..n])) == Ok(pages[n])
  {
    if n < |pages| - 1 {
      ChainGoesOn(w, opts, pages[..|pages| - 1], n);
      assert pages[..|pages| - 1][..n] == pages[..n];
    }
  }

  /** The id of the last chunk read before the k-th page; 0 in front of the first. */
  function LastRead(pages: seq<seq<Chunk>>, k: nat): int
    requires k <= |pages|
  {
    if k == 0 || pages[k - 1] == [] then 0 else pages[k - 1][|pages[k - 1]| - 1].id
  }

  lemma AfterIsLastRead(pages: seq<seq<Chunk>>, k: nat)
    requires k <= |pages|
    ensures After(pages[..k]) == LastRead(pages, k)
  {
    assert k > 0 ==> pages[..k][k - 1] == pages[k - 1];
  }

  /** What the k-th page was asked for: chunks behind the last one read, and no more than are still wanted. */
  lemma PagesAreAskedFor(w: Oracles, opts: Options, pages: seq<seq<Chunk>>, k: nat)
    requires k < |pages| && IsChain(w, opts, pages)
    ensures var batch, left := if opts.batchSize <= 0 then 64 else opts.batchSize,
                               opts.limit - |Flat(pages[..k])|;
            && (opts.limit > 0 ==> left > 0)
            && w.next(k, LastRead(pages, k), if 0 < opts.limit && left < batch then left else batch) == Ok(pages[k])
  {
    ChainGoesOn(w, opts, pages, k);
    AfterIsLastRead(pages, k);
  }

  lemma EndIsLast(w: Oracles, opts: Options, pages: seq<seq<Chunk>>, n: nat)
    requires n <= |pages| && IsChain(w, opts, pages) && Ends(w, opts, pages[..n])
    ensures n == |pages|
  {
    if n < |pages| {
      ChainGoesOn(w, opts, pages, n);
    }
  }

  /** The two runs read alike. */
  predicate ReadAlike(a: Options, b: Options) {
    a.companyID == b.companyID && a.batchSize == b.batchSize && a.limit == b.limit
  }

  lemma PrefixOneMore(p: seq<seq<Chunk>>, n: nat)
    requires 0 < n <= |p|
    ensures p[..n] == p[..n - 1] + [p[n - 1]]
  {
  }

  lemma {:induction false} ChainsAgree(w: Oracles, a: Options, b: Options, p: seq<seq<Chunk>>, q: seq<seq<Chunk>>,
                                       n: nat)
    requires n <= |p| && n <= |q| && ReadAlike(a, b) && IsChain(w, a, p) && IsChain(w, b, q)
    ensures p[..n] == q[..n]
  {
    if n > 0 {
      ChainsAgree(w, a, b, p, q, n - 1);
      ChainGoesOn(w, a, p, n - 1);
      ChainGoesOn(w, b, q, n - 1);
      PrefixOneMore(p, n);
      PrefixOneMore(q, n);
    }
  }

  lemma ChainIsNotShorter(w: Oracles, a: Options, b: Options, p: seq<seq<Chunk>>, q: seq<seq<Chunk>>)
    requires ReadAlike(a, b) && IsChain(w, a, p) && IsChain(w, b, q) && Ends(w, a, p) && |p| <= |q|
    ensures p == q
  {
    ChainsAgree(w, a, b, p, q, |p|);
    assert p[..|p|] == p;
    EndIsLast(w, b, q, |p|);
    assert q[..|q|] == q;
  }

  /** A dry run and a real run over the same source read the same pages, so report the same chunks and batches. */
  lemma DryRunSeesTheSame(w: Oracles, a: Options, b: Options, p: seq<seq<Chunk>>, q: seq<seq<Chunk>>)
    requires a == b.(dryRun := true) && !b.dryRun
    requires IsChain(w, a, p) && Ends(w, a, p) && IsChain(w, b, q) && Ends(w, b, q)
    ensures p == q && ReportOn(a, p).chunks == ReportOn(b, q).chunks && ReportOn(a, p).batches == ReportOn(b, q).batches
  {
    if |p| <= |q| {
      ChainIsNotShorter(w, a, b, p, q);
    } else {
      ChainIsNotShorter(w, b, a, q, p);
    }
  }

  // ---------------------------------------------------------------- a source that does not change

  /** The first rows above an id. */
  function PageOf(rows: seq<Chunk>, after: int, limit: int): seq<Chunk> {
    if rows == [] then []
    else if rows[0].id <= after then PageOf(rows[1..], after, limit)
    else if limit < |rows| then rows[..if limit < 0 then 0 else limit] else rows
  }

  lemma {:induction false} PageFromThere(rows: seq<Chunk>, t: nat, after: int, limit: int)
    requires t <= |rows| && forall i | 0 <= i < |rows| :: rows[i].id <= after <==> i < t
    requires limit > 0
    ensures PageOf(rows, after, limit) == if limit < |rows| - t then rows[t..t + limit] else rows[t..]
    decreases t
  {
    if t > 0 {
      PageFromThere(rows[1..], t - 1, after, limit);
    }
  }

  lemma CutAt(rows: seq<Chunk>, t: nat, after: int)
    requires t <= |rows| && Ascending(rows) && forall i | 0 <= i < |rows| :: 0 < rows[i].id
    requires after == if t == 0 then 0 else rows[t - 1].id
    ensures forall i | 0 <= i < |rows| :: rows[i].id <= after <==> i < t
  {
  }

  ghost predicate IsSource(w: Oracles, rows: seq<Chunk>) {
    && Ascending(rows) && (forall i | 0 <= i < |rows| :: 0 < rows[i].id <= D.MAX_INT64)
    && forall turn: nat, after, limit :: w.next(turn, after, limit) == Ok(PageOf(rows, after, limit))
  }

  /** What a run has read so far is a beginning of the source. */
  ghost predicate ReadsAhead(rows: seq<Chunk>, pages: seq<seq<Chunk>>) {
    && Flat(pages) <= rows
    && After(pages) == if Flat(pages) == [] then 0 else Flat(pages)[|Flat(pages)| - 1].id
  }

  lemma NextOfSource(rows: seq<Chunk>, w: Oracles, opts: Options, pages: seq<seq<Chunk>>)
    requires IsSource(w, rows) && ReadsAhead(rows, pages) && !Full(opts, pages)
    ensures var t, want := |Flat(pages)|, Want(opts, pages);
            want > 0 && w.next(|pages|, After(pages), want)
              == Ok(if want < |rows| - t then rows[t..t + want] else rows[t..])
  {
    var t := |Flat(pages)|;
    assert t > 0 ==> Flat(pages)[t - 1] == rows[t - 1];
    CutAt(rows, t, After(pages));
    PageFromThere(rows, t, After(pages), Want(opts, pages));
  }

  lemma OnePageAhead(rows: seq<Chunk>, pages: seq<seq<Chunk>>, want: int)
    requires pages != [] && pages[|pages| - 1] != [] && ReadsAhead(rows, pages[..|pages| - 1]) && want > 0
    requires var t := |Flat(pages[..|pages| - 1])|;
             pages[|pages| - 1] == if want < |rows| - t then rows[t..t + want] else rows[t..]
    ensures ReadsAhead(rows, pages) && |Flat(pages)| <= |Flat(pages[..|pages| - 1])| + want
  {
    var n := |pages| - 1;
    assert Flat(pages) == Flat(pages[..n]) + pages[n];
    assert Flat(pages)[|Flat(pages)| - 1] == pages[n][|pages[n]| - 1];
  }

  lemma {:induction false} ChainReadsAhead(w: Oracles, opts: Options, rows: seq<Chunk>, pages: seq<seq<Chunk>>)
    requires IsSource(w, rows) && IsChain(w, opts, pages)
    ensures ReadsAhead(rows, pages) && (opts.limit > 0 ==> |Flat(pages)| <= opts.limit)
  {
    if pages != [] {
      var n := |pages| - 1;
      ChainReadsAhead(w, opts, rows, pages[..n]);
      NextOfSource(rows, w, opts, pages[..n]);
      OnePageAhead(rows, pages, Want(opts, pages[..n]));
    }
  }

  /**
    Over a source that does not change, a run that ends well has handled exactly its rows, or the first `limit` of
    them.
   */
  lemma RunCoversTheSource(w: Oracles, opts: Options, rows: seq<Chunk>, pages: seq<seq<Chunk>>)
    requires IsSource(w, rows) && IsChain(w, opts, pages) && Ends(w, opts, pages)
    ensures Flat(pages) == if 0 < opts.limit < |rows| then rows[..opts.limit] else rows
  {
    ChainReadsAhead(w, opts, rows, pages);
    if !Full(opts, pages) {
      NextOfSource(rows, w, opts, pages);
    }
  }
}
