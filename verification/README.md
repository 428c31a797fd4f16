# A verified model of the support assistant's hard cores

The service answers support chat, takes in mail and retrieves knowledge-base articles. Most of it is
plumbing around HTTP, IMAP, databases and language models. This project models the parts whose
correctness spans loops, calls or whole runs, and proves what they promise. Every call into the outside
(a model, a mailbox, a store, the clock, cancellation) is an oracle: the proofs hold whatever it answers.

| module | models |
|---|---|
| `ConcurrentMap` | the worker pool of `concurrency.Map` as steps of a sender, its workers and the context, in every interleaving |
| `Text`, `PromptTemplate`, `PromptLoader` | prompt files: the line parser, the zone checks, the substitution of variables in an arbitrary order |
| `PromptOnePass` | that substitution against a single pass over the text |
| `ZoneSearch`, `PromptZones`, `PromptExamples` | what the zone checks mean: the search behind the lock, whole accepted files, and two files that show the limits |
| `JsonText` | the scan for a balanced JSON object, against the grammar of RFC 8259 (sections 2 to 7) |
| `MailPoll`, `MailWork`, `MailCounter` | the mailbox cursor over whole histories of polls, what one poll does with its listing, and when the failure counter is at the oldest pending message |
| `Perms`, `PendingStore`, `WriteProtocol`, `Orchestrator` | propose/confirm for writes: the store, the interleaved protocol, and the code refining it |
| `MemCache`, `Decimal`, `Budget`, `BudgetBounds` | the TTL cache as a timed map, the decimal text in it, the call budget built on both, and how far its limits carry |
| `Resilient`, `Routing` | circuit breaker, retries and backoff; routed fallback over candidates and streams |
| `Ranking`, `Retrieval`, `Decision` | rank fusion, the retrieval stages, the auto-send gate and what a cached result does to it |
| `Selector`, `ToolOrder` | choosing a tool under a preference that is no order, and when the order of the tools matters |
| `Indexing`, `BatchIngest`, `Chunking` | paging and upsert-before-mark, ingestion of keyed vectors, cutting texts and naming points |

Methods follow the code branch by branch; each is proved against a specification that does not mention its
loop, and the main results are lemmas about those specifications or about runs of any length.

Where the code does less than one might expect of it, the model keeps the code, gives a concrete counterexample,
and proves for which inputs the expectation does hold, as an if-and-only-if over all of them:

- the lock of a prompt survives exactly for keys no static text can hold a part of;
- after a later `@system` line the locked text survives a rendering without variables exactly if the last section
  ends in it (and any rendering with identifier keys if it ends there in whole lines and then that text);
- the search for a placeholder behind the lock is exact only for names whose placeholder does not overlap itself
  (without a later `@system` line the overlap does no harm);
- a rendering leaves no placeholder of a supplied identifier, whatever the order of the keys, exactly if a single pass
  over the text leaves none, for values without braces; stray braces around an empty value can form one;
- an object in a model's answer comes back unless the answer only looks like one object;
- a message that keeps failing is passed exactly once the polls that recorded their first attempt use up its tries,
  which without a writable state file never happens;
- the stored cursor never goes back, whatever a sane server and the network do, exactly if the state file can be read;
- the mail failure counter stays with the oldest pending message unless the poll that ended the bootstrap left a
  forwarded or read message between the cursor and it, or jumped over a counter still set;
- the per-request limit holds until the 32-bit counter wraps, the window's limit for cache reads up to the end of
  the window and not a nanosecond later;
- a call's reply agrees with what the breaker records unless `MaxRetries` is negative;
- the order of the tools decides unless one accepted tool is preferred over every other one;
- a cached result repeats its run's decision unless only the critic stood in the way;
- the next successful `SetNX` of a key is sure to come a lifetime after an earlier one exactly if that time has
  passed or the entry now standing holds out as long, whatever was written, deleted or evicted in between;
- chunk sizes keep within a thousand chunks, and points under ids of their own, exactly by default and from 60 on;
- point ids are equal exactly modulo 2^64.

## Model

| member | source | states |
|---|---|---|
| `ConcurrentMap.StepKeepsInv` | pkg/concurrency/map.go:23-75 | every step of the sender, a worker or the caller's context keeps the pool's invariant |
| `ConcurrentMap.NoDeadlock` | pkg/concurrency/map.go:41-73 | until the call has returned some step can be taken, provided calls of the function return |
| `ConcurrentMap.StepLowersRank` | pkg/concurrency/map.go:41-73 | every step lowers a natural number, so no interleaving runs forever |
| `ConcurrentMap.RunsAreBounded` | pkg/concurrency/map.go:10-84 | no run takes more than 3·inputs + workers + 4 steps |
| `ConcurrentMap.DispatchIsAPrefix` | pkg/concurrency/map.go:64-72 | in every reachable state the jobs handed over are a prefix of the inputs, each handed over once |
| `ConcurrentMap.HolesComeFromTheCaller` | pkg/concurrency/map.go:77-83 | an error-free result has an unwritten slot only if the caller cancelled |
| `ConcurrentMap.EveryReplyIsCorrect` | pkg/concurrency/map.go:72-83 | every run that returns has no worker left; it returns a call error exactly if a call failed, and then the one of the worker that reported first in the schedule; every slot written holds a value the function may give for its input |
| `ConcurrentMap.FirstErrorWins` | pkg/concurrency/map.go:28-39 | if the k-th step of a schedule is the first in which a worker reports an error, the run returns the error that worker was holding in the state before it, whoever reports later |
| `ConcurrentMap.EveryValueIsFromItsCall` | pkg/concurrency/map.go:53-58 | every value of a result is what some call for the input at that very index gave back in the run |
| `ConcurrentMap.ContextDecides` | pkg/concurrency/map.go:11-16 | there are as many workers as asked for, or one; a deadline is returned only if the caller's context expired and nobody reported an error; without its cancellation a result has no hole |
| `ConcurrentMap.Map` | pkg/concurrency/map.go:10-84 | under any scheduler the pool reaches its return, by a run of the state machine, with a correct reply that carries the first error reported |
| `Text.ReplaceStopsAtLineEnd` | internal/ai/prompts/template.go:55-61 | replacing in whole lines followed by a tail changes the lines alone, if the needle neither occurs in the tail nor reaches into it |
| `Text.ReplaceAllMeans` | internal/ai/prompts/template.go:58 | however the text is cut at the leftmost occurrences that do not overlap, into parts that hold no occurrence, replacing all joins the same parts with the value |
| `Text.SplitExists` | internal/ai/prompts/template.go:58 | every text can be cut like that |
| `PromptTemplate.VarPatternIsExact` | internal/ai/prompts/loader.go:165 | the matcher finds the variable pattern at an offset exactly where its grammar matches |
| `PromptTemplate.Substitute` | internal/ai/prompts/template.go:55-61 | the result is that of replacing every key once, in some order nobody chose |
| `PromptTemplate.Render` | internal/ai/prompts/template.go:27-53 | fails exactly on the required variables that are missing or blank, naming all of them, else substitutes in both bodies |
| `PromptOnePass.NoneIsLeftExactly` | internal/ai/prompts/template.go:55-61 | with identifiers as keys and values without braces no rendering, in any order, leaves a placeholder of a supplied key, if and only if a single pass over the text from left to right leaves none |
| `PromptOnePass.RenderingIsOnePass` | internal/ai/prompts/template.go:55-61 | and then every rendering is that single pass, so the order does not matter |
| `PromptOnePass.CoveredTextIsRenderedOut` | internal/ai/prompts/template.go:55-61 | a text whose braces all belong to placeholders of supplied keys is rendered in one way, with no brace left |
| `PromptOnePass.PlaceholderCanBeFormed` | internal/ai/prompts/template.go:57-59 | a text with stray braces around a placeholder with an empty value, whose rendering leaves the placeholder of a supplied key |
| `PromptTemplate.StaticTailSurvives` | internal/ai/prompts/template.go:55-61 | behind whole lines a text without variables survives any values, in any order, for safe keys |
| `PromptTemplate.IdentifiersAreSafe` | internal/ai/prompts/loader.go:165 | identifiers are safe keys |
| `PromptTemplate.SafeKeysAreExact` | internal/ai/prompts/template.go:55-61 | exactly the safe keys leave every static tail alone: for any other key there is a tail it damages |
| `PromptLoader.Parse` | internal/ai/prompts/loader.go:68-163 | a source is accepted exactly if every line is and the final checks pass, and then yields the template of the last sections |
| `PromptLoader.ValidateZones` | internal/ai/prompts/loader.go:173-205 | accepted exactly if every tenant variable occurs, the search finds none of them behind the lock, and the locked zone holds no variable |
| `PromptLoader.CheckTenantVar` | internal/ai/prompts/loader.go:183-200 | one tenant variable is accepted only if it occurs; if its placeholder does not overlap itself, exactly if moreover none of its occurrences in the system text starts behind the lock |
| `ZoneSearch.FindBehindLock` | internal/ai/prompts/loader.go:188-199 | what the search reports does start behind the lock; for a placeholder that does not overlap itself it reports one exactly if there is one |
| `ZoneSearch.SearchIsExactWithoutOverlap` | internal/ai/prompts/loader.go:188-199 | the search finds what starts behind the lock, in every text and for every lock, if and only if the placeholder does not overlap itself |
| `ZoneSearch.NothingOfOneLineIsLeaptOver` | internal/ai/prompts/loader.go:198 | a placeholder without a newline is found behind a lock that ends a line, overlap or not |
| `PromptLoader.AcceptedSourceIsCutAtTheLock` | internal/ai/prompts/loader.go:94-163 | in an accepted source the lock offset lies at the end of a line, and the text behind it is what the author wrote there |
| `PromptLoader.LockedZoneSurvives` | internal/ai/prompts/loader.go:94-205 | for every accepted source without a later @system line, every value and every order, the text behind @locked comes out of rendering verbatim and at the end |
| `PromptLoader.RenderedPromptsKeepTheLock` | internal/ai/prompts/template.go:41 | so every rendered system prompt ends in the locked text, for every map with identifier keys |
| `PromptLoader.LaterSystemSectionReplacesTheLockedText` | internal/ai/prompts/loader.go:103-109 | a later @system line is accepted and replaces the locked text altogether |
| `PromptLoader.NoPlaceholderBehindTheLock` | internal/ai/prompts/loader.go:201-203 | no placeholder of any identifier, declared or not, starts behind the lock of an accepted template |
| `PromptZones.TenantVarsStayInFrontOfTheLock` | internal/ai/prompts/loader.go:167-200 | in every accepted source without a later @system line each occurrence of each tenant variable, whatever its name, starts in front of the lock |
| `PromptZones.LockedTextSurvivesOnlyByChance` | internal/ai/prompts/loader.go:103-109 | after a later @system line, rendered without variables, the prompt ends in the locked text exactly if the last section does |
| `PromptZones.LockedTextSurvivesBehindWholeLines` | internal/ai/prompts/loader.go:103-109 | after a later @system line every rendering with identifier keys ends in the locked text, if the last section is whole lines followed by it and it holds no variable |
| `PromptExamples.LockedTextCanBeLost` | internal/ai/prompts/loader.go:101-124 | a source that is accepted and whose rendered prompt does not end in its locked text |
| `PromptExamples.TenantVarCanStandBehindTheLock` | internal/ai/prompts/loader.go:188-199 | a source that is accepted although a tenant variable starts at the lock, leapt over because its placeholder overlaps itself |
| `JsonText.IndexBrace` | internal/ai/rag/jsontext.go:25-28 | the first opening brace, or none |
| `JsonText.ScanObject` | internal/ai/rag/jsontext.go:30-52 | the length after which braces outside strings first balance, or none |
| `JsonText.ExtractJSONObject` | internal/ai/rag/jsontext.go:19-54 | the shortcut's text, else the balanced object at the first brace, else the input unchanged |
| `JsonText.ValuesAreLevel` | internal/ai/rag/jsontext.go:33-52 | every value of the JSON grammar leaves the scanner's depth and string state as it found them and never goes below |
| `JsonText.ObjectIsFirstBalance` | internal/ai/rag/jsontext.go:33-52 | the scanner stops at the last character of a JSON object, whatever follows |
| `JsonText.ObjectIsRecovered` | internal/ai/rag/jsontext.go:19-54 | any object behind prose without a brace comes back exactly if and only if the prose is not blank or the rest does not end in a brace |
| `MailPoll.FilterAbove` | cmd/mailpoll/main.go:135-143 | the listed UIDs above the cursor, in order |
| `MailPoll.Poller.SkipUid` | cmd/mailpoll/main.go:205-222 | gives up exactly at the configured number of consecutive failures of one UID, and records either outcome |
| `MailPoll.Poller.ProcessUids` | cmd/mailpoll/main.go:160-192 | the loop refines its recursive description, which `MailWork` ties to the listing |
| `MailPoll.Poller.PollOnce` | cmd/mailpoll/main.go:100-198 | one poll refines the function of the oracles' answers that the histories below are made of; `MailWork.PollWorksThrough` says what that function does |
| `MailWork.PollWorksThrough` | cmd/mailpoll/main.go:100-198 | a poll that gets its listing takes what the search found, in steady state above the cursor, in ascending order and skipping none, until the cap, a cancelled turn or a failure with a try left; log and state file are given in terms of the listing, the outcomes and the last write that went through |
| `MailWork.SteadyPollWorksThrough` | cmd/mailpoll/main.go:160-191 | in steady state the attempts are exactly the oldest pending messages, in order; if every write went through the stored cursor is the last message forwarded, rejected or given up |
| `MailWork.UndisturbedPollLeavesNothing` | cmd/mailpoll/main.go:160-191 | an undisturbed poll without a cap leaves nothing pending, if and only if no message due fails with a try left |
| `MailPoll.LoopIsHonest` | cmd/mailpoll/main.go:160-192 | within a poll the cursor passes a UID only once it is forwarded, rejected or failed often enough in a row |
| `MailPoll.PollIsHonest` | cmd/mailpoll/main.go:100-198 | a poll moves the cursor past no UID of the mailbox that is not so resolved |
| `MailPoll.RunIsHonest` | cmd/mailpoll/main.go:100-198 | so does every sequence of polls |
| `MailPoll.NoMessageIsLost` | cmd/mailpoll/main.go:116-198 | after any sequence of polls of one mailbox every UID behind the cursor was resolved, or had been read when the bootstrap looked |
| `MailPoll.SteadyCursorNeverGoesBack` | cmd/mailpoll/main.go:160-191 | in steady state the stored cursor never decreases, as long as the state file can be read |
| `MailPoll.CursorIsSafeExactlyIfRead` | cmd/mailpoll/main.go:45-53 | over all polls of a sane server the stored cursor never decreases if and only if the state file can be read |
| `MailPoll.SteadyPollProgress` | cmd/mailpoll/main.go:135-191 | a poll that reaches and records its first message passes the oldest pending one or counts a failure against it |
| `MailPoll.RankDrops` | cmd/mailpoll/main.go:135-191 | the pair (pending messages, tries left) drops lexicographically whenever the file changes |
| `MailPoll.PassedExactlyAtTheLimit` | cmd/mailpoll/main.go:200-222 | all series of polls with r recorded first attempts, whatever failed dials, cancellations and lost writes lie between them, take the cursor past the oldest pending message, while the state file can be read, if and only if r is positive and uses up the tries left |
| `MailPoll.UnwritableStateBlocksForEver` | cmd/mailpoll/main.go:205-222 | if the state file never takes a write no number of failures moves the cursor |
| `MailCounter.CounterAfterBootstrap` | cmd/mailpoll/main.go:160-196 | a poll that ends the bootstrap leaves the counter zero or at the oldest pending message and below the limit, if and only if no forwarded or read message lies between the last one rejected or given up and the failing one, and the cursor does not jump with the counter still set |
| `MailCounter.CounterAtHeadExactlyWithoutAGap` | cmd/mailpoll/main.go:116-222 | from a fresh state, through any polls of one mailbox: exactly then it is so after every later poll, as long as the state file can be read |
| `MailCounter.BootstrapCanLeaveTheCounterElsewhere` | cmd/mailpoll/main.go:170-177 | one such poll, with a message read before in between |
| `PendingStore.Store.Put` | internal/application/skeleton/pending.go:40-62 | the sweep drops the expired entries and nothing else, and the new entry is of the actor's company and user and lives for ten minutes |
| `PendingStore.Store.Take` | internal/application/skeleton/pending.go:64-79 | hands out an entry exactly if it is present, of the actor's company and user and no older than its expiry; it is gone either way |
| `Perms.CanMeans` | internal/shared/perms/perms.go:49-62 | a permission is granted exactly if none is needed, or the star, the permission itself or a wildcard over its stem is among the grants |
| `WriteProtocol.StepKeepsInv` | internal/application/skeleton/orchestrator.go:163-247 | every atomic call of any of the concurrent requests keeps the protocol's invariant |
| `WriteProtocol.EveryWriteIsConfirmed` | internal/application/skeleton/pending.go:81-116 | with a pending store no write runs from a selection: each has, in this order, an audited proposal, a Put of the same tool and parameters, a Take within ten minutes, a permission check and an execution audit; proposer, stored entry and the one who takes and runs it agree in company and user |
| `WriteProtocol.EachIdExecutesOnce` | internal/application/skeleton/pending.go:64-79 | two writes backed by a Take of the same id are the same write |
| `WriteProtocol.WithoutStoreWritesRunAtOnce` | internal/application/skeleton/orchestrator.go:239-241 | without a pending store a write runs straight after its audit |
| `Orchestrator.Orchestrator.AuditWrite` | internal/application/skeleton/orchestrator.go:228-247 | nothing is stored unless the audit went through, and nothing runs |
| `Orchestrator.Orchestrator.ExecuteSelection` | internal/application/skeleton/orchestrator.go:163-186 | as steps of the protocol: the handler runs, once and with the selection's parameters, exactly for a read tool with a handler or, without a pending store, an audited write, and not for a handler that needs coverage the actor lacks; with a pending store a write is only proposed |
| `Orchestrator.Orchestrator.ExecuteTaken` | internal/application/skeleton/pending.go:90-110 | with the entry in hand the handler runs exactly if tool, permission, handler and audit are in order |
| `Orchestrator.Orchestrator.Confirm` | internal/application/skeleton/pending.go:81-116 | as steps of the protocol: the id is spent, and the handler runs with the stored parameters exactly if everything before it went through |
| `Orchestrator.Orchestrator.ProposeThenConfirm` | internal/application/skeleton/pending.go:64-116 | a stored proposal confirmed some time later by anybody: the handler runs, once and with the proposed parameters, exactly if company and user are the proposer's, within ten minutes and with permission, handler and audit in order; otherwise nothing runs, and the id is spent either way |
| `MemCache.Cache.constructor` | internal/infra/memcache/memcache.go:26-35 | an empty cache with a positive bound |
| `MemCache.Cache.Get` | internal/infra/memcache/memcache.go:37-51 | a hit is a fresh copy of an unexpired entry; an expired one goes |
| `MemCache.Cache.Set` | internal/infra/memcache/memcache.go:53-62 | stores a copy, in a new array, under its lifetime, dropping only what making room may drop |
| `MemCache.ScribblingChangesNothing` | internal/infra/memcache/memcache.go:105-109 | overwriting the buffer one stored, or the one one got back, does not change what the next Get returns |
| `MemCache.Cache.SetNX` | internal/infra/memcache/memcache.go:73-85 | writes exactly if no unexpired entry stands there |
| `MemCache.Cache.Delete` | internal/infra/memcache/memcache.go:64-71 | removes exactly the named keys |
| `MemCache.Cache.MakeRoom` | internal/infra/memcache/memcache.go:87-103 | drops nothing unless the table is full and the key new, then the expired entries, or else a single one |
| `MemCache.GetReturnsTheLatestWrite` | internal/infra/memcache/memcache.go:37-51 | over any history a Get answers exactly the bytes of the latest write not deleted or evicted since, up to its expiry |
| `MemCache.SetNXWaitsForTheLatestWrite` | internal/infra/memcache/memcache.go:73-85 | over any history SetNX succeeds exactly if there is no such write or its lifetime has passed |
| `MemCache.SetNXAreApartExactly` | internal/infra/memcache/memcache.go:53-103 | after any history the next successful SetNX of a key comes at least the lifetime after an earlier success, if and only if that time has passed already or the latest write not removed since lasts that long |
| `MemCache.SetShortensTheDistance` | internal/infra/memcache/memcache.go:53-62 | an instance: behind a SetNX for 100 and a Set for 1 the next success comes after 3 |
| `MemCache.EvictionNeedsAFullTable` | internal/infra/memcache/memcache.go:87-103 | an unexpired entry is evicted only for a new key and from a table full of unexpired entries |
| `MemCache.RunStaysBounded` | internal/infra/memcache/memcache.go:87-103 | over any history the cache never outgrows its limit |
| `Decimal.ParseOfFormat` | internal/application/services/vectorindex/batch.go:33-51 | every 64-bit integer survives the trip through its decimal text |
| `Decimal.SplitOfJoin` | internal/application/services/vectorindex/batch.go:38 | splitting at a separator gives back the part in front of it |
| `BudgetBounds.AskAgain` | internal/ai/budget/budget.go:53-62 | n calls of AllowRequest on one counter pass at most the maximum if and only if n is below 2^31 or within the maximum |
| `BudgetBounds.AcquireAgain` | internal/ai/budget/budget.go:46-62 | calls of Acquire on one counter grant no more than that, whatever the company's window adds |
| `Budget.CounterCountsCalls` | internal/ai/budget/budget.go:61 | the counter after k calls reads k wrapped to 32 bits |
| `Budget.KeysAreDistinct` | internal/ai/budget/budget.go:69 | different companies and buckets count under different keys |
| `Budget.BucketFitsTheWindow` | internal/ai/budget/budget.go:68 | a moment lies in its bucket, and less than a window after its opening |
| `Budget.CountIsReadBack` | internal/ai/budget/budget.go:78-87 | a stored count is read back as itself |
| `Budget.Limiter.AllowRequest` | internal/ai/budget/budget.go:53-62 | counts and compares exactly when there is a limit and a counter |
| `Budget.Limiter.AllowWindow` | internal/ai/budget/budget.go:64-94 | one check is a call of the kind the histories are made of; a window below one second panics |
| `Budget.Limiter.Acquire` | internal/ai/budget/budget.go:46-51 | a request over its own limit touches no company's count, any other is checked against the window |
| `Budget.OthersLeave` | internal/ai/budget/budget.go:71-88 | other uses of the cache leave a count alone unless they write, delete or evict it |
| `Budget.OtherCallsLeave` | internal/ai/budget/budget.go:69-88 | so do calls of other companies and in other buckets |
| `Budget.WindowLimitHolds` | internal/ai/budget/budget.go:64-94 | over any sequential history without eviction of the count a company gets at most the maximum per bucket, and no refusal before it is used up |
| `Budget.OneReadingIsPrompt` | internal/ai/budget/budget.go:68-71 | with one clock reading per call every call reads the cache in time for that |
| `BudgetBounds.StalledReadBreaksTheLimit` | internal/ai/budget/budget.go:68-71 | for every limit, company and bucket one read a nanosecond after the window's end can be one grant too many |
| `BudgetBounds.PromptIsTheBoundary` | internal/ai/budget/budget.go:64-94 | all histories whose calls read the cache by the end of the bucket's window plus some slack keep the limit, if and only if the slack is not positive |
| `Resilient.Breaker.Allow` | internal/infra/llm/resilient.go:195-206 | answers from the history of questions and outcomes alone |
| `Resilient.Breaker.RecordFailure` | internal/infra/llm/resilient.go:208-221 | keeps: not closed exactly if the failures since the last success reach the threshold, opened at the latest of them |
| `Resilient.Breaker.RecordSuccess` | internal/infra/llm/resilient.go:223-228 | closes, keeping the same |
| `Resilient.HalfOpenIsInvisible` | internal/infra/llm/resilient.go:195-228 | under every interleaving allow answers yes exactly if the failures since the last success are below the threshold or the latest is a cooldown old |
| `Resilient.AdmitsExactly` | internal/infra/llm/resilient.go:195-228 | under every interleaving a question is admitted exactly if fewer failures than the threshold stand behind the latest success, or each of these is at least a cooldown old |
| `Resilient.RefusesDuringTheCooldown` | internal/infra/llm/resilient.go:195-228 | from the failure that reaches the threshold every question within the cooldown is refused unless a success intervenes |
| `Resilient.WaitsGrowToTheCeiling` | internal/infra/llm/resilient.go:151-162 | backoffs never shrink, honour the server's delay up to the ceiling and never exceed it |
| `Resilient.WaitsDouble` | internal/infra/llm/resilient.go:151-162 | the first backoff is the base, each one twice the one before, up to the ceiling; the server's delay, cut at the ceiling, is waited for if it is longer |
| `Resilient.Resilient.Retry` | internal/infra/llm/resilient.go:109-125 | at most maxRetries+1 attempts, each but the last failed with a rate limit or a server error and followed by a finished backoff of the length due, the server's delay included |
| `Resilient.RetryRunMeans` | internal/infra/llm/resilient.go:109-129 | in terms of the outcomes: which attempts are retried, that the last may not be, and that its answer or error is the caller's |
| `Resilient.RetryRunIsUnique` | internal/infra/llm/resilient.go:109-125 | the world determines the number of attempts |
| `Resilient.Resilient.Call` | internal/infra/llm/resilient.go:97-129 | an admitted call records exactly one outcome at its end whatever others do meanwhile, a success exactly if an attempt succeeded |
| `Resilient.Resilient.Stream` | internal/infra/llm/resilient.go:85-95 | a stream asks the breaker but records nothing |
| `Resilient.ReplyMatchesTheRecord` | internal/infra/llm/resilient.go:109-129 | the caller is told of an error exactly if a failure is recorded, if and only if maxRetries is not negative |
| `Resilient.ExhaustionReturnsTheLastError` | internal/infra/llm/resilient.go:109-129 | on exhaustion the caller gets the error of the last of maxRetries+1 attempts |
| `Routing.Call` | internal/infra/llm/routed_provider.go:52-89 | resolves exactly the candidates the route gets to, records each once, and answers for the last |
| `Routing.Stream` | internal/infra/llm/routed_provider.go:91-154 | the same for streams, with the record of an opened one written at its end |
| `Routing.RouteFailure` | internal/infra/llm/routed_provider.go:166-201 | which errors fall into which class, class by class |
| `Routing.RouteError` | internal/infra/llm/routed_provider.go:203-212 | which errors the caller sees as rate limited, which as unavailable |
| `Routing.ResolvesMeans` | internal/infra/llm/routed_provider.go:57-87 | in terms of what happened at each candidate: every one resolved was reached with the context alive and an attempt left, all but the last were disabled or failed in a class to fall back on with the context alive, and why the route ends |
| `Routing.CalledAnswers` | internal/infra/llm/routed_provider.go:52-89 | the fields of every record, and of the reply: the answer of a last candidate that succeeded, the code of its error or of the context's, or unavailable |
| `Routing.StreamedRecords` | internal/infra/llm/routed_provider.go:91-154 | the fields of every record of a stream; it is answered exactly if the last candidate resolved opened one, whose record carries the last usage and how it ended |
| `Routing.Pump` | internal/infra/llm/routed_provider.go:123-145 | chunks are handed on in order, completed with the candidate's names, none after the end; the last chunk received gives the usage |
| `Routing.RouteIsFirstSuccess` | internal/infra/llm/routed_provider.go:52-89 | a route answers with the first success among its first MaxAttempts enabled candidates |
| `Routing.ResolvesIsUnique` | internal/infra/llm/routed_provider.go:57-87 | the world determines how far a route gets |
| `Routing.ResolvedWasReached` | internal/infra/llm/routed_provider.go:57-87 | before a resolved candidate every other was disabled, or failed in a class to fall back on with the context alive |
| `Routing.AttemptsAreCapped` | internal/infra/llm/routed_provider.go:57-87 | never more attempts than allowed, and nothing after a success |
| `Routing.CandidateCompletion` | internal/infra/llm/routed_provider.go:156-164 | model and vendor are the provider's where it gave them and the candidate's where it did not; nothing else changes |
| `Routing.SelectCandidates` | internal/infra/llm/routing.go:143-169 | the first candidate that matches and offers the pin, in front of the others in their order, or alone without substitution; an unreadable connection or none is an error |
| `Routing.ResolveAndCall` | internal/infra/llm/routing.go:96-141 | with a pin and no substitution nothing but the pin is ever asked or recorded |
| `Ranking.SortedSorts` | internal/ai/rag/rrf.go:37-42 | the sort orders its input and loses nothing |
| `Ranking.BestIsMaximal` | internal/ai/rag/rrf.go:20-24 | an id has a representative exactly if it occurs, and no occurrence has a higher original score |
| `Ranking.LessMeans` | internal/ai/rag/rrf.go:38-40 | ids are ordered by the first difference, the shorter first if there is none |
| `Ranking.ScoreMeans` | internal/ai/rag/rrf.go:15-29 | an id scores nothing where it does not stand, the reciprocal of 61 plus its index in each place, and the sum over the sets |
| `Ranking.FusionKeepsTheRepresentative` | internal/ai/rag/rrf.go:19-36 | whoever comes out is, but for the score, the first of the highest-scored places of its id |
| `Ranking.RrfMerge` | internal/ai/rag/rrf.go:7-44 | exactly the non-empty ids, each once, under the sum of its contributions, strictly ordered by score and id |
| `Ranking.Collect` | internal/ai/rag/rrf.go:31-36 | the entries in whatever order the map gives them, none lost or doubled |
| `Ranking.FusionIsUnique` | internal/ai/rag/rrf.go:31-43 | the result does not depend on the order of the map |
| `Ranking.FusionIgnoresSetOrder` | internal/ai/rag/rrf.go:14-30 | permuting the sets leaves the sequence of ids and scores as it is |
| `Ranking.DominanceIsKept` | internal/ai/rag/rrf.go:14-30 | what stands ahead in every set where the other appears comes out ahead, if no set holds the other twice |
| `Retrieval.RetrievalQueriesForPlan` | internal/ai/rag/pipeline_retrieve.go:134-157 | every planned text that is not blank is covered, no two alike after canonicalisation; the query's own text if there is none |
| `Retrieval.RetrieveFrom` | internal/ai/rag/pipeline_retrieve.go:159-194 | the fusion of what the retrievers found |
| `Retrieval.RetrieveFastDraft` | internal/ai/rag/pipeline_retrieve.go:102-132 | the expensive retrievers are asked only if the cheap ones find nothing |
| `Retrieval.RetrieveCandidates` | internal/ai/rag/pipeline_retrieve.go:68-100 | several planned queries are searched one by one and fused; a single one gives way to the query's own text |
| `Retrieval.WithParent` | internal/ai/rag/context_assembler.go:119-138 | the parent's context keeps the score, and a named candidate stays named |
| `Retrieval.RowOfChild` | internal/ai/rag/context_assembler.go:54-60 | the row used for a chunk is the last one that names it |
| `Retrieval.Collapse` | internal/ai/rag/context_assembler.go:62-85 | candidates with equal keys become one: the first of them, under the highest score |
| `Retrieval.DescendingIsNotRaised` | internal/ai/rag/context_assembler.go:76-81 | on a list that never rises no score is raised and the order survives |
| `Retrieval.Assemble` | internal/ai/rag/context_assembler.go:26-86 | fails only with the context; else keeps or collapses the candidates, named, distinct and in order |
| `Retrieval.RerankedIsRanked` | internal/ai/rag/rerank.go:11-26 | reranking loses no candidate and ends in strict order |
| `Retrieval.LexicalScoreCounts` | internal/ai/rag/rerank.go:28-37 | a candidate gains the number of terms found in its title and content |
| `Retrieval.Rerank` | internal/ai/rag/rerank.go:11-26 | each candidate gains the number of terms found in it, then all are sorted |
| `Retrieval.Retrieve` | internal/ai/rag/pipeline_retrieve.go:14-66 | whatever the query, mode and stages, the candidates come out named, once each, in order and within a positive limit, each stage made of the one before |
| `Decision.DecisionFor` | internal/ai/rag/pipeline_decision.go:155-172 | auto exactly for graded confidence at the threshold, escalate exactly below both bounds |
| `Decision.ComputeConfidence` | internal/ai/rag/pipeline_decision.go:127-153 | between 0 and 1, positive only with a candidate, and the check's own score if it has one |
| `Decision.UnscoredVerdicts` | internal/ai/rag/pipeline_decision.go:127-172 | without a score a relevant verdict sends, if graded, up to a threshold of 0.9 and a partial one up to 0.7, and neither is handed off; any other is |
| `Decision.State.Evaluate` | internal/ai/rag/pipeline_decision.go:13-36 | fails exactly if the relevance check is made and fails; else verdict, confidence and first decision follow from its result |
| `Decision.State.Generate` | internal/ai/rag/pipeline_generate.go:12-54 | ends in auto exactly if the whole gate is passed, and never raises the decision |
| `Decision.RunFresh` | internal/ai/rag/pipeline_decision.go:38-72 | what an uncached run stores, as a function of what the outside answered; it satisfies the relation the results on hits assume |
| `Decision.SentExactly` | internal/ai/rag/pipeline_decision.go:38-72 | an uncached run ends in auto exactly if the check was made, graded and confident enough, candidates, relevance and a draft were there, and the critic, with the budget's leave, agreed or was not needed; it is handed off exactly for want of confidence or of a draft |
| `Decision.DecideCached` | internal/ai/rag/pipeline_plan.go:42-56 | the decision of a cache hit |
| `Decision.CachedAutoMeans` | internal/ai/rag/pipeline_plan.go:51-54 | a hit sends exactly for graded confidence at the day's threshold and a draft, and then has candidates and relevance; it is handed off exactly for want of confidence or of a draft |
| `Decision.HitRepeatsTheRun` | internal/ai/rag/pipeline_plan.go:51-54 | under the same threshold a hit repeats the run's decision exactly unless only the critic or its budget stood in the way |
| `Decision.HitOverridesTheCritic` | internal/ai/rag/pipeline_plan.go:51-54 | what a run stores for a draft the critic refused is sent by the next hit |
| `Selector.ThresholdsFor` | internal/application/tools/selector.go:74-91 | both thresholds are positive, the floor not above the other; configured ones are kept, and 0.62 for writes, 0.55 and 0.35 are the defaults |
| `Selector.SimilarityIsGreatest` | internal/application/tools/selector.go:210-215 | the greatest similarity of a tool's anchors, never below zero |
| `Selector.Select` | internal/application/tools/selector.go:168-298 | answers from the two largest scores and the three folds over the tools the granted patterns permit, and fails exactly if a lookup near enough does |
| `Selector.Weigh` | internal/application/tools/selector.go:226-268 | what one tool does to the three folds |
| `Selector.OneMoreScore` | internal/application/tools/selector.go:220-224 | the two running maxima stay the two largest scores |
| `Selector.WinnerHasMostEntities` | internal/application/tools/selector.go:249-268 | there is a winner exactly if a tool is accepted, it is an accepted tool, and none accepted has more entities |
| `Selector.NearMissIsHighest` | internal/application/tools/selector.go:226-228 | the near miss is the first tool of the highest score, if any tool scores at all |
| `Selector.NeedsParamsIsHighest` | internal/application/tools/selector.go:230-245 | parameters are asked for the first tool of the highest score among those near enough whose lookup left some open |
| `Selector.PreferenceCycles` | internal/application/tools/selector.go:101-114 | three selections each preferred over the next, all the way round |
| `Selector.OrderDecides` | internal/application/tools/selector.go:266-268 | the same tools in another order have another winner |
| `ToolOrder.OrderMattersExactlyWithoutAChampion` | internal/application/tools/selector.go:101-114 | for tools with distinct ids every order has the same winner, if and only if none is accepted or one accepted tool is preferred over every other accepted one and none over it |
| `Selector.MatchedLeadsByTheMargin` | internal/application/tools/selector.go:271-297 | with a margin and two permitted tools a winner is answered exactly if it leads every other by the margin |
| `Selector.OnlyPermittedToolsCount` | internal/application/tools/selector.go:203-207 | but for the flag the answer is the one for the permitted tools alone |
| `Indexing.CollectionsAreApart` | internal/application/services/vectorindex/indexer.go:178 | two companies never share a collection |
| `Indexing.MarkedWasUpserted` | internal/application/services/vectorindex/indexer.go:170-200 | on every path, into errors too, what was marked or tried to be had been upserted |
| `Indexing.Indexer.IndexGroup` | internal/application/services/vectorindex/indexer.go:177-198 | ensures once; the embedding request holds the contents of the group's chunks in order; the upsert that follows holds, for the i-th chunk, its ids and index under the i-th vector of that answer; then the mark of exactly these points |
| `Indexing.Indexer.IndexChunks` | internal/application/services/vectorindex/indexer.go:170-200 | whatever the order of companies each chunk of the page is upserted and marked once |
| `Indexing.GroupByCompany` | internal/application/services/vectorindex/indexer.go:171-174 | the chunks of each company, in order |
| `Indexing.Indexer.Run` | internal/application/services/vectorindex/indexer.go:64-126 | terminates over a well-behaved source; marks follow upserts into the company's own ensured collection; a run that ends well handled exactly the chunks of its pages, all of the company asked for, and each was stored in its company's collection under the vector given for its own content; a dry run none |
| `Indexing.ChainIsAscending` | internal/application/services/vectorindex/indexer.go:79-122 | the chunks of a run's pages ascend strictly by id, and are never more than its limit |
| `Indexing.PagesAreAskedFor` | internal/application/services/vectorindex/indexer.go:70-93 | each page is what the source answers for the last id read and the smaller of the batch size, 64 by default, and what is left of the limit |
| `Indexing.EachChunkOnce` | internal/application/services/vectorindex/indexer.go:79-123 | a run that ends well upserted and marked each chunk of its pages exactly once, and no other |
| `Indexing.DryRunSeesTheSame` | internal/application/services/vectorindex/indexer.go:104-112 | a dry and a real run over one source report the same chunks and batches |
| `Indexing.RunCoversTheSource` | internal/application/services/vectorindex/indexer.go:79-123 | over a source that does not change a run covers exactly its rows, or the first of them up to the limit |
| `BatchIngest.KeyRoundTrip` | internal/application/services/vectorindex/batch.go:33-51 | every pair of positive ids survives the trip through its key |
| `BatchIngest.KeysAreNotCanonical` | internal/application/services/vectorindex/batch.go:37-51 | another key can name the same pair |
| `BatchIngest.ReadVectors` | internal/application/services/vectorindex/batch.go:61-84 | reads exactly the batches whose keys parse and whose vectors have one positive length, keeping the last vector of each pair |
| `BatchIngest.PointsOfGroup` | internal/application/services/vectorindex/batch.go:98-130 | one point per chunk, exactly if each has metadata of this company |
| `BatchIngest.Ingest` | internal/application/services/vectorindex/batch.go:53-150 | marks follow upserts on every path, nothing is asked for a malformed batch, and one that ends well made each company's three requests in turn |
| `BatchIngest.OnePointPerPair` | internal/application/services/vectorindex/batch.go:61-145 | each pair named in a batch gets exactly one point, in its company's upsert, with its last vector |
| `Chunking.LimitUTF8Bytes` | internal/application/services/kbbootstrap/chunk.go:86-102 | the longest beginning that fits, or everything |
| `Chunking.ChunkText` | internal/application/services/kbbootstrap/chunk.go:66-84 | pieces that make up the text, all but the last of exactly the size, the last not empty |
| `Chunking.PieceCount` | internal/application/services/kbbootstrap/chunk.go:74-83 | as many pieces as the length divided by the size, rounded up |
| `Chunking.ThousandHoldsFromSixty` | internal/application/services/kbbootstrap/chunk.go:8-11 | every article gives at most a thousand chunks exactly for the default size and sizes of at least 60 |
| `Chunking.PointIdsCollideExactly` | internal/application/services/vectorindex/reembed.go:127-129 | two point ids are equal exactly if their numbers are equal modulo 2^64 |
| `Chunking.PointIdReads` | internal/application/services/vectorindex/reembed.go:127-129 | a point id that fits reads as a thousand times the report id plus the index |
| `Chunking.PointIdsAreDistinct` | internal/application/services/vectorindex/reembed.go:127-129 | below index 1000, for report ids that fit, equal point ids mean the same chunk |
| `Chunking.IndexThousandCollides` | internal/application/services/vectorindex/reembed.go:127-129 | index 1000 is the next report's index 0 |
| `Chunking.FarReportsCollide` | internal/application/services/vectorindex/reembed.go:127-129 | report ids 2^61 apart share all their point ids |
| `Chunking.Reembed` | internal/application/services/vectorindex/reembed.go:82-124 | one upsert per report of the company, in order, up to the first failure, with a point for every chunk under the vector that the request for that report's chunks was answered for it |
| `Chunking.PointsNeverCollide` | internal/application/services/vectorindex/reembed.go:82-129 | with the default or a size of at least 60 and report ids that fit no two chunks of a run share a point id |
| `Chunking.PointsStayApartFromSixty` | internal/application/services/vectorindex/reembed.go:82-129 | no two chunks of any reports with ids that fit share a point id, if and only if the size is the default or at least 60 |

## Left out

- Clients of HTTP, IMAP, Gmail, Qdrant, Memgraph, MySQL, Redis and the language models: I/O, represented by what they answer.
- JSON decoding, hashing, encryption, case folding and the regular-expression engine (but for the one variable pattern): library behaviour.
- `Orchestrator.Handle`, response composition, headlines and tables, locales, logging, tracing, timings and wiring: one branch each or plain text.
- Floating-point rounding: scores, confidences and contributions are reals, so the claim that permuting the sets changes nothing is about exact sums.
- Text is a sequence of Unicode scalar values; offsets count characters where Go counts bytes, which agree on what they cut off except for the lock offset after a later @system line: there Go compares a byte count of the earlier body with byte positions in the later one. Invalid UTF-8 does not occur.
- PromptLoader.Parse: does not model the scanner's limit of 1 MiB per line, nor whether strconv accepts a numeric directive, which is an oracle.
- PromptTemplate.Render: the missing names are a set of names in the order found, not the sorted message.
- MailPoll.Poller.PollOnce: a state write happens or does not, and the file is read as it was written or counts as empty; partly written or partly decoded files are not modelled.
- PendingStore.Store.Put: takes one clock reading where the source takes one per entry, and the parameters are a value, so a caller changing its map afterwards is not modelled.
- MailCounter.CounterAtHeadExactlyWithoutAGap: the server lists no UID twice and announces no next UID below an assigned one, and nobody removes the very message the counter is for, whose UID would stay in the counter.
- WriteProtocol.EveryWriteIsConfirmed: ids are assumed fresh; their randomness is not modelled.
- Budget.Limiter.AllowWindow: only the in-process cache, whose Get and Set never fail.
- Budget.WindowLimitHolds: sequential calls only, because the source reads and writes the count without a lock.
- Resilient.Resilient.Call: the attempt's own timeout is part of the oracle's answer, and overflow of durations is not modelled.
- Routing.Call: the classes of failure are an enumeration where the source has strings; a class the configuration misspells matches nothing in either.
- Routing.ResolveAndCall: the company check, the selection without a route and the agent lookup in front of it are left out.
- Retrieval.Rerank: other rerankers than the lexical one are not modelled.
- Decision.State.Generate: the reason and retry delay of an escalation are not modelled.
- Decision.HitRepeatsTheRun: says nothing of a hit against a fresh run of the same query, since the cache key leaves out coverage and limit.
- Selector.Select: embedding the query, its one retry and the dimension check come before the scan and are left out; the anchors' similarities are an oracle.
- Indexing.Indexer.Run: termination and coverage assume a source that pages by ascending id above the last one within the limit, as its SQL does.
- Chunking.Reembed: building the article body and reconciling the collection's dimension are left out.
- The intake confidence table, the classification cascade, coverage de-duplication and the list of chunk ids asked for by the assembler: easy members.
