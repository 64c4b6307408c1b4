# CALM: proofs about its cores

CALM captures the output of an agent's tools, indexes it per session and serves it back within byte
budgets. This project models the parts of it whose comments make strong claims, and proves those
claims for every input, every run and every interleaving.

- **Byte budgets** (`SearchHits`, `Allocation`, `Rounds`, `EqualShares`, `Apportionment`,
  `ScoreShares`, `Bits`, `Knapsack`, `Mmr`, `Relevance`, `Wire`, `RankedSearch`). Relevance is a `real`, a size a
  `nat`. A run of an allocator is a sequence of offers with a decision each; what comes out is a projection of it.
  All five allocators are proved against one contract and each against its own specification.
- **Capture sessions** (`CaptureState`, `CaptureManager`, `SessionProtocol`, `SpoolProtocol`,
  `CreateIdempotency`). Every locked method is one step over the record on disk, proved against a function
  of the old record and an environment that decides locks, loads, clock, CALM's answers and saves. Runs
  interleave those steps with the event spool's claim, read, load, deliver, discard, reap and death. Live
  processes have distinct ids; tokens are fresh; a session id determines the base of its create keys.
- **Excerpts** (`SnippetSites`, `SnippetWindow`, `Snippet`). Content is a sequence of runes, folding a parameter.
- **Vocabulary** (`Vocabulary`). Tables are maps; a chunk's lexeme set is a parameter. A transaction fails at any
  statement or at its commit.
- **Chunking and paging** (`Utf8`, `Chunking`, `Paging`). Chunking works on bytes, paging on runes, tied together by
  the encoding of section 3 of RFC 3629 and the string escapes of section 7 of RFC 8259.
- **Labels** (`Decimal`, `Labels`, `TokenRegistry`). Strings are byte strings, the digest a parameter of sixteen hex digits.
- **Fusion** (`Fusion`). Rankings are given in the order the SQL states.
- **Mutations** (`Replacement`, `Mutations`). A digest is a term, so SHA-256 is injective; labels minted by captures are parameters.

`Wrappers`, `Arithmetic` and `FiniteSets` hold what several of them share.

Where a claim does not hold of the code as stated, the project gives a concrete input and the exact
condition: equal shares may drop what would fit together; a spool line may be sent after its session was
replaced; a label's number is not always printed back as it was written; an excerpt shows no evidence when
no term that counts is short enough. The knapsack's early return counts nothing, so its accounting holds
for a budget that is not positive exactly when there are no candidates; its callers pass positive budgets.

## Model

| member | source | states |
|---|---|---|
| `Allocation.RunMeetsContract` | `internal/search/allocator.go:84-97` | any run that offers every candidate once in rank order and stays within the budget conserves candidates per query, reports the bytes it included, flags exactly the runs that dropped something, and includes in-order subsequences |
| `Allocation.RunConserves` | `internal/search/allocator.go:84-97` | the same conservation for runs in any order, as diversity ranking needs it |
| `Allocation.DeclinesIffTooMuch` | `internal/search/allocators.go:18-44` | a run that takes whatever fits declines something exactly when all candidates together exceed the budget |
| `Allocation.DecisionsDetermined` | `internal/search/allocators.go:18-44` | which offers are taken follows from their order and the budget alone |
| `Rounds.RankRound` | `internal/search/allocators.go:18-44` | the nested rank/query loops offer every candidate once, rank by rank across queries, take exactly what still fits, meet the shared contract, and exceed the budget exactly when the candidates do |
| `Rounds.RanksThenQueries` | `internal/search/allocators.go:23-42` | of two offers of a run the one of better rank comes first, at equal rank the one of the earlier query |
| `Rounds.OmittedOnlyForLowerRanks` | `internal/search/allocators.go:12-44` | a candidate is omitted only when candidates of its own or better ranks have used the room it needed |
| `EqualShares.EqualBudget` | `internal/search/allocators.go:51-79` | each query gets exactly what fits its own cap in rank order; the shared contract holds; the budget is exceeded exactly when some query outgrows its own cap |
| `EqualShares.CapsShareBudget` | `internal/search/allocators.go:51-63` | the caps sum to the budget and differ by at most one byte |
| `EqualShares.DropsIffSomeCapTooSmall` | `internal/search/allocators.go:64-79` | exact condition under which equal shares drop something |
| `EqualShares.DropsAlthoughTotalFits` | `internal/search/allocators.go:46-79` | a concrete input, one hit of the least size a hit has, where equal shares return nothing and count it as omitted although everything would fit together |
| `RankedSearch.LeastHit` | `internal/search/service.go:264-289` | no hit takes fewer than 61 bytes, and one without text takes just that |
| `Wire.WireSizeIs` | `internal/search/service.go:264-289` | the size of a hit is the length of its compact JSON, field names, escapes and the marker of a truncated hit included |
| `Wire.EscapedIsRead` | `internal/search/service.go:264-289` | what is written for a rune inside a JSON string is read as that rune, and no quote or control byte is written as it is |
| `EqualShares.FitsInOrder` | `internal/search/allocators.go:64-76` | what fits a cap is an in-order selection of the query's candidates |
| `EqualShares.KeptIffItFits` | `internal/search/allocators.go:64-76` | a candidate is kept exactly when it fits what the kept ones of better rank leave of the cap, so no misfit ends a query |
| `EqualShares.CapsAreSeparate` | `internal/search/allocators.go:64-76` | no query's selection depends on another query's candidates |
| `Apportionment.LargestRemainder` | `internal/search/allocators.go:158-184` | shares are the truncated quotas plus one byte for those with the largest fractional parts; for non-negative weights that sum to the total the shares sum to the budget and each is the floor or the ceiling of its exact quota |
| `Apportionment.ExtraByteGoesToLargest` | `internal/search/allocators.go:173-184` | who got an extra byte had a larger fractional part than who did not, or an equal one and the lower index |
| `Apportionment.PartsLeftOver` | `internal/search/allocators.go:158-172` | the fractional parts add up to exactly the bytes the floors leave over |
| `Apportionment.WinnersPositive` | `internal/search/allocators.go:173-184` | no byte goes to a query whose quota was already whole |
| `Apportionment.CutShares` | `internal/search/allocators.go:158-172` | the first loop: truncated quotas, their fractional parts and their sum |
| `Apportionment.AddBonus` | `internal/search/allocators.go:173-184` | the second loop: one byte each to the first candidates of the ranking, as far as the remainder goes |
| `ScoreShares.ScoreProportional` | `internal/search/allocators.go:86-154` | phase one takes each query's leading candidates within its share, the spill phase offers the rest round by round; for non-negative top scores the shares obey the quota rule, both phases together take exactly what fits, and the budget is exceeded exactly when the candidates exceed it |
| `ScoreShares.WeightsFollowScores` | `internal/search/allocators.go:86-106` | a query weighs its top score, and only if no score is positive do all queries weigh the same |
| `ScoreShares.SpillKeepsRule` | `internal/search/allocators.go:127-154` | spilling keeps the rule that an offer is taken exactly when it fits what is left |
| `ScoreShares.TakeShare` | `internal/search/allocators.go:108-126` | one query's share: a maximal prefix of its candidates |
| `Knapsack.KnapsackGreedy` | `internal/search/allocators.go:197-253` | the selection fits the budget, no selection that fits is worth more, ties leave out the later item, the shared contract holds, and the budget is exceeded exactly when the candidates exceed it or some relevance is not positive |
| `Knapsack.FillRow` | `internal/search/allocators.go:217-232` | the descending in-place row and the packed bits of one item agree with the two-dimensional recurrence at every capacity |
| `Knapsack.DecideRows` | `internal/search/allocators.go:210-232` | all rows: every packed bit says whether the recurrence takes the item at that capacity |
| `Knapsack.Reconstruct` | `internal/search/allocators.go:233-242` | walking the bits backwards yields the recurrence's own selection |
| `Knapsack.BestBounds` | `internal/search/allocators.go:186-196` | the recurrence bounds the value of every selection that fits |
| `Knapsack.ChoiceWorth` | `internal/search/allocators.go:233-242` | the reconstructed selection fits and is worth exactly what the recurrence promises |
| `Knapsack.TiesDropLaterItem` | `internal/search/allocators.go:217-232` | of two equally valuable selections the strict comparison keeps the one without the later item |
| `Knapsack.TakesAllIff` | `internal/search/allocators.go:217-242` | everything is selected exactly when everything fits and every relevance is positive |
| `Knapsack.EarlyReturnConserves` | `internal/search/allocators.go:208-210` | without a positive budget the early return meets the contract exactly when there are no candidates |
| `Bits.SetBitSets` | `internal/search/allocators.go:212-231` | setting a bit of a packed row sets that bit and no other |
| `Mmr.MaximalMarginalRelevance` | `internal/search/allocators.go:267-322` | the run equals the reference that rescores every remaining item against everything included in every round; every item is considered once; the shared contract holds and each query's included items are picked from its candidates without repetition |
| `Mmr.PicksThePreferred` | `internal/search/allocators.go:284-312` | in every round of a run the item picked leads any other unpicked one by more relevance, weighed with 7, than it leads it in similarity to what is included, weighed with 3; where the two balance it is the earlier item |
| `Mmr.DiversityDecidesTies` | `internal/search/allocators.go:284-312` | of two equally relevant items the one less similar to what is included comes first, of two equally similar ones the more relevant |
| `Mmr.ReferenceUnique` | `internal/search/allocators.go:267-322` | two reference runs over the same items have the same order and decisions |
| `Mmr.MaxSimIsMaximum` | `internal/search/allocators.go:290-322` | the similarity kept for an item is the maximum over all included items, attained by one of them |
| `Mmr.PickBest` | `internal/search/allocators.go:290-308` | the scan returns the first of the best items not yet considered |
| `Mmr.Absorb` | `internal/search/allocators.go:309-320` | folding one included item into the kept similarities keeps them equal to maxima computed from scratch |
| `Mmr.Jaccard` | `internal/search/allocators.go:332-347` | the counted fraction is the share of common tokens among all tokens, zero for two empty sets |
| `Mmr.SimilarityProperties` | `internal/search/allocators.go:332-347` | similarity is symmetric, within [0, 1], one exactly for equal non-empty sets, and the share of the tokens in either set that are in both |
| `Mmr.TriangleInequality` | `internal/search/allocators.go:332-347` | dissimilarity is a distance: no detour by a third token set is shorter than the direct way |
| `Relevance.Batch.NormalizeRelevance` | `internal/search/service.go:167-174` | only relevances change; every ranked hit lands in its tier's band; within every group the order by relevance is kept exactly |
| `Relevance.Batch.NormalizeGroup` | `internal/search/service.go:176-209` | one group is rescaled from its range over the whole response into its band, everything else stays |
| `Relevance.TiersAreDisjoint` | `internal/search/service.go:28-36` | after normalization every ranked hit has positive relevance, all-terms matches beat partial ones, and those beat substring matches |
| `Relevance.GroupFillsBand` | `internal/search/service.go:183-209` | a normalized group keeps its distances in proportion, its least relevant hit at the bottom of the band and its most relevant one at the top, where a group without spread goes as a whole |
| `RankedSearch.Search` | `internal/search/service.go:65-139` | the answer reports what the variant asked for selects from the normalized hits: the hits, their order, what was omitted, the bytes and whether the budget was exceeded |
| `RankedSearch.Allocate` | `internal/search/allocator.go:54-69` | each variant runs its own allocator: the output is the rank-round run, the shares and their spill, the most relevant selection that fits, every query within its cap, or the diversity order, and the shared promises hold |
| `RankedSearch.NormalizedIsPositive` | `internal/search/service.go:28-36` | normalization gives the knapsack the strictly positive relevances it rests on |
| `RankedSearch.NormalizingKeepsSizes` | `internal/search/service.go:264-281` | relevance is not on the wire, so normalizing changes no size |
| `RankedSearch.FetchedIsRanked` | `internal/db/pg_sources.go:208-237` | what the fused and substring searches return always belongs to a normalized tier |
| `CaptureManager.Manager.Ensure` | `internal/adapter/session/manager.go:76-124` | every branch of Ensure: which record is saved, what is answered, and whether and under which key a session is asked for, including failed saves and a process that dies after one |
| `CaptureState.SessionIsHandedOut` | `internal/adapter/session/manager.go:90-123` | while there is a session every call that works hands it out with the next number |
| `CaptureState.FirstUseCreates` | `internal/adapter/session/manager.go:255-303` | the first call for which CALM is there creates the session, hands it out and clears the retry stamp |
| `CaptureState.TriedAgainIff` | `internal/adapter/session/manager.go:255-303` | after an attempt CALM did not answer nothing is tried for a minute, and at any other time it is |
| `CaptureManager.Manager.Establish` | `internal/adapter/session/manager.go:281-325` | registration before creation; a rejection latches, a failure leaves the record alone |
| `CaptureManager.Manager.Record` | `internal/adapter/session/manager.go:132-169` | the registry delta is merged, stamped with the current sequence number, only while the caller's token is still the record's |
| `CaptureState.MergeWritesLast` | `internal/adapter/session/manager.go:125-167` | of every source the delta speaks of the last token is registered, stamped with the current number |
| `CaptureState.MergeLeavesOthers` | `internal/adapter/session/manager.go:125-167` | other sources keep what they have |
| `CaptureManager.Manager.Enqueue` | `internal/adapter/session/manager.go:178-208` | only while the token is current is a line spooled, under the record's epoch and the caller's token, behind everything that was there |
| `CaptureManager.Manager.LatchAuth` | `internal/adapter/session/manager.go:336-354` | a rejected credential latches the record and drops its token |
| `CaptureState.LatchedRefuses` | `internal/adapter/session/manager.go:90-123` | a latched record refuses whatever CALM would say, and asks it nothing |
| `CaptureState.RejectionLatches` | `internal/adapter/session/manager.go:280-327` | a rejected registration, create or replacement latches the record, is reported as such, and nothing is asked for afterwards |
| `CaptureState.WithoutASaveNothing` | `internal/adapter/session/manager.go:75-123` | a save that fails, or a record that is not usable, leaves every operation without effect and hands out nothing |
| `CaptureManager.Manager.Recover` | `internal/adapter/session/manager.go:360-408` | one replacement under the next recovery number, unless the record is latched or already replaced; transient failure writes nothing |
| `CaptureState.ReplacementIsHandedOut` | `internal/adapter/session/manager.go:377-407` | after a saved replacement the new session is handed out with the next number and the registry is empty |
| `CaptureState.LateRecoveryChangesNothing` | `internal/adapter/session/manager.go:377-407` | who comes late with the dead token changes nothing and is told the session is gone |
| `CaptureManager.Manager.Reset` | `internal/adapter/session/manager.go:231-252` | latch and token cleared, recovery number and epoch advanced, registry emptied, sequence number kept |
| `CaptureState.ResetReopens` | `internal/adapter/session/manager.go:231-252` | after a saved Reset the next call asks for a new session at once, under the next number |
| `CaptureManager.SessionDir.AppendSpool` | `internal/adapter/session/spool.go:47-67` | ended lines stay at their places; a full append behind an ended line adds exactly the new line, torn and unended ones run into the next |
| `CaptureManager.Manager.ClaimSpool` | `internal/adapter/session/spool.go:117-137` | the rename moves the whole spool to this process's claim, replacing a claim left over under the same process id |
| `CaptureManager.Manager.DeliverInflight` | `internal/adapter/session/spool.go:144-192` | the delivery loop passes on exactly the lines of the epoch it saw, in order, up to the first failed send, and removes the claim only after getting through it; delivered, dropped and skipped lines add up |
| `CaptureManager.Manager.DeliverClaim` | `internal/adapter/session/spool.go:144-161` | an unreadable claim or record abandons the claim, a missing record discards it unsent |
| `SessionProtocol.NextKeeps` | `internal/adapter/session/manager.go:76-408` | every locked step of any process keeps generation safety, whatever CALM answers and whether or not the save succeeds |
| `SessionProtocol.GenerationSafety` | `internal/adapter/session/manager.go:76-169` | in every reachable record each epoch has carried at most one session, an empty token without the latch means an empty registry, and registry entries were recorded under the epoch and token the record holds |
| `SessionProtocol.SequenceNumbersUnique` | `internal/adapter/session/manager.go:90-123` | no two successful Ensure calls of a run return the same sequence number; later ones are larger |
| `SessionProtocol.GenerationsIncrease` | `internal/adapter/session/manager.go:113-123` | the numbers in the create keys of successive persisted sessions strictly increase, and no session comes back |
| `SessionProtocol.ReplacementIsNew` | `internal/adapter/session/manager.go:377-407` | a create that gets persisted never returns a token any record held before |
| `SessionProtocol.RecoveryNeverResumes` | `internal/adapter/session/manager.go:377-407` | in every run a replacement create never answers with the dead token, even after failed recoveries under the same key |
| `SessionProtocol.EstablishNeverResumes` | `internal/adapter/session/manager.go:224-252` | in every run neither does the first create after a Reset |
| `SessionProtocol.LatchIsTerminal` | `internal/adapter/session/manager.go:224-252` | once latched, a record stays latched until `Reset`, and until then no number is handed out and no session is persisted |
| `SpoolProtocol.NextKeeps` | `internal/adapter/session/spool.go:69-192` | enqueue, claim, read, load, deliver, discard, death, reaping and every session step keep the spool's invariant |
| `SpoolProtocol.AtMostOnce` | `internal/adapter/session/spool.go:69-83` | over every interleaving of processes, crashes, reaps and failed sends, each enqueued line is passed on at most once |
| `SpoolProtocol.CredentialFidelity` | `internal/adapter/session/spool.go:22-33` | what is passed on is what was enqueued, under the token it was captured with: the only token its epoch ever held, and never that of another epoch |
| `SpoolProtocol.SentWhileCurrentIff` | `internal/adapter/session/spool.go:144-192` | a line goes out while its epoch is current exactly when no step between the drainer's look at the record and the send was a saved replacement or a saved `Reset` |
| `SpoolProtocol.SupersededLineIsSent` | `internal/adapter/session/spool.go:149-156` | a concrete run in which a line is sent after its session was replaced, because the record is loaded without the lock |
| `SpoolProtocol.LoopSendsTheSame` | `internal/adapter/session/spool.go:163-187` | the steps of an undisturbed drainer send exactly what the delivery loop sends, and it survives exactly when the loop completes |
| `SpoolProtocol.EpochMovesIff` | `internal/adapter/session/manager.go:231-252` | no step lowers the record's epoch, and a step changes it exactly when it saves a replacement or a `Reset` |
| `SpoolProtocol.SpooledLinesAreGenuine` | `internal/adapter/session/manager.go:178-208` | in every reachable state each parseable line of the spool was enqueued, and its epoch and token are a session the record really had, the only one of that epoch |
| `SpoolProtocol.LinesStayUntilClaimed` | `internal/adapter/session/spool.go:47-67` | in every run a line once fully in the spool is there, at its place, until somebody claims the spool |
| `SpoolProtocol.LinesStayOrAreClaimed` | `internal/adapter/session/spool.go:69-100` | a step keeps all ended lines of the spool in place, or is a claim that takes all of them, in order |
| `SpoolProtocol.EnqueuedIsSpooled` | `internal/adapter/session/spool.go:47-67` | in every run a fully written line of the current session is in the spool at once, behind all that was there |
| `CaptureState.SendsUpToFirstFailure` | `internal/adapter/session/spool.go:144-192` | sent are exactly the lines of the epoch, in order, up to and including the first whose send fails, and the claim is done with exactly if none fails |
| `CreateIdempotency.Service.Create` | `internal/session/service.go:41-106` | errors in order; a remembered key is answered with the committed answer and changes nothing, otherwise a fresh token is stored; seen per namespace this is exactly the per-key deduplication that capture sessions rely on; the answer is remembered unless answers expire at once |
| `CreateIdempotency.SameKeyIff` | `internal/session/service.go:48-64` | two creates share an answer only within a namespace and a client, for the same key |
| `CreateIdempotency.IdempotencyStore.Resolve` | `internal/session/idempotency.go:67-81` | a hit becomes the most recently used entry, an expired one is removed |
| `CreateIdempotency.IdempotencyStore.Store` | `internal/session/idempotency.go:83-89` | the entry becomes the most recently used one and the least recently used one makes room |
| `CreateIdempotency.ReplayedWithinWindow` | `internal/session/idempotency.go:67-89` | the first and every later retry within the window gets the committed answer, whatever happened to fewer other keys than the cache holds in between; after the window none does |
| `CreateIdempotency.EntrySurvives` | `internal/session/idempotency.go:40-50` | an entry outlives its own retries within the window and traffic on fewer other keys than the cache has room for |
| `SnippetSites.LocateSites` | `internal/db/snippet.go:110-140` | all terms' occurrences, found rune by rune after folding, sorted in place by start and term |
| `SnippetSites.IndexRunes` | `internal/db/snippet.go:150-164` | the first occurrence at or after a position, or none |
| `SnippetSites.SitesAreLeftmost` | `internal/db/snippet.go:126-137` | each site is the leftmost occurrence after its predecessor, and after the last one there is none |
| `SnippetSites.OccursIffSited` | `internal/db/snippet.go:126-137` | a term occurs exactly when it has a site |
| `SnippetSites.LocatedSites` | `internal/db/snippet.go:110-140` | the sites are genuine, in order, the very multiset of occurrences found, and none exactly when no term occurs |
| `SnippetSites.AllSitesComplete` | `internal/db/snippet.go:120-138` | all greedy leftmost occurrences of every term are among the sites, and no others |
| `SnippetSites.SortSitesByStart` | `internal/db/snippet.go:166-178` | the in-place insertion sort |
| `SnippetSites.SortKeeps` | `internal/db/snippet.go:166-178` | it returns the sites it was given, ordered by start and then by term |
| `SnippetWindow.CountInWindow` | `internal/db/snippet.go:217-234` | the scan that breaks early counts like a full one |
| `SnippetWindow.SitesIn` | `internal/db/snippet.go:238-250` | so does the collection of covered sites |
| `SnippetWindow.ProbesAreComplete` | `internal/db/snippet.go:180-203` | no window of the budget's size, anywhere, covers more distinct terms, or as many and more occurrences, than the best probe |
| `SnippetWindow.EarliestAmongBest` | `internal/db/snippet.go:191-203` | among equally good windows the winner is the earliest: no other starts covering before it |
| `SnippetWindow.Recentred` | `internal/db/snippet.go:205-211` | the recentred window has as much room in front of the covered span as behind it, or one rune less, except where the content ends, and drops no covered site |
| `SnippetWindow.BalancedOnce` | `internal/db/snippet.go:205-211` | only one window of a size has as much room in front of the covered extent as behind it, or one rune less, except where the content ends |
| `SnippetWindow.DensestWindow` | `internal/db/snippet.go:189-212` | the returned window lies inside the content, is centred on what the earliest best probe covers, covers all of it, and is optimal among all windows |
| `SnippetWindow.AnchorBounds` | `internal/db/snippet.go:290-304` | the extent of the anchors inside a window, or -1 twice if there are none |
| `Snippet.SnapLines` | `internal/db/snippet.go:310-327` | the longest stretch of whole lines inside the window if there is one, else the window |
| `Snippet.SnapProse` | `internal/db/snippet.go:334-368` | both ends snapped to sentence, then word boundaries; the window if nothing would be left |
| `Snippet.WordStartForward` | `internal/db/snippet.go:372-384` | the first word that starts inside, or the hard edge |
| `Snippet.WordEndBackward` | `internal/db/snippet.go:388-400` | the last word that ends inside, or the hard edge |
| `Snippet.SnapWindow` | `internal/db/snippet.go:257-288` | snapping is inward, never empty, keeps every anchor of the window, and each end is the natural one of the snap that ran unless that would cut off an anchor, when it is the window's own |
| `Snippet.EvidenceSites` | `internal/db/snippet.go:51-62` | noise sites count only when there are no others |
| `Snippet.ExtractSnippet` | `internal/db/snippet.go:31-45` | short content verbatim; otherwise a non-empty contiguous piece of at most 400 runes: the leading window, or the one centred on what the best probe covers, trimmed to natural boundaries except where that would lose evidence; a fallback exactly when the content is longer and no term occurs; without fallback the excerpt itself covers as many terms and occurrences as any 400-rune window |
| `Snippet.ShowsEvidenceIffItFits` | `internal/db/snippet.go:254-288` | for whatever excerpt is returned: it shows an occurrence of a term that counts as evidence exactly when some occurring term that counts is at most 400 runes long |
| `Snippet.LongTermIsNotShown` | `internal/db/snippet.go:31-45` | a concrete input: a 401-rune word searched for in itself occurs, and no excerpt within the budget shows it |
| `Vocabulary.Database.Ingest` | `internal/ingest/service.go:60-133` | all error cases, a failing statement or a failing commit leave every table as it was; a committed ingest leaves the tables with the source's new chunks, everything else unchanged and the index of a full recount; the report counts, truncates and previews as capped, and lists the rarest words |
| `Vocabulary.CappedIs` | `internal/ingest/service.go:64-68` | only the first 500 pieces are kept |
| `Vocabulary.PreviewIs` | `internal/ingest/service.go:143-149` | a preview is the first 200 runes of the content |
| `Vocabulary.IncrementalIsRecomputed` | `internal/db/pg_vocabulary.go:35-43` | an exact positive index is the one recomputed from the rows |
| `Vocabulary.AnyHistoryIsRecomputed` | `internal/ingest/service.go:60-100` | after any history of sessions opened and deleted and of ingests and re-ingests, committed or rolled back, the index kept statement by statement is the one recomputed from the rows |
| `Vocabulary.RecountCounts` | `internal/db/pg_vocabulary.go:35-43` | a recount counts every chunk of every source of the session that contains the word once |
| `Vocabulary.ContainingCounts` | `internal/db/pg_vocabulary.go:35-43` | a source contributes the number of its chunks that contain the word, not of occurrences |
| `Vocabulary.NextKeepsIndex` | `internal/ingest/service.go:74-100` | any one call keeps the index exact and free of empty rows |
| `Vocabulary.ReindexKeeps` | `internal/ingest/service.go:79-95` | decrement, delete, insert, increment and prune turn an exact index into the exact index of the new rows |
| `Vocabulary.RetiresSource` | `internal/db/pg_vocabulary.go:45-56` | decrementing before deleting accounts exactly for the outgoing chunks |
| `Vocabulary.CountsSource` | `internal/db/pg_vocabulary.go:58-74` | incrementing after inserting accounts exactly for the incoming ones |
| `Vocabulary.Prunes` | `internal/db/pg_vocabulary.go:81-87` | pruning removes the empty rows of the session and keeps the index exact |
| `Vocabulary.Database.DecrementForSource` | `internal/db/pg_vocabulary.go:45-56` | every row of the source's session loses the number of the source's chunks that contain its word; all other rows stay, and none appears or disappears |
| `Vocabulary.Database.IncrementForSource` | `internal/db/pg_vocabulary.go:58-74` | every word's count in the source's session grows by the number of the source's chunks that contain it, and no other count changes |
| `Vocabulary.Database.CreateSession` | `internal/db/pg_sessions.go:24-62` | a new session has no rows, and the index stays exact |
| `Vocabulary.Database.Upsert` | `internal/db/pg_sources.go:28-50` | one row per session and label, created exactly when there was none |
| `Vocabulary.Database.TopByIdf` | `internal/db/pg_vocabulary.go:92-113` | the least frequent words of the session, in order of frequency and then of word, as many as asked for |
| `Vocabulary.LessIff` | `internal/db/pg_vocabulary.go:88-94` | words are ordered as in a dictionary |
| `Vocabulary.RarestAreChosen` | `internal/db/pg_vocabulary.go:88-94` | a word that was left out is in no fewer chunks than any that was chosen; the chosen ones come rarest first, equally rare ones as in a dictionary |
| `Vocabulary.Database.DeleteSession` | `internal/db/migrations/0001_init.up.sql:73-111` | deleting a session takes its sources, chunks and vocabulary along and keeps the index exact |
| `Vocabulary.OnlyThatSessionGoes` | `internal/db/migrations/0001_init.up.sql:73-111` | of a deleted session nothing is left, and of every other one everything |
| `Chunking.SplitOnLineBoundaries` | `internal/ingest/chunk/chunk.go:107-132` | the cursor loop packs whole lines greedily and cuts only lines that alone are too long |
| `Chunking.SplitOnRuneBoundaries` | `internal/ingest/chunk/chunk.go:138-149` | cuts at the last rune start within the bound, or at the bound if there is none |
| `Chunking.RuneBoundaryBefore` | `internal/ingest/chunk/text.go:69-75` | the largest index up to the limit that starts a rune, or 0 if there is none |
| `Chunking.RunePiecesReachFar` | `internal/ingest/chunk/chunk.go:130-149` | every piece of an over-long line reaches to the last rune start within the bound, or to the bound if there is none |
| `Chunking.PackIs` | `internal/ingest/chunk/chunk.go:101-132` | the pieces concatenate to the input, none is empty, none exceeds the bound |
| `Chunking.PackFair` | `internal/ingest/chunk/chunk.go:101-132` | every cut is at a line end where the next line would not have fitted or an over-long line has just ended, or inside a line that alone is too long |
| `Chunking.PackWhole` | `internal/ingest/chunk/chunk.go:134-149` | pieces of UTF-8 text are UTF-8 text: no rune is ever split |
| `Chunking.BoundChunks` | `internal/ingest/chunk/chunk.go:87-99` | chunks within the bound are kept, larger ones are replaced by their pieces |
| `Chunking.PiecesOfChunk` | `internal/ingest/chunk/chunk.go:82-99` | each chunk's pieces reproduce its bytes under its title and type, bounded, non-empty and fairly cut |
| `Chunking.BoundingKeeps` | `internal/ingest/chunk/chunk.go:82-99` | over all chunks, bounding keeps the content byte for byte and bounds every chunk |
| `Chunking.BoundingIsIdempotent` | `internal/ingest/chunk/chunk.go:82-99` | bounding twice is bounding once |
| `Utf8.CutBetweenRunes` | `internal/ingest/chunk/text.go:68-75` | a cut before a byte that starts a rune leaves text on both sides |
| `Utf8.RuneIsReadBack` | `internal/ingest/chunk/text.go:69-75` | the bytes of a rune say which rune it is, in the shortest form |
| `Wire.JsonLenBounds` | `internal/search/service.go:264-281` | a string takes one to six bytes per rune and at most six per byte of UTF-8 inside JSON |
| `Wire.PrefixesGrow` | `internal/search/documentorder.go:146-147` | longer prefixes are strictly longer on the wire |
| `Paging.ChunksInOrder` | `internal/db/pg_sources.go:93-144` | the rows from the offset on up to the limit, and whether more remain, by one extra row |
| `Paging.TruncatedDocHit` | `internal/search/documentorder.go:148-183` | binary search returns the longest prefix that fits with its marker, or nothing if not even one rune does |
| `Paging.DocumentOrder` | `internal/search/documentorder.go:20-144` | the assembly loop and its four ways of ending yield exactly the specified page |
| `Paging.PageIsExact` | `internal/search/documentorder.go:28-116` | a page stays within the budget, shows the next consecutive chunks, only its first possibly truncated, has a cursor exactly when more remains, and ends early only for the limit or a chunk that does not fit, without a limit only for the latter; an offset past the end gives an empty page without a cursor |
| `Paging.UnlimitedPagesGoOn` | `internal/search/documentorder.go:30-41` | a page without a limit goes on to the last chunk unless one does not fit: how many rows it fetched never ends it |
| `Paging.ShownIffOneRuneFits` | `internal/search/documentorder.go:68-83` | a chunk can be shown exactly when it fits or one rune of it does; a truncated one is a proper prefix |
| `Paging.ShownIs` | `internal/search/documentorder.go:46-70` | a chunk is shown as itself, or as the longest proper prefix of its content that fits, with its own title and source |
| `Paging.ReadAllShowsEverything` | `internal/search/documentorder.go:93-116` | following the cursors shows every chunk once, in order, whatever the limit, and reaches the end exactly when every chunk can be shown |
| `Paging.RereadIsWhole` | `internal/adapter/calm/client.go:66` | at the default reread budget every stored chunk is shown whole |
| `Paging.RereadReproducesContent` | `internal/ingest/chunk/chunk.go:34-48` | from bounding to reread: the snippets in order are the bytes that were chunked |
| `Labels.Encode` | `internal/adapter/extract/grammar.go:101-114` | the escaping loop |
| `Labels.EncIsInjective` | `internal/adapter/extract/grammar.go:98-121` | escaping loses nothing |
| `Labels.EncIsClean` | `internal/adapter/extract/grammar.go:98-114` | escaped segments contain no separator |
| `Labels.UnescapingGivesBack` | `internal/adapter/extract/grammar.go:94-112` | percent-decoding an escaped segment gives it back |
| `Labels.EncIsPrintable` | `internal/adapter/extract/grammar.go:94-112` | no control byte is left in an escaped segment |
| `Labels.BuildBase` | `internal/adapter/extract/grammar.go:45-92` | the full label if it fits, else its identity hashed, else its head with a hash of all of it |
| `Labels.SegmentsStand` | `internal/adapter/extract/grammar.go:43-66` | where the parts of a label stand: product, version, domain, verb and workspace if given, context, identity |
| `Labels.TellingIs` | `internal/adapter/extract/grammar.go:59-65` | of the identity just the empty segments and the dots are left out |
| `Labels.BaseIsPlainAndShort` | `internal/adapter/extract/grammar.go:23-28` | every base is free of `#`, `@` and space and leaves the reserved room |
| `Labels.UnhashedBasesAreFaithful` | `internal/adapter/extract/grammar.go:45-71` | whatever room each reserves for a suffix, two bases that fit unhashed are equal exactly when their segments are |
| `Labels.CutBasesAreFaithful` | `internal/adapter/extract/grammar.go:80-91` | two cut bases are equal only if the digest of their full labels is, so different segments collide only where the digest does |
| `Labels.CutBasesFillTheRoom` | `internal/adapter/extract/grammar.go:80-91` | a cut base keeps as much of the label as leaves room for the digest |
| `Labels.HashedBasesAreFaithful` | `internal/adapter/extract/grammar.go:72-78` | two identity-hashed bases are equal only for equal prefixes and identities with the same digest |
| `Labels.Assemble` | `internal/adapter/extract/extract.go:150-164` | the latest and history labels of the three capture modes |
| `Labels.PlansFit` | `internal/adapter/extract/grammar.go:23-28` | labels fit 200 bytes for sequence numbers below ten to the twelfth, the latest label does not depend on the number, and histories of different numbers differ |
| `Labels.IsValidToken` | `internal/adapter/extract/token.go:68-84` | six characters of the token alphabet |
| `Labels.PrintedIsParsed` | `internal/adapter/extract/token.go:41-66` | parsing a printed base, number and token returns exactly those parts |
| `Labels.ParsingIsLossless` | `internal/adapter/extract/token.go:34-66` | parsing any label loses no byte of it, and the number is what its text says |
| `Labels.ReprintedIff` | `internal/adapter/extract/token.go:41-66` | printing what was parsed gives the label back exactly when it has no number or one written with digits alone and without leading zeros |
| `Decimal.PrintedIffCanonical` | `internal/adapter/extract/token.go:57-61` | of all texts read as the same number, signs and leading zeros included, exactly the canonical one is what the number is printed as |
| `Labels.LeadingZerosAreNotKept` | `internal/adapter/extract/token.go:57-61` | a label with leading zeros is a concrete one that does not print back |
| `Decimal.ParseFormat` | `internal/adapter/extract/grammar.go:94-96` | a formatted number below 2^63 parses to itself |
| `TokenRegistry.Registry.ValidateAndStrip` | `internal/adapter/capture/registry.go:59-78` | the answer is that of the log of what was recorded |
| `TokenRegistry.Registry.Record` | `internal/adapter/capture/registry.go:36-43` | records are logged, and the map stays the replay of the log |
| `TokenRegistry.Registry.Load` | `internal/adapter/capture/registry.go:105-112` | a restored map replaces everything |
| `TokenRegistry.ReplayedIsLastRecorded` | `internal/adapter/capture/registry.go:14-27` | the map holds for each source the last token recorded since the last reset or restore |
| `TokenRegistry.PrintedLabelValidatesIffCurrent` | `internal/adapter/capture/registry.go:45-78` | a printed label validates exactly when its token is the last one recorded for its source, and strips to exactly that key |
| `TokenRegistry.PlannedLabelsValidateIffCurrent` | `internal/adapter/capture/present.go:181-186` | the same for every label a capture plan produces, latest and history |
| `TokenRegistry.AnyLabel` | `internal/adapter/capture/registry.go:45-78` | any label without an `@` passes unchanged; any label with one passes exactly when it ends in the token last recorded for the key it names |
| `Fusion.SearchOne` | `internal/db/pg_sources.go:186-238` | the hits are the best of the fusion of the complete rankings, topped up with substring matches |
| `Fusion.ClassCandidates` | `internal/db/pg_sources.go:240-262` | the class's first rows with their reciprocal ranks |
| `Fusion.TruncationIsHarmless` | `internal/db/pg_sources.go:180-210` | fusing only each class's first rows gives the same best hits as fusing everything |
| `Fusion.RankAtMostPlace` | `internal/db/pg_sources.go:180-210` | a row's place in the fusion is no better than its place in its class |
| `Fusion.ClassOrderIsKept` | `internal/db/pg_sources.go:196-207` | the fused order keeps every class's own order |
| `Fusion.AndMatchesFirst` | `internal/db/pg_sources.go:196-207` | rows that match all terms come before all others |
| `Fusion.FusedOrder` | `internal/db/pg_sources.go:196-207` | of two rows in the fusion those that match all terms come first, then the better placed in its own class, then the lower id |
| `Fusion.FoundShows` | `internal/db/pg_sources.go:211-237` | the hits are the best rows, each shown as it is, topped up with the first substring matches that are not among them |
| `Fusion.NoChunkTwice` | `internal/db/pg_sources.go:226-236` | no chunk is shown both as a match and as a substring match |
| `Fusion.EveryHitIsRanked` | `internal/db/pg_sources.go:211-237` | no more hits than asked for, each of a normalized tier |
| `Mutations.Server.EditFile` | `internal/adapter/mcp/edit_tools.go:125-200` | all outcomes: a rejection or failure leaves every file unchanged; a success exchanges all occurrences, or the leftmost one if no other lies apart from it, in the file's content, which is what the basis captured; an anchor that is nowhere, or ambiguous, is refused |
| `Mutations.EditedIff` | `internal/adapter/mcp/edit_tools.go:163-178` | an edit is refused for its anchor exactly when it occurs nowhere, or in two places apart although only one is to be changed; a single replacement exchanges the leftmost occurrence and nothing else, a replacement of all every one from the left |
| `Mutations.Server.WriteFile` | `internal/adapter/mcp/edit_tools.go:202-285` | a create happens only on an absent path without a basis, an overwrite only under a basis that holds and has been read, everything else leaves every file unchanged |
| `Mutations.Server.ReadFile` | `internal/adapter/mcp/read_file.go:62-110` | bad arguments, unreadable files and ranges past the end show nothing and record nothing; otherwise the requested lines are shown, and a complete read registers a basis for the whole content while a cut one does not |
| `Mutations.Server.SearchAnswered` | `internal/adapter/mcp/search.go:150-155` | only a document-order reread that returned something counts as reading back |
| `Mutations.Server.Record` | `internal/adapter/mcp/basis.go:28-43` | a label stands for the path and content it captured; an empty label for nothing |
| `Mutations.Server.MarkRead` | `internal/adapter/mcp/basis.go:52-59` | reading back lifts the unread mark and does nothing else |
| `Mutations.EntryHasOrigin` | `internal/adapter/mcp/basis.go:28-59` | a registered basis stands for exactly one capture, and is marked unread exactly until a rejection's capture has been read back |
| `Mutations.FreshBasisInforms` | `internal/adapter/mcp/edit_tools.go:304-316` | a basis that verifies names a capture of exactly what the file holds |
| `Mutations.EveryReplacementIsInformed` | `internal/adapter/mcp/edit_tools.go:125-285` | in every run of reads, searches, edits, writes and resets with outside changes between calls: every replacement's basis stands for exactly one capture, of exactly the content it replaced, and a full overwrite's basis came from a read or mutation or was read back |
| `Mutations.RunsKeepThePromise` | `internal/adapter/mcp/edit_tools.go:125-285` | no run ever overwrites blindly or creates over an existing file |
| `Mutations.CreatesOnlyWhereAbsent` | `internal/adapter/mcp/edit_tools.go:221-236` | in every run a file is created only where there is none |
| `Mutations.LinesJoin` | `internal/adapter/mcp/read_file.go:134-152` | cutting into lines loses nothing |
| `Mutations.LinesAreLines` | `internal/adapter/mcp/read_file.go:138-142` | lines are cut behind every newline and nowhere else |
| `Mutations.RangeShows` | `internal/adapter/mcp/read_file.go:132-152` | a range shows what is left of the content without the lines before and behind it |
| `Mutations.Extends` | `internal/adapter/mcp/edit_tools.go:125-285` | the promise survives every further event that keeps it, outside changes and resets included |
| `Replacement.ReplaceAllJoins` | `internal/adapter/mcp/edit_tools.go:163-182` | replacing as many occurrences as there are exchanges exactly the text between the stretches |
| `Replacement.ReplacesAll` | `internal/adapter/mcp/edit_tools.go:163-182` | replacing all exchanges the leftmost occurrence, then the leftmost behind it, until there is none, and nothing else |
| `Replacement.SplitJoins` | `internal/adapter/mcp/edit_tools.go:163-182` | the stretches and the occurrences between them make up the content |
| `Replacement.CountsNothingIff` | `internal/adapter/mcp/edit_tools.go:163-168` | a count of zero means the text occurs nowhere |
| `Replacement.CountsManyIff` | `internal/adapter/mcp/edit_tools.go:163-172` | more than one occurrence is counted exactly when two lie apart |
| `Replacement.StretchesAreFree` | `internal/adapter/mcp/edit_tools.go:163-182` | no stretch contains a further occurrence |

## Left out

- HTTP handlers, generated clients, transport, configuration, logging, command-line parsing, presentation text: plumbing.
- Postgres, BM25 and trigram scoring, tokenization into lexemes: their results are inputs, in the order the SQL states.
- Floating-point rounding: relevance, quotas and reciprocal ranks are real numbers.
- `View` and `Inventory` (internal/adapter/session/manager.go:433-488) and `OnCallError`'s dispatch: reads and a three-way switch over modelled steps.
- Session-directory garbage collection (internal/adapter/session/gc.go): it restarts sequences after a long idle time, and the uniqueness of sequence numbers is claimed without it.
- The printed form of create keys: a key is the triple of client, session id and number; that the base is an injective digest of the session id is assumed.
- `singleflight` (internal/session/idempotency.go:52-65): a create is one atomic step per key; concurrent callers of the same key share or repeat it.
- The metadata cache beside session creation, labels of sessions, `Touch` and listing: they do not affect tokens or answers.
- Age of claims: any claim may be reaped at any time, so the ten-minute window is not needed for the claims proved.
- `splitTerms` (internal/db/snippet.go:78-101): query terms and their noise marks are inputs.
- Invalid UTF-8 in excerpts: content is a sequence of runes, so replacement characters do not arise.
- The per-format chunkers and titles: `BoundChunks` takes whatever chunks they make.
- Correlation records, summaries of debug logs and hit breakdowns: aggregation only.
- `classify` and the planners that choose a label's segments: any segments are allowed.
- `MintToken`: tokens are inputs.
- Mutations.Server.EditFile: outside writes between reading a file and renaming over it are not modelled, because the promise is about changes between calls.
- Mutations.Server.WriteFile: the same; directory listing, symbolic links and path cleaning are not modelled, paths are taken as resolved and cleaned.
- The in-memory recovery loop (internal/adapter/mcp/recovery.go): a simpler sibling of the record on disk; a reset of bases is a step.
- Concurrent ingests into one session: transactions are serial; row locks and retries are the database's business.
- Row-level timestamps and `indexed_at`: no modelled query orders by them.
