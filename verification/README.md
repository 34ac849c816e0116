# l9-meta-injector: a verified model of its fast forms and state machines

The repository analyses document corpora, writes managed metadata headers into source files, admits
local archives and scans a repository for competing metadata authorities. Most of the code that does
so is a fast form that claims to agree with something simple: an indexed join with an all-pairs
comparison, a worker pool with a sequential pass, a one-pass accumulator with an order-free rule, a
printer with its parser. This project states each claim and proves it.

The models keep the source's own shape: what the source does with a loop over mutable state is a
method with a loop, proved against a specification, and the promises are lemmas about the
specification. One Dafny module per file, and a few modules per source file where the proof is long.

| area | modules | source |
|---|---|---|
| set-similarity joins | `Ordering`, `SetJoin`, `NearDuplicates`, `NearDuplicateListing`, `Connectivity`, `DisjointSets`, `Topics`, `TopicListing` | `src/ordering.ts`, `src/corpus_analysis.ts`, `src/corpus_candidates.ts` |
| the embedding pool | `EmbeddingPool`, `EmbeddingMean`, `EmbeddingResult`, `EmbeddingSafety`, `EmbeddingCounters`, `EmbeddingSchedule`, `DocumentChunks`, `DocumentText` | `src/corpus_embeddings.ts` |
| the comment carrier | `Text`, `Carrier`, `CarrierPrologue`, `CarrierPatterns`, `CarrierBlocks`, `CarrierPlacement`, `CarrierTerminator`, `CarrierRoundTrip`, `CarrierInert`, `CarrierLaws`, `CarrierReading` | `src/comment.ts` |
| archive admission | `MemberPaths`, `ArchivePreflight`, `ArchiveReasons`, `ArchiveExtraction` | `src/archive_preflight.ts` |
| evidence fusion | `Fusion`, `FusionEvidence`, `FusionComponents`, `FusionCandidates` | `src/corpus_fusion.ts` |
| cache and canonical text | `CanonicalJson`, `CanonicalJsonText`, `CanonicalJsonForm`, `CorpusCache` | `src/corpus_analysis.ts`, `src/corpus_cache.ts` |
| snapshot diff | `RenamePairing`, `CorpusDiff`, `CorpusDiffReading` | `src/corpus_diff.ts` |
| project containers | `ProjectContainers`, `ProjectContainerPaths` | `src/corpus_candidates.ts` |
| authority scanning | `AuthorityScan`, `AuthoritySignals`, `AuthorityList`, `AuthorityGrammar`, `AuthorityReading` | `src/authority_scan.ts`, `src/authority.ts` |

How the models read the source:

- Similarity is compared in integers. A near-duplicate threshold is the number `t` of micro-units it
  rounds to, and a pair qualifies when `2000000 * shared >= (2 * t - 1) * union`, which is when its
  score rounded half up to six places is at least `t`. A topic pair joins when
  `1000000 * shared >= t * union`.
- The pool is a step relation. Every `await` is a yield point, one turn takes one worker from a yield
  point to the next, and a schedule is any sequence of turns. The provider answers each text one way.
- Strings are sequences of characters. The carrier's prologue patterns are written out as predicates
  on lines.
- Hashing is a function parameter, injective where a theorem needs it. The Unicode and case fold of
  an archive path acts on one segment at a time and never makes a separator.

Where the code does not do what its comments say, the code is modelled and the exact condition proved:

- `src/corpus_embeddings.ts:377-379` promises the same output at every width. Documents that share a
  cache key the cache does not yet hold break that: a later one may be served the mean of an earlier
  one, or not, depending on who finishes first. `EmbeddingSchedule.OutcomeIsScheduleFreeIff` and
  `EmbeddingSchedule.ReportIsScheduleFreeIff` say exactly when the vectors, and when the whole report
  with its counters, are the same; `EmbeddingSchedule.TwoTextsDependOnSchedule` is an input for which
  neither is.
- `src/comment.ts:466-468` calls an injected header recoverable. It is, exactly when the header's own
  first two lines do not pass for an encoding cookie and an opening sentinel (the computed position
  then moves into the block), and a line break that insertion supplied is of a kind removal
  recognises; the second always holds for the body's own convention. `CarrierLaws.HijackHappens` and
  `CarrierLaws.MismatchHappens` are inputs for which removal fails.
- `src/corpus_cache.ts:651-656` says nothing can make a cached and a computed value differ. A payload
  that has no canonical text makes `put` raise where no cache would have returned the value. That is
  exactly a payload with a number that is not finite, an unsupported value, or an `undefined` that is
  not an object member's (`CanonicalJson.CanonicalIffRenderable`); `CorpusCache.UnfinishedNumberIsRefused`
  is one, and `CorpusCache.Cached` states both cases. Values are equal up to members that are
  `undefined`. A stored entry can be served with a wrong value exactly when its payload and its hash
  were made up together (`CorpusCache.ServedWronglyIffForged`); what another producer stored is never
  served (`CorpusCache.AnotherRunsStoreIsNotServed`).
- Admission asks more than faithful extraction does: it holds two directory entries with one key
  although writing both is harmless. `ArchiveExtraction.TwoDirectoriesAreHeld` is such an archive, and
  `ArchiveExtraction.KeyRulesIffMaterializable` says that this is the whole difference.

## Model

| member | source | states |
|---|---|---|
| Ordering.AtMostIff | src/ordering.ts:14-24 | strings are ordered by the first code point that differs, and a string stands before its continuations |
| Ordering.OrderedListUnique | src/ordering.ts:14-24 | two duplicate-free lists with the same members, ordered by an order whose ties are equalities, are the same list |
| Ordering.SortIsCanonical | src/ordering.ts:14-24 | sorting by such an order depends on the members alone, not on the order they came in |
| SetJoin.GlobalOrderIsTotal | src/corpus_analysis.ts:368-370 | rarest first with code points on a tie is a total order without ties between different shingles, whatever the frequencies are |
| SetJoin.DocumentFrequency | src/corpus_analysis.ts:362-367 | the counting loop ends with, for every shingle, the number of documents that hold it |
| SetJoin.RankTerms | src/corpus_analysis.ts:391-391 | the ranked list holds exactly the members of the set, once each, in the global order |
| SetJoin.IndexPrefix | src/corpus_analysis.ts:414-418 | afterwards a position is posted under a shingle exactly when it was before, or the shingle is in this document's prefix and the position is its own |
| SetJoin.SharedAtLeastRequired | src/corpus_analysis.ts:313-333 | either set of a pair that reaches the bound shares at least the integer ceiling of the bound times its size |
| SetJoin.PrefixesMeet | src/corpus_analysis.ts:313-333 | two sets that reach the bound have a common member inside both prefixes, for every order and at every rounding boundary of the ceiling |
| SetJoin.SizeBound | src/corpus_analysis.ts:403-406 | a partner whose size is below the bound times the larger size cannot reach the bound |
| SetJoin.PrefixLeavesOut | src/corpus_analysis.ts:326-333 | the prefix leaves out all but one of the fewest terms a qualifying pair shares, and never everything |
| NearDuplicates.RoundedTestIsIntegerTest | src/corpus_analysis.ts:294-311 | the score rounded to six places reaches the threshold exactly when the integer inequality over half micro-units holds |
| NearDuplicates.NearDuplicatesExhaustive | src/corpus_analysis.ts:278-292 | the double loop returns the sorted list of every pair the rounded test reports |
| NearDuplicates.ReferenceIsTheReport | src/corpus_analysis.ts:271-292 | that list holds exactly the candidates of two different eligible documents that reach the threshold, each pair once, in the report's order |
| NearDuplicates.CompareWithOffered | src/corpus_analysis.ts:394-412 | a document is compared with each position its prefix reaches exactly once, and emits exactly those pairs the rounded test reports |
| NearDuplicates.ReportedPairIsOffered | src/corpus_analysis.ts:336-348 | the prefixes of two documents whose pair is reported share a shingle, so indexing prefixes only loses no pair |
| NearDuplicates.NearDuplicateCandidates | src/corpus_analysis.ts:356-421 | for every document list with distinct ids and every threshold, the indexed pass returns the very list the all-pairs pass returns |
| NearDuplicateListing.ReportListsWhatIsDue | src/corpus_analysis.ts:220-292 | the report holds exactly one candidate for each two documents of different content whose shared-over-united shingles, rounded half up to six places, reach the threshold; it gives the smaller id first with that document's own path and hash, and lists the highest score first, then by the two ids |
| DisjointSets.UnionsComputeConnectivity | src/corpus_candidates.ts:854-869 | after any sequence of unions two nodes have one root exactly when the united edges connect them |
| DisjointSets.UnitingEnoughEdges | src/corpus_candidates.ts:893-911 | skipping an edge inside one component changes nothing: the partition is that of all wanted edges as soon as each ends up inside one class |
| DisjointSets.LinksLeadToRoot | src/corpus_candidates.ts:855-865 | following parent links from any node reaches its root and stays there: the links have no cycle |
| DisjointSets.Partition.constructor | src/corpus_candidates.ts:854-854 | at the start every node is its own root |
| DisjointSets.Partition.FindPlain | src/corpus_candidates.ts:993-997 | the plain climb terminates and returns the node's root |
| DisjointSets.Partition.Find | src/corpus_candidates.ts:855-865 | path compression terminates, returns the root, and leaves every node's root as it was |
| DisjointSets.Partition.Union | src/corpus_candidates.ts:866-869 | exactly the nodes rooted where the first node was are now rooted where the second is |
| DisjointSets.Partition.Link | src/corpus_candidates.ts:1001-1002 | hanging one found root under another has the same effect on all roots |
| Topics.JoiningPairMeets | src/corpus_candidates.ts:735-753 | the prefixes of two documents that join share a term, so indexing prefixes only loses no joining pair |
| Topics.TopicReportUnique | src/corpus_candidates.ts:757-784 | at most one list meets the definition of the report, so two passes that meet it return the same candidates |
| Topics.ZeroThresholdJoinsAll | src/corpus_candidates.ts:806-820 | at a threshold that rounds to zero one candidate of all eligible documents is the report |
| Topics.BuildTopicCandidatesExhaustive | src/corpus_candidates.ts:967-1028 | comparing every pair yields the report: the connected groups of two or more eligible documents |
| Topics.BuildTopicCandidates | src/corpus_candidates.ts:785-965 | the indexed pass, with size bound, prefixes and same-component skips, yields the same report at every threshold, and the pairs evaluated plus those skipped never exceed n(n-1)/2 |
| TopicListing.EligibleAreLongEnough | src/corpus_candidates.ts:791-791 | the documents considered are those of at least twenty tokens, in the order they are listed |
| TopicListing.JoinsIffScoreReaches | src/corpus_candidates.ts:627-634 | a pair joins exactly when its shared terms over its united ones, nothing if either has none, reach the threshold |
| TopicListing.ReportListsTheClasses | src/corpus_candidates.ts:655-690 | whatever list meets the definition of the report shows every connected class of two or more eligible documents exactly once and nothing else: all ids and paths of the class, by path and in input order where paths are equal, under the digest of its sorted ids; larger classes first, then by first path, then by id |
| TopicListing.ListedTogetherIffConnected | src/corpus_candidates.ts:922-945 | two eligible documents stand in one candidate exactly when joining pairs connect them, at every threshold |
| TopicListing.ListedOnce | src/corpus_candidates.ts:922-945 | no document stands in two candidates or twice in one |
| EmbeddingPool.MeanVector | src/corpus_embeddings.ts:279-294 | the mean is refused exactly when the lengths differ, and is otherwise what averages the vectors: the first one alone, and with each further vector n times the new mean is n - 1 times the old one plus the vector |
| EmbeddingPool.AveragesIffMean | src/corpus_embeddings.ts:279-294 | one vector averages vectors of one length, the sum divided by their number; nothing averages vectors of several lengths |
| EmbeddingMean.MeanIgnoresOrder | src/corpus_embeddings.ts:279-294 | the mean depends on which vectors there are, not on their order |
| EmbeddingMean.ChunkMovesMean | src/corpus_embeddings.ts:279-294 | changing one component of one of n vectors by d changes that component of the mean by d / n and nothing else |
| EmbeddingPool.StructureAlways | src/corpus_embeddings.ts:520-544 | in every reachable state each document in flight is claimed by one worker, only claimed documents are finished or sent, and every recorded vector belongs to a finished document |
| EmbeddingResult.ProgressAlways | src/corpus_embeddings.ts:463-510 | while nothing has failed, every finished document carries its own vector or that of an earlier one under its key, every cache entry is an old one or a finished document's mean, and every claimed document is finished or in flight |
| EmbeddingResult.SuccessMeansLeadersGood | src/corpus_embeddings.ts:433-453 | a pass that succeeds vouches for every document no earlier one can serve: finite non-empty vectors of one dimension and at most one model revision |
| EmbeddingResult.GoodNeverFails | src/corpus_embeddings.ts:463-544 | when every document can be embedded in one dimension from one revision, no schedule and no width ever fails, whatever keys are shared |
| EmbeddingSafety.WidthIsRespected | src/corpus_embeddings.ts:516-545 | requests in flight never exceed the width, nor the number of documents |
| EmbeddingSafety.ClaimedByOne | src/corpus_embeddings.ts:528-541 | no document is in two hands and none in hand is already finished |
| EmbeddingSafety.SentAtMostOnce | src/corpus_embeddings.ts:490-507 | no chunk of any document is sent twice in a run |
| EmbeddingSafety.NothingSentAfterFailure | src/corpus_embeddings.ts:424-431 | once a failure is recorded, no continuation of the run sends anything or records another one |
| EmbeddingSafety.PoolIsGiven | src/corpus_embeddings.ts:411-454 | the pool works on exactly the documents that were decoded and are no secret candidate, by id |
| EmbeddingSafety.OnlyOpenTextIsSent | src/corpus_embeddings.ts:410-413 | every text sent is a chunk of an offered document that was decoded and is no secret candidate |
| EmbeddingSafety.NothingHalfEmbedded | src/corpus_embeddings.ts:487-514 | in every reachable state, failed or not, every recorded vector is a cached one, or averages the answers to all chunks of one document filed under the same key |
| EmbeddingSafety.EveryTurnSpends | src/corpus_embeddings.ts:528-545 | every turn of a worker that has not stopped lowers a budget, so no schedule keeps the pool busy for ever |
| EmbeddingSafety.RunToTheEnd | src/corpus_embeddings.ts:543-545 | every run can be taken on to a state in which all workers have stopped |
| EmbeddingCounters.CountersAddUp | src/corpus_embeddings.ts:478-480 | a successful pass counts one hit for each document served from the cache and sends all chunks of every other one, at any width |
| EmbeddingSchedule.OneAtATime | src/corpus_embeddings.ts:369-370 | with one worker exactly the shadowed documents are served from entries made during the run, and the pass succeeds as soon as the others can be embedded |
| EmbeddingSchedule.LaterRounds | src/corpus_embeddings.ts:543-545 | with a worker for each document no document is ever served from an entry made during the run |
| EmbeddingSchedule.OutcomeIsScheduleFreeIff | src/corpus_embeddings.ts:377-379 | success, vectors and revision are the same at all widths and interleavings exactly when: if the documents nothing shadows can be embedded then all can, each shadowed one to the vector it may be served, and none answered by a revision of its own |
| EmbeddingSchedule.ReportIsScheduleFreeIff | src/corpus_embeddings.ts:377-379 | the whole report with its sent and hit counters is the same at all widths and interleavings exactly when no document is shadowed, unless the unshadowed ones already make every pass fail |
| EmbeddingSchedule.ContentAddressedIsScheduleFree | src/corpus_embeddings.ts:348-361 | when documents under one new key have one text, success, vectors and revision never depend on width or interleaving |
| EmbeddingSchedule.TwoTextsDependOnSchedule | src/corpus_embeddings.ts:348-361 | two texts under one new key make both the vectors and the report depend on the schedule |
| DocumentChunks.ChunkDocument | src/corpus_embeddings.ts:198-228 | the chunks are the first overlapping windows of the text, none blank, and stop at eight, at the end of the text or before a blank window |
| DocumentChunks.ChunksReassemble | src/corpus_embeddings.ts:198-228 | put together without their overlaps, consecutive windows are a prefix of the text: nothing inside it is lost |
| DocumentChunks.NothingIsLostIff | src/corpus_embeddings.ts:198-228 | the whole text is embedded exactly when it fits into eight windows and none of the windows it needs is blank |
| DocumentText.EmbeddedTextIs | src/corpus_embeddings.ts:205-210 | the embedded text is title, headings and body in that order, each trimmed and on lines of its own, blank ones left out |
| Carrier.ScanCarrierPosition | src/comment.ts:279-332 | the cursor routine computes the prologue grammar, step by step: BOM, shebang, then directives, cookie, declaration or open tag, and whether the last line ends |
| Carrier.ScanBlockAt | src/comment.ts:364-389 | the line loop finds the block that starts at a position, its last line and its end, or that there is none |
| CarrierPrologue.PositionIff | src/comment.ts:279-332 | an offset is the carrier position exactly when, behind mark and shebang, it ends what the language keeps on top: all leading directive lines and no other; the cookie on the first line or behind a comment on the second; the bare open tag; the declaration with the rest of its line; the charset line. It lacks a line break exactly when text above it does not end with one |
| CarrierPrologue.RefusedIff | src/comment.ts:296-320 | there is no position exactly for a first line that is no bare open tag, and for a declaration or charset rule that does not end its line |
| CarrierPatterns.DirectiveIff | src/comment.ts:265-265 | a line is a parser directive exactly when it is a hash, `syntax`, `escape` or `check` in any case, an equals sign, with blanks between, and anything behind |
| CarrierPatterns.CookieIff | src/comment.ts:263-263 | a line is an encoding cookie exactly when it is an indented hash with `coding:` or `coding=` and a name somewhere behind it |
| CarrierPatterns.CodingHereIff | src/comment.ts:263-263 | those words are `coding`, a colon or an equals sign, blanks, and a character of a name |
| CarrierPatterns.CommentOrBlankIff | src/comment.ts:264-264 | a line counts as comment or blank exactly when nothing stands behind its indentation, or a hash and one line of anything |
| CarrierPatterns.BarePhpIff | src/comment.ts:266-266 | an open tag is bare exactly when only blanks follow it, in any case |
| CarrierPatterns.CharsetIff | src/comment.ts:267-267 | a charset line is the rule with a quoted name, a semicolon and blanks |
| CarrierBlocks.BlockAtIff | src/comment.ts:364-389 | a block stands at an offset exactly when its line opens one and the first later line that closes it is reached, in a block of line comments over comment lines only; it ends with that line |
| CarrierInert.DetectNewlineIs | src/comment.ts:199-202 | a text is read as CRLF exactly when its first line break is one |
| CarrierInert.BlockStaysInside | src/comment.ts:212-240 | between its delimiters a written block comment holds no `--`, `*/` or `#{`, whichever its host would read |
| CarrierInert.BlockIsAllComment | src/comment.ts:212-237 | in a written block of line comments the prefix follows every line end, those included that only some hosts know |
| CarrierPlacement.PlacedAgain | src/comment.ts:262-332 | the position computed on the injected text is the one computed on the body, unless the block's first inner line passes for the encoding cookie, and then it lies behind that line |
| CarrierTerminator.TerminatorSupplied | src/comment.ts:466-489 | once its line break is supplied, an unterminated prologue is a terminated one that covers the whole text |
| CarrierRoundTrip.BlockFound | src/comment.ts:227-242 | a written block is found where it starts and is exactly as long as it was written, whatever follows |
| CarrierRoundTrip.HeadOfHeld | src/comment.ts:401-426 | in an injected text the block is found at its own position, by the computed one or by the byte-0 fallback, except when its own lines capture the search |
| CarrierRoundTrip.HeadOfSupplied | src/comment.ts:401-426 | behind an unterminated prologue the block is found, and the removal starts at the supplied line break |
| CarrierLaws.OwnConventionMatches | src/comment.ts:199-202 | a line break of the body's own convention is always one that removal recognises |
| CarrierLaws.StripUndoesInjection | src/comment.ts:428-489 | for every body, prologue, delimiter and line break, removing the injected block gives back the body character for character exactly when the header's first lines do not capture the search and a supplied line break is recognised |
| CarrierLaws.HijackHappens | src/comment.ts:401-426 | a two-line header on an empty Python file for which removal does not give the file back |
| CarrierLaws.MismatchHappens | src/comment.ts:410-421 | a shebang without a line break, injected with CRLF, for which removal leaves half of the line break behind |
| CarrierLaws.OlderFormIsRemoved | src/comment.ts:401-425 | a block in the form of an earlier version, where that version put it, is removed and leaves the rest as it was |
| CarrierReading.ExtractionReadsTheBlock | src/comment.ts:452-463 | from an injected text whose header does not capture the search the reader gets the trimmed inner lines of the block that was written |
| CarrierReading.ExtractionReturnsTheYaml | src/comment.ts:452-463 | for a header without carriage returns that is the trimmed header, at either line-break convention |
| CarrierReading.ReinjectionReplaces | src/comment.ts:477-489 | stripping and injecting a second header is injecting it into the clean body |
| CarrierReading.StrategyIsStable | src/comment.ts:138-159 | the strategy resolved for a clean file is the one resolved for the file that holds its block |
| MemberPaths.CanonicalIsIdempotent | src/archive_preflight.ts:110-117 | a canonical member path is its own canonical path |
| MemberPaths.CanonicalKeepsTheNames | src/archive_preflight.ts:110-117 | the canonical path keeps, in order, the components that are neither empty nor a dot, split at slashes of either kind, and a leading slash |
| MemberPaths.ResolvesInsideRoot | src/archive_preflight.ts:148-160 | the stack walk accepts exactly the paths that never rise above the root and end below it |
| MemberPaths.NoPathHoldIffSafe | src/archive_preflight.ts:162-216 | the per-name rules hold nothing exactly when the name is short, relative, free of parents and NUL, and names something that fits the filesystem: the containment walk adds no rule of its own |
| ArchivePreflight.KeyIsInjective | src/archive_preflight.ts:128-130 | two paths share a collision key exactly when their folded segments agree one by one |
| ArchivePreflight.Accumulator.constructor | src/archive_preflight.ts:481-492 | the accumulator starts with nothing inspected and with the holds about depth and member count |
| ArchivePreflight.Accumulator.CollisionHolds | src/archive_preflight.ts:325-349 | one entry earns at most one collision hold, none exactly when its path is empty or its key is new, with the code for a repeated path or for the fold that merged it with the first path under its key |
| ArchivePreflight.Accumulator.NotePathUsage | src/archive_preflight.ts:388-400 | a file's key is noted once, in order, with the first name that declared it, and the directory keys gain exactly those this entry uses, its ancestors included |
| ArchivePreflight.Accumulator.PathConflictHolds | src/archive_preflight.ts:403-418 | the conflicts are exactly the file keys also used as directories and not already held as collisions, in order of first use, each naming the first member that declared it |
| ArchivePreflight.Accumulator.Inspect | src/archive_preflight.ts:421-451 | after an entry every map, list, sum and hold is the one specified for the entries inspected so far and this one |
| ArchivePreflight.ConflictIffFileAbove | src/archive_preflight.ts:403-418 | over clean distinct entries no key is used both ways exactly when no file's segments are a proper prefix of another entry's |
| ArchivePreflight.NoHoldIffAdmissible | src/archive_preflight.ts:481-509 | the holds specified for an archive are none exactly when depth, count, size and ratio are within bounds, every entry passes its own rules, all keys differ and no file stands above another entry |
| ArchivePreflight.PreflightArchive | src/archive_preflight.ts:481-509 | the pass reports exactly the specified holds in their order, accepts exactly the admissible archives, and reports the members, directories and sums of the directory |
| ArchiveReasons.HoldIffReason | src/archive_preflight.ts:162-509 | each of the twenty-two holds is reported exactly when its own condition holds of the archive, a member, a member and those before it, or a file and the directories beside it, and names that member |
| ArchiveExtraction.AdmittedIsFaithful | src/archive_preflight.ts:481-509 | the members of an admitted archive, written in any order and with any bytes where names are merged by the fold, all end at their own path with their own bytes, inside the root, and nothing else is on the disk but the directories they need |
| ArchiveExtraction.FaithfulIffMaterializable | src/archive_preflight.ts:325-418 | writing keeps every member for all orders and bytes exactly when no file stands at or above the place of another entry |
| ArchiveExtraction.KeyRulesIffMaterializable | src/archive_preflight.ts:325-418 | all keys differ and no file stands above another entry exactly when writing can keep every member and no two directory entries share a place |
| ArchiveExtraction.AdmissibleIffFaithful | src/archive_preflight.ts:481-509 | an archive is admissible exactly when it is within bounds, every entry passes its own rules, writing keeps every member for all orders and bytes, and no directory is listed twice |
| ArchiveExtraction.TwoDirectoriesAreHeld | src/archive_preflight.ts:325-349 | the directory entries `Docs` and `docs`, under a fold that merges them, pass their own rules and can be written in any order, and their keys do not differ |
| ArchiveExtraction.VerdictIgnoresOrder | src/archive_preflight.ts:481-509 | acceptance depends on which entries the central directory lists, not on their order |
| Fusion.ClassifyPair | src/corpus_fusion.ts:129-215 | the loop's classification is the meaning of the signals: class, supporting and strong families in order, counts and flags |
| Fusion.DecisionIsMeaning | src/corpus_fusion.ts:161-198 | the branches on counts give strong exactly for two strong signals of two families, moderate exactly for corroboration or a declaration, and an embedding alone corroborates nothing |
| Fusion.ProjectEdgeIffEvidence | src/corpus_fusion.ts:526-535 | a pair may join one body of work exactly when it holds declared identity, a graph signal, or lexical and model evidence together |
| Fusion.TopicEdgeIffNotWeak | src/corpus_fusion.ts:456-463 | a pair is a topic edge exactly when its class is above weak: the two further tests add nothing |
| Fusion.MoreEvidenceKeepsEdges | src/corpus_fusion.ts:129-215 | a pair given more signals is never classified lower, and keeps a topic or project edge it had |
| Fusion.SignalOrderIsIrrelevant | src/corpus_fusion.ts:129-215 | nothing a classification says depends on the order of the signals |
| FusionEvidence.ModelAloneIsWeak | src/corpus_fusion.ts:179-184 | signals of a model and of shared ancestry alone are weak, whatever the scores |
| FusionEvidence.DeclarationIsEnough | src/corpus_fusion.ts:187-188 | a declared identifier or an explicit reference is never weak |
| FusionEvidence.ContextAddsNothing | src/corpus_fusion.ts:150-150 | shared ancestry changes no class |
| FusionEvidence.WordingAloneIff | src/corpus_fusion.ts:189-204 | wording alone is never strong, and is moderate exactly when two different measures of it reach their thresholds |
| FusionEvidence.LinksAloneAreNotStrong | src/corpus_fusion.ts:185-188 | references and shared dependencies alone are never strong |
| FusionEvidence.StrongIff | src/corpus_fusion.ts:103-109 | evidence is strong exactly when two signals reach their thresholds that come from two of wording, links, declared identifiers and the model |
| FusionComponents.Forest.Find | src/corpus_fusion.ts:230-237 | the compressing climb terminates, returns the node's root and changes no root |
| FusionComponents.Forest.Add | src/corpus_fusion.ts:247-249 | a new node is its own root and joins nothing |
| FusionComponents.Forest.Union | src/corpus_fusion.ts:238-245 | afterwards two nodes share a root exactly when the links, this one included, connect them, and the root is still the least |
| FusionComponents.RootIsLeast | src/corpus_fusion.ts:238-245 | the root of a component is its least member in code-point order |
| FusionComponents.ConnectedComponents | src/corpus_fusion.ts:226-264 | the result is the component report: every connected group of two or more, sorted, once each, by first member |
| FusionComponents.ReportIsUnique | src/corpus_fusion.ts:226-264 | the report depends on the links alone, not on the order they were read in |
| FusionComponents.ComponentsNeverSplit | src/corpus_fusion.ts:226-264 | with more links every old component lies inside one new one |
| FusionCandidates.BuildCandidates | src/corpus_fusion.ts:456-560 | the candidates are the components of the admitted edges, each with the sorted ids of the pairs that lie inside it, the strongest class among them, and the weak-connection flag exactly when none of them is strong |
| FusionCandidates.EvidenceIsWithin | src/corpus_fusion.ts:425-444 | the supporting pairs of a candidate are exactly those between two of its members, by id; its class is the best of theirs, and it is weakly connected exactly when none of them is strong |
| FusionCandidates.EvidenceNeverSplits | src/corpus_fusion.ts:456-560 | adding signals to a pair, or adding a pair, keeps every old topic and project component inside one new component |
| FusionCandidates.TopicCandidateIsNotWeak | src/corpus_fusion.ts:440-524 | no topic candidate is of the weak class |
| CanonicalJson.CanonicalIffRenderable | src/corpus_analysis.ts:81-108 | the renderer raises exactly for a value holding, at some depth, an unfinished number, something unsupported, or an `undefined` that is not an object member's value |
| CanonicalJsonText.NormalRenders | src/corpus_analysis.ts:81-108 | two values that are equal once undefined members are dropped and keys sorted render alike, or neither renders |
| CanonicalJsonText.NormalFormRendersAlike | src/corpus_analysis.ts:91-93 | dropping undefined members changes neither whether a value renders nor its text |
| CanonicalJsonText.RenderInjective | src/corpus_analysis.ts:81-108 | two values in normal form with one text are one value, whatever follows either text |
| CanonicalJsonText.TextDeterminesValue | src/corpus_analysis.ts:81-108 | two values that render have the same text exactly when they are equal once undefined members are dropped |
| CanonicalJsonText.KeyOrderIsIrrelevant | src/corpus_analysis.ts:92-104 | two objects with the same members inserted in different orders render alike |
| CanonicalJsonForm.ObjectForm | src/corpus_analysis.ts:96-104 | the text of an object holds every defined member once, keys strictly ascending in code-point order, each with the text of its value |
| CanonicalJsonForm.ArrayForm | src/corpus_analysis.ts:91-95 | the text of an array holds the text of every item, in order |
| CanonicalJsonForm.NumberForm | src/corpus_analysis.ts:86-89 | an integer is spelt in the decimal digits that stand for it |
| CanonicalJsonForm.EscapesAreJson | src/corpus_analysis.ts:90-90 | quotes, backslashes and control characters are escaped as in section 7 of RFC 8259, and nothing else is |
| CorpusCache.MemoryCorpusCache.constructor | src/corpus_cache.ts:367-373 | a new cache is empty and has counted nothing in any layer |
| CorpusCache.MemoryCorpusCache.Get | src/corpus_cache.ts:375-404 | a lookup hits with a payload exactly when the slot holds what storing that payload would write there; an entry of another producer or the previous epoch is a miss counted stale, anything else held there a miss counted and noted as corrupt, and both are discarded |
| CorpusCache.MemoryCorpusCache.Put | src/corpus_cache.ts:406-416 | storing writes an honest entry and counts one write, or raises and changes nothing when the payload has no canonical text |
| CorpusCache.MemoryCorpusCache.CorruptEntry | src/corpus_cache.ts:418-425 | only the payload hash of an existing entry changes |
| CorpusCache.OutcomeMeans | src/corpus_cache.ts:53-57 | hit, stale and missing are told from the fields of the stored record alone |
| CorpusCache.AnotherRunsStoreIsNotServed | src/corpus_cache.ts:382-387 | in a store written by other producers or in the previous epoch, consistent and with any values, no lookup hits, and the value computed now takes the place of what was there |
| CorpusCache.StoredIsServed | src/corpus_cache.ts:657-668 | what a lookup stored is what the next lookup of that slot is served |
| CorpusCache.HitIsHonest | src/corpus_cache.ts:265-285 | an entry that passes every check holds the value its key stands for, in a store where anything was deleted, moved, made stale or damaged, or written by another producer with other values, as long as no payload and hash were made up together under this producer's name |
| CorpusCache.ServedWronglyIffForged | src/corpus_cache.ts:265-285 | in its own slot, of this epoch and producer, an entry is served with another value than the computed one exactly when its payload and hash agree with each other and not with that value |
| CorpusCache.UnfinishedNumberIsRefused | src/corpus_cache.ts:657-668 | a payload holding a number that is not finite is one `cached` raises for, and never returns |
| CorpusCache.Cached | src/corpus_cache.ts:657-668 | a cached computation returns the computed value, or raises exactly when that value cannot be rendered; the store after it is the specified one and as trustworthy, and it is one lookup |
| CorpusCache.Run | src/corpus_cache.ts:657-668 | in a run of lookups between which slots are emptied, moved, overwritten or their hashes damaged in any way that forges nothing, every lookup gives the computed value, the store is the specified one, and the lookups counted are those made |
| CorpusCache.CountedOnce | src/corpus_cache.ts:293-340 | every lookup is counted as one hit or one miss, also when it is stale or corrupt |
| CorpusCache.DeltasAddUp | src/corpus_cache.ts:620-648 | the deltas of two consecutive spans add up to the delta of both, in each layer and in total |
| RenamePairing.Group | src/corpus_diff.ts:317-329 | each bucket holds exactly the artifacts of one hash, by path |
| RenamePairing.PairRenames | src/corpus_diff.ts:309-353 | the loop over shared hashes gives the specified renames and leaves exactly the artifacts it did not pair |
| RenamePairing.RenamesOfOneHash | src/corpus_diff.ts:337-346 | every hash gives exactly as many renames as the smaller number of departures and arrivals it has |
| RenamePairing.PairingConserves | src/corpus_diff.ts:299-353 | every departure and every arrival is in exactly one rename or left over, the numbers add up, and no hash is left over on both sides |
| RenamePairing.NeverBothLeft | src/corpus_diff.ts:337-353 | a departure and an arrival that are both left over differ in hash |
| RenamePairing.PairingIgnoresOrder | src/corpus_diff.ts:309-353 | where no two departures, and no two arrivals, of one content stand at one path, the renames depend on which artifacts departed and arrived, not on the order they are listed in |
| RenamePairing.TiesDependOnOrder | src/corpus_diff.ts:325-346 | of two departures of one content at one path the one listed first is renamed |
| RenamePairing.SwappingInverts | src/corpus_diff.ts:309-353 | comparing the snapshots the other way round inverts every rename, in the same order |
| CorpusDiffReading.RenamesGoByPath | src/corpus_diff.ts:302-308 | the renames of one content join departures and arrivals in path order |
| CorpusDiffReading.EarliestArePaired | src/corpus_diff.ts:302-308 | of one content, the departures and arrivals that find a partner are those first by path |
| CorpusDiff.Compare | src/corpus_diff.ts:423-470 | the first loop sorts the current artifacts into those that stay, with and without a content change, and those that arrive |
| CorpusDiff.BuildDiff | src/corpus_diff.ts:293-502 | the counts are those of the classification, the entries its entries sorted by category, path and id, and membership is said to change exactly when an entry says so |
| CorpusDiff.CountsAddUp | src/corpus_diff.ts:423-502 | unchanged, changed, renamed and added count the current snapshot; unchanged, changed, renamed and removed count the previous one |
| CorpusDiff.CountsInvert | src/corpus_diff.ts:423-502 | the other way round, added and removed change places and nothing else |
| CorpusDiff.DiffIgnoresOrder | src/corpus_diff.ts:293-502 | the sorted entries depend on which artifacts the two snapshots hold, not on the order they are listed in, where no departures or arrivals of one content share a path |
| CorpusDiff.MembershipChangedIff | src/corpus_diff.ts:384-390 | membership changed exactly when the snapshots hold different pairs of identity and content |
| CorpusDiffReading.DiffShowsCurrent | src/corpus_diff.ts:432-502 | the entries other than removals show exactly the artifacts of the current snapshot, with id, path and content |
| CorpusDiffReading.DiffTellsPrevious | src/corpus_diff.ts:432-502 | every previous artifact is told of by an entry, with its content, or with its earlier id, path and content if it was renamed, and every entry but an addition tells of one |
| CorpusDiffReading.CategoryMeans | src/corpus_diff.ts:432-502 | an entry's category says in which of the two snapshots its id, and the id it was renamed from, occur |
| CorpusDiffReading.EntriesInOrder | src/corpus_diff.ts:293-299 | the entries ascend by category name, then path, then id |
| ProjectContainers.ClaimsFormAChain | src/corpus_candidates.ts:187-192 | of two containers that claim one path the shorter claims the longer, and two of one length are one |
| ProjectContainers.MarkerLiesInItsContainer | src/corpus_candidates.ts:139-176 | every project marker lies under the container it implies |
| ProjectContainerPaths.MarkerContainerIs | src/corpus_candidates.ts:139-176 | a manifest stands for its own directory, and a CI definition for the directory above the innermost `.github` or `.circleci` on its path |
| ProjectContainerPaths.UnderIff | src/corpus_candidates.ts:187-192 | a container claims exactly the paths whose directories begin with its own, whole names at a time |
| ProjectContainerPaths.ContainerNameIs | src/corpus_candidates.ts:178-184 | a container is called by the last directory on its path, archive marks and slashes behind it aside |
| ProjectContainerPaths.KeyIs | src/corpus_candidates.ts:286-298 | the least declared identifier is the key, without one the directory's name, and for a bare root its label |
| ProjectContainers.CollectContainers | src/corpus_candidates.ts:230-256 | every root and container with a marker is collected once, with its declared name |
| ProjectContainers.BucketByRoot | src/corpus_candidates.ts:258-268 | each root lists its containers, longest first |
| ProjectContainers.FindOwner | src/corpus_candidates.ts:274-276 | the first container in that order that claims the item is its innermost claimant, and none is found exactly when none claims it |
| ProjectContainers.Assign | src/corpus_candidates.ts:270-281 | each slot is given exactly the items it owns |
| ProjectContainers.OwnerIsUnique | src/corpus_candidates.ts:270-285 | no two containers own one item, and every other claimant contains the owner |
| ProjectContainers.NamespacesAreApart | src/corpus_candidates.ts:194-212 | equal group keys come from one declared name, or from one directory name, or from one root label: the three never meet |
| ProjectContainers.BuildProjectCandidates | src/corpus_candidates.ts:229-339 | each candidate lists, sorted, exactly the items owned by the containers of its key, and no key with members is missing or repeated |
| ProjectContainers.CandidatesAreDisjoint | src/corpus_candidates.ts:286-339 | no artifact is in two candidates |
| ProjectContainers.CandidatesCoverTheClaimed | src/corpus_candidates.ts:286-339 | an artifact is in some candidate exactly when some container claims its path |
| AuthorityScan.LineStarts | src/authority_scan.ts:403-407 | the offsets are 0 and every position behind a line break, in order |
| AuthoritySignals.LiteralIff | src/authority_scan.ts:139-139 | a literal signal is one of four names, or one of three with white space or none and a parenthesis behind it, in any case |
| AuthoritySignals.OpenIff | src/authority_scan.ts:140-140 | an open call is the name with white space or none and a parenthesis behind it, in any case |
| AuthorityScan.InsideLiteral | src/authority_scan.ts:433-437 | a literal signal inside another one is on the same line, so scanning on behind a match loses no line |
| AuthorityScan.ScanLiterals | src/authority_scan.ts:433-437 | every position found is a literal signal, and every literal signal has a found one at or before it on its line |
| AuthorityScan.PointerIsNext | src/authority_scan.ts:414-450 | a cached forward pointer, advanced only when it lies behind, is the next match from the new position, and never moves back |
| AuthorityScan.BeforeClose | src/authority_scan.ts:443-450 | the comparison of the two pointers holds exactly when a quote-w occurs before the next parenthesis |
| AuthorityScan.ScanOpens | src/authority_scan.ts:438-450 | an `open(` is found exactly when a quote-w occurs after it and before the next parenthesis |
| AuthorityScan.ScanRedirects | src/authority_scan.ts:451-455 | on each line a redirect is found exactly when the first `>` has the metadata word behind it on that line |
| AuthorityScan.MapToLines | src/authority_scan.ts:456-461 | the moving line pointer maps each line that holds a position to its least position, in line order |
| AuthorityScan.WriteSignalLines | src/authority_scan.ts:430-462 | the map holds exactly the lines that carry a signal, each with the least signal position on it |
| AuthorityScan.FindMetadataWriteIndex | src/authority_scan.ts:473-487 | the answer is the least write on a qualifying line; without one, the least write at all if the file's name claims to write metadata; otherwise nothing |
| AuthorityList.StripInlineComment | src/authority.ts:75-113 | the character loop with its open quote and flow depth cuts the line where the specification does |
| AuthorityList.ParseInlineList | src/authority.ts:151-204 | the character loop splits the body at its top-level commas and reads each scalar, or refuses as specified |
| AuthorityGrammar.StrippingKeepsTheValue | src/authority.ts:75-113 | behind a key or a sequence dash exactly the comment is cut from a plain value with apostrophes and brackets mid-word, a single-quoted one, a double-quoted one with escapes, or a flow list of such, whatever `#` the quotes hold |
| AuthorityGrammar.StrippedIsCut | src/authority.ts:90-113 | of any line whatever, nothing is cut but trailing white space and a `#` at the start or behind white space, with what follows it |
| AuthorityReading.ScalarSays | src/authority.ts:118-148 | a single-quoted scalar is read with its quotes undoubled, a double-quoted one as JSON reads it, and plain text as it is unless it is a null, a bool, an indicator or a mapping |
| AuthorityReading.ListIsRead | src/authority.ts:151-204 | a flow list of items in any of the three styles is read as what its items say, and refused exactly when one of them is |
| AuthorityReading.QuotedListRoundTrip | src/authority.ts:151-204 | any list of strings in single-quoted flow style is read back unchanged |
| AuthorityReading.LineRoundTrip | src/authority.ts:207-232 | through comment stripping, the key pattern and list parsing, a flow list comes back as what its items say, behind any key and with any comment |

## Left out

- Floating point: cosine similarity, the pairs and digests computed from the vectors, `toFixed` rendering of scores, rounding of a threshold to micro-units, and vectors with rounding in their mean (components are reals).
- NearDuplicates.NearDuplicateCandidates: does not model the candidate id, a digest of the fields that are modelled.
- Topics.BuildTopicCandidatesExhaustive: shared terms and root ids of a candidate are not part of this model, as for the indexed pass.
- Topics.BuildTopicCandidates: shared terms, root ids, the posting and pair-work breakdown and choosing the salient terms are not part of this model; the term sets are given and `stableId` is a parameter.
- Tokenising, shingling, stopwords and text normalisation before the sets are built.
- EmbeddingSchedule.ReportIsScheduleFreeIff: the report's provider fields and the eligible and secret counts are left out; they are read off the input before the pool starts.
- EmbeddingPool.StructureAlways: a cache is a map that answers what was last put; an external cache that loses entries during a run is not part of this model, nor is a provider that answers one text in two ways.
- DocumentChunks.ChunkDocument: windows are counted in characters, not in UTF-16 code units, and the analysis normalisation of the body is applied before.
- Carrier.ScanCarrierPosition: the extension tables that pick delimiters and prologue are a parameter, limited to the combinations the tables hold; front matter and sidecar carriers are left out.
- CarrierReading.StrategyIsStable: binary extensions and the choice of a strategy by file name are a parameter.
- MemberPaths.NoPathHoldIffSafe: the message texts of holds and the shortened display form of a member path are left out.
- ArchivePreflight.PreflightArchive: reading the central directory, the message texts of holds and the archive's own identity are left out; NFC and lower-casing are the parameters `nfc` and `fold`.
- ArchiveExtraction.AdmittedIsFaithful: the disk is a map from folded segment lists to nodes; staging, swaps and durability of the real extraction are left out.
- FusionCandidates.BuildCandidates: candidate ids, labels, cross-archive and cross-root flags, signal counts, keyphrases, the ambiguity classes other than weak connection and consolidation candidates are left out.
- CanonicalJsonText.TextDeterminesValue: numbers are integers; a number with a fraction and the indented layout's white space are left out.
- CorpusCache.Cached: the file-backed cache, its permissions and its writes, and the rounding of the hit ratio are left out; the hash is injective.
- CorpusDiff.BuildDiff: the archive, root and analysis parts of the diff, and root ids and sizes of artifacts, are left out.
- ProjectContainers.CollectContainers: the corpus path and the marker kinds of a container are not part of this model.
- ProjectContainers.BuildProjectCandidates: candidate ids, corpus paths, root ids, marker kinds and the declared flag are left out; a map slot is a pair of root and path instead of a joined string.
- AuthorityScan.FindMetadataWriteIndex: the canonical-invocation, token and file-name patterns are parameters.
- AuthorityList.ParseInlineList: the JSON reading of a double-quoted scalar is a parameter, and the error messages are left out.
- Directory walks, git, HTTP, ZIP reading, command lines and the governed check and apply operations.
