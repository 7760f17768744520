# Goncho memory service: verified model

What an agent remembers passes through a handful of small machines in Goncho: leases and their
audit, a graph walk, a merge in place, a document format, rankings, a breaker, a task graph, slots
and their history, an index. Each keeps promises over any number of inputs and calls. Here they are
modelled in Dafny 4.11, one module per machine, and the promises proved. `dafny verify
dfyconfig.toml` checks everything.

Code that changes state is modelled as methods, loops and classes; each is proved equal to a
function of its inputs or of the old state, or against a predicate that says what it promises, and
the theorems are lemmas about those functions and predicates. Tables are maps or sequences. Clocks,
codecs, tokenizers, embeddings, similarity, case folding and rounding are parameters, and what is
assumed of them stands in a named predicate or a `requires`.

| module | what it is about |
|---|---|
| `ActionLeases` | owners lease actions for a time; the audit log determines the lease table |
| `RecallGraph` | the fixpoint loop that pulls related memories into a recall |
| `DreamCompression` | the in-place merge of near-duplicate conclusions |
| `MarkdownV1` | the printer and parser of the Memory V1 document |
| `RecallRanking`, `RecallSelection` | rank fusion and order; greedy selection under a limit and a token budget |
| `RecallTypes`, `RecallPipeline` | what the two share; scoring and then selecting |
| `ProviderBreaker` | the circuit breaker as a function of its history |
| `ActionGraph` | the dependency frontier, and completing the next action again and again |
| `Lineage`, `CrossChat` | session ancestry; two decisions about a user's recall that must agree |
| `NegativeEvidence` | unsettled tool failures grouped into candidates |
| `MemoryFacade` | memories over named slots, with an observation for every change |
| `VectorIndex` | the sorted vector slice and its search |
| `Text`, `Sorting`, `Finite` | trimming and string order, stable sorting, counting |

## What the proofs show about the code

Where a property fails, a lemma gives an input that fails, and another says when it holds: if and only
if, where the list says "exactly" or "in every other case".

- Graph expansion never ends if a reachable relation points at a base candidate whose id is not
  trimmed and which lacks the relation's evidence, and ends in every other case: the enriched
  candidate is filed under its raw id while it is looked up under the trimmed one
  (service/recall_graph.go:107-109).
- Lease exclusion needs calls to commit in the order of the clocks they read. Under any clocks, the
  next handover before an expiry happens exactly when a sweep of the key's scope that read a clock
  at or past the expiry has committed since the grant; and any grant to another owner before the
  expiry has such a sweep, or a grant to another owner at such a clock, before it. One failing run
  has a sweep; the other has none, and renews by a clock from before.
- A lease re-acquired by its live holder is redated if its AcquiredAt is not positive.
- The breaker's admission is a matter of the trailing failures and the cooldown only while the
  clock does not go back; the third case that then appears is stated.
- A Memory V1 document loses outer newlines of contents, and content that holds the closing marker
  is cut. Metadata whose encoding holds "-->" ends its comment early: what is left of it turns into
  content, or the document is refused. Exactly the other documents come back, and a second rendering
  of what came back is identical.
- The order in which observations come changes a scope's negative evidence exactly when some id that
  counts against it counts at two times: a bucket keeps the one it saw first.
- A facade add to the workspace "*" fails after the slot is written, because observations refuse
  that workspace: the memory exists without a history (service/observations.go:57-59).
- Facade history is the memory's own exactly when no entry of its name in the listing is another
  memory's, and no entry of its own lies beyond the listing. The first fails for requests without a
  profile, which other profiles' events match too; the second because the observation table never
  returns more than 500 rows (internal/observationlog/log.go:675-683), whatever the scan limit asks
  for, against the comment on it (service/memory_facade.go:355-357).
- Replacing or appending to a slot without naming a kind resets its kind to "fact", although both
  have a branch that would keep it (service/memory_slots.go:128-130, 155-157).
- A vector upsert that cannot write its file fails, yet its entry is found until a restart, and
  afterwards only if the file had it already; a later write that succeeds saves it after all.
- An action completed while an upsert of it is under way becomes pending again: done survives exactly
  the writes that had read it done (service/action_graph.go:121-134).
- Dream compression reports the rows it meant to delete; those whose deletion fails stay and are
  counted all the same, so the count is too high exactly when there are such rows.

## Model

| member | source | states |
|---|---|---|
| ActionLeases.LeaseService.AcquireActionLease | service/action_leases.go:117-174 | an acquire validates, guards the overflow, refuses a key another owner holds live, and otherwise upserts the lease and appends an "acquired" row; the log still determines the table |
| ActionLeases.LeaseService.RenewActionLease | service/action_leases.go:176-237 | a renew extends the live lease of its own owner, logs a miss or a refusal otherwise, and checks the overflow only once the owner is known; the log still determines the table |
| ActionLeases.LeaseService.ListExpired | service/action_leases.go:402-420 | a sweep reads exactly the leases of its scope that have run out, earliest expiry first, then by action |
| ActionLeases.LeaseService.ExpireActionLeases | service/action_leases.go:239-272 | a sweep deletes those leases and no others, with one "lease expired" row for each; the log still determines the table |
| ActionLeases.LeaseService.DeleteListed | service/action_leases.go:257-267 | the sweep's loop removes every listed key and appends its row in listing order |
| ActionLeases.StepOnKey | service/action_leases.go:142-173 | whatever the call, a key is left alone, handed over but never from under another live holder, or removed after it ran out |
| ActionLeases.HeldUntil | service/action_leases.go:142-173 | in clock order, a key stays with the owner it was handed to, with the expiry granted last, until it runs out |
| ActionLeases.Exclusion | service/action_leases.go:117-272 | exclusion over every run in clock order: once a key was handed to an owner whose latest grant runs to e, nobody else is handed it before e |
| ActionLeases.LeaseStaysUntilSwept | service/action_leases.go:117-272 | while nobody is handed a key, its lease is in the table exactly until a sweep of its scope reads a clock at or past the expiry |
| ActionLeases.HandoverExactly | service/action_leases.go:117-272 | under any clocks, after a grant to e and no grant since, another owner's well-formed acquire is granted if and only if its clock has reached e or such a sweep committed in between |
| ActionLeases.HandoverWithoutSweeps | service/action_leases.go:142-237 | with no such sweep and no grant between, whoever else is handed the key is handed it no earlier than the expiry |
| ActionLeases.EarlyHandoverHasCause | service/action_leases.go:117-272 | under any clocks, a grant to another owner before e has, since the last grant to the owner, a sweep of the key's scope or a grant to another owner that read a clock at or past e |
| ActionLeases.ExclusionNeedsClockOrder | service/action_leases.go:247-265 | a run that shows exclusion fails when a sweep commits before a call that read an earlier clock |
| ActionLeases.ExclusionNeedsClockOrderUnswept | service/action_leases.go:197-236 | a run without sweeps that shows exclusion fails when a holder renews by a clock from before the handover |
| ActionLeases.StepKeepsLog | service/action_leases.go:390-400 | every transaction keeps log and table in agreement, and every row it writes was due |
| ActionLeases.LogRebuildsTable | service/action_leases.go:142-267 | after every run, folding the audit rows in order rebuilds the whole lease table |
| ActionLeases.LeaseTimesOrdered | service/action_leases.go:318-335 | under any clocks every stored lease was renewed before it expires, within int64; in clock order it was also acquired no later than renewed, and not renewed in the future |
| ActionLeases.AcquiredAtOpensTenure | service/action_leases.go:318-323 | on a clock past 1970, AcquiredAt is the time of the audit row that opened the owner's unbroken tenure |
| ActionLeases.ReacquireKeepsAcquiredAt | service/action_leases.go:318-323 | a re-acquire by the live holder keeps AcquiredAt if and only if it is positive or equal to now |
| RecallGraph.GraphExpansion.constructor | service/recall_graph.go:115-135 | the state files each base candidate under its trimmed id, the last one winning |
| RecallGraph.GraphExpansion.EnrichExisting | service/recall_graph.go:93-113 | the enrich loop over candidates, maps and slice computes one enrich pass over the relations |
| RecallGraph.GraphExpansion.AddRelated | service/recall_graph.go:67-86 | the expand loop appends each newly reached memory and files it |
| RecallGraph.ExpandGraphRecallCandidates | service/recall_graph.go:63-91 | the whole loop ends and returns an Expansion: the base kept, exactly the reachable ids, each new one once, each with graph evidence for every edge of a path from the base; and every candidate, new or last of its id in the base, with evidence of every accepted relation into it from a reachable id |
| RecallGraph.LoopEndsUnlessStalled | service/recall_graph.go:63-91 | for all inputs the loop ends if and only if no reachable relation points at a base candidate with an untrimmed id that lacks its evidence |
| RecallGraph.TrimmedBaseNeverStalls | service/recall_graph.go:107-110 | base candidates with trimmed ids never stall the loop |
| RecallGraph.StallExample | service/recall_graph.go:107-110 | two candidates and one relation that keep the loop going for ever |
| RecallGraph.StalledRoundIsNotQuiet | service/recall_graph.go:93-113 | with a stall, every round reports that it enriched something |
| RecallGraph.RoundShrinks | service/recall_graph.go:63-113 | otherwise every round but the last lowers (memories missing, annotations pending) lexicographically |
| RecallGraph.QuietRound | service/recall_graph.go:63-91 | a round that does nothing has found exactly the reachable ids and has no annotation left to make |
| RecallGraph.RoundGrows | service/recall_graph.go:178-200 | no round takes a field or a piece of provenance away from an added candidate |
| RecallGraph.RoundKeepsInv | service/recall_graph.go:63-135 | every round keeps the invariant: base slots kept, added ids fresh and distinct, every filed id explained by a path |
| RecallGraph.IdsIgnoreRelationOrder | service/recall_graph.go:63-176 | the set of ids does not depend on the order or repetition of relations |
| DreamCompression.Merge | service/dream_compression.go:17-48 | the in-place double loop: survivors are pairwise dissimilar, every tombstoned row leads through a chain of similar rows, never getting shorter, to a survivor, the count is the number tombstoned, and it is 0 exactly when nothing was redundant |
| DreamCompression.ConclusionStore.ExecuteDreamCompression | service/dream_compression.go:11-54 | whichever deletions fail: the rows left are those not tombstoned and those that could not be deleted, the count is that of the tombstoned, and with no failure the rest is irredundant and the counts add up |
| DreamCompression.ConclusionStore.DeleteAll | service/dream_compression.go:42-46 | deleting one by one, in any order, leaves the rows outside the set and those whose deletion fails |
| DreamCompression.CountAddsUp | service/dream_compression.go:11-49 | the reported count and the rows left add up to the rows there were if and only if no deletion of a tombstoned row failed; they never fall short |
| DreamCompression.CountIsTooHigh | service/dream_compression.go:37-49 | two rows of the same words that cannot be deleted: both stay, and one is counted |
| DreamCompression.MergeMeaning | service/dream_compression.go:17-48 | an order of deaths, each in favour of a row then alive, gives the dominating irredundant set |
| DreamCompression.ChainFrom | service/dream_compression.go:28-37 | from any tombstoned row the chain of heirs ends in a survivor |
| DreamCompression.Jaccard | service/dream_compression.go:83-85 | the similarity is between 0 and 1, and 1 exactly for equal non-empty word sets |
| MarkdownV1.RenderMarkdown | memory/goncho_v1.go:149-182 | the printing loop writes the versions, the items in stable id order, checksums filled and outer newlines trimmed |
| MarkdownV1.ParseMarkdown | memory/goncho_v1.go:112-147 | the parsing loop advances marker by marker and collects the items, with the first error it meets |
| MarkdownV1.ParsePreamble | memory/goncho_v1.go:189-206 | the front matter of a rendered document is read back, and the items start right after it |
| MarkdownV1.MarkerFound | memory/goncho_v1.go:127-142 | the first occurrence of an unbordered marker after text without it is where it was put |
| MarkdownV1.ParseRenderedItems | memory/goncho_v1.go:112-182 | for any number of items: they come back, outer newlines gone, if no metadata ends its comment early and no content closes itself, and come back unchanged if and only if all are unbroken and clean |
| MarkdownV1.ParseCutContent | memory/goncho_v1.go:134-142 | content that holds the closing marker comes back strictly shorter |
| MarkdownV1.ParseBrokenMetadata | memory/goncho_v1.go:127-142 | metadata whose encoding holds the end of the comment is decoded up to there, the rest turning into content; if that part does not decode, the document is refused |
| MarkdownV1.BrokenIsLost | memory/goncho_v1.go:112-182 | such an item never comes back |
| MarkdownV1.RoundTrip | memory/goncho_v1.go:112-182 | parse after render gives the canonical document if and only if every encoded metadata is free of "-->" and every content is clean: no outer newline, no closing marker |
| MarkdownV1.OuterNewlineIsLost | memory/goncho_v1.go:143-174 | the smallest document that does not come back |
| MarkdownV1.CanonicalItems | memory/goncho_v1.go:149-174 | the canonical items are the given ones, sorted by id, equal ids in their old order, checksums filled |
| MarkdownV1.RenderAgainIdentical | memory/goncho_v1.go:112-182 | rendering the parsed document again gives the same text, outer newlines or not |
| RecallRanking.AddSignal | service/recall_pipeline.go:638-655 | one signal adds weight/(k+rank) to the candidates it ranks and nothing to the others |
| RecallRanking.AddRrf | service/recall_pipeline.go:638-655 | the loops over signals and candidates compute the rounded fused score |
| RecallRanking.RankedMembers | service/recall_pipeline.go:657-674 | a signal ranks exactly the candidates positive on it, each once, higher first, then by id |
| RecallRanking.MaxEvidenceScore | service/recall_pipeline.go:509-520 | the loop gives the strongest evidence of a kind, clamped |
| RecallRanking.StrongestMeaning | service/recall_pipeline.go:509-520 | that is the fallback or the score of some evidence of the kind, and no evidence of the kind is stronger |
| RecallRanking.Score | service/recall_pipeline.go:98-128 | from candidates to the scored list: seven rounded signals each, weighted sum, rank fusion, and a stable sort |
| RecallRanking.ScoredList | service/recall_pipeline.go:98-128 | it holds each candidate once, from the best down |
| RecallRanking.DominantRanksFirst | service/recall_pipeline.go:657-674 | a dominating candidate is ranked, and earlier, wherever the dominated one is |
| RecallRanking.DominantScore | service/recall_pipeline.go:98-128 | a candidate at least as good on every signal and earlier by id has fused and final scores no smaller, and outranks the other |
| RecallRanking.DominantListedFirst | service/recall_pipeline.go:1181-1207 | in the scored list it stands before the candidate it dominates |
| RecallRanking.BetterCandidateDominates | service/recall_pipeline.go:98-111 | a candidate with evidence at least as strong throughout, and no worse otherwise, dominates on every signal |
| RecallRanking.BetterCandidateListedFirst | service/recall_pipeline.go:98-128 | so it gets scores no smaller and stands before the other in the scored list |
| RecallSelection.BestIndex | service/recall_pipeline.go:315-326 | the index found is that of a candidate none of the others beats |
| RecallSelection.ScopeInputs | service/recall_pipeline.go:231-263 | the scope filter splits the scored candidates, and rejects exactly those out of scope |
| RecallSelection.PolicyFor | service/recall_pipeline.go:265-274 | the limit is the one asked for, or 5; the budget is the query's if it has one, or the configured one |
| RecallSelection.RecallSelectionFlow.SelectNext | service/recall_pipeline.go:182-220 | one turn takes a candidate no other beats out of what remains, and appends it, adjusted, to the selected if it fits and to the rejected if not; everything else stays, and every promise is kept |
| RecallSelection.RecallSelectionFlow.RejectRemainder | service/recall_pipeline.go:222-229 | what is left is rejected as not selected, which happens only at the limit |
| RecallSelection.RecallSelectionFlow.Run | service/recall_pipeline.go:162-169 | selected and rejected together are the scored candidates; limit and budget hold; every rejection is justified against the final selection; each pick was the best left at its turn; only what was left at the end is rejected as not selected |
| RecallSelection.GreedySelect | service/recall_pipeline.go:182-197 | a pick keeps the greedy record of the whole run |
| RecallSelection.SelectionIsMaximal | service/recall_pipeline.go:207-229 | a candidate that was not selected is out of scope, or the limit is full, or it does not fit beside the final selection |
| RecallPipeline.ScoreAndSelect | service/recall_pipeline.go:68-145 | the two stages together: selected and rejected are the candidates given, each once, with all that scoring and selection promise |
| RecallPipeline.BetterDoesNotRemain | service/recall_pipeline.go:182-229 | a better candidate that adjustments treat no worse is not left over once a worse one is selected |
| RecallPipeline.BetterIsNotPassedOver | service/recall_pipeline.go:98-229 | if a candidate is selected, every better one is selected too, or does not fit the budget beside the selection |
| RecallPipeline.OutOfScopeScoresNothing | service/recall_pipeline.go:526-549 | the scope comparison that rejects is the one that scores 0 |
| ProviderBreaker.Normalize | service/provider_resilience.go:106-122 | the breaker runs with a threshold and a cooldown of at least 1, the given ones if they are |
| ProviderBreaker.ProviderCircuitBreaker.BeforeCall | service/provider_resilience.go:159-170 | a call is admitted as the history says, and recorded |
| ProviderBreaker.ProviderCircuitBreaker.RecordFailure | service/provider_resilience.go:172-181 | a failure moves the fields as replaying it does |
| ProviderBreaker.ProviderCircuitBreaker.RecordSuccess | service/provider_resilience.go:183-190 | so does a success |
| ProviderBreaker.ProviderCircuitBreaker.Execute | service/provider_resilience.go:124-144 | an admitted call is recorded as begun and then by its outcome, a rejected one as begun only |
| ProviderBreaker.ProviderCircuitBreaker.HealthReport | service/provider_resilience.go:146-157 | degraded exactly while the last outcome was a failure; the retry time is the last failure plus the cooldown |
| ProviderBreaker.FieldsMeanHistory | service/provider_resilience.go:159-190 | under any interleaving and any clock, count, state, last error and opening time are functions of the history; closed exactly while the trailing failures are below the threshold |
| ProviderBreaker.AdmissionExact | service/provider_resilience.go:159-170 | under any clock, exactly when a call is admitted |
| ProviderBreaker.AdmissionByHistory | service/provider_resilience.go:159-170 | with a clock that does not go back: admitted if and only if the trailing failures are below the threshold or the cooldown since the last one has passed |
| ProviderBreaker.OpenCircuitHolds | service/provider_resilience.go:159-181 | no call of any overlap gets through within the cooldown of a failure that reached the threshold, unless one succeeds between |
| ProviderBreaker.AdmissionNeedsClockOrder | service/provider_resilience.go:124-190 | a history in which every outcome is that of an admitted call, and a clock going back admits a call inside the cooldown |
| ActionGraph.ActionStore.UpsertAction | service/action_graph.go:115-139 | an upsert trims, keeps done done and the creation time, and replaces the dependencies |
| ActionGraph.ActionStore.WriteAction | service/action_graph.go:246-269 | the write takes title and status from what was in hand, keeps a creation time that is there, and replaces the dependencies |
| ActionGraph.UpsertReadsThenWrites | service/action_graph.go:115-139 | undisturbed, reading and then writing is the upsert |
| ActionGraph.ActionStore.ReplaceDependencies | service/action_graph.go:259-269 | the dependency rows of one action are replaced, the others kept |
| ActionGraph.ActionStore.CompleteAction | service/action_graph.go:141-158 | completing marks an existing action done, and nothing else |
| ActionGraph.ActionStore.ListNodes | service/action_graph.go:285-303 | every action once, by creation time, then id |
| ActionGraph.ActionFrontier | service/action_graph.go:374-402 | the loops over statuses and nodes compute the frontier |
| ActionGraph.FrontierMeansReady | service/action_graph.go:374-402 | the frontier is exactly the pending actions whose dependencies are all done, in order |
| ActionGraph.ActionStore.ReadActionGraph | service/action_graph.go:184-212 | the reading offers that frontier, and the earliest of it as next |
| ActionGraph.DoneStaysDone | service/action_graph.go:115-158 | no sequence of upserts and completions turns done back into pending, removes an action or changes when it was created |
| ActionGraph.DoneAfterCommit | service/action_graph.go:121-134 | with overlapping calls, a commit undoes a done action if and only if it writes it as it was read before it was done |
| ActionGraph.DoneSurvivesOverlap | service/action_graph.go:121-134 | so done lasts to the end of a run if and only if no later write of the action is stale |
| ActionGraph.LateWriteUndoesDone | service/action_graph.go:121-134 | a run of two commits that undoes done |
| ActionGraph.RunRespectsDependencies | service/action_graph.go:141-212 | repeatedly completing the next action does each pending action at most once, after all it depends on |
| ActionGraph.RunEnds | service/action_graph.go:141-212 | that comes to an end |
| ActionGraph.LeftPendingExactlyBlocked | service/action_graph.go:374-402 | an action is left pending if and only if a walk along pending dependencies leads from it to a missing dependency or repeats |
| ActionGraph.AllDoneUnlessCycleOrMissing | service/action_graph.go:374-402 | nothing is left pending if and only if the pending actions had no cycle and no missing dependency |
| ActionGraph.WritesKeepIdsTrimmed | service/action_graph.go:214-232 | every write keeps the ids trimmed, which the runs above assume |
| Lineage.BuildIndex | service/memory.go:289-314 | the last record of each id is filed, and child lists are exactly the inverse of the parent relation, ascending and without repetition, in whatever order maps are visited |
| Lineage.SortAll | service/memory.go:308-312 | sorting every child list keeps its members |
| Lineage.InverseUnique | service/memory.go:297-312 | the child lists are determined by the parents |
| Lineage.StatusFor | service/memory.go:345-367 | the walk ends for every parent map; loop exactly when a known session repeats, and orphan and ok as the chain goes |
| Lineage.OneWayOnly | service/memory.go:345-367 | reaching a root, leaving the known sessions and repeating exclude one another |
| Lineage.LoopRevisits | service/memory.go:345-367 | the chain neither ends nor leaves if and only if some session repeats |
| Lineage.StatusFromParent | service/memory.go:345-367 | a session whose parent is known has its parent's status; with an unknown parent it is an orphan, with none it is ok |
| Lineage.ContextFor | service/memory.go:323-343 | the context of a known session has its parent, kind, status and sorted children |
| CrossChat.ExplainCrossChatRecall | service/memory.go:94-156 | the two loops compute the explanation |
| CrossChat.SelectMetadata | service/memory.go:246-287 | the one loop computes the selection |
| CrossChat.PassesAgree | service/memory.go:94-156 | after any number of records the first pass has refused if and only if the selection has stopped, over the same user |
| CrossChat.ExplanationMatchesSelection | service/memory.go:94-287 | for all records and filters: allowed if and only if the selection succeeds and is not empty; the sessions listed are those selected, one to one in order, and all of them the asker's |
| CrossChat.BindingMeaning | service/memory.go:110-136 | what the first pass finds: every current record the asker's, and whether there is one |
| CrossChat.AllowedMeaning | service/memory.go:94-156 | exactly when recall is allowed, in terms of the records alone |
| CrossChat.WidenedCounts | service/memory.go:138-155 | the widened count is 0 exactly when every listed session is the current one |
| NegativeEvidence.LatestSuccesses | service/negative_evidence_candidates.go:304-336 | the map of latest successes settles a failure if and only if some success of its scope came later |
| NegativeEvidence.Record | service/negative_evidence_candidates.go:284-302 | a bucket counts an id once and tracks first and last time; no other bucket changes |
| NegativeEvidence.FillBuckets | service/negative_evidence_candidates.go:274-302 | there is a bucket exactly for the scopes with a counting failure, holding what those leave |
| NegativeEvidence.Generate | service/negative_evidence_candidates.go:228-256 | the output is one candidate per scope with enough failures, each what its observations make it, in order |
| NegativeEvidence.RefsMeaning | service/negative_evidence_candidates.go:287-295 | a scope's evidence has each counting id once, with the time of one of its observations |
| NegativeEvidence.CountIsFailIds | service/negative_evidence_candidates.go:290-294 | FailureCount is the number of distinct failing ids no later success of the scope has settled |
| NegativeEvidence.CandidateMeaning | service/negative_evidence_candidates.go:244-246 | evidence ids are those ids in time order, missing times last, and first and last observed times bound them |
| NegativeEvidence.FirstMeaning | service/negative_evidence_candidates.go:296-298 | the first time is the least one present |
| NegativeEvidence.LastMeaning | service/negative_evidence_candidates.go:299-301 | the last time is the greatest one present |
| NegativeEvidence.OrderFreeExactly | service/negative_evidence_candidates.go:274-302 | every permutation of the observations gives a scope the same evidence if and only if each id that counts against it counts at one time |
| NegativeEvidence.OrderMatters | service/negative_evidence_candidates.go:228-302 | two orders of three failures whose candidates differ in evidence order and first time |
| NegativeEvidence.CandidateIgnoresOrder | service/negative_evidence_candidates.go:228-302 | with one time per id that counts against the scope, permuting or repeating observations leaves its candidate as it is |
| NegativeEvidence.GeneratedIgnoresOrder | service/negative_evidence_candidates.go:228-256 | and, with that in every scope, the set of candidates |
| MemoryFacade.Service.Observe | service/observations.go:53-64 | an observation of the workspace "*" is refused, a blank workspace becomes the service's own |
| MemoryFacade.Service.StoreRow | service/memory_slots.go:286-297 | the row is written, keeping the creation time of an existing one, and then audited |
| MemoryFacade.Service.CreateMemorySlot | service/memory_slots.go:78-105 | creating conflicts with a live slot, and otherwise starts at revision 1 |
| MemoryFacade.Service.AppendMemorySlot | service/memory_slots.go:107-140 | appending adds a line to a live slot and resets its kind |
| MemoryFacade.Service.ReplaceMemorySlot | service/memory_slots.go:142-167 | replacing rewrites a live slot |
| MemoryFacade.Service.DeleteMemorySlot | service/memory_slots.go:169-194 | deleting tombstones a live slot |
| MemoryFacade.AppendsAddLines | service/memory_slots.go:107-140 | any number of appends to a live slot keeps what there was and adds one line and one revision for each |
| MemoryFacade.UnnamedKindBecomesFact | service/memory_slots.go:245-257 | an append or replace that names no kind makes the slot a fact |
| MemoryFacade.StepAdvances | service/memory_slots.go:78-194 | whatever the call: a row is left alone, or a live one goes up by one revision, or a missing or deleted one starts again at revision 1 |
| MemoryFacade.CreatedOnce | service/memory_slots.go:286-297 | in every run a created slot keeps a row for good, with the creation time it got first |
| MemoryFacade.Facade.Add | service/memory_facade.go:140-159 | an add creates the slot and then records the event |
| MemoryFacade.Facade.Update | service/memory_facade.go:161-184 | an update reads, replaces and records, keeping what the request leaves blank |
| MemoryFacade.UpdateKeepsTheRest | service/memory_facade.go:312-325 | in every run, after an update that names only new content Get shows that content and everything else as it was |
| MemoryFacade.Facade.Delete | service/memory_facade.go:186-211 | a delete reads, tombstones and records |
| MemoryFacade.Facade.Get | service/memory_facade.go:213-231 | Get decodes the live slot |
| MemoryFacade.Facade.RecordMemoryHistory | service/memory_facade.go:331-337 | the event is logged with what the item was and became |
| MemoryFacade.FacadeKeyIs | service/memory_facade.go:300-325 | every facade call names one slot by trimmed user, id, profile and workspace, in the default scope of the profile |
| MemoryFacade.AddEffect | service/memory_facade.go:140-159 | an add leaves every other memory and history alone, and its own too unless it was not live |
| MemoryFacade.UpdateEffect | service/memory_facade.go:161-184 | the same of an update, whose event tells the content there was and the content there is |
| MemoryFacade.DeleteEffect | service/memory_facade.go:186-211 | the same of a delete |
| MemoryFacade.StepInStep | service/memory_facade.go:140-231 | every call keeps slot and history of a memory in agreement |
| MemoryFacade.LawfulMeans | service/memory_facade.go:140-211 | a lawful history is a run of add (update)* delete cycles; each event's previous content is the prior event's new content; each revision is one plus the events since the last add |
| MemoryFacade.HistoryReplays | service/memory_facade.go:140-231 | in every run a memory's history is lawful and agrees with its slot if and only if its workspace is not "*" or it was never written |
| MemoryFacade.GetFollowsHistory | service/memory_facade.go:213-231 | in every run Get gives the content, attribution and revision the history folds to, and not found when it ends in a delete |
| MemoryFacade.StarIsWrittenYetRefused | service/memory_facade.go:148-155 | an add to the workspace "*" fails, yet the memory is there |
| MemoryFacade.History | service/memory_facade.go:259-291 | the loop returns the first matching events of the listing, up to the limit |
| MemoryFacade.HistoryExactly | service/memory_facade.go:259-291 | what History reads is the memory's history, newest first, if and only if no listed entry of its name is another memory's and no entry beyond the 500 listed is its own |
| MemoryFacade.HistoryIsTheMemorys | service/memory_facade.go:259-291 | it is when the request names a profile and the listing is not cut |
| MemoryFacade.HistoryIsCut | service/memory_facade.go:259-291 | a run of 501 facade calls after which a memory has a history and History shows none of it |
| MemoryFacade.HistoryMixesProfiles | service/memory_facade.go:264-271 | a request without a profile also gets other profiles' events |
| VectorIndex.LocalVectorIndex.constructor | service/local_vector_index.go:229-251 | a loaded index has the file's dimension and its entries sorted; without a file it is empty |
| VectorIndex.LocalVectorIndex.Open | service/local_vector_index.go:82-98 | an index opens exactly when a path is given and the file is missing or can be read, decoded and has the known version, and each failure has its error |
| VectorIndex.LocalVectorIndex.Upsert | service/local_vector_index.go:100-140 | an upsert validates, fixes the dimension on first use, replaces or appends, sorts, and saves; the slice keeps the entry even when the file could not be written |
| VectorIndex.LocalVectorIndex.Search | service/local_vector_index.go:142-206 | the loops compute the ranked, cut and rounded hits |
| VectorIndex.RunHoldsLastUpserts | service/local_vector_index.go:100-140 | after any upserts from empty: strictly sorted by workspace and memory id, one dimension, and exactly the entries of the last accepted upsert of each key |
| VectorIndex.SortPlaced | service/local_vector_index.go:123-139 | replace or append, then sort, leaves a strictly sorted slice with that entry and the other keys' entries |
| VectorIndex.HistoryIsForgotten | service/local_vector_index.go:309-316 | histories in which the same entries stand lead to the same index, dimension included |
| VectorIndex.ReloadKeeps | service/local_vector_index.go:229-251 | loading the file a well-formed index was saved to gives that index |
| VectorIndex.IndexAndFileMeanKept | service/local_vector_index.go:100-140 | in every run of upserts, failed writes and restarts, the index is that of the upserts still live and the file that of the upserts saved |
| VectorIndex.UnwrittenUntilRestart | service/local_vector_index.go:139-140 | an upsert that could not be written is found until the restart, and afterwards if and only if the file had its entry |
| VectorIndex.SearchFindsTheBest | service/local_vector_index.go:162-205 | a search finds exactly the best positive matches up to the limit, by score, then memory id, then workspace |
| VectorIndex.SortBreaksTies | service/local_vector_index.go:188-193 | the stable sort of hits breaks ties of score and id by workspace |
| Text.TrimFuncTight | memory/goncho_v1.go:143-174 | trimming fixes a text exactly when its ends need no trimming, and its result needs none |

## Left out

- Transactions beyond one atomic step, SQL errors, retries, contexts and file errors. A facade call
  is modelled as uninterrupted; a slot that disappears between its read and its write is not.
- `MemoryFacade.HistoryReplays`: assumes that the envelope codec round-trips (empty metadata coming
  back absent) and that the observation table stores the memory's entries as given. The table really
  redacts secrets, truncates long contents and refuses over-long ids and metadata. Direct slot calls
  are allowed in the runs, but not on slots in the facade's default scope.
- `MemoryFacade.GetFollowsHistory`: under the same assumptions.
- `MemoryFacade.HistoryIsCut`: for an observation table that stores every entry as given.
- `MemoryFacade.HistoryIsTheMemorys`: assumes that the order of log rows is that of their
  observation times, and a log of the two kinds of entries these files write.
- `MemoryFacade.Service.DeleteMemorySlot`: takes the normalized key; the facade and the runs build it
  with `SlotKey`, as the code's query normalization does.
- `MarkdownV1.RoundTrip`: assumes per item that YAML returns the metadata, and that metadata cut off
  at a "-->" does not decode to the same metadata; and that the quoted versions contain no newline
  and are read back. Byte positions are positions of characters.
- `ActionLeases.Exclusion`: for runs in clock order; the lemmas on handover say what holds without.
- `ActionLeases.AcquiredAtOpensTenure`: needs a clock past 1970.
- `RecallGraph.ExpandGraphRecallCandidates`: requires that no relation stalls, which is exactly when
  the loop ends; query matching and lower-casing are parameters.
- `RecallRanking.DominantScore`: scores are reals; rounding is any monotone function, weights are
  not negative and rrf-k is positive.
- `RecallRanking.Score`: how content matches a query and how age decays are parameters; the reasons
  attached to a score are left out.
- `RecallSelection.RecallSelectionFlow.Run`: token counts, penalties, bonuses and adjustments are
  functions of the candidates; warnings and the reasons attached to selected items are left out.
- `DreamCompression.ConclusionStore.ExecuteDreamCompression`: the tokenizer is a parameter, and no
  row is written while the job runs.
- `NegativeEvidence.Generate`: observation kinds and ids as given; the recommendation text and the
  review items built from candidates are left out. Buckets are visited in any order.
- `VectorIndex.LocalVectorIndex.Search`: scores are reals and never NaN; checksums and diagnostics are
  left out.
- `ActionGraph.ActionStore.UpsertAction`: one atomic call, as all runs but those of
  `DoneSurvivesOverlap` have it; there the row and its dependencies are still one write.
- `ActionGraph.RunRespectsDependencies`: one owner's actions; signals and titles play no part.
- Slot and lease revisions, counts and times are unbounded integers, except the lease times, which
  are int64 with the code's overflow guards.
- The facade's `Search`, the slot listing, the lease audit listing, `SearchMessages`, the provider
  registry and its warnings, recall warnings and traces, Memory V1 validation, reload and export.
- HTTP handlers, tool schemas, resources, reports and scripts, which pass data on; receipts,
  retention, rerankers and policy proposals, each a single transition or partition with no run to
  reason about.
