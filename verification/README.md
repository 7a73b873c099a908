# Verified models of an NL2SQL backend

The repository is a service that turns questions in natural language into SQL. This project models the parts of its
backend whose correctness is not visible from one function body, and proves properties of them for all inputs, all
runs and all interleavings:

- **Rate limiting** (`TokenBucket`, `RateLimiter`, `RateLimitMiddleware`). A token bucket per client, a bounded
  least-recently-used table of buckets, and two limiters in front of the API.
- **Evaluation** (`Sorting`, `RowMatching`, `ResultComparison`, `FailureAnalytics`, `EvalGate`). Comparing query
  results under five policies, classifying failures, summarising a run and gating on the summary.
- **Tenants** (`TenantStore`, `TenantHierarchy`). Organizations, workspaces and connections without foreign keys:
  first the repositories called one at a time, then a state machine in which every SQL statement or transaction is
  one atomic step and every delete is a process of several steps.
- **Schema relations** (`SchemaRelations`). Graph edges and per-table foreign keys, kept in parallel through
  extraction, hiding, merging, disabling and pruning.
- **Re-embedding** (`Reindex`). An incremental index against a full rebuild, with failing calls and lost caches.
- **Log streaming** (`LogStream`). A polling reader against a log that other processes append to.
- **SQL generation** (`ResultCacheKey`, `SqlPipeline`). The validation chain, the writer-critic loop, the result cache
  and its key.
- **Backup and restore** (`BackupPaths`, `BackupArchive`, `BackupRestore`). Creating, verifying and restoring archives
  over directory trees, and undoing a restore.
- **Search** (`LikeEscape`). Escaped text read back by the LIKE predicate.

`Wrappers` and `Separators` hold an option type and lemmas about joined strings. Code of the repository that changes
state is a class or a method with a loop, proved against a function on values; the lemmas are about those functions.

Where a promise fails for some inputs, the exact condition is proved:

- the limiter's table stays within `max_clients` exactly when `max_clients` is at least 2 (`RateLimiter.TableBoundIff`);
- the bound capacity + rate * duration holds exactly for clocks that never step back (`TokenBucket.LinearBoundIffMonotone`);
- greedy matching is exact precisely for rectangular relations (`RowMatching.GreedyExactIffRectangular`), and under
  tolerance precisely for epsilon 0 (`ResultComparison.GreedyExactIffZeroEpsilon`);
- passing the ordered comparison implies passing the unordered one exactly on values without twins such as 1, 1.0 and
  True (`ResultComparison.OrderedImpliesUnorderedIff`);
- a raised case passes exactly when the exception has no message and no rows were expected
  (`FailureAnalytics.RaisedCasePassesIff`), because an empty message counts as no error;
- turning a failing case into a passing one can worsen the gate's decision exactly under configurations that tolerate
  runs of failures alone and let off some failure category where they do not let off PASSED (`EvalGate.WorsensIff`);
- of two connection updates that validate against the same row the second leaves an invalid profile exactly when the
  first switches authentication off and the second does not say everything about it (`TenantStore.OverlapIff`);
- one update reaches every valid connection profile but those that drop the secret and keep authenticating
  (`TenantStore.ReachableIff`);
- a table that is gone has a point in the vector store exactly when some visit found the point without having the
  table, was forced, had no stored embeddings or failed to delete, and from that visit on the table has stayed away and
  every prune has failed (`Reindex.OrphanIff`); `schema_reindex.py:6` says removed tables are evicted;
- a failed generation run publishes a statement that was not judged safe exactly when every attempt before the last one
  allowed asks for another and the validation chain crashes on the last, non-empty statement, which the guardrail or the
  sandbox check does not clear (`SqlPipeline.UnjudgedIff`);
- two schema signatures can share a cache key exactly when one ends with a separator and the other
  (`ResultCacheKey.SignaturesCollideIff`), and two embedding models a table fingerprint exactly when one name begins
  with the other, a separator and the beginning of a table text (`Reindex.ModelsCollideIff`);
- an edit of a table always changes its text, and so has it embedded again, unless words hold a comma, a bracket or a
  bar (`Reindex.TextTellsApart`, `Reindex.EditedIsEmbedded`); then it need not (`Reindex.HiddenEdit`);
- edges and foreign keys hold different relations exactly when the filters broke off after deleting a table that
  relations start from, and some of these are still enabled and selected (`SchemaRelations.ViewsAgreeThroughout`);
- a fresh backup verifies exactly when no file name has a backslash and the snapshots are intact
  (`BackupArchive.FreshVerifiesIff`);
- undoing a restore gives exactly the old uploads if and only if every upload of the archive before the first that
  cannot be written was there before (`BackupRestore.UndoUploadsIff`), and the old Qdrant files exactly when there were
  any or none were replaced (`BackupRestore.UndoQdrantIff`); a restore that stops at an upload has already replaced the
  databases (`BackupRestore.RoundTrip`).

Deletes report what was true as long as ids are neither reused nor guessed (`TenantHierarchy.OutcomeWasTrue`); for any
guessed id there is a run in which they do not (`TenantHierarchy.GuessedIdMisreports`).

## Model

| member | source | states |
|---|---|---|
| TokenBucket.Bucket.TryAcquire | backend/app/rate_limit.py:39-45 | One check moves the bucket to the specified state and returns the specified decision |
| TokenBucket.TokensStayInRange | backend/app/rate_limit.py:39-45 | After any checks at any clock readings the tokens are within 0 and capacity |
| TokenBucket.TokensConserved | backend/app/rate_limit.py:39-45 | Admissions plus tokens left never exceed the tokens there at the start plus the refill over the clock's forward movement |
| TokenBucket.RateBound | backend/app/rate_limit.py:39-45 | In any run of checks, admissions are at most capacity plus rate times the total forward movement of the clock |
| TokenBucket.WindowBound | backend/app/rate_limit.py:39-45 | With a clock that never steps back, any window of any run admits at most capacity plus rate times its length |
| TokenBucket.AtMostTwicePerMinute | backend/app/rate_limit.py:49-56 | With the default burst no 60 seconds admit more than twice the configured limit |
| TokenBucket.LinearBoundIffMonotone | backend/app/rate_limit.py:40-41 | The bound by end minus start holds for every bucket if and only if the readings never step back |
| TokenBucket.RetryAfterExact | backend/app/rate_limit.py:45 | After a refusal, later checks are all refused if and only if the clock has moved forward by less than the reported wait, whatever lies between |
| TokenBucket.FirstAdmissionAfterRefusal | backend/app/rate_limit.py:45 | Which check is the first to be admitted after a refusal: the first at or after the reported wait |
| TokenBucket.HeaderIsExact | backend/app/rate_limit.py:104-116 | A client that waits the advertised whole seconds is admitted, and one second less is too early unless the header says 1 (section 4 of RFC 6585, section 10.2.3 of RFC 9110) |
| TokenBucket.SpacedChecksAdmitted | backend/app/rate_limit.py:39-45 | Checks at least 1 / rate apart are never refused |
| TokenBucket.BurstAtOneInstant | backend/app/rate_limit.py:42-44 | Of any burst at one instant exactly the first floor(tokens available) checks are admitted |
| TokenBucket.RemainingIsExact | backend/app/rate_limit.py:44 | The remaining count reported is exactly how many more checks this instant admits |
| RateLimiter.RateLimiter.Check | backend/app/rate_limit.py:62-74 | A check takes the bounded table to its specified state and answers from the client's bucket there |
| RateLimiter.DroppedExactly | backend/app/rate_limit.py:66-73 | When another client's check drops a client: exactly if it is new, the table is full and enough others are more recent |
| RateLimiter.RefinesPrivateBuckets | backend/app/rate_limit.py:62-74 | A client between whose checks at most half the table (rounded up) of other clients check in gets the answers of one private bucket forever |
| RateLimiter.HalfTableIsBest | backend/app/rate_limit.py:67-71 | For every limiter with max_clients of at least 2, a run with one other client more than that in between gets other answers than a private bucket |
| RateLimiter.EvictionNeverCostsAdmissions | backend/app/rate_limit.py:67-71 | In every run a client is admitted at least as often as by a private bucket, however many others there are |
| RateLimiter.TableBoundIff | backend/app/rate_limit.py:67-71 | In all runs the table holds at most max_clients entries if and only if max_clients is at least 2 |
| RateLimitMiddleware.RateLimitMiddleware.Dispatch | backend/app/rate_limit.py:119-142 | A request moves both limiters to their specified state and is forwarded or refused as specified |
| RateLimitMiddleware.ResponseTells | backend/app/rate_limit.py:104-142 | In every run, a refusal names the rate of the limiter that refused and the exact wait: that limiter, running alone, admits the client then and not a second earlier, unless the wait is 1; a forwarded request carries the rate of the first limiter asked and exactly how many more checks that one admits at the instant, or nothing if none was asked |
| RateLimitMiddleware.WhoIsAsked | backend/app/rate_limit.py:119-126 | Which limiter a request is held against: the first for all but preflights and health probes, the second for the two routes that create jobs, a limit of 0 or less never |
| RateLimitMiddleware.LimitersRunAlone | backend/app/rate_limit.py:94-142 | Over any run with any changes of the settings, each limiter is in the state of running alone on its own events since its rate last changed; the jobs limiter sees exactly the job creations the first one admitted, which have all spent a token there |
| RateLimitMiddleware.ForwardedIff | backend/app/rate_limit.py:119-142 | A request is forwarded if and only if no limiter it is held against, running alone, refuses it |
| RateLimitMiddleware.ForwardedJobsAreAdmitted | backend/app/rate_limit.py:94-142 | The jobs forwarded for a client since the rate last changed are the admissions of the jobs limiter running alone |
| RateLimitMiddleware.JobRateBound | backend/app/rate_limit.py:94-142 | While few other clients create jobs in between, a client's jobs forwarded since the rate last changed stay within a minute's worth plus rate times elapsed time |
| Sorting.SortedImagesIff | backend/app/evaluation/execution_accuracy.py:261-267 | Sorting two lists of images gives equal lists if and only if the multisets of originals are equal, when the map tells the elements of the two lists apart |
| RowMatching.SubsequenceMatch | backend/app/evaluation/execution_accuracy.py:174-186 | The ordered loop succeeds if and only if a strictly increasing map of expected into actual rows exists |
| RowMatching.EarliestMatchIff | backend/app/evaluation/execution_accuracy.py:174-186 | Taking the earliest match is optimal for any row relation, transitive or not |
| RowMatching.GreedyMatch | backend/app/evaluation/execution_accuracy.py:141-161 | The unordered loop takes for each expected row the first unused actual row related to it |
| RowMatching.GreedySound | backend/app/evaluation/execution_accuracy.py:141-161 | Success means that an injective pairing of the expected into the actual rows exists |
| RowMatching.PairingIsOnto | backend/app/evaluation/execution_accuracy.py:148-161 | With equally many rows a pairing is a bijection |
| RowMatching.GreedyIffOnRectangular | backend/app/evaluation/execution_accuracy.py:141-161 | On rows over which the relation is rectangular, greedy succeeds if and only if a pairing exists |
| RowMatching.GreedyExactIffRectangular | backend/app/evaluation/execution_accuracy.py:141-161 | Greedy agrees with the existence of a pairing on all row lists for precisely the rectangular relations |
| RowMatching.CrossedRowsMissed | backend/app/evaluation/execution_accuracy.py:141-161 | Any violation of rectangularity gives two rows on each side that have a pairing and are refused |
| ResultComparison.Compare | backend/app/evaluation/execution_accuracy.py:234-297 | For any rows whose serialisations tell them apart, the verdict is what each policy promises: pointwise, equal multisets, tolerance, subset |
| ResultComparison.WithinIff | backend/app/evaluation/execution_accuracy.py:100-113 | Numbers agree if and only if they are at most epsilon apart, or at most that part of the larger of their sizes under relative tolerance |
| ResultComparison.WithinIsFair | backend/app/evaluation/execution_accuracy.py:100-113 | Agreement within tolerance does not depend on which side is expected and, when relative, not on the unit |
| ResultComparison.CellWithinIff | backend/app/evaluation/execution_accuracy.py:95-97 | Which cells agree: numbers within tolerance and all else by equality; booleans are no numbers but equal 1 and 0 |
| ResultComparison.CustomAgreesWithUnordered | backend/app/evaluation/execution_accuracy.py:283-295 | The unordered custom policy accepts exactly what exact-unordered accepts, although it has no length check |
| ResultComparison.ToleranceMatchIsBijection | backend/app/evaluation/execution_accuracy.py:141-161 | A pass under unordered tolerance pairs every actual row with its own expected row within tolerance |
| ResultComparison.GreedyExactIffZeroEpsilon | backend/app/evaluation/execution_accuracy.py:100-161 | Unordered matching finds a pairing whenever one exists, on all results, if and only if epsilon is 0 |
| ResultComparison.RefusedThoughPaired | backend/app/evaluation/execution_accuracy.py:141-161 | With epsilon 1, actual 0, 1, 2 against expected 1, 2, 0 has a pairing and is refused |
| ResultComparison.OrderedImpliesUnorderedIff | backend/app/evaluation/execution_accuracy.py:115-122 | Passing ordered implies passing unordered on all results over a set of values if and only if no two of them are equal for Python but differ as JSON |
| FailureAnalytics.RaisedCasePassesIff | backend/app/evaluation/execution_accuracy.py:637-665 | A case whose SQL raised passes if and only if the exception has no message and no rows were expected |
| FailureAnalytics.OrderMismatchMeans | backend/app/evaluation/failure_analytics.py:370-387 | A judged case reported as ORDER_MISMATCH ran on both sides, has equal multisets of rows and different sequences |
| FailureAnalytics.ErrorCategoryIff | backend/app/evaluation/failure_analytics.py:212-324 | Which category an error text leads to, phrase by phrase and in order of priority, whatever the case of its letters |
| FailureAnalytics.CaseCategoryIff | backend/app/evaluation/failure_analytics.py:189-414 | The category of a case, told from what its two statements gave |
| FailureAnalytics.SeverityFollowsCategory | backend/app/evaluation/failure_analytics.py:189-414 | Every category has one severity, whichever branch reports it |
| FailureAnalytics.ReportableIff | backend/app/evaluation/failure_analytics.py:189-414 | A failing case can be reported under a category if and only if it is neither PASSED nor DIALECT_MISMATCH_WARNING |
| FailureAnalytics.NeverUnknown | backend/app/evaluation/failure_analytics.py:325-414 | No judged case is an unknown failure |
| FailureAnalytics.AnalyzeRun | backend/app/evaluation/failure_analytics.py:417-467 | The report of a run gives every category its number of cases, the pass count and rate, and the cases sorted by id |
| FailureAnalytics.CountsAddUp | backend/app/evaluation/failure_analytics.py:431-467 | The category counts add up to the number of cases |
| FailureAnalytics.PassedCountIsPassedCases | backend/app/evaluation/failure_analytics.py:431-467 | The PASSED count is the number of passed cases |
| EvalGate.NeverRejects | backend/app/evaluation/eval_gate.py:81-104 | The gate accepts the summary of every analysed run as consistent |
| EvalGate.RefusedIff | backend/app/evaluation/eval_gate.py:81-104 | A summary is refused if and only if figures are negative, do not add up or do not give the rate |
| EvalGate.ConfigRefusedIff | backend/app/evaluation/eval_gate.py:127-163 | Which configurations the constructor refuses |
| EvalGate.DecisionIff | backend/app/evaluation/eval_gate.py:391-430 | When the gate fails, warns or passes an analysed run, told from the numbers and categories of its cases |
| EvalGate.RulesMean | backend/app/evaluation/eval_gate.py:269-389 | What each of the six rules says of an analysed run, and its severity |
| EvalGate.RulesListed | backend/app/evaluation/eval_gate.py:432-436 | A decision lists the evaluated rules, those that failed and those that warn, each as often as evaluated and in order |
| EvalGate.StatusIsWorstRule | backend/app/evaluation/eval_gate.py:257-457 | The gate status is the worst status of its rules, and it passes if and only if no rule failed |
| EvalGate.PassingMoreNeverHurts | backend/app/evaluation/eval_gate.py:257-457 | Under every other configuration turning any failing case of any run into a passing one never worsens the decision |
| EvalGate.WorsensIff | backend/app/evaluation/eval_gate.py:257-457 | Some run gets a worse decision from one more pass if and only if the configuration tolerates runs of failures alone and lets off a failure category where it blocks or warns on PASSED; never when it asks for any pass rate at all, or neither blocks nor warns on PASSED |
| TenantStore.ReachableIff | backend/app/connection_repository.py:146-179 | Which valid profiles one update can reach from a row: all but those that drop a secret and keep authenticating |
| TenantStore.PatchedColumns | backend/app/connection_repository.py:146-179 | An update writes every provided column and keeps every other, but for the secret, which switching to no authentication clears and nothing else does |
| TenantStore.ClearingTakesTwoUpdates | backend/app/connection_repository.py:155-160 | Any valid profile without a secret is reached by first switching to no authentication |
| TenantStore.StaleWriteIff | backend/app/connection_repository.py:146-179 | An update validated against the row it read and written over a later one leaves a valid profile if and only if it says everything about authentication or the later row has what it leaves out |
| TenantStore.OverlapIff | backend/app/connection_repository.py:146-179 | Of two updates validated against one row the second leaves a valid profile if and only if the first does not switch authentication off or the second says everything about it |
| TenantStore.OverlappingUpdatesStayValid | backend/app/connection_repository.py:146-179 | However updates of a row overlap, every version is valid when each update says everything about authentication or overlaps with none that switches it off |
| TenantStore.InterleavedUpdatesBreakProfile | backend/app/connection_repository.py:155-160 | A witness: switching authentication off while a secret is being set leaves an invalid profile |
| TenantStore.Repositories.CreateOrganization | backend/app/organization_repository.py:35-51 | Called alone: creates the row or reports the slug conflict, and keeps integrity |
| TenantStore.Repositories.CreateWorkspace | backend/app/workspace_repository.py:44-86 | Called alone: the owner is the given or the default organization; a missing owner and a taken slug are told apart |
| TenantStore.Repositories.CreateConnection | backend/app/connection_repository.py:61-105 | Called alone: an invalid profile, an unknown workspace and a taken reference are refused in this order |
| TenantStore.Repositories.BuildProfile | backend/app/evaluation/connection_abstraction.py:32-143 | The constructors of secret, endpoint and profile accept exactly the valid profiles |
| TenantStore.Repositories.UpdateOrganization | backend/app/organization_repository.py:84-108 | Called alone: only provided columns of the one row change, never its slug |
| TenantStore.Repositories.UpdateWorkspace | backend/app/workspace_repository.py:121-149 | Called alone: only provided columns of the one row change, never its slug or organization |
| TenantStore.Repositories.UpdateConnection | backend/app/connection_repository.py:146-179 | Called alone: only provided columns of the one row change, and every stored profile stays valid |
| TenantStore.Repositories.DeleteOrganization | backend/app/organization_repository.py:111-136 | Called alone: each outcome if and only if its condition holds before the call |
| TenantStore.Repositories.DeleteWorkspace | backend/app/workspace_repository.py:151-173 | Called alone: each outcome if and only if its condition holds before the call |
| TenantHierarchy.IntegrityAlways | backend/app/organization_repository.py:111-136 | At every instant of every interleaving: no orphaned workspace or connection, unique slugs and references, one default organization |
| TenantHierarchy.DeleteAlone | backend/app/organization_repository.py:111-136 | A delete that nothing comes between takes the row and says so, or explains why not and changes nothing, as the repository called alone |
| TenantHierarchy.CallAlone | backend/app/workspace_repository.py:44-149 | Every other call is one step with the repository's effect, and possible at any time, a create with an id that was never named |
| TenantHierarchy.NoResurrection | backend/app/workspace_repository.py:151-173 | A row that was named once only ever disappears, and an organization keeps its slug |
| TenantHierarchy.OutcomeWasTrue | backend/app/organization_repository.py:111-136 | Every outcome of a delete was true at an instant between call and return under any interleaving; a deleted row went right then and never comes back |
| TenantHierarchy.GuessedIdMisreports | backend/app/organization_repository.py:127-136 | For any guessed id and organization there is a run whose delete reports "in use" although that was true at no instant |
| SchemaRelations.SchemaGraph.ExtractSqlite | backend/app/schema_manager.py:189-247 | Extraction, complete or broken off after any number of fetches, stores exactly what was fetched |
| SchemaRelations.SchemaGraph.ApplyFilters | backend/app/schema_manager.py:124-165 | Filtering takes the schema to its specified state; unreadable filters change nothing, and filters that break off on a column entry have deleted tables and filtered no relation |
| SchemaRelations.FilteredTables | backend/app/schema_manager.py:132-147 | Filters leave the tables that are not hidden, each with exactly the columns not hidden from it, as often as before and in order |
| SchemaRelations.FilteredRelations | backend/app/schema_manager.py:149-160 | Filters that do not break off leave exactly the relations between tables that are not hidden, in both views, as often as before |
| SchemaRelations.BrokenFiltersLeave | backend/app/schema_manager.py:162-163 | Unreadable filters change nothing; filters that break off drop foreign keys only with their table and no edge |
| SchemaRelations.SchemaGraph.MergeCustom | backend/app/schema_manager.py:623-648 | The loop adds exactly the relations of the specification, in both views |
| SchemaRelations.SchemaGraph.MergeImplicit | backend/app/schema_manager.py:667-691 | The set of both orientations decides exactly like searching the edges for the pair |
| SchemaRelations.SchemaGraph.RemoveDisabled | backend/app/schema_manager.py:700-721 | Disabled relations go from both views in both orientations; without any, nothing changes |
| SchemaRelations.SchemaGraph.BuildPruned | backend/app/schema_pruner.py:288-305 | The pruned schema is the induced sub-schema and the original is unchanged |
| SchemaRelations.ExtractedAgree | backend/app/schema_manager.py:189-247 | After extraction the edges and the foreign keys are the same multiset of relations |
| SchemaRelations.ViewsAgreeThroughout | backend/app/schema_manager.py:124-723 | At every stage from extraction to pruning the two views are the same multiset if and only if filters that broke off left no edge of a deleted table that is still enabled and, when pruned, selected |
| SchemaRelations.FinalRelations | backend/app/schema_manager.py:623-721 | Exactly which relations a loaded schema has |
| SchemaRelations.LoadedNoRepeats | backend/app/schema_manager.py:623-721 | No directed relation repeats unless extraction repeated it |
| SchemaRelations.ExtractedSurvive | backend/app/schema_manager.py:623-721 | The extracted relations that are not disabled open the final list, in order and multiplicity |
| SchemaRelations.BothOrientationsIff | backend/app/schema_manager.py:668-691 | A pair is related in both directions if and only if both were extracted or asked for by hand and are not disabled: implicit relations never double a pair |
| SchemaRelations.PrunedIsInduced | backend/app/schema_pruner.py:288-303 | Pruning keeps every relation inside the selection as often as before and no other, and keeps columns |
| SchemaRelations.PrunedIsClosed | backend/app/schema_pruner.py:296-299 | A pruned table keeps exactly its references to selected tables |
| Reindex.BuildIndex | backend/app/schema_embedding.py:21-58 | Batches of fifty give the vector of every table, or nothing at all when a batch fails |
| Reindex.PlanReindex | backend/app/schema/reindex_planner.py:61-74 | Exactly the tables with their recorded fingerprint are kept, the others embedded, and recorded tables that are gone deleted |
| Reindex.ReindexEmbeddings | backend/app/schema_reindex.py:26-58 | The merged embeddings and the report of one call, a failing embedding call included |
| Reindex.FingerprintIdentifies | backend/app/schema/reindex_planner.py:24-40 | Equal fingerprints of tables mean equal model and text, when neither model name extends the other and the hash does not collide |
| Reindex.ModelsCollideIff | backend/app/schema/reindex_planner.py:24-40 | Some tables have equal fingerprints under two different models if and only if one name begins with the other, a separator and the beginning of a table text |
| Reindex.TextTellsApart | backend/app/schema/reindex_planner.py:16-35 | Under one name two tables have the same text if and only if their columns, types and references are the same, when their words hold no comma, bracket or bar |
| Reindex.AppendingShows | backend/app/schema/reindex_planner.py:16-35 | Whatever the characters, another column or reference at the end changes the text |
| Reindex.HiddenEdit | backend/app/schema/reindex_planner.py:16-35 | Words that hold such characters can hide an edit: a column named "a, b" reads like two, one of type "k" like one named "a (k)" |
| Reindex.AlwaysFaithful | backend/app/schema_reindex.py:26-58 | After any history of edits, model changes, forced calls, failures and lost caches, only current tables hold a vector, and it is the one a full build would give |
| Reindex.EqualsFullBuild | backend/app/schema_reindex.py:26-58 | A call whose batches succeed ends with exactly the full index; otherwise with exactly the reusable part of it |
| Reindex.EmbeddedIff | backend/app/schema_reindex.py:34-36 | A table is not embedded again if and only if the call is unforced, a vector is held, and neither its text nor the model changed |
| Reindex.EditedIsEmbedded | backend/app/schema_reindex.py:28-36 | A table of such words is kept if and only if the call is unforced, a vector is held and neither the model nor any column, type or reference changed |
| Reindex.PointIff | backend/app/schema_manager.py:558-609 | After any history of loads and re-index calls a table has a point if and only if some visit wrote it and none since took it out, by deleting or by pruning |
| Reindex.NoOrphansIff | backend/app/api/schema_sync_api.py:142-153 | Whatever the store holds, a visit leaves no point of a removed table if and only if its prune works or its deletion covers every such point |
| Reindex.OrphanIff | backend/app/schema_manager.py:511-609 | When each visit starts from the last result or from nothing, a removed table has a point if and only if some visit without the table found its point and was forced, had no stored embeddings or failed to delete, and from then on the table stays away and every prune fails |
| Reindex.NoOrphansUnforced | backend/app/schema_reindex.py:28-54 | When every visit but the first starts unforced from the last result and its deletion works, no removed table keeps a point, whether prunes work or not |
| LogStream.PersistedLogStream | backend/app/main.py:372-389 | What the stream sends after any number of queries, when it pings, and that it ends one listing after the first final status it reads |
| LogStream.CursorIsExact | backend/app/jobs/repository.py:128-135 | Listing after the last id sent gives exactly the lines appended since |
| LogStream.SentIsTheLog | backend/app/main.py:372-389 | After any query the lines sent are the job's whole log as last listed: none missing, none twice, in order |
| LogStream.SentIsPrefix | backend/app/main.py:372-389 | Ids sent strictly increase and form a prefix of the log at any later instant |
| LogStream.FinishedStreamIsComplete | backend/app/main.py:382-386 | A finished stream has sent every line present when the final status was read, and the whole log if nothing is logged after it |
| ResultCacheKey.SplitJoin | backend/app/cache/result_cache_key.py:13-17 | Splitting on whitespace undoes joining words with blanks |
| ResultCacheKey.NormalizedAlikeIff | backend/app/cache/result_cache_key.py:13-17 | Two queries normalise alike if and only if their folded words agree, and no normalised query holds the separator |
| ResultCacheKey.KeyIdentifies | backend/app/cache/result_cache_key.py:20-28 | Keys are equal if and only if dialect, signature and folded words are, when signatures hold no separator |
| ResultCacheKey.MissingIsEmpty | backend/app/cache/result_cache_key.py:13-28 | A missing question, dialect or signature has the key of an empty one |
| ResultCacheKey.SignaturesCollideIff | backend/app/cache/result_cache_key.py:22-27 | Two different signatures can share a payload if and only if one ends with a separator and the other |
| SqlPipeline.StageWriterCritic | backend/app/sql_pipeline.py:523-643 | The loop makes exactly the specified attempts and publishes the specified statement |
| SqlPipeline.VerdictIff | backend/app/sql_pipeline.py:377-500 | The verdict on a statement from the components' replies alone: a crash if and only if one that is reached raises, acceptance if and only if all agree, and otherwise the errors of the first that objects, with another attempt for all but security refusals |
| SqlPipeline.AttemptIff | backend/app/sql_pipeline.py:523-610 | Whether an attempt is accepted, followed by another or refused for security, and what it records |
| SqlPipeline.RefusedIsFinal | backend/app/sql_pipeline.py:400-433 | A statement refused by the guardrail or the sandbox check is never published, and ends the run unless the guardrail only failed to parse it |
| SqlPipeline.AttemptsFollow | backend/app/sql_pipeline.py:523-624 | At most max_attempts attempts, each before the last retryable, and a run that stops early not |
| SqlPipeline.SucceedsIff | backend/app/sql_pipeline.py:523-624 | A run succeeds if and only if the statement of some attempt in the limit passes every component and no attempt before it ends the run |
| SqlPipeline.PublishedSql | backend/app/sql_pipeline.py:610-643 | A published statement passed every component, or was judged safe and criticised in a failed run, or a component raised on it |
| SqlPipeline.UnjudgedIff | backend/app/sql_pipeline.py:523-643 | A failed run publishes a non-empty statement that was not judged safe if and only if no attempt before the last one allowed ends the run, and a component raises on the last statement, which is not empty and not judged safe |
| SqlPipeline.Pipeline.RunPipeline | backend/app/sql_pipeline.py:748-777 | A run answers and changes the cache as specified |
| SqlPipeline.SuccessIsAccepted | backend/app/sql_pipeline.py:748-777 | Over any runs, every successful statement, cached or new, passes every component on the current schema |
| SqlPipeline.CacheChangesOnlyBySuccess | backend/app/sql_pipeline.py:348-375 | Revisions and failures leave the cache as it was, a hit changes a count at most, and no run touches another key |
| SqlPipeline.RowsAre | backend/app/result_cache.py:26-48 | At any time the cache holds, under each key, the latest successful statement generated for it with the cache on and no revision, and the number of hits on the key |
| SqlPipeline.AnswerIff | backend/app/sql_pipeline.py:348-375 | A run serves the latest statement stored under its key if and only if it may look, there is a non-empty one, and every component passes it; it crashes if one raises, and otherwise generates |
| SqlPipeline.HitAnswersTheSameQuestion | backend/app/sql_pipeline.py:348-375 | A hit serves what an earlier successful run generated for the same dialect, schema signature and words, validated again |
| BackupPaths.PartsOfJoin | backend/app/backup/core.py:154 | Reading the parts of a joined path gives its components back |
| BackupPaths.TreeNameSafeIff | backend/app/backup/core.py:150-157 | The member name of a file of a tree is safe if and only if it has no backslash |
| BackupArchive.VerifyBackup | backend/app/backup/core.py:168-210 | Verification passes if and only if the archive is sound, and reports exactly the faults there are |
| BackupArchive.ComplaintIff | backend/app/backup/core.py:178-206 | Which fault is reported of which member |
| BackupArchive.SoundMeans | backend/app/backup/core.py:168-210 | An archive verifies if and only if its manifest can be read and has format 1, its members are regular with safe names, those but the manifest are exactly the listed ones with the recorded checksum and size, and its databases are intact |
| BackupArchive.SameManifestSameData | backend/app/backup/core.py:191-193 | Two verified archives with one manifest hold the same data |
| BackupArchive.CreateBackup | backend/app/backup/core.py:94-147 | An archive holds a manifest, then exactly the databases, uploads and, when asked for, Qdrant files of the state; there is none if and only if a database cannot be read |
| BackupArchive.ArchiveHolds | backend/app/backup/core.py:112-146 | The archive of a state has a member for an upload if and only if its last component does not begin with ".ready_check_", for every Qdrant file if and only if asked for, for the databases there are, each with its data, and nothing else but the manifest |
| BackupArchive.ManifestDescribes | backend/app/backup/core.py:99-135 | The manifest read back has format 1, the checksum and size of every other member and the schema version of every database |
| BackupArchive.SavedOnce | backend/app/backup/core.py:112-131 | No two saved members share a name |
| BackupArchive.FreshVerifiesIff | backend/app/backup/core.py:94-210 | A fresh archive verifies if and only if no saved file name has a backslash and the snapshots are intact |
| BackupRestore.SafeNameStaysInside | backend/app/backup/core.py:150-157 | A safe name is a fixed one or leads to genuine components below one of the two roots |
| BackupRestore.WriteAllWellFormed | backend/app/backup/core.py:255-270 | Extracting any archive with safe names leaves a proper directory tree |
| BackupRestore.Store.RestoreBackup | backend/app/backup/core.py:224-273 | A refused or incompatible archive, or a safety backup that cannot be taken, changes nothing; otherwise the state is as specified and the safety archive holds the state before |
| BackupRestore.RoundTrip | backend/app/backup/core.py:224-273 | Restoring the backup of any state with plain file names and intact databases gives back its databases, the data of every upload but the probes of the readiness check and, when saved and asked for, its Qdrant files, and leaves all others alone; it runs to the end if and only if every one of those uploads can be written, and has replaced the databases in either case |
| BackupRestore.Undo | backend/app/backup/core.py:237-273 | After a restore, finished or stopped at an upload, of such a backup over such a state, restoring the safety archive always completes and brings back every database and upload there was; the uploads are exactly the old ones if and only if the first restore added no file (archives of other states do not verify, by BackupArchive.FreshVerifiesIff) |
| BackupRestore.UndoUploadsIff | backend/app/backup/core.py:237-261 | The uploads after an undo are exactly the old ones if and only if every upload of the archive before the first that cannot be written was there before; after a finished restore, all of them |
| BackupRestore.UndoQdrantIff | backend/app/backup/core.py:262-271 | Undoing with the Qdrant tree brings its old files back if and only if there were any or none were replaced; undoing without it, if and only if none were replaced or the same ones |
| BackupRestore.SaveAndRestore | backend/app/backup/core.py:94-273 | A backup taken and restored on the spot, with the Qdrant tree or without, is never refused and gives back the same databases, uploads and Qdrant files; nothing changes when none can be taken |
| LikeEscape.EscapeIsOnePass | backend/app/query_history_repository.py:19-22 | The three replacements in sequence are one pass that escapes each metacharacter |
| LikeEscape.SearchMatchesIff | backend/app/query_history_repository.py:42-44 | The search pattern matches a text if and only if the query is a contiguous piece of it, up to the matcher's comparison of characters (section 8.5 of ISO/IEC 9075-2) |
| LikeEscape.UnescapedFindsAnything | backend/app/query_history_repository.py:19-22 | What escaping prevents: a bare underscore finds every text but the empty one, a bare percent sign every text |
| LikeEscape.OrderMatters | backend/app/query_history_repository.py:20-22 | Why the escape character goes first, as the code's comment says: replacing it last is right if and only if the text has no wildcard |

## Left out

Assumptions and abstractions:

- Time and tokens are reals and floats are reals: floating-point rounding, NaN and infinities are not modelled. Row values
  stand for Python values with 1 == 1.0 == True; dates, decimals and bytes are taken as already canonical.
- SHA-256 is an injective function, and the row serialisation tells the compared rows apart; JSON, SQLite, the embedding service, the LLM, sqlglot and
  the validators are parameters. The validators are deterministic and the embedding service returns one vector per text.
- A rate limit's burst is not negative. The digest of a client's API key stands for the client.
- Rate limiter and repositories run one statement, transaction or locked section at a time, as SQLite and the locks enforce.
- TenantStore.Repositories.UpdateConnection: states validity for calls that do not overlap, because read, validation and
  write are separate transactions; TenantStore.StaleWriteIff and TenantStore.OverlapIff say when overlapping ones keep it.
- Connection dialects and environments, the scan of secret keys for raw secrets, and timestamps are not modelled.
- Names of tables found by extraction are distinct, and implicit relations are an arbitrary list over existing tables; the
  detection itself, edge and key labels, confidences and the graph's node list are not modelled.
- The selection of a sub-graph for pruning is an arbitrary set of tables. Postgres and Oracle extraction are not modelled.
- The per-database configuration keys under which the API writes custom and disabled relations differ from the ones the
  merge reads (`backend/app/main.py:495`, `backend/app/schema_manager.py:617`); both lists are inputs here.
- A stored connection index is an earlier result or nothing; a damaged embeddings cache is not modelled. The order of table
  names within batches is arbitrary. The vector store holds names: which of the current tables a visit writes, and whether
  its deletion and its prune work, are inputs; several points of one table under different ids are not modelled.
- Log rows are appended with increasing ids and never deleted. Waiting between polls is not modelled.
- Callbacks of a generation run do not raise, and nobody clears the result cache. Prompts, timings, traces and the redaction of secrets in results are not modelled.
- Characters are compared one by one in LIKE; SQLite's length limit on patterns and its handling of NUL are not modelled.
- Uploads and Qdrant files are regular files that do not change while they are archived; symbolic and hard links, a
  manifest.json that is no regular file, temporary files and the report of restored items are not modelled.
- Case ids are not blank, and policies are valid: the contract errors for these are not modelled. Letters are lowered as ASCII.

Parts of the repository that are not modelled:

- HTTP routing, request models, the frontend, the desktop shell, the MCP server, spreadsheet parsing and command lines.
- The in-process log stream (`backend/app/main.py:327-366`), whose entries between replay and registration can be lost or repeated.
- The token bucket of the LLM client (`backend/app/llm_client.py:22-43`), whose callers proceed after a wait without a deduction.
- Retrieval of relevant tables by similarity, job scheduling, migrations, settings, adapters and health checks.
