# Verified model of the Lance extension for DuckDB

This project models the parts of the Lance extension in which a wrong step loses rows, leaks files or
answers a different query, and proves what they promise. It is plain Dafny: `dafny verify dfyconfig.toml`
checks all of it.

What is modelled, module by module:

- **Distributed writes.** `WriteProtocol` is a step system over a store of files, attempt manifests and
  committed versions: worker attempts open writers, register transactions and publish a manifest; the
  coordinator prepares, finalizes or aborts; every storage call may fail, and a commit may fail after it
  started. Its invariants hold in every run. `WriteOutcomes` says which files a run leaves and exactly when
  the promises about them fail. `VaneIdentity` and `CommitDecode` are the task identities and the decoding
  of selected results; `WorkerTask` is the worker, over any schedule of its threads. `WriteCoordinator` is
  the coordinator as code: it decodes the results, each call is a run of the step system, and the count it
  returns is the number of rows that arrived at the threads of the selected attempts.
  `SchemaNullability` is the preorder flattening of schema flags and its in-place re-application.
- **MERGE and transactions.** `MergeRows` is MERGE one row at a time. `MergeSelection` is the
  classification and the dispatch over selection vectors that are re-pointed and overwritten while they
  are read; `MergeSink` is the sink that refines the reference, and `MergeOutcome` says of a whole MERGE
  which action each input row is given to and what becomes of the target, cell by cell.
  `TransactionManager` accounts for every pending transaction handle.
- **Expression IR (intermediate representation) and filters.** `ExprIR` encodes, `ExprDecode` decodes,
  `ExprRoundTrip` and `ExprAcceptance` connect them, `ExprSize` says what can be encoded; `DecimalText` is the digit loop of decimals. `FilterSemantics`,
  `FilterPushdown`, `TableFilters` and `ScanFilters` prove that pushed filters keep their three-valued
  meaning; `ChildPaths` is the one place where a column path may not. `MutationPlan` is the plan under a
  DELETE or UPDATE and the rows it yields, `DeletePlan` and `UpdateWhere` the filter messages made of it,
  `RowIdRewrite` the optimizer's rewrite of row-id predicates to take lists, in its native and its
  distributed build, and `RowIdDelete` what DELETE makes of a rewritten plan. `UpdateScope` proves that a
  SET expression keeps its value when its references are resolved through filters and projections.
  `FilterAcceptance` and `PlanAcceptance` say exactly which filters, plans and expressions are compiled.
- **Execution IR.** `ExecIr` is the prefix code and the message, `ExecReader` the parser with its cursor
  and loops; `ExecAcceptance` says what it accepts. `ExecPlan` inlines projections, `ExecMessage` is the
  message of a whole plan, `ExecEncoder` and `ExecWriter` the encoder that writes it.
- **Blobs.** `BlobFile` is the read-ahead file handle, `BlobUri` the locator.
- **Arrow and cache.** `HalfFloat` and `ArrowCoercion` are the in-place widening of half-floats with its
  undo log, `DatasetCache` the get-or-open cache.
- `Bytes`, `Utf8` and `Decimals` hold what these share.

Storage calls, clocks and the query engine are parameters or nondeterministic steps. A call's contract is
what the calling code relies on, for instance that a commit consumes its handle on every return path
(`src/lance_storage.cpp:2229`), or that reconciling manifests refuses when a retained one is missing
(`rust/ffi/distributed_write.rs:755-794`). LIKE, functions, arithmetic and casts are uninterpreted
symbols shared by both sides of a comparison.

The write protocol takes from its surroundings what the code documents: selected results come from attempts
whose worker Finalize returned, peers are quiet when the coordinator finalizes
(`src/lance_distributed_write.cpp:1554-1558`), and Combine is called once per thread.

Promises that do not hold as stated, each with the input that breaks it and the condition under which it
does hold:

- DELETE and UPDATE ignore take lists. The rewrite of `rowid IN (...)` moves a predicate into the scan's take
  list, and the message built afterwards deletes every row (`RowIdDelete.DeleteByRowIdDeletesAll`), although
  the plan before the rewrite is refused (`RowIdDelete.AcceptedIsUntouched`). A DELETE is exact if and only if
  there is no take list or every row that passes the filters is on it (`DeletePlan.DeleteExactIff`); after
  the rewrite, if and only if no row-id predicate was erased (`RowIdDelete.DeleteUnderEveryIdIff`). The same
  holds of UPDATE (`UpdateWhere.UpdateExactIff`).
- The rewrite puts a second list of row ids in place of the first (`RowIdDelete.SecondListReplacesFirst`). A
  plan selects exactly the rows that the rewritten plan selects and that are on every list so lost
  (`RowIdRewrite.RewriteMeaning`).
- DELETE and UPDATE encode a predicate as if its positions were the scanned columns. A position keeps its
  column if and only if the scan's outputs and the projections below put that column in its own place
  (`MutationPlan.PositionDecides`, and for SET `UpdateScope.PrunedPositionDecides`); otherwise other rows may
  be deleted (`DeletePlan.MovedColumnMisread`).
- A scanned column with several child indexes is encoded as if each were a field of the one before. The path
  has the column's value if and only if there is one child at every level (`ChildPaths.ChildPathIff`).
- Abort sets no flag. If its manifest cleanup fails, a later Finalize commits a file that Abort deleted.
  Before Finalize the coordinator can still do this if and only if a published attempt with files is on
  record and the target is or can be prepared (`WriteOutcomes.MissingCommitIff`); in every run whose Aborts
  do clean the manifests each committed file exists (`WriteOutcomes.CommittedFilesExist`).
- Finalize before Prepare starts finalization and cleans nothing, after which Abort is refused
  (`WriteOutcomes.UnpreparedFinalizeStrands`). An orderly Finalize leaves only committed artifacts if and
  only if the target was prepared or there was no artifact (`WriteOutcomes.FinalizeTidiesIff`).
- When a commit fails after some appends landed, their cache keys are not invalidated. Keys are dropped
  whatever happens if and only if nothing was pending (`TransactionManager.CommittedKeysInvalidated`,
  `TransactionManager.CommittedKeyStaysCached`).
- ORDER BY names the output columns as the projection above the aggregate renames them, while groups and
  aggregates are written under the names before. A renamed key names nothing, or another column
  (`ExecMessage.OrderKeyNames`, `ExecMessage.RenamedKeyDangles`, `ExecMessage.SwappedKeyNamesOther`).
- A constant operand that is recast to a decimal may be rounded (`ExecPlan.RecastConstantRounds`). Exact
  constants preserve the meaning (`ExecPlan.InlineMeaning`), and where a constant shows in the result, only
  exact ones do (`ExecPlan.ShownConstantDecides`).
- A positional reference with an alias is encoded by the alias, whatever its scope. Where the position
  copies a column this keeps its value if and only if the alias is that column's name
  (`UpdateScope.AliasDecides`, `UpdateScope.AliasMisreads`); an alias that names no scanned column never
  does (`UpdateScope.UnknownAliasMisreads`).
- An attempt name with a trailing dot is accepted (`VaneIdentity.TrailingDotAccepted`).
- A dataset opened before an invalidation may be cached after it (`DatasetCache.StalePut`). An invalidation
  is safe if and only if it finds no outdated handle of its key in flight
  (`DatasetCache.InvalidationIsSafeIff`).
- If the undo log of a coercion cannot grow, the block allocated just before is lost
  (`ArrowCoercion.CoerceArray`, outcome `LogFull`).

## Model

| member | source | states |
|---|---|---|
| WriteProtocol.StepKeepsInv | src/lance_distributed_write.cpp:1376-1676 | every worker, coordinator and storage step keeps the invariant: artifacts at home with one owner, published results equal to their manifests, coordinator flags and program counter consistent |
| WriteProtocol.RunKeepsInv | src/lance_distributed_write.cpp:1376-1676 | the invariant holds in every state of every run of any number of attempts |
| WriteProtocol.AtMostOneCommit | src/lance_distributed_write.cpp:1521-1647 | in every run at most one commit starts, and only after a successful Prepare and inside Finalize |
| WriteProtocol.SelectedKept | src/lance_distributed_write.cpp:1591-1647 | once a commit has started no step deletes an artifact of a selected attempt or changes the selection |
| WriteProtocol.SelectedKeptForever | src/lance_distributed_write.cpp:1394-1519 | the same over every continuation of the run |
| WriteProtocol.OneOwner | src/lance_distributed_write.cpp:2293-2446 | an existing, uncommitted, unleaked artifact has exactly one owner: an open writer or guard of one thread, or one attempt. Within the attempt it is in both memory and manifest only after a publish that reported failure |
| WriteProtocol.PublishMovesOwner | src/lance_distributed_write.cpp:2871-2924 | publishing moves an artifact from the worker's memory to the manifest; if it reports failure the worker keeps it, and the manifest has it too exactly when it was written all the same |
| WriteOutcomes.StepKeepsPreserved | src/lance_distributed_write.cpp:1521-1647 | as long as an Abort that deletes files also cleans the manifests, every step keeps the artifacts of attempts on record until Finalize, selected ones until the commit, committed ones for good |
| WriteOutcomes.CommittedFilesExist | src/lance_distributed_write.cpp:1521-1676 | in every run whose Aborts clean the manifests, each committed artifact exists |
| WriteOutcomes.RunStaysTidy | src/lance_distributed_write.cpp:2293-2446 | an orderly run (best-effort cleanups succeed, the coordinator ends it when workers are quiet, a started commit reports its success) leaks nothing and ends without manifests |
| WriteOutcomes.OnlyCommittedRemains | src/lance_distributed_write.cpp:1394-1519 | such a run, once ended by the coordinator, leaves only committed artifacts |
| WriteOutcomes.UnpreparedFinalizeStrands | src/lance_distributed_write.cpp:1521-1534 | after a Finalize before Prepare no continuation at all, by anyone, commits anything or removes a published artifact |
| WriteOutcomes.FinalizeTidiesIff | src/lance_distributed_write.cpp:1521-1647 | with quiet workers and an otherwise orderly end, Finalize leaves only committed artifacts if and only if the target was prepared or there was no artifact |
| WriteOutcomes.UnknownCommitKeepsArtifacts | src/lance_distributed_write.cpp:1591-1634 | from any start, a commit that started and failed can leave its artifact uncommitted in place, and no later Abort or Finalize changes anything |
| WriteOutcomes.AbortThenFinalizeCommitsMissingFile | src/lance_distributed_write.cpp:1649-1676 | from every reachable state before Finalize with a published attempt on record and a target that can be prepared, coordinator calls lead to a committed artifact that does not exist |
| WriteOutcomes.MissingCommitIff | src/lance_distributed_write.cpp:1649-1676 | before Finalize the coordinator can still commit a missing artifact if and only if such an attempt is on record and the target is or can be prepared |
| WriteOutcomes.HalfDoneAbortRun | src/lance_distributed_write.cpp:1649-1676 | such a state is reachable from the start: publish, abort with a failing manifest cleanup, finalize |
| WriteCoordinator.DeleteArtifacts | rust/ffi/distributed_write.rs:651-686 | deletes only the given artifacts, never live ones, and all dead ones when it succeeds; it fails only if a deletion does |
| WriteCoordinator.CleanupTransactions | src/lance_distributed_write.cpp:1394-1430 | best effort over all transactions, each whatever became of the one before: only their artifacts go, and unless a deletion fails none but live ones is left |
| WriteCoordinator.CleanupManifests | rust/ffi/distributed_write.rs:755-794 | deletes a manifest only after its artifacts, keeps retained attempts; unless a deletion fails it succeeds exactly when no retained manifest is missing, and then the retained ones are all that is left |
| WriteCoordinator.ReleaseManifests | rust/ffi/distributed_write.rs:796-829 | removes ownership records only, all of them on success, never an artifact; unless a deletion fails it is refused only for no attempts or while another attempt has a record |
| WriteCoordinator.Provider.PrepareTarget | src/lance_distributed_write.cpp:1376-1392 | Prepare is a run of the protocol that touches no artifact; it succeeds exactly on the first call, if the target could be made or validated; a second call changes nothing |
| WriteCoordinator.Provider.Finalize | src/lance_distributed_write.cpp:1521-1647 | Finalize decodes the selected results and is a run of the protocol. It returns a count only once, only if prepared, only for readable results with one attempt per logical task whose manifests are all there, only if the snapshot is the same and the commit succeeded; then the count is the rows of all results and exactly one commit took place, of exactly the artifacts of the chosen attempts (none for no results). Unless a deletion fails it returns one exactly then, and leaves neither a manifest nor an artifact of a losing attempt; whatever goes wrong before the commit starts leaves no manifest, no artifact of one, and none of any readable prefix of the results. A refusal changes nothing in the store |
| WriteCoordinator.Provider.CommitDecoded | src/lance_distributed_write.cpp:1535-1590 | losing attempts are reconciled first; unless a deletion fails, a count is returned exactly when every chosen manifest is there and the commit succeeded or there was nothing to commit, and a failure before the commit leaves nothing behind |
| WriteCoordinator.Provider.CommitTransactions | src/lance_distributed_write.cpp:1566-1647 | the commit path is a run of the protocol and succeeds exactly when the commit does: one more commit, of the artifacts of all decoded transactions; a commit that started and failed keeps every manifest, one that did not start is cleaned up after |
| WriteCoordinator.Provider.ExecuteCommit | rust/ffi/distributed_write.rs:959-1080 | success, and a failure after the start that landed all the same, commit exactly the artifacts of all decoded transactions; any other failure commits nothing; no file or manifest changes |
| WriteCoordinator.Provider.CleanUp | src/lance_distributed_write.cpp:1394-1483 | deleting the artifacts of the decoded transactions and then of all manifests is a run of the protocol, commits nothing and deletes nothing else. Unless a deletion fails, no manifest is left, and no artifact of the transactions or of a manifest but live ones |
| WriteCoordinator.Provider.ReleaseSelected | src/lance_distributed_write.cpp:1485-1519 | releasing the selected manifests is a run of the protocol and changes nothing else; unless a deletion fails none is left |
| WriteCoordinator.Provider.Abort | src/lance_distributed_write.cpp:1649-1676 | Abort is refused exactly after finalization started; otherwise it commits nothing, sets no flag, and succeeds exactly when all results were readable with one attempt per logical task. Whether or not it succeeds, unless a deletion fails no manifest is left, no artifact of one, and none of any readable prefix of the results |
| WriteCoordinator.OthersStep | src/lance_distributed_write.cpp:2293-2446 | a step of a worker or another client keeps the coordinator's state, what is committed and every published attempt |
| WriteCoordinator.Provider.Await | src/lance_distributed_write.cpp:2293-2446 | no run of workers and other clients changes the coordinator's state, what is committed or what was selected |
| WriteCoordinator.ChosenFiles | src/lance_distributed_write.cpp:1969-2179 | the transactions of results that workers returned hold only artifacts of the chosen attempts, and all of them if every result is intact |
| WriteCoordinator.DecodedFiles | src/lance_distributed_write.cpp:1954-2186 | what decoding yields from readable results is exactly the artifacts of the chosen attempts, and no rows without a transaction |
| WriteCoordinator.RowsConserved | src/lance_distributed_write.cpp:2557-2924 | the row total of the selected results is the number of rows that arrived at the threads of their attempts |
| WriteCoordinator.RunsReadable | src/lance_distributed_write.cpp:1954-2186 | whatever attempts of one query return, over any schedules, is decoded, when there is one per logical task, storage reads back what it wrote, nothing is shared and totals fit |
| WriteCoordinator.FinalizeRuns | src/lance_distributed_write.cpp:1521-1647 | after any run of workers and other clients, the count Finalize returns is the number of rows that arrived at the threads of the selected attempts |
| VaneIdentity.WellFormedAttempt | src/lance_distributed_write.cpp:141-175 | every well-formed attempt name belongs to the logical task of its fragment and partition |
| VaneIdentity.AcceptedAttempts | src/lance_distributed_write.cpp:141-175 | an attempt name is accepted if and only if it is the query, canonical fragment, partition and attempt numbers, and at most one more dot |
| VaneIdentity.TrailingDotAccepted | src/lance_distributed_write.cpp:155-175 | a trailing dot is accepted and denotes the same logical task |
| VaneIdentity.TaskNameInjective | src/lance_distributed_write.cpp:155-175 | logical task names are equal exactly for equal fragment and partition |
| CommitDecode.CheckedAdd | src/lance_distributed_write.cpp:127-133 | the sum, or a refusal exactly when it exceeds 64 bits |
| CommitDecode.AddPaths | src/lance_distributed_write.cpp:2131-2147 | accepts exactly non-empty paths that are new and pairwise distinct, and remembers them |
| CommitDecode.DecodeOne | src/lance_distributed_write.cpp:2043-2149 | one transaction is accepted exactly when its payload is new, decodes to the envelope's properties and paths, and both totals fit |
| CommitDecode.DecodeTransactions | src/lance_distributed_write.cpp:2036-2158 | all transactions of an envelope are accepted exactly when each is, and rows, bytes and artifact count add up to the envelope's; those before the first fault are handed back in any case |
| CommitDecode.MatchArtifacts | src/lance_distributed_write.cpp:2159-2173 | the fragment's artifacts are the decoded paths, in order |
| CommitDecode.DecodeFragment | src/lance_distributed_write.cpp:2008-2173 | a fragment is accepted exactly when it is honest and shares no payload or path with earlier ones; the transactions decoded before a fault are handed back even when it fails |
| CommitDecode.DecodeResult | src/lance_distributed_write.cpp:1969-2179 | one result joins those before it exactly when it is well formed, of the same query, a new attempt, disjoint from them and the totals fit |
| CommitDecode.DecodeResults | src/lance_distributed_write.cpp:1954-2186 | decoding succeeds if and only if all results are readable together and each logical task has one attempt; then it yields every transaction and the sums. A duplicate logical task as only fault is reported after everything was decoded, and after any other fault the transactions of every readable prefix are still handed back |
| WorkerTask.Thread.Sink | src/lance_distributed_write.cpp:2557-2657 | the thread's row count grows by the chunk, or the sink is refused when it would exceed 64 bits |
| WorkerTask.Worker.Register | src/lance_distributed_write.cpp:2405-2415 | a transaction is registered and both totals grow, or nothing changes |
| WorkerTask.Worker.Combine | src/lance_distributed_write.cpp:2659-2808 | the rows a thread sank become exactly one transaction of the attempt, with the writer's payload, its rows and bytes, and each path with its own size; none for no rows; it fails exactly when the writer failed, the payload is empty, there is no artifact or one without a path, or a total does not fit |
| WorkerTask.Worker.Finalize | src/lance_distributed_write.cpp:2810-2924 | succeeds exactly once, if there is nothing to publish or the manifest was published; the result carries exactly the registered transactions and their totals, which are all rows combined unless a Combine failed, and memory is given up only when the manifest was published |
| WorkerTask.Worker.BuildEnvelope | src/lance_distributed_write.cpp:2830-2869 | the envelope lists all transactions with their counts, paths and sizes |
| WorkerTask.RunEvents | src/lance_distributed_write.cpp:2557-2808 | over any number of threads and any interleaving of their chunks in which each thread combines once, after its chunks, the attempt ends up with exactly one transaction per thread that had rows, and exactly the rows that arrived; it gets through exactly when every chunk and every transaction fits |
| WorkerTask.RunAttempt | src/lance_distributed_write.cpp:2557-2924 | a whole attempt: it has a result exactly when every chunk and transaction fits and the manifest, if one is needed, was published; the result carries exactly those transactions and rows |
| WorkerTask.HonestResult | src/lance_distributed_write.cpp:2810-2869 | a worker's result passes every check of the coordinator's decoder |
| WorkerTask.HonestSelectionAccepted | src/lance_distributed_write.cpp:1954-2186 | honest attempts of one query, one per logical task, are always accepted while payloads and artifacts are distinct and totals fit |
| SchemaNullability.UniqueReading | src/lance_distributed_write.cpp:239-260 | a preorder depth sequence is read back as a forest in only one way |
| SchemaNullability.DepthsDetermineShape | src/lance_distributed_write.cpp:239-260 | two forests have equal depth sequences exactly when they have the same shape |
| SchemaNullability.CapturedIsValid | src/lance_distributed_write.cpp:470-489 | what is captured from any schema passes the transport checks |
| SchemaNullability.ValidIsCaptured | src/lance_distributed_write.cpp:470-489 | every sequence that passes the checks is the preorder of a schema, of one shape only |
| SchemaNullability.Captured.Append | src/lance_distributed_write.cpp:239-260 | appends depths and flags in preorder, and stops exactly when a depth does not fit 32 bits |
| SchemaNullability.Apply | src/lance_distributed_write.cpp:310-341 | overwrites the flags of a forest in place if and only if the depths at the position are its own; other flags are untouched |
| SchemaNullability.ApplyAll | src/lance_distributed_write.cpp:343-358 | succeeds exactly on the captured shape, and then every flag is as captured |
| SchemaNullability.Transfer | src/lance_distributed_write.cpp:239-358 | capturing from one schema and applying to another succeeds exactly when they have the same shape and no depth exceeds 32 bits; then every flag of the second is that of the first, and nothing else changes |
| MergeRows.AbsorbBatch | src/lance_merge.cpp:635-789 | recording a batch has the effects of absorbing its rows one at a time |
| MergeRows.DeletedOnce | src/lance_merge.cpp:683-697 | the deleted row ids are pairwise distinct and are exactly the target rows touched |
| MergeRows.RowsConserved | src/lance_merge.cpp:635-789 | deleted rows are the updated plus the removed ones, inserted rows are the inserted input rows plus one per updated row |
| MergeRows.FirstEventDecides | src/lance_merge.cpp:679-733 | a touched target row is decided by its first event alone: an update re-inserts it once with that input row's values, a delete re-inserts nothing |
| MergeRows.LaterTouchIgnored | src/lance_merge.cpp:679-694 | a later event on the same row changes nothing but the count of changed rows |
| MergeRows.KeptColumn | src/lance_merge.cpp:701-726 | a column that is not updated keeps the target's value |
| MergeRows.UpdatedColumn | src/lance_merge.cpp:708-726 | an updated column holds the last expression assigned to it |
| MergeSelection.SelectExpression | src/lance_merge.cpp:888-892 | splits a selection into accepted and rejected rows in order, even when the rejected rows overwrite the selection being read |
| MergeSelection.ComputeMatches | src/lance_merge.cpp:584-622 | fills three selections that hold the rows of each class and add up to the chunk |
| MergeSelection.ClassesPartition | src/lance_merge.cpp:584-622 | each class holds exactly its rows, in chunk order |
| MergeSelection.DispatchStep | src/lance_merge.cpp:879-914 | splitting what remains by the next condition gives the rows which that action is first to claim, and what remains after it |
| MergeSelection.DispatchRest | src/lance_merge.cpp:908-914 | an action without a condition claims everything that remains |
| MergeSelection.NothingLeft | src/lance_merge.cpp:871-874 | stopping when nothing remains loses no row of a later action |
| MergeSink.ExtractRowIds | src/lance_merge.cpp:112-138 | the row ids, refused exactly when one is NULL or negative |
| MergeSink.PatchBatch | src/lance_merge.cpp:699-730 | column-by-column overwriting equals patching each row with its own input row; refused exactly when a column is not in the table or there are more rows than inputs |
| MergeSink.MergeState.Dedupe | src/lance_merge.cpp:679-689 | keeps the first position of each row id not mutated before, and remembers all ids |
| MergeSink.MergeState.InsertPatched | src/lance_merge.cpp:478-551 | the rows taken in several batches are patched with their own input rows and inserted in order; unless storage fails, exactly when the columns are in the table |
| MergeSink.MergeState.HandleUpdate | src/lance_merge.cpp:635-733 | the sink's state refines the reference extended by the update of these rows; unless storage fails, it succeeds exactly when each of them can be carried out |
| MergeSink.MergeState.HandleInsert | src/lance_merge.cpp:735-753 | each input row adds one row, with the value of each expression in its place, and the sink's state refines the reference extended by them; unless storage fails, it succeeds exactly when each of them can be carried out |
| MergeSink.MergeState.HandleDelete | src/lance_merge.cpp:755-789 | the sink's state refines the reference extended by the delete of these rows; unless storage fails, it succeeds exactly when each of them can be carried out |
| MergeSink.MergeState.HandleAction | src/lance_merge.cpp:819-856 | every kind of action extends the reference by its rows; unless storage fails, it succeeds exactly when each of them can be carried out |
| MergeSink.UpdateDecided | src/lance_merge.cpp:635-733 | a shaped UPDATE batch can be carried out exactly when it reaches no target row first or its columns are in the table |
| MergeSink.ProcessRows | src/lance_merge.cpp:858-916 | each row goes exactly once to the first action whose condition is true, actions in order, although the current selection is re-pointed at the one being overwritten; unless storage fails, this succeeds exactly when every row can be handled |
| MergeSink.Sink | src/lance_merge.cpp:918-950 | one chunk extends the reference by its rows in class, action and row order; unless storage fails, exactly when they can all be handled |
| MergeOutcome.EffectsAreMerged | src/lance_merge.cpp:635-789 | the reference deletes exactly the rows that an UPDATE or DELETE reached, in the order in which they were first reached; adds one row per INSERT and per first UPDATE, in order, each cell an expression's value or the target's own; and counts every changing event |
| MergeOutcome.SinkScripts | src/lance_merge.cpp:584-950 | the order in which the sink handles rows is that of all rows of all chunks by chunk, class, action and row, each under the first action of its class that has no condition or whose condition holds |
| MergeOutcome.MergeAll | src/lance_merge.cpp:584-950 | a whole MERGE of any number of chunks: its events are exactly the rows that an action takes, chunk by chunk, class by class as the marker columns say, action by action, row by row; the target is changed by those events as above; and unless storage fails this succeeds exactly when every event can be carried out |
| TransactionManager.Manager.Register | src/lance_storage.cpp:2195-2200 | a new handle is appended to its transaction and accounted for |
| TransactionManager.Manager.Commit | src/lance_storage.cpp:2202-2250 | commits a registration-order prefix, frees the rest after a failure, leaves nothing pending, invalidates all keys exactly when the appends and the engine's own commit all succeeded |
| TransactionManager.Manager.CommitAll | src/lance_storage.cpp:2215-2240 | each handle of the list is passed to exactly one commit or free call: a prefix committed, the failing one, the rest freed |
| TransactionManager.Manager.Rollback | src/lance_storage.cpp:2252-2267 | frees each handle of the transaction once and leaves nothing pending |
| TransactionManager.EndAccounted | src/lance_storage.cpp:2202-2267 | ending a transaction by consuming its whole list keeps every handle pending or consumed once |
| TransactionManager.NothingLost | src/lance_storage.cpp:2190-2272 | when nothing is pending every registered handle has been consumed by exactly one call |
| TransactionManager.CommittedKeysInvalidated | src/lance_storage.cpp:2242-2249 | the keys of all that landed are invalidated whatever the outcome if and only if nothing was pending; if the engine's commit cannot fail, if and only if at most one append was pending |
| TransactionManager.CommittedKeyStaysCached | src/lance_storage.cpp:2215-2249 | two appends of which the second fails: the first is committed and its key is never invalidated |
| DecimalText.Scan | src/lance_expr_ir.cpp:334-360 | accepts exactly digits with at most one dot and no more fraction digits than the scale, and computes their number |
| DecimalText.Unscaled | src/lance_expr_ir.cpp:318-371 | the printed decimal becomes sign times digits times ten to the missing fraction digits |
| Bytes.AppendLittleEndian | src/lance_expr_ir.cpp:159-165 | the shifting byte loop appends the little-endian form that the decoder reads back |
| ExprRoundTrip.LiteralRoundTrip | src/lance_expr_ir.cpp:235-378 | every encodable literal is read back with its value, decimals as 128-bit two's complement |
| ExprRoundTrip.TypeRoundTrip | src/lance_expr_ir.cpp:380-465 | every encodable type is read back |
| ExprRoundTrip.NodeRoundTrip | rust/expr_ir.rs:250-374 | the decoder consumes exactly the bytes of any encodable node, leaving any suffix, and yields its translation |
| ExprRoundTrip.MessageRoundTrip | rust/expr_ir.rs:132-159 | a whole message decodes to the translated tree with no byte left over |
| ExprSize.NodeSized | src/lance_expr_ir.cpp:190-640 | a tree is encoded if and only if its values are finite and of known types, nothing that must not be empty is, and every count and length fits 32 bits; its bytes are as many as its fields take |
| ExprAcceptance.Accepted | rust/expr_ir.rs:376-582 | an encodable tree has a translation if and only if its texts are UTF-8, its functions known and its patterns literals that compile |
| ExprAcceptance.MessageAccepted | rust/expr_ir.rs:132-159 | the decoder accepts a message exactly for such a tree |
| FilterSemantics.FoldLeftMeaning | rust/expr_ir.rs:298-315 | folding an n-ary AND or OR to the left keeps its three-valued meaning |
| FilterPushdown.PathMeaning | src/lance_filter_ir.cpp:521-751 | a column path decodes to the nested field access the reference means |
| ChildPaths.ChildPathIff | src/lance_filter_ir.cpp:560-598 | the path encoded for a column with child indexes has the value the column stands for, on every row, if and only if there is one child at every level |
| ChildPaths.SiblingsMisread | src/lance_filter_ir.cpp:560-598 | two fields of a struct, the first a struct itself: the column is encoded as a field of its first field |
| FilterPushdown.BuildMeaning | src/lance_filter_ir.cpp:753-1079 | a predicate that compiles and decodes has, on every row, the value the predicate has |
| FilterPushdown.BetweenMeaning | src/lance_filter_ir.cpp:1041-1075 | BETWEEN split into two comparisons keeps its value: an inclusive bound may be met, an exclusive one may not |
| FilterPushdown.CallIsPreserved | src/lance_filter_ir.cpp:763-921 | text functions and LIKE with folded constant arguments keep their value |
| FilterAcceptance.ColumnsPushed | src/lance_filter_ir.cpp:521-751 | a reference is compiled if and only if it leads from a scanned column of this table through struct fields to a supported leaf, and the column is not left out |
| FilterAcceptance.Pushes | src/lance_filter_ir.cpp:753-1079 | a predicate is compiled if and only if it is made of such references, constants, foldable casts, comparisons, AND, OR, NOT, NULL tests, IN lists of constants, BETWEEN, and the known text functions with foldable arguments |
| TableFilters.CompileMeaning | src/lance_filter_ir.cpp:170-431 | a table filter that compiles and decodes has, on every row, the value the filter has |
| FilterAcceptance.FilterPushes | src/lance_filter_ir.cpp:170-431 | a table filter is compiled if and only if it is made of comparisons, NULL tests, IN lists, conjunctions and pushable expressions |
| ScanFilters.BuildPart | src/lance_filter_ir.cpp:462-519 | the part of one filter, and whether a prefilter still covers it |
| ScanFilters.BuildParts | src/lance_filter_ir.cpp:462-519 | the loop collects exactly the parts that can be pushed, and its flags say whether that is all of them |
| ScanFilters.MessageMeaning | src/lance_filter_ir.cpp:1127-1142 | a message keeps exactly the rows on which every part is true |
| ScanFilters.PushdownSound | src/lance_filter_ir.cpp:462-519 | the pushed message never drops a row that satisfies all filters, and keeps exactly those when all were pushed |
| DeletePlan.ProbeTableFilters | src/lance_filter_ir.cpp:433-460 | probing with the columns up to the largest id is pushing on the whole table, refused as a whole on an invalid id |
| DeletePlan.AppendPredicates | src/lance_delete.cpp:120-139 | every predicate becomes a part, or the DELETE is refused |
| DeletePlan.BuildDeleteFilter | src/lance_delete.cpp:80-147 | a message is built exactly when the plan has one chain to a scan and every filter and predicate can be encoded |
| PlanAcceptance.DeleteSends | src/lance_delete.cpp:80-147 | DELETE has parts to send if and only if the plan is a chain of filters and projections over the table, every table filter is there, pushable and sendable, and so is every predicate |
| MutationPlan.PassesAtScan | src/lance_delete.cpp:32-58 | when every predicate reads columns left in their place, a row passes the plan exactly when the scan's filters hold and all collected predicates are true of the scanned columns |
| MutationPlan.SameMeaning | src/lance_delete.cpp:32-58 | a predicate over columns left in place means above the plan what it means at the scan |
| MutationPlan.PositionDecides | src/lance_filter_ir.cpp:601-620 | above any projections and any pruning of the scan's outputs, a position that copies a scanned column reads, on every row, the column of its own number if and only if it copies that one |
| DeletePlan.DeleteExact | src/lance_delete.cpp:80-147 | without a take list an accepted DELETE removes exactly the rows the plan selects, when every predicate reads columns left in their place |
| DeletePlan.DeleteKeeps | src/lance_delete.cpp:80-147 | an accepted DELETE removes exactly the rows that satisfy every table filter and predicate, whatever the take list is |
| DeletePlan.DeleteExactIff | src/lance_delete.cpp:80-147 | on any table DELETE removes exactly the selected rows if and only if there is no take list or every row that passes the filters is on it |
| DeletePlan.MovedColumnMisread | src/lance_delete.cpp:32-58 | over every plan whose first output is the second column, a test of the first output is encoded as a test of the first column and deletes a row the plan does not select |
| DeletePlan.ProjectedAndPruned | src/lance_scan.cpp:5008-5010 | both a projection and a pruned scan are such plans |
| RowIdRewrite.NormalizeIds | src/lance_scan.cpp:1402-1412 | the list is compacted in place to its first occurrences |
| RowIdRewrite.CollectDisjuncts | src/lance_scan.cpp:3855-3883 | the stack loop over nested ORs finds the ids of all equalities from left to right, or the first disjunct that is none or invalid |
| RowIdRewrite.FilterIdsMeaning | src/lance_scan.cpp:1415-1464 | a table filter that lists row ids is true exactly on the rows of those ids |
| RowIdRewrite.PredicateIdsMeaning | src/lance_scan.cpp:3765-3886 | a predicate that lists row ids, and reads columns left in their place, is true exactly on the rows of those ids |
| RowIdRewrite.GetMeaning | src/lance_scan.cpp:3895-3972 | a row-id filter that becomes the take list or moves above the scan still restricts the rows, up to a list it replaces |
| RowIdRewrite.RewriteMeaning | src/lance_scan.cpp:3888-4031 | a plan selects exactly the rows that the rewritten plan selects and that are on every take list the rewrite replaced |
| RowIdDelete.ErasedIff | src/lance_scan.cpp:3888-4031 | from a scan without a take list, the rewritten scan has one exactly when a row-id filter or predicate was erased |
| RowIdDelete.SelectedIsPassing | src/lance_scan.cpp:2428-2447 | a plan selects exactly the rows that pass the rewritten plan's filters and are on every erased list |
| RowIdDelete.DeleteAfterRewriteIff | src/lance_delete.cpp:80-147 | on any table DELETE of the rewritten plan removes exactly the rows of the original plan if and only if every row that passes what is left is on every erased list |
| RowIdDelete.DeleteUnderEveryIdIff | src/lance_delete.cpp:80-147 | columns that DELETE of the rewritten plan removes under some id are removed exactly under the ids the original plan selects if and only if nothing was erased |
| RowIdDelete.AcceptedIsUntouched | src/lance_delete.cpp:80-147 | a plan whose DELETE is accepted is not changed by the rewrite: what it erases, DELETE would have refused |
| RowIdDelete.DeleteByRowIdDeletesAll | src/lance_scan.cpp:4021-4030 | WHERE rowid IN (1, 5): refused as planned; rewritten, a row of any other id is deleted |
| RowIdDelete.SecondListReplacesFirst | src/lance_scan.cpp:4021-4024 | WHERE _rowid = 5 AND rowid IN (1, 7): the rewritten plan selects row 1, the original none |
| UpdateWhere.ExtractParts | src/lance_update.cpp:114-164 | the walk finds the scan and all predicates on the way, exactly for a projection over projections and filters on a Lance scan |
| UpdateWhere.CollectFilters | src/lance_filter_ir.cpp:1081-1113 | the parts of all table filters, or a refusal when one cannot be encoded |
| UpdateWhere.CollectWhere | src/lance_update.cpp:389-415 | the parts of all predicates that do not fold to true, or a refusal |
| UpdateWhere.BuildUpdateFilter | src/lance_update.cpp:366-421 | a message is built exactly for a standard plan whose filters and predicates can all be encoded |
| PlanAcceptance.UpdateSends | src/lance_update.cpp:366-421 | UPDATE has parts to send if and only if the plan is a standard one, every table filter that is there is pushable and sendable, and so is every predicate that is there and does not fold to true |
| UpdateWhere.UpdateKeeps | src/lance_update.cpp:373-421 | UPDATE changes exactly the rows that satisfy every table filter, predicate and pushed part, whatever the take list is |
| UpdateWhere.UpdateExactIff | src/lance_update.cpp:373-421 | on any table UPDATE changes exactly the selected rows if and only if, among the rows that pass, the pushed parts are true of exactly those the scan takes |
| UpdateScope.BuildMeaning | src/lance_expr_ir.cpp:898-1113 | a SET expression that encodes and decodes has, on every row, the value it has in its scope, an arithmetic function by any of its names the value of its operator |
| UpdateScope.BindingMeaning | src/lance_expr_ir.cpp:859-896 | a column binding resolved through filters and projections reads the value it is bound to |
| UpdateScope.PositionMeaning | src/lance_expr_ir.cpp:831-857 | a positional reference resolved through filters and projections reads the value at that position, where the scan yields its columns in place |
| UpdateScope.PrunedPositionDecides | src/lance_expr_ir.cpp:797-857 | a position right above the scan keeps its value on every row if and only if the column the scan yields there has the name that is encoded |
| UpdateScope.UpdateIsExact | src/lance_expr_ir.cpp:1115-1122 | the whole message, decoded and evaluated on a row, gives the value of the SET expression, if each alias names the column its position copies and the scan yields its columns in place |
| PlanAcceptance.ExprBuilt | src/lance_expr_ir.cpp:797-1113 | a SET expression has a tree if and only if every reference leads through the scope to a named column or has an alias, and there is no TRY_CAST, empty IN list or unknown operator |
| UpdateScope.AliasDecides | src/lance_expr_ir.cpp:909-916 | an aliased reference to a position that copies a column keeps its value on every row the scan delivers if and only if the alias is that column's name |
| UpdateScope.UnknownAliasMisreads | src/lance_expr_ir.cpp:909-916 | whatever the position computes, an alias that names no scanned column misreads it on some row |
| UpdateScope.AliasMisreads | src/lance_expr_ir.cpp:909-916 | above a projection that swaps two columns, an aliased reference reads the wrong one wherever they differ |
| ExecIr.PrefixCode | src/lance_exec_ir.cpp:383-597 | reading a written expression followed by anything gives the expression and exactly that rest |
| ExecIr.PrefixFree | src/lance_exec_ir.cpp:383-597 | equal streams start with the same expression |
| ExecIr.MessageRoundTrip | src/lance_exec_ir.cpp:880-947 | a version-4 message reads back as the same filter, projection, groups, aggregates and order keys |
| ExecReader.TakeExpr | rust/exec_ir.rs:209-263 | the recursive cursor parser reads exactly what the specification reads, and stops where it stops |
| ExecReader.TakeHint | rust/exec_ir.rs:192-207 | the type hint at the cursor, by its tag |
| ExecReader.TakeAgg | rust/exec_ir.rs:134-161 | one aggregate, with its type hint from version 2 on |
| ExecReader.ParseBody | rust/exec_ir.rs:107-190 | the sections of versions 1 to 4, with nothing after them |
| ExecReader.ParseExecIr | rust/exec_ir.rs:95-190 | the parser accepts exactly the messages of the specification |
| ExecAcceptance.ExprWritten | rust/exec_ir.rs:209-263 | an expression is read only from the bytes the encoder writes for it, up to booleans written as numbers above 1 |
| ExecAcceptance.AcceptedIsWritten | rust/exec_ir.rs:95-190 | an accepted version-4 message is the encoding of its result, apart from the unused flags word and such booleans: nothing else is accepted |
| ExecPlan.InlineIsClosed | src/lance_exec_ir.cpp:383-597 | an encoded expression names exactly the columns recorded for it, all of them named table columns |
| ExecPlan.Inlines | src/lance_exec_ir.cpp:383-597 | an expression is inlined if and only if every reference ends at a named column, every constant can be written once it is converted, every other cast is to a type with a hint, and nothing unsupported is in it |
| ExecPlan.InlineMeaning | src/lance_exec_ir.cpp:383-597 | the encoded expression on a table row has the value of the original on the projected row, for every well-formed projection stack and exactly recast constants |
| ExecPlan.ShownConstantDecides | src/lance_exec_ir.cpp:495-526 | where a recast constant shows, no other operand hiding it on this row, the value is preserved if and only if the conversion is exact |
| ExecPlan.RecastConstantRounds | src/lance_exec_ir.cpp:495-521 | a constant of 0.125 beside a two-digit decimal is written as 0.13, and the product differs on every row with a nonzero price |
| ExecEncoder.EncodeExpr | src/lance_exec_ir.cpp:383-597 | appends exactly the bytes of the inlined expression and adds exactly its columns, or reports failure |
| ExecEncoder.EncodeLiteral | src/lance_exec_ir.cpp:239-309 | appends exactly the bytes of the literal, or reports failure |
| ExecWriter.EncodeGroups | src/lance_exec_ir.cpp:678-720 | encodes every group and collects its columns, or refuses the plan |
| ExecWriter.EncodeAggs | src/lance_exec_ir.cpp:722-852 | encodes every aggregate and collects its columns, or refuses the plan |
| ExecWriter.Sorted | src/lance_exec_ir.cpp:856-861 | the collected columns, ascending and without duplicates |
| ExecWriter.ScanProjection | src/lance_exec_ir.cpp:854-878 | the names of the collected columns in table order, refused exactly when one is out of range or unnamed |
| ExecWriter.WriteSection | src/lance_exec_ir.cpp:897-947 | appends the count and every element, refused exactly when a length does not fit 32 bits |
| ExecWriter.Rename | src/lance_exec_ir.cpp:959-1033 | accepts exactly a projection that renames each output column in place, and then all three name tables agree with it |
| ExecWriter.ResolveOrder | src/lance_exec_ir.cpp:1035-1109 | each order key gets the current name of the output column it refers to |
| ExecWriter.Encode | src/lance_exec_ir.cpp:641-1122 | the encoder writes exactly the bytes of the plan's message, groups and aggregates under the names before the renaming |
| ExecMessage.PlanIsClosed | src/lance_exec_ir.cpp:641-646 | every column that a group or aggregate names is projected by the scan |
| ExecMessage.NamesAreDistinct | src/lance_exec_ir.cpp:854-878 | the scan projects nothing twice |
| ExecMessage.OrderKeyResolves | src/lance_exec_ir.cpp:959-1109 | an order key names the written output column it sorts by if and only if the projection above leaves that name alone |
| ExecMessage.OrderKeyNames | src/lance_exec_ir.cpp:959-1109 | an order key names a given output column if and only if the projection above gives the column it sorts by that name |
| ExecMessage.SwappedKeyNamesOther | src/lance_exec_ir.cpp:959-1109 | two counts whose names are swapped above: a key that sorts by the first names the second, without an error |
| ExecMessage.RenamedKeyDangles | src/lance_exec_ir.cpp:959-1109 | a renamed count is ordered by a name that no output column has |
| ExecMessage.PlanRoundTrip | rust/exec_ir.rs:95-190 | the bytes of a plan read back as its message |
| ExecMessage.MessageAsPlanned | src/lance_exec_ir.cpp:641-1122 | the message of a plan has its filter, projects the columns its groups and aggregates need, and holds each group, aggregate and order key with the plan's own name, function, type and direction |
| ExecMessage.ParsedPlanMeaning | rust/exec_ir.rs:95-190 | what is read from a plan's bytes is the plan: the filter, the columns its expressions need, each group and aggregate with its own name, function and type, each order key with its direction; and the expressions have, on every table row, the values of the plan's own on the projected row |
| BlobFile.BlobHandle.Close | src/lance_blob_filesystem.cpp:33-38 | the handle becomes a closed plain file with its cursor |
| BlobFile.BlobHandle.ReadExact | src/lance_blob_filesystem.cpp:46-85 | the requested bytes of the blob or a failure; the window is empty or equals its slice; a covered range never reads the backing store. It fails only if there is no buffer or a backing read does; a small read that missed the window leaves it holding the next megabyte |
| BlobFile.BlobHandle.ReadRange | src/lance_blob_filesystem.cpp:87-96 | backing reads stay inside the blob |
| BlobFile.BlobHandle.Read | src/lance_blob_filesystem.cpp:149-162 | the blob's next bytes and the moved cursor of a plain file; a failure moves nothing; with a buffer it fails only on a closed handle, a negative length or a failed backing read |
| BlobFile.BlobHandle.ReadAt | src/lance_blob_filesystem.cpp:164-174 | exactly the requested range, refused outside the blob; the cursor never moves; within it, it fails only on a closed handle, a missing buffer or a failed backing read |
| BlobFile.BlobHandle.Seek | src/lance_blob_filesystem.cpp:176-188 | succeeds exactly on an open handle within the size |
| BlobFile.PiecesMakeTheWhole | src/lance_blob_filesystem.cpp:149-162 | reads of any sizes concatenate to one read of their total |
| BlobUri.EncodeValue | src/lance_blob.cpp:34-47 | unreserved bytes as they are, all others as two hexadecimal digits |
| BlobUri.DecodeValue | src/lance_blob.cpp:63-86 | the decoded bytes, refused on a bad escape, a reserved or NUL byte or invalid UTF-8 |
| BlobUri.DecodeEncoded | src/lance_blob.cpp:34-86 | decoding inverts encoding exactly for UTF-8 values without NUL |
| BlobUri.ParseUnsigned | src/lance_blob.cpp:88-102 | accepts exactly the non-empty digit strings below 2^64, with their value |
| BlobUri.ParsePrinted | src/lance_blob.cpp:88-102 | every printed 64-bit number is parsed back |
| BlobUri.ParseFields | src/lance_blob.cpp:147-154 | the field map, refused on a missing `=` or a repeated key |
| BlobUri.SizeCheckNeverFires | src/lance_blob.cpp:121-131 | the field limits keep every valid prefix below the size limit |
| BlobUri.ParseInvertsEncode | src/lance_blob.cpp:133-174 | a valid locator is parsed back if and only if its dataset has a scheme; a normalized one unchanged |
| HalfFloat.Normalize | src/lance_arrow_compat.cpp:107-113 | doubling until the eleventh bit is set keeps the number |
| HalfFloat.HalfToFloat | src/lance_arrow_compat.cpp:97-126 | the single has the sign and the number, infinity or NaN payload of the half |
| ArrowCoercion.Convert | src/lance_arrow_compat.cpp:132-138 | every element is widened to an equal single |
| ArrowCoercion.Override.CoerceNode | src/lance_arrow_compat.cpp:206-231 | a half-float leaf with data gets a new equal buffer and a log entry, any other node stays |
| ArrowCoercion.Override.CoerceTree | src/lance_arrow_compat.cpp:206-239 | after any part of the walk exactly the visited half-float leaves are replaced, and the log undoes them |
| ArrowCoercion.CoerceArray | src/lance_arrow_compat.cpp:379-402 | on success exactly the half-float leaves are replaced by equal singles; on a failed allocation everything is restored; only a log that cannot grow loses one block; unless an allocation fails it succeeds |
| ArrowCoercion.Override.Restore | src/lance_arrow_compat.cpp:393-396 | every slot is restored and every replacement freed exactly once: freeing needs an allocated block |
| ArrowCoercion.Release | src/lance_arrow_compat.cpp:188-204 | releasing restores every original buffer and frees each replacement exactly once, leaving memory as before the coercion |
| DatasetCache.BuildKey | src/lance_dataset_cache.cpp:113-130 | the length-prefixed key, refused exactly on keys and values of different number |
| DatasetCache.KeysAreInjective | src/lance_dataset_cache.cpp:98-130 | keys are equal exactly for equal path and options |
| DatasetCache.Cache.Get | src/lance_dataset_cache.cpp:20-29 | the entry of the key, counted as a hit or a miss |
| DatasetCache.Cache.PutOrGetExisting | src/lance_dataset_cache.cpp:31-41 | the first entry under a key wins |
| DatasetCache.Cache.QueryEnd | src/lance_dataset_cache.cpp:53-59 | exactly the keys marked during the query are dropped |
| DatasetCache.Drive | src/lance_dataset_cache.cpp:20-59 | the cache's own methods, in any interleaving of lookups, puts, commits, invalidations and query ends, hold the entries of that run |
| DatasetCache.NeverStale | src/lance_dataset_cache.cpp:249-270 | in every run whose invalidations find no outdated handle of their key in flight no cached entry is stale |
| DatasetCache.OutdatedFlightGoesStale | src/lance_dataset_cache.cpp:249-270 | whenever an invalidation finds an outdated handle in flight, putting that handle next leaves a stale entry |
| DatasetCache.InvalidationIsSafeIff | src/lance_dataset_cache.cpp:249-270 | an invalidation is safe whatever calm steps follow if and only if it finds no outdated handle of its key in flight |
| DatasetCache.StalePut | src/lance_dataset_cache.cpp:249-270 | open, commit, invalidate, put: the old handle stays in the cache |

## Left out

- The storage calls themselves (Lance, Arrow and DataFusion internals, object stores): they are
  nondeterministic steps or parameters with the contracts named above.
- CREATE TABLE AS preparation, replay paths, snapshot validation and storage options of distributed
  writes: plumbing around the modelled calls.
- The byte layout of the binary serializer and the MD5 fingerprints: envelopes are values, and a payload's
  decoder is a parameter.
- Transport validation beyond the depth checks of nullability.
- Threads: a step of the protocol is atomic, and what a lock protects is one method call.
- RETURNING of MERGE, and the Arrow conversion of taken rows.
- MERGE failure paths: after a failed call the statement is abandoned, so nothing is stated about its
  partial state. How the planner fills in default values of MERGE actions.
- FilterPushdown.PathMeaning: a scanned column is a whole column; child indexes are modelled in `ChildPaths`
  alone, and struct access by position is not modelled.
- FilterPushdown.BuildMeaning: regular expressions are not modelled, so a call of one is never built.
- FilterAcceptance.Pushes: says what the model compiles, so it leaves out regular expressions, child indexes
  and struct access by position as well.
- RowIdRewrite.RewriteMeaning: take lists that filter pushdown sets while keeping its predicate
  (`src/lance_scan.cpp:1661-1667`) are a given take list of the plan. How a table filter is turned into an
  expression is the engine's and a parameter, as is folding in `UpdateWhere`.
- Scans that sample ignore their take list (`src/lance_scan.cpp:2429-2433`); sampling is not modelled.
- UpdateScope.AliasDecides: stated for positions that copy a column. A position that computes from the
  aliased column may agree with it on every row, an AND of one operand for instance, so there the alias
  alone decides nothing.
- ExecAcceptance.AcceptedIsWritten: the encoder writes version 4 only, so nothing is stated about what is
  accepted under versions 1 to 3.
- ExprDecode.ParseSubs: the parser's cursor and its pushing loops are recursion over the bytes left; the
  cursor form is modelled for the execution IR.
- Rewriting of Arrow schema formats, and null children of schemas and arrays: only the array side is
  modelled.
- ExecPlan.InlineMeaning: whether an expression may be pushed down at all (parameters, volatility, casts
  that cannot throw) is an input of the plan, as are grouping-set checks and the mapping of aggregate
  names.
- ExecEncoder.EncodeLiteral: a constant that cannot be converted to a signed 64-bit integer makes the
  encoder throw; the model does not tell this from a refusal.
- DatasetCache.BuildKey: the path is taken as already normalized.
- VaneIdentity.AcceptedAttempts: splitting at dots follows the engine's splitter, which drops one empty
  last piece; that splitter is not part of this model.
- Secrets, REST namespaces, catalog and DDL planning, COPY wiring, index and maintenance statements:
  plumbing or keyword matching with easy claims.
