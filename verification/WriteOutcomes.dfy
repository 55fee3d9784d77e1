/** How distributed writes end: which files remain, and the runs in which the promise fails. */
module WriteOutcomes {
  import opened WriteProtocol

  /** Files a thread or an unfinished attempt holds have not been deleted. */
  ghost predicate Intact(w: World) {
    Kept(w.locals, w.memory, w.finalized, w.store.files)
  }

  ghost predicate Kept(locals: map<nat, Local>, memory: map<Attempt, set<File>>, finalized: set<Attempt>,
      files: set<File>) {
    && (forall id | id in locals :: locals[id].files <= files)
    && (forall a | a in memory && a !in finalized :: memory[a] <= files)
  }

  /** A step that deletes only files at home with finished attempts, or nothing, keeps the rest intact. */
  lemma CleaningKeepsIntact(w: World, after: Store)
    requires Inv(w) && Intact(w) && after.files <= w.store.files
    requires forall f | f in w.store.files && f !in after.files ::
        f in w.home && w.home[f].OfAttempt?
        && w.home[f].attempt in w.finalized
    ensures Intact(w.(store := after))
  {
  }

  /** What manifest cleanup deletes is at home with a recorded attempt it does not retain. */
  lemma ManifestDeletions(w: World, after: Store, retained: set<Attempt>, ok: bool, f: File)
    requires Inv(w) && CleansManifests(w.store, after, retained, ok) && f in w.store.files && f !in after.files
    ensures f in w.home && w.home[f].OfAttempt? && w.home[f].attempt in w.finalized && w.home[f].attempt !in retained
  {
  }

  lemma ManifestCleaningKeepsIntact(w: World, after: Store, retained: set<Attempt>, ok: bool)
    requires Inv(w) && Intact(w) && CleansManifests(w.store, after, retained, ok)
    ensures Intact(w.(store := after))
  {
    forall f | f in w.store.files && f !in after.files
      ensures f in w.home && w.home[f].OfAttempt? && w.home[f].attempt in w.finalized
    {
      ManifestDeletions(w, after, retained, ok, f);
    }
    CleaningKeepsIntact(w, after);
  }

  lemma TransactionCleaningKeepsIntact(w: World, after: Store, attempts: set<Attempt>)
    requires Inv(w) && Intact(w) && DeletesSome(w.store, after, FilesOf(w.published, attempts))
    ensures Intact(w.(store := after))
  {
    forall f | f in w.store.files && f !in after.files
      ensures f in w.home && w.home[f].OfAttempt? && w.home[f].attempt in w.finalized
    {
      assert f in w.store.files - after.files;
      PublishedHome(w, attempts, f);
    }
    CleaningKeepsIntact(w, after);
  }

  /** What one thread drops, no other thread and no attempt holds. */
  lemma DropLocalKeepsIntact(w: World, id: nat, after: World)
    requires Inv(w) && Intact(w) && id in w.locals
    requires after.memory == w.memory && after.finalized == w.finalized && after.locals == w.locals - {id}
    requires w.store.files - w.locals[id].files <= after.store.files
    ensures Intact(after)
  {
  }

  lemma DropMemoryKeepsIntact(w: World, a: Attempt, gone: set<File>)
    requires Inv(w) && Intact(w) && CanDropMemory(w, a, gone)
    ensures Intact(AfterDropMemory(w, a, gone))
  {
  }

  lemma WriteKeepsIntact(w: World, id: nat, added: set<File>)
    requires Intact(w) && CanWrite(w, id, added)
    ensures Intact(AfterWrite(w, id, added))
  {
  }

  lemma RegisterKeepsIntact(w: World, id: nat)
    requires Intact(w) && CanRegister(w, id)
    ensures Intact(AfterRegister(w, id))
  {
  }

  lemma MutationKeepsIntact(w: World, id: nat, a: Attempt, added: set<File>)
    requires Intact(w)
    ensures Intact(AfterMutation(w, id, a, added))
  {
  }

  lemma PublishKeepsIntact(w: World, a: Attempt, outcome: PublishOutcome)
    requires Intact(w) && CanPublish(w, a)
    ensures Intact(AfterPublish(w, a, outcome))
  {
  }

  lemma StepKeepsIntact(w: World, op: Op)
    requires Inv(w) && Intact(w) && Enabled(w, op)
    ensures Intact(Next(w, op))
  {
    match op
    case WriteFiles(id, added) => WriteKeepsIntact(w, id, added);
    case CreateMutation(id, a, added) => MutationKeepsIntact(w, id, a, added);
    case Register(id) => RegisterKeepsIntact(w, id);
    case Publish(a, outcome) => PublishKeepsIntact(w, a, outcome);
    case FinishWriter(id, ok) =>
      if !ok {
        DropLocalKeepsIntact(w, id, Next(w, op));
      }
    case DropLocal(id, _) => DropLocalKeepsIntact(w, id, Next(w, op));
    case DropMemory(a, gone) => DropMemoryKeepsIntact(w, a, gone);
    case Reconcile(after, ok) => ManifestCleaningKeepsIntact(w, after, w.coordinator.pc.attempts, ok);
    case CleanTransactions(after) => TransactionCleaningKeepsIntact(w, after, w.coordinator.pc.attempts);
    case CleanManifests(after, ok) => ManifestCleaningKeepsIntact(w, after, {}, ok);
    case _ =>
  }

  // Committed artifacts exist, unless an Abort failed to clean the manifests.

  predicate FilesExist(w: World, attempts: set<Attempt>) {
    FilesOf(w.published, attempts) <= w.store.files
  }

  /** The published attempts among `attempts` that still have a record. */
  function OnRecord(w: World, attempts: set<Attempt>): set<Attempt> {
    attempts * w.published.Keys * w.store.manifests.Keys
  }

  /** Between calls, what is published and on record exists until Finalize starts; then the selected files until the
      commit, and the committed files for good. */
  ghost predicate Preserved(w: World) {
    var c := w.coordinator;
    && (c.pc.Ready? && !c.finalizeStarted ==> FilesExist(w, OnRecord(w, w.published.Keys)))
    && (c.pc.Reconciling? ==> FilesExist(w, OnRecord(w, c.pc.attempts)))
    && (c.pc.Committing? ==> FilesExist(w, c.pc.attempts))
    && w.store.committed <= w.store.files
  }

  /** The manifest cleanup of an Abort succeeds; before Finalize starts no other call cleans manifests. */
  predicate AbortCleans(w: World, op: Op) {
    op.CleanManifests? && !w.coordinator.finalizeStarted ==> op.ok
  }

  predicate AbortsClean(w: World, ops: seq<Op>)
    requires Legal(w, ops)
    decreases |ops|
  {
    ops == [] || (AbortCleans(w, ops[0]) && AbortsClean(Next(w, ops[0]), ops[1..]))
  }

  lemma LocalNotPublished(w: World, id: nat, attempts: set<Attempt>)
    requires Inv(w) && id in w.locals
    ensures FilesOf(w.published, attempts) !! w.locals[id].files
  {
    forall f | f in FilesOf(w.published, attempts)
      ensures f !in w.locals[id].files
    {
      PublishedHome(w, attempts, f);
    }
  }

  lemma MemoryNotPublished(w: World, a: Attempt, attempts: set<Attempt>)
    requires Inv(w) && a in w.memory
    ensures FilesOf(w.published, attempts) !! w.memory[a]
  {
    forall f | f in FilesOf(w.published, attempts)
      ensures f !in w.memory[a]
    {
      PublishedHome(w, attempts, f);
    }
  }

  lemma ReconciledExist(w: World, after: Store, retained: set<Attempt>)
    requires Inv(w) && CleansManifests(w.store, after, retained, true) && retained <= w.published.Keys
    requires FilesExist(w, OnRecord(w, retained))
    ensures FilesOf(w.published, retained) <= after.files
  {
    assert OnRecord(w, retained) == retained;
    forall f | f in FilesOf(w.published, retained)
      ensures f in after.files
    {
      PublishedHome(w, retained, f);
      if f !in after.files {
        ManifestDeletions(w, after, retained, true, f);
      }
    }
  }

  lemma PublishKeepsPreserved(w: World, a: Attempt, outcome: PublishOutcome)
    requires Inv(w) && Intact(w) && Preserved(w) && CanPublish(w, a)
    ensures Preserved(AfterPublish(w, a, outcome))
  {
    var after := AfterPublish(w, a, outcome);
    if w.coordinator.pc.Reconciling? {
      PublishKeepsExisting(w, a, outcome, w.coordinator.pc.attempts);
    } else if w.coordinator.pc.Committing? {
      PublishKeepsExisting(w, a, outcome, w.coordinator.pc.attempts);
    } else {
      PublishKeepsExisting(w, a, outcome, w.published.Keys);
      assert FilesOf(after.published, OnRecord(after, after.published.Keys))
             <= FilesOf(w.published, OnRecord(w, w.published.Keys)) + w.memory[a];
    }
  }

  lemma PublishKeepsExisting(w: World, a: Attempt, outcome: PublishOutcome, attempts: set<Attempt>)
    requires Inv(w) && CanPublish(w, a) && attempts <= w.published.Keys
    ensures var after := AfterPublish(w, a, outcome);
            && OnRecord(after, attempts) == OnRecord(w, attempts)
            && forall s | s <= attempts :: FilesOf(after.published, s) == FilesOf(w.published, s)
  {
    forall s | s <= attempts
      ensures FilesOf(AfterPublish(w, a, outcome).published, s) == FilesOf(w.published, s)
    {
      FilesOfExtended(w.published, a, w.memory[a], s);
    }
  }

  /** A worker dropping its own files touches nothing that was published. */
  lemma DropKeepsPublished(w: World, op: Op, attempts: set<Attempt>)
    requires Inv(w) && Enabled(w, op) && (op.DropLocal? || op.FinishWriter? || op.DropMemory?)
    ensures Next(w, op).published == w.published && Next(w, op).coordinator == w.coordinator
    ensures Next(w, op).store.manifests == w.store.manifests && Next(w, op).store.committed == w.store.committed
    ensures FilesOf(w.published, attempts) * w.store.files <= Next(w, op).store.files
  {
    if op.DropMemory? {
      MemoryNotPublished(w, op.attempt, attempts);
    } else {
      LocalNotPublished(w, op.id, attempts);
    }
  }

  lemma DropKeepsPreserved(w: World, op: Op)
    requires Inv(w) && Preserved(w) && Enabled(w, op) && (op.DropLocal? || op.FinishWriter? || op.DropMemory?)
    ensures Preserved(Next(w, op))
  {
    var c := w.coordinator;
    DropKeepsPublished(w, op, w.selected);
    DropKeepsPublished(w, op, OnRecord(w, w.published.Keys));
    if c.pc.Reconciling? || c.pc.Committing? {
      DropKeepsPublished(w, op, OnRecord(w, c.pc.attempts));
      DropKeepsPublished(w, op, c.pc.attempts);
    }
  }

  lemma ReconcileKeepsPreserved(w: World, after: Store, ok: bool)
    requires Inv(w) && Preserved(w) && CanReconcile(w, after, ok)
    ensures Preserved(AfterReconcile(w, after, ok))
  {
    if ok {
      ReconciledExist(w, after, w.coordinator.pc.attempts);
    }
  }

  lemma CleanManifestsKeepsPreserved(w: World, after: Store, ok: bool)
    requires Inv(w) && Preserved(w) && CanCleanManifests(w, after, ok) && (ok || w.coordinator.finalizeStarted)
    ensures Preserved(AfterStore(w, after, Ready))
  {
    if ok {
      assert after.manifests == map[];
      assert OnRecord(AfterStore(w, after, Ready), w.published.Keys) == {};
    }
  }

  lemma FinalizeKeepsPreserved(w: World, attempts: set<Attempt>, decoded: set<Attempt>, ok: bool)
    requires Inv(w) && Preserved(w) && CanFinalize(w, attempts, decoded, ok)
    ensures Preserved(AfterFinalize(w, attempts, decoded, ok))
  {
    assert FilesOf(w.published, OnRecord(w, attempts)) <= FilesOf(w.published, OnRecord(w, w.published.Keys));
  }

  lemma StepKeepsPreserved(w: World, op: Op)
    requires Inv(w) && Intact(w) && Preserved(w) && Enabled(w, op) && AbortCleans(w, op)
    ensures Preserved(Next(w, op))
  {
    match op
    case FinishWriter(_, _) => DropKeepsPreserved(w, op);
    case DropLocal(_, _) => DropKeepsPreserved(w, op);
    case DropMemory(_, _) => DropKeepsPreserved(w, op);
    case Publish(a, outcome) => PublishKeepsPreserved(w, a, outcome);
    case CallFinalize(attempts, decoded, ok) => FinalizeKeepsPreserved(w, attempts, decoded, ok);
    case Reconcile(after, ok) => ReconcileKeepsPreserved(w, after, ok);
    case CleanManifests(after, ok) => CleanManifestsKeepsPreserved(w, after, ok);
    case _ =>
  }

  lemma {:induction false} RunPreserves(w: World, ops: seq<Op>)
    requires Inv(w) && Intact(w) && Preserved(w) && Legal(w, ops) && AbortsClean(w, ops)
    ensures Preserved(Run(w, ops))
    decreases |ops|
  {
    if ops != [] {
      StepKeepsInv(w, ops[0]);
      StepKeepsIntact(w, ops[0]);
      StepKeepsPreserved(w, ops[0]);
      RunPreserves(Next(w, ops[0]), ops[1..]);
    }
  }

  /** In every run whose Aborts clean the manifests, each committed artifact exists. */
  lemma CommittedFilesExist(w: World, ops: seq<Op>)
    requires Initial(w) && Legal(w, ops) && AbortsClean(w, ops)
    ensures Run(w, ops).store.committed <= Run(w, ops).store.files
  {
    InitialInv(w);
    RunPreserves(w, ops);
  }

  // From an idle state, exactly which coordinator calls can commit a file that is gone.

  predicate ByCoordinator(op: Op) {
    || op.Prepare? || op.CallFinalize? || op.Reconcile? || op.Commit? || op.Release?
    || op.CleanTransactions? || op.CleanManifests? || op.CallAbort?
  }

  predicate AllByCoordinator(ops: seq<Op>) {
    forall i | 0 <= i < |ops| :: ByCoordinator(ops[i])
  }

  predicate Between(w: World) {
    w.coordinator.pc.Ready? && !w.coordinator.finalizeStarted
  }

  predicate Recoverable(w: World, a: Attempt) {
    a in w.published && a in w.store.manifests && w.published[a] != {}
  }

  /** An attempt is published and on record with files, and the target is or can still be prepared. */
  ghost predicate Exposed(w: World) {
    (w.coordinator.prepareStarted ==> w.coordinator.prepared) && exists a :: Recoverable(w, a)
  }

  lemma NotLive(w: World, f: File)
    requires Inv(w) && w.commits == 0 && f in w.home
    ensures f !in w.store.live
  {
  }

  /** Abort deletes the attempt's files, and its manifest cleanup fails before it deletes anything. */
  lemma HalfDoneAbort(w: World, a: Attempt) returns (ops: seq<Op>)
    requires Inv(w) && Between(w) && Recoverable(w, a)
    ensures Legal(w, ops) && AllByCoordinator(ops)
    ensures Run(w, ops) == w.(store := w.store.(files := w.store.files - w.published[a]), aborted := true)
  {
    var after := w.store.(files := w.store.files - w.published[a]);
    assert Get(w.published, a) == w.published[a];
    assert FilesOf(w.published, {a}) == w.published[a];
    forall f | f in w.published[a]
      ensures f !in w.store.live
    {
      NotLive(w, f);
    }
    ops := [];
    Extend(w, ops, CallAbort({a}));
    ops := ops + [CallAbort({a})];
    Extend(w, ops, CleanTransactions(after));
    ops := ops + [CleanTransactions(after)];
    Extend(w, ops, CleanManifests(after, false));
    ops := ops + [CleanManifests(after, false)];
  }

  /** A reconciliation that retains only `a` and deletes everything else on record. */
  function Retained(s: Store, a: Attempt): Store
    requires a in s.manifests
  {
    s.(files := s.files - FilesOf(s.manifests, s.manifests.Keys - {a}), manifests := map[a := s.manifests[a]])
  }

  lemma RetainedReconciles(w: World, a: Attempt)
    requires Inv(w) && w.commits == 0 && a in w.store.manifests
    ensures CleansManifests(w.store, Retained(w.store, a), {a}, true)
  {
    var after := Retained(w.store, a);
    forall f | f in w.store.files && f !in after.files
      ensures f !in w.store.live && exists b :: b in w.store.manifests && b !in {a} && f in w.store.manifests[b]
    {
      var b :| b in w.store.manifests.Keys - {a} && f in Get(w.store.manifests, b);
      assert b in w.store.manifests && b !in {a} && f in w.store.manifests[b];
      NotLive(w, f);
    }
    forall b, f | b in w.store.manifests && b !in after.manifests && f in w.store.manifests[b]
      ensures f !in after.files
    {
      assert f in Get(w.store.manifests, b);
      assert f in FilesOf(w.store.manifests, w.store.manifests.Keys - {a});
    }
  }

  /** Prepare if need be, then call Finalize with the one attempt. */
  lemma ReachReconcile(start: World, before: seq<Op>, a: Attempt) returns (ops: seq<Op>)
    requires Legal(start, before) && AllByCoordinator(before)
    requires var w := Run(start, before);
             Inv(w) && Between(w) && a in w.published && (w.coordinator.prepareStarted ==> w.coordinator.prepared)
    ensures Legal(start, ops) && AllByCoordinator(ops)
    ensures Run(start, ops) == Run(start, before).(coordinator := Coordinator(true, true, true, Reconciling({a})))
  {
    var w := Run(start, before);
    ops := before;
    Extend(start, ops, Prepare(true));
    ops := ops + [Prepare(true)];
    assert Run(start, ops) == w.(coordinator := Coordinator(true, true, false, Ready));
    Extend(start, ops, CallFinalize({a}, {a}, true));
    ops := ops + [CallFinalize({a}, {a}, true)];
  }

  lemma ReachCommit(start: World, before: seq<Op>, a: Attempt) returns (ops: seq<Op>)
    requires Legal(start, before) && AllByCoordinator(before)
    requires var w := Run(start, before);
             && Inv(w) && Between(w) && Recoverable(w, a) && (w.coordinator.prepareStarted ==> w.coordinator.prepared)
    ensures Legal(start, ops) && AllByCoordinator(ops)
    ensures var w := Run(start, before);
            Run(start, ops) == w.(store := Retained(w.store, a),
              coordinator := Coordinator(true, true, true, Committing({a})))
  {
    var w := Run(start, before);
    ops := ReachReconcile(start, before, a);
    RetainedReconciles(w, a);
    Extend(start, ops, Reconcile(Retained(w.store, a), true));
    ops := ops + [Reconcile(Retained(w.store, a), true)];
  }

  lemma CommitRecorded(start: World, before: seq<Op>, a: Attempt) returns (ops: seq<Op>)
    requires Legal(start, before) && AllByCoordinator(before)
    requires var w := Run(start, before);
             && Inv(w) && Between(w) && Recoverable(w, a) && (w.coordinator.prepareStarted ==> w.coordinator.prepared)
    ensures Legal(start, ops) && AllByCoordinator(ops)
    ensures var w, end := Run(start, before), Run(start, ops);
            w.published[a] <= end.store.committed && end.store.files <= w.store.files
  {
    var w := Run(start, before);
    ops := ReachCommit(start, before, a);
    assert Get(w.published, a) == w.published[a];
    assert FilesOf(w.published, {a}) == w.published[a];
    Extend(start, ops, Commit(true, true, true));
    ops := ops + [Commit(true, true, true)];
  }

  /** Abort leaves no flag: when its manifest cleanup fails, a later Finalize commits an artifact it deleted. */
  lemma AbortThenFinalizeCommitsMissingFile(w: World) returns (ops: seq<Op>, f: File)
    requires Inv(w) && Between(w) && Exposed(w)
    ensures Legal(w, ops) && AllByCoordinator(ops)
    ensures f in Run(w, ops).store.committed && f !in Run(w, ops).store.files
  {
    var a :| Recoverable(w, a);
    f :| f in w.published[a];
    var before := HalfDoneAbort(w, a);
    RunKeepsInv(w, before);
    ops := CommitRecorded(w, before, a);
  }

  ghost predicate NothingOnRecord(published: map<Attempt, set<File>>, manifests: map<Attempt, set<File>>) {
    forall a | a in published && a in manifests :: published[a] == {}
  }

  /** Nothing that could be committed has files, or the target can no longer be prepared. */
  ghost predicate Harmless(w: World) {
    var c := w.coordinator;
    && w.store.committed == {}
    && ((c.prepareStarted && !c.prepared) || NothingOnRecord(w.published, w.store.manifests))
    && (c.pc.Committing? ==> FilesOf(w.published, c.pc.attempts) == {})
  }

  lemma NotExposedIsHarmless(w: World)
    requires Inv(w) && Between(w) && !Exposed(w)
    ensures Harmless(w)
  {
    if !(w.coordinator.prepareStarted && !w.coordinator.prepared) {
      forall a | a in w.published && a in w.store.manifests
        ensures w.published[a] == {}
      {
        assert !Recoverable(w, a);
      }
    }
  }

  lemma FewerOnRecord(published: map<Attempt, set<File>>, before: map<Attempt, set<File>>, after: map<Attempt,
      set<File>>)
    requires NothingOnRecord(published, before) && after.Keys <= before.Keys
    ensures NothingOnRecord(published, after)
  {
  }

  lemma ReconcileStaysHarmless(w: World, after: Store, ok: bool)
    requires Inv(w) && Harmless(w) && CanReconcile(w, after, ok)
    ensures Harmless(AfterReconcile(w, after, ok))
  {
    FewerOnRecord(w.published, w.store.manifests, after.manifests);
    if ok {
      forall a | a in w.coordinator.pc.attempts
        ensures Get(w.published, a) == {}
      {
        assert a in w.store.manifests && a in w.published;
      }
    }
  }

  lemma CleanManifestsStaysHarmless(w: World, after: Store, ok: bool)
    requires Inv(w) && Harmless(w) && CanCleanManifests(w, after, ok)
    ensures Harmless(AfterStore(w, after, Ready))
  {
    if NothingOnRecord(w.published, w.store.manifests) {
      FewerOnRecord(w.published, w.store.manifests, after.manifests);
    }
  }

  lemma StepStaysHarmless(w: World, op: Op)
    requires Inv(w) && Harmless(w) && Enabled(w, op) && ByCoordinator(op)
    ensures Harmless(Next(w, op))
  {
    match op
    case Reconcile(after, ok) => ReconcileStaysHarmless(w, after, ok);
    case CleanManifests(after, ok) => CleanManifestsStaysHarmless(w, after, ok);
    case _ =>
  }

  lemma {:induction false} RunStaysHarmless(w: World, ops: seq<Op>)
    requires Inv(w) && Harmless(w) && Legal(w, ops) && AllByCoordinator(ops)
    ensures Run(w, ops).store.committed == {}
    decreases |ops|
  {
    if ops != [] {
      assert ByCoordinator(ops[0]);
      StepKeepsInv(w, ops[0]);
      StepStaysHarmless(w, ops[0]);
      RunStaysHarmless(Next(w, ops[0]), ops[1..]);
    }
  }

  predicate CommitsMissing(w: World, ops: seq<Op>) {
    Legal(w, ops) && AllByCoordinator(ops) && !(Run(w, ops).store.committed <= Run(w, ops).store.files)
  }

  /** Before Finalize, the coordinator can still commit a file that is gone if and only if it is exposed. */
  lemma MissingCommitIff(w: World)
    requires Inv(w) && Between(w)
    ensures Exposed(w) <==> exists ops :: CommitsMissing(w, ops)
  {
    if Exposed(w) {
      var ops, f := AbortThenFinalizeCommitsMissingFile(w);
      assert CommitsMissing(w, ops);
    } else {
      NotExposedIsHarmless(w);
      forall ops | Legal(w, ops) && AllByCoordinator(ops)
        ensures Run(w, ops).store.committed == {}
      {
        RunStaysHarmless(w, ops);
      }
    }
  }

  // Nothing but committed artifacts remains after an orderly run.

  predicate Quiet(w: World) {
    w.locals == map[] && w.memory == map[]
  }

  predicate Ended(w: World) {
    w.aborted || w.coordinator.finalizeStarted
  }

  /** Every best-effort cleanup succeeds, the coordinator ends the write when the workers are quiet and no worker
      starts later, Finalize is called on a prepared target, and a started commit reports its success. */
  predicate Orderly(w: World, op: Op) {
    match op
    case DropLocal(_, cleaned) => cleaned
    case DropMemory(a, gone) => a in w.memory && w.memory[a] <= gone + w.store.live
    case Release(_, ok) => ok
    case CleanManifests(_, ok) => ok
    case OpenWriter(_, _) => !Ended(w)
    case CreateMutation(_, _, _) => !Ended(w)
    case CallFinalize(_, _, _) => Quiet(w) && w.coordinator.prepared
    case CallAbort(_) => Quiet(w)
    case Commit(started, ok, _) => started ==> ok
    case _ => true
  }

  predicate OrderlyRun(w: World, ops: seq<Op>)
    requires Legal(w, ops)
    decreases |ops|
  {
    ops == [] || (Orderly(w, ops[0]) && OrderlyRun(Next(w, ops[0]), ops[1..]))
  }

  ghost predicate Tidy(w: World) {
    && w.leaked == {}
    && (Ended(w) ==>
          && Quiet(w)
          && (w.coordinator.pc.Ready? ==> w.store.manifests == map[])
          && (w.coordinator.pc.Committing? || w.coordinator.pc.Releasing?
            ==> w.store.manifests.Keys <= w.coordinator.pc.attempts))
    && (!Ended(w) ==> w.coordinator.pc.Ready?)
  }

  lemma WorkerStaysTidy(w: World, op: Op)
    requires Inv(w) && Tidy(w) && Enabled(w, op) && Orderly(w, op)
    requires op.DropLocal? || op.DropMemory?
    ensures Tidy(Next(w, op))
  {
    if op.DropLocal? {
      assert forall f | f in w.locals[op.id].files :: f !in w.store.live by {
        LocalNotPublished(w, op.id, w.selected);
      }
    } else {
      assert forall f | f in w.memory[op.attempt] :: f !in w.store.live by {
        MemoryNotPublished(w, op.attempt, w.selected);
      }
    }
  }

  lemma StepStaysTidy(w: World, op: Op)
    requires Inv(w) && Tidy(w) && Enabled(w, op) && Orderly(w, op)
    ensures Tidy(Next(w, op))
  {
    match op
    case DropLocal(_, _) => WorkerStaysTidy(w, op);
    case DropMemory(_, _) => WorkerStaysTidy(w, op);
    case _ =>
  }

  lemma {:induction false} RunStaysTidy(w: World, ops: seq<Op>)
    requires Inv(w) && Tidy(w) && Legal(w, ops) && OrderlyRun(w, ops)
    ensures Inv(Run(w, ops)) && Tidy(Run(w, ops))
    decreases |ops|
  {
    if ops != [] {
      StepKeepsInv(w, ops[0]);
      StepStaysTidy(w, ops[0]);
      RunStaysTidy(Next(w, ops[0]), ops[1..]);
    }
  }

  /** An orderly run that the coordinator has ended leaves only committed artifacts. */
  lemma OnlyCommittedRemains(w: World, ops: seq<Op>)
    requires Initial(w) && Legal(w, ops) && OrderlyRun(w, ops)
    ensures var end := Run(w, ops);
            Ended(end) && end.coordinator.pc.Ready? ==> end.store.files * end.home.Keys <= end.store.committed
  {
    InitialInv(w);
    RunStaysTidy(w, ops);
  }

  // Finalize on a target that was not prepared.

  /** Finalization has started, committed nothing and will do nothing more. */
  predicate Stuck(w: World) {
    w.coordinator.finalizeStarted && w.coordinator.pc.Ready? && w.commits == 0
  }

  lemma StuckStep(w: World, op: Op)
    requires Inv(w) && Stuck(w) && Enabled(w, op)
    ensures var after := Next(w, op);
            && Stuck(after) && FilesOf(w.published, w.published.Keys) * w.store.files <= after.store.files
            && FilesOf(w.published, w.published.Keys) <= FilesOf(after.published, after.published.Keys)
  {
    if op.DropLocal? || op.FinishWriter? || op.DropMemory? {
      DropKeepsPublished(w, op, w.published.Keys);
    } else if op.Publish? {
      FilesOfExtended(w.published, op.attempt, w.memory[op.attempt], w.published.Keys);
    }
  }

  lemma {:induction false} StuckForever(w: World, ops: seq<Op>)
    requires Inv(w) && Stuck(w) && Legal(w, ops)
    ensures Stuck(Run(w, ops)) && Run(w, ops).store.committed == {}
    ensures FilesOf(w.published, w.published.Keys) * w.store.files <= Run(w, ops).store.files
    decreases |ops|
  {
    if ops != [] {
      StuckStep(w, ops[0]);
      StepKeepsInv(w, ops[0]);
      StuckForever(Next(w, ops[0]), ops[1..]);
    }
  }

  /** After Finalize on an unprepared target no run ever removes a published artifact or commits one. */
  lemma UnpreparedFinalizeStrands(w: World, call: Op, ops: seq<Op>)
    requires Inv(w) && Between(w) && !w.coordinator.prepared && call.CallFinalize? && Enabled(w, call)
    requires Legal(Next(w, call), ops)
    ensures var end := Run(Next(w, call), ops);
            end.store.committed == {} && FilesOf(w.published, w.published.Keys) * w.store.files <= end.store.files
  {
    StepKeepsInv(w, call);
    StuckForever(Next(w, call), ops);
  }

  lemma {:induction false} StuckAndQuiet(w: World, ops: seq<Op>)
    requires Inv(w) && Stuck(w) && Quiet(w) && Legal(w, ops) && OrderlyRun(w, ops)
    ensures Run(w, ops).store.files == w.store.files && Run(w, ops).home == w.home && Run(w, ops).store.committed == {}
    decreases |ops|
  {
    if ops != [] {
      StuckStep(w, ops[0]);
      StepKeepsInv(w, ops[0]);
      StuckAndQuiet(Next(w, ops[0]), ops[1..]);
    }
  }

  /** With quiet workers and an otherwise orderly end, Finalize leaves only committed artifacts if and only if
      the target was prepared or no artifact exists. */
  lemma FinalizeTidiesIff(w: World, call: Op, ops: seq<Op>)
    requires Inv(w) && Tidy(w) && Between(w) && Quiet(w) && call.CallFinalize? && Enabled(w, call)
    requires Legal(Next(w, call), ops) && OrderlyRun(Next(w, call), ops)
        && Run(Next(w, call), ops).coordinator.pc.Ready?
    ensures var end := Run(Next(w, call), ops);
            end.store.files * end.home.Keys <= end.store.committed
            <==> (w.coordinator.prepared || w.store.files * w.home.Keys == {})
  {
    var next := Next(w, call);
    StepKeepsInv(w, call);
    if w.coordinator.prepared {
      StepStaysTidy(w, call);
      RunStaysTidy(next, ops);
      EndedRun(next, ops);
    } else {
      StuckAndQuiet(next, ops);
    }
  }

  lemma {:induction false} EndedRun(w: World, ops: seq<Op>)
    requires Legal(w, ops) && Ended(w)
    ensures Ended(Run(w, ops))
    decreases |ops|
  {
    if ops != [] {
      EndedRun(Next(w, ops[0]), ops[1..]);
    }
  }

  // Runs that break the promise when a condition of the theorems above is dropped.

  const ONE: Attempt := "1"

  /** One attempt writes one file and publishes it. */
  lemma PublishOne(w: World) returns (ops: seq<Op>, f: File)
    requires Initial(w)
    ensures Legal(w, ops)
    ensures var end := Run(w, ops);
            && end.store.files == w.store.files + {f} && f !in w.store.live && f !in w.store.files
            && end.store == w.store.(files := end.store.files, manifests := map[ONE := {f}])
            && end.published == map[ONE := {f}] && f in end.home && Quiet(end)
            && end.coordinator == w.coordinator && !end.aborted && end.commits == 0 && end.leaked == {}
  {
    f := FreshFile(w.store.live + w.store.files);
    ops := [];
    Extend(w, ops, CreateMutation(0, ONE, {f}));
    ops := [CreateMutation(0, ONE, {f})];
    assert ops == [] + [CreateMutation(0, ONE, {f})];
    var created := Run(w, ops);
    assert created == AfterMutation(w, 0, ONE, {f});
    Extend(w, ops, Register(0));
    ops := ops + [Register(0)];
    var registered := Run(w, ops);
    assert created.locals[0].files == {f} && Get(created.memory, ONE) + {f} == {f};
    assert registered.memory == map[ONE := {f}] && registered.locals == map[];
    Extend(w, ops, Publish(ONE, Written));
    ops := ops + [Publish(ONE, Written)];
  }

  lemma FreshFile(files: set<File>) returns (f: File)
    ensures f !in files
  {
    var rest := files;
    f := "";
    while rest != {}
      invariant rest <= files && forall g | g in files && g !in rest :: |g| < |f|
      decreases |rest|
    {
      var g :| g in rest;
      f := if |g| < |f| then f else g + "+";
      rest := rest - {g};
    }
  }

  /** Up to the commit call of a write with one published file. */
  lemma CommitOne(w: World) returns (ops: seq<Op>, f: File)
    requires Initial(w)
    ensures Legal(w, ops)
    ensures var end := Run(w, ops);
            && end.coordinator == Coordinator(true, true, true, Committing({ONE})) && Quiet(end) && end.leaked == {}
            && end.published == map[ONE := {f}] && end.commits == 0 && f in end.home
            && f in end.store.files && f !in end.store.committed
  {
    ops, f := PublishOne(w);
    Extend(w, ops, Prepare(true));
    ops := ops + [Prepare(true)];
    Extend(w, ops, CallFinalize({ONE}, {ONE}, true));
    ops := ops + [CallFinalize({ONE}, {ONE}, true)];
    Extend(w, ops, Reconcile(Run(w, ops).store, true));
    ops := ops + [Reconcile(Run(w, ops).store, true)];
  }

  /** A commit that started and failed leaves its artifacts in place, whether or not it landed. */
  lemma UnknownCommitKeepsArtifacts(w: World) returns (ops: seq<Op>, f: File)
    requires Initial(w)
    ensures Legal(w, ops)
    ensures var end := Run(w, ops);
            && end.commits == 1 && end.coordinator.pc.Ready? && Quiet(end)
            && f in end.store.files && f in end.home && f !in end.store.committed
            && (forall op | Enabled(end, op) && (op.CallAbort? || op.CallFinalize?) :: Next(end, op) == end)
  {
    ops, f := CommitOne(w);
    Extend(w, ops, Commit(true, false, false));
    ops := ops + [Commit(true, false, false)];
  }

  /** From the start: publish one file, abort with a failing manifest cleanup, finalize. */
  lemma HalfDoneAbortRun(w: World) returns (published: seq<Op>, ops: seq<Op>, f: File)
    requires Initial(w)
    ensures Legal(w, published) && Legal(Run(w, published), ops)
    ensures var end := Run(Run(w, published), ops); f in end.store.committed && f !in end.store.files
  {
    published, f := PublishOne(w);
    InitialInv(w);
    RunKeepsInv(w, published);
    assert Recoverable(Run(w, published), ONE);
    ops, f := AbortThenFinalizeCommitsMissingFile(Run(w, published));
  }
}
