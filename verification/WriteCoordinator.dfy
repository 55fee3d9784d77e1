/** The coordinator's Prepare, Finalize and Abort as code; each storage call is a protocol step. */
module WriteCoordinator {
  import opened Bytes
  import opened WriteProtocol
  import C = CommitDecode
  import W = WorkerTask
  import VaneIdentity

  /** None of the files is left, except those of the current version. */
  predicate Gone(files: set<File>, store: Store) {
    files * store.files <= store.live
  }

  /** The attempts of `before` other than the retained ones have neither a manifest nor an artifact left. */
  predicate Swept(before: Store, after: Store, retained: set<Attempt>) {
    forall a | a in before.manifests && a !in retained :: a !in after.manifests && Gone(before.manifests[a], after)
  }

  /** The artifacts of all manifests. */
  function ListedFiles(manifests: map<Attempt, set<File>>): set<File> {
    set a, f | a in manifests && f in manifests[a] :: f
  }

  lemma OnlyListed(before: Store, after: Store, ok: bool)
    requires CleansManifests(before, after, {}, ok)
    ensures DeletesSome(before, before.(files := after.files), ListedFiles(before.manifests))
  {
  }

  /** What is gone stays gone while files only go and files only become live. */
  lemma StaysSwept(before: Store, mid: Store, after: Store, retained: set<Attempt>)
    requires Swept(before, mid, retained) && after.files <= mid.files && mid.live <= after.live
    requires after.manifests.Keys <= mid.manifests.Keys
    ensures Swept(before, after, retained)
  {
  }

  /** Deletes the files one by one, skipping live ones. A failed deletion ends it; a reliable storage has none. */
  method DeleteArtifacts(store: Store, artifacts: set<File>, reliable: bool) returns (after: Store, ok: bool)
    ensures DeletesSome(store, after, artifacts)
    ensures reliable ==> ok
    ensures ok ==> Gone(artifacts, after)
  {
    after := store;
    var todo := artifacts;
    while todo != {}
      invariant todo <= artifacts && DeletesSome(store, after, artifacts)
      invariant (artifacts - todo) * after.files <= store.live
      decreases |todo|
    {
      var f :| f in todo;
      todo := todo - {f};
      if f !in store.live {
        var failed: bool := *;
        if failed && !reliable {
          return after, false;
        }
        after := after.(files := after.files - {f});
      }
    }
    ok := true;
  }

  /** Reconciles the attempt manifests: a manifest is deleted only after its artifacts. */
  method CleanupManifests(store: Store, retained: set<Attempt>, reliable: bool) returns (after: Store, ok: bool)
    ensures CleansManifests(store, after, retained, ok)
    ensures ok ==> retained <= store.manifests.Keys && after.manifests.Keys == retained
    ensures reliable && retained <= store.manifests.Keys ==> ok
  {
    after := store;
    if !(retained <= store.manifests.Keys) {
      return store, false;
    }
    var todo := store.manifests.Keys - retained;
    while todo != {}
      invariant todo <= after.manifests.Keys - retained && after.manifests.Keys <= store.manifests.Keys
      invariant after.manifests.Keys - todo <= retained
      invariant CleansManifests(store, after, retained, false)
      decreases |todo|
    {
      var a :| a in todo;
      ghost var before := after;
      var deleted;
      after, deleted := DeleteArtifacts(after, store.manifests[a], reliable);
      ArtifactsGone(store, before, after, retained, a);
      var failed: bool := *;
      if !deleted || (failed && !reliable) {
        return after, false;
      }
      after := after.(manifests := after.manifests - {a});
      todo := todo - {a};
    }
    ok := true;
  }

  /** Deleting the artifacts of one manifest that is not retained is part of a cleanup. */
  lemma ArtifactsGone(store: Store, before: Store, after: Store, retained: set<Attempt>, a: Attempt)
    requires CleansManifests(store, before, retained, false) && a in before.manifests && a !in retained
    requires DeletesSome(before, after, store.manifests[a]) && retained <= store.manifests.Keys
    ensures CleansManifests(store, after, retained, false)
  {
    forall f | f in store.files && f !in after.files
      ensures f !in store.live && exists b :: b in store.manifests && b !in retained && f in store.manifests[b]
    {
      if f in before.files {
        assert f in before.files - after.files;
        assert f in store.manifests[a];
      }
    }
  }

  method ReleaseManifests(store: Store, released: set<Attempt>, reliable: bool) returns (after: Store, ok: bool)
    ensures ReleasesManifests(store, after, released, ok)
    ensures reliable && released != {} && store.manifests.Keys <= released ==> ok
  {
    after := store;
    if released == {} || !(store.manifests.Keys <= released) {
      return store, false;
    }
    var todo := store.manifests.Keys;
    while todo != {}
      invariant todo == after.manifests.Keys && ReleasesManifests(store, after, released, false)
      decreases |todo|
    {
      var a :| a in todo;
      var failed: bool := *;
      if failed && !reliable {
        return after, false;
      }
      after := after.(manifests := after.manifests - {a});
      todo := todo - {a};
    }
    ok := true;
  }

  function Committed(store: Store, files: set<File>): Store {
    store.(live := store.live + files, committed := store.committed + files)
  }

  /** The commit step in the coordinator's terms. */
  lemma CommitStep(w: World, started: bool, ok: bool, landed: bool)
    requires CanCommit(w, started, ok, landed)
    ensures var next, attempts := Next(w, Commit(started, ok, landed)), w.coordinator.pc.attempts;
            && next.store == (if started then Committed(w.store, if landed then FilesOf(w.published, attempts) else {})
              else w.store)
            && next.published == w.published && next.commits == w.commits + (if started then 1 else 0)
            && next.selected == (if started then attempts else w.selected)
            && next.coordinator == w.coordinator.(pc := if ok then Releasing(attempts) else if started then Ready
              else CleaningTransactions(attempts))
  {
    assert Next(w, Commit(started, ok, landed)) == AfterCommit(w, started, ok, landed);
  }

  // The artifacts of selected results.

  /** What the storage layer finds in a transaction. */
  type Artifacts = string -> set<File>

  function FilesIn(artifacts: Artifacts, transactions: seq<string>): set<File> {
    set t, f | t in transactions && f in artifacts(t) :: f
  }

  lemma DeletesBoth(store: Store, mid: Store, after: Store, first: set<File>, second: set<File>)
    requires DeletesSome(store, mid, first) && DeletesSome(mid, after, second)
    ensures DeletesSome(store, after, first + second)
  {
    forall f | f in store.files - after.files
      ensures f in first + second - store.live
    {
      if f !in mid.files {
        assert f in store.files - mid.files;
      } else {
        assert f in mid.files - after.files;
      }
    }
  }

  /** Best-effort cleanup of transactions, one after the other: a failure never keeps it from the next one. */
  method CleanupTransactions(store: Store, artifacts: Artifacts, transactions: seq<string>, reliable: bool)
    returns (after: Store)
    ensures DeletesSome(store, after, FilesIn(artifacts, transactions))
    ensures reliable ==> Gone(FilesIn(artifacts, transactions), after)
  {
    after := store;
    for i := 0 to |transactions|
      invariant DeletesSome(store, after, FilesIn(artifacts, transactions[..i]))
      invariant reliable ==> Gone(FilesIn(artifacts, transactions[..i]), after)
    {
      assert transactions[..i + 1] == transactions[..i] + [transactions[i]];
      FilesJoin(artifacts, transactions[..i], [transactions[i]]);
      assert FilesIn(artifacts, [transactions[i]]) == artifacts(transactions[i]);
      ghost var mid := after;
      var ok;
      after, ok := DeleteArtifacts(after, artifacts(transactions[i]), reliable);
      DeletesBoth(store, mid, after, FilesIn(artifacts, transactions[..i]), artifacts(transactions[i]));
    }
    assert transactions[..|transactions|] == transactions;
  }

  /** A result names an attempt whose worker Finalize returned and carries transactions of it, all of them if
      it is intact. */
  ghost predicate ComesFrom(r: C.TaskResult, published: map<Attempt, set<File>>, target: C.Target, decoder: C.Decoder,
      artifacts: Artifacts) {
    r.fragments != [] ==>
      && r.attempt in published && FilesIn(artifacts, C.Payloads(r)) <= published[r.attempt]
      && (C.WellFormed(target, r, decoder) ==> FilesIn(artifacts, C.Payloads(r)) == published[r.attempt])
  }

  /** The attempts among the first `n` results that carry transactions. */
  function Chosen(results: seq<C.TaskResult>, n: nat): set<Attempt>
    requires n <= |results|
  {
    C.Elements(C.Recorded(results, n))
  }

  lemma FilesJoin(artifacts: Artifacts, xs: seq<string>, ys: seq<string>)
    ensures FilesIn(artifacts, xs + ys) == FilesIn(artifacts, xs) + FilesIn(artifacts, ys)
  {
  }

  lemma ChosenStep(results: seq<C.TaskResult>, n: nat)
    requires 0 < n <= |results|
    ensures Chosen(results, n) == Chosen(results, n - 1) + if results[n - 1].fragments == [] then {}
        else {results[n - 1].attempt}
  {
  }

  lemma FilesOfJoin(m: map<Attempt, set<File>>, attempts: set<Attempt>, a: Attempt)
    ensures FilesOf(m, attempts + {a}) == FilesOf(m, attempts) + Get(m, a)
  {
  }

  /** The transactions of the results hold files of the chosen attempts, and all of them if every result is intact. */
  lemma {:induction false} ChosenFiles(results: seq<C.TaskResult>, n: nat, published: map<Attempt, set<File>>,
      target: C.Target, decoder: C.Decoder, artifacts: Artifacts)
    requires n <= |results| && forall i | 0 <= i < n :: ComesFrom(results[i], published, target, decoder, artifacts)
    ensures Chosen(results, n) <= published.Keys
    ensures FilesIn(artifacts, C.AllPayloads(results, n)) <= FilesOf(published, Chosen(results, n))
    ensures (forall i | 0 <= i < n :: C.WellFormed(target, results[i], decoder)) ==>
              FilesIn(artifacts, C.AllPayloads(results, n)) == FilesOf(published, Chosen(results, n))
  {
    if n != 0 {
      var r := results[n - 1];
      ChosenFiles(results, n - 1, published, target, decoder, artifacts);
      ChosenStep(results, n);
      FilesJoin(artifacts, C.AllPayloads(results, n - 1), C.Payloads(r));
      FilesOfJoin(published, Chosen(results, n - 1), r.attempt);
    }
  }

  lemma FilesOfPrefix(artifacts: Artifacts, xs: seq<string>, ys: seq<string>)
    requires xs <= ys
    ensures FilesIn(artifacts, xs) <= FilesIn(artifacts, ys)
  {
  }

  /** Rows come with transactions. */
  predicate RowsNeedTransactions(r: C.TaskResult) {
    if r.fragments == [] then r.rows == 0 else C.Payloads(r) != []
  }

  lemma IntactResult(target: C.Target, r: C.TaskResult, decoder: C.Decoder)
    requires C.WellFormed(target, r, decoder)
    ensures RowsNeedTransactions(r)
  {
  }

  lemma {:induction false} NothingRecorded(results: seq<C.TaskResult>, n: nat)
    requires n <= |results| && forall i | 0 <= i < n :: RowsNeedTransactions(results[i])
    ensures |C.AllPayloads(results, n)| == 0 <==> |C.Recorded(results, n)| == 0
    ensures |C.Recorded(results, n)| == 0 ==> C.TotalRows(results, n) == 0
  {
    if n != 0 {
      var r := results[n - 1];
      NothingRecorded(results, n - 1);
      assert RowsNeedTransactions(r);
      assert |C.AllPayloads(results, n)| == |C.AllPayloads(results, n - 1)| + |C.Payloads(r)|;
      assert |C.Recorded(results, n)| == |C.Recorded(results, n - 1)| + if r.fragments == [] then 0 else 1;
    }
  }

  lemma NoElements(xs: seq<string>)
    ensures C.Elements(xs) == {} <==> |xs| == 0
  {
    if xs != [] {
      assert xs[0] in C.Elements(xs);
    }
  }

  /** What decoding found in readable results: all files of the chosen attempts, and no rows without them. */
  lemma DecodedFiles(results: seq<C.TaskResult>, published: map<Attempt, set<File>>, target: C.Target,
      decoder: C.Decoder, artifacts: Artifacts, decoded: C.Decoded)
    requires C.Readable(target, results, |results|, decoder) && C.Yields(results, |results|, decoded)
    requires forall i | 0 <= i < |results| :: ComesFrom(results[i], published, target, decoder, artifacts)
    ensures C.Elements(decoded.attempts) == Chosen(results, |results|)
    ensures FilesIn(artifacts, decoded.transactions) == FilesOf(published, Chosen(results, |results|))
    ensures decoded.transactions == [] <==> Chosen(results, |results|) == {}
    ensures decoded.transactions == [] ==> decoded.rows == 0
  {
    forall i | 0 <= i < |results|
      ensures C.WellFormed(target, results[i], decoder) && RowsNeedTransactions(results[i])
    {
      assert C.Fine(target, results, i, decoder);
      IntactResult(target, results[i], decoder);
    }
    ChosenFiles(results, |results|, published, target, decoder, artifacts);
    NothingRecorded(results, |results|);
    NoElements(decoded.attempts);
  }

  // Steps of workers and other clients.

  predicate ByOthers(op: Op) {
    || op.OpenWriter? || op.WriteFiles? || op.FinishWriter? || op.CreateMutation? || op.Register? || op.DropLocal?
    || op.Publish? || op.DropMemory? || op.OtherClients?
  }

  predicate Extends(before: map<Attempt, set<File>>, after: map<Attempt, set<File>>) {
    forall a | a in before :: a in after && after[a] == before[a]
  }

  lemma OthersStep(w: World, op: Op)
    requires Inv(w) && Enabled(w, op) && ByOthers(op)
    ensures var after := Next(w, op);
            after.coordinator == w.coordinator && after.store.committed == w.store.committed
              && Extends(w.published, after.published)
  {
    if op.Publish? {
      PublishExtends(w, op.attempt, op.outcome);
    } else {
      assert Next(w, op).published == w.published;
    }
  }

  lemma PublishExtends(w: World, a: Attempt, outcome: PublishOutcome)
    requires Inv(w) && CanPublish(w, a)
    ensures Extends(w.published, AfterPublish(w, a, outcome).published)
  {
  }

  /** A run of the others, with what the storage layer shows after each step. */
  ghost predicate OthersRun(w: World, steps: seq<Op>, stores: seq<Store>)
    decreases |steps|
  {
    if steps == [] then stores == []
    else
      && stores != [] && ByOthers(steps[0]) && Enabled(w, steps[0]) && stores[0] == Next(w, steps[0]).store
      && OthersRun(Next(w, steps[0]), steps[1..], stores[1..])
  }

  /** What the commit call does: it fails before execution starts, after that (and may still have landed), or not. */
  datatype CommitOutcome = NotStarted | Failed(landed: bool) | Succeeded

  class Provider {
    /** Every deletion the coordinator asks for succeeds. */
    const reliable: bool
    const target: C.Target
    const decoder: C.Decoder
    const artifacts: Artifacts
    var prepareStarted: bool
    var prepared: bool
    var finalizeStarted: bool
    var store: Store
    /** The protocol state this coordinator works in, and the run that led there. */
    ghost const start: World
    ghost var ops: seq<Op>
    ghost var world: World

    ghost predicate Follows()
      reads this
    {
      && Initial(start) && Legal(start, ops) && Run(start, ops) == world
      && store == world.store
      && prepareStarted == world.coordinator.prepareStarted && prepared == world.coordinator.prepared
      && finalizeStarted == world.coordinator.finalizeStarted
    }

    ghost predicate Idle()
      reads this
    {
      Follows() && world.coordinator.pc.Ready?
    }

    constructor (target: C.Target, decoder: C.Decoder, artifacts: Artifacts, reliable: bool, initial: World)
      requires Initial(initial)
      ensures Idle() && ops == [] && world == initial
    {
      this.reliable := reliable;
      this.target, this.decoder, this.artifacts := target, decoder, artifacts;
      start, ops, world := initial, [], initial;
      prepareStarted, prepared, finalizeStarted, store := false, false, false, initial.store;
    }

    /** The results name attempts whose worker Finalize returned, with the artifacts it returned. */
    ghost predicate Selected(results: seq<C.TaskResult>)
      reads this
    {
      forall i | 0 <= i < |results| :: ComesFrom(results[i], world.published, target, decoder, artifacts)
    }

    ghost method Take(op: Op)
      requires Legal(start, ops) && Run(start, ops) == world && Enabled(world, op)
      modifies this`ops, this`world
      ensures ops == old(ops) + [op] && world == Next(old(world), op) && Legal(start, ops) && Run(start, ops) == world
    {
      Extend(start, ops, op);
      ops := ops + [op];
      world := Next(world, op);
    }

    /** Between coordinator calls the workers and other clients take steps of their own. Whatever they do, the
        coordinator's own state stays, and what was selected stays selected. */
    method Environment(ghost op: Op, after: Store, ghost results: seq<C.TaskResult>)
      requires Idle() && Enabled(world, op) && ByOthers(op) && after == Next(world, op).store && Selected(results)
      modifies this`store, this`ops, this`world
      ensures Idle() && old(ops) <= ops && Selected(results) && world == Next(old(world), op)
      ensures world.coordinator == old(world.coordinator) && store.committed == old(store.committed)
    {
      InitialInv(start);
      RunKeepsInv(start, ops);
      OthersStep(world, op);
      store := after;
      Take(op);
      assert forall i | 0 <= i < |results| :: ComesFrom(results[i], old(world.published), target, decoder, artifacts);
    }

    /** Any run of the others between two calls of the coordinator. */
    method Await(ghost steps: seq<Op>, stores: seq<Store>, ghost results: seq<C.TaskResult>)
      requires Idle() && OthersRun(world, steps, stores) && Selected(results)
      modifies this`store, this`ops, this`world
      ensures Idle() && old(ops) <= ops && Selected(results)
      ensures world.coordinator == old(world.coordinator) && store.committed == old(store.committed)
    {
      ghost var left := steps;
      for k := 0 to |stores|
        invariant Idle() && old(ops) <= ops && Selected(results) && OthersRun(world, left, stores[k..])
        invariant world.coordinator == old(world.coordinator) && store.committed == old(store.committed)
      {
        assert stores[k..][0] == stores[k] && stores[k..][1..] == stores[k + 1..];
        Environment(left[0], stores[k], results);
        left := left[1..];
      }
    }

    /** Prepare runs once, and succeeds if the target could be made or validated; a second call is refused and changes
        nothing. */
    method PrepareTarget(made: bool) returns (ok: bool)
      requires Idle()
      modifies this
      ensures Idle() && prepareStarted && old(ops) <= ops && store == old(store)
      ensures ok <==> !old(prepareStarted) && made
      ensures if old(prepareStarted) then world == old(world) else prepared == made
    {
      if prepareStarted {
        return false;
      }
      prepareStarted := true;
      ok := made;
      prepared := ok;
      Take(Prepare(ok));
    }

    /** The files of every readable prefix of the results are gone. */
    ghost predicate ResultsGone(results: seq<C.TaskResult>)
      reads this
    {
      forall n | 0 <= n <= |results| && C.Readable(target, results, n, decoder) ::
        Gone(FilesIn(artifacts, C.AllPayloads(results, n)), store)
    }

    lemma DecodedGone(results: seq<C.TaskResult>, transactions: seq<string>)
      requires C.HoldsReadable(target, results, decoder, transactions)
      requires Gone(FilesIn(artifacts, transactions), store)
      ensures ResultsGone(results)
    {
      forall n | 0 <= n <= |results| && C.Readable(target, results, n, decoder)
        ensures Gone(FilesIn(artifacts, C.AllPayloads(results, n)), store)
      {
        FilesOfPrefix(artifacts, C.AllPayloads(results, n), transactions);
      }
    }

    /** Best-effort cleanup of decoded transactions and then of every manifest. It deletes nothing else, and unless a
        deletion fails it leaves neither a manifest nor an artifact. */
    method CleanUp(ghost attempts: set<Attempt>, transactions: seq<string>)
      requires Follows() && world.coordinator.pc == CleaningTransactions(attempts)
      requires FilesIn(artifacts, transactions) <= FilesOf(world.published, attempts)
      modifies this`store, this`ops, this`world
      ensures Idle() && old(ops) <= ops && world.commits == old(world.commits) && world.aborted == old(world.aborted)
      ensures store.live == old(store.live) && store.committed == old(store.committed)
          && store.files <= old(store.files) && store.manifests.Keys <= old(store.manifests).Keys
      ensures old(store.files) - store.files
          <= FilesIn(artifacts, transactions) + ListedFiles(old(store.manifests)) - old(store.live)
      ensures reliable ==> Gone(FilesIn(artifacts, transactions), store)
      ensures reliable ==> store.manifests == map[] && Swept(old(store), store, {})
    {
      var after := CleanupTransactions(store, artifacts, transactions, reliable);
      store := after;
      Take(CleanTransactions(after));
      ghost var mid := after;
      var ok;
      after, ok := CleanupManifests(store, {}, reliable);
      OnlyListed(mid, after, ok);
      DeletesBoth(old(store), mid, mid.(files := after.files), FilesIn(artifacts, transactions),
                  ListedFiles(mid.manifests));
      store := after;
      Take(CleanManifests(after, ok));
    }

    /** The results can be committed: they are readable, with one attempt per logical task, and every attempt they
        select still has its manifest. */
    ghost predicate Committable(results: seq<C.TaskResult>)
      reads this
    {
      && C.Readable(target, results, |results|, decoder) && C.OneAttemptPerTask(results)
      && Chosen(results, |results|) <= store.manifests.Keys
    }

    /** Finalize of the selected results. It returns a count only when the write was committed, or there was nothing to
        commit: the rows of all selected results. If no deletion fails, it does so exactly then; whatever goes wrong
        before the commit starts leaves nothing behind, and a commit leaves nothing of the losing attempts. */
    method Finalize(results: seq<C.TaskResult>, sameSnapshot: bool, outcome: CommitOutcome)
        returns (count: Option<C.Count>)
      requires Idle() && Selected(results)
      modifies this
      ensures Idle() && old(ops) <= ops && finalizeStarted
      ensures old(finalizeStarted) || !old(prepared)
          ==> count.None? && world.commits == old(world.commits) && store == old(store)
      ensures count.Some? ==>
                && !old(finalizeStarted) && old(prepared) && sameSnapshot && old(Committable(results))
                && (Chosen(results, |results|) == {} || outcome.Succeeded?)
                && count.value == C.TotalRows(results, |results|)
                && world.commits == old(world.commits) + if Chosen(results, |results|) == {} then 0 else 1
      ensures count.Some? && Chosen(results, |results|) != {} ==>
                && world.selected == Chosen(results, |results|)
                && FilesIn(artifacts, C.AllPayloads(results, |results|)) <= store.committed
      ensures reliable && !old(finalizeStarted) && old(prepared) ==>
                if !sameSnapshot || !old(Committable(results))
                    || (outcome.NotStarted? && Chosen(results, |results|) != {}) then
                  && count.None? && world.commits == old(world.commits) && store.committed == old(store.committed)
                  && store.manifests == map[] && Swept(old(store), store, {}) && ResultsGone(results)
                else
                  && Swept(old(store), store, Chosen(results, |results|))
                  && (count.Some? <==> Chosen(results, |results|) == {} || outcome.Succeeded?)
                  && store.manifests.Keys == (if count.Some? then {} else Chosen(results, |results|))
    {
      if finalizeStarted || !prepared {
        Take(CallFinalize({}, {}, true));
        finalizeStarted := true;
        return None;
      }
      finalizeStarted := true;
      var ok, decoded := C.DecodeResults(target, results, decoder);
      ghost var chosen := Chosen(results, |results|);
      ChosenFiles(results, |results|, world.published, target, decoder, artifacts);
      FilesOfPrefix(artifacts, decoded.transactions, C.AllPayloads(results, |results|));
      Take(CallFinalize(chosen, chosen, ok && sameSnapshot));
      if !ok || !sameSnapshot {
        CleanUp(chosen, decoded.transactions);
        if reliable {
          DecodedGone(results, decoded.transactions);
        }
        return None;
      }
      DecodedFiles(results, world.published, target, decoder, artifacts, decoded);
      count := CommitDecoded(decoded, chosen, outcome);
      if Gone(FilesIn(artifacts, decoded.transactions), store) {
        DecodedGone(results, decoded.transactions);
      }
    }

    /** Reconciles the manifests of losing attempts, then commits what was decoded. */
    method CommitDecoded(decoded: C.Decoded, ghost chosen: set<Attempt>, outcome: CommitOutcome)
        returns (count: Option<C.Count>)
      requires Follows() && world.coordinator.pc == Reconciling(chosen)
      requires C.Elements(decoded.attempts) == chosen
          && FilesIn(artifacts, decoded.transactions) == FilesOf(world.published, chosen)
      requires (decoded.transactions == [] <==> chosen == {}) && (chosen == {} ==> decoded.rows == 0)
      modifies this`store, this`ops, this`world
      ensures Idle() && old(ops) <= ops
      ensures count.Some? ==>
                && chosen <= old(store.manifests).Keys && (chosen == {} || outcome.Succeeded?)
                && count.value == decoded.rows && world.commits == old(world.commits) + if chosen == {} then 0 else 1
      ensures count.Some? && chosen != {}
          ==> world.selected == chosen && FilesIn(artifacts, decoded.transactions) <= store.committed
      ensures reliable ==>
                if !(chosen <= old(store.manifests).Keys) || (outcome.NotStarted? && chosen != {}) then
                  && count.None? && world.commits == old(world.commits) && store.committed == old(store.committed)
                  && store.manifests == map[] && Swept(old(store), store, {})
                  && Gone(FilesIn(artifacts, decoded.transactions), store)
                else
                  && Swept(old(store), store, chosen)
                  && (count.Some? <==> chosen == {} || outcome.Succeeded?)
                  && store.manifests.Keys == (if count.Some? then {} else chosen)
    {
      var after, reconciled := CleanupManifests(store, C.Elements(decoded.attempts), reliable);
      store := after;
      assert Next(world, Reconcile(after, reconciled)) == AfterReconcile(world, after, reconciled);
      Take(Reconcile(after, reconciled));
      if !reconciled {
        CleanUp(chosen, decoded.transactions);
        return None;
      }
      if decoded.transactions == [] {
        return Some(0);
      }
      var ok := CommitTransactions(decoded, outcome);
      StaysSwept(old(store), after, store, chosen);
      return if ok then Some(decoded.rows) else None;
    }

    method CommitTransactions(decoded: C.Decoded, outcome: CommitOutcome) returns (ok: bool)
      requires Follows() && world.coordinator.pc == Committing(C.Elements(decoded.attempts))
      requires FilesIn(artifacts, decoded.transactions) == FilesOf(world.published, C.Elements(decoded.attempts))
      requires store.manifests.Keys == C.Elements(decoded.attempts) != {}
      modifies this`store, this`ops, this`world
      ensures Idle() && old(ops) <= ops && (ok <==> outcome.Succeeded?)
      ensures world.commits == old(world.commits) + if outcome.NotStarted? then 0 else 1
      ensures ok ==> world.selected == C.Elements(decoded.attempts)
      ensures ok ==> FilesIn(artifacts, decoded.transactions) <= store.committed
      ensures outcome.NotStarted? ==> store.committed == old(store.committed)
      ensures store.files <= old(store.files) && old(store.live) <= store.live
          && store.manifests.Keys <= old(store.manifests).Keys
      ensures reliable && ok ==> store.manifests == map[]
      ensures outcome.Failed? ==> store.manifests == old(store.manifests)
      ensures reliable && outcome.NotStarted? ==>
                && store.manifests == map[] && Swept(old(store), store, {})
                && Gone(FilesIn(artifacts, decoded.transactions), store)
    {
      var started;
      started, ok := ExecuteCommit(decoded, outcome);
      if ok {
        ReleaseSelected(C.Elements(decoded.attempts));
      } else if !started {
        CleanUp(C.Elements(decoded.attempts), decoded.transactions);
      }
    }

    /** The commit call: it reports whether execution started, and a failure after that may still have landed. */
    method ExecuteCommit(decoded: C.Decoded, outcome: CommitOutcome) returns (started: bool, ok: bool)
      requires Follows() && world.coordinator.pc == Committing(C.Elements(decoded.attempts))
      requires FilesIn(artifacts, decoded.transactions) == FilesOf(world.published, C.Elements(decoded.attempts))
      modifies this`store, this`ops, this`world
      ensures Follows() && old(ops) <= ops && world.published == old(world.published)
      ensures (started <==> !outcome.NotStarted?) && (ok <==> outcome.Succeeded?)
      ensures var attempts := C.Elements(decoded.attempts);
              world.coordinator.pc == if ok then Releasing(attempts) else if started then Ready
                else CleaningTransactions(attempts)
      ensures ok ==> world.selected == C.Elements(decoded.attempts)
      ensures world.commits == old(world.commits) + if started then 1 else 0
      ensures store.files == old(store.files) && store.manifests == old(store.manifests)
      ensures if ok || outcome == Failed(true) then
                && store.committed == old(store.committed) + FilesIn(artifacts, decoded.transactions)
                && store.live == old(store.live) + FilesIn(artifacts, decoded.transactions)
              else store.committed == old(store.committed) && store.live == old(store.live)
    {
      started, ok := !outcome.NotStarted?, outcome.Succeeded?;
      var landed := ok || outcome == Failed(true);
      if started {
        store := Committed(store, if landed then FilesIn(artifacts, decoded.transactions) else {});
      }
      CommitStep(world, started, ok, landed);
      Take(Commit(started, ok, landed));
    }

    method ReleaseSelected(attempts: set<Attempt>)
      requires Follows() && world.coordinator.pc == Releasing(attempts)
      modifies this`store, this`ops, this`world
      ensures Idle() && old(ops) <= ops
      ensures world.commits == old(world.commits) && world.selected == old(world.selected)
      ensures store == old(store).(manifests := store.manifests)
          && store.manifests.Keys <= old(store.manifests).Keys
      ensures reliable && attempts != {} && old(store.manifests).Keys <= attempts ==> store.manifests == map[]
    {
      var after, released := ReleaseManifests(store, attempts, reliable);
      store := after;
      assert Next(world, Release(after, released)) == AfterStore(world, after, Ready);
      Take(Release(after, released));
    }

    /** Abort cleans whatever could be decoded, and reports a decoding failure after that. It leaves no flag. */
    method Abort(results: seq<C.TaskResult>) returns (ok: bool)
      requires Idle() && Selected(results)
      modifies this
      ensures Idle() && old(ops) <= ops && world.commits == old(world.commits)
      ensures finalizeStarted == old(finalizeStarted) && store.committed == old(store.committed)
      ensures old(finalizeStarted) ==> !ok && world == old(world)
      ensures !old(finalizeStarted) ==>
                world.aborted && (ok <==>
                  C.Readable(target, results, |results|, decoder)
                  && C.OneAttemptPerTask(results))
      ensures reliable && !old(finalizeStarted) ==>
                store.manifests == map[] && Swept(old(store), store, {}) && ResultsGone(results)
    {
      if finalizeStarted {
        return false;
      }
      var decoded;
      ok, decoded := C.DecodeResults(target, results, decoder);
      ghost var chosen := Chosen(results, |results|);
      ChosenFiles(results, |results|, world.published, target, decoder, artifacts);
      FilesOfPrefix(artifacts, decoded.transactions, C.AllPayloads(results, |results|));
      Take(CallAbort(chosen));
      CleanUp(chosen, decoded.transactions);
      if reliable {
        DecodedGone(results, decoded.transactions);
      }
    }
  }

  // From the first chunk to the returned count.

  /** A selected attempt: its id, its number of threads and what happened to them. */
  datatype AttemptRun = AttemptRun(query: string, attempt: string, events: seq<W.Event>)

  function RowsOfRuns(runs: seq<AttemptRun>, n: nat): nat
    requires n <= |runs|
  {
    if n == 0 then 0 else RowsOfRuns(runs, n - 1) + W.RowsSunk(runs[n - 1].events, |runs[n - 1].events|)
  }

  /** The results are those that the workers of the runs returned. */
  ghost predicate Returned(target: C.Target, runs: seq<AttemptRun>, results: seq<C.TaskResult>) {
    && |results| == |runs|
    && forall i | 0 <= i < |runs| :: W.Conserves(target, runs[i].query, runs[i].attempt, runs[i].events, results[i])
  }

  lemma {:induction false} RowsConserved(target: C.Target, runs: seq<AttemptRun>, results: seq<C.TaskResult>, n: nat)
    requires Returned(target, runs, results) && n <= |runs|
    ensures C.TotalRows(results, n) == RowsOfRuns(runs, n)
  {
    if n != 0 {
      RowsConserved(target, runs, results, n - 1);
      var run := runs[n - 1];
      W.ConservedRows(target, run.query, run.attempt, run.events, results[n - 1]);
    }
  }

  /** The storage layer reads back, for an attempt, what it wrote for it. */
  ghost predicate ReadBack(decoder: C.Decoder, run: AttemptRun) {
    var ts := W.TransactionsOf(run.events, |run.events|);
    forall k | 0 <= k < |ts| ::
      decoder(ts[k].payload, run.query, run.attempt, ts[k].rows)
      == Some(C.Transaction(ts[k].bytes, ts[k].paths, ts[k].sizes))
  }

  function TasksOf(runs: seq<AttemptRun>): (r: seq<W.Task>)
    ensures |r| == |runs|
  {
    seq(|runs|, i requires 0 <= i < |runs| =>
      W.Task(runs[i].query, runs[i].attempt, W.TransactionsOf(runs[i].events, |runs[i].events|)))
  }

  lemma HonestRun(target: C.Target, decoder: C.Decoder, run: AttemptRun, result: C.TaskResult)
    requires W.Conserves(target, run.query, run.attempt, run.events, result) && ReadBack(decoder, run)
    requires VaneIdentity.LogicalTask(run.query, run.attempt).Some?
    ensures var ts := W.TransactionsOf(run.events, |run.events|);
            && W.HonestTask(W.Task(run.query, run.attempt, ts), decoder)
            && result == W.ResultOf(target, run.query, run.attempt, ts)
  {
  }

  lemma {:induction false} TasksHonest(target: C.Target, decoder: C.Decoder, runs: seq<AttemptRun>,
      results: seq<C.TaskResult>)
    requires Returned(target, runs, results)
    requires forall i | 0 <= i < |runs| ::
        ReadBack(decoder, runs[i]) && VaneIdentity.LogicalTask(runs[i].query, runs[i].attempt).Some?
    ensures forall i | 0 <= i < |runs| :: W.HonestTask(TasksOf(runs)[i], decoder)
    ensures W.Results(target, TasksOf(runs)) == results
  {
    var tasks := TasksOf(runs);
    forall i | 0 <= i < |runs|
      ensures W.HonestTask(tasks[i], decoder)
      ensures results[i] == W.ResultOf(target, tasks[i].query, tasks[i].attempt, tasks[i].transactions)
    {
      HonestRun(target, decoder, runs[i], results[i]);
    }
    assert W.Results(target, tasks) == results;
  }

  /** Whatever attempts of one query return, over any schedules of their threads, is decoded: as long as there is one
      attempt per logical task, storage reads back what it wrote, nothing is shared and the totals fit. */
  lemma {:induction false} RunsReadable(target: C.Target, decoder: C.Decoder, runs: seq<AttemptRun>,
      results: seq<C.TaskResult>)
    requires Returned(target, runs, results) && C.OneAttemptPerTask(results)
    requires forall i | 0 <= i < |runs| ::
        && ReadBack(decoder, runs[i]) && runs[i].query == runs[0].query
        && VaneIdentity.LogicalTask(runs[i].query, runs[i].attempt).Some?
    requires C.Distinct(C.AllPayloads(results, |results|)) && C.Distinct(C.AllPaths(results, |results|))
    requires C.TotalRows(results, |results|) <= C.MAX_COUNT && C.TotalBytes(results, |results|) <= C.MAX_COUNT
    ensures C.Readable(target, results, |results|, decoder)
  {
    TasksHonest(target, decoder, runs, results);
    W.HonestSelectionAccepted(target, TasksOf(runs), decoder);
  }

  /** The count that Finalize returns is the number of rows that arrived at the threads of the selected attempts,
      whatever the workers and other clients do before it. */
  method FinalizeRuns(provider: Provider, ghost steps: seq<Op>, stores: seq<Store>, results: seq<C.TaskResult>,
      ghost runs: seq<AttemptRun>, sameSnapshot: bool, outcome: CommitOutcome)
      returns (count: Option<C.Count>)
    requires provider.Idle() && provider.Selected(results) && Returned(provider.target, runs, results)
    requires OthersRun(provider.world, steps, stores)
    modifies provider
    ensures provider.Idle()
    ensures count.Some? ==> count.value == RowsOfRuns(runs, |runs|)
  {
    provider.Await(steps, stores, results);
    count := provider.Finalize(results, sameSnapshot, outcome);
    RowsConserved(provider.target, runs, results, |runs|);
  }
}
