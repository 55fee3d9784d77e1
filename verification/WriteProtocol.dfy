/** The distributed write protocol as a step system; every storage call is a step and may fail. */
module WriteProtocol {
  /** Artifacts are named by their path, attempts by their task-attempt id. */
  type File = string
  type Attempt = string

  /** The object store: data files, durable attempt manifests, the files of the dataset's current version
      and the files this write has committed to some version. */
  datatype Store = Store(files: set<File>, manifests: map<Attempt, set<File>>, live: set<File>, committed: set<File>)

  /** A worker thread's uncommitted files, held by its open writer or by its transaction guard. */
  datatype Local = Local(attempt: Attempt, files: set<File>, guarded: bool)

  /** Who created a file: a thread that still holds it, or the attempt it was registered with. */
  datatype Home = InLocal(id: nat) | OfAttempt(attempt: Attempt) | Lost

  /** Where the coordinator is inside Finalize or Abort. */
  datatype Pc =
    | Ready
    | Reconciling(attempts: set<Attempt>)
    | Committing(attempts: set<Attempt>)
    | Releasing(attempts: set<Attempt>)
    | CleaningTransactions(attempts: set<Attempt>)
    | CleaningManifests

  datatype Coordinator = Coordinator(prepareStarted: bool, prepared: bool, finalizeStarted: bool, pc: Pc)

  datatype World = World(
    store: Store,
    locals: map<nat, Local>,
    memory: map<Attempt, set<File>>, // transactions registered with an attempt and not yet published
    finalized: set<Attempt>, // attempts whose worker Finalize has been called
    published: map<Attempt, set<File>>, // attempts whose worker Finalize returned a result
    home: map<File, Home>, // every file this write created
    leaked: set<File>, // files whose best-effort cleanup failed
    coordinator: Coordinator,
    selected: set<Attempt>, // attempts handed to the commit
    commits: nat, // commits whose execution started
    aborted: bool)

  datatype PublishOutcome = Written | NotWritten | WrittenButFailed

  datatype Op =
    | OpenWriter(id: nat, attempt: Attempt)
    | WriteFiles(id: nat, added: set<File>)
    | FinishWriter(id: nat, ok: bool)
    | CreateMutation(id: nat, attempt: Attempt, added: set<File>)
    | Register(id: nat)
    | DropLocal(id: nat, cleaned: bool)
    | Publish(attempt: Attempt, outcome: PublishOutcome)
    | DropMemory(attempt: Attempt, gone: set<File>)
    | OtherClients(live: set<File>)
    | Prepare(ok: bool)
    | CallFinalize(attempts: set<Attempt>, decoded: set<Attempt>, ok: bool)
    | Reconcile(after: Store, ok: bool)
    | Commit(started: bool, ok: bool, landed: bool)
    | Release(after: Store, ok: bool)
    | CleanTransactions(after: Store)
    | CleanManifests(after: Store, ok: bool)
    | CallAbort(decoded: set<Attempt>)

  function Get(m: map<Attempt, set<File>>, a: Attempt): set<File> {
    if a in m then m[a] else {}
  }

  function FilesOf(m: map<Attempt, set<File>>, attempts: set<Attempt>): set<File> {
    set a, f | a in attempts && f in Get(m, a) :: f
  }

  /** Best-effort deletion of `files`: files of the current version are skipped, the rest may or may not go. */
  predicate DeletesSome(s: Store, after: Store, files: set<File>) {
    after == s.(files := after.files) && after.files <= s.files && s.files - after.files <= files - s.live
  }

  /** Deletes the artifacts and manifests of all attempts but the retained ones. It refuses when a retained
      attempt has no manifest; a manifest goes only after its artifacts; it may stop midway. */
  predicate CleansManifests(s: Store, after: Store, retained: set<Attempt>, ok: bool) {
    && after == s.(files := after.files, manifests := after.manifests)
    && (!(retained <= s.manifests.Keys) ==> !ok && after == s)
    && after.manifests.Keys <= s.manifests.Keys
    && (forall a | a in after.manifests :: after.manifests[a] == s.manifests[a])
    && (forall a | a in s.manifests && a in retained :: a in after.manifests)
    && after.files <= s.files
    && (forall f | f in s.files && f !in after.files :: f !in s.live && exists a ::
      a in s.manifests && a !in retained
      && f in s.manifests[a])
    && (forall a, f | a in s.manifests && a !in after.manifests && f in s.manifests[a]
      && f in after.files :: f in s.live)
    && (ok ==> after.manifests.Keys <= retained)
  }

  /** Removes the ownership records of the released attempts, never their files; it refuses when another
      attempt still has a record. */
  predicate ReleasesManifests(s: Store, after: Store, released: set<Attempt>, ok: bool) {
    && after == s.(manifests := after.manifests)
    && (!(s.manifests.Keys <= released) ==> !ok && after == s)
    && after.manifests.Keys <= s.manifests.Keys
    && (forall a | a in after.manifests :: after.manifests[a] == s.manifests[a])
    && (ok ==> after.manifests == map[])
  }

  function WithPc(w: World, pc: Pc): World {
    w.(coordinator := w.coordinator.(pc := pc))
  }

  function SetHome(home: map<File, Home>, files: set<File>, h: Home): map<File, Home> {
    map f | f in home.Keys + files :: if f in files then h else home[f]
  }

  predicate Fresh(w: World, files: set<File>) {
    files !! w.home.Keys && files !! w.store.live && files !! w.store.files
  }

  // Worker steps.

  function AfterOpen(w: World, id: nat, a: Attempt): World {
    w.(locals := w.locals[id := Local(a, {}, false)])
  }

  predicate CanWrite(w: World, id: nat, added: set<File>) {
    id in w.locals && !w.locals[id].guarded && w.locals[id].attempt !in w.finalized && Fresh(w, added)
  }

  /** A writer flushes new data files. */
  function AfterWrite(w: World, id: nat, added: set<File>): World
    requires CanWrite(w, id, added)
  {
    w.(locals := w.locals[id := w.locals[id].(files := w.locals[id].files + added)],
       store := w.store.(files := w.store.files + added), home := SetHome(w.home, added, InLocal(id)))
  }

  /** Finishing a writer puts its files under a guard; a writer that fails to finish deletes them. */
  function AfterFinish(w: World, id: nat, ok: bool): World
    requires id in w.locals
  {
    if ok then w.(locals := w.locals[id := w.locals[id].(guarded := true)])
    else w.(locals := w.locals - {id}, store := w.store.(files := w.store.files - w.locals[id].files),
            home := SetHome(w.home, w.locals[id].files, Lost))
  }

  /** A mutation transaction is born under its guard. */
  function AfterMutation(w: World, id: nat, a: Attempt, added: set<File>): World {
    w.(locals := w.locals[id := Local(a, added, true)],
       store := w.store.(files := w.store.files + added), home := SetHome(w.home, added, InLocal(id)))
  }

  predicate CanRegister(w: World, id: nat) {
    id in w.locals && w.locals[id].guarded && w.locals[id].attempt !in w.finalized
  }

  /** The guarded files pass to the attempt's memory. */
  function AfterRegister(w: World, id: nat): World
    requires CanRegister(w, id)
  {
    var l := w.locals[id];
    w.(locals := w.locals - {id}, memory := w.memory[l.attempt := Get(w.memory, l.attempt) + l.files],
       home := SetHome(w.home, l.files, OfAttempt(l.attempt)))
  }

  /** A thread dies with its writer or guard: what best-effort cleanup does not delete is leaked. */
  function AfterDropLocal(w: World, id: nat, cleaned: bool): World
    requires id in w.locals
  {
    var files := w.locals[id].files;
    var gone := if cleaned then files - w.store.live else {};
    w.(locals := w.locals - {id}, store := w.store.(files := w.store.files - gone),
       leaked := w.leaked + (files - gone), home := SetHome(w.home, files, Lost))
  }

  predicate CanPublish(w: World, a: Attempt) {
    a !in w.finalized && a in w.memory && a !in w.store.manifests
  }

  /** Worker Finalize writes the attempt manifest; the call may fail with the manifest written. */
  function AfterPublish(w: World, a: Attempt, outcome: PublishOutcome): World
    requires CanPublish(w, a)
  {
    var done := w.finalized + {a};
    var store := w.store.(manifests := w.store.manifests[a := w.memory[a]]);
    match outcome
    case NotWritten => w.(finalized := done)
    case WrittenButFailed => w.(finalized := done, store := store)
    case Written => w.(finalized := done, store := store, published := w.published[a := w.memory[a]],
      memory := w.memory - {a})
  }

  predicate CanDropMemory(w: World, a: Attempt, gone: set<File>) {
    a in w.memory && gone <= w.memory[a] && gone !! w.store.live
  }

  /** A worker dies holding unpublished transactions; `gone` is what best-effort cleanup deletes. */
  function AfterDropMemory(w: World, a: Attempt, gone: set<File>): World
    requires CanDropMemory(w, a, gone)
  {
    w.(memory := w.memory - {a}, finalized := w.finalized + {a}, store := w.store.(files := w.store.files - gone),
       leaked := w.leaked + (w.memory[a] - gone - Get(w.store.manifests, a)))
  }

  // Coordinator steps.

  function AfterPrepare(w: World, ok: bool): World {
    if w.coordinator.prepareStarted then w
    else w.(coordinator := w.coordinator.(prepareStarted := true, prepared := ok))
  }

  predicate CanFinalize(w: World, attempts: set<Attempt>, decoded: set<Attempt>, ok: bool) {
    w.coordinator.pc.Ready? && attempts <= w.published.Keys && decoded <= attempts && (ok ==> decoded == attempts)
  }

  /** Finalize runs once, and only on a prepared target; `decoded` are the attempts decoded before a failure. */
  function AfterFinalize(w: World, attempts: set<Attempt>, decoded: set<Attempt>, ok: bool): World {
    if w.coordinator.finalizeStarted then w
    else
      var started := w.coordinator.(finalizeStarted := true);
      if !w.coordinator.prepared then w.(coordinator := started)
      else w.(coordinator := started.(pc := if ok then Reconciling(attempts) else CleaningTransactions(decoded)))
  }

  predicate CanReconcile(w: World, after: Store, ok: bool) {
    w.coordinator.pc.Reconciling? && CleansManifests(w.store, after, w.coordinator.pc.attempts, ok)
  }

  /** Deletes what the losing attempts published and retains the selected records. */
  function AfterReconcile(w: World, after: Store, ok: bool): World
    requires w.coordinator.pc.Reconciling?
  {
    var attempts := w.coordinator.pc.attempts;
    WithPc(w.(store := after),
           if !ok then CleaningTransactions(attempts) else if attempts == {} then Ready else Committing(attempts))
  }

  predicate CanCommit(w: World, started: bool, ok: bool, landed: bool) {
    w.coordinator.pc.Committing? && (ok ==> landed) && (landed ==> started)
  }

  /** A commit that reports failure after it started may or may not have landed. */
  function AfterCommit(w: World, started: bool, ok: bool, landed: bool): World
    requires w.coordinator.pc.Committing?
  {
    var attempts := w.coordinator.pc.attempts;
    var files := if landed then FilesOf(w.published, attempts) else {};
    if !started then WithPc(w, CleaningTransactions(attempts))
    else WithPc(w.(store := w.store.(live := w.store.live + files, committed := w.store.committed + files),
                   selected := attempts, commits := w.commits + 1),
                if ok then Releasing(attempts) else Ready)
  }

  predicate CanRelease(w: World, after: Store, ok: bool) {
    w.coordinator.pc.Releasing? && ReleasesManifests(w.store, after, w.coordinator.pc.attempts, ok)
  }

  predicate CanCleanTransactions(w: World, after: Store) {
    w.coordinator.pc.CleaningTransactions?
      && DeletesSome(w.store, after, FilesOf(w.published, w.coordinator.pc.attempts))
  }

  predicate CanCleanManifests(w: World, after: Store, ok: bool) {
    w.coordinator.pc.CleaningManifests? && CleansManifests(w.store, after, {}, ok)
  }

  function AfterStore(w: World, after: Store, pc: Pc): World {
    WithPc(w.(store := after), pc)
  }

  /** Abort leaves no flag behind; it is refused once Finalize has started. */
  function AfterAbort(w: World, decoded: set<Attempt>): World {
    if w.coordinator.finalizeStarted then w
    else WithPc(w.(aborted := true), CleaningTransactions(decoded))
  }

  predicate Enabled(w: World, op: Op) {
    match op
    case OpenWriter(id, a) => id !in w.locals && a !in w.finalized
    case WriteFiles(id, added) => CanWrite(w, id, added)
    case FinishWriter(id, _) => id in w.locals && !w.locals[id].guarded
    case CreateMutation(id, a, added) => id !in w.locals && a !in w.finalized && Fresh(w, added)
    case Register(id) => CanRegister(w, id)
    case DropLocal(id, _) => id in w.locals
    case Publish(a, _) => CanPublish(w, a)
    case DropMemory(a, gone) => CanDropMemory(w, a, gone)
    case OtherClients(live) => forall f | f in live && f in w.home :: f in w.store.committed
    case Prepare(_) => w.coordinator.pc.Ready?
    case CallFinalize(attempts, decoded, ok) => CanFinalize(w, attempts, decoded, ok)
    case Reconcile(after, ok) => CanReconcile(w, after, ok)
    case Commit(started, ok, landed) => CanCommit(w, started, ok, landed)
    case Release(after, ok) => CanRelease(w, after, ok)
    case CleanTransactions(after) => CanCleanTransactions(w, after)
    case CleanManifests(after, ok) => CanCleanManifests(w, after, ok)
    case CallAbort(decoded) => w.coordinator.pc.Ready? && decoded <= w.published.Keys
  }

  function Next(w: World, op: Op): World
    requires Enabled(w, op)
  {
    match op
    case OpenWriter(id, a) => AfterOpen(w, id, a)
    case WriteFiles(id, added) => AfterWrite(w, id, added)
    case FinishWriter(id, ok) => AfterFinish(w, id, ok)
    case CreateMutation(id, a, added) => AfterMutation(w, id, a, added)
    case Register(id) => AfterRegister(w, id)
    case DropLocal(id, cleaned) => AfterDropLocal(w, id, cleaned)
    case Publish(a, outcome) => AfterPublish(w, a, outcome)
    case DropMemory(a, gone) => AfterDropMemory(w, a, gone)
    case OtherClients(live) => w.(store := w.store.(live := live))
    case Prepare(ok) => AfterPrepare(w, ok)
    case CallFinalize(attempts, decoded, ok) => AfterFinalize(w, attempts, decoded, ok)
    case Reconcile(after, ok) => AfterReconcile(w, after, ok)
    case Commit(started, ok, landed) => AfterCommit(w, started, ok, landed)
    case Release(after, _) => AfterStore(w, after, Ready)
    case CleanTransactions(after) => AfterStore(w, after, CleaningManifests)
    case CleanManifests(after, _) => AfterStore(w, after, Ready)
    case CallAbort(decoded) => AfterAbort(w, decoded)
  }

  predicate Initial(w: World) {
    && w.store.manifests == map[] && w.store.committed == {} && w.locals == map[] && w.memory == map[]
    && w.finalized == {} && w.published == map[] && w.home == map[] && w.leaked == {}
    && w.coordinator == Coordinator(false, false, false, Ready) && w.selected == {} && w.commits == 0 && !w.aborted
  }

  predicate Legal(w: World, ops: seq<Op>)
    decreases |ops|
  {
    ops == [] || (Enabled(w, ops[0]) && Legal(Next(w, ops[0]), ops[1..]))
  }

  function Run(w: World, ops: seq<Op>): World
    requires Legal(w, ops)
    decreases |ops|
  {
    if ops == [] then w else Run(Next(w, ops[0]), ops[1..])
  }

  lemma {:induction false} Extend(w: World, ops: seq<Op>, op: Op)
    requires Legal(w, ops) && Enabled(Run(w, ops), op)
    ensures Legal(w, ops + [op]) && Run(w, ops + [op]) == Next(Run(w, ops), op)
    decreases |ops|
  {
    if ops == [] {
      assert [op][1..] == [] && ops + [op] == [op];
    } else {
      assert (ops + [op])[1..] == ops[1..] + [op];
      Extend(Next(w, ops[0]), ops[1..], op);
    }
  }

  // Ownership.

  ghost predicate LocalsHome(locals: map<nat, Local>, home: map<File, Home>) {
    forall id, f | id in locals && f in locals[id].files :: f in home && home[f] == InLocal(id)
  }

  ghost predicate AtHome(m: map<Attempt, set<File>>, home: map<File, Home>) {
    forall a, f | a in m && f in m[a] :: f in home && home[f] == OfAttempt(a)
  }

  /** Every holder's files were created by this write and are at home with that holder, so no file has two holders
      in different places. */
  ghost predicate Homes(w: World) {
    && LocalsHome(w.locals, w.home)
    && AtHome(w.memory, w.home) && AtHome(w.store.manifests, w.home) && AtHome(w.published, w.home)
  }

  /** A published attempt has given up its memory, and its record, while it exists, is what it published. */
  ghost predicate Recorded(finalized: set<Attempt>, published: map<Attempt, set<File>>, memory: map<Attempt, set<File>>,
                           manifests: map<Attempt, set<File>>)
  {
    && published.Keys <= finalized && manifests.Keys <= finalized
    && (forall a | a in published :: a !in memory)
    && (forall a | a in published && a in manifests :: manifests[a] == published[a])
    && (forall a | a in memory && a in manifests :: memory[a] == manifests[a])
  }

  /** The file is held by the place it is at home in. */
  predicate Owned(locals: map<nat, Local>, memory: map<Attempt, set<File>>, manifests: map<Attempt, set<File>>,
      home: Home, f: File) {
    match home
    case InLocal(id) => id in locals && f in locals[id].files
    case OfAttempt(a) => f in Get(memory, a) || f in Get(manifests, a)
    case Lost => false
  }

  /** Every existing file of this write is committed, owned, or was leaked by a failed cleanup. */
  ghost predicate Accounted(store: Store, locals: map<nat, Local>, memory: map<Attempt, set<File>>, home: map<File,
      Home>,
                            leaked: set<File>)
  {
    && (forall f | f in store.files && f in home ::
      f in store.committed
      || Owned(locals, memory, store.manifests, home[f], f) || f in leaked)
    && (forall f | f in store.live && f in home :: f in store.committed)
  }

  // Coordination.

  /** At most one commit, after a successful Prepare and inside the only Finalize. */
  ghost predicate Coordinated(c: Coordinator, published: map<Attempt, set<File>>, selected: set<Attempt>, commits: nat,
      committed: set<File>) {
    && commits <= 1
    && (commits == 0 ==> committed == {} && selected == {})
    && (commits == 1 ==> c.finalizeStarted && c.prepared && (c.pc.Ready? || c.pc == Releasing(selected)))
    && (c.pc.Reconciling? || c.pc.Committing? || c.pc.Releasing? ==> c.finalizeStarted && c.prepared)
    && (c.pc.Releasing? ==> commits == 1 && FilesOf(published, selected) <= committed)
    && (c.pc.Reconciling? || c.pc.Committing? || c.pc.CleaningTransactions? ==> c.pc.attempts <= published.Keys)
    && selected <= published.Keys && committed <= FilesOf(published, selected)
    && (c.prepared ==> c.prepareStarted)
  }

  ghost predicate Inv(w: World) {
    && Homes(w) && Recorded(w.finalized, w.published, w.memory, w.store.manifests)
    && Accounted(w.store, w.locals, w.memory, w.home, w.leaked)
    && Coordinated(w.coordinator, w.published, w.selected, w.commits, w.store.committed)
  }

  lemma LocalsStayHome(locals: map<nat, Local>, home: map<File, Home>, files: set<File>, h: Home)
    requires LocalsHome(locals, home)
    requires forall id | id in locals :: locals[id].files !! files
    ensures LocalsHome(locals, SetHome(home, files, h))
  {
  }

  lemma StayHome(m: map<Attempt, set<File>>, home: map<File, Home>, files: set<File>, h: Home)
    requires AtHome(m, home) && forall f | f in files && f in home :: !home[f].OfAttempt?
    ensures AtHome(m, SetHome(home, files, h))
  {
  }

  /** Files that no attempt holds change home without disturbing the attempts. */
  lemma AttemptsStayHome(w: World, files: set<File>, h: Home)
    requires Homes(w) && forall f | f in files && f in w.home :: !w.home[f].OfAttempt?
    ensures var home := SetHome(w.home, files, h);
            AtHome(w.memory, home) && AtHome(w.store.manifests, home) && AtHome(w.published, home)
  {
    StayHome(w.memory, w.home, files, h);
    StayHome(w.store.manifests, w.home, files, h);
    StayHome(w.published, w.home, files, h);
  }

  lemma FilesOfExtended(m: map<Attempt, set<File>>, a: Attempt, files: set<File>, attempts: set<Attempt>)
    requires a !in attempts
    ensures FilesOf(m[a := files], attempts) == FilesOf(m, attempts)
  {
    assert forall b | b in attempts :: Get(m[a := files], b) == Get(m, b);
  }

  lemma OpenKeeps(w: World, id: nat, a: Attempt)
    requires Inv(w) && id !in w.locals && a !in w.finalized
    ensures Inv(AfterOpen(w, id, a))
  {
  }

  lemma WriteKeeps(w: World, id: nat, added: set<File>)
    requires Inv(w) && CanWrite(w, id, added)
    ensures Inv(AfterWrite(w, id, added))
  {
    AttemptsStayHome(w, added, InLocal(id));
    LocalsStayHome(w.locals, w.home, added, InLocal(id));
  }

  lemma FinishKeeps(w: World, id: nat, ok: bool)
    requires Inv(w) && id in w.locals && !w.locals[id].guarded
    ensures Inv(AfterFinish(w, id, ok))
  {
    if !ok {
      AttemptsStayHome(w, w.locals[id].files, Lost);
      LocalsStayHome(w.locals - {id}, w.home, w.locals[id].files, Lost);
    }
  }

  lemma MutationKeeps(w: World, id: nat, a: Attempt, added: set<File>)
    requires Inv(w) && id !in w.locals && a !in w.finalized && Fresh(w, added)
    ensures Inv(AfterMutation(w, id, a, added))
  {
    AttemptsStayHome(w, added, InLocal(id));
    LocalsStayHome(w.locals, w.home, added, InLocal(id));
  }

  lemma RegisterKeeps(w: World, id: nat)
    requires Inv(w) && CanRegister(w, id)
    ensures Inv(AfterRegister(w, id))
  {
    var l := w.locals[id];
    AttemptsStayHome(w, l.files, OfAttempt(l.attempt));
    LocalsStayHome(w.locals - {id}, w.home, l.files, OfAttempt(l.attempt));
  }

  lemma DropLocalKeeps(w: World, id: nat, cleaned: bool)
    requires Inv(w) && id in w.locals
    ensures Inv(AfterDropLocal(w, id, cleaned))
  {
    AttemptsStayHome(w, w.locals[id].files, Lost);
    LocalsStayHome(w.locals - {id}, w.home, w.locals[id].files, Lost);
  }

  lemma PublishKeeps(w: World, a: Attempt, outcome: PublishOutcome)
    requires Inv(w) && CanPublish(w, a)
    ensures Inv(AfterPublish(w, a, outcome))
  {
    FilesOfExtended(w.published, a, w.memory[a], w.selected);
  }

  lemma DropMemoryKeeps(w: World, a: Attempt, gone: set<File>)
    requires Inv(w) && CanDropMemory(w, a, gone)
    ensures Inv(AfterDropMemory(w, a, gone))
  {
  }

  lemma OtherClientsKeeps(w: World, live: set<File>)
    requires Inv(w) && forall f | f in live && f in w.home :: f in w.store.committed
    ensures Inv(w.(store := w.store.(live := live)))
  {
  }

  lemma PrepareKeeps(w: World, ok: bool)
    requires Inv(w) && w.coordinator.pc.Ready?
    ensures Inv(AfterPrepare(w, ok))
  {
  }

  lemma FinalizeKeeps(w: World, attempts: set<Attempt>, decoded: set<Attempt>, ok: bool)
    requires Inv(w) && CanFinalize(w, attempts, decoded, ok)
    ensures Inv(AfterFinalize(w, attempts, decoded, ok))
  {
  }

  lemma ReconcileKeeps(w: World, after: Store, ok: bool)
    requires Inv(w) && CanReconcile(w, after, ok)
    ensures Inv(AfterReconcile(w, after, ok))
  {
  }

  lemma CommitKeeps(w: World, started: bool, ok: bool, landed: bool)
    requires Inv(w) && CanCommit(w, started, ok, landed)
    ensures Inv(AfterCommit(w, started, ok, landed))
  {
  }

  lemma ReleaseKeeps(w: World, after: Store, ok: bool)
    requires Inv(w) && CanRelease(w, after, ok)
    ensures Inv(AfterStore(w, after, Ready))
  {
    forall a, f | a in w.store.manifests && a !in after.manifests && f in w.store.manifests[a]
      ensures f in w.store.committed
    {
      assert f in Get(w.published, a);
      assert f in FilesOf(w.published, w.selected);
    }
  }

  lemma CleanTransactionsKeeps(w: World, after: Store)
    requires Inv(w) && CanCleanTransactions(w, after)
    ensures Inv(AfterStore(w, after, CleaningManifests))
  {
  }

  lemma CleanManifestsKeeps(w: World, after: Store, ok: bool)
    requires Inv(w) && CanCleanManifests(w, after, ok)
    ensures Inv(AfterStore(w, after, Ready))
  {
  }

  lemma AbortKeeps(w: World, decoded: set<Attempt>)
    requires Inv(w) && w.coordinator.pc.Ready? && decoded <= w.published.Keys
    ensures Inv(AfterAbort(w, decoded))
  {
  }

  lemma StepKeepsInv(w: World, op: Op)
    requires Inv(w) && Enabled(w, op)
    ensures Inv(Next(w, op))
  {
    match op
    case OpenWriter(id, a) => OpenKeeps(w, id, a);
    case WriteFiles(id, added) => WriteKeeps(w, id, added);
    case FinishWriter(id, ok) => FinishKeeps(w, id, ok);
    case CreateMutation(id, a, added) => MutationKeeps(w, id, a, added);
    case Register(id) => RegisterKeeps(w, id);
    case DropLocal(id, cleaned) => DropLocalKeeps(w, id, cleaned);
    case Publish(a, outcome) => PublishKeeps(w, a, outcome);
    case DropMemory(a, gone) => DropMemoryKeeps(w, a, gone);
    case OtherClients(live) => OtherClientsKeeps(w, live);
    case Prepare(ok) => PrepareKeeps(w, ok);
    case CallFinalize(attempts, decoded, ok) => FinalizeKeeps(w, attempts, decoded, ok);
    case Reconcile(after, ok) => ReconcileKeeps(w, after, ok);
    case Commit(started, ok, landed) => CommitKeeps(w, started, ok, landed);
    case Release(after, ok) => ReleaseKeeps(w, after, ok);
    case CleanTransactions(after) => CleanTransactionsKeeps(w, after);
    case CleanManifests(after, ok) => CleanManifestsKeeps(w, after, ok);
    case CallAbort(decoded) => AbortKeeps(w, decoded);
  }

  lemma InitialInv(w: World)
    requires Initial(w)
    ensures Inv(w)
  {
  }

  lemma {:induction false} RunKeepsInv(w: World, ops: seq<Op>)
    requires Inv(w) && Legal(w, ops)
    ensures Inv(Run(w, ops))
    decreases |ops|
  {
    if ops != [] {
      StepKeepsInv(w, ops[0]);
      RunKeepsInv(Next(w, ops[0]), ops[1..]);
    }
  }

  /** In every run at most one commit starts, and only after a successful Prepare, inside Finalize. */
  lemma AtMostOneCommit(w: World, ops: seq<Op>)
    requires Initial(w) && Legal(w, ops)
    ensures var end := Run(w, ops);
            && end.commits <= 1
            && (end.commits == 1 ==>
              end.coordinator.prepareStarted && end.coordinator.prepared
              && end.coordinator.finalizeStarted)
  {
    InitialInv(w);
    RunKeepsInv(w, ops);
  }

  // Selected artifacts after a commit has started.

  function SelectedFiles(w: World): set<File> {
    FilesOf(w.published, w.selected)
  }

  lemma PublishedHome(w: World, attempts: set<Attempt>, f: File)
    requires Homes(w) && f in FilesOf(w.published, attempts)
    ensures f in w.home && w.home[f].OfAttempt? && w.home[f].attempt in attempts && w.home[f].attempt in w.published
  {
    var a :| a in attempts && f in Get(w.published, a);
    assert f in w.published[a];
  }

  lemma SelectedNotLocal(w: World, id: nat)
    requires Inv(w) && id in w.locals
    ensures SelectedFiles(w) !! w.locals[id].files
  {
    forall f | f in SelectedFiles(w)
      ensures f !in w.locals[id].files
    {
      PublishedHome(w, w.selected, f);
    }
  }

  lemma SelectedNotInMemory(w: World, a: Attempt)
    requires Inv(w) && a in w.memory
    ensures SelectedFiles(w) !! w.memory[a]
  {
    forall f | f in SelectedFiles(w)
      ensures f !in w.memory[a]
    {
      PublishedHome(w, w.selected, f);
    }
  }

  /** Once a commit has started, no step deletes an artifact of a selected attempt or changes the selection. */
  lemma SelectedKept(w: World, op: Op)
    requires Inv(w) && w.commits == 1 && Enabled(w, op)
    ensures var after := Next(w, op);
            && after.commits == 1 && SelectedFiles(after) == SelectedFiles(w)
            && SelectedFiles(w) * w.store.files <= after.store.files
  {
    match op
    case FinishWriter(id, _) => SelectedNotLocal(w, id);
    case DropLocal(id, _) => SelectedNotLocal(w, id);
    case DropMemory(a, _) => SelectedNotInMemory(w, a);
    case Publish(a, _) => FilesOfExtended(w.published, a, w.memory[a], w.selected);
    case _ =>
  }

  lemma {:induction false} SelectedKeptForever(w: World, ops: seq<Op>)
    requires Inv(w) && w.commits == 1 && Legal(w, ops)
    ensures Run(w, ops).commits == 1 && SelectedFiles(Run(w, ops)) == SelectedFiles(w)
    ensures SelectedFiles(w) * w.store.files <= Run(w, ops).store.files
    decreases |ops|
  {
    if ops != [] {
      SelectedKept(w, ops[0]);
      StepKeepsInv(w, ops[0]);
      SelectedKeptForever(Next(w, ops[0]), ops[1..]);
    }
  }

  // One owner.

  predicate HeldBy(w: World, h: Home, f: File) {
    Owned(w.locals, w.memory, w.store.manifests, h, f)
  }

  /** Every existing, uncommitted artifact that no failed cleanup leaked has exactly one owner: the thread or
      the attempt it is at home with. An attempt holds it in memory or in its manifest; in both only after a
      publishing call that wrote the manifest and then reported failure. */
  lemma OneOwner(w: World, f: File)
    requires Inv(w) && f in w.store.files && f in w.home && f !in w.store.committed && f !in w.leaked
    ensures HeldBy(w, w.home[f], f)
    ensures forall h | HeldBy(w, h, f) :: h == w.home[f]
    ensures forall a | f in Get(w.memory, a) && f in Get(w.store.manifests, a) :: a in w.finalized && a !in w.published
  {
  }

  /** Publishing moves an artifact from memory to the manifest, unless it reports failure: then the worker keeps it, and
      the manifest holds it too exactly when it was written all the same. */
  lemma PublishMovesOwner(w: World, a: Attempt, outcome: PublishOutcome, f: File)
    requires Inv(w) && CanPublish(w, a) && f in w.memory[a]
    ensures var after := AfterPublish(w, a, outcome);
            && (f in Get(after.memory, a) <==> !outcome.Written?)
            && (f in Get(after.store.manifests, a) <==> !outcome.NotWritten?)
            && f !in Get(w.store.manifests, a)
  {
  }
}
