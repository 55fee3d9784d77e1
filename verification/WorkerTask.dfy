/** A worker attempt: threads count rows, transactions are registered, and Finalize builds the commit envelope. */
module WorkerTask {
  import opened Bytes
  import VaneIdentity
  import opened CommitDecode

  /** A transaction registered with the attempt: its payload and what the storage layer wrote for it. */
  datatype Written = Written(payload: string, paths: seq<string>, sizes: seq<Count>, rows: Count, bytes: Count)

  /** What finishing a thread's writer yields: the encoded transaction, its artifacts with their sizes, and
      its bytes. */
  datatype Output = Output(payload: string, artifacts: seq<(string, Count)>, bytes: Count)

  /** A worker transaction needs a payload, at least one artifact, and a path for each. */
  predicate Usable(o: Output) {
    o.payload != "" && o.artifacts != [] && forall i | 0 <= i < |o.artifacts| :: o.artifacts[i].0 != ""
  }

  function WrittenOf(o: Output, rows: Count): Written {
    var n := |o.artifacts|;
    Written(o.payload, seq(n, i requires 0 <= i < n => o.artifacts[i].0),
            seq(n, i requires 0 <= i < n => o.artifacts[i].1), rows, o.bytes)
  }

  function RowCounts(ts: seq<Written>): (r: seq<Count>)
    ensures |r| == |ts|
  {
    seq(|ts|, i requires 0 <= i < |ts| => ts[i].rows)
  }

  function ByteCounts(ts: seq<Written>): (r: seq<Count>)
    ensures |r| == |ts|
  {
    seq(|ts|, i requires 0 <= i < |ts| => ts[i].bytes)
  }

  function PayloadsOf(ts: seq<Written>): (r: seq<string>)
    ensures |r| == |ts|
  {
    seq(|ts|, i requires 0 <= i < |ts| => ts[i].payload)
  }

  function PathsOf(ts: seq<Written>): seq<string> {
    if ts == [] then [] else PathsOf(ts[..|ts| - 1]) + ts[|ts| - 1].paths
  }

  function SizesOf(ts: seq<Written>): seq<Count> {
    if ts == [] then [] else SizesOf(ts[..|ts| - 1]) + ts[|ts| - 1].sizes
  }

  predicate InRange(ts: seq<Written>) {
    Sum(RowCounts(ts)) <= MAX_COUNT && Sum(ByteCounts(ts)) <= MAX_COUNT
  }

  lemma CountsAppend(ts: seq<Written>, t: Written)
    ensures Sum(RowCounts(ts + [t])) == Sum(RowCounts(ts)) + t.rows
    ensures Sum(ByteCounts(ts + [t])) == Sum(ByteCounts(ts)) + t.bytes
  {
    assert RowCounts(ts + [t])[..|ts|] == RowCounts(ts);
    assert ByteCounts(ts + [t])[..|ts|] == ByteCounts(ts);
  }

  function Numbered(paths: seq<string>): (r: seq<Artifact>)
    ensures |r| == |paths|
  {
    seq(|paths|, i requires 0 <= i < |paths| => Artifact(Some(i), paths[i], true, true))
  }

  function EnvelopeOf(target: Target, query: string, attempt: string, ts: seq<Written>): Envelope
    requires InRange(ts)
  {
    Envelope(target, query, attempt, PayloadsOf(ts), RowCounts(ts), ByteCounts(ts), PathsOf(ts), SizesOf(ts),
             Sum(RowCounts(ts)), Sum(ByteCounts(ts)))
  }

  /** The result of an attempt: no fragment without transactions, otherwise one fragment around the envelope. */
  function ResultOf(target: Target, query: string, attempt: string, ts: seq<Written>): TaskResult
    requires InRange(ts)
  {
    var rows, bytes := Sum(RowCounts(ts)), Sum(ByteCounts(ts));
    if ts == [] then TaskResult(query, attempt, true, [], 0, 0)
    else
      TaskResult(query, attempt, true,
                 [Fragment(target.operation + ":" + attempt, rows, bytes, Some(EnvelopeOf(target, query, attempt, ts)),
                   Numbered(PathsOf(ts)))],
                 rows, bytes)
  }

  /** A worker thread counts the rows it sinks. */
  class Thread {
    var rows: Count
    var combined: bool

    constructor ()
      ensures rows == 0 && !combined
    {
      rows, combined := 0, false;
    }

    method Sink(n: Count) returns (ok: bool)
      requires !combined
      modifies this`rows
      ensures ok <==> old(rows) + n <= MAX_COUNT
      ensures rows == if ok then old(rows) + n else old(rows)
    {
      var total := CheckedAdd(rows, n);
      ok := total.Some?;
      if ok {
        rows := total.value;
      }
    }
  }

  class Worker {
    const target: Target
    const query: string
    const attempt: string
    var transactions: seq<Written>
    var rows: Count
    var bytes: Count
    var finalized: bool
    /** The rows of all threads that were combined, and whether one of them could not be. */
    ghost var sunk: nat
    ghost var failed: bool

    ghost predicate Valid()
      reads this
    {
      && (!finalized ==> rows == Sum(RowCounts(transactions)) && bytes == Sum(ByteCounts(transactions)))
      && (!failed ==> sunk == rows)
    }

    constructor (target: Target, query: string, attempt: string)
      ensures Valid() && transactions == [] && !finalized && rows == bytes == 0 && !failed
      ensures this.target == target && this.query == query && this.attempt == attempt
    {
      this.target, this.query, this.attempt := target, query, attempt;
      transactions, rows, bytes, finalized := [], 0, 0, false;
      sunk, failed := 0, false;
    }

    /** Both totals are checked before anything changes. */
    method Register(t: Written) returns (ok: bool)
      requires Valid() && !finalized
      modifies this`transactions, this`rows, this`bytes, this`sunk, this`failed
      ensures Valid() && sunk == old(sunk) + t.rows && failed == (old(failed) || !ok)
      ensures ok <==> old(rows) + t.rows <= MAX_COUNT && old(bytes) + t.bytes <= MAX_COUNT
      ensures transactions == if ok then old(transactions) + [t] else old(transactions)
      ensures ok ==> rows == old(rows) + t.rows && bytes == old(bytes) + t.bytes
    {
      sunk := sunk + t.rows;
      var newRows, newBytes := CheckedAdd(rows, t.rows), CheckedAdd(bytes, t.bytes);
      if newRows.None? || newBytes.None? {
        failed := true;
        return false;
      }
      CountsAppend(transactions, t);
      transactions, rows, bytes, ok := transactions + [t], newRows.value, newBytes.value, true;
    }

    /** The rows a thread sank become one transaction of the attempt. `output` is what finishing the thread's writer
        yields, if that succeeds. */
    method Combine(thread: Thread, output: Option<Output>) returns (ok: bool)
      requires Valid() && !finalized && !thread.combined
      modifies this`transactions, this`rows, this`bytes, this`sunk, this`failed, thread`combined
      ensures Valid() && thread.combined && sunk == old(sunk) + thread.rows && failed == (old(failed) || !ok)
      ensures ok <==>
          thread.rows == 0
          || (output.Some? && Usable(output.value)
              && old(rows) + thread.rows <= MAX_COUNT && old(bytes) + output.value.bytes <= MAX_COUNT)
      ensures ok ==> rows == old(rows) + thread.rows
      ensures ok ==> bytes == old(bytes) + if thread.rows == 0 then 0 else output.value.bytes
      ensures transactions
           == old(transactions) + if ok && thread.rows != 0 then [WrittenOf(output.value, thread.rows)] else []
      ensures ok && thread.rows != 0 ==>
          var t := transactions[|old(transactions)|];
          && t.payload == output.value.payload && t.rows == thread.rows && t.bytes == output.value.bytes
          && |t.paths| == |t.sizes| == |output.value.artifacts|
          && forall i | 0 <= i < |t.paths| :: output.value.artifacts[i] == (t.paths[i], t.sizes[i])
    {
      thread.combined := true;
      if thread.rows == 0 {
        return true;
      }
      if output.None? || output.value.payload == "" {
        sunk, failed := sunk + thread.rows, true;
        return false;
      }
      var Output(payload, artifacts, size) := output.value;
      var paths: seq<string>, sizes: seq<Count> := [], [];
      for i := 0 to |artifacts|
        invariant |paths| == |sizes| == i
        invariant forall k | 0 <= k < i :: artifacts[k] == (paths[k], sizes[k]) && paths[k] != ""
      {
        if artifacts[i].0 == "" {
          sunk, failed := sunk + thread.rows, true;
          return false;
        }
        paths, sizes := paths + [artifacts[i].0], sizes + [artifacts[i].1];
      }
      if paths == [] {
        sunk, failed := sunk + thread.rows, true;
        return false;
      }
      assert Written(payload, paths, sizes, thread.rows, size) == WrittenOf(output.value, thread.rows);
      ok := Register(Written(payload, paths, sizes, thread.rows, size));
    }

    /** Builds the result and publishes the manifest, if there is anything to publish; memory is given up only when
        publishing succeeds. */
    method Finalize(published: bool) returns (result: Option<TaskResult>)
      requires Valid()
      modifies this`finalized, this`transactions
      ensures Valid() && finalized
      ensures result.Some? <==> !old(finalized) && (old(transactions) == [] || published)
      ensures result.Some? && !failed ==> result.value.rows == sunk
      ensures old(finalized) ==> result.None? && transactions == old(transactions)
      ensures result.Some? ==>
          InRange(old(transactions))
          && result.value == ResultOf(target, query, attempt, old(transactions))
      ensures result.Some? ==> result.value.rows == rows && transactions == []
      ensures result.None? ==> transactions == old(transactions)
    {
      if finalized {
        return None;
      }
      finalized := true;
      if transactions == [] {
        return Some(TaskResult(query, attempt, true, [], 0, 0));
      }
      var envelope := BuildEnvelope();
      var fragment := Fragment(target.operation + ":" + attempt, rows, bytes, Some(envelope), Numbered(envelope.paths));
      if !published {
        return None;
      }
      transactions := [];
      return Some(TaskResult(query, attempt, true, [fragment], rows, bytes));
    }

    method BuildEnvelope() returns (e: Envelope)
      requires rows == Sum(RowCounts(transactions)) && bytes == Sum(ByteCounts(transactions))
      ensures e == EnvelopeOf(target, query, attempt, transactions)
    {
      var payloads: seq<string>, rowCounts: seq<Count>, byteCounts: seq<Count> := [], [], [];
      var paths: seq<string>, sizes: seq<Count> := [], [];
      for i := 0 to |transactions|
        invariant payloads == PayloadsOf(transactions[..i]) && rowCounts == RowCounts(transactions[..i])
        invariant byteCounts == ByteCounts(transactions[..i])
        invariant paths == PathsOf(transactions[..i]) && sizes == SizesOf(transactions[..i])
      {
        assert transactions[..i + 1][..i] == transactions[..i];
        var t := transactions[i];
        payloads, rowCounts, byteCounts := payloads + [t.payload], rowCounts + [t.rows], byteCounts + [t.bytes];
        paths, sizes := paths + t.paths, sizes + t.sizes;
      }
      assert transactions[..|transactions|] == transactions;
      e := Envelope(target, query, attempt, payloads, rowCounts, byteCounts, paths, sizes, rows, bytes);
    }
  }

  // An attempt: threads sink chunks and are combined in any order, then the worker finalizes.

  /** A chunk arrives at a thread, or a thread is combined. */
  datatype Event = Chunk(thread: nat, rows: Count) | Done(thread: nat, output: Option<Output>)

  /** The rows of all chunks among the first `n` events. */
  function RowsSunk(events: seq<Event>, n: nat): nat
    requires n <= |events|
  {
    if n == 0 then 0 else RowsSunk(events, n - 1) + if events[n - 1].Chunk? then events[n - 1].rows else 0
  }

  /** The rows that arrived at one thread. */
  function RowsAt(events: seq<Event>, n: nat, thread: nat): nat
    requires n <= |events|
  {
    if n == 0 then 0
    else
      var e := events[n - 1];
      RowsAt(events, n - 1, thread) + if e.Chunk? && e.thread == thread then e.rows else 0
  }

  /** The transactions of the threads combined so far, one for each that had rows. */
  function TransactionsOf(events: seq<Event>, n: nat): seq<Written>
    requires n <= |events|
  {
    if n == 0 then []
    else
      var e := events[n - 1];
      TransactionsOf(events, n - 1) + Adds(e, RowsAt(events, n - 1, e.thread))
  }

  /** What combining a thread that sank `rows` adds. */
  function Adds(e: Event, rows: nat): seq<Written> {
    if e.Done? && e.output.Some? && 0 < rows <= MAX_COUNT then [WrittenOf(e.output.value, rows)] else []
  }

  /** The event can be handled, at a thread with `held` rows of an attempt with these totals. */
  predicate Fits(e: Event, held: nat, rows: nat, bytes: nat) {
    match e
    case Chunk(_, n) => held + n <= MAX_COUNT
    case Done(_, output) =>
      || held == 0
      || (&& output.Some? && Usable(output.value)
          && rows + held <= MAX_COUNT && bytes + output.value.bytes <= MAX_COUNT)
  }

  /** The rows and bytes of the threads combined so far. */
  function RowsDone(events: seq<Event>, n: nat): nat
    requires n <= |events|
  {
    if n == 0 then 0
    else RowsDone(events, n - 1) + if events[n - 1].Done? then RowsAt(events, n - 1, events[n - 1].thread) else 0
  }

  function BytesDone(events: seq<Event>, n: nat): nat
    requires n <= |events|
  {
    if n == 0 then 0
    else
      var e := events[n - 1];
      BytesDone(events, n - 1)
      + if e.Done? && e.output.Some? && RowsAt(events, n - 1, e.thread) != 0 then e.output.value.bytes else 0
  }

  predicate FitsAt(events: seq<Event>, k: nat)
    requires k < |events|
  {
    Fits(events[k], RowsAt(events, k, events[k].thread), RowsDone(events, k), BytesDone(events, k))
  }

  /** The events from the `k`th on can all be handled. */
  predicate AllFit(events: seq<Event>, k: nat)
    requires k <= |events|
    decreases |events| - k
  {
    k == |events| || (FitsAt(events, k) && AllFit(events, k + 1))
  }

  predicate Sound(t: Written) {
    t.payload != "" && t.rows != 0 && t.paths != [] && "" !in t.paths && |t.paths| == |t.sizes|
  }

  predicate AllSound(ts: seq<Written>) {
    forall i | 0 <= i < |ts| :: Sound(ts[i])
  }

  lemma SoundAppend(ts: seq<Written>, more: seq<Written>)
    requires AllSound(ts) && AllSound(more)
    ensures AllSound(ts + more)
  {
  }

  lemma AddsSound(e: Event, rows: nat)
    requires e.Done? && rows != 0 && e.output.Some? ==> Usable(e.output.value)
    ensures AllSound(Adds(e, rows))
  {
    if Adds(e, rows) != [] {
      UsableIsSound(e.output.value, rows);
    }
  }

  lemma UsableIsSound(o: Output, rows: Count)
    requires Usable(o) && rows != 0
    ensures Sound(WrittenOf(o, rows))
  {
    var t := WrittenOf(o, rows);
    assert forall i | 0 <= i < |t.paths| :: t.paths[i] == o.artifacts[i].0;
  }

  function Combined(events: seq<Event>, n: nat): set<nat>
    requires n <= |events|
  {
    if n == 0 then {} else Combined(events, n - 1) + if events[n - 1].Done? then {events[n - 1].thread} else {}
  }

  predicate InTime(events: seq<Event>, k: nat, threads: nat)
    requires k < |events|
  {
    events[k].thread < threads && events[k].thread !in Combined(events, k)
  }

  /** The engine's order of calls: every thread is combined once, after its last chunk. */
  predicate Scheduled(events: seq<Event>, threads: nat) {
    && (forall k | 0 <= k < |events| :: InTime(events, k, threads))
    && (forall i | 0 <= i < threads :: i in Combined(events, |events|))
  }

  lemma {:induction false} SumUpdate(xs: seq<Count>, i: nat, x: Count)
    requires i < |xs|
    ensures Sum(xs[i := x]) + xs[i] == Sum(xs) + x
  {
    var ys, m := xs[i := x], |xs| - 1;
    if i == m {
      assert ys[..m] == xs[..m];
    } else {
      SumUpdate(xs[..m], i, x);
      assert ys[..m] == xs[..m][i := x];
    }
  }

  lemma {:induction false} SumZeros(xs: seq<Count>)
    requires forall i | 0 <= i < |xs| :: xs[i] == 0
    ensures Sum(xs) == 0
  {
    if xs != [] {
      SumZeros(xs[..|xs| - 1]);
    }
  }

  /** The rows each thread still holds. */
  ghost predicate Holds(threads: seq<Thread>, left: seq<Count>, combined: set<nat>)
    reads threads
  {
    && |left| == |threads|
    && forall i | 0 <= i < |threads| ::
         (threads[i].combined <==> i in combined) && left[i] == if threads[i].combined then 0 else threads[i].rows
  }

  predicate DistinctThreads(threads: seq<Thread>) {
    forall i, j | 0 <= i < j < |threads| :: threads[i] != threads[j]
  }

  method NewThreads(n: nat) returns (threads: seq<Thread>)
    ensures |threads| == n && DistinctThreads(threads)
    ensures forall i | 0 <= i < n :: fresh(threads[i]) && threads[i].rows == 0 && !threads[i].combined
  {
    threads := [];
    for k := 0 to n
      invariant |threads| == k && DistinctThreads(threads)
      invariant forall i | 0 <= i < k :: fresh(threads[i]) && threads[i].rows == 0 && !threads[i].combined
    {
      var t := new Thread();
      threads := threads + [t];
    }
  }

  /** One event: what it adds to the rows sunk goes to its thread or from its thread to the worker. */
  method Step(worker: Worker, threads: seq<Thread>, e: Event, ghost left: seq<Count>, ghost combined: set<nat>)
    returns (ok: bool, ghost left': seq<Count>)
    requires worker.Valid() && !worker.finalized && !worker.failed
    requires DistinctThreads(threads) && Holds(threads, left, combined) && e.thread < |threads| && e.thread !in combined
    modifies worker, threads[e.thread]
    ensures worker.Valid() && !worker.finalized && (ok ==> !worker.failed)
    ensures ok ==> Holds(threads, left', combined + if e.Done? then {e.thread} else {})
    ensures ok ==> worker.sunk + Sum(left') == old(worker.sunk) + Sum(left) + if e.Chunk? then e.rows else 0
    ensures ok ==> worker.rows == old(worker.rows) + if e.Done? then threads[e.thread].rows else 0
    ensures ok && (e.Chunk? || threads[e.thread].rows == 0) ==> worker.bytes == old(worker.bytes)
    ensures ok && e.Done? && threads[e.thread].rows != 0 ==>
        e.output.Some? && worker.bytes == old(worker.bytes) + e.output.value.bytes
    ensures ok <==> Fits(e, old(threads[e.thread].rows), old(worker.rows), old(worker.bytes))
    ensures ok ==> threads[e.thread].rows == old(threads[e.thread].rows) + if e.Chunk? then e.rows else 0
    ensures ok && e.Done? && threads[e.thread].rows != 0 ==> e.output.Some? && Usable(e.output.value)
    ensures ok ==>
        worker.transactions == old(worker.transactions) + Adds(e, threads[e.thread].rows)
  {
    var thread := threads[e.thread];
    left' := left;
    match e
    case Chunk(_, n) =>
      ok := thread.Sink(n);
      if ok {
        SumUpdate(left, e.thread, thread.rows);
        left' := left[e.thread := thread.rows];
      }
    case Done(_, output) =>
      ok := worker.Combine(thread, output);
      SumUpdate(left, e.thread, 0);
      left' := left[e.thread := 0];
  }

  /** A thread has sunk the rows that the first `k` events brought it. */
  ghost predicate ThreadAt(t: Thread, events: seq<Event>, k: nat, i: nat)
    requires k <= |events|
    reads t
  {
    t.rows == RowsAt(events, k, i)
  }

  ghost predicate ThreadsAt(threads: seq<Thread>, events: seq<Event>, k: nat)
    requires k <= |events|
    reads threads
  {
    forall i | 0 <= i < |threads| :: ThreadAt(threads[i], events, k, i)
  }

  /** The state between two events. */
  ghost predicate Between(worker: Worker, threads: seq<Thread>, events: seq<Event>, k: nat, left: seq<Count>)
    requires k <= |events|
    reads worker, threads
  {
    && worker.Valid() && !worker.finalized && !worker.failed
    && Holds(threads, left, Combined(events, k)) && worker.sunk + Sum(left) == RowsSunk(events, k)
    && worker.transactions == TransactionsOf(events, k) && AllSound(worker.transactions)
    && worker.rows == RowsDone(events, k) && worker.bytes == BytesDone(events, k)
    && ThreadsAt(threads, events, k)
  }

  method RunEvent(worker: Worker, threads: seq<Thread>, events: seq<Event>, k: nat, ghost left: seq<Count>)
    returns (ok: bool, ghost left': seq<Count>)
    requires k < |events| && DistinctThreads(threads) && Between(worker, threads, events, k, left)
    requires events[k].thread < |threads| && events[k].thread !in Combined(events, k)
    modifies worker, threads
    ensures worker.Valid() && !worker.finalized && (ok ==> Between(worker, threads, events, k + 1, left'))
    ensures ok <==> FitsAt(events, k)
    ensures AllFit(events, k) <==> ok && AllFit(events, k + 1)
  {
    var e := events[k];
    ghost var before := worker.transactions;
    assert ThreadAt(threads[e.thread], events, k, e.thread);
    ok, left' := Step(worker, threads, e, left, Combined(events, k));
    if ok {
      AddsSound(e, threads[e.thread].rows);
      SoundAppend(before, Adds(e, threads[e.thread].rows));
      assert e.Done? ==> threads[e.thread].rows == RowsAt(events, k, e.thread);
      forall i | 0 <= i < |threads|
        ensures ThreadAt(threads[i], events, k + 1, i)
      {
        assert old(ThreadAt(threads[i], events, k, i));
        assert i != e.thread ==> threads[i].rows == old(threads[i].rows);
      }
    }
  }

  lemma BetweenStart(worker: Worker, threads: seq<Thread>, events: seq<Event>, left: seq<Count>)
    requires worker.Valid() && !worker.finalized && !worker.failed && worker.transactions == []
    requires worker.rows == 0 && worker.bytes == 0 && |left| == |threads|
    requires forall i | 0 <= i < |threads| :: threads[i].rows == 0 && !threads[i].combined && left[i] == 0
    ensures Between(worker, threads, events, 0, left)
  {
    SumZeros(left);
  }

  lemma NothingHeld(threads: seq<Thread>, events: seq<Event>, left: seq<Count>)
    requires Scheduled(events, |threads|) && Holds(threads, left, Combined(events, |events|))
    ensures Sum(left) == 0
  {
    SumZeros(left);
  }

  method RunEvents(worker: Worker, threads: seq<Thread>, events: seq<Event>) returns (ok: bool)
    requires worker.Valid() && !worker.finalized && !worker.failed && worker.rows == 0 && worker.transactions == []
    requires worker.bytes == 0
    requires DistinctThreads(threads) && Scheduled(events, |threads|)
    requires forall i | 0 <= i < |threads| :: threads[i].rows == 0 && !threads[i].combined
    modifies worker, threads
    ensures worker.Valid() && !worker.finalized && (ok ==> !worker.failed)
    ensures ok <==> AllFit(events, 0)
    ensures ok ==> worker.sunk == RowsSunk(events, |events|)
    ensures ok ==> worker.transactions == TransactionsOf(events, |events|) && AllSound(worker.transactions)
  {
    ghost var left: seq<Count> := seq(|threads|, i => 0);
    BetweenStart(worker, threads, events, left);
    for k := 0 to |events|
      invariant Between(worker, threads, events, k, left)
      invariant AllFit(events, 0) <==> AllFit(events, k)
    {
      var stepped;
      assert InTime(events, k, |threads|);
      stepped, left := RunEvent(worker, threads, events, k, left);
      if !stepped {
        return false;
      }
    }
    NothingHeld(threads, events, left);
    return true;
  }

  /** The result carries exactly the transactions of the attempt's threads, with exactly the rows that arrived
      at them. */
  ghost predicate Conserves(target: Target, query: string, attempt: string, events: seq<Event>, r: TaskResult) {
    var ts := TransactionsOf(events, |events|);
    && InRange(ts) && r == ResultOf(target, query, attempt, ts)
    && Sum(RowCounts(ts)) == RowsSunk(events, |events|)
    && AllSound(ts)
  }

  lemma ConservedRows(target: Target, query: string, attempt: string, events: seq<Event>, r: TaskResult)
    requires Conserves(target, query, attempt, events, r)
    ensures r.rows == RowsSunk(events, |events|)
  {
    var ts := TransactionsOf(events, |events|);
    assert ResultOf(target, query, attempt, ts).rows == Sum(RowCounts(ts));
  }

  /** A whole attempt, over any number of threads and any order of their chunks: no row is lost and none invented. */
  method RunAttempt(target: Target, query: string, attempt: string, threads: nat, events: seq<Event>, published: bool)
    returns (result: Option<TaskResult>)
    requires Scheduled(events, threads)
    ensures result.Some? <==> AllFit(events, 0) && (TransactionsOf(events, |events|) == [] || published)
    ensures result.Some? ==> Conserves(target, query, attempt, events, result.value)
    ensures result.Some? ==> result.value.rows == RowsSunk(events, |events|)
  {
    var worker := new Worker(target, query, attempt);
    var all := NewThreads(threads);
    var ok := RunEvents(worker, all, events);
    if !ok {
      return None;
    }
    result := worker.Finalize(published);
  }

  // Honest envelopes are accepted.

  /** The storage layer reads back what it wrote, and every transaction has a payload, rows and named artifacts. */
  predicate ReadsBack(decoder: Decoder, query: string, attempt: string, ts: seq<Written>) {
    forall k | 0 <= k < |ts| ::
      && ts[k].payload != "" && ts[k].rows != 0 && "" !in ts[k].paths
      && decoder(ts[k].payload, query, attempt, ts[k].rows) == Some(Transaction(ts[k].bytes, ts[k].paths, ts[k].sizes))
  }

  lemma {:induction false} ReadArtifacts(target: Target, query: string, attempt: string, ts: seq<Written>,
      decoder: Decoder, n: nat)
    requires InRange(ts) && ts != [] && ReadsBack(decoder, query, attempt, ts) && n <= |ts|
    requires Shaped(EnvelopeOf(target, query, attempt, ts))
    ensures ReadPaths(EnvelopeOf(target, query, attempt, ts), decoder, n) == PathsOf(ts[..n])
    ensures ReadSizes(EnvelopeOf(target, query, attempt, ts), decoder, n) == SizesOf(ts[..n])
  {
    if n != 0 {
      ReadArtifacts(target, query, attempt, ts, decoder, n - 1);
      assert ts[..n][..n - 1] == ts[..n - 1];
    }
  }

  lemma {:induction false} RowsPositive(ts: seq<Written>)
    requires ts != [] && forall k | 0 <= k < |ts| :: ts[k].rows != 0
    ensures Sum(RowCounts(ts)) != 0
  {
    var counts := RowCounts(ts);
    assert counts[|ts| - 1] != 0;
  }

  lemma {:induction false} SizesMatch(ts: seq<Written>)
    requires forall k | 0 <= k < |ts| :: |ts[k].paths| == |ts[k].sizes|
    ensures |PathsOf(ts)| == |SizesOf(ts)|
  {
    if ts != [] {
      SizesMatch(ts[..|ts| - 1]);
    }
  }

  lemma HonestResult(target: Target, query: string, attempt: string, ts: seq<Written>, decoder: Decoder)
    requires InRange(ts) && ReadsBack(decoder, query, attempt, ts)
    requires forall k | 0 <= k < |ts| :: |ts[k].paths| == |ts[k].sizes|
    requires VaneIdentity.LogicalTask(query, attempt).Some?
    ensures WellFormed(target, ResultOf(target, query, attempt, ts), decoder)
    ensures Payloads(ResultOf(target, query, attempt, ts)) == PayloadsOf(ts)
        && Paths(ResultOf(target, query, attempt, ts)) == PathsOf(ts)
    ensures ResultOf(target, query, attempt, ts).rows == Sum(RowCounts(ts))
  {
    if ts != [] {
      HonestFragment(target, query, attempt, ts, decoder);
    }
  }

  lemma EnvelopeShaped(target: Target, query: string, attempt: string, ts: seq<Written>)
    requires InRange(ts) && ts != [] && forall k | 0 <= k < |ts| :: ts[k].rows != 0 && |ts[k].paths| == |ts[k].sizes|
    ensures Shaped(EnvelopeOf(target, query, attempt, ts))
  {
    SizesMatch(ts);
    RowsPositive(ts);
  }

  lemma TransactionsReadBack(target: Target, query: string, attempt: string, ts: seq<Written>, decoder: Decoder)
    requires InRange(ts) && ReadsBack(decoder, query, attempt, ts) && Shaped(EnvelopeOf(target, query, attempt, ts))
    ensures TransactionsFit(EnvelopeOf(target, query, attempt, ts), decoder, |ts|)
  {
    var e := EnvelopeOf(target, query, attempt, ts);
    forall k | 0 <= k < |ts|
      ensures TransactionFits(e, decoder, k)
    {
      assert e.payloads[k] == ts[k].payload && e.rowCounts[k] == ts[k].rows && e.byteCounts[k] == ts[k].bytes;
    }
  }

  lemma HonestFragment(target: Target, query: string, attempt: string, ts: seq<Written>, decoder: Decoder)
    requires InRange(ts) && ReadsBack(decoder, query, attempt, ts) && ts != []
    requires forall k | 0 <= k < |ts| :: |ts[k].paths| == |ts[k].sizes|
    ensures var r := ResultOf(target, query, attempt, ts); Honest(target, r, r.fragments[0], decoder)
  {
    EnvelopeShaped(target, query, attempt, ts);
    TransactionsReadBack(target, query, attempt, ts, decoder);
    ReadArtifacts(target, query, attempt, ts, decoder, |ts|);
    assert ts[..|ts|] == ts;
  }

  // End to end.

  /** A selected attempt. */
  datatype Task = Task(query: string, attempt: string, transactions: seq<Written>)

  predicate HonestTask(t: Task, decoder: Decoder) {
    && InRange(t.transactions) && ReadsBack(decoder, t.query, t.attempt, t.transactions)
    && (forall k | 0 <= k < |t.transactions| :: |t.transactions[k].paths| == |t.transactions[k].sizes|)
    && VaneIdentity.LogicalTask(t.query, t.attempt).Some?
  }

  function Results(target: Target, tasks: seq<Task>): (r: seq<TaskResult>)
    requires forall i | 0 <= i < |tasks| :: InRange(tasks[i].transactions)
    ensures |r| == |tasks|
  {
    seq(|tasks|, i requires 0 <= i < |tasks| =>
      ResultOf(target, tasks[i].query, tasks[i].attempt, tasks[i].transactions))
  }

  lemma {:induction false} Indexed(results: seq<TaskResult>, n: nat)
    requires n <= |results|
    ensures |Attempts(results, n)| == |Tasks(results, n)| == n
    ensures forall i | 0 <= i < n ::
        Attempts(results, n)[i] == results[i].attempt
        && Tasks(results, n)[i] == TaskOf(results[i])
  {
    if n != 0 {
      Indexed(results, n - 1);
    }
  }

  /** Attempts of different logical tasks are different. */
  lemma DistinctAttempts(results: seq<TaskResult>, n: nat)
    requires n <= |results| && Distinct(Tasks(results, n))
    requires forall i | 0 <= i < n :: results[i].query == results[0].query
    ensures Distinct(Attempts(results, n))
  {
    Indexed(results, n);
    var attempts, tasks := Attempts(results, n), Tasks(results, n);
    forall i, j | 0 <= i < j < n
      ensures attempts[i] != attempts[j]
    {
      assert tasks[i] != tasks[j];
    }
  }

  /** Honest attempts of one query, one per logical task, are always accepted, as long as no two transactions share a
      payload or an artifact and the totals fit. */
  lemma HonestSelectionAccepted(target: Target, tasks: seq<Task>, decoder: Decoder)
    requires forall i | 0 <= i < |tasks| :: HonestTask(tasks[i], decoder) && tasks[i].query == tasks[0].query
    requires forall i | 0 <= i < |tasks| :: InRange(tasks[i].transactions)
    requires var results := Results(target, tasks);
             && OneAttemptPerTask(results)
             && Distinct(AllPayloads(results, |results|)) && Distinct(AllPaths(results, |results|))
             && TotalRows(results, |results|) <= MAX_COUNT && TotalBytes(results, |results|) <= MAX_COUNT
    ensures Readable(target, Results(target, tasks), |tasks|, decoder)
  {
    var results := Results(target, tasks);
    forall i | 0 <= i < |tasks|
      ensures Fine(target, results, i, decoder)
    {
      HonestResult(target, tasks[i].query, tasks[i].attempt, tasks[i].transactions, decoder);
    }
    DistinctAttempts(results, |results|);
  }
}
