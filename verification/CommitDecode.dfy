/** Decoding the task results selected for a distributed commit. */
module CommitDecode {
  import opened Bytes
  import VaneIdentity

  const MAX_COUNT: nat := 0xFFFF_FFFF_FFFF_FFFF
  type Count = n: nat | n <= MAX_COUNT

  /** Operation id, and everything else a fragment must repeat of its frozen target. */
  datatype Target = Target(operation: string, frozen: string)

  /** Artifact ids are the text "data:" and a number. */
  datatype Artifact = Artifact(number: Option<nat>, uri: string, codecMatches: bool, payloadEmpty: bool)

  datatype Envelope = Envelope(target: Target, query: string, attempt: string, payloads: seq<string>,
    rowCounts: seq<Count>, byteCounts: seq<Count>, paths: seq<string>, sizes: seq<Count>, rows: Count, bytes: Count)

  /** A fragment's envelope is `None` when its payload does not deserialize. */
  datatype Fragment = Fragment(id: string, rows: Count, bytes: Count, envelope: Option<Envelope>,
    artifacts: seq<Artifact>)

  datatype TaskResult = TaskResult(query: string, attempt: string, contractMatches: bool, fragments: seq<Fragment>,
                                   rows: Count, bytes: Count)

  /** What the storage layer finds in a transaction payload. */
  datatype Transaction = Transaction(bytes: Count, paths: seq<string>, sizes: seq<Count>)
  type Decoder = (string, string, string, Count) -> Option<Transaction>

  datatype Decoded = Decoded(transactions: seq<string>, attempts: seq<string>, rows: Count, bytes: Count)

  // Collections without repetition.

  predicate Distinct(xs: seq<string>) {
    forall i, j | 0 <= i < j < |xs| :: xs[i] != xs[j]
  }

  predicate New(xs: seq<string>, seen: set<string>) {
    Distinct(xs) && forall i | 0 <= i < |xs| :: xs[i] !in seen
  }

  function Elements(xs: seq<string>): set<string> {
    set x | x in xs
  }

  lemma NewAppend(xs: seq<string>, x: string, seen: set<string>)
    ensures New(xs + [x], seen) <==> New(xs, seen) && x !in seen + Elements(xs)
    ensures Elements(xs + [x]) == Elements(xs) + {x}
  {
    var all := xs + [x];
    assert all[|xs|] == x && forall i | 0 <= i < |xs| :: all[i] == xs[i];
  }

  lemma NewConcat(xs: seq<string>, ys: seq<string>, seen: set<string>)
    ensures New(xs + ys, seen) <==> New(xs, seen) && New(ys, seen + Elements(xs))
    ensures Elements(xs + ys) == Elements(xs) + Elements(ys)
  {
    var all := xs + ys;
    assert forall i | 0 <= i < |xs| :: all[i] == xs[i];
    assert forall i | 0 <= i < |ys| :: all[|xs| + i] == ys[i];
    assert forall i | |xs| <= i < |all| :: all[i] == ys[i - |xs|];
  }

  function Sum(xs: seq<Count>): nat {
    if xs == [] then 0 else Sum(xs[..|xs| - 1]) + xs[|xs| - 1]
  }

  lemma SumStep(xs: seq<Count>, n: nat)
    requires n < |xs|
    ensures Sum(xs[..n + 1]) == Sum(xs[..n]) + xs[n]
  {
    assert xs[..n + 1][..n] == xs[..n];
  }

  lemma {:induction false} SumMonotone(xs: seq<Count>, n: nat)
    requires n <= |xs|
    ensures Sum(xs[..n]) <= Sum(xs)
    decreases |xs| - n
  {
    if n == |xs| {
      assert xs[..n] == xs;
    } else {
      SumMonotone(xs, n + 1);
      SumStep(xs, n);
    }
  }

  // One envelope.

  /** The `k`th transaction of an envelope, as the storage layer reads it. */
  function Read(e: Envelope, decoder: Decoder, k: nat): Option<Transaction>
    requires k < |e.payloads| == |e.rowCounts|
  {
    decoder(e.payloads[k], e.query, e.attempt, e.rowCounts[k])
  }

  predicate TransactionFits(e: Envelope, decoder: Decoder, k: nat)
    requires k < |e.payloads| == |e.rowCounts| == |e.byteCounts|
  {
    && e.payloads[k] != "" && e.rowCounts[k] != 0
    && Read(e, decoder, k).Some? && Read(e, decoder, k).value.bytes == e.byteCounts[k]
    && "" !in Read(e, decoder, k).value.paths
  }

  predicate Shaped(e: Envelope) {
    |e.payloads| == |e.rowCounts| == |e.byteCounts| && |e.paths| == |e.sizes| && e.payloads != [] && e.rows != 0
  }

  function ReadPaths(e: Envelope, decoder: Decoder, n: nat): seq<string>
    requires Shaped(e) && n <= |e.payloads|
  {
    if n == 0 then []
    else
      var t := Read(e, decoder, n - 1);
      ReadPaths(e, decoder, n - 1) + if t.Some? then t.value.paths else []
  }

  function ReadSizes(e: Envelope, decoder: Decoder, n: nat): seq<Count>
    requires Shaped(e) && n <= |e.payloads|
  {
    if n == 0 then []
    else
      var t := Read(e, decoder, n - 1);
      ReadSizes(e, decoder, n - 1) + if t.Some? then t.value.sizes else []
  }

  predicate TransactionsFit(e: Envelope, decoder: Decoder, n: nat)
    requires Shaped(e) && n <= |e.payloads|
  {
    forall k | 0 <= k < n :: TransactionFits(e, decoder, k)
  }

  predicate ArtifactsMatch(artifacts: seq<Artifact>, paths: seq<string>)
    requires |artifacts| == |paths|
  {
    forall i | 0 <= i < |artifacts| ::
      artifacts[i].number == Some(i) && artifacts[i].uri == paths[i] && artifacts[i].codecMatches
        && artifacts[i].payloadEmpty
  }

  /** The envelope repeats the target and its task, and its counts and artifacts are those of its transactions. */
  predicate Honest(target: Target, r: TaskResult, f: Fragment, decoder: Decoder) {
    && f.id == target.operation + ":" + r.attempt && f.rows != 0 && f.rows == r.rows && f.bytes == r.bytes
    && f.envelope.Some?
    && var e := f.envelope.value;
       && Shaped(e) && e.target == target && e.query == r.query && e.attempt == r.attempt
       && e.rows == f.rows && e.bytes == f.bytes && |e.paths| == |f.artifacts|
       && TransactionsFit(e, decoder, |e.payloads|)
       && Sum(e.rowCounts) == e.rows && Sum(e.byteCounts) == e.bytes
       && ReadPaths(e, decoder, |e.payloads|) == e.paths && ReadSizes(e, decoder, |e.payloads|) == e.sizes
       && ArtifactsMatch(f.artifacts, e.paths)
  }

  /** A result that is right on its own: empty, or one honest fragment. */
  predicate WellFormed(target: Target, r: TaskResult, decoder: Decoder) {
    && r.contractMatches && VaneIdentity.LogicalTask(r.query, r.attempt).Some?
    && if r.fragments == [] then r.rows == 0 && r.bytes == 0
       else |r.fragments| == 1 && Honest(target, r, r.fragments[0], decoder)
  }

  // All results.

  function Payloads(r: TaskResult): seq<string> {
    if |r.fragments| == 1 && r.fragments[0].envelope.Some? then r.fragments[0].envelope.value.payloads else []
  }

  function Paths(r: TaskResult): seq<string> {
    if |r.fragments| == 1 && r.fragments[0].envelope.Some? then r.fragments[0].envelope.value.paths else []
  }

  function AllPayloads(results: seq<TaskResult>, n: nat): seq<string>
    requires n <= |results|
  {
    if n == 0 then [] else AllPayloads(results, n - 1) + Payloads(results[n - 1])
  }

  function AllPaths(results: seq<TaskResult>, n: nat): seq<string>
    requires n <= |results|
  {
    if n == 0 then [] else AllPaths(results, n - 1) + Paths(results[n - 1])
  }

  function Attempts(results: seq<TaskResult>, n: nat): seq<string>
    requires n <= |results|
  {
    if n == 0 then [] else Attempts(results, n - 1) + [results[n - 1].attempt]
  }

  /** Attempts with transactions: they keep their manifests until the commit. */
  function Recorded(results: seq<TaskResult>, n: nat): seq<string>
    requires n <= |results|
  {
    if n == 0 then [] else Recorded(results, n - 1) + if results[n - 1].fragments == [] then []
      else [results[n - 1].attempt]
  }

  /** The logical task of an attempt; a result without one is not well formed. */
  function TaskOf(r: TaskResult): string {
    var task := VaneIdentity.LogicalTask(r.query, r.attempt);
    if task.Some? then task.value else ""
  }

  function Tasks(results: seq<TaskResult>, n: nat): seq<string>
    requires n <= |results|
  {
    if n == 0 then [] else Tasks(results, n - 1) + [TaskOf(results[n - 1])]
  }

  function TotalRows(results: seq<TaskResult>, n: nat): nat
    requires n <= |results|
  {
    if n == 0 then 0 else TotalRows(results, n - 1) + results[n - 1].rows
  }

  function TotalBytes(results: seq<TaskResult>, n: nat): nat
    requires n <= |results|
  {
    if n == 0 then 0 else TotalBytes(results, n - 1) + results[n - 1].bytes
  }

  predicate Fine(target: Target, results: seq<TaskResult>, i: nat, decoder: Decoder)
    requires i < |results|
  {
    WellFormed(target, results[i], decoder) && results[i].query == results[0].query
  }

  /** Everything but one attempt per logical task: each result well formed, one query, distinct attempts,
      no payload or artifact twice, counts within range. */
  predicate Readable(target: Target, results: seq<TaskResult>, n: nat, decoder: Decoder)
    requires n <= |results|
  {
    && (forall i | 0 <= i < n :: Fine(target, results, i, decoder))
    && Distinct(Attempts(results, n)) && Distinct(AllPayloads(results, n)) && Distinct(AllPaths(results, n))
    && TotalRows(results, n) <= MAX_COUNT && TotalBytes(results, n) <= MAX_COUNT
  }

  predicate OneAttemptPerTask(results: seq<TaskResult>) {
    Distinct(Tasks(results, |results|))
  }

  /** What decoding the first `n` results yields. */
  predicate Yields(results: seq<TaskResult>, n: nat, decoded: Decoded)
    requires n <= |results|
  {
    && decoded.transactions == AllPayloads(results, n) && decoded.attempts == Recorded(results, n)
    && decoded.rows == TotalRows(results, n) && decoded.bytes == TotalBytes(results, n)
  }

  function CheckedAdd(x: Count, y: Count): (r: Option<Count>)
    ensures r.Some? <==> x + y <= MAX_COUNT
    ensures r.Some? ==> r.value == x + y
  {
    if y > MAX_COUNT - x then None else Some(x + y)
  }

  method AddPaths(paths: seq<string>, seen: set<string>) returns (ok: bool, after: set<string>)
    ensures ok <==> "" !in paths && New(paths, seen)
    ensures ok ==> after == seen + Elements(paths)
  {
    after := seen;
    for i := 0 to |paths|
      invariant "" !in paths[..i] && New(paths[..i], seen) && after == seen + Elements(paths[..i])
    {
      assert paths[..i + 1] == paths[..i] + [paths[i]];
      NewAppend(paths[..i], paths[i], seen);
      if paths[i] == "" || paths[i] in after {
        NewPrefix(paths, seen, i + 1);
        return false, after;
      }
      after := after + {paths[i]};
    }
    assert paths[..|paths|] == paths;
    ok := true;
  }

  lemma NewPrefix(xs: seq<string>, seen: set<string>, n: nat)
    requires n <= |xs|
    ensures New(xs, seen) ==> New(xs[..n], seen)
  {
  }

  /** The first `k` transactions of the envelope decode, bring only new payloads and paths, and keep the
      counts in range. */
  predicate Good(e: Envelope, decoder: Decoder, payloads: set<string>, paths: set<string>, k: nat)
    requires Shaped(e) && k <= |e.payloads|
  {
    && TransactionsFit(e, decoder, k) && New(e.payloads[..k], payloads) && New(ReadPaths(e, decoder, k), paths)
    && Sum(e.rowCounts[..k]) <= MAX_COUNT && Sum(e.byteCounts[..k]) <= MAX_COUNT
  }

  lemma GoodStep(e: Envelope, decoder: Decoder, payloads: set<string>, paths: set<string>, k: nat)
    requires Shaped(e) && k < |e.payloads|
    ensures Good(e, decoder, payloads, paths, k + 1)
            <==> && Good(e, decoder, payloads, paths, k) && TransactionFits(e, decoder, k)
                 && e.payloads[k] !in payloads + Elements(e.payloads[..k])
                 && New(Read(e, decoder, k).value.paths, paths + Elements(ReadPaths(e, decoder, k)))
                 && Sum(e.rowCounts[..k]) + e.rowCounts[k] <= MAX_COUNT
                   && Sum(e.byteCounts[..k]) + e.byteCounts[k] <= MAX_COUNT
    ensures Elements(e.payloads[..k + 1]) == Elements(e.payloads[..k]) + {e.payloads[k]}
    ensures Read(e, decoder, k).Some? ==>
              Elements(ReadPaths(e, decoder, k + 1)) == Elements(ReadPaths(e, decoder, k))
                + Elements(Read(e, decoder, k).value.paths)
    ensures Sum(e.rowCounts[..k + 1]) == Sum(e.rowCounts[..k]) + e.rowCounts[k]
    ensures Sum(e.byteCounts[..k + 1]) == Sum(e.byteCounts[..k]) + e.byteCounts[k]
  {
    assert e.payloads[..k + 1] == e.payloads[..k] + [e.payloads[k]];
    NewAppend(e.payloads[..k], e.payloads[k], payloads);
    assert TransactionsFit(e, decoder, k + 1) <==> TransactionsFit(e, decoder, k) && TransactionFits(e, decoder, k);
    if Read(e, decoder, k).Some? {
      NewConcat(ReadPaths(e, decoder, k), Read(e, decoder, k).value.paths, paths);
    }
    SumStep(e.rowCounts, k);
    SumStep(e.byteCounts, k);
  }

  lemma {:induction false} GoodPrefix(e: Envelope, decoder: Decoder, payloads: set<string>, paths: set<string>, k: nat,
      n: nat)
    requires Shaped(e) && k <= n <= |e.payloads| && Good(e, decoder, payloads, paths, n)
    ensures Good(e, decoder, payloads, paths, k)
  {
    if k < n {
      GoodStep(e, decoder, payloads, paths, n - 1);
      GoodPrefix(e, decoder, payloads, paths, k, n - 1);
    }
  }

  /** The envelope's own totals are those of its transactions. */
  predicate Totals(e: Envelope, decoder: Decoder)
    requires Shaped(e)
  {
    && Sum(e.rowCounts) == e.rows && Sum(e.byteCounts) == e.bytes
    && ReadPaths(e, decoder, |e.payloads|) == e.paths && ReadSizes(e, decoder, |e.payloads|) == e.sizes
  }

  method DecodeTransactions(e: Envelope, decoder: Decoder, payloads: set<string>, paths: set<string>)
    returns (ok: bool, pushed: seq<string>, allPayloads: set<string>, allPaths: set<string>)
    requires Shaped(e)
    ensures pushed <= e.payloads
    ensures forall k | 0 <= k <= |e.payloads| && Good(e, decoder, payloads, paths, k) :: k <= |pushed|
    ensures ok <==> Good(e, decoder, payloads, paths, |e.payloads|) && Totals(e, decoder)
    ensures ok ==>
        pushed == e.payloads && allPayloads == payloads + Elements(e.payloads)
        && allPaths == paths + Elements(e.paths)
  {
    var rows: Count, bytes: Count := 0, 0;
    var foundPaths: seq<string>, foundSizes: seq<Count> := [], [];
    pushed, allPayloads, allPaths := [], payloads, paths;
    for k := 0 to |e.payloads|
      invariant Good(e, decoder, payloads, paths, k) && pushed == e.payloads[..k]
      invariant allPayloads == payloads + Elements(e.payloads[..k])
          && allPaths == paths + Elements(ReadPaths(e, decoder, k))
      invariant rows == Sum(e.rowCounts[..k]) && bytes == Sum(e.byteCounts[..k])
      invariant foundPaths == ReadPaths(e, decoder, k) && foundSizes == ReadSizes(e, decoder, k)
    {
      GoodStep(e, decoder, payloads, paths, k);
      var stepOk, t;
      stepOk, rows, bytes, t, allPayloads, allPaths := DecodeOne(e, decoder, k, rows, bytes, allPayloads, allPaths);
      if !stepOk {
        forall n | k < n <= |e.payloads| && Good(e, decoder, payloads, paths, n)
          ensures false
        {
          GoodPrefix(e, decoder, payloads, paths, k + 1, n);
        }
        return false, pushed, allPayloads, allPaths;
      }
      foundPaths, foundSizes := foundPaths + t.paths, foundSizes + t.sizes;
      pushed := pushed + [e.payloads[k]];
    }
    assert e.payloads[..|e.payloads|] == e.payloads && e.rowCounts[..|e.rowCounts|] == e.rowCounts
           && e.byteCounts[..|e.byteCounts|] == e.byteCounts;
    ok := rows == e.rows && bytes == e.bytes && foundPaths == e.paths && foundSizes == e.sizes;
  }

  /** One transaction of the envelope, in the order of the checks. */
  method DecodeOne(e: Envelope, decoder: Decoder, k: nat, rows: Count, bytes: Count, payloads: set<string>,
      paths: set<string>)
    returns (ok: bool, rows': Count, bytes': Count, t: Transaction, payloads': set<string>, paths': set<string>)
    requires Shaped(e) && k < |e.payloads|
    ensures ok <==>
        && TransactionFits(e, decoder, k) && e.payloads[k] !in payloads
        && New(Read(e, decoder, k).value.paths, paths)
        && rows + e.rowCounts[k] <= MAX_COUNT && bytes + e.byteCounts[k] <= MAX_COUNT
    ensures ok ==>
        && rows' == rows + e.rowCounts[k] && bytes' == bytes + e.byteCounts[k]
        && Some(t) == Read(e, decoder, k)
        && payloads' == payloads + {e.payloads[k]} && paths' == paths + Elements(t.paths)
  {
    rows', bytes', t, payloads', paths' := rows, bytes, Transaction(0, [], []), payloads, paths;
    if e.payloads[k] == "" || e.payloads[k] in payloads {
      return false, rows', bytes', t, payloads', paths';
    }
    payloads' := payloads + {e.payloads[k]};
    var addedRows, addedBytes := CheckedAdd(rows, e.rowCounts[k]), CheckedAdd(bytes, e.byteCounts[k]);
    if e.rowCounts[k] == 0 || addedRows.None? || addedBytes.None? {
      return false, rows', bytes', t, payloads', paths';
    }
    rows', bytes' := addedRows.value, addedBytes.value;
    var found := decoder(e.payloads[k], e.query, e.attempt, e.rowCounts[k]);
    if found.None? || found.value.bytes != e.byteCounts[k] {
      return false, rows', bytes', t, payloads', paths';
    }
    t := found.value;
    ok, paths' := AddPaths(t.paths, paths);
  }

  method MatchArtifacts(artifacts: seq<Artifact>, paths: seq<string>) returns (ok: bool)
    requires |artifacts| == |paths|
    ensures ok <==> ArtifactsMatch(artifacts, paths)
  {
    for i := 0 to |artifacts|
      invariant ArtifactsMatch(artifacts[..i], paths[..i])
    {
      if artifacts[i].number != Some(i) || artifacts[i].uri != paths[i] || !artifacts[i].codecMatches
        || !artifacts[i].payloadEmpty {
        return false;
      }
    }
    ok := true;
  }

  /** The fragment is of this attempt and operation, and its envelope says so too and agrees on the totals. */
  predicate Addressed(target: Target, r: TaskResult, f: Fragment) {
    && f.id == target.operation + ":" + r.attempt && f.rows != 0 && f.rows == r.rows && f.bytes == r.bytes
    && f.envelope.Some?
    && var e := f.envelope.value;
       && Shaped(e) && e.target == target && e.query == r.query && e.attempt == r.attempt && e.rows == f.rows
       && e.bytes == f.bytes && |e.paths| == |f.artifacts|
  }

  /** The fragment of a non-empty result. */
  method DecodeFragment(target: Target, r: TaskResult, f: Fragment, decoder: Decoder, payloads: set<string>,
      paths: set<string>)
    returns (ok: bool, pushed: seq<string>, allPayloads: set<string>, allPaths: set<string>)
    requires r.fragments == [f]
    ensures pushed <= Payloads(r)
    ensures Addressed(target, r, f) ==>
              forall k | 0 <= k <= |f.envelope.value.payloads| && Good(f.envelope.value, decoder, payloads, paths, k) ::
                k <= |pushed|
    ensures ok <==> Honest(target, r, f, decoder) && New(Payloads(r), payloads) && New(Paths(r), paths)
    ensures ok ==>
        pushed == Payloads(r) && allPayloads == payloads + Elements(Payloads(r))
        && allPaths == paths + Elements(Paths(r))
  {
    pushed, allPayloads, allPaths := [], payloads, paths;
    if f.id != target.operation + ":" + r.attempt || f.rows == 0 || f.rows != r.rows || f.bytes != r.bytes
      || f.envelope.None? {
      return false, pushed, allPayloads, allPaths;
    }
    var e := f.envelope.value;
    if !Shaped(e) || e.target != target || e.query != r.query || e.attempt != r.attempt || e.rows != f.rows
      || e.bytes != f.bytes
       || |e.paths| != |f.artifacts|
    {
      return false, pushed, allPayloads, allPaths;
    }
    ok, pushed, allPayloads, allPaths := DecodeTransactions(e, decoder, payloads, paths);
    HonestEnvelope(target, r, f, decoder, payloads, paths);
    if ok {
      ok := MatchArtifacts(f.artifacts, e.paths);
    }
  }

  lemma HonestEnvelope(target: Target, r: TaskResult, f: Fragment, decoder: Decoder, payloads: set<string>,
      paths: set<string>)
    requires Addressed(target, r, f)
    ensures var e := f.envelope.value;
            Honest(target, r, f, decoder) && New(e.payloads, payloads) && New(e.paths, paths)
            <==> Good(e, decoder, payloads, paths, |e.payloads|) && Totals(e, decoder)
                 && ArtifactsMatch(f.artifacts, e.paths)
  {
    var e := f.envelope.value;
    assert e.payloads[..|e.payloads|] == e.payloads && e.rowCounts[..|e.rowCounts|] == e.rowCounts
           && e.byteCounts[..|e.byteCounts|] == e.byteCounts;
  }

  lemma AttemptKnown(results: seq<TaskResult>, n: nat)
    requires n < |results|
    ensures Distinct(Attempts(results, n + 1))
            <==> Distinct(Attempts(results, n)) && results[n].attempt !in Elements(Attempts(results, n))
    ensures Elements(Attempts(results, n + 1)) == Elements(Attempts(results, n)) + {results[n].attempt}
  {
    NewAppend(Attempts(results, n), results[n].attempt, {});
  }

  /** One more result: what must hold of it, given the results before it. */
  predicate Joins(target: Target, results: seq<TaskResult>, n: nat, decoder: Decoder)
    requires n < |results|
  {
    var r := results[n];
    && Fine(target, results, n, decoder)
    && r.attempt !in Elements(Attempts(results, n))
    && New(Payloads(r), Elements(AllPayloads(results, n))) && New(Paths(r), Elements(AllPaths(results, n)))
    && TotalRows(results, n) + r.rows <= MAX_COUNT && TotalBytes(results, n) + r.bytes <= MAX_COUNT
  }

  lemma ReadableStep(target: Target, results: seq<TaskResult>, n: nat, decoder: Decoder)
    requires n < |results|
    ensures Readable(target, results, n + 1, decoder)
        <==> Readable(target, results, n, decoder) && Joins(target, results, n, decoder)
  {
    AttemptKnown(results, n);
    NewConcat(AllPayloads(results, n), Payloads(results[n]), {});
    NewConcat(AllPaths(results, n), Paths(results[n]), {});
    assert (forall i | 0 <= i < n + 1 :: Fine(target, results, i, decoder))
           <==> (forall i | 0 <= i < n :: Fine(target, results, i, decoder)) && Fine(target, results, n, decoder);
  }

  lemma {:induction false} ReadablePrefix(target: Target, results: seq<TaskResult>, k: nat, n: nat, decoder: Decoder)
    requires k <= n <= |results| && Readable(target, results, n, decoder)
    ensures Readable(target, results, k, decoder)
  {
    if k < n {
      ReadableStep(target, results, n - 1, decoder);
      ReadablePrefix(target, results, k, n - 1, decoder);
    }
  }

  lemma {:induction false} PayloadsPrefix(results: seq<TaskResult>, k: nat, n: nat)
    requires k <= n <= |results|
    ensures AllPayloads(results, k) <= AllPayloads(results, n)
  {
    if k < n {
      PayloadsPrefix(results, k, n - 1);
    }
  }

  /** The sets the decoder keeps while it walks the results. */
  datatype Seen = Seen(attempts: set<string>, tasks: set<string>, payloads: set<string>, paths: set<string>,
    duplicateTask: bool)

  predicate Tracks(results: seq<TaskResult>, n: nat, seen: Seen)
    requires n <= |results|
  {
    && seen.attempts == Elements(Attempts(results, n)) && seen.payloads == Elements(AllPayloads(results, n))
    && seen.paths == Elements(AllPaths(results, n)) && seen.tasks == Elements(Tasks(results, n))
    && (seen.duplicateTask <==> !Distinct(Tasks(results, n)))
  }

  /** One result: `Joins` decides it; its transactions are appended as they are decoded. */
  method DecodeResult(target: Target, results: seq<TaskResult>, n: nat, decoder: Decoder, seen: Seen, before: Decoded)
    returns (ok: bool, seen': Seen, decoded: Decoded)
    requires n < |results| && Readable(target, results, n, decoder) && Tracks(results, n, seen)
        && Yields(results, n, before)
    ensures ok <==> Joins(target, results, n, decoder)
    ensures ok ==> Tracks(results, n + 1, seen') && Yields(results, n + 1, decoded)
    ensures before.transactions <= decoded.transactions <= AllPayloads(results, n + 1)
  {
    var r := results[n];
    seen', decoded := seen, before;
    var task := VaneIdentity.LogicalTask(r.query, r.attempt);
    if !r.contractMatches || r.query != results[0].query || r.attempt in seen.attempts || task.None? {
      return false, seen', decoded;
    }
    seen' := Noted(seen, r.attempt, task.value);
    if r.fragments == [] {
      ok := r.rows == 0 && r.bytes == 0;
      TracksStep(results, n, seen);
      return;
    }
    if |r.fragments| != 1 {
      return false, seen', decoded;
    }
    assert r.fragments == [r.fragments[0]];
    var pushed, payloads, paths;
    ok, pushed, payloads, paths := DecodeFragment(target, r, r.fragments[0], decoder, seen.payloads, seen.paths);
    decoded := decoded.(transactions := decoded.transactions + pushed);
    seen' := seen'.(payloads := payloads, paths := paths);
    var rows, bytes := CheckedAdd(decoded.rows, r.rows), CheckedAdd(decoded.bytes, r.bytes);
    if !ok || rows.None? || bytes.None? {
      return false, seen', decoded;
    }
    TracksStep(results, n, seen);
    decoded := decoded.(rows := rows.value, bytes := bytes.value, attempts := decoded.attempts + [r.attempt]);
  }

  function Noted(seen: Seen, attempt: string, task: string): Seen {
    seen.(attempts := seen.attempts + {attempt}, tasks := seen.tasks + {task}, duplicateTask := seen.duplicateTask
      || task in seen.tasks)
  }

  lemma TracksStep(results: seq<TaskResult>, n: nat, seen: Seen)
    requires n < |results| && Tracks(results, n, seen)
    ensures var r := results[n];
            Tracks(results, n + 1, Noted(seen, r.attempt, TaskOf(r)).(payloads := seen.payloads + Elements(Payloads(r)),
                                                                      paths := seen.paths + Elements(Paths(r))))
    ensures results[n].fragments == [] ==> Tracks(results, n + 1, Noted(seen, results[n].attempt, TaskOf(results[n])))
  {
    var r := results[n];
    AttemptKnown(results, n);
    NewAppend(Tasks(results, n), TaskOf(r), {});
    NewConcat(AllPayloads(results, n), Payloads(r), {});
    NewConcat(AllPaths(results, n), Paths(r), {});
  }

  /** The transactions of every readable prefix of the results are among these. */
  ghost predicate HoldsReadable(target: Target, results: seq<TaskResult>, decoder: Decoder, transactions: seq<string>) {
    forall n | 0 <= n <= |results| && Readable(target, results, n, decoder) :: AllPayloads(results, n) <= transactions
  }

  lemma ReadableHeld(target: Target, results: seq<TaskResult>, n: nat, decoder: Decoder, transactions: seq<string>)
    requires n <= |results| && (n < |results| ==> !Readable(target, results, n + 1, decoder))
    requires AllPayloads(results, n) <= transactions
    ensures HoldsReadable(target, results, decoder, transactions)
    ensures n < |results| ==> !Readable(target, results, |results|, decoder)
  {
    forall m | 0 <= m <= |results| && Readable(target, results, m, decoder)
      ensures m <= n && AllPayloads(results, m) <= transactions
    {
      if n < m {
        ReadablePrefix(target, results, n + 1, m, decoder);
      }
      PayloadsPrefix(results, m, n);
    }
  }

  /** Decoding succeeds exactly on readable results with one attempt per logical task, and then yields every transaction
      and the totals. When a duplicate logical task is the only fault, everything is decoded before it is reported.
      After any other failure it still hands back the transactions of every readable prefix. */
  method DecodeResults(target: Target, results: seq<TaskResult>, decoder: Decoder) returns (ok: bool, decoded: Decoded)
    ensures ok <==> Readable(target, results, |results|, decoder) && OneAttemptPerTask(results)
    ensures Readable(target, results, |results|, decoder) ==> Yields(results, |results|, decoded)
    ensures decoded.transactions <= AllPayloads(results, |results|)
    ensures HoldsReadable(target, results, decoder, decoded.transactions)
  {
    var seen := Seen({}, {}, {}, {}, false);
    decoded := Decoded([], [], 0, 0);
    for n := 0 to |results|
      invariant Readable(target, results, n, decoder) && Tracks(results, n, seen) && Yields(results, n, decoded)
    {
      ReadableStep(target, results, n, decoder);
      var joined;
      joined, seen, decoded := DecodeResult(target, results, n, decoder, seen, decoded);
      PayloadsPrefix(results, n + 1, |results|);
      if !joined {
        ReadableHeld(target, results, n, decoder, decoded.transactions);
        return false, decoded;
      }
    }
    ReadableHeld(target, results, |results|, decoder, decoded.transactions);
    ok := !seen.duplicateTask;
  }
}
