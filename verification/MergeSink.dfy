/** The MERGE sink: every operation refines the row-at-a-time reference. */
module MergeSink {
  import opened Bytes
  import opened MergeRows
  import opened MergeSelection

  /** The target table; `take` fetches rows by id as a stream of batches. */
  datatype Dataset = Dataset(rows: nat -> Row, width: nat, take: seq<nat> -> Option<seq<seq<Row>>>)

  function Flatten(batches: seq<seq<Row>>): seq<Row> {
    if batches == [] then [] else Flatten(batches[..|batches| - 1]) + batches[|batches| - 1]
  }

  function RowsOf(d: Dataset, ids: seq<nat>): seq<Row> {
    seq(|ids|, i requires 0 <= i < |ids| => d.rows(ids[i]))
  }

  lemma {:induction false} FlattenPrefix(batches: seq<seq<Row>>, b: nat)
    requires b <= |batches|
    ensures |Flatten(batches[..b])| <= |Flatten(batches)|
    decreases |batches|
  {
    if b == |batches| {
      assert batches[..b] == batches;
    } else {
      FlattenPrefix(batches[..|batches| - 1], b);
      assert batches[..|batches| - 1][..b] == batches[..b];
    }
  }

  /** A take stream of the requested length yields the requested rows, in order. */
  ghost predicate Honest(d: Dataset) {
    && (forall id: nat :: |d.rows(id)| == d.width)
    && (forall ids | d.take(ids).Some? ::
          && (forall b, r | 0 <= b < |d.take(ids).value| && 0 <= r < |d.take(ids).value[b]| ::
                |d.take(ids).value[b][r]| == d.width)
          && (|Flatten(d.take(ids).value)| == |ids| ==> Flatten(d.take(ids).value) == RowsOf(d, ids)))
  }

  type Table = d: Dataset | Honest(d) ghost witness Dataset((id: nat) => [], 0, (ids: seq<nat>) => None)

  method ExtractRowIds(rows: seq<Input>) returns (ids: Option<seq<nat>>)
    ensures ids.Some? <==> forall i | 0 <= i < |rows| :: rows[i].rowId.Some? && rows[i].rowId.value >= 0
    ensures ids.Some? ==>
        |ids.value| == |rows|
        && forall i | 0 <= i < |rows| :: Some(ids.value[i] as int) == rows[i].rowId
  {
    var out: seq<nat> := [];
    for i := 0 to |rows|
      invariant |out| == i
      invariant forall j | 0 <= j < i :: Some(out[j] as int) == rows[j].rowId
    {
      if rows[i].rowId.None? || rows[i].rowId.value < 0 {
        return None;
      }
      out := out + [rows[i].rowId.value];
    }
    return Some(out);
  }

  lemma Associate<T>(a: seq<T>, b: seq<T>, c: seq<T>)
    ensures a + b + c == a + (b + c)
  {
  }

  function IdSet(ids: seq<nat>, n: nat): set<nat>
    requires n <= |ids|
  {
    set i | 0 <= i < n :: ids[i]
  }

  /** Positions among the first `n` whose id is new. */
  function FirstPositions(ids: seq<nat>, seen: set<nat>, n: nat): (r: seq<nat>)
    requires n <= |ids|
    ensures forall i | 0 <= i < |r| :: r[i] < n
  {
    if n == 0 then []
    else FirstPositions(ids, seen, n - 1) + if ids[n - 1] in seen + IdSet(ids, n - 1) then [] else [n - 1]
  }

  function IdsAt(ids: seq<nat>, positions: seq<nat>): seq<nat>
    requires forall i | 0 <= i < |positions| :: positions[i] < |ids|
  {
    seq(|positions|, i requires 0 <= i < |positions| => ids[positions[i]])
  }

  function PatchedAt(d: Dataset, kind: Kind, rows: seq<Input>, ids: seq<nat>, positions: seq<nat>): seq<Row>
    requires kind.Update? && |ids| == |rows|
    requires forall i | 0 <= i < |positions| :: positions[i] < |ids|
  {
    seq(|positions|, i requires 0 <= i < |positions| => PatchAll(d.rows(ids[positions[i]]), kind, rows[positions[i]]))
  }

  /** `ids` are the target rows of `rows`. */
  predicate Targets(rows: seq<Input>, ids: seq<nat>) {
    |ids| == |rows| && forall i | 0 <= i < |rows| :: Some(ids[i] as int) == rows[i].rowId
  }

  /** What a batch of UPDATE or DELETE rows does at once: the new ids, and the patched rows behind them. */
  function MutateAll(d: Dataset, s: Effects, kind: Kind, rows: seq<Input>, ids: seq<nat>, n: nat): Effects
    requires (kind.Update? || kind.Delete?) && Targets(rows, ids) && n <= |rows|
  {
    var positions := FirstPositions(ids, s.touched, n);
    Effects(s.touched + IdSet(ids, n), s.deleted + IdsAt(ids, positions),
            if kind.Update? then s.inserted + PatchedAt(d, kind, rows, ids, positions) else s.inserted, s.changed + n)
  }

  lemma IdSetStep(ids: seq<nat>, n: nat)
    requires n < |ids|
    ensures IdSet(ids, n + 1) == IdSet(ids, n) + {ids[n]}
  {
  }

  lemma IdsAtStep(ids: seq<nat>, positions: seq<nat>, n: nat)
    requires n < |ids| && forall i | 0 <= i < |positions| :: positions[i] < |ids|
    ensures IdsAt(ids, positions + [n]) == IdsAt(ids, positions) + [ids[n]]
  {
  }

  lemma PatchedAtStep(d: Dataset, kind: Kind, rows: seq<Input>, ids: seq<nat>, positions: seq<nat>, n: nat)
    requires kind.Update? && |ids| == |rows| && n < |ids| && forall i | 0 <= i < |positions| :: positions[i] < |ids|
    ensures PatchedAt(d, kind, rows, ids, positions + [n])
            == PatchedAt(d, kind, rows, ids, positions) + [PatchAll(d.rows(ids[n]), kind, rows[n])]
  {
  }

  /** One more row of the batch is one more row absorbed. */
  lemma MutateStep(d: Dataset, s: Effects, kind: Kind, rows: seq<Input>, ids: seq<nat>, n: nat)
    requires (kind.Update? || kind.Delete?) && Targets(rows, ids) && n < |rows|
    ensures Mergeable(Event(kind, rows[n]))
    ensures MutateAll(d, s, kind, rows, ids, n + 1) ==
        Absorb(d.rows, MutateAll(d, s, kind, rows, ids, n), Event(kind, rows[n]))
  {
    var positions := FirstPositions(ids, s.touched, n);
    IdSetStep(ids, n);
    if ids[n] !in s.touched + IdSet(ids, n) {
      IdsAtStep(ids, positions, n);
      if kind.Update? {
        PatchedAtStep(d, kind, rows, ids, positions, n);
      }
    }
  }

  /** Mutating a batch at once has the effects of absorbing its rows one at a time. */
  lemma {:induction false} MutateBatch(d: Dataset, s: Effects, kind: Kind, rows: seq<Input>, ids: seq<nat>, n: nat)
    requires (kind.Update? || kind.Delete?) && Targets(rows, ids) && n <= |rows| && MergeableRows(kind, rows)
    ensures AbsorbRows(d.rows, s, kind, rows, n) == MutateAll(d, s, kind, rows, ids, n)
  {
    if n == 0 {
      MutateNone(d, s, kind, rows, ids);
    } else {
      MutateBatch(d, s, kind, rows, ids, n - 1);
      MutateNext(d, s, kind, rows, ids, n - 1);
    }
  }

  lemma MutateNext(d: Dataset, s: Effects, kind: Kind, rows: seq<Input>, ids: seq<nat>, n: nat)
    requires (kind.Update? || kind.Delete?) && Targets(rows, ids) && n < |rows| && MergeableRows(kind, rows)
    requires AbsorbRows(d.rows, s, kind, rows, n) == MutateAll(d, s, kind, rows, ids, n)
    ensures AbsorbRows(d.rows, s, kind, rows, n + 1) == MutateAll(d, s, kind, rows, ids, n + 1)
  {
    MutateStep(d, s, kind, rows, ids, n);
  }

  lemma MutateNone(d: Dataset, s: Effects, kind: Kind, rows: seq<Input>, ids: seq<nat>)
    requires (kind.Update? || kind.Delete?) && Targets(rows, ids)
    ensures MutateAll(d, s, kind, rows, ids, 0) == s
  {
  }

  function EvaluateAll(kind: Kind, rows: seq<Input>, n: nat): seq<Row>
    requires kind.Insert? && n <= |rows|
  {
    seq(n, i requires 0 <= i < n => Evaluate(kind.expressions, rows[i]))
  }

  lemma {:induction false} InsertBatch(d: Dataset, s: Effects, kind: Kind, rows: seq<Input>, n: nat)
    requires kind.Insert? && n <= |rows|
    ensures MergeableRows(kind, rows)
    ensures AbsorbRows(d.rows, s, kind, rows, n) ==
        s.(inserted := s.inserted + EvaluateAll(kind, rows, n), changed := s.changed + n)
  {
    if n != 0 {
      InsertBatch(d, s, kind, rows, n - 1);
      assert EvaluateAll(kind, rows, n) == EvaluateAll(kind, rows, n - 1) + [Evaluate(kind.expressions, rows[n - 1])];
    }
  }

  lemma {:induction false} IdleBatch(d: Dataset, s: Effects, rows: seq<Input>, n: nat)
    requires n <= |rows|
    ensures MergeableRows(DoNothing, rows) && AbsorbRows(d.rows, s, DoNothing, rows, n) == s
  {
    if n != 0 {
      IdleBatch(d, s, rows, n - 1);
    }
  }

  // Which batches can be carried out.

  predicate RowIdsPresent(rows: seq<Input>) {
    forall i | 0 <= i < |rows| :: rows[i].rowId.Some? && rows[i].rowId.value >= 0
  }

  predicate InTable(columns: seq<nat>, width: nat) {
    forall c | 0 <= c < |columns| :: columns[c] < width
  }

  lemma {:induction false} FirstPositionsAre(ids: seq<nat>, seen: set<nat>, n: nat, p: nat)
    requires n <= |ids|
    ensures p in FirstPositions(ids, seen, n) <==> p < n && ids[p] !in seen && ids[p] !in IdSet(ids, p)
  {
    if n != 0 {
      FirstPositionsAre(ids, seen, n - 1, p);
    }
  }

  /** Row `p` of a batch is the first on its target row exactly when its id was not seen before. */
  lemma FirstInBatch(events: seq<Event>, kind: Kind, rows: seq<Input>, ids: seq<nat>, p: nat)
    requires Valid(events) && (kind.Update? || kind.Delete?) && Targets(rows, ids) && p < |rows|
    ensures FirstOnRow(events + Batch(kind, rows), |events| + p)
        <==> ids[p] !in Touched(events) && ids[p] !in IdSet(ids, p)
  {
    var all := events + Batch(kind, rows);
    assert forall i | 0 <= i < |events| :: all[i] == events[i];
    assert forall i | 0 <= i <= p :: all[|events| + i] == Event(kind, rows[i]);
    if ids[p] in Touched(events) {
      var i :| 0 <= i < |events| && Mutates(events[i]) && TargetId(events[i]) == ids[p];
      assert all[i] == events[i];
    }
    if ids[p] in IdSet(ids, p) {
      var i :| 0 <= i < p && ids[i] == ids[p];
      assert all[|events| + i] == Event(kind, rows[i]);
    }
    forall i | 0 <= i < |events| + p && Mutates(all[i]) && all[i].input.rowId == all[|events| + p].input.rowId
      ensures ids[p] in Touched(events) || ids[p] in IdSet(ids, p)
    {
      if i < |events| {
        assert TargetId(events[i]) == ids[p];
      } else {
        assert ids[i - |events|] == ids[p];
      }
    }
  }

  /** A batch can be carried out after the events exactly when each of its rows can. */
  lemma BatchPossible(width: nat, events: seq<Event>, kind: Kind, rows: seq<Input>)
    requires AllPossible(width, events)
    ensures AllPossible(width, events + Batch(kind, rows))
        <==> forall j | |events| <= j < |events| + |rows| :: Possible(width, events + Batch(kind, rows), j)
  {
    var all := events + Batch(kind, rows);
    forall j | 0 <= j < |events|
      ensures Possible(width, all, j)
    {
      PossiblePrefix(width, events, all, j);
    }
  }

  /** The rows of an UPDATE batch as events, and which of them are the first on their target rows. */
  lemma UpdateEvents(events: seq<Event>, kind: Kind, rows: seq<Input>, ids: seq<nat>, j: nat)
    requires Valid(events) && kind.Update? && Targets(rows, ids) && |events| <= j < |events| + |rows|
    ensures var all, i := events + Batch(kind, rows), j - |events|;
            && all[j] == Event(kind, rows[i]) && rows[i].rowId == Some(ids[i] as int)
            && (FirstOnRow(all, j) <==> i in FirstPositions(ids, Touched(events), |ids|))
  {
    FirstInBatch(events, kind, rows, ids, j - |events|);
    FirstPositionsAre(ids, Touched(events), |ids|, j - |events|);
  }

  /** An UPDATE batch that can be carried out. */
  lemma UpdateNeeds(width: nat, events: seq<Event>, kind: Kind, rows: seq<Input>, ids: seq<nat>)
    requires Valid(events) && kind.Update? && Targets(rows, ids)
    requires AllPossible(width, events + Batch(kind, rows))
    ensures FirstPositions(ids, Touched(events), |ids|) == [] || InTable(kind.columns, width)
  {
    var positions := FirstPositions(ids, Touched(events), |ids|);
    if positions != [] {
      assert positions[0] in positions;
      UpdateEvents(events, kind, rows, ids, |events| + positions[0]);
      assert Possible(width, events + Batch(kind, rows), |events| + positions[0]);
    }
  }

  lemma UpdatePossible(width: nat, events: seq<Event>, kind: Kind, rows: seq<Input>, ids: seq<nat>)
    requires AllPossible(width, events) && Valid(events) && kind.Update? && Targets(rows, ids)
    requires |kind.columns| == |kind.expressions| && kind.expressions != []
    requires FirstPositions(ids, Touched(events), |ids|) == [] || InTable(kind.columns, width)
    ensures AllPossible(width, events + Batch(kind, rows))
  {
    BatchPossible(width, events, kind, rows);
    forall j | |events| <= j < |events| + |rows|
      ensures Possible(width, events + Batch(kind, rows), j)
    {
      UpdateEvents(events, kind, rows, ids, j);
    }
  }

  lemma UpdateDecided(width: nat, events: seq<Event>, kind: Kind, rows: seq<Input>, ids: seq<nat>)
    requires AllPossible(width, events) && Valid(events) && kind.Update? && Targets(rows, ids)
    requires |kind.columns| == |kind.expressions| && kind.expressions != []
    ensures AllPossible(width, events + Batch(kind, rows))
        <==> FirstPositions(ids, Touched(events), |ids|) == [] || InTable(kind.columns, width)
  {
    if AllPossible(width, events + Batch(kind, rows)) {
      UpdateNeeds(width, events, kind, rows, ids);
    } else if FirstPositions(ids, Touched(events), |ids|) == [] || InTable(kind.columns, width) {
      UpdatePossible(width, events, kind, rows, ids);
    }
  }

  lemma DeletePossible(width: nat, events: seq<Event>, rows: seq<Input>)
    requires AllPossible(width, events)
    ensures AllPossible(width, events + Batch(Delete, rows)) <==> RowIdsPresent(rows)
  {
    BatchPossible(width, events, Delete, rows);
    var all := events + Batch(Delete, rows);
    assert forall j | |events| <= j < |all| :: all[j] == Event(Delete, rows[j - |events|]);
    if !RowIdsPresent(rows) {
      var i :| 0 <= i < |rows| && !(rows[i].rowId.Some? && rows[i].rowId.value >= 0);
      assert !Possible(width, all, |events| + i);
    }
  }

  lemma RowIdsNeeded(width: nat, events: seq<Event>, kind: Kind, rows: seq<Input>)
    requires AllPossible(width, events) && kind.Update? && !RowIdsPresent(rows)
    ensures !AllPossible(width, events + Batch(kind, rows))
  {
    var all := events + Batch(kind, rows);
    var i :| 0 <= i < |rows| && !(rows[i].rowId.Some? && rows[i].rowId.value >= 0);
    assert all[|events| + i] == Event(kind, rows[i]);
    assert !Possible(width, all, |events| + i);
  }

  lemma UpdateShaped(width: nat, events: seq<Event>, kind: Kind, rows: seq<Input>)
    requires kind.Update? && rows != [] && (|kind.columns| != |kind.expressions| || kind.expressions == [])
    ensures !AllPossible(width, events + Batch(kind, rows))
  {
    var all := events + Batch(kind, rows);
    assert all[|events|] == Event(kind, rows[0]);
    assert !Possible(width, all, |events|);
  }

  lemma InsertPossible(width: nat, events: seq<Event>, kind: Kind, rows: seq<Input>)
    requires AllPossible(width, events) && kind.Insert?
    ensures AllPossible(width, events + Batch(kind, rows))
        <==> rows == [] || (|kind.expressions| == width && kind.expressions != [])
  {
    BatchPossible(width, events, kind, rows);
    var all := events + Batch(kind, rows);
    assert forall j | |events| <= j < |all| :: all[j] == Event(kind, rows[j - |events|]);
    if rows != [] && !(|kind.expressions| == width && kind.expressions != []) {
      assert !Possible(width, all, |events|);
    }
  }

  lemma IdlePossible(width: nat, events: seq<Event>, rows: seq<Input>)
    requires AllPossible(width, events)
    ensures AllPossible(width, events + Batch(DoNothing, rows))
    ensures rows != [] ==> !AllPossible(width, events + Batch(RaiseError, rows))
  {
    BatchPossible(width, events, DoNothing, rows);
    var idle := events + Batch(DoNothing, rows);
    assert forall j | |events| <= j < |idle| :: idle[j] == Event(DoNothing, rows[j - |events|]);
    if rows != [] {
      var raised := events + Batch(RaiseError, rows);
      assert raised[|events|] == Event(RaiseError, rows[0]);
      assert !Possible(width, raised, |events|);
    }
  }

  /** The taken rows so far, patched, unless there are too many. */
  predicate PatchedRows(kind: Kind, rows: seq<Input>, positions: seq<nat>, taken: seq<Row>, patched: seq<Row>)
    requires kind.Update? && forall i | 0 <= i < |positions| :: positions[i] < |rows|
  {
    && |patched| == |taken|
    && (|taken| <= |positions| ==>
        forall i | 0 <= i < |taken| :: patched[i] == PatchAll(taken[i], kind, rows[positions[i]]))
  }

  lemma FlattenStep(batches: seq<seq<Row>>, b: nat)
    requires b < |batches|
    ensures Flatten(batches[..b + 1]) == Flatten(batches[..b]) + batches[b]
    ensures |Flatten(batches[..b])| + |batches[b]| <= |Flatten(batches)|
  {
    assert batches[..b + 1][..b] == batches[..b];
    FlattenPrefix(batches, b + 1);
  }

  lemma AllPatched(d: Table, kind: Kind, rows: seq<Input>, ids: seq<nat>, positions: seq<nat>, added: seq<Row>)
    requires kind.Update? && |ids| == |rows| && forall i | 0 <= i < |positions| :: positions[i] < |ids|
    requires var wanted := IdsAt(ids, positions);
             && d.take(wanted).Some? && |Flatten(d.take(wanted).value)| == |positions|
             && PatchedRows(kind, rows, positions, Flatten(d.take(wanted).value), added)
    ensures added == PatchedAt(d, kind, rows, ids, positions)
  {
    var wanted := IdsAt(ids, positions);
    assert Flatten(d.take(wanted).value) == RowsOf(d, wanted);
  }

  /** Overwrites the update columns of one taken batch, column by column. */
  method PatchBatch(width: nat, taken: seq<Row>, offset: nat, kind: Kind, rows: seq<Input>, inputs: seq<nat>)
    returns (ok: bool, patched: seq<Row>)
    requires kind.Update? && |kind.columns| == |kind.expressions|
    requires forall r | 0 <= r < |taken| :: |taken[r]| == width
    requires forall i | 0 <= i < |inputs| :: inputs[i] < |rows|
    ensures ok <==>
        && InTable(kind.columns, width)
        && (kind.columns == [] || taken == [] || offset + |taken| <= |inputs|)
    ensures ok ==> |patched| == |taken|
    ensures ok && offset + |taken| <= |inputs| ==>
              forall r | 0 <= r < |taken| :: patched[r] == PatchAll(taken[r], kind, rows[inputs[offset + r]])
  {
    var chunk := new Row[|taken|](r requires 0 <= r < |taken| => taken[r]);
    for c := 0 to |kind.columns|
      invariant InTable(kind.columns[..c], width) && (c == 0 || taken == [] || offset + |taken| <= |inputs|)
      invariant forall r | 0 <= r < |taken| :: |chunk[r]| == width
      invariant offset + |taken| <= |inputs| ==>
                  forall r | 0 <= r < |taken| ::
                    chunk[r] == Patch(taken[r], kind.columns, kind.expressions, rows[inputs[offset + r]], c)
    {
      if kind.columns[c] >= width {
        return false, [];
      }
      for r := 0 to |taken|
        invariant r == 0 || offset + r <= |inputs|
        invariant forall q | 0 <= q < |taken| :: |chunk[q]| == width
        invariant offset + |taken| <= |inputs| ==>
                    forall q | 0 <= q < |taken| ::
                      chunk[q] == Patch(taken[q], kind.columns, kind.expressions, rows[inputs[offset + q]], if q < r
                        then c + 1 else c)
      {
        if offset + r >= |inputs| {
          return false, [];
        }
        chunk[r] := chunk[r][kind.columns[c] := kind.expressions[c](rows[inputs[offset + r]])];
      }
    }
    return true, chunk[..];
  }

  /** Global state of the sink. `deleted` and `inserted` are what the merge transaction was given. */
  class MergeState {
    const target: Table
    /** Every call into the merge transaction and the take stream succeeds. */
    const reliable: bool
    var changedRows: nat
    var mutated: set<nat>
    var handleOpen: bool
    var deleted: seq<nat>
    var inserted: seq<Row>
    /** The actions taken so far, in (chunk, class, action, row) order. */
    ghost var events: seq<Event>

    ghost predicate Refines()
      reads this
    {
      Valid(events) && Done() == EffectsOf(target.rows, events) && AllPossible(target.width, events)
    }

    /** Nothing fails but what the actions themselves ask for. */
    ghost predicate Smooth() {
      reliable && forall ids :: target.take(ids).Some? && |Flatten(target.take(ids).value)| == |ids|
    }

    function Done(): Effects
      reads this
    {
      Effects(mutated, deleted, inserted, changedRows)
    }

    constructor (target: Table, reliable: bool)
      ensures Refines() && events == [] && !handleOpen && this.target == target && this.reliable == reliable
    {
      this.target, this.reliable := target, reliable;
      changedRows, mutated, handleOpen, deleted, inserted, events := 0, {}, false, [], [], [];
    }

    /** Remembers the ids and keeps the positions of those not seen before. */
    method Dedupe(ids: seq<nat>) returns (positions: seq<nat>)
      modifies this`mutated
      ensures positions == FirstPositions(ids, old(mutated), |ids|)
      ensures mutated == old(mutated) + IdSet(ids, |ids|)
    {
      positions := [];
      for i := 0 to |ids|
        invariant positions == FirstPositions(ids, old(mutated), i)
        invariant mutated == old(mutated) + IdSet(ids, i)
      {
        IdSetStep(ids, i);
        if ids[i] !in mutated {
          mutated := mutated + {ids[i]};
          positions := positions + [i];
        }
      }
    }

    method EnsureHandle() returns (ok: bool)
      modifies this`handleOpen
      ensures ok ==> handleOpen
      ensures old(handleOpen) || reliable ==> ok
    {
      if handleOpen {
        return true;
      }
      var failed: bool := *;
      ok := reliable || !failed;
      handleOpen := ok;
    }

    /** Patches one taken batch and gives it to the transaction. */
    method AddPatched(kind: Kind, rows: seq<Input>, positions: seq<nat>, batch: seq<Row>, taken: nat,
        ghost flat: seq<Row>, ghost added: seq<Row>)
        returns (ok: bool, ghost more: seq<Row>)
      requires kind.Update? && |kind.columns| == |kind.expressions| && taken == |flat|
      requires forall i | 0 <= i < |positions| :: positions[i] < |rows|
      requires forall r | 0 <= r < |batch| :: |batch[r]| == target.width
      requires PatchedRows(kind, rows, positions, flat, added)
      modifies this`inserted
      ensures ok ==> inserted == old(inserted) + more
      ensures ok ==> PatchedRows(kind, rows, positions, flat + batch, added + more)
      ensures ok ==> InTable(kind.columns, target.width)
      ensures reliable && InTable(kind.columns, target.width) && taken + |batch| <= |positions| ==> ok
    {
      var readFailed, addFailed: bool := *, *;
      if readFailed && !reliable {
        return false, [];
      }
      var patchOk, patched := PatchBatch(target.width, batch, taken, kind, rows, positions);
      if !patchOk || (addFailed && !reliable) {
        return false, [];
      }
      inserted := inserted + patched;
      ok, more := true, patched;
    }

    /** Fetches the target rows, patches them and gives them to the transaction. */
    method InsertPatched(kind: Kind, rows: seq<Input>, ids: seq<nat>, positions: seq<nat>) returns (ok: bool)
      requires kind.Update? && |kind.columns| == |kind.expressions| && |ids| == |rows|
      requires forall i | 0 <= i < |positions| :: positions[i] < |ids|
      modifies this`inserted
      ensures ok ==> inserted == old(inserted) + PatchedAt(target, kind, rows, ids, positions)
      ensures ok && positions != [] ==> InTable(kind.columns, target.width)
      ensures Smooth() && InTable(kind.columns, target.width) ==> ok
    {
      var wanted := IdsAt(ids, positions);
      var stream := target.take(wanted);
      if stream.None? {
        return false;
      }
      var batches := stream.value;
      var taken := 0;
      ghost var added: seq<Row> := [];
      for b := 0 to |batches|
        invariant taken == |Flatten(batches[..b])|
        invariant b > 0 ==> InTable(kind.columns, target.width)
        invariant inserted == old(inserted) + added
        invariant PatchedRows(kind, rows, positions, Flatten(batches[..b]), added)
      {
        FlattenStep(batches, b);
        ghost var more;
        ok, more := AddPatched(kind, rows, positions, batches[b], taken, Flatten(batches[..b]), added);
        if !ok {
          return;
        }
        added := added + more;
        taken := taken + |batches[b]|;
      }
      assert batches[..|batches|] == batches;
      if taken != |positions| {
        return false;
      }
      AllPatched(target, kind, rows, ids, positions, added);
      return true;
    }

    method HandleUpdate(kind: Kind, rows: seq<Input>) returns (ok: bool)
      requires Refines() && kind.Update?
      modifies this
      ensures ok ==> Refines() && events == old(events) + Batch(kind, rows)
      ensures Smooth() && rows != [] ==> (ok <==> AllPossible(target.width, old(events) + Batch(kind, rows)))
    {
      if kind.expressions == [] || |kind.columns| != |kind.expressions| {
        if rows != [] {
          UpdateShaped(target.width, events, kind, rows);
        }
        return false;
      }
      var extracted := ExtractRowIds(rows);
      if extracted.None? {
        RowIdsNeeded(target.width, events, kind, rows);
        return false;
      }
      var ids := extracted.value;
      var positions := Dedupe(ids);
      UpdateDecided(target.width, events, kind, rows, ids);
      if positions != [] {
        var handle := EnsureHandle();
        var addFailed: bool := *;
        if !handle || (addFailed && !reliable) {
          return false;
        }
        deleted := deleted + IdsAt(ids, positions);
        var patched := InsertPatched(kind, rows, ids, positions);
        if !patched {
          return false;
        }
      }
      Record(kind, rows, ids);
      return true;
    }

    method HandleDelete(rows: seq<Input>) returns (ok: bool)
      requires Refines()
      modifies this
      ensures ok ==> Refines() && events == old(events) + Batch(Delete, rows)
      ensures Smooth() ==> (ok <==> AllPossible(target.width, old(events) + Batch(Delete, rows)))
    {
      DeletePossible(target.width, events, rows);
      var extracted := ExtractRowIds(rows);
      if extracted.None? {
        return false;
      }
      var ids := extracted.value;
      var positions := Dedupe(ids);
      if positions != [] {
        var handle := EnsureHandle();
        var addFailed: bool := *;
        if !handle || (addFailed && !reliable) {
          return false;
        }
        deleted := deleted + IdsAt(ids, positions);
      }
      Record(Delete, rows, ids);
      return true;
    }

    /** Counts a batch whose deletes and inserts the transaction has received. */
    method Record(kind: Kind, rows: seq<Input>, ids: seq<nat>)
      requires Valid(events) && (kind.Update? || kind.Delete?) && Targets(rows, ids)
      requires Done().(changed := changedRows + |rows|) ==
          MutateAll(target, EffectsOf(target.rows, events), kind, rows, ids, |rows|)
      requires AllPossible(target.width, events + Batch(kind, rows))
      modifies this`changedRows, this`events
      ensures Refines() && events == old(events) + Batch(kind, rows)
    {
      assert MergeableRows(kind, rows);
      MutateBatch(target, EffectsOf(target.rows, events), kind, rows, ids, |rows|);
      AbsorbBatch(target.rows, events, kind, rows);
      changedRows := changedRows + |rows|;
      events := events + Batch(kind, rows);
    }

    /** Each input row adds one row, with the value of each expression in its place. */
    method HandleInsert(kind: Kind, rows: seq<Input>) returns (ok: bool)
      requires Refines() && kind.Insert?
      modifies this
      ensures ok ==> |inserted| == |old(inserted)| + |rows| && old(inserted) <= inserted
      ensures ok ==> forall i | 0 <= i < |rows| ::
                var r := inserted[|old(inserted)| + i];
                && |r| == |kind.expressions|
                && forall c | 0 <= c < |r| :: r[c] == kind.expressions[c](rows[i])
      ensures ok ==> Refines() && events == old(events) + Batch(kind, rows)
      ensures Smooth() && rows != [] ==> (ok <==> AllPossible(target.width, old(events) + Batch(kind, rows)))
    {
      InsertPossible(target.width, events, kind, rows);
      if kind.expressions == [] || |kind.expressions| != target.width {
        return false;
      }
      var handle := EnsureHandle();
      var addFailed: bool := *;
      if !handle || (addFailed && !reliable) {
        return false;
      }
      inserted := inserted + EvaluateAll(kind, rows, |rows|);
      changedRows := changedRows + |rows|;
      InsertBatch(target, EffectsOf(target.rows, events), kind, rows, |rows|);
      AbsorbBatch(target.rows, events, kind, rows);
      events := events + Batch(kind, rows);
      return true;
    }

    method HandleAction(kind: Kind, rows: seq<Input>) returns (ok: bool)
      requires Refines()
      modifies this
      ensures ok ==> Refines() && events == old(events) + Batch(kind, rows)
      ensures Smooth() && rows != [] ==> (ok <==> AllPossible(target.width, old(events) + Batch(kind, rows)))
    {
      IdlePossible(target.width, events, rows);
      match kind
      case Update(_, _) => ok := HandleUpdate(kind, rows);
      case Delete => ok := HandleDelete(rows);
      case Insert(_) => ok := HandleInsert(kind, rows);
      case DoNothing =>
        IdleBatch(target, EffectsOf(target.rows, events), rows, |rows|);
        AbsorbBatch(target.rows, events, kind, rows);
        events := events + Batch(kind, rows);
        ok := true;
      case RaiseError => ok := false;
    }
  }

  /** Selection vectors of one sink thread; `currentSel` is re-pointed at other vectors, never copied. */
  class LocalState {
    const matchedSel: array<nat>
    const byTargetSel: array<nat>
    const bySourceSel: array<nat>
    const selectedSel: array<nat>
    const remainingSel: array<nat>
    var currentSel: array<nat>

    predicate Separate() {
      && matchedSel != byTargetSel && matchedSel != bySourceSel && byTargetSel != bySourceSel
      && selectedSel != matchedSel && selectedSel != byTargetSel && selectedSel != bySourceSel
      && remainingSel != matchedSel && remainingSel != byTargetSel && remainingSel != bySourceSel
      && selectedSel != remainingSel
    }

    predicate Holds(n: nat) {
      && n <= matchedSel.Length && n <= byTargetSel.Length && n <= bySourceSel.Length
      && n <= selectedSel.Length && n <= remainingSel.Length
    }

    constructor (capacity: nat)
      ensures Separate() && Holds(capacity)
      ensures fresh(matchedSel) && fresh(byTargetSel) && fresh(bySourceSel) && fresh(selectedSel) && fresh(remainingSel)
    {
      matchedSel, byTargetSel, bySourceSel := new nat[capacity], new nat[capacity], new nat[capacity];
      selectedSel, remainingSel, currentSel := new nat[capacity], new nat[capacity], new nat[capacity];
    }
  }

  function Slice(chunk: seq<Input>, sel: Sel): seq<Input>
    requires InRange(chunk, sel)
  {
    seq(|sel|, i requires 0 <= i < |sel| => chunk[sel[i]])
  }

  /** Each selected row goes to the first action that applies to it: the events of the first `k` actions. */
  function DispatchEvents(chunk: seq<Input>, actions: seq<Action>, sel: Sel, k: nat): seq<Event>
    requires InRange(chunk, sel) && k <= |actions|
  {
    if k == 0 then []
    else
      DispatchEvents(chunk, actions, sel, k - 1)
      + Batch(actions[k - 1].kind, Slice(chunk, Select(chunk, Claims(actions, k - 1), true, sel)))
  }

  lemma {:induction false} DispatchDone(chunk: seq<Input>, actions: seq<Action>, sel: Sel, k: nat, n: nat)
    requires InRange(chunk, sel) && k <= n <= |actions|
    requires Select(chunk, Remaining(actions, k), true, sel) == []
    ensures DispatchEvents(chunk, actions, sel, n) == DispatchEvents(chunk, actions, sel, k)
  {
    if k < n {
      DispatchDone(chunk, actions, sel, k, n - 1);
      NothingLeft(chunk, actions, k, n - 1, sel);
    }
  }

  /** After `k` actions the dispatched rows have been handled and `current` are the rows left. */
  ghost predicate Progress(chunk: seq<Input>, actions: seq<Action>, rows: Sel, k: nat, before: seq<Event>,
      after: seq<Event>, current: Sel)
    requires InRange(chunk, rows) && k <= |actions|
  {
    && current == Select(chunk, Remaining(actions, k), true, rows)
    && after == before + DispatchEvents(chunk, actions, rows, k)
  }

  lemma ProgressStart(chunk: seq<Input>, actions: seq<Action>, rows: Sel, before: seq<Event>)
    requires InRange(chunk, rows)
    ensures Progress(chunk, actions, rows, 0, before, before, rows)
  {
    SelectAll(chunk, Remaining(actions, 0), rows);
  }

  lemma ProgressSplit(chunk: seq<Input>, actions: seq<Action>, rows: Sel, k: nat, before: seq<Event>, after: seq<Event>,
      current: Sel)
    requires InRange(chunk, rows) && InRange(chunk, current) && k < |actions| && actions[k].condition.Some?
    requires Progress(chunk, actions, rows, k, before, after, current)
    ensures var selected := Select(chunk, actions[k].condition.value, true, current);
            Progress(chunk, actions, rows, k + 1, before, after + Batch(actions[k].kind, Slice(chunk, selected)),
                     Select(chunk, actions[k].condition.value, false, current))
  {
    DispatchStep(chunk, actions, k, rows);
    Associate(before, DispatchEvents(chunk, actions, rows, k),
              Batch(actions[k].kind, Slice(chunk, Select(chunk, Claims(actions, k), true, rows))));
  }

  /** When no row is accepted, the rejected rows are all rows in place. */
  lemma {:induction false} AllRejected(chunk: seq<Input>, cond: Input -> bool, sel: Sel)
    requires InRange(chunk, sel) && Select(chunk, cond, true, sel) == []
    ensures Select(chunk, cond, false, sel) == sel
  {
    if sel != [] {
      AllRejected(chunk, cond, sel[..|sel| - 1]);
      assert sel == sel[..|sel| - 1] + [sel[|sel| - 1]];
    }
  }

  lemma ProgressRest(chunk: seq<Input>, actions: seq<Action>, rows: Sel, k: nat, before: seq<Event>, after: seq<Event>,
      current: Sel)
    requires InRange(chunk, rows) && InRange(chunk, current) && k < |actions| && actions[k].condition.None?
    requires Progress(chunk, actions, rows, k, before, after, current)
    ensures Progress(chunk, actions, rows, k + 1, before, after + Batch(actions[k].kind, Slice(chunk, current)), [])
  {
    DispatchRest(chunk, actions, k, rows);
  }

  lemma ProgressEnd(chunk: seq<Input>, actions: seq<Action>, rows: Sel, k: nat, before: seq<Event>, after: seq<Event>)
    requires InRange(chunk, rows) && k <= |actions| && Progress(chunk, actions, rows, k, before, after, [])
    ensures after == before + DispatchEvents(chunk, actions, rows, |actions|)
  {
    DispatchDone(chunk, actions, rows, k, |actions|);
  }

  /** Offers the current rows to an action with a condition; what it rejects becomes current. */
  method Offer(chunk: seq<Input>, action: Action, count: nat, ghost current: Sel, g: MergeState, l: LocalState)
    returns (ok: bool, left: nat)
    requires g.Refines() && l.Separate() && l.Holds(count) && action.condition.Some?
    requires l.currentSel != l.selectedSel && count <= l.currentSel.Length
    requires l.currentSel[..count] == current && InRange(chunk, current)
    modifies g, l`currentSel, l.selectedSel, l.remainingSel
    ensures ok ==> g.Refines()
    ensures ok ==>
        g.events == old(g.events)
        + Batch(action.kind, Slice(chunk, Select(chunk, action.condition.value, true, current)))
    ensures g.Smooth() ==>
        (ok <==> AllPossible(g.target.width, old(g.events)
          + Batch(action.kind, Slice(chunk, Select(chunk, action.condition.value, true, current)))))
    ensures l.currentSel == old(l.currentSel) || l.currentSel == l.remainingSel
    ensures left <= count && (ok ==> l.currentSel[..left] == Select(chunk, action.condition.value, false, current))
  {
    ghost var picked := Slice(chunk, Select(chunk, action.condition.value, true, current));
    ghost var next := g.events + Batch(action.kind, picked);
    ghost var fits := AllPossible(g.target.width, next);
    var accepted := SelectExpression(chunk, action.condition.value, l.selectedSel, l.remainingSel, l.currentSel, count);
    if accepted == 0 {
      AllRejected(chunk, action.condition.value, current);
      assert next == g.events;
      return true, count;
    }
    assert Slice(chunk, l.selectedSel[..accepted]) == picked != [];
    ok := g.HandleAction(action.kind, Slice(chunk, l.selectedSel[..accepted]));
    assert g.Smooth() ==> (ok <==> fits);
    left := count - accepted;
    l.currentSel := l.remainingSel;
  }

  /** Gives all current rows to an action without a condition. */
  method TakeRest(chunk: seq<Input>, action: Action, count: nat, ghost current: Sel, g: MergeState, l: LocalState)
      returns (ok: bool)
    requires g.Refines() && 0 < count <= l.currentSel.Length
    requires l.currentSel[..count] == current && InRange(chunk, current)
    modifies g
    ensures ok ==> g.Refines() && g.events == old(g.events) + Batch(action.kind, Slice(chunk, current))
    ensures g.Smooth() ==>
        (ok <==> AllPossible(g.target.width, old(g.events) + Batch(action.kind, Slice(chunk, current))))
  {
    ok := g.HandleAction(action.kind, Slice(chunk, l.currentSel[..count]));
  }

  /** The next action, with a condition: what it claims is handled, what it rejects becomes current. */
  method OfferNext(chunk: seq<Input>, actions: seq<Action>, k: nat, ghost rows: Sel, count: nat,
      ghost before: seq<Event>,
                   ghost current: Sel, g: MergeState, l: LocalState) returns (ok: bool, left: nat, ghost current': Sel)
    requires g.Refines() && l.Separate() && l.Holds(count) && k < |actions| && actions[k].condition.Some?
    requires l.currentSel != l.selectedSel && count <= l.currentSel.Length
    requires l.currentSel[..count] == current && InRange(chunk, current) && InRange(chunk, rows)
    requires Progress(chunk, actions, rows, k, before, g.events, current)
    modifies g, l`currentSel, l.selectedSel, l.remainingSel
    ensures l.currentSel == old(l.currentSel) || l.currentSel == l.remainingSel
    ensures left <= count
    ensures ok ==> g.Refines() && l.currentSel[..left] == current' && InRange(chunk, current')
    ensures ok ==> Progress(chunk, actions, rows, k + 1, before, g.events, current')
    ensures g.Smooth() ==>
        (ok <==> AllPossible(g.target.width, before + DispatchEvents(chunk, actions, rows, k + 1)))
  {
    ProgressSplit(chunk, actions, rows, k, before, g.events, current);
    ok, left := Offer(chunk, actions[k], count, current, g, l);
    current' := Select(chunk, actions[k].condition.value, false, current);
  }

  /** The next action, without a condition: it is the last to get rows. */
  method TakeNext(chunk: seq<Input>, actions: seq<Action>, k: nat, ghost rows: Sel, count: nat,
      ghost before: seq<Event>, ghost current: Sel, g: MergeState, l: LocalState) returns (ok: bool)
    requires g.Refines() && k < |actions| && actions[k].condition.None? && 0 < count <= l.currentSel.Length
    requires l.currentSel[..count] == current && InRange(chunk, current) && InRange(chunk, rows)
    requires Progress(chunk, actions, rows, k, before, g.events, current)
    modifies g
    ensures ok ==> g.Refines() && g.events == before + DispatchEvents(chunk, actions, rows, |actions|)
    ensures g.Smooth() ==>
        (ok <==> AllPossible(g.target.width, before + DispatchEvents(chunk, actions, rows, |actions|)))
  {
    ProgressRest(chunk, actions, rows, k, before, g.events, current);
    ProgressEnd(chunk, actions, rows, k + 1, before, g.events + Batch(actions[k].kind, Slice(chunk, current)));
    ok := TakeRest(chunk, actions[k], count, current, g, l);
  }

  lemma {:induction false} DispatchPrefix(chunk: seq<Input>, actions: seq<Action>, sel: Sel, k: nat, n: nat)
    requires InRange(chunk, sel) && k <= n <= |actions|
    ensures DispatchEvents(chunk, actions, sel, k) <= DispatchEvents(chunk, actions, sel, n)
  {
    if k < n {
      DispatchPrefix(chunk, actions, sel, k, n - 1);
    }
  }

  /** If the first actions cannot be carried out, neither can all. */
  lemma DispatchFails(width: nat, before: seq<Event>, chunk: seq<Input>, actions: seq<Action>, sel: Sel, k: nat)
    requires InRange(chunk, sel) && k <= |actions|
    requires !AllPossible(width, before + DispatchEvents(chunk, actions, sel, k))
    ensures !AllPossible(width, before + DispatchEvents(chunk, actions, sel, |actions|))
  {
    DispatchPrefix(chunk, actions, sel, k, |actions|);
    var some, all := DispatchEvents(chunk, actions, sel, k), DispatchEvents(chunk, actions, sel, |actions|);
    assert before + some <= before + all;
    if AllPossible(width, before + all) {
      AllPossiblePrefix(width, before + some, before + all);
    }
  }

  method ProcessRows(chunk: seq<Input>, initialSel: array<nat>, initialCount: nat, ghost rows: Sel,
      actions: seq<Action>, g: MergeState, l: LocalState) returns (ok: bool)
    requires g.Refines() && l.Separate() && l.Holds(initialCount)
    requires initialSel != l.selectedSel && initialSel != l.remainingSel && initialCount <= initialSel.Length
    requires initialSel[..initialCount] == rows && InRange(chunk, rows)
    modifies g, l`currentSel, l.selectedSel, l.remainingSel
    ensures ok ==> g.Refines() && g.events == old(g.events) + DispatchEvents(chunk, actions, rows, |actions|)
    ensures g.Smooth() ==>
        (ok <==> AllPossible(g.target.width, old(g.events) + DispatchEvents(chunk, actions, rows, |actions|)))
  {
    ProgressStart(chunk, actions, rows, g.events);
    if initialCount == 0 {
      ProgressEnd(chunk, actions, rows, 0, g.events, g.events);
      return true;
    }
    var currentCount: nat := initialCount;
    l.currentSel := initialSel;
    ghost var current := rows;
    for k := 0 to |actions|
      invariant g.Refines()
      invariant l.currentSel == initialSel || l.currentSel == l.remainingSel
      invariant currentCount <= initialCount
      invariant l.currentSel[..currentCount] == current && InRange(chunk, current)
      invariant Progress(chunk, actions, rows, k, old(g.events), g.events, current)
    {
      if currentCount == 0 {
        ProgressEnd(chunk, actions, rows, k, old(g.events), g.events);
        return true;
      }
      if actions[k].condition.None? {
        ok := TakeNext(chunk, actions, k, rows, currentCount, old(g.events), current, g, l);
        return;
      }
      ok, currentCount, current := OfferNext(chunk, actions, k, rows, currentCount, old(g.events), current, g, l);
      if !ok {
        if g.Smooth() {
          DispatchFails(g.target.width, old(g.events), chunk, actions, rows, k + 1);
        }
        return;
      }
    }
    return true;
  }

  datatype Actions = Actions(matched: seq<Action>, byTarget: seq<Action>, bySource: seq<Action>)

  function ClassEvents(chunk: seq<Input>, hasMarker: bool, c: Class, actions: seq<Action>): seq<Event> {
    DispatchEvents(chunk, actions, ClassRows(chunk, hasMarker, c, |chunk|), |actions|)
  }

  /** The reference order of one chunk: matched rows, then rows without target, then rows without source. */
  function SinkEvents(chunk: seq<Input>, hasMarker: bool, actions: Actions): seq<Event> {
    ClassEvents(chunk, hasMarker, Matched, actions.matched)
    + ClassEvents(chunk, hasMarker, NotMatchedByTarget, actions.byTarget)
    + ClassEvents(chunk, hasMarker, NotMatchedBySource, actions.bySource)
  }

  method Sink(chunk: seq<Input>, hasMarker: bool, actions: Actions, g: MergeState, l: LocalState) returns (ok: bool)
    requires g.Refines() && l.Separate() && l.Holds(|chunk|)
    modifies g, l, l.matchedSel, l.byTargetSel, l.bySourceSel, l.selectedSel, l.remainingSel
    ensures ok ==> g.Refines() && g.events == old(g.events) + SinkEvents(chunk, hasMarker, actions)
    ensures g.Smooth() ==>
        (ok <==> AllPossible(g.target.width, old(g.events) + SinkEvents(chunk, hasMarker, actions)))
  {
    var m, t, s := ComputeMatches(chunk, hasMarker, l.matchedSel, l.byTargetSel, l.bySourceSel);
    ghost var e0 := g.events;
    ok := ProcessRows(chunk, l.matchedSel, m, ClassRows(chunk, hasMarker, Matched, |chunk|), actions.matched, g, l);
    if !ok {
      SinkFails(g.target.width, e0, chunk, hasMarker, actions);
      return;
    }
    ghost var e1 := g.events;
    ok := ProcessRows(chunk, l.byTargetSel, t, ClassRows(chunk, hasMarker, NotMatchedByTarget, |chunk|),
      actions.byTarget, g, l);
    if !ok {
      SinkFails(g.target.width, e0, chunk, hasMarker, actions);
      return;
    }
    ghost var e2 := g.events;
    ok := ProcessRows(chunk, l.bySourceSel, s, ClassRows(chunk, hasMarker, NotMatchedBySource, |chunk|),
      actions.bySource, g, l);
    SinkOrder(e0, e1, e2, e2 + ClassEvents(chunk, hasMarker, NotMatchedBySource, actions.bySource), chunk, hasMarker,
              actions);
  }

  /** If the matched rows cannot be processed, or the rows without a target after them, the chunk cannot. */
  lemma SinkFails(width: nat, before: seq<Event>, chunk: seq<Input>, hasMarker: bool, actions: Actions)
    ensures AllPossible(width, before + SinkEvents(chunk, hasMarker, actions)) ==>
        && AllPossible(width, before + ClassEvents(chunk, hasMarker, Matched, actions.matched))
        && AllPossible(width, before + ClassEvents(chunk, hasMarker, Matched, actions.matched)
          + ClassEvents(chunk, hasMarker, NotMatchedByTarget, actions.byTarget))
  {
    var m := ClassEvents(chunk, hasMarker, Matched, actions.matched);
    var t := ClassEvents(chunk, hasMarker, NotMatchedByTarget, actions.byTarget);
    var all := before + SinkEvents(chunk, hasMarker, actions);
    if AllPossible(width, all) {
      assert before + m <= all && before + m + t <= all;
      AllPossiblePrefix(width, before + m, all);
      AllPossiblePrefix(width, before + m + t, all);
    }
  }

  lemma SinkOrder(e0: seq<Event>, e1: seq<Event>, e2: seq<Event>, e3: seq<Event>, chunk: seq<Input>, hasMarker: bool,
      actions: Actions)
    requires e1 == e0 + ClassEvents(chunk, hasMarker, Matched, actions.matched)
    requires e2 == e1 + ClassEvents(chunk, hasMarker, NotMatchedByTarget, actions.byTarget)
    requires e3 == e2 + ClassEvents(chunk, hasMarker, NotMatchedBySource, actions.bySource)
    ensures e3 == e0 + SinkEvents(chunk, hasMarker, actions)
  {
  }
}
