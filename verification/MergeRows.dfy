/** MERGE INTO, row at a time: the reference that the chunked sink refines. */
module MergeRows {
  import opened Bytes

  /** Column values are opaque codes. */
  type Value = int
  type Row = seq<Value>

  /** A row of the join of source and target: the target row id is NULL when there is no target row. */
  datatype Input = Input(sourceValid: bool, rowId: Option<int>, cells: seq<Value>)

  type Expression = Input -> Value

  datatype Kind =
    | Update(columns: seq<nat>, expressions: seq<Expression>)
    | Delete
    | Insert(expressions: seq<Expression>)
    | DoNothing
    | RaiseError

  datatype Action = Action(kind: Kind, condition: Option<Input -> bool>)

  datatype Class = Matched | NotMatchedByTarget | NotMatchedBySource

  function Classify(hasMarker: bool, r: Input): Class {
    if hasMarker && !r.sourceValid then NotMatchedBySource
    else if r.rowId.None? then NotMatchedByTarget
    else Matched
  }

  predicate Applies(a: Action, r: Input) {
    a.condition.None? || a.condition.value(r)
  }

  /** No action before the `k`th applies to the row. */
  predicate Unclaimed(actions: seq<Action>, k: nat, r: Input)
    requires k <= |actions|
  {
    forall j | 0 <= j < k :: !Applies(actions[j], r)
  }

  predicate FirstMatch(actions: seq<Action>, k: nat, r: Input)
    requires k < |actions|
  {
    Unclaimed(actions, k, r) && Applies(actions[k], r)
  }

  /** One action taken on one input row. */
  datatype Event = Event(kind: Kind, input: Input)

  predicate Mutates(e: Event) {
    e.kind.Update? || e.kind.Delete?
  }

  predicate Mergeable(e: Event) {
    && !e.kind.RaiseError?
    && (Mutates(e) ==> e.input.rowId.Some? && e.input.rowId.value >= 0)
  }

  function TargetId(e: Event): nat
    requires Mutates(e) && Mergeable(e)
  {
    e.input.rowId.value
  }

  predicate Valid(events: seq<Event>) {
    forall i | 0 <= i < |events| :: Mergeable(events[i])
  }

  /** Target rows an UPDATE or DELETE has reached. */
  function Touched(events: seq<Event>): set<nat>
    requires Valid(events)
  {
    set i | 0 <= i < |events| && Mutates(events[i]) :: TargetId(events[i])
  }

  /** The event is the first to reach its target row. */
  predicate FirstTouch(before: seq<Event>, e: Event)
    requires Valid(before) && Mergeable(e)
  {
    Mutates(e) && TargetId(e) !in Touched(before)
  }

  /** A target row with the first `n` update expressions stored in their columns. */
  function Patch(row: Row, columns: seq<nat>, expressions: seq<Expression>, input: Input, n: nat): (r: Row)
    requires n <= |columns|
    ensures |r| == |row|
  {
    if n == 0 then row
    else
      var before := Patch(row, columns, expressions, input, n - 1);
      if columns[n - 1] < |row| && n <= |expressions| then before[columns[n - 1] := expressions[n - 1](input)]
        else before
  }

  function PatchAll(row: Row, k: Kind, input: Input): Row
    requires k.Update?
  {
    Patch(row, k.columns, k.expressions, input, |k.columns|)
  }

  function Evaluate(expressions: seq<Expression>, input: Input): Row {
    seq(|expressions|, i requires 0 <= i < |expressions| => expressions[i](input))
  }

  /** Target row ids deleted, in order. */
  function DeletedIds(events: seq<Event>): seq<nat>
    requires Valid(events)
  {
    if events == [] then []
    else
      var init, last := events[..|events| - 1], events[|events| - 1];
      DeletedIds(init) + if FirstTouch(init, last) then [TargetId(last)] else []
  }

  /** The rows an event adds: an inserted row, or the new form of a row updated for the first time. */
  function Contribution(target: nat -> Row, before: seq<Event>, e: Event): seq<Row>
    requires Valid(before) && Mergeable(e)
  {
    if e.kind.Insert? then [Evaluate(e.kind.expressions, e.input)]
    else if e.kind.Update? && FirstTouch(before, e) then
      [PatchAll(target(TargetId(e)), e.kind, e.input)]
    else []
  }

  function InsertedRows(target: nat -> Row, events: seq<Event>): seq<Row>
    requires Valid(events)
  {
    if events == [] then []
    else
      var init, last := events[..|events| - 1], events[|events| - 1];
      InsertedRows(target, init) + Contribution(target, init, last)
  }

  function Counted(e: Event): nat {
    if e.kind.Update? || e.kind.Delete? || e.kind.Insert? then 1 else 0
  }

  /** Rows reported as changed: every input row of an UPDATE, DELETE or INSERT. */
  function ChangedRows(events: seq<Event>): nat {
    if events == [] then 0 else ChangedRows(events[..|events| - 1]) + Counted(events[|events| - 1])
  }

  // When the events can be carried out.

  /** Event `j` is the first to update or delete its target row. */
  predicate FirstOnRow(events: seq<Event>, j: nat)
    requires j < |events|
  {
    && (events[j].kind.Update? || events[j].kind.Delete?) && events[j].input.rowId.Some?
    && forall i | 0 <= i < j && (events[i].kind.Update? || events[i].kind.Delete?) ::
         events[i].input.rowId != events[j].input.rowId
  }

  /** Event `j` can be carried out on a target with that many columns: it names a target row if it needs one, has
      expressions, one per column, and no error was asked for. */
  predicate Possible(width: nat, events: seq<Event>, j: nat)
    requires j < |events|
  {
    var e := events[j];
    match e.kind
    case Update(columns, expressions) =>
      && e.input.rowId.Some? && e.input.rowId.value >= 0 && |columns| == |expressions| && expressions != []
      && (FirstOnRow(events, j) ==> forall c | 0 <= c < |columns| :: columns[c] < width)
    case Delete => e.input.rowId.Some? && e.input.rowId.value >= 0
    case Insert(expressions) => |expressions| == width && expressions != []
    case DoNothing => true
    case RaiseError => false
  }

  predicate AllPossible(width: nat, events: seq<Event>) {
    forall j | 0 <= j < |events| :: Possible(width, events, j)
  }

  lemma PossibleValid(width: nat, events: seq<Event>)
    requires AllPossible(width, events)
    ensures Valid(events)
  {
    forall i | 0 <= i < |events|
      ensures Mergeable(events[i])
    {
      assert Possible(width, events, i);
    }
  }

  /** Whether an event is possible depends on the events before it alone. */
  lemma PossiblePrefix(width: nat, events: seq<Event>, more: seq<Event>, j: nat)
    requires j < |events| && events <= more
    ensures Possible(width, events, j) <==> Possible(width, more, j)
  {
  }

  lemma AllPossiblePrefix(width: nat, events: seq<Event>, more: seq<Event>)
    requires events <= more && AllPossible(width, more)
    ensures AllPossible(width, events)
  {
    forall j | 0 <= j < |events|
      ensures Possible(width, events, j)
    {
      PossiblePrefix(width, events, more, j);
    }
  }

  /** An event is the first on its target row exactly when that row is untouched. */
  lemma FirstIsUntouched(events: seq<Event>, j: nat)
    requires Valid(events) && j < |events|
    ensures FirstOnRow(events, j) <==> FirstTouch(events[..j], events[j])
  {
    if Mutates(events[j]) {
      var before := events[..j];
      forall i | 0 <= i < j && Mutates(events[i])
        ensures TargetId(events[i]) in Touched(before)
      {
        assert before[i] == events[i];
      }
    }
  }

  // What the reference guarantees.

  lemma TouchedAppend(events: seq<Event>, e: Event)
    requires Valid(events) && Mergeable(e)
    ensures Valid(events + [e])
    ensures Touched(events + [e]) == Touched(events) + if Mutates(e) then {TargetId(e)} else {}
  {
    var all := events + [e];
    assert forall i | 0 <= i < |events| :: all[i] == events[i];
    assert all[|events|] == e;
    forall id | id in Touched(events)
      ensures id in Touched(all)
    {
      var i :| 0 <= i < |events| && Mutates(events[i]) && TargetId(events[i]) == id;
      assert all[i] == events[i];
    }
    if Mutates(e) {
      assert TargetId(all[|events|]) == TargetId(e);
    }
  }

  lemma DeletedAppend(events: seq<Event>, e: Event)
    requires Valid(events) && Mergeable(e)
    ensures Valid(events + [e])
    ensures DeletedIds(events + [e]) == DeletedIds(events) + if FirstTouch(events, e) then [TargetId(e)] else []
  {
    TouchedAppend(events, e);
    assert (events + [e])[..|events|] == events;
  }

  lemma InsertedAppend(target: nat -> Row, events: seq<Event>, e: Event)
    requires Valid(events) && Mergeable(e)
    ensures Valid(events + [e])
    ensures InsertedRows(target, events + [e]) == InsertedRows(target, events) + Contribution(target, events, e)
  {
    TouchedAppend(events, e);
    assert (events + [e])[..|events|] == events;
  }

  lemma ChangedAppend(events: seq<Event>, e: Event)
    ensures ChangedRows(events + [e]) == ChangedRows(events) + Counted(e)
  {
    assert (events + [e])[..|events|] == events;
  }

  /** Everything a run of actions has done so far. */
  datatype Effects = Effects(touched: set<nat>, deleted: seq<nat>, inserted: seq<Row>, changed: nat)

  function EffectsOf(target: nat -> Row, events: seq<Event>): Effects
    requires Valid(events)
  {
    Effects(Touched(events), DeletedIds(events), InsertedRows(target, events), ChangedRows(events))
  }

  /** The effects of one more action: only the first UPDATE or DELETE of a target row counts. */
  function Absorb(target: nat -> Row, s: Effects, e: Event): Effects
    requires Mergeable(e)
  {
    if Mutates(e) then
      var id := TargetId(e);
      if id in s.touched then s.(changed := s.changed + 1)
      else Effects(s.touched + {id}, s.deleted + [id],
                   if e.kind.Update? then s.inserted + [PatchAll(target(id), e.kind, e.input)]
                     else s.inserted, s.changed + 1)
    else if e.kind.Insert?
      then s.(inserted := s.inserted + [Evaluate(e.kind.expressions, e.input)], changed := s.changed + 1)
    else s
  }

  lemma AbsorbOne(target: nat -> Row, events: seq<Event>, e: Event)
    requires Valid(events) && Mergeable(e)
    ensures Valid(events + [e])
    ensures EffectsOf(target, events + [e]) == Absorb(target, EffectsOf(target, events), e)
  {
    TouchedAppend(events, e);
    DeletedAppend(events, e);
    InsertedAppend(target, events, e);
    ChangedAppend(events, e);
  }

  /** One action applied to rows in order. */
  function Batch(kind: Kind, rows: seq<Input>): seq<Event> {
    seq(|rows|, i requires 0 <= i < |rows| => Event(kind, rows[i]))
  }

  predicate MergeableRows(kind: Kind, rows: seq<Input>) {
    forall i | 0 <= i < |rows| :: Mergeable(Event(kind, rows[i]))
  }

  /** The effects of an action on the first `n` rows. */
  function AbsorbRows(target: nat -> Row, s: Effects, kind: Kind, rows: seq<Input>, n: nat): Effects
    requires MergeableRows(kind, rows) && n <= |rows|
  {
    if n == 0 then s else Absorb(target, AbsorbRows(target, s, kind, rows, n - 1), Event(kind, rows[n - 1]))
  }

  /** Recording the first `n` events of a batch has the effects of absorbing its first `n` rows. */
  ghost predicate Absorbed(target: nat -> Row, events: seq<Event>, kind: Kind, rows: seq<Input>, n: nat)
    requires Valid(events) && MergeableRows(kind, rows) && n <= |rows|
  {
    var all := events + Batch(kind, rows)[..n];
    Valid(all) && EffectsOf(target, all) == AbsorbRows(target, EffectsOf(target, events), kind, rows, n)
  }

  lemma AbsorbNext(target: nat -> Row, events: seq<Event>, kind: Kind, rows: seq<Input>, n: nat)
    requires Valid(events) && MergeableRows(kind, rows) && n < |rows| && Absorbed(target, events, kind, rows, n)
    ensures Absorbed(target, events, kind, rows, n + 1)
  {
    var batch := Batch(kind, rows);
    PrefixStep(events, batch, n);
    AbsorbOne(target, events + batch[..n], batch[n]);
  }

  lemma {:induction false} AbsorbPrefix(target: nat -> Row, events: seq<Event>, kind: Kind, rows: seq<Input>, n: nat)
    requires Valid(events) && MergeableRows(kind, rows) && n <= |rows|
    ensures Absorbed(target, events, kind, rows, n)
  {
    if n == 0 {
      assert events + Batch(kind, rows)[..0] == events;
    } else {
      AbsorbPrefix(target, events, kind, rows, n - 1);
      AbsorbNext(target, events, kind, rows, n - 1);
    }
  }

  lemma PrefixStep(a: seq<Event>, b: seq<Event>, n: nat)
    requires n < |b|
    ensures a + b[..n + 1] == a + b[..n] + [b[n]]
  {
  }

  /** Recording a whole batch of events has the effects of absorbing its rows one at a time. */
  lemma AbsorbBatch(target: nat -> Row, events: seq<Event>, kind: Kind, rows: seq<Input>)
    requires Valid(events) && MergeableRows(kind, rows)
    ensures Valid(events + Batch(kind, rows))
    ensures EffectsOf(target, events + Batch(kind, rows)) ==
        AbsorbRows(target, EffectsOf(target, events), kind, rows, |rows|)
  {
    AbsorbPrefix(target, events, kind, rows, |rows|);
    assert Batch(kind, rows)[..|rows|] == Batch(kind, rows);
  }

  predicate Distinct(ids: seq<nat>) {
    forall i, j | 0 <= i < j < |ids| :: ids[i] != ids[j]
  }

  /** The deleted ids are pairwise distinct and are exactly the target rows touched. */
  lemma {:induction false} DeletedOnce(events: seq<Event>)
    requires Valid(events)
    ensures Distinct(DeletedIds(events))
    ensures forall id: nat :: id in DeletedIds(events) <==> id in Touched(events)
  {
    if events != [] {
      var init, last := events[..|events| - 1], events[|events| - 1];
      assert events == init + [last];
      DeletedOnce(init);
      TouchedAppend(init, last);
      if FirstTouch(init, last) {
        DistinctAppend(DeletedIds(init), TargetId(last));
      }
    }
  }

  lemma DistinctAppend(ids: seq<nat>, id: nat)
    requires Distinct(ids) && id !in ids
    ensures Distinct(ids + [id])
  {
    var all := ids + [id];
    assert forall i | 0 <= i < |ids| :: all[i] == ids[i] && ids[i] != id;
  }

  predicate Updates(before: seq<Event>, e: Event)
    requires Valid(before) && Mergeable(e)
  {
    e.kind.Update? && FirstTouch(before, e)
  }

  function UpdatedRows(events: seq<Event>): nat
    requires Valid(events)
  {
    if events == [] then 0
    else
      var init, last := events[..|events| - 1], events[|events| - 1];
      UpdatedRows(init) + if Updates(init, last) then 1 else 0
  }

  /** Target rows deleted without being updated. */
  function RemovedRows(events: seq<Event>): nat
    requires Valid(events)
  {
    if events == [] then 0
    else
      var init, last := events[..|events| - 1], events[|events| - 1];
      RemovedRows(init) + if last.kind.Delete? && FirstTouch(init, last) then 1 else 0
  }

  function InsertEvents(events: seq<Event>): nat {
    if events == [] then 0
    else InsertEvents(events[..|events| - 1]) + if events[|events| - 1].kind.Insert? then 1 else 0
  }

  /** Conservation: every touched target row is either updated or removed, and new rows are the inserted
      input rows plus one per updated target row. */
  lemma {:induction false} RowsConserved(target: nat -> Row, events: seq<Event>)
    requires Valid(events)
    ensures |InsertedRows(target, events)| == InsertEvents(events) + UpdatedRows(events)
    ensures |DeletedIds(events)| == UpdatedRows(events) + RemovedRows(events)
  {
    if events != [] {
      RowsConserved(target, events[..|events| - 1]);
    }
  }

  /** Position of the first event on a touched target row. */
  lemma {:induction false} FirstEvent(events: seq<Event>, id: nat) returns (j: nat)
    requires Valid(events) && id in Touched(events)
    ensures j < |events| && Mutates(events[j]) && TargetId(events[j]) == id
    ensures forall i | 0 <= i < j && Mutates(events[i]) :: TargetId(events[i]) != id
    ensures FirstTouch(events[..j], events[j])
  {
    var init, last := events[..|events| - 1], events[|events| - 1];
    if id in Touched(init) {
      j := FirstEvent(init, id);
      assert init[..j] == events[..j];
    } else {
      assert events == init + [last];
      TouchedAppend(init, last);
      j := |events| - 1;
    }
  }

  lemma {:induction false} InsertedPrefix(target: nat -> Row, events: seq<Event>, n: nat)
    requires Valid(events) && n <= |events|
    ensures InsertedRows(target, events[..n]) <= InsertedRows(target, events)
    decreases |events|
  {
    if n == |events| {
      assert events[..n] == events;
    } else {
      InsertedPrefix(target, events[..|events| - 1], n);
      assert events[..|events| - 1][..n] == events[..n];
    }
  }

  /** A touched target row is decided by its first event alone: an UPDATE re-inserts it once, with the
      values of that input row; a DELETE re-inserts nothing. */
  lemma FirstEventDecides(target: nat -> Row, events: seq<Event>, id: nat) returns (j: nat)
    requires Valid(events) && id in Touched(events)
    ensures j < |events| && Mutates(events[j]) && TargetId(events[j]) == id
    ensures forall i | 0 <= i < j && Mutates(events[i]) :: TargetId(events[i]) != id
    ensures InsertedRows(target, events[..j])
            + (if events[j].kind.Update? then [PatchAll(target(id), events[j].kind, events[j].input)] else [])
            <= InsertedRows(target, events)
  {
    j := FirstEvent(events, id);
    InsertedPrefix(target, events, j);
    InsertedPrefix(target, events, j + 1);
    assert events[..j + 1] == events[..j] + [events[j]];
    InsertedAppend(target, events[..j], events[j]);
  }

  /** A later event on the same target row contributes nothing but its count. */
  lemma LaterTouchIgnored(target: nat -> Row, events: seq<Event>, e: Event)
    requires Valid(events) && Mergeable(e)
    requires Mutates(e) && TargetId(e) in Touched(events)
    ensures Valid(events + [e])
    ensures DeletedIds(events + [e]) == DeletedIds(events)
    ensures InsertedRows(target, events + [e]) == InsertedRows(target, events)
    ensures ChangedRows(events + [e]) == ChangedRows(events) + 1
  {
    DeletedAppend(events, e);
    InsertedAppend(target, events, e);
    ChangedAppend(events, e);
  }

  /** A column that is not updated keeps the target's value. */
  lemma {:induction false} KeptColumn(row: Row, columns: seq<nat>, expressions: seq<Expression>, input: Input, n: nat,
      c: nat)
    requires n <= |columns| && c < |row| && forall j | 0 <= j < n :: columns[j] != c
    ensures Patch(row, columns, expressions, input, n)[c] == row[c]
  {
    if n != 0 {
      KeptColumn(row, columns, expressions, input, n - 1, c);
    }
  }

  /** An updated column holds the last expression assigned to it. */
  lemma {:induction false} UpdatedColumn(row: Row, columns: seq<nat>, expressions: seq<Expression>, input: Input,
      n: nat, j: nat)
    requires j < n <= |columns| && |columns| == |expressions| && columns[j] < |row|
    requires forall i | j < i < n :: columns[i] != columns[j]
    ensures Patch(row, columns, expressions, input, n)[columns[j]] == expressions[j](input)
  {
    if n != j + 1 {
      UpdatedColumn(row, columns, expressions, input, n - 1, j);
    }
  }
}
