/** A whole MERGE, said of its input rows: which action each row is given to, and what becomes of the target. */
module MergeOutcome {
  import opened Bytes
  import opened MergeRows
  import opened MergeSelection
  import opened MergeSink

  // Which action each input row is given to.

  /** A row of a chunk and the action it is given to: actions for matched rows are group 0, for rows without target
      group 1, for rows without source group 2. */
  datatype Origin = Origin(chunk: nat, group: nat, action: nat, row: nat)

  predicate Before(a: Origin, b: Origin) {
    a.chunk < b.chunk || (a.chunk == b.chunk &&
      (a.group < b.group || (a.group == b.group &&
        (a.action < b.action || (a.action == b.action && a.row < b.row)))))
  }

  /** The group of a row, by its two marker columns. */
  predicate InGroup(hasMarker: bool, group: nat, r: Input) {
    if hasMarker && !r.sourceValid then group == 2
    else if r.rowId.Some? then group == 0
    else group == 1
  }

  function ListOf(actions: Actions, group: nat): seq<Action> {
    if group == 0 then actions.matched else if group == 1 then actions.byTarget else actions.bySource
  }

  /** Action `k` takes the row: it has no condition or its condition holds, and no earlier action does so. */
  predicate Takes(list: seq<Action>, k: nat, r: Input) {
    && k < |list| && (list[k].condition.Some? ==> list[k].condition.value(r))
    && forall j | 0 <= j < k :: list[j].condition.Some? && !list[j].condition.value(r)
  }

  predicate IsOrigin(chunks: seq<seq<Input>>, hasMarker: bool, actions: Actions, o: Origin) {
    && o.chunk < |chunks| && o.row < |chunks[o.chunk]| && o.group < 3
    && InGroup(hasMarker, o.group, chunks[o.chunk][o.row])
    && Takes(ListOf(actions, o.group), o.action, chunks[o.chunk][o.row])
  }

  /** The event is the action of its origin on the row of its origin. */
  ghost predicate Traced(chunks: seq<seq<Input>>, actions: Actions, e: Event, o: Origin) {
    && o.chunk < |chunks| && o.row < |chunks[o.chunk]| && o.action < |ListOf(actions, o.group)|
    && e == Event(ListOf(actions, o.group)[o.action].kind, chunks[o.chunk][o.row])
  }

  ghost predicate AllTraced(chunks: seq<seq<Input>>, actions: Actions, events: seq<Event>, origins: seq<Origin>) {
    |events| == |origins| && forall i | 0 <= i < |events| :: Traced(chunks, actions, events[i], origins[i])
  }

  predicate Ordered(origins: seq<Origin>) {
    forall i, j | 0 <= i < j < |origins| :: Before(origins[i], origins[j])
  }

  /** The events are those of all rows that an action takes, chunk by chunk, group by group, action by action, row by
      row. */
  ghost predicate Scripts(chunks: seq<seq<Input>>, hasMarker: bool, actions: Actions, events: seq<Event>,
      origins: seq<Origin>) {
    && AllTraced(chunks, actions, events, origins) && Ordered(origins)
    && forall o :: o in origins <==> IsOrigin(chunks, hasMarker, actions, o)
  }

  /** The origins in a range, in order. */
  ghost predicate Covers(chunks: seq<seq<Input>>, hasMarker: bool, actions: Actions, origins: seq<Origin>, from: Origin,
      to: Origin) {
    && Ordered(origins)
    && forall o :: o in origins <==> IsOrigin(chunks, hasMarker, actions, o) && !Before(o, from) && Before(o, to)
  }

  lemma CoversBoth(chunks: seq<seq<Input>>, hasMarker: bool, actions: Actions, a: seq<Origin>, b: seq<Origin>,
      from: Origin, mid: Origin, to: Origin)
    requires Covers(chunks, hasMarker, actions, a, from, mid) && Covers(chunks, hasMarker, actions, b, mid, to)
    requires !Before(mid, from) && !Before(to, mid)
    ensures Covers(chunks, hasMarker, actions, a + b, from, to)
  {
    var all := a + b;
    forall i, j | 0 <= i < j < |all|
      ensures Before(all[i], all[j])
    {
      if i < |a| <= j {
        assert a[i] in a && b[j - |a|] in b;
      }
    }
    forall o
      ensures o in all <==> IsOrigin(chunks, hasMarker, actions, o) && !Before(o, from) && Before(o, to)
    {
      assert o in all <==> o in a || o in b;
    }
  }

  lemma TracedBoth(chunks: seq<seq<Input>>, actions: Actions, a: seq<Event>, b: seq<Event>, oa: seq<Origin>,
      ob: seq<Origin>)
    requires AllTraced(chunks, actions, a, oa) && AllTraced(chunks, actions, b, ob)
    ensures AllTraced(chunks, actions, a + b, oa + ob)
  {
  }

  // The sink's order.

  function ClassOf(group: nat): Class {
    if group == 0 then Matched else if group == 1 then NotMatchedByTarget else NotMatchedBySource
  }

  lemma GroupIsClass(hasMarker: bool, group: nat, r: Input)
    requires group < 3
    ensures InGroup(hasMarker, group, r) <==> Classify(hasMarker, r) == ClassOf(group)
  {
  }

  lemma TakesIsFirst(list: seq<Action>, k: nat, r: Input)
    requires k < |list|
    ensures Takes(list, k, r) <==> FirstMatch(list, k, r)
  {
    assert forall j | 0 <= j < k :: !Applies(list[j], r) <==> list[j].condition.Some? && !list[j].condition.value(r);
  }

  /** Selecting keeps the order and exactly the rows on which the condition holds. */
  lemma {:induction false} SelectKeeps(chunk: seq<Input>, cond: Input -> bool, sel: Sel)
    requires InRange(chunk, sel) && forall i, j | 0 <= i < j < |sel| :: sel[i] < sel[j]
    ensures var r := Select(chunk, cond, true, sel);
            && (forall i, j | 0 <= i < j < |r| :: r[i] < r[j])
            && (forall x: nat :: x in r <==> x in sel && cond(chunk[x]))
  {
    if sel != [] {
      var init, last := sel[..|sel| - 1], sel[|sel| - 1];
      SelectKeeps(chunk, cond, init);
      assert sel == init + [last];
      var kept, r := Select(chunk, cond, true, init), Select(chunk, cond, true, sel);
      assert r == kept + if cond(chunk[last]) then [last] else [];
      forall i | 0 <= i < |kept|
        ensures kept[i] < last
      {
        assert kept[i] in kept && kept[i] in init;
      }
    }
  }

  /** The rows that one action of a group takes. */
  function TakenRows(chunk: seq<Input>, hasMarker: bool, actions: Actions, g: nat, k: nat): (r: Sel)
    requires k < |ListOf(actions, g)|
    ensures InRange(chunk, r)
  {
    Select(chunk, Claims(ListOf(actions, g), k), true, ClassRows(chunk, hasMarker, ClassOf(g), |chunk|))
  }

  lemma TakenAre(chunk: seq<Input>, hasMarker: bool, actions: Actions, g: nat, k: nat)
    requires g < 3 && k < |ListOf(actions, g)|
    ensures var r := TakenRows(chunk, hasMarker, actions, g, k);
            && (forall i, j | 0 <= i < j < |r| :: r[i] < r[j])
            && (forall x: nat ::
                  x in r <==>
                  x < |chunk| && InGroup(hasMarker, g, chunk[x]) && Takes(ListOf(actions, g), k, chunk[x]))
  {
    var list, sel := ListOf(actions, g), ClassRows(chunk, hasMarker, ClassOf(g), |chunk|);
    ClassesPartition(chunk, hasMarker, ClassOf(g), |chunk|);
    SelectKeeps(chunk, Claims(list, k), sel);
    forall x: nat | x < |chunk|
      ensures InGroup(hasMarker, g, chunk[x]) <==> x in sel
      ensures Takes(list, k, chunk[x]) <==> Claims(list, k)(chunk[x])
    {
      GroupIsClass(hasMarker, g, chunk[x]);
      TakesIsFirst(list, k, chunk[x]);
    }
  }

  function OriginsOf(c: nat, g: nat, k: nat, rows: Sel): seq<Origin> {
    seq(|rows|, i requires 0 <= i < |rows| => Origin(c, g, k, rows[i]))
  }

  lemma ActionCovered(chunks: seq<seq<Input>>, hasMarker: bool, actions: Actions, c: nat, g: nat, k: nat)
    requires c < |chunks| && g < 3 && k < |ListOf(actions, g)|
    ensures var origins := OriginsOf(c, g, k, TakenRows(chunks[c], hasMarker, actions, g, k));
            Covers(chunks, hasMarker, actions, origins, Origin(c, g, k, 0), Origin(c, g, k + 1, 0))
  {
    var rows := TakenRows(chunks[c], hasMarker, actions, g, k);
    var origins := OriginsOf(c, g, k, rows);
    TakenAre(chunks[c], hasMarker, actions, g, k);
    forall o
      ensures o in origins <==>
        IsOrigin(chunks, hasMarker, actions, o) && !Before(o, Origin(c, g, k, 0)) && Before(o, Origin(c, g, k + 1, 0))
    {
      if o in origins {
        var i :| 0 <= i < |origins| && origins[i] == o;
        assert rows[i] in rows;
      }
      if o.chunk == c && o.group == g && o.action == k && o.row in rows {
        var i :| 0 <= i < |rows| && rows[i] == o.row;
        assert origins[i] == o;
      }
    }
  }

  /** The origins of the events of the first `k` actions of a group. */
  function GroupOrigins(chunks: seq<seq<Input>>, hasMarker: bool, actions: Actions, c: nat, g: nat, k: nat): seq<Origin>
    requires c < |chunks| && k <= |ListOf(actions, g)|
  {
    if k == 0 then []
    else
      GroupOrigins(chunks, hasMarker, actions, c, g, k - 1)
      + OriginsOf(c, g, k - 1, TakenRows(chunks[c], hasMarker, actions, g, k - 1))
  }

  lemma {:induction false} GroupCovered(chunks: seq<seq<Input>>, hasMarker: bool, actions: Actions, c: nat, g: nat,
      k: nat)
    requires c < |chunks| && g < 3 && k <= |ListOf(actions, g)|
    ensures Covers(chunks, hasMarker, actions, GroupOrigins(chunks, hasMarker, actions, c, g, k), Origin(c, g, 0, 0),
                   Origin(c, g, k, 0))
  {
    if k != 0 {
      GroupCovered(chunks, hasMarker, actions, c, g, k - 1);
      ActionCovered(chunks, hasMarker, actions, c, g, k - 1);
      CoversBoth(chunks, hasMarker, actions, GroupOrigins(chunks, hasMarker, actions, c, g, k - 1),
                 OriginsOf(c, g, k - 1, TakenRows(chunks[c], hasMarker, actions, g, k - 1)), Origin(c, g, 0, 0),
                 Origin(c, g, k - 1, 0), Origin(c, g, k, 0));
    }
  }

  lemma ActionTraced(chunks: seq<seq<Input>>, actions: Actions, c: nat, g: nat, k: nat, rows: Sel)
    requires c < |chunks| && k < |ListOf(actions, g)| && InRange(chunks[c], rows)
    ensures AllTraced(chunks, actions, Batch(ListOf(actions, g)[k].kind, Slice(chunks[c], rows)),
                      OriginsOf(c, g, k, rows))
  {
  }

  lemma {:induction false} GroupTraced(chunks: seq<seq<Input>>, hasMarker: bool, actions: Actions, c: nat, g: nat,
      k: nat)
    requires c < |chunks| && k <= |ListOf(actions, g)|
    ensures AllTraced(chunks, actions, DispatchEvents(chunks[c], ListOf(actions, g),
                        ClassRows(chunks[c], hasMarker, ClassOf(g), |chunks[c]|), k),
                      GroupOrigins(chunks, hasMarker, actions, c, g, k))
  {
    if k != 0 {
      var chunk, list, rows := chunks[c], ListOf(actions, g), TakenRows(chunks[c], hasMarker, actions, g, k - 1);
      GroupTraced(chunks, hasMarker, actions, c, g, k - 1);
      ActionTraced(chunks, actions, c, g, k - 1, rows);
      TracedBoth(chunks, actions,
                 DispatchEvents(chunk, list, ClassRows(chunk, hasMarker, ClassOf(g), |chunk|), k - 1),
                 Batch(list[k - 1].kind, Slice(chunk, rows)), GroupOrigins(chunks, hasMarker, actions, c, g, k - 1),
                 OriginsOf(c, g, k - 1, rows));
    }
  }

  /** All origins of a group. */
  function WholeGroup(chunks: seq<seq<Input>>, hasMarker: bool, actions: Actions, c: nat, g: nat): seq<Origin>
    requires c < |chunks|
  {
    GroupOrigins(chunks, hasMarker, actions, c, g, |ListOf(actions, g)|)
  }

  lemma WholeGroupCovered(chunks: seq<seq<Input>>, hasMarker: bool, actions: Actions, c: nat, g: nat)
    requires c < |chunks| && g < 3
    ensures Covers(chunks, hasMarker, actions, WholeGroup(chunks, hasMarker, actions, c, g), Origin(c, g, 0, 0),
                   Origin(c, g + 1, 0, 0))
    ensures AllTraced(chunks, actions, ClassEvents(chunks[c], hasMarker, ClassOf(g), ListOf(actions, g)),
                      WholeGroup(chunks, hasMarker, actions, c, g))
  {
    GroupCovered(chunks, hasMarker, actions, c, g, |ListOf(actions, g)|);
    GroupTraced(chunks, hasMarker, actions, c, g, |ListOf(actions, g)|);
  }

  function ChunkOrigins(chunks: seq<seq<Input>>, hasMarker: bool, actions: Actions, c: nat): seq<Origin>
    requires c < |chunks|
  {
    WholeGroup(chunks, hasMarker, actions, c, 0) + WholeGroup(chunks, hasMarker, actions, c, 1)
    + WholeGroup(chunks, hasMarker, actions, c, 2)
  }

  lemma ChunkCovered(chunks: seq<seq<Input>>, hasMarker: bool, actions: Actions, c: nat)
    requires c < |chunks|
    ensures Covers(chunks, hasMarker, actions, ChunkOrigins(chunks, hasMarker, actions, c), Origin(c, 0, 0, 0),
                   Origin(c + 1, 0, 0, 0))
  {
    var m, t, s := WholeGroup(chunks, hasMarker, actions, c, 0), WholeGroup(chunks, hasMarker, actions, c, 1),
                   WholeGroup(chunks, hasMarker, actions, c, 2);
    WholeGroupCovered(chunks, hasMarker, actions, c, 0);
    WholeGroupCovered(chunks, hasMarker, actions, c, 1);
    WholeGroupCovered(chunks, hasMarker, actions, c, 2);
    CoversBoth(chunks, hasMarker, actions, m, t, Origin(c, 0, 0, 0), Origin(c, 1, 0, 0), Origin(c, 2, 0, 0));
    CoversBoth(chunks, hasMarker, actions, m + t, s, Origin(c, 0, 0, 0), Origin(c, 2, 0, 0), Origin(c, 3, 0, 0));
  }

  lemma ChunkTraced(chunks: seq<seq<Input>>, hasMarker: bool, actions: Actions, c: nat)
    requires c < |chunks|
    ensures AllTraced(chunks, actions, SinkEvents(chunks[c], hasMarker, actions),
                      ChunkOrigins(chunks, hasMarker, actions, c))
  {
    var m, t, s := WholeGroup(chunks, hasMarker, actions, c, 0), WholeGroup(chunks, hasMarker, actions, c, 1),
                   WholeGroup(chunks, hasMarker, actions, c, 2);
    var em := ClassEvents(chunks[c], hasMarker, Matched, actions.matched);
    var et := ClassEvents(chunks[c], hasMarker, NotMatchedByTarget, actions.byTarget);
    var es := ClassEvents(chunks[c], hasMarker, NotMatchedBySource, actions.bySource);
    WholeGroupCovered(chunks, hasMarker, actions, c, 0);
    WholeGroupCovered(chunks, hasMarker, actions, c, 1);
    WholeGroupCovered(chunks, hasMarker, actions, c, 2);
    TracedBoth(chunks, actions, em, et, m, t);
    TracedBoth(chunks, actions, em + et, es, m + t, s);
  }

  // All chunks.

  function Joined<T>(parts: seq<seq<T>>, n: nat): seq<T>
    requires n <= |parts|
  {
    if n == 0 then [] else Joined(parts, n - 1) + parts[n - 1]
  }

  lemma {:induction false} JoinedPrefix<T>(parts: seq<seq<T>>, k: nat, n: nat)
    requires k <= n <= |parts|
    ensures Joined(parts, k) <= Joined(parts, n)
  {
    if k < n {
      JoinedPrefix(parts, k, n - 1);
    }
  }

  lemma {:induction false} JoinedTraced(chunks: seq<seq<Input>>, actions: Actions, events: seq<seq<Event>>,
      origins: seq<seq<Origin>>, n: nat)
    requires n <= |events| == |origins|
    requires forall c | 0 <= c < |events| :: AllTraced(chunks, actions, events[c], origins[c])
    ensures AllTraced(chunks, actions, Joined(events, n), Joined(origins, n))
  {
    if n != 0 {
      JoinedTraced(chunks, actions, events, origins, n - 1);
      TracedBoth(chunks, actions, Joined(events, n - 1), events[n - 1], Joined(origins, n - 1), origins[n - 1]);
    }
  }

  lemma {:induction false} JoinedCovers(chunks: seq<seq<Input>>, hasMarker: bool, actions: Actions,
      origins: seq<seq<Origin>>, n: nat)
    requires n <= |origins|
    requires forall c | 0 <= c < |origins| ::
        Covers(chunks, hasMarker, actions, origins[c], Origin(c, 0, 0, 0), Origin(c + 1, 0, 0, 0))
    ensures Covers(chunks, hasMarker, actions, Joined(origins, n), Origin(0, 0, 0, 0), Origin(n, 0, 0, 0))
  {
    if n != 0 {
      JoinedCovers(chunks, hasMarker, actions, origins, n - 1);
      CoversBoth(chunks, hasMarker, actions, Joined(origins, n - 1), origins[n - 1], Origin(0, 0, 0, 0),
                 Origin(n - 1, 0, 0, 0), Origin(n, 0, 0, 0));
    }
  }

  /** The events of each chunk, in the order of the sink. */
  function EventsByChunk(chunks: seq<seq<Input>>, hasMarker: bool, actions: Actions): seq<seq<Event>> {
    seq(|chunks|, c requires 0 <= c < |chunks| => SinkEvents(chunks[c], hasMarker, actions))
  }

  function OriginsByChunk(chunks: seq<seq<Input>>, hasMarker: bool, actions: Actions): seq<seq<Origin>> {
    seq(|chunks|, c requires 0 <= c < |chunks| => ChunkOrigins(chunks, hasMarker, actions, c))
  }

  /** The order in which the sink takes rows is the order of the actions over all rows of all chunks. */
  lemma SinkScripts(chunks: seq<seq<Input>>, hasMarker: bool, actions: Actions)
    ensures Scripts(chunks, hasMarker, actions, Joined(EventsByChunk(chunks, hasMarker, actions), |chunks|),
                    Joined(OriginsByChunk(chunks, hasMarker, actions), |chunks|))
  {
    var events, origins := EventsByChunk(chunks, hasMarker, actions), OriginsByChunk(chunks, hasMarker, actions);
    forall c | 0 <= c < |chunks|
      ensures AllTraced(chunks, actions, events[c], origins[c])
      ensures Covers(chunks, hasMarker, actions, origins[c], Origin(c, 0, 0, 0), Origin(c + 1, 0, 0, 0))
    {
      ChunkTraced(chunks, hasMarker, actions, c);
      ChunkCovered(chunks, hasMarker, actions, c);
    }
    JoinedTraced(chunks, actions, events, origins, |chunks|);
    JoinedCovers(chunks, hasMarker, actions, origins, |chunks|);
    CoversAll(chunks, hasMarker, actions, Joined(origins, |chunks|));
  }

  lemma CoversAll(chunks: seq<seq<Input>>, hasMarker: bool, actions: Actions, origins: seq<Origin>)
    requires Covers(chunks, hasMarker, actions, origins, Origin(0, 0, 0, 0), Origin(|chunks|, 0, 0, 0))
    ensures forall o :: o in origins <==> IsOrigin(chunks, hasMarker, actions, o)
  {
  }

  // What becomes of the target.

  predicate Increasing(xs: seq<nat>) {
    forall i, j | 0 <= i < j < |xs| :: xs[i] < xs[j]
  }

  /** The row that an INSERT adds: the value of each expression, in its place. */
  predicate InsertsCells(e: Event, r: Row)
    requires e.kind.Insert?
  {
    |r| == |e.kind.expressions| && forall c | 0 <= c < |r| :: r[c] == e.kind.expressions[c](e.input)
  }

  /** The row that an UPDATE adds: an assigned column has the value of the last expression assigned to it, any other
      column the value it had. */
  predicate UpdatesCells(row: Row, e: Event, r: Row)
    requires e.kind.Update? && |e.kind.columns| == |e.kind.expressions|
  {
    var columns, expressions := e.kind.columns, e.kind.expressions;
    && |r| == |row|
    && (forall c | 0 <= c < |r| && c !in columns :: r[c] == row[c])
    && (forall j | 0 <= j < |columns| && columns[j] !in columns[j + 1..] ::
          columns[j] < |r| && r[columns[j]] == expressions[j](e.input))
  }

  predicate Adds(events: seq<Event>, j: nat)
    requires j < |events|
  {
    events[j].kind.Insert? || (events[j].kind.Update? && FirstOnRow(events, j))
  }

  /** Event `j` adds the row `r`. */
  predicate AddsRow(target: nat -> Row, events: seq<Event>, j: nat, r: Row)
    requires j < |events|
  {
    var e := events[j];
    if e.kind.Insert? then InsertsCells(e, r)
    else
      && e.kind.Update? && FirstOnRow(events, j) && |e.kind.columns| == |e.kind.expressions|
      && e.input.rowId.value >= 0 && UpdatesCells(target(e.input.rowId.value), e, r)
  }

  /** The added rows are those of the events that add one, in the order of the events. */
  ghost predicate AddedFrom(target: nat -> Row, events: seq<Event>, added: seq<Row>, sources: seq<nat>) {
    && |sources| == |added| && Increasing(sources)
    && (forall q | 0 <= q < |sources| :: sources[q] < |events| && AddsRow(target, events, sources[q], added[q]))
    && (forall j | 0 <= j < |events| && Adds(events, j) :: j in sources)
  }

  /** The deleted rows are those that an UPDATE or DELETE reached, in the order in which they were first reached. */
  ghost predicate DeletedFrom(events: seq<Event>, deleted: seq<nat>, sources: seq<nat>) {
    && |sources| == |deleted| && Increasing(sources)
    && (forall q | 0 <= q < |sources| ::
          && sources[q] < |events| && FirstOnRow(events, sources[q])
          && events[sources[q]].input.rowId == Some(deleted[q] as int))
    && (forall j | 0 <= j < |events| && FirstOnRow(events, j) :: j in sources)
  }

  function Changing(events: seq<Event>): set<nat> {
    set j | 0 <= j < |events| && (events[j].kind.Update? || events[j].kind.Delete? || events[j].kind.Insert?)
  }

  /** What a finished MERGE has done with the events: no target row deleted twice, exactly the rows reached deleted, one
      row added per INSERT and per first UPDATE, and every changing event counted. */
  ghost predicate Merged(target: nat -> Row, events: seq<Event>, done: Effects) {
    && Valid(events)
    && (exists sources :: DeletedFrom(events, done.deleted, sources))
    && (exists sources :: AddedFrom(target, events, done.inserted, sources))
    && done.changed == |Changing(events)|
    && Distinct(done.deleted) && (forall id: nat :: id in done.deleted <==> id in done.touched)
    && |done.inserted| == InsertEvents(events) + UpdatedRows(events)
    && |done.deleted| == UpdatedRows(events) + RemovedRows(events)
  }

  lemma PatchedCells(row: Row, e: Event)
    requires e.kind.Update? && |e.kind.columns| == |e.kind.expressions| && InTable(e.kind.columns, |row|)
    ensures UpdatesCells(row, e, PatchAll(row, e.kind, e.input))
  {
    var columns, expressions := e.kind.columns, e.kind.expressions;
    forall c | 0 <= c < |row| && c !in columns
      ensures PatchAll(row, e.kind, e.input)[c] == row[c]
    {
      KeptColumn(row, columns, expressions, e.input, |columns|, c);
    }
    forall j | 0 <= j < |columns| && columns[j] !in columns[j + 1..]
      ensures PatchAll(row, e.kind, e.input)[columns[j]] == expressions[j](e.input)
    {
      forall i | j < i < |columns|
        ensures columns[i] != columns[j]
      {
        assert columns[i] == columns[j + 1..][i - j - 1];
      }
      UpdatedColumn(row, columns, expressions, e.input, |columns|, j);
    }
  }

  lemma FirstPrefix(events: seq<Event>, more: seq<Event>, j: nat)
    requires j < |events| && events <= more
    ensures FirstOnRow(events, j) <==> FirstOnRow(more, j)
  {
  }

  /** What the last event adds. */
  lemma LastAdds(target: nat -> Row, width: nat, events: seq<Event>, e: Event)
    requires Valid(events) && Mergeable(e) && AllPossible(width, events + [e])
    requires forall id: nat :: |target(id)| == width
    ensures var all, more := events + [e], Contribution(target, events, e);
            if Adds(all, |events|) then |more| == 1 && AddsRow(target, all, |events|, more[0]) else more == []
  {
    var all := events + [e];
    TouchedAppend(events, e);
    FirstIsUntouched(all, |events|);
    assert all[..|events|] == events && all[|events|] == e;
    assert Possible(width, all, |events|);
    if e.kind.Update? && FirstOnRow(all, |events|) {
      PatchedCells(target(TargetId(e)), e);
    }
  }

  lemma AddedMore(target: nat -> Row, events: seq<Event>, e: Event, added: seq<Row>, more: seq<Row>, sources: seq<nat>)
    requires AddedFrom(target, events, added, sources)
    requires var all := events + [e];
             if Adds(all, |events|) then |more| == 1 && AddsRow(target, all, |events|, more[0]) else more == []
    ensures var all := events + [e];
            AddedFrom(target, all, added + more, sources + if Adds(all, |events|) then [|events|] else [])
  {
    var all := events + [e];
    var sources' := sources + if Adds(all, |events|) then [|events|] else [];
    assert forall j | 0 <= j < |events| :: all[j] == events[j];
    forall j | 0 <= j < |events|
      ensures FirstOnRow(events, j) <==> FirstOnRow(all, j)
    {
      FirstPrefix(events, all, j);
    }
    forall q | 0 <= q < |sources|
      ensures sources'[q] < |all| && AddsRow(target, all, sources'[q], (added + more)[q])
    {
      assert AddsRow(target, events, sources[q], added[q]);
    }
    forall j | 0 <= j < |all| && Adds(all, j)
      ensures j in sources'
    {
      if j < |events| {
        assert Adds(events, j);
      }
    }
  }

  lemma {:induction false} RowsAdded(target: nat -> Row, width: nat, events: seq<Event>) returns (sources: seq<nat>)
    requires Valid(events) && AllPossible(width, events) && forall id: nat :: |target(id)| == width
    ensures AddedFrom(target, events, InsertedRows(target, events), sources)
  {
    if events == [] {
      sources := [];
    } else {
      var init, last := events[..|events| - 1], events[|events| - 1];
      assert events == init + [last];
      AllPossiblePrefix(width, init, events);
      sources := RowsAdded(target, width, init);
      LastAdds(target, width, init, last);
      AddedMore(target, init, last, InsertedRows(target, init), Contribution(target, init, last), sources);
      sources := sources + if Adds(events, |init|) then [|init|] else [];
    }
  }

  lemma DeletedMore(events: seq<Event>, e: Event, deleted: seq<nat>, sources: seq<nat>)
    requires Valid(events) && Mergeable(e) && DeletedFrom(events, deleted, sources)
    ensures var all := events + [e];
            DeletedFrom(all, deleted + (if FirstTouch(events, e) then [TargetId(e)] else []),
                        sources + if FirstTouch(events, e) then [|events|] else [])
  {
    var all := events + [e];
    TouchedAppend(events, e);
    FirstIsUntouched(all, |events|);
    assert all[..|events|] == events;
    forall j | 0 <= j < |events|
      ensures all[j] == events[j] && (FirstOnRow(events, j) <==> FirstOnRow(all, j))
    {
      FirstPrefix(events, all, j);
    }
  }

  lemma {:induction false} RowsDeleted(events: seq<Event>) returns (sources: seq<nat>)
    requires Valid(events)
    ensures DeletedFrom(events, DeletedIds(events), sources)
  {
    if events == [] {
      sources := [];
    } else {
      var init, last := events[..|events| - 1], events[|events| - 1];
      assert events == init + [last];
      sources := RowsDeleted(init);
      DeletedMore(init, last, DeletedIds(init), sources);
      sources := sources + if FirstTouch(init, last) then [|init|] else [];
    }
  }

  lemma {:induction false} ChangesCounted(events: seq<Event>)
    ensures ChangedRows(events) == |Changing(events)|
  {
    if events != [] {
      var init, last := events[..|events| - 1], events[|events| - 1];
      ChangesCounted(init);
      assert Changing(events) == Changing(init) + if Counted(last) == 1 then {|init|} else {};
    }
  }

  /** The effects of the reference are those of a finished MERGE. */
  lemma EffectsAreMerged(target: nat -> Row, width: nat, events: seq<Event>)
    requires Valid(events) && AllPossible(width, events) && forall id: nat :: |target(id)| == width
    ensures Merged(target, events, EffectsOf(target, events))
  {
    DeletedOnce(events);
    RowsConserved(target, events);
    ChangesCounted(events);
    var deletions := RowsDeleted(events);
    var additions := RowsAdded(target, width, events);
  }

  /** If the first chunks cannot be merged, neither can all. */
  lemma FailsEarly(width: nat, parts: seq<seq<Event>>, k: nat)
    requires k <= |parts|
    ensures AllPossible(width, Joined(parts, |parts|)) ==> AllPossible(width, Joined(parts, k))
  {
    JoinedPrefix(parts, k, |parts|);
    if AllPossible(width, Joined(parts, |parts|)) {
      AllPossiblePrefix(width, Joined(parts, k), Joined(parts, |parts|));
    }
  }

  /** The next chunk through the sink. */
  method SinkNext(chunks: seq<seq<Input>>, k: nat, hasMarker: bool, actions: Actions, g: MergeState, l: LocalState,
      ghost parts: seq<seq<Event>>) returns (ok: bool)
    requires k < |chunks| && parts == EventsByChunk(chunks, hasMarker, actions)
    requires g.Refines() && g.events == Joined(parts, k) && l.Separate() && l.Holds(|chunks[k]|)
    modifies g, l, l.matchedSel, l.byTargetSel, l.bySourceSel, l.selectedSel, l.remainingSel
    ensures ok ==> g.Refines() && g.events == Joined(parts, k + 1)
    ensures g.Smooth() && !ok ==> !AllPossible(g.target.width, Joined(parts, |parts|))
  {
    ghost var width, next := g.target.width, g.events + SinkEvents(chunks[k], hasMarker, actions);
    ghost var fits, allFit := AllPossible(width, next), AllPossible(width, Joined(parts, |parts|));
    assert allFit ==> fits by {
      FailsEarly(width, parts, k + 1);
      assert Joined(parts, k + 1) == next;
    }
    ok := Sink(chunks[k], hasMarker, actions, g, l);
    assert g.Smooth() ==> (ok <==> fits);
  }

  /** Any number of chunks through the sink. */
  method SinkAll(chunks: seq<seq<Input>>, hasMarker: bool, actions: Actions, g: MergeState, l: LocalState,
      ghost parts: seq<seq<Event>>) returns (ok: bool)
    requires parts == EventsByChunk(chunks, hasMarker, actions)
    requires g.Refines() && g.events == [] && l.Separate() && forall k | 0 <= k < |chunks| :: l.Holds(|chunks[k]|)
    modifies g, l, l.matchedSel, l.byTargetSel, l.bySourceSel, l.selectedSel, l.remainingSel
    ensures ok ==> g.Refines() && g.events == Joined(parts, |parts|)
    ensures g.Smooth() && !ok ==> !AllPossible(g.target.width, Joined(parts, |parts|))
  {
    ghost var allFit := AllPossible(g.target.width, Joined(parts, |parts|));
    for k := 0 to |chunks|
      invariant g.Refines() && g.events == Joined(parts, k)
    {
      ok := SinkNext(chunks, k, hasMarker, actions, g, l, parts);
      assert g.Smooth() && !ok ==> !allFit;
      if !ok {
        return;
      }
    }
    ok := true;
  }

  /** A whole MERGE: every input row is given to the first action of its group that takes it, and the target is changed
      by those events and nothing else. Unless storage fails, this succeeds exactly when every event can be carried
      out. */
  method MergeAll(chunks: seq<seq<Input>>, capacity: nat, hasMarker: bool, actions: Actions, target: Table,
      reliable: bool)
    returns (ok: bool, g: MergeState, ghost script: seq<Event>, ghost origins: seq<Origin>)
    requires forall k | 0 <= k < |chunks| :: |chunks[k]| <= capacity
    ensures g.target == target && g.reliable == reliable && Scripts(chunks, hasMarker, actions, script, origins)
    ensures ok ==> AllPossible(target.width, script) && Merged(target.rows, script, g.Done())
    ensures g.Smooth() && AllPossible(target.width, script) ==> ok
  {
    ghost var parts := EventsByChunk(chunks, hasMarker, actions);
    script := Joined(parts, |parts|);
    origins := Joined(OriginsByChunk(chunks, hasMarker, actions), |chunks|);
    SinkScripts(chunks, hasMarker, actions);
    g := new MergeState(target, reliable);
    var l := new LocalState(capacity);
    ok := SinkAll(chunks, hasMarker, actions, g, l, parts);
    if ok {
      EffectsAreMerged(target.rows, target.width, g.events);
    }
  }
}
