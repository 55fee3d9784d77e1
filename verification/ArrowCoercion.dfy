/** Widening the half-float buffers of an Arrow array tree in place, with an undo log. */
module ArrowCoercion {
  import opened Bytes
  import opened HalfFloat

  datatype Schema = Schema(isHalf: bool, children: seq<Schema>, dictionary: Option<Schema>)

  /** An array node: `id` names its data-buffer slot, `buffered` says it has one, `total` is length plus offset. */
  datatype ArrowArray = ArrowArray(id: nat, buffered: bool, total: int, children: seq<ArrowArray>,
    dictionary: Option<ArrowArray>)

  datatype Block = Halves(halves: seq<Half>) | Singles(singles: seq<Single>)

  /** Data-buffer slots of array nodes (absent when NULL) and the memory blocks that exist. */
  datatype Memory = Memory(slots: map<nat, nat>, blocks: map<nat, Block>)

  /** One rewritten buffer. */
  datatype Change = Change(id: nat, original: nat, replacement: nat)

  // Which nodes are visited, in which order.

  datatype Visit = Visit(isHalf: bool, id: nat, buffered: bool, total: int)

  function Min(a: nat, b: nat): nat {
    if a < b then a else b
  }

  function Visits(s: Schema, a: ArrowArray): seq<Visit>
    decreases s
  {
    [Visit(s.isHalf, a.id, a.buffered, a.total)]
    + ChildVisits(s.children, a.children, Min(|s.children|, |a.children|))
    + if s.dictionary.Some? && a.dictionary.Some? then Visits(s.dictionary.value, a.dictionary.value) else []
  }

  function ChildVisits(ss: seq<Schema>, aa: seq<ArrowArray>, n: nat): seq<Visit>
    requires n <= |ss| && n <= |aa|
    decreases ss, n
  {
    if n == 0 then [] else ChildVisits(ss, aa, n - 1) + Visits(ss[n - 1], aa[n - 1])
  }

  /** The node is a half-float leaf with data to widen. */
  predicate Rewrites(m: Memory, v: Visit) {
    v.isHalf && v.buffered && v.total > 0 && v.id in m.slots
  }

  function Rewritten(m: Memory, vs: seq<Visit>): seq<Visit> {
    if vs == [] then []
    else Rewritten(m, vs[..|vs| - 1]) + if Rewrites(m, vs[|vs| - 1]) then [vs[|vs| - 1]] else []
  }

  /** Half-float buffers hold at least `total` halves. */
  predicate Backed(m: Memory, vs: seq<Visit>) {
    forall i | 0 <= i < |vs| && Rewrites(m, vs[i]) ::
      && m.slots[vs[i].id] in m.blocks && m.blocks[m.slots[vs[i].id]].Halves?
      && vs[i].total <= |m.blocks[m.slots[vs[i].id]].halves|
  }

  predicate DistinctVisits(vs: seq<Visit>) {
    forall i, j | 0 <= i < j < |vs| :: vs[i].id != vs[j].id
  }

  // Undoing.

  function UndoOne(m: Memory, c: Change): Memory {
    Memory(m.slots[c.id := c.original], m.blocks - {c.replacement})
  }

  /** Restores every slot and frees every replacement, in log order. */
  function Undo(m: Memory, log: seq<Change>): Memory {
    if log == [] then m else UndoOne(Undo(m, log[..|log| - 1]), log[|log| - 1])
  }

  predicate Touches(log: seq<Change>, id: nat, block: nat) {
    exists i | 0 <= i < |log| :: log[i].id == id || log[i].replacement == block
  }

  function Rewrite(m: Memory, id: nat, block: nat, data: Block): Memory {
    Memory(m.slots[id := block], m.blocks[block := data])
  }

  lemma UndoOneCommutes(m: Memory, c: Change, id: nat, block: nat, data: Block)
    requires c.id != id && c.replacement != block
    ensures UndoOne(Rewrite(m, id, block, data), c) == Rewrite(UndoOne(m, c), id, block, data)
  {
    assert m.slots[id := block][c.id := c.original] == m.slots[c.id := c.original][id := block];
    assert m.blocks[block := data] - {c.replacement} == (m.blocks - {c.replacement})[block := data];
  }

  /** A rewrite of a node that the log does not mention survives the undo of the log. */
  lemma {:induction false} UndoCommutes(m: Memory, log: seq<Change>, id: nat, block: nat, data: Block)
    requires !Touches(log, id, block)
    ensures Undo(Rewrite(m, id, block, data), log) == Rewrite(Undo(m, log), id, block, data)
    ensures id in m.slots ==> id in Undo(m, log).slots && Undo(m, log).slots[id] == m.slots[id]
    ensures block in Undo(m, log).blocks <==> block in m.blocks
  {
    if log != [] {
      var init, last := log[..|log| - 1], log[|log| - 1];
      assert forall i | 0 <= i < |init| :: init[i] == log[i];
      assert log[|log| - 1].id != id && log[|log| - 1].replacement != block;
      UndoCommutes(m, init, id, block, data);
      UndoOneCommutes(Undo(m, init), last, id, block, data);
    }
  }

  /** Logging a rewrite of a fresh block keeps the undone state. */
  lemma UndoLogged(m: Memory, log: seq<Change>, id: nat, block: nat, data: Block)
    requires id in m.slots && block !in m.blocks && !Touches(log, id, block)
    ensures Undo(Rewrite(m, id, block, data), log + [Change(id, m.slots[id], block)]) == Undo(m, log)
  {
    var c := Change(id, m.slots[id], block);
    UndoCommutes(m, log, id, block, data);
    assert (log + [c])[..|log|] == log;
    var base := Undo(m, log);
    assert base.slots[id := block][id := m.slots[id]] == base.slots;
    assert base.blocks[block := data] - {block} == base.blocks;
  }

  /** Every replacement is still allocated, and no two changes share one. */
  predicate Freeable(m: Memory, log: seq<Change>) {
    && (forall k | 0 <= k < |log| :: log[k].replacement in m.blocks)
    && (forall j, k | 0 <= j < k < |log| :: log[j].replacement != log[k].replacement)
  }

  // Progress of a coercion.

  predicate Widens(src: Block, dst: Block, total: int) {
    && src.Halves? && dst.Singles? && |dst.singles| == total && total <= |src.halves|
    && forall i | 0 <= i < total :: SingleMeaning(dst.singles[i]) == HalfMeaning(src.halves[i])
  }

  /** Change `c` replaced the buffer of node `v`, holding the same numbers at every index. */
  predicate Replaced(m0: Memory, m: Memory, v: Visit, c: Change) {
    && c.id == v.id && v.id in m0.slots && c.original == m0.slots[v.id] && c.original in m0.blocks
    && v.id in m.slots && m.slots[v.id] == c.replacement && c.replacement in m.blocks
    && Widens(m0.blocks[c.original], m.blocks[c.replacement], v.total)
  }

  /** The visited nodes have been coerced: exactly the half-float leaves were replaced, and undoing gives the
      original memory back. */
  ghost predicate Coerced(m0: Memory, visited: seq<Visit>, m: Memory, log: seq<Change>) {
    && |log| == |Rewritten(m0, visited)|
    && (forall k | 0 <= k < |log| :: Replaced(m0, m, Rewritten(m0, visited)[k], log[k]))
    && (forall k | 0 <= k < |log| :: log[k].replacement !in m0.blocks)
    && Freeable(m, log) && Undo(m, log) == m0
  }

  lemma {:induction false} RewrittenIds(m: Memory, vs: seq<Visit>, k: nat)
    requires k < |Rewritten(m, vs)|
    ensures exists i | 0 <= i < |vs| :: vs[i] == Rewritten(m, vs)[k]
  {
    var init := vs[..|vs| - 1];
    if k < |Rewritten(m, init)| {
      RewrittenIds(m, init, k);
      var i :| 0 <= i < |init| && init[i] == Rewritten(m, init)[k];
      assert vs[i] == Rewritten(m, vs)[k];
    } else {
      assert vs[|vs| - 1] == Rewritten(m, vs)[k];
    }
  }

  lemma RewrittenAppend(m: Memory, vs: seq<Visit>, v: Visit)
    ensures Rewritten(m, vs + [v]) == Rewritten(m, vs) + if Rewrites(m, v) then [v] else []
  {
    assert (vs + [v])[..|vs|] == vs;
  }

  /** The log mentions only nodes already visited. */
  lemma LogUntouched(m0: Memory, visited: seq<Visit>, m: Memory, log: seq<Change>, id: nat, block: nat)
    requires Coerced(m0, visited, m, log) && block !in m.blocks
    requires forall i | 0 <= i < |visited| :: visited[i].id != id
    ensures !Touches(log, id, block)
  {
    forall k | 0 <= k < |log|
      ensures log[k].id != id && log[k].replacement != block
    {
      var hits := Rewritten(m0, visited);
      assert Replaced(m0, m, hits[k], log[k]);
      RewrittenIds(m0, visited, k);
    }
  }

  /** A node not visited yet still has its original slot, and its original block is still there. */
  lemma StillOriginal(m0: Memory, visited: seq<Visit>, m: Memory, log: seq<Change>, id: nat)
    requires Coerced(m0, visited, m, log)
    requires forall i | 0 <= i < |visited| :: visited[i].id != id
    ensures id in m.slots <==> id in m0.slots
    ensures id in m.slots ==> m.slots[id] == m0.slots[id]
  {
    forall k | 0 <= k < |log|
      ensures log[k].id != id
    {
      var hits := Rewritten(m0, visited);
      assert Replaced(m0, m, hits[k], log[k]);
      RewrittenIds(m0, visited, k);
    }
    UndoSlots(m, log, id);
  }

  lemma {:induction false} UndoSlots(m: Memory, log: seq<Change>, id: nat)
    requires forall k | 0 <= k < |log| :: log[k].id != id
    ensures id in Undo(m, log).slots <==> id in m.slots
    ensures id in m.slots ==> Undo(m, log).slots[id] == m.slots[id]
  {
    if log != [] {
      var init := log[..|log| - 1];
      assert forall k | 0 <= k < |init| :: init[k] == log[k];
      assert log[|log| - 1].id != id;
      UndoSlots(m, init, id);
    }
  }

  lemma {:induction false} UndoBlocks(m: Memory, log: seq<Change>, block: nat)
    requires block in Undo(m, log).blocks
    ensures block in m.blocks && m.blocks[block] == Undo(m, log).blocks[block]
  {
    if log != [] {
      UndoBlocks(m, log[..|log| - 1], block);
    }
  }

  lemma SkipNode(m0: Memory, visited: seq<Visit>, m: Memory, log: seq<Change>, v: Visit)
    requires Coerced(m0, visited, m, log) && !Rewrites(m0, v)
    ensures Coerced(m0, visited + [v], m, log)
  {
    RewrittenAppend(m0, visited, v);
  }

  lemma RewriteNode(m0: Memory, visited: seq<Visit>, m: Memory, log: seq<Change>, v: Visit, block: nat, data: Block)
    requires Coerced(m0, visited, m, log) && Rewrites(m0, v) && DistinctVisits(visited + [v])
    requires v.id in m.slots && m.slots[v.id] in m0.blocks && block !in m.blocks
    requires Widens(m0.blocks[m.slots[v.id]], data, v.total)
    ensures Coerced(m0, visited + [v], Rewrite(m, v.id, block, data), log + [Change(v.id, m.slots[v.id], block)])
  {
    var all := visited + [v];
    forall i | 0 <= i < |visited|
      ensures visited[i].id != v.id
    {
      assert all[i] == visited[i] && all[|visited|] == v;
    }
    StillOriginal(m0, visited, m, log, v.id);
    LogUntouched(m0, visited, m, log, v.id, block);
    UndoLogged(m, log, v.id, block, data);
    RewrittenAppend(m0, visited, v);
    NotOriginal(m0, m, log, block);
    var after, changes := Rewrite(m, v.id, block, data), log + [Change(v.id, m.slots[v.id], block)];
    var hits := Rewritten(m0, all);
    forall k | 0 <= k < |changes|
      ensures Replaced(m0, after, hits[k], changes[k])
    {
      if k < |log| {
        assert Replaced(m0, m, hits[k], log[k]);
        assert log[k].id != v.id && log[k].replacement != block;
      }
    }
  }

  lemma NotOriginal(m0: Memory, m: Memory, log: seq<Change>, block: nat)
    requires Undo(m, log) == m0 && block !in m.blocks
    ensures block !in m0.blocks
  {
    if block in Undo(m, log).blocks {
      UndoBlocks(m, log, block);
    }
  }

  // The code.

  datatype Outcome = Done | OutOfMemory | LogFull(lost: nat)

  /** Working memory of one coercion; `next` is above every block. */
  class Heap {
    /** Every allocation succeeds. */
    const reliable: bool
    var memory: Memory
    var next: nat

    ghost predicate Valid()
      reads this
    {
      forall block | block in memory.blocks :: block < next
    }

    constructor (memory: Memory, next: nat, reliable: bool)
      requires forall block | block in memory.blocks :: block < next
      ensures Valid() && this.memory == memory && this.reliable == reliable
    {
      this.memory, this.next, this.reliable := memory, next, reliable;
    }

    /** Allocation may fail; a block it returns is new. */
    method Allocate(data: Block) returns (block: Option<nat>)
      requires Valid()
      modifies this
      ensures Valid()
      ensures reliable ==> block.Some?
      ensures block.None? ==> memory == old(memory)
      ensures block.Some? ==> block.value !in old(memory.blocks)
                              && memory == old(memory).(blocks := old(memory.blocks)[block.value := data])
    {
      var failed: bool := *;
      if failed && !reliable {
        return None;
      }
      block := Some(next);
      memory := memory.(blocks := memory.blocks[next := data]);
      next := next + 1;
    }

    /** Only an allocated block may be freed. */
    method Free(block: nat)
      requires Valid() && block in memory.blocks
      modifies this`memory
      ensures Valid() && memory == old(memory).(blocks := old(memory.blocks) - {block})
    {
      memory := memory.(blocks := memory.blocks - {block});
    }
  }

  method Convert(src: seq<Half>, count: nat) returns (dst: seq<Single>)
    requires count <= |src|
    ensures Widens(Halves(src), Singles(dst), count)
  {
    dst := [];
    for i := 0 to count
      invariant |dst| == i && forall j | 0 <= j < i :: SingleMeaning(dst[j]) == HalfMeaning(src[j])
    {
      var wide := HalfToFloat(src[i]);
      dst := dst + [wide];
    }
  }

  /** The undo log and the coercion that fills it. */
  class Override {
    var log: seq<Change>

    constructor ()
      ensures log == []
    {
      log := [];
    }

    /** What a failed step leaves behind: the log still undoes everything but a block lost before it was logged. */
    static ghost predicate Undoable(m0: Memory, m: Memory, log: seq<Change>, outcome: Outcome) {
      && Freeable(m, log)
      && match outcome
         case LogFull(lost) =>
           lost !in m0.blocks && lost in m.blocks && Undo(m, log) == m0.(blocks := m0.blocks[lost := m.blocks[lost]])
         case _ => Undo(m, log) == m0
    }

    /** One node: replaces its data buffer when it is a half-float leaf with data. */
    method CoerceNode(v: Visit, heap: Heap, ghost m0: Memory, ghost visited: seq<Visit>) returns (outcome: Outcome)
      requires heap.Valid() && Coerced(m0, visited, heap.memory, log)
      requires DistinctVisits(visited + [v]) && Backed(m0, [v])
      modifies this, heap
      ensures heap.Valid() && Undoable(m0, heap.memory, log, outcome) && (heap.reliable ==> outcome.Done?)
      ensures outcome.Done? ==> Coerced(m0, visited + [v], heap.memory, log)
    {
      ghost var all := visited + [v];
      assert forall i | 0 <= i < |visited| :: all[i] == visited[i] && visited[i].id != all[|visited|].id;
      StillOriginal(m0, visited, heap.memory, log, v.id);
      if !v.isHalf || !v.buffered || v.id !in heap.memory.slots || v.total <= 0 {
        SkipNode(m0, visited, heap.memory, log, v);
        return Done;
      }
      var original := heap.memory.slots[v.id];
      assert Rewrites(m0, [v][0]);
      UndoBlocks(heap.memory, log, original);
      var wide := Convert(heap.memory.blocks[original].halves, v.total);
      ghost var before := heap.memory;
      var block := heap.Allocate(Singles(wide));
      if block.None? {
        return OutOfMemory;
      }
      var pushFailed: bool := *;
      if pushFailed && !heap.reliable {
        LostBlock(m0, visited, before, log, v, block.value, Singles(wide));
        return LogFull(block.value);
      }
      RewriteNode(m0, visited, before, log, v, block.value, Singles(wide));
      log := log + [Change(v.id, original, block.value)];
      heap.memory := heap.memory.(slots := heap.memory.slots[v.id := block.value]);
      return Done;
    }

    static lemma LostBlock(m0: Memory, visited: seq<Visit>, m: Memory, log: seq<Change>, v: Visit, block: nat,
        data: Block)
      requires Coerced(m0, visited, m, log) && block !in m.blocks
      requires forall i | 0 <= i < |visited| :: visited[i].id != v.id
      ensures Undoable(m0, m.(blocks := m.blocks[block := data]), log, LogFull(block))
    {
      LogUntouched(m0, visited, m, log, v.id, block);
      NotOriginal(m0, m, log, block);
      UndoAddedBlock(m, log, block, data);
    }

    static lemma {:induction false} UndoAddedBlock(m: Memory, log: seq<Change>, block: nat, data: Block)
      requires forall i | 0 <= i < |log| :: log[i].replacement != block
      ensures Undo(m.(blocks := m.blocks[block := data]), log) ==
          Undo(m, log).(blocks := Undo(m, log).blocks[block := data])
    {
      if log != [] {
        var init, last := log[..|log| - 1], log[|log| - 1];
        assert forall i | 0 <= i < |init| :: init[i] == log[i];
        assert log[|log| - 1].replacement != block;
        UndoAddedBlock(m, init, block, data);
        var base := Undo(m, init);
        assert base.blocks[block := data] - {last.replacement} == (base.blocks - {last.replacement})[block := data];
      }
    }

    /** A subtree: the node, its common children, then its dictionary. */
    method CoerceTree(s: Schema, a: ArrowArray, heap: Heap, ghost m0: Memory, ghost visited: seq<Visit>)
        returns (outcome: Outcome)
      requires heap.Valid() && Coerced(m0, visited, heap.memory, log)
      requires DistinctVisits(visited + Visits(s, a)) && Backed(m0, Visits(s, a))
      modifies this, heap
      ensures heap.Valid() && Undoable(m0, heap.memory, log, outcome) && (heap.reliable ==> outcome.Done?)
      ensures outcome.Done? ==> Coerced(m0, visited + Visits(s, a), heap.memory, log)
      decreases s
    {
      var v := Visit(s.isHalf, a.id, a.buffered, a.total);
      var n := Min(|s.children|, |a.children|);
      ghost var inner := ChildVisits(s.children, a.children, n);
      ghost var outer := if s.dictionary.Some? && a.dictionary.Some? then Visits(s.dictionary.value, a.dictionary.value)
        else [];
      VisitParts(visited, [v], inner, outer);
      PartVisits(m0, visited, [v], inner + outer);
      outcome := CoerceNode(v, heap, m0, visited);
      if !outcome.Done? {
        return;
      }
      PartVisits(m0, visited + [v], inner, outer);
      outcome := CoerceChildren(s.children, a.children, n, heap, m0, visited + [v]);
      if !outcome.Done? {
        return;
      }
      if s.dictionary.Some? && a.dictionary.Some? {
        outcome := CoerceTree(s.dictionary.value, a.dictionary.value, heap, m0, visited + [v] + inner);
      }
    }

    static lemma VisitParts(visited: seq<Visit>, v: seq<Visit>, inner: seq<Visit>, outer: seq<Visit>)
      ensures v + inner + outer == v + (inner + outer)
      ensures visited + v + inner + outer == visited + (v + inner + outer)
      ensures outer == [] ==> visited + v + inner == visited + (v + inner + outer)
    {
    }

    method CoerceChildren(ss: seq<Schema>, aa: seq<ArrowArray>, n: nat, heap: Heap, ghost m0: Memory,
        ghost visited: seq<Visit>)
      returns (outcome: Outcome)
      requires n <= |ss| && n <= |aa| && heap.Valid() && Coerced(m0, visited, heap.memory, log)
      requires DistinctVisits(visited + ChildVisits(ss, aa, n)) && Backed(m0, ChildVisits(ss, aa, n))
      modifies this, heap
      ensures heap.Valid() && Undoable(m0, heap.memory, log, outcome) && (heap.reliable ==> outcome.Done?)
      ensures outcome.Done? ==> Coerced(m0, visited + ChildVisits(ss, aa, n), heap.memory, log)
      decreases ss
    {
      assert visited + [] == visited;
      for i := 0 to n
        invariant heap.Valid() && Coerced(m0, visited + ChildVisits(ss, aa, i), heap.memory, log)
      {
        ghost var before, child := ChildVisits(ss, aa, i), Visits(ss[i], aa[i]);
        ChildrenPrefix(m0, visited, ss, aa, i + 1, n);
        PartVisits(m0, visited, before, child);
        outcome := CoerceTree(ss[i], aa[i], heap, m0, visited + before);
        if !outcome.Done? {
          return;
        }
        assert visited + before + child == visited + ChildVisits(ss, aa, i + 1);
      }
      outcome := Done;
    }

    /** Both parts of a list of visits are distinct and backed. */
    static lemma PartVisits(m0: Memory, visited: seq<Visit>, x: seq<Visit>, y: seq<Visit>)
      requires DistinctVisits(visited + (x + y)) && Backed(m0, x + y)
      ensures DistinctVisits(visited + x) && DistinctVisits(visited + x + y) && Backed(m0, x) && Backed(m0, y)
    {
      assert visited + (x + y) == visited + x + y;
      var all := x + y;
      assert forall i | 0 <= i < |x| :: x[i] == all[i];
      assert forall i | 0 <= i < |y| :: y[i] == all[|x| + i];
      var whole, part := visited + x + y, visited + x;
      assert forall i | 0 <= i < |part| :: part[i] == whole[i];
    }

    static lemma {:induction false} ChildrenPrefix(m0: Memory, visited: seq<Visit>, ss: seq<Schema>,
        aa: seq<ArrowArray>, i: nat, n: nat)
      requires i <= n <= |ss| && n <= |aa|
      requires DistinctVisits(visited + ChildVisits(ss, aa, n)) && Backed(m0, ChildVisits(ss, aa, n))
      ensures DistinctVisits(visited + ChildVisits(ss, aa, i)) && Backed(m0, ChildVisits(ss, aa, i))
      decreases n
    {
      if i < n {
        PartVisits(m0, visited, ChildVisits(ss, aa, n - 1), Visits(ss[n - 1], aa[n - 1]));
        ChildrenPrefix(m0, visited, ss, aa, i, n - 1);
      }
    }

    static lemma {:induction false} StillAllocated(m: Memory, log: seq<Change>, i: nat)
      requires i < |log| && Freeable(m, log)
      ensures log[i].replacement in Undo(m, log[..i]).blocks
    {
      AllocatedAfter(m, log, i, i);
    }

    static lemma {:induction false} AllocatedAfter(m: Memory, log: seq<Change>, i: nat, n: nat)
      requires n <= i < |log| && Freeable(m, log)
      ensures log[i].replacement in Undo(m, log[..n]).blocks
      decreases n
    {
      if n != 0 {
        AllocatedAfter(m, log, i, n - 1);
        assert log[..n][..n - 1] == log[..n - 1];
      }
    }

    /** Restores every slot and frees every replacement. A block that was freed before could not be freed again. */
    method Restore(heap: Heap)
      requires heap.Valid() && Freeable(heap.memory, log)
      modifies this, heap
      ensures heap.Valid() && heap.memory == Undo(old(heap.memory), old(log)) && log == []
    {
      ghost var start := heap.memory;
      for i := 0 to |log|
        invariant log == old(log) && heap.Valid() && heap.memory == Undo(start, log[..i])
      {
        assert log[..i + 1][..i] == log[..i];
        StillAllocated(start, log, i);
        var c := log[i];
        heap.memory := heap.memory.(slots := heap.memory.slots[c.id := c.original]);
        heap.Free(c.replacement);
      }
      assert log[..|log|] == log;
      log := [];
    }
  }

  /** Coerces an array tree. On success exactly its half-float leaves have been replaced by equal singles; on failure
      everything is restored, up to one block when the log itself could not grow. */
  method CoerceArray(s: Schema, a: ArrowArray, heap: Heap) returns (state: Override, outcome: Outcome)
    requires heap.Valid() && DistinctVisits(Visits(s, a)) && Backed(heap.memory, Visits(s, a))
    modifies heap
    ensures heap.Valid() && fresh(state) && (heap.reliable ==> outcome.Done?)
    ensures outcome.Done? ==> Coerced(old(heap.memory), Visits(s, a), heap.memory, state.log)
    ensures outcome.OutOfMemory? ==> heap.memory == old(heap.memory)
    ensures outcome.LogFull? ==> outcome.lost !in old(heap.memory.blocks) && heap.memory.slots == old(heap.memory.slots)
                                 && heap.memory.blocks - {outcome.lost} == old(heap.memory.blocks)
                                   && outcome.lost in heap.memory.blocks
  {
    state := new Override();
    assert [] + Visits(s, a) == Visits(s, a);
    outcome := state.CoerceTree(s, a, heap, heap.memory, []);
    if !outcome.Done? {
      state.Restore(heap);
    }
  }

  /** Releasing a coerced array restores every original buffer and frees each replacement. */
  method Release(state: Override, heap: Heap, ghost m0: Memory, ghost visited: seq<Visit>)
    requires heap.Valid() && Coerced(m0, visited, heap.memory, state.log)
    modifies state, heap
    ensures heap.memory == m0 && state.log == []
  {
    state.Restore(heap);
  }
}
