/** DELETE of a plan after its row-id predicates were turned into a take list. */
module RowIdDelete {
  import opened Bytes
  import IR = ExprIR
  import D = ExprDecode
  import S = FilterSemantics
  import opened FilterPushdown
  import opened TableFilters
  import opened ScanFilters
  import opened MutationPlan
  import opened DeletePlan
  import opened RowIdRewrite

  /** Every list of row ids whose predicate the rewritten plan no longer has, other than as a take list. */
  function Erased(distributed: bool, express: Express, p: Plan): seq<seq<nat>>
    requires Rewrite(distributed, express, p).Some?
  {
    var leaf := Leaf(Rewrite(distributed, express, p).value);
    Lost(distributed, express, p) + if leaf.Some? then Listed(leaf.value.take) else []
  }

  /** Whether the rewrite erases a row-id filter or predicate. */
  predicate Erases(distributed: bool, express: Express, p: Plan)
    decreases p
  {
    if p.Get? then
      && Rewritable(p) && RowIdEntry(p.filters).Some?
      && var found := TakeFromFilter(distributed, p, p.filters[RowIdEntry(p.filters).value].filter.value);
         found.Ids? && found.ids != []
    else
      && p.children != []
      && var children := RewriteAll(distributed, express, p.children);
         Erases(distributed, express, p.children[0])
         || (p.Filter? && children.Some? && ErasesAtFilter(distributed, Filter(p.predicates, children.value)))
  }

  predicate ErasesAtFilter(distributed: bool, p: Plan)
    requires p.Filter?
  {
    && |p.children| == 1 && Bottom(p.children[0]).Some? && Rewritable(Bottom(p.children[0]).value)
    && var found := FirstIds(distributed, Bottom(p.children[0]).value.scan, p.predicates);
       found.Found? && found.list != []
  }

  lemma FilterTakes(distributed: bool, p: Plan)
    requires p.Filter? && p.children != [] && RewriteFilter(distributed, p).Some? && Leaf(p).Some?
    ensures var q := RewriteFilter(distributed, p).value;
            && Leaf(q).Some?
            && (ErasesAtFilter(distributed, p) ==> Leaf(q).value.take != [])
            && (!ErasesAtFilter(distributed, p) ==> q == p && LostAtFilter(distributed, p) == [])
  {
    if ErasesAtFilter(distributed, p) {
      var child := p.children[0];
      var list := FirstIds(distributed, Bottom(child).value.scan, p.predicates).list;
      WithTakeLeaf(child, Normalized(distributed, list));
      assert list[0] in Normalized(distributed, list);
    }
  }

  /** From a scan without a take list, a list is erased exactly when a row-id filter or predicate is. */
  lemma {:induction false} ErasedIff(distributed: bool, express: Express, p: Plan)
    requires Rewrite(distributed, express, p).Some? && Leaf(p).Some? && Leaf(p).value.take == []
    ensures Leaf(Rewrite(distributed, express, p).value).Some?
    ensures Leaf(Rewrite(distributed, express, p).value).value.take != [] <==> Erases(distributed, express, p)
    ensures Erased(distributed, express, p) != [] <==> Erases(distributed, express, p)
  {
    if p.Get? {
      if Erases(distributed, express, p) {
        var found := TakeFromFilter(distributed, p, p.filters[RowIdEntry(p.filters).value].filter.value);
        assert found.ids[0] in Normalized(distributed, found.ids);
      }
    } else {
      ErasedIff(distributed, express, p.children[0]);
      if p.Filter? {
        var children := RewriteAll(distributed, express, p.children).value;
        FilterTakes(distributed, Filter(p.predicates, children));
      }
    }
  }

  /** A plan selects exactly the rows that pass the rewritten plan's filters and are on every erased list. */
  lemma SelectedIsPassing(distributed: bool, express: Express, p: Plan, base: Env, envs: Envs, id: nat)
    requires Rewrite(distributed, express, p).Some? && ReadsScan(p)
    requires Leaf(p).Some? ==> ShowsId(express, Leaf(p).value, base, envs, id)
    ensures Selected(p, base, envs, id)
            <==> Passes(Rewrite(distributed, express, p).value, base, envs)
                 && InAll(id, Erased(distributed, express, p))
  {
    var leaf := Leaf(Rewrite(distributed, express, p).value);
    var last := if leaf.Some? then Listed(leaf.value.take) else [];
    RewriteMeaning(distributed, express, p, base, envs, id);
    InBoth(id, Lost(distributed, express, p), last);
    if leaf.Some? {
      ListedMeans(id, leaf.value.take);
    }
  }

  /** On a table, DELETE of the rewritten plan removes exactly the rows of the original plan if and only if every
      row that passes the rewritten plan's filters is on every erased list. */
  lemma DeleteAfterRewriteIff(distributed: bool, express: Express, p: Plan, src: Surroundings, ctx: D.Context,
      sym: S.Symbols, rows: set<TableRow>)
    requires Rewrite(distributed, express, p).Some? && ReadsScan(p) && Leaf(p).Some?
    requires var q := Rewrite(distributed, express, p).value;
             ReadsScan(q) && WellTypedPlan(q) && Deletes(q, src, ctx)
    requires forall r <- rows :: ShowsId(express, Leaf(p).value, r.base, r.envs, r.id)
    requires forall r <- rows :: SeenBy(FindGet(Rewrite(distributed, express, p).value).value.scan, src, sym, r)
    ensures var q := Rewrite(distributed, express, p).value;
            (forall r <- rows :: Removes(q, src, ctx, sym, r) <==> Selected(p, r.base, r.envs, r.id))
            <==> forall r <- rows | Passes(q, r.base, r.envs) :: InAll(r.id, Erased(distributed, express, p))
  {
    var q := Rewrite(distributed, express, p).value;
    forall r <- rows
      ensures Removes(q, src, ctx, sym, r) <==> Passes(q, r.base, r.envs)
      ensures Selected(p, r.base, r.envs, r.id)
          <==> Passes(q, r.base, r.envs) && InAll(r.id, Erased(distributed, express, p))
    {
      DeleteKeeps(q, src, ctx, sym, r);
      SelectedIsPassing(distributed, express, p, r.base, r.envs, r.id);
    }
  }

  function Above(ids: seq<nat>): (r: nat)
    ensures forall id <- ids :: id < r
  {
    if ids == [] then 0
    else
      var rest, last := Above(ids[..|ids| - 1]), ids[|ids| - 1];
      assert ids == ids[..|ids| - 1] + [last];
      if last < rest then rest else last + 1
  }

  /** The same columns under every row id. */
  ghost predicate UnderEveryId(express: Express, p: Plan, scan: Scan, src: Surroundings, sym: S.Symbols,
      view: nat -> TableRow)
  {
    && Leaf(p).Some?
    && forall id: nat ::
         && view(id).id == id && view(id).row == view(0).row && SeenBy(scan, src, sym, view(id))
         && ShowsId(express, Leaf(p).value, view(id).base, view(id).envs, id)
  }

  /** For columns that DELETE of the rewritten plan removes under some id: it removes them exactly under the ids the
      original plan selects if and only if the rewrite erased no row-id filter or predicate. */
  lemma DeleteUnderEveryIdIff(distributed: bool, express: Express, p: Plan, src: Surroundings, ctx: D.Context,
      sym: S.Symbols, view: nat -> TableRow)
    requires Rewrite(distributed, express, p).Some? && ReadsScan(p) && Leaf(p).Some? && Leaf(p).value.take == []
    requires var q := Rewrite(distributed, express, p).value;
             && ReadsScan(q) && WellTypedPlan(q) && Deletes(q, src, ctx)
             && UnderEveryId(express, p, FindGet(q).value.scan, src, sym, view)
             && Removes(q, src, ctx, sym, view(0))
    ensures var q := Rewrite(distributed, express, p).value;
            (forall id: nat ::
               Removes(q, src, ctx, sym, view(id)) <==> Selected(p, view(id).base, view(id).envs, id))
            <==> !Erases(distributed, express, p)
  {
    var q, lists := Rewrite(distributed, express, p).value, Erased(distributed, express, p);
    ErasedIff(distributed, express, p);
    forall id: nat
      ensures Removes(q, src, ctx, sym, view(id))
      ensures Selected(p, view(id).base, view(id).envs, id) <==> InAll(id, lists)
    {
      DeleteKeeps(q, src, ctx, sym, view(id));
      SelectedIsPassing(distributed, express, p, view(id).base, view(id).envs, id);
    }
    if lists != [] {
      var id := Above(lists[0]);
      assert id !in lists[0] && !InAll(id, lists);
      assert Removes(q, src, ctx, sym, view(id)) && !Selected(p, view(id).base, view(id).envs, id);
    }
  }

  // A plan whose DELETE is accepted is left alone: what the rewrite erases, DELETE would have refused.

  lemma RowIdNotBuilt(scan: Scan, e: Bound, src: Surroundings)
    requires IsRowIdRef(scan, e)
    ensures BuildSub(OnScan(scan, false), e, src).None?
  {
    assert BuildSub(OnScan(scan, false), e, src) == Build(OnScan(scan, false), e, src) == BuildColumn(scan, false, e);
  }

  lemma {:induction false} BuiltDisjunct(distributed: bool, scan: Scan, e: Bound, src: Surroundings)
    requires BuildSub(OnScan(scan, false), e, src).Some?
    ensures DisjunctIds(distributed, scan, e) == NotIds || DisjunctIds(distributed, scan, e) == Ids([])
    decreases e, 0
  {
    assert BuildSub(OnScan(scan, false), e, src) == Build(OnScan(scan, false), e, src);
    if IsOr(e) {
      BuiltDisjuncts(distributed, scan, e.children, src);
    } else if e.Compare? && e.cmp == Some(IR.Eq) {
      if IsRowIdRef(scan, e.lhs) {
        RowIdNotBuilt(scan, e.lhs, src);
      } else if IsRowIdRef(scan, e.rhs) {
        RowIdNotBuilt(scan, e.rhs, src);
      }
    }
  }

  lemma {:induction false} BuiltDisjuncts(distributed: bool, scan: Scan, es: seq<Bound>, src: Surroundings)
    requires BuildAll(OnScan(scan, false), es, src).Some?
    ensures DisjunctsIds(distributed, scan, es) == NotIds || DisjunctsIds(distributed, scan, es) == Ids([])
    decreases es
  {
    if es != [] {
      BuiltDisjunct(distributed, scan, es[0], src);
      BuiltDisjuncts(distributed, scan, es[1..], src);
    }
  }

  lemma BuiltListsNone(distributed: bool, scan: Scan, e: Bound, src: Surroundings)
    requires Build(OnScan(scan, false), e, src).Some?
    ensures PredicateIds(distributed, scan, e) == NotIds
  {
    if e.InTest? && IsRowIdRef(scan, e.child) {
      RowIdNotBuilt(scan, e.child, src);
    } else if IsOr(e) {
      BuiltDisjuncts(distributed, scan, e.children, src);
    }
  }

  lemma {:induction false} BuiltHaveNone(distributed: bool, scan: Scan, ps: seq<Option<Bound>>, src: Surroundings)
    requires PredicateParts(scan, ps, src).Some?
    ensures FirstIds(distributed, scan, ps) == Missing
    decreases ps
  {
    if ps != [] {
      BuiltListsNone(distributed, scan, ps[0].value, src);
      BuiltHaveNone(distributed, scan, ps[1..], src);
    }
  }

  lemma {:induction false} PartsOfSuffix(scan: Scan, a: seq<Option<Bound>>, b: seq<Option<Bound>>, src: Surroundings)
    requires PredicateParts(scan, a + b, src).Some?
    ensures PredicateParts(scan, a, src).Some? && PredicateParts(scan, b, src).Some?
    decreases a
  {
    if a == [] {
      assert a + b == b;
    } else {
      assert (a + b)[0] == a[0] && (a + b)[1..] == a[1..] + b;
      PartsOfSuffix(scan, a[1..], b, src);
    }
  }

  /** No table has as many columns as the id of the virtual column `_rowid`. */
  predicate Sized(scan: Scan) {
    |scan.names| <= LANCE_ROW_ID_KEY
  }

  /** A plan that DELETE accepts has no row-id predicate, so the rewrite changes nothing. */
  lemma {:induction false} AcceptedIsUntouched(distributed: bool, express: Express, p: Plan, src: Surroundings)
    requires DeleteParts(p, src).Some? && Sized(FindGet(p).value.scan)
    ensures Rewrite(distributed, express, p) == Some(p)
  {
    if p.Get? {
      assert forall k | 0 <= k < |p.filters| :: Pushed(WholeTable(p.scan), false, p.filters[k], src);
    } else {
      var child := p.children[0];
      var get, below := FindGet(child).value, CollectPredicates(child).value;
      var own := if p.Filter? then p.predicates else [];
      PartsOfSuffix(get.scan, own, below, src);
      AcceptedIsUntouched(distributed, express, child, src);
      assert p.children == [child];
      RewriteOnly(distributed, express, child);
      if p.Filter? {
        Collected(child);
        if Bottom(child).Some? {
          WithTakeLeaf(child, []);
          BuiltHaveNone(distributed, get.scan, p.predicates, src);
        }
      }
    }
  }

  lemma RewriteOnly(distributed: bool, express: Express, child: Plan)
    requires Rewrite(distributed, express, child).Some?
    ensures RewriteAll(distributed, express, [child]) == Some([Rewrite(distributed, express, child).value])
  {
    assert [child][1..] == [];
    assert RewriteAll(distributed, express, []) == Some([]);
    assert [Rewrite(distributed, express, child).value] + [] == [Rewrite(distributed, express, child).value];
  }

  // DELETE FROM t WHERE rowid IN (1, 5).

  const ONE_COLUMN := Scan(0, [RowId, LanceRowId], [A], [IR.Boolean], {})
  const ROWS := Get(TableScan, false, ONE_COLUMN, [], [], [])

  function InIds(first: IR.u64, second: IR.u64): Bound {
    InTest(false, ColumnRef(0, 0, 0), [Constant(IR.UnsignedValue(first)), Constant(IR.UnsignedValue(second))])
  }

  function ByRowId(): Plan {
    Filter([Some(InIds(1, 5))], [ROWS])
  }

  lemma InIdsList(distributed: bool, a: IR.u64, b: IR.u64)
    ensures PredicateIds(distributed, ONE_COLUMN, InIds(a, b)) == Ids([a as nat, b as nat])
  {
    var items := InIds(a, b).items;
    assert items[1..] == [Constant(IR.UnsignedValue(b))] && items[1..][1..] == [];
    assert ItemIds(distributed, items[1..]) == Ids([b as nat]);
  }

  lemma TakesOne(distributed: bool, g: Plan, a: IR.u64, b: IR.u64)
    requires Rewritable(g) && g.scan == ONE_COLUMN && a != b
    ensures RewriteFilter(distributed, Filter([Some(InIds(a, b))], [g])) == Some(g.(take := [a as nat, b as nat]))
    ensures LostAtFilter(distributed, Filter([Some(InIds(a, b))], [g])) == Listed(g.take)
  {
    InIdsList(distributed, a, b);
    var ps, ids := [Some(InIds(a, b))], [a as nat, b as nat];
    assert FirstIds(distributed, g.scan, ps) == Found(0, ids);
    assert Without(ps, 0) == [];
    UniqueOne(a);
    assert ids[..1] == [a as nat];
    assert Unique(ids) == ids;
  }

  lemma ByRowIdRewritten(distributed: bool, express: Express)
    ensures Rewrite(distributed, express, ByRowId()) == Some(ROWS.(take := [1, 5]))
    ensures Erased(distributed, express, ByRowId()) == [[1, 5]]
  {
    TakesOne(distributed, ROWS, 1, 5);
    RewriteOnly(distributed, express, ROWS);
    assert ByRowId() == Filter([Some(InIds(1, 5))], [ROWS]);
    assert Lost(distributed, express, ROWS) == [];
    assert Lost(distributed, express, ByRowId()) == [] + Listed([]);
  }

  lemma ByRowIdReadsScan()
    ensures ReadsScan(ByRowId()) && Leaf(ByRowId()) == Some(ROWS)
  {
    assert ReadsThrough(ROWS, ColumnRef(0, 0, 0)) && AllReadThrough(ROWS, InIds(1, 5).items[1..]);
    assert ReadsThrough(ROWS, InIds(1, 5));
    assert Leaf(ROWS) == Some(ROWS);
  }

  /** The original plan is refused. The rewritten one deletes every row, whatever its id. */
  lemma DeleteByRowIdDeletesAll(distributed: bool, express: Express, src: Surroundings, ctx: D.Context, sym: S.Symbols,
      r: TableRow)
    requires ShowsId(express, ROWS, r.base, r.envs, r.id) && r.id != 1 && r.id != 5
    ensures DeleteParts(ByRowId(), src).None? && !Selected(ByRowId(), r.base, r.envs, r.id)
    ensures Rewrite(distributed, express, ByRowId()) == Some(ROWS.(take := [1, 5]))
    ensures Deletes(ROWS.(take := [1, 5]), src, ctx) && Removes(ROWS.(take := [1, 5]), src, ctx, sym, r)
  {
    var p, q := ByRowId(), ROWS.(take := [1, 5]);
    ByRowIdRewritten(distributed, express);
    if DeleteParts(p, src).Some? {
      AcceptedIsUntouched(distributed, express, p, src);
    }
    ByRowIdReadsScan();
    SelectedIsPassing(distributed, express, p, r.base, r.envs, r.id);
    assert Listed([1, 5]) == [[1, 5]];
    ListedMeans(r.id, [1, 5]);
    assert DeleteParts(q, src) == Some([] + []);
  }

  // WHERE _rowid = 5 AND rowid IN (1, 7), as a table filter and a predicate.

  function FiveByFilter(): Plan {
    ROWS.(filters := [Entry(LANCE_ROW_ID_KEY, Some(ConstantFilter(Some(IR.Eq), IR.UnsignedValue(5))))])
  }

  function ByBothNames(): Plan {
    Filter([Some(InIds(1, 7))], [FiveByFilter()])
  }

  lemma UniqueOne(id: nat)
    ensures Unique([id]) == [id]
  {
    assert [id][..0] == [];
  }

  lemma FilterTakesFive(distributed: bool, express: Express)
    ensures RewriteGet(distributed, express, FiveByFilter()) == Some(ROWS.(take := [5]))
  {
    var g := FiveByFilter();
    var f := g.filters[0].filter.value;
    assert RowIdEntry(g.filters) == Some(0) && Without(g.filters, 0) == [];
    assert TakeFromFilter(distributed, g, f) == FilterIds(distributed, f) == OneId(distributed, IR.UnsignedValue(5));
    UniqueOne(5);
  }

  lemma BothNamesRewritten(distributed: bool, express: Express)
    ensures Rewrite(distributed, express, ByBothNames()) == Some(ROWS.(take := [1, 7]))
  {
    var g, taken := FiveByFilter(), ROWS.(take := [5]);
    FilterTakesFive(distributed, express);
    assert Rewrite(distributed, express, g) == Some(taken);
    RewriteOnly(distributed, express, g);
    TakesOne(distributed, taken, 1, 7);
    assert taken.(take := [1, 7]) == ROWS.(take := [1, 7]);
  }

  /** No row has both ids, yet the rewritten plan selects row 1: the second list replaced the first. */
  lemma SecondListReplacesFirst(distributed: bool, express: Express, base: Env, envs: Envs)
    requires ShowsId(express, FiveByFilter(), base, envs, 1)
    ensures Rewrite(distributed, express, ByBothNames()) == Some(ROWS.(take := [1, 7]))
    ensures Selected(ROWS.(take := [1, 7]), base, envs, 1) && !Selected(ByBothNames(), base, envs, 1)
  {
    var f := FiveByFilter().filters[0].filter.value;
    BothNamesRewritten(distributed, express);
    assert FilterIds(distributed, f) == Ids([5]);
    FilterIdsMeaning(distributed, f, envs(LANCE_ROW_ID_KEY), 1);
    assert !Holds(FiveByFilter().filters[0], envs);
    assert !Passes(FiveByFilter(), base, envs);
    assert Leaf(ROWS.(take := [1, 7])) == Some(ROWS.(take := [1, 7]));
  }
}
