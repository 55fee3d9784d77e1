/** Row-id predicates and filters turned into take lists: the rewritten plan and the rows it selects. */
module RowIdRewrite {
  import opened Bytes
  import IR = ExprIR
  import D = ExprDecode
  import S = FilterSemantics
  import opened FilterPushdown
  import opened TableFilters
  import opened ScanFilters
  import opened MutationPlan
  import opened DeletePlan

  // Which row ids a predicate or table filter lists.

  /** Keys of row-id filters among the table filters. */
  const ROW_ID_KEY: nat := 0xFFFF_FFFF_FFFF_FFFF
  const LANCE_ROW_ID_KEY: nat := 9223372036854775900

  /** Not a list of row ids, a list of them, or a constant that is no row id, for which the rewrite throws. */
  datatype Extraction = NotIds | Ids(ids: seq<nat>) | Invalid

  function RowIdOf(v: IR.Value): Option<nat> {
    match v
    case SignedValue(i) => if i >= 0 then Some(i as nat) else None
    case UnsignedValue(u) => Some(u as nat)
    case _ => None
  }

  function OneId(distributed: bool, v: IR.Value): Extraction {
    if distributed && v.NullValue? then NotIds
    else if RowIdOf(v).Some? then Ids([RowIdOf(v).value])
    else Invalid
  }

  function Join(first: Extraction, rest: Extraction): Extraction {
    if !first.Ids? then first else if !rest.Ids? then rest else Ids(first.ids + rest.ids)
  }

  /** The items of an IN list; the distributed build skips NULL. */
  function ItemIds(distributed: bool, items: seq<Bound>): Extraction {
    if items == [] then Ids([])
    else if !items[0].Constant? then NotIds
    else if distributed && items[0].value.NullValue? then ItemIds(distributed, items[1..])
    else Join(OneId(distributed, items[0].value), ItemIds(distributed, items[1..]))
  }

  predicate IsIdColumn(scan: Scan, i: nat) {
    i < |scan.columnIds| && (scan.columnIds[i].RowId? || scan.columnIds[i].LanceRowId?)
  }

  /** References are resolved against the scanned columns, whatever is between the predicate and the scan. */
  predicate IsRowIdRef(scan: Scan, e: Bound) {
    match e
    case Ref(i) => IsIdColumn(scan, i)
    case ColumnRef(t, c, _) => t == scan.table && IsIdColumn(scan, c)
    case _ => false
  }

  function EqualityId(distributed: bool, scan: Scan, e: Bound): Extraction {
    if !e.Compare? || e.cmp != Some(IR.Eq) then NotIds
    else if IsRowIdRef(scan, e.lhs) && e.rhs.Constant? then OneId(distributed, e.rhs.value)
    else if IsRowIdRef(scan, e.rhs) && e.lhs.Constant? then OneId(distributed, e.lhs.value)
    else NotIds
  }

  predicate IsOr(e: Bound) {
    e.Conjoin? && e.conj == Some(IR.Or)
  }

  function DisjunctIds(distributed: bool, scan: Scan, e: Bound): Extraction
    decreases e, 0
  {
    if IsOr(e) then DisjunctsIds(distributed, scan, e.children) else EqualityId(distributed, scan, e)
  }

  function DisjunctsIds(distributed: bool, scan: Scan, es: seq<Bound>): Extraction
    decreases es
  {
    if es == [] then Ids([])
    else Join(DisjunctIds(distributed, scan, es[0]), DisjunctsIds(distributed, scan, es[1..]))
  }

  /** An IN list over the row id, or an OR of equalities with it. */
  function PredicateIds(distributed: bool, scan: Scan, e: Bound): Extraction {
    match e
    case InTest(false, child, items) =>
      if items == [] || !IsRowIdRef(scan, child) then NotIds else ItemIds(distributed, items)
    case Conjoin(Some(Or), children) =>
      var found := DisjunctsIds(distributed, scan, children);
      if found == Ids([]) then NotIds else found
    case _ => NotIds
  }

  function Constants(vs: seq<IR.Value>): seq<Bound> {
    if vs == [] then [] else [Constant(vs[0])] + Constants(vs[1..])
  }

  function FilterIds(distributed: bool, f: TableFilter): Extraction {
    match f
    case InFilter(values) => ItemIds(distributed, Constants(values))
    case ConstantFilter(Some(Eq), constant) => OneId(distributed, constant)
    case OptionalFilter(Some(child)) => FilterIds(distributed, child)
    case _ => NotIds
  }

  /** First occurrences, in order. */
  function Unique(ids: seq<nat>): (r: seq<nat>)
    ensures forall x: nat :: x in r <==> x in ids
    ensures forall i, j | 0 <= i < j < |r| :: r[i] != r[j]
  {
    if ids == [] then []
    else
      var rest, last := Unique(ids[..|ids| - 1]), ids[|ids| - 1];
      assert ids == ids[..|ids| - 1] + [last];
      if last in rest then rest else rest + [last]
  }

  function Normalized(distributed: bool, ids: seq<nat>): (r: seq<nat>)
    ensures forall x: nat :: x in r <==> x in ids
  {
    if distributed then Unique(ids) else ids
  }

  /** Removes repetitions in place. */
  method NormalizeIds(a: array<nat>) returns (n: nat)
    modifies a
    ensures n <= a.Length && a[..n] == Unique(old(a[..]))
  {
    n := 0;
    var seen: set<nat> := {};
    for i := 0 to a.Length
      invariant n <= i && a[..n] == Unique(old(a[..i]))
      invariant forall x: nat :: x in seen <==> x in old(a[..i])
      invariant forall j | i <= j < a.Length :: a[j] == old(a[j])
    {
      assert old(a[..i + 1])[..i] == old(a[..i]) && old(a[..i + 1])[i] == a[i];
      if a[i] !in seen {
        seen := seen + {a[i]};
        a[n] := a[i];
        n := n + 1;
      }
    }
    assert old(a[..a.Length]) == old(a[..]);
  }

  function Weight(es: seq<Bound>): nat
    decreases es
  {
    if es == [] then 0 else 1 + (if IsOr(es[0]) then Weight(es[0].children) else 0) + Weight(es[1..])
  }

  lemma JoinThree(a: Extraction, b: Extraction, c: Extraction)
    ensures Join(Join(a, b), c) == Join(a, Join(b, c))
  {
    if a.Ids? && b.Ids? && c.Ids? {
      assert (a.ids + b.ids) + c.ids == a.ids + (b.ids + c.ids);
    }
  }

  lemma {:induction false} DisjunctsAppend(distributed: bool, scan: Scan, a: seq<Bound>, b: seq<Bound>)
    ensures DisjunctsIds(distributed, scan, a + b)
            == Join(DisjunctsIds(distributed, scan, a), DisjunctsIds(distributed, scan, b))
    ensures Weight(a + b) == Weight(a) + Weight(b)
    decreases a
  {
    if a == [] {
      assert a + b == b;
    } else {
      assert (a + b)[0] == a[0] && (a + b)[1..] == a[1..] + b;
      DisjunctsAppend(distributed, scan, a[1..], b);
      JoinThree(DisjunctIds(distributed, scan, a[0]), DisjunctsIds(distributed, scan, a[1..]),
        DisjunctsIds(distributed, scan, b));
    }
  }

  lemma NestedStep(distributed: bool, scan: Scan, stack: seq<Bound>)
    requires stack != [] && IsOr(stack[0])
    ensures DisjunctsIds(distributed, scan, stack[0].children + stack[1..]) == DisjunctsIds(distributed, scan, stack)
    ensures Weight(stack[0].children + stack[1..]) < Weight(stack)
  {
    DisjunctsAppend(distributed, scan, stack[0].children, stack[1..]);
  }

  lemma EqualityStep(distributed: bool, scan: Scan, stack: seq<Bound>, ids: seq<nat>)
    requires stack != [] && !IsOr(stack[0])
    ensures Weight(stack[1..]) < Weight(stack)
    ensures var one, all := EqualityId(distributed, scan, stack[0]), DisjunctsIds(distributed, scan, stack);
            if one.Ids? then Join(Ids(ids), all) ==
              Join(Ids(ids + one.ids), DisjunctsIds(distributed, scan, stack[1..]))
            else Join(Ids(ids), all) == one
  {
    JoinThree(Ids(ids), EqualityId(distributed, scan, stack[0]), DisjunctsIds(distributed, scan, stack[1..]));
  }

  lemma JoinEnds(first: Extraction)
    ensures Join(Ids([]), first) == first && Join(first, Ids([])) == first
  {
    if first.Ids? {
      assert [] + first.ids == first.ids == first.ids + [];
    }
  }

  /** The stack loop over nested ORs, from left to right; the next expression is at the front. */
  method CollectDisjuncts(distributed: bool, scan: Scan, e: Bound) returns (found: Extraction)
    requires IsOr(e)
    ensures found == PredicateIds(distributed, scan, e)
  {
    var ids: seq<nat>, stack := [], [e];
    ghost var all := DisjunctsIds(distributed, scan, e.children);
    JoinEnds(all);
    assert [e][1..] == [] && DisjunctsIds(distributed, scan, [e]) == Join(all, DisjunctsIds(distributed, scan, []));
    while stack != []
      invariant Join(Ids(ids), DisjunctsIds(distributed, scan, stack)) == all
      decreases Weight(stack)
    {
      var current := stack[0];
      if IsOr(current) {
        NestedStep(distributed, scan, stack);
        stack := current.children + stack[1..];
      } else {
        EqualityStep(distributed, scan, stack, ids);
        stack := stack[1..];
        var one := EqualityId(distributed, scan, current);
        if !one.Ids? {
          return one;
        }
        ids := ids + one.ids;
      }
    }
    JoinEnds(Ids(ids));
    return if ids == [] then NotIds else Ids(ids);
  }

  // The rewrite.

  /** The engine's expression form of a table filter on a column. */
  type Express = (TableFilter, Bound) -> Bound

  function FirstWithKey(es: seq<Entry>, key: nat): (k: nat)
    ensures k <= |es| && (k < |es| ==> es[k].index == key)
  {
    if es == [] || es[0].index == key then 0 else 1 + FirstWithKey(es[1..], key)
  }

  /** The row-id filter the rewrite looks at: one on `_rowid`, else one on `rowid`. */
  function RowIdEntry(es: seq<Entry>): (r: Option<nat>)
    ensures r.Some? ==> r.value < |es| && es[r.value].filter.Some?
    ensures r.Some? ==> es[r.value].index == LANCE_ROW_ID_KEY || es[r.value].index == ROW_ID_KEY
  {
    var k := FirstWithKey(es, LANCE_ROW_ID_KEY);
    if k < |es| && es[k].filter.Some? then Some(k)
    else
      var j := FirstWithKey(es, ROW_ID_KEY);
      if j < |es| && es[j].filter.Some? then Some(j) else None
  }

  function Without<T>(xs: seq<T>, k: nat): seq<T>
    requires k < |xs|
  {
    xs[..k] + xs[k + 1..]
  }

  function ColumnOfKey(key: nat): ColumnId {
    if key == LANCE_ROW_ID_KEY then LanceRowId else RowId
  }

  function FirstColumn(ids: seq<ColumnId>, c: ColumnId): (k: nat)
    ensures k <= |ids| && (k < |ids| ==> ids[k] == c)
  {
    if ids == [] || ids[0] == c then 0 else 1 + FirstColumn(ids[1..], c)
  }

  /** A Lance scan of a dataset, not of a namespace query. */
  predicate Rewritable(g: Plan) {
    g.Get? && !g.kind.ForeignScan? && !g.viaNamespace
  }

  /** What the filter lists; the native build does not look at it while there is a take list. */
  function TakeFromFilter(distributed: bool, g: Plan, f: TableFilter): Extraction
    requires g.Get?
  {
    if !distributed && g.take != [] then NotIds else FilterIds(distributed, f)
  }

  /** A row-id filter becomes the take list. The native build moves any other row-id filter above the scan. */
  function RewriteGet(distributed: bool, express: Express, g: Plan): Option<Plan>
    requires g.Get?
  {
    if !Rewritable(g) || RowIdEntry(g.filters).None? then Some(g)
    else
      var k := RowIdEntry(g.filters).value;
      var Entry(key, filter) := g.filters[k];
      var rest := g.(filters := Without(g.filters, k));
      match TakeFromFilter(distributed, g, filter.value)
      case Invalid => None
      case Ids(ids) =>
        if ids != [] then Some(rest.(take := Normalized(distributed, ids))) else Kept(distributed, express, g, k)
      case NotIds => Kept(distributed, express, g, k)
  }

  function Kept(distributed: bool, express: Express, g: Plan, k: nat): Option<Plan>
    requires g.Get? && k < |g.filters| && g.filters[k].filter.Some?
  {
    var Entry(key, filter) := g.filters[k];
    var position := FirstColumn(g.scan.columnIds, ColumnOfKey(key));
    if distributed then Some(g)
    else if position == |g.scan.columnIds| then None
    else
      var moved := express(filter.value, ColumnRef(g.scan.table, position, 0));
      Some(Filter([Some(moved)], [g.(filters := Without(g.filters, k))]))
  }

  /** The scan below a stack of projections. */
  function Bottom(p: Plan): (r: Option<Plan>)
    ensures r.Some? ==> r.value.Get?
  {
    if p.Get? then Some(p)
    else if p.Projection? && p.children != [] then Bottom(p.children[0])
    else None
  }

  function WithTake(p: Plan, ids: seq<nat>): Plan
    requires Bottom(p).Some?
  {
    if p.Get? then p.(take := ids) else p.(children := [WithTake(p.children[0], ids)] + p.children[1..])
  }

  /** The first predicate that lists row ids, if none before it is invalid. */
  datatype Search = Missing | Found(index: nat, list: seq<nat>) | Fails

  function FirstIds(distributed: bool, scan: Scan, ps: seq<Option<Bound>>): (r: Search)
    ensures r.Found? ==> r.index < |ps| && ps[r.index].Some?
    ensures r.Found? ==> PredicateIds(distributed, scan, ps[r.index].value) == Ids(r.list)
    decreases ps
  {
    if ps == [] then Missing
    else
      var head := if ps[0].Some? then PredicateIds(distributed, scan, ps[0].value) else NotIds;
      if head.Invalid? then Fails
      else if head.Ids? then Found(0, head.ids)
      else
        var tail := FirstIds(distributed, scan, ps[1..]);
        if tail.Found? then Found(tail.index + 1, tail.list) else tail
  }

  /** A filter's row-id predicate becomes the take list of the scan below, in place of the one there. */
  function RewriteFilter(distributed: bool, p: Plan): Option<Plan>
    requires p.Filter?
  {
    if |p.children| != 1 || Bottom(p.children[0]).None? || !Rewritable(Bottom(p.children[0]).value) then Some(p)
    else
      match FirstIds(distributed, Bottom(p.children[0]).value.scan, p.predicates)
      case Missing => Some(p)
      case Fails => None
      case Found(k, ids) =>
        if ids == [] then Some(p)
        else
          var child, rest := WithTake(p.children[0], Normalized(distributed, ids)), Without(p.predicates, k);
          Some(if rest == [] then child else Filter(rest, [child]))
  }

  /** The rewritten plan, or none where the rewrite throws. */
  function Rewrite(distributed: bool, express: Express, p: Plan): Option<Plan>
    decreases p
  {
    if p.Get? then RewriteGet(distributed, express, p)
    else
      var children :- RewriteAll(distributed, express, p.children);
      var q := p.(children := children);
      if q.Filter? then RewriteFilter(distributed, q) else Some(q)
  }

  function RewriteAll(distributed: bool, express: Express, ps: seq<Plan>): (r: Option<seq<Plan>>)
    ensures r.Some? ==> |r.value| == |ps|
    decreases ps
  {
    if ps == [] then Some([])
    else
      var head :- Rewrite(distributed, express, ps[0]);
      var tail :- RewriteAll(distributed, express, ps[1..]);
      Some([head] + tail)
  }

  // Take lists that the rewrite throws away.

  function Listed(ids: seq<nat>): seq<seq<nat>> {
    if ids == [] then [] else [ids]
  }

  /** The list replaced when the scan's own filter is turned into a take list. */
  function LostAtGet(distributed: bool, g: Plan): seq<seq<nat>>
    requires g.Get?
  {
    if !Rewritable(g) || RowIdEntry(g.filters).None? then []
    else
      var found := TakeFromFilter(distributed, g, g.filters[RowIdEntry(g.filters).value].filter.value);
      if found.Ids? && found.ids != [] then Listed(g.take) else []
  }

  function LostAtFilter(distributed: bool, p: Plan): seq<seq<nat>>
    requires p.Filter?
  {
    if |p.children| != 1 || Bottom(p.children[0]).None? || !Rewritable(Bottom(p.children[0]).value) then []
    else
      var get := Bottom(p.children[0]).value;
      var found := FirstIds(distributed, get.scan, p.predicates);
      if found.Found? && found.list != [] then Listed(get.take) else []
  }

  function Lost(distributed: bool, express: Express, p: Plan): seq<seq<nat>>
    decreases p
  {
    if p.Get? then LostAtGet(distributed, p)
    else if p.children == [] then []
    else
      var below := Lost(distributed, express, p.children[0]);
      var children := RewriteAll(distributed, express, p.children);
      if p.Filter? && children.Some? then below + LostAtFilter(distributed, Filter(p.predicates, children.value))
        else below
  }

  // What the lists mean.

  /** The scalar compares with every constant as the row id does. */
  ghost predicate IsId(x: D.Scalar, id: nat, src: Surroundings, sym: S.Symbols) {
    && x != D.Null
    && (forall i: IR.i64 ::
          && (sym.compare(IR.Eq, x, ValueOf(IR.SignedValue(i), src)) <==> i == id)
          && (sym.compare(IR.Eq, ValueOf(IR.SignedValue(i), src), x) <==> i == id))
    && (forall u: IR.u64 ::
          && (sym.compare(IR.Eq, x, ValueOf(IR.UnsignedValue(u), src)) <==> u == id)
          && (sym.compare(IR.Eq, ValueOf(IR.UnsignedValue(u), src), x) <==> u == id))
  }

  /** On the row of this id the scan's row-id columns hold it, and the expression form of a row-id filter says what the
      filter says. */
  ghost predicate ShowsId(express: Express, g: Plan, base: Env, envs: Envs, id: nat)
    requires g.Get?
  {
    && ColumnsShowId(g.scan, base, id)
    && FilterShowsId(express, g, base, envs(LANCE_ROW_ID_KEY), LANCE_ROW_ID_KEY, id)
    && FilterShowsId(express, g, base, envs(ROW_ID_KEY), ROW_ID_KEY, id)
  }

  ghost predicate ColumnsShowId(scan: Scan, base: Env, id: nat) {
    forall i: nat | i < |scan.columnIds| && (scan.columnIds[i].RowId? || scan.columnIds[i].LanceRowId?) ::
      && IsId(base.position(i), id, base.src, base.sym)
      && forall d: nat :: IsId(base.column(scan.table, i, d), id, base.src, base.sym)
  }

  ghost predicate FilterShowsId(express: Express, g: Plan, base: Env, env: Env, key: nat, id: nat)
    requires g.Get?
  {
    && IsId(env.position(0), id, env.src, env.sym)
    && forall f: TableFilter, i: nat | i < |g.scan.columnIds| && g.scan.columnIds[i] == ColumnOfKey(key) ::
         Meaning(express(f, ColumnRef(g.scan.table, i, 0)), OutputEnv(g.outputs, base)) == FilterMeaning(f, env)
  }

  lemma OneIdMeaning(distributed: bool, v: IR.Value, x: D.Scalar, id: nat, src: Surroundings, sym: S.Symbols)
    requires OneId(distributed, v).Ids? && IsId(x, id, src, sym)
    ensures S.Compare3(IR.Eq, x, ValueOf(v, src), sym) == D.Boolean(id in OneId(distributed, v).ids)
    ensures S.Compare3(IR.Eq, ValueOf(v, src), x, sym) == D.Boolean(id in OneId(distributed, v).ids)
  {
  }

  lemma {:induction false} ItemsMeaning(distributed: bool, items: seq<Bound>, x: D.Scalar, id: nat, env: Env)
    requires ItemIds(distributed, items).Ids? && IsId(x, id, env.src, env.sym)
    ensures S.AnyEqual(x, MeaningAll(items, env), env.sym) == D.Boolean(true) <==> id in ItemIds(distributed, items).ids
  {
    if items != [] {
      ItemsMeaning(distributed, items[1..], x, id, env);
      FirstItemMeaning(distributed, items, x, id, env);
    }
  }

  lemma FirstItemMeaning(distributed: bool, items: seq<Bound>, x: D.Scalar, id: nat, env: Env)
    requires items != [] && ItemIds(distributed, items).Ids? && IsId(x, id, env.src, env.sym)
    requires S.AnyEqual(x, MeaningAll(items[1..], env), env.sym) == D.Boolean(true)
        <==> id in ItemIds(distributed, items[1..]).ids
    ensures S.AnyEqual(x, MeaningAll(items, env), env.sym) == D.Boolean(true) <==> id in ItemIds(distributed, items).ids
  {
    var v := items[0].value;
    assert MeaningSub(items[0], env) == Meaning(items[0], env) == ValueOf(v, env.src);
    assert MeaningAll(items, env)[1..] == MeaningAll(items[1..], env);
    if !(distributed && v.NullValue?) {
      OneIdMeaning(distributed, v, x, id, env.src, env.sym);
    }
  }

  lemma {:induction false} ConstantsMeaning(vs: seq<IR.Value>, env: Env)
    ensures MeaningAll(Constants(vs), env) == ValuesOf(vs, env.src)
  {
    if vs != [] {
      ConstantsMeaning(vs[1..], env);
      assert Constants(vs)[1..] == Constants(vs[1..]);
      assert MeaningSub(Constants(vs)[0], env) == Meaning(Constants(vs)[0], env);
    }
  }

  /** A table filter that lists row ids is true exactly on the rows of those ids. */
  lemma {:induction false} FilterIdsMeaning(distributed: bool, f: TableFilter, env: Env, id: nat)
    requires FilterIds(distributed, f).Ids? && IsId(env.position(0), id, env.src, env.sym)
    ensures FilterMeaning(f, env) == D.Boolean(true) <==> id in FilterIds(distributed, f).ids
  {
    match f
    case InFilter(values) =>
      ConstantsMeaning(values, env);
      ItemsMeaning(distributed, Constants(values), env.position(0), id, env);
    case ConstantFilter(_, constant) => OneIdMeaning(distributed, constant, env.position(0), id, env.src, env.sym);
    case OptionalFilter(child) => FilterIdsMeaning(distributed, child.value, env, id);
  }

  /** What the predicates above a plan need to read row ids right. */
  ghost predicate IdsAbove(p: Plan, scan: Scan, base: Env, above: Env, id: nat) {
    Carries(p, base, above) && ColumnsShowId(scan, base, id)
  }

  lemma RefIsId(p: Plan, scan: Scan, e: Bound, base: Env, above: Env, id: nat)
    requires IdsAbove(p, scan, base, above, id) && ReadsThrough(p, e) && IsRowIdRef(scan, e)
    ensures IsId(MeaningSub(e, above), id, above.src, above.sym)
  {
    SameMeaning(p, e, base, above);
    assert MeaningSub(e, base) == Meaning(e, base);
  }

  lemma EqualityMeaning(distributed: bool, p: Plan, scan: Scan, e: Bound, base: Env, above: Env, id: nat)
    requires IdsAbove(p, scan, base, above, id) && ReadsThrough(p, e) && EqualityId(distributed, scan, e).Ids?
    ensures Meaning(e, above) == D.Boolean(id in EqualityId(distributed, scan, e).ids)
  {
    assert MeaningSub(e.lhs, above) == Meaning(e.lhs, above) && MeaningSub(e.rhs, above) == Meaning(e.rhs, above);
    if IsRowIdRef(scan, e.lhs) && e.rhs.Constant? {
      RefIsId(p, scan, e.lhs, base, above, id);
      OneIdMeaning(distributed, e.rhs.value, MeaningSub(e.lhs, above), id, above.src, above.sym);
    } else {
      RefIsId(p, scan, e.rhs, base, above, id);
      OneIdMeaning(distributed, e.lhs.value, MeaningSub(e.rhs, above), id, above.src, above.sym);
    }
  }

  lemma OrIsTrue(xs: seq<D.Scalar>)
    ensures S.Nary(IR.Or, xs) == D.Boolean(true) <==> D.Boolean(true) in xs
  {
    if |xs| == 1 {
      assert xs[0] in xs;
    }
  }

  lemma {:induction false} DisjunctMeaning(distributed: bool, p: Plan, scan: Scan, e: Bound, base: Env, above: Env,
      id: nat)
    requires IdsAbove(p, scan, base, above, id) && ReadsThrough(p, e) && DisjunctIds(distributed, scan, e).Ids?
    ensures Meaning(e, above) == D.Boolean(true) <==> id in DisjunctIds(distributed, scan, e).ids
    decreases e, 0
  {
    if IsOr(e) {
      DisjunctsMeaning(distributed, p, scan, e.children, base, above, id);
      OrIsTrue(MeaningAll(e.children, above));
    } else {
      EqualityMeaning(distributed, p, scan, e, base, above, id);
    }
  }

  lemma {:induction false} DisjunctsMeaning(distributed: bool, p: Plan, scan: Scan, es: seq<Bound>, base: Env,
      above: Env, id: nat)
    requires IdsAbove(p, scan, base, above, id) && AllReadThrough(p, es) && DisjunctsIds(distributed, scan, es).Ids?
    ensures D.Boolean(true) in MeaningAll(es, above) <==> id in DisjunctsIds(distributed, scan, es).ids
    decreases es
  {
    if es != [] {
      DisjunctMeaning(distributed, p, scan, es[0], base, above, id);
      DisjunctsMeaning(distributed, p, scan, es[1..], base, above, id);
      assert MeaningSub(es[0], above) == Meaning(es[0], above);
    }
  }

  /** A predicate that lists row ids and reads the scan's own columns is true exactly on the rows of those ids. */
  lemma PredicateIdsMeaning(distributed: bool, p: Plan, scan: Scan, e: Bound, base: Env, above: Env, id: nat)
    requires IdsAbove(p, scan, base, above, id) && ReadsThrough(p, e) && PredicateIds(distributed, scan, e).Ids?
    ensures Meaning(e, above) == D.Boolean(true) <==> id in PredicateIds(distributed, scan, e).ids
  {
    if e.InTest? {
      RefIsId(p, scan, e.child, base, above, id);
      ItemsMeaning(distributed, e.items, MeaningSub(e.child, above), id, above);
    } else {
      DisjunctsMeaning(distributed, p, scan, e.children, base, above, id);
      OrIsTrue(MeaningAll(e.children, above));
    }
  }

  // What the rewrite keeps.

  predicate InAll(id: nat, lists: seq<seq<nat>>) {
    forall k | 0 <= k < |lists| :: id in lists[k]
  }

  /** Two plans over the same scanned columns whose references denote the same. */
  ghost predicate SameView(p: Plan, q: Plan, base: Env) {
    && EnvAbove(q, base) == EnvAbove(p, base)
    && Leaf(p).Some? == Leaf(q).Some?
    && (Leaf(p).Some? ==> Leaf(q).value.scan == Leaf(p).value.scan)
  }

  lemma {:induction false} WithTakeLeaf(p: Plan, ids: seq<nat>)
    requires Bottom(p).Some?
    ensures Leaf(p) == Bottom(p) && Leaf(WithTake(p, ids)) == Some(Bottom(p).value.(take := ids))
  {
    if !p.Get? {
      WithTakeLeaf(p.children[0], ids);
    }
  }

  lemma {:induction false} WithTakeView(p: Plan, ids: seq<nat>, base: Env)
    requires Bottom(p).Some?
    ensures SameView(p, WithTake(p, ids), base)
  {
    WithTakeLeaf(p, ids);
    if !p.Get? {
      WithTakeView(p.children[0], ids, base);
    }
  }

  lemma {:induction false} WithTakePasses(p: Plan, ids: seq<nat>, base: Env, envs: Envs)
    requires Bottom(p).Some?
    ensures Passes(WithTake(p, ids), base, envs) <==> Passes(p, base, envs)
  {
    if !p.Get? {
      WithTakePasses(p.children[0], ids, base, envs);
    }
  }

  lemma GetView(distributed: bool, express: Express, g: Plan, base: Env)
    requires g.Get? && RewriteGet(distributed, express, g).Some?
    ensures SameView(g, RewriteGet(distributed, express, g).value, base)
  {
  }

  lemma FilterView(distributed: bool, p: Plan, base: Env)
    requires p.Filter? && RewriteFilter(distributed, p).Some?
    ensures SameView(p, RewriteFilter(distributed, p).value, base)
  {
    var q := RewriteFilter(distributed, p).value;
    if q != p {
      var get := Bottom(p.children[0]).value;
      var ids := FirstIds(distributed, get.scan, p.predicates).list;
      WithTakeView(p.children[0], Normalized(distributed, ids), base);
    }
  }

  lemma {:induction false} RewriteView(distributed: bool, express: Express, p: Plan, base: Env)
    requires Rewrite(distributed, express, p).Some?
    ensures SameView(p, Rewrite(distributed, express, p).value, base)
  {
    if p.Get? {
      GetView(distributed, express, p, base);
    } else {
      var q := p.(children := RewriteAll(distributed, express, p.children).value);
      if p.children != [] {
        RewriteView(distributed, express, p.children[0], base);
      }
      assert SameView(p, q, base);
      if q.Filter? {
        FilterView(distributed, q, base);
      }
    }
  }

  lemma WithoutOne(ps: seq<Option<Bound>>, k: nat, env: Env)
    requires k < |ps|
    ensures AllPredicates(ps, env) <==> True(ps[k], env) && AllPredicates(Without(ps, k), env)
  {
    assert ps == ps[..k] + ps[k..] && ps[k..][1..] == ps[k + 1..] && ps[k..][0] == ps[k];
    AllAppend(ps[..k], ps[k..], env);
    AllCons(ps[k..], env);
    AllAppend(ps[..k], ps[k + 1..], env);
  }

  lemma HoldAppend(a: seq<Entry>, b: seq<Entry>, envs: Envs)
    ensures AllHold(a + b, envs) <==> AllHold(a, envs) && AllHold(b, envs)
  {
    var ab := a + b;
    assert forall k | 0 <= k < |a| :: ab[k] == a[k];
    assert forall k | 0 <= k < |b| :: ab[|a| + k] == b[k];
    assert forall k | |a| <= k < |ab| :: ab[k] == b[k - |a|];
  }

  lemma WithoutEntry(es: seq<Entry>, k: nat, envs: Envs)
    requires k < |es|
    ensures AllHold(es, envs) <==> Holds(es[k], envs) && AllHold(Without(es, k), envs)
  {
    assert es == es[..k] + ([es[k]] + es[k + 1..]);
    HoldAppend(es[..k], [es[k]] + es[k + 1..], envs);
    HoldAppend([es[k]], es[k + 1..], envs);
    assert AllHold([es[k]], envs) <==> Holds([es[k]][0], envs);
    HoldAppend(es[..k], es[k + 1..], envs);
  }

  lemma MovedMeaning(express: Express, g: Plan, k: nat, base: Env, envs: Envs, id: nat)
    requires Rewritable(g) && RowIdEntry(g.filters) == Some(k) && ShowsId(express, g, base, envs, id)
    requires Kept(false, express, g, k).Some?
    ensures Selected(g, base, envs, id) <==> Selected(Kept(false, express, g, k).value, base, envs, id)
  {
    var Entry(key, filter) := g.filters[k];
    var q := Kept(false, express, g, k).value;
    var position := FirstColumn(g.scan.columnIds, ColumnOfKey(key));
    WithoutEntry(g.filters, k, envs);
    var below := g.(filters := Without(g.filters, k));
    assert q.predicates == [q.predicates[0]] && q.children == [below];
    assert Leaf(q) == Leaf(below) == Some(below) && EnvAbove(below, base) == OutputEnv(g.outputs, base);
    assert Passes(below, base, envs) <==> AllHold(Without(g.filters, k), envs);
    assert AllPredicates(q.predicates, OutputEnv(g.outputs, base))
      <==> True(q.predicates[0], OutputEnv(g.outputs, base));
    assert FilterShowsId(express, g, base, envs(key), key, id);
    assert True(q.predicates[0], OutputEnv(g.outputs, base)) <==> Holds(g.filters[k], envs);
  }

  lemma TakenMeaning(distributed: bool, express: Express, g: Plan, k: nat, base: Env, envs: Envs, id: nat)
    requires Rewritable(g) && RowIdEntry(g.filters) == Some(k) && ShowsId(express, g, base, envs, id)
    requires TakeFromFilter(distributed, g, g.filters[k].filter.value).Ids?
    requires TakeFromFilter(distributed, g, g.filters[k].filter.value).ids != []
    ensures Selected(g, base, envs, id)
            <==> Selected(RewriteGet(distributed, express, g).value, base, envs, id)
                 && InAll(id, LostAtGet(distributed, g))
  {
    var e, found := g.filters[k], TakeFromFilter(distributed, g, g.filters[k].filter.value);
    WithoutEntry(g.filters, k, envs);
    FilterIdsMeaning(distributed, e.filter.value, envs(e.index), id);
    assert found.ids[0] in Normalized(distributed, found.ids);
    var q := RewriteGet(distributed, express, g).value;
    assert Passes(q, base, envs) <==> AllHold(Without(g.filters, k), envs);
    ListedMeans(id, g.take);
  }

  lemma ListedMeans(id: nat, ids: seq<nat>)
    ensures InAll(id, Listed(ids)) <==> ids == [] || id in ids
  {
    assert ids != [] ==> Listed(ids)[0] == ids;
  }

  /** At the scan: a filter that becomes the take list, or that moves above the scan, still restricts the rows. */
  lemma GetMeaning(distributed: bool, express: Express, g: Plan, base: Env, envs: Envs, id: nat)
    requires g.Get? && RewriteGet(distributed, express, g).Some? && ShowsId(express, g, base, envs, id)
    ensures Selected(g, base, envs, id)
            <==> Selected(RewriteGet(distributed, express, g).value, base, envs, id)
                 && InAll(id, LostAtGet(distributed, g))
  {
    if Rewritable(g) && RowIdEntry(g.filters).Some? {
      var k := RowIdEntry(g.filters).value;
      var found := TakeFromFilter(distributed, g, g.filters[k].filter.value);
      if found.Ids? && found.ids != [] {
        TakenMeaning(distributed, express, g, k, base, envs, id);
      } else if !distributed {
        MovedMeaning(express, g, k, base, envs, id);
      }
    }
  }

  /** At a filter: a predicate that becomes the take list still restricts the rows, in place of the list it replaces. */
  lemma FilterMeaningKept(distributed: bool, p: Plan, base: Env, envs: Envs, id: nat)
    requires p.Filter? && RewriteFilter(distributed, p).Some?
    requires |p.children| == 1 && Bottom(p.children[0]).Some? ==>
        forall k | 0 <= k < |p.predicates| && p.predicates[k].Some? ::
          PredicateIds(distributed, Bottom(p.children[0]).value.scan, p.predicates[k].value).Ids? ==>
            (Meaning(p.predicates[k].value, EnvAbove(p.children[0], base)) == D.Boolean(true)
             <==> id in PredicateIds(distributed, Bottom(p.children[0]).value.scan, p.predicates[k].value).ids)
    ensures Selected(p, base, envs, id)
            <==> Selected(RewriteFilter(distributed, p).value, base, envs, id)
                 && InAll(id, LostAtFilter(distributed, p))
  {
    var q := RewriteFilter(distributed, p).value;
    if |p.children| == 1 && Bottom(p.children[0]).Some? && Rewritable(Bottom(p.children[0]).value) {
      var child, get := p.children[0], Bottom(p.children[0]).value;
      var found := FirstIds(distributed, get.scan, p.predicates);
      if found.Found? && found.list != [] {
        var ids := Normalized(distributed, found.list);
        WithTakeLeaf(child, ids);
        WithTakeView(child, ids, base);
        WithTakePasses(child, ids, base, envs);
        WithoutOne(p.predicates, found.index, EnvAbove(child, base));
        assert found.list[0] in ids;
        ListedMeans(id, get.take);
        assert True(p.predicates[found.index], EnvAbove(child, base)) <==> id in found.list;
        var rest := Without(p.predicates, found.index);
        assert Passes(q, base, envs) <==> Passes(child, base, envs) && AllPredicates(rest, EnvAbove(child, base));
      }
    }
  }

  lemma InBoth(id: nat, a: seq<seq<nat>>, b: seq<seq<nat>>)
    ensures InAll(id, a + b) <==> InAll(id, a) && InAll(id, b)
  {
    assert forall k | 0 <= k < |b| :: (a + b)[|a| + k] == b[k];
    assert forall k | 0 <= k < |a| :: (a + b)[k] == a[k];
  }

  /** A plan selects exactly the rows that the rewritten plan selects and that are on every take list the rewrite threw
      away. */
  lemma {:induction false} RewriteMeaning(distributed: bool, express: Express, p: Plan, base: Env, envs: Envs, id: nat)
    requires Rewrite(distributed, express, p).Some? && ReadsScan(p)
    requires Leaf(p).Some? ==> ShowsId(express, Leaf(p).value, base, envs, id)
    ensures Selected(p, base, envs, id)
            <==> Selected(Rewrite(distributed, express, p).value, base, envs, id)
                 && InAll(id, Lost(distributed, express, p))
  {
    if p.Get? {
      GetMeaning(distributed, express, p, base, envs, id);
    } else if p.children != [] {
      var child, children := p.children[0], RewriteAll(distributed, express, p.children).value;
      assert child in p.children;
      RewriteMeaning(distributed, express, child, base, envs, id);
      RewriteView(distributed, express, child, base);
      if p.Filter? {
        var q := Filter(p.predicates, children);
        EnvCarries(child, base);
        if Bottom(children[0]).Some? {
          ChildIds(distributed, p, child, children[0], base, id);
        }
        FilterMeaningKept(distributed, q, base, envs, id);
        InBoth(id, Lost(distributed, express, child), LostAtFilter(distributed, q));
      }
    }
  }

  lemma ChildIds(distributed: bool, p: Plan, child: Plan, rewritten: Plan, base: Env, id: nat)
    requires p.Filter? && p.children != [] && p.children[0] == child && ReadsScan(p)
    requires SameView(child, rewritten, base) && Bottom(rewritten).Some?
    requires Leaf(child).Some? ==> IdsAbove(child, Leaf(child).value.scan, base, EnvAbove(child, base), id)
    ensures forall k | 0 <= k < |p.predicates| && p.predicates[k].Some? ::
          PredicateIds(distributed, Bottom(rewritten).value.scan, p.predicates[k].value).Ids? ==>
            (Meaning(p.predicates[k].value, EnvAbove(rewritten, base)) == D.Boolean(true)
             <==> id in PredicateIds(distributed, Bottom(rewritten).value.scan, p.predicates[k].value).ids)
  {
    WithTakeLeaf(rewritten, []);
    var scan := Leaf(child).value.scan;
    forall k | 0 <= k < |p.predicates| && p.predicates[k].Some?
        && PredicateIds(distributed, scan, p.predicates[k].value).Ids?
      ensures Meaning(p.predicates[k].value, EnvAbove(rewritten, base)) == D.Boolean(true)
          <==> id in PredicateIds(distributed, scan, p.predicates[k].value).ids
    {
      PredicateIdsMeaning(distributed, child, scan, p.predicates[k].value, base, EnvAbove(child, base), id);
    }
  }
}
