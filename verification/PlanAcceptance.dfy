/** Which DELETE and UPDATE plans get a message, and which SET expressions a tree. */
module PlanAcceptance {
  import opened Bytes
  import IR = ExprIR
  import Z = ExprSize
  import U = UpdateScope
  import E = ExecPlan
  import opened FilterPushdown
  import opened TableFilters
  import opened ScanFilters
  import opened MutationPlan
  import opened DeletePlan
  import opened UpdateWhere
  import opened FilterAcceptance

  // Filters and predicates.

  /** The entry has a pushable filter on a supported column of the table, and what it compiles to can be sent. */
  ghost predicate SendsEntry(scan: Scan, e: Entry, src: Surroundings) {
    && e.filter.Some? && e.index < |scan.names| && e.index < |scan.types| && !scan.types[e.index].OtherType?
    && PushableFilter(scan.names[e.index], e.filter.value, src)
    && (Compile(scan.names[e.index], e.filter.value, src).Some? ==>
          Z.Sendable(Compile(scan.names[e.index], e.filter.value, src).value))
  }

  lemma EntrySent(scan: Scan, e: Entry, src: Surroundings)
    ensures PartOf(WholeTable(scan), false, e, src).Some? <==> SendsEntry(scan, e, src)
  {
    if e.filter.Some? && e.index < |scan.names| {
      FilterPushes(scan.names[e.index], e.filter.value, src);
      var n := Compile(scan.names[e.index], e.filter.value, src);
      if n.Some? {
        Z.NodeSized(n.value);
      }
    }
  }

  /** The predicate is there and pushable, and what it compiles to can be sent. */
  ghost predicate SendsPredicate(scan: Scan, p: Option<Bound>, src: Surroundings) {
    && p.Some? && Pushable(OnScan(scan, false), p.value, src)
    && (Build(OnScan(scan, false), p.value, src).Some? ==>
          Z.Sendable(Build(OnScan(scan, false), p.value, src).value))
  }

  lemma PredicateSent(scan: Scan, p: Option<Bound>, src: Surroundings)
    ensures PredicatePart(scan, p, src).Some? <==> SendsPredicate(scan, p, src)
  {
    if p.Some? {
      Pushes(OnScan(scan, false), p.value, src);
      var n := Build(OnScan(scan, false), p.value, src);
      if n.Some? {
        Z.NodeSized(n.value);
      }
    }
  }

  // DELETE.

  /** Filters and projections with one child each, over a scan of the table. */
  predicate OverTable(p: Plan) {
    if p.Get? then p.kind.TableScan? else !p.OtherOp? && |p.children| == 1 && OverTable(p.children[0])
  }

  ghost predicate SendsPredicates(p: Plan, scan: Scan, src: Surroundings)
    requires OverTable(p)
  {
    p.Get? || (&& (p.Filter? ==> forall k | 0 <= k < |p.predicates| :: SendsPredicate(scan, p.predicates[k], src))
               && SendsPredicates(p.children[0], scan, src))
  }

  lemma {:induction false} TableFound(p: Plan)
    ensures FindGet(p).Some? && CollectPredicates(p).Some? <==> OverTable(p)
    ensures OverTable(p) ==> FindGet(p) == Leaf(p)
  {
    if !p.Get? && |p.children| == 1 {
      TableFound(p.children[0]);
    }
  }

  lemma {:induction false} PartsSent(scan: Scan, ps: seq<Option<Bound>>, src: Surroundings)
    ensures PredicateParts(scan, ps, src).Some? <==> forall k | 0 <= k < |ps| :: SendsPredicate(scan, ps[k], src)
  {
    if ps != [] {
      PredicateSent(scan, ps[0], src);
      PartsSent(scan, ps[1..], src);
      assert forall k | 0 <= k < |ps| - 1 :: ps[1..][k] == ps[k + 1];
      assert forall k | 0 < k < |ps| :: ps[k] == ps[1..][k - 1];
    }
  }

  lemma {:induction false} PlanSent(p: Plan, scan: Scan, src: Surroundings)
    requires OverTable(p) && CollectPredicates(p).Some?
    ensures (forall k | 0 <= k < |CollectPredicates(p).value| ::
              SendsPredicate(scan, CollectPredicates(p).value[k], src)) <==> SendsPredicates(p, scan, src)
  {
    if !p.Get? {
      PlanSent(p.children[0], scan, src);
      var below, all := CollectPredicates(p.children[0]).value, CollectPredicates(p).value;
      if p.Filter? {
        assert all == p.predicates + below;
        assert forall k | 0 <= k < |p.predicates| :: all[k] == p.predicates[k];
        assert forall k | 0 <= k < |below| :: all[|p.predicates| + k] == below[k];
        assert forall k | |p.predicates| <= k < |all| :: all[k] == below[k - |p.predicates|];
      } else {
        assert all == below;
      }
    }
  }

  /** DELETE has parts to send exactly for a plan over the table whose every filter and predicate can be sent. */
  lemma DeleteSends(p: Plan, src: Surroundings)
    ensures DeleteParts(p, src).Some? <==>
      && OverTable(p) && Leaf(p).Some?
      && (forall k | 0 <= k < |Leaf(p).value.filters| ::
            SendsEntry(Leaf(p).value.scan, Leaf(p).value.filters[k], src))
      && SendsPredicates(p, Leaf(p).value.scan, src)
  {
    TableFound(p);
    if OverTable(p) {
      var get := FindGet(p).value;
      forall k | 0 <= k < |get.filters|
        ensures Pushed(WholeTable(get.scan), false, get.filters[k], src) <==> SendsEntry(get.scan, get.filters[k], src)
      {
        EntrySent(get.scan, get.filters[k], src);
      }
      PartsSent(get.scan, CollectPredicates(p).value, src);
      PlanSent(p, get.scan, src);
    }
  }

  // UPDATE.

  /** Every filter that is there can be sent. */
  ghost predicate SendsFilters(scan: Scan, es: seq<Entry>, src: Surroundings) {
    forall k | 0 <= k < |es| && es[k].filter.Some? :: SendsEntry(scan, es[k], src)
  }

  /** Every predicate can be sent, except missing ones and those that fold to true. */
  ghost predicate SendsWhere(scan: Scan, ps: seq<Option<Bound>>, foldsTrue: Bound -> bool, src: Surroundings) {
    forall k | 0 <= k < |ps| && ps[k].Some? && !foldsTrue(ps[k].value) :: SendsPredicate(scan, ps[k], src)
  }

  lemma {:induction false} WhereFiltersSent(scan: Scan, es: seq<Entry>, src: Surroundings)
    ensures FilterParts(scan, es, src).Some? <==> SendsFilters(scan, es, src)
  {
    if es != [] {
      EntrySent(scan, es[0], src);
      WhereFiltersSent(scan, es[1..], src);
      assert forall k | 0 <= k < |es| - 1 :: es[1..][k] == es[k + 1];
      assert forall k | 0 < k < |es| :: es[k] == es[1..][k - 1];
    }
  }

  lemma {:induction false} WherePredicatesSent(scan: Scan, ps: seq<Option<Bound>>, foldsTrue: Bound -> bool,
      src: Surroundings)
    ensures WherePredicates(scan, ps, foldsTrue, src).Some? <==> SendsWhere(scan, ps, foldsTrue, src)
  {
    if ps != [] {
      PredicateSent(scan, ps[0], src);
      WherePredicatesSent(scan, ps[1..], foldsTrue, src);
      assert forall k | 0 <= k < |ps| - 1 :: ps[1..][k] == ps[k + 1];
      assert forall k | 0 < k < |ps| :: ps[k] == ps[1..][k - 1];
    }
  }

  /** UPDATE has parts to send exactly for a standard plan whose filters, where present, and predicates, unless they
      fold to true, can be sent. */
  lemma UpdateSends(p: Plan, pushed: seq<IR.Node>, foldsTrue: Bound -> bool, src: Surroundings)
    ensures WhereParts(p, pushed, foldsTrue, src).Some? <==>
      && IsUpdatePlan(p) && SendsFilters(Leaf(p).value.scan, Leaf(p).value.filters, src)
      && SendsWhere(Leaf(p).value.scan, PredicatesOf(p), foldsTrue, src)
  {
    if IsUpdatePlan(p) {
      WhereFiltersSent(Leaf(p).value.scan, Leaf(p).value.filters, src);
      WherePredicatesSent(Leaf(p).value.scan, PredicatesOf(p), foldsTrue, src);
    }
  }

  // SET expressions.

  /** The scan's column at that position has a name. */
  predicate NamedColumn(scan: E.Scan, i: nat) {
    && i < |scan.columns| && scan.columns[i].Some? && scan.columns[i].value < |scan.names|
    && scan.names[scan.columns[i].value] != []
  }

  predicate ResolvesPosition(scan: E.Scan, scope: U.Scope, i: nat)
    decreases scope, 0
  {
    match scope
    case Get(_) => NamedColumn(scan, i)
    case Filter(below) => ResolvesPosition(scan, below, i)
    case Projection(_, es, below) => i < |es| && Resolves(scan, below, es[i])
    case Elsewhere => false
  }

  predicate ResolvesBinding(scan: E.Scan, scope: U.Scope, table: nat, i: nat)
    decreases scope, 0
  {
    match scope
    case Get(_) => table == scan.table && NamedColumn(scan, i)
    case Filter(below) => ResolvesBinding(scan, below, table, i)
    case Projection(t, es, below) => table == t && i < |es| && Resolves(scan, below, es[i])
    case Elsewhere => false
  }

  /** Every reference leads through the scope to a named column, and nothing else is in the way: no TRY_CAST, no empty
      IN list, no unknown operator. */
  predicate Resolves(scan: E.Scan, scope: U.Scope, e: U.Expr)
    decreases scope, 1, e
  {
    match e
    case Column(table, i) => ResolvesBinding(scan, scope, table, i)
    case Position(i, alias) => alias != [] || ResolvesPosition(scan, scope, i)
    case Constant(_) => true
    case CastTo(child, _, tryCast) => !tryCast && Resolves(scan, scope, child)
    case Call(_, args) => AllResolve(scan, scope, args)
    case Negate(child) => Resolves(scan, scope, child)
    case NullTest(_, child) => Resolves(scan, scope, child)
    case InTest(_, child, items) => items != [] && Resolves(scan, scope, child) && AllResolve(scan, scope, items)
    case Compare(cmp, l, r) => cmp.Some? && Resolves(scan, scope, l) && Resolves(scan, scope, r)
    case Conjoin(conj, children) => conj.Some? && AllResolve(scan, scope, children)
    case Case(checks, otherwise) =>
      AllChecksResolve(scan, scope, checks) && (otherwise.Some? ==> Resolves(scan, scope, otherwise.value))
    case Between(x, l, u, _, _) => Resolves(scan, scope, x) && Resolves(scan, scope, l) && Resolves(scan, scope, u)
    case Other => false
  }

  predicate AllResolve(scan: E.Scan, scope: U.Scope, es: seq<U.Expr>)
    decreases scope, 1, es
  {
    es == [] || (Resolves(scan, scope, es[0]) && AllResolve(scan, scope, es[1..]))
  }

  predicate CheckResolves(scan: E.Scan, scope: U.Scope, c: U.Check)
    decreases scope, 1, c
  {
    Resolves(scan, scope, c.when) && Resolves(scan, scope, c.result)
  }

  predicate AllChecksResolve(scan: E.Scan, scope: U.Scope, cs: seq<U.Check>)
    decreases scope, 1, cs
  {
    cs == [] || (CheckResolves(scan, scope, cs[0]) && AllChecksResolve(scan, scope, cs[1..]))
  }

  lemma {:induction false} PositionBuilt(scan: E.Scan, scope: U.Scope, i: nat)
    ensures U.BuildPosition(scan, scope, i).Some? <==> ResolvesPosition(scan, scope, i)
    decreases scope, 0
  {
    match scope
    case Get(_) =>
    case Filter(below) => PositionBuilt(scan, below, i);
    case Projection(_, es, below) =>
      if i < |es| {
        ExprBuilt(scan, below, es[i]);
      }
    case Elsewhere =>
  }

  lemma {:induction false} BindingBuilt(scan: E.Scan, scope: U.Scope, table: nat, i: nat)
    ensures U.BuildBinding(scan, scope, table, i).Some? <==> ResolvesBinding(scan, scope, table, i)
    decreases scope, 0
  {
    match scope
    case Get(_) =>
    case Filter(below) => BindingBuilt(scan, below, table, i);
    case Projection(_, es, below) =>
      if i < |es| {
        ExprBuilt(scan, below, es[i]);
      }
    case Elsewhere =>
  }

  lemma {:induction false} AllBuilt(scan: E.Scan, scope: U.Scope, es: seq<U.Expr>)
    ensures U.BuildAll(scan, scope, es).Some? <==> AllResolve(scan, scope, es)
    decreases scope, 1, es
  {
    if es != [] {
      ExprBuilt(scan, scope, es[0]);
      AllBuilt(scan, scope, es[1..]);
    }
  }

  lemma {:induction false} CheckBuilt(scan: E.Scan, scope: U.Scope, c: U.Check)
    ensures U.BuildCheck(scan, scope, c).Some? <==> CheckResolves(scan, scope, c)
    decreases scope, 1, c
  {
    ExprBuilt(scan, scope, c.when);
    ExprBuilt(scan, scope, c.result);
  }

  lemma {:induction false} ChecksBuilt(scan: E.Scan, scope: U.Scope, cs: seq<U.Check>)
    ensures U.BuildChecks(scan, scope, cs).Some? <==> AllChecksResolve(scan, scope, cs)
    decreases scope, 1, cs
  {
    if cs != [] {
      CheckBuilt(scan, scope, cs[0]);
      ChecksBuilt(scan, scope, cs[1..]);
    }
  }

  /** A SET expression has a tree exactly when it resolves. */
  lemma {:induction false} ExprBuilt(scan: E.Scan, scope: U.Scope, e: U.Expr)
    ensures U.Build(scan, scope, e).Some? <==> Resolves(scan, scope, e)
    decreases scope, 1, e
  {
    match e
    case Column(table, i) => BindingBuilt(scan, scope, table, i);
    case Position(i, _) => PositionBuilt(scan, scope, i);
    case Constant(_) =>
    case CastTo(child, _, _) => ExprBuilt(scan, scope, child);
    case Call(_, args) => AllBuilt(scan, scope, args);
    case Negate(child) => ExprBuilt(scan, scope, child);
    case NullTest(_, child) => ExprBuilt(scan, scope, child);
    case InTest(_, child, items) => ExprBuilt(scan, scope, child); AllBuilt(scan, scope, items);
    case Compare(_, l, r) => ExprBuilt(scan, scope, l); ExprBuilt(scan, scope, r);
    case Conjoin(_, children) => AllBuilt(scan, scope, children);
    case Case(checks, otherwise) =>
      ChecksBuilt(scan, scope, checks);
      if otherwise.Some? {
        ExprBuilt(scan, scope, otherwise.value);
      }
    case Between(x, l, u, _, _) =>
      ExprBuilt(scan, scope, x);
      ExprBuilt(scan, scope, l);
      ExprBuilt(scan, scope, u);
    case Other =>
  }
}
