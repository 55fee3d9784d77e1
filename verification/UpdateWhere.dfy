/** The WHERE of UPDATE: the filter message built from a plan, and the rows it selects. */
module UpdateWhere {
  import opened Bytes
  import IR = ExprIR
  import D = ExprDecode
  import T = ExprRoundTrip
  import S = FilterSemantics
  import opened FilterPushdown
  import opened TableFilters
  import opened ScanFilters
  import opened MutationPlan
  import opened DeletePlan

  /** A scan under projections and filters alone. */
  predicate IsScanStack(p: Plan) {
    p.Get? || ((p.Projection? || p.Filter?) && p.children != [] && IsScanStack(p.children[0]))
  }

  /** The standard plan of an UPDATE: a projection over such a stack, on a Lance scan. */
  predicate IsUpdatePlan(p: Plan) {
    p.Projection? && IsScanStack(p) && Leaf(p).Some? && !Leaf(p).value.kind.ForeignScan?
  }

  /** Every table filter that is there must be encodable. */
  function FilterParts(scan: Scan, es: seq<Entry>, src: Surroundings): Option<seq<IR.Node>> {
    if es == [] then Some([])
    else if es[0].filter.None? then FilterParts(scan, es[1..], src)
    else
      var head :- PartOf(WholeTable(scan), false, es[0], src);
      var tail :- FilterParts(scan, es[1..], src);
      Some([head] + tail)
  }

  /** Missing predicates and those that fold to true are skipped; every other one must be encodable. */
  function WherePredicates(scan: Scan, ps: seq<Option<Bound>>, foldsTrue: Bound -> bool, src: Surroundings)
    : Option<seq<IR.Node>>
  {
    if ps == [] then Some([])
    else if ps[0].None? || foldsTrue(ps[0].value) then WherePredicates(scan, ps[1..], foldsTrue, src)
    else
      var head :- PredicatePart(scan, ps[0], src);
      var tail :- WherePredicates(scan, ps[1..], foldsTrue, src);
      Some([head] + tail)
  }

  /** Table filters, then the parts that filter pushdown left with the scan, then the predicates. */
  function WhereParts(p: Plan, pushed: seq<IR.Node>, foldsTrue: Bound -> bool, src: Surroundings)
    : Option<seq<IR.Node>>
  {
    if !IsUpdatePlan(p) then None
    else
      var get := Leaf(p).value;
      var filters :- FilterParts(get.scan, get.filters, src);
      var predicates :- WherePredicates(get.scan, PredicatesOf(p), foldsTrue, src);
      Some(filters + pushed + predicates)
  }

  // The planner's loops.

  /** Walks down to the scan and collects the filters on the way. */
  method ExtractParts(p: Plan) returns (get: Option<Plan>, predicates: seq<Option<Bound>>)
    ensures get.Some? <==> IsUpdatePlan(p)
    ensures get.Some? ==> get == Leaf(p) && predicates == PredicatesOf(p)
  {
    predicates := [];
    if !p.Projection? {
      return None, predicates;
    }
    var node := p;
    while (node.Projection? || node.Filter?) && node.children != []
      invariant IsScanStack(node) == IsScanStack(p) && Leaf(node) == Leaf(p)
      invariant predicates + PredicatesOf(node) == PredicatesOf(p)
      decreases node
    {
      if node.Filter? {
        predicates := predicates + node.predicates;
      }
      node := node.children[0];
    }
    if !node.Get? || node.kind.ForeignScan? {
      return None, predicates;
    }
    return Some(node), predicates;
  }

  ghost predicate FiltersLeft(scan: Scan, es: seq<Entry>, i: nat, src: Surroundings, parts: seq<IR.Node>)
    requires i <= |es|
  {
    var all, rest := FilterParts(scan, es, src), FilterParts(scan, es[i..], src);
    if rest.None? then all.None? else all == Some(parts + rest.value)
  }

  lemma FiltersLeftStep(scan: Scan, es: seq<Entry>, i: nat, src: Surroundings, parts: seq<IR.Node>)
    requires i < |es| && FiltersLeft(scan, es, i, src, parts)
    ensures es[i].filter.None? ==> FiltersLeft(scan, es, i + 1, src, parts)
    ensures es[i].filter.Some? ==>
        var part := PartOf(WholeTable(scan), false, es[i], src);
        if part.None? then FilterParts(scan, es, src).None?
        else FiltersLeft(scan, es, i + 1, src, parts + [part.value])
  {
    assert es[i..][0] == es[i] && es[i..][1..] == es[i + 1..];
    var part, rest := PartOf(WholeTable(scan), false, es[i], src), FilterParts(scan, es[i + 1..], src);
    if part.Some? && rest.Some? {
      assert parts + ([part.value] + rest.value) == (parts + [part.value]) + rest.value;
    }
  }

  method CollectFilters(scan: Scan, es: seq<Entry>, src: Surroundings) returns (r: Option<seq<IR.Node>>)
    ensures r == FilterParts(scan, es, src)
  {
    var parts: seq<IR.Node> := [];
    ghost var all := FilterParts(scan, es, src);
    assert es[0..] == es && (all.Some? ==> parts + all.value == all.value);
    for i := 0 to |es|
      invariant FiltersLeft(scan, es, i, src, parts)
    {
      FiltersLeftStep(scan, es, i, src, parts);
      if es[i].filter.Some? {
        var part := PartOf(WholeTable(scan), false, es[i], src);
        if part.None? {
          return None;
        }
        parts := parts + [part.value];
      }
    }
    assert es[|es|..] == [] && parts + [] == parts;
    return Some(parts);
  }

  ghost predicate PredicatesLeft(scan: Scan, ps: seq<Option<Bound>>, i: nat, foldsTrue: Bound -> bool,
      src: Surroundings, parts: seq<IR.Node>)
    requires i <= |ps|
  {
    var all, rest := WherePredicates(scan, ps, foldsTrue, src), WherePredicates(scan, ps[i..], foldsTrue, src);
    if rest.None? then all.None? else all == Some(parts + rest.value)
  }

  predicate Skipped(p: Option<Bound>, foldsTrue: Bound -> bool) {
    p.None? || foldsTrue(p.value)
  }

  lemma PredicatesLeftStep(scan: Scan, ps: seq<Option<Bound>>, i: nat, foldsTrue: Bound -> bool, src: Surroundings,
      parts: seq<IR.Node>)
    requires i < |ps| && PredicatesLeft(scan, ps, i, foldsTrue, src, parts)
    ensures Skipped(ps[i], foldsTrue) ==> PredicatesLeft(scan, ps, i + 1, foldsTrue, src, parts)
    ensures !Skipped(ps[i], foldsTrue) ==>
        var part := PredicatePart(scan, ps[i], src);
        if part.None? then WherePredicates(scan, ps, foldsTrue, src).None?
        else PredicatesLeft(scan, ps, i + 1, foldsTrue, src, parts + [part.value])
  {
    assert ps[i..][0] == ps[i] && ps[i..][1..] == ps[i + 1..];
    var part, rest := PredicatePart(scan, ps[i], src), WherePredicates(scan, ps[i + 1..], foldsTrue, src);
    if part.Some? && rest.Some? {
      assert parts + ([part.value] + rest.value) == (parts + [part.value]) + rest.value;
    }
  }

  method CollectWhere(scan: Scan, ps: seq<Option<Bound>>, foldsTrue: Bound -> bool, src: Surroundings)
    returns (r: Option<seq<IR.Node>>)
    ensures r == WherePredicates(scan, ps, foldsTrue, src)
  {
    var parts: seq<IR.Node> := [];
    ghost var all := WherePredicates(scan, ps, foldsTrue, src);
    assert ps[0..] == ps && (all.Some? ==> parts + all.value == all.value);
    for i := 0 to |ps|
      invariant PredicatesLeft(scan, ps, i, foldsTrue, src, parts)
    {
      PredicatesLeftStep(scan, ps, i, foldsTrue, src, parts);
      if ps[i].Some? && !foldsTrue(ps[i].value) {
        var part := PredicatePart(scan, ps[i], src);
        if part.None? {
          return None;
        }
        parts := parts + [part.value];
      }
    }
    assert ps[|ps|..] == [] && parts + [] == parts;
    return Some(parts);
  }

  /** The message is built exactly for a standard plan whose filters and predicates can all be encoded. */
  method BuildUpdateFilter(p: Plan, pushed: seq<IR.Node>, foldsTrue: Bound -> bool, src: Surroundings)
    returns (message: Option<seq<byte>>)
    ensures message.Some?
        <==> WhereParts(p, pushed, foldsTrue, src).Some? && Message(WhereParts(p, pushed, foldsTrue, src).value).Some?
    ensures message.Some? ==> message == Message(WhereParts(p, pushed, foldsTrue, src).value)
  {
    var get, predicates := ExtractParts(p);
    if get.None? {
      return None;
    }
    var filters := CollectFilters(get.value.scan, get.value.filters, src);
    if filters.None? {
      return None;
    }
    var where := CollectWhere(get.value.scan, predicates, foldsTrue, src);
    if where.None? {
      return None;
    }
    return Message(filters.value + pushed + where.value);
  }

  // Which rows it selects.

  lemma {:induction false} FilterPartsAre(scan: Scan, es: seq<Entry>, src: Surroundings, envs: Envs)
    requires FilterParts(scan, es, src).Some?
    ensures FilterParts(scan, es, src).value == Parts(WholeTable(scan), false, es, src)
    ensures PushedHold(WholeTable(scan), false, es, src, envs) <==> AllHold(es, envs)
  {
    if es != [] {
      FilterPartsAre(scan, es[1..], src, envs);
      PushedHoldCons(WholeTable(scan), false, es, src, envs);
      assert es == [es[0]] + es[1..];
      HoldCons(es, envs);
    }
  }

  lemma HoldCons(es: seq<Entry>, envs: Envs)
    requires es != []
    ensures AllHold(es, envs) <==> Holds(es[0], envs) && AllHold(es[1..], envs)
  {
    assert forall k | 0 <= k < |es| - 1 :: es[1..][k] == es[k + 1];
    assert forall k | 0 < k < |es| :: es[k] == es[1..][k - 1];
  }

  /** What folds to true is true. */
  ghost predicate FoldsRight(foldsTrue: Bound -> bool, env: Env) {
    forall e | foldsTrue(e) :: Meaning(e, env) == D.Boolean(true)
  }

  lemma {:induction false} WhereMeaning(scan: Scan, ps: seq<Option<Bound>>, foldsTrue: Bound -> bool, ctx: D.Context,
      base: Env, row: S.Row)
    requires Faithful(base.src) && Describes(base, OnScan(scan, false), row) && WellTypedPredicates(ps)
    requires FoldsRight(foldsTrue, base) && WherePredicates(scan, ps, foldsTrue, base.src).Some?
    requires T.TranslateAll(WherePredicates(scan, ps, foldsTrue, base.src).value, ctx).Some?
    ensures AllTrue(S.EvalAll(T.TranslateAll(WherePredicates(scan, ps, foldsTrue, base.src).value, ctx).value, row,
                              base.sym))
            <==> AllPredicates(ps, base)
  {
    if ps != [] {
      var nodes, rest := WherePredicates(scan, ps, foldsTrue, base.src).value,
                         WherePredicates(scan, ps[1..], foldsTrue, base.src).value;
      AllCons(ps, base);
      if Skipped(ps[0], foldsTrue) {
        WhereMeaning(scan, ps[1..], foldsTrue, ctx, base, row);
      } else {
        assert nodes[1..] == rest;
        AllPrefix(nodes, ctx);
        PredicateMeaning(scan, ps[0].value, ctx, base, row);
        WhereMeaning(scan, ps[1..], foldsTrue, ctx, base, row);
        TrueCons(T.TranslateAll(nodes, ctx).value, row, base.sym);
      }
    }
  }

  /** An UPDATE message is built for the plan and accepted by the receiver. */
  ghost predicate Updates(p: Plan, pushed: seq<IR.Node>, foldsTrue: Bound -> bool, src: Surroundings, ctx: D.Context) {
    && WhereParts(p, pushed, foldsTrue, src).Some? && Message(WhereParts(p, pushed, foldsTrue, src).value).Some?
    && Accepts(Message(WhereParts(p, pushed, foldsTrue, src).value).value, ctx)
  }

  /** The rows UPDATE changes. */
  ghost predicate Changes(p: Plan, pushed: seq<IR.Node>, foldsTrue: Bound -> bool, src: Surroundings, ctx: D.Context,
      sym: S.Symbols, r: TableRow)
    requires Updates(p, pushed, foldsTrue, src, ctx)
  {
    Keeps(Message(WhereParts(p, pushed, foldsTrue, src).value).value, ctx, r.row, sym)
  }

  /** Every part that filter pushdown left with the scan is true on the row. */
  ghost predicate PushedTrue(pushed: seq<IR.Node>, ctx: D.Context, sym: S.Symbols, r: TableRow) {
    T.TranslateAll(pushed, ctx).Some? ==> AllTrue(S.EvalAll(T.TranslateAll(pushed, ctx).value, r.row, sym))
  }

  /** On a plan whose predicates read the scan's own columns, UPDATE changes exactly the rows that satisfy every table
      filter, every predicate and every pushed part, whatever the take list is. */
  lemma UpdateKeeps(p: Plan, pushed: seq<IR.Node>, foldsTrue: Bound -> bool, src: Surroundings, ctx: D.Context,
      sym: S.Symbols, r: TableRow)
    requires ReadsScan(p) && WellTypedPlan(p) && Updates(p, pushed, foldsTrue, src, ctx)
    requires SeenBy(Leaf(p).value.scan, src, sym, r) && FoldsRight(foldsTrue, r.base)
    ensures Changes(p, pushed, foldsTrue, src, ctx, sym, r)
            <==> Passes(p, r.base, r.envs) && PushedTrue(pushed, ctx, sym, r)
  {
    var TableRow(_, row, base, envs) := r;
    var get := Leaf(p).value;
    var filters, where := FilterParts(get.scan, get.filters, src).value,
                          WherePredicates(get.scan, PredicatesOf(p), foldsTrue, src).value;
    PassesAtScan(p, base, envs);
    FilterPartsAre(get.scan, get.filters, src, envs);
    MessageMeaning(filters + pushed + where, ctx, row, sym);
    TranslateAppend(filters + pushed, where, ctx, row, sym);
    TranslateAppend(filters, pushed, ctx, row, sym);
    PartsMeaning(WholeTable(get.scan), false, get.filters, src, sym, ctx, envs, row);
    WhereMeaning(get.scan, PredicatesOf(p), foldsTrue, ctx, base, row);
  }

  /** On a table, UPDATE changes exactly the rows the plan selects if and only if, among the rows that satisfy
      the filters and predicates, the pushed parts are true of exactly those that the scan takes. */
  lemma UpdateExactIff(p: Plan, pushed: seq<IR.Node>, foldsTrue: Bound -> bool, src: Surroundings, ctx: D.Context,
      sym: S.Symbols, rows: set<TableRow>)
    requires ReadsScan(p) && WellTypedPlan(p) && Updates(p, pushed, foldsTrue, src, ctx)
    requires forall r <- rows :: SeenBy(Leaf(p).value.scan, src, sym, r) && FoldsRight(foldsTrue, r.base)
    ensures (forall r <- rows ::
               Changes(p, pushed, foldsTrue, src, ctx, sym, r) <==> Selected(p, r.base, r.envs, r.id))
            <==> forall r <- rows | Passes(p, r.base, r.envs) :: PushedTrue(pushed, ctx, sym, r) <==> Taken(p, r.id)
  {
    forall r <- rows
      ensures Changes(p, pushed, foldsTrue, src, ctx, sym, r)
          <==> Passes(p, r.base, r.envs) && PushedTrue(pushed, ctx, sym, r)
    {
      UpdateKeeps(p, pushed, foldsTrue, src, ctx, sym, r);
    }
  }
}
