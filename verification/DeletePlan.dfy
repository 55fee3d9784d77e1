/** DELETE planning: the filter message built from a plan, and the rows it selects. */
module DeletePlan {
  import opened Bytes
  import Utf8
  import IR = ExprIR
  import D = ExprDecode
  import T = ExprRoundTrip
  import Acceptance = ExprAcceptance
  import S = FilterSemantics
  import opened FilterPushdown
  import opened TableFilters
  import opened ScanFilters
  import opened MutationPlan

  /** The scan at the bottom of a plan of single-child operators. */
  function FindGet(p: Plan): (r: Option<Plan>)
    ensures r.Some? ==> r.value.Get?
  {
    if p.Get? then (if p.kind.TableScan? then Some(p) else None)
    else if |p.children| != 1 then None
    else FindGet(p.children[0])
  }

  /** The predicates of all filters, top down; projections are walked through without substitution. */
  function CollectPredicates(p: Plan): Option<seq<Option<Bound>>> {
    if p.Get? then Some([])
    else if p.OtherOp? || |p.children| != 1 then None
    else
      var below :- CollectPredicates(p.children[0]);
      Some((if p.Filter? then p.predicates else []) + below)
  }

  /** The table's own columns in order: DELETE reads filter keys as table column ids. */
  function TableColumns(scan: Scan, n: nat): Scan {
    scan.(columnIds := seq(n, i requires 0 <= i < n => Column(i)))
  }

  function WholeTable(scan: Scan): Scan {
    TableColumns(scan, |scan.names|)
  }

  lemma SameColumn(scan: Scan, n: nat, e: Entry, src: Surroundings)
    requires e.index < n && e.index < |scan.names|
    ensures PartOf(TableColumns(scan, n), false, e, src) == PartOf(WholeTable(scan), false, e, src)
  {
  }

  lemma {:induction false} SameParts(scan: Scan, n: nat, es: seq<Entry>, src: Surroundings)
    requires forall k | 0 <= k < |es| :: es[k].index < n && es[k].index < |scan.names|
    ensures Parts(TableColumns(scan, n), false, es, src) == Parts(WholeTable(scan), false, es, src)
  {
    if es != [] {
      assert forall k | 0 <= k < |es| - 1 :: es[1..][k] == es[k + 1];
      SameColumn(scan, n, es[0], src);
      SameParts(scan, n, es[1..], src);
    }
  }

  lemma SamePushed(scan: Scan, n: nat, es: seq<Entry>, src: Surroundings)
    requires forall k | 0 <= k < |es| :: es[k].index < n && es[k].index < |scan.names|
    ensures forall k | 0 <= k < |es| ::
        Pushed(TableColumns(scan, n), false, es[k], src) == Pushed(WholeTable(scan), false, es[k], src)
  {
    forall k | 0 <= k < |es|
      ensures Pushed(TableColumns(scan, n), false, es[k], src) == Pushed(WholeTable(scan), false, es[k], src)
    {
      SameColumn(scan, n, es[k], src);
    }
  }

  /** Tries the pushed table filters; out-of-range column ids refuse the whole set. */
  method ProbeTableFilters(scan: Scan, filters: seq<Entry>, src: Surroundings)
      returns (parts: seq<IR.Node>, allPushed: bool)
    ensures allPushed <==> forall k | 0 <= k < |filters| :: Pushed(WholeTable(scan), false, filters[k], src)
    ensures allPushed ==> parts == Parts(WholeTable(scan), false, filters, src)
  {
    if filters == [] {
      return [], true;
    }
    var maxId := 0;
    for i := 0 to |filters|
      invariant forall k | 0 <= k < i :: filters[k].index <= maxId && filters[k].index < |scan.names|
    {
      if filters[i].index >= |scan.names| || filters[i].index >= |scan.types| {
        assert !Pushed(WholeTable(scan), false, filters[i], src);
        return [], false;
      }
      if filters[i].index > maxId {
        maxId := filters[i].index;
      }
    }
    var allPrefilterable;
    parts, allPushed, allPrefilterable := BuildParts(TableColumns(scan, maxId + 1), false, filters, src);
    SameParts(scan, maxId + 1, filters, src);
    SamePushed(scan, maxId + 1, filters, src);
  }

  function PredicateParts(scan: Scan, ps: seq<Option<Bound>>, src: Surroundings): Option<seq<IR.Node>> {
    if ps == [] then Some([])
    else
      var head :- PredicatePart(scan, ps[0], src);
      var tail :- PredicateParts(scan, ps[1..], src);
      Some([head] + tail)
  }

  function PredicatePart(scan: Scan, p: Option<Bound>, src: Surroundings): Option<IR.Node> {
    var e :- p;
    var n :- Build(OnScan(scan, false), e, src);
    if IR.Encode(n).Some? then Some(n) else None
  }

  /** What DELETE encodes: every table filter and every predicate, or nothing at all. */
  ghost function DeleteParts(p: Plan, src: Surroundings): Option<seq<IR.Node>> {
    var get :- FindGet(p);
    var predicates :- CollectPredicates(p);
    if !(forall k | 0 <= k < |get.filters| :: Pushed(WholeTable(get.scan), false, get.filters[k], src)) then None
    else
      var tail :- PredicateParts(get.scan, predicates, src);
      Some(Parts(WholeTable(get.scan), false, get.filters, src) + tail)
  }

  method BuildDeleteFilter(children: seq<Plan>, src: Surroundings) returns (message: Option<seq<byte>>)
    ensures message.Some?
        <==> |children| == 1 && DeleteParts(children[0], src).Some?
             && Message(DeleteParts(children[0], src).value).Some?
    ensures message.Some? ==> message == Message(DeleteParts(children[0], src).value)
  {
    if |children| != 1 {
      return None;
    }
    var get := FindGet(children[0]);
    if get.None? {
      return None;
    }
    var parts, allPushed := ProbeTableFilters(get.value.scan, get.value.filters, src);
    if !allPushed {
      return None;
    }
    var predicates := CollectPredicates(children[0]);
    if predicates.None? {
      return None;
    }
    var tail := AppendPredicates(get.value.scan, predicates.value, src);
    if tail.None? {
      return None;
    }
    return Message(parts + tail.value);
  }

  method AppendPredicates(scan: Scan, ps: seq<Option<Bound>>, src: Surroundings) returns (r: Option<seq<IR.Node>>)
    ensures r == PredicateParts(scan, ps, src)
  {
    var nodes := [];
    RemainingStart(scan, ps, src);
    for i := 0 to |ps|
      invariant Remaining(scan, ps, i, src, nodes)
    {
      RemainingStep(scan, ps, i, src, nodes);
      var node := PredicatePart(scan, ps[i], src);
      if node.None? {
        return None;
      }
      nodes := nodes + [node.value];
    }
    assert ps[|ps|..] == [] && nodes + [] == nodes;
    return Some(nodes);
  }

  /** `nodes` are the parts of the first `i` predicates. */
  predicate Remaining(scan: Scan, ps: seq<Option<Bound>>, i: nat, src: Surroundings, nodes: seq<IR.Node>)
    requires i <= |ps|
  {
    var all, rest := PredicateParts(scan, ps, src), PredicateParts(scan, ps[i..], src);
    if rest.None? then all.None? else all == Some(nodes + rest.value)
  }

  lemma RemainingStart(scan: Scan, ps: seq<Option<Bound>>, src: Surroundings)
    ensures Remaining(scan, ps, 0, src, [])
  {
    assert ps[0..] == ps;
    var all := PredicateParts(scan, ps, src);
    if all.Some? {
      assert [] + all.value == all.value;
    }
  }

  lemma RemainingStep(scan: Scan, ps: seq<Option<Bound>>, i: nat, src: Surroundings, nodes: seq<IR.Node>)
    requires i < |ps| && Remaining(scan, ps, i, src, nodes)
    ensures var part := PredicatePart(scan, ps[i], src);
            if part.None? then PredicateParts(scan, ps, src).None?
              else Remaining(scan, ps, i + 1, src, nodes + [part.value])
  {
    assert ps[i..][0] == ps[i] && ps[i..][1..] == ps[i + 1..];
    var part, rest := PredicatePart(scan, ps[i], src), PredicateParts(scan, ps[i + 1..], src);
    if part.Some? && rest.Some? {
      assert nodes + ([part.value] + rest.value) == (nodes + [part.value]) + rest.value;
    }
  }

  lemma {:induction false} Collected(p: Plan)
    requires CollectPredicates(p).Some? && FindGet(p).Some?
    ensures CollectPredicates(p).value == PredicatesOf(p) && FindGet(p) == Leaf(p)
  {
    if !p.Get? {
      Collected(p.children[0]);
    }
  }

  lemma {:induction false} TranslateAppend(a: seq<IR.Node>, b: seq<IR.Node>, ctx: D.Context, row: S.Row, sym: S.Symbols)
    requires T.TranslateAll(a + b, ctx).Some?
    ensures T.TranslateAll(a, ctx).Some? && T.TranslateAll(b, ctx).Some?
    ensures AllTrue(S.EvalAll(T.TranslateAll(a + b, ctx).value, row, sym))
            <==> AllTrue(S.EvalAll(T.TranslateAll(a, ctx).value, row, sym))
                 && AllTrue(S.EvalAll(T.TranslateAll(b, ctx).value, row, sym))
  {
    if a == [] {
      assert a + b == b;
    } else {
      assert (a + b)[1..] == a[1..] + b && (a + b)[0] == a[0];
      AllPrefix(a + b, ctx);
      TranslateAppend(a[1..], b, ctx, row, sym);
      assert T.TranslateSub(a[0], ctx) == T.Translate(a[0], ctx);
      AllPrefix(a, ctx);
      TrueCons(T.TranslateAll(a + b, ctx).value, row, sym);
      TrueCons(T.TranslateAll(a, ctx).value, row, sym);
    }
  }

  lemma {:induction false} PredicatesMeaning(scan: Scan, ps: seq<Option<Bound>>, ctx: D.Context, base: Env, row: S.Row)
    requires Faithful(base.src) && Describes(base, OnScan(scan, false), row) && WellTypedPredicates(ps)
    requires PredicateParts(scan, ps, base.src).Some?
        && T.TranslateAll(PredicateParts(scan, ps, base.src).value, ctx).Some?
    ensures AllTrue(S.EvalAll(T.TranslateAll(PredicateParts(scan, ps, base.src).value, ctx).value, row, base.sym))
            <==> AllPredicates(ps, base)
  {
    if ps != [] {
      var nodes := PredicateParts(scan, ps, base.src).value;
      assert nodes[1..] == PredicateParts(scan, ps[1..], base.src).value;
      AllPrefix(nodes, ctx);
      PredicateMeaning(scan, ps[0].value, ctx, base, row);
      PredicatesMeaning(scan, ps[1..], ctx, base, row);
      TrueCons(T.TranslateAll(nodes, ctx).value, row, base.sym);
      AllCons(ps, base);
    }
  }

  lemma PredicateMeaning(scan: Scan, e: Bound, ctx: D.Context, base: Env, row: S.Row)
    requires Faithful(base.src) && Describes(base, OnScan(scan, false), row) && WellTyped(e)
    requires PredicatePart(scan, Some(e), base.src).Some?
        && T.Translate(PredicatePart(scan, Some(e), base.src).value, ctx).Some?
    ensures S.Eval(T.Translate(PredicatePart(scan, Some(e), base.src).value, ctx).value, row, base.sym) ==
        Meaning(e, base)
  {
    BuildMeaning(OnScan(scan, false), e, ctx, base, row);
  }

  /** A DELETE message is built for the plan and accepted by the receiver. */
  ghost predicate Deletes(p: Plan, src: Surroundings, ctx: D.Context) {
    && DeleteParts(p, src).Some? && Message(DeleteParts(p, src).value).Some?
    && Accepts(Message(DeleteParts(p, src).value).value, ctx)
  }

  /** The row as the plan's references see it, and as the message sees it by column names. */
  ghost predicate SeenBy(scan: Scan, src: Surroundings, sym: S.Symbols, r: TableRow) {
    && r.base.src == src && r.base.sym == sym
    && Describes(r.base, OnScan(scan, false), r.row)
    && Faithful(src)
    && forall i: nat | i < |scan.names| ::
         Describes(r.envs(i), OnColumn(scan.names[i]), r.row) && r.envs(i).src == src && r.envs(i).sym == sym
  }

  /** The rows DELETE removes. */
  ghost predicate Removes(p: Plan, src: Surroundings, ctx: D.Context, sym: S.Symbols, r: TableRow)
    requires Deletes(p, src, ctx)
  {
    Keeps(Message(DeleteParts(p, src).value).value, ctx, r.row, sym)
  }

  /** On a plan whose predicates read the scan's own columns, DELETE removes exactly the rows that satisfy every pushed
      table filter and every predicate, whatever the take list is. */
  lemma DeleteKeeps(p: Plan, src: Surroundings, ctx: D.Context, sym: S.Symbols, r: TableRow)
    requires ReadsScan(p) && WellTypedPlan(p) && Deletes(p, src, ctx) && SeenBy(FindGet(p).value.scan, src, sym, r)
    ensures Removes(p, src, ctx, sym, r) <==> Passes(p, r.base, r.envs)
  {
    var TableRow(_, row, base, envs) := r;
    var get := FindGet(p).value;
    var parts, tail := Parts(WholeTable(get.scan), false, get.filters, base.src),
                       PredicateParts(get.scan, CollectPredicates(p).value, base.src).value;
    Collected(p);
    PassesAtScan(p, base, envs);
    MessageMeaning(parts + tail, ctx, row, base.sym);
    TranslateAppend(parts, tail, ctx, row, base.sym);
    PartsMeaning(WholeTable(get.scan), false, get.filters, base.src, base.sym, ctx, envs, row);
    PredicatesMeaning(get.scan, CollectPredicates(p).value, ctx, base, row);
  }

  /** Without a take list DELETE removes exactly the rows the plan selects. */
  lemma DeleteExact(p: Plan, src: Surroundings, ctx: D.Context, sym: S.Symbols, r: TableRow)
    requires ReadsScan(p) && WellTypedPlan(p) && Deletes(p, src, ctx) && SeenBy(FindGet(p).value.scan, src, sym, r)
    requires FindGet(p).value.take == []
    ensures Removes(p, src, ctx, sym, r) <==> Selected(p, r.base, r.envs, r.id)
  {
    DeleteKeeps(p, src, ctx, sym, r);
    Collected(p);
  }

  /** On a table, DELETE removes exactly the selected rows if and only if there is no take list, or every row that
      satisfies the filters and predicates is on it. */
  lemma DeleteExactIff(p: Plan, src: Surroundings, ctx: D.Context, sym: S.Symbols, rows: set<TableRow>)
    requires ReadsScan(p) && WellTypedPlan(p) && Deletes(p, src, ctx)
    requires forall r <- rows :: SeenBy(FindGet(p).value.scan, src, sym, r)
    ensures (forall r <- rows :: Removes(p, src, ctx, sym, r) <==> Selected(p, r.base, r.envs, r.id))
            <==> FindGet(p).value.take == []
                 || forall r <- rows | Passes(p, r.base, r.envs) :: r.id in FindGet(p).value.take
  {
    Collected(p);
    forall r <- rows
      ensures Removes(p, src, ctx, sym, r) <==> Passes(p, r.base, r.envs)
    {
      DeleteKeeps(p, src, ctx, sym, r);
    }
  }

  // A predicate is not rewritten to the scan's columns.

  const A: Text := [0x61]
  const B: Text := [0x62]
  const PAIR := Scan(0, [Column(0), Column(1)], [A, B], [IR.Boolean, IR.Boolean], {})
  const PLAIN_GET := Get(TableScan, false, PAIR, [], [], [])
  const FIRST_IS_TRUE := Compare(Some(IR.Eq), Ref(0), Constant(IR.BoolValue(true)))
  const FIRST_COLUMN_IS_TRUE := IR.Comparison(IR.Eq, IR.ColumnRef([A]), IR.Literal(IR.BoolValue(true)))

  /** Keep the rows whose first output is true. */
  function FirstIsTrue(child: Plan): Plan {
    Filter([Some(FIRST_IS_TRUE)], [child])
  }

  /** A plan over the columns `a` and `b`, without filters, whose first output is `b`. */
  predicate PutsBFirst(child: Plan) {
    && FindGet(child).Some? && FindGet(child).value.scan == PAIR && FindGet(child).value.filters == []
    && CollectPredicates(child) == Some([])
    && Origin(child, 0) == Some(1)
  }

  lemma MisreadParts(child: Plan, src: Surroundings)
    requires PutsBFirst(child)
    ensures DeleteParts(FirstIsTrue(child), src) == Some([FIRST_COLUMN_IS_TRUE])
  {
    var none: seq<Option<Bound>>, predicates := [], [Some(FIRST_IS_TRUE)];
    assert predicates + none == predicates && predicates[1..] == none;
    assert CollectPredicates(FirstIsTrue(child)) == Some(predicates);
    EncodableComparison();
    MisreadPredicate(src);
    assert PredicateParts(PAIR, none, src) == Some([]);
    assert PredicateParts(PAIR, predicates, src) == Some([FIRST_COLUMN_IS_TRUE] + []);
    assert [FIRST_COLUMN_IS_TRUE] + [] == [] + [FIRST_COLUMN_IS_TRUE] == [FIRST_COLUMN_IS_TRUE];
  }

  lemma EncodableComparison()
    ensures IR.Encode(FIRST_COLUMN_IS_TRUE).Some?
  {
    assert [A][1..] == [] && A != [];
    var texts := IR.EncodeTexts([A]);
    assert LenPrefixed(A).Some? && IR.EncodeTexts([]) == Some([]);
    assert texts.Some? && |texts.value| == 5;
    var column, literal := IR.Encode(IR.ColumnRef([A])), IR.Encode(IR.Literal(IR.BoolValue(true)));
    assert column.Some? && |column.value| == 10;
    assert literal.Some? && |literal.value| == 3;
    assert IR.EncodeSub(IR.ColumnRef([A])).Some? && IR.EncodeSub(IR.Literal(IR.BoolValue(true))).Some?;
  }

  lemma MisreadPredicate(src: Surroundings)
    ensures Build(OnScan(PAIR, false), FIRST_IS_TRUE, src) == Some(FIRST_COLUMN_IS_TRUE)
  {
    assert BuildSub(OnScan(PAIR, false), Ref(0), src) == BuildColumn(PAIR, false, Ref(0)) == Some(IR.ColumnRef([A]));
  }

  /** DELETE FROM t WHERE b, planned over any such plan, encodes a test of `a`: on a row with `a` true and `b` false it
      deletes a row the plan does not select. */
  lemma MovedColumnMisread(child: Plan, ctx: D.Context, sym: S.Symbols, r: TableRow)
    requires PutsBFirst(child) && Describes(r.base, OnScan(PAIR, false), r.row) && r.base.sym == sym
    requires r.row(A) == D.Boolean(true) && r.row(B) == D.Boolean(false)
    requires sym.compare(IR.Eq, D.Boolean(true), D.Boolean(true))
        && !sym.compare(IR.Eq, D.Boolean(false), D.Boolean(true))
    ensures !ReadsScan(FirstIsTrue(child)) && Deletes(FirstIsTrue(child), r.base.src, ctx)
    ensures Removes(FirstIsTrue(child), r.base.src, ctx, sym, r)
        && !Selected(FirstIsTrue(child), r.base, r.envs, r.id)
  {
    MisreadParts(child, r.base.src);
    MisreadKeeps(ctx, r.row, sym);
    assert ScanColumn(PAIR, 1).Some?;
    NotSelected(child, r.base, r.envs);
  }

  /** Both a projection of `b` and a scan pruned to `b` are such plans. */
  lemma ProjectedAndPruned()
    ensures PutsBFirst(Projection(1, [Ref(1)], [PLAIN_GET])) && PutsBFirst(PLAIN_GET.(outputs := [1]))
  {
    var projection := Projection(1, [Ref(1)], [PLAIN_GET]);
    var none: seq<Option<Bound>> := [];
    assert FindGet(PLAIN_GET) == Some(PLAIN_GET) && none + none == none;
    assert CollectPredicates(PLAIN_GET) == Some(none) && CollectPredicates(projection) == Some(none);
    assert Origin(PLAIN_GET, 1) == Some(1) && Origin(projection, 0) == Some(1);
  }

  lemma MisreadKeeps(ctx: D.Context, row: S.Row, sym: S.Symbols)
    requires row(A) == D.Boolean(true) && sym.compare(IR.Eq, D.Boolean(true), D.Boolean(true))
    ensures var message := Message([FIRST_COLUMN_IS_TRUE]);
            message.Some? && Accepts(message.value, ctx) && Keeps(message.value, ctx, row, sym)
  {
    EncodableComparison();
    assert Utf8.Valid(A);
    Acceptance.MessageAccepted(D.FILTER_MAGIC, FIRST_COLUMN_IS_TRUE, ctx);
    var node := FIRST_COLUMN_IS_TRUE;
    assert T.TranslateSub(node, ctx) == T.Translate(node, ctx);
    ComparisonTranslation(node, ctx, row, sym);
    ColumnTranslation(A, ctx, row, sym);
    assert T.TranslateSub(node.rhs, ctx) == T.Translate(node.rhs, ctx) == Some(D.Literal(D.Boolean(true)));
    assert S.EvalSub(D.Literal(D.Boolean(true)), row, sym) == S.Eval(D.Literal(D.Boolean(true)), row, sym);
    var e := T.Translate(node, ctx).value;
    assert S.EvalSub(e, row, sym) == S.Eval(e, row, sym);
  }

  lemma NotSelected(child: Plan, base: Env, envs: Envs)
    requires PutsBFirst(child) && base.position(1) == D.Boolean(false)
    requires !base.sym.compare(IR.Eq, D.Boolean(false), D.Boolean(true))
    ensures !ReadsScan(FirstIsTrue(child)) && !Passes(FirstIsTrue(child), base, envs)
  {
    var p, env := FirstIsTrue(child), EnvAbove(child, base);
    EnvCarries(child, base);
    assert !ReadsThrough(child, Ref(0)) && !ReadsThrough(child, FIRST_IS_TRUE)
      && p.predicates[0] == Some(FIRST_IS_TRUE);
    assert MeaningSub(Ref(0), env) == Meaning(Ref(0), env) == D.Boolean(false);
    assert !True(p.predicates[0], env);
  }
}
