/** Logical plans under DELETE and UPDATE: what their references denote, and which rows they yield. */
module MutationPlan {
  import opened Bytes
  import D = ExprDecode
  import S = FilterSemantics
  import opened FilterPushdown
  import opened TableFilters
  import opened ScanFilters

  /** The table scan that DML starts from, another Lance scan, or a scan of something else. */
  datatype ScanKind = TableScan | OtherLanceScan | ForeignScan

  /** Logical plans as the planners walk them; a filter predicate may be missing. A scan has table filters by column id,
      yields the scanned columns listed in `outputs` (all of them when it is empty), and with a take list reads only the
      rows of those ids. */
  datatype Plan =
    | Get(kind: ScanKind, viaNamespace: bool, scan: Scan, outputs: seq<nat>, filters: seq<Entry>, take: seq<nat>)
    | Filter(predicates: seq<Option<Bound>>, children: seq<Plan>)
    | Projection(table: nat, exprs: seq<Bound>, children: seq<Plan>)
    | OtherOp(children: seq<Plan>)

  /** The scanned column at output position `i`. */
  function Output(outputs: seq<nat>, i: nat): Option<nat> {
    if outputs == [] then Some(i) else if i < |outputs| then Some(outputs[i]) else None
  }

  /** The scan under the first children of a plan. */
  function Leaf(p: Plan): (r: Option<Plan>)
    ensures r.Some? ==> r.value.Get?
  {
    if p.Get? then Some(p) else if p.children == [] then None else Leaf(p.children[0])
  }

  /** A scan yields its outputs by position, while bindings go on naming scanned columns. */
  function OutputEnv(outputs: seq<nat>, base: Env): Env {
    if outputs == [] then base
    else base.(position := (i: nat) => if i < |outputs| then base.position(outputs[i]) else D.Null)
  }

  function ProjectEnv(table: nat, exprs: seq<Bound>, below: Env): Env {
    below.(position := (i: nat) => if i < |exprs| then Meaning(exprs[i], below) else D.Null,
           column := (t: nat, c: nat, d: nat) =>
             if t == table && d == 0 && c < |exprs| then Meaning(exprs[c], below) else below.column(t, c, d))
  }

  /** What references denote above an operator, when `base` says what the scanned columns hold. */
  function EnvAbove(p: Plan, base: Env): Env {
    if p.Get? then OutputEnv(p.outputs, base)
    else if p.children == [] then base
    else if !p.Projection? then EnvAbove(p.children[0], base)
    else ProjectEnv(p.table, p.exprs, EnvAbove(p.children[0], base))
  }

  /** A missing predicate restricts nothing. */
  predicate True(e: Option<Bound>, env: Env) {
    e.Some? ==> Meaning(e.value, env) == D.Boolean(true)
  }

  predicate AllHold(es: seq<Entry>, envs: Envs) {
    forall i | 0 <= i < |es| :: Holds(es[i], envs)
  }

  /** All table filters hold, and every predicate is true where it stands. */
  predicate Passes(p: Plan, base: Env, envs: Envs) {
    if p.Get? then AllHold(p.filters, envs)
    else
      && p.children != [] && Passes(p.children[0], base, envs)
      && (p.Filter? ==> AllPredicates(p.predicates, EnvAbove(p.children[0], base)))
  }

  /** The scan reads the row of this id. */
  predicate Taken(p: Plan, id: nat) {
    Leaf(p).Some? && Leaf(p).value.take != [] ==> id in Leaf(p).value.take
  }

  /** A row of the table: its id, its columns by name, and what references denote on it. */
  datatype TableRow = TableRow(id: nat, row: S.Row, base: Env, envs: Envs)

  /** The rows a plan yields. */
  predicate Selected(p: Plan, base: Env, envs: Envs, id: nat) {
    Passes(p, base, envs) && Taken(p, id)
  }

  /** The scanned column whose value output `i` of a plan copies, if it copies one. */
  function Origin(p: Plan, i: nat): Option<nat> {
    if p.Get? then Output(p.outputs, i)
    else if p.children == [] then None
    else if !p.Projection? then Origin(p.children[0], i)
    else if i < |p.exprs| && p.exprs[i].Ref? then Origin(p.children[0], p.exprs[i].index)
    else None
  }

  predicate Projects(p: Plan, table: nat) {
    !p.Get? && p.children != [] && ((p.Projection? && p.table == table) || Projects(p.children[0], table))
  }

  /** Every reference in the predicate means above the plan what it means at the scan: positions copy the same scan
      position, and column bindings are not those of a projection. */
  predicate ReadsThrough(p: Plan, e: Bound)
    decreases e
  {
    match e
    case Ref(i) => Origin(p, i) == Some(i)
    case ColumnRef(t, _, _) => !Projects(p, t)
    case StructExtract(child, _) => ReadsThrough(p, child)
    case CastTo(child, _, _) => ReadsThrough(p, child)
    case Compare(_, l, r) => ReadsThrough(p, l) && ReadsThrough(p, r)
    case Conjoin(_, children) => AllReadThrough(p, children)
    case Negate(child) => ReadsThrough(p, child)
    case NullTest(_, child) => ReadsThrough(p, child)
    case InTest(_, child, items) => ReadsThrough(p, child) && AllReadThrough(p, items)
    case Between(i, l, u, _, _) => ReadsThrough(p, i) && ReadsThrough(p, l) && ReadsThrough(p, u)
    case Call(_, args) => AllReadThrough(p, args)
    case Constant(_) => true
    case OtherExpr => true
  }

  predicate AllReadThrough(p: Plan, es: seq<Bound>)
    decreases es
  {
    es == [] || (ReadsThrough(p, es[0]) && AllReadThrough(p, es[1..]))
  }

  /** Every filter predicate reads the scan's own columns, through whatever projections are below it. */
  predicate ReadsScan(p: Plan) {
    p.Get?
    || (&& (forall c | c in p.children :: ReadsScan(c))
        && (p.Filter? && p.children != [] ==>
              forall k | 0 <= k < |p.predicates|
                && p.predicates[k].Some? :: ReadsThrough(p.children[0], p.predicates[k].value)))
  }

  predicate WellTypedPlan(p: Plan) {
    if p.Get? then WellTypedEntries(p.filters)
    else
      && (forall c | c in p.children :: WellTypedPlan(c))
      && (p.Filter? ==> forall k | 0 <= k < |p.predicates| ::
        p.predicates[k].Some?
        ==> WellTyped(p.predicates[k].value))
  }

  predicate AllPredicates(ps: seq<Option<Bound>>, env: Env) {
    forall k | 0 <= k < |ps| :: True(ps[k], env)
  }

  predicate WellTypedPredicates(ps: seq<Option<Bound>>) {
    forall k | 0 <= k < |ps| :: ps[k].Some? ==> WellTyped(ps[k].value)
  }

  /** What `Origin` and `Projects` promise about the meaning of references above a plan. */
  ghost predicate Carries(p: Plan, base: Env, above: Env) {
    && above.src == base.src && above.sym == base.sym
    && (forall i: nat | Origin(p, i).Some? :: above.position(i) == base.position(Origin(p, i).value))
    && (forall t: nat, c: nat, d: nat | !Projects(p, t) :: above.column(t, c, d) == base.column(t, c, d))
  }

  lemma {:induction false} EnvCarries(p: Plan, base: Env)
    ensures Carries(p, base, EnvAbove(p, base))
  {
    if !p.Get? && p.children != [] {
      var child := p.children[0];
      EnvCarries(child, base);
      if p.Projection? {
        var below, above := EnvAbove(child, base), EnvAbove(p, base);
        forall i: nat | Origin(p, i).Some?
          ensures above.position(i) == base.position(Origin(p, i).value)
        {
          assert above.position(i) == Meaning(p.exprs[i], below) == below.position(p.exprs[i].index);
        }
      }
    }
  }

  /** A predicate that reads through the plan means above it what it means at the scan. */
  lemma {:induction false} SameMeaning(p: Plan, e: Bound, base: Env, above: Env)
    requires Carries(p, base, above) && ReadsThrough(p, e)
    ensures Meaning(e, above) == Meaning(e, base) && MeaningSub(e, above) == MeaningSub(e, base)
    decreases e
  {
    match e
    case StructExtract(child, _) => SameMeaning(p, child, base, above);
    case CastTo(child, _, _) => SameMeaning(p, child, base, above);
    case Compare(_, l, r) =>
      SameMeaning(p, l, base, above);
      SameMeaning(p, r, base, above);
    case Conjoin(_, children) => SameMeanings(p, children, base, above);
    case Negate(child) => SameMeaning(p, child, base, above);
    case NullTest(_, child) => SameMeaning(p, child, base, above);
    case InTest(_, child, items) =>
      SameMeaning(p, child, base, above);
      SameMeanings(p, items, base, above);
    case Between(i, l, u, _, _) =>
      SameMeaning(p, i, base, above);
      SameMeaning(p, l, base, above);
      SameMeaning(p, u, base, above);
    case Call(_, args) => SameMeanings(p, args, base, above);
    case _ =>
  }

  lemma {:induction false} SameMeanings(p: Plan, es: seq<Bound>, base: Env, above: Env)
    requires Carries(p, base, above) && AllReadThrough(p, es)
    ensures MeaningAll(es, above) == MeaningAll(es, base)
    decreases es
  {
    if es != [] {
      SameMeaning(p, es[0], base, above);
      SameMeanings(p, es[1..], base, above);
    }
  }

  lemma SamePredicates(p: Plan, ps: seq<Option<Bound>>, base: Env, above: Env)
    requires Carries(p, base, above)
    requires forall k | 0 <= k < |ps| && ps[k].Some? :: ReadsThrough(p, ps[k].value)
    ensures AllPredicates(ps, above) <==> AllPredicates(ps, base)
  {
    forall k | 0 <= k < |ps|
      ensures True(ps[k], above) <==> True(ps[k], base)
    {
      if ps[k].Some? {
        SameMeaning(p, ps[k].value, base, above);
      }
    }
  }

  /** A position that copies a scan column means the column of its own number, on every row, if and only if it
      copies that column. */
  lemma PositionDecides(p: Plan, i: nat, base: Env)
    requires Origin(p, i).Some?
    ensures (forall at: nat -> D.Scalar :: EnvAbove(p, base.(position := at)).position(i) == at(i))
        <==> Origin(p, i) == Some(i)
  {
    forall at: nat -> D.Scalar
      ensures EnvAbove(p, base.(position := at)).position(i) == at(Origin(p, i).value)
    {
      EnvCarries(p, base.(position := at));
    }
    var only := (j: nat) => D.Boolean(j == i);
    assert only(i) == D.Boolean(true);
    assert EnvAbove(p, base.(position := only)).position(i) == only(Origin(p, i).value);
  }

  lemma AllAppend(a: seq<Option<Bound>>, b: seq<Option<Bound>>, env: Env)
    ensures AllPredicates(a + b, env) <==> AllPredicates(a, env) && AllPredicates(b, env)
    ensures WellTypedPredicates(a + b) <==> WellTypedPredicates(a) && WellTypedPredicates(b)
  {
    var ab := a + b;
    assert forall k | 0 <= k < |a| :: ab[k] == a[k];
    assert forall k | 0 <= k < |b| :: ab[|a| + k] == b[k];
    assert forall k | |a| <= k < |ab| :: ab[k] == b[k - |a|];
  }

  lemma AllCons(ps: seq<Option<Bound>>, env: Env)
    requires ps != []
    ensures AllPredicates(ps, env) <==> True(ps[0], env) && AllPredicates(ps[1..], env)
    ensures WellTypedPredicates(ps) ==> WellTypedPredicates(ps[1..])
  {
    assert forall k | 1 <= k < |ps| :: ps[k] == ps[1..][k - 1];
  }

  /** The predicates of all filters above the scan, top down. */
  function PredicatesOf(p: Plan): seq<Option<Bound>> {
    if p.Get? || p.children == [] then []
    else (if p.Filter? then p.predicates else []) + PredicatesOf(p.children[0])
  }

  /** When every predicate reads the scan's own columns, a row passes the plan exactly when the scan's filters hold and
      all predicates are true of the scanned columns. */
  lemma {:induction false} PassesAtScan(p: Plan, base: Env, envs: Envs)
    requires ReadsScan(p) && WellTypedPlan(p) && Leaf(p).Some?
    ensures WellTypedPredicates(PredicatesOf(p)) && WellTypedEntries(Leaf(p).value.filters)
    ensures Passes(p, base, envs) <==> AllHold(Leaf(p).value.filters, envs) && AllPredicates(PredicatesOf(p), base)
  {
    if !p.Get? {
      var child := p.children[0];
      assert child in p.children;
      PassesAtScan(child, base, envs);
      if p.Filter? {
        EnvCarries(child, base);
        SamePredicates(child, p.predicates, base, EnvAbove(child, base));
        AllAppend(p.predicates, PredicatesOf(child), base);
      } else {
        assert PredicatesOf(p) == PredicatesOf(child);
      }
    }
  }
}
