/** Table filters pushed into a scan: which are pushed, and what the pushed message selects. */
module TableFilters {
  import opened Bytes
  import IR = ExprIR
  import D = ExprDecode
  import T = ExprRoundTrip
  import S = FilterSemantics
  import opened FilterPushdown

  datatype TableFilter =
    | OptionalFilter(filter: Option<TableFilter>)
    | ConstantFilter(cmp: Option<IR.CompareOp>, constant: IR.Value)
    | IsNullFilter
    | IsNotNullFilter
    | InFilter(values: seq<IR.Value>)
    | ConjunctionFilter(conj: IR.ConjunctionOp, filters: seq<TableFilter>)
    | ExpressionFilter(expr: Option<Bound>)
    | OtherFilter

  function Literals(vs: seq<IR.Value>): (r: seq<IR.Node>)
    ensures |r| == |vs|
  {
    if vs == [] then [] else [IR.Literal(vs[0])] + Literals(vs[1..])
  }

  function CompileAll(name: Text, fs: seq<TableFilter>, src: Surroundings): Option<seq<IR.Node>>
    decreases fs
  {
    if fs == [] then Some([])
    else
      var head :- CompileSub(name, fs[0], src);
      var tail :- CompileAll(name, fs[1..], src);
      Some([head] + tail)
  }

  function CompileSub(name: Text, f: TableFilter, src: Surroundings): Option<IR.Node>
    decreases f, 1
  {
    Compile(name, f, src)
  }

  /** The IR of one table filter on column `name`. */
  function Compile(name: Text, f: TableFilter, src: Surroundings): Option<IR.Node>
    decreases f, 0
  {
    var column := IR.ColumnRef([name]);
    match f
    case OptionalFilter(child) => var c :- child; CompileSub(name, c, src)
    case ConstantFilter(cmp, constant) => var op :- cmp; Some(IR.Comparison(op, column, IR.Literal(constant)))
    case IsNullFilter => Some(IR.IsNull(column))
    case IsNotNullFilter => Some(IR.IsNotNull(column))
    case InFilter(values) => Some(IR.InList(false, column, Literals(values)))
    case ConjunctionFilter(op, fs) => var cs :- CompileAll(name, fs, src); Some(IR.Conjunction(op, cs))
    case ExpressionFilter(expr) => var e :- expr; Build(OnColumn(name), e, src)
    case OtherFilter => None
  }

  /** The value a table filter has when the filtered column holds `env.position(0)`. */
  function FilterMeaning(f: TableFilter, env: Env): D.Scalar
    decreases f
  {
    var x := env.position(0);
    match f
    case OptionalFilter(Some(child)) => FilterMeaning(child, env)
    case ConstantFilter(Some(op), constant) => S.Compare3(op, x, ValueOf(constant, env.src), env.sym)
    case IsNullFilter => D.Boolean(x == D.Null)
    case IsNotNullFilter => D.Boolean(x != D.Null)
    case InFilter(values) => S.In3(false, x, ValuesOf(values, env.src), env.sym)
    case ConjunctionFilter(op, fs) => S.Nary(op, FilterMeanings(fs, env))
    case ExpressionFilter(Some(e)) => Meaning(e, env)
    case _ => D.Boolean(true)
  }

  function FilterMeanings(fs: seq<TableFilter>, env: Env): (r: seq<D.Scalar>)
    ensures |r| == |fs|
    decreases fs
  {
    if fs == [] then [] else [FilterMeaning(fs[0], env)] + FilterMeanings(fs[1..], env)
  }

  function ValuesOf(vs: seq<IR.Value>, src: Surroundings): (r: seq<D.Scalar>)
    ensures |r| == |vs|
  {
    if vs == [] then [] else [ValueOf(vs[0], src)] + ValuesOf(vs[1..], src)
  }

  predicate WellTypedFilter(f: TableFilter)
    decreases f
  {
    match f
    case OptionalFilter(Some(child)) => WellTypedFilter(child)
    case ConjunctionFilter(_, fs) => WellTypedFilters(fs)
    case ExpressionFilter(Some(e)) => WellTyped(e)
    case _ => true
  }

  predicate WellTypedFilters(fs: seq<TableFilter>)
    decreases fs
  {
    fs == [] || (WellTypedFilter(fs[0]) && WellTypedFilters(fs[1..]))
  }

  ghost predicate FilterCompiled(name: Text, f: TableFilter, ctx: D.Context, env: Env, row: S.Row) {
    && Faithful(env.src) && WellTypedFilter(f) && Describes(env, OnColumn(name), row)
    && Compile(name, f, env.src).Some?
    && T.Translate(Compile(name, f, env.src).value, ctx).Some?
  }

  /** A table filter that compiles and decodes has, on every row, the value the filter has. */
  lemma {:induction false} CompileMeaning(name: Text, f: TableFilter, ctx: D.Context, env: Env, row: S.Row)
    requires FilterCompiled(name, f, ctx, env, row)
    ensures S.Eval(T.Translate(Compile(name, f, env.src).value, ctx).value, row, env.sym) == FilterMeaning(f, env)
    decreases f, 1
  {
    match f
    case OptionalFilter(child) =>
      assert Compile(name, f, env.src) == CompileSub(name, child.value, env.src) == Compile(name, child.value, env.src);
      CompileMeaning(name, child.value, ctx, env, row);
    case ConstantFilter(_, _) => ConstantFilterMeaning(name, f, ctx, env, row);
    case IsNullFilter => NullFilterMeaning(name, ctx, env, row);
    case IsNotNullFilter => NullFilterMeaning(name, ctx, env, row);
    case InFilter(values) => InFilterMeaning(name, values, ctx, env, row);
    case ConjunctionFilter(op, fs) =>
      var cs := CompileAll(name, fs, env.src).value;
      ConjunctionTranslation(op, cs, ctx, row, env.sym);
      CompileAllMeaning(name, fs, ctx, env, row);
    case ExpressionFilter(e) =>
      assert Compile(name, f, env.src) == Build(OnColumn(name), e.value, env.src);
      BuildMeaning(OnColumn(name), e.value, ctx, env, row);
    case OtherFilter =>
  }

  lemma ConjunctionTranslation(op: IR.ConjunctionOp, cs: seq<IR.Node>, ctx: D.Context, row: S.Row, sym: S.Symbols)
    requires T.Translate(IR.Conjunction(op, cs), ctx).Some?
    ensures T.TranslateAll(cs, ctx).Some?
    ensures S.Eval(T.Translate(IR.Conjunction(op, cs), ctx).value, row, sym)
            == S.Nary(op, S.EvalAll(T.TranslateAll(cs, ctx).value, row, sym))
  {
    S.FoldLeftMeaning(op, T.TranslateAll(cs, ctx).value, row, sym);
  }

  lemma ColumnTranslation(name: Text, ctx: D.Context, row: S.Row, sym: S.Symbols)
    requires T.TranslateSub(IR.ColumnRef([name]), ctx).Some?
    ensures S.EvalSub(T.TranslateSub(IR.ColumnRef([name]), ctx).value, row, sym) == row(name)
  {
    assert T.TranslateSub(IR.ColumnRef([name]), ctx) == T.Translate(IR.ColumnRef([name]), ctx);
    assert D.NestFields([name]) == D.Column(name);
  }

  lemma LiteralTranslation(v: IR.Value, ctx: D.Context, row: S.Row, env: Env)
    requires T.TranslateSub(IR.Literal(v), ctx).Some?
    ensures S.EvalSub(T.TranslateSub(IR.Literal(v), ctx).value, row, env.sym) == ValueOf(v, env.src)
  {
    assert T.TranslateSub(IR.Literal(v), ctx) == T.Translate(IR.Literal(v), ctx);
    var e := T.TranslateSub(IR.Literal(v), ctx).value;
    assert S.EvalSub(e, row, env.sym) == S.Eval(e, row, env.sym);
  }

  lemma ConstantFilterMeaning(name: Text, f: TableFilter, ctx: D.Context, env: Env, row: S.Row)
    requires FilterCompiled(name, f, ctx, env, row) && f.ConstantFilter?
    ensures S.Eval(T.Translate(Compile(name, f, env.src).value, ctx).value, row, env.sym) == FilterMeaning(f, env)
  {
    var n := IR.Comparison(f.cmp.value, IR.ColumnRef([name]), IR.Literal(f.constant));
    assert T.TranslateSub(n, ctx) == T.Translate(n, ctx);
    ComparisonTranslation(n, ctx, row, env.sym);
    ColumnTranslation(name, ctx, row, env.sym);
    LiteralTranslation(f.constant, ctx, row, env);
    var e := T.TranslateSub(n, ctx).value;
    assert S.EvalSub(e, row, env.sym) == S.Eval(e, row, env.sym);
  }

  lemma NullFilterMeaning(name: Text, ctx: D.Context, env: Env, row: S.Row)
    requires Describes(env, OnColumn(name), row)
    requires T.TranslateSub(IR.ColumnRef([name]), ctx).Some?
    ensures T.Translate(IR.IsNull(IR.ColumnRef([name])), ctx).Some?
        && T.Translate(IR.IsNotNull(IR.ColumnRef([name])), ctx).Some?
    ensures S.Eval(T.Translate(IR.IsNull(IR.ColumnRef([name])), ctx).value, row, env.sym) ==
        FilterMeaning(IsNullFilter, env)
    ensures S.Eval(T.Translate(IR.IsNotNull(IR.ColumnRef([name])), ctx).value, row, env.sym) ==
        FilterMeaning(IsNotNullFilter, env)
  {
    NullTestTranslation(IR.ColumnRef([name]), ctx, row, env.sym);
    ColumnTranslation(name, ctx, row, env.sym);
  }

  lemma InFilterMeaning(name: Text, values: seq<IR.Value>, ctx: D.Context, env: Env, row: S.Row)
    requires Describes(env, OnColumn(name), row)
    requires T.Translate(IR.InList(false, IR.ColumnRef([name]), Literals(values)), ctx).Some?
    ensures S.Eval(T.Translate(IR.InList(false, IR.ColumnRef([name]), Literals(values)), ctx).value, row, env.sym)
            == FilterMeaning(InFilter(values), env)
  {
    InListTranslation(false, IR.ColumnRef([name]), Literals(values), ctx, row, env.sym);
    ColumnTranslation(name, ctx, row, env.sym);
    LiteralsMeaning(values, ctx, env, row);
  }

  lemma {:induction false} LiteralsMeaning(vs: seq<IR.Value>, ctx: D.Context, env: Env, row: S.Row)
    requires T.TranslateAll(Literals(vs), ctx).Some?
    ensures S.EvalAll(T.TranslateAll(Literals(vs), ctx).value, row, env.sym) == ValuesOf(vs, env.src)
  {
    if vs != [] {
      assert Literals(vs)[1..] == Literals(vs[1..]);
      LiteralTranslation(vs[0], ctx, row, env);
      LiteralsMeaning(vs[1..], ctx, env, row);
      var es := T.TranslateAll(Literals(vs), ctx).value;
      assert es[1..] == T.TranslateAll(Literals(vs[1..]), ctx).value;
    }
  }

  lemma {:induction false} CompileAllMeaning(name: Text, fs: seq<TableFilter>, ctx: D.Context, env: Env, row: S.Row)
    requires Faithful(env.src) && WellTypedFilters(fs) && Describes(env, OnColumn(name), row)
    requires CompileAll(name, fs, env.src).Some? && T.TranslateAll(CompileAll(name, fs, env.src).value, ctx).Some?
    ensures S.EvalAll(T.TranslateAll(CompileAll(name, fs, env.src).value, ctx).value, row, env.sym) ==
        FilterMeanings(fs, env)
    decreases fs
  {
    if fs != [] {
      var cs := CompileAll(name, fs, env.src).value;
      assert cs[1..] == CompileAll(name, fs[1..], env.src).value;
      assert T.TranslateSub(cs[0], ctx) == T.Translate(cs[0], ctx);
      CompileMeaning(name, fs[0], ctx, env, row);
      CompileAllMeaning(name, fs[1..], ctx, env, row);
      var es := T.TranslateAll(cs, ctx).value;
      assert S.EvalSub(es[0], row, env.sym) == S.Eval(es[0], row, env.sym);
      assert es[1..] == T.TranslateAll(cs[1..], ctx).value;
    }
  }
}
