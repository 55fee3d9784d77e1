/** SET expressions of UPDATE: references resolved through filters and projections down to the scan's columns. */
module UpdateScope {
  import opened Bytes
  import Utf8
  import IR = ExprIR
  import D = ExprDecode
  import T = ExprRoundTrip
  import S = FilterSemantics
  import P = FilterPushdown
  import F = TableFilters
  import E = ExecPlan
  import M = MutationPlan

  type Text = seq<byte>

  datatype Check = Check(when: Expr, result: Expr)

  /** Bound expressions, by the classes the encoder distinguishes. */
  datatype Expr =
    | Column(table: nat, column: nat)
    | Position(index: nat, alias: Text)
    | Constant(value: IR.Value)
    | CastTo(child: Expr, to: IR.LogicalType, tryCast: bool)
    | Call(name: Text, args: seq<Expr>)
    | Negate(child: Expr)
    | NullTest(isNull: bool, child: Expr)
    | InTest(negated: bool, child: Expr, items: seq<Expr>)
    | Compare(cmp: Option<IR.CompareOp>, lhs: Expr, rhs: Expr)
    | Conjoin(conj: Option<IR.ConjunctionOp>, children: seq<Expr>)
    | Case(checks: seq<Check>, otherwise: Option<Expr>)
    | Between(input: Expr, lower: Expr, upper: Expr, lowerInclusive: bool, upperInclusive: bool)
    | Other

  /** The operators between a SET expression and the scan, which yields the scanned columns in `outputs`, or all of them
      when it is empty. */
  datatype Scope =
    | Get(outputs: seq<nat>)
    | Filter(below: Scope)
    | Projection(table: nat, exprs: seq<Expr>, below: Scope)
    | Elsewhere

  const ADD: Text := [0x61, 0x64, 0x64] // "add"
  const SUBTRACT: Text := [0x73, 0x75, 0x62, 0x74, 0x72, 0x61, 0x63, 0x74] // "subtract"
  const MULTIPLY: Text := [0x6D, 0x75, 0x6C, 0x74, 0x69, 0x70, 0x6C, 0x79] // "multiply"
  const DIVIDE: Text := [0x64, 0x69, 0x76, 0x69, 0x64, 0x65] // "divide"

  function ArithmeticName(name: Text): Option<IR.ArithmeticOp> {
    var lowered := IR.Lower(name);
    if lowered == [0x2B] || lowered == ADD then Some(IR.Add)
    else if lowered == [0x2D] || lowered == SUBTRACT then Some(IR.Sub)
    else if lowered == [0x2A] || lowered == MULTIPLY then Some(IR.Mul)
    else if lowered == [0x2F] || lowered == DIVIDE then Some(IR.Div)
    else None
  }

  // Encoding.

  function BaseColumn(scan: E.Scan, i: nat): Option<IR.Node> {
    var c :- E.ScanColumn(scan, i);
    Some(IR.ColumnRef([scan.names[c]]))
  }

  function BuildPosition(scan: E.Scan, scope: Scope, i: nat): Option<IR.Node>
    decreases scope, 0
  {
    match scope
    case Get(_) => BaseColumn(scan, i)
    case Filter(below) => BuildPosition(scan, below, i)
    case Projection(_, es, below) => if i < |es| then Build(scan, below, es[i]) else None
    case Elsewhere => None
  }

  function BuildBinding(scan: E.Scan, scope: Scope, table: nat, i: nat): Option<IR.Node>
    decreases scope, 0
  {
    match scope
    case Get(_) => if table == scan.table then BaseColumn(scan, i) else None
    case Filter(below) => BuildBinding(scan, below, table, i)
    case Projection(t, es, below) => if table == t && i < |es| then Build(scan, below, es[i]) else None
    case Elsewhere => None
  }

  function BuildSub(scan: E.Scan, scope: Scope, e: Expr): Option<IR.Node>
    decreases scope, 1, e, 1
  {
    Build(scan, scope, e)
  }

  function BuildAll(scan: E.Scan, scope: Scope, es: seq<Expr>): Option<seq<IR.Node>>
    decreases scope, 1, es
  {
    if es == [] then Some([])
    else
      var head :- BuildSub(scan, scope, es[0]);
      var tail :- BuildAll(scan, scope, es[1..]);
      Some([head] + tail)
  }

  function BuildCheck(scan: E.Scan, scope: Scope, c: Check): Option<IR.Branch>
    decreases scope, 1, c
  {
    var when :- BuildSub(scan, scope, c.when);
    var result :- BuildSub(scan, scope, c.result);
    Some(IR.Branch(when, result))
  }

  function BuildChecks(scan: E.Scan, scope: Scope, cs: seq<Check>): Option<seq<IR.Branch>>
    decreases scope, 1, cs
  {
    if cs == [] then Some([])
    else
      var head :- BuildCheck(scan, scope, cs[0]);
      var tail :- BuildChecks(scan, scope, cs[1..]);
      Some([head] + tail)
  }

  /** The IR tree of a SET expression; none where the encoder throws. */
  function Build(scan: E.Scan, scope: Scope, e: Expr): Option<IR.Node>
    decreases scope, 1, e, 0
  {
    match e
    case Column(table, i) => BuildBinding(scan, scope, table, i)
    case Position(i, alias) => if alias != [] then Some(IR.ColumnRef([alias])) else BuildPosition(scan, scope, i)
    case Constant(v) => Some(IR.Literal(v))
    case CastTo(child, to, tryCast) =>
      if tryCast then None else var c :- BuildSub(scan, scope, child); Some(IR.Cast(to, c))
    case Call(name, args) =>
      var cs :- BuildAll(scan, scope, args);
      if |args| == 2 && |cs| == 2 && ArithmeticName(name).Some?
        then Some(IR.Binary(ArithmeticName(name).value, cs[0], cs[1]))
      else Some(IR.Function(name, cs))
    case Negate(child) => var c :- BuildSub(scan, scope, child); Some(IR.Not(c))
    case NullTest(isNull, child) =>
      var c :- BuildSub(scan, scope, child);
      Some(if isNull then IR.IsNull(c) else IR.IsNotNull(c))
    case InTest(negated, child, items) =>
      if items == [] then None
      else
        var c :- BuildSub(scan, scope, child);
        var cs :- BuildAll(scan, scope, items);
        Some(IR.InList(negated, c, cs))
    case Compare(cmp, lhs, rhs) =>
      var op :- cmp;
      var l :- BuildSub(scan, scope, lhs);
      var r :- BuildSub(scan, scope, rhs);
      Some(IR.Comparison(op, l, r))
    case Conjoin(conj, children) =>
      var op :- conj;
      var cs :- BuildAll(scan, scope, children);
      Some(IR.Conjunction(op, cs))
    case Case(checks, otherwise) =>
      var bs :- BuildChecks(scan, scope, checks);
      if otherwise.None? then Some(IR.Case(bs, None))
      else var x :- BuildSub(scan, scope, otherwise.value); Some(IR.Case(bs, Some(x)))
    case Between(input, lower, upper, li, ui) =>
      var i :- BuildSub(scan, scope, input);
      var lo :- BuildSub(scan, scope, lower);
      var hi :- BuildSub(scan, scope, upper);
      Some(IR.Conjunction(IR.And, [IR.Comparison(P.LowerOp(li), i, lo), IR.Comparison(P.UpperOp(ui), i, hi)]))
    case Other => None
  }

  // Meaning: a filter passes rows on, a projection computes them, the scan delivers its outputs by position, while
  // bindings name scanned columns.

  function ConstantValue(v: IR.Value): D.Scalar {
    if T.TranslateLiteral(v).Some? then T.TranslateLiteral(v).value else D.Null
  }

  function CastValue(to: IR.LogicalType, x: D.Scalar, sym: S.Symbols): D.Scalar {
    if T.TranslateType(to).Some? then sym.cast(T.TranslateType(to).value, x) else D.Null
  }

  predicate Named(name: Text, symbol: byte, word: Text) {
    IR.Lower(name) == [symbol] || IR.Lower(name) == word
  }

  /** The four arithmetic functions go by a symbol or a word, in any case. */
  function CallValue(name: Text, xs: seq<D.Scalar>, sym: S.Symbols): D.Scalar {
    if |xs| == 2 && Named(name, 0x2B, ADD) then sym.arithmetic(IR.Add, xs[0], xs[1])
    else if |xs| == 2 && Named(name, 0x2D, SUBTRACT) then sym.arithmetic(IR.Sub, xs[0], xs[1])
    else if |xs| == 2 && Named(name, 0x2A, MULTIPLY) then sym.arithmetic(IR.Mul, xs[0], xs[1])
    else if |xs| == 2 && Named(name, 0x2F, DIVIDE) then sym.arithmetic(IR.Div, xs[0], xs[1])
    else sym.call(D.Named(IR.Lower(name)), xs)
  }

  function PositionValue(scope: Scope, i: nat, at: nat -> D.Scalar, sym: S.Symbols): D.Scalar
    decreases scope, 0
  {
    match scope
    case Get(outputs) => if M.Output(outputs, i).Some? then at(M.Output(outputs, i).value) else D.Null
    case Filter(below) => PositionValue(below, i, at, sym)
    case Projection(_, es, below) => if i < |es| then Value(below, es[i], at, sym) else D.Null
    case Elsewhere => D.Null
  }

  function BindingValue(scope: Scope, i: nat, at: nat -> D.Scalar, sym: S.Symbols): D.Scalar
    decreases scope, 0
  {
    match scope
    case Get(_) => at(i)
    case Filter(below) => BindingValue(below, i, at, sym)
    case Projection(_, es, below) => if i < |es| then Value(below, es[i], at, sym) else D.Null
    case Elsewhere => D.Null
  }

  function ValueSub(scope: Scope, e: Expr, at: nat -> D.Scalar, sym: S.Symbols): D.Scalar
    decreases scope, 1, e, 1
  {
    Value(scope, e, at, sym)
  }

  function ValueAll(scope: Scope, es: seq<Expr>, at: nat -> D.Scalar, sym: S.Symbols): (r: seq<D.Scalar>)
    ensures |r| == |es|
    decreases scope, 1, es
  {
    if es == [] then [] else [ValueSub(scope, es[0], at, sym)] + ValueAll(scope, es[1..], at, sym)
  }

  function CheckValue(scope: Scope, c: Check, at: nat -> D.Scalar, sym: S.Symbols): (bool, D.Scalar)
    decreases scope, 1, c
  {
    (ValueSub(scope, c.when, at, sym) == D.Boolean(true), ValueSub(scope, c.result, at, sym))
  }

  function CaseValue(scope: Scope, cs: seq<Check>, otherwise: D.Scalar, at: nat -> D.Scalar, sym: S.Symbols): D.Scalar
    decreases scope, 1, cs
  {
    if cs == [] then otherwise
    else
      var (taken, result) := CheckValue(scope, cs[0], at, sym);
      if taken then result else CaseValue(scope, cs[1..], otherwise, at, sym)
  }

  function Value(scope: Scope, e: Expr, at: nat -> D.Scalar, sym: S.Symbols): D.Scalar
    decreases scope, 1, e, 0
  {
    match e
    case Column(_, i) => BindingValue(scope, i, at, sym)
    case Position(i, _) => PositionValue(scope, i, at, sym)
    case Constant(v) => ConstantValue(v)
    case CastTo(child, to, _) => CastValue(to, ValueSub(scope, child, at, sym), sym)
    case Call(name, args) => CallValue(name, ValueAll(scope, args, at, sym), sym)
    case Negate(child) => S.Not3(ValueSub(scope, child, at, sym))
    case NullTest(isNull, child) => D.Boolean((ValueSub(scope, child, at, sym) == D.Null) == isNull)
    case InTest(negated, child, items) =>
      S.In3(negated, ValueSub(scope, child, at, sym), ValueAll(scope, items, at, sym), sym)
    case Compare(Some(op), l, r) => S.Compare3(op, ValueSub(scope, l, at, sym), ValueSub(scope, r, at, sym), sym)
    case Conjoin(Some(op), children) => S.Nary(op, ValueAll(scope, children, at, sym))
    case Case(checks, otherwise) =>
      CaseValue(scope, checks, if otherwise.Some? then ValueSub(scope, otherwise.value, at, sym) else D.Null, at, sym)
    case Between(input, lower, upper, li, ui) =>
      P.BetweenValue(ValueSub(scope, input, at, sym), ValueSub(scope, lower, at, sym), ValueSub(scope, upper, at, sym),
                     li, ui, sym)
    case _ => D.Null
  }

  // Aliases. A positional reference that has one is encoded by it, whatever the position is.

  /** The scanned column whose value output `i` of a scope copies, if it copies one. */
  function Source(scope: Scope, i: nat): Option<nat>
    decreases scope, 0
  {
    match scope
    case Get(outputs) => M.Output(outputs, i)
    case Filter(below) => Source(below, i)
    case Projection(_, es, below) => if i < |es| then CopyOf(below, es[i]) else None
    case Elsewhere => None
  }

  function BindingSource(scope: Scope, i: nat): Option<nat>
    decreases scope, 0
  {
    match scope
    case Get(_) => Some(i)
    case Filter(below) => BindingSource(below, i)
    case Projection(_, es, below) => if i < |es| then CopyOf(below, es[i]) else None
    case Elsewhere => None
  }

  function CopyOf(scope: Scope, e: Expr): Option<nat>
    decreases scope, 1
  {
    if e.Column? then BindingSource(scope, e.column) else if e.Position? then Source(scope, e.index) else None
  }

  function NameAt(scan: E.Scan, j: nat): Option<Text> {
    var c :- E.ScanColumn(scan, j);
    Some(scan.names[c])
  }

  /** The position copies the scanned column of that name. */
  predicate NamesIts(scan: E.Scan, scope: Scope, i: nat, alias: Text) {
    Source(scope, i).Some? && NameAt(scan, Source(scope, i).value) == Some(alias)
  }

  predicate AliasedPosition(scan: E.Scan, scope: Scope, i: nat)
    decreases scope, 0
  {
    match scope
    case Get(outputs) => M.Output(outputs, i) == Some(i)
    case Filter(below) => AliasedPosition(scan, below, i)
    case Projection(_, es, below) => i < |es| ==> Aliased(scan, below, es[i])
    case Elsewhere => true
  }

  predicate AliasedBinding(scan: E.Scan, scope: Scope, i: nat)
    decreases scope, 0
  {
    match scope
    case Filter(below) => AliasedBinding(scan, below, i)
    case Projection(_, es, below) => i < |es| ==> Aliased(scan, below, es[i])
    case _ => true
  }

  predicate AliasedSub(scan: E.Scan, scope: Scope, e: Expr)
    decreases scope, 1, e, 1
  {
    Aliased(scan, scope, e)
  }

  predicate AliasedAll(scan: E.Scan, scope: Scope, es: seq<Expr>)
    decreases scope, 1, es
  {
    es == [] || (AliasedSub(scan, scope, es[0]) && AliasedAll(scan, scope, es[1..]))
  }

  predicate AliasedCheck(scan: E.Scan, scope: Scope, c: Check)
    decreases scope, 1, c
  {
    AliasedSub(scan, scope, c.when) && AliasedSub(scan, scope, c.result)
  }

  predicate AliasedChecks(scan: E.Scan, scope: Scope, cs: seq<Check>)
    decreases scope, 1, cs
  {
    cs == [] || (AliasedCheck(scan, scope, cs[0]) && AliasedChecks(scan, scope, cs[1..]))
  }

  /** In an expression, and in what its references resolve to, every alias names the column its position copies, and
      every position that reaches the scan is the place of its scanned column. */
  predicate Aliased(scan: E.Scan, scope: Scope, e: Expr)
    decreases scope, 1, e, 0
  {
    match e
    case Column(_, i) => AliasedBinding(scan, scope, i)
    case Position(i, alias) => if alias != [] then NamesIts(scan, scope, i, alias) else AliasedPosition(scan, scope, i)
    case CastTo(child, _, _) => AliasedSub(scan, scope, child)
    case Call(_, args) => AliasedAll(scan, scope, args)
    case Negate(child) => AliasedSub(scan, scope, child)
    case NullTest(_, child) => AliasedSub(scan, scope, child)
    case InTest(_, child, items) => AliasedSub(scan, scope, child) && AliasedAll(scan, scope, items)
    case Compare(_, l, r) => AliasedSub(scan, scope, l) && AliasedSub(scan, scope, r)
    case Conjoin(_, children) => AliasedAll(scan, scope, children)
    case Case(checks, otherwise) =>
      AliasedChecks(scan, scope, checks) && (otherwise.Some? ==> AliasedSub(scan, scope, otherwise.value))
    case Between(i, l, u, _, _) => AliasedSub(scan, scope, i) && AliasedSub(scan, scope, l)
      && AliasedSub(scan, scope, u)
    case _ => true
  }

  /** The scan's output positions hold the named columns of the row. */
  ghost predicate Delivers(scan: E.Scan, at: nat -> D.Scalar, row: S.Row) {
    forall i: nat | i < |scan.columns| && scan.columns[i].Some? && scan.columns[i].value < |scan.names| ::
      at(i) == row(scan.names[scan.columns[i].value])
  }

  /** A row of the table, seen by the query through positions and by the pushed-down expression through names. */
  datatype View = View(scan: E.Scan, ctx: D.Context, at: nat -> D.Scalar, sym: S.Symbols, row: S.Row) {
    ghost predicate Valid() {
      Delivers(scan, at, row)
    }

    /** `n` decodes, to an expression with value `x`. */
    ghost predicate Gives(n: IR.Node, x: D.Scalar) {
      T.Translate(n, ctx).Some? ==> S.Eval(T.Translate(n, ctx).value, row, sym) == x
    }

    ghost predicate GivesSub(n: IR.Node, x: D.Scalar) {
      T.TranslateSub(n, ctx).Some? ==> S.EvalSub(T.TranslateSub(n, ctx).value, row, sym) == x
    }
  }

  // Every SET expression that is encoded and decoded has the value it has in its scope.

  ghost predicate Built(v: View, scope: Scope, e: Expr) {
    v.Valid() && Build(v.scan, scope, e).Some? && Aliased(v.scan, scope, e)
  }

  ghost predicate Preserved(v: View, scope: Scope, e: Expr)
    requires Built(v, scope, e)
  {
    v.Gives(Build(v.scan, scope, e).value, Value(scope, e, v.at, v.sym))
  }

  lemma {:induction false} BuildMeaning(v: View, scope: Scope, e: Expr)
    requires Built(v, scope, e)
    ensures Preserved(v, scope, e)
    decreases scope, 1, e, 1
  {
    match e
    case Column(table, i) => BindingMeaning(v, scope, table, i);
    case Position(i, alias) =>
      if alias != [] {
        AliasMeaning(v, alias);
        CopiesSource(scope, i, v.at, v.sym);
      } else {
        PositionMeaning(v, scope, i);
      }
    case Constant(_) =>
    case CastTo(_, _, _) => CastMeaning(v, scope, e);
    case Call(_, _) => CallMeaning(v, scope, e);
    case Negate(_) => NegateMeaning(v, scope, e);
    case NullTest(_, _) => NullTestMeaning(v, scope, e);
    case InTest(_, _, _) => InMeaning(v, scope, e);
    case Compare(_, _, _) => CompareMeaning(v, scope, e);
    case Conjoin(_, _) => ConjoinMeaning(v, scope, e);
    case Case(_, _) => CaseMeaning(v, scope, e);
    case Between(_, _, _, _, _) => BetweenMeaning(v, scope, e);
  }

  lemma {:induction false} SubMeaning(v: View, scope: Scope, e: Expr)
    requires v.Valid() && BuildSub(v.scan, scope, e).Some? && AliasedSub(v.scan, scope, e)
    ensures v.GivesSub(BuildSub(v.scan, scope, e).value, ValueSub(scope, e, v.at, v.sym))
    decreases scope, 1, e, 2
  {
    BuildMeaning(v, scope, e);
  }

  lemma {:induction false} CopiesSource(scope: Scope, i: nat, at: nat -> D.Scalar, sym: S.Symbols)
    requires Source(scope, i).Some?
    ensures PositionValue(scope, i, at, sym) == at(Source(scope, i).value)
    decreases scope, 0
  {
    match scope
    case Get(_) =>
    case Filter(below) => CopiesSource(below, i, at, sym);
    case Projection(_, es, below) => CopiesCopy(below, es[i], at, sym);
  }

  lemma {:induction false} CopiesBinding(scope: Scope, i: nat, at: nat -> D.Scalar, sym: S.Symbols)
    requires BindingSource(scope, i).Some?
    ensures BindingValue(scope, i, at, sym) == at(BindingSource(scope, i).value)
    decreases scope, 0
  {
    match scope
    case Get(_) =>
    case Filter(below) => CopiesBinding(below, i, at, sym);
    case Projection(_, es, below) => CopiesCopy(below, es[i], at, sym);
  }

  lemma {:induction false} CopiesCopy(scope: Scope, e: Expr, at: nat -> D.Scalar, sym: S.Symbols)
    requires CopyOf(scope, e).Some?
    ensures Value(scope, e, at, sym) == at(CopyOf(scope, e).value)
    decreases scope, 1
  {
    if e.Column? {
      CopiesBinding(scope, e.column, at, sym);
    } else {
      CopiesSource(scope, e.index, at, sym);
    }
  }

  lemma AliasMeaning(v: View, name: Text)
    ensures v.Gives(IR.ColumnRef([name]), v.row(name))
  {
    assert D.NestFields([name]) == D.Column(name);
  }

  lemma BaseMeaning(v: View, i: nat)
    requires v.Valid() && BaseColumn(v.scan, i).Some?
    ensures v.Gives(BaseColumn(v.scan, i).value, v.at(i))
  {
    AliasMeaning(v, v.scan.names[E.ScanColumn(v.scan, i).value]);
  }

  lemma {:induction false} PositionMeaning(v: View, scope: Scope, i: nat)
    requires v.Valid() && BuildPosition(v.scan, scope, i).Some? && AliasedPosition(v.scan, scope, i)
    ensures v.Gives(BuildPosition(v.scan, scope, i).value, PositionValue(scope, i, v.at, v.sym))
    decreases scope, 0
  {
    match scope
    case Get(_) => BaseMeaning(v, i);
    case Filter(below) => PositionMeaning(v, below, i);
    case Projection(_, es, below) => BuildMeaning(v, below, es[i]);
  }

  lemma {:induction false} BindingMeaning(v: View, scope: Scope, table: nat, i: nat)
    requires v.Valid() && BuildBinding(v.scan, scope, table, i).Some? && AliasedBinding(v.scan, scope, i)
    ensures v.Gives(BuildBinding(v.scan, scope, table, i).value, BindingValue(scope, i, v.at, v.sym))
    decreases scope, 0
  {
    match scope
    case Get(_) => BaseMeaning(v, i);
    case Filter(below) => BindingMeaning(v, below, table, i);
    case Projection(_, es, below) => BuildMeaning(v, below, es[i]);
  }

  lemma {:induction false} AllMeaning(v: View, scope: Scope, es: seq<Expr>)
    requires v.Valid() && BuildAll(v.scan, scope, es).Some? && AliasedAll(v.scan, scope, es)
    ensures |BuildAll(v.scan, scope, es).value| == |es|
    ensures var cs := T.TranslateAll(BuildAll(v.scan, scope, es).value, v.ctx);
            cs.Some? ==> S.EvalAll(cs.value, v.row, v.sym) == ValueAll(scope, es, v.at, v.sym)
    decreases scope, 1, es
  {
    if es != [] {
      var cs := BuildAll(v.scan, scope, es).value;
      assert cs[1..] == BuildAll(v.scan, scope, es[1..]).value;
      SubMeaning(v, scope, es[0]);
      AllMeaning(v, scope, es[1..]);
    }
  }

  lemma {:induction false} CastMeaning(v: View, scope: Scope, e: Expr)
    requires Built(v, scope, e) && e.CastTo?
    ensures Preserved(v, scope, e)
    decreases scope, 1, e, 0
  {
    SubMeaning(v, scope, e.child);
  }

  lemma {:induction false} NegateMeaning(v: View, scope: Scope, e: Expr)
    requires Built(v, scope, e) && e.Negate?
    ensures Preserved(v, scope, e)
    decreases scope, 1, e, 0
  {
    SubMeaning(v, scope, e.child);
  }

  lemma {:induction false} NullTestMeaning(v: View, scope: Scope, e: Expr)
    requires Built(v, scope, e) && e.NullTest?
    ensures Preserved(v, scope, e)
    decreases scope, 1, e, 0
  {
    P.NullTestTranslation(BuildSub(v.scan, scope, e.child).value, v.ctx, v.row, v.sym);
    SubMeaning(v, scope, e.child);
  }

  lemma {:induction false} InMeaning(v: View, scope: Scope, e: Expr)
    requires Built(v, scope, e) && e.InTest?
    ensures Preserved(v, scope, e)
    decreases scope, 1, e, 0
  {
    var c, cs := BuildSub(v.scan, scope, e.child).value, BuildAll(v.scan, scope, e.items).value;
    if T.Translate(IR.InList(e.negated, c, cs), v.ctx).Some? {
      P.InListTranslation(e.negated, c, cs, v.ctx, v.row, v.sym);
      SubMeaning(v, scope, e.child);
      AllMeaning(v, scope, e.items);
    }
  }

  lemma {:induction false} CompareMeaning(v: View, scope: Scope, e: Expr)
    requires Built(v, scope, e) && e.Compare?
    ensures Preserved(v, scope, e)
    decreases scope, 1, e, 0
  {
    SubMeaning(v, scope, e.lhs);
    SubMeaning(v, scope, e.rhs);
  }

  lemma {:induction false} ConjoinMeaning(v: View, scope: Scope, e: Expr)
    requires Built(v, scope, e) && e.Conjoin?
    ensures Preserved(v, scope, e)
    decreases scope, 1, e, 0
  {
    var cs := BuildAll(v.scan, scope, e.children).value;
    if T.Translate(IR.Conjunction(e.conj.value, cs), v.ctx).Some? {
      F.ConjunctionTranslation(e.conj.value, cs, v.ctx, v.row, v.sym);
      AllMeaning(v, scope, e.children);
    }
  }

  lemma {:induction false} BetweenMeaning(v: View, scope: Scope, e: Expr)
    requires Built(v, scope, e) && e.Between?
    ensures Preserved(v, scope, e)
    decreases scope, 1, e, 0
  {
    var i, lo, hi := BuildSub(v.scan, scope, e.input).value, BuildSub(v.scan, scope, e.lower).value,
      BuildSub(v.scan, scope, e.upper).value;
    var l, u := IR.Comparison(P.LowerOp(e.lowerInclusive), i, lo), IR.Comparison(P.UpperOp(e.upperInclusive), i, hi);
    SubMeaning(v, scope, e.input);
    SubMeaning(v, scope, e.lower);
    SubMeaning(v, scope, e.upper);
    if T.Translate(IR.Conjunction(IR.And, [l, u]), v.ctx).Some? {
      P.RangeTranslation(l, u, v.ctx, v.row, v.sym);
      P.ComparisonTranslation(l, v.ctx, v.row, v.sym);
      P.ComparisonTranslation(u, v.ctx, v.row, v.sym);
    }
  }

  lemma BinaryTranslation(op: IR.ArithmeticOp, cs: seq<IR.Node>, v: View)
    requires |cs| == 2 && T.Translate(IR.Binary(op, cs[0], cs[1]), v.ctx).Some?
    ensures T.TranslateAll(cs, v.ctx).Some?
    ensures var xs := S.EvalAll(T.TranslateAll(cs, v.ctx).value, v.row, v.sym);
            S.Eval(T.Translate(IR.Binary(op, cs[0], cs[1]), v.ctx).value, v.row, v.sym) ==
              v.sym.arithmetic(op, xs[0], xs[1])
  {
    assert cs == [cs[0], cs[1]] && cs[1..] == [cs[1]] && cs[1..][1..] == [];
    assert T.TranslateAll(cs[1..], v.ctx).Some?;
    P.PairTranslation(cs[0], cs[1], v.ctx, v.row, v.sym);
  }

  lemma {:induction false} CallMeaning(v: View, scope: Scope, e: Expr)
    requires Built(v, scope, e) && e.Call?
    ensures Preserved(v, scope, e)
    decreases scope, 1, e, 0
  {
    var cs := BuildAll(v.scan, scope, e.args).value;
    AllMeaning(v, scope, e.args);
    var n := Build(v.scan, scope, e).value;
    if T.Translate(n, v.ctx).Some? {
      if |cs| == 2 && ArithmeticName(e.name).Some? {
        BinaryTranslation(ArithmeticName(e.name).value, cs, v);
      } else {
        P.FunctionTranslation(e.name, cs, v.ctx, v.row, v.sym);
      }
    }
  }

  lemma {:induction false} CheckMeaning(v: View, scope: Scope, c: Check)
    requires v.Valid() && BuildCheck(v.scan, scope, c).Some? && AliasedCheck(v.scan, scope, c)
    ensures var b := T.TranslateBranch(BuildCheck(v.scan, scope, c).value, v.ctx);
            b.Some? ==> S.EvalBranch(b.value, v.row, v.sym) == CheckValue(scope, c, v.at, v.sym)
    decreases scope, 1, c
  {
    SubMeaning(v, scope, c.when);
    SubMeaning(v, scope, c.result);
  }

  lemma {:induction false} ChecksMeaning(v: View, scope: Scope, cs: seq<Check>, otherwise: D.Scalar)
    requires v.Valid() && BuildChecks(v.scan, scope, cs).Some? && AliasedChecks(v.scan, scope, cs)
    ensures var bs := T.TranslateBranches(BuildChecks(v.scan, scope, cs).value, v.ctx);
            bs.Some? ==> S.EvalCase(bs.value, otherwise, v.row, v.sym) == CaseValue(scope, cs, otherwise, v.at, v.sym)
    decreases scope, 1, cs
  {
    if cs != [] {
      var bs := BuildChecks(v.scan, scope, cs).value;
      assert bs[1..] == BuildChecks(v.scan, scope, cs[1..]).value;
      CheckMeaning(v, scope, cs[0]);
      ChecksMeaning(v, scope, cs[1..], otherwise);
    }
  }

  lemma {:induction false} CaseMeaning(v: View, scope: Scope, e: Expr)
    requires Built(v, scope, e) && e.Case?
    ensures Preserved(v, scope, e)
    decreases scope, 1, e, 0
  {
    if e.otherwise.Some? {
      SubMeaning(v, scope, e.otherwise.value);
      ChecksMeaning(v, scope, e.checks, ValueSub(scope, e.otherwise.value, v.at, v.sym));
    } else {
      ChecksMeaning(v, scope, e.checks, D.Null);
    }
  }

  /** UPDATE computes what SET says: an accepted message, decoded and evaluated on a row, gives the
      expression's value. */
  lemma UpdateIsExact(magic: seq<byte>, v: View, scope: Scope, e: Expr)
    requires Built(v, scope, e) && IR.Encode(Build(v.scan, scope, e).value).Some?
    ensures var decoded := D.ParseMessage(magic, magic + IR.Encode(Build(v.scan, scope, e).value).value, v.ctx);
            decoded.Some? ==> S.Eval(decoded.value, v.row, v.sym) == Value(scope, e, v.at, v.sym)
  {
    T.MessageRoundTrip(magic, Build(v.scan, scope, e).value, v.ctx);
    BuildMeaning(v, scope, e);
  }

  /** The decoded form of an aliased reference has, on this row, the value the reference has. */
  ghost predicate KeepsValue(v: View, scope: Scope, i: nat, alias: Text)
    requires alias != [] && Utf8.Valid(alias)
  {
    var n := Build(v.scan, scope, Position(i, alias)).value;
    S.Eval(T.Translate(n, v.ctx).value, v.row, v.sym) == Value(scope, Position(i, alias), v.at, v.sym)
  }

  /** A row on which only the column called `alias` is true. */
  function OnlyAlias(alias: Text): S.Row {
    (name: Text) => D.Boolean(name == alias)
  }

  function Delivered(scan: E.Scan, row: S.Row): nat -> D.Scalar {
    (j: nat) =>
      if j < |scan.columns| && scan.columns[j].Some? && scan.columns[j].value < |scan.names|
      then row(scan.names[scan.columns[j].value]) else D.Boolean(false)
  }

  lemma DeliveredIsDelivered(scan: E.Scan, row: S.Row)
    ensures Delivers(scan, Delivered(scan, row), row)
  {
  }

  lemma AliasValue(v: View, scope: Scope, i: nat, alias: Text)
    requires alias != [] && Utf8.Valid(alias) && Source(scope, i).Some?
    ensures KeepsValue(v, scope, i, alias) <==> v.row(alias) == v.at(Source(scope, i).value)
  {
    AliasReads(v, scope, i, alias);
    CopiesSource(scope, i, v.at, v.sym);
  }

  /** An aliased reference to a copied column keeps its value on every row the scan delivers if and only if the alias is
      that column's name. */
  lemma AliasDecides(scan: E.Scan, ctx: D.Context, sym: S.Symbols, scope: Scope, i: nat, alias: Text)
    requires alias != [] && Utf8.Valid(alias) && Source(scope, i).Some?
    ensures (forall at, row | Delivers(scan, at, row) :: KeepsValue(View(scan, ctx, at, sym, row), scope, i, alias))
            <==> NamesIts(scan, scope, i, alias)
  {
    if NamesIts(scan, scope, i, alias) {
      forall at, row | Delivers(scan, at, row)
        ensures KeepsValue(View(scan, ctx, at, sym, row), scope, i, alias)
      {
        AliasValue(View(scan, ctx, at, sym, row), scope, i, alias);
      }
    } else {
      var row := OnlyAlias(alias);
      var at := Delivered(scan, row);
      DeliveredIsDelivered(scan, row);
      AliasValue(View(scan, ctx, at, sym, row), scope, i, alias);
      assert !KeepsValue(View(scan, ctx, at, sym, row), scope, i, alias);
    }
  }

  /** Whatever the position computes, an alias that is not the name of a scanned column does not keep its value. */
  lemma UnknownAliasMisreads(scan: E.Scan, ctx: D.Context, sym: S.Symbols, scope: Scope, i: nat, alias: Text)
    requires alias != [] && Utf8.Valid(alias) && forall j: nat :: NameAt(scan, j) != Some(alias)
    ensures exists at, row :: Delivers(scan, at, row) && !KeepsValue(View(scan, ctx, at, sym, row), scope, i, alias)
  {
    var off: S.Row := (name: Text) => D.Boolean(false);
    var at, on := Delivered(scan, off), OnlyAlias(alias);
    DeliveredIsDelivered(scan, off);
    forall j: nat | E.ScanColumn(scan, j).Some?
      ensures at(j) == on(scan.names[E.ScanColumn(scan, j).value])
    {
      assert NameAt(scan, j) == Some(scan.names[E.ScanColumn(scan, j).value]);
    }
    assert Delivers(scan, at, off) && Delivers(scan, at, on);
    AliasReads(View(scan, ctx, at, sym, off), scope, i, alias);
    AliasReads(View(scan, ctx, at, sym, on), scope, i, alias);
  }

  lemma AliasReads(v: View, scope: Scope, i: nat, alias: Text)
    requires alias != [] && Utf8.Valid(alias)
    ensures KeepsValue(v, scope, i, alias) <==> v.row(alias) == PositionValue(scope, i, v.at, v.sym)
  {
    var n := IR.ColumnRef([alias]);
    assert Build(v.scan, scope, Position(i, alias)) == Some(n);
    assert [alias][0] == alias && T.TranslateTexts([alias]).Some?;
    assert T.Translate(n, v.ctx).Some?;
    AliasMeaning(v, alias);
  }

  /** A position right above the scan is encoded as the scanned column of that number. On every row the scan
      delivers this is the value of the position if and only if the column it yields there has the same name. */
  lemma PrunedPositionDecides(scan: E.Scan, ctx: D.Context, sym: S.Symbols, outputs: seq<nat>, i: nat)
    requires NameAt(scan, i).Some? && Utf8.Valid(NameAt(scan, i).value) && M.Output(outputs, i).Some?
    ensures (forall at, row | Delivers(scan, at, row) ::
               View(scan, ctx, at, sym, row).Gives(BuildPosition(scan, Get(outputs), i).value,
                                                   PositionValue(Get(outputs), i, at, sym)))
            <==> NameAt(scan, M.Output(outputs, i).value) == NameAt(scan, i)
  {
    var name, j := NameAt(scan, i).value, M.Output(outputs, i).value;
    var n := IR.ColumnRef([name]);
    assert BuildPosition(scan, Get(outputs), i) == Some(n);
    assert [name][0] == name && T.TranslateTexts([name]).Some? && T.Translate(n, ctx).Some?;
    forall at, row
      ensures View(scan, ctx, at, sym, row).Gives(n, at(j)) <==> row(name) == at(j)
    {
      AliasMeaning(View(scan, ctx, at, sym, row), name);
    }
    if NameAt(scan, j) == Some(name) {
      forall at: nat -> D.Scalar, row: S.Row | Delivers(scan, at, row)
        ensures row(name) == at(j)
      {
        assert E.ScanColumn(scan, j).Some? && scan.names[E.ScanColumn(scan, j).value] == name;
        assert at(j) == row(scan.names[E.ScanColumn(scan, j).value]);
      }
    } else {
      var row := OnlyAlias(name);
      DeliveredIsDelivered(scan, row);
      assert Delivered(scan, row)(j) == D.Boolean(false);
      assert !View(scan, ctx, Delivered(scan, row), sym, row).Gives(n, Delivered(scan, row)(j));
    }
  }

  /** Two columns in the opposite order, and the first of them referred to by the name of the other. */
  const SWAPPED := Projection(1, [Column(0, 1), Column(0, 0)], Get([]))
  const PAIR := E.Scan(0, [Some(0), Some(1)], [[0x61], [0x62]])

  lemma AliasMisreads(ctx: D.Context, sym: S.Symbols, row: S.Row)
    requires row([0x61]) != row([0x62])
    ensures var v := View(PAIR, ctx, Delivered(PAIR, row), sym, row);
            v.Valid() && Utf8.Valid([0x61]) && !KeepsValue(v, SWAPPED, 0, [0x61])
  {
    var at := Delivered(PAIR, row);
    DeliveredIsDelivered(PAIR, row);
    assert Source(SWAPPED, 0) == Some(1);
    assert NameAt(PAIR, 1) == Some([0x62]);
    AliasValue(View(PAIR, ctx, at, sym, row), SWAPPED, 0, [0x61]);
  }
}
