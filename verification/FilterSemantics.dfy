/** Three-valued evaluation of decoded expressions, over uninterpreted casts, functions and LIKE. */
module FilterSemantics {
  import opened Bytes
  import IR = ExprIR
  import opened ExprDecode

  type Row = Text -> Scalar

  datatype Symbols = Symbols(
    compare: (IR.CompareOp, Scalar, Scalar) -> bool,
    arithmetic: (IR.ArithmeticOp, Scalar, Scalar) -> Scalar, cast: (DataType, Scalar) -> Scalar,
    call: (Udf, seq<Scalar>) -> Scalar, like: (Scalar, Scalar, Option<byte>, bool) -> Scalar)

  function And3(x: Scalar, y: Scalar): Scalar {
    if x == Boolean(false) || y == Boolean(false) then Boolean(false)
    else if x == Boolean(true) && y == Boolean(true) then Boolean(true)
    else Null
  }

  function Or3(x: Scalar, y: Scalar): Scalar {
    if x == Boolean(true) || y == Boolean(true) then Boolean(true)
    else if x == Boolean(false) && y == Boolean(false) then Boolean(false)
    else Null
  }

  function Not3(x: Scalar): Scalar {
    if x == Boolean(true) then Boolean(false) else if x == Boolean(false) then Boolean(true) else Null
  }

  /** Comparison: NULL when an operand is NULL, except for the two null-safe operators. */
  function Compare3(op: IR.CompareOp, x: Scalar, y: Scalar, sym: Symbols): Scalar {
    if x != Null && y != Null then Boolean(sym.compare(op, x, y))
    else if op.DistinctFrom? then Boolean(x != Null || y != Null)
    else if op.NotDistinctFrom? then Boolean(x == Null && y == Null)
    else Null
  }

  function AnyEqual(x: Scalar, items: seq<Scalar>, sym: Symbols): Scalar {
    if items == [] then Boolean(false)
    else Or3(Compare3(IR.Eq, x, items[0], sym), AnyEqual(x, items[1..], sym))
  }

  function In3(negated: bool, x: Scalar, items: seq<Scalar>, sym: Symbols): Scalar {
    if negated then Not3(AnyEqual(x, items, sym)) else AnyEqual(x, items, sym)
  }

  /** The value of an operand. */
  function EvalSub(e: Expr, row: Row, sym: Symbols): Scalar
    decreases e, 1
  {
    Eval(e, row, sym)
  }

  function EvalAll(es: seq<Expr>, row: Row, sym: Symbols): (r: seq<Scalar>)
    ensures |r| == |es|
    decreases es
  {
    if es == [] then [] else [EvalSub(es[0], row, sym)] + EvalAll(es[1..], row, sym)
  }

  function EvalCase(bs: seq<CaseBranch>, otherwise: Scalar, row: Row, sym: Symbols): Scalar
    decreases bs
  {
    if bs == [] then otherwise
    else
      var (taken, result) := EvalBranch(bs[0], row, sym);
      if taken then result else EvalCase(bs[1..], otherwise, row, sym)
  }

  function EvalBranch(b: CaseBranch, row: Row, sym: Symbols): (bool, Scalar)
    decreases b
  {
    (EvalSub(b.when, row, sym) == Boolean(true), EvalSub(b.result, row, sym))
  }

  function Eval(e: Expr, row: Row, sym: Symbols): Scalar
    decreases e, 0
  {
    match e
    case Column(name) => row(name)
    case Literal(v) => v
    case Cast(child, to) => sym.cast(to, EvalSub(child, row, sym))
    case BinaryExpr(l, Arithmetic(op), r) => sym.arithmetic(op, EvalSub(l, row, sym), EvalSub(r, row, sym))
    case BinaryExpr(l, Compare(op), r) => Compare3(op, EvalSub(l, row, sym), EvalSub(r, row, sym), sym)
    case BinaryExpr(l, Logical(And), r) => And3(EvalSub(l, row, sym), EvalSub(r, row, sym))
    case BinaryExpr(l, Logical(Or), r) => Or3(EvalSub(l, row, sym), EvalSub(r, row, sym))
    case Not(child) => Not3(EvalSub(child, row, sym))
    case ScalarFunction(f, args) => sym.call(f, EvalAll(args, row, sym))
    case Case(bs, otherwise) =>
      EvalCase(bs, if otherwise.Some? then EvalSub(otherwise.value, row, sym) else Null, row, sym)
    case IsNull(child) => Boolean(EvalSub(child, row, sym) == Null)
    case IsNotNull(child) => Boolean(EvalSub(child, row, sym) != Null)
    case InList(child, list, negated) => In3(negated, EvalSub(child, row, sym), EvalAll(list, row, sym), sym)
    case Like(child, pattern, escape, ci) => sym.like(EvalSub(child, row, sym), EvalSub(pattern, row, sym), escape, ci)
  }

  /** The meaning of an n-ary conjunction or disjunction, independent of any fold order;
      with one operand it is that operand. */
  function Nary(op: IR.ConjunctionOp, xs: seq<Scalar>): Scalar {
    var absorbing, neutral := Boolean(op.Or?), Boolean(op.And?);
    if |xs| == 1 then xs[0]
    else if absorbing in xs then absorbing
    else if forall i | 0 <= i < |xs| :: xs[i] == neutral then neutral
    else Null
  }

  function Combine(op: IR.ConjunctionOp, x: Scalar, y: Scalar): Scalar {
    if op.And? then And3(x, y) else Or3(x, y)
  }

  /** Folding an n-ary conjunction to the left keeps its three-valued meaning. */
  lemma {:induction false} FoldLeftMeaning(op: IR.ConjunctionOp, es: seq<Expr>, row: Row, sym: Symbols)
    requires es != []
    ensures Eval(FoldLeft(op, es), row, sym) == Nary(op, EvalAll(es, row, sym))
  {
    if |es| == 1 {
      assert EvalAll(es, row, sym)[0] == Eval(es[0], row, sym);
    } else {
      var init, last := es[..|es| - 1], es[|es| - 1];
      FoldLeftMeaning(op, init, row, sym);
      assert es == init + [last];
      EvalAllAppend(init, last, row, sym);
      NaryAppend(op, EvalAll(init, row, sym), Eval(last, row, sym));
      assert Eval(FoldLeft(op, es), row, sym)
             == Combine(op, Eval(FoldLeft(op, init), row, sym), Eval(last, row, sym));
    }
  }

  lemma {:induction false} EvalAllAppend(es: seq<Expr>, e: Expr, row: Row, sym: Symbols)
    ensures EvalAll(es + [e], row, sym) == EvalAll(es, row, sym) + [Eval(e, row, sym)]
  {
    if es != [] {
      assert (es + [e])[1..] == es[1..] + [e];
      EvalAllAppend(es[1..], e, row, sym);
    } else {
      assert es + [e] == [e] && [e][1..] == [];
    }
  }

  lemma NaryAppend(op: IR.ConjunctionOp, xs: seq<Scalar>, x: Scalar)
    requires xs != []
    ensures Nary(op, xs + [x]) == Combine(op, Nary(op, xs), x)
  {
    var all := xs + [x];
    assert forall i | 0 <= i < |xs| :: all[i] == xs[i];
    assert all[|xs|] == x;
    assert all[0] == xs[0];
  }
}
